/** The configuration of a logger, and what a target keeps of its own. */
module Config {
  import opened Text

  // target types
  const SYSTEM_OUT_TARGET := 0
  const SYSTEM_ERR_TARGET := 1
  const FILE_TARGET := 2

  const DEFAULT_FORMAT :=
    "%%monstr %%day %%hour:%%min:%%sec.%%ms [%%source:%%line] [%%level:%%kinds] [%%module:%%entity] %%log"
  const DEFAULT_TEXTS := "%%path%%prefix%%filename%%title_%%date"
  const DEFAULT_CLOCK := "_%%hour-%%min-%%sec-%%ms_"
  const DEFAULT_PROCESS := "%%procname_%%pid%%suffix"
  const DEFAULT_FILENAME_FORMAT := DEFAULT_TEXTS + DEFAULT_CLOCK + DEFAULT_PROCESS
  const DEFAULT_SUFFIX := ".log"
  /** `CommonReg::Trace_path()` of the standalone build. */
  const TRACE_PATH := "."

  /** The members `FileTargetConfig` adds to `TargetConfig`. */
  datatype FilePart = FilePart(
    filepath: string, filename: string, maxFilesizeBytes: nat, logFrequency: nat,
    prefix: string, suffix: string, filenameFormat: string, logStorageDuration: int)

  /** A `TargetConfig`, or the derived `FileTargetConfig`; the type is stored apart from the class. */
  datatype TargetConfig =
    | BaseConfig(name: string, format: string, targetType: int)
    | FileConfig(name: string, format: string, targetType: int, file: FilePart)

  datatype DispatchEntry = DispatchEntry(level: int, kinds: bv64, targets: set<string>)

  datatype LoggerConfig = LoggerConfig(
    targets: seq<TargetConfig>, dispatch: seq<DispatchEntry>, useFallback: bool, asynchronousMode: bool)

  function OrElse(s: string, default: string): (r: string)
    ensures default != "" ==> r != ""
  {
    if s == "" then default else s
  }

  /** The constructor of `TargetConfig`. */
  function NewBaseConfig(name: string, format: string, targetType: int): (c: TargetConfig) {
    BaseConfig(name, OrElse(format, DEFAULT_FORMAT), targetType)
  }

  /** The constructor of `FileTargetConfig`: empty texts leave the defaults. */
  function NewFileConfig(name: string, format: string, f: FilePart): (c: TargetConfig) {
    FileConfig(name, OrElse(format, DEFAULT_FORMAT), FILE_TARGET,
      f.(filepath := OrElse(f.filepath, TRACE_PATH), suffix := OrElse(f.suffix, DEFAULT_SUFFIX),
         filenameFormat := OrElse(f.filenameFormat, DEFAULT_FILENAME_FORMAT)))
  }

  // ----- targets -----

  datatype Target =
    | ConsoleTarget(name: string, format: string, targetType: int)
    | FileTarget(name: string, format: string, targetType: int, file: FilePart)

  const DEFAULT_FILE := FilePart(TRACE_PATH, "", 0, 24, "", DEFAULT_SUFFIX, DEFAULT_FILENAME_FORMAT, 0)

  /** `New_log_target`; `None` stands for the null pointer. */
  function NewLogTarget(targetType: int): (t: Option<Target>) {
    if targetType == SYSTEM_OUT_TARGET || targetType == SYSTEM_ERR_TARGET then
      Some(ConsoleTarget("", DEFAULT_FORMAT, targetType))
    else if targetType == FILE_TARGET then Some(FileTarget("", DEFAULT_FORMAT, targetType, DEFAULT_FILE))
    else None
  }

  /** A file target casts its configuration to `FileTargetConfig` without asking. */
  predicate CastOk(t: Target, c: TargetConfig) { t.FileTarget? ==> c.FileConfig? }

  /** `Load_config` of the target's class. */
  function LoadConfig(t: Target, c: TargetConfig): (r: Target)
    requires CastOk(t, c)
  {
    match t
    case ConsoleTarget(_, format, _) => ConsoleTarget(c.name, OrElse(c.format, format), c.targetType)
    case FileTarget(_, format, _, f) =>
      FileTarget(c.name, OrElse(c.format, format), c.targetType,
        FilePart(c.file.filepath, OrElse(c.file.filename, f.filename), c.file.maxFilesizeBytes, c.file.logFrequency,
                 OrElse(c.file.prefix, f.prefix), OrElse(c.file.suffix, f.suffix),
                 OrElse(c.file.filenameFormat, f.filenameFormat), c.file.logStorageDuration))
  }

  /** `Export_config` of the target's class. */
  function ExportTarget(t: Target): (c: TargetConfig) {
    match t
    case ConsoleTarget(name, format, targetType) => NewBaseConfig(name, format, targetType)
    case FileTarget(name, format, targetType, f) =>
      var base := NewBaseConfig(name, format, targetType);
      NewFileConfig(base.name, base.format, f)
  }
}
