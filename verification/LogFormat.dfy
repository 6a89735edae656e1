/**
 `Target::Format_log_message`: the record pass and the time pass over the format of a line, and
 the text of the kinds of a record.
 */
module LogFormat {
  import opened Placeholders
  import opened Replacement
  import opened Template
  import opened Text
  import opened TimeText

  datatype LogRecord = LogRecord(
    level: int, kinds: bv64, moduleName: string, file: string, line: nat,
    entity: string, message: string, time: nat)

  // ----- level and kinds -----

  /** The names as the logger prints them, misspelling included. */
  function LevelText(level: int): (s: string) {
    match level
    case 0 => "DEBUG"
    case 1 => "INFO"
    case 2 => "WARNING"
    case 3 => "ERROR"
    case 4 => "CRTIICAL"
    case 5 => "FATAL"
    case _ => "UNKNOWN"
  }

  const ALL_KINDS: bv64 := 7

  predicate Test(kinds: bv64, bit: bv64) { kinds & bit != 0 }

  function Count(kinds: bv64): (n: nat) {
    (if Test(kinds, 1) then 1 else 0) + (if Test(kinds, 2) then 1 else 0) + (if Test(kinds, 4) then 1 else 0)
  }

  function JoinComma(names: seq<string>): (s: string) { Join(names, ",") }

  function KindNames(kinds: bv64): (names: seq<string>) {
    (if Test(kinds, 1) then ["TECHNICAL"] else [])
    + (if Test(kinds, 2) then ["ACTION"] else [])
    + (if Test(kinds, 4) then ["EVENT"] else [])
  }

  /** `LogKindSet::To_string`. Its branch for unknown kinds is left out: see `NoUnknownKinds`. */
  function KindsText(kinds: bv64): (s: string) {
    if kinds == ALL_KINDS then "ALL" else JoinComma(KindNames(kinds))
  }

  /** The count of set kinds only looks at the three known bits, so no kind is ever unknown,
      whatever other bits are set. */
  lemma NoUnknownKinds(kinds: bv64)
    ensures Count(kinds) - |KindNames(kinds)| == 0
  {
  }

  predicate IsSeparator(c: char) { c == '/' || c == '\\' }

  /** Behind the last separator among the first `n` characters. */
  function BaseStart(path: string, n: nat): (i: nat)
    requires n <= |path|
    ensures i <= n && (i > 0 ==> IsSeparator(path[i - 1]))
    ensures forall j :: i <= j < n ==> !IsSeparator(path[j])
  {
    if n == 0 || IsSeparator(path[n - 1]) then n else BaseStart(path, n - 1)
  }

  /** The source file without its directories. */
  function BaseName(path: string): (s: string) { path[BaseStart(path, |path|)..] }

  function RecordTable(r: LogRecord): (m: map<string, string>)
    ensures m.Keys == RECORD_KEYS
  {
    map[
      LEVEL := LevelText(r.level),
      KINDS := KindsText(r.kinds),
      MODULE := r.moduleName,
      SOURCE := BaseName(r.file),
      LINE := Decimal(r.line),
      ENTITY := r.entity,
      LOG := r.message
    ]
  }

  const LINE_KEYS := RECORD_KEYS + TIME_KEYS

  /** Both tables of a log line. */
  function LineTable(r: LogRecord): (m: map<string, string>)
    ensures m.Keys == LINE_KEYS
  {
    RecordTable(r) + TimeTable(r.time)
  }

  // ----- the two passes -----

  /** What the record pass and then the time pass can make of the format. */
  ghost predicate IsLine(format: string, r: LogRecord, line: string) {
    exists mid :: Substituted(format, RecordTable(r), mid) && Substituted(mid, TimeTable(r.time), line)
  }

  /** `Format_log_message` of a target that does not colour. */
  method FormatLogMessage(format: string, r: LogRecord) returns (line: string)
    ensures IsLine(format, r, line)
    ensures forall ps :: WellFormed(ps, LINE_KEYS) && format == Flat(ps) && HarmlessRecord(r) ==> line == Line(ps, r)
  {
    line := ReplacePlaceholders(format, RecordTable(r));
    line := FormatTime(line, r.time);
    forall ps | WellFormed(ps, LINE_KEYS) && format == Flat(ps) && HarmlessRecord(r) ensures line == Line(ps, r) {
      LineMeans(ps, r, line);
    }
  }

  /** The message holds nothing that could be taken for another placeholder, the rest no '%'. */
  ghost predicate HarmlessRecord(r: LogRecord) { PlainCaller(r) && Inert(r.message, LINE_KEYS - {LOG}) }

  lemma LineMeans(ps: seq<Piece>, r: LogRecord, line: string)
    requires HarmlessRecord(r) && WellFormed(ps, LINE_KEYS) && IsLine(Flat(ps), r, line)
    ensures line == Line(ps, r)
  {
    var mid :| Substituted(Flat(ps), RecordTable(r), mid) && Substituted(mid, TimeTable(r.time), line);
    var o1 :| IsOrder(o1, RecordTable(r).Keys) && mid == ReplaceEach(Flat(ps), o1, RecordTable(r));
    var o2 :| IsOrder(o2, TimeTable(r.time).Keys) && line == ReplaceEach(mid, o2, TimeTable(r.time));
    LineIsFilled(ps, r, o1, o2);
  }

  /** What callers pass in besides the message holds no '%'. */
  ghost predicate PlainCaller(r: LogRecord) {
    Plain(r.moduleName) && Plain(r.file) && Plain(r.entity)
  }

  lemma KindsTextIsPlain(kinds: bv64)
    ensures Plain(KindsText(kinds))
  {
    if kinds != ALL_KINDS {
      var names := KindNames(kinds);
      assert forall i :: 0 <= i < |names| ==> names[i] in {"TECHNICAL", "ACTION", "EVENT"};
      JoinIsPlain(names);
    }
  }

  lemma {:induction false} JoinIsPlain(names: seq<string>)
    requires forall i :: 0 <= i < |names| ==> names[i] in {"TECHNICAL", "ACTION", "EVENT"}
    ensures Plain(JoinComma(names))
  {
    if |names| > 0 {
      assert names[0] in {"TECHNICAL", "ACTION", "EVENT"};
      assert Plain("TECHNICAL") && Plain("ACTION") && Plain("EVENT");
      JoinIsPlain(names[1..]);
    }
  }

  lemma LevelTextIsPlain(level: int)
    ensures Plain(LevelText(level))
  {
  }

  lemma RecordValuesArePlain(r: LogRecord)
    requires PlainCaller(r)
    ensures forall k :: k in RECORD_KEYS && k != LOG ==> Plain(RecordTable(r)[k])
  {
    LevelTextIsPlain(r.level);
    KindsTextIsPlain(r.kinds);
    FieldsArePlain(r.line);
    assert forall c :: c in BaseName(r.file) ==> c in r.file;
  }

  lemma LineKeys()
    ensures KeyTable(LINE_KEYS) && RECORD_KEYS !! TIME_KEYS
  {
    TablesInAll();
    SubTable(LINE_KEYS);
    forall k | k in RECORD_KEYS ensures k !in TIME_KEYS { RecordKeyNotTime(k); }
  }

  lemma RecordKeyNotTime(k: string)
    requires k in RECORD_KEYS
    ensures k !in TIME_KEYS
  {
  }

  /** The line every order of both maps gives: the first placeholder of each kind filled. */
  function Line(ps: seq<Piece>, r: LogRecord): (s: string) {
    Flat(FillAll(ps, LINE_KEYS, LineTable(r)))
  }

  /** Main result for log lines: exactly when the message holds no text that could be taken for
      one of the other placeholders, every well-formed format and every order of the two maps give
      the line in which each placeholder is filled once, all at the same time. */
  lemma LineIsFilledExactlyWhenInert(r: LogRecord)
    requires PlainCaller(r)
    ensures AlwaysFills(RecordTable(r), TimeTable(r.time)) <==> Inert(r.message, LINE_KEYS - {LOG})
  {
    LineKeys();
    RecordValuesArePlain(r);
    TimeValuesArePlain(r.time);
    FillsExactlyWhenInertFor(RecordTable(r), TimeTable(r.time), LOG, RECORD_KEYS, TIME_KEYS);
  }

  lemma LineIsFilled(ps: seq<Piece>, r: LogRecord, o1: seq<string>, o2: seq<string>)
    requires PlainCaller(r) && Inert(r.message, LINE_KEYS - {LOG}) && WellFormed(ps, LINE_KEYS)
    requires IsOrder(o1, RECORD_KEYS) && IsOrder(o2, TIME_KEYS)
    ensures ReplaceEach(ReplaceEach(Flat(ps), o1, RecordTable(r)), o2, TimeTable(r.time)) == Line(ps, r)
  {
    LineIsFilledExactlyWhenInert(r);
  }
}
