/** The logger configuration as an instance of the serializer: its classes, schemas and defaults. */
module ConfigJson {
  import opened Config
  import opened Json
  import opened Text

  // ----- the classes -----

  const KIND_SET := Class([Member("bits", IntT)], [VInt(0)], None)

  const DISPATCH_ENTRY := Class(
    [Member("level", IntT), Member("kinds", ObjectT(KIND_SET)), Member("targets", SetT)],
    [VInt(1), VObject([VInt(0)]), VSet([])],
    Some(Schema([("level", KNumber), ("kinds", KObject), ("targets", KArray)], ["level", "kinds", "targets"])))

  const TARGET_MEMBERS :=
    [Member("target_name", StringT), Member("format_string", StringT), Member("target_type", IntT)]
  const TARGET_PROPERTIES := [("target_name", KString), ("format_string", KString), ("target_type", KNumber)]
  const TARGET_REQUIRED := ["target_name", "format_string", "target_type"]

  const TARGET_CONFIG := Class(
    TARGET_MEMBERS,
    [VString("unnamed"), VString(DEFAULT_FORMAT), VInt(3)],
    Some(Schema(TARGET_PROPERTIES, TARGET_REQUIRED)))

  const FILE_MEMBERS := [
    Member("filepath", StringT), Member("filename", StringT),
    Member("max_filesize_bytes", IntT), Member("log_frequency", IntT),
    Member("prefix", StringT), Member("suffix", StringT),
    Member("filename_format", StringT), Member("log_storage_duration", IntT)]

  /** The schema of the derived class is the base schema, extended. */
  const FILE_TARGET_CONFIG := Class(
    TARGET_MEMBERS + FILE_MEMBERS,
    [VString("undefined"), VString(DEFAULT_FORMAT), VInt(2)]
    + [VString(TRACE_PATH), VString(""), VInt(0), VInt(24), VString(""), VString(DEFAULT_SUFFIX),
       VString(DEFAULT_FILENAME_FORMAT), VInt(30)],
    Some(Schema(
      TARGET_PROPERTIES + [
        ("filepath", KString), ("filename", KString), ("max_filesize_bytes", KNumber), ("log_frequency", KNumber),
        ("log_storage_duration", KNumber), ("prefix", KString), ("suffix", KString), ("filename_format", KString)],
      TARGET_REQUIRED
      + ["filepath", "filename", "max_filesize_bytes", "log_frequency", "prefix", "suffix", "filename_format"])))

  /** `AllocateFromJSON`. */
  const ALLOCATION: map<int, nat> := map[SYSTEM_OUT_TARGET := 0, SYSTEM_ERR_TARGET := 0, FILE_TARGET := 1]

  const TARGET_POINTER := PointerT("target_type", ALLOCATION, [TARGET_CONFIG, FILE_TARGET_CONFIG])

  const LOGGER_CONFIG := Class(
    [Member("targets", VectorT(TARGET_POINTER)), Member("dispatch", VectorT(ObjectT(DISPATCH_ENTRY))),
     Member("use_fallback", BoolT), Member("asynchronous_mode", BoolT)],
    [VVector([]), VVector([]), VBool(true), VBool(true)],
    Some(Schema(
      [("targets", KArray), ("dispatch", KArray), ("use_fallback", KBoolean), ("asynchronous_mode", KBoolean)],
                ["targets", "dispatch", "use_fallback", "asynchronous_mode"])))

  // ----- configurations as values -----

  /** The elements of a `std::set<std::string>` in their order. */
  ghost function InOrder(s: set<string>): (r: seq<string>)
    ensures Sorted(r) && forall x :: x in r <==> x in s
    decreases |s|
  {
    if s == {} then []
    else
      var x :| x in s;
      InsertKeepsSorted(InOrder(s - {x}), x);
      Insert(InOrder(s - {x}), x)
  }

  ghost function EntryValue(e: DispatchEntry): (v: Value) {
    VObject([VInt(e.level), VObject([VInt(e.kinds as int)]), VSet(InOrder(e.targets))])
  }

  function BaseFields(c: TargetConfig): (fields: seq<Value>) {
    [VString(c.name), VString(c.format), VInt(c.targetType)]
  }

  function FileFields(f: FilePart): (fields: seq<Value>) {
    [VString(f.filepath), VString(f.filename), VInt(f.maxFilesizeBytes), VInt(f.logFrequency),
     VString(f.prefix), VString(f.suffix), VString(f.filenameFormat), VInt(f.logStorageDuration)]
  }

  function TargetValue(c: TargetConfig): (v: Value) {
    match c
    case BaseConfig(_, _, _) => VPointer(0, BaseFields(c))
    case FileConfig(_, _, _, f) => VPointer(1, BaseFields(c) + FileFields(f))
  }

  ghost function ConfigFields(c: LoggerConfig): (fields: seq<Value>) {
    [VVector(seq(|c.targets|, i requires 0 <= i < |c.targets| => TargetValue(c.targets[i]))),
     VVector(seq(|c.dispatch|, i requires 0 <= i < |c.dispatch| => EntryValue(c.dispatch[i]))),
     VBool(c.useFallback), VBool(c.asynchronousMode)]
  }

  // ----- the classes are as they should be -----

  lemma ShortNames()
    ensures DistinctNames(KIND_SET.members) && DistinctNames(DISPATCH_ENTRY.members) && DistinctNames(TARGET_MEMBERS)
    ensures DistinctNames(LOGGER_CONFIG.members)
  {
    assert "target_name"[7] == 'n' && "target_type"[7] == 't';
  }

  lemma FileNames()
    ensures DistinctNames(FILE_TARGET_CONFIG.members)
  {
    assert "target_name"[7] == 'n' && "target_type"[7] == 't';
    assert "filepath"[4] == 'p' && "filename"[4] == 'n';
    assert "prefix"[0] == 'p' && "suffix"[0] == 's';
    assert "format_string"[0] == 'f' && "log_frequency"[0] == 'l';
  }

  lemma {:induction false} KindSetFits()
    ensures ClassOk(KIND_SET) && ClassFits(KIND_SET)
  {
    ShortNames();
  }

  /** Property `k` is member `at[k]`, required name `k` is member `need[k]`. */
  lemma SchemaDescribes(schema: Schema, members: seq<Member>, at: seq<nat>, need: seq<nat>)
    requires DistinctNames(members) && |at| == |schema.properties| && |need| == |schema.required|
    requires forall k :: 0 <= k < |at| ==>
      at[k] < |members| && schema.properties[k] == (members[at[k]].name, KindOf(members[at[k]].ty))
    requires forall k :: 0 <= k < |need| ==> need[k] < |members| && members[need[k]].name == schema.required[k]
    ensures Describes(Some(schema), members)
  {
    forall k | 0 <= k < |schema.required| ensures HasMember(members, schema.required[k]) {
      assert members[need[k]].name == schema.required[k];
    }
    forall k, i | 0 <= k < |schema.properties| && 0 <= i < |members| && schema.properties[k].0 == members[i].name
      ensures schema.properties[k].1 == KindOf(members[i].ty)
    {
      assert members[at[k]].name == members[i].name;
    }
  }

  lemma DispatchEntryFits()
    ensures ClassOk(DISPATCH_ENTRY) && ClassFits(DISPATCH_ENTRY)
  {
    KindSetFits();
    ShortNames();
    SchemaDescribes(DISPATCH_ENTRY.schema.value, DISPATCH_ENTRY.members, [0, 1, 2], [0, 1, 2]);
  }

  lemma TargetConfigFits()
    ensures ClassOk(TARGET_CONFIG) && ClassFits(TARGET_CONFIG)
  {
    ShortNames();
    SchemaDescribes(TARGET_CONFIG.schema.value, TARGET_CONFIG.members, [0, 1, 2], [0, 1, 2]);
  }

  const FILE_AT: seq<nat> := [0, 1, 2, 3, 4, 5, 6, 10, 7, 8, 9]
  const FILE_NEED: seq<nat> := [0, 1, 2, 3, 4, 5, 6, 7, 8, 9]

  lemma FileProperties()
    ensures |FILE_TARGET_CONFIG.members| == 11 && |FILE_TARGET_CONFIG.schema.value.properties| == 11
    ensures forall k :: 0 <= k < 11 ==>
      FILE_AT[k] < 11 && FILE_TARGET_CONFIG.schema.value.properties[k]
        == (FILE_TARGET_CONFIG.members[FILE_AT[k]].name, KindOf(FILE_TARGET_CONFIG.members[FILE_AT[k]].ty))
  {
  }

  lemma FileRequired()
    ensures |FILE_TARGET_CONFIG.members| == 11 && |FILE_TARGET_CONFIG.schema.value.required| == 10
    ensures forall k :: 0 <= k < 10 ==>
      FILE_NEED[k] < 11 && FILE_TARGET_CONFIG.members[FILE_NEED[k]].name == FILE_TARGET_CONFIG.schema.value.required[k]
  {
  }

  lemma FileSchemaDescribes()
    ensures Describes(FILE_TARGET_CONFIG.schema, FILE_TARGET_CONFIG.members)
  {
    FileNames();
    FileProperties();
    FileRequired();
    SchemaDescribes(FILE_TARGET_CONFIG.schema.value, FILE_TARGET_CONFIG.members, FILE_AT, FILE_NEED);
  }

  lemma FileTargetConfigFits()
    ensures ClassOk(FILE_TARGET_CONFIG) && ClassFits(FILE_TARGET_CONFIG)
  {
    FileNames();
    FileSchemaDescribes();
  }

  lemma LoggerSchemaDescribes()
    ensures DistinctNames(LOGGER_CONFIG.members) && Describes(LOGGER_CONFIG.schema, LOGGER_CONFIG.members)
  {
    ShortNames();
    SchemaDescribes(LOGGER_CONFIG.schema.value, LOGGER_CONFIG.members, [0, 1, 2, 3], [0, 1, 2, 3]);
  }

  lemma LoggerConfigFits()
    ensures ClassOk(LOGGER_CONFIG) && ClassFits(LOGGER_CONFIG)
  {
    DispatchEntryFits();
    TargetPointerFits();
    LoggerSchemaDescribes();
    assert TypeOk(VectorT(TARGET_POINTER)) && Fits(VectorT(TARGET_POINTER));
    assert TypeOk(ObjectT(DISPATCH_ENTRY)) && Fits(ObjectT(DISPATCH_ENTRY));
  }

  lemma TargetPointerFits()
    ensures TypeOk(TARGET_POINTER) && Fits(TARGET_POINTER)
  {
    TargetConfigFits();
    FileTargetConfigFits();
  }

  // ----- the values have these types -----

  lemma EntryTyped(e: DispatchEntry)
    ensures Typed(EntryValue(e), ObjectT(DISPATCH_ENTRY)) && NoNull(EntryValue(e))
    ensures Agrees(EntryValue(e), ObjectT(DISPATCH_ENTRY))
  {
    var kinds := VObject([VInt(e.kinds as int)]);
    assert Typed(kinds, ObjectT(KIND_SET)) && NoNull(kinds) && Agrees(kinds, ObjectT(KIND_SET));
  }

  lemma TargetTyped(c: TargetConfig)
    ensures Typed(TargetValue(c), TARGET_POINTER) && NoNull(TargetValue(c))
  {
  }

  /** The type member says which class the configuration is of. */
  predicate TypeNamesClass(c: TargetConfig) {
    match c
    case BaseConfig(_, _, targetType) => targetType == SYSTEM_OUT_TARGET || targetType == SYSTEM_ERR_TARGET
    case FileConfig(_, _, targetType, _) => targetType == FILE_TARGET
  }

  lemma SaysClassAt(fields: seq<Value>, members: seq<Member>, at: nat, key: string, alloc: map<int, nat>, cls: nat)
    requires |fields| == |members| && DistinctNames(members) && at < |members| && members[at].name == key
    requires fields[at].VInt?
    ensures SaysClass(fields, members, key, alloc, cls) <==> fields[at].n in alloc && alloc[fields[at].n] == cls
  {
    if SaysClass(fields, members, key, alloc, cls) {
      var i :| 0 <= i < |members| && members[i].name == key && fields[i].VInt?
        && fields[i].n in alloc && alloc[fields[i].n] == cls;
      assert i == at;
    }
  }

  lemma ScalarsAgree(fields: seq<Value>, members: seq<Member>)
    requires TypedFields(fields, members)
    requires forall i :: 0 <= i < |members| ==> members[i].ty.IntT? || members[i].ty.StringT?
    ensures FieldsAgree(fields, members)
  {
  }

  lemma TargetAgreesExactly(c: TargetConfig)
    ensures Typed(TargetValue(c), TARGET_POINTER)
    ensures Agrees(TargetValue(c), TARGET_POINTER) <==> TypeNamesClass(c)
  {
    TargetTyped(c);
    ShortNames();
    FileNames();
    if c.BaseConfig? {
      SaysClassAt(BaseFields(c), TARGET_CONFIG.members, 2, "target_type", ALLOCATION, 0);
      ScalarsAgree(BaseFields(c), TARGET_CONFIG.members);
    } else {
      SaysClassAt(BaseFields(c) + FileFields(c.file), FILE_TARGET_CONFIG.members, 2, "target_type", ALLOCATION, 1);
      ScalarsAgree(BaseFields(c) + FileFields(c.file), FILE_TARGET_CONFIG.members);
    }
  }

  ghost predicate AllNameClass(targets: seq<TargetConfig>) {
    forall i :: 0 <= i < |targets| ==> TypeNamesClass(targets[i])
  }

  lemma TargetsTyped(c: LoggerConfig)
    ensures var v := ConfigFields(c)[0]; var ty := VectorT(TARGET_POINTER);
      Typed(v, ty) && NoNull(v) && (Agrees(v, ty) <==> AllNameClass(c.targets))
  {
    var v := ConfigFields(c)[0];
    forall i | 0 <= i < |c.targets|
      ensures Typed(v.items[i], TARGET_POINTER) && NoNull(v.items[i])
          && (Agrees(v.items[i], TARGET_POINTER) <==> TypeNamesClass(c.targets[i]))
    {
      TargetTyped(c.targets[i]);
      TargetAgreesExactly(c.targets[i]);
    }
  }

  lemma DispatchTyped(c: LoggerConfig)
    ensures var v := ConfigFields(c)[1]; var ty := VectorT(ObjectT(DISPATCH_ENTRY));
      Typed(v, ty) && NoNull(v) && Agrees(v, ty)
  {
    var v := ConfigFields(c)[1];
    var ty := ObjectT(DISPATCH_ENTRY);
    forall i | 0 <= i < |c.dispatch| ensures Typed(v.items[i], ty) && NoNull(v.items[i]) && Agrees(v.items[i], ty) {
      EntryTyped(c.dispatch[i]);
    }
  }

  lemma ConfigTyped(c: LoggerConfig)
    ensures TypedFields(ConfigFields(c), LOGGER_CONFIG.members) && NoNulls(ConfigFields(c))
    ensures FieldsAgree(ConfigFields(c), LOGGER_CONFIG.members) <==> AllNameClass(c.targets)
  {
    TargetsTyped(c);
    DispatchTyped(c);
    var fields, members := ConfigFields(c), LOGGER_CONFIG.members;
    assert Typed(fields[0], members[0].ty) && Typed(fields[1], members[1].ty);
    assert Typed(fields[2], members[2].ty) && Typed(fields[3], members[3].ty);
    if AllNameClass(c.targets) {
      assert forall i :: 0 <= i < |fields| ==> Agrees(fields[i], members[i].ty);
    } else {
      assert !Agrees(fields[0], members[0].ty);
    }
  }

  /** The JSON object of a configuration. */
  ghost function ConfigJsonOf(c: LoggerConfig): (j: Json)
    ensures j.Null? || j.Obj?
  {
    ConfigTyped(c);
    WriteMembers(ConfigFields(c), LOGGER_CONFIG.members)
  }

  /** Main result: reading a written configuration, into any configuration object, restores every
      field exactly if the type of every target names the class it has. */
  lemma ConfigRoundTripExactly(c: LoggerConfig, current: seq<Value>)
    requires TypedFields(current, LOGGER_CONFIG.members)
    ensures ClassOk(LOGGER_CONFIG)
    ensures ReadObject(ConfigJsonOf(c), LOGGER_CONFIG, current) == Some(ConfigFields(c)) <==> AllNameClass(c.targets)
  {
    LoggerConfigFits();
    ConfigTyped(c);
    ObjectRoundTrip(ConfigFields(c), LOGGER_CONFIG, current);
    ObjectRestoresExactlyIfAgrees(ConfigFields(c), LOGGER_CONFIG, current);
  }

  /** Writing never throws: the configuration and everything in it pass the schemas of their classes. */
  lemma WrittenConfigPasses(c: LoggerConfig)
    ensures TypedFields(ConfigFields(c), LOGGER_CONFIG.members) && ObjectPasses(ConfigFields(c), LOGGER_CONFIG)
    ensures forall i :: 0 <= i < |c.targets| ==>
        Typed(TargetValue(c.targets[i]), TARGET_POINTER) && Passes(TargetValue(c.targets[i]), TARGET_POINTER)
  {
    LoggerConfigFits();
    ConfigTyped(c);
    NoNullsPass(ConfigFields(c), LOGGER_CONFIG);
    TargetPointerFits();
    forall i | 0 <= i < |c.targets|
      ensures Typed(TargetValue(c.targets[i]), TARGET_POINTER) && Passes(TargetValue(c.targets[i]), TARGET_POINTER)
    {
      TargetTyped(c.targets[i]);
      NoNullPasses(TargetValue(c.targets[i]), TARGET_POINTER);
    }
  }

  // ----- what stands under which name -----

  lemma MemberWritten(fields: seq<Value>, members: seq<Member>, i: nat)
    requires TypedFields(fields, members) && NoNulls(fields) && DistinctNames(members) && i < |members|
    ensures var j := WriteMembers(fields, members);
      j.Obj? && members[i].name in j.members && j.members[members[i].name] == Write(fields[i], members[i].ty)
  {
    MembersWritten(fields, members);
    assert NoNull(fields[i]);
  }

  /** The JSON object of a target's configuration, name by name. */
  ghost predicate IsTargetJson(j: Json, c: TargetConfig) {
    && HasBaseMembers(j, c.name, c.format, c.targetType)
    && (c.FileConfig? ==> HasFileTexts(j, c.file) && HasFileNumbers(j, c.file))
  }

  ghost predicate Holds(j: Json, name: string, value: Json) { j.Obj? && name in j.members && j.members[name] == value }

  ghost predicate HasBaseMembers(j: Json, name: string, format: string, targetType: int) {
    && Holds(j, "target_name", Str(name)) && Holds(j, "format_string", Str(format))
    && Holds(j, "target_type", Num(targetType))
  }

  ghost predicate HasFileTexts(j: Json, f: FilePart) {
    && Holds(j, "filepath", Str(f.filepath)) && Holds(j, "filename", Str(f.filename))
    && Holds(j, "prefix", Str(f.prefix)) && Holds(j, "suffix", Str(f.suffix))
    && Holds(j, "filename_format", Str(f.filenameFormat))
  }

  ghost predicate HasFileNumbers(j: Json, f: FilePart) {
    && Holds(j, "max_filesize_bytes", Num(f.maxFilesizeBytes)) && Holds(j, "log_frequency", Num(f.logFrequency))
    && Holds(j, "log_storage_duration", Num(f.logStorageDuration))
  }

  /** The JSON object of a dispatch entry: the names of the targets in their order, each once. */
  ghost predicate IsEntryJson(j: Json, e: DispatchEntry) {
    && Holds(j, "level", Num(e.level))
    && j.Obj? && "kinds" in j.members && Holds(j.members["kinds"], "bits", Num(e.kinds as int))
    && "targets" in j.members && IsNameList(j.members["targets"], e.targets)
  }

  ghost predicate IsNameList(j: Json, names: set<string>) {
    && j.Arr? && |j.items| == |names|
    && (forall i :: 0 <= i < |j.items| ==> j.items[i].Str? && j.items[i].s in names)
    && (forall i, k :: 0 <= i < k < |j.items| ==> Less(j.items[i].s, j.items[k].s))
  }

  lemma BaseTargetJson(c: TargetConfig)
    requires c.BaseConfig?
    ensures Typed(TargetValue(c), TARGET_POINTER) && IsTargetJson(Write(TargetValue(c), TARGET_POINTER), c)
  {
    TargetTyped(c);
    ShortNames();
    MemberWritten(BaseFields(c), TARGET_MEMBERS, 0);
    MemberWritten(BaseFields(c), TARGET_MEMBERS, 1);
    MemberWritten(BaseFields(c), TARGET_MEMBERS, 2);
  }

  lemma BaseMember(c: TargetConfig, i: nat)
    requires c.FileConfig? && i < 3
    ensures Typed(TargetValue(c), TARGET_POINTER) && Typed(BaseFields(c)[i], TARGET_MEMBERS[i].ty)
    ensures Holds(Write(TargetValue(c), TARGET_POINTER), TARGET_MEMBERS[i].name,
        Write(BaseFields(c)[i], TARGET_MEMBERS[i].ty))
  {
    TargetTyped(c);
    FileNames();
    assert TargetValue(c).fields[i] == BaseFields(c)[i] && FILE_TARGET_CONFIG.members[i] == TARGET_MEMBERS[i];
    MemberWritten(TargetValue(c).fields, FILE_TARGET_CONFIG.members, i);
  }

  lemma FileMember(c: TargetConfig, i: nat)
    requires c.FileConfig? && i < 8
    ensures Typed(TargetValue(c), TARGET_POINTER) && Typed(FileFields(c.file)[i], FILE_MEMBERS[i].ty)
    ensures Holds(Write(TargetValue(c), TARGET_POINTER), FILE_MEMBERS[i].name,
        Write(FileFields(c.file)[i], FILE_MEMBERS[i].ty))
  {
    TargetTyped(c);
    FileNames();
    assert |BaseFields(c)| == |TARGET_MEMBERS| == 3;
    assert TargetValue(c).fields[i + 3] == FileFields(c.file)[i]
        && FILE_TARGET_CONFIG.members[i + 3] == FILE_MEMBERS[i];
    MemberWritten(TargetValue(c).fields, FILE_TARGET_CONFIG.members, i + 3);
  }

  lemma FileTargetBase(c: TargetConfig)
    requires c.FileConfig?
    ensures Typed(TargetValue(c), TARGET_POINTER)
    ensures HasBaseMembers(Write(TargetValue(c), TARGET_POINTER), c.name, c.format, c.targetType)
  {
    BaseMember(c, 0);
    BaseMember(c, 1);
    BaseMember(c, 2);
  }

  lemma FileTargetTexts(c: TargetConfig)
    requires c.FileConfig?
    ensures Typed(TargetValue(c), TARGET_POINTER) && HasFileTexts(Write(TargetValue(c), TARGET_POINTER), c.file)
  {
    FileMember(c, 0);
    FileMember(c, 1);
    FileMember(c, 4);
    FileMember(c, 5);
    FileMember(c, 6);
  }

  lemma FileTargetNumbers(c: TargetConfig)
    requires c.FileConfig?
    ensures Typed(TargetValue(c), TARGET_POINTER) && HasFileNumbers(Write(TargetValue(c), TARGET_POINTER), c.file)
  {
    FileMember(c, 2);
    FileMember(c, 3);
    FileMember(c, 7);
  }

  lemma TargetJson(c: TargetConfig)
    ensures Typed(TargetValue(c), TARGET_POINTER) && IsTargetJson(Write(TargetValue(c), TARGET_POINTER), c)
  {
    if c.BaseConfig? {
      BaseTargetJson(c);
    } else {
      FileTargetBase(c);
      FileTargetTexts(c);
      FileTargetNumbers(c);
    }
  }

  lemma {:induction false} SortedIsSize(s: seq<string>, names: set<string>)
    requires Sorted(s) && forall x :: x in s <==> x in names
    ensures |s| == |names|
    decreases |s|
  {
    if s == [] {
      assert names == {};
    } else {
      var rest := s[1..];
      LessIrreflexive(s[0]);
      assert s == [s[0]] + rest;
      assert s[0] !in rest;
      SortedIsSize(rest, names - {s[0]});
    }
  }

  lemma EntryJson(e: DispatchEntry)
    ensures Typed(EntryValue(e), ObjectT(DISPATCH_ENTRY))
    ensures IsEntryJson(Write(EntryValue(e), ObjectT(DISPATCH_ENTRY)), e)
  {
    EntryTyped(e);
    ShortNames();
    var fields := EntryValue(e).fields;
    MemberWritten(fields, DISPATCH_ENTRY.members, 0);
    MemberWritten(fields, DISPATCH_ENTRY.members, 1);
    MemberWritten(fields, DISPATCH_ENTRY.members, 2);
    MemberWritten(fields[1].fields, KIND_SET.members, 0);
    SortedIsSize(InOrder(e.targets), e.targets);
  }

  /** Main result: the JSON of a configuration holds each of its values under the name it is known by. */
  lemma ConfigUnderItsNames(c: LoggerConfig)
    ensures var j := ConfigJsonOf(c);
      && Holds(j, "use_fallback", Bool(c.useFallback)) && Holds(j, "asynchronous_mode", Bool(c.asynchronousMode))
      && j.Obj? && "targets" in j.members && j.members["targets"].Arr? && |j.members["targets"].items| == |c.targets|
      && (forall i :: 0 <= i < |c.targets| ==> IsTargetJson(j.members["targets"].items[i], c.targets[i]))
      && "dispatch" in j.members && j.members["dispatch"].Arr? && |j.members["dispatch"].items| == |c.dispatch|
      && (forall i :: 0 <= i < |c.dispatch| ==> IsEntryJson(j.members["dispatch"].items[i], c.dispatch[i]))
  {
    ConfigTyped(c);
    ShortNames();
    var fields, members := ConfigFields(c), LOGGER_CONFIG.members;
    MemberWritten(fields, members, 0);
    MemberWritten(fields, members, 1);
    MemberWritten(fields, members, 2);
    MemberWritten(fields, members, 3);
    forall i | 0 <= i < |c.targets| ensures IsTargetJson(ConfigJsonOf(c).members["targets"].items[i], c.targets[i]) {
      TargetJson(c.targets[i]);
    }
    forall i | 0 <= i < |c.dispatch| ensures IsEntryJson(ConfigJsonOf(c).members["dispatch"].items[i], c.dispatch[i]) {
      EntryJson(c.dispatch[i]);
    }
  }

  // ----- what is refused -----

  /** A document that is read has the four members of a configuration, of their kinds. */
  lemma AcceptedConfigHas(j: Json, current: seq<Value>)
    requires TypedFields(current, LOGGER_CONFIG.members)
    ensures ClassOk(LOGGER_CONFIG)
    ensures ReadObject(j, LOGGER_CONFIG, current).Some? ==>
      && j.Obj? && {"targets", "dispatch", "use_fallback", "asynchronous_mode"} <= j.members.Keys
      && j.members["targets"].Arr? && j.members["dispatch"].Arr?
      && j.members["use_fallback"].Bool? && j.members["asynchronous_mode"].Bool?
  {
    LoggerConfigFits();
    var schema := LOGGER_CONFIG.schema.value;
    if Validates(j, LOGGER_CONFIG.schema) {
      assert schema.required[0] in j.members && schema.required[1] in j.members;
      assert schema.required[2] in j.members && schema.required[3] in j.members;
      assert HasKind(j.members[schema.properties[0].0], schema.properties[0].1);
      assert HasKind(j.members[schema.properties[1].0], schema.properties[1].1);
      assert HasKind(j.members[schema.properties[2].0], schema.properties[2].1);
      assert HasKind(j.members[schema.properties[3].0], schema.properties[3].1);
    }
  }

  /** A target that is read has a known type, and that alone chooses its class. */
  lemma AcceptedTargetHas(j: Json, v: Value)
    ensures TypeOk(TARGET_POINTER)
    ensures Read(j, TARGET_POINTER, VNull) == Some(v) ==>
      && j.Obj? && {"target_name", "format_string", "target_type"} <= j.members.Keys && j.members["target_type"].Num?
      && 0 <= j.members["target_type"].n <= 2 && v.VPointer?
      && v.cls == if j.members["target_type"].n == 2 then 1 else 0
  {
    TargetPointerFits();
    if Read(j, TARGET_POINTER, VNull) == Some(v) {
      var n := j.members["target_type"].n;
      assert n in ALLOCATION && ALLOCATION[n] == if n == 2 then 1 else 0;
      var cls := TARGET_POINTER.classes[ALLOCATION[n]];
      assert ReadObject(j, cls, cls.defaults).Some?;
      BaseRequired(j, cls);
    }
  }

  lemma BaseRequired(j: Json, cls: Class)
    requires (cls == TARGET_CONFIG || cls == FILE_TARGET_CONFIG) && Validates(j, cls.schema)
    ensures j.Obj? && {"target_name", "format_string", "target_type"} <= j.members.Keys
  {
    var required := cls.schema.value.required;
    assert required[0] == "target_name" && required[1] == "format_string" && required[2] == "target_type";
  }

  /** What a member keeps that a document leaves out is what the constructor of its class gives. */
  lemma DefaultsAreConstructed()
    ensures BaseFields(NewBaseConfig("unnamed", "", 3)) == TARGET_CONFIG.defaults
    ensures TargetValue(NewFileConfig("undefined", "", FilePart("", "", 0, 24, "", "", "", 30))).fields
         == FILE_TARGET_CONFIG.defaults
    ensures ConfigFields(LoggerConfig([], [], true, true)) == LOGGER_CONFIG.defaults
    ensures EntryValue(DispatchEntry(1, 0, {})).fields == DISPATCH_ENTRY.defaults
    ensures KIND_SET.defaults == [VInt(0)]
  {
    var fields := ConfigFields(LoggerConfig([], [], true, true));
    assert fields[0].items == [] && fields[1].items == [];
  }

  // ----- no field is left out -----

  lemma TargetValueInjective(a: TargetConfig, b: TargetConfig)
    requires TargetValue(a) == TargetValue(b)
    ensures a == b
  {
    var x, y := TargetValue(a).fields, TargetValue(b).fields;
    assert x[0] == y[0] && x[1] == y[1] && x[2] == y[2];
    if a.FileConfig? && b.FileConfig? {
      assert x[3..] == FileFields(a.file) && y[3..] == FileFields(b.file);
      var p, q := FileFields(a.file), FileFields(b.file);
      assert p[0] == q[0] && p[1] == q[1] && p[2] == q[2] && p[3] == q[3];
      assert p[4] == q[4] && p[5] == q[5] && p[6] == q[6] && p[7] == q[7];
    }
  }

  lemma BitsInjective(a: bv64, b: bv64)
    requires a as int == b as int
    ensures a == b
  {
    assert (a as int) as bv64 == a && (b as int) as bv64 == b;
  }

  lemma EntryValueInjective(a: DispatchEntry, b: DispatchEntry)
    requires EntryValue(a) == EntryValue(b)
    ensures a == b
  {
    var x, y := EntryValue(a).fields, EntryValue(b).fields;
    assert x[0] == y[0] && x[1] == y[1] && x[2] == y[2];
    assert x[1].fields[0] == y[1].fields[0];
    BitsInjective(a.kinds, b.kinds);
    assert forall s :: s in a.targets <==> s in b.targets;
  }

  /** Equal values are values of equal configurations, so the round trip restores all of it. */
  lemma ConfigFieldsInjective(a: LoggerConfig, b: LoggerConfig)
    requires ConfigFields(a) == ConfigFields(b)
    ensures a == b
  {
    var x, y := ConfigFields(a), ConfigFields(b);
    assert x[0] == y[0] && x[1] == y[1] && x[2] == y[2] && x[3] == y[3];
    assert |a.targets| == |x[0].items| == |b.targets| && |a.dispatch| == |x[1].items| == |b.dispatch|;
    forall i | 0 <= i < |a.targets| ensures a.targets[i] == b.targets[i] {
      assert x[0].items[i] == y[0].items[i];
      TargetValueInjective(a.targets[i], b.targets[i]);
    }
    forall i | 0 <= i < |a.dispatch| ensures a.dispatch[i] == b.dispatch[i] {
      assert x[1].items[i] == y[1].items[i];
      EntryValueInjective(a.dispatch[i], b.dispatch[i]);
    }
  }
}
