/**
 What each placeholder stands for, told by its literal name: a format that is nothing but the
 placeholder gives the field, in log lines, console lines, time stamps and file names.
 */
module Fields {
  import opened Calendar
  import opened Colours
  import opened LogFormat
  import opened Placeholders
  import opened PurgePattern
  import opened Replacement
  import opened Template
  import opened Text
  import opened TimeText

  lemma OneHoleFilled(k: string, keys: set<string>, table: map<string, string>)
    requires k in keys && keys <= table.Keys
    ensures Flat(FillAll([Hole(k)], keys, table)) == table[k] && Flat([Hole(k)]) == k && WellFormed([Hole(k)], keys)
  {
    var f := FillAll([Hole(k)], keys, table);
    assert f == [Lit(table[k])];
    FlatOfPiece(f[0]);
    FlatOfPiece(Hole(k));
  }

  lemma FlatOfPiece(p: Piece)
    ensures Flat([p]) == Shown(p)
  {
    assert [p][1..] == [];
  }

  // ----- the fields of a time -----

  lemma TimeAlone(k: string, t: nat, text: string)
    requires k in TIME_KEYS && Substituted(k, TimeTable(t), text)
    ensures text == TimeTable(t)[k]
  {
    var order :| IsOrder(order, TimeTable(t).Keys) && text == ReplaceEach(k, order, TimeTable(t));
    TablesInAll();
    SubTable(TIME_KEYS);
    TimeValuesArePlain(t);
    PlainValues(TimeTable(t), "");
    OneHoleFilled(k, TIME_KEYS, TimeTable(t));
    SubstitutionRefinesFilling([Hole(k)], TIME_KEYS, TimeTable(t), "", order);
  }

  lemma ClockText4(t: nat)
    ensures TimeTable(t)["%%hour"] == Pad2(Hour(t)) && TimeTable(t)["%%min"] == Pad2(Minute(t))
    ensures TimeTable(t)["%%sec"] == Pad2(Second(t)) && TimeTable(t)["%%ms"] == Pad3(Milli(t))
  {
    var f := ClockFields(t);
    assert f["%%hour"] == Pad2(Hour(t)) && f["%%min"] == Pad2(Minute(t));
    assert f["%%sec"] == Pad2(Second(t)) && f["%%ms"] == Pad3(Milli(t));
  }

  lemma NotClock(k: string)
    requires k in DATE_KEYS || k in WHOLE_KEYS
    ensures k !in CLOCK_KEYS
  {
  }

  lemma NotDate(k: string)
    requires k in WHOLE_KEYS
    ensures k !in DATE_KEYS
  {
  }

  lemma DateText3(t: nat)
    ensures |Decimal(DayOf(t).year)| >= 2
    ensures TimeTable(t)["%%year"] == Decimal(DayOf(t).year) && TimeTable(t)["%%yr"] == Decimal(DayOf(t).year)[2..]
    ensures TimeTable(t)["%%month"] == Pad2(DayOf(t).month) && TimeTable(t)["%%day"] == Pad2(DayOf(t).day)
  {
    YearHasFourDigits(DayOf(t).year);
    NotClock("%%year");
    NotClock("%%yr");
    NotClock("%%month");
    NotClock("%%day");
    var f := DateFields(t);
    assert f["%%year"] == Decimal(DayOf(t).year) && f["%%yr"] == Decimal(DayOf(t).year)[2..];
    assert f["%%month"] == Pad2(DayOf(t).month) && f["%%day"] == Pad2(DayOf(t).day);
  }

  lemma WholeText(t: nat)
    ensures TimeTable(t)["%%datatime"] == DateText(t) + " " + ClockText(t) && TimeTable(t)["%%date"] == DateText(t)
    ensures TimeTable(t)["%%monstr"] == MonthName(DayOf(t).month)
    ensures TimeTable(t)["%%time"] == ClockText(t) + "." + Pad3(Milli(t)) + "0000"
  {
    WholeNotOther("%%datatime");
    WholeNotOther("%%date");
    WholeNotOther("%%monstr");
    WholeNotOther("%%time");
    var f := WholeFields(t);
    assert f["%%datatime"] == DateText(t) + " " + ClockText(t) && f["%%date"] == DateText(t);
    assert f["%%monstr"] == MonthName(DayOf(t).month) && f["%%time"] == ClockText(t) + "." + Pad3(Milli(t)) + "0000";
  }

  lemma WholeNotOther(k: string)
    requires k in WHOLE_KEYS
    ensures k !in CLOCK_KEYS && k !in DATE_KEYS
  {
    NotClock(k);
    NotDate(k);
  }

  /** `n` digits that denote a number below `bound`. */
  ghost predicate Digits(text: string, n: nat, bound: nat) { |text| == n && AllDigits(text) && Value(text) < bound }

  lemma PaddedDenotes(n: nat)
    ensures n < 100 ==> |Pad2(n)| == 2 && AllDigits(Pad2(n)) && Value(Pad2(n)) == n
    ensures n < 1000 ==> |Pad3(n)| == 3 && AllDigits(Pad3(n)) && Value(Pad3(n)) == n
  {
    PaddedDigits(n);
    PaddedIsFixed(n);
    assert Power10(1) == 10 && Power10(2) == 100 && Power10(3) == 1000;
    if n < 100 { ValueOfFixed(n, 2); }
    if n < 1000 { ValueOfFixed(n, 3); }
  }

  lemma ClockTexts(t: nat, hour: string, min: string, sec: string, ms: string) returns (h: nat, m: nat, s: nat, x: nat)
    requires Substituted("%%hour", TimeTable(t), hour) && Substituted("%%min", TimeTable(t), min)
    requires Substituted("%%sec", TimeTable(t), sec) && Substituted("%%ms", TimeTable(t), ms)
    ensures hour == Pad2(h) && min == Pad2(m) && sec == Pad2(s) && ms == Pad3(x)
    ensures h < 24 && m < 60 && s < 60 && x < 1000
    ensures t == t / 86_400_000 * 86_400_000 + h * 3_600_000 + m * 60_000 + s * 1000 + x
  {
    TimeAlone("%%hour", t, hour);
    TimeAlone("%%min", t, min);
    TimeAlone("%%sec", t, sec);
    TimeAlone("%%ms", t, ms);
    ClockText4(t);
    TimeFromFields(t);
    h, m, s, x := Hour(t), Minute(t), Second(t), Milli(t);
  }

  /** The texts are digits that make up the time of the day. */
  ghost predicate IsClock(t: nat, hour: string, min: string, sec: string, ms: string) {
    && Digits(hour, 2, 24) && Digits(min, 2, 60) && Digits(sec, 2, 60) && Digits(ms, 3, 1000)
    && t == t / 86_400_000 * 86_400_000 + Value(hour) * 3_600_000 + Value(min) * 60_000 + Value(sec) * 1000 + Value(ms)
  }

  lemma PaddedClock(t: nat, h: nat, m: nat, s: nat, x: nat)
    requires h < 24 && m < 60 && s < 60 && x < 1000
    requires t == t / 86_400_000 * 86_400_000 + h * 3_600_000 + m * 60_000 + s * 1000 + x
    ensures IsClock(t, Pad2(h), Pad2(m), Pad2(s), Pad3(x))
  {
    PaddedDenotes(h);
    PaddedDenotes(m);
    PaddedDenotes(s);
    PaddedDenotes(x);
  }

  /** Hour, minute, second and millisecond, each formatted alone. */
  lemma ClockDenotes(t: nat, hour: string, min: string, sec: string, ms: string)
    requires Substituted("%%hour", TimeTable(t), hour) && Substituted("%%min", TimeTable(t), min)
    requires Substituted("%%sec", TimeTable(t), sec) && Substituted("%%ms", TimeTable(t), ms)
    ensures IsClock(t, hour, min, sec, ms)
  {
    var h, m, s, x := ClockTexts(t, hour, min, sec, ms);
    PaddedClock(t, h, m, s, x);
  }

  /** Year, month and day as digits are the date of the day. */
  lemma DateDenotes(t: nat, year: string, month: string, day: string)
    requires Substituted("%%year", TimeTable(t), year) && Substituted("%%month", TimeTable(t), month)
    requires Substituted("%%day", TimeTable(t), day)
    ensures AllDigits(year) && Digits(month, 2, 13) && Digits(day, 2, 32)
    ensures var d := Date(Value(year), Value(month), Value(day)); Valid(d) && DayNumber(d) == t / 86_400_000
  {
    TimeAlone("%%year", t, year);
    TimeAlone("%%month", t, month);
    TimeAlone("%%day", t, day);
    DateText3(t);
    var d := DayOf(t);
    ValueOfDecimal(d.year);
    PaddedDenotes(d.month);
    PaddedDenotes(d.day);
  }

  /** The composed fields in terms of the simple ones. */
  lemma WholeDenotes(t: nat, date: string, datatime: string, time: string, yr: string)
    requires Substituted("%%date", TimeTable(t), date) && Substituted("%%datatime", TimeTable(t), datatime)
    requires Substituted("%%time", TimeTable(t), time) && Substituted("%%yr", TimeTable(t), yr)
    ensures var m := TimeTable(t);
      && date == m["%%year"] + "-" + m["%%month"] + "-" + m["%%day"]
      && datatime == date + " " + (m["%%hour"] + ":" + m["%%min"] + ":" + m["%%sec"])
      && time == m["%%hour"] + ":" + m["%%min"] + ":" + m["%%sec"] + "." + m["%%ms"] + "0000"
      && |m["%%year"]| >= 2 && yr == m["%%year"][2..]
  {
    TimeAlone("%%date", t, date);
    TimeAlone("%%datatime", t, datatime);
    TimeAlone("%%time", t, time);
    TimeAlone("%%yr", t, yr);
    WholeText(t);
    DateText3(t);
    ClockText4(t);
  }

  ghost predicate IsMonthName(name: string, m: nat) {
    1 <= m <= 12 && name == ["Jan", "Feb", "Mar", "Apr", "May", "Jun", "Jul", "Aug", "Sep", "Oct", "Nov", "Dec"][m - 1]
  }

  lemma MonthOf(m: nat)
    requires 1 <= m <= 12
    ensures IsMonthName(MonthName(m), m)
  {
    MonthNameIs(m);
  }

  /** The name of the month and its number. */
  lemma MonthDenotes(t: nat, name: string, month: string) returns (m: nat)
    requires Substituted("%%monstr", TimeTable(t), name) && Substituted("%%month", TimeTable(t), month)
    ensures IsMonthName(name, m) && |month| == 2 && AllDigits(month) && Value(month) == m
  {
    TimeAlone("%%monstr", t, name);
    TimeAlone("%%month", t, month);
    WholeText(t);
    DateText3(t);
    m := DayOf(t).month;
    PaddedDenotes(m);
    MonthOf(m);
  }

  // ----- the fields of a log line -----

  lemma LogAlone(k: string, r: LogRecord, line: string)
    requires HarmlessRecord(r) && k in RECORD_KEYS && IsLine(k, r, line)
    ensures line == RecordTable(r)[k]
  {
    OneHoleFilled(k, LINE_KEYS, LineTable(r));
    LineMeans([Hole(k)], r, line);
    RecordKeyNotTime(k);
  }

  lemma RecordTexts(r: LogRecord)
    ensures RecordTable(r)["%%level"] == LevelText(r.level) && RecordTable(r)["%%kinds"] == KindsText(r.kinds)
    ensures RecordTable(r)["%%module"] == r.moduleName && RecordTable(r)["%%source"] == BaseName(r.file)
    ensures RecordTable(r)["%%line"] == Decimal(r.line) && RecordTable(r)["%%entity"] == r.entity
    ensures RecordTable(r)["%%log"] == r.message
  {
  }

  /** Module, entity and message as they are, the line number in digits. */
  lemma TextsInLine(r: LogRecord, line: string)
    requires HarmlessRecord(r)
    ensures IsLine("%%module", r, line) ==> line == r.moduleName
    ensures IsLine("%%entity", r, line) ==> line == r.entity
    ensures IsLine("%%log", r, line) ==> line == r.message
    ensures IsLine("%%line", r, line) ==> AllDigits(line) && Value(line) == r.line
  {
    RecordTexts(r);
    if IsLine("%%module", r, line) { LogAlone("%%module", r, line); }
    if IsLine("%%entity", r, line) { LogAlone("%%entity", r, line); }
    if IsLine("%%log", r, line) { LogAlone("%%log", r, line); }
    if IsLine("%%line", r, line) {
      LogAlone("%%line", r, line);
      ValueOfDecimal(r.line);
    }
  }

  /** What stands behind the last separator, or all of it. */
  ghost predicate IsBaseName(path: string, name: string) {
    && '/' !in name && '\\' !in name
    && exists at :: 0 <= at <= |path| && path[at..] == name && (at == 0 || path[at - 1] == '/' || path[at - 1] == '\\')
  }

  lemma BaseNameIs(path: string)
    ensures IsBaseName(path, BaseName(path))
  {
    var at := BaseStart(path, |path|);
    forall c | c in path[at..] ensures !IsSeparator(c) {
      var i :| 0 <= i < |path[at..]| && path[at..][i] == c;
      assert !IsSeparator(path[at + i]);
    }
    assert path[at..] == BaseName(path);
  }

  lemma SourceInLine(r: LogRecord, line: string)
    requires HarmlessRecord(r) && IsLine("%%source", r, line)
    ensures IsBaseName(r.file, line)
  {
    LogAlone("%%source", r, line);
    RecordTexts(r);
    BaseNameIs(r.file);
  }

  /** The level as it is printed, misspelling included. */
  lemma LevelInLine(r: LogRecord, line: string)
    requires HarmlessRecord(r) && IsLine("%%level", r, line)
    ensures r.level == 0 ==> line == "DEBUG"
    ensures r.level == 1 ==> line == "INFO"
    ensures r.level == 2 ==> line == "WARNING"
    ensures r.level == 3 ==> line == "ERROR"
    ensures r.level == 4 ==> line == "CRTIICAL"
    ensures r.level == 5 ==> line == "FATAL"
    ensures r.level < 0 || r.level > 5 ==> line == "UNKNOWN"
  {
    LogAlone("%%level", r, line);
    RecordTexts(r);
  }

  /** The kinds: "ALL" for exactly the three known ones, otherwise the names of those that are set, in
      their order, with commas between; other bits are not shown. */
  lemma KindsInLine(r: LogRecord, line: string)
    requires HarmlessRecord(r) && IsLine("%%kinds", r, line)
    ensures r.kinds == 7 ==> line == "ALL"
    ensures r.kinds != 7 ==> KindsAre(line, Test(r.kinds, 1), Test(r.kinds, 2), Test(r.kinds, 4))
  {
    LogAlone("%%kinds", r, line);
    RecordTexts(r);
    if r.kinds != 7 { NamesJoined(r.kinds); }
  }

  ghost predicate KindsAre(line: string, technical: bool, action: bool, event: bool) {
    line ==
    if technical && action && event then "TECHNICAL,ACTION,EVENT"
    else if technical && action then "TECHNICAL,ACTION"
    else if technical && event then "TECHNICAL,EVENT"
    else if action && event then "ACTION,EVENT"
    else if technical then "TECHNICAL"
    else if action then "ACTION"
    else if event then "EVENT"
    else ""
  }

  lemma JoinTwo(a: string, b: string)
    ensures JoinComma([a, b]) == a + "," + b
  {
    var two := [a, b];
    assert two[1..] == [b];
    assert Join([b], ",") == b;
  }

  lemma JoinThree(a: string, b: string, c: string)
    ensures JoinComma([a, b, c]) == a + "," + (b + "," + c)
  {
    var three := [a, b, c];
    assert three[1..] == [b, c];
    JoinTwo(b, c);
  }

  lemma JoinedTexts()
    ensures "TECHNICAL" + "," + "ACTION" == "TECHNICAL,ACTION"
    ensures "TECHNICAL" + "," + "EVENT" == "TECHNICAL,EVENT"
    ensures "ACTION" + "," + "EVENT" == "ACTION,EVENT"
    ensures "TECHNICAL" + "," + "ACTION,EVENT" == "TECHNICAL,ACTION,EVENT"
  {
  }

  lemma NamesJoined(kinds: bv64)
    ensures KindsAre(JoinComma(KindNames(kinds)), Test(kinds, 1), Test(kinds, 2), Test(kinds, 4))
  {
    var names := KindNames(kinds);
    var t, a, e := Test(kinds, 1), Test(kinds, 2), Test(kinds, 4);
    JoinedTexts();
    if t && a && e {
      assert names == ["TECHNICAL", "ACTION", "EVENT"];
      JoinThree("TECHNICAL", "ACTION", "EVENT");
    } else if t && a {
      assert names == ["TECHNICAL", "ACTION"];
      JoinTwo("TECHNICAL", "ACTION");
    } else if t && e {
      assert names == ["TECHNICAL", "EVENT"];
      JoinTwo("TECHNICAL", "EVENT");
    } else if a && e {
      assert names == ["ACTION", "EVENT"];
      JoinTwo("ACTION", "EVENT");
    }
  }

  // ----- the level on the console -----

  /** ESC, the number of the colour, the text, and the colour switched off. */
  ghost predicate InColour(line: string, number: string, text: string) {
    line == ['\U{1B}'] + number + text + (['\U{1B}'] + "[0m")
  }

  lemma ColourNumbers(level: int)
    ensures Colour(level) == match level
      case 0 => Some(['\U{1B}'] + "[36m")
      case 1 => Some(['\U{1B}'] + "[32m")
      case 2 => Some(['\U{1B}'] + "[33m")
      case 3 => Some(['\U{1B}'] + "[31m")
      case 4 => Some(['\U{1B}'] + "[35m")
      case 5 => Some(['\U{1B}'] + "[34m")
      case _ => None
    ensures Colour(level).Some? ==> Plain(Colour(level).value)
  {
    ColoursAreCodes(level);
  }

  /** The level in its colour. */
  lemma LevelOnConsole(r: LogRecord, line: string)
    requires HarmlessRecord(r) && IsColouredLine("%%level", r, line)
    ensures match r.level
      case 0 => InColour(line, "[36m", "DEBUG")
      case 1 => InColour(line, "[32m", "INFO")
      case 2 => InColour(line, "[33m", "WARNING")
      case 3 => InColour(line, "[31m", "ERROR")
      case 4 => InColour(line, "[35m", "CRTIICAL")
      case 5 => InColour(line, "[34m", "FATAL")
      case _ => line == "UNKNOWN"
  {
    ColourNumbers(r.level);
    match Colour(r.level)
    case None => LevelInLine(r, line);
    case Some(code) => WrappedLevel(r, code, line);
  }

  lemma WrapOne(code: string)
    ensures Wrap([Hole(LEVEL)], code) == [Lit(code), Hole(LEVEL), Lit(RESET)]
  {
    var one := [Hole(LEVEL)];
    assert one[1..] == [] && Wrap([], code) == [];
  }

  lemma FillWrapped(code: string, k: string, reset: string, keys: set<string>, table: map<string, string>)
    requires k in keys && keys <= table.Keys
    ensures Flat(FillAll([Lit(code), Hole(k), Lit(reset)], keys, table)) == code + table[k] + reset
  {
    var f := FillAll([Lit(code), Hole(k), Lit(reset)], keys, table);
    assert f == [Lit(code), Lit(table[k]), Lit(reset)];
    FlatOfThree(f[0], f[1], f[2]);
  }

  lemma WrappedLevel(r: LogRecord, code: string, line: string)
    requires HarmlessRecord(r) && Plain(code) && IsLine(Substitute("%%level", LEVEL, code + LEVEL + RESET), r, line)
    ensures line == code + LevelText(r.level) + RESET
  {
    LevelWrapped(code);
    WrapIsWellFormed(code);
    LineMeans([Lit(code), Hole(LEVEL), Lit(RESET)], r, line);
    LineWrapped(r, code);
  }

  lemma LevelWrapped(code: string)
    requires Plain(code)
    ensures Substitute("%%level", LEVEL, code + LEVEL + RESET) == Flat([Lit(code), Hole(LEVEL), Lit(RESET)])
  {
    LineKeys();
    FlatOfPiece(Hole(LEVEL));
    WrapIsWellFormed(code);
    LevelIsLineKey();
    ModifyIsWrap([Hole(LEVEL)], LINE_KEYS, code);
    WrapOne(code);
  }

  lemma LevelIsLineKey()
    ensures LEVEL in LINE_KEYS
  {
  }

  lemma LineWrapped(r: LogRecord, code: string)
    ensures Line([Lit(code), Hole(LEVEL), Lit(RESET)], r) == code + LevelText(r.level) + RESET
  {
    LevelInTable(r);
    FillWrapped(code, LEVEL, RESET, LINE_KEYS, LineTable(r));
  }

  lemma WrapIsWellFormed(code: string)
    requires Plain(code)
    ensures WellFormed([Hole(LEVEL)], LINE_KEYS) && WellFormed([Lit(code), Hole(LEVEL), Lit(RESET)], LINE_KEYS)
  {
    assert Plain(RESET);
  }

  lemma LevelInTable(r: LogRecord)
    ensures LEVEL in LINE_KEYS && LineTable(r)[LEVEL] == LevelText(r.level)
  {
    RecordKeyNotTime(LEVEL);
    RecordTexts(r);
  }

  // ----- the fields of a file name -----

  lemma NameAlone(k: string, c: FileNaming, pid: nat, proc: string, t: nat, name: string)
    requires k in NAME_KEYS && c.format == k && PlainNaming(c) && CleanProcess(proc)
    requires IsFilename(c, pid, proc, t, name)
    ensures name == NameTable(c, pid, proc)[k]
  {
    var o1, o2 := FilenameOrders(c, pid, proc, t, name);
    var table := NameTable(c, pid, proc) + TimeTable(t);
    FileKeysTable();
    OneHoleFilled(k, FILE_KEYS, table);
    NameIsFilled([Hole(k)], c, pid, proc, t, o1, o2);
    if k in TIME_KEYS { TimeKeyNotName(k); }
  }

  lemma NameTexts(c: FileNaming, pid: nat, proc: string)
    ensures NameTable(c, pid, proc)["%%path"] == c.path && NameTable(c, pid, proc)["%%prefix"] == c.prefix
    ensures NameTable(c, pid, proc)["%%filename"] == c.filename && NameTable(c, pid, proc)["%%title"] == c.title
    ensures NameTable(c, pid, proc)["%%suffix"] == c.suffix && NameTable(c, pid, proc)["%%pid"] == Decimal(pid)
    ensures NameTable(c, pid, proc)["%%procname"] == proc
  {
  }

  /** The five configured texts and the process, each under its name. */
  lemma TextsInName(c: FileNaming, pid: nat, proc: string, t: nat, name: string)
    requires PlainNaming(c) && CleanProcess(proc) && IsFilename(c, pid, proc, t, name)
    ensures c.format == "%%path" ==> name == c.path
    ensures c.format == "%%prefix" ==> name == c.prefix
    ensures c.format == "%%filename" ==> name == c.filename
    ensures c.format == "%%title" ==> name == c.title
    ensures c.format == "%%suffix" ==> name == c.suffix
    ensures c.format == "%%pid" ==> AllDigits(name) && Value(name) == pid
    ensures c.format == "%%procname" ==> name == proc
  {
    NameTexts(c, pid, proc);
    ValueOfDecimal(pid);
    if c.format in NAME_KEYS { NameAlone(c.format, c, pid, proc, t, name); }
  }
}
