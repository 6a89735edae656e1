/**
 File names and the pattern that finds them again: `Update_filename` and
 `Get_regex_pattern_for_log_files` fill the same format, one with values and one with
 regular expressions.
 */
module PurgePattern {
  import opened Calendar
  import opened Fragments
  import opened Placeholders
  import opened Regex
  import opened Template
  import opened Text
  import opened TimeText

  /** The parts of a file target's configuration that name its files. */
  datatype FileNaming = FileNaming(path: string, prefix: string, filename: string, title: string, suffix: string,
                                     format: string)

  const VOLATILE_KEYS := TIME_KEYS + {PID, PROCNAME}
  const FILE_KEYS := NAME_KEYS + TIME_KEYS

  function NameTable(c: FileNaming, pid: nat, proc: string): (m: map<string, string>)
    ensures m.Keys == NAME_KEYS
  {
    map[PATH := c.path, PREFIX := c.prefix, FILENAME := c.filename, TITLE := c.title, SUFFIX := c.suffix,
        PID := Decimal(pid), PROCNAME := proc]
  }

  /** Step 1 of the pattern: what only changes with the configuration. */
  function FixedTable(c: FileNaming): (m: map<string, string>)
    ensures m.Keys == FIXED_NAME_KEYS
  {
    map[PATH := c.path, PREFIX := c.prefix, FILENAME := c.filename, TITLE := c.title, SUFFIX := c.suffix]
  }

  /** Step 2: characters a regular expression would read differently. */
  predicate IsSpecial(c: char) {
    c in {'.', '^', '$', '*', '?', '(', ')', '{', '}', '[', ']', '\\', '|', '-'}
  }

  function EscapeChar(c: char): (s: string) { if IsSpecial(c) then ['\\', c] else [c] }

  function Escape(s: string): (r: string) {
    if s == "" then "" else EscapeChar(s[0]) + Escape(s[1..])
  }

  // Step 3: what changes from file to file.
  const T4 := "(\\d{4})"
  const T2 := "(\\d{2})"
  const T3 := "(\\d{3})"
  const T_MONSTR := "([A-Za-z]{3})"
  const T_DATE := T4 + "\\-" + T2 + "\\-" + T2
  const T_TIME := T2 + ":" + T2 + "." + T3 + "\\d{4}"
  const T_DATATIME := T_DATE + "\\s" + T2 + ":" + T2 + ":" + T2

  const WHOLE_PATTERNS := map[DATATIME := T_DATATIME, DATE := T_DATE, MONSTR := T_MONSTR, TIME := T_TIME]
  const DATE_PATTERNS := map[YEAR := T4, YR := T2, MONTH := T2, DAY := T2]
  const CLOCK_PATTERNS := map[HOUR := T2, MIN := T2, SEC := T2, MS := T3]

  function VolatileTable(): (m: map<string, string>)
    ensures m.Keys == VOLATILE_KEYS
  {
    PatternKeys();
    WHOLE_PATTERNS + DATE_PATTERNS + CLOCK_PATTERNS + map[PID := "(\\d+)", PROCNAME := "(.*)"]
  }

  lemma PatternKeys()
    ensures WHOLE_PATTERNS.Keys == WHOLE_KEYS && DATE_PATTERNS.Keys == DATE_KEYS && CLOCK_PATTERNS.Keys == CLOCK_KEYS
  {
  }

  /** What the two passes over the format can make: the new name of `Update_filename`. */
  ghost predicate IsFilename(c: FileNaming, pid: nat, proc: string, t: nat, name: string) {
    exists mid :: Substituted(c.format, NameTable(c, pid, proc), mid) && Substituted(mid, TimeTable(t), name)
  }

  method BuildFilename(c: FileNaming, pid: nat, proc: string, t: nat) returns (name: string)
    ensures IsFilename(c, pid, proc, t, name)
  {
    name := ReplacePlaceholders(c.format, NameTable(c, pid, proc));
    name := FormatTime(name, t);
  }

  method EscapeAll(pattern: string) returns (res: string)
    ensures res == Escape(pattern)
  {
    res := "";
    var i := 0;
    assert pattern[0..] == pattern;
    while i < |pattern|
      invariant i <= |pattern| && res + Escape(pattern[i..]) == Escape(pattern)
    {
      EscapeNext(res, pattern, i);
      if IsSpecial(pattern[i]) {
        res := res + "\\";
      }
      res := res + [pattern[i]];
      i := i + 1;
    }
    assert pattern[i..] == "";
  }

  lemma EscapeNext(done: string, pattern: string, i: nat)
    requires i < |pattern|
    ensures done + Escape(pattern[i..]) == done + EscapeChar(pattern[i]) + Escape(pattern[i + 1..])
    ensures IsSpecial(pattern[i]) ==> done + EscapeChar(pattern[i]) == done + "\\" + [pattern[i]]
  {
    assert pattern[i..][1..] == pattern[i + 1..];
    Regroup(done, EscapeChar(pattern[i]), Escape(pattern[i + 1..]));
  }

  /** What the two passes with the escaping between them can make: the pattern. */
  ghost predicate IsPattern(c: FileNaming, pattern: string) {
    exists mid :: Substituted(c.format, FixedTable(c), mid) && Substituted(Escape(mid), VolatileTable(), pattern)
  }

  method BuildPattern(c: FileNaming) returns (pattern: string)
    ensures IsPattern(c, pattern)
  {
    pattern := ReplacePlaceholders(c.format, FixedTable(c));
    pattern := EscapeAll(pattern);
    pattern := ReplacePlaceholders(pattern, VolatileTable());
  }

  // ----- text and keys match themselves -----

  predicate NoPlus(s: string) { '+' !in s }

  lemma CharFragment(c: char)
    requires c != '+'
    ensures Fragment(EscapeChar(c), [c])
  {
    if IsSpecial(c) {
      EscapeCompiles(c);
    } else {
      CharCompiles(c);
    }
    TermFragment(EscapeChar(c), Term(Chr(c), Once), [c]);
  }

  /** Escaping is undone by parsing: the escaped text matches the text. */
  lemma {:induction false} TextFragment(s: string)
    requires NoPlus(s)
    ensures Fragment(Escape(s), s)
  {
    if s == "" {
      EmptyFragment();
    } else {
      assert s[0] in s && forall c :: c in s[1..] ==> c in s;
      CharFragment(s[0]);
      TextFragment(s[1..]);
      FragmentConcat(EscapeChar(s[0]), [s[0]], Escape(s[1..]), s[1..]);
      assert [s[0]] + s[1..] == s;
    }
  }

  lemma {:induction false} EscapeConcat(a: string, b: string)
    ensures Escape(a + b) == Escape(a) + Escape(b)
  {
    if a == "" {
      assert a + b == b;
    } else {
      assert (a + b)[1..] == a[1..] + b;
      EscapeConcat(a[1..], b);
      Regroup(EscapeChar(a[0]), Escape(a[1..]), Escape(b));
    }
  }

  lemma {:induction false} EscapeUnspecial(s: string)
    requires forall c :: c in s ==> !IsSpecial(c)
    ensures Escape(s) == s
  {
    if s != "" {
      assert s[0] in s && forall c :: c in s[1..] ==> c in s;
      EscapeUnspecial(s[1..]);
    }
  }

  lemma {:induction false} EscapeKeepsPlain(s: string)
    requires Plain(s)
    ensures Plain(Escape(s))
  {
    if s != "" {
      assert s[0] in s && forall c :: c in s[1..] ==> c in s;
      EscapeKeepsPlain(s[1..]);
    }
  }

  predicate IsKeyChar(c: char) { c == '%' || 'a' <= c <= 'z' }

  lemma TimeKeyChars(k: string)
    requires k in TIME_KEYS
    ensures forall c :: c in k ==> IsKeyChar(c)
  {
  }

  lemma NameKeyChars(k: string)
    requires k in NAME_KEYS
    ensures forall c :: c in k ==> IsKeyChar(c)
  {
  }

  lemma FileKeyChars(k: string)
    requires k in FILE_KEYS
    ensures (forall c :: c in k ==> !IsSpecial(c)) && NoPlus(k)
  {
    if k in TIME_KEYS { TimeKeyChars(k); } else { NameKeyChars(k); }
  }

  lemma KeyFragment(k: string)
    requires k in FILE_KEYS
    ensures Fragment(k, k)
  {
    FileKeyChars(k);
    EscapeUnspecial(k);
    TextFragment(k);
  }

  // ----- the volatile parts -----

  lemma {:induction false} DigitsMatch(n: nat, s: string)
    requires |s| == n && AllDigits(s)
    ensures MatchTimes(DigitClass, n, s)
    decreases n
  {
    if n > 0 {
      DigitsMatch(n - 1, s[1..]);
      assert MatchAtom(DigitClass, s[..1]);
    }
  }

  lemma {:induction false} LettersMatch(n: nat, s: string)
    requires |s| == n && forall i :: 0 <= i < n ==> IsLetter(s[i])
    ensures MatchTimes(Ranges(LETTERS), n, s)
    decreases n
  {
    if n > 0 {
      LettersMatch(n - 1, s[1..]);
      assert LETTERS[0].0 == 'A' && LETTERS[1].0 == 'a';
      assert InRanges(s[0], LETTERS);
      assert MatchAtom(Ranges(LETTERS), s[..1]);
    }
  }

  lemma {:induction false} AnyMatch(s: string)
    requires forall c :: c in s ==> !IsLineTerminator(c)
    ensures MatchTimes(AnyChar, |s|, s)
    decreases |s|
  {
    if s != "" {
      assert s[0] in s && forall c :: c in s[1..] ==> c in s;
      AnyMatch(s[1..]);
      assert MatchAtom(AnyChar, s[..1]);
    }
  }

  lemma GroupFragment(b: string, t: Term, name: string)
    requires Compiles(b, [t]) && MatchTerm(t, name)
    ensures Fragment("(" + b + ")", name)
  {
    GroupCompiles(b, [t]);
    MatchOne(t, name);
    TermFragment("(" + b + ")", Term(Group([t]), Once), name);
  }

  lemma GroupedDigits(d: char, s: string)
    requires IsDigit(d) && |s| == DigitValue(d) && AllDigits(s)
    ensures Fragment("(" + ("\\d" + ['{', d, '}']) + ")", s)
  {
    DigitsCompile(d);
    DigitsMatch(DigitValue(d), s);
    GroupFragment("\\d" + ['{', d, '}'], Term(DigitClass, Exactly(DigitValue(d))), s);
  }

  lemma TwoDigits(s: string)
    requires |s| == 2 && AllDigits(s)
    ensures Fragment(T2, s)
  {
    GroupedDigits('2', s);
    assert T2 == "(" + ("\\d" + ['{', '2', '}']) + ")";
  }

  lemma ThreeDigits(s: string)
    requires |s| == 3 && AllDigits(s)
    ensures Fragment(T3, s)
  {
    GroupedDigits('3', s);
    assert T3 == "(" + ("\\d" + ['{', '3', '}']) + ")";
  }

  lemma FourDigits(s: string)
    requires |s| == 4 && AllDigits(s)
    ensures Fragment(T4, s)
  {
    GroupedDigits('4', s);
    assert T4 == "(" + ("\\d" + ['{', '4', '}']) + ")";
  }

  lemma ThreeLetters(s: string)
    requires |s| == 3 && forall i :: 0 <= i < 3 ==> IsLetter(s[i])
    ensures Fragment(T_MONSTR, s)
  {
    LettersCompile('3');
    LettersMatch(3, s);
    var b := "[A-Za-z]" + ['{', '3', '}'];
    assert MatchTerm(Term(Ranges(LETTERS), Exactly(3)), s);
    GroupFragment(b, Term(Ranges(LETTERS), Exactly(3)), s);
    MonstrText();
  }

  lemma MonstrText()
    ensures T_MONSTR == "(" + ("[A-Za-z]" + ['{', '3', '}']) + ")"
  {
  }

  lemma PidFragment(pid: nat)
    ensures Fragment("(\\d+)", Decimal(pid))
  {
    SomeDigitsCompile();
    DigitsMatch(|Decimal(pid)|, Decimal(pid));
    GroupFragment("\\d" + "+", Term(DigitClass, OneOrMore), Decimal(pid));
    assert "(\\d+)" == "(" + ("\\d" + "+") + ")";
  }

  lemma ProcFragment(proc: string)
    requires forall c :: c in proc ==> !IsLineTerminator(c)
    ensures Fragment("(.*)", proc)
  {
    AnythingCompiles();
    AnyMatch(proc);
    GroupFragment("." + "*", Term(AnyChar, ZeroOrMore), proc);
    assert "(.*)" == "(" + ("." + "*") + ")";
  }

  /** Two fragments with an escaped or ordinary character between them. */
  lemma Between(a: string, s: string, c: char, b: string, t: string)
    requires Fragment(a, s) && Fragment(b, t) && c != '+'
    ensures Fragment(a + EscapeChar(c) + b, s + [c] + t)
  {
    CharFragment(c);
    FragmentConcat(a, s, EscapeChar(c), [c]);
    FragmentConcat(a + EscapeChar(c), s + [c], b, t);
  }

  lemma SpaceBetween(a: string, s: string, b: string, t: string)
    requires Fragment(a, s) && Fragment(b, t)
    ensures Fragment(a + "\\s" + b, s + " " + t)
  {
    SpaceCompiles();
    TermFragment("\\s", Term(SpaceClass, Once), " ");
    FragmentConcat(a, s, "\\s", " ");
    FragmentConcat(a + "\\s", s + " ", b, t);
  }

  lemma PaddedDigits(n: nat)
    ensures n < 100 ==> |Pad2(n)| == 2 && AllDigits(Pad2(n))
    ensures n < 1000 ==> |Pad3(n)| == 3 && AllDigits(Pad3(n))
    ensures 1000 <= n < 10_000 ==> |Decimal(n)| == 4 && |Decimal(n)[2..]| == 2 && AllDigits(Decimal(n)[2..])
  {
    PaddedIsFixed(n);
  }

  lemma DateFragment(y: string, m: string, d: string)
    requires Fragment(T4, y) && Fragment(T2, m) && Fragment(T2, d)
    ensures Fragment(T_DATE, y + "-" + m + "-" + d)
  {
    Between(T4, y, '-', T2, m);
    Between(T4 + "\\-" + T2, y + "-" + m, '-', T2, d);
  }

  lemma ClockFragment(h: string, m: string, s: string)
    requires Fragment(T2, h) && Fragment(T2, m) && Fragment(T2, s)
    ensures Fragment(T2 + ":" + T2 + ":" + T2, h + ":" + m + ":" + s)
  {
    Between(T2, h, ':', T2, m);
    Between(T2 + ":" + T2, h + ":" + m, ':', T2, s);
  }

  lemma DatatimeFragment(date: string, h: string, m: string, s: string)
    requires Fragment(T_DATE, date) && Fragment(T2, h) && Fragment(T2, m) && Fragment(T2, s)
    ensures Fragment(T_DATATIME, date + " " + (h + ":" + m + ":" + s))
  {
    ClockFragment(h, m, s);
    SpaceBetween(T_DATE, date, T2 + ":" + T2 + ":" + T2, h + ":" + m + ":" + s);
    RegroupClock(T_DATE + "\\s", T2, ":", T2, ":", T2);
  }

  lemma RegroupClock(a: string, b: string, c: string, d: string, e: string, f: string)
    ensures a + (b + c + d + e + f) == a + b + c + d + e + f
  {
  }

  lemma ClockFieldFragments(t: nat)
    ensures Fragment(T2, Pad2(Hour(t))) && Fragment(T2, Pad2(Minute(t))) && Fragment(T2, Pad2(Second(t)))
    ensures Fragment(T3, Pad3(Milli(t)))
  {
    TimeFromFields(t);
    PaddedDigits(Hour(t));
    PaddedDigits(Minute(t));
    PaddedDigits(Second(t));
    PaddedDigits(Milli(t));
    TwoDigits(Pad2(Hour(t)));
    TwoDigits(Pad2(Minute(t)));
    TwoDigits(Pad2(Second(t)));
    ThreeDigits(Pad3(Milli(t)));
  }

  lemma DateFieldFragments(d: Date)
    requires Valid(d) && d.year < 10_000
    ensures Fragment(T4, Decimal(d.year)) && |Decimal(d.year)| == 4 && Fragment(T2, Decimal(d.year)[2..])
    ensures Fragment(T2, Pad2(d.month)) && Fragment(T2, Pad2(d.day))
  {
    PaddedDigits(d.year);
    PaddedDigits(d.month);
    PaddedDigits(d.day);
    FourDigits(Decimal(d.year));
    TwoDigits(Decimal(d.year)[2..]);
    TwoDigits(Pad2(d.month));
    TwoDigits(Pad2(d.day));
  }

  lemma MonstrFragment(t: nat)
    ensures Fragment(T_MONSTR, MonthName(DayOf(t).month))
  {
    MonthNameLetters(DayOf(t).month);
    ThreeLetters(MonthName(DayOf(t).month));
  }

  lemma WholeFieldFragments(t: nat)
    requires InRange(t)
    ensures Fragment(T_DATE, DateText(t)) && Fragment(T_DATATIME, DateText(t) + " " + ClockText(t))
    ensures Fragment(T_MONSTR, MonthName(DayOf(t).month))
  {
    var d := DayOf(t);
    InRangeExactly(t);
    DateFieldFragments(d);
    ClockFieldFragments(t);
    DateFragment(Decimal(d.year), Pad2(d.month), Pad2(d.day));
    DatatimeFragment(DateText(t), Pad2(Hour(t)), Pad2(Minute(t)), Pad2(Second(t)));
    MonstrFragment(t);
  }

  /** Where the expression of a time placeholder comes from. */
  lemma PatternOf(k: string)
    requires k in TIME_KEYS
    ensures WHOLE_PATTERNS.Keys == WHOLE_KEYS && DATE_PATTERNS.Keys == DATE_KEYS && CLOCK_PATTERNS.Keys == CLOCK_KEYS
    ensures VolatileTable()[k] == if k in CLOCK_KEYS then CLOCK_PATTERNS[k]
                                  else if k in DATE_KEYS then DATE_PATTERNS[k] else WHOLE_PATTERNS[k]
  {
    PatternKeys();
    TimeKeyNotName(k);
    assert k != PID && k != PROCNAME;
  }

  /** Expression and text of each time placeholder but `%%time`. */
  lemma ClockPairs(p: (string, string) -> bool, k: string, t: nat)
    requires k in CLOCK_KEYS
    requires p(T2, Pad2(Hour(t))) && p(T2, Pad2(Minute(t))) && p(T2, Pad2(Second(t))) && p(T3, Pad3(Milli(t)))
    ensures p(VolatileTable()[k], TimeTable(t)[k])
  {
    PatternOf(k);
    assert p(CLOCK_PATTERNS[k], ClockFields(t)[k]);
  }

  lemma DatePairs(p: (string, string) -> bool, k: string, t: nat)
    requires k in DATE_KEYS && k !in CLOCK_KEYS && |Decimal(DayOf(t).year)| == 4
    requires p(T4, Decimal(DayOf(t).year)) && p(T2, Decimal(DayOf(t).year)[2..])
    requires p(T2, Pad2(DayOf(t).month)) && p(T2, Pad2(DayOf(t).day))
    ensures p(VolatileTable()[k], TimeTable(t)[k])
  {
    PatternOf(k);
    assert p(DATE_PATTERNS[k], DateFields(t)[k]);
  }

  lemma WholePairs(p: (string, string) -> bool, k: string, t: nat)
    requires k in WHOLE_KEYS && k !in CLOCK_KEYS && k !in DATE_KEYS && k != TIME
    requires p(T_DATATIME, DateText(t) + " " + ClockText(t)) && p(T_DATE, DateText(t))
    requires p(T_MONSTR, MonthName(DayOf(t).month))
    ensures p(VolatileTable()[k], TimeTable(t)[k])
  {
    PatternOf(k);
    assert p(WHOLE_PATTERNS[k], WholeFields(t)[k]);
  }

  /** Every volatile placeholder but `%%time`: its expression matches its text. */
  lemma TimeFieldFragment(k: string, t: nat)
    requires k in TIME_KEYS && k != TIME && InRange(t)
    ensures Fragment(VolatileTable()[k], TimeTable(t)[k])
  {
    ghost var p := (a: string, b: string) => Fragment(a, b);
    if k in CLOCK_KEYS {
      ClockFieldFragments(t);
      ClockPairs(p, k, t);
    } else if k in DATE_KEYS {
      InRangeExactly(t);
      DateFieldFragments(DayOf(t));
      DatePairs(p, k, t);
    } else {
      WholeFieldFragments(t);
      WholePairs(p, k, t);
    }
  }

  // ----- both texts piece by piece -----

  function EscapePiece(p: Piece): (q: Piece) { if p.Lit? then Lit(Escape(p.text)) else p }

  function EscapePieces(ps: seq<Piece>): (qs: seq<Piece>)
    ensures |qs| == |ps|
  {
    seq(|ps|, i requires 0 <= i < |ps| => EscapePiece(ps[i]))
  }

  /** Escaping the string escapes the literal pieces and leaves the placeholders readable. */
  lemma {:induction false} EscapeFlat(ps: seq<Piece>)
    requires forall i :: 0 <= i < |ps| && ps[i].Hole? ==> ps[i].key in FILE_KEYS
    ensures Escape(Flat(ps)) == Flat(EscapePieces(ps))
  {
    if ps != [] {
      var rest := ps[1..];
      assert forall i :: 0 <= i < |rest| ==> rest[i] == ps[i + 1];
      EscapeFlat(rest);
      EscapeConcat(Shown(ps[0]), Flat(rest));
      assert Escape(Shown(ps[0])) == Shown(EscapePiece(ps[0])) by {
        if ps[0].Hole? {
          FileKeyChars(ps[0].key);
          EscapeUnspecial(ps[0].key);
        }
      }
      assert EscapePieces(ps)[1..] == EscapePieces(rest);
    }
  }

  /** The pieces of the generated name. */
  function NamePieces(ps: seq<Piece>, c: FileNaming, pid: nat, proc: string, t: nat): (r: seq<Piece>)
    ensures |r| == |ps|
  {
    FillAll(ps, FILE_KEYS, NameTable(c, pid, proc) + TimeTable(t))
  }

  /** The pieces of the pattern before the volatile placeholders are filled. */
  function FixedPieces(ps: seq<Piece>, c: FileNaming): (r: seq<Piece>)
    ensures |r| == |ps|
  {
    EscapePieces(FillAll(ps, FIXED_NAME_KEYS, FixedTable(c)))
  }

  function PatternPieces(ps: seq<Piece>, c: FileNaming): (r: seq<Piece>)
    ensures |r| == |ps|
  {
    FillAll(FixedPieces(ps, c), VOLATILE_KEYS, VolatileTable())
  }

  ghost predicate PlainNaming(c: FileNaming) {
    Plain(c.path) && Plain(c.prefix) && Plain(c.filename) && Plain(c.title) && Plain(c.suffix)
  }

  /** No '+' in the text that stands for piece `i`: text of the format, or a configured text where the
      format uses it first. */
  ghost predicate NoPlusAt(ps: seq<Piece>, c: FileNaming, i: nat)
    requires i < |ps|
  {
    match ps[i]
    case Lit(text) => NoPlus(text)
    case Hole(k) => k in FIXED_NAME_KEYS && ps[i] !in ps[..i] ==> NoPlus(FixedTable(c)[k])
  }

  /** No '+' in any text in use. */
  ghost predicate NoPlusInUse(ps: seq<Piece>, c: FileNaming) {
    forall i :: 0 <= i < |ps| ==> NoPlusAt(ps, c, i)
  }

  ghost predicate CleanProcess(proc: string) {
    Plain(proc) && forall c :: c in proc ==> !IsLineTerminator(c)
  }

  /** Literal text of the pattern comes in only as escaped text, so the volatile holes are the
      first of their kind in the pattern exactly where they are in the format. */
  lemma VolatileFirst(ps: seq<Piece>, c: FileNaming, i: nat)
    requires i < |ps| && ps[i].Hole? && ps[i].key in VOLATILE_KEYS
    ensures FixedPieces(ps, c)[i] == ps[i]
    ensures ps[i] in FixedPieces(ps, c)[..i] <==> ps[i] in ps[..i]
  {
    var f := FixedPieces(ps, c);
    KeysApart(ps[i].key);
    forall j | 0 <= j < i ensures f[..i][j] == ps[i] <==> ps[..i][j] == ps[i] {
    }
  }

  lemma KeysApart(k: string)
    ensures k in VOLATILE_KEYS ==> k !in FIXED_NAME_KEYS
    ensures k in FILE_KEYS && k !in VOLATILE_KEYS ==> k in FIXED_NAME_KEYS
  {
    if k in TIME_KEYS { TimeKeyNotName(k); }
  }

  lemma TimeKeyNotName(k: string)
    requires k in TIME_KEYS
    ensures k !in NAME_KEYS
  {
  }

  /** What the pattern shows for piece `i`. */
  function PatternText(ps: seq<Piece>, c: FileNaming, i: nat): (s: string)
    requires i < |ps|
  {
    match ps[i]
    case Lit(text) => Escape(text)
    case Hole(k) =>
      if ps[i] in ps[..i] then k
      else if k in FIXED_NAME_KEYS then Escape(FixedTable(c)[k])
      else if k in VOLATILE_KEYS then VolatileTable()[k]
      else k
  }

  lemma PatternShows(ps: seq<Piece>, c: FileNaming, i: nat)
    requires i < |ps|
    ensures Shown(PatternPieces(ps, c)[i]) == PatternText(ps, c, i)
  {
    if ps[i].Hole? {
      KeysApart(ps[i].key);
      if ps[i].key in VOLATILE_KEYS { VolatileFirst(ps, c, i); }
    }
  }

  lemma FixedHoleFragment(k: string, c: FileNaming, pid: nat, proc: string, t: nat)
    requires k in FIXED_NAME_KEYS && NoPlus(FixedTable(c)[k])
    ensures Fragment(Escape(FixedTable(c)[k]), (NameTable(c, pid, proc) + TimeTable(t))[k])
  {
    if k in TIME_KEYS { TimeKeyNotName(k); }
    FixedText(k, c, pid, proc);
    TextFragment(FixedTable(c)[k]);
  }

  lemma FixedText(k: string, c: FileNaming, pid: nat, proc: string)
    requires k in FIXED_NAME_KEYS
    ensures k in NAME_KEYS && NameTable(c, pid, proc)[k] == FixedTable(c)[k]
  {
  }

  /** Expression and text of each volatile placeholder. */
  lemma VolatilePairs(p: (string, string) -> bool, k: string, c: FileNaming, pid: nat, proc: string, t: nat)
    requires k in VOLATILE_KEYS
    requires if k in TIME_KEYS then p(VolatileTable()[k], TimeTable(t)[k])
             else if k == PID then p("(\\d+)", Decimal(pid)) else p("(.*)", proc)
    ensures p(VolatileTable()[k], (NameTable(c, pid, proc) + TimeTable(t))[k])
  {
    if k !in TIME_KEYS { ProcessFields(k, c, pid, proc); }
  }

  lemma ProcessFields(k: string, c: FileNaming, pid: nat, proc: string)
    requires k in VOLATILE_KEYS && k !in TIME_KEYS
    ensures k in NAME_KEYS && (k == PID || k == PROCNAME)
    ensures VolatileTable()[k] == if k == PID then "(\\d+)" else "(.*)"
    ensures NameTable(c, pid, proc)[k] == if k == PID then Decimal(pid) else proc
  {
    assert |PID| != |PROCNAME|;
  }

  lemma VolatileHoleFragment(k: string, c: FileNaming, pid: nat, proc: string, t: nat)
    requires CleanProcess(proc) && InRange(t) && k in VOLATILE_KEYS && k != TIME
    ensures Fragment(VolatileTable()[k], (NameTable(c, pid, proc) + TimeTable(t))[k])
  {
    if k in TIME_KEYS {
      TimeFieldFragment(k, t);
    } else {
      PidFragment(pid);
      ProcFragment(proc);
    }
    VolatilePairs((a: string, b: string) => Fragment(a, b), k, c, pid, proc, t);
  }

  /** The two texts that stand for one piece of the format, in the pattern and in the name. */
  lemma PiecePairs(p: (string, string) -> bool, ps: seq<Piece>, c: FileNaming, pid: nat, proc: string, t: nat, i: nat)
    requires i < |ps|
    requires match ps[i]
      case Lit(text) => p(Escape(text), text)
      case Hole(k) =>
        k in FILE_KEYS &&
        if ps[i] in ps[..i] then p(k, k)
        else if k in FIXED_NAME_KEYS then p(Escape(FixedTable(c)[k]), (NameTable(c, pid, proc) + TimeTable(t))[k])
        else k in VOLATILE_KEYS && p(VolatileTable()[k], (NameTable(c, pid, proc) + TimeTable(t))[k])
    ensures p(Shown(PatternPieces(ps, c)[i]), Shown(NamePieces(ps, c, pid, proc, t)[i]))
  {
    PatternShows(ps, c, i);
    if ps[i].Hole? { KeysApart(ps[i].key); }
  }

  /** The text that stands for a piece unless it is a volatile placeholder. */
  function TextAt(ps: seq<Piece>, c: FileNaming, i: nat): (text: Option<string>)
    requires i < |ps|
  {
    match ps[i]
    case Lit(text) => Some(text)
    case Hole(k) =>
      if ps[i] in ps[..i] then Some(k) else if k in FIXED_NAME_KEYS then Some(FixedTable(c)[k]) else None
  }

  /** It is in the name as it is, and in the pattern escaped. */
  lemma TextShows(ps: seq<Piece>, c: FileNaming, pid: nat, proc: string, t: nat, i: nat)
    requires WellFormed(ps, FILE_KEYS) && i < |ps| && TextAt(ps, c, i).Some?
    ensures Shown(NamePieces(ps, c, pid, proc, t)[i]) == TextAt(ps, c, i).value
    ensures Shown(PatternPieces(ps, c)[i]) == Escape(TextAt(ps, c, i).value)
  {
    var text := TextAt(ps, c, i).value;
    if ps[i].Hole? {
      var k := ps[i].key;
      KeysApart(k);
      if ps[i] in ps[..i] {
        FileKeyChars(k);
        EscapeUnspecial(k);
      } else {
        FixedText(k, c, pid, proc);
        if k in TIME_KEYS { TimeKeyNotName(k); }
      }
    }
    PiecePairs((a: string, b: string) => a == Escape(text) && b == text, ps, c, pid, proc, t, i);
  }

  lemma TextHasNoPlus(ps: seq<Piece>, c: FileNaming, k: nat)
    requires WellFormed(ps, FILE_KEYS) && k < |ps| && NoPlusAt(ps, c, k) && TextAt(ps, c, k).Some?
    ensures NoPlus(TextAt(ps, c, k).value)
  {
    if ps[k].Hole? && ps[k] in ps[..k] { FileKeyChars(ps[k].key); }
  }

  /** What stands for one piece of the format in the pattern matches what stands for it in the name. */
  lemma PieceFragment(ps: seq<Piece>, c: FileNaming, pid: nat, proc: string, t: nat, i: nat)
    requires WellFormed(ps, FILE_KEYS) && CleanProcess(proc) && InRange(t)
    requires i < |ps| && NoPlusAt(ps, c, i) && (ps[i] == Hole(TIME) ==> ps[i] in ps[..i])
    ensures Fragment(Shown(PatternPieces(ps, c)[i]), Shown(NamePieces(ps, c, pid, proc, t)[i]))
  {
    match ps[i] {
      case Lit(text) =>
        TextFragment(text);
      case Hole(k) =>
        assert ps[i] in ps && k in FILE_KEYS;
        KeysApart(k);
        if ps[i] in ps[..i] {
          KeyFragment(k);
        } else if k in FIXED_NAME_KEYS {
          FixedHoleFragment(k, c, pid, proc, t);
        } else {
          VolatileHoleFragment(k, c, pid, proc, t);
        }
    }
    PiecePairs((a: string, b: string) => Fragment(a, b), ps, c, pid, proc, t, i);
  }

  lemma {:induction false} FragmentsFlat(pat: seq<Piece>, name: seq<Piece>)
    requires |pat| == |name| && forall i :: 0 <= i < |pat| ==> Fragment(Shown(pat[i]), Shown(name[i]))
    ensures Fragment(Flat(pat), Flat(name))
    decreases |pat|
  {
    if pat == [] {
      EmptyFragment();
    } else {
      FragmentsFlat(pat[1..], name[1..]);
      FragmentConcat(Shown(pat[0]), Shown(name[0]), Flat(pat[1..]), Flat(name[1..]));
    }
  }

  // ----- main result -----

  lemma NameValuesArePlain(c: FileNaming, pid: nat, proc: string, t: nat)
    requires PlainNaming(c) && CleanProcess(proc)
    ensures forall k :: k in NAME_KEYS ==> Plain(NameTable(c, pid, proc)[k])
    ensures forall k :: k in FIXED_NAME_KEYS ==> Plain(FixedTable(c)[k])
  {
    FieldsArePlain(pid);
  }

  lemma VolatileValueIsPlain(k: string)
    requires k in VOLATILE_KEYS
    ensures Plain(VolatileTable()[k])
  {
    assert Plain(T4) && Plain(T2) && Plain(T3) && Plain(T_MONSTR) && Plain("(\\d+)") && Plain("(.*)");
    assert Plain(T_DATE) && Plain(T_TIME) && Plain(T_DATATIME);
    if k in TIME_KEYS {
      PatternOf(k);
      PatternIsPlain(k);
    }
  }

  lemma PatternIsPlain(k: string)
    requires Plain(T4) && Plain(T2) && Plain(T3) && Plain(T_MONSTR) && Plain(T_DATE) && Plain(T_TIME)
    requires Plain(T_DATATIME)
    ensures k in CLOCK_PATTERNS ==> Plain(CLOCK_PATTERNS[k])
    ensures k in DATE_PATTERNS ==> Plain(DATE_PATTERNS[k])
    ensures k in WHOLE_PATTERNS ==> Plain(WHOLE_PATTERNS[k])
  {
  }

  lemma VolatileValuesArePlain()
    ensures forall k :: k in VOLATILE_KEYS ==> Plain(VolatileTable()[k])
  {
    forall k | k in VOLATILE_KEYS ensures Plain(VolatileTable()[k]) {
      VolatileValueIsPlain(k);
    }
  }

  lemma FileKeysTable()
    ensures KeyTable(FILE_KEYS) && NAME_KEYS !! TIME_KEYS && FIXED_NAME_KEYS <= FILE_KEYS && VOLATILE_KEYS <= FILE_KEYS
  {
    TablesInAll();
    SubTable(FILE_KEYS);
    forall k | k in NAME_KEYS ensures k !in TIME_KEYS { if k in TIME_KEYS { TimeKeyNotName(k); } }
  }

  /** Any order of the two maps gives the same name. */
  lemma NameIsFilled(ps: seq<Piece>, c: FileNaming, pid: nat, proc: string, t: nat, o1: seq<string>, o2: seq<string>)
    requires WellFormed(ps, FILE_KEYS) && PlainNaming(c) && CleanProcess(proc)
    requires IsOrder(o1, NAME_KEYS) && IsOrder(o2, TIME_KEYS)
    ensures ReplaceEach(ReplaceEach(Flat(ps), o1, NameTable(c, pid, proc)), o2, TimeTable(t))
         == Flat(NamePieces(ps, c, pid, proc, t))
  {
    FileKeysTable();
    NameValuesArePlain(c, pid, proc, t);
    TimeValuesArePlain(t);
    PlainTablesFill(NameTable(c, pid, proc), TimeTable(t), NAME_KEYS, TIME_KEYS, ps, o1, o2);
  }

  lemma PlainTablesFill(t1: map<string, string>, t2: map<string, string>, k1: set<string>, k2: set<string>,
                        ps: seq<Piece>, o1: seq<string>, o2: seq<string>)
    requires t1.Keys == k1 && t2.Keys == k2 && k1 !! k2 && KeyTable(k1 + k2) && WellFormed(ps, k1 + k2)
    requires forall k :: k in k1 ==> Plain(t1[k])
    requires forall k :: k in k2 ==> Plain(t2[k])
    requires IsOrder(o1, k1) && IsOrder(o2, k2)
    ensures ReplaceEach(ReplaceEach(Flat(ps), o1, t1), o2, t2) == Flat(FillAll(ps, k1 + k2, t1 + t2))
  {
    assert (t1 + t2).Keys == k1 + k2;
    PlainValues(t1 + t2, "");
    TwoPassesAreOne(Flat(ps), o1, t1, o2, t2);
    SubstitutionRefinesFilling(ps, k1 + k2, t1 + t2, "", o1 + o2);
  }

  /** Any order of the two maps gives the same pattern. */
  lemma PatternIsFilled(ps: seq<Piece>, c: FileNaming, o1: seq<string>, o2: seq<string>)
    requires WellFormed(ps, FILE_KEYS) && PlainNaming(c)
    requires IsOrder(o1, FIXED_NAME_KEYS) && IsOrder(o2, VOLATILE_KEYS)
    ensures ReplaceEach(Escape(ReplaceEach(Flat(ps), o1, FixedTable(c))), o2, VolatileTable())
         == Flat(PatternPieces(ps, c))
  {
    FileKeysTable();
    NameValuesArePlain(c, 0, "", 0);
    VolatileValuesArePlain();
    TableFills(ps, FIXED_NAME_KEYS, FixedTable(c), o1);
    FixedPiecesWellFormed(ps, c);
    EscapeFlat(FillAll(ps, FIXED_NAME_KEYS, FixedTable(c)));
    TableFills(FixedPieces(ps, c), VOLATILE_KEYS, VolatileTable(), o2);
  }

  /** One pass over part of the keys, with plain values. */
  lemma TableFills(ps: seq<Piece>, keys: set<string>, table: map<string, string>, order: seq<string>)
    requires KeyTable(FILE_KEYS) && keys <= FILE_KEYS && WellFormed(ps, FILE_KEYS)
    requires table.Keys == keys && IsOrder(order, keys) && forall k :: k in keys ==> Plain(table[k])
    ensures ReplaceEach(Flat(ps), order, table) == Flat(FillAll(ps, keys, table))
  {
    PlainValues(table, "");
    SubstitutionRefinesFilling(ps, FILE_KEYS, table, "", order);
  }

  lemma FixedPiecesWellFormed(ps: seq<Piece>, c: FileNaming)
    requires WellFormed(ps, FILE_KEYS) && forall k :: k in FIXED_NAME_KEYS ==> Plain(FixedTable(c)[k])
    ensures WellFormed(FixedPieces(ps, c), FILE_KEYS)
    ensures WellFormed(FillAll(ps, FIXED_NAME_KEYS, FixedTable(c)), FILE_KEYS)
  {
    var f := FillAll(ps, FIXED_NAME_KEYS, FixedTable(c));
    forall i | 0 <= i < |ps|
      ensures PlainPiece(f[i]) && PlainPiece(EscapePiece(f[i])) && (f[i].Hole? ==> f[i].key in FILE_KEYS)
    {
      assert PlainPiece(ps[i]) && (ps[i].Hole? ==> ps[i].key in FILE_KEYS);
      if f[i].Lit? { EscapeKeepsPlain(f[i].text); }
    }
  }

  /** Main result: for every format without `%%time`, every configuration without '+' in a text that
      is used, every process and time, and every order in which the four maps are walked, the pattern
      finds the name again. */
  lemma PatternRecognisesName(ps: seq<Piece>, c: FileNaming, pid: nat, proc: string, t: nat,
                              o1: seq<string>, o2: seq<string>, o3: seq<string>, o4: seq<string>)
    requires WellFormed(ps, FILE_KEYS) && PlainNaming(c) && NoPlusInUse(ps, c)
    requires CleanProcess(proc) && InRange(t) && Hole(TIME) !in ps
    requires IsOrder(o1, NAME_KEYS) && IsOrder(o2, TIME_KEYS)
    requires IsOrder(o3, FIXED_NAME_KEYS) && IsOrder(o4, VOLATILE_KEYS)
    ensures RegexMatch(ReplaceEach(Escape(ReplaceEach(Flat(ps), o3, FixedTable(c))), o4, VolatileTable()),
                       ReplaceEach(ReplaceEach(Flat(ps), o1, NameTable(c, pid, proc)), o2, TimeTable(t)))
  {
    NameIsFilled(ps, c, pid, proc, t, o1, o2);
    PatternIsFilled(ps, c, o3, o4);
    forall i | 0 <= i < |ps|
      ensures Fragment(Shown(PatternPieces(ps, c)[i]), Shown(NamePieces(ps, c, pid, proc, t)[i]))
    {
      PieceFragment(ps, c, pid, proc, t, i);
    }
    FragmentsFlat(PatternPieces(ps, c), NamePieces(ps, c, pid, proc, t));
    FragmentMatches(Flat(PatternPieces(ps, c)), Flat(NamePieces(ps, c, pid, proc, t)));
  }

  /** The same for whatever the two methods return. */
  lemma BuiltPatternFindsBuiltName(ps: seq<Piece>, c: FileNaming, pid: nat, proc: string, t: nat, name: string,
                                   pattern: string)
    requires c.format == Flat(ps) && WellFormed(ps, FILE_KEYS) && PlainNaming(c) && NoPlusInUse(ps, c)
    requires CleanProcess(proc) && InRange(t) && Hole(TIME) !in ps
    requires IsFilename(c, pid, proc, t, name) && IsPattern(c, pattern)
    ensures RegexMatch(pattern, name)
  {
    var o1, o2 := FilenameOrders(c, pid, proc, t, name);
    var o3, o4 := PatternOrders(c, pattern);
    PatternRecognisesName(ps, c, pid, proc, t, o1, o2, o3, o4);
  }

  lemma FilenameOrders(c: FileNaming, pid: nat, proc: string, t: nat, name: string)
      returns (o1: seq<string>, o2: seq<string>)
    requires IsFilename(c, pid, proc, t, name)
    ensures IsOrder(o1, NAME_KEYS) && IsOrder(o2, TIME_KEYS)
    ensures name == ReplaceEach(ReplaceEach(c.format, o1, NameTable(c, pid, proc)), o2, TimeTable(t))
  {
    var mid :| Substituted(c.format, NameTable(c, pid, proc), mid) && Substituted(mid, TimeTable(t), name);
    o1 :| IsOrder(o1, NameTable(c, pid, proc).Keys) && mid == ReplaceEach(c.format, o1, NameTable(c, pid, proc));
    o2 :| IsOrder(o2, TimeTable(t).Keys) && name == ReplaceEach(mid, o2, TimeTable(t));
  }

  lemma PatternOrders(c: FileNaming, pattern: string) returns (o3: seq<string>, o4: seq<string>)
    requires IsPattern(c, pattern)
    ensures IsOrder(o3, FIXED_NAME_KEYS) && IsOrder(o4, VOLATILE_KEYS)
    ensures pattern == ReplaceEach(Escape(ReplaceEach(c.format, o3, FixedTable(c))), o4, VolatileTable())
  {
    var mid :| Substituted(c.format, FixedTable(c), mid) && Substituted(Escape(mid), VolatileTable(), pattern);
    o3 :| IsOrder(o3, FixedTable(c).Keys) && mid == ReplaceEach(c.format, o3, FixedTable(c));
    o4 :| IsOrder(o4, VolatileTable().Keys) && pattern == ReplaceEach(Escape(mid), o4, VolatileTable());
  }
}
