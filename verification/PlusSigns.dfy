/**
 '+' is not among the escaped characters, so in the pattern it is a quantifier or a syntax error.
 What can then still match holds no '+', and no fewer of the other characters than the text that
 was to be matched. Both are carried through the parser, over text whose parse is not known.
 */
module PlusSigns {
  import opened Calendar
  import opened Fragments
  import opened Placeholders
  import opened PurgePattern
  import opened Regex
  import opened Template
  import opened Text
  import opened TimeText

  /** Neither a digit, of which placeholders match any number, nor '+'. */
  predicate IsSolid(c: char) { !IsDigit(c) && c != '+' }

  function Solid(s: string): (n: nat) {
    if s == "" then 0 else (if IsSolid(s[0]) then 1 else 0) + Solid(s[1..])
  }

  lemma {:induction false} SolidConcat(a: string, b: string)
    ensures Solid(a + b) == Solid(a) + Solid(b)
  {
    if a == "" {
      assert a + b == b;
    } else {
      assert (a + b)[1..] == a[1..] + b;
      SolidConcat(a[1..], b);
    }
  }

  lemma {:induction false} SolidOfDigits(s: string)
    requires AllDigits(s)
    ensures Solid(s) == 0
  {
    if s != "" { SolidOfDigits(s[1..]); }
  }

  lemma SolidChar(c: char)
    ensures Solid([c]) == if IsSolid(c) then 1 else 0
  {
    assert [c][1..] == "";
  }

  /** Cut at two places. */
  lemma SolidCuts(s: string, i: nat, j: nat)
    requires i <= j <= |s|
    ensures Solid(s) == Solid(s[..i]) + Solid(s[i..j]) + Solid(s[j..])
  {
    assert s == s[..i] + s[i..j] + s[j..];
    SolidConcat(s[..i] + s[i..j], s[j..]);
    SolidConcat(s[..i], s[i..j]);
  }

  lemma SolidInside(s: string, i: nat)
    requires i < |s| && IsSolid(s[i])
    ensures Solid(s) > 0
  {
    SolidCuts(s, i, i + 1);
    assert s[i..i + 1] == [s[i]];
    SolidChar(s[i]);
  }

  // ----- terms that match no '+' -----

  predicate PlusFreeAtom(a: Atom)
    decreases a, 0
  {
    match a
    case Chr(c) => c != '+'
    case AnyChar => false
    case DigitClass => true
    case SpaceClass => true
    case Ranges(rs) => rs == LETTERS
    case Group(body) => PlusFree(body)
  }

  predicate PlusFreeTerm(t: Term)
    decreases t, 0
  {
    PlusFreeAtom(t.atom)
  }

  predicate PlusFree(ts: seq<Term>)
    decreases ts, 0
  {
    ts == [] || (PlusFreeTerm(ts[0]) && PlusFree(ts[1..]))
  }

  /** How many solid characters a match has at least. */
  function LeastAtom(a: Atom): (least: nat)
    decreases a, 0
  {
    match a
    case Chr(c) => if IsSolid(c) then 1 else 0
    case AnyChar => 0
    case DigitClass => 0
    case SpaceClass => 1
    case Ranges(_) => 1
    case Group(body) => Least(body)
  }

  function LeastTerm(t: Term): (least: nat)
    decreases t, 0
  {
    match t.quant
    case Once => LeastAtom(t.atom)
    case Exactly(n) => n * LeastAtom(t.atom)
    case OneOrMore => LeastAtom(t.atom)
    case ZeroOrMore => 0
  }

  function Least(ts: seq<Term>): (least: nat)
    decreases ts, 0
  {
    if ts == [] then 0 else LeastTerm(ts[0]) + Least(ts[1..])
  }

  ghost predicate AtLeast(s: string, n: nat) { NoPlus(s) && Solid(s) >= n }

  lemma AtLeastConcat(s: string, i: nat, m: nat, n: nat)
    requires i <= |s| && AtLeast(s[..i], m) && AtLeast(s[i..], n)
    ensures AtLeast(s, m + n)
  {
    assert s == s[..i] + s[i..];
    SolidConcat(s[..i], s[i..]);
  }

  lemma LettersAreSolid(c: char)
    requires InRanges(c, LETTERS)
    ensures IsSolid(c)
  {
  }

  lemma {:induction false} AtomMatch(a: Atom, s: string)
    requires PlusFreeAtom(a) && MatchAtom(a, s)
    ensures AtLeast(s, LeastAtom(a))
    decreases a, 0
  {
    if a.Group? {
      TermsMatch(a.body, s);
    } else {
      assert s == [s[0]];
      SolidChar(s[0]);
      if a.Ranges? { LettersAreSolid(s[0]); }
    }
  }

  lemma {:induction false} TimesMatch(a: Atom, n: nat, s: string)
    requires PlusFreeAtom(a) && MatchTimes(a, n, s)
    ensures AtLeast(s, n * LeastAtom(a))
    decreases a, n + 1
  {
    if n > 0 {
      var i: nat :| i <= |s| && MatchAtom(a, s[..i]) && MatchTimes(a, n - 1, s[i..]);
      AtomMatch(a, s[..i]);
      TimesMatch(a, n - 1, s[i..]);
      AtLeastConcat(s, i, LeastAtom(a), (n - 1) * LeastAtom(a));
      assert LeastAtom(a) + (n - 1) * LeastAtom(a) == n * LeastAtom(a);
    }
  }

  lemma {:induction false} TermMatch(t: Term, s: string)
    requires PlusFreeAtom(t.atom) && MatchTerm(t, s)
    ensures AtLeast(s, LeastTerm(t))
    decreases t, 0
  {
    match t.quant
    case Once => AtomMatch(t.atom, s);
    case Exactly(n) => TimesMatch(t.atom, n, s);
    case OneOrMore =>
      var n: nat :| n >= 1 && MatchTimes(t.atom, n, s);
      TimesMatch(t.atom, n, s);
      Multiple(n, LeastAtom(t.atom));
    case ZeroOrMore =>
      var n: nat :| MatchTimes(t.atom, n, s);
      TimesMatch(t.atom, n, s);
  }

  lemma Multiple(n: nat, m: nat)
    requires n >= 1
    ensures n * m >= m
  {
    assert n * m == m + (n - 1) * m;
  }

  lemma {:induction false} TermsMatch(ts: seq<Term>, s: string)
    requires PlusFree(ts) && MatchTerms(ts, s)
    ensures AtLeast(s, Least(ts))
    decreases ts, 0
  {
    if ts != [] {
      var i: nat :| i <= |s| && MatchTerm(ts[0], s[..i]) && MatchTerms(ts[1..], s[i..]);
      TermMatch(ts[0], s[..i]);
      TermsMatch(ts[1..], s[i..]);
      AtLeastConcat(s, i, LeastTerm(ts[0]), Least(ts[1..]));
    }
  }

  // ----- through the parser -----

  ghost predicate Ahead(ts: seq<Term>, tail: seq<Term>, n: nat) {
    exists x :: ts == x + tail && PlusFree(x) && Least(x) >= n
  }

  /** If the text parses at all: first terms that match no '+' but `n` solid characters, then `tail`. */
  ghost predicate Leads(p: string, tail: seq<Term>, n: nat) {
    ParseTerms(p).Some? ==> Ahead(ParseTerms(p).value.0, tail, n)
  }

  /** The same if the text stands behind an atom, which takes a '+' in front as its quantifier. */
  ghost predicate Behind(p: string, tail: seq<Term>, n: nat) {
    Leads(p, tail, n) && (p != "" && IsQuantChar(p[0]) ==> p[0] == '+' && Leads(p[1..], tail, n))
  }

  /** In front of anything, the text adds at least `m` solid characters and nothing to match '+'. */
  ghost predicate Keeps(a: string, m: nat) {
    forall rest, tail, n {:trigger a + rest, Behind(rest, tail, n)} ::
      Behind(rest, tail, n) ==> Behind(a + rest, tail, m + n)
  }

  lemma KeepsNothing()
    ensures Keeps("", 0)
  {
    forall rest, tail, n: nat | Behind(rest, tail, n) ensures Behind("" + rest, tail, 0 + n) {
      assert "" + rest == rest;
    }
  }

  lemma KeepsConcat(a: string, m: nat, b: string, n: nat)
    requires Keeps(a, m) && Keeps(b, n)
    ensures Keeps(a + b, m + n)
  {
    forall rest, tail, k: nat | Behind(rest, tail, k) ensures Behind(a + b + rest, tail, m + n + k) {
      Regroup(a, b, rest);
      assert Behind(b + rest, tail, n + k);
      assert Behind(a + (b + rest), tail, m + (n + k));
    }
  }

  lemma KeepsPlus()
    ensures Keeps("+", 0)
  {
    forall rest, tail, n: nat | Behind(rest, tail, n) ensures Behind("+" + rest, tail, 0 + n) {
      assert ("+" + rest)[1..] == rest;
      assert ParseAtom("+" + rest) == None;
    }
  }

  lemma OneAhead(ts: seq<Term>, tail: seq<Term>, m: nat, n: nat)
    requires ts != [] && PlusFreeTerm(ts[0]) && LeastTerm(ts[0]) >= m && Ahead(ts[1..], tail, n)
    ensures Ahead(ts, tail, m + n)
  {
    var x :| ts[1..] == x + tail && PlusFree(x) && Least(x) >= n;
    var y := ts[..1 + |x|];
    assert y[1..] == x && ts == y + tail;
  }

  lemma AtomLeads(a: string, atom: Atom, m: nat, rest: string, tail: seq<Term>, n: nat)
    requires a != "" && a[0] != ')' && ParseAtom(a + rest) == Some((atom, rest))
    requires PlusFreeAtom(atom) && LeastAtom(atom) >= m && Behind(rest, tail, n)
    ensures Leads(a + rest, tail, m + n)
  {
    var p := a + rest;
    assert p[0] == a[0];
    if ParseTerms(p).Some? {
      var q := ParseQuant(rest).value;
      assert ParseTerms(p).value.0[1..] == ParseTerms(q.1).value.0;
      OneAhead(ParseTerms(p).value.0, tail, m, n);
    }
  }

  lemma KeepsAtom(a: string, atom: Atom, m: nat)
    requires a != "" && a[0] != ')' && !IsQuantChar(a[0])
    requires forall rest {:trigger a + rest} :: ParseAtom(a + rest) == Some((atom, rest))
    requires PlusFreeAtom(atom) && LeastAtom(atom) >= m
    ensures Keeps(a, m)
  {
    forall rest, tail, n: nat | Behind(rest, tail, n) ensures Behind(a + rest, tail, m + n) {
      AtomLeads(a, atom, m, rest, tail, n);
    }
  }

  lemma KeepsChar(c: char)
    ensures Keeps(EscapeChar(c), Solid([c]))
  {
    SolidChar(c);
    if c == '+' {
      KeepsPlus();
    } else {
      var a := EscapeChar(c);
      forall rest: string ensures ParseAtom(a + rest) == Some((Chr(c), rest)) {
        assert (a + rest)[|a|..] == rest;
      }
      KeepsAtom(a, Chr(c), Solid([c]));
    }
  }

  /** Any escaped text, also with '+'. */
  lemma {:induction false} KeepsText(s: string)
    ensures Keeps(Escape(s), Solid(s))
  {
    if s == "" {
      KeepsNothing();
    } else {
      KeepsChar(s[0]);
      KeepsText(s[1..]);
      KeepsConcat(EscapeChar(s[0]), Solid([s[0]]), Escape(s[1..]), Solid(s[1..]));
      SolidChar(s[0]);
    }
  }

  lemma KeepsSpace()
    ensures Keeps("\\s", 1)
  {
    forall rest: string ensures ParseAtom("\\s" + rest) == Some((SpaceClass, rest)) {
      assert ("\\s" + rest)[2..] == rest;
    }
    KeepsAtom("\\s", SpaceClass, 1);
  }

  lemma KeepsGroup(b: string, t: Term)
    requires Compiles(b, [t]) && PlusFreeAtom(t.atom)
    ensures Keeps("(" + b + ")", LeastTerm(t))
  {
    var a, g := "(" + b + ")", Group([t]);
    forall rest: string ensures ParseAtom(a + rest) == Some((g, rest)) {
      GroupParses(b, [t], rest);
    }
    OneInGroup(g, t);
    assert a[0] == '(';
    KeepsAtom(a, g, LeastTerm(t));
  }

  lemma OneInGroup(g: Atom, t: Term)
    requires g.Group? && |g.body| == 1 && g.body[0] == t && PlusFreeTerm(t)
    ensures PlusFreeAtom(g) && LeastAtom(g) == LeastTerm(t)
  {
    assert g.body[1..] == [];
    assert PlusFree(g.body) && Least(g.body) == LeastTerm(t);
  }

  lemma EndIsBehind()
    ensures Behind("", [], 0)
  {
    assert ParseTerms("") == Some(([], ""));
    ghost var none: seq<Term> := [];
    assert none == none + [] && PlusFree(none) && Least(none) == 0;
  }

  /** The whole text. */
  lemma KeptTerms(p: string, m: nat)
    requires Keeps(p, m)
    ensures Leads(p, [], m)
  {
    EndIsBehind();
    assert Behind(p + "", [], m + 0);
    assert p + "" == p;
  }

  lemma KeptMatch(p: string, m: nat, name: string)
    requires Keeps(p, m) && RegexMatch(p, name)
    ensures AtLeast(name, m)
  {
    KeptTerms(p, m);
    var ts := ParseTerms(p).value.0;
    var x :| ts == x + [] && PlusFree(x) && Least(x) >= m;
    assert x + [] == x;
    TermsMatch(x, name);
  }

  /** Main result: an escaped text matches itself exactly if it holds no '+'. */
  lemma EscapedMatchesExactly(s: string)
    ensures RegexMatch(Escape(s), s) <==> NoPlus(s)
  {
    if NoPlus(s) {
      TextFragment(s);
      FragmentMatches(Escape(s), s);
    }
    if RegexMatch(Escape(s), s) {
      KeepsText(s);
      KeptMatch(Escape(s), Solid(s), s);
    }
  }

  // ----- the volatile parts -----

  lemma KeepsGroupedDigits(d: char)
    requires IsDigit(d)
    ensures Keeps("(" + ("\\d" + ['{', d, '}']) + ")", 0)
  {
    DigitsCompile(d);
    KeepsGroup("\\d" + ['{', d, '}'], Term(DigitClass, Exactly(DigitValue(d))));
  }

  lemma KeepsNumbers()
    ensures Keeps(T2, 0) && Keeps(T3, 0) && Keeps(T4, 0)
  {
    KeepsGroupedDigits('2');
    KeepsGroupedDigits('3');
    KeepsGroupedDigits('4');
    assert T2 == "(" + ("\\d" + ['{', '2', '}']) + ")";
    assert T3 == "(" + ("\\d" + ['{', '3', '}']) + ")";
    assert T4 == "(" + ("\\d" + ['{', '4', '}']) + ")";
  }

  lemma KeepsMonstr()
    ensures Keeps(T_MONSTR, 3)
  {
    LettersCompile('3');
    KeepsGroup("[A-Za-z]" + ['{', '3', '}'], Term(Ranges(LETTERS), Exactly(3)));
    MonstrText();
  }

  lemma KeepsPid()
    ensures Keeps("(\\d+)", 0)
  {
    SomeDigitsCompile();
    KeepsGroup("\\d" + "+", Term(DigitClass, OneOrMore));
    assert "(\\d+)" == "(" + ("\\d" + "+") + ")";
  }

  lemma KeepsBetween(a: string, m: nat, c: string, b: string, n: nat)
    requires Keeps(a, m) && Keeps(c, 1) && Keeps(b, n)
    ensures Keeps(a + c + b, m + 1 + n)
  {
    KeepsConcat(a, m, c, 1);
    KeepsConcat(a + c, m + 1, b, n);
  }

  lemma KeepsSeparators()
    ensures Keeps(":", 1) && Keeps("\\-", 1) && Keeps("\\s", 1)
  {
    KeepsChar(':');
    KeepsChar('-');
    KeepsSpace();
    SolidChar(':');
    SolidChar('-');
  }

  lemma KeepsDate()
    ensures Keeps(T_DATE, 2) && Keeps(T_DATATIME, 5)
  {
    KeepsNumbers();
    KeepsSeparators();
    KeepsBetween(T4, 0, "\\-", T2, 0);
    KeepsBetween(T4 + "\\-" + T2, 1, "\\-", T2, 0);
    KeepsBetween(T_DATE, 2, "\\s", T2, 0);
    KeepsBetween(T_DATE + "\\s" + T2, 3, ":", T2, 0);
    KeepsBetween(T_DATE + "\\s" + T2 + ":" + T2, 4, ":", T2, 0);
  }

  // ----- what they stand for -----

  lemma PaddedAreDigits(n: nat)
    ensures AllDigits(Decimal(n)) && AllDigits(Pad2(n)) && AllDigits(Pad3(n))
  {
  }

  lemma SolidNumber(n: nat)
    ensures Solid(Decimal(n)) == 0 && Solid(Pad2(n)) == 0 && Solid(Pad3(n)) == 0
  {
    PaddedAreDigits(n);
    SolidOfDigits(Decimal(n));
    SolidOfDigits(Pad2(n));
    SolidOfDigits(Pad3(n));
  }

  lemma SolidBetween(a: string, c: char, b: string)
    requires IsSolid(c)
    ensures Solid(a + [c] + b) == Solid(a) + 1 + Solid(b)
  {
    SolidConcat(a, [c]);
    SolidConcat(a + [c], b);
    SolidChar(c);
  }

  lemma SolidOfThree(a: string, c: char, b: string, d: char, e: string)
    requires IsSolid(c) && IsSolid(d)
    ensures Solid(a + [c] + b + [d] + e) == Solid(a) + Solid(b) + Solid(e) + 2
  {
    SolidBetween(a, c, b);
    SolidBetween(a + [c] + b, d, e);
  }

  lemma SolidYear(y: nat)
    requires |Decimal(y)| >= 2
    ensures Solid(Decimal(y)[2..]) == 0
  {
    PaddedAreDigits(y);
    SolidOfDigits(Decimal(y)[2..]);
  }

  lemma SolidClockFields(t: nat)
    ensures Solid(Pad2(Hour(t))) == 0 && Solid(Pad2(Minute(t))) == 0 && Solid(Pad2(Second(t))) == 0
    ensures Solid(Pad3(Milli(t))) == 0
  {
    SolidNumber(Hour(t));
    SolidNumber(Minute(t));
    SolidNumber(Second(t));
    SolidNumber(Milli(t));
  }

  lemma SolidDateFields(d: Date)
    ensures Solid(Decimal(d.year)) == 0 && Solid(Pad2(d.month)) == 0 && Solid(Pad2(d.day)) == 0
  {
    SolidNumber(d.year);
    SolidNumber(d.month);
    SolidNumber(d.day);
  }

  lemma SolidDate(t: nat)
    ensures Solid(DateText(t)) == 2 && Solid(ClockText(t)) == 2 && Solid(DateText(t) + " " + ClockText(t)) == 5
  {
    SolidDateFields(DayOf(t));
    SolidClockFields(t);
    SolidOfThree(Decimal(DayOf(t).year), '-', Pad2(DayOf(t).month), '-', Pad2(DayOf(t).day));
    SolidOfThree(Pad2(Hour(t)), ':', Pad2(Minute(t)), ':', Pad2(Second(t)));
    SolidBetween(DateText(t), ' ', ClockText(t));
  }

  lemma {:induction false} SolidLetters(s: string)
    requires forall i :: 0 <= i < |s| ==> IsLetter(s[i])
    ensures Solid(s) == |s|
  {
    if s != "" { SolidLetters(s[1..]); }
  }

  lemma SolidMonth(t: nat)
    ensures Solid(MonthName(DayOf(t).month)) == 3
  {
    MonthNameLetters(DayOf(t).month);
    SolidLetters(MonthName(DayOf(t).month));
  }

  /** It holds of the expression and every text with so many solid characters. */
  ghost predicate OfSolid(p: (string, string) -> bool, pat: string, n: nat) {
    forall s :: Solid(s) == n ==> p(pat, s)
  }

  lemma SolidClockPairs(p: (string, string) -> bool, k: string, t: nat)
    requires k in CLOCK_KEYS && OfSolid(p, T2, 0) && OfSolid(p, T3, 0)
    ensures p(VolatileTable()[k], TimeTable(t)[k])
  {
    SolidClockFields(t);
    ClockPairs(p, k, t);
  }

  lemma SolidDatePairs(p: (string, string) -> bool, k: string, t: nat)
    requires k in DATE_KEYS && k !in CLOCK_KEYS && InRange(t) && OfSolid(p, T2, 0) && OfSolid(p, T4, 0)
    ensures p(VolatileTable()[k], TimeTable(t)[k])
  {
    InRangeExactly(t);
    PaddedDigits(DayOf(t).year);
    SolidDateFields(DayOf(t));
    SolidYear(DayOf(t).year);
    DatePairs(p, k, t);
  }

  lemma SolidWholePairs(p: (string, string) -> bool, k: string, t: nat)
    requires k in WHOLE_KEYS && k !in CLOCK_KEYS && k !in DATE_KEYS && k != TIME
    requires OfSolid(p, T_DATE, 2) && OfSolid(p, T_DATATIME, 5) && OfSolid(p, T_MONSTR, 3)
    ensures p(VolatileTable()[k], TimeTable(t)[k])
  {
    SolidDate(t);
    SolidMonth(t);
    WholePairs(p, k, t);
  }

  /** What holds of an expression and the solid characters of its text, for every time placeholder
      but `%%time`. */
  lemma SolidTimePairs(p: (string, string) -> bool, k: string, t: nat)
    requires k in TIME_KEYS && k != TIME && InRange(t)
    requires OfSolid(p, T2, 0) && OfSolid(p, T3, 0) && OfSolid(p, T4, 0)
    requires OfSolid(p, T_DATE, 2) && OfSolid(p, T_DATATIME, 5) && OfSolid(p, T_MONSTR, 3)
    ensures p(VolatileTable()[k], TimeTable(t)[k])
  {
    if k in CLOCK_KEYS {
      SolidClockPairs(p, k, t);
    } else if k in DATE_KEYS {
      SolidDatePairs(p, k, t);
    } else {
      SolidWholePairs(p, k, t);
    }
  }

  lemma KeepsTimeField(k: string, t: nat)
    requires k in TIME_KEYS && k != TIME && InRange(t)
    ensures Keeps(VolatileTable()[k], Solid(TimeTable(t)[k]))
  {
    KeepsNumbers();
    KeepsDate();
    KeepsMonstr();
    SolidTimePairs((a: string, b: string) => Keeps(a, Solid(b)), k, t);
  }

  lemma KeepsVolatile(k: string, c: FileNaming, pid: nat, proc: string, t: nat)
    requires k in VOLATILE_KEYS && k != TIME && k != PROCNAME && InRange(t)
    ensures Keeps(VolatileTable()[k], Solid((NameTable(c, pid, proc) + TimeTable(t))[k]))
  {
    if k in TIME_KEYS {
      KeepsTimeField(k, t);
    } else {
      KeepsPid();
      SolidNumber(pid);
    }
    VolatilePairs((a: string, b: string) => Keeps(a, Solid(b)), k, c, pid, proc, t);
  }

  lemma KeepsKey(k: string)
    requires k in FILE_KEYS
    ensures Keeps(k, Solid(k))
  {
    FileKeyChars(k);
    EscapeUnspecial(k);
    KeepsText(k);
  }

  lemma KeepsFixed(k: string, c: FileNaming, pid: nat, proc: string, t: nat)
    requires k in FIXED_NAME_KEYS
    ensures Keeps(Escape(FixedTable(c)[k]), Solid((NameTable(c, pid, proc) + TimeTable(t))[k]))
  {
    if k in TIME_KEYS { TimeKeyNotName(k); }
    FixedText(k, c, pid, proc);
    KeepsText(FixedTable(c)[k]);
  }

  /** What stands for one piece of the format in the pattern, against what stands for it in the name. */
  lemma KeepsPiece(ps: seq<Piece>, c: FileNaming, pid: nat, proc: string, t: nat, i: nat)
    requires WellFormed(ps, FILE_KEYS) && InRange(t)
    requires i < |ps| && (ps[i] == Hole(TIME) || ps[i] == Hole(PROCNAME) ==> ps[i] in ps[..i])
    ensures Keeps(Shown(PatternPieces(ps, c)[i]), Solid(Shown(NamePieces(ps, c, pid, proc, t)[i])))
  {
    match ps[i] {
      case Lit(text) =>
        KeepsText(text);
      case Hole(k) =>
        assert ps[i] in ps && k in FILE_KEYS;
        KeysApart(k);
        if ps[i] in ps[..i] {
          KeepsKey(k);
        } else if k in FIXED_NAME_KEYS {
          KeepsFixed(k, c, pid, proc, t);
        } else {
          KeepsVolatile(k, c, pid, proc, t);
        }
    }
    PiecePairs((a: string, b: string) => Keeps(a, Solid(b)), ps, c, pid, proc, t, i);
  }

  lemma {:induction false} KeepsFlat(pat: seq<Piece>, name: seq<Piece>)
    requires |pat| == |name| && forall i :: 0 <= i < |pat| ==> Keeps(Shown(pat[i]), Solid(Shown(name[i])))
    ensures Keeps(Flat(pat), Solid(Flat(name)))
    decreases |pat|
  {
    if pat == [] {
      KeepsNothing();
    } else {
      KeepsFlat(pat[1..], name[1..]);
      KeepsConcat(Shown(pat[0]), Solid(Shown(name[0])), Flat(pat[1..]), Solid(Flat(name[1..])));
      SolidConcat(Shown(name[0]), Flat(name[1..]));
    }
  }
}
