/**
 Exactly which names the purge pattern finds, and so which files it may delete: those made of the
 texts of the configuration and of any digits, letters or text where a placeholder stands.
 */
module PurgeNames {
  import opened Fragments
  import opened Placeholders
  import opened PurgePattern
  import opened PurgeTime
  import opened Regex
  import opened Template
  import opened Text
  import opened TimeText

  // ----- sets of names -----

  /** A name of the one set followed by a name of the other. */
  ghost function Cat(a: iset<string>, b: iset<string>): (c: iset<string>) {
    iset s: string | exists i :: 0 <= i <= |s| && s[..i] in a && s[i..] in b
  }

  ghost function Just(text: string): (a: iset<string>) { iset{text} }

  ghost function Digits(n: nat): (a: iset<string>) { iset s: string | |s| == n && AllDigits(s) }

  ghost function SomeDigits(): (a: iset<string>) { iset s: string | |s| > 0 && AllDigits(s) }

  ghost function Letters(n: nat): (a: iset<string>) {
    iset s: string | |s| == n && forall i :: 0 <= i < n ==> 'A' <= s[i] <= 'Z' || 'a' <= s[i] <= 'z'
  }

  ghost function Anything(): (a: iset<string>) { iset s: string | OneLine(s) }

  ghost predicate OneLine(s: string) { forall c :: c in s ==> !IsLineTerminator(c) }

  ghost function OneOf(p: char -> bool): (a: iset<string>) { iset s: string | |s| == 1 && p(s[0]) }

  ghost function Dates(): (a: iset<string>) {
    Cat(Cat(Cat(Cat(Digits(4), Just("-")), Digits(2)), Just("-")), Digits(2))
  }

  ghost function DatesWithClock(): (a: iset<string>) {
    Cat(Cat(Cat(Cat(Cat(Cat(Dates(), OneOf(c => IsSpace(c))), Digits(2)), Just(":")), Digits(2)), Just(":")), Digits(2))
  }

  /** Hours and minutes, but no seconds, any character, and seven digits. */
  ghost function Times(): (a: iset<string>) {
    Cat(Cat(Cat(Cat(Cat(Digits(2), Just(":")), Digits(2)), OneOf(c => !IsLineTerminator(c))), Digits(3)), Digits(4))
  }

  ghost function ClockNames(k: string): (a: iset<string>) { if k == "%%ms" then Digits(3) else Digits(2) }

  ghost function DateNames(k: string): (a: iset<string>) { if k == "%%year" then Digits(4) else Digits(2) }

  ghost function WholeNames(k: string): (a: iset<string>) {
    if k == "%%date" then Dates() else if k == "%%datatime" then DatesWithClock()
    else if k == "%%monstr" then Letters(3) else Times()
  }

  ghost function ProcessNames(k: string): (a: iset<string>) { if k == "%%pid" then SomeDigits() else Anything() }

  /** What may stand for a placeholder that changes from file to file. */
  ghost function VolatileNames(k: string): (a: iset<string>) {
    if k in CLOCK_KEYS then ClockNames(k)
    else if k in DATE_KEYS then DateNames(k)
    else if k in WHOLE_KEYS then WholeNames(k)
    else ProcessNames(k)
  }

  ghost function FixedNames(k: string, c: FileNaming): (a: iset<string>) {
    if k == "%%path" then Just(c.path) else if k == "%%prefix" then Just(c.prefix)
    else if k == "%%filename" then Just(c.filename) else if k == "%%title" then Just(c.title) else Just(c.suffix)
  }

  /** What may stand for piece `i` of the format: text as it is, a placeholder only where it is the first
      of its name. */
  ghost function PieceNames(ps: seq<Piece>, c: FileNaming, i: nat): (a: iset<string>)
    requires i < |ps|
  {
    match ps[i]
    case Lit(text) => Just(text)
    case Hole(k) =>
      if ps[i] in ps[..i] then Just(k)
      else if k in FIXED_NAME_KEYS then FixedNames(k, c)
      else VolatileNames(k)
  }

  ghost function NamesFrom(ps: seq<Piece>, c: FileNaming, i: nat): (a: iset<string>)
    requires i <= |ps|
    decreases |ps| - i
  {
    if i == |ps| then Just("") else Cat(PieceNames(ps, c, i), NamesFrom(ps, c, i + 1))
  }

  // ----- expressions that read a set of names -----

  ghost predicate Accepts(ts: seq<Term>, a: iset<string>) { forall s: string :: MatchTerms(ts, s) <==> s in a }

  /** The expression parses wherever it stands, and matches the names of the set and no others. */
  ghost predicate Reads(pat: string, a: iset<string>) {
    FollowOk(pat) && exists ts :: Compiles(pat, ts) && Accepts(ts, a)
  }

  lemma ReadsConcat(p: string, a: iset<string>, q: string, b: iset<string>)
    requires Reads(p, a) && Reads(q, b)
    ensures Reads(p + q, Cat(a, b))
  {
    var x :| Compiles(p, x) && Accepts(x, a);
    var y :| Compiles(q, y) && Accepts(y, b);
    CompilesConcat(p, x, q, y);
    FollowConcat(p, q);
    AcceptsConcat(x, a, y, b);
  }

  lemma AcceptsConcat(x: seq<Term>, a: iset<string>, y: seq<Term>, b: iset<string>)
    requires Accepts(x, a) && Accepts(y, b)
    ensures Accepts(x + y, Cat(a, b))
  {
    forall s: string ensures MatchTerms(x + y, s) <==> s in Cat(a, b) {
      if MatchTerms(x + y, s) {
        var i := SplitMatch(x, y, s);
      }
      if s in Cat(a, b) {
        var i :| 0 <= i <= |s| && s[..i] in a && s[i..] in b;
        MatchConcat(x, s[..i], y, s[i..]);
        assert s[..i] + s[i..] == s;
      }
    }
  }

  lemma ReadsMatch(pat: string, a: iset<string>, name: string)
    requires Reads(pat, a)
    ensures RegexMatch(pat, name) <==> name in a
  {
    var ts :| Compiles(pat, ts) && Accepts(ts, a);
    assert ParseTerms("") == Some(([], ""));
    assert FollowOk("") && pat + "" == pat && ts + [] == ts;
  }

  ghost predicate TermAccepts(t: Term, a: iset<string>) { forall s: string :: MatchTerm(t, s) <==> s in a }

  lemma OneAccepts(t: Term, a: iset<string>)
    requires TermAccepts(t, a)
    ensures Accepts([t], a)
  {
    forall s: string ensures MatchTerms([t], s) <==> s in a {
      if MatchTerms([t], s) { OnlyTerm(t, s); }
      if s in a { MatchOne(t, s); }
    }
  }

  lemma ReadsTerm(pat: string, t: Term, a: iset<string>)
    requires FollowOk(pat) && Compiles(pat, [t]) && TermAccepts(t, a)
    ensures Reads(pat, a)
  {
    OneAccepts(t, a);
  }

  lemma ReadsGroup(b: string, t: Term, a: iset<string>)
    requires Compiles(b, [t]) && TermAccepts(t, a)
    ensures Reads("(" + b + ")", a)
  {
    GroupCompiles(b, [t]);
    OneAccepts(t, a);
    var g := Term(Group([t]), Once);
    assert TermAccepts(g, a);
    ReadsTerm("(" + b + ")", g, a);
  }

  // ----- text -----

  lemma ReadsNothing()
    ensures Reads("", Just(""))
  {
    EmptyCompiles();
    assert Accepts([], Just(""));
  }

  lemma ReadsChar(c: char)
    requires c != '+'
    ensures Reads(EscapeChar(c), Just([c]))
  {
    if IsSpecial(c) {
      EscapeCompiles(c);
    } else {
      CharCompiles(c);
    }
    var t := Term(Chr(c), Once);
    assert TermAccepts(t, Just([c]));
    ReadsTerm(EscapeChar(c), t, Just([c]));
  }

  lemma CatTexts(a: string, b: string)
    ensures Cat(Just(a), Just(b)) == Just(a + b)
  {
    forall s: string ensures s in Cat(Just(a), Just(b)) <==> s == a + b {
      if s == a + b { assert s[..|a|] == a && s[|a|..] == b; }
      if s in Cat(Just(a), Just(b)) {
        var i :| 0 <= i <= |s| && s[..i] == a && s[i..] == b;
        assert s == s[..i] + s[i..];
      }
    }
  }

  lemma {:induction false} ReadsText(text: string)
    requires NoPlus(text)
    ensures Reads(Escape(text), Just(text))
  {
    if text == "" {
      ReadsNothing();
    } else {
      assert text[0] in text && forall c :: c in text[1..] ==> c in text;
      ReadsChar(text[0]);
      ReadsText(text[1..]);
      ReadsConcat(EscapeChar(text[0]), Just([text[0]]), Escape(text[1..]), Just(text[1..]));
      CatTexts([text[0]], text[1..]);
      assert [text[0]] + text[1..] == text;
    }
  }

  // ----- digits, letters, anything -----

  lemma DigitTerm(n: nat)
    ensures TermAccepts(Term(DigitClass, Exactly(n)), Digits(n))
  {
    forall s: string ensures MatchTimes(DigitClass, n, s) <==> s in Digits(n) {
      if MatchTimes(DigitClass, n, s) { DigitsOnly(n, s); }
      if s in Digits(n) { DigitsMatch(n, s); }
    }
  }

  lemma ReadsDigits(d: char)
    requires IsDigit(d)
    ensures Reads("\\d" + ['{', d, '}'], Digits(DigitValue(d)))
    ensures Reads("(" + ("\\d" + ['{', d, '}']) + ")", Digits(DigitValue(d)))
  {
    DigitsCompile(d);
    DigitTerm(DigitValue(d));
    ReadsTerm("\\d" + ['{', d, '}'], Term(DigitClass, Exactly(DigitValue(d))), Digits(DigitValue(d)));
    ReadsGroup("\\d" + ['{', d, '}'], Term(DigitClass, Exactly(DigitValue(d))), Digits(DigitValue(d)));
  }

  lemma ReadsNumbers()
    ensures Reads(T2, Digits(2)) && Reads(T3, Digits(3)) && Reads(T4, Digits(4)) && Reads("\\d{4}", Digits(4))
  {
    ReadsDigits('2');
    ReadsDigits('3');
    ReadsDigits('4');
    assert T2 == "(" + ("\\d" + ['{', '2', '}']) + ")";
    assert T3 == "(" + ("\\d" + ['{', '3', '}']) + ")";
    assert T4 == "(" + ("\\d" + ['{', '4', '}']) + ")";
    assert "\\d{4}" == "\\d" + ['{', '4', '}'];
  }

  lemma ReadsPid()
    ensures Reads("(\\d+)", SomeDigits())
  {
    SomeDigitsCompile();
    var t := Term(DigitClass, OneOrMore);
    forall s: string ensures MatchTerm(t, s) <==> s in SomeDigits() {
      if MatchTerm(t, s) {
        var n: nat :| n >= 1 && MatchTimes(DigitClass, n, s);
        DigitsOnly(n, s);
      }
      if s in SomeDigits() { DigitsMatch(|s|, s); }
    }
    ReadsGroup("\\d" + "+", t, SomeDigits());
    assert "(\\d+)" == "(" + ("\\d" + "+") + ")";
  }

  lemma {:induction false} LettersOnly(n: nat, s: string)
    requires MatchTimes(Ranges(LETTERS), n, s)
    ensures s in Letters(n)
    decreases n
  {
    if n > 0 {
      var i :| 0 <= i <= |s| && MatchAtom(Ranges(LETTERS), s[..i]) && MatchTimes(Ranges(LETTERS), n - 1, s[i..]);
      LettersOnly(n - 1, s[i..]);
      assert s[0] == s[..i][0] && forall j :: 1 <= j < |s| ==> s[j] == s[i..][j - 1];
      assert LETTERS[0] == ('A', 'Z') && LETTERS[1] == ('a', 'z');
    }
  }

  lemma ReadsMonstr()
    ensures Reads(T_MONSTR, Letters(3))
  {
    LettersCompile('3');
    var t := Term(Ranges(LETTERS), Exactly(3));
    forall s: string ensures MatchTerm(t, s) <==> s in Letters(3) {
      if MatchTerm(t, s) { LettersOnly(3, s); }
      if s in Letters(3) { LettersMatch(3, s); }
    }
    ReadsGroup("[A-Za-z]" + ['{', '3', '}'], t, Letters(3));
    MonstrText();
  }

  lemma {:induction false} AnythingOnly(n: nat, s: string)
    requires MatchTimes(AnyChar, n, s)
    ensures s in Anything()
    decreases n
  {
    if n > 0 {
      var i :| 0 <= i <= |s| && MatchAtom(AnyChar, s[..i]) && MatchTimes(AnyChar, n - 1, s[i..]);
      AnythingOnly(n - 1, s[i..]);
      assert s == s[..i] + s[i..] && s[..i] == [s[..i][0]];
    }
  }

  lemma ReadsProcess()
    ensures Reads("(.*)", Anything())
  {
    AnythingCompiles();
    var t := Term(AnyChar, ZeroOrMore);
    forall s: string ensures MatchTerm(t, s) <==> s in Anything() {
      if MatchTerm(t, s) {
        var n: nat :| MatchTimes(AnyChar, n, s);
        AnythingOnly(n, s);
      }
      if s in Anything() { AnyMatch(s); }
    }
    ReadsGroup("." + "*", t, Anything());
    assert "(.*)" == "(" + ("." + "*") + ")";
  }

  lemma ReadsSeparators()
    ensures Reads(":", Just(":")) && Reads("\\-", Just("-"))
    ensures Reads("\\s", OneOf(c => IsSpace(c))) && Reads(".", OneOf(c => !IsLineTerminator(c)))
  {
    ReadsChar(':');
    ReadsChar('-');
    SpaceCompiles();
    assert TermAccepts(Term(SpaceClass, Once), OneOf(c => IsSpace(c)));
    ReadsTerm("\\s", Term(SpaceClass, Once), OneOf(c => IsSpace(c)));
    AnyCompiles();
    assert TermAccepts(Term(AnyChar, Once), OneOf(c => !IsLineTerminator(c)));
    ReadsTerm(".", Term(AnyChar, Once), OneOf(c => !IsLineTerminator(c)));
  }

  lemma ReadsDate()
    ensures Reads(T_DATE, Dates())
  {
    ReadsNumbers();
    ReadsSeparators();
    ReadsConcat(T4, Digits(4), "\\-", Just("-"));
    ReadsConcat(T4 + "\\-", Cat(Digits(4), Just("-")), T2, Digits(2));
    ReadsConcat(T4 + "\\-" + T2, Cat(Cat(Digits(4), Just("-")), Digits(2)), "\\-", Just("-"));
    ReadsConcat(T4 + "\\-" + T2 + "\\-", Cat(Cat(Cat(Digits(4), Just("-")), Digits(2)), Just("-")), T2, Digits(2));
  }

  lemma ReadsDatatime()
    ensures Reads(T_DATATIME, DatesWithClock())
  {
    ReadsDate();
    ReadsNumbers();
    ReadsSeparators();
    var a := Cat(Dates(), OneOf(c => IsSpace(c)));
    ReadsConcat(T_DATE, Dates(), "\\s", OneOf(c => IsSpace(c)));
    ReadsConcat(T_DATE + "\\s", a, T2, Digits(2));
    var b := Cat(a, Digits(2));
    ReadsConcat(T_DATE + "\\s" + T2, b, ":", Just(":"));
    ReadsConcat(T_DATE + "\\s" + T2 + ":", Cat(b, Just(":")), T2, Digits(2));
    var d := Cat(Cat(b, Just(":")), Digits(2));
    ReadsConcat(T_DATE + "\\s" + T2 + ":" + T2, d, ":", Just(":"));
    ReadsConcat(T_DATE + "\\s" + T2 + ":" + T2 + ":", Cat(d, Just(":")), T2, Digits(2));
  }

  lemma ReadsTime()
    ensures Reads(T_TIME, Times())
  {
    ReadsNumbers();
    ReadsSeparators();
    ReadsConcat(T2, Digits(2), ":", Just(":"));
    var a := Cat(Digits(2), Just(":"));
    ReadsConcat(T2 + ":", a, T2, Digits(2));
    var b := Cat(a, Digits(2));
    ReadsConcat(T2 + ":" + T2, b, ".", OneOf(c => !IsLineTerminator(c)));
    var d := Cat(b, OneOf(c => !IsLineTerminator(c)));
    ReadsConcat(T2 + ":" + T2 + ".", d, T3, Digits(3));
    ReadsConcat(T2 + ":" + T2 + "." + T3, Cat(d, Digits(3)), "\\d{4}", Digits(4));
  }

  // ----- piece by piece -----

  lemma ReadsClock(p: (string, iset<string>) -> bool, k: string)
    requires k in CLOCK_KEYS && p(T2, Digits(2)) && p(T3, Digits(3))
    ensures p(VolatileTable()[k], VolatileNames(k))
  {
    PatternOf(k);
    assert p(CLOCK_PATTERNS[k], ClockNames(k));
  }

  lemma ReadsDateField(p: (string, iset<string>) -> bool, k: string)
    requires k in DATE_KEYS && k !in CLOCK_KEYS && p(T2, Digits(2)) && p(T4, Digits(4))
    ensures p(VolatileTable()[k], VolatileNames(k))
  {
    PatternOf(k);
    assert p(DATE_PATTERNS[k], DateNames(k));
  }

  lemma ReadsWhole(p: (string, iset<string>) -> bool, k: string)
    requires k in WHOLE_KEYS && k !in DATE_KEYS && k !in CLOCK_KEYS
    requires p(T_DATATIME, DatesWithClock()) && p(T_DATE, Dates()) && p(T_MONSTR, Letters(3)) && p(T_TIME, Times())
    ensures p(VolatileTable()[k], VolatileNames(k))
  {
    PatternOf(k);
    assert p(WHOLE_PATTERNS[k], WholeNames(k));
  }

  lemma ReadsProcessField(k: string)
    requires k in VOLATILE_KEYS && k !in TIME_KEYS
    ensures Reads(VolatileTable()[k], ProcessNames(k))
  {
    ReadsPid();
    ReadsProcess();
    ProcessFields(k, FileNaming("", "", "", "", "", ""), 0, "");
  }

  lemma ReadsTimeField(k: string)
    requires k in TIME_KEYS
    ensures Reads(VolatileTable()[k], VolatileNames(k))
  {
    ghost var p := (pat: string, a: iset<string>) => Reads(pat, a);
    ReadsNumbers();
    if k in CLOCK_KEYS {
      ReadsClock(p, k);
    } else if k in DATE_KEYS {
      ReadsDateField(p, k);
    } else {
      ReadsDatatime();
      ReadsDate();
      ReadsMonstr();
      ReadsTime();
      ReadsWhole(p, k);
    }
  }

  lemma ReadsVolatile(k: string)
    requires k in VOLATILE_KEYS
    ensures Reads(VolatileTable()[k], VolatileNames(k))
  {
    if k in TIME_KEYS { ReadsTimeField(k); } else { ReadsProcessField(k); }
  }

  lemma FixedIsText(k: string, c: FileNaming)
    requires k in FIXED_NAME_KEYS
    ensures FixedNames(k, c) == Just(FixedTable(c)[k])
  {
  }

  lemma ReadsTextPiece(ps: seq<Piece>, c: FileNaming, i: nat)
    requires WellFormed(ps, FILE_KEYS) && i < |ps| && NoPlusAt(ps, c, i) && TextAt(ps, c, i).Some?
    ensures Reads(Shown(PatternPieces(ps, c)[i]), PieceNames(ps, c, i))
  {
    TextShows(ps, c, 0, "", 0, i);
    TextHasNoPlus(ps, c, i);
    ReadsText(TextAt(ps, c, i).value);
    if ps[i].Hole? && ps[i].key in FIXED_NAME_KEYS { FixedIsText(ps[i].key, c); }
  }

  lemma ReadsPiece(ps: seq<Piece>, c: FileNaming, i: nat)
    requires WellFormed(ps, FILE_KEYS) && i < |ps| && NoPlusAt(ps, c, i)
    ensures Reads(Shown(PatternPieces(ps, c)[i]), PieceNames(ps, c, i))
  {
    if TextAt(ps, c, i).Some? {
      ReadsTextPiece(ps, c, i);
    } else {
      PatternShows(ps, c, i);
      KeysApart(ps[i].key);
      ReadsVolatile(ps[i].key);
    }
  }

  lemma {:induction false} ReadsFrom(ps: seq<Piece>, c: FileNaming, i: nat)
    requires WellFormed(ps, FILE_KEYS) && NoPlusInUse(ps, c) && i <= |ps|
    ensures Reads(Flat(PatternPieces(ps, c)[i..]), NamesFrom(ps, c, i))
    decreases |ps| - i
  {
    var pat := PatternPieces(ps, c);
    if i == |ps| {
      ReadsNothing();
      assert pat[i..] == [];
    } else {
      ReadsPiece(ps, c, i);
      ReadsFrom(ps, c, i + 1);
      assert pat[i..][0] == pat[i] && pat[i..][1..] == pat[i + 1..];
      ReadsConcat(Shown(pat[i]), PieceNames(ps, c, i), Flat(pat[i + 1..]), NamesFrom(ps, c, i + 1));
    }
  }

  /** Main result: for every format and configuration without '+' in a text that is used, and every order
      in which the two maps are walked, the pattern finds a name exactly if it is put together from what
      may stand for each piece. */
  lemma PatternFindsExactly(ps: seq<Piece>, c: FileNaming, o3: seq<string>, o4: seq<string>, name: string)
    requires WellFormed(ps, FILE_KEYS) && PlainNaming(c) && NoPlusInUse(ps, c)
    requires IsOrder(o3, FIXED_NAME_KEYS) && IsOrder(o4, VOLATILE_KEYS)
    ensures RegexMatch(ReplaceEach(Escape(ReplaceEach(Flat(ps), o3, FixedTable(c))), o4, VolatileTable()), name)
        <==> name in NamesFrom(ps, c, 0)
  {
    PatternIsFilled(ps, c, o3, o4);
    ReadsFrom(ps, c, 0);
    assert PatternPieces(ps, c)[0..] == PatternPieces(ps, c);
    ReadsMatch(Flat(PatternPieces(ps, c)), NamesFrom(ps, c, 0), name);
  }

  /** The same for the pattern that is built. */
  lemma BuiltPatternFindsExactly(ps: seq<Piece>, c: FileNaming, pattern: string, name: string)
    requires c.format == Flat(ps) && WellFormed(ps, FILE_KEYS) && PlainNaming(c) && NoPlusInUse(ps, c)
    requires IsPattern(c, pattern)
    ensures RegexMatch(pattern, name) <==> name in NamesFrom(ps, c, 0)
  {
    var o3, o4 := PatternOrders(c, pattern);
    PatternFindsExactly(ps, c, o3, o4, name);
  }
}
