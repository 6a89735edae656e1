/**
 Names that use `%%time` and are found all the same. Its expression fits the text without the hours,
 so the name is found exactly if what stands before it in the pattern also takes the hours, which
 only `%%procname` can. With nothing but text between the two that can be read off the text.
 */
module PurgeHours {
  import opened Calendar
  import opened Fragments
  import opened Placeholders
  import opened PlusSigns
  import opened PurgeExact
  import opened PurgeLimits
  import opened PurgePattern
  import opened PurgeTime
  import opened Regex
  import opened Template
  import opened Text
  import opened TimeText

  /** Without the hours the text does fit: minutes, seconds, milliseconds, four digits. */
  lemma RestOfTimeFragment(t: nat)
    ensures Fragment(T_TIME, Pad2(Minute(t)) + ":" + Pad2(Second(t)) + "." + Pad3(Milli(t)) + "0000")
  {
    ClockFieldFragments(t);
    FourDigitsFragment("0000");
    PartsFragment(Pad2(Minute(t)), Pad2(Second(t)), Pad3(Milli(t)), "0000");
  }

  lemma PartsFragment(m: string, s: string, ms: string, last: string)
    requires Fragment(T2, m) && Fragment(T2, s) && Fragment(T3, ms) && Fragment("\\d{4}", last)
    ensures Fragment(T_TIME, m + ":" + s + "." + ms + last)
  {
    Between(T2, m, ':', T2, s);
    AnyCompiles();
    TermFragment(".", Term(AnyChar, Once), ".");
    FragmentConcat(T2 + ":" + T2, m + ":" + s, ".", ".");
    FragmentConcat(T2 + ":" + T2 + ".", m + ":" + s + ".", T3, ms);
    FragmentConcat(T2 + ":" + T2 + "." + T3, m + ":" + s + "." + ms, "\\d{4}", last);
  }

  lemma FourText()
    ensures "\\d{4}" == "\\d" + ['{', '4', '}']
  {
  }

  lemma FourDigitsFragment(s: string)
    requires |s| == 4 && AllDigits(s)
    ensures Fragment("\\d{4}", s)
  {
    DigitsCompile('4');
    DigitsMatch(4, s);
    TermFragment("\\d" + ['{', '4', '}'], Term(DigitClass, Exactly(DigitValue('4'))), s);
    FourText();
  }

  lemma DigitsAreNoTerminators(s: string)
    requires AllDigits(s)
    ensures forall c :: c in s ==> !IsLineTerminator(c)
  {
  }

  // ----- where the match can be -----

  lemma TimeCompiles()
    ensures Compiles(T_TIME, TIME_TERMS)
  {
    HeadCompiles();
    DigitsCompile('4');
    FourText();
    CompilesConcat(HEAD, HEAD_TERMS, "\\d{4}", [FOUR]);
  }

  /** If what follows the match has as many solid characters as what follows the text, the match
      leaves out the hours. */
  lemma FromTheRight(name: string, n: nat, i: nat)
    requires Places(name, n, i) && Solid(name[i + 13..]) == Solid(name[n + 16..])
    ensures i == n + 3
  {
    var e, f := i + 13, n + 16;
    if e > f {
      assert name[f..] == name[f..e] + name[e..];
      SolidConcat(name[f..e], name[e..]);
      if i + 2 >= f { SolidBetweenCuts(name, f, e, i + 2); }
      assert false;
    } else if e < f {
      assert name[e..] == name[e..f] + name[f..];
      SolidConcat(name[e..f], name[f..]);
      if e <= n + 8 { SolidBetweenCuts(name, e, f, n + 8); }
    }
  }

  // ----- both texts around `%%time` -----

  /** Compiles, and all matches have `w` solid characters. */
  ghost predicate Fixed(pat: string, w: nat) {
    forall u, s :: Compiles(pat, u) && MatchTerms(u, s) ==> Solid(s) == w
  }

  lemma CompiledParse(pat: string, u: seq<Term>)
    requires Compiles(pat, u)
    ensures ParseTerms(pat) == Some((u, ""))
  {
    assert ParseTerms("") == Some(([], ""));
    assert FollowOk("") && pat + "" == pat && u + [] == u;
  }

  lemma BoundedAndKept(pat: string, w: nat)
    requires Bounded(pat, w) && Keeps(pat, w)
    ensures Fixed(pat, w)
  {
    var v :| Compiles(pat, v) && Bound(v, w);
    CompiledParse(pat, v);
    forall u, s | Compiles(pat, u) && MatchTerms(u, s) ensures Solid(s) == w {
      CompiledParse(pat, u);
      KeptMatch(pat, w, s);
    }
  }

  /** How a match is cut by the expression of `%%time`. */
  lemma CutMatch(a: string, u: seq<Term>, b: string, v: seq<Term>, name: string) returns (i: nat)
    requires Compiles(a, u) && Compiles(b, v) && FollowOk(b) && RegexMatch(a + T_TIME + b, name)
    ensures i + 13 <= |name| && TimeMatched(name[i..i + 13])
    ensures MatchTerms(u, name[..i]) && MatchTerms(v, name[i + 13..])
  {
    TimeCompiles();
    CompilesConcat(a, u, T_TIME, TIME_TERMS);
    CompilesConcat(a + T_TIME, u + TIME_TERMS, b, v);
    CompiledParse(a + T_TIME + b, u + TIME_TERMS + v);
    var j := SplitMatch(u + TIME_TERMS, v, name);
    i := SplitMatch(u, TIME_TERMS, name[..j]);
    TimeTermsMatch(name[..j][i..]);
    assert name[..j][i..] == name[i..j] && name[..j][..i] == name[..i];
  }

  function Hours(t: nat): (s: string) { Pad2(Hour(t)) + ":" }

  lemma HoursCut(x: string, t: nat, y: string)
    ensures TimeValue(t)[..3] == Hours(t)
    ensures x + TimeValue(t) + y
        == x + Hours(t) + (Pad2(Minute(t)) + ":" + Pad2(Second(t)) + "." + Pad3(Milli(t)) + "0000") + y
  {
    TimeFromFields(t);
    PaddedDigits(Hour(t));
  }

  lemma FoundWithHours(a: string, x: string, b: string, y: string, t: nat)
    requires Fragment(a, x) && Fragment(b, y) && RegexMatch(a, x + Hours(t))
    ensures RegexMatch(a + T_TIME + b, x + TimeValue(t) + y)
  {
    var u :| Compiles(a, u) && MatchTerms(u, x);
    CompiledParse(a, u);
    RestOfTimeFragment(t);
    var hours, rest := Hours(t), Pad2(Minute(t)) + ":" + Pad2(Second(t)) + "." + Pad3(Milli(t)) + "0000";
    FragmentConcat(a, x + hours, T_TIME, rest);
    FragmentConcat(a + T_TIME, x + hours + rest, b, y);
    FragmentMatches(a + T_TIME + b, x + hours + rest + y);
    HoursCut(x, t, y);
  }

  lemma LeavesHours(name: string, x: string, time: string, y: string, i: nat)
    requires name == x + time + y && FullTime(time) && i + 13 <= |name| && TimeMatched(name[i..i + 13])
    requires Solid(name[i + 13..]) == Solid(y)
    ensures name[..i] == x + time[..3]
  {
    InPlace(name, x, time, y, i);
    assert name[..|x|] == x && name[|x| + 16..] == y && name[..|x| + 3] == x + time[..3];
    FromTheRight(name, |x|, i);
  }

  lemma MatchLeavesHours(a: string, u: seq<Term>, x: string, time: string, b: string, v: seq<Term>, y: string)
    requires Compiles(a, u) && Compiles(b, v) && FollowOk(b) && FullTime(time) && Fixed(b, Solid(y))
    requires RegexMatch(a + T_TIME + b, x + time + y)
    ensures MatchTerms(u, x + time[..3])
  {
    var name := x + time + y;
    var i := CutMatch(a, u, b, v, name);
    LeavesHours(name, x, time, y, i);
  }

  lemma FoundOnlyWithHours(a: string, x: string, b: string, y: string, t: nat)
    requires Fragment(a, x) && Fragment(b, y) && Fixed(b, Solid(y))
    requires RegexMatch(a + T_TIME + b, x + TimeValue(t) + y)
    ensures RegexMatch(a, x + Hours(t))
  {
    var u :| Compiles(a, u) && MatchTerms(u, x);
    var v :| Compiles(b, v) && MatchTerms(v, y);
    CompiledParse(a, u);
    TimeIsFull(t);
    MatchLeavesHours(a, u, x, TimeValue(t), b, v, y);
    HoursCut(x, t, y);
  }

  // ----- piece by piece -----

  ghost predicate FragmentsBut(pat: seq<Piece>, name: seq<Piece>, but: nat) {
    |pat| == |name| && forall k :: 0 <= k < |pat| && k != but ==> Fragment(Shown(pat[k]), Shown(name[k]))
  }

  /** The pieces from one place on match only texts with as many solid characters as theirs. */
  ghost predicate FixedFrom(pat: seq<Piece>, name: seq<Piece>, i: nat) {
    && i <= |pat| == |name|
    && (forall k :: i <= k < |pat| ==> Bounded(Shown(pat[k]), Solid(Shown(name[k]))))
    && (forall k :: i <= k < |pat| ==> Keeps(Shown(pat[k]), Solid(Shown(name[k]))))
  }

  lemma FixedSlice(pat: seq<Piece>, name: seq<Piece>, i: nat)
    requires FixedFrom(pat, name, i)
    ensures Fixed(Flat(pat[i..]), Solid(Flat(name[i..])))
  {
    BoundedFlat(pat[i..], name[i..]);
    KeepsFlat(pat[i..], name[i..]);
    BoundedAndKept(Flat(pat[i..]), Solid(Flat(name[i..])));
  }

  /** What stands before piece `i` in the pattern takes what stands there in the name, and the hours. */
  ghost predicate TakesHours(pat: seq<Piece>, name: seq<Piece>, i: nat, t: nat)
    requires i <= |pat| == |name|
  {
    RegexMatch(Flat(pat[..i]), Flat(name[..i]) + Hours(t))
  }

  lemma FoundIff(a: string, x: string, b: string, y: string, t: nat)
    requires Fragment(a, x) && Fragment(b, y) && Fixed(b, Solid(y))
    ensures RegexMatch(a + T_TIME + b, x + TimeValue(t) + y) <==> RegexMatch(a, x + Hours(t))
  {
    if RegexMatch(a + T_TIME + b, x + TimeValue(t) + y) { FoundOnlyWithHours(a, x, b, y, t); }
    if RegexMatch(a, x + Hours(t)) { FoundWithHours(a, x, b, y, t); }
  }

  lemma FragmentsAround(pat: seq<Piece>, name: seq<Piece>, i: nat)
    requires FragmentsBut(pat, name, i) && i < |pat|
    ensures Fragment(Flat(pat[..i]), Flat(name[..i])) && Fragment(Flat(pat[i + 1..]), Flat(name[i + 1..]))
  {
    FragmentsFlat(pat[..i], name[..i]);
    FragmentsFlat(pat[i + 1..], name[i + 1..]);
  }

  lemma FoundAround(pat: seq<Piece>, name: seq<Piece>, i: nat, t: nat)
    requires FragmentsBut(pat, name, i) && i < |pat| && Shown(pat[i]) == T_TIME && Shown(name[i]) == TimeValue(t)
    requires FixedFrom(pat, name, i + 1)
    ensures RegexMatch(Flat(pat), Flat(name)) <==> TakesHours(pat, name, i, t)
  {
    FlatAt(pat, i);
    FlatAt(name, i);
    FragmentsAround(pat, name, i);
    FixedSlice(pat, name, i + 1);
    FoundIff(Flat(pat[..i]), Flat(name[..i]), Flat(pat[i + 1..]), Flat(name[i + 1..]), t);
  }

  lemma OthersLater(ps: seq<Piece>, p: Piece, i: nat)
    requires i < |ps| && ps[i] == p && p !in ps[..i]
    ensures forall k :: 0 <= k < |ps| && k != i && ps[k] == p ==> ps[k] in ps[..k]
  {
    assert forall k :: 0 <= k < i ==> ps[..i][k] == ps[k];
    forall k | 0 <= k < |ps| && k != i && ps[k] == p ensures ps[k] in ps[..k] {
      assert ps[..k][i] == p;
    }
  }

  lemma FragmentsButTime(ps: seq<Piece>, c: FileNaming, pid: nat, proc: string, t: nat, i: nat)
    requires WellFormed(ps, FILE_KEYS) && NoPlusInUse(ps, c) && CleanProcess(proc) && InRange(t)
    requires i < |ps| && ps[i] == Hole(TIME) && ps[i] !in ps[..i]
    ensures FragmentsBut(PatternPieces(ps, c), NamePieces(ps, c, pid, proc, t), i)
  {
    var pat, name := PatternPieces(ps, c), NamePieces(ps, c, pid, proc, t);
    OthersLater(ps, Hole(TIME), i);
    forall k: nat | k < |ps| && k != i ensures Fragment(Shown(pat[k]), Shown(name[k])) {
      PieceFragment(ps, c, pid, proc, t, k);
    }
  }

  /** Behind `%%procname` and `%%time` both are only repeated. */
  lemma FixedBehind(ps: seq<Piece>, c: FileNaming, pid: nat, proc: string, t: nat, i: nat)
    requires WellFormed(ps, FILE_KEYS) && NoPlusInUse(ps, c) && InRange(t) && i <= |ps| && NoneWildFrom(ps, i)
    ensures FixedFrom(PatternPieces(ps, c), NamePieces(ps, c, pid, proc, t), i)
  {
    var pat, name := PatternPieces(ps, c), NamePieces(ps, c, pid, proc, t);
    forall k: nat | i <= k < |ps|
      ensures Bounded(Shown(pat[k]), Solid(Shown(name[k]))) && Keeps(Shown(pat[k]), Solid(Shown(name[k])))
    {
      BoundedPiece(ps, c, pid, proc, t, k);
      KeepsPiece(ps, c, pid, proc, t, k);
    }
  }

  lemma BothBefore(ps: seq<Piece>, i: nat)
    requires i < |ps| && Opens(ps, i, TIME) && Hole(PROCNAME) in ps[..i]
    ensures NoneWildFrom(ps, i + 1)
  {
    var j :| 0 <= j < i && ps[..i][j] == Hole(PROCNAME);
    assert forall k :: i < k < |ps| ==> ps[..k][j] == Hole(PROCNAME) && ps[..k][i] == Hole(TIME);
  }

  // ----- main results -----

  /** For every format that uses `%%time`, first as piece `i`, and no '+' in use: the name is found
      exactly if the pattern before `%%time` takes the name before `%%time` with the hours behind it. */
  lemma FoundExactlyWithHours(ps: seq<Piece>, c: FileNaming, pid: nat, proc: string, t: nat, i: nat,
                              o1: seq<string>, o2: seq<string>, o3: seq<string>, o4: seq<string>)
    requires WellFormed(ps, FILE_KEYS) && PlainNaming(c) && NoPlusInUse(ps, c) && CleanProcess(proc) && InRange(t)
    requires IsOrder(o1, NAME_KEYS) && IsOrder(o2, TIME_KEYS)
    requires IsOrder(o3, FIXED_NAME_KEYS) && IsOrder(o4, VOLATILE_KEYS)
    requires i < |ps| && Opens(ps, i, TIME)
    ensures RegexMatch(ReplaceEach(Escape(ReplaceEach(Flat(ps), o3, FixedTable(c))), o4, VolatileTable()),
                       ReplaceEach(ReplaceEach(Flat(ps), o1, NameTable(c, pid, proc)), o2, TimeTable(t)))
        <==> TakesHours(PatternPieces(ps, c), NamePieces(ps, c, pid, proc, t), i, t)
  {
    NameIsFilled(ps, c, pid, proc, t, o1, o2);
    PatternIsFilled(ps, c, o3, o4);
    if Hole(PROCNAME) in ps[..i] {
      BothBefore(ps, i);
      TimeTexts(ps, c, pid, proc, t, i);
      FragmentsButTime(ps, c, pid, proc, t, i);
      FixedBehind(ps, c, pid, proc, t, i + 1);
      FoundAround(PatternPieces(ps, c), NamePieces(ps, c, pid, proc, t), i, t);
    } else {
      TimeNotFound(ps, c, pid, proc, t, i);
      HoursNotTaken(ps, c, pid, proc, t, i);
    }
  }

  lemma HoursShape(t: nat)
    ensures |Hours(t)| == 3 && Solid(Hours(t)) == 1 && Hours(t)[2] == ':'
        && (forall d :: d in Hours(t) ==> !IsLineTerminator(d))
  {
    TimeFromFields(t);
    PaddedDigits(Hour(t));
    SolidClockFields(t);
    SolidConcat(Pad2(Hour(t)), ":");
    SolidChar(':');
    DigitsAreNoTerminators(Pad2(Hour(t)));
  }

  lemma NotTaken(pat: seq<Piece>, name: seq<Piece>, i: nat, t: nat)
    requires i <= |pat| == |name| && forall k :: 0 <= k < i ==> Bounded(Shown(pat[k]), Solid(Shown(name[k])))
    ensures !TakesHours(pat, name, i, t)
  {
    BoundedFlat(pat[..i], name[..i]);
    HoursShape(t);
    SolidConcat(Flat(name[..i]), Hours(t));
    var v :| Compiles(Flat(pat[..i]), v) && Bound(v, Solid(Flat(name[..i])));
    CompiledParse(Flat(pat[..i]), v);
  }

  /** Without `%%procname` in front nothing takes the hours. */
  lemma HoursNotTaken(ps: seq<Piece>, c: FileNaming, pid: nat, proc: string, t: nat, i: nat)
    requires WellFormed(ps, FILE_KEYS) && NoPlusInUse(ps, c) && InRange(t) && i < |ps| && NoneWild(ps, i)
    ensures !TakesHours(PatternPieces(ps, c), NamePieces(ps, c, pid, proc, t), i, t)
  {
    var pat, name := PatternPieces(ps, c), NamePieces(ps, c, pid, proc, t);
    forall k: nat | k < i ensures Bounded(Shown(pat[k]), Solid(Shown(name[k]))) {
      NotWild(ps, i, k);
      BoundedPiece(ps, c, pid, proc, t, k);
    }
    NotTaken(pat, name, i, t);
  }

  // ----- text between `%%procname` and `%%time` -----

  /** Matches nothing but the text. */
  ghost predicate Literally(ts: seq<Term>, text: string) { forall s :: MatchTerms(ts, s) ==> s == text }

  lemma LiterallyConcat(x: seq<Term>, a: string, y: seq<Term>, b: string)
    requires Literally(x, a) && Literally(y, b)
    ensures Literally(x + y, a + b)
  {
    forall s | MatchTerms(x + y, s) ensures s == a + b {
      var i := SplitMatch(x, y, s);
      assert s == s[..i] + s[i..];
    }
  }

  lemma LiteralChar(c: char)
    requires c != '+'
    ensures Compiles(EscapeChar(c), [Term(Chr(c), Once)]) && Literally([Term(Chr(c), Once)], [c])
  {
    if IsSpecial(c) {
      EscapeCompiles(c);
    } else {
      CharCompiles(c);
    }
    forall s | MatchTerms([Term(Chr(c), Once)], s) ensures s == [c] {
      OnlyTerm(Term(Chr(c), Once), s);
    }
  }

  lemma {:induction false} LiteralText(text: string) returns (ts: seq<Term>)
    requires NoPlus(text)
    ensures Compiles(Escape(text), ts) && Literally(ts, text) && FollowOk(Escape(text))
  {
    if text == "" {
      EmptyCompiles();
      ts := [];
    } else {
      var c := text[0];
      assert c in text && forall d :: d in text[1..] ==> d in text;
      LiteralChar(c);
      var more := LiteralText(text[1..]);
      ts := [Term(Chr(c), Once)] + more;
      CompilesConcat(EscapeChar(c), [Term(Chr(c), Once)], Escape(text[1..]), more);
      LiterallyConcat([Term(Chr(c), Once)], [c], more, text[1..]);
      assert [c] + text[1..] == text;
    }
  }

  /** The text repeats itself when the hours are put behind it: moved on by three it is the same. */
  predicate Repeats(text: string, hours: string)
    requires |hours| == 3
  {
    (text + hours)[3..] == text
  }

  /** Then it is made of the characters of the hours. */
  lemma {:induction false} RepeatsIsHours(text: string, hours: string, k: nat)
    requires |hours| == 3 && Repeats(text, hours) && k < |text|
    ensures text[k] in hours
    decreases |text| - k
  {
    assert (text + hours)[3..][k] == (text + hours)[k + 3];
    if k + 3 < |text| { RepeatsIsHours(text, hours, k + 3); }
  }

  /** Nothing and ":" always repeat; text that ends in another character never does. */
  lemma RepeatsCases(text: string, hours: string)
    requires |hours| == 3 && hours[2] == ':'
    ensures text == "" || text == ":" ==> Repeats(text, hours)
    ensures text != "" && text[|text| - 1] != ':' ==> !Repeats(text, hours)
  {
    if text == ":" { assert (text + hours)[3..] == ":"; }
    if text != "" { assert (text + hours)[3..][|text| - 1] == ':'; }
  }

  lemma MovedText(text: string, hours: string) returns (moved: string)
    requires |hours| == 3 && (forall d :: d in hours ==> !IsLineTerminator(d)) && Repeats(text, hours)
    ensures moved + text == text + hours && forall d :: d in moved ==> !IsLineTerminator(d)
  {
    moved := (text + hours)[..3];
    forall d | d in moved ensures !IsLineTerminator(d) {
      var k :| 0 <= k < 3 && moved[k] == d;
      if k < |text| { RepeatsIsHours(text, hours, k); }
    }
  }

  lemma RegroupMoved(x: string, proc: string, moved: string, text: string, hours: string)
    requires moved + text == text + hours
    ensures x + (proc + moved) + text == x + proc + text + hours
  {
    assert x + (proc + moved) + text == x + proc + (moved + text);
    assert x + proc + text + hours == x + proc + (text + hours);
  }

  lemma TakenIfRepeats(a: string, x: string, proc: string, text: string, hours: string)
    requires Fragment(a, x) && NoPlus(text) && CleanProcess(proc)
    requires |hours| == 3 && (forall d :: d in hours ==> !IsLineTerminator(d)) && Repeats(text, hours)
    ensures RegexMatch(a + "(.*)" + Escape(text), x + proc + text + hours)
  {
    var moved := MovedText(text, hours);
    ProcFragment(proc + moved);
    TextFragment(text);
    FragmentConcat(a, x, "(.*)", proc + moved);
    FragmentConcat(a + "(.*)", x + (proc + moved), Escape(text), text);
    FragmentMatches(a + "(.*)" + Escape(text), x + (proc + moved) + text);
    RegroupMoved(x, proc, moved, text, hours);
  }

  lemma EndsInText(f: string, u: seq<Term>, text: string, name: string) returns (i: nat)
    requires Compiles(f, u) && NoPlus(text) && RegexMatch(f + Escape(text), name)
    ensures i <= |name| && name[i..] == text
  {
    var w := LiteralText(text);
    CompilesConcat(f, u, Escape(text), w);
    CompiledParse(f + Escape(text), u + w);
    i := SplitMatch(u, w, name);
  }

  lemma SuffixRepeats(front: string, text: string, hours: string, i: nat)
    requires |hours| == 3 && i <= |front + text + hours| && (front + text + hours)[i..] == text
    ensures Repeats(text, hours)
  {
    var name := front + text + hours;
    assert i == |front| + 3;
    assert name == front + (text + hours);
    assert name[|front| + 3..] == (text + hours)[3..];
  }

  lemma RepeatsIfTaken(a: string, x: string, proc: string, text: string, hours: string)
    requires Fragment(a, x) && NoPlus(text) && |hours| == 3
    requires RegexMatch(a + "(.*)" + Escape(text), x + proc + text + hours)
    ensures Repeats(text, hours)
  {
    var u :| Compiles(a, u) && MatchTerms(u, x);
    var v := ProcessCompiles();
    CompilesConcat(a, u, "(.*)", v);
    var i := EndsInText(a + "(.*)", u + v, text, x + proc + text + hours);
    SuffixRepeats(x + proc, text, hours, i);
  }

  lemma ProcessCompiles() returns (v: seq<Term>)
    ensures Compiles("(.*)", v)
  {
    AnythingCompiles();
    assert "(.*)" == "(" + ("." + "*") + ")";
    GroupCompiles("." + "*", [Term(AnyChar, ZeroOrMore)]);
    v := [Term(Group([Term(AnyChar, ZeroOrMore)]), Once)];
  }

  ghost predicate TextBetween(ps: seq<Piece>, c: FileNaming, j: nat, i: nat) {
    j < i <= |ps| && forall k :: j < k < i ==> TextAt(ps, c, k).Some?
  }

  lemma {:induction false} EscapedFlat(pat: seq<Piece>, name: seq<Piece>)
    requires |pat| == |name| && forall k :: 0 <= k < |pat| ==> IsEscaped(pat[k], name[k])
    ensures Flat(pat) == Escape(Flat(name))
    decreases |pat|
  {
    if pat != [] {
      EscapedFlat(pat[1..], name[1..]);
      EscapeConcat(Shown(name[0]), Flat(name[1..]));
    }
  }

  lemma {:induction false} NoPlusFlat(name: seq<Piece>)
    requires forall k :: 0 <= k < |name| ==> NoPlus(Shown(name[k]))
    ensures NoPlus(Flat(name))
  {
    if name != [] { NoPlusFlat(name[1..]); }
  }

  ghost predicate IsEscaped(pat: Piece, name: Piece) { Shown(pat) == Escape(Shown(name)) && NoPlus(Shown(name)) }

  lemma TextPieceShows(ps: seq<Piece>, c: FileNaming, pid: nat, proc: string, t: nat, k: nat)
    requires WellFormed(ps, FILE_KEYS) && k < |ps| && NoPlusAt(ps, c, k) && TextAt(ps, c, k).Some?
    ensures IsEscaped(PatternPieces(ps, c)[k], NamePieces(ps, c, pid, proc, t)[k])
  {
    TextShows(ps, c, pid, proc, t, k);
    TextHasNoPlus(ps, c, k);
  }

  ghost predicate EscapedBetween(pat: seq<Piece>, name: seq<Piece>, j: nat, i: nat) {
    j <= i <= |pat| == |name| && forall k :: j <= k < i ==> IsEscaped(pat[k], name[k])
  }

  lemma EscapedSlice(pat: seq<Piece>, name: seq<Piece>, j: nat, i: nat)
    requires EscapedBetween(pat, name, j, i)
    ensures Flat(pat[j..i]) == Escape(Flat(name[j..i])) && NoPlus(Flat(name[j..i]))
  {
    forall k | 0 <= k < i - j ensures IsEscaped(pat[j..i][k], name[j..i][k]) {
      assert pat[j..i][k] == pat[j + k] && name[j..i][k] == name[j + k];
    }
    EscapedFlat(pat[j..i], name[j..i]);
    NoPlusFlat(name[j..i]);
  }

  lemma BetweenShows(ps: seq<Piece>, c: FileNaming, pid: nat, proc: string, t: nat, j: nat, i: nat)
    requires WellFormed(ps, FILE_KEYS) && NoPlusInUse(ps, c) && TextBetween(ps, c, j, i)
    ensures EscapedBetween(PatternPieces(ps, c), NamePieces(ps, c, pid, proc, t), j + 1, i)
  {
    var pat, name := PatternPieces(ps, c), NamePieces(ps, c, pid, proc, t);
    forall k: nat | j + 1 <= k < i ensures IsEscaped(pat[k], name[k]) {
      TextPieceShows(ps, c, pid, proc, t, k);
    }
  }

  lemma TakenExactly(pat: seq<Piece>, name: seq<Piece>, j: nat, i: nat, proc: string, t: nat)
    requires j < i <= |pat| == |name| && Fragment(Flat(pat[..j]), Flat(name[..j])) && CleanProcess(proc)
    requires Shown(pat[j]) == "(.*)" && Shown(name[j]) == proc
    requires EscapedBetween(pat, name, j + 1, i)
    ensures |Hours(t)| == 3 && (TakesHours(pat, name, i, t) <==> Repeats(Flat(name[j + 1..i]), Hours(t)))
  {
    var text := Flat(name[j + 1..i]);
    EscapedSlice(pat, name, j + 1, i);
    HoursShape(t);
    FlatUpTo(pat, j, i);
    FlatUpTo(name, j, i);
    var a, x := Flat(pat[..j]), Flat(name[..j]);
    if Repeats(text, Hours(t)) { TakenIfRepeats(a, x, proc, text, Hours(t)); }
    if TakesHours(pat, name, i, t) { RepeatsIfTaken(a, x, proc, text, Hours(t)); }
  }

  lemma FlatUpTo(ps: seq<Piece>, j: nat, i: nat)
    requires j < i <= |ps|
    ensures Flat(ps[..i]) == Flat(ps[..j]) + Shown(ps[j]) + Flat(ps[j + 1..i])
  {
    FlatAt(ps[..i], j);
    assert ps[..i][..j] == ps[..j] && ps[..i][j + 1..] == ps[j + 1..i];
  }

  lemma FragmentSlice(pat: seq<Piece>, name: seq<Piece>, but: nat, i: nat)
    requires FragmentsBut(pat, name, but) && i <= but && i <= |pat|
    ensures Fragment(Flat(pat[..i]), Flat(name[..i]))
  {
    FragmentsFlat(pat[..i], name[..i]);
  }

  lemma FragmentUpTo(ps: seq<Piece>, c: FileNaming, pid: nat, proc: string, t: nat, but: nat, i: nat)
    requires WellFormed(ps, FILE_KEYS) && NoPlusInUse(ps, c) && CleanProcess(proc) && InRange(t)
    requires i <= but < |ps| && ps[but] == Hole(TIME) && Hole(TIME) !in ps[..but]
    ensures Fragment(Flat(PatternPieces(ps, c)[..i]), Flat(NamePieces(ps, c, pid, proc, t)[..i]))
  {
    FragmentsButTime(ps, c, pid, proc, t, but);
    FragmentSlice(PatternPieces(ps, c), NamePieces(ps, c, pid, proc, t), but, i);
  }

  /** Main result: with nothing but text between `%%procname` and `%%time`, the name is found exactly if
      that text repeats itself with the hours behind it. "%%procname_%%time" is never found,
      "%%procname:%%time" always. */
  lemma FoundExactlyBetween(ps: seq<Piece>, c: FileNaming, pid: nat, proc: string, t: nat, j: nat, i: nat,
                            o1: seq<string>, o2: seq<string>, o3: seq<string>, o4: seq<string>)
    requires WellFormed(ps, FILE_KEYS) && PlainNaming(c) && NoPlusInUse(ps, c) && CleanProcess(proc) && InRange(t)
    requires IsOrder(o1, NAME_KEYS) && IsOrder(o2, TIME_KEYS)
    requires IsOrder(o3, FIXED_NAME_KEYS) && IsOrder(o4, VOLATILE_KEYS)
    requires j < i < |ps| && Opens(ps, j, PROCNAME) && Opens(ps, i, TIME) && TextBetween(ps, c, j, i)
    ensures |Hours(t)| == 3
    ensures RegexMatch(ReplaceEach(Escape(ReplaceEach(Flat(ps), o3, FixedTable(c))), o4, VolatileTable()),
                       ReplaceEach(ReplaceEach(Flat(ps), o1, NameTable(c, pid, proc)), o2, TimeTable(t)))
        <==> Repeats(Flat(NamePieces(ps, c, pid, proc, t)[j + 1..i]), Hours(t))
  {
    FoundExactlyWithHours(ps, c, pid, proc, t, i, o1, o2, o3, o4);
    FragmentUpTo(ps, c, pid, proc, t, i, j);
    ProcessTexts(ps, c, pid, proc, t, j);
    BetweenShows(ps, c, pid, proc, t, j, i);
    TakenExactly(PatternPieces(ps, c), NamePieces(ps, c, pid, proc, t), j, i, proc, t);
  }

  /** `%%procname` directly before `%%time` takes the hours, so every such name is found. */
  lemma FoundBehindProcessName(ps: seq<Piece>, c: FileNaming, pid: nat, proc: string, t: nat, j: nat,
                               o1: seq<string>, o2: seq<string>, o3: seq<string>, o4: seq<string>)
    requires WellFormed(ps, FILE_KEYS) && PlainNaming(c) && NoPlusInUse(ps, c) && CleanProcess(proc) && InRange(t)
    requires IsOrder(o1, NAME_KEYS) && IsOrder(o2, TIME_KEYS)
    requires IsOrder(o3, FIXED_NAME_KEYS) && IsOrder(o4, VOLATILE_KEYS)
    requires j + 1 < |ps| && Opens(ps, j, PROCNAME) && Opens(ps, j + 1, TIME)
    ensures RegexMatch(ReplaceEach(Escape(ReplaceEach(Flat(ps), o3, FixedTable(c))), o4, VolatileTable()),
                       ReplaceEach(ReplaceEach(Flat(ps), o1, NameTable(c, pid, proc)), o2, TimeTable(t)))
  {
    FoundExactlyBetween(ps, c, pid, proc, t, j, j + 1, o1, o2, o3, o4);
    NothingRepeats(NamePieces(ps, c, pid, proc, t), j + 1, t);
  }

  lemma NothingRepeats(name: seq<Piece>, i: nat, t: nat)
    requires i <= |name|
    ensures |Hours(t)| == 3 && Repeats(Flat(name[i..i]), Hours(t))
  {
    HoursShape(t);
    RepeatsCases("", Hours(t));
    assert Flat(name[i..i]) == "";
  }
}
