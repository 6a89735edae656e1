/**
 `%%time` in the pattern. Its expression has no place for the seconds. Where no `%%procname` stands
 before it, the text in front leaves only one place for it, and there the ':' of the seconds is in
 the way; so the name is not found, whatever stands behind and whether a '+' is in use or not.
 */
module PurgeTime {
  import opened Calendar
  import opened Fragments
  import opened Placeholders
  import opened PlusSigns
  import opened PurgeLimits
  import opened PurgePattern
  import opened Regex
  import opened Template
  import opened Text
  import opened TimeText

  // ----- the expression of `%%time` between texts whose parse is not known -----

  /** What stands behind parses if the whole does. */
  ghost predicate Needs(pat: string) {
    FollowOk(pat) &&
    forall rest {:trigger pat + rest} :: FollowOk(rest) && ParseTerms(pat + rest).Some? ==> ParseTerms(rest).Some?
  }

  lemma NeedsAtom(pat: string, a: Atom)
    requires pat != "" && pat[0] != ')' && FollowOk(pat)
    requires forall rest {:trigger pat + rest} :: ParseAtom(pat + rest) == Some((a, rest))
    ensures Needs(pat)
  {
    forall rest | FollowOk(rest) && ParseTerms(pat + rest).Some? ensures ParseTerms(rest).Some? {
      assert (pat + rest)[0] == pat[0];
    }
  }

  lemma NeedsConcat(a: string, b: string)
    requires Needs(a) && Needs(b)
    ensures Needs(a + b)
  {
    FollowConcat(a, b);
    forall rest | FollowOk(rest) && ParseTerms(a + b + rest).Some? ensures ParseTerms(rest).Some? {
      Regroup(a, b, rest);
      FollowConcat(b, rest);
      assert ParseTerms(b + rest).Some?;
    }
  }

  const PAIR := Term(DigitClass, Exactly(2))
  const HOURS := Term(Group([PAIR]), Once)
  const COLON := Term(Chr(':'), Once)
  const DOT := Term(AnyChar, Once)
  const TRIPLE := Term(DigitClass, Exactly(3))
  const MILLIS := Term(Group([TRIPLE]), Once)
  const FOUR := Term(DigitClass, Exactly(4))

  /** "(\\d{2}):(\\d{2}).(\\d{3})" */
  const HEAD := T2 + ":" + T2 + "." + T3
  const HEAD_TERMS := [HOURS] + [COLON] + [HOURS] + [DOT] + [MILLIS]
  const TIME_TERMS := HEAD_TERMS + [FOUR]

  lemma NumberCompiles(d: char, t: Term)
    requires IsDigit(d) && t == Term(DigitClass, Exactly(DigitValue(d)))
    ensures var pat := "(" + ("\\d" + ['{', d, '}']) + ")"; Needs(pat) && Compiles(pat, [Term(Group([t]), Once)])
  {
    DigitsCompile(d);
    var b := "\\d" + ['{', d, '}'];
    var pat := "(" + b + ")";
    GroupCompiles(b, [t]);
    forall rest: string ensures ParseAtom(pat + rest) == Some((Group([t]), rest)) {
      GroupParses(b, [t], rest);
    }
    assert pat[0] == '(';
    NeedsAtom(pat, Group([t]));
  }

  lemma NumbersCompile()
    ensures Needs(T2) && Compiles(T2, [HOURS]) && Needs(T3) && Compiles(T3, [MILLIS])
  {
    NumberCompiles('2', PAIR);
    NumberCompiles('3', TRIPLE);
    assert T2 == "(" + ("\\d" + ['{', '2', '}']) + ")";
    assert T3 == "(" + ("\\d" + ['{', '3', '}']) + ")";
  }

  lemma SeparatorsCompile()
    ensures Needs(":") && Compiles(":", [COLON]) && Needs(".") && Compiles(".", [DOT])
  {
    CharCompiles(':');
    AnyCompiles();
    forall rest: string
      ensures ParseAtom(":" + rest) == Some((Chr(':'), rest)) && ParseAtom("." + rest) == Some((AnyChar, rest))
    {
      assert (":" + rest)[1..] == rest && ("." + rest)[1..] == rest;
    }
    NeedsAtom(":", Chr(':'));
    NeedsAtom(".", AnyChar);
  }

  lemma HeadCompiles()
    ensures Needs(HEAD) && Compiles(HEAD, HEAD_TERMS)
  {
    NumbersCompile();
    SeparatorsCompile();
    NeedsConcat(T2, ":");
    NeedsConcat(T2 + ":", T2);
    NeedsConcat(T2 + ":" + T2, ".");
    NeedsConcat(T2 + ":" + T2 + ".", T3);
    CompilesConcat(T2, [HOURS], ":", [COLON]);
    CompilesConcat(T2 + ":", [HOURS] + [COLON], T2, [HOURS]);
    CompilesConcat(T2 + ":" + T2, [HOURS] + [COLON] + [HOURS], ".", [DOT]);
    CompilesConcat(T2 + ":" + T2 + ".", [HOURS] + [COLON] + [HOURS] + [DOT], T3, [MILLIS]);
  }

  /** The four digits at the end of the expression, with a '+' behind them or not. */
  lemma FourDigitsParse(rest: string)
    ensures ParseTerms("\\d{4}" + rest) ==
      match ParseTerms(rest)
      case None => None
      case Some(more) => Some(([Term(DigitClass, Exactly(4))] + more.0, more.1))
  {
    var quant := ['{', '4', '}'];
    assert "\\d{4}" + rest == "\\d" + (quant + rest);
    assert ("\\d" + (quant + rest))[2..] == quant + rest;
    BracesParse('4', rest);
  }

  lemma TimeSplits(b: string)
    ensures T_TIME + b == HEAD + ("\\d{4}" + b) && T_TIME[0] == '('
  {
  }

  /** Whatever stands behind it must parse, so it does not begin with a '+'. */
  lemma ParseTime(b: string)
    requires ParseTerms(T_TIME + b).Some?
    ensures ParseTerms(b).Some? && ParseTerms(T_TIME + b).value.0 == TIME_TERMS + ParseTerms(b).value.0
  {
    HeadCompiles();
    TimeSplits(b);
    FourDigitsParse(b);
    assert FollowOk("\\d{4}" + b);
    assert ParseTerms("\\d{4}" + b).Some?;
    Reassociate(HEAD_TERMS, [FOUR], ParseTerms(b).value.0);
  }

  lemma Reassociate<T>(a: seq<T>, b: seq<T>, c: seq<T>)
    ensures a + (b + c) == a + b + c
  {
  }

  lemma ParseBefore(a: string, m: nat, rest: string, tail: seq<Term>) returns (x: seq<Term>)
    requires Keeps(a, m) && Leads(rest, tail, 0) && FollowOk(rest) && ParseTerms(a + rest).Some?
    ensures ParseTerms(a + rest).value.0 == x + tail && PlusFree(x) && Least(x) >= m
  {
    assert Behind(rest, tail, 0);
    assert Behind(a + rest, tail, m + 0);
    x :| ParseTerms(a + rest).value.0 == x + tail && PlusFree(x) && Least(x) >= m + 0;
  }

  /** If the text behind did not parse, the whole would end with any terms one likes. */
  lemma RestParses(a: string, m: nat, rest: string)
    requires Keeps(a, m) && FollowOk(rest) && ParseTerms(a + rest).Some?
    ensures ParseTerms(rest).Some?
  {
    if ParseTerms(rest).None? {
      var ts := ParseTerms(a + rest).value.0;
      var x := ParseBefore(a, m, rest, ts + [DOT]);
      assert false;
    }
  }

  lemma LeadsTo(p: string, tail: seq<Term>)
    requires ParseTerms(p).Some? && ParseTerms(p).value.0 == tail
    ensures Leads(p, tail, 0)
  {
    ghost var none: seq<Term> := [];
    assert tail == none + tail && PlusFree(none) && Least(none) == 0;
  }

  /** How a text with the expression of `%%time` in it parses, if it does. */
  lemma ParseAround(a: string, m: nat, b: string) returns (x: seq<Term>, y: seq<Term>)
    requires Keeps(a, m) && ParseTerms(a + T_TIME + b).Some?
    ensures ParseTerms(a + T_TIME + b).value.0 == x + (TIME_TERMS + y) && PlusFree(x) && Least(x) >= m
    ensures forall u :: Compiles(a, u) ==> u == x
  {
    var rest := T_TIME + b;
    Regroup(a, T_TIME, b);
    TimeSplits(b);
    assert FollowOk(rest);
    RestParses(a, m, rest);
    ParseTime(b);
    y := ParseTerms(b).value.0;
    LeadsTo(rest, TIME_TERMS + y);
    x := ParseBefore(a, m, rest, TIME_TERMS + y);
    forall u | Compiles(a, u) ensures u == x {
      assert ParseTerms(a + rest).value.0 == u + (TIME_TERMS + y);
      SameFront(u, x, TIME_TERMS + y);
    }
  }

  lemma SameFront<T>(u: seq<T>, x: seq<T>, tail: seq<T>)
    requires u + tail == x + tail
    ensures u == x
  {
    assert |u| == |x|;
    assert u == (u + tail)[..|u|] && x == (x + tail)[..|x|];
  }

  // ----- what it matches -----

  lemma {:induction false} DigitsOnly(n: nat, s: string)
    requires MatchTimes(DigitClass, n, s)
    ensures |s| == n && AllDigits(s)
    decreases n
  {
    if n > 0 {
      var i :| 0 <= i <= |s| && MatchAtom(DigitClass, s[..i]) && MatchTimes(DigitClass, n - 1, s[i..]);
      DigitsOnly(n - 1, s[i..]);
      assert s[0] == s[..i][0] && forall j :: 1 <= j < |s| ==> s[j] == s[i..][j - 1];
    }
  }

  lemma OnlyTerm(t: Term, s: string)
    requires MatchTerms([t], s)
    ensures MatchTerm(t, s)
  {
    var i :| 0 <= i <= |s| && MatchTerm([t][0], s[..i]) && MatchTerms([t][1..], s[i..]);
    assert [t][1..] == [] && s[..i] == s;
  }

  lemma GroupMatched(t: Term, n: nat, s: string)
    requires t == Term(DigitClass, Exactly(n)) && MatchTerms([Term(Group([t]), Once)], s)
    ensures |s| == n && AllDigits(s)
  {
    OnlyTerm(Term(Group([t]), Once), s);
    OnlyTerm(t, s);
    DigitsOnly(n, s);
  }

  /** "dd:dd", any character, seven digits. */
  ghost predicate TimeMatched(s: string) {
    |s| == 13 && s[2] == ':' && IsDigit(s[3]) && IsDigit(s[4]) && forall i :: 6 <= i < 13 ==> IsDigit(s[i])
  }

  lemma TimeGlued(h: string, colon: string, m: string, any: string, ms: string, four: string)
    requires |h| == 2 && |m| == 2 && AllDigits(m) && |ms| == 3 && AllDigits(ms) && |four| == 4 && AllDigits(four)
    requires colon == ":" && |any| == 1
    ensures TimeMatched(h + colon + m + any + ms + four)
  {
  }

  lemma SplitLast(x: seq<Term>, t: Term, s: string) returns (front: string, last: string)
    requires MatchTerms(x + [t], s)
    ensures s == front + last && MatchTerms(x, front) && MatchTerms([t], last)
  {
    var i := SplitMatch(x, [t], s);
    front, last := s[..i], s[i..];
  }

  lemma TimeTermsMatch(s: string)
    requires MatchTerms(TIME_TERMS, s)
    ensures TimeMatched(s)
  {
    var s5, four := SplitLast(HEAD_TERMS, FOUR, s);
    var s4, ms := SplitLast([HOURS] + [COLON] + [HOURS] + [DOT], MILLIS, s5);
    var s3, any := SplitLast([HOURS] + [COLON] + [HOURS], DOT, s4);
    var s2, m := SplitLast([HOURS] + [COLON], HOURS, s3);
    var h, colon := SplitLast([HOURS], COLON, s2);
    PartsMatched(h, colon, m, any, ms, four);
  }

  lemma PartsMatched(h: string, colon: string, m: string, any: string, ms: string, four: string)
    requires MatchTerms([HOURS], h) && MatchTerms([COLON], colon) && MatchTerms([HOURS], m) && MatchTerms([DOT], any)
    requires MatchTerms([MILLIS], ms) && MatchTerms([FOUR], four)
    ensures TimeMatched(h + colon + m + any + ms + four)
  {
    GroupMatched(PAIR, 2, h);
    OnlyTerm(COLON, colon);
    GroupMatched(PAIR, 2, m);
    OnlyTerm(DOT, any);
    GroupMatched(TRIPLE, 3, ms);
    OnlyTerm(FOUR, four);
    DigitsOnly(4, four);
    TimeGlued(h, colon, m, any, ms, four);
  }

  /** Where it matches, and what the text in front of it then matches. */
  lemma MatchAround(a: string, m: nat, b: string, name: string) returns (i: nat)
    requires Keeps(a, m) && RegexMatch(a + T_TIME + b, name)
    ensures i + 13 <= |name| && TimeMatched(name[i..i + 13]) && AtLeast(name[..i], m)
    ensures forall u :: Compiles(a, u) ==> MatchTerms(u, name[..i])
  {
    var x, y := ParseAround(a, m, b);
    i := SplitMatch(x, TIME_TERMS + y, name);
    var j := SplitMatch(TIME_TERMS, y, name[i..]);
    TimeTermsMatch(name[i..][..j]);
    TermsMatch(x, name[..i]);
    assert name[i..][..13] == name[i..i + 13];
  }

  /** "dd:dd:dd.ddddddd" */
  ghost predicate FullTime(s: string) {
    && |s| == 16 && s[2] == ':' && s[5] == ':' && s[8] == '.'
    && forall i :: 0 <= i < 16 && i !in {2, 5, 8} ==> IsDigit(s[i])
  }

  function TimeValue(t: nat): (s: string) { ClockText(t) + "." + Pad3(Milli(t)) + "0000" }

  lemma TimeIsFull(t: nat)
    ensures FullTime(TimeValue(t))
  {
    TimeFromFields(t);
    PaddedDigits(Hour(t));
    PaddedDigits(Minute(t));
    PaddedDigits(Second(t));
    PaddedDigits(Milli(t));
  }

  // ----- where that can be in the name -----

  lemma SolidBetweenCuts(name: string, i: nat, j: nat, k: nat)
    requires i <= j <= |name| && i <= k < j && IsSolid(name[k])
    ensures Solid(name[i..j]) > 0
  {
    assert name[i..j][k - i] == name[k];
    SolidInside(name[i..j], k - i);
  }

  /** The text of `%%time` stands at `n`, the match of its expression at `i`. */
  ghost predicate Places(name: string, n: nat, i: nat) {
    && n + 16 <= |name| && i + 13 <= |name|
    && name[n + 2] == ':' && name[n + 5] == ':' && name[n + 8] == '.'
    && (forall m :: n <= m < n + 16 && m != n + 2 && m != n + 5 && m != n + 8 ==> IsDigit(name[m]))
    && name[i + 2] == ':' && IsDigit(name[i + 3]) && IsDigit(name[i + 4])
    && (forall m :: i + 6 <= m < i + 13 ==> IsDigit(name[m]))
  }

  lemma InPlace(name: string, x: string, time: string, y: string, i: nat)
    requires name == x + time + y && FullTime(time) && i + 13 <= |name| && TimeMatched(name[i..i + 13])
    ensures Places(name, |x|, i)
  {
    assert forall m :: i <= m < i + 13 ==> name[m] == name[i..i + 13][m - i];
    assert forall m :: |x| <= m < |x| + 16 ==> name[m] == time[m - |x|];
  }

  /** What precedes the match cannot have as many solid characters as what precedes the text. */
  lemma FromTheLeft(name: string, n: nat, i: nat)
    requires Places(name, n, i)
    ensures Solid(name[..i]) != Solid(name[..n])
  {
    if i > n {
      assert name[..i] == name[..n] + name[n..i];
      SolidConcat(name[..n], name[n..i]);
      if i > n + 2 { SolidBetweenCuts(name, n, i, n + 2); }
    } else if i < n {
      assert name[..n] == name[..i] + name[i..n];
      SolidConcat(name[..i], name[i..n]);
      if i + 2 < n { SolidBetweenCuts(name, i, n, i + 2); }
    }
  }

  /** The text in front can neither be left nor be reached beyond. */
  lemma TimeDefeats(a: string, x: string, b: string, y: string, t: nat)
    requires Keeps(a, Solid(x)) && (NoPlus(x) ==> Bounded(a, Solid(x)))
    ensures !RegexMatch(a + T_TIME + b, x + TimeValue(t) + y)
  {
    var name := x + TimeValue(t) + y;
    if RegexMatch(a + T_TIME + b, name) {
      var i := MatchAround(a, Solid(x), b, name);
      TimeIsFull(t);
      InPlace(name, x, TimeValue(t), y, i);
      SameSolid(a, x, name, i);
      FromTheLeft(name, |x|, i);
    }
  }

  lemma SameSolid(a: string, x: string, name: string, i: nat)
    requires x <= name && i <= |name| && AtLeast(name[..i], Solid(x)) && (NoPlus(x) ==> Bounded(a, Solid(x)))
    requires forall u :: Compiles(a, u) ==> MatchTerms(u, name[..i])
    ensures Solid(name[..i]) == Solid(name[..|x|])
  {
    assert name[..|x|] == x;
    if NoPlus(x) {
      var u :| Compiles(a, u) && Bound(u, Solid(x));
      assert MatchTerms(u, name[..i]);
    } else {
      EndsBeforePlus(x, name, i);
    }
  }

  /** A match without '+' ends before the first '+', and leaves no solid character behind it. */
  lemma EndsBeforePlus(x: string, name: string, i: nat)
    requires x <= name && i <= |name| && AtLeast(name[..i], Solid(x)) && !NoPlus(x)
    ensures i < |x| && Solid(x[i..]) == 0 && name[..i] == x[..i] && Solid(name[..i]) == Solid(x)
  {
    var p: nat :| p < |x| && x[p] == '+';
    assert name[p] == x[p];
    PlusAhead(name, i, p);
    PrefixSolid(x, name, i);
  }

  lemma PrefixSolid(x: string, name: string, i: nat)
    requires x <= name && i <= |x|
    ensures name[..i] == x[..i] && Solid(name[..i]) + Solid(x[i..]) == Solid(x)
  {
    assert name[..i] == x[..i] && x == x[..i] + x[i..];
    SolidConcat(x[..i], x[i..]);
  }

  lemma PlusAhead(name: string, i: nat, p: nat)
    requires p < |name| && i <= |name| && name[p] == '+' && NoPlus(name[..i])
    ensures i <= p
  {
    assert forall k :: 0 <= k < i ==> name[k] in name[..i];
  }

  // ----- piece by piece -----

  lemma {:induction false} FirstOf(ps: seq<Piece>, p: Piece) returns (i: nat)
    requires p in ps
    ensures i < |ps| && ps[i] == p && p !in ps[..i]
  {
    if p in ps[..|ps| - 1] {
      i := FirstOf(ps[..|ps| - 1], p);
      assert ps[..|ps| - 1][..i] == ps[..i];
    } else {
      i := |ps| - 1;
    }
  }

  lemma TimeIsWhole()
    ensures TIME in WHOLE_KEYS && TIME !in DATE_KEYS && TIME !in CLOCK_KEYS
  {
  }

  lemma TimePair(t: nat)
    ensures TIME in TIME_KEYS && VolatileTable()[TIME] == T_TIME && TimeTable(t)[TIME] == TimeValue(t)
  {
    TimeIsWhole();
    PatternOf(TIME);
    assert WHOLE_PATTERNS[TIME] == T_TIME && WholeFields(t)[TIME] == TimeValue(t);
  }

  lemma TimeTexts(ps: seq<Piece>, c: FileNaming, pid: nat, proc: string, t: nat, i: nat)
    requires i < |ps| && ps[i] == Hole(TIME) && ps[i] !in ps[..i]
    ensures Shown(PatternPieces(ps, c)[i]) == T_TIME
    ensures Shown(NamePieces(ps, c, pid, proc, t)[i]) == TimeValue(t)
  {
    var p := (a: string, b: string) => a == T_TIME && b == TimeValue(t);
    TimePair(t);
    KeysApart(TIME);
    VolatilePairs(p, TIME, c, pid, proc, t);
    PiecePairs(p, ps, c, pid, proc, t, i);
  }

  /** A '+' in use is shown. */
  lemma PlusIsShown(ps: seq<Piece>, c: FileNaming, pid: nat, proc: string, t: nat, i: nat)
    requires WellFormed(ps, FILE_KEYS) && i < |ps| && !NoPlusAt(ps, c, i)
    ensures !NoPlus(Shown(NamePieces(ps, c, pid, proc, t)[i]))
  {
    if ps[i].Hole? {
      FixedText(ps[i].key, c, pid, proc);
      if ps[i].key in TIME_KEYS { TimeKeyNotName(ps[i].key); }
    }
    PiecePairs((a: string, b: string) => !NoPlus(b), ps, c, pid, proc, t, i);
  }

  ghost predicate AllKept(pat: seq<Piece>, name: seq<Piece>, i: nat) {
    i <= |pat| == |name| && forall k :: 0 <= k < i ==> Keeps(Shown(pat[k]), Solid(Shown(name[k])))
  }

  ghost predicate BoundedWithoutPlus(pat: seq<Piece>, name: seq<Piece>, i: nat) {
    i <= |pat| == |name| &&
    forall k :: 0 <= k < i && NoPlus(Shown(name[k])) ==> Bounded(Shown(pat[k]), Solid(Shown(name[k])))
  }

  lemma NoPlusInPieces(name: seq<Piece>, i: nat)
    requires i <= |name| && NoPlus(Flat(name[..i]))
    ensures forall k :: 0 <= k < i ==> NoPlus(Shown(name[k]))
  {
    forall k | 0 <= k < i ensures NoPlus(Shown(name[k])) {
      FlatAt(name[..i], k);
    }
  }

  lemma TimeBehind(pat: seq<Piece>, name: seq<Piece>, i: nat, t: nat)
    requires AllKept(pat, name, i) && BoundedWithoutPlus(pat, name, i)
    requires i < |pat| && Shown(pat[i]) == T_TIME && Shown(name[i]) == TimeValue(t)
    ensures !RegexMatch(Flat(pat), Flat(name))
  {
    KeepsFlat(pat[..i], name[..i]);
    if NoPlus(Flat(name[..i])) {
      NoPlusInPieces(name, i);
      BoundedFlat(pat[..i], name[..i]);
    }
    FlatAt(pat, i);
    FlatAt(name, i);
    TimeDefeats(Flat(pat[..i]), Flat(name[..i]), Flat(pat[i + 1..]), Flat(name[i + 1..]), t);
  }

  /** The pieces before a place, none of them `%%time` or `%%procname` as an expression. */
  ghost predicate NoneWild(ps: seq<Piece>, i: nat) {
    i <= |ps| && Hole(TIME) !in ps[..i] && Hole(PROCNAME) !in ps[..i]
  }

  lemma NotWild(ps: seq<Piece>, i: nat, k: nat)
    requires NoneWild(ps, i) && k < i
    ensures ps[k] != Hole(TIME) && ps[k] != Hole(PROCNAME)
  {
    assert ps[..i][k] == ps[k];
  }

  lemma PiecesKept(ps: seq<Piece>, c: FileNaming, pid: nat, proc: string, t: nat, i: nat)
    requires WellFormed(ps, FILE_KEYS) && InRange(t) && NoneWild(ps, i)
    ensures AllKept(PatternPieces(ps, c), NamePieces(ps, c, pid, proc, t), i)
  {
    var pat, name := PatternPieces(ps, c), NamePieces(ps, c, pid, proc, t);
    forall k: nat | k < i ensures Keeps(Shown(pat[k]), Solid(Shown(name[k]))) {
      NotWild(ps, i, k);
      KeepsPiece(ps, c, pid, proc, t, k);
    }
  }

  lemma PieceBounded(ps: seq<Piece>, c: FileNaming, pid: nat, proc: string, t: nat, k: nat)
    requires WellFormed(ps, FILE_KEYS) && InRange(t) && k < |ps| && ps[k] != Hole(TIME) && ps[k] != Hole(PROCNAME)
    requires NoPlus(Shown(NamePieces(ps, c, pid, proc, t)[k]))
    ensures Bounded(Shown(PatternPieces(ps, c)[k]), Solid(Shown(NamePieces(ps, c, pid, proc, t)[k])))
  {
    if !NoPlusAt(ps, c, k) { PlusIsShown(ps, c, pid, proc, t, k); }
    BoundedPiece(ps, c, pid, proc, t, k);
  }

  lemma PiecesBounded(ps: seq<Piece>, c: FileNaming, pid: nat, proc: string, t: nat, i: nat)
    requires WellFormed(ps, FILE_KEYS) && InRange(t) && NoneWild(ps, i)
    ensures BoundedWithoutPlus(PatternPieces(ps, c), NamePieces(ps, c, pid, proc, t), i)
  {
    var pat, name := PatternPieces(ps, c), NamePieces(ps, c, pid, proc, t);
    forall k: nat | k < i && NoPlus(Shown(name[k])) ensures Bounded(Shown(pat[k]), Solid(Shown(name[k]))) {
      NotWild(ps, i, k);
      PieceBounded(ps, c, pid, proc, t, k);
    }
  }

  /** Main result: where no `%%procname` stands before `%%time` the name is not found. */
  lemma TimeNotFound(ps: seq<Piece>, c: FileNaming, pid: nat, proc: string, t: nat, i: nat)
    requires WellFormed(ps, FILE_KEYS) && InRange(t)
    requires i < |ps| && ps[i] == Hole(TIME) && NoneWild(ps, i)
    ensures !RegexMatch(Flat(PatternPieces(ps, c)), Flat(NamePieces(ps, c, pid, proc, t)))
  {
    PiecesKept(ps, c, pid, proc, t, i);
    PiecesBounded(ps, c, pid, proc, t, i);
    TimeTexts(ps, c, pid, proc, t, i);
    TimeBehind(PatternPieces(ps, c), NamePieces(ps, c, pid, proc, t), i, t);
  }

  /** The same for every order of the four maps. */
  lemma NotFoundWithoutProcessNameBefore(ps: seq<Piece>, c: FileNaming, pid: nat, proc: string, t: nat, i: nat,
                                         o1: seq<string>, o2: seq<string>, o3: seq<string>, o4: seq<string>)
    requires WellFormed(ps, FILE_KEYS) && PlainNaming(c) && CleanProcess(proc) && InRange(t)
    requires IsOrder(o1, NAME_KEYS) && IsOrder(o2, TIME_KEYS)
    requires IsOrder(o3, FIXED_NAME_KEYS) && IsOrder(o4, VOLATILE_KEYS)
    requires i < |ps| && ps[i] == Hole(TIME) && NoneWild(ps, i)
    ensures !RegexMatch(ReplaceEach(Escape(ReplaceEach(Flat(ps), o3, FixedTable(c))), o4, VolatileTable()),
                        ReplaceEach(ReplaceEach(Flat(ps), o1, NameTable(c, pid, proc)), o2, TimeTable(t)))
  {
    NameIsFilled(ps, c, pid, proc, t, o1, o2);
    PatternIsFilled(ps, c, o3, o4);
    TimeNotFound(ps, c, pid, proc, t, i);
  }
}
