/**
 Which file names the purge pattern finds. A '+' in use is never matched by what was meant to match
 it; only the expression of `%%procname` could take it, if nothing solid stands between them. Where
 something does, as in the default format, a name is found exactly if no text in use holds a '+'.
 */
module PurgeExact {
  import opened Config
  import opened Fragments
  import opened Placeholders
  import opened PlusSigns
  import opened PurgePattern
  import opened PurgeTime
  import opened Regex
  import opened Template
  import opened Text
  import opened TimeText

  // ----- whatever stands in front, the terms behind are those of the text behind -----

  ghost predicate EndsWith(ts: seq<Term>, tail: seq<Term>) { exists x :: ts == x + tail }

  ghost predicate Ends(p: string, tail: seq<Term>) {
    ParseTerms(p).Some? ==> EndsWith(ParseTerms(p).value.0, tail)
  }

  /** The same if the text stands behind an atom, which takes a '+' in front as its quantifier. */
  ghost predicate EndsBehind(p: string, tail: seq<Term>) {
    Ends(p, tail) && (p != "" && IsQuantChar(p[0]) ==> p[0] == '+' && Ends(p[1..], tail))
  }

  ghost predicate Carries(a: string) {
    forall rest, tail {:trigger a + rest, EndsBehind(rest, tail)} ::
      EndsBehind(rest, tail) ==> EndsBehind(a + rest, tail)
  }

  lemma CarriesConcat(a: string, b: string)
    requires Carries(a) && Carries(b)
    ensures Carries(a + b)
  {
    forall rest, tail | EndsBehind(rest, tail) ensures EndsBehind(a + b + rest, tail) {
      Regroup(a, b, rest);
      assert EndsBehind(b + rest, tail);
    }
  }

  lemma EndsWithMore(front: seq<Term>, ts: seq<Term>, tail: seq<Term>)
    requires EndsWith(ts, tail)
    ensures EndsWith(front + ts, tail)
  {
    var x :| ts == x + tail;
    assert front + ts == (front + x) + tail;
  }

  lemma CarriesAtom(a: string, atom: Atom)
    requires a != "" && a[0] != ')' && !IsQuantChar(a[0])
    requires forall rest {:trigger a + rest} :: ParseAtom(a + rest) == Some((atom, rest))
    ensures Carries(a)
  {
    forall rest, tail | EndsBehind(rest, tail) ensures EndsBehind(a + rest, tail) {
      var p := a + rest;
      assert p[0] == a[0];
      if ParseTerms(p).Some? {
        var q := ParseQuant(rest).value;
        EndsWithMore([Term(atom, q.0)], ParseTerms(q.1).value.0, tail);
      }
    }
  }

  lemma EndsWithItself(ts: seq<Term>)
    ensures EndsWith(ts, ts)
  {
    assert ts == [] + ts;
  }

  lemma QuantifierParsesNot(p: string)
    requires p != "" && IsQuantChar(p[0])
    ensures ParseTerms(p).None?
  {
    assert ParseAtom(p).None?;
  }

  /** The text without a '+' that an atom in front takes. */
  function Taken(p: string): (q: string) { if p != "" && IsQuantChar(p[0]) then p[1..] else p }

  /** The terms a text ends with, also behind an atom. */
  lemma TermsBehind(rest: string, tail: seq<Term>) returns (ts: seq<Term>)
    requires EndsBehind(rest, tail)
    ensures EndsWith(ts, tail) && Behind(rest, ts, 0)
  {
    var p := Taken(rest);
    if p != rest { QuantifierParsesNot(rest); }
    EndsWithItself(tail);
    ts := if ParseTerms(p).Some? then ParseTerms(p).value.0 else tail;
    if ParseTerms(p).Some? { LeadsTo(p, ts); }
  }

  lemma AheadEnds(ts: seq<Term>, mid: seq<Term>, n: nat, tail: seq<Term>)
    requires Ahead(ts, mid, n) && EndsWith(mid, tail)
    ensures EndsWith(ts, tail)
  {
    var x :| ts == x + mid && PlusFree(x) && Least(x) >= n;
    EndsWithMore(x, mid, tail);
  }

  lemma BehindEnds(p: string, mid: seq<Term>, n: nat, tail: seq<Term>)
    requires Behind(p, mid, n) && EndsWith(mid, tail)
    ensures EndsBehind(p, tail)
  {
    if ParseTerms(p).Some? { AheadEnds(ParseTerms(p).value.0, mid, n, tail); }
    if p != "" && IsQuantChar(p[0]) && ParseTerms(p[1..]).Some? { AheadEnds(ParseTerms(p[1..]).value.0, mid, n, tail); }
  }

  lemma KeepsCarries(a: string, m: nat)
    requires Keeps(a, m)
    ensures Carries(a)
  {
    forall rest, tail | EndsBehind(rest, tail) ensures EndsBehind(a + rest, tail) {
      var ts := TermsBehind(rest, tail);
      assert Behind(a + rest, ts, m + 0);
      BehindEnds(a + rest, ts, m + 0, tail);
    }
  }

  lemma FourDigitsCarry()
    ensures Carries("\\d{4}")
  {
    forall rest, tail | EndsBehind(rest, tail) ensures EndsBehind("\\d{4}" + rest, tail) {
      FourDigitsParse(rest);
      if ParseTerms("\\d{4}" + rest).Some? {
        EndsWithMore([Term(DigitClass, Exactly(4))], ParseTerms(rest).value.0, tail);
      }
    }
  }

  lemma TimeCarries()
    ensures Carries(T_TIME)
  {
    KeepsNumbers();
    KeepsSeparators();
    KeepsCarries(T2, 0);
    KeepsCarries(T3, 0);
    KeepsCarries(":", 1);
    forall rest: string ensures ParseAtom("." + rest) == Some((AnyChar, rest)) {
      assert ("." + rest)[1..] == rest;
    }
    CarriesAtom(".", AnyChar);
    FourDigitsCarry();
    CarriesConcat(T2, ":");
    CarriesConcat(T2 + ":", T2);
    CarriesConcat(T2 + ":" + T2, ".");
    CarriesConcat(T2 + ":" + T2 + ".", T3);
    CarriesConcat(T2 + ":" + T2 + "." + T3, "\\d{4}");
  }

  lemma ProcessCarries()
    ensures Carries("(.*)")
  {
    AnythingCompiles();
    var t := Term(AnyChar, ZeroOrMore);
    assert "(.*)" == "(" + ("." + "*") + ")";
    forall rest: string ensures ParseAtom("(.*)" + rest) == Some((Group([t]), rest)) {
      GroupParses("." + "*", [t], rest);
    }
    CarriesAtom("(.*)", Group([t]));
  }

  lemma NothingCarries()
    ensures Carries("")
  {
    forall rest, tail | EndsBehind(rest, tail) ensures EndsBehind("" + rest, tail) {
      assert "" + rest == rest;
    }
  }

  // ----- a match cut in front of and behind the rest -----

  lemma OwnEnd(b: string, tail: seq<Term>)
    requires b != "" && IsQuantChar(b[0]) ==> b[0] == '+'
    requires ParseTerms(Taken(b)).Some? ==> ParseTerms(Taken(b)).value.0 == tail
    ensures EndsBehind(b, tail)
  {
    if Taken(b) != b { QuantifierParsesNot(b); }
    EndsWithItself(tail);
  }

  lemma CarriedTerms(f: string, b: string, tail: seq<Term>) returns (x: seq<Term>)
    requires Carries(f) && EndsBehind(b, tail) && ParseTerms(f + b).Some?
    ensures ParseTerms(f + b).value.0 == x + tail
  {
    assert EndsBehind(f + b, tail);
    x :| ParseTerms(f + b).value.0 == x + tail;
  }

  lemma KeptBehind(b: string, n: nat)
    requires Keeps(b, n)
    ensures Behind(b, [], n)
  {
    EndIsBehind();
    assert Behind(b + "", [], n + 0);
    assert b + "" == b;
  }

  lemma ParseBehind(f: string, b: string, n: nat) returns (x: seq<Term>, y: seq<Term>)
    requires Carries(f) && Keeps(b, n) && ParseTerms(f + b).Some?
    ensures ParseTerms(f + b).value.0 == x + y && PlusFree(y) && Least(y) >= n
  {
    KeptBehind(b, n);
    if ParseTerms(Taken(b)).None? {
      var ts := ParseTerms(f + b).value.0;
      OwnEnd(b, ts + [DOT]);
      x := CarriedTerms(f, b, ts + [DOT]);
      assert false;
    }
    y := ParseTerms(Taken(b)).value.0;
    OwnEnd(b, y);
    x := CarriedTerms(f, b, y);
    var z :| y == z + [] && PlusFree(z) && Least(z) >= n;
    assert z + [] == z;
  }

  /** What the text behind matches, whatever stands in front. */
  lemma CutBehind(f: string, b: string, n: nat, name: string) returns (j: nat)
    requires Carries(f) && Keeps(b, n) && RegexMatch(f + b, name)
    ensures j <= |name| && AtLeast(name[j..], n)
  {
    var x, y := ParseBehind(f, b, n);
    j := SplitMatch(x, y, name);
    TermsMatch(y, name[j..]);
  }

  /** What the text in front matches, whatever stands behind. */
  lemma CutBefore(a: string, m: nat, rest: string, name: string) returns (i: nat)
    requires Keeps(a, m) && FollowOk(rest) && RegexMatch(a + rest, name)
    ensures i <= |name| && AtLeast(name[..i], m)
  {
    RestParses(a, m, rest);
    var tail := ParseTerms(rest).value.0;
    LeadsTo(rest, tail);
    var x := ParseBefore(a, m, rest, tail);
    i := SplitMatch(x, tail, name);
    TermsMatch(x, name[..i]);
  }

  // ----- a '+' with something solid on its way to the rest -----

  /** Behind some '+' of the text there is a solid character. */
  ghost predicate SolidBehindPlus(x: string) {
    exists p :: 0 <= p < |x| && x[p] == '+' && Solid(x[p + 1..]) > 0
  }

  /** In front of some '+' of the text there is a solid character. */
  ghost predicate SolidBeforePlus(y: string) {
    exists p :: 0 <= p < |y| && y[p] == '+' && Solid(y[..p]) > 0
  }

  lemma NotUpToPlus(x: string, name: string, i: nat, p: nat)
    requires x <= name && i <= |name| && NoPlus(name[..i]) && p < |x| && x[p] == '+'
    ensures Solid(name[..i]) + Solid(x[p + 1..]) <= Solid(x)
  {
    assert name[p] == x[p];
    PlusAhead(name, i, p);
    PrefixSolid(x, name, i);
    SolidOfSuffix(x, i, p + 1);
  }

  lemma SolidOfSuffix(x: string, i: nat, k: nat)
    requires i <= k <= |x|
    ensures Solid(x[i..]) >= Solid(x[k..])
  {
    assert x[i..] == x[i..k] + x[k..];
    SolidConcat(x[i..k], x[k..]);
  }

  lemma FrontDefeats(a: string, x: string, rest: string, name: string)
    requires Keeps(a, Solid(x)) && FollowOk(rest) && x <= name && SolidBehindPlus(x)
    ensures !RegexMatch(a + rest, name)
  {
    if RegexMatch(a + rest, name) {
      var i := CutBefore(a, Solid(x), rest, name);
      var p: nat :| p < |x| && x[p] == '+' && Solid(x[p + 1..]) > 0;
      NotUpToPlus(x, name, i, p);
    }
  }

  lemma BackDefeats(f: string, b: string, y: string, front: string)
    requires Carries(f) && Keeps(b, Solid(y)) && SolidBeforePlus(y)
    ensures !RegexMatch(f + b, front + y)
  {
    var name := front + y;
    if RegexMatch(f + b, name) {
      var p :| 0 <= p < |y| && y[p] == '+' && Solid(y[..p]) > 0;
      var j := CutBehind(f, b, Solid(y), name);
      PlusPassed(name, j, |front| + p);
      var k := j - |front|;
      assert name[j..] == y[k..];
      SolidCuts(y, p, k);
    }
  }

  lemma PlusPassed(name: string, j: nat, p: nat)
    requires p < |name| && j <= |name| && name[p] == '+' && NoPlus(name[j..])
    ensures j > p
  {
    assert forall k :: j <= k < |name| ==> name[j..][k - j] == name[k];
  }

  // ----- piece by piece -----

  /** The first placeholder `k` is piece `i`. */
  predicate Opens(ps: seq<Piece>, i: nat, k: string)
    requires i < |ps|
  {
    ps[i] == Hole(k) && Hole(k) !in ps[..i]
  }

  lemma CarriesPiece(ps: seq<Piece>, c: FileNaming, pid: nat, proc: string, t: nat, k: nat)
    requires WellFormed(ps, FILE_KEYS) && InRange(t) && k < |ps|
    ensures Carries(Shown(PatternPieces(ps, c)[k]))
  {
    if Opens(ps, k, TIME) {
      TimeTexts(ps, c, pid, proc, t, k);
      TimeCarries();
    } else if Opens(ps, k, PROCNAME) {
      ProcessTexts(ps, c, pid, proc, t, k);
      ProcessCarries();
    } else {
      KeepsPiece(ps, c, pid, proc, t, k);
      KeepsCarries(Shown(PatternPieces(ps, c)[k]), Solid(Shown(NamePieces(ps, c, pid, proc, t)[k])));
    }
  }

  lemma ProcessTexts(ps: seq<Piece>, c: FileNaming, pid: nat, proc: string, t: nat, i: nat)
    requires i < |ps| && Opens(ps, i, PROCNAME)
    ensures Shown(PatternPieces(ps, c)[i]) == "(.*)"
    ensures Shown(NamePieces(ps, c, pid, proc, t)[i]) == proc
  {
    ProcessPair(c, pid, proc, t);
    KeysApart(PROCNAME);
    PiecePairs((a: string, b: string) => a == "(.*)" && b == proc, ps, c, pid, proc, t, i);
  }

  lemma ProcessPair(c: FileNaming, pid: nat, proc: string, t: nat)
    ensures PROCNAME in VOLATILE_KEYS && PROCNAME in FILE_KEYS && VolatileTable()[PROCNAME] == "(.*)"
    ensures (NameTable(c, pid, proc) + TimeTable(t))[PROCNAME] == proc
  {
    if PROCNAME in TIME_KEYS { TimeKeyNotName(PROCNAME); }
  }

  lemma {:induction false} CarriesFlat(pat: seq<Piece>)
    requires forall k :: 0 <= k < |pat| ==> Carries(Shown(pat[k]))
    ensures Carries(Flat(pat))
  {
    if pat == [] {
      NothingCarries();
    } else {
      CarriesFlat(pat[1..]);
      CarriesConcat(Shown(pat[0]), Flat(pat[1..]));
    }
  }

  ghost predicate KeptBetween(pat: seq<Piece>, name: seq<Piece>, i: nat, j: nat) {
    i <= j <= |pat| == |name| && forall k :: i <= k < j ==> Keeps(Shown(pat[k]), Solid(Shown(name[k])))
  }

  lemma FrontPlusUnmatched(pat: seq<Piece>, name: seq<Piece>, j: nat)
    requires AllKept(pat, name, j) && j < |pat| && Shown(pat[j]) == "(.*)"
    requires SolidBehindPlus(Flat(name[..j]))
    ensures !RegexMatch(Flat(pat), Flat(name))
  {
    KeepsFlat(pat[..j], name[..j]);
    FlatAt(pat, j);
    FlatAt(name, j);
    Regroup(Flat(pat[..j]), Shown(pat[j]), Flat(pat[j + 1..]));
    FrontDefeats(Flat(pat[..j]), Flat(name[..j]), Shown(pat[j]) + Flat(pat[j + 1..]), Flat(name));
  }

  lemma FlatCut(ps: seq<Piece>, j: nat)
    requires j <= |ps|
    ensures Flat(ps) == Flat(ps[..j]) + Flat(ps[j..])
  {
    assert ps == ps[..j] + ps[j..];
    FlatSplit(ps[..j], ps[j..]);
  }

  lemma KeepsFrom(pat: seq<Piece>, name: seq<Piece>, j: nat)
    requires KeptBetween(pat, name, j, |pat|)
    ensures Keeps(Flat(pat[j..]), Solid(Flat(name[j..])))
  {
    KeepsFlat(pat[j..], name[j..]);
  }

  lemma BackPlusUnmatched(pat: seq<Piece>, name: seq<Piece>, j: nat)
    requires j <= |pat| == |name| && KeptBetween(pat, name, j, |pat|)
    requires forall k :: 0 <= k < |pat| ==> Carries(Shown(pat[k]))
    requires SolidBeforePlus(Flat(name[j..]))
    ensures !RegexMatch(Flat(pat), Flat(name))
  {
    KeepsFrom(pat, name, j);
    CarriesFlat(pat[..j]);
    FlatCut(pat, j);
    FlatCut(name, j);
    BackDefeats(Flat(pat[..j]), Flat(pat[j..]), Flat(name[j..]), Flat(name[..j]));
  }

  lemma AllCarry(ps: seq<Piece>, c: FileNaming, pid: nat, proc: string, t: nat)
    requires WellFormed(ps, FILE_KEYS) && InRange(t)
    ensures forall k :: 0 <= k < |ps| ==> Carries(Shown(PatternPieces(ps, c)[k]))
  {
    forall k: nat | k < |ps| ensures Carries(Shown(PatternPieces(ps, c)[k])) {
      CarriesPiece(ps, c, pid, proc, t, k);
    }
  }

  /** No expression of `%%time` or `%%procname` from piece `i` on. */
  ghost predicate NoneWildFrom(ps: seq<Piece>, i: nat) {
    forall k :: i <= k < |ps| && (ps[k] == Hole(TIME) || ps[k] == Hole(PROCNAME)) ==> ps[k] in ps[..k]
  }

  lemma PiecesKeptFrom(ps: seq<Piece>, c: FileNaming, pid: nat, proc: string, t: nat, i: nat)
    requires WellFormed(ps, FILE_KEYS) && InRange(t) && i <= |ps| && NoneWildFrom(ps, i)
    ensures KeptBetween(PatternPieces(ps, c), NamePieces(ps, c, pid, proc, t), i, |ps|)
  {
    var pat, name := PatternPieces(ps, c), NamePieces(ps, c, pid, proc, t);
    forall k: nat | i <= k < |ps| ensures Keeps(Shown(pat[k]), Solid(Shown(name[k]))) {
      KeepsPiece(ps, c, pid, proc, t, k);
    }
  }

  /** A '+' in front of `%%procname` with something solid behind it, or behind with something solid in
      front: the name is not found, whatever else the format uses on the other side. */
  lemma PlusApartUnmatched(ps: seq<Piece>, c: FileNaming, pid: nat, proc: string, t: nat, j: nat)
    requires WellFormed(ps, FILE_KEYS) && InRange(t) && j < |ps| && Opens(ps, j, PROCNAME)
    requires var name := NamePieces(ps, c, pid, proc, t);
      || (NoneWild(ps, j) && SolidBehindPlus(Flat(name[..j])))
      || (NoneWildFrom(ps, j + 1) && SolidBeforePlus(Flat(name[j + 1..])))
    ensures !RegexMatch(Flat(PatternPieces(ps, c)), Flat(NamePieces(ps, c, pid, proc, t)))
  {
    var pat, name := PatternPieces(ps, c), NamePieces(ps, c, pid, proc, t);
    if NoneWild(ps, j) && SolidBehindPlus(Flat(name[..j])) {
      PiecesKept(ps, c, pid, proc, t, j);
      ProcessTexts(ps, c, pid, proc, t, j);
      FrontPlusUnmatched(pat, name, j);
    } else {
      PiecesKeptFrom(ps, c, pid, proc, t, j + 1);
      AllCarry(ps, c, pid, proc, t);
      BackPlusUnmatched(pat, name, j + 1);
    }
  }

  /** The same for every order of the four maps. */
  lemma PlusApartNotFound(ps: seq<Piece>, c: FileNaming, pid: nat, proc: string, t: nat, j: nat,
                          o1: seq<string>, o2: seq<string>, o3: seq<string>, o4: seq<string>)
    requires WellFormed(ps, FILE_KEYS) && PlainNaming(c) && CleanProcess(proc) && InRange(t)
    requires IsOrder(o1, NAME_KEYS) && IsOrder(o2, TIME_KEYS)
    requires IsOrder(o3, FIXED_NAME_KEYS) && IsOrder(o4, VOLATILE_KEYS)
    requires j < |ps| && Opens(ps, j, PROCNAME)
    requires var name := NamePieces(ps, c, pid, proc, t);
      || (NoneWild(ps, j) && SolidBehindPlus(Flat(name[..j])))
      || (NoneWildFrom(ps, j + 1) && SolidBeforePlus(Flat(name[j + 1..])))
    ensures !RegexMatch(ReplaceEach(Escape(ReplaceEach(Flat(ps), o3, FixedTable(c))), o4, VolatileTable()),
                        ReplaceEach(ReplaceEach(Flat(ps), o1, NameTable(c, pid, proc)), o2, TimeTable(t)))
  {
    NameIsFilled(ps, c, pid, proc, t, o1, o2);
    PatternIsFilled(ps, c, o3, o4);
    PlusApartUnmatched(ps, c, pid, proc, t, j);
  }

  // ----- formats in which every '+' is apart from `%%procname` -----

  predicate SolidLit(p: Piece) { p.Lit? && Solid(p.text) > 0 }

  /** Text of the format with a '+', or a configured text. */
  predicate MayHoldPlus(ps: seq<Piece>, k: nat)
    requires k < |ps|
  {
    match ps[k]
    case Lit(text) => !NoPlus(text)
    case Hole(key) => key in FIXED_NAME_KEYS && ps[k] !in ps[..k]
  }

  /** Between `%%procname` at `j` and every place that may hold a '+' there is solid text. */
  ghost predicate Guarded(ps: seq<Piece>, j: nat)
    requires j < |ps|
  {
    && (forall k :: 0 <= k < j && MayHoldPlus(ps, k) ==>
          (ps[k].Lit? && SolidBehindPlus(ps[k].text)) || exists g :: k < g < j && SolidLit(ps[g]))
    && (forall k :: j < k < |ps| && MayHoldPlus(ps, k) ==>
          (ps[k].Lit? && SolidBeforePlus(ps[k].text)) || exists g :: j < g < k && SolidLit(ps[g]))
  }

  /** Solid text without '+' on both sides is enough. */
  lemma GuardedByNeighbours(ps: seq<Piece>, j: nat)
    requires 0 < j && j + 1 < |ps|
    requires SolidLit(ps[j - 1]) && NoPlus(ps[j - 1].text) && SolidLit(ps[j + 1]) && NoPlus(ps[j + 1].text)
    ensures Guarded(ps, j)
  {
  }

  lemma PlusThenSolid(q: string, s: string, r: string)
    requires !NoPlus(s) && (Solid(r) > 0 || SolidBehindPlus(s))
    ensures SolidBehindPlus(q + s + r)
  {
    var p :| 0 <= p < |s| && s[p] == '+' && (Solid(r) > 0 || Solid(s[p + 1..]) > 0);
    var all, k := q + s + r, |q| + p;
    assert all[k + 1..] == s[p + 1..] + r;
    SolidConcat(s[p + 1..], r);
    assert all[k] == '+';
  }

  lemma SolidThenPlus(q: string, s: string, r: string)
    requires !NoPlus(s) && (Solid(q) > 0 || SolidBeforePlus(s))
    ensures SolidBeforePlus(q + s + r)
  {
    var p :| 0 <= p < |s| && s[p] == '+' && (Solid(q) > 0 || Solid(s[..p]) > 0);
    var all, k := q + s + r, |q| + p;
    assert all[..k] == q + s[..p];
    SolidConcat(q, s[..p]);
    assert all[k] == '+';
  }

  lemma SolidPiece(name: seq<Piece>, g: nat)
    requires g < |name| && Solid(Shown(name[g])) > 0
    ensures Solid(Flat(name)) > 0
  {
    FlatAt(name, g);
    SolidConcat(Flat(name[..g]) + Shown(name[g]), Flat(name[g + 1..]));
    SolidConcat(Flat(name[..g]), Shown(name[g]));
  }

  lemma PlusInFront(name: seq<Piece>, k: nat, j: nat, g: nat)
    requires k < j <= |name| && !NoPlus(Shown(name[k]))
    requires SolidBehindPlus(Shown(name[k])) || (k < g < j && Solid(Shown(name[g])) > 0)
    ensures SolidBehindPlus(Flat(name[..j]))
  {
    var front := name[..j];
    FlatAt(front, k);
    if k < g < j && Solid(Shown(name[g])) > 0 { SolidPiece(front[k + 1..], g - k - 1); }
    PlusThenSolid(Flat(front[..k]), Shown(front[k]), Flat(front[k + 1..]));
  }

  lemma PlusInBack(name: seq<Piece>, j: nat, k: nat, g: nat)
    requires j <= k < |name| && !NoPlus(Shown(name[k]))
    requires SolidBeforePlus(Shown(name[k])) || (j <= g < k && Solid(Shown(name[g])) > 0)
    ensures SolidBeforePlus(Flat(name[j..]))
  {
    var back := name[j..];
    var n := k - j;
    assert back[n] == name[k];
    if j <= g < k && Solid(Shown(name[g])) > 0 {
      assert back[..n][g - j] == name[g];
      SolidPiece(back[..n], g - j);
    }
    PlusAfter(back, n);
  }

  lemma PlusAfter(back: seq<Piece>, n: nat)
    requires n < |back| && !NoPlus(Shown(back[n]))
    requires SolidBeforePlus(Shown(back[n])) || Solid(Flat(back[..n])) > 0
    ensures SolidBeforePlus(Flat(back))
  {
    FlatAt(back, n);
    SolidThenPlus(Flat(back[..n]), Shown(back[n]), Flat(back[n + 1..]));
  }

  lemma LitShown(ps: seq<Piece>, c: FileNaming, pid: nat, proc: string, t: nat, k: nat)
    requires k < |ps| && ps[k].Lit?
    ensures Shown(NamePieces(ps, c, pid, proc, t)[k]) == ps[k].text
  {
  }

  lemma PlusIsApart(ps: seq<Piece>, c: FileNaming, pid: nat, proc: string, t: nat, j: nat, k: nat)
    requires WellFormed(ps, FILE_KEYS) && j < |ps| && Opens(ps, j, PROCNAME) && Guarded(ps, j)
    requires k < |ps| && k != j && !NoPlusAt(ps, c, k)
    ensures var name := NamePieces(ps, c, pid, proc, t);
      SolidBehindPlus(Flat(name[..j])) || SolidBeforePlus(Flat(name[j + 1..]))
  {
    var name := NamePieces(ps, c, pid, proc, t);
    PlusIsShown(ps, c, pid, proc, t, k);
    assert MayHoldPlus(ps, k);
    if ps[k].Lit? { LitShown(ps, c, pid, proc, t, k); }
    if k < j {
      var g := if g :| k < g < j && SolidLit(ps[g]) then g else k;
      if g != k { LitShown(ps, c, pid, proc, t, g); }
      PlusInFront(name, k, j, g);
    } else {
      var g := if g :| j < g < k && SolidLit(ps[g]) then g else k;
      if g != k { LitShown(ps, c, pid, proc, t, g); }
      PlusInBack(name, j + 1, k, g);
    }
  }

  // ----- main results -----

  /** The name can be told from the format: `%%time` is not behind `%%procname`, and without `%%time`
      solid text stands between `%%procname` and every place that may hold a '+'. */
  ghost predicate Told(ps: seq<Piece>) {
    if Hole(TIME) in ps then exists i :: 0 <= i < |ps| && ps[i] == Hole(TIME) && NoneWild(ps, i)
    else forall j :: 0 <= j < |ps| && Opens(ps, j, PROCNAME) ==> Guarded(ps, j)
  }

  lemma ProcessHoldsNoPlus(ps: seq<Piece>, c: FileNaming, j: nat)
    requires j < |ps| && ps[j] == Hole(PROCNAME)
    ensures NoPlusAt(ps, c, j)
  {
    ProcessPair(c, 0, "", 0);
    KeysApart(PROCNAME);
  }

  lemma LaterIsRepeated(ps: seq<Piece>, j: nat)
    requires j < |ps| && Opens(ps, j, PROCNAME) && Hole(TIME) !in ps
    ensures NoneWild(ps, j) && NoneWildFrom(ps, j + 1)
  {
    assert forall k :: j < k < |ps| ==> ps[..k][j] == ps[j];
  }

  lemma PlusUnmatched(pat: seq<Piece>, name: seq<Piece>, k: nat)
    requires AllKept(pat, name, |pat|) && k < |pat| && !NoPlus(Shown(name[k]))
    ensures !RegexMatch(Flat(pat), Flat(name))
  {
    KeepsFlat(pat, name);
    FlatAt(name, k);
    if RegexMatch(Flat(pat), Flat(name)) { KeptMatch(Flat(pat), Solid(Flat(name)), Flat(name)); }
  }

  lemma PlusNotFound(ps: seq<Piece>, c: FileNaming, pid: nat, proc: string, t: nat)
    requires WellFormed(ps, FILE_KEYS) && InRange(t) && Hole(TIME) !in ps && Told(ps) && !NoPlusInUse(ps, c)
    ensures !RegexMatch(Flat(PatternPieces(ps, c)), Flat(NamePieces(ps, c, pid, proc, t)))
  {
    var k: nat :| k < |ps| && !NoPlusAt(ps, c, k);
    if Hole(PROCNAME) in ps {
      var j := FirstOf(ps, Hole(PROCNAME));
      ProcessHoldsNoPlus(ps, c, j);
      LaterIsRepeated(ps, j);
      PlusIsApart(ps, c, pid, proc, t, j, k);
      PlusApartUnmatched(ps, c, pid, proc, t, j);
    } else {
      PlusIsShown(ps, c, pid, proc, t, k);
      PiecesKept(ps, c, pid, proc, t, |ps|);
      PlusUnmatched(PatternPieces(ps, c), NamePieces(ps, c, pid, proc, t), k);
    }
  }

  /** Main result: for all such formats, every configuration, process and time, and every order in which
      the four maps are walked, the pattern finds the name exactly if the format does not use `%%time`
      and no text in use holds a '+'. */
  lemma FoundExactly(ps: seq<Piece>, c: FileNaming, pid: nat, proc: string, t: nat,
                     o1: seq<string>, o2: seq<string>, o3: seq<string>, o4: seq<string>)
    requires WellFormed(ps, FILE_KEYS) && PlainNaming(c) && CleanProcess(proc) && InRange(t) && Told(ps)
    requires IsOrder(o1, NAME_KEYS) && IsOrder(o2, TIME_KEYS)
    requires IsOrder(o3, FIXED_NAME_KEYS) && IsOrder(o4, VOLATILE_KEYS)
    ensures RegexMatch(ReplaceEach(Escape(ReplaceEach(Flat(ps), o3, FixedTable(c))), o4, VolatileTable()),
                       ReplaceEach(ReplaceEach(Flat(ps), o1, NameTable(c, pid, proc)), o2, TimeTable(t)))
        <==> Hole(TIME) !in ps && NoPlusInUse(ps, c)
  {
    NameIsFilled(ps, c, pid, proc, t, o1, o2);
    PatternIsFilled(ps, c, o3, o4);
    if Hole(TIME) in ps {
      var i: nat :| i < |ps| && ps[i] == Hole(TIME) && NoneWild(ps, i);
      TimeNotFound(ps, c, pid, proc, t, i);
    } else if NoPlusInUse(ps, c) {
      PatternRecognisesName(ps, c, pid, proc, t, o1, o2, o3, o4);
    } else {
      PlusNotFound(ps, c, pid, proc, t);
    }
  }

  /** The same for whatever the two methods return. */
  lemma BuiltNameFoundExactly(ps: seq<Piece>, c: FileNaming, pid: nat, proc: string, t: nat,
                              name: string, pattern: string)
    requires c.format == Flat(ps) && WellFormed(ps, FILE_KEYS) && PlainNaming(c)
    requires CleanProcess(proc) && InRange(t) && Told(ps)
    requires IsFilename(c, pid, proc, t, name) && IsPattern(c, pattern)
    ensures RegexMatch(pattern, name) <==> Hole(TIME) !in ps && NoPlusInUse(ps, c)
  {
    var o1, o2 := FilenameOrders(c, pid, proc, t, name);
    var o3, o4 := PatternOrders(c, pattern);
    FoundExactly(ps, c, pid, proc, t, o1, o2, o3, o4);
  }

  // ----- the default format -----

  const PIECES1 := [Hole(PATH), Hole(PREFIX), Hole(FILENAME)]
  const PIECES2 := [Hole(TITLE), Lit("_"), Hole(DATE)]
  const PIECES3 := [Lit("_"), Hole(HOUR), Lit("-")]
  const PIECES4 := [Hole(MIN), Lit("-"), Hole(SEC)]
  const PIECES5 := [Lit("-"), Hole(MS), Lit("_")]
  const PIECES6 := [Hole(PROCNAME), Lit("_"), Hole(PID)]
  const DEFAULT_PIECES := PIECES1 + PIECES2 + PIECES3 + PIECES4 + PIECES5 + PIECES6 + [Hole(SUFFIX)]

  lemma FrontTexts()
    ensures PATH + PREFIX + FILENAME == "%%path%%prefix%%filename"
    ensures TITLE + "_" + DATE == "%%title_%%date"
    ensures "_" + HOUR + "-" == "_%%hour-"
  {
  }

  lemma BackTexts()
    ensures MIN + "-" + SEC == "%%min-%%sec"
    ensures "-" + MS + "_" == "-%%ms_"
    ensures PROCNAME + "_" + PID == "%%procname_%%pid"
  {
  }

  lemma AllTexts()
    ensures "%%path%%prefix%%filename" + "%%title_%%date" == DEFAULT_TEXTS
    ensures "_%%hour-" + "%%min-%%sec" + "-%%ms_" == DEFAULT_CLOCK
    ensures "%%procname_%%pid" + "%%suffix" == DEFAULT_PROCESS
  {
  }

  lemma RegroupSeven(a: string, b: string, c: string, d: string, e: string, f: string, g: string)
    ensures a + b + c + d + e + f + g == a + b + (c + d + e) + (f + g)
  {
  }

  lemma FrontFlat()
    ensures Flat(PIECES1) == "%%path%%prefix%%filename"
    ensures Flat(PIECES2) == "%%title_%%date"
    ensures Flat(PIECES3) == "_%%hour-"
  {
    FlatOfThree(Hole(PATH), Hole(PREFIX), Hole(FILENAME));
    FlatOfThree(Hole(TITLE), Lit("_"), Hole(DATE));
    FlatOfThree(Lit("_"), Hole(HOUR), Lit("-"));
    FrontTexts();
  }

  lemma BackFlat()
    ensures Flat(PIECES4) == "%%min-%%sec"
    ensures Flat(PIECES5) == "-%%ms_"
    ensures Flat(PIECES6) == "%%procname_%%pid"
    ensures Flat([Hole(SUFFIX)]) == "%%suffix"
  {
    FlatOfThree(Hole(MIN), Lit("-"), Hole(SEC));
    FlatOfThree(Lit("-"), Hole(MS), Lit("_"));
    FlatOfThree(Hole(PROCNAME), Lit("_"), Hole(PID));
    BackTexts();
    FlatOfOne(Hole(SUFFIX));
  }

  lemma FlatOfOne(p: Piece)
    ensures Flat([p]) == Shown(p)
  {
    assert [p][1..] == [];
  }

  lemma FlatOfSeven(a: seq<Piece>, b: seq<Piece>, c: seq<Piece>, d: seq<Piece>, e: seq<Piece>, f: seq<Piece>,
                    g: seq<Piece>)
    ensures Flat(a + b + c + d + e + f + g) == Flat(a) + Flat(b) + Flat(c) + Flat(d) + Flat(e) + Flat(f) + Flat(g)
  {
    FlatSplit(a, b);
    FlatSplit(a + b, c);
    FlatSplit(a + b + c, d);
    FlatSplit(a + b + c + d, e);
    FlatSplit(a + b + c + d + e, f);
    FlatSplit(a + b + c + d + e + f, g);
  }

  lemma DefaultFlat()
    ensures Flat(DEFAULT_PIECES) == DEFAULT_FILENAME_FORMAT
  {
    FlatOfSeven(PIECES1, PIECES2, PIECES3, PIECES4, PIECES5, PIECES6, [Hole(SUFFIX)]);
    FrontFlat();
    BackFlat();
    RegroupSeven(Flat(PIECES1), Flat(PIECES2), Flat(PIECES3), Flat(PIECES4), Flat(PIECES5), Flat(PIECES6), "%%suffix");
    AllTexts();
  }

  lemma DefaultWellFormed()
    ensures WellFormed(DEFAULT_PIECES, FILE_KEYS)
  {
  }

  lemma DefaultTold()
    ensures Hole(TIME) !in DEFAULT_PIECES && Told(DEFAULT_PIECES)
  {
    forall j | 0 <= j < |DEFAULT_PIECES| && Opens(DEFAULT_PIECES, j, PROCNAME) ensures Guarded(DEFAULT_PIECES, j) {
      assert j == 15;
      SolidChar('_');
      GuardedByNeighbours(DEFAULT_PIECES, 15);
    }
  }

  lemma FixedTexts(c: FileNaming)
    ensures FixedTable(c)[PATH] == c.path && FixedTable(c)[PREFIX] == c.prefix && FixedTable(c)[FILENAME] == c.filename
    ensures FixedTable(c)[TITLE] == c.title && FixedTable(c)[SUFFIX] == c.suffix
  {
  }

  lemma DefaultOpens()
    ensures |DEFAULT_PIECES| == 19
    ensures Opens(DEFAULT_PIECES, 0, PATH) && Opens(DEFAULT_PIECES, 1, PREFIX) && Opens(DEFAULT_PIECES, 2, FILENAME)
    ensures Opens(DEFAULT_PIECES, 3, TITLE) && Opens(DEFAULT_PIECES, 18, SUFFIX)
  {
  }

  lemma DefaultLits(i: nat)
    requires i < |DEFAULT_PIECES| && DEFAULT_PIECES[i].Lit?
    ensures NoPlus(DEFAULT_PIECES[i].text)
  {
  }

  lemma DefaultTexts(c: FileNaming)
    ensures NoPlusInUse(DEFAULT_PIECES, c) <==>
      NoPlus(c.path) && NoPlus(c.prefix) && NoPlus(c.filename) && NoPlus(c.title) && NoPlus(c.suffix)
  {
    FixedTexts(c);
    if NoPlusInUse(DEFAULT_PIECES, c) {
      DefaultOpens();
      UsedText(DEFAULT_PIECES, c, 0, PATH);
      UsedText(DEFAULT_PIECES, c, 1, PREFIX);
      UsedText(DEFAULT_PIECES, c, 2, FILENAME);
      UsedText(DEFAULT_PIECES, c, 3, TITLE);
      UsedText(DEFAULT_PIECES, c, 18, SUFFIX);
    }
    if NoPlus(c.path) && NoPlus(c.prefix) && NoPlus(c.filename) && NoPlus(c.title) && NoPlus(c.suffix) {
      forall i: nat | i < |DEFAULT_PIECES| ensures NoPlusAt(DEFAULT_PIECES, c, i) {
        if DEFAULT_PIECES[i].Lit? { DefaultLits(i); }
      }
    }
  }

  lemma UsedText(ps: seq<Piece>, c: FileNaming, i: nat, k: string)
    requires NoPlusInUse(ps, c) && i < |ps| && Opens(ps, i, k) && k in FIXED_NAME_KEYS
    ensures NoPlus(FixedTable(c)[k])
  {
    assert NoPlusAt(ps, c, i);
  }

  /** With the default format: exactly if none of the five configured texts holds a '+'. */
  lemma DefaultFoundExactly(c: FileNaming, pid: nat, proc: string, t: nat, name: string, pattern: string)
    requires c.format == DEFAULT_FILENAME_FORMAT && PlainNaming(c) && CleanProcess(proc) && InRange(t)
    requires IsFilename(c, pid, proc, t, name) && IsPattern(c, pattern)
    ensures RegexMatch(pattern, name) <==>
      NoPlus(c.path) && NoPlus(c.prefix) && NoPlus(c.filename) && NoPlus(c.title) && NoPlus(c.suffix)
  {
    DefaultFlat();
    DefaultWellFormed();
    DefaultTold();
    DefaultTexts(c);
    BuiltNameFoundExactly(DEFAULT_PIECES, c, pid, proc, t, name, pattern);
  }

  // ----- a '+' right beside `%%procname` -----

  lemma PlusCompiles(c: char)
    requires c != '+'
    ensures Compiles(EscapeChar(c) + "+", [Term(Chr(c), OneOrMore)])
  {
    var a := EscapeChar(c);
    forall rest | FollowOk(rest) ensures ParseAtom(a + ("+" + rest)) == Some((Chr(c), "+" + rest)) {
      assert (a + ("+" + rest))[|a|..] == "+" + rest;
    }
    forall rest | FollowOk(rest) ensures ParseQuant("+" + rest) == Some((OneOrMore, rest)) {
      assert ("+" + rest)[1..] == rest;
    }
    OneTermCompiles(a, "+", Chr(c), OneOrMore);
  }

  lemma OnceMatches(a: Atom, s: string)
    requires MatchAtom(a, s)
    ensures MatchTerm(Term(a, OneOrMore), s)
  {
    assert s[..|s|] == s && s[|s|..] == "";
    assert MatchTimes(a, 0, "");
    assert MatchTimes(a, 1, s);
  }

  /** The text without its '+' is matched. */
  lemma QuantifiedText(x: string)
    requires x != "" && NoPlus(x)
    ensures Fragment(Escape(x + "+"), x)
  {
    var n := |x| - 1;
    var c := x[n];
    assert x == x[..n] + [c] && forall d :: d in x[..n] ==> d in x;
    TextFragment(x[..n]);
    PlusCompiles(c);
    OnceMatches(Chr(c), [c]);
    TermFragment(EscapeChar(c) + "+", Term(Chr(c), OneOrMore), [c]);
    FragmentConcat(Escape(x[..n]), x[..n], EscapeChar(c) + "+", [c]);
    assert x + "+" == x[..n] + ([c] + "+");
    EscapeConcat(x[..n], [c] + "+");
    EscapeConcat([c], "+");
    EscapeOne(c);
    EscapeOne('+');
  }

  lemma EscapeOne(c: char)
    ensures Escape([c]) == EscapeChar(c)
  {
    assert [c][1..] == "" && EscapeChar(c) + "" == EscapeChar(c);
  }

  /** "(.*)+" */
  lemma RepeatedProcess(s: string)
    requires forall ch :: ch in s ==> !IsLineTerminator(ch)
    ensures Fragment("(.*)" + "+", s)
  {
    var t := Term(AnyChar, ZeroOrMore);
    AnythingCompiles();
    assert "(.*)" == "(" + ("." + "*") + ")";
    forall rest | FollowOk(rest) ensures ParseAtom("(.*)" + ("+" + rest)) == Some((Group([t]), "+" + rest)) {
      GroupParses("." + "*", [t], "+" + rest);
    }
    forall rest | FollowOk(rest) ensures ParseQuant("+" + rest) == Some((OneOrMore, rest)) {
      assert ("+" + rest)[1..] == rest;
    }
    OneTermCompiles("(.*)", "+", Group([t]), OneOrMore);
    AnyMatch(s);
    MatchOne(t, s);
    OnceMatches(Group([t]), s);
    TermFragment("(.*)" + "+", Term(Group([t]), OneOrMore), s);
  }

  lemma BesideBefore(x: string, proc: string)
    requires x != "" && NoPlus(x) && CleanProcess(proc)
    ensures Fragment(Escape(x + "+") + "(.*)", x + "+" + proc)
  {
    QuantifiedText(x);
    ProcFragment("+" + proc);
    FragmentConcat(Escape(x + "+"), x, "(.*)", "+" + proc);
    Regroup(x, "+", proc);
  }

  lemma BesideBehind(proc: string, x: string)
    requires NoPlus(x) && CleanProcess(proc)
    ensures Fragment("(.*)" + Escape("+" + x), proc + ("+" + x))
  {
    RepeatedProcess(proc + "+");
    TextFragment(x);
    FragmentConcat("(.*)" + "+", proc + "+", Escape(x), x);
    EscapeConcat("+", x);
    EscapeOne('+');
    Regroup("(.*)", "+", Escape(x));
    Regroup(proc, "+", x);
  }

  lemma FoundAcross(pat: seq<Piece>, name: seq<Piece>, i: nat)
    requires i + 1 < |pat| == |name|
    requires forall k :: 0 <= k < |pat| && k != i && k != i + 1 ==> Fragment(Shown(pat[k]), Shown(name[k]))
    requires Fragment(Shown(pat[i]) + Shown(pat[i + 1]), Shown(name[i]) + Shown(name[i + 1]))
    ensures RegexMatch(Flat(pat), Flat(name))
  {
    FragmentsFlat(pat[..i], name[..i]);
    FragmentsFlat(pat[i + 2..], name[i + 2..]);
    FlatAcross(pat, i);
    FlatAcross(name, i);
    var a, x := Shown(pat[i]) + Shown(pat[i + 1]), Shown(name[i]) + Shown(name[i + 1]);
    FragmentConcat(Flat(pat[..i]), Flat(name[..i]), a, x);
    FragmentConcat(Flat(pat[..i]) + a, Flat(name[..i]) + x, Flat(pat[i + 2..]), Flat(name[i + 2..]));
    FragmentMatches(Flat(pat), Flat(name));
  }

  lemma FlatAcross(ps: seq<Piece>, i: nat)
    requires i + 1 < |ps|
    ensures Flat(ps) == Flat(ps[..i]) + (Shown(ps[i]) + Shown(ps[i + 1])) + Flat(ps[i + 2..])
  {
    FlatAt(ps, i);
    var rest := ps[i + 1..];
    assert rest[0] == ps[i + 1] && rest[1..] == ps[i + 2..];
    RegroupAcross(Flat(ps[..i]), Shown(ps[i]), Shown(ps[i + 1]), Flat(ps[i + 2..]));
  }

  lemma RegroupAcross(a: string, b: string, c: string, d: string)
    ensures a + b + (c + d) == a + (b + c) + d
  {
  }

  /** One '+' right beside `%%procname`, no other one in use. */
  ghost predicate PlusBeside(ps: seq<Piece>, c: FileNaming, i: nat) {
    && i + 1 < |ps|
    && (PlusBefore(ps, c, i) || PlusBehind(ps, c, i))
    && (forall k :: 0 <= k < |ps| && k != i && k != i + 1 ==> NoPlusAt(ps, c, k))
  }

  ghost predicate PlusBefore(ps: seq<Piece>, c: FileNaming, i: nat)
    requires i + 1 < |ps|
  {
    && Opens(ps, i + 1, PROCNAME)
    && exists x :: TextAt(ps, c, i) == Some(x + "+") && x != "" && NoPlus(x)
  }

  ghost predicate PlusBehind(ps: seq<Piece>, c: FileNaming, i: nat)
    requires i + 1 < |ps|
  {
    && Opens(ps, i, PROCNAME)
    && exists x :: TextAt(ps, c, i + 1) == Some("+" + x) && NoPlus(x)
  }

  lemma BesideFragment(ps: seq<Piece>, c: FileNaming, pid: nat, proc: string, t: nat, i: nat)
    requires WellFormed(ps, FILE_KEYS) && PlusBeside(ps, c, i) && CleanProcess(proc)
    ensures var pat, name := PatternPieces(ps, c), NamePieces(ps, c, pid, proc, t);
      Fragment(Shown(pat[i]) + Shown(pat[i + 1]), Shown(name[i]) + Shown(name[i + 1]))
  {
    if PlusBefore(ps, c, i) {
      var x :| TextAt(ps, c, i) == Some(x + "+") && x != "" && NoPlus(x);
      TextShows(ps, c, pid, proc, t, i);
      ProcessTexts(ps, c, pid, proc, t, i + 1);
      BesideBefore(x, proc);
    } else {
      var x :| TextAt(ps, c, i + 1) == Some("+" + x) && NoPlus(x);
      ProcessTexts(ps, c, pid, proc, t, i);
      TextShows(ps, c, pid, proc, t, i + 1);
      BesideBehind(proc, x);
    }
  }

  /** There the '+' repeats the character before it, or the process name, and `(.*)` takes the '+' of
      the name: such a name is found. */
  lemma FoundWithPlusBeside(ps: seq<Piece>, c: FileNaming, pid: nat, proc: string, t: nat, i: nat,
                            o1: seq<string>, o2: seq<string>, o3: seq<string>, o4: seq<string>)
    requires WellFormed(ps, FILE_KEYS) && PlainNaming(c) && CleanProcess(proc) && InRange(t)
    requires Hole(TIME) !in ps && PlusBeside(ps, c, i)
    requires IsOrder(o1, NAME_KEYS) && IsOrder(o2, TIME_KEYS)
    requires IsOrder(o3, FIXED_NAME_KEYS) && IsOrder(o4, VOLATILE_KEYS)
    ensures RegexMatch(ReplaceEach(Escape(ReplaceEach(Flat(ps), o3, FixedTable(c))), o4, VolatileTable()),
                       ReplaceEach(ReplaceEach(Flat(ps), o1, NameTable(c, pid, proc)), o2, TimeTable(t)))
  {
    NameIsFilled(ps, c, pid, proc, t, o1, o2);
    PatternIsFilled(ps, c, o3, o4);
    BesideFragment(ps, c, pid, proc, t, i);
    OthersFragments(ps, c, pid, proc, t, i);
    FoundAcross(PatternPieces(ps, c), NamePieces(ps, c, pid, proc, t), i);
  }

  lemma OthersFragments(ps: seq<Piece>, c: FileNaming, pid: nat, proc: string, t: nat, i: nat)
    requires WellFormed(ps, FILE_KEYS) && CleanProcess(proc) && InRange(t) && Hole(TIME) !in ps && PlusBeside(ps, c, i)
    ensures var pat, name := PatternPieces(ps, c), NamePieces(ps, c, pid, proc, t);
      forall k :: 0 <= k < |ps| && k != i && k != i + 1 ==> Fragment(Shown(pat[k]), Shown(name[k]))
  {
    var pat, name := PatternPieces(ps, c), NamePieces(ps, c, pid, proc, t);
    forall k: nat | k < |ps| && k != i && k != i + 1 ensures Fragment(Shown(pat[k]), Shown(name[k])) {
      assert ps[k] in ps;
      PieceFragment(ps, c, pid, proc, t, k);
    }
  }
}
