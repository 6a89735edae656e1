/**
 `replace_all` of StringHelpers.h: a loop of find and replace on one buffer, going on behind
 the text just inserted.
 */
module Replacement {
  import opened Text

  // ----- the independent definition: cutting at the leftmost occurrences -----

  /** The stretches between the leftmost non-overlapping occurrences of `what`. */
  ghost function Cut(s: string, what: string): (pieces: seq<string>)
    requires what != ""
    ensures |pieces| >= 1
    decreases |s|
  {
    match Find(s, what, 0)
    case None => [s]
    case Some(i) => [s[..i]] + Cut(s[i + |what|..], what)
  }

  function Join(pieces: seq<string>, glue: string): (s: string) {
    if |pieces| == 0 then ""
    else if |pieces| == 1 then pieces[0]
    else pieces[0] + glue + Join(pieces[1..], glue)
  }

  ghost predicate Absent(s: string, what: string) {
    forall i: nat :: !OccursAt(s, what, i)
  }

  /** In `piece + what` the glue is found at the very end and not before. */
  ghost predicate FirstAtEnd(piece: string, what: string) {
    forall i: nat :: i < |piece| ==> !OccursAt(piece + what, what, i)
  }

  /** Every piece stops at the first place the glue can be found; the last one has none. */
  ghost predicate LeftmostCut(pieces: seq<string>, what: string) {
    && |pieces| >= 1
    && (if |pieces| == 1 then Absent(pieces[0], what)
        else FirstAtEnd(pieces[0], what) && LeftmostCut(pieces[1..], what))
  }

  lemma FirstOccurrenceEndsPiece(s: string, what: string, i: nat)
    requires Find(s, what, 0) == Some(i)
    ensures s == s[..i] + what + s[i + |what|..] && FirstAtEnd(s[..i], what)
  {
    var head := s[..i + |what|];
    assert s[..i] + what == head;
    forall j: nat | j < i ensures !OccursAt(head, what, j) {
      assert !OccursAt(s, what, j);
      SliceOfTake(s, i + |what|, j, |what|);
    }
  }

  lemma SliceOfTake(s: string, p: nat, i: nat, n: nat)
    requires i + n <= p <= |s|
    ensures s[..p][i..i + n] == s[i..i + n]
  {
  }

  lemma PieceEndsAtFirstOccurrence(piece: string, what: string, rest: string)
    requires what != "" && FirstAtEnd(piece, what)
    ensures Find(piece + what + rest, what, 0) == Some(|piece|)
  {
    var s := piece + what + rest;
    assert s[|piece|..|piece| + |what|] == what;
    forall j: nat | j < |piece| ensures !OccursAt(s, what, j) {
      assert s[j..j + |what|] == (piece + what)[j..j + |what|];
      assert !OccursAt(piece + what, what, j);
    }
    FindIs(s, what, |piece|);
  }

  lemma {:induction false} CutIsLeftmost(s: string, what: string)
    requires what != ""
    ensures Join(Cut(s, what), what) == s && LeftmostCut(Cut(s, what), what)
    decreases |s|
  {
    match Find(s, what, 0)
    case None =>
    case Some(i) =>
      FirstOccurrenceEndsPiece(s, what, i);
      CutIsLeftmost(s[i + |what|..], what);
      assert Cut(s, what)[1..] == Cut(s[i + |what|..], what);
  }

  /** There is only one such cut, so the definition fixes which occurrences are replaced. */
  lemma {:induction false} LeftmostCutUnique(pieces: seq<string>, what: string)
    requires what != "" && LeftmostCut(pieces, what)
    ensures pieces == Cut(Join(pieces, what), what)
    decreases |pieces|
  {
    if |pieces| > 1 {
      var rest := Join(pieces[1..], what);
      PieceEndsAtFirstOccurrence(pieces[0], what, rest);
      LeftmostCutUnique(pieces[1..], what);
      BackToParts(pieces[0], what, rest);
    }
  }

  lemma BackToParts(piece: string, what: string, rest: string)
    ensures (piece + what + rest)[|piece| + |what|..] == rest && (piece + what + rest)[..|piece|] == piece
  {
  }

  lemma {:induction false} JoinLength(pieces: seq<string>, a: string, b: string)
    requires |pieces| >= 1
    ensures |Join(pieces, b)| == |Join(pieces, a)| + (|pieces| - 1) * (|b| - |a|)
    decreases |pieces|
  {
    if |pieces| > 1 {
      JoinLength(pieces[1..], a, b);
      assert (|pieces| - 1) * (|b| - |a|) == (|pieces[1..]| - 1) * (|b| - |a|) + (|b| - |a|);
    }
  }

  /** Leftmost non-overlapping substitution. */
  ghost function Substitute(s: string, what: string, with: string): (r: string)
    requires what != ""
    decreases |s|
  {
    match Find(s, what, 0)
    case None => s
    case Some(i) => s[..i] + with + Substitute(s[i + |what|..], what, with)
  }

  lemma JoinCons(first: string, pieces: seq<string>, glue: string)
    requires |pieces| >= 1
    ensures Join([first] + pieces, glue) == first + glue + Join(pieces, glue)
  {
    assert ([first] + pieces)[1..] == pieces;
  }

  /** Substituting is cutting at the leftmost occurrences and gluing with the replacement. */
  lemma {:induction false} SubstituteIsJoin(s: string, what: string, with: string)
    requires what != ""
    ensures Substitute(s, what, with) == Join(Cut(s, what), with)
    decreases |s|
  {
    match Find(s, what, 0)
    case None =>
    case Some(i) =>
      SubstituteIsJoin(s[i + |what|..], what, with);
      JoinCons(s[..i], Cut(s[i + |what|..], what), with);
  }

  /** Searching the buffer from `pos` is searching what lies behind `pos`. */
  lemma FindFrom(s: string, what: string, pos: nat)
    requires pos <= |s|
    ensures Find(s, what, pos).None? <==> Find(s[pos..], what, 0).None?
    ensures Find(s, what, pos).Some? ==> Find(s[pos..], what, 0) == Some(Find(s, what, pos).value - pos)
  {
    forall i: nat ensures OccursAt(s[pos..], what, i) <==> OccursAt(s, what, pos + i) {
      OccursBehind(s, what, pos, i);
    }
    if Find(s, what, pos).Some? {
      var at := Find(s, what, pos).value;
      assert OccursAt(s[pos..], what, at - pos);
      forall j: nat | j < at - pos ensures !OccursAt(s[pos..], what, j) {
        assert !OccursAt(s, what, pos + j);
      }
      FindIs(s[pos..], what, at - pos);
    }
  }

  /** "What is done, then the substitution of the rest" is the whole result, and the count and
      the cuts still to come make up all cuts. */
  ghost predicate DoneUpTo(text: string, what: string, with: string, done: string, rest: string, count: nat)
    requires what != ""
  {
    && done + Substitute(rest, what, with) == Substitute(text, what, with)
    && count + |Cut(rest, what)| == |Cut(text, what)|
  }

  lemma EditGoesOn(text: string, what: string, with: string, done: string, rest: string, count: nat, i: nat)
    requires what != "" && DoneUpTo(text, what, with, done, rest, count) && Find(rest, what, 0) == Some(i)
    ensures DoneUpTo(text, what, with, done + (rest[..i] + with), rest[i + |what|..], count + 1)
  {
    Regroup(done, rest[..i] + with, Substitute(rest[i + |what|..], what, with));
  }

  lemma EditEnds(text: string, what: string, with: string, done: string, rest: string, count: nat)
    requires what != "" && DoneUpTo(text, what, with, done, rest, count) && Find(rest, what, 0) == None
    ensures done + rest == Substitute(text, what, with) && count == |Cut(text, what)| - 1
  {
  }

  /** An edit behind `done`, in terms of what is done and what is left. */
  lemma SpliceFacts(s: string, done: string, rest: string, i: nat, len: nat, with: string)
    requires |done| <= |s| && s[..|done|] == done && s[|done|..] == rest && i + len <= |rest|
    ensures var edited, next := Splice(s, |done| + i, len, with), |done| + i + |with|;
            edited[..next] == done + (rest[..i] + with) && edited[next..] == rest[i + len..]
  {
    assert s == done + rest;
    assert s[..|done| + i] == done + rest[..i];
    assert s[|done| + i + len..] == rest[i + len..];
    Regroup(done, rest[..i], with);
  }

  lemma FindInRest(s: string, pos: nat, rest: string, what: string)
    requires pos <= |s| && s[pos..] == rest
    ensures Find(rest, what, 0).None? ==> Find(s, what, pos) == None
    ensures Find(rest, what, 0).Some? ==> Find(s, what, pos) == Some(pos + Find(rest, what, 0).value)
  {
    FindFrom(s, what, pos);
  }

  lemma SubstituteLength(text: string, what: string, with: string)
    requires what != ""
    ensures |Substitute(text, what, with)| == |text| + (|Cut(text, what)| - 1) * (|with| - |what|)
  {
    CutIsLeftmost(text, what);
    SubstituteIsJoin(text, what, with);
    JoinLength(Cut(text, what), what, with);
  }

  /** What holds of the buffer whenever the search goes on behind `done`. */
  ghost predicate Editing(text: string, what: string, with: string, s: string, done: string, rest: string, count: nat)
    requires what != ""
  {
    && |done| <= |s| && s[..|done|] == done && s[|done|..] == rest
    && DoneUpTo(text, what, with, done, rest, count)
  }

  lemma EditStep(text: string, what: string, with: string, s: string, done: string, rest: string, count: nat)
    requires what != "" && Editing(text, what, with, s, done, rest, count) && Find(rest, what, 0).Some?
    ensures var i := Find(rest, what, 0).value;
            var next := done + (rest[..i] + with);
            && Find(s, what, |done|) == Some(|done| + i)
            && |next| == |done| + i + |with|
            && Editing(text, what, with, Splice(s, |done| + i, |what|, with), next, rest[i + |what|..], count + 1)
  {
    FindInRest(s, |done|, rest, what);
    EditGoesOn(text, what, with, done, rest, count, Find(rest, what, 0).value);
    SpliceFacts(s, done, rest, Find(rest, what, 0).value, |what|, with);
  }

  lemma EditDone(text: string, what: string, with: string, s: string, done: string, rest: string, count: nat)
    requires what != "" && Editing(text, what, with, s, done, rest, count) && Find(rest, what, 0).None?
    ensures Find(s, what, |done|) == None
    ensures s == Substitute(text, what, with) && count == |Cut(text, what)| - 1
    ensures |s| == |text| + count * (|with| - |what|)
  {
    FindInRest(s, |done|, rest, what);
    EditEnds(text, what, with, done, rest, count);
    assert s == done + rest;
    SubstituteLength(text, what, with);
  }

  /** The next edit: what is finished then, and what is left to search. */
  lemma EditNext(text: string, what: string, with: string, s: string, done: string, rest: string, count: nat,
                 found: nat)
    returns (longer: string, shorter: string)
    requires what != "" && Editing(text, what, with, s, done, rest, count) && Find(s, what, |done|) == Some(found)
    ensures found + |what| <= |s| && |longer| == found + |with| && |shorter| < |rest|
    ensures Editing(text, what, with, Splice(s, found, |what|, with), longer, shorter, count + 1)
  {
    FindInRest(s, |done|, rest, what);
    var i := Find(rest, what, 0).value;
    EditStep(text, what, with, s, done, rest, count);
    longer, shorter := done + (rest[..i] + with), rest[i + |what|..];
  }

  lemma EditLast(text: string, what: string, with: string, s: string, done: string, rest: string, count: nat)
    requires what != "" && Editing(text, what, with, s, done, rest, count) && Find(s, what, |done|) == None
    ensures s == Substitute(text, what, with) && count == |Cut(text, what)| - 1
    ensures |s| == |text| + count * (|with| - |what|)
  {
    FindInRest(s, |done|, rest, what);
    EditDone(text, what, with, s, done, rest, count);
  }

  /** The buffer edit itself. It stops although `with` may contain `what`, because the search
      goes on behind the inserted text. */
  method ReplaceAll(text: string, what: string, with: string) returns (inout: string, count: nat)
    requires what != ""
    ensures inout == Substitute(text, what, with)
    ensures count == |Cut(text, what)| - 1
    ensures |inout| == |text| + count * (|with| - |what|)
  {
    inout, count := text, 0;
    var pos: nat := 0;
    ghost var done, rest := "", text;
    var found := StringFind(inout, what, pos);
    while found.Some?
      invariant pos == |done| && Editing(text, what, with, inout, done, rest, count)
      invariant found == Find(inout, what, pos)
      decreases |rest|
    {
      done, rest := EditNext(text, what, with, inout, done, rest, count, found.value);
      var at := found.value;
      inout := Splice(inout, at, |what|, with);
      pos, count := at + |with|, count + 1;
      found := StringFind(inout, what, pos);
    }
    EditLast(text, what, with, inout, done, rest, count);
  }

  // ----- with an empty search text the loop never stops -----

  /** The loop state at the head of an iteration. */
  datatype Loop = Loop(text: string, pos: nat)

  /** One iteration; `None` is the exit. */
  ghost function Iterate(l: Loop, what: string, with: string): (r: Option<Loop>) {
    if l.pos > |l.text| then None
    else
      match Find(l.text, what, l.pos)
      case None => None
      case Some(at) => Some(Loop(Splice(l.text, at, |what|, with), at + |with|))
  }

  ghost function Iterations(l: Loop, what: string, with: string, n: nat): (r: Option<Loop>)
    decreases n
  {
    if n == 0 then Some(l)
    else match Iterate(l, what, with)
      case None => None
      case Some(next) => Iterations(next, what, with, n - 1)
  }

  lemma {:induction false} EmptySearchGoesOn(l: Loop, with: string, n: nat)
    requires l.pos <= |l.text|
    ensures Iterations(l, "", with, n).Some?
    decreases n
  {
    if n > 0 {
      assert OccursAt(l.text, "", l.pos);
      EmptySearchGoesOn(Iterate(l, "", with).value, with, n - 1);
    }
  }

  lemma {:induction false} NonEmptySearchStops(l: Loop, what: string, with: string)
    requires what != "" && l.pos <= |l.text|
    ensures Iterations(l, what, with, |l.text| - l.pos + 1).None?
    decreases |l.text| - l.pos
  {
    if Iterate(l, what, with).Some? {
      var next := Iterate(l, what, with).value;
      NonEmptySearchStops(next, what, with);
      MoreIterations(next, what, with, |next.text| - next.pos + 1, |l.text| - l.pos);
    }
  }

  lemma {:induction false} MoreIterations(l: Loop, what: string, with: string, m: nat, n: nat)
    requires m <= n && Iterations(l, what, with, m).None?
    ensures Iterations(l, what, with, n).None?
    decreases m
  {
    if Iterate(l, what, with).Some? {
      MoreIterations(Iterate(l, what, with).value, what, with, m - 1, n - 1);
    }
  }

  /** For every text and replacement, the loop ends exactly when the search text is not empty. */
  lemma StopsExactlyOnNonEmptySearch(text: string, what: string, with: string)
    ensures what != "" <==> exists n :: Iterations(Loop(text, 0), what, with, n).None?
  {
    if what != "" {
      NonEmptySearchStops(Loop(text, 0), what, with);
    } else {
      forall n: nat ensures Iterations(Loop(text, 0), what, with, n).Some? {
        EmptySearchGoesOn(Loop(text, 0), with, n);
      }
    }
  }
}
