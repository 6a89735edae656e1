/**
 The wildcard matcher of StringHelpers.h: '*' stands for any sequence, '?' for any one
 character. The matcher keeps a single backtrack point, the last star.
 */
module Wildcard {

  /** The language a pattern denotes. */
  ghost predicate Matches(pattern: string, str: string)
    decreases |pattern|, |str|
  {
    if pattern == "" then str == ""
    else if pattern[0] == '*' then
      Matches(pattern[1..], str) || (str != "" && Matches(pattern, str[1..]))
    else
      str != "" && (pattern[0] == '?' || pattern[0] == str[0]) && Matches(pattern[1..], str[1..])
  }

  /** The four local variables of the loop; `star == -1` stands for `npos`. */
  datatype Cursor = Cursor(p: nat, s: nat, star: int, back: nat)

  ghost predicate InRange(pattern: string, str: string, c: Cursor) {
    && c.p <= |pattern|
    && c.back <= c.s <= |str|
    && -1 <= c.star < c.p
    && (c.star >= 0 ==> pattern[c.star] == '*' && c.p - (c.star + 1) == c.s - c.back)
    && (c.star < 0 ==> c.back == 0 && c.p == c.s)
  }

  /** One iteration of the main loop; `None` is the early `return false`. */
  datatype StepResult = Next(cursor: Cursor) | Fail

  function Step(pattern: string, str: string, c: Cursor): (r: StepResult)
    requires c.s < |str|
  {
    if c.p < |pattern| && (pattern[c.p] == str[c.s] || pattern[c.p] == '?') then
      Next(c.(p := c.p + 1, s := c.s + 1))
    else if c.p < |pattern| && pattern[c.p] == '*' then
      Next(Cursor(c.p + 1, c.s, c.p, c.s))
    else if c.star >= 0 then
      Next(Cursor(c.star + 1, c.back + 1, c.star, c.back + 1))
    else
      Fail
  }

  ghost predicate OnlyStars(pattern: string) { forall i :: 0 <= i < |pattern| ==> pattern[i] == '*' }

  /** What the loop returns from a given cursor. */
  ghost predicate Scan(pattern: string, str: string, c: Cursor)
    requires InRange(pattern, str, c)
    decreases |str| - c.back, |pattern| - c.p
  {
    if c.s < |str| then
      match Step(pattern, str, c)
      case Next(d) => Scan(pattern, str, d)
      case Fail => false
    else
      OnlyStars(pattern[c.p..])
  }

  const START := Cursor(0, 0, -1, 0)

  /** What `matches_wildcard` returns. */
  ghost predicate Greedy(pattern: string, str: string) {
    Scan(pattern, str, START)
  }

  /** (backtrack position, pattern position), read as one number. */
  ghost function Rank(pattern: string, c: Cursor): (r: nat) {
    c.back * (|pattern| + 1) + c.p
  }

  /** Every continuing branch stays in range and moves the pair up lexicographically. */
  lemma StepRaisesRank(pattern: string, str: string, c: Cursor)
    requires InRange(pattern, str, c) && c.s < |str|
    ensures Step(pattern, str, c).Next? ==>
              var d := Step(pattern, str, c).cursor;
              InRange(pattern, str, d) && Rank(pattern, c) < Rank(pattern, d)
  {
    var w := |pattern| + 1;
    if Step(pattern, str, c).Next? {
      var d := Step(pattern, str, c).cursor;
      if d.back > c.back {
        assert d.back * w >= (c.back + 1) * w == c.back * w + w by { Monotone(c.back + 1, d.back, w); }
      }
    }
  }

  lemma RankBound(pattern: string, str: string, c: Cursor)
    requires InRange(pattern, str, c)
    ensures Rank(pattern, c) < (|str| + 1) * (|pattern| + 1)
  {
    var w := |pattern| + 1;
    Monotone(c.back, |str|, w);
    assert (|str| + 1) * w == |str| * w + w;
  }

  lemma Monotone(a: nat, b: nat, k: nat)
    requires a <= b
    ensures a * k <= b * k
  {
  }

  lemma Decides(pattern: string, str: string)
    ensures Greedy(pattern, str) ==> Matches(pattern, str)
    ensures '*' !in str || '*' !in pattern ==> (Greedy(pattern, str) <==> Matches(pattern, str))
  {
    GreedySound(pattern, str);
    if '*' !in str || '*' !in pattern {
      GreedyComplete(pattern, str);
    }
  }

  /** What the loop keeps: the cursor is in range, the outcome is still that of the whole, and
      no more iterations are spent than the rank allows. */
  ghost predicate Scanning(pattern: string, str: string, c: Cursor, steps: nat) {
    InRange(pattern, str, c) && Scan(pattern, str, c) == Greedy(pattern, str) && steps <= Rank(pattern, c)
  }

  lemma ScanningStep(pattern: string, str: string, c: Cursor, steps: nat)
    requires Scanning(pattern, str, c, steps) && c.s < |str|
    ensures Step(pattern, str, c).Next? ==> Scanning(pattern, str, Step(pattern, str, c).cursor, steps + 1)
    ensures Step(pattern, str, c).Fail? ==> !Greedy(pattern, str)
    ensures steps < (|str| + 1) * (|pattern| + 1)
    ensures 0 <= c.back && c.star < |pattern|
  {
    StepRaisesRank(pattern, str, c);
    RankBound(pattern, str, c);
  }

  lemma ScanningEnd(pattern: string, str: string, c: Cursor, steps: nat)
    requires Scanning(pattern, str, c, steps) && c.s >= |str|
    ensures c.p <= |pattern| && (Greedy(pattern, str) <==> OnlyStars(pattern[c.p..]))
    ensures steps < (|str| + 1) * (|pattern| + 1)
  {
    RankBound(pattern, str, c);
  }

  method MatchesWildcard(pattern: string, str: string) returns (r: bool, ghost steps: nat)
    ensures r == Greedy(pattern, str)
    ensures steps <= (|str| + 1) * (|pattern| + 1)
    ensures r ==> Matches(pattern, str)
    ensures '*' !in str || '*' !in pattern ==> (r <==> Matches(pattern, str))
  {
    steps := 0;
    var patternPos, strPos := 0, 0;
    var lastStarPos, backtrackStrPos := -1, 0;
    ghost var cursor := START;
    while strPos < |str|
      invariant cursor == Cursor(patternPos, strPos, lastStarPos, backtrackStrPos)
      invariant Scanning(pattern, str, cursor, steps)
      decreases |str| - backtrackStrPos, |pattern| - patternPos
    {
      ScanningStep(pattern, str, cursor, steps);
      steps := steps + 1;
      if patternPos < |pattern| && (pattern[patternPos] == str[strPos] || pattern[patternPos] == '?') {
        patternPos, strPos := patternPos + 1, strPos + 1;
      } else if patternPos < |pattern| && pattern[patternPos] == '*' {
        lastStarPos, patternPos := patternPos, patternPos + 1;
        backtrackStrPos := strPos;
      } else if lastStarPos != -1 {
        patternPos := lastStarPos + 1;
        backtrackStrPos := backtrackStrPos + 1;
        strPos := backtrackStrPos;
      } else {
        Decides(pattern, str);
        return false, steps;
      }
      cursor := Cursor(patternPos, strPos, lastStarPos, backtrackStrPos);
    }
    ScanningEnd(pattern, str, cursor, steps);
    Decides(pattern, str);
    r := SkipTrailingStars(pattern, patternPos);
  }

  /** The second loop: what is left of the pattern must be stars. */
  method SkipTrailingStars(pattern: string, start: nat) returns (r: bool)
    requires start <= |pattern|
    ensures r <==> OnlyStars(pattern[start..])
  {
    var patternPos := start;
    while patternPos < |pattern| && pattern[patternPos] == '*'
      invariant start <= patternPos <= |pattern|
      invariant forall i :: start <= i < patternPos ==> pattern[i] == '*'
    {
      patternPos := patternPos + 1;
    }
    r := patternPos == |pattern|;
    assert !r ==> pattern[start..][patternPos - start] != '*';
  }

  // ----- soundness: an accepted string is in the language -----

  lemma StarSkips(pattern: string, str: string, k: nat)
    requires pattern != "" && pattern[0] == '*' && k <= |str|
    requires Matches(pattern, str[k..])
    ensures Matches(pattern, str)
    decreases k
  {
    if k > 0 {
      assert str[1..][k - 1..] == str[k..];
      StarSkips(pattern, str[1..], k - 1);
    }
  }

  /** One pattern character read against an equal string character, or '?'. */
  lemma LiteralStep(pattern: string, str: string)
    requires pattern != "" && str != "" && (pattern[0] == str[0] || pattern[0] == '?')
    requires Matches(pattern[1..], str[1..])
    ensures Matches(pattern, str)
  {
    if pattern[0] == '*' {
      MatchesStarTail(pattern, str[1..]);
    }
  }

  lemma MatchesStarTail(pattern: string, str: string)
    requires pattern != "" && pattern[0] == '*' && Matches(pattern[1..], str)
    ensures Matches(pattern, str)
  {
  }

  lemma {:induction false} AllStarsMatchEmpty(pattern: string)
    ensures Matches(pattern, "") <==> OnlyStars(pattern)
  {
    if pattern != "" {
      AllStarsMatchEmpty(pattern[1..]);
      assert OnlyStars(pattern) <==> pattern[0] == '*' && OnlyStars(pattern[1..]) by {
        if pattern[0] == '*' && OnlyStars(pattern[1..]) {
          forall i | 0 <= i < |pattern| ensures pattern[i] == '*' {
            if i > 0 { assert pattern[1..][i - 1] == '*'; }
          }
        }
      }
    }
  }

  /** From the cursor back to the star (or to the start): what is read since then was read
      one character at a time, so a match of the rest is a match from the star. */
  ghost predicate SegmentRead(pattern: string, str: string, p0: nat, s0: nat, n: nat)
    requires p0 + n <= |pattern| && s0 + n <= |str|
  {
    forall i :: p0 <= i < p0 + n ==> pattern[i] == str[i - p0 + s0] || pattern[i] == '?'
  }

  lemma {:induction false} SegmentBack(pattern: string, str: string, p0: nat, s0: nat, n: nat)
    requires p0 + n <= |pattern| && s0 + n <= |str|
    requires SegmentRead(pattern, str, p0, s0, n)
    requires Matches(pattern[p0 + n..], str[s0 + n..])
    ensures Matches(pattern[p0..], str[s0..])
    decreases n
  {
    if n > 0 {
      SegmentBack(pattern, str, p0 + 1, s0 + 1, n - 1);
      assert pattern[p0..][1..] == pattern[p0 + 1..] && str[s0..][1..] == str[s0 + 1..];
      assert pattern[p0] == str[p0 - p0 + s0] || pattern[p0] == '?';
      LiteralStep(pattern[p0..], str[s0..]);
    }
  }

  /** The part of the pattern and of the string that a match must still explain: everything
      from the last star on, or everything when no star was met. */
  ghost predicate AnchorMatches(pattern: string, str: string, c: Cursor)
    requires InRange(pattern, str, c)
  {
    Matches(pattern[if c.star < 0 then 0 else c.star..], str[c.back..])
  }

  ghost predicate ReadSinceAnchor(pattern: string, str: string, c: Cursor)
    requires InRange(pattern, str, c)
  {
    SegmentRead(pattern, str, c.star + 1, c.back, c.s - c.back)
  }

  lemma AnchorFromRest(pattern: string, str: string, c: Cursor)
    requires InRange(pattern, str, c) && ReadSinceAnchor(pattern, str, c)
    requires Matches(pattern[c.p..], str[c.s..])
    ensures AnchorMatches(pattern, str, c)
  {
    SegmentBack(pattern, str, c.star + 1, c.back, c.s - c.back);
    if c.star >= 0 {
      assert pattern[c.star..][1..] == pattern[c.star + 1..];
      MatchesStarTail(pattern[c.star..], str[c.back..]);
    }
  }

  /** What one step establishes, read backwards. */
  lemma AnchorFromNext(pattern: string, str: string, c: Cursor)
    requires InRange(pattern, str, c) && ReadSinceAnchor(pattern, str, c)
    requires c.s < |str| && Step(pattern, str, c).Next?
    requires var d := Step(pattern, str, c).cursor; InRange(pattern, str, d) && AnchorMatches(pattern, str, d)
    ensures AnchorMatches(pattern, str, c)
  {
    var d := Step(pattern, str, c).cursor;
    if d.star == c.p {
      AnchorFromRest(pattern, str, c);
    } else if d.back == c.back + 1 {
      StarTakesOne(pattern, str, c.star, c.back);
    }
  }

  lemma StarTakesOne(pattern: string, str: string, star: nat, back: nat)
    requires star < |pattern| && pattern[star] == '*' && back < |str|
    requires Matches(pattern[star..], str[back + 1..])
    ensures Matches(pattern[star..], str[back..])
  {
    assert str[back..][1..] == str[back + 1..];
    StarSkips(pattern[star..], str[back..], 1);
  }

  lemma {:induction false} ScanSound(pattern: string, str: string, c: Cursor)
    requires InRange(pattern, str, c) && ReadSinceAnchor(pattern, str, c)
    requires Scan(pattern, str, c)
    ensures AnchorMatches(pattern, str, c)
    decreases |str| - c.back, |pattern| - c.p
  {
    if c.s == |str| {
      AllStarsMatchEmpty(pattern[c.p..]);
      AnchorFromRest(pattern, str, c);
    } else {
      StepRaisesRank(pattern, str, c);
      ScanSound(pattern, str, Step(pattern, str, c).cursor);
      AnchorFromNext(pattern, str, c);
    }
  }

  /** Whatever the two texts contain, an accepted string is in the language. */
  lemma GreedySound(pattern: string, str: string)
    ensures Greedy(pattern, str) ==> Matches(pattern, str)
  {
    if Greedy(pattern, str) {
      ScanSound(pattern, str, START);
      assert pattern[0..] == pattern && str[0..] == str;
    }
  }

  // ----- completeness: keeping only the last star loses no match -----

  ghost predicate StarFree(pattern: string, p0: nat, n: nat)
    requires p0 + n <= |pattern|
  {
    forall i :: p0 <= i < p0 + n ==> pattern[i] != '*'
  }

  /** A star-free segment reads exactly as many characters as it is long. */
  lemma {:induction false} SegmentForward(pattern: string, str: string, p0: nat, k: nat, n: nat)
    requires p0 + n <= |pattern| && k <= |str| && StarFree(pattern, p0, n)
    requires Matches(pattern[p0..], str[k..])
    ensures k + n <= |str| && Matches(pattern[p0 + n..], str[k + n..])
    decreases n
  {
    if n > 0 {
      assert pattern[p0..][0] == pattern[p0];
      assert pattern[p0..][1..] == pattern[p0 + 1..] && str[k..][1..] == str[k + 1..];
      SegmentForward(pattern, str, p0 + 1, k + 1, n - 1);
    }
  }

  lemma {:induction false} StarUnrolls(pattern: string, str: string) returns (k: nat)
    requires pattern != "" && pattern[0] == '*' && Matches(pattern, str)
    ensures k <= |str| && Matches(pattern[1..], str[k..])
    decreases |str|
  {
    if Matches(pattern[1..], str) {
      k := 0;
      assert str[0..] == str;
    } else {
      var j := StarUnrolls(pattern, str[1..]);
      k := j + 1;
      assert str[1..][j..] == str[k..];
    }
  }

  /** The last star can absorb whatever an earlier star would have: a match from the anchor
      gives some place at or after the cursor from which the rest of the pattern matches. */
  lemma RestFromAnchor(pattern: string, str: string, c: Cursor) returns (at: nat)
    requires InRange(pattern, str, c) && StarFree(pattern, c.star + 1, c.s - c.back)
    requires AnchorMatches(pattern, str, c)
    ensures c.s <= at <= |str| && Matches(pattern[c.p..], str[at..])
    ensures c.star < 0 ==> at == c.s
  {
    if c.star < 0 {
      SegmentForward(pattern, str, 0, 0, c.s);
      at := c.s;
    } else {
      var k := StarUnrolls(pattern[c.star..], str[c.back..]);
      assert pattern[c.star..][1..] == pattern[c.star + 1..];
      assert str[c.back..][k..] == str[c.back + k..];
      SegmentForward(pattern, str, c.star + 1, c.back + k, c.s - c.back);
      at := c.s + k;
    }
  }

  /** A match from the anchor survives meeting a new star: that star becomes the anchor. */
  lemma NewAnchor(pattern: string, str: string, c: Cursor)
    requires InRange(pattern, str, c) && StarFree(pattern, c.star + 1, c.s - c.back)
    requires AnchorMatches(pattern, str, c)
    requires c.p < |pattern| && pattern[c.p] == '*'
    ensures Matches(pattern[c.p..], str[c.s..])
  {
    var at := RestFromAnchor(pattern, str, c);
    assert str[c.s..][at - c.s..] == str[at..];
    StarSkips(pattern[c.p..], str[c.s..], at - c.s);
  }

  /** At the end of the string a match from the anchor leaves only stars. */
  lemma EndLeavesStars(pattern: string, str: string, c: Cursor)
    requires InRange(pattern, str, c) && StarFree(pattern, c.star + 1, c.s - c.back)
    requires AnchorMatches(pattern, str, c) && c.s == |str|
    ensures OnlyStars(pattern[c.p..])
  {
    var at := RestFromAnchor(pattern, str, c);
    AllStarsMatchEmpty(pattern[c.p..]);
  }

  lemma {:induction false} ScanComplete(pattern: string, str: string, c: Cursor)
    requires '*' !in str || '*' !in pattern
    requires InRange(pattern, str, c) && StarFree(pattern, c.star + 1, c.s - c.back)
    requires AnchorMatches(pattern, str, c)
    ensures Scan(pattern, str, c)
    decreases |str| - c.back, |pattern| - c.p
  {
    if c.s == |str| {
      EndLeavesStars(pattern, str, c);
    } else {
      var next := Step(pattern, str, c);
      if c.p < |pattern| && (pattern[c.p] == str[c.s] || pattern[c.p] == '?') {
        assert str[c.s] in str && pattern[c.p] in pattern;
      } else if c.p < |pattern| && pattern[c.p] == '*' {
        NewAnchor(pattern, str, c);
      } else {
        MismatchMovesOn(pattern, str, c);
      }
      ScanComplete(pattern, str, next.cursor);
    }
  }

  /** When neither character nor star applies, a match can only come from the star taking one
      character more; without a star there is none. */
  lemma MismatchMovesOn(pattern: string, str: string, c: Cursor)
    requires InRange(pattern, str, c) && StarFree(pattern, c.star + 1, c.s - c.back)
    requires AnchorMatches(pattern, str, c) && c.s < |str|
    requires c.p < |pattern| ==> pattern[c.p] !in {str[c.s], '?', '*'}
    ensures c.star >= 0 && Matches(pattern[c.star..], str[c.back + 1..])
  {
    assert !Matches(pattern[c.p..], str[c.s..]);
    if c.star < 0 {
      SegmentForward(pattern, str, 0, 0, c.s);
      assert false;
    } else {
      assert pattern[c.star..][1..] == pattern[c.star + 1..];
      assert str[c.back..][1..] == str[c.back + 1..];
      if Matches(pattern[c.star + 1..], str[c.back..]) {
        SegmentForward(pattern, str, c.star + 1, c.back, c.s - c.back);
        assert false;
      }
    }
  }

  /** On a string without '*' (or a pattern without one) every member of the language is accepted. */
  lemma GreedyComplete(pattern: string, str: string)
    requires '*' !in str || '*' !in pattern
    ensures Matches(pattern, str) ==> Greedy(pattern, str)
  {
    if Matches(pattern, str) {
      assert pattern[0..] == pattern && str[0..] == str;
      ScanComplete(pattern, str, START);
    }
  }

  // ----- exactly which strings are decided correctly -----

  /** Reading a literal prefix moves the cursor along it. */
  lemma {:induction false} ScanPrefix(pattern: string, str: string, n: nat, upto: nat)
    requires n <= upto <= |pattern| && upto <= |str| && pattern[..upto] == str[..upto]
    ensures Scan(pattern, str, Cursor(n, n, -1, 0)) == Scan(pattern, str, Cursor(upto, upto, -1, 0))
    decreases upto - n
  {
    if n < upto {
      assert pattern[n] == pattern[..upto][n] && str[n] == str[..upto][n];
      ScanPrefix(pattern, str, n + 1, upto);
    }
  }

  /** The equality test comes before the star test, so a pattern star that meets a string '*' is
      used up on it. For a string with a '*' this gives a pattern of its language that is refused. */
  lemma StarInStringLosesMatch(str: string) returns (pattern: string)
    requires '*' in str
    ensures Matches(pattern, str) && !Greedy(pattern, str)
  {
    var k :| 0 <= k < |str| && str[k] == '*';
    var lead := str[..k + 1];
    if k + 1 < |str| {
      pattern := lead;
      assert pattern[..k + 1] == str[..k + 1];
      ScanPrefix(pattern, str, 0, k + 1);
      assert pattern[k..][1..] == "" && str[k..][|str| - k..] == "";
      assert Matches(pattern[k..][1..], str[k..][|str| - k..]);
      MatchesStarTail(pattern[k..], str[k..][|str| - k..]);
      StarSkips(pattern[k..], str[k..], |str| - k);
    } else {
      pattern := lead + "?";
      assert pattern[..k + 1] == str[..k + 1];
      ScanPrefix(pattern, str, 0, k + 1);
      assert pattern[k + 1..][0] == '?';
      assert !OnlyStars(pattern[k + 1..]);
      assert pattern[k..][1..] == "?" && str[k..] == "*";
      assert Matches("?"[1..], "*"[1..]);
      assert Matches("?", "*");
      MatchesStarTail(pattern[k..], str[k..]);
    }
    assert SegmentRead(pattern, str, 0, 0, k) by {
      forall i | 0 <= i < k ensures pattern[i] == str[i - 0 + 0] {
        assert lead[i] == str[i];
      }
    }
    SegmentBack(pattern, str, 0, 0, k);
    assert pattern[0..] == pattern && str[0..] == str;
  }

  /** A string is decided correctly against every pattern exactly when it has no '*'. */
  lemma DecidedExactlyWithoutStar(str: string)
    ensures '*' !in str <==> forall pattern :: Greedy(pattern, str) <==> Matches(pattern, str)
  {
    if '*' in str {
      var pattern := StarInStringLosesMatch(str);
    } else {
      forall pattern ensures Greedy(pattern, str) <==> Matches(pattern, str) {
        GreedySound(pattern, str);
        GreedyComplete(pattern, str);
      }
    }
  }

  // ----- exactly which patterns are decided correctly -----

  /** The same text in front of both keeps the match, stars in it or not. */
  lemma {:induction false} SameFront(a: string, pattern: string, str: string)
    requires Matches(pattern, str)
    ensures Matches(a + pattern, a + str)
  {
    if a == "" {
      assert a + pattern == pattern && a + str == str;
    } else {
      SameFront(a[1..], pattern, str);
      assert (a + pattern)[1..] == a[1..] + pattern && (a + str)[1..] == a[1..] + str;
    }
  }

  /** Equality alone reads the repeated pattern, and then no star is left to turn back to. */
  lemma RepeatedPatternRefused(pattern: string, more: string)
    requires more != ""
    ensures !Greedy(pattern, pattern + more)
  {
    var str := pattern + more;
    assert str[..|pattern|] == pattern[..|pattern|];
    ScanPrefix(pattern, str, 0, |pattern|);
  }

  lemma StarTakesItself(b: string, mid: string)
    ensures Matches("*" + b, "*" + b + (mid + b))
  {
    assert b + "" == b;
    SameFront(b, "", "");
    var p, tail := "*" + b, "*" + b + (mid + b);
    assert p[1..] == b && tail[|p| + |mid|..] == b;
    MatchesStarTail(p, b);
    StarSkips(p, tail, |p| + |mid|);
  }

  /** A pattern with a star takes the string that repeats the pattern, then one character and what
      follows the star, and is refused on it. */
  lemma StarInPatternLosesMatch(pattern: string) returns (str: string)
    requires '*' in pattern
    ensures Matches(pattern, str) && !Greedy(pattern, str)
  {
    var k :| 0 <= k < |pattern| && pattern[k] == '*';
    var a, b := pattern[..k], pattern[k + 1..];
    str := pattern + ("x" + b);
    RepeatedPatternRefused(pattern, "x" + b);
    StarTakesItself(b, "x");
    SameFront(a, "*" + b, "*" + b + ("x" + b));
    assert a + ("*" + b) == pattern && a + ("*" + b + ("x" + b)) == str;
  }

  /** A pattern is decided correctly for every string exactly when it has no '*'. */
  lemma PatternDecidedExactlyWithoutStar(pattern: string)
    ensures '*' !in pattern <==> forall str :: Greedy(pattern, str) <==> Matches(pattern, str)
  {
    if '*' in pattern {
      var str := StarInPatternLosesMatch(pattern);
    } else {
      forall str ensures Greedy(pattern, str) <==> Matches(pattern, str) {
        GreedySound(pattern, str);
        GreedyComplete(pattern, str);
      }
    }
  }
}
