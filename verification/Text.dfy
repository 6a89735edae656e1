/**
 Strings as the logger uses them: `std::string::find`, splicing, and the decimal text
 that `std::to_string` prints.
 */
module Text {

  datatype Option<+T> = None | Some(value: T)

  /** `what` occurs in `s` with its first character at index `i`. */
  predicate OccursAt(s: string, what: string, i: nat) {
    i + |what| <= |s| && s[i..i + |what|] == what
  }

  /** `i` is the first place at or after `from` where `what` occurs. */
  ghost predicate FirstAt(s: string, what: string, from: nat, i: nat) {
    from <= i && OccursAt(s, what, i) && forall j: nat :: from <= j < i ==> !OccursAt(s, what, j)
  }

  lemma {:induction false} SomeFirst(s: string, what: string, from: nat, i: nat)
    requires from <= i && OccursAt(s, what, i)
    ensures exists k :: FirstAt(s, what, from, k)
    decreases i
  {
    if j: nat :| from <= j < i && OccursAt(s, what, j) {
      SomeFirst(s, what, from, j);
    } else {
      assert FirstAt(s, what, from, i);
    }
  }

  /** What `std::string::find(what, from)` returns; `None` stands for `npos`. */
  ghost function Find(s: string, what: string, from: nat): (r: Option<nat>)
    ensures r.Some? ==> FirstAt(s, what, from, r.value)
    ensures r.None? ==> forall j: nat :: from <= j ==> !OccursAt(s, what, j)
  {
    if exists i :: FirstAt(s, what, from, i) then
      var i :| FirstAt(s, what, from, i);
      Some(i)
    else
      assert forall j: nat :: from <= j ==> !OccursAt(s, what, j) by {
        forall j: nat | from <= j ensures !OccursAt(s, what, j) {
          if OccursAt(s, what, j) { SomeFirst(s, what, from, j); }
        }
      }
      None
  }

  method StringFind(s: string, what: string, from: nat) returns (r: Option<nat>)
    ensures r == Find(s, what, from)
  {
    var i := from;
    while i + |what| <= |s|
      invariant from <= i
      invariant forall j: nat :: from <= j < i ==> !OccursAt(s, what, j)
    {
      if s[i..i + |what|] == what {
        assert FirstAt(s, what, from, i);
        return Some(i);
      }
      i := i + 1;
    }
    return None;
  }

  /** `std::string::replace(pos, len, with)`. */
  function Splice(s: string, pos: nat, len: nat, with: string): (r: string)
    requires pos + len <= |s|
  {
    s[..pos] + with + s[pos + len..]
  }

  /** The least occurrence is what `Find` returns. */
  lemma FindIs(s: string, what: string, i: nat)
    requires OccursAt(s, what, i)
    requires forall j: nat :: j < i ==> !OccursAt(s, what, j)
    ensures Find(s, what, 0) == Some(i)
  {
  }

  lemma Regroup(a: string, b: string, c: string)
    ensures a + b + c == a + (b + c)
  {
  }

  lemma SliceOfDrop(s: string, p: nat, i: nat, n: nat)
    requires p + i + n <= |s|
    ensures s[p..][i..i + n] == s[p + i..p + i + n]
  {
  }

  /** Occurrences behind `p` are the occurrences in what lies behind `p`. */
  lemma OccursBehind(s: string, what: string, p: nat, i: nat)
    requires p <= |s|
    ensures OccursAt(s[p..], what, i) <==> OccursAt(s, what, p + i)
  {
    if p + i + |what| <= |s| {
      SliceOfDrop(s, p, i, |what|);
    }
  }

  // ----- decimal text -----

  predicate IsDigit(c: char) { '0' <= c <= '9' }

  ghost predicate AllDigits(s: string) { forall i :: 0 <= i < |s| ==> IsDigit(s[i]) }

  function DigitChar(d: nat): (c: char)
    requires d < 10
    ensures IsDigit(c)
  {
    '0' + d as char
  }

  function DigitValue(c: char): (d: nat)
    requires IsDigit(c)
    ensures d < 10
  {
    (c - '0') as nat
  }

  /** `std::to_string` of an unsigned number. */
  function Decimal(n: nat): (s: string)
    ensures s != ""
    ensures AllDigits(s)
  {
    if n < 10 then [DigitChar(n)] else Decimal(n / 10) + [DigitChar(n % 10)]
  }

  /** The number a digit string denotes. */
  ghost function Value(s: string): (n: nat)
    requires AllDigits(s)
  {
    if s == "" then 0 else 10 * Value(s[..|s| - 1]) + DigitValue(s[|s| - 1])
  }

  lemma {:induction false} ValueOfDecimal(n: nat)
    ensures Value(Decimal(n)) == n
  {
    if n < 10 {
      assert Decimal(n)[..0] == "";
    } else {
      ValueOfDecimal(n / 10);
      assert Decimal(n)[..|Decimal(n)| - 1] == Decimal(n / 10);
    }
  }

  /** Different numbers print differently. */
  lemma DecimalInjective(m: nat, n: nat)
    requires Decimal(m) == Decimal(n)
    ensures m == n
  {
    ValueOfDecimal(m);
    ValueOfDecimal(n);
  }

  // ----- order -----

  /** `std::string`'s operator<. */
  predicate Less(a: string, b: string) {
    if b == "" then false
    else a == "" || a[0] < b[0] || (a[0] == b[0] && Less(a[1..], b[1..]))
  }

  lemma {:induction false} LessConcat(a: string, b: string, x: string, y: string)
    requires |a| == |b|
    ensures Less(a + x, b + y) <==> Less(a, b) || (a == b && Less(x, y))
    decreases |a|
  {
    if a == "" {
      assert a + x == x && b + y == y;
    } else {
      assert (a + x)[1..] == a[1..] + x && (b + y)[1..] == b[1..] + y;
      assert a == b <==> a[0] == b[0] && a[1..] == b[1..] by {
        assert a == [a[0]] + a[1..] && b == [b[0]] + b[1..];
      }
      LessConcat(a[1..], b[1..], x, y);
    }
  }

  lemma LessIrreflexive(a: string)
    ensures !Less(a, a)
  {
  }

  lemma {:induction false} LessIsTotal(a: string, b: string)
    ensures a == b || Less(a, b) || Less(b, a)
    ensures !(Less(a, b) && Less(b, a))
  {
    if a != "" && b != "" && a[0] == b[0] {
      LessIsTotal(a[1..], b[1..]);
      assert a == [a[0]] + a[1..] && b == [b[0]] + b[1..];
    }
  }

  lemma {:induction false} LessIsTransitive(a: string, b: string, c: string)
    requires Less(a, b) && Less(b, c)
    ensures Less(a, c)
  {
    if a != "" && a[0] == b[0] == c[0] {
      LessIsTransitive(a[1..], b[1..], c[1..]);
    }
  }
}
