/**
 The placeholder engine behind log lines and file names: for every entry of an unordered
 map, find the key in one string and replace its first occurrence.
 */
module Template {
  import opened Text

  // ----- templates as pieces -----

  /** A stretch of text, or a placeholder such as `%%level`. */
  datatype Piece = Lit(text: string) | Hole(key: string)

  function Shown(p: Piece): (s: string) {
    match p
    case Lit(t) => t
    case Hole(k) => k
  }

  function Flat(ps: seq<Piece>): (s: string) {
    if ps == [] then "" else Shown(ps[0]) + Flat(ps[1..])
  }

  predicate Plain(s: string) { '%' !in s }

  /** "%%" and a name without '%'. */
  predicate IsKey(k: string) {
    |k| > 2 && k[0] == '%' && k[1] == '%' && Plain(k[2..])
  }

  /** Keys of the right shape, none a prefix of another. */
  ghost predicate KeyTable(keys: set<string>) {
    && (forall k :: k in keys ==> IsKey(k))
    && (forall a, b :: a in keys && b in keys && a <= b ==> a == b)
  }

  predicate PlainPiece(p: Piece) { p.Lit? ==> Plain(p.text) }

  ghost predicate WellFormed(ps: seq<Piece>, keys: set<string>) {
    forall i :: 0 <= i < |ps| ==> PlainPiece(ps[i]) && (ps[i].Hole? ==> ps[i].key in keys)
  }

  // ----- one replacement -----

  ghost function ReplaceFirst(s: string, key: string, value: string): (r: string) {
    match Find(s, key, 0)
    case None => s
    case Some(i) => Splice(s, i, |key|, value)
  }

  /** The position of the first hole for `key`. */
  function FirstHole(ps: seq<Piece>, key: string): (r: Option<nat>)
    ensures r.Some? ==> r.value < |ps| && ps[r.value] == Hole(key) && Hole(key) !in ps[..r.value]
    ensures r.None? ==> Hole(key) !in ps
  {
    if ps == [] then None
    else if ps[0] == Hole(key) then Some(0)
    else
      match FirstHole(ps[1..], key)
      case None => None
      case Some(j) => assert ps[..j + 1] == [ps[0]] + ps[1..][..j]; Some(j + 1)
  }

  function Fill(ps: seq<Piece>, key: string, value: string): (r: seq<Piece>) {
    match FirstHole(ps, key)
    case None => ps
    case Some(j) => ps[j := Lit(value)]
  }

  // ----- texts that cannot be mistaken for a placeholder -----

  /** The rest of `m` from `i` and the key agree as far as both go. */
  predicate Clash(m: string, i: nat, key: string)
    requires i <= |m|
  {
    key <= m[i..] || m[i..] <= key
  }

  /** No end of `m`, two characters or longer, begins with a key or is the beginning of one. */
  ghost predicate Inert(m: string, keys: set<string>) {
    forall i: nat, k :: i + 2 <= |m| && k in keys ==> !Clash(m, i, k)
  }

  lemma PlainIsInert(m: string, keys: set<string>)
    requires Plain(m) && forall k :: k in keys ==> IsKey(k)
    ensures Inert(m, keys)
  {
    forall i: nat, k | i + 2 <= |m| && k in keys ensures !Clash(m, i, k) {
      assert m[i] in m && m[i..][0] == m[i];
    }
  }

  /** At most one stretch of text holds a '%', and it is inert for the given keys. */
  ghost predicate Quiet(ps: seq<Piece>, keys: set<string>, live: set<string>) {
    && (forall i :: 0 <= i < |ps| && ps[i].Hole? ==> ps[i].key in keys)
    && (forall i :: 0 <= i < |ps| && !PlainPiece(ps[i]) ==> Inert(ps[i].text, live))
    && (forall i, j :: 0 <= i < |ps| && 0 <= j < |ps| && !PlainPiece(ps[i]) && !PlainPiece(ps[j]) ==> i == j)
  }

  lemma QuietTail(ps: seq<Piece>, keys: set<string>, live: set<string>)
    requires ps != [] && Quiet(ps, keys, live)
    ensures Quiet(ps[1..], keys, live)
    ensures !PlainPiece(ps[0]) ==> WellFormed(ps[1..], keys)
  {
    forall i | 0 <= i < |ps[1..]| && !PlainPiece(ps[0]) ensures PlainPiece(ps[1..][i]) {
      assert ps[1..][i] == ps[i + 1];
    }
    forall i, j | 0 <= i < |ps[1..]| && 0 <= j < |ps[1..]| && !PlainPiece(ps[1..][i]) && !PlainPiece(ps[1..][j])
      ensures i == j
    {
      assert ps[1..][i] == ps[i + 1] && ps[1..][j] == ps[j + 1];
    }
  }

  /** Behind plain text a '%' opens a placeholder, so a second '%' follows. */
  lemma {:induction false} PercentOpensHole(ps: seq<Piece>, keys: set<string>)
    requires WellFormed(ps, keys) && KeyTable(keys)
    requires Flat(ps) != "" && Flat(ps)[0] == '%'
    ensures |Flat(ps)| > 1 && Flat(ps)[1] == '%'
  {
    assert PlainPiece(ps[0]);
    if Shown(ps[0]) == "" {
      PercentOpensHole(ps[1..], keys);
    } else if ps[0].Hole? {
      assert IsKey(ps[0].key);
    }
  }

  lemma ComparablePrefixes(s: string, a: string, b: string)
    requires a <= s && b <= s
    ensures a <= b || b <= a
  {
    if |a| <= |b| { assert a == s[..|a|] == b[..|a|]; } else { assert b == s[..|b|] == a[..|b|]; }
  }

  lemma KeyChars(k: string, i: nat)
    requires IsKey(k) && i < |k|
    ensures k[i] == '%' <==> i < 2
  {
    if i >= 2 { assert k[2..][i - 2] == k[i]; }
  }

  /** A key cannot be found inside the one text that holds a '%', nor across its end. */
  lemma NotInsideText(t: string, rest: seq<Piece>, keys: set<string>, k: string, i: nat)
    requires KeyTable(keys) && k in keys && i < |t|
    requires Plain(t) || (Inert(t, {k}) && WellFormed(rest, keys))
    ensures !OccursAt(t + Flat(rest), k, i)
  {
    var s := t + Flat(rest);
    assert t[i] in t;
    assert !Plain(t) && i + 2 <= |t| ==> !Clash(t, i, k);
    KeyChars(k, 0); KeyChars(k, 1); KeyChars(k, 2);
    if OccursAt(s, k, i) {
      assert s[i] == s[i..i + |k|][0] && s[i + 1] == s[i..i + |k|][1] && s[i + 2] == s[i..i + |k|][2];
      if i + 2 <= |t| {
        assert k <= s[i..] && t[i..] <= s[i..];
        ComparablePrefixes(s[i..], k, t[i..]);
      } else {
        PercentOpensHole(rest, keys);
      }
    }
  }

  lemma NotInsideHole(h: string, tail: string, keys: set<string>, k: string, i: nat)
    requires KeyTable(keys) && k in keys && h in keys && i < |h|
    ensures OccursAt(h + tail, k, i) ==> i == 0 && h == k
  {
    var s := h + tail;
    KeyChars(k, 0); KeyChars(k, 1); KeyChars(h, i); KeyChars(h, 2);
    if OccursAt(s, k, i) {
      assert s[i] == s[i..i + |k|][0] && s[i + 1] == s[i..i + |k|][1];
      if i == 0 {
        assert k <= s && h <= s;
        ComparablePrefixes(s, k, h);
      }
    }
  }

  /** How many characters the first `j` pieces show. */
  function Offset(ps: seq<Piece>, j: nat): (n: nat)
    requires j <= |ps|
  {
    if j == 0 then 0 else |Shown(ps[0])| + Offset(ps[1..], j - 1)
  }

  /** In the first piece a key can only be found if that piece is its hole. */
  lemma NotInsideFirst(ps: seq<Piece>, keys: set<string>, k: string, i: nat)
    requires KeyTable(keys) && k in keys && Quiet(ps, keys, {k})
    requires ps != [] && i < |Shown(ps[0])|
    ensures OccursAt(Flat(ps), k, i) ==> i == 0 && ps[0] == Hole(k)
  {
    match ps[0]
    case Lit(t) =>
      QuietTail(ps, keys, {k});
      assert PlainPiece(ps[0]) || Inert(ps[0].text, {k});
      NotInsideText(t, ps[1..], keys, k, i);
    case Hole(h) =>
      NotInsideHole(h, Flat(ps[1..]), keys, k, i);
  }

  lemma OccursInTail(ps: seq<Piece>, k: string, i: nat)
    requires ps != [] && i >= |Shown(ps[0])| && OccursAt(Flat(ps), k, i)
    ensures OccursAt(Flat(ps[1..]), k, i - |Shown(ps[0])|)
  {
    var n := |Shown(ps[0])|;
    assert Flat(ps)[n..] == Flat(ps[1..]);
    OccursBehind(Flat(ps), k, n, i - n);
  }

  /** A key that can be found in the text is found at one of its holes. */
  lemma {:induction false} OccurrenceIsHole(ps: seq<Piece>, keys: set<string>, k: string, i: nat) returns (j: nat)
    requires KeyTable(keys) && k in keys && Quiet(ps, keys, {k})
    requires OccursAt(Flat(ps), k, i)
    ensures j < |ps| && ps[j] == Hole(k) && i == Offset(ps, j)
    decreases |ps|
  {
    if ps == [] {
      assert false;
    } else {
      var n := |Shown(ps[0])|;
      if i < n {
        NotInsideFirst(ps, keys, k, i);
        j := 0;
      } else {
        QuietTail(ps, keys, {k});
        OccursInTail(ps, k, i);
        var j0 := OccurrenceIsHole(ps[1..], keys, k, i - n);
        j := j0 + 1;
        assert ps[j] == ps[1..][j0];
      }
    }
  }

  lemma {:induction false} FlatSplit(a: seq<Piece>, b: seq<Piece>)
    ensures Flat(a + b) == Flat(a) + Flat(b)
  {
    if a == [] {
      assert a + b == b;
    } else {
      assert (a + b)[1..] == a[1..] + b;
      FlatSplit(a[1..], b);
    }
  }

  lemma FlatOfTwo(a: Piece, b: Piece)
    ensures Flat([a, b]) == Shown(a) + Shown(b)
  {
    assert [a, b][1..] == [b] && [b][1..] == [];
    assert Flat([b]) == Shown(b);
  }

  lemma FlatOfThree(a: Piece, b: Piece, c: Piece)
    ensures Flat([a, b, c]) == Shown(a) + Shown(b) + Shown(c)
  {
    assert [a, b, c] == [a] + [b, c];
    FlatSplit([a], [b, c]);
    FlatOfTwo(b, c);
    assert Flat([a]) == Shown(a);
  }

  lemma {:induction false} OffsetIsPrefix(ps: seq<Piece>, j: nat)
    requires j <= |ps|
    ensures Offset(ps, j) == |Flat(ps[..j])|
    decreases j
  {
    if j > 0 {
      assert ps[..j][1..] == ps[1..][..j - 1];
      OffsetIsPrefix(ps[1..], j - 1);
    }
  }

  lemma FlatAt(ps: seq<Piece>, j: nat)
    requires j < |ps|
    ensures Flat(ps) == Flat(ps[..j]) + Shown(ps[j]) + Flat(ps[j + 1..])
  {
    assert ps == ps[..j] + ps[j..];
    assert ps[j..][1..] == ps[j + 1..];
    FlatSplit(ps[..j], ps[j..]);
  }

  /** The key is found exactly at its first hole. */
  lemma FindIsFirstHole(ps: seq<Piece>, keys: set<string>, k: string)
    requires KeyTable(keys) && k in keys && Quiet(ps, keys, {k})
    ensures FirstHole(ps, k).None? ==> Find(Flat(ps), k, 0) == None
    ensures FirstHole(ps, k).Some? ==> Find(Flat(ps), k, 0) == Some(|Flat(ps[..FirstHole(ps, k).value])|)
  {
    var s := Flat(ps);
    match FirstHole(ps, k)
    case None =>
      if Find(s, k, 0).Some? {
        var j := OccurrenceIsHole(ps, keys, k, Find(s, k, 0).value);
        assert false;
      }
    case Some(j) =>
      var at := |Flat(ps[..j])|;
      FlatAt(ps, j);
      OffsetIsPrefix(ps, j);
      assert forall j0 :: 0 <= j0 < j ==> ps[..j][j0] == ps[j0];
      assert s[at..at + |k|] == k;
      forall i: nat | i < at ensures !OccursAt(s, k, i) {
        if OccursAt(s, k, i) {
          var j0 := OccurrenceIsHole(ps, keys, k, i);
          OffsetMonotone(ps, j, j0);
          assert false;
        }
      }
      FindIs(s, k, at);
  }

  /** Editing the string is filling the first hole. */
  lemma ReplaceIsFill(ps: seq<Piece>, keys: set<string>, k: string, value: string)
    requires KeyTable(keys) && k in keys && Quiet(ps, keys, {k})
    ensures ReplaceFirst(Flat(ps), k, value) == Flat(Fill(ps, k, value))
  {
    FindIsFirstHole(ps, keys, k);
    match FirstHole(ps, k)
    case None =>
    case Some(j) =>
      var s, before := Flat(ps), Flat(ps[..j]);
      FlatAt(ps, j);
      var filled := Fill(ps, k, value);
      FlatAt(filled, j);
      assert filled[..j] == ps[..j] && filled[j + 1..] == ps[j + 1..];
      assert s[..|before|] == before && s[|before| + |k|..] == Flat(ps[j + 1..]);
  }

  lemma {:induction false} OffsetMonotone(ps: seq<Piece>, i: nat, j: nat)
    requires i <= |ps| && j <= |ps|
    ensures i <= j ==> Offset(ps, i) <= Offset(ps, j)
    decreases i
  {
    if 0 < i <= j {
      OffsetMonotone(ps[1..], i - 1, j - 1);
    }
  }

  // ----- the loop over the table -----

  /** The order in which an unordered map hands out its entries: each key once. */
  ghost predicate IsOrder(order: seq<string>, keys: set<string>) {
    && (forall i :: 0 <= i < |order| ==> order[i] in keys)
    && (forall k :: k in keys ==> k in order)
    && (forall i, j :: 0 <= i < j < |order| ==> order[i] != order[j])
  }

  ghost function KeysOf(order: seq<string>): (keys: set<string>) {
    set k | k in order
  }

  /** What the loop makes of `s` when the map is walked in the given order. */
  ghost function ReplaceEach(s: string, order: seq<string>, table: map<string, string>): (r: string)
    requires forall i :: 0 <= i < |order| ==> order[i] in table
  {
    if order == [] then s
    else
      var last := order[|order| - 1];
      ReplaceFirst(ReplaceEach(s, order[..|order| - 1], table), last, table[last])
  }

  /** What one loop over the map can make of the format. */
  ghost predicate Substituted(format: string, table: map<string, string>, r: string) {
    exists order :: IsOrder(order, table.Keys) && r == ReplaceEach(format, order, table)
  }

  /** The loop over the unordered map: any entry may come next. */
  method ReplacePlaceholders(format: string, table: map<string, string>) returns (r: string)
    ensures Substituted(format, table, r)
  {
    r := format;
    ghost var order := [];
    var todo := table.Keys;
    while todo != {}
      invariant todo <= table.Keys
      invariant IsOrder(order, table.Keys - todo)
      invariant r == ReplaceEach(format, order, table)
      decreases todo
    {
      var key :| key in todo;
      var pos := StringFind(r, key, 0);
      if pos.Some? {
        r := Splice(r, pos.value, |key|, table[key]);
      }
      assert (order + [key])[..|order|] == order;
      order := order + [key];
      todo := todo - {key};
    }
    assert table.Keys - todo == table.Keys;
  }

  /** The first hole of every key in `done` filled, all at once. */
  function FillAll(ps: seq<Piece>, done: set<string>, table: map<string, string>): (r: seq<Piece>)
    requires done <= table.Keys
    ensures |r| == |ps|
  {
    seq(|ps|, i requires 0 <= i < |ps| =>
      if ps[i].Hole? && ps[i].key in done && ps[i] !in ps[..i] then Lit(table[ps[i].key]) else ps[i])
  }

  /** The same filling, read from left to right behind the pieces `before`. */
  function FillFrom(before: seq<Piece>, ps: seq<Piece>, done: set<string>, table: map<string, string>): (r: seq<Piece>)
    requires done <= table.Keys
    decreases |ps|
  {
    if ps == [] then []
    else
      [if ps[0].Hole? && ps[0].key in done && ps[0] !in before then Lit(table[ps[0].key]) else ps[0]]
      + FillFrom(before + [ps[0]], ps[1..], done, table)
  }

  lemma {:induction false} FillAllFromLeft(before: seq<Piece>, ps: seq<Piece>, done: set<string>,
                                           table: map<string, string>)
    requires done <= table.Keys
    ensures FillAll(before + ps, done, table)[|before|..] == FillFrom(before, ps, done, table)
    decreases |ps|
  {
    var all := before + ps;
    if ps != [] {
      FillAllFromLeft(before + [ps[0]], ps[1..], done, table);
      assert before + [ps[0]] + ps[1..] == all;
      var f := FillAll(all, done, table);
      assert all[|before|] == ps[0] && all[..|before|] == before;
      assert f[|before|..] == [f[|before|]] + f[|before| + 1..];
    }
  }

  /** Filling one more hole of the simultaneous filling. */
  lemma FillOneMore(ps: seq<Piece>, done: set<string>, k: string, table: map<string, string>)
    requires done <= table.Keys && k in table && k !in done
    ensures Fill(FillAll(ps, done, table), k, table[k]) == FillAll(ps, done + {k}, table)
  {
    var f := FillAll(ps, done, table);
    match FirstHole(f, k)
    case None =>
      forall i | 0 <= i < |ps| ensures ps[i] != Hole(k) {
        assert f[i] in f;
      }
      assert FillAll(ps, done + {k}, table) == f;
    case Some(j) =>
      assert ps[j] == Hole(k);
      forall i | 0 <= i < j ensures ps[i] != Hole(k) {
        assert f[..j][i] == f[i];
      }
      assert Hole(k) !in ps[..j];
      forall i | j < i < |ps| && ps[i] == Hole(k) ensures ps[i] in ps[..i] {
        assert ps[..i][j] == Hole(k);
      }
      assert FillAll(ps, done + {k}, table) == f[j := Lit(table[k])];
  }

  /** Whatever has been filled so far, the text stays quiet for the keys still to come. */
  ghost predicate StaysQuiet(ps: seq<Piece>, keys: set<string>, table: map<string, string>) {
    forall done: set<string>, k ::
      done <= table.Keys && k in table && k !in done ==> Quiet(FillAll(ps, done, table), keys, {k})
  }

  /** The string edits refine the simultaneous filling, for every order. */
  lemma {:induction false} EditsRefineFilling(ps: seq<Piece>, keys: set<string>, table: map<string, string>,
                                              order: seq<string>)
    requires KeyTable(keys) && table.Keys <= keys && StaysQuiet(ps, keys, table)
    requires IsOrder(order, KeysOf(order))
    requires forall k :: k in order ==> k in table
    ensures ReplaceEach(Flat(ps), order, table) == Flat(FillAll(ps, KeysOf(order), table))
    decreases |order|
  {
    if order == [] {
      assert KeysOf(order) == {};
      assert FillAll(ps, {}, table) == ps;
    } else {
      var init, last := order[..|order| - 1], order[|order| - 1];
      assert last !in init;
      EditsRefineFilling(ps, keys, table, init);
      var done := KeysOf(init);
      assert KeysOf(order) == done + {last};
      FillOneMore(ps, done, last, table);
      ReplaceIsFill(FillAll(ps, done, table), keys, last, table[last]);
    }
  }

  // ----- values free of '%', save one -----

  /** All values are plain except the value of `odd`, which is inert for the other keys. */
  ghost predicate Values(table: map<string, string>, odd: string) {
    && (forall k :: k in table && k != odd ==> Plain(table[k]))
    && (odd in table ==> Inert(table[odd], table.Keys - {odd}))
  }

  lemma PlainValues(table: map<string, string>, odd: string)
    requires KeyTable(table.Keys) && forall k :: k in table ==> Plain(table[k])
    ensures Values(table, odd)
  {
    if odd in table {
      PlainIsInert(table[odd], table.Keys - {odd});
    }
  }

  lemma ValuesStayQuiet(ps: seq<Piece>, keys: set<string>, table: map<string, string>, odd: string)
    requires KeyTable(keys) && table.Keys <= keys && WellFormed(ps, keys) && Values(table, odd)
    ensures StaysQuiet(ps, keys, table)
  {
    forall done: set<string>, k | done <= table.Keys && k in table && k !in done
      ensures Quiet(FillAll(ps, done, table), keys, {k})
    {
      var f := FillAll(ps, done, table);
      forall i | 0 <= i < |f| && !PlainPiece(f[i])
        ensures ps[i] == Hole(odd) && ps[i] !in ps[..i] && Inert(f[i].text, {k})
      {
        assert PlainPiece(ps[i]);
      }
      forall i, j | 0 <= i < j < |f| ensures PlainPiece(f[i]) || PlainPiece(f[j]) {
        assert ps[..j][i] == ps[i];
      }
    }
  }

  lemma OrderCovers(order: seq<string>, keys: set<string>)
    requires IsOrder(order, keys)
    ensures KeysOf(order) == keys && IsOrder(order, KeysOf(order))
  {
  }

  /** Main result: for a well-formed format and such values, every order of the map gives the
      text in which the first hole of each key is filled. */
  lemma SubstitutionRefinesFilling(ps: seq<Piece>, keys: set<string>, table: map<string, string>, odd: string,
                                   order: seq<string>)
    requires KeyTable(keys) && table.Keys <= keys && WellFormed(ps, keys) && Values(table, odd)
    requires IsOrder(order, table.Keys)
    ensures ReplaceEach(Flat(ps), order, table) == Flat(FillAll(ps, table.Keys, table))
  {
    ValuesStayQuiet(ps, keys, table, odd);
    OrderCovers(order, table.Keys);
    EditsRefineFilling(ps, keys, table, order);
  }

  // ----- two passes are one -----

  lemma {:induction false} ReplaceEachAppend(s: string, a: seq<string>, b: seq<string>, table: map<string, string>)
    requires forall k :: k in a || k in b ==> k in table
    ensures ReplaceEach(s, a + b, table) == ReplaceEach(ReplaceEach(s, a, table), b, table)
    decreases |b|
  {
    if b == [] {
      assert a + b == a;
    } else {
      assert (a + b)[..|a + b| - 1] == a + b[..|b| - 1];
      ReplaceEachAppend(s, a, b[..|b| - 1], table);
    }
  }

  lemma {:induction false} ReplaceEachAgrees(s: string, order: seq<string>, t1: map<string, string>,
                                             t2: map<string, string>)
    requires forall k :: k in order ==> k in t1 && k in t2 && t1[k] == t2[k]
    ensures ReplaceEach(s, order, t1) == ReplaceEach(s, order, t2)
    decreases |order|
  {
    if order != [] {
      ReplaceEachAgrees(s, order[..|order| - 1], t1, t2);
    }
  }

  /** A pass over one table and then a pass over another with other keys is one pass over both. */
  lemma TwoPassesAreOne(s: string, o1: seq<string>, t1: map<string, string>, o2: seq<string>, t2: map<string, string>)
    requires IsOrder(o1, t1.Keys) && IsOrder(o2, t2.Keys) && t1.Keys !! t2.Keys
    ensures IsOrder(o1 + o2, (t1 + t2).Keys)
    ensures ReplaceEach(ReplaceEach(s, o1, t1), o2, t2) == ReplaceEach(s, o1 + o2, t1 + t2)
  {
    ReplaceEachAgrees(s, o1, t1, t1 + t2);
    ReplaceEachAgrees(ReplaceEach(s, o1, t1), o2, t2, t1 + t2);
    ReplaceEachAppend(s, o1, o2, t1 + t2);
  }

  // ----- exactly which values keep the result independent of the order -----

  function Percents(s: string): (n: nat) {
    if s == "" then 0 else (if s[0] == '%' then 1 else 0) + Percents(s[1..])
  }

  lemma {:induction false} PercentsOfConcat(a: string, b: string)
    ensures Percents(a + b) == Percents(a) + Percents(b)
  {
    if a == "" {
      assert a + b == b;
    } else {
      assert (a + b)[1..] == a[1..] + b;
      PercentsOfConcat(a[1..], b);
    }
  }

  lemma {:induction false} PlainHasNone(s: string)
    requires Plain(s)
    ensures Percents(s) == 0
  {
    if s != "" {
      assert s[0] in s;
      assert forall c :: c in s[1..] ==> c in s;
      PlainHasNone(s[1..]);
    }
  }

  /** Replacing a key by plain text removes its two '%'. */
  lemma ReplaceRemovesPercents(s: string, k: string, value: string)
    requires IsKey(k) && Plain(value)
    ensures Find(s, k, 0).Some? ==> Percents(ReplaceFirst(s, k, value)) + 2 == Percents(s)
    ensures Find(s, k, 0).None? ==> ReplaceFirst(s, k, value) == s
  {
    if Find(s, k, 0).Some? {
      var i := Find(s, k, 0).value;
      var a, b := s[..i], s[i + |k|..];
      assert s == a + k + b;
      PercentsOfConcat(a + k, b);
      PercentsOfConcat(a, k);
      PercentsOfConcat(a + value, b);
      PercentsOfConcat(a, value);
      PlainHasNone(value);
      PlainHasNone(k[2..]);
      assert k[1..][1..] == k[2..];
    }
  }

  lemma {:induction false} PlainValuesRemovePercents(s: string, order: seq<string>, table: map<string, string>)
    requires forall k :: k in order ==> k in table && IsKey(k) && Plain(table[k])
    ensures Percents(ReplaceEach(s, order, table)) <= Percents(s)
    ensures (exists k :: k in order && Find(s, k, 0).Some?) ==> Percents(ReplaceEach(s, order, table)) < Percents(s)
    decreases |order|
  {
    if order != [] {
      var first, rest := order[0], order[1..];
      assert order == [first] + rest;
      ReplaceEachAppend(s, [first], rest, table);
      OnePass(s, first, table);
      ReplaceRemovesPercents(s, first, table[first]);
      PlainValuesRemovePercents(ReplaceFirst(s, first, table[first]), rest, table);
    }
  }

  lemma OnePass(s: string, k: string, table: map<string, string>)
    requires k in table
    ensures ReplaceEach(s, [k], table) == ReplaceFirst(s, k, table[k])
  {
    assert [k][..0] == [];
    assert ReplaceEach(s, [k][..0], table) == s;
  }

  lemma {:induction false} SomeOrder(keys: set<string>) returns (order: seq<string>)
    ensures IsOrder(order, keys)
  {
    if keys == {} {
      order := [];
    } else {
      var k :| k in keys;
      var rest := SomeOrder(keys - {k});
      order := [k] + rest;
    }
  }

  lemma OddFirstOrLast(odd: string, rest: seq<string>, keys: set<string>)
    requires odd in keys && IsOrder(rest, keys - {odd})
    ensures IsOrder([odd] + rest, keys) && IsOrder(rest + [odd], keys)
  {
  }

  /** A template that completes the clash: the hole, and plain text up to the end of the key. */
  function Completed(odd: string, m: string, i: nat, k: string): (ps: seq<Piece>)
    requires i + 2 <= |m| && Clash(m, i, k)
  {
    [Hole(odd), Lit(if k <= m[i..] then "" else k[|m| - i..])]
  }

  lemma CompletedWellFormed(keys: set<string>, odd: string, m: string, i: nat, k: string)
    requires KeyTable(keys) && odd in keys && k in keys
    requires i + 2 <= |m| && Clash(m, i, k)
    ensures WellFormed(Completed(odd, m, i, k), keys)
  {
    assert IsKey(k);
    forall c | c in Completed(odd, m, i, k)[1].text ensures c != '%' {
      assert c in k[2..];
    }
  }

  /** After the hole is filled the clashing key can be read in the text. */
  lemma CompletedShowsKey(odd: string, m: string, i: nat, k: string)
    requires i + 2 <= |m| && Clash(m, i, k)
    ensures var rest := Completed(odd, m, i, k)[1].text;
            && Flat(Completed(odd, m, i, k)) == odd + rest
            && Find(m + rest, k, 0).Some?
            && ReplaceFirst(odd + rest, odd, m) == m + rest
  {
    var ps := Completed(odd, m, i, k);
    var rest := ps[1].text;
    FlatOfTwo(ps[0], ps[1]);
    ClashCompletes(m, i, k);
    assert OccursAt(odd + rest, odd, 0);
    FindIs(odd + rest, odd, 0);
  }

  lemma ClashCompletes(m: string, i: nat, k: string)
    requires i + 2 <= |m| && Clash(m, i, k)
    ensures OccursAt(m + (if k <= m[i..] then "" else k[|m| - i..]), k, i)
  {
    var rest := if k <= m[i..] then "" else k[|m| - i..];
    assert (m + rest)[i..] == m[i..] + rest;
    assert k <= m[i..] + rest;
    assert (m + rest)[i..i + |k|] == (m + rest)[i..][..|k|];
  }

  lemma FillOfCompleted(odd: string, m: string, i: nat, k: string, table: map<string, string>)
    requires i + 2 <= |m| && Clash(m, i, k) && odd in table && table[odd] == m
    ensures Flat(FillAll(Completed(odd, m, i, k), table.Keys, table)) == m + Completed(odd, m, i, k)[1].text
  {
    var ps := Completed(odd, m, i, k);
    var f := FillAll(ps, table.Keys, table);
    assert f == [Lit(m), ps[1]];
    FlatOfTwo(f[0], f[1]);
  }

  /** With a clash, walking the map so that the value comes in before the clashing key is
      looked for replaces text inside that value. */
  lemma ClashBreaksFilling(table: map<string, string>, odd: string, i: nat, k: string, others: seq<string>)
    requires KeyTable(table.Keys) && odd in table && i + 2 <= |table[odd]|
    requires k in table && k != odd && Clash(table[odd], i, k)
    requires k in others && forall x :: x in others ==> x in table && Plain(table[x])
    ensures var ps := Completed(odd, table[odd], i, k);
            ReplaceEach(Flat(ps), [odd] + others, table) != Flat(FillAll(ps, table.Keys, table))
  {
    var m := table[odd];
    var ps := Completed(odd, m, i, k);
    CompletedShowsKey(odd, m, i, k);
    FillOfCompleted(odd, m, i, k, table);
    ReplaceEachAppend(Flat(ps), [odd], others, table);
    OnePass(Flat(ps), odd, table);
    PlainValuesRemovePercents(m + ps[1].text, others, table);
  }

  /** Two passes, over `first` and then over `second`, fill every well-formed format. */
  ghost predicate AlwaysFills(first: map<string, string>, second: map<string, string>) {
    forall ps, o1, o2 ::
      WellFormed(ps, (first + second).Keys) && IsOrder(o1, first.Keys) && IsOrder(o2, second.Keys) ==>
        ReplaceEach(ReplaceEach(Flat(ps), o1, first), o2, second)
        == Flat(FillAll(ps, (first + second).Keys, first + second))
  }

  lemma InertAlwaysFills(first: map<string, string>, second: map<string, string>, odd: string)
    requires KeyTable((first + second).Keys) && first.Keys !! second.Keys && odd in first
    requires forall k :: k in first + second && k != odd ==> Plain((first + second)[k])
    requires Inert(first[odd], (first + second).Keys - {odd})
    ensures AlwaysFills(first, second)
  {
    var all := first + second;
    forall ps, o1, o2 | WellFormed(ps, all.Keys) && IsOrder(o1, first.Keys) && IsOrder(o2, second.Keys)
      ensures ReplaceEach(ReplaceEach(Flat(ps), o1, first), o2, second) == Flat(FillAll(ps, all.Keys, all))
    {
      TwoPassesAreOne(Flat(ps), o1, first, o2, second);
      SubstitutionRefinesFilling(ps, all.Keys, all, odd, o1 + o2);
    }
  }

  /** Orders of two tables that put the odd key before everything else. */
  lemma OddComesFirst(a: set<string>, b: set<string>, odd: string)
    returns (o1: seq<string>, o2: seq<string>, others: seq<string>)
    requires a !! b && odd in a
    ensures IsOrder(o1, a) && IsOrder(o2, b) && o1 + o2 == [odd] + others
    ensures forall x :: x in others <==> x in a + b && x != odd
  {
    var rest := SomeOrder(a - {odd});
    OddFirstOrLast(odd, rest, a);
    o1 := [odd] + rest;
    o2 := SomeOrder(b);
    others := rest + o2;
    assert o1 + o2 == [odd] + (rest + o2);
  }

  lemma ClashSometimesMisfills(first: map<string, string>, second: map<string, string>, odd: string, i: nat, k: string)
    returns (ps: seq<Piece>, o1: seq<string>, o2: seq<string>)
    requires KeyTable((first + second).Keys) && first.Keys !! second.Keys && odd in first
    requires forall x :: x in first + second && x != odd ==> Plain((first + second)[x])
    requires k in first + second && k != odd && i + 2 <= |first[odd]| && Clash(first[odd], i, k)
    ensures WellFormed(ps, (first + second).Keys) && IsOrder(o1, first.Keys) && IsOrder(o2, second.Keys)
    ensures ReplaceEach(ReplaceEach(Flat(ps), o1, first), o2, second)
            != Flat(FillAll(ps, (first + second).Keys, first + second))
  {
    var others;
    o1, o2, others := OddComesFirst(first.Keys, second.Keys, odd);
    ps := Completed(odd, first[odd], i, k);
    CompletedWellFormed((first + second).Keys, odd, first[odd], i, k);
    TwoPassesAreOne(Flat(ps), o1, first, o2, second);
    ClashBreaksFilling(first + second, odd, i, k, others);
  }

  /** Exactness: when all other values are plain, both passes fill every well-formed format in
      every order if and only if the remaining value is inert for the other keys of both tables. */
  lemma FillsExactlyWhenInert(first: map<string, string>, second: map<string, string>, odd: string)
    requires KeyTable((first + second).Keys) && first.Keys !! second.Keys && odd in first
    requires forall k :: k in first + second && k != odd ==> Plain((first + second)[k])
    ensures AlwaysFills(first, second) <==> Inert(first[odd], (first + second).Keys - {odd})
  {
    if Inert(first[odd], (first + second).Keys - {odd}) {
      InertAlwaysFills(first, second, odd);
    } else {
      var i: nat, k :| i + 2 <= |first[odd]| && k in (first + second).Keys - {odd} && Clash(first[odd], i, k);
      var ps, o1, o2 := ClashSometimesMisfills(first, second, odd, i, k);
    }
  }

  /** The same with the keys named. */
  lemma FillsExactlyWhenInertFor(first: map<string, string>, second: map<string, string>, odd: string,
                                 k1: set<string>, k2: set<string>)
    requires first.Keys == k1 && second.Keys == k2 && KeyTable(k1 + k2) && k1 !! k2 && odd in k1
    requires forall k :: k in k1 && k != odd ==> Plain(first[k])
    requires forall k :: k in k2 ==> Plain(second[k])
    ensures AlwaysFills(first, second) <==> Inert(first[odd], k1 + k2 - {odd})
  {
    assert (first + second).Keys == k1 + k2;
    FillsExactlyWhenInert(first, second, odd);
  }

  /** One pass gives the same text for every order of the map. */
  ghost predicate OrderFree(table: map<string, string>) {
    forall ps, o1, o2 ::
      WellFormed(ps, table.Keys) && IsOrder(o1, table.Keys) && IsOrder(o2, table.Keys) ==>
        ReplaceEach(Flat(ps), o1, table) == ReplaceEach(Flat(ps), o2, table)
  }

  lemma ClashShowsOrder(table: map<string, string>, odd: string, i: nat, k: string)
    returns (ps: seq<Piece>, o1: seq<string>, o2: seq<string>)
    requires KeyTable(table.Keys) && odd in table
    requires forall x :: x in table && x != odd ==> Plain(table[x])
    requires k in table && k != odd && i + 2 <= |table[odd]| && Clash(table[odd], i, k)
    ensures WellFormed(ps, table.Keys) && IsOrder(o1, table.Keys) && IsOrder(o2, table.Keys)
    ensures ReplaceEach(Flat(ps), o1, table) != ReplaceEach(Flat(ps), o2, table)
  {
    var others := SomeOrder(table.Keys - {odd});
    OddFirstOrLast(odd, others, table.Keys);
    o1, o2 := [odd] + others, others + [odd];
    ps := Completed(odd, table[odd], i, k);
    CompletedWellFormed(table.Keys, odd, table[odd], i, k);
    ClashBreaksFilling(table, odd, i, k, others);
    OddLastFills(ps, table, odd, others);
  }

  /** Exactness of confluence: the unspecified iteration order cannot be seen if and only if the
      value that may hold a '%' is inert for the other keys. */
  lemma OrderFreeExactlyWhenInert(table: map<string, string>, odd: string)
    requires KeyTable(table.Keys) && odd in table
    requires forall k :: k in table && k != odd ==> Plain(table[k])
    ensures OrderFree(table) <==> Inert(table[odd], table.Keys - {odd})
  {
    if Inert(table[odd], table.Keys - {odd}) {
      forall ps, o1, o2 | WellFormed(ps, table.Keys) && IsOrder(o1, table.Keys) && IsOrder(o2, table.Keys)
        ensures ReplaceEach(Flat(ps), o1, table) == ReplaceEach(Flat(ps), o2, table)
      {
        SubstitutionRefinesFilling(ps, table.Keys, table, odd, o1);
        SubstitutionRefinesFilling(ps, table.Keys, table, odd, o2);
      }
    } else {
      var i: nat, k :| i + 2 <= |table[odd]| && k in table.Keys - {odd} && Clash(table[odd], i, k);
      var ps, o1, o2 := ClashShowsOrder(table, odd, i, k);
    }
  }

  /** When the odd value comes in last, nothing can be replaced inside it. */
  lemma OddLastFills(ps: seq<Piece>, table: map<string, string>, odd: string, others: seq<string>)
    requires KeyTable(table.Keys) && odd in table && WellFormed(ps, table.Keys)
    requires forall k :: k in table && k != odd ==> Plain(table[k])
    requires IsOrder(others, table.Keys - {odd})
    ensures ReplaceEach(Flat(ps), others + [odd], table) == Flat(FillAll(ps, table.Keys, table))
  {
    var plain := table - {odd};
    SubstitutionRefinesFilling(ps, table.Keys, plain, odd, others);
    ReplaceEachAgrees(Flat(ps), others, plain, table);
    assert (others + [odd])[..|others|] == others;
    assert FillAll(ps, plain.Keys, plain) == FillAll(ps, plain.Keys, table);
    PlainFillingIsQuiet(ps, table, odd);
    ReplaceIsFill(FillAll(ps, plain.Keys, table), table.Keys, odd, table[odd]);
    FillOneMore(ps, plain.Keys, odd, table);
    assert plain.Keys + {odd} == table.Keys;
  }

  lemma PlainFillingIsQuiet(ps: seq<Piece>, table: map<string, string>, odd: string)
    requires WellFormed(ps, table.Keys)
    requires forall k :: k in table && k != odd ==> Plain(table[k])
    ensures Quiet(FillAll(ps, table.Keys - {odd}, table), table.Keys, {odd})
  {
    var f := FillAll(ps, table.Keys - {odd}, table);
    forall i | 0 <= i < |f| ensures PlainPiece(f[i]) {
      assert PlainPiece(ps[i]);
    }
  }
}
