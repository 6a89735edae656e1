/**
 What the expressions of the purge pattern match at most: without a '+' in use, no more solid
 characters than the text they stand for, `%%time` and `%%procname` excepted.
 */
module PurgeLimits {
  import opened Calendar
  import opened Fragments
  import opened Placeholders
  import opened PlusSigns
  import opened PurgePattern
  import opened Regex
  import opened Template
  import opened Text
  import opened TimeText

  // ----- `%%time`: at most so many solid characters -----

  ghost predicate Bound(ts: seq<Term>, w: int) {
    forall s :: MatchTerms(ts, s) ==> Solid(s) <= w
  }

  /** No match of the pattern has more than `w` solid characters. */
  ghost predicate Bounded(pat: string, w: int) {
    FollowOk(pat) && exists ts :: Compiles(pat, ts) && Bound(ts, w)
  }

  lemma BoundedConcat(a: string, v: int, b: string, w: int)
    requires Bounded(a, v) && Bounded(b, w)
    ensures Bounded(a + b, v + w)
  {
    var x :| Compiles(a, x) && Bound(x, v);
    var y :| Compiles(b, y) && Bound(y, w);
    CompilesConcat(a, x, b, y);
    FollowConcat(a, b);
    forall s | MatchTerms(x + y, s) ensures Solid(s) <= v + w {
      var i := SplitMatch(x, y, s);
      assert s == s[..i] + s[i..];
      SolidConcat(s[..i], s[i..]);
    }
    assert Bound(x + y, v + w);
  }

  lemma OneBound(t: Term, w: int)
    requires forall s :: MatchTerm(t, s) ==> Solid(s) <= w
    ensures Bound([t], w)
  {
    forall s | MatchTerms([t], s) ensures Solid(s) <= w {
      var i :| 0 <= i <= |s| && MatchTerm([t][0], s[..i]) && MatchTerms([t][1..], s[i..]);
      assert [t][1..] == [] && s[..i] == s;
    }
  }

  lemma BoundedTerm(pat: string, t: Term, w: int)
    requires FollowOk(pat) && Compiles(pat, [t]) && forall s :: MatchTerm(t, s) ==> Solid(s) <= w
    ensures Bounded(pat, w)
  {
    OneBound(t, w);
  }

  lemma BoundedAtom(pat: string, a: Atom)
    requires FollowOk(pat) && Compiles(pat, [Term(a, Once)]) && (a.Chr? || a.SpaceClass? || a.AnyChar?)
    ensures Bounded(pat, if a.Chr? then Solid([a.c]) else 1)
  {
    forall s | MatchTerm(Term(a, Once), s) ensures Solid(s) <= if a.Chr? then Solid([a.c]) else 1 {
      assert MatchAtom(a, s);
      assert s == [s[0]];
      SolidChar(s[0]);
    }
    BoundedTerm(pat, Term(a, Once), if a.Chr? then Solid([a.c]) else 1);
  }

  lemma {:induction false} TimesBound(a: Atom, n: nat, s: string)
    requires (a.DigitClass? || a.Ranges?) && MatchTimes(a, n, s)
    ensures Solid(s) <= if a.DigitClass? then 0 else n
    decreases n
  {
    if n > 0 {
      var i :| 0 <= i <= |s| && MatchAtom(a, s[..i]) && MatchTimes(a, n - 1, s[i..]);
      TimesBound(a, n - 1, s[i..]);
      SolidChar(s[..i][0]);
      assert s[..i] == [s[..i][0]] && s == s[..i] + s[i..];
      SolidConcat(s[..i], s[i..]);
    }
  }

  lemma BoundedGroup(b: string, t: Term, w: int)
    requires Compiles(b, [t]) && forall s :: MatchTerm(t, s) ==> Solid(s) <= w
    ensures Bounded("(" + b + ")", w)
  {
    GroupCompiles(b, [t]);
    OneBound(t, w);
    BoundedTerm("(" + b + ")", Term(Group([t]), Once), w);
  }

  lemma BoundedDigits(d: char)
    requires IsDigit(d)
    ensures Bounded("\\d" + ['{', d, '}'], 0) && Bounded("(" + ("\\d" + ['{', d, '}']) + ")", 0)
  {
    DigitsCompile(d);
    var t := Term(DigitClass, Exactly(DigitValue(d)));
    forall s | MatchTerm(t, s) ensures Solid(s) <= 0 { TimesBound(DigitClass, DigitValue(d), s); }
    BoundedTerm("\\d" + ['{', d, '}'], t, 0);
    BoundedGroup("\\d" + ['{', d, '}'], t, 0);
  }

  lemma BoundedNumbers()
    ensures Bounded(T2, 0) && Bounded(T3, 0) && Bounded(T4, 0) && Bounded("\\d{4}", 0)
  {
    BoundedDigits('2');
    BoundedDigits('3');
    BoundedDigits('4');
    assert T2 == "(" + ("\\d" + ['{', '2', '}']) + ")";
    assert T3 == "(" + ("\\d" + ['{', '3', '}']) + ")";
    assert T4 == "(" + ("\\d" + ['{', '4', '}']) + ")";
    assert "\\d{4}" == "\\d" + ['{', '4', '}'];
  }

  lemma BoundedMonstr()
    ensures Bounded(T_MONSTR, 3)
  {
    LettersCompile('3');
    var t := Term(Ranges(LETTERS), Exactly(3));
    forall s | MatchTerm(t, s) ensures Solid(s) <= 3 { TimesBound(Ranges(LETTERS), 3, s); }
    BoundedGroup("[A-Za-z]" + ['{', '3', '}'], t, 3);
    MonstrText();
  }

  /** The expression of `%%pid` matches digits only, though any number of them. */
  lemma BoundedPid()
    ensures Bounded("(\\d+)", 0)
  {
    SomeDigitsCompile();
    var t := Term(DigitClass, OneOrMore);
    forall s | MatchTerm(t, s) ensures Solid(s) <= 0 {
      var n: nat :| n >= 1 && MatchTimes(DigitClass, n, s);
      TimesBound(DigitClass, n, s);
    }
    BoundedGroup("\\d" + "+", t, 0);
    assert "(\\d+)" == "(" + ("\\d" + "+") + ")";
  }

  lemma BoundedNothing()
    ensures Bounded("", 0)
  {
    EmptyCompiles();
    assert Bound([], 0);
  }

  lemma BoundedChar(c: char)
    requires c != '+'
    ensures Bounded(EscapeChar(c), Solid([c]))
  {
    if IsSpecial(c) {
      EscapeCompiles(c);
    } else {
      CharCompiles(c);
    }
    BoundedAtom(EscapeChar(c), Chr(c));
  }

  lemma {:induction false} BoundedText(s: string)
    requires NoPlus(s)
    ensures Bounded(Escape(s), Solid(s))
  {
    if s == "" {
      BoundedNothing();
    } else {
      assert s[0] in s && forall c :: c in s[1..] ==> c in s;
      BoundedChar(s[0]);
      SolidChar(s[0]);
      BoundedText(s[1..]);
      BoundedConcat(EscapeChar(s[0]), Solid([s[0]]), Escape(s[1..]), Solid(s[1..]));
    }
  }

  lemma BoundedBetween(a: string, v: int, c: string, b: string, w: int)
    requires Bounded(a, v) && Bounded(c, 1) && Bounded(b, w)
    ensures Bounded(a + c + b, v + 1 + w)
  {
    BoundedConcat(a, v, c, 1);
    BoundedConcat(a + c, v + 1, b, w);
  }

  lemma BoundedSeparators()
    ensures Bounded(":", 1) && Bounded("\\-", 1) && Bounded("\\s", 1) && Bounded(".", 1)
  {
    BoundedChar(':');
    BoundedChar('-');
    SolidChar(':');
    SolidChar('-');
    SpaceCompiles();
    BoundedAtom("\\s", SpaceClass);
    AnyCompiles();
    BoundedAtom(".", AnyChar);
  }

  lemma BoundedDate()
    ensures Bounded(T_DATE, 2)
  {
    BoundedNumbers();
    BoundedSeparators();
    BoundedBetween(T4, 0, "\\-", T2, 0);
    BoundedBetween(T4 + "\\-" + T2, 1, "\\-", T2, 0);
  }

  lemma BoundedDatatime()
    ensures Bounded(T_DATATIME, 5)
  {
    BoundedDate();
    BoundedNumbers();
    BoundedSeparators();
    BoundedBetween(T_DATE, 2, "\\s", T2, 0);
    BoundedBetween(T_DATE + "\\s" + T2, 3, ":", T2, 0);
    BoundedBetween(T_DATE + "\\s" + T2 + ":" + T2, 4, ":", T2, 0);
  }

  // ----- piece by piece -----

  lemma BoundedTimeField(k: string, t: nat)
    requires k in TIME_KEYS && k != TIME && InRange(t)
    ensures Bounded(VolatileTable()[k], Solid(TimeTable(t)[k]))
  {
    BoundedNumbers();
    BoundedDate();
    BoundedDatatime();
    BoundedMonstr();
    SolidTimePairs((a: string, b: string) => Bounded(a, Solid(b)), k, t);
  }

  lemma BoundedVolatile(k: string, c: FileNaming, pid: nat, proc: string, t: nat)
    requires k in VOLATILE_KEYS && k != TIME && k != PROCNAME && InRange(t)
    ensures Bounded(VolatileTable()[k], Solid((NameTable(c, pid, proc) + TimeTable(t))[k]))
  {
    if k in TIME_KEYS {
      BoundedTimeField(k, t);
    } else {
      BoundedPid();
      SolidNumber(pid);
    }
    VolatilePairs((a: string, b: string) => Bounded(a, Solid(b)), k, c, pid, proc, t);
  }

  lemma BoundedKey(k: string)
    requires k in FILE_KEYS
    ensures Bounded(k, Solid(k))
  {
    FileKeyChars(k);
    EscapeUnspecial(k);
    BoundedText(k);
  }

  lemma BoundedFixed(k: string, c: FileNaming, pid: nat, proc: string, t: nat)
    requires k in FIXED_NAME_KEYS && NoPlus(FixedTable(c)[k])
    ensures Bounded(Escape(FixedTable(c)[k]), Solid((NameTable(c, pid, proc) + TimeTable(t))[k]))
  {
    if k in TIME_KEYS { TimeKeyNotName(k); }
    FixedText(k, c, pid, proc);
    BoundedText(FixedTable(c)[k]);
  }

  lemma BoundedPiece(ps: seq<Piece>, c: FileNaming, pid: nat, proc: string, t: nat, i: nat)
    requires WellFormed(ps, FILE_KEYS) && InRange(t)
    requires i < |ps| && NoPlusAt(ps, c, i) && (ps[i] == Hole(TIME) || ps[i] == Hole(PROCNAME) ==> ps[i] in ps[..i])
    ensures Bounded(Shown(PatternPieces(ps, c)[i]), Solid(Shown(NamePieces(ps, c, pid, proc, t)[i])))
  {
    match ps[i] {
      case Lit(text) =>
        BoundedText(text);
      case Hole(k) =>
        assert ps[i] in ps && k in FILE_KEYS;
        KeysApart(k);
        if ps[i] in ps[..i] {
          BoundedKey(k);
        } else if k in FIXED_NAME_KEYS {
          BoundedFixed(k, c, pid, proc, t);
        } else {
          BoundedVolatile(k, c, pid, proc, t);
        }
    }
    PiecePairs((a: string, b: string) => Bounded(a, Solid(b)), ps, c, pid, proc, t, i);
  }

  lemma {:induction false} BoundedFlat(pat: seq<Piece>, name: seq<Piece>)
    requires |pat| == |name| && forall i :: 0 <= i < |pat| ==> Bounded(Shown(pat[i]), Solid(Shown(name[i])))
    ensures Bounded(Flat(pat), Solid(Flat(name)))
    decreases |pat|
  {
    if pat == [] {
      BoundedNothing();
    } else {
      BoundedFlat(pat[1..], name[1..]);
      BoundedConcat(Shown(pat[0]), Solid(Shown(name[0])), Flat(pat[1..]), Solid(Flat(name[1..])));
      SolidConcat(Shown(name[0]), Flat(name[1..]));
    }
  }
}
