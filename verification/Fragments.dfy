/**
 Pieces of regular expressions that parse on their own wherever they stand, so that a long
 pattern can be understood piece by piece.
 */
module Fragments {
  import opened Regex
  import opened Text

  /** Nothing in front of `s` can take its first character for a quantifier. */
  predicate FollowOk(s: string) { s == "" || !IsQuantChar(s[0]) }

  /** In front of whatever may follow, the text parses to these terms. */
  ghost predicate Compiles(pat: string, ts: seq<Term>) {
    forall rest {:trigger pat + rest} :: FollowOk(rest) && ParseTerms(rest).Some? ==>
      ParseTerms(pat + rest) == Some((ts + ParseTerms(rest).value.0, ParseTerms(rest).value.1))
  }

  lemma EmptyCompiles()
    ensures Compiles("", [])
  {
    forall rest | FollowOk(rest) && ParseTerms(rest).Some?
      ensures ParseTerms("" + rest) == Some(([] + ParseTerms(rest).value.0, ParseTerms(rest).value.1))
    {
      assert "" + rest == rest;
      assert [] + ParseTerms(rest).value.0 == ParseTerms(rest).value.0;
    }
  }

  lemma CompilesConcat(a: string, x: seq<Term>, b: string, y: seq<Term>)
    requires Compiles(a, x) && Compiles(b, y) && FollowOk(b)
    ensures Compiles(a + b, x + y)
  {
    forall rest | FollowOk(rest) && ParseTerms(rest).Some?
      ensures ParseTerms(a + b + rest) == Some((x + y + ParseTerms(rest).value.0, ParseTerms(rest).value.1))
    {
      var more := ParseTerms(rest).value.0;
      FollowConcat(b, rest);
      assert ParseTerms(b + rest) == Some((y + more, ParseTerms(rest).value.1));
      Regroup(a, b, rest);
      assert ParseTerms(a + (b + rest)) == Some((x + (y + more), ParseTerms(rest).value.1));
      assert x + (y + more) == x + y + more;
    }
  }

  lemma FollowConcat(b: string, rest: string)
    requires FollowOk(b) && FollowOk(rest)
    ensures FollowOk(b + rest)
  {
    if b == "" { assert b + rest == rest; }
  }

  /** One atom and its quantifier. */
  lemma OneTermCompiles(pat: string, quant: string, a: Atom, q: Quant)
    requires pat != "" && pat[0] != ')'
    requires forall rest {:trigger quant + rest} :: FollowOk(rest) ==>
        ParseAtom(pat + (quant + rest)) == Some((a, quant + rest))
    requires forall rest {:trigger quant + rest} :: FollowOk(rest) ==> ParseQuant(quant + rest) == Some((q, rest))
    ensures Compiles(pat + quant, [Term(a, q)])
  {
    forall rest | FollowOk(rest) && ParseTerms(rest).Some?
      ensures ParseTerms(pat + quant + rest)
          == Some(([Term(a, q)] + ParseTerms(rest).value.0, ParseTerms(rest).value.1))
    {
      Regroup(pat, quant, rest);
      assert (pat + (quant + rest))[0] == pat[0];
      assert ParseAtom(pat + (quant + rest)) == Some((a, quant + rest));
    }
  }

  lemma NoQuantCompiles(pat: string, a: Atom)
    requires pat != "" && pat[0] != ')'
    requires forall rest {:trigger pat + rest} :: FollowOk(rest) ==> ParseAtom(pat + rest) == Some((a, rest))
    ensures Compiles(pat, [Term(a, Once)])
  {
    forall rest | FollowOk(rest) && ParseTerms(rest).Some?
      ensures ParseTerms(pat + rest) == Some(([Term(a, Once)] + ParseTerms(rest).value.0, ParseTerms(rest).value.1))
    {
      assert (pat + rest)[0] == pat[0];
    }
  }

  lemma CharCompiles(c: char)
    requires IsOrdinary(c)
    ensures Compiles([c], [Term(Chr(c), Once)])
  {
    forall rest | FollowOk(rest) ensures ParseAtom([c] + rest) == Some((Chr(c), rest)) {
      assert ([c] + rest)[1..] == rest;
    }
    NoQuantCompiles([c], Chr(c));
  }

  lemma EscapeCompiles(c: char)
    requires IsIdentityEscape(c)
    ensures Compiles(['\\', c], [Term(Chr(c), Once)])
  {
    forall rest | FollowOk(rest) ensures ParseAtom(['\\', c] + rest) == Some((Chr(c), rest)) {
      assert (['\\', c] + rest)[2..] == rest;
    }
    NoQuantCompiles(['\\', c], Chr(c));
  }

  lemma SpaceCompiles()
    ensures Compiles("\\s", [Term(SpaceClass, Once)])
  {
    forall rest | FollowOk(rest) ensures ParseAtom("\\s" + rest) == Some((SpaceClass, rest)) {
      assert ("\\s" + rest)[2..] == rest;
    }
    NoQuantCompiles("\\s", SpaceClass);
  }

  lemma AnyCompiles()
    ensures Compiles(".", [Term(AnyChar, Once)])
  {
    forall rest | FollowOk(rest) ensures ParseAtom("." + rest) == Some((AnyChar, rest)) {
      assert ("." + rest)[1..] == rest;
    }
    NoQuantCompiles(".", AnyChar);
  }

  /** "{n}" with one digit. */
  lemma BracesParse(d: char, rest: string)
    requires IsDigit(d)
    ensures ParseQuant(['{', d, '}'] + rest) == Some((Exactly(DigitValue(d)), rest))
  {
    var s := ['{', d, '}'] + rest;
    assert s[1..] == [d] + (['}'] + rest);
    assert ([d] + (['}'] + rest))[1..] == ['}'] + rest;
    assert ParseDigits(['}'] + rest) == ("", ['}'] + rest);
    assert ParseDigits(s[1..]) == ([d] + "", ['}'] + rest);
    assert [d] + "" == [d] && [d][..0] == "";
    assert (['}'] + rest)[1..] == rest;
    assert Value([d]) == DigitValue(d);
  }

  lemma DigitsCompile(d: char)
    requires IsDigit(d)
    ensures Compiles("\\d" + ['{', d, '}'], [Term(DigitClass, Exactly(DigitValue(d)))])
  {
    var quant := ['{', d, '}'];
    forall rest | FollowOk(rest) ensures ParseAtom("\\d" + (quant + rest)) == Some((DigitClass, quant + rest)) {
      assert ("\\d" + (quant + rest))[2..] == quant + rest;
    }
    forall rest | FollowOk(rest) ensures ParseQuant(quant + rest) == Some((Exactly(DigitValue(d)), rest)) {
      BracesParse(d, rest);
    }
    OneTermCompiles("\\d", quant, DigitClass, Exactly(DigitValue(d)));
  }

  lemma SomeDigitsCompile()
    ensures Compiles("\\d" + "+", [Term(DigitClass, OneOrMore)])
  {
    forall rest | FollowOk(rest) ensures ParseAtom("\\d" + ("+" + rest)) == Some((DigitClass, "+" + rest)) {
      assert ("\\d" + ("+" + rest))[2..] == "+" + rest;
    }
    forall rest | FollowOk(rest) ensures ParseQuant("+" + rest) == Some((OneOrMore, rest)) {
      assert ("+" + rest)[1..] == rest;
    }
    OneTermCompiles("\\d", "+", DigitClass, OneOrMore);
  }

  lemma AnythingCompiles()
    ensures Compiles("." + "*", [Term(AnyChar, ZeroOrMore)])
  {
    forall rest | FollowOk(rest) ensures ParseAtom("." + ("*" + rest)) == Some((AnyChar, "*" + rest)) {
      assert ("." + ("*" + rest))[1..] == "*" + rest;
    }
    forall rest | FollowOk(rest) ensures ParseQuant("*" + rest) == Some((ZeroOrMore, rest)) {
      assert ("*" + rest)[1..] == rest;
    }
    OneTermCompiles(".", "*", AnyChar, ZeroOrMore);
  }

  const LETTERS := [('A', 'Z'), ('a', 'z')]

  lemma LettersParse(rest: string)
    ensures ParseAtom("[A-Za-z]" + rest) == Some((Ranges(LETTERS), rest))
  {
    var s := "[A-Za-z]" + rest;
    assert s[1..] == "A-Z" + ("a-z" + ("]" + rest));
    assert (s[1..])[3..] == "a-z" + ("]" + rest);
    assert ("a-z" + ("]" + rest))[3..] == "]" + rest;
    assert ("]" + rest)[1..] == rest;
    assert ParseRanges("]" + rest) == Some(([], rest));
    assert [('a', 'z')] + [] == [('a', 'z')] && [('A', 'Z')] + [('a', 'z')] == LETTERS;
    assert ParseRanges("a-z" + ("]" + rest)) == Some(([('a', 'z')] + [], rest));
    assert ParseRanges(s[1..]) == Some(([('A', 'Z')] + [('a', 'z')], rest));
  }

  lemma LettersCompile(d: char)
    requires IsDigit(d)
    ensures Compiles("[A-Za-z]" + ['{', d, '}'], [Term(Ranges(LETTERS), Exactly(DigitValue(d)))])
  {
    var quant := ['{', d, '}'];
    forall rest | FollowOk(rest)
      ensures ParseAtom("[A-Za-z]" + (quant + rest)) == Some((Ranges(LETTERS), quant + rest))
    {
      LettersParse(quant + rest);
    }
    forall rest | FollowOk(rest) ensures ParseQuant(quant + rest) == Some((Exactly(DigitValue(d)), rest)) {
      BracesParse(d, rest);
    }
    OneTermCompiles("[A-Za-z]", quant, Ranges(LETTERS), Exactly(DigitValue(d)));
  }

  lemma GroupParses(b: string, x: seq<Term>, rest: string)
    requires Compiles(b, x)
    ensures ParseAtom("(" + b + ")" + rest) == Some((Group(x), rest))
  {
    var s := "(" + b + ")" + rest;
    assert s[1..] == b + (")" + rest);
    assert ParseTerms(")" + rest) == Some(([], ")" + rest));
    assert FollowOk(")" + rest);
    assert x + [] == x;
    assert ParseTerms(s[1..]) == Some((x, ")" + rest));
    assert (")" + rest)[1..] == rest;
  }

  /** A capture group around something that compiles. */
  lemma GroupCompiles(b: string, x: seq<Term>)
    requires Compiles(b, x)
    ensures Compiles("(" + b + ")", [Term(Group(x), Once)])
  {
    forall rest | FollowOk(rest) ensures ParseAtom("(" + b + ")" + rest) == Some((Group(x), rest)) {
      GroupParses(b, x, rest);
    }
    NoQuantCompiles("(" + b + ")", Group(x));
  }

  // ----- matches put together -----

  lemma MatchOne(t: Term, s: string)
    requires MatchTerm(t, s)
    ensures MatchTerms([t], s)
  {
    assert s[..|s|] == s && s[|s|..] == "";
    assert [t][1..] == [];
  }

  lemma {:induction false} MatchConcat(x: seq<Term>, s: string, y: seq<Term>, t: string)
    requires MatchTerms(x, s) && MatchTerms(y, t)
    ensures MatchTerms(x + y, s + t)
    decreases |x|
  {
    if x == [] {
      assert x + y == y && s + t == t;
    } else {
      var i :| 0 <= i <= |s| && MatchTerm(x[0], s[..i]) && MatchTerms(x[1..], s[i..]);
      MatchConcat(x[1..], s[i..], y, t);
      assert (x + y)[1..] == x[1..] + y;
      assert (s + t)[..i] == s[..i] && (s + t)[i..] == s[i..] + t;
    }
  }

  /** A match of terms put together is a match of each part. */
  lemma {:induction false} SplitMatch(x: seq<Term>, y: seq<Term>, s: string) returns (i: nat)
    requires MatchTerms(x + y, s)
    ensures i <= |s| && MatchTerms(x, s[..i]) && MatchTerms(y, s[i..])
    decreases |x|
  {
    if x == [] {
      assert x + y == y && s[0..] == s;
      i := 0;
    } else {
      assert (x + y)[0] == x[0] && (x + y)[1..] == x[1..] + y;
      var j: nat :| j <= |s| && MatchTerm(x[0], s[..j]) && MatchTerms(x[1..] + y, s[j..]);
      var k := SplitMatch(x[1..], y, s[j..]);
      i := j + k;
      assert s[..i][..j] == s[..j] && s[..i][j..] == s[j..][..k] && s[i..] == s[j..][k..];
    }
  }

  /** The pattern text parses wherever it stands, and the name text matches it. */
  ghost predicate Fragment(pat: string, name: string) {
    FollowOk(pat) && exists ts :: Compiles(pat, ts) && MatchTerms(ts, name)
  }

  lemma FragmentConcat(a: string, s: string, b: string, t: string)
    requires Fragment(a, s) && Fragment(b, t)
    ensures Fragment(a + b, s + t)
  {
    var x :| Compiles(a, x) && MatchTerms(x, s);
    var y :| Compiles(b, y) && MatchTerms(y, t);
    CompilesConcat(a, x, b, y);
    MatchConcat(x, s, y, t);
    FollowConcat(a, b);
  }

  lemma EmptyFragment()
    ensures Fragment("", "")
  {
    EmptyCompiles();
    assert MatchTerms([], "");
  }

  lemma FragmentMatches(pat: string, name: string)
    requires Fragment(pat, name)
    ensures RegexMatch(pat, name)
  {
    var ts :| Compiles(pat, ts) && MatchTerms(ts, name);
    assert ParseTerms("") == Some(([], ""));
    assert FollowOk("") && pat + "" == pat && ts + [] == ts;
  }

  lemma TermFragment(pat: string, t: Term, name: string)
    requires FollowOk(pat) && Compiles(pat, [t]) && MatchTerm(t, name)
    ensures Fragment(pat, name)
  {
    MatchOne(t, name);
  }
}
