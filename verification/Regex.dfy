/**
 The part of the ECMAScript regular expression grammar that the purge pattern uses, after
 section 15.10 of ECMA-262, 3rd edition, with the meaning of a full match (`std::regex_match`).
 */
module Regex {
  import opened Text

  datatype Quant = Once | Exactly(n: nat) | OneOrMore | ZeroOrMore

  datatype Atom = Chr(c: char) | AnyChar | DigitClass | SpaceClass | Ranges(rs: seq<(char, char)>)
      | Group(body: seq<Term>)

  datatype Term = Term(atom: Atom, quant: Quant)

  // ----- meaning -----

  predicate IsLineTerminator(c: char) { c in {'\n', '\r', '\U{2028}', '\U{2029}'} }

  predicate IsSpace(c: char) {
    c in {' ', '\t', '\n', '\r', '\U{0B}', '\U{0C}', '\U{A0}', '\U{2028}', '\U{2029}'}
  }

  predicate InRanges(c: char, rs: seq<(char, char)>) {
    exists i :: 0 <= i < |rs| && rs[i].0 <= c <= rs[i].1
  }

  ghost predicate MatchAtom(a: Atom, s: string)
    decreases a, 0
  {
    match a
    case Chr(c) => s == [c]
    case AnyChar => |s| == 1 && !IsLineTerminator(s[0])
    case DigitClass => |s| == 1 && IsDigit(s[0])
    case SpaceClass => |s| == 1 && IsSpace(s[0])
    case Ranges(rs) => |s| == 1 && InRanges(s[0], rs)
    case Group(body) => MatchTerms(body, s)
  }

  /** `s` is `n` matches of the atom one behind the other. */
  ghost predicate MatchTimes(a: Atom, n: nat, s: string)
    decreases a, n + 1
  {
    if n == 0 then s == ""
    else exists i :: 0 <= i <= |s| && MatchAtom(a, s[..i]) && MatchTimes(a, n - 1, s[i..])
  }

  ghost predicate MatchTerm(t: Term, s: string)
    decreases t, 0
  {
    match t.quant
    case Once => MatchAtom(t.atom, s)
    case Exactly(n) => MatchTimes(t.atom, n, s)
    case OneOrMore => exists n: nat :: n >= 1 && MatchTimes(t.atom, n, s)
    case ZeroOrMore => exists n: nat :: MatchTimes(t.atom, n, s)
  }

  ghost predicate MatchTerms(ts: seq<Term>, s: string)
    decreases ts, 0
  {
    if ts == [] then s == ""
    else exists i :: 0 <= i <= |s| && MatchTerm(ts[0], s[..i]) && MatchTerms(ts[1..], s[i..])
  }

  // ----- parsing -----

  predicate IsQuantChar(c: char) { c in {'*', '+', '?', '{'} }

  /** Characters that stand for themselves. */
  predicate IsOrdinary(c: char) {
    c !in {'^', '$', '\\', '.', '*', '+', '?', '(', ')', '[', ']', '{', '}', '|'}
  }

  /** Characters an escape turns into themselves. */
  predicate IsIdentityEscape(c: char) {
    !('a' <= c <= 'z' || 'A' <= c <= 'Z' || '0' <= c <= '9' || c == '_')
  }

  ghost function ParseDigits(s: string): (r: (string, string))
    ensures AllDigits(r.0) && s == r.0 + r.1
  {
    if s == "" || !IsDigit(s[0]) then ("", s)
    else
      var (ds, rest) := ParseDigits(s[1..]);
      ([s[0]] + ds, rest)
  }

  /** A quantifier, if there is one; `None` is a syntax error or outside the subset. */
  ghost function ParseQuant(s: string): (r: Option<(Quant, string)>)
    ensures r.Some? ==> |r.value.1| <= |s|
  {
    if s == "" || !IsQuantChar(s[0]) then Some((Once, s))
    else if s[0] == '+' then Some((OneOrMore, s[1..]))
    else if s[0] == '*' then Some((ZeroOrMore, s[1..]))
    else if s[0] == '?' then None
    else
      var (ds, rest) := ParseDigits(s[1..]);
      if ds != "" && rest != "" && rest[0] == '}' then Some((Exactly(Value(ds)), rest[1..])) else None
  }

  /** The ranges of a class up to its closing bracket. */
  ghost function ParseRanges(s: string): (r: Option<(seq<(char, char)>, string)>)
    ensures r.Some? ==> |r.value.1| < |s|
    decreases |s|
  {
    if s == "" then None
    else if s[0] == ']' then Some(([], s[1..]))
    else if |s| < 3 || s[1] != '-' || s[0] == '\\' || s[2] == '\\' || s[2] == ']' then None
    else
      match ParseRanges(s[3..])
      case None => None
      case Some(more) => Some(([(s[0], s[2])] + more.0, more.1))
  }

  ghost function ParseAtom(s: string): (r: Option<(Atom, string)>)
    requires s != ""
    ensures r.Some? ==> |r.value.1| < |s|
    decreases |s|, 0
  {
    if s[0] == '(' then
      match ParseTerms(s[1..])
      case None => None
      case Some(body) =>
        if body.1 != "" && body.1[0] == ')' then Some((Group(body.0), body.1[1..])) else None
    else if s[0] == '[' then
      match ParseRanges(s[1..])
      case None => None
      case Some(c) => Some((Ranges(c.0), c.1))
    else if s[0] == '.' then Some((AnyChar, s[1..]))
    else if s[0] == '\\' then
      if |s| == 1 then None
      else if s[1] == 'd' then Some((DigitClass, s[2..]))
      else if s[1] == 's' then Some((SpaceClass, s[2..]))
      else if IsIdentityEscape(s[1]) then Some((Chr(s[1]), s[2..]))
      else None
    else if IsOrdinary(s[0]) then Some((Chr(s[0]), s[1..]))
    else None
  }

  /** Terms up to the end or to an unopened ')'. */
  ghost function ParseTerms(s: string): (r: Option<(seq<Term>, string)>)
    ensures r.Some? ==> |r.value.1| <= |s|
    decreases |s|, 1
  {
    if s == "" || s[0] == ')' then Some(([], s))
    else
      match ParseAtom(s)
      case None => None
      case Some(a) =>
        match ParseQuant(a.1)
        case None => None
        case Some(q) =>
          match ParseTerms(q.1)
          case None => None
          case Some(more) => Some(([Term(a.0, q.0)] + more.0, more.1))
  }

  /** `std::regex_match(name, std::regex(pattern))`; a pattern that does not parse throws and
      matches nothing. */
  ghost predicate RegexMatch(pattern: string, name: string) {
    var r := ParseTerms(pattern);
    r.Some? && r.value.1 == "" && MatchTerms(r.value.0, name)
  }
}
