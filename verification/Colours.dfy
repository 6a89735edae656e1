/**
 `StandardOutputTarget::Modify_format_on_the_fly`: ANSI colour codes around `%%level`, put in
 before the placeholders are filled.
 */
module Colours {
  import opened LogFormat
  import opened Placeholders
  import opened Replacement
  import opened Template
  import opened Text
  import opened TimeText

  const ESC := '\U{1B}'
  const RESET := [ESC] + "[0m"

  /** The colour code of a level; other levels are left as they are. */
  function Colour(level: int): (code: Option<string>) {
    match level
    case 0 => Some([ESC] + "[36m")
    case 1 => Some([ESC] + "[32m")
    case 2 => Some([ESC] + "[33m")
    case 3 => Some([ESC] + "[31m")
    case 4 => Some([ESC] + "[35m")
    case 5 => Some([ESC] + "[34m")
    case _ => None
  }

  method ModifyFormat(format: string, level: int) returns (r: string)
    ensures r == match Colour(level)
                 case None => format
                 case Some(code) => Substitute(format, LEVEL, code + LEVEL + RESET)
  {
    r := format;
    match Colour(level) {
      case None =>
      case Some(code) =>
        var count;
        r, count := ReplaceAll(r, LEVEL, code + LEVEL + RESET);
    }
  }

  // ----- in terms of pieces -----

  function Wrap(ps: seq<Piece>, code: string): (r: seq<Piece>) {
    if ps == [] then []
    else (if ps[0] == Hole(LEVEL) then [Lit(code), ps[0], Lit(RESET)] else [ps[0]]) + Wrap(ps[1..], code)
  }

  lemma {:induction false} WrapAppend(a: seq<Piece>, b: seq<Piece>, code: string)
    ensures Wrap(a + b, code) == Wrap(a, code) + Wrap(b, code)
  {
    if a == [] {
      assert a + b == b;
    } else {
      assert (a + b)[1..] == a[1..] + b;
      WrapAppend(a[1..], b, code);
    }
  }

  lemma {:induction false} WrapWithoutLevel(ps: seq<Piece>, code: string)
    requires Hole(LEVEL) !in ps
    ensures Wrap(ps, code) == ps
  {
    if ps != [] {
      WrapWithoutLevel(ps[1..], code);
    }
  }

  lemma WellFormedParts(ps: seq<Piece>, keys: set<string>, j: nat)
    requires WellFormed(ps, keys) && j <= |ps|
    ensures WellFormed(ps[j..], keys)
  {
    forall i | 0 <= i < |ps[j..]| ensures PlainPiece(ps[j..][i]) && (ps[j..][i].Hole? ==> ps[j..][i].key in keys) {
      assert ps[j..][i] == ps[j + i];
    }
  }

  lemma FlatOfWrapped(code: string)
    ensures Flat([Lit(code), Hole(LEVEL), Lit(RESET)]) == code + LEVEL + RESET
  {
    FlatOfThree(Lit(code), Hole(LEVEL), Lit(RESET));
  }

  /** Replacing every `%%level` in the string is wrapping every level hole. */
  lemma {:induction false} ModifyIsWrap(ps: seq<Piece>, keys: set<string>, code: string)
    requires KeyTable(keys) && LEVEL in keys && WellFormed(ps, keys)
    ensures Substitute(Flat(ps), LEVEL, code + LEVEL + RESET) == Flat(Wrap(ps, code))
    decreases |ps|
  {
    var with := code + LEVEL + RESET;
    assert Quiet(ps, keys, {LEVEL});
    FindIsFirstHole(ps, keys, LEVEL);
    match FirstHole(ps, LEVEL)
    case None =>
      WrapWithoutLevel(ps, code);
    case Some(j) =>
      var i, rest := |Flat(ps[..j])|, ps[j + 1..];
      FlatAt(ps, j);
      assert Flat(ps)[..i] == Flat(ps[..j]) && Flat(ps)[i + |LEVEL|..] == Flat(rest);
      WellFormedParts(ps, keys, j + 1);
      ModifyIsWrap(rest, keys, code);
      WrapAtFirst(ps, j, code);
  }

  lemma WrapAtFirst(ps: seq<Piece>, j: nat, code: string)
    requires j < |ps| && ps[j] == Hole(LEVEL) && Hole(LEVEL) !in ps[..j]
    ensures Flat(Wrap(ps, code)) == Flat(ps[..j]) + (code + LEVEL + RESET) + Flat(Wrap(ps[j + 1..], code))
  {
    var lead, rest := ps[..j], ps[j + 1..];
    var mid := [Lit(code), Hole(LEVEL), Lit(RESET)];
    assert ps == lead + ([Hole(LEVEL)] + rest);
    WrapAppend(lead, [Hole(LEVEL)] + rest, code);
    WrapWithoutLevel(lead, code);
    assert ([Hole(LEVEL)] + rest)[1..] == rest;
    assert Wrap([Hole(LEVEL)] + rest, code) == mid + Wrap(rest, code);
    FlatSplit(lead, mid + Wrap(rest, code));
    FlatSplit(mid, Wrap(rest, code));
    FlatOfWrapped(code);
    Regroup(Flat(lead), code + LEVEL + RESET, Flat(Wrap(rest, code)));
  }

  lemma {:induction false} WrapWellFormed(ps: seq<Piece>, keys: set<string>, code: string)
    requires WellFormed(ps, keys) && Plain(code)
    ensures WellFormed(Wrap(ps, code), keys)
  {
    if ps != [] {
      WellFormedParts(ps, keys, 1);
      WrapWellFormed(ps[1..], keys, code);
      assert PlainPiece(ps[0]) && (ps[0].Hole? ==> ps[0].key in keys);
      assert Plain(RESET);
    }
  }

  // ----- deleting the codes -----

  /** What follows the first 'm'. */
  function AfterM(s: string): (r: string)
    ensures |r| <= |s|
  {
    if s == "" then "" else if s[0] == 'm' then s[1..] else AfterM(s[1..])
  }

  /** The text without its escape codes, each running from ESC to the next 'm'. */
  function Strip(s: string): (r: string)
    decreases |s|
  {
    if s == "" then ""
    else if s[0] == ESC then Strip(AfterM(s[1..]))
    else [s[0]] + Strip(s[1..])
  }

  predicate NoEscape(s: string) { ESC !in s }

  lemma {:induction false} StripText(a: string, b: string)
    requires NoEscape(a)
    ensures Strip(a + b) == a + Strip(b)
  {
    if a == "" {
      assert a + b == b;
    } else {
      assert (a + b)[1..] == a[1..] + b;
      StripText(a[1..], b);
    }
  }

  /** ESC, then characters other than 'm', then 'm'. */
  ghost predicate IsCode(s: string) {
    |s| >= 2 && s[0] == ESC && s[|s| - 1] == 'm' && 'm' !in s[1..|s| - 1]
  }

  lemma {:induction false} AfterMSkips(a: string, b: string)
    requires 'm' !in a
    ensures AfterM(a + "m" + b) == b
  {
    if a == "" {
      assert a + "m" + b == "m" + b;
    } else {
      assert (a + "m" + b)[1..] == a[1..] + "m" + b;
      AfterMSkips(a[1..], b);
    }
  }

  lemma StripCode(code: string, b: string)
    requires IsCode(code)
    ensures Strip(code + b) == Strip(b)
  {
    var mid := code[1..|code| - 1];
    var last := |code| - 1;
    assert code[1..] == mid + "m" by {
      assert code[1..] == code[1..last] + [code[last]];
    }
    assert (code + b)[1..] == code[1..] + b;
    AfterMSkips(mid, b);
  }

  lemma ColoursAreCodes(level: int)
    ensures Colour(level).Some? ==> IsCode(Colour(level).value) && Plain(Colour(level).value)
    ensures IsCode(RESET)
  {
  }

  /** No ESC in the texts, the keys, or the values. */
  ghost predicate Escapeless(ps: seq<Piece>, table: map<string, string>) {
    && (forall i :: 0 <= i < |ps| ==> NoEscape(Shown(ps[i])))
    && (forall k :: k in table ==> NoEscape(table[k]))
  }

  /** One piece as FillFrom shows it behind the pieces `before`. */
  function FillOne(before: seq<Piece>, p: Piece, done: set<string>, table: map<string, string>): (q: Piece)
    requires done <= table.Keys
  {
    if p.Hole? && p.key in done && p !in before then Lit(table[p.key]) else p
  }

  lemma FillFromCons(before: seq<Piece>, p: Piece, ps: seq<Piece>, done: set<string>, table: map<string, string>)
    requires done <= table.Keys
    ensures Flat(FillFrom(before, [p] + ps, done, table))
         == Shown(FillOne(before, p, done, table)) + Flat(FillFrom(before + [p], ps, done, table))
  {
    assert ([p] + ps)[1..] == ps;
    var rest := FillFrom(before + [p], ps, done, table);
    assert FillFrom(before, [p] + ps, done, table) == [FillOne(before, p, done, table)] + rest;
    FlatSplit([FillOne(before, p, done, table)], rest);
    assert Flat([FillOne(before, p, done, table)]) == Shown(FillOne(before, p, done, table));
  }

  lemma EscapelessTail(ps: seq<Piece>, table: map<string, string>)
    requires ps != [] && Escapeless(ps, table)
    ensures Escapeless(ps[1..], table) && NoEscape(Shown(ps[0]))
  {
    assert NoEscape(Shown(ps[0]));
    forall i | 0 <= i < |ps[1..]| ensures NoEscape(Shown(ps[1..][i])) {
      assert ps[1..][i] == ps[i + 1];
    }
  }

  ghost predicate SameHoles(a: seq<Piece>, b: seq<Piece>) {
    forall k :: Hole(k) in a <==> Hole(k) in b
  }

  /** A wrapped hole: both codes disappear and what stands between them stays. */
  lemma StripWrapped(before: seq<Piece>, rest: seq<Piece>, code: string, done: set<string>, table: map<string, string>)
    requires done <= table.Keys && IsCode(code) && NoEscape(Shown(FillOne(before, Hole(LEVEL), done, table)))
    ensures Strip(Flat(FillFrom(before, [Lit(code), Hole(LEVEL), Lit(RESET)] + rest, done, table)))
         == Shown(FillOne(before, Hole(LEVEL), done, table))
            + Strip(Flat(FillFrom(before + [Lit(code), Hole(LEVEL), Lit(RESET)], rest, done, table)))
  {
    var b1, b2 := before + [Lit(code)], before + [Lit(code)] + [Hole(LEVEL)];
    var b3 := before + [Lit(code)] + [Hole(LEVEL)] + [Lit(RESET)];
    assert [Lit(code), Hole(LEVEL), Lit(RESET)] + rest == [Lit(code)] + ([Hole(LEVEL)] + ([Lit(RESET)] + rest));
    assert b3 == before + [Lit(code), Hole(LEVEL), Lit(RESET)];
    FillFromCons(before, Lit(code), [Hole(LEVEL)] + ([Lit(RESET)] + rest), done, table);
    FillFromCons(b1, Hole(LEVEL), [Lit(RESET)] + rest, done, table);
    FillFromCons(b2, Lit(RESET), rest, done, table);
    var x, tail := Shown(FillOne(before, Hole(LEVEL), done, table)), Flat(FillFrom(b3, rest, done, table));
    assert FillOne(b1, Hole(LEVEL), done, table) == FillOne(before, Hole(LEVEL), done, table);
    ColoursAreCodes(0);
    StripCode(code, x + (RESET + tail));
    StripText(x, RESET + tail);
    StripCode(RESET, tail);
  }

  lemma {:induction false} StripFilled(before1: seq<Piece>, before2: seq<Piece>, ps: seq<Piece>, code: string,
                                       done: set<string>, table: map<string, string>)
    requires done <= table.Keys && Escapeless(ps, table) && IsCode(code) && SameHoles(before1, before2)
    ensures Strip(Flat(FillFrom(before1, Wrap(ps, code), done, table))) == Flat(FillFrom(before2, ps, done, table))
    decreases |ps|
  {
    if ps != [] {
      var p, rest := ps[0], ps[1..];
      EscapelessTail(ps, table);
      assert ps == [p] + rest;
      FillFromCons(before2, p, rest, done, table);
      assert FillOne(before1, p, done, table) == FillOne(before2, p, done, table);
      if p == Hole(LEVEL) {
        StripWrapped(before1, Wrap(rest, code), code, done, table);
        StripFilled(before1 + [Lit(code), p, Lit(RESET)], before2 + [p], rest, code, done, table);
      } else {
        FillFromCons(before1, p, Wrap(rest, code), done, table);
        StripText(Shown(FillOne(before1, p, done, table)),
            Flat(FillFrom(before1 + [p], Wrap(rest, code), done, table)));
        StripFilled(before1 + [p], before2 + [p], rest, code, done, table);
      }
    }
  }

  /** What the two passes can make of the format with the codes in it. */
  ghost predicate IsColouredLine(format: string, r: LogRecord, line: string) {
    match Colour(r.level)
    case None => IsLine(format, r, line)
    case Some(code) => IsLine(Substitute(format, LEVEL, code + LEVEL + RESET), r, line)
  }

  /** `Format_log_message` of the standard output target: without its codes the line is the line of a
      target that does not colour. */
  method FormatColoured(format: string, r: LogRecord) returns (line: string)
    ensures IsColouredLine(format, r, line)
    ensures Colour(r.level).Some? && HarmlessRecord(r) ==>
      forall ps :: WellFormed(ps, LINE_KEYS) && format == Flat(ps) && Escapeless(ps, LineTable(r)) ==>
          Strip(line) == Line(ps, r)
  {
    var coloured := ModifyFormat(format, r.level);
    line := FormatLogMessage(coloured, r);
    if Colour(r.level).Some? && HarmlessRecord(r) {
      forall ps | WellFormed(ps, LINE_KEYS) && format == Flat(ps) && Escapeless(ps, LineTable(r))
        ensures Strip(line) == Line(ps, r)
      {
        ColouredLineMeans(ps, r, line);
      }
    }
  }

  lemma ColouredLineMeans(ps: seq<Piece>, r: LogRecord, line: string)
    requires HarmlessRecord(r) && WellFormed(ps, LINE_KEYS) && Escapeless(ps, LineTable(r)) && Colour(r.level).Some?
    requires IsLine(Substitute(Flat(ps), LEVEL, Colour(r.level).value + LEVEL + RESET), r, line)
    ensures Strip(line) == Line(ps, r)
  {
    var coloured := Substitute(Flat(ps), LEVEL, Colour(r.level).value + LEVEL + RESET);
    var mid :| Substituted(coloured, RecordTable(r), mid) && Substituted(mid, TimeTable(r.time), line);
    var o1 :| IsOrder(o1, RecordTable(r).Keys) && mid == ReplaceEach(coloured, o1, RecordTable(r));
    var o2 :| IsOrder(o2, TimeTable(r.time).Keys) && line == ReplaceEach(mid, o2, TimeTable(r.time));
    ColoursOnlyAddCodes(ps, r, o1, o2);
  }

  /** The coloured line, its codes deleted, is the plain line: for every well-formed format, every
      record and every order of the maps, as long as no text holds an escape character. */
  lemma ColoursOnlyAddCodes(ps: seq<Piece>, r: LogRecord, o1: seq<string>, o2: seq<string>)
    requires PlainCaller(r) && Inert(r.message, LINE_KEYS - {LOG}) && WellFormed(ps, LINE_KEYS)
    requires Escapeless(ps, LineTable(r)) && Colour(r.level).Some?
    requires IsOrder(o1, RECORD_KEYS) && IsOrder(o2, TIME_KEYS)
    ensures var coloured := Substitute(Flat(ps), LEVEL, Colour(r.level).value + LEVEL + RESET);
            Strip(ReplaceEach(ReplaceEach(coloured, o1, RecordTable(r)), o2, TimeTable(r.time))) == Line(ps, r)
  {
    var code := Colour(r.level).value;
    LineKeys();
    ColoursAreCodes(r.level);
    ModifyIsWrap(ps, LINE_KEYS, code);
    WrapWellFormed(ps, LINE_KEYS, code);
    LineIsFilled(Wrap(ps, code), r, o1, o2);
    FillAllFromLeft([], ps, LINE_KEYS, LineTable(r));
    FillAllFromLeft([], Wrap(ps, code), LINE_KEYS, LineTable(r));
    assert [] + ps == ps && [] + Wrap(ps, code) == Wrap(ps, code);
    StripFilled([], [], ps, code, LINE_KEYS, LineTable(r));
  }
}
