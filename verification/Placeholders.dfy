/**
 The placeholder names of log lines, time stamps and file names. None begins another, also
 across the three tables, which is what the substitution engine rests on.
 */
module Placeholders {
  import opened Template

  // record fields
  const LEVEL := "%%level"
  const KINDS := "%%kinds"
  const MODULE := "%%module"
  const SOURCE := "%%source"
  const LINE := "%%line"
  const ENTITY := "%%entity"
  const LOG := "%%log"

  // time fields
  const DATATIME := "%%datatime"
  const DATE := "%%date"
  const YEAR := "%%year"
  const YR := "%%yr"
  const MONTH := "%%month"
  const MONSTR := "%%monstr"
  const DAY := "%%day"
  const TIME := "%%time"
  const HOUR := "%%hour"
  const MIN := "%%min"
  const SEC := "%%sec"
  const MS := "%%ms"

  // file name fields
  const PATH := "%%path"
  const PREFIX := "%%prefix"
  const FILENAME := "%%filename"
  const TITLE := "%%title"
  const SUFFIX := "%%suffix"
  const PID := "%%pid"
  const PROCNAME := "%%procname"

  const RECORD_KEYS := {LEVEL, KINDS, MODULE, SOURCE, LINE, ENTITY, LOG}
  const WHOLE_KEYS := {DATATIME, DATE, MONSTR, TIME}
  const DATE_KEYS := {YEAR, YR, MONTH, DAY}
  const CLOCK_KEYS := {HOUR, MIN, SEC, MS}
  const TIME_KEYS := WHOLE_KEYS + DATE_KEYS + CLOCK_KEYS
  const FIXED_NAME_KEYS := {PATH, PREFIX, FILENAME, TITLE, SUFFIX}
  const NAME_KEYS := FIXED_NAME_KEYS + {PID, PROCNAME}

  // the same keys by the letter after "%%"
  const D_KEYS := {DATATIME, DATE, DAY}
  const L_KEYS := {LEVEL, LINE, LOG}
  const M_KEYS := {MODULE, MONTH, MONSTR, MIN, MS}
  const P_KEYS := {PATH, PREFIX, PID, PROCNAME}
  const S_KEYS := {SOURCE, SEC, SUFFIX}
  const T_KEYS := {TIME, TITLE}
  const Y_KEYS := {YEAR, YR}

  const ALL_KEYS :=
    D_KEYS + {ENTITY} + {FILENAME} + {HOUR} + {KINDS} + L_KEYS + M_KEYS + P_KEYS + S_KEYS + T_KEYS + Y_KEYS

  lemma SamePrefix(a: string, b: string, i: nat)
    requires a <= b && i < |a|
    ensures a[i] == b[i]
  {
  }

  lemma DKeys(a: string, b: string)
    requires a in D_KEYS
    ensures IsKey(a) && a[2] == 'd' && (b in D_KEYS && a <= b ==> a == b)
  {
    if b in D_KEYS && a <= b { SamePrefix(a, b, 4); if |a| > 5 { SamePrefix(a, b, 5); } }
  }

  lemma LKeys(a: string, b: string)
    requires a in L_KEYS
    ensures IsKey(a) && a[2] == 'l' && (b in L_KEYS && a <= b ==> a == b)
  {
    if b in L_KEYS && a <= b { SamePrefix(a, b, 3); }
  }

  lemma MKeys(a: string, b: string)
    requires a in M_KEYS
    ensures IsKey(a) && a[2] == 'm' && (b in M_KEYS && a <= b ==> a == b)
  {
    if b in M_KEYS && a <= b {
      SamePrefix(a, b, 3);
      if |a| > 5 { SamePrefix(a, b, 4); SamePrefix(a, b, 5); }
    }
  }

  lemma PKeys(a: string, b: string)
    requires a in P_KEYS
    ensures IsKey(a) && a[2] == 'p' && (b in P_KEYS && a <= b ==> a == b)
  {
    if b in P_KEYS && a <= b { SamePrefix(a, b, 3); SamePrefix(a, b, 4); }
  }

  lemma SKeys(a: string, b: string)
    requires a in S_KEYS
    ensures IsKey(a) && a[2] == 's' && (b in S_KEYS && a <= b ==> a == b)
  {
    if b in S_KEYS && a <= b { SamePrefix(a, b, 3); }
  }

  lemma TYKeys(a: string, b: string)
    requires a in T_KEYS + Y_KEYS
    ensures IsKey(a) && (a[2] == 't' <==> a in T_KEYS) && (a[2] == 'y' <==> a in Y_KEYS)
    ensures b in T_KEYS + Y_KEYS && a <= b ==> a == b
  {
    if b in T_KEYS + Y_KEYS && a <= b { SamePrefix(a, b, 2); SamePrefix(a, b, 3); if |a| > 4 { SamePrefix(a, b, 4); } }
  }

  lemma SingleKeys()
    ensures IsKey(ENTITY) && IsKey(FILENAME) && IsKey(HOUR) && IsKey(KINDS)
    ensures ENTITY[2] == 'e' && FILENAME[2] == 'f' && HOUR[2] == 'h' && KINDS[2] == 'k'
  {
  }

  /** The key is in the group of its letter. */
  ghost predicate InGroup(k: string)
    requires |k| > 2
  {
    match k[2]
    case 'd' => k in D_KEYS
    case 'l' => k in L_KEYS
    case 'm' => k in M_KEYS
    case 'p' => k in P_KEYS
    case 's' => k in S_KEYS
    case 't' => k in T_KEYS + Y_KEYS
    case 'y' => k in T_KEYS + Y_KEYS
    case 'e' => k == ENTITY
    case 'f' => k == FILENAME
    case 'h' => k == HOUR
    case 'k' => k == KINDS
    case _ => false
  }

  lemma KeyFacts(k: string)
    requires k in ALL_KEYS
    ensures IsKey(k) && InGroup(k)
  {
    SingleKeys();
    if k in D_KEYS { DKeys(k, k); }
    else if k in L_KEYS { LKeys(k, k); }
    else if k in M_KEYS { MKeys(k, k); }
    else if k in P_KEYS { PKeys(k, k); }
    else if k in S_KEYS { SKeys(k, k); }
    else if k in T_KEYS + Y_KEYS { TYKeys(k, k); }
  }

  lemma NoKeyBeginsAnother(a: string, b: string)
    requires a in ALL_KEYS && b in ALL_KEYS && a <= b
    ensures a == b
  {
    KeyFacts(a);
    KeyFacts(b);
    SamePrefix(a, b, 2);
    match a[2]
    case 'd' => DKeys(a, b);
    case 'l' => LKeys(a, b);
    case 'm' => MKeys(a, b);
    case 'p' => PKeys(a, b);
    case 's' => SKeys(a, b);
    case 't' => TYKeys(a, b);
    case 'y' => TYKeys(a, b);
    case _ =>
  }

  /** All the tables together are prefix free, so any two of them may be used one after the other. */
  lemma AllKeysTable()
    ensures KeyTable(ALL_KEYS)
  {
    forall a, b | a in ALL_KEYS && b in ALL_KEYS && a <= b ensures a == b {
      NoKeyBeginsAnother(a, b);
    }
    forall k | k in ALL_KEYS ensures IsKey(k) {
      KeyFacts(k);
    }
  }

  lemma SubTable(keys: set<string>)
    requires keys <= ALL_KEYS
    ensures KeyTable(keys)
  {
    AllKeysTable();
  }

  lemma TablesInAll()
    ensures RECORD_KEYS <= ALL_KEYS && TIME_KEYS <= ALL_KEYS && NAME_KEYS <= ALL_KEYS
  {
  }
}
