/**
 The dispatch table of `Logger`: `Configure`, `Get_config` and the choice of targets in
 `Write_log`. A target is identified by its position in `_targets`, which only grows until
 it is cleared together with the keys.
 */
module Dispatch {
  import opened Config
  import opened LogFormat
  import opened Text

  datatype Slot = Slot(target: Target, shouldPerformMaintenance: bool)

  datatype DispatchKey = DispatchKey(level: int, kinds: bv64, targets: set<nat>)

  datatype LoggerState = LoggerState(slots: seq<Slot>, keys: seq<DispatchKey>, useFallback: bool,
      asynchronousMode: bool)

  const EMPTY := LoggerState([], [], true, true)

  // ----- what Configure does to the state -----

  /** `std::find_if` by target name. */
  function FindTarget(slots: seq<Slot>, name: string, from: nat := 0): (r: Option<nat>)
    requires from <= |slots|
    ensures r.Some? ==> from <= r.value < |slots| && slots[r.value].target.name == name
    ensures r.Some? ==> forall i :: from <= i < r.value ==> slots[i].target.name != name
    ensures r.None? ==> forall i :: from <= i < |slots| ==> slots[i].target.name != name
    decreases |slots| - from
  {
    if from == |slots| then None
    else if slots[from].target.name == name then Some(from)
    else FindTarget(slots, name, from + 1)
  }

  /** `std::find_if` by level and kinds; the number of keys if there is none. */
  function FindKey(keys: seq<DispatchKey>, level: int, kinds: bv64, from: nat := 0): (i: nat)
    requires from <= |keys|
    ensures from <= i <= |keys|
    ensures i < |keys| ==> keys[i].level == level && keys[i].kinds == kinds
    ensures forall j :: from <= j < i ==> !(keys[j].level == level && keys[j].kinds == kinds)
    decreases |keys| - from
  {
    if from == |keys| || (keys[from].level == level && keys[from].kinds == kinds) then from
    else FindKey(keys, level, kinds, from + 1)
  }

  /** The targets the names stand for; unknown names are skipped. */
  function Resolve(names: set<string>, slots: seq<Slot>): (ids: set<nat>) {
    set name | name in names && FindTarget(slots, name).Some? :: FindTarget(slots, name).value
  }

  function AddTargets(slots: seq<Slot>, configs: seq<TargetConfig>): (r: seq<Slot>)
    requires NoBadCast(configs)
    decreases |configs|
  {
    if configs == [] then slots
    else
      var c := configs[0];
      var t := NewLogTarget(c.targetType);
      AddTargets(if t.Some? then slots + [Slot(LoadConfig(t.value, c), false)] else slots, configs[1..])
  }

  /** Every configuration of type file target is a `FileTargetConfig`. */
  ghost predicate NoBadCast(configs: seq<TargetConfig>) {
    forall i :: 0 <= i < |configs| && configs[i].targetType == FILE_TARGET ==> configs[i].FileConfig?
  }

  function WithTargets(keys: seq<DispatchKey>, i: nat, ids: set<nat>): (r: seq<DispatchKey>)
    requires i < |keys|
    ensures |r| == |keys|
  {
    keys[i := keys[i].(targets := keys[i].targets + ids)]
  }

  function Erased(keys: seq<DispatchKey>, i: nat): (r: seq<DispatchKey>)
    requires i < |keys|
  {
    keys[..i] + keys[i + 1..]
  }

  /** One dispatch entry: find or append its key, add the targets, erase the key if it has none. */
  function AddEntry(keys: seq<DispatchKey>, e: DispatchEntry, slots: seq<Slot>): (r: seq<DispatchKey>) {
    var i := FindKey(keys, e.level, e.kinds);
    var longer := if i == |keys| then keys + [DispatchKey(e.level, e.kinds, {})] else keys;
    var filled := WithTargets(longer, i, Resolve(e.targets, slots));
    if filled[i].targets == {} then Erased(filled, i) else filled
  }

  function AddEntries(keys: seq<DispatchKey>, entries: seq<DispatchEntry>, slots: seq<Slot>): (r: seq<DispatchKey>)
    decreases |entries|
  {
    if entries == [] then keys else AddEntries(AddEntry(keys, entries[0], slots), entries[1..], slots)
  }

  function Configured(s: LoggerState, c: LoggerConfig): (r: LoggerState)
    requires NoBadCast(c.targets)
  {
    var slots := AddTargets(s.slots, c.targets);
    LoggerState(slots, AddEntries(s.keys, c.dispatch, slots), c.useFallback, c.asynchronousMode)
  }

  // ----- what Get_config reads from it -----

  ghost predicate KnownTargets(keys: seq<DispatchKey>, slots: seq<Slot>) {
    forall i, t :: 0 <= i < |keys| && t in keys[i].targets ==> t < |slots|
  }

  function ExportKey(k: DispatchKey, slots: seq<Slot>): (e: DispatchEntry)
    requires forall t :: t in k.targets ==> t < |slots|
  {
    DispatchEntry(k.level, k.kinds, set t | t in k.targets :: slots[t].target.name)
  }

  function Exported(s: LoggerState): (c: LoggerConfig)
    requires KnownTargets(s.keys, s.slots)
    ensures |c.targets| == |s.slots| && |c.dispatch| == |s.keys|
  {
    LoggerConfig(
      seq(|s.slots|, i requires 0 <= i < |s.slots| => ExportTarget(s.slots[i].target)),
      seq(|s.keys|, i requires 0 <= i < |s.keys| => ExportKey(s.keys[i], s.slots)),
      s.useFallback, s.asynchronousMode)
  }

  // ----- which targets a record goes to -----

  predicate Shares(a: bv64, b: bv64) { a & b != 0 }

  predicate Accepts(level: int, kinds: bv64, r: LogRecord) {
    (kinds == ALL_KINDS || r.kinds == ALL_KINDS || Shares(kinds, r.kinds)) && r.level >= level
  }

  function Selected(keys: seq<DispatchKey>, r: LogRecord): (ids: set<nat>) {
    set i, t | 0 <= i < |keys| && Accepts(keys[i].level, keys[i].kinds, r) && t in keys[i].targets :: t
  }

  /** A known kind in common, or another bit. */
  ghost predicate SomeKindInCommon(a: bv64, b: bv64) {
    (Test(a, 1) && Test(b, 1)) || (Test(a, 2) && Test(b, 2)) || (Test(a, 4) && Test(b, 4)) || a & b & !7 != 0
  }

  /** What a key asks of a record: all kinds on one side or some kind in common, and a level not below its own. */
  ghost predicate ListensTo(k: DispatchKey, r: LogRecord) {
    r.level >= k.level && (k.kinds == 7 || r.kinds == 7 || SomeKindInCommon(k.kinds, r.kinds))
  }

  lemma CommonBitIsShared(a: bv64, b: bv64, bit: bv64)
    requires a & bit != 0 && b & bit != 0 && (bit == 1 || bit == 2 || bit == 4)
    ensures a & b != 0
  {
  }

  lemma SharedIsSomeBit(a: bv64, b: bv64)
    requires a & b != 0 && a & b & !7 == 0
    ensures (a & 1 != 0 && b & 1 != 0) || (a & 2 != 0 && b & 2 != 0) || (a & 4 != 0 && b & 4 != 0)
  {
  }

  lemma SharesIfMeet(a: bv64, b: bv64)
    requires SomeKindInCommon(a, b)
    ensures Shares(a, b)
  {
    if !Shares(a, b) {
      NothingShared(a, b, 1);
      NothingShared(a, b, 2);
      NothingShared(a, b, 4);
    }
  }

  lemma NothingShared(a: bv64, b: bv64, bit: bv64)
    requires a & b == 0 && (bit == 1 || bit == 2 || bit == 4)
    ensures a & b & !7 == 0 && !(Test(a, bit) && Test(b, bit))
  {
    if Test(a, bit) && Test(b, bit) { CommonBitIsShared(a, b, bit); }
    assert 0 & !7 == 0 as bv64;
  }

  lemma MeetIfShares(a: bv64, b: bv64)
    requires Shares(a, b)
    ensures SomeKindInCommon(a, b)
  {
    if a & b & !7 == 0 { SharedIsSomeBit(a, b); }
  }

  lemma AcceptsExactly(k: DispatchKey, r: LogRecord)
    ensures Accepts(k.level, k.kinds, r) <==> ListensTo(k, r)
  {
    if Shares(k.kinds, r.kinds) { MeetIfShares(k.kinds, r.kinds); }
    if SomeKindInCommon(k.kinds, r.kinds) { SharesIfMeet(k.kinds, r.kinds); }
  }

  /** A target is selected exactly if a key that lists it listens to the record. */
  lemma SelectedExactly(keys: seq<DispatchKey>, r: LogRecord, t: nat)
    ensures t in Selected(keys, r) <==> exists i :: 0 <= i < |keys| && t in keys[i].targets && ListensTo(keys[i], r)
  {
    forall i | 0 <= i < |keys| ensures Accepts(keys[i].level, keys[i].kinds, r) <==> ListensTo(keys[i], r) {
      AcceptsExactly(keys[i], r);
    }
  }

  lemma StillListens(k: DispatchKey, r: LogRecord, level: int)
    requires ListensTo(k, r) && level >= r.level
    ensures ListensTo(k, r.(level := level))
  {
  }

  /** A more severe record goes to every target that the record goes to. */
  lemma RaisingLevelLosesNoTarget(keys: seq<DispatchKey>, r: LogRecord, level: int)
    requires level >= r.level
    ensures Selected(keys, r) <= Selected(keys, r.(level := level))
  {
    forall t | t in Selected(keys, r) ensures t in Selected(keys, r.(level := level)) {
      SelectedExactly(keys, r, t);
      var i :| 0 <= i < |keys| && t in keys[i].targets && ListensTo(keys[i], r);
      StillListens(keys[i], r, level);
      SelectedExactly(keys, r.(level := level), t);
    }
  }

  /** What the configuration asks for: of every matching entry, the first target bearing each name. */
  function Asked(entries: seq<DispatchEntry>, slots: seq<Slot>, r: LogRecord): (ids: set<nat>) {
    set i, name | 0 <= i < |entries| && Accepts(entries[i].level, entries[i].kinds, r) && name in entries[i].targets
                  && FindTarget(slots, name).Some? :: FindTarget(slots, name).value
  }

  /** Keys differ in level or kinds, have a target, and their targets exist. */
  ghost predicate KeysOk(keys: seq<DispatchKey>, slots: seq<Slot>) {
    && (forall i, j :: 0 <= i < j < |keys| ==> keys[i].level != keys[j].level || keys[i].kinds != keys[j].kinds)
    && (forall i :: 0 <= i < |keys| ==> keys[i].targets != {})
    && KnownTargets(keys, slots)
  }

  // ----- the class -----

  /** How a target answers: the first attempt, `Refresh`, the second attempt. */
  datatype Attempt = Attempt(first: bool, refreshed: bool, second: bool)

  /** `Target::Write_log`. */
  function Written(a: Attempt): (success: bool) {
    if a.first then true else if !a.refreshed then false else a.second
  }

  datatype FallbackRecord = Notice(id: nat) | Copy(record: LogRecord)

  /** The copy for the fallback target names the target that failed. */
  function Renamed(r: LogRecord, name: string): (copy: LogRecord) { r.(entity := name + "," + r.entity) }

  /** A target has written the record exactly if it did at once, or after it was refreshed. */
  lemma WrittenExactly(a: Attempt)
    ensures Written(a) <==> a.first || (a.refreshed && a.second)
  {
  }

  /** What the fallback target gets for failed targets, in their order. */
  function Fallbacks(failed: seq<nat>, slots: seq<Slot>, r: LogRecord): (records: seq<FallbackRecord>)
    requires forall i :: 0 <= i < |failed| ==> failed[i] < |slots|
  {
    if failed == [] then []
    else
      var id := failed[|failed| - 1];
      Fallbacks(failed[..|failed| - 1], slots, r) + [Notice(id), Copy(Renamed(r, slots[id].target.name))]
  }

  /** Two records for each failed target in their order: a notice, then the record with the name of the
      target before its entity and everything else unchanged. */
  lemma {:induction false} FallbacksInPairs(failed: seq<nat>, slots: seq<Slot>, r: LogRecord, i: nat)
    requires (forall k :: 0 <= k < |failed| ==> failed[k] < |slots|) && i < |failed|
    ensures var records := Fallbacks(failed, slots, r);
      && |records| == 2 * |failed| && records[2 * i] == Notice(failed[i]) && records[2 * i + 1].Copy?
      && var copy := records[2 * i + 1].record;
         copy.entity == slots[failed[i]].target.name + "," + r.entity && copy.(entity := r.entity) == r
    decreases |failed|
  {
    var n := |failed| - 1;
    FallbacksLength(failed[..n], slots, r);
    if i < n { FallbacksInPairs(failed[..n], slots, r, i); }
  }

  lemma {:induction false} FallbacksLength(failed: seq<nat>, slots: seq<Slot>, r: LogRecord)
    requires forall k :: 0 <= k < |failed| ==> failed[k] < |slots|
    ensures |Fallbacks(failed, slots, r)| == 2 * |failed|
    decreases |failed|
  {
    if failed != [] { FallbacksLength(failed[..|failed| - 1], slots, r); }
  }

  class Logger {
    var slots: seq<Slot>
    var dispatchKeys: seq<DispatchKey>
    var useFallback: bool
    var asynchronousMode: bool
    var hasFallbackTarget: bool

    ghost function View(): (s: LoggerState)
      reads this
    {
      LoggerState(slots, dispatchKeys, useFallback, asynchronousMode)
    }

    ghost predicate Valid()
      reads this
    {
      KeysOk(dispatchKeys, slots)
    }

    constructor ()
      ensures View() == EMPTY && !hasFallbackTarget && Valid()
      ensures slots == [] && dispatchKeys == [] && useFallback && asynchronousMode
    {
      slots, dispatchKeys := [], [];
      useFallback, asynchronousMode, hasFallbackTarget := true, true, false;
    }

    method Configure(config: LoggerConfig)
      requires Valid() && NoBadCast(config.targets)
      modifies this`slots, this`dispatchKeys, this`useFallback, this`asynchronousMode
      ensures Valid() && View() == Configured(old(View()), config)
      ensures forall r :: Selected(dispatchKeys, r) == old(Selected(dispatchKeys, r)) + Asked(config.dispatch, slots, r)
    {
      useFallback := config.useFallback;
      asynchronousMode := config.asynchronousMode;
      CreateTargets(config.targets);
      CreateKeys(config.dispatch);
      AllRoutingPreserved(old(dispatchKeys), config.dispatch, slots);
    }

    /** The first loop of `Configure`. */
    method CreateTargets(configs: seq<TargetConfig>)
      requires Valid() && NoBadCast(configs)
      modifies this`slots
      ensures Valid() && slots == AddTargets(old(slots), configs)
    {
      var i := 0;
      assert configs[0..] == configs;
      while i < |configs|
        invariant i <= |configs| && |slots| >= old(|slots|) && NoBadCast(configs[i..])
        invariant AddTargets(slots, configs[i..]) == AddTargets(old(slots), configs)
      {
        AddTargetsStep(slots, configs, i);
        var newTarget := NewLogTarget(configs[i].targetType);
        if newTarget.Some? {
          slots := slots + [Slot(LoadConfig(newTarget.value, configs[i]), false)];
        }
        i := i + 1;
      }
      assert configs[i..] == [];
    }

    /** The second loop of `Configure`. */
    method CreateKeys(entries: seq<DispatchEntry>)
      requires Valid()
      modifies this`dispatchKeys
      ensures Valid() && dispatchKeys == AddEntries(old(dispatchKeys), entries, slots)
    {
      var i := 0;
      assert entries[0..] == entries;
      while i < |entries|
        invariant i <= |entries| && Valid()
        invariant AddEntries(dispatchKeys, entries[i..], slots) == AddEntries(old(dispatchKeys), entries, slots)
      {
        AddEntriesStep(dispatchKeys, entries, i, slots);
        AddDispatchEntry(entries[i]);
        i := i + 1;
      }
      assert entries[i..] == [];
    }

    method AddDispatchEntry(e: DispatchEntry)
      requires Valid()
      modifies this`dispatchKeys
      ensures Valid() && dispatchKeys == AddEntry(old(dispatchKeys), e, slots)
    {
      var i := FindKey(dispatchKeys, e.level, e.kinds);
      if i == |dispatchKeys| {
        dispatchKeys := dispatchKeys + [DispatchKey(e.level, e.kinds, {})];
      }
      FillKey(i, e.targets);
      if dispatchKeys[i].targets == {} {
        dispatchKeys := Erased(dispatchKeys, i);
      }
      EntryKeepsKeysOk(old(dispatchKeys), e, slots);
    }

    /** The names are visited in any order. */
    method FillKey(i: nat, names: set<string>)
      requires i < |dispatchKeys|
      modifies this`dispatchKeys
      ensures dispatchKeys == WithTargets(old(dispatchKeys), i, Resolve(names, slots))
    {
      var todo := names;
      NothingResolved(dispatchKeys, i, names, slots);
      while todo != {}
        invariant todo <= names && |dispatchKeys| == old(|dispatchKeys|)
        invariant dispatchKeys == WithTargets(old(dispatchKeys), i, Resolve(names - todo, slots))
        decreases |todo|
      {
        var name :| name in todo;
        OneMoreName(old(dispatchKeys), i, names, todo, name, slots);
        todo := todo - {name};
        var target := FindTarget(slots, name);
        if target.None? {
          continue;
        }
        dispatchKeys := WithTargets(dispatchKeys, i, {target.value});
      }
      assert names - todo == names;
    }

    method GetConfig() returns (config: LoggerConfig)
      requires Valid()
      ensures config == Exported(View())
    {
      var entries := [];
      for i := 0 to |dispatchKeys|
        invariant |entries| == i && forall j :: 0 <= j < i ==> entries[j] == ExportKey(dispatchKeys[j], slots)
      {
        var key := dispatchKeys[i];
        var names := {};
        var todo := key.targets;
        while todo != {}
          invariant todo <= key.targets
          invariant names == set t | t in key.targets - todo :: slots[t].target.name
          decreases |todo|
        {
          var t :| t in todo;
          todo := todo - {t};
          names := names + {slots[t].target.name};
        }
        assert key.targets - todo == key.targets;
        entries := entries + [DispatchEntry(key.level, key.kinds, names)];
      }
      var targets := [];
      for i := 0 to |slots|
        invariant |targets| == i && forall j :: 0 <= j < i ==> targets[j] == ExportTarget(slots[j].target)
      {
        targets := targets + [ExportTarget(slots[i].target)];
      }
      return LoggerConfig(targets, entries, useFallback, asynchronousMode);
    }

    /** A target whose name is taken is not added. No route changes. */
    method AddTarget(newTarget: Target)
      requires Valid()
      modifies this`slots
      ensures Valid()
      ensures slots == if FindTarget(old(slots), newTarget.name).None? then old(slots) + [Slot(newTarget, false)]
          else old(slots)
    {
      if FindTarget(slots, newTarget.name).None? {
        slots := slots + [Slot(newTarget, false)];
      }
    }

    /** The configuration is cleared as `Reconfigure` does before it calls `Configure`. */
    method Clear(config: LoggerConfig)
      modifies this
      ensures slots == [] && dispatchKeys == [] && Valid()
      ensures hasFallbackTarget == (old(hasFallbackTarget) && config.useFallback)
      ensures useFallback == old(useFallback) && asynchronousMode == old(asynchronousMode)
    {
      slots := [];
      dispatchKeys := [];
      if !config.useFallback {
        hasFallbackTarget := false;
      }
    }

    method CollectTargets(r: LogRecord) returns (targets: set<nat>)
      ensures targets == Selected(dispatchKeys, r)
      ensures forall t :: t in targets <==>
        exists i :: 0 <= i < |dispatchKeys| && t in dispatchKeys[i].targets && ListensTo(dispatchKeys[i], r)
    {
      targets := {};
      for i := 0 to |dispatchKeys|
        invariant targets == Selected(dispatchKeys[..i], r)
      {
        SelectedStep(dispatchKeys, i, r);
        if Accepts(dispatchKeys[i].level, dispatchKeys[i].kinds, r) {
          targets := targets + dispatchKeys[i].targets;
        }
      }
      assert dispatchKeys[..|dispatchKeys|] == dispatchKeys;
      forall t: nat
        ensures t in targets <==>
          exists i :: 0 <= i < |dispatchKeys| && t in dispatchKeys[i].targets && ListensTo(dispatchKeys[i], r)
      {
        SelectedExactly(dispatchKeys, r, t);
      }
    }

    /** Each selected target is written once or fails once; each failure is told to the fallback
        target together with the record. The targets are visited in any order. */
    method WriteLog(r: LogRecord, answers: seq<Attempt>)
      returns (written: seq<nat>, toFallback: seq<FallbackRecord>, failed: seq<nat>)
      requires Valid() && |answers| == |slots|
      ensures multiset(written) + multiset(failed) == multiset(Selected(dispatchKeys, r))
      ensures AllAnswered(written, answers, true) && AllAnswered(failed, answers, false)
      ensures toFallback == if hasFallbackTarget then Fallbacks(failed, slots, r) else []
      ensures forall t :: t in written || t in failed <==>
        exists i :: 0 <= i < |dispatchKeys| && t in dispatchKeys[i].targets && ListensTo(dispatchKeys[i], r)
    {
      var all := CollectTargets(r);
      SelectedExist(dispatchKeys, slots, r);
      written, toFallback, failed := WriteEach(all, slots, answers, hasFallbackTarget, r);
      OnceMeans(written, failed, all);
    }
  }

  /** The second loop of `Logger::Write_log`. */
  method WriteEach(all: set<nat>, slots: seq<Slot>, answers: seq<Attempt>, hasFallback: bool, r: LogRecord)
    returns (written: seq<nat>, toFallback: seq<FallbackRecord>, failed: seq<nat>)
    requires |answers| == |slots| && forall t :: t in all ==> t < |slots|
    ensures Progress(written, failed, toFallback, all, slots, answers, hasFallback, r)
  {
    written, toFallback, failed := [], [], [];
    var todo := all;
    assert all - all == {};
    while todo != {}
      invariant todo <= all
      invariant Progress(written, failed, toFallback, all - todo, slots, answers, hasFallback, r)
      decreases |todo|
    {
      var id :| id in todo;
      ProgressStep(written, failed, toFallback, all - todo, slots, answers, hasFallback, r, id);
      assert all - (todo - {id}) == (all - todo) + {id};
      todo := todo - {id};
      if Written(answers[id]) {
        written := written + [id];
      } else {
        failed := failed + [id];
        if hasFallback {
          toFallback := toFallback + [Notice(id), Copy(Renamed(r, slots[id].target.name))];
        }
      }
    }
    assert all - todo == all;
  }

  /** The targets of `done` have been visited. */
  ghost predicate Progress(written: seq<nat>, failed: seq<nat>, toFallback: seq<FallbackRecord>, done: set<nat>,
                           slots: seq<Slot>, answers: seq<Attempt>, hasFallback: bool, r: LogRecord)
  {
    && |answers| == |slots|
    && EachOnce(written, failed, done)
    && AllAnswered(written, answers, true) && AllAnswered(failed, answers, false)
    && toFallback == if hasFallback then Fallbacks(failed, slots, r) else []
  }

  lemma ProgressStep(written: seq<nat>, failed: seq<nat>, toFallback: seq<FallbackRecord>, done: set<nat>,
                     slots: seq<Slot>, answers: seq<Attempt>, hasFallback: bool, r: LogRecord, id: nat)
    requires Progress(written, failed, toFallback, done, slots, answers, hasFallback, r)
    requires id !in done && id < |slots|
    ensures Written(answers[id]) ==>
        Progress(written + [id], failed, toFallback, done + {id}, slots, answers, hasFallback, r)
    ensures !Written(answers[id]) && !hasFallback ==>
      Progress(written, failed + [id], toFallback, done + {id}, slots, answers, hasFallback, r)
    ensures !Written(answers[id]) && hasFallback ==>
      Progress(written, failed + [id], toFallback + [Notice(id), Copy(Renamed(r, slots[id].target.name))], done + {id},
               slots, answers, hasFallback, r)
  {
    OnceMore(written, failed, done, id);
    if Written(answers[id]) {
      AnsweredMore(written, answers, true, id);
    } else {
      AnsweredMore(failed, answers, false, id);
      FallbackStep(failed, id, slots, r);
    }
  }

  lemma AnsweredMore(ids: seq<nat>, answers: seq<Attempt>, success: bool, id: nat)
    requires AllAnswered(ids, answers, success) && id < |answers| && Written(answers[id]) == success
    ensures AllAnswered(ids + [id], answers, success)
  {
  }

  /** The targets exist and were written, or were not. */
  ghost predicate AllAnswered(ids: seq<nat>, answers: seq<Attempt>, success: bool) {
    forall i :: 0 <= i < |ids| ==> ids[i] < |answers| && Written(answers[ids[i]]) == success
  }

  ghost predicate EachOnce(a: seq<nat>, b: seq<nat>, all: set<nat>) {
    multiset(a) + multiset(b) == multiset(all)
  }

  lemma OnceMeans(a: seq<nat>, b: seq<nat>, all: set<nat>)
    requires EachOnce(a, b, all)
    ensures forall t :: t in a || t in b <==> t in all
  {
    forall t: nat ensures t in a || t in b <==> t in all {
      assert (multiset(a) + multiset(b))[t] == multiset(all)[t];
    }
  }

  lemma OnceMore(a: seq<nat>, b: seq<nat>, all: set<nat>, id: nat)
    requires EachOnce(a, b, all) && id !in all
    ensures EachOnce(a + [id], b, all + {id}) && EachOnce(a, b + [id], all + {id})
  {
    assert multiset(all + {id}) == multiset(all) + multiset{id};
  }

  lemma FallbackStep(failed: seq<nat>, id: nat, slots: seq<Slot>, r: LogRecord)
    requires id < |slots| && forall i :: 0 <= i < |failed| ==> failed[i] < |slots|
    ensures Fallbacks(failed + [id], slots, r)
         == Fallbacks(failed, slots, r) + [Notice(id), Copy(Renamed(r, slots[id].target.name))]
  {
    assert (failed + [id])[..|failed|] == failed;
  }

  lemma SelectedExist(keys: seq<DispatchKey>, slots: seq<Slot>, r: LogRecord)
    requires KnownTargets(keys, slots)
    ensures forall t :: t in Selected(keys, r) ==> t < |slots|
  {
  }

  lemma SelectedStep(keys: seq<DispatchKey>, i: nat, r: LogRecord)
    requires i < |keys|
    ensures Selected(keys[..i + 1], r)
         == Selected(keys[..i], r) + if Accepts(keys[i].level, keys[i].kinds, r) then keys[i].targets else {}
  {
  }

  lemma ResolveOneMore(names: set<string>, name: string, slots: seq<Slot>)
    ensures Resolve(names + {name}, slots)
         == Resolve(names, slots) + if FindTarget(slots, name).Some? then {FindTarget(slots, name).value} else {}
  {
  }

  lemma AddTargetsStep(slots: seq<Slot>, configs: seq<TargetConfig>, i: nat)
    requires i < |configs| && NoBadCast(configs[i..])
    ensures NoBadCast(configs[i + 1..]) && NoBadCast([configs[i]])
    ensures var t := NewLogTarget(configs[i].targetType);
      (t.Some? ==> CastOk(t.value, configs[i]))
      && AddTargets(slots, configs[i..])
         == AddTargets(if t.Some? then slots + [Slot(LoadConfig(t.value, configs[i]), false)] else slots,
                       configs[i + 1..])
  {
    assert configs[i..][0] == configs[i] && configs[i..][1..] == configs[i + 1..];
  }

  lemma AddEntriesStep(keys: seq<DispatchKey>, entries: seq<DispatchEntry>, i: nat, slots: seq<Slot>)
    requires i < |entries|
    ensures AddEntries(keys, entries[i..], slots)
        == AddEntries(AddEntry(keys, entries[i], slots), entries[i + 1..], slots)
  {
    assert entries[i..][0] == entries[i] && entries[i..][1..] == entries[i + 1..];
  }

  lemma NothingResolved(keys: seq<DispatchKey>, i: nat, names: set<string>, slots: seq<Slot>)
    requires i < |keys|
    ensures WithTargets(keys, i, Resolve(names - names, slots)) == keys
  {
    assert Resolve(names - names, slots) == {} && keys[i].targets + {} == keys[i].targets;
  }

  lemma OneMoreName(keys: seq<DispatchKey>, i: nat, names: set<string>, todo: set<string>, name: string,
                    slots: seq<Slot>)
    requires i < |keys| && name in todo && todo <= names
    ensures var done := WithTargets(keys, i, Resolve(names - todo, slots));
      WithTargets(keys, i, Resolve(names - (todo - {name}), slots))
      == if FindTarget(slots, name).Some? then WithTargets(done, i, {FindTarget(slots, name).value}) else done
  {
    assert names - (todo - {name}) == names - todo + {name};
    ResolveOneMore(names - todo, name, slots);
    var ids := Resolve(names - todo, slots);
    assert forall more: set<nat> :: keys[i].targets + (ids + more) == keys[i].targets + ids + more;
    assert ids + {} == ids;
  }

  /** What `AddEntry` comes to: only a key that was just appended is ever erased. */
  lemma AddEntryIs(keys: seq<DispatchKey>, e: DispatchEntry, slots: seq<Slot>)
    requires KeysOk(keys, slots)
    ensures var i := FindKey(keys, e.level, e.kinds);
      var ids := Resolve(e.targets, slots);
      AddEntry(keys, e, slots) == if i < |keys| then WithTargets(keys, i, ids)
                                  else if ids == {} then keys
                                  else keys + [DispatchKey(e.level, e.kinds, ids)]
  {
    var i := FindKey(keys, e.level, e.kinds);
    var ids := Resolve(e.targets, slots);
    if i < |keys| {
      MergedIsNotEmpty(keys[i].targets, ids);
    } else {
      AppendedKey(keys, e.level, e.kinds, ids);
    }
  }

  lemma AppendedKey(keys: seq<DispatchKey>, level: int, kinds: bv64, ids: set<nat>)
    ensures WithTargets(keys + [DispatchKey(level, kinds, {})], |keys|, ids) == keys + [DispatchKey(level, kinds, ids)]
    ensures Erased(keys + [DispatchKey(level, kinds, ids)], |keys|) == keys
  {
    assert {} + ids == ids;
  }

  lemma ResolvedExist(names: set<string>, slots: seq<Slot>)
    ensures forall t :: t in Resolve(names, slots) ==> t < |slots|
  {
  }

  lemma EntryKeepsKeysOk(keys: seq<DispatchKey>, e: DispatchEntry, slots: seq<Slot>)
    requires KeysOk(keys, slots)
    ensures KeysOk(AddEntry(keys, e, slots), slots)
    ensures |AddEntry(keys, e, slots)| >= |keys|
  {
    AddEntryIs(keys, e, slots);
    var i := FindKey(keys, e.level, e.kinds);
    var ids := Resolve(e.targets, slots);
    ResolvedExist(e.targets, slots);
    if i < |keys| {
      MergedKeysOk(keys, i, ids, slots);
    } else if ids != {} {
      AppendedKeysOk(keys, e.level, e.kinds, ids, slots);
    }
  }

  lemma MergedKeysOk(keys: seq<DispatchKey>, i: nat, ids: set<nat>, slots: seq<Slot>)
    requires KeysOk(keys, slots) && i < |keys| && forall t :: t in ids ==> t < |slots|
    ensures KeysOk(WithTargets(keys, i, ids), slots)
  {
    MergedIsNotEmpty(keys[i].targets, ids);
  }

  lemma AppendedKeysOk(keys: seq<DispatchKey>, level: int, kinds: bv64, ids: set<nat>, slots: seq<Slot>)
    requires KeysOk(keys, slots) && ids != {} && forall t :: t in ids ==> t < |slots|
    requires FindKey(keys, level, kinds) == |keys|
    ensures KeysOk(keys + [DispatchKey(level, kinds, ids)], slots)
  {
  }

  lemma MergedIsNotEmpty(a: set<nat>, b: set<nat>)
    requires a != {}
    ensures a + b != {}
  {
    var t :| t in a;
    assert t in a + b;
  }

  lemma SelectedIf(keys: seq<DispatchKey>, i: nat, t: nat, r: LogRecord)
    requires i < |keys| && Accepts(keys[i].level, keys[i].kinds, r) && t in keys[i].targets
    ensures t in Selected(keys, r)
  {
  }

  lemma SelectedMerge(keys: seq<DispatchKey>, i: nat, ids: set<nat>, r: LogRecord)
    requires i < |keys|
    ensures Selected(WithTargets(keys, i, ids), r)
         == Selected(keys, r) + if Accepts(keys[i].level, keys[i].kinds, r) then ids else {}
  {
    var merged := WithTargets(keys, i, ids);
    forall t | t in Selected(keys, r) ensures t in Selected(merged, r) {
      var j :| 0 <= j < |keys| && Accepts(keys[j].level, keys[j].kinds, r) && t in keys[j].targets;
      SelectedIf(merged, j, t, r);
    }
    if Accepts(keys[i].level, keys[i].kinds, r) {
      forall t | t in ids ensures t in Selected(merged, r) {
        SelectedIf(merged, i, t, r);
      }
    }
    forall t | t in Selected(merged, r)
      ensures t in Selected(keys, r) || (Accepts(keys[i].level, keys[i].kinds, r) && t in ids)
    {
      var j :| 0 <= j < |merged| && Accepts(merged[j].level, merged[j].kinds, r) && t in merged[j].targets;
      if t in keys[j].targets { SelectedIf(keys, j, t, r); }
    }
  }

  lemma SelectedAppend(keys: seq<DispatchKey>, k: DispatchKey, r: LogRecord)
    ensures Selected(keys + [k], r) == Selected(keys, r) + if Accepts(k.level, k.kinds, r) then k.targets else {}
  {
    var longer := keys + [k];
    SelectedStep(longer, |keys|, r);
    assert longer[..|keys| + 1] == longer && longer[..|keys|] == keys;
  }

  lemma EntryRoutes(keys: seq<DispatchKey>, e: DispatchEntry, slots: seq<Slot>, r: LogRecord)
    requires KeysOk(keys, slots)
    ensures Selected(AddEntry(keys, e, slots), r)
         == Selected(keys, r) + if Accepts(e.level, e.kinds, r) then Resolve(e.targets, slots) else {}
  {
    AddEntryIs(keys, e, slots);
    var i := FindKey(keys, e.level, e.kinds);
    var ids := Resolve(e.targets, slots);
    if i < |keys| {
      SelectedMerge(keys, i, ids, r);
    } else if ids != {} {
      SelectedAppend(keys, DispatchKey(e.level, e.kinds, ids), r);
    }
  }

  lemma AskedStep(entries: seq<DispatchEntry>, slots: seq<Slot>, r: LogRecord)
    requires entries != []
    ensures Asked(entries, slots, r)
         == (if Accepts(entries[0].level, entries[0].kinds, r) then Resolve(entries[0].targets, slots) else {})
          + Asked(entries[1..], slots, r)
  {
    forall id | id in Asked(entries[1..], slots, r) ensures id in Asked(entries, slots, r) {
      var i, name :| 0 <= i < |entries| - 1 && Accepts(entries[1..][i].level, entries[1..][i].kinds, r)
        && name in entries[1..][i].targets && FindTarget(slots, name) == Some(id);
      assert entries[i + 1] == entries[1..][i];
    }
    forall id | id in Asked(entries, slots, r)
      ensures id in Asked(entries[1..], slots, r)
           || (Accepts(entries[0].level, entries[0].kinds, r) && id in Resolve(entries[0].targets, slots))
    {
      var i, name :| 0 <= i < |entries| && Accepts(entries[i].level, entries[i].kinds, r)
        && name in entries[i].targets && FindTarget(slots, name) == Some(id);
      if i > 0 { assert entries[i] == entries[1..][i - 1]; }
    }
  }

  /** Main result: after `Configure` a record goes where it went before, and in addition to the
      first target bearing each name that a matching entry lists; merging keys, skipping unknown
      names and erasing keys change nothing. */
  lemma {:induction false} RoutingPreserved(keys: seq<DispatchKey>, entries: seq<DispatchEntry>, slots: seq<Slot>,
                                            r: LogRecord)
    requires KeysOk(keys, slots)
    ensures KeysOk(AddEntries(keys, entries, slots), slots)
    ensures Selected(AddEntries(keys, entries, slots), r) == Selected(keys, r) + Asked(entries, slots, r)
    decreases |entries|
  {
    if entries == [] {
      assert Asked(entries, slots, r) == {};
    } else {
      EntryKeepsKeysOk(keys, entries[0], slots);
      EntryRoutes(keys, entries[0], slots, r);
      AskedStep(entries, slots, r);
      RoutingPreserved(AddEntry(keys, entries[0], slots), entries[1..], slots, r);
    }
  }

  lemma AllRoutingPreserved(keys: seq<DispatchKey>, entries: seq<DispatchEntry>, slots: seq<Slot>)
    requires KeysOk(keys, slots)
    ensures forall r :: Selected(AddEntries(keys, entries, slots), r) == Selected(keys, r) + Asked(entries, slots, r)
  {
    forall r ensures Selected(AddEntries(keys, entries, slots), r) == Selected(keys, r) + Asked(entries, slots, r) {
      RoutingPreserved(keys, entries, slots, r);
    }
  }

  // ----- Get_config inverts Configure up to normalisation -----

  /** What `Get_config` returns after an empty logger was configured. */
  function Normalised(c: LoggerConfig): (r: LoggerConfig)
    requires NoBadCast(c.targets)
  {
    StartsOk(c);
    Exported(Configured(EMPTY, c))
  }

  lemma StartsOk(c: LoggerConfig)
    requires NoBadCast(c.targets)
    ensures KeysOk(Configured(EMPTY, c).keys, Configured(EMPTY, c).slots)
  {
    RoutingPreserved([], c.dispatch, AddTargets([], c.targets), LogRecord(0, 0, "", "", 0, "", "", 0));
  }

  /** A known type that agrees with the class, and no text left to the default. */
  predicate NormalTarget(c: TargetConfig) {
    && c.format != ""
    && match c
       case BaseConfig(_, _, targetType) => targetType == SYSTEM_OUT_TARGET || targetType == SYSTEM_ERR_TARGET
       case FileConfig(_, _, targetType, f) =>
         targetType == FILE_TARGET && f.filepath != "" && f.suffix != "" && f.filenameFormat != ""
  }

  predicate AllNormal(configs: seq<TargetConfig>) { forall i :: 0 <= i < |configs| ==> NormalTarget(configs[i]) }

  predicate NormalEntry(e: DispatchEntry, targets: seq<TargetConfig>) {
    e.targets != {} && forall name :: name in e.targets ==> exists i :: 0 <= i < |targets| && targets[i].name == name
  }

  /** Every entry lists known targets and at least one, and no two have the same level and kinds. */
  predicate NormalForm(c: LoggerConfig) {
    && AllNormal(c.targets)
    && (forall i :: 0 <= i < |c.dispatch| ==> NormalEntry(c.dispatch[i], c.targets))
    && (forall i, j :: 0 <= i < j < |c.dispatch| ==>
          c.dispatch[i].level != c.dispatch[j].level || c.dispatch[i].kinds != c.dispatch[j].kinds)
  }

  /** A target in use: its type is that of its class. */
  predicate TargetInUse(t: Target) {
    match t
    case ConsoleTarget(_, _, targetType) => targetType == SYSTEM_OUT_TARGET || targetType == SYSTEM_ERR_TARGET
    case FileTarget(_, _, targetType, _) => targetType == FILE_TARGET
  }

  lemma ExportIsNormal(t: Target)
    requires TargetInUse(t)
    ensures NormalTarget(ExportTarget(t)) && ExportTarget(t).name == t.name
  {
  }

  ghost predicate AllInUse(slots: seq<Slot>) { forall i :: 0 <= i < |slots| ==> TargetInUse(slots[i].target) }

  lemma NewTargetInUse(c: TargetConfig)
    requires NoBadCast([c]) && NewLogTarget(c.targetType).Some?
    ensures CastOk(NewLogTarget(c.targetType).value, c) && TargetInUse(LoadConfig(NewLogTarget(c.targetType).value, c))
  {
    assert [c][0] == c;
  }

  lemma {:induction false} SlotsInUse(slots: seq<Slot>, configs: seq<TargetConfig>)
    requires NoBadCast(configs) && AllInUse(slots)
    ensures AllInUse(AddTargets(slots, configs))
    decreases |configs|
  {
    if configs != [] {
      var c := configs[0];
      var t := NewLogTarget(c.targetType);
      if t.Some? {
        NewTargetInUse(c);
        SlotsInUse(slots + [Slot(LoadConfig(t.value, c), false)], configs[1..]);
      } else {
        SlotsInUse(slots, configs[1..]);
      }
    }
  }

  lemma ExportedKeyIsNormal(k: DispatchKey, slots: seq<Slot>, targets: seq<TargetConfig>)
    requires k.targets != {} && forall t :: t in k.targets ==> t < |slots|
    requires SameNames(slots, targets)
    ensures NormalEntry(ExportKey(k, slots), targets)
  {
    var e := ExportKey(k, slots);
    var t :| t in k.targets;
    assert slots[t].target.name in e.targets;
    forall name | name in e.targets ensures exists i :: 0 <= i < |targets| && targets[i].name == name {
      var i :| i in k.targets && slots[i].target.name == name;
      assert targets[i].name == name;
    }
  }

  lemma NormalisedIsNormal(c: LoggerConfig)
    requires NoBadCast(c.targets)
    ensures NormalForm(Normalised(c))
  {
    StartsOk(c);
    var s := Configured(EMPTY, c);
    SlotsInUse([], c.targets);
    var r := Normalised(c);
    assert AllInUse(s.slots);
    forall i | 0 <= i < |r.targets| ensures NormalTarget(r.targets[i]) && r.targets[i].name == s.slots[i].target.name {
      ExportIsNormal(s.slots[i].target);
    }
    forall i | 0 <= i < |r.dispatch| ensures NormalEntry(r.dispatch[i], r.targets) {
      ExportedKeyIsNormal(s.keys[i], s.slots, r.targets);
    }
  }

  /** The types 0 and 1 are consoles, 2 is a file, no other is known. */
  lemma KnownTypes(targetType: int)
    ensures NewLogTarget(targetType).Some? <==> 0 <= targetType <= 2
    ensures 0 <= targetType <= 2 ==> NewLogTarget(targetType).value.targetType == targetType
    ensures 0 <= targetType <= 2 ==> (NewLogTarget(targetType).value.FileTarget? <==> targetType == 2)
  {
  }

  /** What a new target keeps of its configuration. */
  function Kept(c: TargetConfig): (e: TargetConfig)
    requires 0 <= c.targetType <= 2 && (c.targetType == 2 ==> c.FileConfig?)
  {
    KnownTypes(c.targetType);
    ExportTarget(LoadConfig(NewLogTarget(c.targetType).value, c))
  }

  /** As it is exported: texts left empty are the defaults, everything else is as it was. */
  lemma EmptyTextsGetDefaults(c: TargetConfig)
    requires 0 <= c.targetType <= 2 && (c.targetType == 2 ==> c.FileConfig?)
    ensures Kept(c).name == c.name && Kept(c).targetType == c.targetType
    ensures c.format != "" ==> Kept(c).format == c.format
    ensures c.format == "" ==>
      Kept(c).format
      == "%%monstr %%day %%hour:%%min:%%sec.%%ms [%%source:%%line] [%%level:%%kinds] [%%module:%%entity] %%log"
    ensures c.targetType == 2 ==> Kept(c).FileConfig? && KeepsFileTexts(c.file, Kept(c).file)
  {
  }

  /** A target that is configured again keeps the texts that are left empty, but for the path. */
  lemma LoadingKeepsWhatIsEmpty(t: Target, c: TargetConfig)
    requires CastOk(t, c)
    ensures var r := LoadConfig(t, c);
      && r.name == c.name && r.targetType == c.targetType
      && r.format == (if c.format == "" then t.format else c.format)
      && (t.FileTarget? ==> r.FileTarget? && LoadedFile(t.file, c.file, r.file))
  {
  }

  ghost predicate LoadedFile(was: FilePart, c: FilePart, r: FilePart) {
    && r.filepath == c.filepath && r.maxFilesizeBytes == c.maxFilesizeBytes && r.logFrequency == c.logFrequency
    && r.logStorageDuration == c.logStorageDuration
    && r.filename == (if c.filename == "" then was.filename else c.filename)
    && r.prefix == (if c.prefix == "" then was.prefix else c.prefix)
    && r.suffix == (if c.suffix == "" then was.suffix else c.suffix)
    && r.filenameFormat == (if c.filenameFormat == "" then was.filenameFormat else c.filenameFormat)
  }

  ghost predicate KeepsFileTexts(f: FilePart, e: FilePart) {
    && e.filepath == OrElse(f.filepath, ".") && e.suffix == OrElse(f.suffix, ".log")
    && e.filenameFormat == OrElse(f.filenameFormat, DEFAULT_FILENAME_FORMAT)
    && e.filename == f.filename && e.prefix == f.prefix && e.maxFilesizeBytes == f.maxFilesizeBytes
    && e.logFrequency == f.logFrequency && e.logStorageDuration == f.logStorageDuration
  }

  lemma NormalTargetRoundTrip(c: TargetConfig)
    requires NormalTarget(c)
    ensures NewLogTarget(c.targetType).Some? && CastOk(NewLogTarget(c.targetType).value, c)
    ensures ExportTarget(LoadConfig(NewLogTarget(c.targetType).value, c)) == c
    ensures LoadConfig(NewLogTarget(c.targetType).value, c).name == c.name
  {
  }

  function NewSlot(c: TargetConfig): (s: Slot)
    requires NormalTarget(c)
  {
    Slot(LoadConfig(NewLogTarget(c.targetType).value, c), false)
  }

  function NewSlots(configs: seq<TargetConfig>): (slots: seq<Slot>)
    requires AllNormal(configs)
    ensures |slots| == |configs|
  {
    seq(|configs|, i requires 0 <= i < |configs| => NewSlot(configs[i]))
  }

  lemma {:induction false} NormalTargetsAdded(slots: seq<Slot>, configs: seq<TargetConfig>)
    requires AllNormal(configs)
    ensures NoBadCast(configs) && AddTargets(slots, configs) == slots + NewSlots(configs)
    decreases |configs|
  {
    if configs != [] {
      NormalTargetRoundTrip(configs[0]);
      NormalTargetsAdded(slots + [NewSlot(configs[0])], configs[1..]);
      assert NewSlots(configs) == [NewSlot(configs[0])] + NewSlots(configs[1..]);
      assert slots + [NewSlot(configs[0])] + NewSlots(configs[1..]) == slots + NewSlots(configs);
    }
  }

  /** Names that are known come back from the targets they stand for. */
  lemma NamesRoundTrip(e: DispatchEntry, slots: seq<Slot>, targets: seq<TargetConfig>)
    requires NormalEntry(e, targets) && SameNames(slots, targets)
    ensures var ids := Resolve(e.targets, slots);
      ids != {} && (forall t :: t in ids ==> t < |slots|) && ExportKey(DispatchKey(e.level, e.kinds, ids), slots) == e
  {
    ResolvedExist(e.targets, slots);
    forall name | name in e.targets
      ensures FindTarget(slots, name).Some? && FindTarget(slots, name).value in Resolve(e.targets, slots)
    {
      var i :| 0 <= i < |targets| && targets[i].name == name;
      assert slots[i].target.name == name;
    }
    var name :| name in e.targets;
    NamesOfResolved(e.targets, slots);
  }

  lemma NamesOfResolved(names: set<string>, slots: seq<Slot>)
    requires forall name :: name in names ==> FindTarget(slots, name).Some?
    ensures (set t | t in Resolve(names, slots) :: slots[t].target.name) == names
  {
    forall name | name in names ensures name in (set t | t in Resolve(names, slots) :: slots[t].target.name) {
      assert FindTarget(slots, name).value in Resolve(names, slots);
    }
  }

  ghost predicate SameNames(slots: seq<Slot>, targets: seq<TargetConfig>) {
    |targets| == |slots| && forall i :: 0 <= i < |slots| ==> targets[i].name == slots[i].target.name
  }

  function NewKey(e: DispatchEntry, slots: seq<Slot>): (k: DispatchKey) {
    DispatchKey(e.level, e.kinds, Resolve(e.targets, slots))
  }

  function NewKeys(entries: seq<DispatchEntry>, slots: seq<Slot>): (keys: seq<DispatchKey>)
    ensures |keys| == |entries|
  {
    seq(|entries|, i requires 0 <= i < |entries| => NewKey(entries[i], slots))
  }

  /** Level and kinds of the entries differ from each other and from those of the keys. */
  ghost predicate AllDiffer(keys: seq<DispatchKey>, entries: seq<DispatchEntry>) {
    && (forall i, j :: 0 <= i < j < |entries| ==>
         entries[i].level != entries[j].level || entries[i].kinds != entries[j].kinds)
    && (forall i, j :: 0 <= i < |keys| && 0 <= j < |entries| ==>
         keys[i].level != entries[j].level || keys[i].kinds != entries[j].kinds)
  }

  lemma {:induction false} NoSuchKey(keys: seq<DispatchKey>, level: int, kinds: bv64, from: nat)
    requires from <= |keys| && forall i :: from <= i < |keys| ==> keys[i].level != level || keys[i].kinds != kinds
    ensures FindKey(keys, level, kinds, from) == |keys|
    decreases |keys| - from
  {
    if from < |keys| { NoSuchKey(keys, level, kinds, from + 1); }
  }

  lemma DifferStep(keys: seq<DispatchKey>, entries: seq<DispatchEntry>, k: DispatchKey)
    requires entries != [] && AllDiffer(keys, entries) && k.level == entries[0].level && k.kinds == entries[0].kinds
    ensures AllDiffer(keys + [k], entries[1..])
  {
    var more, rest := keys + [k], entries[1..];
    forall i, j | 0 <= i < |more| && 0 <= j < |rest|
      ensures more[i].level != rest[j].level || more[i].kinds != rest[j].kinds
    {
      assert rest[j] == entries[j + 1];
      assert more[i] == if i < |keys| then keys[i] else k;
    }
  }

  lemma NewKeyAdded(keys: seq<DispatchKey>, entries: seq<DispatchEntry>, slots: seq<Slot>, targets: seq<TargetConfig>)
    requires entries != [] && KeysOk(keys, slots) && SameNames(slots, targets) && AllDiffer(keys, entries)
    requires NormalEntry(entries[0], targets)
    ensures AddEntry(keys, entries[0], slots) == keys + [NewKey(entries[0], slots)]
    ensures KeysOk(keys + [NewKey(entries[0], slots)], slots)
    ensures AllDiffer(keys + [NewKey(entries[0], slots)], entries[1..])
  {
    var e := entries[0];
    NoSuchKey(keys, e.level, e.kinds, 0);
    DifferStep(keys, entries, NewKey(e, slots));
    NamesRoundTrip(e, slots, targets);
    AddEntryIs(keys, e, slots);
    EntryKeepsKeysOk(keys, e, slots);
  }

  /** Each entry becomes one key. */
  lemma {:induction false} NormalEntriesAdded(keys: seq<DispatchKey>, entries: seq<DispatchEntry>, slots: seq<Slot>,
                                              targets: seq<TargetConfig>)
    requires KeysOk(keys, slots) && SameNames(slots, targets) && AllDiffer(keys, entries)
    requires forall i :: 0 <= i < |entries| ==> NormalEntry(entries[i], targets)
    ensures AddEntries(keys, entries, slots) == keys + NewKeys(entries, slots)
    decreases |entries|
  {
    if entries != [] {
      NewKeyAdded(keys, entries, slots, targets);
      NormalEntriesAdded(keys + [NewKey(entries[0], slots)], entries[1..], slots, targets);
      NewKeysStep(keys, entries, slots);
    }
  }

  lemma NewKeysStep(keys: seq<DispatchKey>, entries: seq<DispatchEntry>, slots: seq<Slot>)
    requires entries != []
    ensures keys + [NewKey(entries[0], slots)] + NewKeys(entries[1..], slots) == keys + NewKeys(entries, slots)
  {
    assert NewKeys(entries, slots) == [NewKey(entries[0], slots)] + NewKeys(entries[1..], slots);
  }

  lemma NormalTargetsKept(configs: seq<TargetConfig>)
    requires AllNormal(configs)
    ensures NoBadCast(configs) && AddTargets([], configs) == NewSlots(configs) && SameNames(NewSlots(configs), configs)
    ensures forall i :: 0 <= i < |configs| ==> ExportTarget(NewSlots(configs)[i].target) == configs[i]
  {
    NormalTargetsAdded([], configs);
    assert [] + NewSlots(configs) == NewSlots(configs);
    forall i | 0 <= i < |configs|
      ensures ExportTarget(NewSlots(configs)[i].target) == configs[i]
      ensures NewSlots(configs)[i].target.name == configs[i].name
    {
      NewSlotRoundTrip(configs, i);
    }
  }

  lemma NewSlotRoundTrip(configs: seq<TargetConfig>, i: nat)
    requires AllNormal(configs) && i < |configs|
    ensures ExportTarget(NewSlots(configs)[i].target) == configs[i]
    ensures NewSlots(configs)[i].target.name == configs[i].name
  {
    NormalTargetRoundTrip(configs[i]);
    assert NewSlots(configs)[i] == NewSlot(configs[i]);
  }

  lemma NormalKeysKept(entries: seq<DispatchEntry>, slots: seq<Slot>, targets: seq<TargetConfig>)
    requires SameNames(slots, targets) && AllDiffer([], entries)
    requires forall i :: 0 <= i < |entries| ==> NormalEntry(entries[i], targets)
    ensures var keys := AddEntries([], entries, slots);
      |keys| == |entries| && KnownTargets(keys, slots)
      && forall i :: 0 <= i < |keys| ==> ExportKey(keys[i], slots) == entries[i]
  {
    NormalEntriesAdded([], entries, slots, targets);
    NewKeysExport(entries, slots, targets);
    assert [] + NewKeys(entries, slots) == NewKeys(entries, slots);
  }

  lemma NewKeysExport(entries: seq<DispatchEntry>, slots: seq<Slot>, targets: seq<TargetConfig>)
    requires SameNames(slots, targets) && forall i :: 0 <= i < |entries| ==> NormalEntry(entries[i], targets)
    ensures var keys := NewKeys(entries, slots);
      |keys| == |entries| && KnownTargets(keys, slots)
      && forall i :: 0 <= i < |keys| ==> ExportKey(keys[i], slots) == entries[i]
  {
    var keys := NewKeys(entries, slots);
    forall i | 0 <= i < |keys|
      ensures (forall t :: t in keys[i].targets ==> t < |slots|) && ExportKey(keys[i], slots) == entries[i]
    {
      NamesRoundTrip(entries[i], slots, targets);
    }
  }

  lemma NormalFormIsKept(c: LoggerConfig)
    requires NormalForm(c)
    ensures NoBadCast(c.targets) && Normalised(c) == c
  {
    NormalTargetsKept(c.targets);
    NormalKeysKept(c.dispatch, NewSlots(c.targets), c.targets);
    ExportedIs(Configured(EMPTY, c), c);
  }

  lemma ExportedIs(s: LoggerState, c: LoggerConfig)
    requires KnownTargets(s.keys, s.slots) && |s.slots| == |c.targets| && |s.keys| == |c.dispatch|
    requires s.useFallback == c.useFallback && s.asynchronousMode == c.asynchronousMode
    requires forall i :: 0 <= i < |s.slots| ==> ExportTarget(s.slots[i].target) == c.targets[i]
    requires forall i :: 0 <= i < |s.keys| ==> ExportKey(s.keys[i], s.slots) == c.dispatch[i]
    ensures Exported(s) == c
  {
    assert Exported(s).targets == c.targets;
    assert Exported(s).dispatch == c.dispatch;
  }

  /** Main result: exporting gives the configuration back exactly if it is in normal form, and
      what is exported always is, so exporting a second time changes nothing. */
  lemma NormalisationExactly(c: LoggerConfig)
    requires NoBadCast(c.targets)
    ensures Normalised(c) == c <==> NormalForm(c)
    ensures NoBadCast(Normalised(c).targets) && Normalised(Normalised(c)) == Normalised(c)
  {
    NormalisedIsNormal(c);
    NormalFormIsKept(Normalised(c));
    if NormalForm(c) {
      NormalFormIsKept(c);
    }
  }

  // ----- the exported configuration rebuilds the dispatch table -----

  /** All targets are the first of their name. */
  ghost predicate FirstsOnly(ids: set<nat>, slots: seq<Slot>) {
    forall t :: t in ids ==> t < |slots| && FindTarget(slots, slots[t].target.name) == Some(t)
  }

  lemma ResolvedAreFirsts(names: set<string>, slots: seq<Slot>)
    ensures FirstsOnly(Resolve(names, slots), slots)
  {
  }

  ghost predicate KeysFirst(keys: seq<DispatchKey>, slots: seq<Slot>) {
    forall i :: 0 <= i < |keys| ==> FirstsOnly(keys[i].targets, slots)
  }

  lemma FirstsMerge(a: set<nat>, b: set<nat>, slots: seq<Slot>)
    requires FirstsOnly(a, slots) && FirstsOnly(b, slots)
    ensures FirstsOnly(a + b, slots)
  {
  }

  lemma EntryAddsFirsts(keys: seq<DispatchKey>, e: DispatchEntry, slots: seq<Slot>)
    requires KeysOk(keys, slots) && KeysFirst(keys, slots)
    ensures KeysFirst(AddEntry(keys, e, slots), slots)
  {
    AddEntryIs(keys, e, slots);
    ResolvedAreFirsts(e.targets, slots);
    var i := FindKey(keys, e.level, e.kinds);
    if i < |keys| { FirstsMerge(keys[i].targets, Resolve(e.targets, slots), slots); }
  }

  lemma {:induction false} EntriesAddFirsts(keys: seq<DispatchKey>, entries: seq<DispatchEntry>, slots: seq<Slot>)
    requires KeysOk(keys, slots) && KeysFirst(keys, slots)
    ensures KeysFirst(AddEntries(keys, entries, slots), slots)
    decreases |entries|
  {
    if entries != [] {
      EntryKeepsKeysOk(keys, entries[0], slots);
      EntryAddsFirsts(keys, entries[0], slots);
      EntriesAddFirsts(AddEntry(keys, entries[0], slots), entries[1..], slots);
    }
  }

  lemma {:induction false} SameFind(a: seq<Slot>, b: seq<Slot>, name: string, from: nat)
    requires |a| == |b| && from <= |a| && forall i :: 0 <= i < |a| ==> a[i].target.name == b[i].target.name
    ensures FindTarget(a, name, from) == FindTarget(b, name, from)
    decreases |a| - from
  {
    if from < |a| { SameFind(a, b, name, from + 1); }
  }

  ghost predicate SameSlotNames(a: seq<Slot>, b: seq<Slot>) {
    |a| == |b| && forall i :: 0 <= i < |a| ==> a[i].target.name == b[i].target.name
  }

  lemma KeyRebuilt(k: DispatchKey, slots: seq<Slot>, again: seq<Slot>)
    requires FirstsOnly(k.targets, slots) && SameSlotNames(slots, again)
    ensures NewKey(ExportKey(k, slots), again) == k
  {
    forall t | t in k.targets ensures t in Resolve(ExportKey(k, slots).targets, again) {
      assert slots[t].target.name in ExportKey(k, slots).targets;
      SameFind(slots, again, slots[t].target.name, 0);
    }
    forall t | t in Resolve(ExportKey(k, slots).targets, again) ensures t in k.targets {
      NothingNew(k, slots, again, t);
    }
  }

  lemma NothingNew(k: DispatchKey, slots: seq<Slot>, again: seq<Slot>, t: nat)
    requires FirstsOnly(k.targets, slots) && SameSlotNames(slots, again)
    requires t in Resolve(ExportKey(k, slots).targets, again)
    ensures t in k.targets
  {
    var name :| name in ExportKey(k, slots).targets && FindTarget(again, name) == Some(t);
    var u :| u in k.targets && slots[u].target.name == name;
    SameFind(slots, again, name, 0);
  }

  lemma KeysRebuilt(keys: seq<DispatchKey>, slots: seq<Slot>, again: seq<Slot>, entries: seq<DispatchEntry>)
    requires KeysFirst(keys, slots) && SameSlotNames(slots, again) && |entries| == |keys|
    requires forall i :: 0 <= i < |keys| ==>
        FirstsOnly(keys[i].targets, slots) && entries[i] == ExportKey(keys[i], slots)
    ensures NewKeys(entries, again) == keys
  {
    forall i | 0 <= i < |keys| ensures NewKey(entries[i], again) == keys[i] {
      KeyRebuilt(keys[i], slots, again);
    }
  }

  lemma NameOfExport(t: Target)
    ensures ExportTarget(t).name == t.name
  {
  }

  lemma SlotsRebuilt(slots: seq<Slot>, configs: seq<TargetConfig>)
    requires AllNormal(configs) && |configs| == |slots|
    requires forall i :: 0 <= i < |slots| ==> configs[i] == ExportTarget(slots[i].target)
    ensures AddTargets([], configs) == NewSlots(configs) && SameSlotNames(slots, NewSlots(configs))
    ensures SameNames(NewSlots(configs), configs)
  {
    NormalTargetsKept(configs);
    forall i | 0 <= i < |slots| ensures slots[i].target.name == NewSlots(configs)[i].target.name {
      NameOfExport(slots[i].target);
    }
  }

  /** Main result: configuring an empty logger with the exported configuration gives the very same
      keys, so every record is routed as before, also where names are used twice. */
  lemma ExportKeepsRouting(c: LoggerConfig)
    requires NoBadCast(c.targets)
    ensures NoBadCast(Normalised(c).targets)
    ensures Configured(EMPTY, Normalised(c)).keys == Configured(EMPTY, c).keys
  {
    StartsOk(c);
    var slots := AddTargets([], c.targets);
    var keys := AddEntries([], c.dispatch, slots);
    var n := Normalised(c);
    NormalisedIsNormal(c);
    NormalTargetsKept(n.targets);
    SlotsRebuilt(slots, n.targets);
    EntriesAddFirsts([], c.dispatch, slots);
    KeysRebuilt(keys, slots, NewSlots(n.targets), n.dispatch);
    NormalEntriesAdded([], n.dispatch, NewSlots(n.targets), n.targets);
    assert [] + keys == keys;
  }
}
