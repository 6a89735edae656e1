/**
 The threads of `Logger` as a system of atomic steps: producers, the logging thread, the
 maintenance thread and whoever calls `Start`, `Stop`, `Configure` or `Reconfigure`. What runs
 under the mutex without waiting for another thread is one step; `Stop` waits for two of them.
 */
module AsyncLogger {

  /** An accepted record, with the number of the configuration in force when it was accepted. */
  datatype Entry = Entry(record: nat, config: nat)

  /** Where the records are, and the history of what happened to them. */
  datatype Records = Records(
    buffer: seq<Entry>,      // _log_records
    batch: seq<Entry>,       // tmp_records of the logging thread
    drain: seq<Entry>,       // tmp_records of the thread inside Stop
    asynchronous: bool,
    config: nat,             // counts the configurations applied
    accepted: seq<Entry>,    // in the order of acceptance
    processed: seq<Entry>,   // in the order of writing
    routedBy: seq<nat>)      // the configuration each processed record was routed with

  /** The logging thread: before the stop test, waiting for the semaphore, before the look at the
      buffer, before the attempt to lock, writing its batch outside the lock. */
  datatype LoggingThread = LOff | LTest | LWait | LLook | LTry | LWrite | LDone

  /** The maintenance thread: `MWork(n)` has `n` targets left, `MCall(n)` is inside target code that
      logs to this logger. */
  datatype MaintenanceThread = MOff | MTest | MWork(left: nat) | MCall(left: nat) | MSleep | MDone

  datatype Purpose = ToStop | ToReconfigure(mode: bool)

  /** Who holds the mutex over several steps, and where. */
  datatype Control =
    | Free
    | JoiningLogging(purpose: Purpose)
    | JoiningMaintenance(purpose: Purpose)
    | Draining(purpose: Purpose)
    | Starting(reconfigured: bool)
    | Informing

  datatype Threads = Threads(
    control: Control,
    logging: LoggingThread, loggingStop: bool,
    maintenance: MaintenanceThread, maintenanceStop: bool)

  datatype State = State(records: Records, threads: Threads)

  const INITIAL := State(Records([], [], [], true, 0, [], [], []), Threads(Free, LOff, false, MOff, false))

  datatype Step =
    // any thread
    | Log(record: nat)
    | CallStart
    | CallStop
    | CallConfigure(mode: bool)
    | CallReconfigure(mode: bool)
    // the thread that holds the mutex
    | OwnerLog(record: nat)
    | JoinLogging
    | JoinMaintenance
    | DrainOne
    | DrainEnd
    | StartThreads
    | Inform(record: nat)
    | InformElsewhere
    // the logging thread
    | TestStop
    | Wake
    | Look
    | Swap
    | TryFails
    | WriteOne
    | BatchEnd
    // the maintenance thread
    | MaintenanceTest(targets: nat)
    | MaintainOne
    | EnterCall
    | CallLogs(record: nat)
    | MaintenanceEnd
    | MaintenanceWake

  predicate Enabled(s: State, a: Step) {
    var r, h := s.records, s.threads;
    match a
    case Log(_) => h.control.Free?
    case CallStart => h.control.Free?
    case CallStop => h.control.Free?
    case CallConfigure(_) => h.control.Free?
    case CallReconfigure(_) => h.control.Free?
    case OwnerLog(_) => h.control.Starting?
    case JoinLogging => h.control.JoiningLogging? && (h.logging.LOff? || h.logging.LDone?)
    case JoinMaintenance => h.control.JoiningMaintenance? && (h.maintenance.MOff? || h.maintenance.MDone?)
    case DrainOne => h.control.Draining? && r.drain != []
    case DrainEnd => h.control.Draining? && r.drain == []
    case StartThreads => h.control.Starting?
    case Inform(_) => h.control.Informing?
    case InformElsewhere => h.control.Informing?
    case TestStop => h.logging.LTest?
    case Wake => h.logging.LWait?
    case Look => h.logging.LLook?
    case Swap => h.logging.LTry? && h.control.Free?
    case TryFails => h.logging.LTry?
    case WriteOne => h.logging.LWrite? && r.batch != []
    case BatchEnd => h.logging.LWrite? && r.batch == []
    case MaintenanceTest(_) => h.maintenance.MTest?
    case MaintainOne => h.maintenance.MWork? && h.maintenance.left > 0
    case EnterCall => h.maintenance.MWork? && h.maintenance.left > 0
    case CallLogs(_) => h.maintenance.MCall? && h.control.Free?
    case MaintenanceEnd => h.maintenance.MWork? && h.maintenance.left == 0
    case MaintenanceWake => h.maintenance.MSleep?
  }

  // ----- what a step does to the records -----

  /** `Log_entry` under the mutex. */
  function Accept(r: Records, record: nat): (t: Records) {
    var e := Entry(record, r.config);
    if r.asynchronous then r.(accepted := r.accepted + [e], buffer := r.buffer + [e])
    else r.(accepted := r.accepted + [e], processed := r.processed + [e], routedBy := r.routedBy + [r.config])
  }

  /** `Write_log` with the dispatch keys as they are now. */
  function Written(r: Records, e: Entry): (t: Records) {
    r.(processed := r.processed + [e], routedBy := r.routedBy + [r.config])
  }

  function Configured(r: Records, mode: bool): (t: Records) { r.(config := r.config + 1, asynchronous := mode) }

  predicate IsLog(a: Step) { a.Log? || a.OwnerLog? || a.Inform? || a.CallLogs? }

  function MoveRecords(s: State, a: Step): (t: Records)
    requires Enabled(s, a)
  {
    var r := s.records;
    if IsLog(a) then Accept(r, a.record)
    else match a
      case CallConfigure(mode) => Configured(r, mode)
      case JoinMaintenance => r.(drain := r.buffer, buffer := [])
      case DrainOne => Written(r, r.drain[0]).(drain := r.drain[1..])
      case DrainEnd =>
        if s.threads.control.purpose.ToStop? then r else Configured(r, s.threads.control.purpose.mode)
      case Swap => r.(batch := r.buffer, buffer := [])
      case WriteOne => Written(r, r.batch[0]).(batch := r.batch[1..])
      case _ => r
  }

  // ----- what a step does to the threads -----

  /** `Stop` takes the mutex and asks the logging thread to stop, if there is one. */
  function BeginStop(h: Threads, purpose: Purpose): (t: Threads) {
    h.(control := JoiningLogging(purpose), loggingStop := !h.logging.LOff?)
  }

  /** `Start_logging_thread` and `Start_maintainance_thread`: a thread that runs is left alone. */
  function ThreadsStarted(h: Threads, asynchronous: bool): (t: Threads) {
    var l := asynchronous && h.logging.LOff?;
    var m := h.maintenance.MOff?;
    h.(logging := if l then LTest else h.logging, loggingStop := h.loggingStop && !l,
       maintenance := if m then MTest else h.maintenance, maintenanceStop := h.maintenanceStop && !m)
  }

  function MoveThreads(s: State, a: Step): (t: Threads)
    requires Enabled(s, a)
  {
    var h := s.threads;
    match a
    case Log(_) => h
    case CallStart => h.(control := Starting(false))
    case CallStop => BeginStop(h, ToStop)
    case CallConfigure(_) => h
    case CallReconfigure(mode) => BeginStop(h, ToReconfigure(mode))
    case OwnerLog(_) => h
    case JoinLogging =>
      h.(logging := LOff, control := JoiningMaintenance(h.control.purpose), maintenanceStop := !h.maintenance.MOff?)
    case JoinMaintenance => h.(maintenance := MOff, control := Draining(h.control.purpose))
    case DrainOne => h
    case DrainEnd => h.(control := if h.control.purpose.ToStop? then Free else Starting(true))
    case StartThreads =>
      ThreadsStarted(h, s.records.asynchronous).(control := if h.control.reconfigured then Informing else Free)
    case Inform(_) => h.(control := Free)
    case InformElsewhere => h.(control := Free)
    case TestStop => h.(logging := if h.loggingStop then LDone else LWait)
    case Wake => h.(logging := LLook)
    case Look => h.(logging := if s.records.buffer == [] then LTest else LTry)
    case Swap => h.(logging := LWrite)
    case TryFails => h.(logging := LTest)
    case WriteOne => h
    case BatchEnd => h.(logging := LTest)
    case MaintenanceTest(targets) => h.(maintenance := if h.maintenanceStop then MDone else MWork(targets))
    case MaintainOne => h.(maintenance := MWork(h.maintenance.left - 1))
    case EnterCall => h.(maintenance := MCall(h.maintenance.left))
    case CallLogs(_) => h.(maintenance := MWork(h.maintenance.left))
    case MaintenanceEnd => h.(maintenance := MSleep)
    case MaintenanceWake => h.(maintenance := MTest)
  }

  function Apply(s: State, a: Step): (t: State)
    requires Enabled(s, a)
  {
    State(MoveRecords(s, a), MoveThreads(s, a))
  }

  ghost predicate IsRun(s: State, steps: seq<Step>, t: State)
    decreases |steps|
  {
    if steps == [] then t == s else Enabled(s, steps[0]) && IsRun(Apply(s, steps[0]), steps[1..], t)
  }

  // ----- the mutex -----

  /** Every call takes the mutex, as do the attempt of the logging thread and a call back: all of them
      wait or fail while somebody holds it, and a call can be made whenever nobody does. */
  lemma MutexExcludes(s: State, a: Step)
    ensures a.Log? || a.CallStart? || a.CallStop? || a.CallConfigure? || a.CallReconfigure? ==>
      (Enabled(s, a) <==> s.threads.control.Free?)
    ensures a.Swap? || a.CallLogs? ==> (Enabled(s, a) ==> s.threads.control.Free?)
    ensures a.OwnerLog? || a.StartThreads? ==> (Enabled(s, a) <==> s.threads.control.Starting?)
    ensures a.Inform? || a.InformElsewhere? ==> (Enabled(s, a) <==> s.threads.control.Informing?)
  {
  }

  /** Logging moves no thread; only the last record of `Reconfigure` gives the mutex back, and a call back
      ends. */
  lemma LoggingMovesNothing(s: State, a: Step)
    requires Enabled(s, a) && (a.Log? || a.OwnerLog? || a.Inform? || a.CallLogs?)
    ensures Apply(s, a).threads == if a.Inform? then s.threads.(control := Free)
      else if a.CallLogs? then s.threads.(maintenance := MWork(s.threads.maintenance.left)) else s.threads
  {
  }

  /** Every target that is maintained may log, once it gets the mutex, and is maintained further. */
  lemma EveryTargetMayLog(s: State, record: nat)
    ensures Enabled(s, EnterCall) <==> Enabled(s, MaintainOne)
    ensures Enabled(s, EnterCall) && s.threads.control.Free? ==>
      var u := Apply(s, EnterCall); Enabled(u, CallLogs(record)) && Apply(u, CallLogs(record)).threads == s.threads
  {
  }

  /** `Start` holds the mutex while it logs and starts the threads, and gives it back; no record moves. */
  lemma StartHoldsMutex(s: State)
    requires s.threads.control.Free?
    ensures Enabled(s, CallStart) && Enabled(Apply(s, CallStart), StartThreads)
    ensures forall record :: Enabled(Apply(s, CallStart), OwnerLog(record))
    ensures forall record :: !Enabled(Apply(s, CallStart), Log(record))
    ensures var t := Apply(Apply(s, CallStart), StartThreads); t.threads.control.Free? && t.records == s.records
  {
  }

  // ----- what always holds -----

  /** Who can be where. */
  predicate ThreadsConsistent(h: Threads) {
    && (h.control.JoiningLogging? && !h.logging.LOff? ==> h.loggingStop)
    && (h.loggingStop && !h.logging.LOff? ==> h.control.JoiningLogging?)
    && (h.logging.LDone? ==> h.loggingStop)
    && (h.maintenanceStop && !h.maintenance.MOff? ==> h.control.JoiningMaintenance?)
    && (h.maintenance.MDone? ==> h.maintenanceStop)
    && (h.maintenance.MCall? ==> h.maintenance.left > 0)
    && (h.control.JoiningMaintenance? ==> h.logging.LOff? && (!h.maintenance.MOff? ==> h.maintenanceStop))
    && (h.control.Draining? || (h.control.Starting? && h.control.reconfigured) ==>
         h.logging.LOff? && h.maintenance.MOff?)
  }

  /** Who has records in hand. */
  predicate Consistent(s: State) {
    && ThreadsConsistent(s.threads)
    && (s.records.batch != [] ==> s.threads.logging.LWrite?)
    && (s.records.drain != [] ==> s.threads.control.Draining?)
    && (s.threads.control.Draining? ==> s.records.buffer == [])
    && |s.records.routedBy| == |s.records.processed|
  }

  lemma ThreadsStayConsistent(s: State, a: Step)
    requires ThreadsConsistent(s.threads) && Enabled(s, a)
    ensures ThreadsConsistent(MoveThreads(s, a))
  {
  }

  lemma ConsistentStep(s: State, a: Step)
    requires Consistent(s) && Enabled(s, a)
    ensures Consistent(Apply(s, a))
  {
    ThreadsStayConsistent(s, a);
  }

  /** The records between acceptance and writing, in the order in which they will be written. */
  function Pending(r: Records): (es: seq<Entry>) { r.batch + r.drain + r.buffer }

  /** What a step does to the histories and the pending records: accept one, write the first
      pending one, or nothing. The mode and the configuration change only by being configured. */
  datatype Effect = Accepted(record: nat) | WroteFirst | NewConfig(mode: bool) | Nothing

  predicate HasEffect(r: Records, e: Effect, t: Records) {
    match e
    case Accepted(x) =>
      var y := Entry(x, r.config);
      && t.config == r.config && t.asynchronous == r.asynchronous && t.accepted == r.accepted + [y]
      && (if r.asynchronous
           then t.processed == r.processed && t.routedBy == r.routedBy && Pending(t) == Pending(r) + [y]
          else t.processed == r.processed + [y] && t.routedBy == r.routedBy + [r.config] && Pending(t) == Pending(r))
    case WroteFirst =>
      && t.config == r.config && t.asynchronous == r.asynchronous && t.accepted == r.accepted
      && Pending(r) != [] && Pending(t) == Pending(r)[1..]
      && t.processed == r.processed + [Pending(r)[0]] && t.routedBy == r.routedBy + [r.config]
    case NewConfig(mode) =>
      && t.config == r.config + 1 && t.asynchronous == mode && t.accepted == r.accepted
      && t.processed == r.processed && t.routedBy == r.routedBy && Pending(t) == Pending(r)
    case Nothing =>
      && t.config == r.config && t.asynchronous == r.asynchronous && t.accepted == r.accepted
      && t.processed == r.processed && t.routedBy == r.routedBy && Pending(t) == Pending(r)
  }

  function EffectOf(s: State, a: Step): (e: Effect)
    requires Enabled(s, a)
  {
    if IsLog(a) then Accepted(a.record)
    else if a.WriteOne? || a.DrainOne? then WroteFirst
    else if a.CallConfigure? then NewConfig(a.mode)
    else if a.DrainEnd? && s.threads.control.purpose.ToReconfigure? then NewConfig(s.threads.control.purpose.mode)
    else Nothing
  }

  lemma AcceptEffect(r: Records, record: nat)
    ensures HasEffect(r, Accepted(record), Accept(r, record))
  {
  }

  lemma WriteEffect(r: Records)
    ensures r.batch != [] ==> HasEffect(r, WroteFirst, Written(r, r.batch[0]).(batch := r.batch[1..]))
    ensures r.drain != [] && r.batch == [] ==> HasEffect(r, WroteFirst, Written(r, r.drain[0]).(drain := r.drain[1..]))
  {
    if r.batch != [] {
      assert Pending(r)[0] == r.batch[0] && Pending(r)[1..] == r.batch[1..] + r.drain + r.buffer;
    } else if r.drain != [] {
      assert Pending(r)[0] == r.drain[0] && Pending(r)[1..] == [] + r.drain[1..] + r.buffer;
    }
  }

  lemma SwapEffect(r: Records)
    requires r.batch == [] && r.drain == []
    ensures HasEffect(r, Nothing, r.(batch := r.buffer, buffer := []))
    ensures HasEffect(r, Nothing, r.(drain := r.buffer, buffer := []))
  {
    assert Pending(r) == r.buffer;
  }

  lemma StepHasEffect(s: State, a: Step)
    requires Consistent(s) && Enabled(s, a)
    ensures HasEffect(s.records, EffectOf(s, a), Apply(s, a).records)
  {
    var r := s.records;
    if IsLog(a) {
      AcceptEffect(r, a.record);
    } else if a.WriteOne? || a.DrainOne? {
      WriteEffect(r);
    } else if a.Swap? || a.JoinMaintenance? {
      SwapEffect(r);
    }
  }

  lemma DrainEndsEmpty(s: State)
    requires Consistent(s) && Enabled(s, DrainEnd)
    ensures Pending(s.records) == []
  {
  }

  // ----- nothing is lost or written twice -----

  predicate Conserved(r: Records) { multiset(r.accepted) == multiset(r.processed) + multiset(Pending(r)) }

  lemma EffectConserves(r: Records, e: Effect, t: Records)
    requires Conserved(r) && HasEffect(r, e, t)
    ensures Conserved(t)
  {
    if e.WroteFirst? {
      FirstMoves(r.processed, Pending(r));
    }
  }

  lemma FirstMoves(done: seq<Entry>, waiting: seq<Entry>)
    requires waiting != []
    ensures multiset(done + [waiting[0]]) + multiset(waiting[1..]) == multiset(done) + multiset(waiting)
  {
    assert waiting == [waiting[0]] + waiting[1..];
  }

  /** Main result, for every run with any calls of `Configure`: each accepted record is written
      once, or still waits in exactly one place. */
  lemma {:induction false} NothingLostOrDuplicated(s: State, steps: seq<Step>, t: State)
    requires Consistent(s) && Conserved(s.records) && IsRun(s, steps, t)
    ensures Consistent(t) && Conserved(t.records)
    decreases |steps|
  {
    if steps != [] {
      var u := Apply(s, steps[0]);
      ConsistentStep(s, steps[0]);
      StepHasEffect(s, steps[0]);
      EffectConserves(s.records, EffectOf(s, steps[0]), u.records);
      NothingLostOrDuplicated(u, steps[1..], t);
    }
  }

  lemma InitialIsFine()
    ensures Consistent(INITIAL) && Conserved(INITIAL.records) && Ordered(INITIAL.records) && Tagged(INITIAL.records)
    ensures INITIAL.records.asynchronous && INITIAL.records.accepted == [] && INITIAL.records.config == 0
    ensures INITIAL.threads == Threads(Free, LOff, false, MOff, false)
  {
  }

  // ----- order -----

  /** The written records, then the pending ones, are the accepted ones in their order. */
  predicate InOrder(r: Records) { r.accepted == r.processed + Pending(r) }

  /** A record that is logged in synchronous mode is written at once, before another one that waits. */
  predicate Overtakes(s: State, a: Step) {
    IsLog(a) && !s.records.asynchronous && exists e :: e in Pending(s.records) && e != Entry(a.record, s.records.config)
  }

  lemma WaitsBehind(q: seq<Entry>, e: Entry)
    ensures q + [e] == [e] + q <==> forall x :: x in q ==> x == e
  {
    if q + [e] == [e] + q {
      forall k | 0 <= k < |q| ensures q[k] == e { AllSame(q, e, k); }
    }
    if forall x :: x in q ==> x == e {
      assert forall k :: 0 <= k < |q| ==> q[k] in q;
      assert q + [e] == [e] + q;
    }
  }

  lemma {:induction false} AllSame(q: seq<Entry>, e: Entry, k: nat)
    requires q + [e] == [e] + q && k < |q|
    ensures q[k] == e
    decreases k
  {
    assert (q + [e])[k] == ([e] + q)[k];
    if k > 0 { AllSame(q, e, k - 1); }
  }

  /** Written at once, the record is in its place exactly if all that wait equal it. */
  lemma WrittenInOrder(r: Records, e: Entry)
    requires InOrder(r)
    ensures r.accepted + [e] == r.processed + [e] + Pending(r) <==> forall x :: x in Pending(r) ==> x == e
  {
    var p, q := r.processed, Pending(r);
    WaitsBehind(q, e);
    assert r.accepted + [e] == p + (q + [e]) && p + [e] + q == p + ([e] + q);
    if p + (q + [e]) == p + ([e] + q) {
      assert q + [e] == (p + (q + [e]))[|p|..] && [e] + q == (p + ([e] + q))[|p|..];
    }
  }

  /** A step spoils the order exactly if it is such a record. */
  lemma InOrderStepExactly(s: State, a: Step)
    requires Consistent(s) && InOrder(s.records) && Enabled(s, a)
    ensures InOrder(Apply(s, a).records) <==> !Overtakes(s, a)
  {
    var r, t := s.records, Apply(s, a).records;
    StepHasEffect(s, a);
    if IsLog(a) {
      var e := Entry(a.record, r.config);
      if r.asynchronous {
        assert r.processed + (Pending(r) + [e]) == r.processed + Pending(r) + [e];
      } else {
        WrittenInOrder(r, e);
      }
    } else if EffectOf(s, a).WroteFirst? {
      assert r.processed + Pending(r) == r.processed + [Pending(r)[0]] + Pending(r)[1..];
    }
  }

  /** No record of the run overtakes another one. */
  ghost predicate NoneOvertakes(s: State, steps: seq<Step>, t: State)
    decreases |steps|
  {
    if steps == [] then t == s
    else Enabled(s, steps[0]) && !Overtakes(s, steps[0]) && NoneOvertakes(Apply(s, steps[0]), steps[1..], t)
  }

  /** In order in every state of the run. */
  ghost predicate AlwaysInOrder(s: State, steps: seq<Step>, t: State)
    decreases |steps|
  {
    InOrder(s.records) &&
    if steps == [] then t == s else Enabled(s, steps[0]) && AlwaysInOrder(Apply(s, steps[0]), steps[1..], t)
  }

  /** Main result, for every run: records are in order all the time exactly if none overtakes another. */
  lemma {:induction false} InOrderExactly(s: State, steps: seq<Step>, t: State)
    requires Consistent(s) && InOrder(s.records) && IsRun(s, steps, t)
    ensures AlwaysInOrder(s, steps, t) <==> NoneOvertakes(s, steps, t)
    decreases |steps|
  {
    if steps != [] {
      var u := Apply(s, steps[0]);
      ConsistentStep(s, steps[0]);
      InOrderStepExactly(s, steps[0]);
      if InOrder(u.records) { InOrderExactly(u, steps[1..], t); }
    }
  }

  /** So what has been written at its end are the first accepted records, in their order. */
  lemma {:induction false} FirstInFirstOut(s: State, steps: seq<Step>, t: State)
    requires Consistent(s) && InOrder(s.records) && NoneOvertakes(s, steps, t)
    ensures Consistent(t) && InOrder(t.records) && t.records.processed <= t.records.accepted
    decreases |steps|
  {
    if steps != [] {
      ConsistentStep(s, steps[0]);
      InOrderStepExactly(s, steps[0]);
      FirstInFirstOut(Apply(s, steps[0]), steps[1..], t);
    }
  }

  // ----- order by the calls of `Configure` alone -----

  /** In order, and nothing waits in synchronous mode. */
  predicate Ordered(r: Records) { InOrder(r) && (!r.asynchronous ==> Pending(r) == []) }

  /** `Configure` does not switch to synchronous mode over waiting records. */
  predicate Orderly(s: State, a: Step) { a.CallConfigure? && !a.mode ==> Pending(s.records) == [] }

  ghost predicate OrderlyRun(s: State, steps: seq<Step>, t: State)
    decreases |steps|
  {
    if steps == [] then t == s
    else Enabled(s, steps[0]) && Orderly(s, steps[0]) && OrderlyRun(Apply(s, steps[0]), steps[1..], t)
  }

  lemma OrderedStep(s: State, a: Step)
    requires Consistent(s) && Ordered(s.records) && Enabled(s, a) && Orderly(s, a)
    ensures Ordered(Apply(s, a).records) && !Overtakes(s, a)
  {
    StepHasEffect(s, a);
    InOrderStepExactly(s, a);
    if a.DrainEnd? { DrainEndsEmpty(s); }
  }

  /** In a run that changes the mode by `Reconfigure` only, or by `Configure` while nothing waits, no
      record overtakes another one. */
  lemma {:induction false} OrderlyRunKeepsOrder(s: State, steps: seq<Step>, t: State)
    requires Consistent(s) && Ordered(s.records) && OrderlyRun(s, steps, t)
    ensures NoneOvertakes(s, steps, t) && Consistent(t) && Ordered(t.records)
    decreases |steps|
  {
    if steps != [] {
      ConsistentStep(s, steps[0]);
      OrderedStep(s, steps[0]);
      OrderlyRunKeepsOrder(Apply(s, steps[0]), steps[1..], t);
    }
  }

  /** `Configure` over waiting records makes the next record overtake them all. */
  lemma SwitchBreaksOrder(s: State, record: nat)
    requires Consistent(s) && InOrder(s.records) && Tagged(s.records) && s.threads.control.Free?
    requires Pending(s.records) != []
    ensures var u := Apply(s, CallConfigure(false));
      Overtakes(u, Log(record)) && !InOrder(Apply(u, Log(record)).records)
  {
    var u := Apply(s, CallConfigure(false));
    ConsistentStep(s, CallConfigure(false));
    StepHasEffect(s, CallConfigure(false));
    assert Pending(s.records)[0] in Pending(u.records);
    InOrderStepExactly(u, Log(record));
  }

  /** When `Stop` returns (and before `Reconfigure` changes anything) nothing is pending. */
  lemma StopLeavesNothing(s: State)
    requires Consistent(s) && Enabled(s, DrainEnd)
    ensures Pending(s.records) == [] && Pending(Apply(s, DrainEnd).records) == []
    ensures Conserved(s.records) ==> multiset(s.records.processed) == multiset(s.records.accepted)
    ensures Ordered(s.records) ==> s.records.processed == s.records.accepted
  {
    DrainEndsEmpty(s);
    StepHasEffect(s, DrainEnd);
    assert s.records.processed + [] == s.records.processed;
  }

  // ----- the configuration boundary -----

  /** Every record was, or will be, routed with the configuration in force when it was accepted. */
  ghost predicate Tagged(r: Records) {
    && (forall e :: e in Pending(r) ==> e.config == r.config)
    && |r.routedBy| == |r.processed|
    && (forall i :: 0 <= i < |r.processed| ==> r.routedBy[i] == r.processed[i].config <= r.config)
  }

  lemma EffectKeepsTags(r: Records, e: Effect, t: Records)
    requires Tagged(r) && HasEffect(r, e, t) && (e.NewConfig? ==> Pending(r) == [])
    ensures Tagged(t)
  {
    if e.WroteFirst? { assert Pending(r)[0] in Pending(r); }
  }

  /** `Configure` does not change the configuration over waiting records. */
  predicate Settled(s: State, a: Step) { a.CallConfigure? ==> Pending(s.records) == [] }

  /** A step spoils the routing exactly if it is a `Configure` over waiting records. */
  lemma TaggedStepExactly(s: State, a: Step)
    requires Consistent(s) && Tagged(s.records) && Enabled(s, a)
    ensures Tagged(Apply(s, a).records) <==> Settled(s, a)
  {
    StepHasEffect(s, a);
    if a.DrainEnd? { DrainEndsEmpty(s); }
    if Settled(s, a) {
      EffectKeepsTags(s.records, EffectOf(s, a), Apply(s, a).records);
    } else {
      assert Pending(s.records)[0] in Pending(Apply(s, a).records);
    }
  }

  ghost predicate SettledRun(s: State, steps: seq<Step>, t: State)
    decreases |steps|
  {
    if steps == [] then t == s
    else Enabled(s, steps[0]) && Settled(s, steps[0]) && SettledRun(Apply(s, steps[0]), steps[1..], t)
  }

  lemma {:induction false} SettledRunIsRun(s: State, steps: seq<Step>, t: State)
    requires SettledRun(s, steps, t)
    ensures IsRun(s, steps, t)
    decreases |steps|
  {
    if steps != [] { SettledRunIsRun(Apply(s, steps[0]), steps[1..], t); }
  }

  /** Histories only grow, and configurations only advance. */
  predicate Extends(r: Records, t: Records) {
    r.accepted <= t.accepted && r.processed <= t.processed && r.routedBy <= t.routedBy && r.config <= t.config
  }

  /** In a run that calls `Configure` only while nothing waits, as before the first `Start`, everything
      stays in order and is routed as accepted. */
  lemma {:induction false} RoutedAsAccepted(s: State, steps: seq<Step>, t: State)
    requires Consistent(s) && Ordered(s.records) && Tagged(s.records) && SettledRun(s, steps, t)
    ensures Consistent(t) && Ordered(t.records) && Tagged(t.records) && Extends(s.records, t.records)
    decreases |steps|
  {
    if steps != [] {
      var u := Apply(s, steps[0]);
      ConsistentStep(s, steps[0]);
      OrderedStep(s, steps[0]);
      TaggedStepExactly(s, steps[0]);
      StepHasEffect(s, steps[0]);
      RoutedAsAccepted(u, steps[1..], t);
    }
  }

  predicate Stopping(s: State) {
    var c := s.threads.control;
    c.JoiningLogging? || c.JoiningMaintenance? || c.Draining?
  }

  /** From taking the lock to the end of the drain nothing is accepted. */
  lemma NothingAcceptedWhileStopping(s: State, a: Step)
    requires Stopping(s) && Enabled(s, a)
    ensures !IsLog(a)
    ensures !a.DrainEnd? ==> Stopping(Apply(s, a)) && Apply(s, a).threads.control.purpose == s.threads.control.purpose
  {
  }

  lemma {:induction false} StoppingRun(s: State, steps: seq<Step>, t: State)
    requires Consistent(s) && Stopping(s) && IsRun(s, steps, t) && forall i :: 0 <= i < |steps| ==> !steps[i].DrainEnd?
    ensures t.records.accepted == s.records.accepted && t.records.config == s.records.config
    ensures Stopping(t) && t.threads.control.purpose == s.threads.control.purpose
    ensures SettledRun(s, steps, t)
    decreases |steps|
  {
    if steps != [] {
      NothingAcceptedWhileStopping(s, steps[0]);
      StepHasEffect(s, steps[0]);
      ConsistentStep(s, steps[0]);
      StoppingRun(Apply(s, steps[0]), steps[1..], t);
    }
  }

  lemma ReconfigureDrains(s: State, mode: bool, during: seq<Step>, u: State)
    requires Consistent(s) && Ordered(s.records) && Tagged(s.records) && Enabled(s, CallReconfigure(mode))
    requires IsRun(Apply(s, CallReconfigure(mode)), during, u) && Enabled(u, DrainEnd)
    requires forall i :: 0 <= i < |during| ==> !during[i].DrainEnd?
    ensures var v := Apply(u, DrainEnd);
      Consistent(v) && Ordered(v.records) && Tagged(v.records) && v.records.config == s.records.config + 1
      && v.records.processed == v.records.accepted == s.records.accepted
      && forall i :: 0 <= i < |v.records.processed| ==> v.records.routedBy[i] <= s.records.config
  {
    var b := Apply(s, CallReconfigure(mode));
    ConsistentStep(s, CallReconfigure(mode));
    StoppingRun(b, during, u);
    RoutedAsAccepted(b, during, u);
    StopLeavesNothing(u);
    ConsistentStep(u, DrainEnd);
    OrderedStep(u, DrainEnd);
    TaggedStepExactly(u, DrainEnd);
  }

  /** Main result, for every interleaving: `Reconfigure` takes the lock in state `s`, drains up to
      state `u`, and `t` is any later state. The records accepted before it took the lock are the
      first ones written and were routed with configurations up to the old one, all others with later
      ones, and each with the one in force when it was accepted. */
  lemma ConfigurationBoundary(s: State, mode: bool, during: seq<Step>, u: State, after: seq<Step>, t: State, i: nat)
    requires Consistent(s) && Ordered(s.records) && Tagged(s.records) && Enabled(s, CallReconfigure(mode))
    requires IsRun(Apply(s, CallReconfigure(mode)), during, u) && Enabled(u, DrainEnd)
    requires forall i :: 0 <= i < |during| ==> !during[i].DrainEnd?
    requires SettledRun(Apply(u, DrainEnd), after, t)
    requires i < |t.records.processed|
    ensures |t.records.routedBy| == |t.records.processed| && s.records.accepted <= t.records.processed
    ensures if i < |s.records.accepted| then t.records.routedBy[i] <= s.records.config
        else t.records.routedBy[i] > s.records.config
    ensures t.records.routedBy[i] == t.records.processed[i].config
  {
    ReconfigureDrains(s, mode, during, u);
    var v := Apply(u, DrainEnd);
    RoutedAsAccepted(v, after, t);
    SettledRunIsRun(v, after, t);
    LaterConfigs(v, after, t, |v.records.processed|, v.records.config);
  }

  /** What is written from some state on is routed with its configuration or later ones. */
  lemma {:induction false} LaterConfigs(s: State, steps: seq<Step>, t: State, n: nat, c: nat)
    requires Consistent(s) && IsRun(s, steps, t) && n <= |s.records.processed| && c <= s.records.config
    requires forall i :: n <= i < |s.records.processed| ==> s.records.routedBy[i] >= c
    ensures |t.records.routedBy| == |t.records.processed| >= n
    ensures forall i :: n <= i < |t.records.processed| ==> t.records.routedBy[i] >= c
    decreases |steps|
  {
    if steps != [] {
      ConsistentStep(s, steps[0]);
      StepHasEffect(s, steps[0]);
      LaterConfigs(Apply(s, steps[0]), steps[1..], t, n, c);
    }
  }

  // ----- the logging thread writes what waits -----

  predicate IsLoggingStep(a: Step) {
    a.TestStop? || a.Wake? || a.Look? || a.Swap? || a.TryFails? || a.WriteOne? || a.BatchEnd?
  }

  /** The logging thread is there and not asked to stop. */
  predicate LoggingRuns(h: Threads) { !h.logging.LOff? && !h.logging.LDone? && !h.loggingStop }

  predicate MaintenanceRuns(h: Threads) { !h.maintenance.MOff? && !h.maintenance.MDone? && !h.maintenanceStop }

  /** `Start` leaves both threads running, the logging thread in asynchronous mode. */
  lemma StartedThreadsRun(s: State)
    requires Consistent(s) && Enabled(s, StartThreads)
    ensures var h := Apply(s, StartThreads).threads;
      && MaintenanceRuns(h)
      && (LoggingRuns(h) <==> s.records.asynchronous || LoggingRuns(s.threads))
      && (h.control.Free? <==> !s.threads.control.reconfigured)
  {
  }

  /** Only records without a lock holder are looked for: the thread tries the lock exactly if one waits. */
  lemma LookTriesExactly(s: State)
    requires Consistent(s) && Enabled(s, Look)
    ensures var t := Apply(s, Look);
      && (t.threads.logging.LTry? <==> Pending(s.records) != [])
      && (t.threads.logging.LTry? && t.threads.control.Free? ==>
            Enabled(t, Swap) && Apply(t, Swap).records.batch == Pending(s.records))
  {
    assert Pending(s.records) == s.records.buffer;
  }

  /** What the logging thread does next; it only tries the lock, so it never waits for it. */
  function NextLoggingStep(s: State): (a: Step)
    requires !s.threads.logging.LOff? && !s.threads.logging.LDone?
    ensures IsLoggingStep(a) && Enabled(s, a)
  {
    match s.threads.logging
    case LTest => TestStop
    case LWait => Wake
    case LLook => Look
    case LTry => TryFails
    case LWrite => if s.records.batch == [] then BatchEnd else WriteOne
  }

  function LoggingSteps(steps: seq<Step>): (n: nat) {
    if steps == [] then 0 else (if IsLoggingStep(steps[0]) then 1 else 0) + LoggingSteps(steps[1..])
  }

  /** How many of its own steps the logging thread needs at most until `m` records are written, if it
      gets the lock when it tries. */
  function Distance(s: State, m: nat): (n: nat) {
    var left := m - |s.records.processed|;
    if left <= 0 then 0
    else match s.threads.logging
      case LOff => 0
      case LDone => 0
      case LTest => left + 4
      case LWait => left + 3
      case LLook => left + 2
      case LTry => left + 1
      case LWrite => if left <= |s.records.batch| then left else left + 5
  }

  /** A step that leaves the thread running and its attempt to lock alone. */
  predicate LeavesRunning(a: Step) { !a.CallStop? && !a.CallReconfigure? && !a.TryFails? }

  lemma OthersKeepDistance(s: State, a: Step, m: nat)
    requires Consistent(s) && InOrder(s.records) && LoggingRuns(s.threads) && m <= |s.records.accepted|
    requires Enabled(s, a) && LeavesRunning(a) && !Overtakes(s, a) && !IsLoggingStep(a)
    ensures LoggingRuns(Apply(s, a).threads) && Distance(Apply(s, a), m) <= Distance(s, m)
  {
  }

  lemma OwnStepsShortenDistance(s: State, a: Step, m: nat)
    requires Consistent(s) && InOrder(s.records) && LoggingRuns(s.threads) && m <= |s.records.accepted|
    requires Enabled(s, a) && LeavesRunning(a) && IsLoggingStep(a)
    ensures LoggingRuns(Apply(s, a).threads) && Distance(Apply(s, a), m) <= Distance(s, m)
    ensures Distance(s, m) > 0 ==> Distance(Apply(s, a), m) < Distance(s, m)
  {
    assert |s.records.accepted| == |s.records.processed| + |Pending(s.records)|;
  }

  lemma DistanceFalls(s: State, a: Step, m: nat)
    requires Consistent(s) && InOrder(s.records) && LoggingRuns(s.threads) && m <= |s.records.accepted|
    requires Enabled(s, a) && LeavesRunning(a) && !Overtakes(s, a)
    ensures LoggingRuns(Apply(s, a).threads)
    ensures Distance(Apply(s, a), m) <= Distance(s, m)
    ensures IsLoggingStep(a) && Distance(s, m) > 0 ==> Distance(Apply(s, a), m) < Distance(s, m)
  {
    if IsLoggingStep(a) { OwnStepsShortenDistance(s, a, m); } else { OthersKeepDistance(s, a, m); }
  }

  lemma {:induction false} DistanceInRun(s: State, steps: seq<Step>, t: State, m: nat)
    requires Consistent(s) && InOrder(s.records) && LoggingRuns(s.threads) && m <= |s.records.accepted|
    requires NoneOvertakes(s, steps, t) && forall i :: 0 <= i < |steps| ==> LeavesRunning(steps[i])
    ensures LoggingRuns(t.threads) && s.records.accepted <= t.records.accepted
    ensures LoggingSteps(steps) >= Distance(s, m) ==> Distance(t, m) == 0
    decreases |steps|
  {
    if steps != [] {
      var u := Apply(s, steps[0]);
      ConsistentStep(s, steps[0]);
      InOrderStepExactly(s, steps[0]);
      StepHasEffect(s, steps[0]);
      DistanceFalls(s, steps[0], m);
      DistanceInRun(u, steps[1..], t, m);
    }
  }

  lemma DistanceBound(s: State)
    requires Consistent(s) && InOrder(s.records) && LoggingRuns(s.threads)
    ensures Distance(s, |s.records.accepted|) <= |Pending(s.records)| + 5
  {
    assert |s.records.accepted| == |s.records.processed| + |Pending(s.records)|;
  }

  /** Main result: whatever the other threads do meanwhile, as long as nobody stops the logging thread
      and it gets the lock when it tries, all records accepted so far are written, in their order, after at most
      five of its steps more than records wait. */
  lemma WaitingRecordsAreWritten(s: State, steps: seq<Step>, t: State)
    requires Consistent(s) && InOrder(s.records) && LoggingRuns(s.threads)
    requires NoneOvertakes(s, steps, t) && forall i :: 0 <= i < |steps| ==> LeavesRunning(steps[i])
    requires LoggingSteps(steps) >= |Pending(s.records)| + 5
    ensures s.records.accepted <= t.records.processed
  {
    var m := |s.records.accepted|;
    DistanceBound(s);
    DistanceInRun(s, steps, t, m);
    FirstInFirstOut(s, steps, t);
    assert |t.records.processed| >= m;
  }

  /** What the thread does next if it gets the lock. */
  function NextTakingStep(s: State): (a: Step)
    requires LoggingRuns(s.threads) && s.threads.control.Free?
    ensures IsLoggingStep(a) && LeavesRunning(a) && Enabled(s, a)
  {
    if s.threads.logging.LTry? then Swap else NextLoggingStep(s)
  }

  /** The distance until nothing waits. */
  function ToGo(s: State): (n: nat) {
    Distance(s, |s.records.processed| + |Pending(s.records)|)
  }

  lemma TakingStepKeeps(s: State)
    requires Consistent(s) && LoggingRuns(s.threads) && s.threads.control.Free?
    ensures var t := Apply(s, NextTakingStep(s));
      && LoggingRuns(t.threads) && t.threads.control.Free? && t.records.accepted == s.records.accepted
      && t.records.processed + Pending(t.records) == s.records.processed + Pending(s.records)
  {
    var a := NextTakingStep(s);
    StepHasEffect(s, a);
    if a.WriteOne? {
      FirstWritten(s.records.processed, Pending(s.records));
    }
  }

  lemma FirstWritten(done: seq<Entry>, waiting: seq<Entry>)
    requires waiting != []
    ensures done + [waiting[0]] + waiting[1..] == done + waiting
  {
  }

  lemma TakingStepAdvances(s: State)
    requires Consistent(s) && LoggingRuns(s.threads) && s.threads.control.Free? && Pending(s.records) != []
    ensures ToGo(Apply(s, NextTakingStep(s))) < ToGo(s)
  {
    var t := Apply(s, NextTakingStep(s));
    TakingStepKeeps(s);
    assert |t.records.processed| + |Pending(t.records)| == |s.records.processed| + |Pending(s.records)| by {
      assert |t.records.processed + Pending(t.records)| == |s.records.processed + Pending(s.records)|;
    }
  }

  /** Alone, the thread writes exactly what waits: with a free mutex, wherever it is. */
  lemma {:induction false} CatchesUp(s: State) returns (steps: seq<Step>, t: State)
    requires Consistent(s) && LoggingRuns(s.threads) && s.threads.control.Free?
    ensures IsRun(s, steps, t) && forall i :: 0 <= i < |steps| ==> IsLoggingStep(steps[i])
    ensures Pending(t.records) == [] && t.records.accepted == s.records.accepted
    ensures t.records.processed == s.records.processed + Pending(s.records)
    ensures |steps| <= ToGo(s)
    decreases ToGo(s)
  {
    if Pending(s.records) == [] {
      steps, t := [], s;
      assert s.records.processed + [] == s.records.processed;
    } else {
      var a := NextTakingStep(s);
      ConsistentStep(s, a);
      TakingStepKeeps(s);
      TakingStepAdvances(s);
      var rest;
      rest, t := CatchesUp(Apply(s, a));
      steps := [a] + rest;
      assert steps[1..] == rest;
    }
  }

  /** The maintenance thread comes to all targets and back to its test, as long as it is not stopped. */
  lemma {:induction false} MaintenanceRound(s: State, left: nat) returns (steps: seq<Step>, t: State)
    requires Consistent(s) && MaintenanceRuns(s.threads) && s.threads.maintenance == MWork(left)
    ensures IsRun(s, steps, t) && |steps| == left + 2 && steps[left] == MaintenanceEnd
    ensures forall i :: 0 <= i < left ==> steps[i] == MaintainOne
    ensures t == s.(threads := s.threads.(maintenance := MTest))
    decreases left
  {
    if left == 0 {
      steps := [MaintenanceEnd, MaintenanceWake];
      var u := Apply(s, MaintenanceEnd);
      t := Apply(u, MaintenanceWake);
      assert steps[1..] == [MaintenanceWake] && [MaintenanceWake][1..] == [];
      assert IsRun(u, [MaintenanceWake], t);
    } else {
      ConsistentStep(s, MaintainOne);
      var rest;
      rest, t := MaintenanceRound(Apply(s, MaintainOne), left - 1);
      steps := [MaintainOne] + rest;
      assert steps[1..] == rest;
    }
  }

  /** After the drain of `Reconfigure` the threads start again and the mutex is given back. */
  lemma ReconfigureRestarts(s: State, record: nat)
    requires Consistent(s) && Enabled(s, DrainEnd) && s.threads.control.purpose.ToReconfigure?
    ensures var u := Apply(s, DrainEnd);
      && u.records.asynchronous == s.threads.control.purpose.mode && u.records.config == s.records.config + 1
      && Enabled(u, StartThreads) && Enabled(Apply(u, StartThreads), Inform(record))
      && var t := Apply(Apply(u, StartThreads), Inform(record));
         t.threads.control.Free? && MaintenanceRuns(t.threads)
         && (LoggingRuns(t.threads) <==> s.threads.control.purpose.mode)
  {
  }

  // ----- Stop makes progress -----

  /** How many steps the logging thread is from its exit at most, once it is asked to stop and
      cannot get the lock. */
  function LoggingRank(s: State): (n: nat) {
    match s.threads.logging
    case LOff => 0
    case LDone => 0
    case LTest => 1
    case LTry => 2
    case LLook => 3
    case LWait => 4
    case LWrite => 2 + |s.records.batch|
  }

  lemma LoggingRankFalls(s: State, a: Step)
    requires Consistent(s) && s.threads.control.JoiningLogging? && Enabled(s, a) && !a.JoinLogging?
    ensures Apply(s, a).threads.control == s.threads.control
    ensures if IsLoggingStep(a) then LoggingRank(Apply(s, a)) < LoggingRank(s)
        else LoggingRank(Apply(s, a)) == LoggingRank(s)
  {
  }

  /** Main result: while `Stop` holds the mutex and waits for the logging thread, that thread can take
      no more steps than its rank, whatever the others do, and as long as it has not reached its
      exit it has a step to take. */
  lemma {:induction false} LoggingThreadExits(s: State, steps: seq<Step>, t: State)
    requires Consistent(s) && s.threads.control.JoiningLogging? && IsRun(s, steps, t)
    requires forall i :: 0 <= i < |steps| ==> !steps[i].JoinLogging?
    ensures LoggingSteps(steps) + LoggingRank(t) <= LoggingRank(s)
    ensures t.threads.control == s.threads.control
    ensures Enabled(t, JoinLogging) || Enabled(t, NextLoggingStep(t))
    decreases |steps|
  {
    if steps != [] {
      ConsistentStep(s, steps[0]);
      LoggingRankFalls(s, steps[0]);
      LoggingThreadExits(Apply(s, steps[0]), steps[1..], t);
    }
  }

  predicate IsMaintenanceStep(a: Step) {
    a.MaintenanceTest? || a.MaintainOne? || a.EnterCall? || a.CallLogs? || a.MaintenanceEnd? || a.MaintenanceWake?
  }

  /** The same for the maintenance thread, if it is not inside target code that logs. */
  function MaintenanceRank(s: State): (n: nat) {
    match s.threads.maintenance
    case MOff => 0
    case MDone => 0
    case MTest => 1
    case MSleep => 2
    case MWork(n) => 3 + n
    case MCall(n) => 3 + n
  }

  function NextMaintenanceStep(s: State): (a: Step)
    requires var m := s.threads.maintenance; !m.MOff? && !m.MDone? && !m.MCall?
    ensures IsMaintenanceStep(a) && !a.EnterCall? && Enabled(s, a)
  {
    match s.threads.maintenance
    case MTest => MaintenanceTest(0)
    case MSleep => MaintenanceWake
    case MWork(n) => if n == 0 then MaintenanceEnd else MaintainOne
  }

  /** Nothing else can move while `Stop` waits for it. */
  lemma MaintenanceRankFalls(s: State, a: Step)
    requires Consistent(s) && s.threads.control.JoiningMaintenance? && Enabled(s, a) && !a.JoinMaintenance?
    requires !a.EnterCall?
    ensures Apply(s, a).threads.control == s.threads.control
    ensures Apply(s, a).threads.maintenance.MCall? <==> s.threads.maintenance.MCall?
    ensures IsMaintenanceStep(a) && MaintenanceRank(Apply(s, a)) < MaintenanceRank(s)
  {
  }

  /** The maintenance thread, too, exits after at most its rank of steps, if target code does not
      call back into this logger. */
  lemma {:induction false} MaintenanceThreadExits(s: State, steps: seq<Step>, t: State)
    requires Consistent(s) && s.threads.control.JoiningMaintenance? && IsRun(s, steps, t)
    requires !s.threads.maintenance.MCall?
    requires forall i :: 0 <= i < |steps| ==> !steps[i].JoinMaintenance? && !steps[i].EnterCall?
    ensures |steps| + MaintenanceRank(t) <= MaintenanceRank(s)
    ensures t.threads.control == s.threads.control && !t.threads.maintenance.MCall?
    ensures Enabled(t, JoinMaintenance) || Enabled(t, NextMaintenanceStep(t))
    decreases |steps|
  {
    if steps != [] {
      ConsistentStep(s, steps[0]);
      MaintenanceRankFalls(s, steps[0]);
      MaintenanceThreadExits(Apply(s, steps[0]), steps[1..], t);
    }
  }

  lemma BlockedStep(s: State, a: Step)
    requires Consistent(s) && Stopping(s) && s.threads.maintenance.MCall? && Enabled(s, a)
    ensures Stopping(Apply(s, a)) && Apply(s, a).threads.maintenance == s.threads.maintenance
  {
  }

  /** A call back into the logger waits for the mutex, and the holder of the mutex for the call. */
  lemma {:induction false} BlockedForever(s: State, steps: seq<Step>, t: State)
    requires Consistent(s) && Stopping(s) && s.threads.maintenance.MCall? && IsRun(s, steps, t)
    ensures Stopping(t) && t.threads.maintenance == s.threads.maintenance
    decreases |steps|
  {
    if steps != [] {
      ConsistentStep(s, steps[0]);
      BlockedStep(s, steps[0]);
      BlockedForever(Apply(s, steps[0]), steps[1..], t);
    }
  }

  function Stage(s: State): (n: nat) {
    if s.threads.control.JoiningLogging? then 2 else if s.threads.control.JoiningMaintenance? then 1 else 0
  }

  function StageRank(s: State): (n: nat) {
    if s.threads.control.JoiningLogging? then LoggingRank(s)
    else if s.threads.control.JoiningMaintenance? then MaintenanceRank(s)
    else |s.records.drain|
  }

  /** A step that brings `Stop` closer to its end. */
  function NextStoppingStep(s: State): (a: Step)
    requires Stopping(s) && !s.threads.maintenance.MCall?
    ensures Enabled(s, a)
  {
    match s.threads.control
    case JoiningLogging(_) =>
      if s.threads.logging.LOff? || s.threads.logging.LDone? then JoinLogging else NextLoggingStep(s)
    case JoiningMaintenance(_) =>
      if s.threads.maintenance.MOff? || s.threads.maintenance.MDone? then JoinMaintenance else NextMaintenanceStep(s)
    case Draining(_) => if s.records.drain == [] then DrainEnd else DrainOne
  }

  lemma StoppingAdvances(s: State)
    requires Consistent(s) && Stopping(s) && !s.threads.maintenance.MCall?
    ensures var t := Apply(s, NextStoppingStep(s));
      Stopping(t) ==> !t.threads.maintenance.MCall?
                      && (Stage(t) < Stage(s) || (Stage(t) == Stage(s) && StageRank(t) < StageRank(s)))
  {
  }

  lemma {:induction false} StopCanReturn(s: State) returns (steps: seq<Step>, t: State)
    requires Consistent(s) && Stopping(s) && !s.threads.maintenance.MCall?
    ensures IsRun(s, steps, t) && !Stopping(t)
    decreases Stage(s), StageRank(s)
  {
    var a := NextStoppingStep(s);
    var u := Apply(s, a);
    ConsistentStep(s, a);
    StoppingAdvances(s);
    if Stopping(u) {
      var rest;
      rest, t := StopCanReturn(u);
      steps := [a] + rest;
      assert steps[1..] == rest;
    } else {
      steps, t := [a], u;
      assert steps[1..] == [];
    }
  }

  /** Some continuation brings the call of `Stop` to its end. */
  ghost predicate CanReturn(s: State) { exists steps, t :: IsRun(s, steps, t) && !Stopping(t) }

  /** Main result: once `Stop` has taken the mutex it can still return exactly if the maintenance
      thread is not inside target code that logs to this logger. */
  lemma StopReturnsExactly(s: State)
    requires Consistent(s) && Stopping(s)
    ensures CanReturn(s) <==> !s.threads.maintenance.MCall?
  {
    if s.threads.maintenance.MCall? {
      forall steps, t | IsRun(s, steps, t) ensures Stopping(t) {
        BlockedForever(s, steps, t);
      }
    } else {
      var steps, t := StopCanReturn(s);
      assert IsRun(s, steps, t) && !Stopping(t);
    }
  }

  /** A target that logs during maintenance can close that trap while `Stop` is waiting. */
  lemma CallbackBlocksStop(s: State)
    requires Consistent(s) && Stopping(s) && Enabled(s, EnterCall)
    ensures CanReturn(s) && !CanReturn(Apply(s, EnterCall))
  {
    StopReturnsExactly(s);
    ConsistentStep(s, EnterCall);
    StopReturnsExactly(Apply(s, EnterCall));
  }
}
