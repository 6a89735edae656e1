/**
 `ScheduledCaller`: a thread that calls a function at the grid points of an interval. What the
 environment decides in each cycle (how late the wait ends, how long the function runs, whether
 a stop or an earlier call is asked for) is given as a sequence, one element for each cycle.
 */
module PeriodicCaller {
  import opened Schedule
  import opened Text

  datatype Cycle = Cycle(
    latency: nat,                 // how much later than asked the wait ends
    whileWaiting: Option<int>,    // `Request_call_early` during the wait
    stopped: bool,                // a stop was requested before the wait ended
    work: nat,                    // from the start of the function to the next reading of the clock
    request: Option<int>          // `Request_call_early` in the function
  )

  /** One call: the clock when the wait began, the grid point it was meant for, the time of the call. */
  datatype Call = Call(start: int, boundary: int, time: int, latency: nat, work: nat, planned: bool)

  function Boundary(start: int, v: int, o: int): (b: int)
    requires v > 0
  {
    1000 * NextStamp(Seconds(start), v, o)
  }

  /** `wait_for` does not wait for a negative time. */
  function EarlyWait(m: int): (w: int)
    ensures w >= 0
  {
    if m < 0 then 0 else m
  }

  /** The calls of a thread that reads `start` from the clock and then meets these cycles. */
  function CallsFrom(start: int, pending: Option<int>, cycles: seq<Cycle>, v: int, o: int): (calls: seq<Call>)
    requires v > 0
    decreases |cycles|
  {
    if cycles == [] || cycles[0].stopped then []
    else
      var c := cycles[0];
      var wait := if pending.Some? then EarlyWait(pending.value) else WaitFrom(start, v, o);
      var time := start + wait + c.latency;
      [Call(start, Boundary(start, v, o), time, c.latency, c.work, pending.None?)]
      + CallsFrom(time + c.work, c.request, cycles[1..], v, o)
  }

  /** The call of the first cycle. */
  function FirstCall(start: int, pending: Option<int>, c: Cycle, v: int, o: int): (call: Call)
    requires v > 0
  {
    var wait := if pending.Some? then EarlyWait(pending.value) else WaitFrom(start, v, o);
    Call(start, Boundary(start, v, o), start + wait + c.latency, c.latency, c.work, pending.None?)
  }

  lemma CallsStep(done: seq<Call>, start: int, pending: Option<int>, cycles: seq<Cycle>, i: nat, v: int, o: int)
    requires v > 0 && i < |cycles|
    ensures cycles[i].stopped ==> done + CallsFrom(start, pending, cycles[i..], v, o) == done
    ensures !cycles[i].stopped ==>
      var call := FirstCall(start, pending, cycles[i], v, o);
      done + CallsFrom(start, pending, cycles[i..], v, o)
      == done + [call] + CallsFrom(call.time + cycles[i].work, cycles[i].request, cycles[i + 1..], v, o)
  {
    assert cycles[i..][0] == cycles[i] && cycles[i..][1..] == cycles[i + 1..];
  }

  class ScheduledCaller {
    const interval: TimeInterval
    var optionalCallTime: Option<int>
    var isRunning: bool

    constructor (interval: TimeInterval)
      ensures this.interval == interval && optionalCallTime == None && !isRunning
    {
      this.interval := interval;
      optionalCallTime := None;
      isRunning := false;
    }

    method RequestCallEarly(ms: int)
      modifies this`optionalCallTime
      ensures optionalCallTime == Some(ms)
    {
      optionalCallTime := Some(ms);
    }

    /** `Get_millis_until_next_call`, or the earlier call asked for. */
    method Wait(clock: int) returns (wait: int)
      requires interval.interval > 0
      modifies interval`time
      ensures wait == if optionalCallTime.Some? then EarlyWait(optionalCallTime.value)
                      else WaitFrom(clock, interval.interval, interval.offset)
    {
      interval.SetTime(clock);
      if optionalCallTime.Some? {
        wait := EarlyWait(optionalCallTime.value);
      } else {
        wait := interval.GetMillisecondsUntilNextTimestamp();
      }
    }

    /** The function of the thread. A request made while the thread waits is overwritten: the calls
        depend only on requests made outside the wait. */
    method ThreadLoop(now: int, cycles: seq<Cycle>) returns (calls: seq<Call>)
      requires interval.interval > 0
      modifies this`optionalCallTime, interval`time
      ensures calls == CallsFrom(now, old(optionalCallTime), cycles, interval.interval, interval.offset)
    {
      calls := [];
      var clock := now;
      var i := 0;
      ghost var v, o := interval.interval, interval.offset;
      ghost var all := CallsFrom(now, optionalCallTime, cycles, v, o);
      assert cycles[0..] == cycles;
      while i < |cycles|
        invariant i <= |cycles| && interval.interval == v && interval.offset == o
        invariant calls + CallsFrom(clock, optionalCallTime, cycles[i..], v, o) == all
      {
        CallsStep(calls, clock, optionalCallTime, cycles, i, v, o);
        ghost var first := FirstCall(clock, optionalCallTime, cycles[i], v, o);
        var planned := optionalCallTime.None?;
        var wait := Wait(clock);
        if cycles[i].whileWaiting.Some? {
          RequestCallEarly(cycles[i].whileWaiting.value);
        }
        if cycles[i].stopped {
          return;
        }
        optionalCallTime := None;
        var call := Call(clock, Boundary(clock, interval.interval, interval.offset), clock + wait + cycles[i].latency,
                         cycles[i].latency, cycles[i].work, planned);
        assert call == first;
        calls := calls + [call];
        clock := call.time + cycles[i].work;
        if cycles[i].request.Some? {
          RequestCallEarly(cycles[i].request.value);
        }
        i := i + 1;
      }
    }

    method Start(now: int, cycles: seq<Cycle>) returns (calls: seq<Call>)
      requires interval.interval > 0
      modifies this, interval`time
      ensures isRunning
      ensures calls == if old(isRunning) then []
                       else CallsFrom(now, old(optionalCallTime), cycles, interval.interval, interval.offset)
      ensures now >= 0 && 0 <= interval.offset < interval.interval ==> IsRun(calls, interval.interval, interval.offset)
      ensures old(isRunning) ==> optionalCallTime == old(optionalCallTime) && interval.time == old(interval.time)
    {
      if isRunning {
        return [];
      }
      isRunning := true;
      calls := ThreadLoop(now, cycles);
      if now >= 0 && 0 <= interval.offset < interval.interval {
        CallsAreRun(now, old(optionalCallTime), cycles, interval.interval, interval.offset);
      }
    }
  }

  // ----- every run -----

  ghost predicate IsCall(c: Call, v: int, o: int)
    requires v > 0
  {
    && c.start >= 0 && c.boundary == Boundary(c.start, v, o)
    && (c.planned ==> c.time == c.start + WaitFrom(c.start, v, o) + c.latency)
    && c.start + c.latency <= c.time
  }

  /** What one cycle leaves to the next: the wait begins when the function has returned. */
  ghost predicate IsRun(calls: seq<Call>, v: int, o: int)
    requires v > 0
  {
    && (forall i :: 0 <= i < |calls| ==> IsCall(calls[i], v, o))
    && (forall i :: 0 < i < |calls| ==> calls[i].start == calls[i - 1].time + calls[i - 1].work)
  }

  lemma {:induction false} CallsAreRun(start: int, pending: Option<int>, cycles: seq<Cycle>, v: int, o: int)
    requires start >= 0 && 0 <= o < v
    ensures IsRun(CallsFrom(start, pending, cycles, v, o), v, o)
    ensures CallsFrom(start, pending, cycles, v, o) != [] ==> CallsFrom(start, pending, cycles, v, o)[0].start == start
    decreases |cycles|
  {
    if cycles != [] && !cycles[0].stopped {
      var calls := CallsFrom(start, pending, cycles, v, o);
      WaitBounds(start, v, o);
      var next := calls[0].time + calls[0].work;
      CallsAreRun(next, cycles[0].request, cycles[1..], v, o);
      var more := CallsFrom(next, cycles[0].request, cycles[1..], v, o);
      assert calls[1..] == more;
      forall i | 0 < i < |calls|
        ensures calls[i].start == calls[i - 1].time + calls[i - 1].work && IsCall(calls[i], v, o)
      {
        assert calls[i] == more[i - 1];
        if i > 1 { assert calls[i - 1] == more[i - 2]; }
      }
    }
  }

  /** A call is never early, and later than its boundary by less than a second and the latency of
      that one wait: what happened in earlier cycles plays no part. */
  lemma PlannedCallIsPrompt(calls: seq<Call>, v: int, o: int, i: nat)
    requires 0 <= o < v && IsRun(calls, v, o) && i < |calls| && calls[i].planned
    ensures calls[i].boundary <= calls[i].time < calls[i].boundary + 1000 + calls[i].latency
    ensures IsNext(calls[i].boundary / 1000, Seconds(calls[i].start), v, o)
  {
    var c := calls[i];
    WaitBounds(c.start, v, o);
    CurrentIsFloorExactly(Seconds(c.start), v, o);
    SecondsOfWhole(NextStamp(Seconds(c.start), v, o));
  }

  lemma {:induction false} StartsAfter(calls: seq<Call>, v: int, o: int, i: nat, j: nat)
    requires v > 0 && IsRun(calls, v, o) && i < j < |calls|
    ensures calls[j].start >= calls[i].time + calls[i].work
    decreases j
  {
    if i + 1 < j {
      StartsAfter(calls, v, o, i, j - 1);
      assert IsCall(calls[j - 1], v, o);
    }
  }

  lemma BoundaryIsAhead(start: int, v: int, o: int)
    requires 0 <= o < v && start >= 0
    ensures Boundary(start, v, o) - 1000 * v <= start < Boundary(start, v, o)
  {
    InstantIsFloorExactly(start, v, o);
  }

  /** No boundary is served twice, whatever early calls come in between. */
  lemma BoundariesIncrease(calls: seq<Call>, v: int, o: int, i: nat, j: nat)
    requires 0 <= o < v && IsRun(calls, v, o) && i < j < |calls| && calls[i].planned
    ensures calls[i].boundary < calls[j].boundary
  {
    PlannedCallIsPrompt(calls, v, o, i);
    StartsAfter(calls, v, o, i, j);
    assert IsCall(calls[j], v, o);
    BoundaryIsAhead(calls[j].start, v, o);
  }

  lemma StepToNextBoundary(b: int, start: int, v: int, o: int)
    requires 0 <= o < v && OnGrid(b, v, o) && 1000 * b <= start && start >= 0
    ensures Boundary(start, v, o) == 1000 * (b + v) <==> start < 1000 * (b + v)
  {
    var t := Seconds(start);
    var g := NextStamp(t, v, o);
    WaitBounds(start, v, o);
    CurrentIsFloorExactly(t, v, o);
    SecondsOf(start);
    FloorWithin(b, t, v, o);
    assert IsNext(g, t, v, o) && b <= t;
    if start < 1000 * (b + v) {
      NextIsUnique(g, b + v, t, v, o);
    }
  }

  /** Lateness and the time the function takes stay below the interval. */
  predicate InTime(c: Call, v: int) { c.time + c.work < c.boundary + 1000 * v }

  /** The boundary after this one is served next exactly if the function was done before it. */
  lemma NextBoundaryExactly(calls: seq<Call>, v: int, o: int, i: nat)
    requires 0 <= o < v && IsRun(calls, v, o) && i + 1 < |calls| && calls[i].planned
    ensures calls[i + 1].boundary == calls[i].boundary + 1000 * v <==> InTime(calls[i], v)
  {
    var c := calls[i];
    PlannedCallIsPrompt(calls, v, o, i);
    CurrentOnGrid(Seconds(c.start), v, o);
    GridShift(CurrentStamp(Seconds(c.start), v, o), v, o, 1);
    assert IsCall(calls[i + 1], v, o) && calls[i + 1].start == c.time + c.work;
    StepToNextBoundary(NextStamp(Seconds(c.start), v, o), c.time + c.work, v, o);
  }

  /** Main result: lateness does not add up. After any number of cycles in time, the call is still
      within a second and one latency of the grid the first call was on. */
  lemma {:induction false} NeverDrifts(calls: seq<Call>, v: int, o: int, i: nat)
    requires 0 <= o < v && IsRun(calls, v, o) && i < |calls|
    requires forall k :: 0 <= k <= i ==> calls[k].planned
    requires forall k :: 0 <= k < i ==> InTime(calls[k], v)
    ensures calls[i].boundary == calls[0].boundary + 1000 * v * i
    ensures 0 <= calls[i].time - (calls[0].boundary + 1000 * v * i) < 1000 + calls[i].latency
  {
    if i > 0 {
      NeverDrifts(calls, v, o, i - 1);
      NextBoundaryExactly(calls, v, o, i - 1);
      assert 1000 * v * i == 1000 * v * (i - 1) + 1000 * v;
    }
    PlannedCallIsPrompt(calls, v, o, i);
  }

  /** The request that is pending when cycle `i` begins. */
  function AskedBefore(pending: Option<int>, cycles: seq<Cycle>, i: nat): (asked: Option<int>)
    requires i <= |cycles|
  {
    if i == 0 then pending else cycles[i - 1].request
  }

  /** As asked: not before the time asked for, and at it but for the latency; at once if it is over. */
  ghost predicate AsAsked(c: Call, ms: int) {
    && c.time >= c.start + ms && c.time >= c.start + c.latency
    && (c.time == c.start + ms + c.latency || (ms < 0 && c.time == c.start + c.latency))
    && (ms >= 0 ==> c.time == c.start + ms + c.latency)
  }

  /** Until a stop, every cycle makes its call: at the boundary, or as it was asked for. */
  lemma {:induction false} EveryCycleCalls(start: int, pending: Option<int>, cycles: seq<Cycle>, v: int, o: int, i: nat)
    requires v > 0 && i < |cycles| && forall k :: 0 <= k <= i ==> !cycles[k].stopped
    ensures var calls := CallsFrom(start, pending, cycles, v, o);
      && i < |calls| && calls[i].latency == cycles[i].latency && calls[i].work == cycles[i].work
      && (calls[i].planned <==> AskedBefore(pending, cycles, i).None?)
      && (calls[i].planned ==> calls[i].time == calls[i].start + WaitFrom(calls[i].start, v, o) + calls[i].latency)
      && (!calls[i].planned ==> AsAsked(calls[i], AskedBefore(pending, cycles, i).value))
    decreases i
  {
    if i > 0 {
      var c := FirstCall(start, pending, cycles[0], v, o);
      EveryCycleCalls(c.time + c.work, cycles[0].request, cycles[1..], v, o, i - 1);
      assert CallsFrom(start, pending, cycles, v, o)[1..]
          == CallsFrom(c.time + c.work, cycles[0].request, cycles[1..], v, o);
    }
  }

  /** After a stop request nothing is called any more. */
  lemma {:induction false} StopEndsCalls(start: int, pending: Option<int>, cycles: seq<Cycle>, v: int, o: int, i: nat)
    requires v > 0 && i < |cycles| && cycles[i].stopped
    ensures |CallsFrom(start, pending, cycles, v, o)| <= i
    decreases i
  {
    if !cycles[0].stopped {
      var c := cycles[0];
      var wait := if pending.Some? then EarlyWait(pending.value) else WaitFrom(start, v, o);
      StopEndsCalls(start + wait + c.latency + c.work, c.request, cycles[1..], v, o, i - 1);
    }
  }
}
