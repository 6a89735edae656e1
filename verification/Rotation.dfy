/**
 `FileTarget`: when log files are rotated. The file in use is identified by the instant its name
 was built from; whether it exists, its size and the readings of the clock are given.
 */
module Rotation {
  import opened Schedule
  import opened Text

  /** 10 MB. */
  const MIN_LOG_FILESIZE: nat := 10 * 1024 * 1024

  /** One call of `Maintenance`: the clock when it looks, when it names the new file and when it
      moves the interval, what the file system says about the current file, whether the new name is
      accepted (its directory exists or can be made, and the purge pattern compiles), and whether the
      new file can be opened. */
  datatype Tick = Tick(check: int, name: int, base: int, present: bool, size: nat, accepted: bool, opens: bool)

  /** The clock does not run backwards. */
  predicate InOrder(t: Tick) { 0 <= t.check <= t.name <= t.base }

  /** `Failed` stands for the exception of a name that is not accepted. */
  datatype Outcome = Kept | Rotated(byTime: bool, bySize: bool) | Failed | EmptyOptional

  /** `Get_next_timestamp` of an interval of `hours` hours last moved at `base`. */
  function NextUpdate(base: int, hours: nat): (ms: int)
    requires hours > 0
  {
    1000 * NextStamp(Seconds(base), 3600 * hours, 0)
  }

  predicate TooLarge(t: Tick, max: nat) { max != 0 && t.present && t.size > max }

  predicate TimeIsUp(t: Tick, base: int, hours: nat) { hours != 0 && t.check > NextUpdate(base, hours) }

  class FileTarget {
    var maxFilesizeBytes: nat
    const logFrequency: nat
    const logStorageDuration: int
    var filenameUpdateInterval: TimeInterval?
    var currentFile: Option<int>
    var openFile: Option<int>
    var cleanupWorker: bool

    ghost predicate Valid()
      reads this, filenameUpdateInterval
    {
      filenameUpdateInterval != null ==>
        filenameUpdateInterval.interval == 3600 * logFrequency && filenameUpdateInterval.offset == 0
    }

    constructor (maxFilesizeBytes: nat, logFrequency: nat, logStorageDuration: int)
      ensures this.maxFilesizeBytes == maxFilesizeBytes && this.logFrequency == logFrequency
      ensures this.logStorageDuration == logStorageDuration
      ensures filenameUpdateInterval == null && currentFile == None && openFile == None && !cleanupWorker && Valid()
    {
      this.maxFilesizeBytes := maxFilesizeBytes;
      this.logFrequency := logFrequency;
      this.logStorageDuration := logStorageDuration;
      filenameUpdateInterval := null;
      currentFile := None;
      openFile := None;
      cleanupWorker := false;
    }

    /** A name that is not accepted throws before anything is changed. */
    method UpdateFilename(time: int, now: int, accepted: bool) returns (ok: bool)
      requires Valid()
      modifies this`currentFile, if filenameUpdateInterval == null then {} else {filenameUpdateInterval}
      ensures Valid() && ok == accepted
      ensures currentFile == if accepted then Some(time) else old(currentFile)
      ensures filenameUpdateInterval != null ==>
        filenameUpdateInterval.time == if accepted then now else old(filenameUpdateInterval.time)
    {
      if !accepted {
        return false;
      }
      currentFile := Some(time);
      if filenameUpdateInterval != null {
        filenameUpdateInterval.SetTime(now);
      }
      return true;
    }

    /** Close and open again under the current name. */
    method ReopenFile(opens: bool) returns (isOpen: bool)
      modifies this`openFile
      ensures isOpen == opens && openFile == if opens then currentFile else None
    {
      openFile := None;
      if opens {
        openFile := currentFile;
      }
      isOpen := opens;
    }

    /** The interval exists afterwards only if a storage duration is configured, or if it existed
        before; a file that is open stays open. The size is raised even if the name is refused. */
    method Setup(time: int, now: int, start: int, accepted: bool, opens: bool) returns (ok: bool)
      requires Valid()
      modifies this, if filenameUpdateInterval == null then {} else {filenameUpdateInterval}
      ensures Valid() && ok == accepted
      ensures var max := old(maxFilesizeBytes);
        maxFilesizeBytes == if max == 0 then 0 else if max < 10_485_760 then 10_485_760 else max
      ensures currentFile == if ok then Some(time) else old(currentFile)
      ensures openFile == if ok && old(openFile).None? && opens then Some(time) else old(openFile)
      ensures cleanupWorker == (old(cleanupWorker) || (ok && logStorageDuration != 0))
      ensures ok && logStorageDuration != 0 ==>
        filenameUpdateInterval != null && fresh(filenameUpdateInterval) && filenameUpdateInterval.time == start
      ensures !ok || logStorageDuration == 0 ==> filenameUpdateInterval == old(filenameUpdateInterval)
    {
      if maxFilesizeBytes != 0 && maxFilesizeBytes < MIN_LOG_FILESIZE {
        maxFilesizeBytes := MIN_LOG_FILESIZE;
      }
      ok := UpdateFilename(time, now, accepted);
      if !ok {
        return;
      }
      if openFile.None? && opens {
        openFile := currentFile;
      }
      if logStorageDuration != 0 {
        filenameUpdateInterval := new TimeInterval(3600 * logFrequency, 0, start);
        cleanupWorker := true;
      }
    }

    /** `EmptyOptional` stands for the undefined dereference of the missing interval. */
    method Maintenance(t: Tick) returns (r: Outcome)
      requires Valid()
      modifies this`currentFile, this`openFile, if filenameUpdateInterval == null then {} else {filenameUpdateInterval}
      ensures Valid()
      ensures r == EmptyOptional <==> logFrequency != 0 && filenameUpdateInterval == null
      ensures filenameUpdateInterval != null ==>
        && r == Decide(t, old(filenameUpdateInterval.time), logFrequency, maxFilesizeBytes)
        && filenameUpdateInterval.time == if r.Rotated? then t.base else old(filenameUpdateInterval.time)
      ensures logFrequency == 0 ==> r == Decide(t, 0, 0, maxFilesizeBytes)
      ensures r.Rotated? ==> (r.bySize <==> maxFilesizeBytes != 0 && t.present && t.size > maxFilesizeBytes)
      ensures r.Kept? ==> maxFilesizeBytes == 0 || !t.present || t.size <= maxFilesizeBytes
      ensures currentFile == if r.Rotated? then Some(t.name) else old(currentFile)
      ensures openFile == if !r.Rotated? then old(openFile) else if t.opens then Some(t.name) else None
    {
      var byTime, bySize := false, false;
      if logFrequency != 0 {
        if filenameUpdateInterval == null {
          return EmptyOptional;
        }
        var nextUpdate := filenameUpdateInterval.GetNextTimestamp();
        if t.check > nextUpdate {
          byTime := true;
        }
      }
      if maxFilesizeBytes != 0 && t.present {
        if t.size > maxFilesizeBytes {
          bySize := true;
        }
      }
      if byTime || bySize {
        var ok := UpdateFilename(t.name, t.base, t.accepted);
        if !ok {
          return Failed;
        }
        var _ := ReopenFile(t.opens);
        return Rotated(byTime, bySize);
      }
      return Kept;
    }
  }

  // ----- runs of maintenance ticks -----

  function Decide(t: Tick, base: int, hours: nat, max: nat): (r: Outcome) {
    if !TimeIsUp(t, base, hours) && !TooLarge(t, max) then Kept
    else if t.accepted then Rotated(TimeIsUp(t, base, hours), TooLarge(t, max))
    else Failed
  }

  /** The interval's time before tick `n`. */
  function BaseBefore(ticks: seq<Tick>, start: int, hours: nat, max: nat, n: nat): (base: int)
    requires n <= |ticks|
  {
    if n == 0 then start
    else
      var base := BaseBefore(ticks, start, hours, max, n - 1);
      if Decide(ticks[n - 1], base, hours, max).Rotated? then ticks[n - 1].base else base
  }

  function OutcomeAt(ticks: seq<Tick>, start: int, hours: nat, max: nat, n: nat): (r: Outcome)
    requires n < |ticks|
  {
    Decide(ticks[n], BaseBefore(ticks, start, hours, max, n), hours, max)
  }

  ghost predicate ByTime(ticks: seq<Tick>, start: int, hours: nat, max: nat, n: nat)
    requires n < |ticks|
  {
    var r := OutcomeAt(ticks, start, hours, max, n);
    r.Rotated? && r.byTime
  }

  /** Ticks follow each other, the first one after the interval was set up at `start`. Names are
      accepted: nothing catches the exception of the maintenance thread, so it ends the program. */
  ghost predicate IsRun(ticks: seq<Tick>, start: int) {
    && 0 <= start
    && (forall i :: 0 <= i < |ticks| ==> InOrder(ticks[i]) && start <= ticks[i].check && ticks[i].accepted)
    && (forall i, j :: 0 <= i < j < |ticks| ==> ticks[i].base <= ticks[j].check)
  }

  /** The instants at which a new file is due. */
  predicate IsBoundary(g: int, hours: nat)
    requires hours > 0
  {
    OnGrid(g, 3600 * hours, 0)
  }

  /** The maintenance loop over all ticks, up to the first exception. */
  method RunMaintenance(f: FileTarget, ticks: seq<Tick>) returns (outcomes: seq<Outcome>)
    requires f.Valid() && f.filenameUpdateInterval != null
    modifies f`currentFile, f`openFile, f.filenameUpdateInterval
    ensures f.Valid()
    ensures |outcomes| <= |ticks|
    ensures forall i :: 0 <= i < |outcomes| ==>
      outcomes[i] == OutcomeAt(ticks, old(f.filenameUpdateInterval.time), f.logFrequency, f.maxFilesizeBytes, i)
    ensures forall i :: 0 <= i < |outcomes| ==>
      (outcomes[i].Rotated? && outcomes[i].bySize <==>
        ticks[i].accepted && f.maxFilesizeBytes != 0 && ticks[i].present && ticks[i].size > f.maxFilesizeBytes)
    ensures forall i :: 0 <= i < |outcomes| - 1 ==> !outcomes[i].Failed?
    ensures |outcomes| < |ticks| ==> outcomes != [] && outcomes[|outcomes| - 1].Failed?
  {
    outcomes := [];
    ghost var start := f.filenameUpdateInterval.time;
    for n := 0 to |ticks|
      invariant f.Valid() && |outcomes| == n
      invariant f.filenameUpdateInterval.time == BaseBefore(ticks, start, f.logFrequency, f.maxFilesizeBytes, n)
      invariant forall i :: 0 <= i < n ==>
        outcomes[i] == OutcomeAt(ticks, start, f.logFrequency, f.maxFilesizeBytes, i) && !outcomes[i].Failed?
    {
      var r := f.Maintenance(ticks[n]);
      outcomes := outcomes + [r];
      if r.Failed? {
        return;
      }
    }
  }

  lemma NextUpdateIs(base: int, hours: nat)
    requires hours > 0 && base >= 0
    ensures NextUpdate(base, hours) % 1000 == 0 && IsBoundary(NextUpdate(base, hours) / 1000, hours)
    ensures NextUpdate(base, hours) > base
    ensures forall g :: IsBoundary(g, hours) && 1000 * g > base ==> NextUpdate(base, hours) <= 1000 * g
  {
    var v, t := 3600 * hours, Seconds(base);
    CurrentIsFloorExactly(t, v, 0);
    WaitBounds(base, v, 0);
    SecondsOf(base);
    SecondsOfWhole(NextStamp(t, v, 0));
    forall g | IsBoundary(g, hours) && 1000 * g > base ensures NextUpdate(base, hours) <= 1000 * g {
      assert g > t;
    }
  }

  /** A tick rotates by time exactly if a boundary lies strictly between the last move of the
      interval and the tick. */
  lemma TimeIsUpExactly(t: Tick, base: int, hours: nat)
    requires hours > 0 && base >= 0
    ensures TimeIsUp(t, base, hours) <==> exists g :: IsBoundary(g, hours) && base < 1000 * g < t.check
  {
    NextUpdateIs(base, hours);
    var g := NextUpdate(base, hours) / 1000;
    assert 1000 * g == NextUpdate(base, hours);
    if TimeIsUp(t, base, hours) {
      assert IsBoundary(g, hours) && base < 1000 * g < t.check;
    }
  }

  /** Where the interval's time came from: the last rotation, or the set-up. It is never ahead of the clock. */
  lemma {:induction false} BaseFrom(ticks: seq<Tick>, start: int, hours: nat, max: nat, n: nat) returns (i: int)
    requires IsRun(ticks, start) && n <= |ticks|
    ensures -1 <= i < n
    ensures BaseBefore(ticks, start, hours, max, n) == if i < 0 then start else ticks[i].base
    ensures i >= 0 ==> OutcomeAt(ticks, start, hours, max, i).Rotated?
    ensures 0 <= start <= BaseBefore(ticks, start, hours, max, n)
    ensures n < |ticks| ==> BaseBefore(ticks, start, hours, max, n) <= ticks[n].check
  {
    if n == 0 {
      i := -1;
    } else if OutcomeAt(ticks, start, hours, max, n - 1).Rotated? {
      i := n - 1;
    } else {
      i := BaseFrom(ticks, start, hours, max, n - 1);
    }
    if i >= 0 { assert InOrder(ticks[i]); }
    if n < |ticks| { assert InOrder(ticks[n]); }
  }

  /** After every tick the file in use is fresh: no boundary passed before the tick is still to be served. */
  lemma FreshAfterTick(ticks: seq<Tick>, start: int, hours: nat, max: nat, n: nat, g: int)
    requires hours > 0 && IsRun(ticks, start) && n < |ticks| && IsBoundary(g, hours)
    ensures !(BaseBefore(ticks, start, hours, max, n + 1) < 1000 * g < ticks[n].check)
  {
    var base := BaseBefore(ticks, start, hours, max, n);
    var _ := BaseFrom(ticks, start, hours, max, n);
    assert InOrder(ticks[n]);
    TimeIsUpExactly(ticks[n], base, hours);
  }

  lemma {:induction false} BaseGrows(ticks: seq<Tick>, start: int, hours: nat, max: nat, i: nat, j: nat)
    requires IsRun(ticks, start) && i <= j <= |ticks|
    ensures BaseBefore(ticks, start, hours, max, i) <= BaseBefore(ticks, start, hours, max, j)
    decreases j
  {
    if i < j {
      BaseGrows(ticks, start, hours, max, i, j - 1);
      var _ := BaseFrom(ticks, start, hours, max, j - 1);
      assert InOrder(ticks[j - 1]);
    }
  }

  /** Main result: at every tick of a run, what decides is whether the limit is set and the file is there
      and larger, and whether a boundary lies strictly between the last move of the interval and the tick. */
  lemma OutcomeExactly(ticks: seq<Tick>, start: int, hours: nat, max: nat, n: nat)
    requires hours > 0 && IsRun(ticks, start) && n < |ticks|
    ensures var r := OutcomeAt(ticks, start, hours, max, n);
      var base := BaseBefore(ticks, start, hours, max, n);
      var large := max != 0 && ticks[n].present && ticks[n].size > max;
      && (r.Rotated? && r.bySize <==> large)
      && (r.Rotated? && r.byTime <==> exists g :: IsBoundary(g, hours) && base < 1000 * g < ticks[n].check)
      && (r.Kept? <==> !large && forall g :: IsBoundary(g, hours) ==> !(base < 1000 * g < ticks[n].check))
  {
    var _ := BaseFrom(ticks, start, hours, max, n);
    TimeIsUpExactly(ticks[n], BaseBefore(ticks, start, hours, max, n), hours);
  }

  /** Without a log frequency only the size decides, at every tick. */
  lemma SizeAlone(ticks: seq<Tick>, start: int, max: nat, n: nat)
    requires IsRun(ticks, start) && n < |ticks|
    ensures var r := OutcomeAt(ticks, start, 0, max, n);
      if max != 0 && ticks[n].present && ticks[n].size > max then r == Rotated(false, true) else r == Kept
  {
  }

  /** Two rotations by time have a boundary between them. */
  lemma BoundaryBetweenRotations(ticks: seq<Tick>, start: int, hours: nat, max: nat, i: nat, j: nat) returns (g: int)
    requires hours > 0 && IsRun(ticks, start) && i < j < |ticks|
    requires ByTime(ticks, start, hours, max, i) && ByTime(ticks, start, hours, max, j)
    ensures IsBoundary(g, hours) && ticks[i].base < 1000 * g < ticks[j].check
  {
    var _ := BaseFrom(ticks, start, hours, max, j);
    BaseGrows(ticks, start, hours, max, i + 1, j);
    TimeIsUpExactly(ticks[j], BaseBefore(ticks, start, hours, max, j), hours);
    g :| IsBoundary(g, hours) && BaseBefore(ticks, start, hours, max, j) < 1000 * g < ticks[j].check;
  }

  /** Tick `i` rotates while the boundary passes: it looked at the clock before, and moved the interval after. */
  ghost predicate Straddles(ticks: seq<Tick>, start: int, hours: nat, max: nat, i: nat, g: int)
    requires i < |ticks|
  {
    OutcomeAt(ticks, start, hours, max, i).Rotated? && ticks[i].check <= 1000 * g <= ticks[i].base
  }

  /** Main result: the first tick after a boundary rotates by time, unless an earlier rotation was
      under way when the boundary passed; and for the last boundary before the tick, only then. */
  lemma FirstTickRotatesExactly(ticks: seq<Tick>, start: int, hours: nat, max: nat, n: nat, g: int)
    requires hours > 0 && IsRun(ticks, start) && n < |ticks|
    requires IsBoundary(g, hours) && start < 1000 * g < ticks[n].check
    requires forall i :: 0 <= i < n ==> ticks[i].check <= 1000 * g
    ensures (forall i :: 0 <= i < n ==> !Straddles(ticks, start, hours, max, i, g)) ==>
        ByTime(ticks, start, hours, max, n)
    ensures ticks[n].check <= 1000 * (g + 3600 * hours) ==>
      (ByTime(ticks, start, hours, max, n) <==> forall i :: 0 <= i < n ==> !Straddles(ticks, start, hours, max, i, g))
  {
    var base := BaseBefore(ticks, start, hours, max, n);
    var from := BaseFrom(ticks, start, hours, max, n);
    TimeIsUpExactly(ticks[n], base, hours);
    if base < 1000 * g {
      assert ByTime(ticks, start, hours, max, n);
      forall i | 0 <= i < n ensures !Straddles(ticks, start, hours, max, i, g) {
        if Straddles(ticks, start, hours, max, i, g) {
          BaseGrows(ticks, start, hours, max, i + 1, n);
        }
      }
    } else {
      assert Straddles(ticks, start, hours, max, from, g);
      if ticks[n].check <= 1000 * (g + 3600 * hours) && TimeIsUp(ticks[n], base, hours) {
        var h :| IsBoundary(h, hours) && base < 1000 * h < ticks[n].check;
        GridSpacing(g, h, 3600 * hours, 0);
      }
    }
  }

  /** No boundary passes while a tick is at work. */
  ghost predicate Quick(t: Tick, hours: nat)
    requires hours > 0
  {
    forall g :: IsBoundary(g, hours) ==> !(t.check <= 1000 * g <= t.base)
  }

  lemma SameNext(a: int, b: int, hours: nat)
    requires hours > 0 && 0 <= a <= b && forall g :: IsBoundary(g, hours) ==> !(a < 1000 * g <= b)
    ensures NextUpdate(a, hours) == NextUpdate(b, hours)
  {
    NextUpdateIs(a, hours);
    NextUpdateIs(b, hours);
    var g, h := NextUpdate(a, hours) / 1000, NextUpdate(b, hours) / 1000;
    assert 1000 * g == NextUpdate(a, hours) && 1000 * h == NextUpdate(b, hours);
  }

  /** After a quick tick, rotated or not, the next update is what it would be after a rotation. */
  lemma NextAfterTick(t: Tick, base: int, hours: nat, max: nat)
    requires hours > 0 && InOrder(t) && t.accepted && 0 <= base <= t.check && Quick(t, hours)
    ensures NextUpdate(if Decide(t, base, hours, max).Rotated? then t.base else base, hours)
        == NextUpdate(t.check, hours)
  {
    if Decide(t, base, hours, max).Rotated? {
      SameNext(t.check, t.base, hours);
    } else {
      NextUpdateIs(base, hours);
      forall g | IsBoundary(g, hours) ensures !(base < 1000 * g <= t.check) {
        if base < 1000 * g { assert NextUpdate(base, hours) <= 1000 * g; assert !(t.check <= 1000 * g <= t.base); }
      }
      SameNext(base, t.check, hours);
    }
  }

  /** Main result: rotations by size, wherever they happen and however many, neither delay nor add
      a rotation by time: when those come depends on the clock alone. */
  lemma SizesDoNotMatter(ticks: seq<Tick>, start: int, hours: nat, max: nat, n: nat)
    requires hours > 0 && IsRun(ticks, start) && n < |ticks| && forall i :: 0 <= i < n ==> Quick(ticks[i], hours)
    ensures ByTime(ticks, start, hours, max, n)
       <==> ticks[n].check > NextUpdate(if n == 0 then start else ticks[n - 1].check, hours)
  {
    if n > 0 {
      var _ := BaseFrom(ticks, start, hours, max, n - 1);
      NextAfterTick(ticks[n - 1], BaseBefore(ticks, start, hours, max, n - 1), hours, max);
    }
  }
}
