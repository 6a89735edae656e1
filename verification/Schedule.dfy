/**
 `TimeInterval`: time stamps on a grid of seconds with an offset. The clock is in milliseconds
 since the epoch, the grid in seconds, and `%` truncates towards zero as in C++.
 */
module Schedule {

  // ----- the grid -----

  predicate OnGrid(g: int, v: int, o: int)
    requires v > 0
  {
    (g - o) % v == 0
  }

  /** `g` is the greatest grid point that is not after `t`. */
  ghost predicate IsFloor(g: int, t: int, v: int, o: int)
    requires v > 0
  {
    OnGrid(g, v, o) && g <= t && forall h :: OnGrid(h, v, o) && h <= t ==> h <= g
  }

  /** `g` is the least grid point after `t`. */
  ghost predicate IsNext(g: int, t: int, v: int, o: int)
    requires v > 0
  {
    OnGrid(g, v, o) && g > t && forall h :: OnGrid(h, v, o) && h > t ==> h >= g
  }

  lemma MultipleOf(x: int, v: int) returns (k: int)
    requires v > 0 && x % v == 0
    ensures x == v * k && k == x / v
  {
    k := x / v;
  }

  lemma ModOfMultiple(k: int, v: int)
    requires v > 0
    ensures (v * k) % v == 0
  {
    ModUnique(v * k, v, k, 0);
  }

  lemma AtLeastOnce(v: int, n: int)
    requires v > 0 && n >= 1
    ensures v * n >= v
  {
  }

  lemma Division(x: int, v: int)
    requires v > 0
    ensures x == v * (x / v) + x % v && 0 <= x % v < v
  {
  }

  lemma ModUnique(x: int, v: int, k: int, r: int)
    requires v > 0 && x == v * k + r && 0 <= r < v
    ensures x % v == r
  {
    Division(x, v);
    var q := x / v;
    assert v * (q - k) == v * q - v * k;
    assert v * (k - q) == v * k - v * q;
    if q > k { AtLeastOnce(v, q - k); } else if q < k { AtLeastOnce(v, k - q); }
  }

  lemma GridShift(g: int, v: int, o: int, n: int)
    requires v > 0 && OnGrid(g, v, o)
    ensures OnGrid(g + v * n, v, o)
  {
    var k := MultipleOf(g - o, v);
    ModOfMultiple(k + n, v);
    assert g + v * n - o == v * (k + n);
  }

  lemma GridSpacing(g: int, h: int, v: int, o: int)
    requires v > 0 && OnGrid(g, v, o) && OnGrid(h, v, o) && g < h
    ensures g + v <= h
  {
    var k := MultipleOf(g - o, v);
    var m := MultipleOf(h - o, v);
    assert v * (m - k) == h - g;
    if m <= k { NotPositive(v, m - k); }
    AtLeastOnce(v, m - k);
  }

  lemma NotPositive(v: int, n: int)
    requires v > 0 && n <= 0
    ensures v * n <= 0
  {
  }

  /** A grid point within one interval of `t` is both neighbours at once. */
  lemma FloorWithin(g: int, t: int, v: int, o: int)
    requires v > 0 && OnGrid(g, v, o)
    ensures IsFloor(g, t, v, o) <==> g <= t < g + v
    ensures IsNext(g + v, t, v, o) <==> g <= t < g + v
  {
    GridShift(g, v, o, 1);
    GridShift(g, v, o, -1);
    if g <= t < g + v {
      forall h | OnGrid(h, v, o) ensures (h <= t ==> h <= g) && (h > t ==> h >= g + v) {
        if g < h { GridSpacing(g, h, v, o); }
      }
    }
  }

  lemma FloorIsUnique(g: int, h: int, t: int, v: int, o: int)
    requires v > 0 && IsFloor(g, t, v, o) && IsFloor(h, t, v, o)
    ensures g == h
  {
  }

  lemma NextIsUnique(g: int, h: int, t: int, v: int, o: int)
    requires v > 0 && IsNext(g, t, v, o) && IsNext(h, t, v, o)
    ensures g == h
  {
  }

  // ----- what the class computes -----

  /** Division and remainder of C++. */
  function TruncDiv(a: int, b: int): (q: int)
    requires b > 0
  {
    if a >= 0 then a / b else -((-a) / b)
  }

  function TruncMod(a: int, b: int): (m: int)
    requires b > 0
  {
    if a >= 0 then a % b else -((-a) % b)
  }

  /** `to_time_t`. */
  function Seconds(ms: int): (t: int) { TruncDiv(ms, 1000) }

  function CurrentStamp(t: int, v: int, o: int): (g: int)
    requires v > 0
  {
    var g := t - TruncMod(t, v) + o;
    if g > t then g - v else g
  }

  function NextStamp(t: int, v: int, o: int): (g: int)
    requires v > 0
  {
    CurrentStamp(t, v, o) + v
  }

  /** The remainder in terms of the one that is never negative. */
  lemma TruncModIs(t: int, v: int)
    requires v > 0
    ensures TruncMod(t, v) == if t >= 0 || t % v == 0 then t % v else t % v - v
  {
    if t < 0 {
      var q := (-t) / v;
      var r := (-t) % v;
      assert t == v * (-q) - r;
      if r == 0 {
        ModUnique(t, v, -q, 0);
      } else {
        assert t == v * (-q - 1) + (v - r);
        ModUnique(t, v, -q - 1, v - r);
      }
    }
  }

  lemma CurrentOnGrid(t: int, v: int, o: int)
    requires v > 0
    ensures OnGrid(CurrentStamp(t, v, o), v, o)
  {
    TruncModIs(t, v);
    var k := t / v;
    assert t - t % v == v * k;
    var g := CurrentStamp(t, v, o);
    assert g - o == v * k || g - o == v * (k - 1) || g - o == v * (k + 1);
    ModOfMultiple(k, v);
    ModOfMultiple(k - 1, v);
    ModOfMultiple(k + 1, v);
  }

  /** Offsets for which the computation rounds down. `Set_offset` guarantees 0 <= o < v, the
      constructor guarantees nothing. */
  predicate RoundsDown(t: int, v: int, o: int)
    requires v > 0
  {
    if t >= 0 || t % v == 0 then t % v - v < o <= t % v + v
    else t % v - 2 * v < o <= t % v
  }

  /** Main result, for every time and every offset: the stamp is the greatest grid point that is
      not after the time, and the next one the least after it, exactly when `RoundsDown` holds. */
  lemma CurrentIsFloorExactly(t: int, v: int, o: int)
    requires v > 0
    ensures IsFloor(CurrentStamp(t, v, o), t, v, o) <==> RoundsDown(t, v, o)
    ensures IsNext(NextStamp(t, v, o), t, v, o) <==> RoundsDown(t, v, o)
  {
    CurrentOnGrid(t, v, o);
    TruncModIs(t, v);
    FloorWithin(CurrentStamp(t, v, o), t, v, o);
  }

  /** With an offset `Set_offset` accepts, only times before the epoch can go wrong. */
  lemma RoundsDownWithValidOffset(t: int, v: int, o: int)
    requires 0 <= o < v
    ensures RoundsDown(t, v, o) <==> t >= 0 || t % v == 0 || o <= t % v
  {
  }

  /** The same at the resolution of the clock, where `to_time_t` also rounds towards zero. */
  predicate InstantRoundsDown(ms: int, v: int, o: int)
    requires v > 0
  {
    || ms >= 0
    || (RoundsDown(Seconds(ms), v, o) && (ms % 1000 == 0 || !OnGrid(Seconds(ms), v, o)))
  }

  lemma SecondsOf(ms: int)
    ensures ms >= 0 || ms % 1000 == 0 ==> 1000 * Seconds(ms) <= ms < 1000 * Seconds(ms) + 1000
    ensures ms < 0 && ms % 1000 != 0 ==> 1000 * Seconds(ms) - 1000 < ms < 1000 * Seconds(ms) <= 0
  {
  }

  lemma SecondsOfWhole(x: int)
    ensures Seconds(1000 * x) == x && (1000 * x) / 1000 == x
  {
  }

  lemma InstantIsFloorExactly(ms: int, v: int, o: int)
    requires 0 <= o < v
    ensures 1000 * CurrentStamp(Seconds(ms), v, o) <= ms < 1000 * NextStamp(Seconds(ms), v, o)
       <==> InstantRoundsDown(ms, v, o)
  {
    var t := Seconds(ms);
    SecondsOf(ms);
    CurrentIsFloorExactly(t, v, o);
    CurrentOnGrid(t, v, o);
    FloorWithin(CurrentStamp(t, v, o), t, v, o);
    if ms < 0 && ms % 1000 != 0 && OnGrid(t, v, o) && RoundsDown(t, v, o) {
      FloorWithin(t, t, v, o);
      FloorIsUnique(t, CurrentStamp(t, v, o), t, v, o);
    }
    if ms < 0 && ms % 1000 != 0 && !RoundsDown(t, v, o) {
      LateStamp(t, v, o);
    }
  }

  lemma LateStamp(t: int, v: int, o: int)
    requires 0 <= o < v && !RoundsDown(t, v, o)
    ensures CurrentStamp(t, v, o) > t
  {
    TruncModIs(t, v);
  }

  /** Rounding towards zero gives a multiple on the side of zero. */
  lemma RoundedMultiple(t: int, v: int) returns (k: int)
    requires v > 0
    ensures t - TruncMod(t, v) == v * k
    ensures if t >= 0 then k >= 0 && v * k <= t < v * k + v else k <= 0 && v * k - v < t <= v * k
  {
    TruncModIs(t, v);
    var q := QuotientSign(t, v);
    k := if t >= 0 || t % v == 0 then q else q + 1;
    assert v * (q + 1) == v * q + v;
  }

  lemma QuotientSign(t: int, v: int) returns (q: int)
    requires v > 0
    ensures t == v * q + t % v && (t >= 0 <==> q >= 0)
  {
    Division(t, v);
    q := t / v;
    if q >= 1 { AtLeastOnce(v, q); }
    if q <= -1 {
      AtLeastOnce(v, -q);
      assert v * (-q) == -(v * q);
    }
  }

  lemma MultiplesApart(v: int, k: int, l: int)
    requires v > 0
    ensures k < l ==> v * k + v <= v * l
  {
    if k < l {
      AtLeastOnce(v, l - k);
      assert v * l == v * k + v * (l - k);
    }
  }

  /** A later time is rounded to the same multiple or to one that is greater. */
  lemma RoundedAreApart(a: int, b: int, v: int)
    requires v > 0 && a <= b
    ensures var x, y := a - TruncMod(a, v), b - TruncMod(b, v); x == y || x + v <= y
  {
    var k := RoundedMultiple(a, v);
    var l := RoundedMultiple(b, v);
    MultiplesApart(v, k, l);
    MultiplesApart(v, l, k);
  }

  /** Also where the stamps are not rounded down. */
  lemma StampsAreMonotone(a: int, b: int, v: int, o: int)
    requires v > 0 && a <= b
    ensures CurrentStamp(a, v, o) <= CurrentStamp(b, v, o) && NextStamp(a, v, o) <= NextStamp(b, v, o)
  {
    RoundedAreApart(a, b, v);
  }

  /** Starting over from a grid point stays there. */
  lemma RebasingStays(g: int, v: int, o: int)
    requires v > 0 && OnGrid(g, v, o) && RoundsDown(g, v, o)
    ensures CurrentStamp(g, v, o) == g && NextStamp(g, v, o) == g + v
  {
    FloorWithin(g, g, v, o);
    CurrentIsFloorExactly(g, v, o);
    FloorIsUnique(g, CurrentStamp(g, v, o), g, v, o);
  }

  // ----- the class -----

  datatype OffsetResult = OffsetSet | OffsetNotLess | OffsetNegative

  class TimeInterval {
    var time: int
    var interval: int
    var offset: int

    /** Both constructors; the first one has offset 0 and takes the time from the clock. */
    constructor (interval: int, offset: int, time: int)
      ensures this.interval == interval && this.offset == offset && this.time == time
    {
      this.interval := interval;
      this.offset := offset;
      this.time := time;
    }

    method SetTime(time: int)
      modifies this`time
      ensures this.time == time
    {
      this.time := time;
    }

    method SetOffset(minutes: int) returns (r: OffsetResult)
      modifies this`offset
      ensures r == OffsetSet <==> 0 <= 60 * minutes < interval
      ensures offset == if r == OffsetSet then 60 * minutes else old(offset)
      ensures r == OffsetNegative <==> 60 * minutes < 0 && 60 * minutes < interval
    {
      if 60 * minutes >= interval {
        return OffsetNotLess;
      }
      if 60 * minutes < 0 {
        return OffsetNegative;
      }
      offset := 60 * minutes;
      return OffsetSet;
    }

    method GetCurrentTimestamp() returns (stamp: int)
      requires interval > 0
      ensures stamp == 1000 * CurrentStamp(Seconds(time), interval, offset)
      ensures RoundsDown(Seconds(time), interval, offset) <==> IsFloor(stamp / 1000, Seconds(time), interval, offset)
    {
      var t := Seconds(time);
      var amo := TruncMod(t, interval);
      var timestamp := t - amo;
      var offseted := timestamp + offset;
      if offseted > t {
        offseted := offseted - interval;
      }
      CurrentIsFloorExactly(t, interval, offset);
      SecondsOfWhole(offseted);
      return 1000 * offseted;
    }

    method GetNextTimestamp() returns (stamp: int)
      requires interval > 0
      ensures stamp == 1000 * NextStamp(Seconds(time), interval, offset)
      ensures RoundsDown(Seconds(time), interval, offset) <==> IsNext(stamp / 1000, Seconds(time), interval, offset)
    {
      var previous := GetCurrentTimestamp();
      var secondsPrevious := Seconds(previous);
      SecondsOfWhole(CurrentStamp(Seconds(time), interval, offset));
      var nextSeconds := secondsPrevious + interval;
      CurrentIsFloorExactly(Seconds(time), interval, offset);
      SecondsOfWhole(nextSeconds);
      return 1000 * nextSeconds;
    }

    /** The wait is counted from the whole second, so it may end up to a second late, never early. */
    method GetMillisecondsUntilNextTimestamp() returns (wait: int)
      requires interval > 0
      ensures wait == WaitFrom(time, interval, offset)
      ensures RoundsDown(Seconds(time), interval, offset) <==> 0 < wait <= 1000 * interval
      ensures time >= 0 && 0 <= offset < interval ==>
        1000 * NextStamp(Seconds(time), interval, offset) <= time + wait
        < 1000 * NextStamp(Seconds(time), interval, offset) + 1000
    {
      var nextTimestamp := GetNextTimestamp();
      SecondsOfWhole(NextStamp(Seconds(time), interval, offset));
      var nextSeconds := Seconds(nextTimestamp);
      var timeSeconds := Seconds(time);
      var difference := nextSeconds - timeSeconds;
      WaitBounds(time, interval, offset);
      return 1000 * difference;
    }
  }

  function WaitFrom(ms: int, v: int, o: int): (wait: int)
    requires v > 0
  {
    1000 * (NextStamp(Seconds(ms), v, o) - Seconds(ms))
  }

  lemma WaitBounds(ms: int, v: int, o: int)
    requires v > 0
    ensures RoundsDown(Seconds(ms), v, o) <==> 0 < WaitFrom(ms, v, o) <= 1000 * v
    ensures ms >= 0 && 0 <= o < v ==> RoundsDown(Seconds(ms), v, o)
    ensures ms >= 0 ==>
        1000 * NextStamp(Seconds(ms), v, o) <= ms + WaitFrom(ms, v, o) < 1000 * NextStamp(Seconds(ms), v, o) + 1000
  {
    var t := Seconds(ms);
    SecondsOf(ms);
    CurrentOnGrid(t, v, o);
    CurrentIsFloorExactly(t, v, o);
    FloorWithin(CurrentStamp(t, v, o), t, v, o);
  }
}
