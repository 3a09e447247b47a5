/** The sliding window's two counters against the full admission log. */
module SlidingWindowRuns {
  import opened Common
  import opened SlidingWindows

  datatype Call = Call(key: string, time: int, n: int)

  /** A call of one key together with the units it was granted (zero when refused). */
  datatype Entry = Entry(time: int, units: int)

  function WindowsAfter(l: Limits, calls: seq<Call>): Windows {
    if calls == [] then map[]
    else
      var c := calls[|calls| - 1];
      AfterAllowN(l, WindowsAfter(l, calls[..|calls| - 1]), c.key, c.time, c.n)
  }

  predicate Granted(l: Limits, before: seq<Call>, c: Call) {
    Allows(l, WindowsAfter(l, before), c.key, c.time, c.n)
  }

  function LogOf(l: Limits, calls: seq<Call>, key: string): seq<Entry> {
    if calls == [] then []
    else
      var before, c := calls[..|calls| - 1], calls[|calls| - 1];
      if c.key != key then LogOf(l, before, key)
      else LogOf(l, before, key) + [Entry(c.time, if Granted(l, before, c) then c.n else 0)]
  }

  /** The number of the aligned window that contains `t`. */
  function Index(l: Proper, t: int): int {
    t / l.windowSize
  }

  /** Units granted in the aligned window number `k`. */
  function UnitsAt(l: Proper, log: seq<Entry>, k: int): int {
    if log == [] then 0
    else
      var e := log[|log| - 1];
      UnitsAt(l, log[..|log| - 1], k) + (if Index(l, e.time) == k then e.units else 0)
  }

  predicate TimesInOrder(calls: seq<Call>) {
    forall i, j | 0 <= i < j < |calls| :: calls[i].time <= calls[j].time
  }

  predicate NonNegativeUnits(calls: seq<Call>) {
    forall i | 0 <= i < |calls| :: calls[i].n >= 0
  }

  // ---------------------------------------------------------------- windows and their numbers

  lemma TruncateIsIndex(l: Proper, t: int)
    ensures Truncate(l, t) == Index(l, t) * l.windowSize
    ensures Index(l, t) * l.windowSize <= t < Index(l, t) * l.windowSize + l.windowSize
  {}

  lemma IndexMonotone(l: Proper, t: int, t': int)
    requires t <= t'
    ensures Index(l, t) <= Index(l, t')
  {
    var w, i, j := l.windowSize, Index(l, t), Index(l, t');
    TruncateIsIndex(l, t);
    TruncateIsIndex(l, t');
    assert (j + 1) * w == j * w + w;
    if j < i {
      MulMonotone(j + 1, i, w);
    }
  }

  /** Index bounds from time bounds: `t` lies in window `k` or later exactly when `t >= k * windowSize`. */
  lemma IndexAtLeast(l: Proper, t: int, k: int)
    ensures Index(l, t) >= k <==> t >= k * l.windowSize
  {
    var w, i := l.windowSize, Index(l, t);
    TruncateIsIndex(l, t);
    if i >= k {
      MulMonotone(k, i, w);
    } else {
      MulMonotone(i + 1, k, w);
      assert (i + 1) * w == i * w + w;
    }
  }

  /** Rotation in terms of window numbers. */
  lemma RotatedByIndex(l: Proper, w: Window, k: int, now: int)
    requires w.currWindow == k * l.windowSize && k <= Index(l, now)
    ensures var j := Index(l, now);
            Rotated(l, w, now) ==
            if j == k then w
            else Window(if j == k + 1 then w.currCount else 0, 0, j * l.windowSize)
  {
    var size, j := l.windowSize, Index(l, now);
    TruncateIsIndex(l, now);
    assert (k + 1) * size == k * size + size && (k + 2) * size == k * size + 2 * size;
    if j >= k + 2 {
      MulMonotone(k + 2, j, size);
    }
  }

  // ---------------------------------------------------------------- the counters are the log

  ghost predicate Tracks(l: Proper, w: Window, log: seq<Entry>) {
    && log != []
    && var k := Index(l, log[|log| - 1].time);
       && w.currWindow == k * l.windowSize
       && w.currCount == UnitsAt(l, log, k)
       && w.prevCount == UnitsAt(l, log, k - 1)
  }

  lemma UnitsAtAppend(l: Proper, log: seq<Entry>, e: Entry, k: int)
    ensures UnitsAt(l, log + [e], k) == UnitsAt(l, log, k) + if Index(l, e.time) == k then e.units else 0
  {
    assert (log + [e])[..|log|] == log;
  }

  lemma {:induction false} NothingLater(l: Proper, log: seq<Entry>, now: int, k: int)
    requires forall i | 0 <= i < |log| :: log[i].time <= now
    requires k > Index(l, now)
    ensures UnitsAt(l, log, k) == 0
  {
    if log != [] {
      IndexMonotone(l, log[|log| - 1].time, now);
      NothingLater(l, log[..|log| - 1], now, k);
    }
  }

  lemma TracksStep(l: Proper, ws: Windows, log: seq<Entry>, key: string, now: int, n: int)
    requires if key in ws then Tracks(l, ws[key], log) else log == []
    requires log != [] ==> log[|log| - 1].time <= now
    requires forall i | 0 <= i < |log| :: log[i].time <= log[|log| - 1].time
    ensures var units := if Allows(l, ws, key, now, n) then n else 0;
            Tracks(l, AfterAllowN(l, ws, key, now, n)[key], log + [Entry(now, units)])
  {
    var e := Entry(now, if Allows(l, ws, key, now, n) then n else 0);
    var j := Index(l, now);
    UnitsAtAppend(l, log, e, j);
    UnitsAtAppend(l, log, e, j - 1);
    TruncateIsIndex(l, now);
    if log != [] {
      var last := log[|log| - 1].time;
      var k := Index(l, last);
      IndexMonotone(l, last, now);
      RotatedByIndex(l, ws[key], k, now);
      if j > k {
        NothingLater(l, log, last, j);
      }
      if j > k + 1 {
        NothingLater(l, log, last, j - 1);
      }
    }
  }

  lemma {:induction false} LogTimes(l: Limits, calls: seq<Call>, key: string)
    requires TimesInOrder(calls)
    ensures var log := LogOf(l, calls, key);
            && (forall i | 0 <= i < |log| :: log[i].time <= log[|log| - 1].time)
            && (log != [] ==> calls != [] && log[|log| - 1].time <= calls[|calls| - 1].time)
  {
    if calls != [] {
      LogTimes(l, calls[..|calls| - 1], key);
    }
  }

  /** After every call of every run, `currCount` and `prevCount` are exactly the units granted in the
      aligned window of the key's last call and in the one just before it. */
  lemma {:induction false} CountersAreTheLog(l: Proper, calls: seq<Call>, key: string)
    requires TimesInOrder(calls)
    ensures key in WindowsAfter(l, calls) <==> LogOf(l, calls, key) != []
    ensures key in WindowsAfter(l, calls) ==> Tracks(l, WindowsAfter(l, calls)[key], LogOf(l, calls, key))
  {
    if calls != [] {
      var before, c := calls[..|calls| - 1], calls[|calls| - 1];
      CountersAreTheLog(l, before, key);
      if c.key == key {
        LogTimes(l, before, key);
        TracksStep(l, WindowsAfter(l, before), LogOf(l, before, key), key, c.time, c.n);
      }
    }
  }

  // ---------------------------------------------------------------- the decision

  /** The counters as they stand at `now`, rotated, are the units granted in the aligned window of `now` and
      in the one just before it. */
  lemma RotatedIsTheLog(l: Proper, calls: seq<Call>, key: string, now: int)
    requires TimesInOrder(calls) && (calls != [] ==> calls[|calls| - 1].time <= now)
    ensures var w, log, k := Rotated(l, WindowFor(l, WindowsAfter(l, calls), key, now), now), LogOf(l, calls, key), Index(l, now);
            w.currCount == UnitsAt(l, log, k) && w.prevCount == UnitsAt(l, log, k - 1)
  {
    CountersAreTheLog(l, calls, key);
    LogTimes(l, calls, key);
    var log, j := LogOf(l, calls, key), Index(l, now);
    if log != [] {
      var last := log[|log| - 1].time;
      var k := Index(l, last);
      IndexMonotone(l, last, now);
      RotatedByIndex(l, WindowsAfter(l, calls)[key], k, now);
      if j > k {
        NothingLater(l, log, last, j);
      }
      if j > k + 1 {
        NothingLater(l, log, last, j - 1);
      }
    }
  }

  /** The decision, from the admission log alone: with `e` the offset of `now` in its aligned window, the units
      granted in this window, those of the preceding window reduced by the fraction `e / windowSize`, and the
      units asked for must not exceed the rate (stated times `windowSize`). */
  lemma SlidingWindowIsExact(l: Proper, calls: seq<Call>, key: string, now: int, n: int)
    requires TimesInOrder(calls) && (calls != [] ==> calls[|calls| - 1].time <= now)
    ensures var log, k := LogOf(l, calls, key), Index(l, now);
            Granted(l, calls, Call(key, now, n)) <==>
              UnitsAt(l, log, k - 1) * (l.windowSize - now % l.windowSize) + (UnitsAt(l, log, k) + n) * l.windowSize
              <= l.rate * l.windowSize
  {
    RotatedIsTheLog(l, calls, key, now);
    var w := Rotated(l, WindowFor(l, WindowsAfter(l, calls), key, now), now);
    assert (w.currCount + n) * l.windowSize == w.currCount * l.windowSize + n * l.windowSize;
  }

  // ---------------------------------------------------------------- what an interval can see

  lemma {:induction false} CountsInRange(l: Proper, calls: seq<Call>, key: string)
    requires NonNegativeUnits(calls) && l.rate >= 0
    ensures key in WindowsAfter(l, calls) ==>
              && 0 <= WindowsAfter(l, calls)[key].prevCount <= l.rate
              && 0 <= WindowsAfter(l, calls)[key].currCount <= l.rate
  {
    if calls != [] {
      var before, c := calls[..|calls| - 1], calls[|calls| - 1];
      CountsInRange(l, before, key);
      if c.key == key && Granted(l, before, c) {
        var ws := WindowsAfter(l, before);
        var w := Rotated(l, WindowFor(l, ws, key, c.time), c.time);
        GrantKeepsRate(l, w.prevCount, w.currCount, c.n, c.time % l.windowSize);
      }
    }
  }

  lemma GrantKeepsRate(l: Proper, prev: int, curr: int, n: int, e: int)
    requires prev >= 0 && 0 <= e < l.windowSize
    requires prev * (l.windowSize - e) + curr * l.windowSize + n * l.windowSize <= l.rate * l.windowSize
    ensures curr + n <= l.rate
  {
    var size := l.windowSize;
    MulMonotone(0, prev, size - e);
    assert (curr + n) * size == curr * size + n * size;
    assert (l.rate + 1) * size == l.rate * size + size;
    if curr + n > l.rate {
      MulMonotone(l.rate + 1, curr + n, size);
    }
  }

  /** Units granted at times in `[from, to]`. */
  function UnitsIn(log: seq<Entry>, from: int, to: int): int {
    if log == [] then 0
    else
      var e := log[|log| - 1];
      UnitsIn(log[..|log| - 1], from, to) + (if from <= e.time <= to then e.units else 0)
  }

  /** An interval that meets only the windows `k - 1` and `k` sees no more than those two hold. */
  lemma {:induction false} IntervalWithinTwoWindows(l: Proper, log: seq<Entry>, from: int, to: int, k: int)
    requires forall i | 0 <= i < |log| :: log[i].units >= 0
    requires k - 1 <= Index(l, from) && Index(l, to) <= k
    ensures UnitsIn(log, from, to) <= UnitsAt(l, log, k - 1) + UnitsAt(l, log, k)
  {
    if log != [] {
      var e := log[|log| - 1];
      IntervalWithinTwoWindows(l, log[..|log| - 1], from, to, k);
      if from <= e.time <= to {
        IndexMonotone(l, from, e.time);
        IndexMonotone(l, e.time, to);
      }
    }
  }

  lemma {:induction false} LogUnits(l: Proper, calls: seq<Call>, key: string)
    requires NonNegativeUnits(calls)
    ensures forall i | 0 <= i < |LogOf(l, calls, key)| :: LogOf(l, calls, key)[i].units >= 0
  {
    if calls != [] {
      LogUnits(l, calls[..|calls| - 1], key);
    }
  }

  /** An interval of length at most `windowSize` that ends at a grant made at offset `e` of its window
      holds at most `rate + prevCount * e / windowSize` units (stated times `windowSize`). */
  lemma {:induction false} IntervalEndingAtGrant(l: Proper, before: seq<Call>, c: Call, from: int)
    requires TimesInOrder(before + [c]) && NonNegativeUnits(before + [c])
    requires Granted(l, before, c) && c.time - l.windowSize <= from <= c.time
    ensures var w := WindowsAfter(l, before + [c])[c.key];
            UnitsIn(LogOf(l, before + [c], c.key), from, c.time) * l.windowSize
            <= l.rate * l.windowSize + w.prevCount * (c.time % l.windowSize)
  {
    var calls := before + [c];
    assert calls[..|before|] == before;
    var log, size := LogOf(l, calls, c.key), l.windowSize;
    var w := WindowsAfter(l, calls)[c.key];
    CountersAreTheLog(l, calls, c.key);
    LogUnits(l, calls, c.key);
    var k := Index(l, c.time);
    TruncateIsIndex(l, c.time);
    assert (k - 1) * size == k * size - size;
    IndexAtLeast(l, from, k - 1);
    IntervalWithinTwoWindows(l, log, from, c.time, k);
    var units, seen := UnitsIn(log, from, c.time), w.prevCount + w.currCount;
    MulMonotone(units, seen, size);
    var rotated, e := Rotated(l, WindowFor(l, WindowsAfter(l, before), c.key, c.time), c.time), c.time % size;
    Distribute(rotated.prevCount, rotated.currCount, c.n, size, e);
  }

  lemma Distribute(prev: int, curr: int, n: int, size: int, e: int)
    ensures (prev + (curr + n)) * size == (prev * (size - e) + curr * size + n * size) + prev * e
  {
    assert prev * (size - e) + prev * e == prev * size;
  }

  /** The quotient, rounded up. */
  function Ceiling(a: nat, d: int): int
    requires d > 0
  {
    (a + d - 1) / d
  }

  lemma CeilingBounds(a: nat, d: int)
    requires d > 0
    ensures var q := Ceiling(a, d); (q - 1) * d < a <= q * d && q <= a && (a > 0 ==> 1 <= q)
  {
    var q, r := Ceiling(a, d), (a + d - 1) % d;
    assert a + d - 1 == q * d + r && (q - 1) * d == q * d - d;
    if a > 0 && q < 1 {
      MulMonotone(q, 0, d);
    }
    if q > a {
      MulMonotone(a, q - 1, d);
      MulMonotone(1, d, a);
    }
  }

  /** The most units that one interval of length `windowSize` can see: with a nanosecond clock the
      previous window keeps a weight of at least `1 / windowSize` until it is over. */
  function Peak(l: Proper): int
    requires l.rate >= 1
  {
    2 * l.rate - Ceiling(l.rate, l.windowSize)
  }

  lemma TwiceLessCeiling(units: int, rate: int, q: int, size: int)
    requires size > 0 && (q - 1) * size < rate && units * size <= 2 * (rate * size) - rate
    ensures units <= 2 * rate - q
  {
    assert (2 * rate - (q - 1)) * size == 2 * (rate * size) - (q - 1) * size;
    if units > 2 * rate - q {
      MulMonotone(2 * rate - (q - 1), units, size);
    }
  }

  lemma WeightedLoss(rate: nat, prev: int, e: int, size: int)
    requires prev <= rate && 0 <= e < size
    ensures prev * e <= rate * size - rate
  {
    MulMonotone(prev, rate, e);
    MulMonotone(e, size - 1, rate);
    assert e * rate == rate * e && (size - 1) * rate == rate * size - rate;
  }

  lemma AtMostPeak(l: Proper, units: int, prev: int, e: int)
    requires l.rate >= 1 && 0 <= prev <= l.rate && 0 <= e < l.windowSize
    requires units * l.windowSize <= l.rate * l.windowSize + prev * e
    ensures units <= Peak(l)
  {
    CeilingBounds(l.rate, l.windowSize);
    WeightedLoss(l.rate, prev, e, l.windowSize);
    TwiceLessCeiling(units, l.rate, Ceiling(l.rate, l.windowSize), l.windowSize);
  }

  /** No interval of length at most `windowSize` of any run sees more than `2 * rate` units less the
      ceiling of `rate / windowSize`, so always less than twice the rate. */
  lemma {:induction false} IntervalBound(l: Proper, calls: seq<Call>, key: string, from: int, to: int)
    requires l.rate >= 1 && TimesInOrder(calls) && NonNegativeUnits(calls)
    requires to - l.windowSize <= from <= to
    ensures UnitsIn(LogOf(l, calls, key), from, to) <= Peak(l) <= 2 * l.rate - 1
  {
    CeilingBounds(l.rate, l.windowSize);
    if calls != [] {
      var before, c := calls[..|calls| - 1], calls[|calls| - 1];
      assert calls == before + [c];
      IntervalBound(l, before, key, from, to);
      var log := LogOf(l, calls, key);
      if c.key == key {
        assert log[..|log| - 1] == LogOf(l, before, key);
        if Granted(l, before, c) && from <= c.time <= to {
          IntervalEndingAtGrant(l, before, c, from);
          LogTimes(l, calls, key);
          SameUnitsUpTo(log, from, c.time, to);
          CountsInRange(l, calls, key);
          var w := WindowsAfter(l, calls)[key];
          AtMostPeak(l, UnitsIn(log, from, to), w.prevCount, c.time % l.windowSize);
        }
      }
    }
  }

  lemma {:induction false} SameUnitsUpTo(log: seq<Entry>, from: int, last: int, to: int)
    requires last <= to && forall i | 0 <= i < |log| :: log[i].time <= last
    ensures UnitsIn(log, from, last) == UnitsIn(log, from, to)
  {
    if log != [] {
      SameUnitsUpTo(log[..|log| - 1], from, last, to);
    }
  }

  /** The bound is reached: `rate` units at the end of one window and as many as possible at the end of
      the next lie in one interval of length `windowSize`. */
  lemma IntervalBoundIsTight(l: Proper, key: string) returns (calls: seq<Call>)
    requires l.rate >= 1
    ensures TimesInOrder(calls) && NonNegativeUnits(calls)
    ensures UnitsIn(LogOf(l, calls, key), l.windowSize - 1, 2 * l.windowSize - 1) == Peak(l)
  {
    var size, rate, more := l.windowSize, l.rate, Peak(l) - l.rate;
    CeilingBounds(rate, size);
    var c, d := Call(key, size - 1, rate), Call(key, 2 * size - 1, more);
    calls := [c, d];
    assert calls[..1] == [c] && [c][..0] == [];
    FirstGrant(l, key);
    SecondGrant(l, key);
    assert WindowsAfter(l, [c]) == AfterAllowN(l, map[], key, c.time, rate);
    assert LogOf(l, [c], key) == [] + [Entry(c.time, rate)];
    var log := [Entry(c.time, rate), Entry(d.time, more)];
    assert LogOf(l, calls, key) == [Entry(c.time, rate)] + [Entry(d.time, more)];
    assert log[..1] == [Entry(c.time, rate)] && log[..1][..0] == [];
    assert UnitsIn(log[..1], c.time, d.time) == UnitsIn([], c.time, d.time) + rate;
  }

  lemma FirstGrant(l: Proper, key: string)
    requires l.rate >= 1
    ensures Allows(l, map[], key, l.windowSize - 1, l.rate)
    ensures AfterAllowN(l, map[], key, l.windowSize - 1, l.rate) == map[key := Window(0, l.rate, 0)]
  {
    LastOffset(l.windowSize, 0);
    assert Load(l, map[], key, l.windowSize - 1) == 0;
  }

  lemma RoomAtTheEnd(rate: nat, size: int)
    requires size > 0
    ensures rate + (rate - Ceiling(rate, size)) * size <= rate * size
  {
    CeilingBounds(rate, size);
    assert (rate - Ceiling(rate, size)) * size == rate * size - Ceiling(rate, size) * size;
  }

  lemma SecondGrant(l: Proper, key: string)
    requires l.rate >= 1
    ensures Allows(l, map[key := Window(0, l.rate, 0)], key, 2 * l.windowSize - 1, Peak(l) - l.rate)
  {
    LastOffset(l.windowSize, 1);
    assert Rotated(l, Window(0, l.rate, 0), 2 * l.windowSize - 1) == Window(l.rate, 0, l.windowSize);
    assert Load(l, map[key := Window(0, l.rate, 0)], key, 2 * l.windowSize - 1) == l.rate * 1;
    RoomAtTheEnd(l.rate, l.windowSize);
  }

  lemma LastOffset(size: int, k: int)
    requires size > 0 && 0 <= k <= 1
    ensures ((k + 1) * size - 1) % size == size - 1
  {
    QuotientIs((k + 1) * size - 1, size, k, size - 1);
  }

  ghost predicate BoundsEveryInterval(l: Proper, bound: int) {
    forall calls, key, from, to | TimesInOrder(calls) && NonNegativeUnits(calls) && to - l.windowSize <= from <= to ::
      UnitsIn(LogOf(l, calls, key), from, to) <= bound
  }

  /** A number bounds every interval of every run exactly when it is at least the peak. */
  lemma PeakIsLeastBound(l: Proper, bound: int)
    requires l.rate >= 1
    ensures BoundsEveryInterval(l, bound) <==> bound >= Peak(l)
  {
    if bound >= Peak(l) {
      forall calls, key, from, to | TimesInOrder(calls) && NonNegativeUnits(calls) && to - l.windowSize <= from <= to
        ensures UnitsIn(LogOf(l, calls, key), from, to) <= bound
      {
        IntervalBound(l, calls, key, from, to);
      }
    } else {
      var calls := IntervalBoundIsTight(l, "");
    }
  }

  /** The configured rate alone is a bound exactly for a rate of one, or for windows of one nanosecond. */
  lemma RateIsBoundIff(l: Proper)
    requires l.rate >= 1
    ensures BoundsEveryInterval(l, l.rate) <==> l.rate == 1 || l.windowSize == 1
  {
    PeakIsLeastBound(l, l.rate);
    CeilingBounds(l.rate, l.windowSize);
    if l.windowSize >= 2 {
      MulMonotone(2, l.windowSize, Ceiling(l.rate, l.windowSize) - 1);
    }
  }

  // ---------------------------------------------------------------- decay

  /** The weighted count of a window with non-negative counts only falls as time passes: within a
      window, across one rotation, and across a reset. */
  lemma WindowLoadDecays(l: Proper, w: Window, k: int, t: int, t': int)
    requires w.prevCount >= 0 && w.currCount >= 0
    requires w.currWindow == k * l.windowSize && k <= Index(l, t) && t <= t'
    ensures Load(l, map["" := w], "", t') <= Load(l, map["" := w], "", t)
  {
    var size := l.windowSize;
    var i, j := Index(l, t), Index(l, t');
    IndexMonotone(l, t, t');
    RotatedByIndex(l, w, k, t);
    RotatedByIndex(l, w, k, t');
    TruncateIsIndex(l, t);
    TruncateIsIndex(l, t');
    var r, r' := Rotated(l, w, t), Rotated(l, w, t');
    var left, left' := size - t % size, size - t' % size;
    MulMonotone(0, r.prevCount, left);
    if i == j {
      MulMonotoneLeft(r.prevCount, left', left);
    } else {
      MulMonotone(0, w.currCount, size);
      MulMonotoneLeft(w.currCount, left', size);
      assert r'.currCount == 0 && (r'.prevCount == 0 || (r'.prevCount == w.currCount && r.currCount == w.currCount));
    }
  }

  lemma MulMonotoneLeft(n: int, a: int, b: int)
    requires n >= 0 && a <= b
    ensures n * a <= n * b
  {
    assert n * b - n * a == n * (b - a);
    MulMonotone(0, n, b - a);
  }

  lemma LoadOfOneKey(l: Proper, ws: Windows, key: string, now: int)
    requires key in ws
    ensures Load(l, ws, key, now) == Load(l, map["" := ws[key]], "", now)
  {}

  /** A refused call leaves the key's later weighted counts as they were: it only rotates. */
  lemma RefusalKeepsLoad(l: Proper, ws: Windows, key: string, k: int, u: int, n: int, t: int)
    requires key in ws ==> ws[key].currWindow == k * l.windowSize && k <= Index(l, u)
    requires u <= t && !Allows(l, ws, key, u, n)
    ensures Load(l, AfterAllowN(l, ws, key, u, n), key, t) == Load(l, ws, key, t)
  {
    TruncateIsIndex(l, u);
    TruncateIsIndex(l, t);
    IndexMonotone(l, u, t);
    var w := Rotated(l, WindowFor(l, ws, key, u), u);
    RotatedByIndex(l, w, Index(l, u), t) by {
      if key in ws {
        RotatedByIndex(l, ws[key], k, u);
      }
    }
    if key in ws {
      RotatedByIndex(l, ws[key], k, u);
      RotatedByIndex(l, ws[key], k, t);
    }
  }

  lemma PrefixInOrder(calls: seq<Call>, c: Call)
    requires TimesInOrder(calls + [c])
    ensures TimesInOrder(calls) && (calls != [] ==> calls[|calls| - 1].time <= c.time)
  {
    var whole := calls + [c];
    assert whole[|calls|] == c && forall i | 0 <= i < |calls| :: calls[i] == whole[i];
  }

  /** Where the key's stored window lies. */
  lemma WindowIsAligned(l: Proper, calls: seq<Call>, key: string, t: int) returns (k: int)
    requires TimesInOrder(calls) && (calls != [] ==> calls[|calls| - 1].time <= t)
    ensures key in WindowsAfter(l, calls) ==>
              WindowsAfter(l, calls)[key].currWindow == k * l.windowSize && k <= Index(l, t)
  {
    CountersAreTheLog(l, calls, key);
    LogTimes(l, calls, key);
    var log := LogOf(l, calls, key);
    k := 0;
    if log != [] {
      k := Index(l, log[|log| - 1].time);
      IndexMonotone(l, log[|log| - 1].time, t);
    }
  }

  lemma RefusedCallKeepsLoad(l: Proper, calls: seq<Call>, c: Call, key: string, t: int)
    requires TimesInOrder(calls + [c]) && c.time <= t
    requires c.key == key ==> !Granted(l, calls, c)
    ensures Load(l, WindowsAfter(l, calls + [c]), key, t) == Load(l, WindowsAfter(l, calls), key, t)
  {
    assert (calls + [c])[..|calls|] == calls;
    if c.key == key {
      PrefixInOrder(calls, c);
      var k := WindowIsAligned(l, calls, key, c.time);
      RefusalKeepsLoad(l, WindowsAfter(l, calls), key, k, c.time, c.n, t);
    }
  }

  /** A key that was never asked for carries no load. */
  lemma FreshKeyLoad(l: Proper, ws: Windows, key: string, now: int)
    requires key !in ws
    ensures Load(l, ws, key, now) == 0
  {}

  lemma StoredLoadDecays(l: Proper, calls: seq<Call>, key: string, t: int, t': int)
    requires TimesInOrder(calls) && NonNegativeUnits(calls) && l.rate >= 0
    requires (calls != [] ==> calls[|calls| - 1].time <= t) && t <= t'
    ensures Load(l, WindowsAfter(l, calls), key, t') <= Load(l, WindowsAfter(l, calls), key, t)
  {
    var ws := WindowsAfter(l, calls);
    if key in ws {
      CountsInRange(l, calls, key);
      var k := WindowIsAligned(l, calls, key, t);
      WindowLoadDecays(l, ws[key], k, t, t');
      LoadOfOneKey(l, ws, key, t);
      LoadOfOneKey(l, ws, key, t');
    } else {
      FreshKeyLoad(l, ws, key, t);
      FreshKeyLoad(l, ws, key, t');
    }
  }

  /** Whatever refused calls of the key are made in between, its weighted count at `t'` is at most the one
      at an earlier `t`. */
  lemma {:induction false} LoadOnlyDecays(l: Proper, calls: seq<Call>, later: seq<Call>, key: string, t: int, t': int)
    requires TimesInOrder(calls + later) && NonNegativeUnits(calls) && l.rate >= 0
    requires calls != [] ==> calls[|calls| - 1].time <= t
    requires t <= t' && forall i | 0 <= i < |later| :: later[i].time <= t'
    requires forall i | 0 <= i < |later| && later[i].key == key :: !Granted(l, calls + later[..i], later[i])
    ensures Load(l, WindowsAfter(l, calls + later), key, t') <= Load(l, WindowsAfter(l, calls), key, t)
  {
    if later == [] {
      assert calls + later == calls;
      StoredLoadDecays(l, calls, key, t, t');
    } else {
      var rest, c := later[..|later| - 1], later[|later| - 1];
      assert calls + later == (calls + rest) + [c];
      PrefixInOrder(calls + rest, c);
      assert forall i | 0 <= i < |rest| :: later[..i] == rest[..i];
      LoadOnlyDecays(l, calls, rest, key, t, t');
      RefusedCallKeepsLoad(l, calls + rest, c, key, t');
    }
  }

  /** So what would be admitted now would still be admitted later. */
  lemma StaysAdmissible(l: Proper, calls: seq<Call>, later: seq<Call>, key: string, t: int, t': int, n: int)
    requires TimesInOrder(calls + later) && NonNegativeUnits(calls) && l.rate >= 0
    requires calls != [] ==> calls[|calls| - 1].time <= t
    requires t <= t' && forall i | 0 <= i < |later| :: later[i].time <= t'
    requires forall i | 0 <= i < |later| && later[i].key == key :: !Granted(l, calls + later[..i], later[i])
    ensures Granted(l, calls, Call(key, t, n)) ==> Granted(l, calls + later, Call(key, t', n))
  {
    LoadOnlyDecays(l, calls, later, key, t, t');
  }

  // ---------------------------------------------------------------- windows of no length

  /** Without a length every instant is a window of its own, and no preceding window counts. */
  predicate TracksInstant(w: Window, log: seq<Entry>) {
    log != [] && var t := log[|log| - 1].time; w == Window(0, UnitsIn(log, t, t), t)
  }

  lemma InstantStep(l: Limits, ws: Windows, log: seq<Entry>, key: string, now: int, n: int)
    requires l.windowSize <= 0 && if key in ws then TracksInstant(ws[key], log) else log == []
    requires forall i | 0 <= i < |log| :: log[i].time <= log[|log| - 1].time <= now
    ensures var units := if Allows(l, ws, key, now, n) then n else 0;
            TracksInstant(AfterAllowN(l, ws, key, now, n)[key], log + [Entry(now, units)])
  {
    var e := Entry(now, if Allows(l, ws, key, now, n) then n else 0);
    assert (log + [e])[..|log|] == log;
    if log != [] && log[|log| - 1].time < now {
      NothingAfter(log, log[|log| - 1].time, now);
    }
  }

  lemma {:induction false} InstantCounters(l: Limits, calls: seq<Call>, key: string)
    requires l.windowSize <= 0 && TimesInOrder(calls)
    ensures if key in WindowsAfter(l, calls) then TracksInstant(WindowsAfter(l, calls)[key], LogOf(l, calls, key))
            else LogOf(l, calls, key) == []
  {
    if calls != [] {
      var before, c := calls[..|calls| - 1], calls[|calls| - 1];
      InstantCounters(l, before, key);
      if c.key == key {
        LogTimes(l, before, key);
        InstantStep(l, WindowsAfter(l, before), LogOf(l, before, key), key, c.time, c.n);
      }
    }
  }

  lemma {:induction false} NothingAfter(log: seq<Entry>, last: int, now: int)
    requires last < now && forall i | 0 <= i < |log| :: log[i].time <= last
    ensures UnitsIn(log, now, now) == 0
  {
    if log != [] {
      NothingAfter(log[..|log| - 1], last, now);
    }
  }

  /** The decision for window sizes of zero and less: an empty window admits nothing, and a negative one bounds
      the units of each instant by the rate. */
  lemma InstantWindowIsExact(l: Limits, calls: seq<Call>, key: string, now: int, n: int)
    requires l.windowSize <= 0 && TimesInOrder(calls) && (calls != [] ==> calls[|calls| - 1].time <= now)
    ensures Granted(l, calls, Call(key, now, n)) <==>
              l.windowSize != 0 && UnitsIn(LogOf(l, calls, key), now, now) + n <= l.rate
  {
    InstantCounters(l, calls, key);
    var log := LogOf(l, calls, key);
    if log != [] && log[|log| - 1].time < now {
      LogTimes(l, calls, key);
      NothingAfter(log, log[|log| - 1].time, now);
    }
  }

  lemma {:induction false} NothingIsGranted(l: Limits, calls: seq<Call>, key: string)
    requires l.windowSize <= 0 && l.rate <= 0 && NonNegativeUnits(calls)
    ensures key in WindowsAfter(l, calls) ==>
              WindowsAfter(l, calls)[key].prevCount == WindowsAfter(l, calls)[key].currCount == 0
  {
    if calls != [] {
      NothingIsGranted(l, calls[..|calls| - 1], key);
    }
  }

  /** So a limiter built with a non-negative rate and no seconds, or fewer, never grants a unit, whatever the
      times. */
  lemma NonPositiveWindowRefuses(requestsPerSecond: nat, windowSeconds: int, calls: seq<Call>, c: Call)
    requires windowSeconds <= 0 && NonNegativeUnits(calls) && c.n >= 1
    ensures !Granted(Limits(requestsPerSecond * windowSeconds, windowSeconds * SECOND), calls, c)
  {
    var l := Limits(requestsPerSecond * windowSeconds, windowSeconds * SECOND);
    MulMonotone(windowSeconds, 0, requestsPerSecond);
    NothingIsGranted(l, calls, c.key);
  }
}
