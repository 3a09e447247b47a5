/** What a token bucket's two numbers stand for: the whole admission log of its key. */
module TokenBucketRuns {
  import opened TokenBuckets

  /** One `AllowN(key, n)` made at `time`. */
  datatype Call = Call(key: string, time: real, n: int)

  /** A call of one key together with the units it was granted (zero when refused). */
  datatype Entry = Entry(time: real, units: int)

  function BucketsAfter(l: Limits, calls: seq<Call>): Buckets {
    if calls == [] then map[]
    else
      var c := calls[|calls| - 1];
      AfterAllowN(l, BucketsAfter(l, calls[..|calls| - 1]), c.key, c.time, c.n)
  }

  predicate Granted(l: Limits, before: seq<Call>, c: Call) {
    Allows(l, BucketsAfter(l, before), c.key, c.time, c.n)
  }

  function LogOf(l: Limits, calls: seq<Call>, key: string): seq<Entry> {
    if calls == [] then []
    else
      var before, c := calls[..|calls| - 1], calls[|calls| - 1];
      if c.key != key then LogOf(l, before, key)
      else LogOf(l, before, key) + [Entry(c.time, if Granted(l, before, c) then c.n else 0)]
  }

  function SumFrom(log: seq<Entry>, j: nat): int
    requires j <= |log|
    decreases |log| - j
  {
    if j == |log| then 0 else log[j].units + SumFrom(log, j + 1)
  }

  /** The most units that a window of this length may carry. */
  function Allowance(l: Limits, length: real): real {
    l.burst as real + Gained(l, length)
  }

  /** What the window from call `j` up to `t` would still let through. */
  function Room(l: Limits, log: seq<Entry>, j: nat, t: real): real
    requires j < |log|
  {
    Allowance(l, t - log[j].time) - SumFrom(log, j) as real
  }

  /** The stored token count is the tightest room over all windows that end now. */
  ghost predicate Tracks(l: Limits, b: Bucket, log: seq<Entry>) {
    && log != []
    && b.lastCheck == log[|log| - 1].time
    && (forall j | 0 <= j < |log| :: b.tokens <= Room(l, log, j, b.lastCheck))
    && (exists j | 0 <= j < |log| :: b.tokens == Room(l, log, j, b.lastCheck))
  }

  lemma {:induction false} SumFromAppend(log: seq<Entry>, e: Entry, j: nat)
    requires j <= |log|
    ensures SumFrom(log + [e], j) == SumFrom(log, j) + e.units
    decreases |log| - j
  {
    if j == |log| {
      assert SumFrom(log + [e], j + 1) == 0;
    } else {
      SumFromAppend(log, e, j + 1);
    }
  }

  lemma GainedAdds(l: Limits, a: real, b: real)
    ensures Gained(l, a + b) == Gained(l, a) + Gained(l, b)
    ensures Gained(l, 0.0) == 0.0
  {}

  lemma RoomAppend(l: Limits, log: seq<Entry>, e: Entry, j: nat, t: real)
    requires j < |log|
    ensures Room(l, log + [e], j, e.time) == Room(l, log, j, t) + Gained(l, e.time - t) - e.units as real
  {
    SumFromAppend(log, e, j);
    GainedAdds(l, e.time - t, t - log[j].time);
  }

  lemma RoomLast(l: Limits, log: seq<Entry>, e: Entry)
    ensures Room(l, log + [e], |log|, e.time) == l.burst as real - e.units as real
  {
    SumFromAppend(log, e, |log|);
    GainedAdds(l, 0.0, 0.0);
  }

  /** One call keeps the correspondence; `refilled` is the tightest room before the decision. */
  lemma {:induction false} TracksStep(l: Limits, bs: Buckets, log: seq<Entry>, key: string, now: real, n: int)
    requires if key in bs then Tracks(l, bs[key], log) else log == []
    ensures var units := if Allows(l, bs, key, now, n) then n else 0;
            Tracks(l, AfterAllowN(l, bs, key, now, n)[key], log + [Entry(now, units)])
  {
    var units := if Allows(l, bs, key, now, n) then n else 0;
    var after, e := AfterAllowN(l, bs, key, now, n)[key], Entry(now, units);
    var log' := log + [e];
    RoomLast(l, log, e);
    forall j | 0 <= j < |log'|
      ensures after.tokens <= Room(l, log', j, now)
    {
      if j < |log| {
        RoomAppend(l, log, e, j, bs[key].lastCheck);
      }
    }
    if key !in bs || after.tokens == l.burst as real - units as real {
      assert after.tokens == Room(l, log', |log|, now);
    } else {
      var j :| 0 <= j < |log| && bs[key].tokens == Room(l, log, j, bs[key].lastCheck);
      RoomAppend(l, log, e, j, bs[key].lastCheck);
      assert after.tokens == Room(l, log', j, now);
    }
  }

  /** On every run, for every key: the bucket is the admission log in two numbers. */
  lemma {:induction false} BucketTracksLog(l: Limits, calls: seq<Call>, key: string)
    ensures key in BucketsAfter(l, calls) <==> LogOf(l, calls, key) != []
    ensures key in BucketsAfter(l, calls) ==> Tracks(l, BucketsAfter(l, calls)[key], LogOf(l, calls, key))
  {
    if calls != [] {
      var before, c := calls[..|calls| - 1], calls[|calls| - 1];
      BucketTracksLog(l, before, key);
      if c.key == key {
        TracksStep(l, BucketsAfter(l, before), LogOf(l, before, key), key, c.time, c.n);
      }
    }
  }

  /** Granting `n` at `now` keeps every window that starts at an earlier or the current call
      of the key within `burst + rate * length`. */
  ghost predicate FitsEveryWindow(l: Limits, log: seq<Entry>, now: real, n: int) {
    var asked := log + [Entry(now, 0)];
    forall j | 0 <= j < |asked| :: n as real <= Room(l, asked, j, now)
  }

  /** The token bucket is the maximal limiter: it grants a call exactly when no window of the key's
      log would be overfilled. No sign, order or size of `rate`, `burst`, `n` or the times is assumed. */
  lemma {:induction false} TokenBucketIsExact(l: Limits, calls: seq<Call>, key: string, now: real, n: int)
    ensures Granted(l, calls, Call(key, now, n)) <==> FitsEveryWindow(l, LogOf(l, calls, key), now, n)
  {
    var bs, log := BucketsAfter(l, calls), LogOf(l, calls, key);
    BucketTracksLog(l, calls, key);
    RefilledIsTightest(l, bs, log, key, now);
  }

  lemma RefilledIsTightest(l: Limits, bs: Buckets, log: seq<Entry>, key: string, now: real)
    requires if key in bs then Tracks(l, bs[key], log) else log == []
    ensures Tracks(l, Bucket(Refilled(l, BucketFor(l, bs, key, now), now), now), log + [Entry(now, 0)])
  {
    TracksStep(l, bs, log, key, now, 0);
  }

  // ---------------------------------------------------------------- window bounds

  predicate Ordered(calls: seq<Call>) {
    && (forall i | 0 <= i < |calls| :: calls[i].n >= 0)
    && (forall i, j | 0 <= i < j < |calls| :: calls[i].time <= calls[j].time)
  }

  lemma ProductNonNegative(a: real, b: real)
    requires a >= 0.0 && b >= 0.0
    ensures a * b >= 0.0
  {}

  lemma ProductMonotone(r: real, a: real, b: real)
    requires r >= 0.0 && a <= b
    ensures r * a <= r * b
  {
    ProductNonNegative(r, b - a);
    assert r * (b - a) == r * b - r * a;
  }

  lemma GainedMonotone(l: Limits, a: real, b: real)
    requires Sound(l) && a <= b
    ensures Gained(l, a) <= Gained(l, b) && Gained(l, 0.0) == 0.0
  {
    ProductMonotone(l.rate, a, b);
  }

  predicate Sound(l: Limits) {
    l.rate >= 0.0 && l.burst >= 0
  }

  lemma BoundIsNonNegative(l: Limits, from: real, to: real)
    requires Sound(l) && from <= to
    ensures Allowance(l, to - from) >= 0.0
  {
    GainedMonotone(l, 0.0, to - from);
  }

  /** Units granted at times in `[from, to]`. */
  function UnitsIn(log: seq<Entry>, from: real, to: real): int {
    if log == [] then 0
    else
      var e := log[|log| - 1];
      UnitsIn(log[..|log| - 1], from, to) + (if from <= e.time <= to then e.units else 0)
  }

  predicate LogOrdered(log: seq<Entry>) {
    && (forall i | 0 <= i < |log| :: log[i].units >= 0)
    && (forall i, j | 0 <= i < j < |log| :: log[i].time <= log[j].time)
  }

  lemma {:induction false} LogIsOrdered(l: Limits, calls: seq<Call>, key: string)
    requires Ordered(calls)
    ensures LogOrdered(LogOf(l, calls, key))
    ensures LogOf(l, calls, key) != [] ==> calls != [] && LogOf(l, calls, key)[|LogOf(l, calls, key)| - 1].time <= calls[|calls| - 1].time
  {
    if calls != [] {
      LogIsOrdered(l, calls[..|calls| - 1], key);
    }
  }

  lemma RefilledInRange(l: Limits, b: Bucket, now: real)
    requires Sound(l) && b.tokens >= 0.0 && b.lastCheck <= now
    ensures 0.0 <= Refilled(l, b, now) <= l.burst as real
  {
    GainedMonotone(l, 0.0, now - b.lastCheck);
  }

  lemma RangeStep(l: Limits, bs: Buckets, key: string, now: real, n: int)
    requires Sound(l) && n >= 0
    requires key in bs ==> 0.0 <= bs[key].tokens <= l.burst as real && bs[key].lastCheck <= now
    ensures 0.0 <= AfterAllowN(l, bs, key, now, n)[key].tokens <= l.burst as real
  {
    RefilledInRange(l, BucketFor(l, bs, key, now), now);
  }

  /** Tokens stay in `[0, burst]`. */
  lemma {:induction false} TokensInRange(l: Limits, calls: seq<Call>, key: string)
    requires Sound(l) && Ordered(calls)
    ensures key in BucketsAfter(l, calls) ==> 0.0 <= BucketsAfter(l, calls)[key].tokens <= l.burst as real
    ensures key in BucketsAfter(l, calls) ==> calls != [] && BucketsAfter(l, calls)[key].lastCheck <= calls[|calls| - 1].time
  {
    if calls != [] {
      var before, c := calls[..|calls| - 1], calls[|calls| - 1];
      TokensInRange(l, before, key);
      if c.key == key {
        RangeStep(l, BucketsAfter(l, before), key, c.time, c.n);
      }
    }
  }

  lemma OrderedPrefix(log: seq<Entry>, e: Entry)
    requires LogOrdered(log + [e])
    ensures LogOrdered(log)
    ensures forall i | 0 <= i < |log| :: log[i].time <= e.time
  {
    var whole := log + [e];
    forall i | 0 <= i < |log|
      ensures log[i].units >= 0 && log[i].time <= e.time
    {
      assert whole[i] == log[i] && whole[|log|] == e;
    }
    forall i, j | 0 <= i < j < |log|
      ensures log[i].time <= log[j].time
    {
      assert whole[i] == log[i] && whole[j] == log[j];
    }
  }

  lemma UnitsInAppend(log: seq<Entry>, e: Entry, from: real, to: real)
    ensures UnitsIn(log + [e], from, to) == UnitsIn(log, from, to) + if from <= e.time <= to then e.units else 0
  {
    assert (log + [e])[..|log|] == log;
  }

  /** The log's tail from the first entry not earlier than `from` carries all units in `[from, last]`. */
  lemma {:induction false} UnitsInIsTail(log: seq<Entry>, from: real, to: real) returns (j: nat)
    requires LogOrdered(log) && (log != [] ==> log[|log| - 1].time <= to)
    ensures j <= |log| && UnitsIn(log, from, to) == SumFrom(log, j)
    ensures j < |log| ==> log[j].time >= from
    decreases |log|
  {
    j := |log|;
    if log != [] {
      var before, e := log[..|log| - 1], log[|log| - 1];
      assert log == before + [e];
      OrderedPrefix(before, e);
      UnitsInAppend(before, e, from, to);
      if e.time < from {
        UnitsBeforeFrom(before, from, to);
      } else {
        j := UnitsInIsTail(before, from, to);
        SumFromAppend(before, e, j);
      }
    }
  }

  lemma {:induction false} UnitsBeforeFrom(log: seq<Entry>, from: real, to: real)
    requires forall i | 0 <= i < |log| :: log[i].time < from
    ensures UnitsIn(log, from, to) == 0
  {
    if log != [] {
      UnitsBeforeFrom(log[..|log| - 1], from, to);
    }
  }

  /** No interval `[from, to]` of any run, whatever its ends, sees more than
      `burst + rate * (to - from)` units granted to one key. */
  lemma {:induction false} WindowBound(l: Limits, calls: seq<Call>, key: string, from: real, to: real)
    requires Sound(l) && Ordered(calls) && from <= to
    ensures UnitsIn(LogOf(l, calls, key), from, to) as real <= Allowance(l, to - from)
  {
    if calls == [] {
      BoundIsNonNegative(l, from, to);
      assert UnitsIn(LogOf(l, calls, key), from, to) == 0;
    } else {
      var before, c := calls[..|calls| - 1], calls[|calls| - 1];
      WindowBound(l, before, key, from, to);
      var log := LogOf(l, calls, key);
      if c.key == key {
        assert log[..|log| - 1] == LogOf(l, before, key);
        if from <= c.time <= to {
          LogIsOrdered(l, calls, key);
          var j := UnitsInIsTail(log, from, to);
          BucketTracksLog(l, calls, key);
          TokensInRange(l, calls, key);
          TailFits(l, BucketsAfter(l, calls)[key], log, j, from, to);
        }
      }
    }
  }

  lemma TailFits(l: Limits, b: Bucket, log: seq<Entry>, j: nat, from: real, to: real)
    requires Sound(l) && Tracks(l, b, log) && b.tokens >= 0.0 && from <= b.lastCheck <= to
    requires j <= |log| && (j < |log| ==> log[j].time >= from)
    ensures SumFrom(log, j) as real <= Allowance(l, to - from)
  {
    BoundIsNonNegative(l, from, to);
    if j < |log| {
      GainedMonotone(l, b.lastCheck - log[j].time, to - from);
      assert Room(l, log, j, b.lastCheck) >= 0.0;
    } else {
      assert SumFrom(log, j) == 0;
    }
  }
}
