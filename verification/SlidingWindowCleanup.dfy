/** When deleting idle windows can be seen in the sliding-window limiter's answers. */
module SlidingWindowCleanup {
  import opened Common
  import opened SlidingWindows
  import opened SlidingWindowRuns

  /** A request, or one tick of the cleanup goroutine. */
  datatype Event = Ask(key: string, time: int, n: int) | Tick(time: int)

  predicate Legal(clock: int, es: seq<Event>)
    decreases |es|
  {
    es == [] || (clock <= es[0].time && Legal(es[0].time, es[1..]))
  }

  function Answers(l: Proper, ws: Windows, es: seq<Event>): seq<bool>
    decreases |es|
  {
    if es == [] then []
    else match es[0]
      case Ask(key, time, n) => [Allows(l, ws, key, time, n)] + Answers(l, AfterAllowN(l, ws, key, time, n), es[1..])
      case Tick(time) => Answers(l, AfterCleanup(ws, time), es[1..])
  }

  function WithoutTicks(es: seq<Event>): seq<Event> {
    if es == [] then []
    else if es[0].Tick? then WithoutTicks(es[1..])
    else [es[0]] + WithoutTicks(es[1..])
  }

  ghost predicate Invisible(l: Proper, es: seq<Event>) {
    Answers(l, map[], es) == Answers(l, map[], WithoutTicks(es))
  }

  ghost predicate AlwaysInvisible(l: Proper, clock: int) {
    forall es | Legal(clock, es) :: Invisible(l, es)
  }

  /** `swept` is `kept` minus some keys whose window lies two or more windows back. */
  ghost predicate Similar(l: Proper, swept: Windows, kept: Windows, clock: int) {
    && (forall key | key in swept :: key in kept && swept[key] == kept[key])
    && (forall key | key in kept ::
          var k := Index(l, kept[key].currWindow);
          && kept[key].currWindow == k * l.windowSize
          && k <= Index(l, clock)
          && (key !in swept ==> k + 2 <= Index(l, clock)))
  }

  lemma SimilarLater(l: Proper, swept: Windows, kept: Windows, clock: int, now: int)
    requires Similar(l, swept, kept, clock) && clock <= now
    ensures Similar(l, swept, kept, now)
  {
    IndexMonotone(l, clock, now);
  }

  lemma IdleIsTwoBack(l: Proper, w: Window, k: int, now: int)
    requires 2 * l.windowSize <= IDLE_LIMIT && w.currWindow == k * l.windowSize && Idle(w, now)
    ensures k + 2 <= Index(l, now)
  {
    assert (k + 2) * l.windowSize == k * l.windowSize + 2 * l.windowSize;
    IndexAtLeast(l, now, k + 2);
  }

  lemma SimilarAfterTick(l: Proper, swept: Windows, kept: Windows, now: int)
    requires 2 * l.windowSize <= IDLE_LIMIT && Similar(l, swept, kept, now)
    ensures Similar(l, AfterCleanup(swept, now), kept, now)
  {
    forall key | key in kept && key !in AfterCleanup(swept, now)
      ensures Index(l, kept[key].currWindow) + 2 <= Index(l, now)
    {
      if key in swept {
        IdleIsTwoBack(l, kept[key], Index(l, kept[key].currWindow), now);
      }
    }
  }

  lemma SimilarAfterAsk(l: Proper, swept: Windows, kept: Windows, key: string, now: int, n: int)
    requires Similar(l, swept, kept, now)
    ensures Allows(l, swept, key, now, n) == Allows(l, kept, key, now, n)
    ensures Similar(l, AfterAllowN(l, swept, key, now, n), AfterAllowN(l, kept, key, now, n), now)
  {
    var j := Index(l, now);
    TruncateIsIndex(l, now);
    IndexOfMultiple(l, j);
    if key in kept {
      RotatedByIndex(l, kept[key], Index(l, kept[key].currWindow), now);
    }
    assert Rotated(l, WindowFor(l, swept, key, now), now) == Rotated(l, WindowFor(l, kept, key, now), now);
  }

  lemma IndexOfMultiple(l: Proper, k: int)
    ensures Index(l, k * l.windowSize) == k
  {
    IndexAtLeast(l, k * l.windowSize, k);
    IndexAtLeast(l, k * l.windowSize, k + 1);
    assert (k + 1) * l.windowSize == k * l.windowSize + l.windowSize;
  }

  lemma {:induction false} SimilarRunsAgree(l: Proper, swept: Windows, kept: Windows, clock: int, es: seq<Event>)
    requires 2 * l.windowSize <= IDLE_LIMIT
    requires Similar(l, swept, kept, clock) && Legal(clock, es)
    ensures Answers(l, swept, es) == Answers(l, kept, WithoutTicks(es))
    decreases |es|
  {
    if es != [] {
      var now := es[0].time;
      SimilarLater(l, swept, kept, clock, now);
      match es[0]
      case Ask(key, _, n) =>
        SimilarAfterAsk(l, swept, kept, key, now, n);
        SimilarRunsAgree(l, AfterAllowN(l, swept, key, now, n), AfterAllowN(l, kept, key, now, n), now, es[1..]);
        assert ([es[0]] + WithoutTicks(es[1..]))[1..] == WithoutTicks(es[1..]);
      case Tick(_) =>
        SimilarAfterTick(l, swept, kept, now);
        SimilarRunsAgree(l, AfterCleanup(swept, now), kept, now, es[1..]);
    }
  }

  // ---------------------------------------------------------------- batches of single requests

  /** The ticker's period: five minutes. */
  const PERIOD: int := 300 * SECOND

  /** Single requests, and ticks at whole multiples of the period after `start`. */
  predicate ServerLike(start: int, es: seq<Event>) {
    forall e | e in es :: if e.Ask? then e.n == 1 else e.time > start && (e.time - start) % PERIOD == 0
  }

  /** `k` single requests of `key` at one instant, then the rest. */
  function BatchThen(key: string, time: int, k: nat, rest: seq<Event>): seq<Event> {
    Times(Ask(key, time, 1), k, rest)
  }

  lemma Cons(l: Proper, ws: Windows, e: Event, es: seq<Event>)
    ensures e.Ask? ==>
              && Answers(l, ws, [e] + es)
                 == [Allows(l, ws, e.key, e.time, e.n)] + Answers(l, AfterAllowN(l, ws, e.key, e.time, e.n), es)
              && WithoutTicks([e] + es) == [e] + WithoutTicks(es)
    ensures e.Tick? ==>
              && Answers(l, ws, [e] + es) == Answers(l, AfterCleanup(ws, e.time), es)
              && WithoutTicks([e] + es) == WithoutTicks(es)
  {
    assert ([e] + es)[1..] == es;
  }

  lemma {:induction false} BatchIsLegal(start: int, key: string, time: int, k: nat, clock: int, rest: seq<Event>)
    requires clock <= time && Legal(time, rest) && ServerLike(start, rest)
    ensures k > 0 ==> Legal(clock, BatchThen(key, time, k, rest))
    ensures ServerLike(start, BatchThen(key, time, k, rest))
    decreases k
  {
    if k > 0 {
      var ask, tail := Ask(key, time, 1), BatchThen(key, time, k - 1, rest);
      BatchIsLegal(start, key, time, k - 1, time, rest);
      assert ([ask] + tail)[1..] == tail;
      assert forall e | e in [ask] + tail :: e == ask || e in tail;
    }
  }

  lemma {:induction false} BatchWithoutTicks(key: string, time: int, k: nat, rest: seq<Event>)
    ensures WithoutTicks(BatchThen(key, time, k, rest)) == BatchThen(key, time, k, WithoutTicks(rest))
    decreases k
  {
    if k > 0 {
      BatchWithoutTicks(key, time, k - 1, rest);
      Cons(Limits(0, 1), map[], Ask(key, time, 1), BatchThen(key, time, k - 1, rest));
    }
  }

  /** The key's window at `now` with `k` more units. */
  function Charged(l: Proper, ws: Windows, key: string, now: int, k: nat): Window {
    var w := Rotated(l, WindowFor(l, ws, key, now), now);
    w.(currCount := w.currCount + k)
  }

  /** A granted unit adds one to the weighted count at this instant. */
  lemma TakeOne(l: Proper, ws: Windows, key: string, now: int)
    requires Allows(l, ws, key, now, 1)
    ensures var next := AfterAllowN(l, ws, key, now, 1);
            && Load(l, next, key, now) == Load(l, ws, key, now) + l.windowSize
            && next == ws[key := Charged(l, ws, key, now, 1)]
            && forall k: nat :: Charged(l, next, key, now, k) == Charged(l, ws, key, now, k + 1)
  {
    var w := Rotated(l, WindowFor(l, ws, key, now), now);
    var next := AfterAllowN(l, ws, key, now, 1);
    assert next[key] == w.(currCount := w.currCount + 1);
    assert Rotated(l, next[key], now) == next[key];
    assert (w.currCount + 1) * l.windowSize == w.currCount * l.windowSize + l.windowSize;
  }

  /** A window with room for `k` units grants a batch of `k` requests in full. */
  lemma {:induction false} BatchGranted(l: Proper, ws: Windows, key: string, now: int, k: nat, rest: seq<Event>)
    requires k > 0 && Load(l, ws, key, now) + k * l.windowSize <= l.rate * l.windowSize
    ensures Answers(l, ws, BatchThen(key, now, k, rest))
            == Times(true, k, Answers(l, ws[key := Charged(l, ws, key, now, k)], rest))
    decreases k
  {
    var next := AfterAllowN(l, ws, key, now, 1);
    assert k * l.windowSize == (k - 1) * l.windowSize + l.windowSize;
    MulMonotone(0, k - 1, l.windowSize);
    TakeOne(l, ws, key, now);
    Cons(l, ws, Ask(key, now, 1), BatchThen(key, now, k - 1, rest));
    if k > 1 {
      BatchGranted(l, next, key, now, k - 1, rest);
      assert next[key := Charged(l, ws, key, now, k)] == ws[key := Charged(l, ws, key, now, k)];
    }
  }

  /** One without refuses some request of the batch. */
  lemma {:induction false} BatchRefused(l: Proper, ws: Windows, key: string, now: int, k: nat)
    requires k > 0 && Load(l, ws, key, now) + k * l.windowSize > l.rate * l.windowSize
    ensures Answers(l, ws, BatchThen(key, now, k, [])) != Times(true, k, [])
    decreases k
  {
    var next, tail := AfterAllowN(l, ws, key, now, 1), BatchThen(key, now, k - 1, []);
    Cons(l, ws, Ask(key, now, 1), tail);
    assert Times(true, k, [])[0];
    if Allows(l, ws, key, now, 1) {
      TakeOne(l, ws, key, now);
      assert k * l.windowSize == (k - 1) * l.windowSize + l.windowSize;
      BatchRefused(l, next, key, now, k - 1);
      assert ([true] + Answers(l, next, tail))[1..] == Answers(l, next, tail);
      assert ([true] + Times(true, k - 1, []))[1..] == Times(true, k - 1, []);
    }
  }

  // ---------------------------------------------------------------- a run that cleanup changes

  lemma LastStepBelow(y: int, d: int, far: nat) returns (k: nat)
    requires d > 0 && y > (far + 1) * d
    ensures k > far && k * d < y <= k * d + d
  {
    var q := (y - 1) / d;
    assert (far + 1) * d <= y - 1 < q * d + d && (q + 1) * d == q * d + d;
    if q <= far {
      MulMonotone(q + 1, far + 1, d);
    }
    k := q;
  }

  /** Each period the windows fall behind by `d`, so some multiple of `d` lies just below a late tick. */
  lemma CatchUp(start: int, d: int) returns (k: nat, early: nat)
    requires d > 0
    ensures k >= start && k * d < start + PERIOD * early <= k * d + d
  {
    var far := Max(start, -start);
    early := (far + 1) * d + far + 1;
    MulMonotone(0, far + 1, d);
    k := LastStepBelow(start + PERIOD * early, d, far);
  }

  /** For windows longer than the period, some window `k` that starts at or after `start` is found idle by
      a tick that falls into it or into the next one. */
  lemma TickInTime(l: Proper, start: int) returns (k: nat, tick: int)
    requires l.windowSize > PERIOD
    ensures start <= k * l.windowSize && start < tick && (tick - start) % PERIOD == 0
    ensures k * l.windowSize + IDLE_LIMIT < tick < (k + 2) * l.windowSize
  {
    var d := l.windowSize - PERIOD;
    var early;
    k, early := CatchUp(start, d);
    tick := start + PERIOD * (k + early + 2);
    QuotientIs(tick - start, PERIOD, k + early + 2, 0);
    assert k * l.windowSize == k * d + PERIOD * k && (k + 2) * l.windowSize == k * l.windowSize + 2 * l.windowSize;
    MulMonotone(1, l.windowSize, k);
  }

  /** A spent window still weighs something up to the end of the next one. */
  lemma SpentWindowStillWeighs(l: Proper, k: int, now: int)
    requires l.rate >= 1 && k * l.windowSize <= now < (k + 2) * l.windowSize
    ensures Load(l, map["client" := Window(0, l.rate, k * l.windowSize)], "client", now) > 0
  {
    var size := l.windowSize;
    var spent := Window(0, l.rate, k * size);
    TruncateIsIndex(l, now);
    IndexAtLeast(l, now, k);
    IndexAtLeast(l, now, k + 2);
    RotatedByIndex(l, spent, k, now);
    var left := size - now % size;
    MulMonotone(1, l.rate, left);
    MulMonotone(1, l.rate, size);
    assert Load(l, map["client" := spent], "client", now) == l.rate * (if Index(l, now) == k then size else left);
  }

  lemma FirstBatchSpends(l: Proper, k: int, t: int, rest: seq<Event>)
    requires l.rate >= 1 && t == k * l.windowSize
    ensures Answers(l, map[], BatchThen("client", t, l.rate, rest))
            == Times(true, l.rate, Answers(l, map["client" := Window(0, l.rate, t)], rest))
  {
    IndexOfMultiple(l, k);
    TruncateIsIndex(l, t);
    BatchGranted(l, map[], "client", t, l.rate, rest);
  }

  /** After the tick the swept limiter grants a whole second batch and the kept one does not. */
  lemma SecondBatchDiffers(l: Proper, k: int, t: int, now: int)
    requires l.rate >= 1 && t == k * l.windowSize && t + IDLE_LIMIT < now < (k + 2) * l.windowSize
    ensures var second, spent := BatchThen("client", now, l.rate, []), map["client" := Window(0, l.rate, t)];
            Answers(l, spent, [Tick(now)] + second) != Answers(l, spent, second)
  {
    var spent := map["client" := Window(0, l.rate, t)];
    Cons(l, spent, Tick(now), BatchThen("client", now, l.rate, []));
    assert AfterCleanup(spent, now) == map[];
    assert Load(l, map[], "client", now) == 0;
    BatchGranted(l, map[], "client", now, l.rate, []);
    SpentWindowStillWeighs(l, k, now);
    BatchRefused(l, spent, "client", now, l.rate);
  }

  /** Spend the whole rate at the start of a window, one request at a time; tick, on the ticker's period,
      before the window has lost all its weight; and repeat. */
  lemma DivergingRun(l: Proper, clock: int) returns (es: seq<Event>)
    requires l.rate >= 1 && 2 * l.windowSize > IDLE_LIMIT
    ensures Legal(clock, es) && ServerLike(clock, es) && !Invisible(l, es)
  {
    var k, now := TickInTime(l, clock);
    var n, t := l.rate, k * l.windowSize;
    var second := BatchThen("client", now, n, []);
    var rest := [Tick(now)] + second;
    es := BatchThen("client", t, n, rest);
    BatchIsLegal(clock, "client", now, n, now, []);
    BatchWithoutTicks("client", now, n, []);
    assert rest[1..] == second;
    BatchIsLegal(clock, "client", t, n, clock, rest);
    BatchWithoutTicks("client", t, n, rest);
    Cons(l, map[], Tick(now), second);
    FirstBatchSpends(l, k, t, rest);
    FirstBatchSpends(l, k, t, second);
    SecondBatchDiffers(l, k, t, now);
    if Invisible(l, es) {
      var spent := map["client" := Window(0, n, t)];
      TimesInjective(true, n, Answers(l, spent, rest), Answers(l, spent, second));
    }
  }

  ghost predicate AlwaysInvisibleToServer(l: Proper, clock: int) {
    forall es | Legal(clock, es) && ServerLike(clock, es) :: Invisible(l, es)
  }

  /** For a positive rate, cleanup can never be noticed exactly when two windows fit into the idle limit,
      that is when `windowSize` is at most five minutes; whether the requests and the ticks are arbitrary
      or single requests and ticks on the ticker's period. */
  lemma CleanupInvisibleIff(l: Proper, clock: int)
    requires l.rate >= 1
    ensures AlwaysInvisible(l, clock) <==> l.windowSize <= 300 * SECOND
    ensures AlwaysInvisibleToServer(l, clock) <==> l.windowSize <= 300 * SECOND
  {
    if 2 * l.windowSize <= IDLE_LIMIT {
      forall es | Legal(clock, es)
        ensures Invisible(l, es)
      {
        SimilarRunsAgree(l, map[], map[], clock, es);
      }
    } else {
      var es := DivergingRun(l, clock);
    }
  }
}
