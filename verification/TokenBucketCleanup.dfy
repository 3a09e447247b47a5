/** When the cleanup goroutine's deletions can be seen in the limiter's answers. */
module TokenBucketCleanup {
  import opened Common
  import opened TokenBuckets
  import opened TokenBucketRuns

  /** A request, or one tick of the cleanup goroutine. */
  datatype Event = Ask(key: string, time: real, n: int) | Tick(time: real)

  predicate Legal(clock: real, es: seq<Event>)
    decreases |es|
  {
    es == [] || (clock <= es[0].time && (es[0].Ask? ==> es[0].n >= 0) && Legal(es[0].time, es[1..]))
  }

  /** The answers given to the requests of the run. */
  function Answers(l: Limits, bs: Buckets, es: seq<Event>): seq<bool>
    decreases |es|
  {
    if es == [] then []
    else match es[0]
      case Ask(key, time, n) => [Allows(l, bs, key, time, n)] + Answers(l, AfterAllowN(l, bs, key, time, n), es[1..])
      case Tick(time) => Answers(l, AfterCleanup(bs, time), es[1..])
  }

  function WithoutTicks(es: seq<Event>): seq<Event> {
    if es == [] then []
    else if es[0].Tick? then WithoutTicks(es[1..])
    else [es[0]] + WithoutTicks(es[1..])
  }

  ghost predicate Invisible(l: Limits, es: seq<Event>) {
    Answers(l, map[], es) == Answers(l, map[], WithoutTicks(es))
  }

  ghost predicate AlwaysInvisible(l: Limits, clock: real) {
    forall es | Legal(clock, es) :: Invisible(l, es)
  }

  /** `swept` is `kept` minus some keys whose bucket is full again by `clock`. */
  ghost predicate Similar(l: Limits, swept: Buckets, kept: Buckets, clock: real) {
    && (forall key | key in swept :: key in kept && swept[key] == kept[key])
    && (forall key | key in kept :: 0.0 <= kept[key].tokens <= l.burst as real && kept[key].lastCheck <= clock)
    && (forall key | key in kept && key !in swept :: Refilled(l, kept[key], clock) == l.burst as real)
  }

  lemma RefilledGrows(l: Limits, b: Bucket, t: real, t': real)
    requires Sound(l) && t <= t'
    ensures Refilled(l, b, t) <= Refilled(l, b, t') <= l.burst as real
  {
    GainedMonotone(l, t - b.lastCheck, t' - b.lastCheck);
  }

  lemma SimilarLater(l: Limits, swept: Buckets, kept: Buckets, clock: real, now: real)
    requires Sound(l) && Similar(l, swept, kept, clock) && clock <= now
    ensures Similar(l, swept, kept, now)
  {
    forall key | key in kept && key !in swept
      ensures Refilled(l, kept[key], now) == l.burst as real
    {
      RefilledGrows(l, kept[key], clock, now);
    }
  }

  lemma IdleIsFull(l: Limits, b: Bucket, now: real)
    requires Sound(l) && l.rate * IDLE_LIMIT >= l.burst as real && b.tokens >= 0.0 && Idle(b, now)
    ensures Refilled(l, b, now) == l.burst as real
  {
    GainedMonotone(l, IDLE_LIMIT, now - b.lastCheck);
  }

  lemma SimilarAfterTick(l: Limits, swept: Buckets, kept: Buckets, now: real)
    requires Sound(l) && l.rate * IDLE_LIMIT >= l.burst as real && Similar(l, swept, kept, now)
    ensures Similar(l, AfterCleanup(swept, now), kept, now)
  {
    forall key | key in kept && key !in AfterCleanup(swept, now)
      ensures Refilled(l, kept[key], now) == l.burst as real
    {
      if key in swept {
        IdleIsFull(l, kept[key], now);
      }
    }
  }

  lemma RefilledAtOnce(l: Limits, tokens: real, time: real)
    requires tokens <= l.burst as real
    ensures Refilled(l, Bucket(tokens, time), time) == tokens
  {
    GainedAdds(l, 0.0, 0.0);
    assert time - time == 0.0;
  }

  lemma SimilarAfterAsk(l: Limits, swept: Buckets, kept: Buckets, key: string, now: real, n: int)
    requires Sound(l) && n >= 0 && Similar(l, swept, kept, now)
    ensures Allows(l, swept, key, now, n) == Allows(l, kept, key, now, n)
    ensures Similar(l, AfterAllowN(l, swept, key, now, n), AfterAllowN(l, kept, key, now, n), now)
  {
    RefilledAtOnce(l, l.burst as real, now);
    assert Refilled(l, BucketFor(l, swept, key, now), now) == Refilled(l, BucketFor(l, kept, key, now), now);
    RangeStep(l, kept, key, now, n);
  }

  lemma {:induction false} SimilarRunsAgree(l: Limits, swept: Buckets, kept: Buckets, clock: real, es: seq<Event>)
    requires Sound(l) && l.rate * IDLE_LIMIT >= l.burst as real
    requires Similar(l, swept, kept, clock) && Legal(clock, es)
    ensures Answers(l, swept, es) == Answers(l, kept, WithoutTicks(es))
    decreases |es|
  {
    if es != [] {
      var now := es[0].time;
      SimilarLater(l, swept, kept, clock, now);
      match es[0]
      case Ask(key, _, n) =>
        SimilarAfterAsk(l, swept, kept, key, now, n);
        SimilarRunsAgree(l, AfterAllowN(l, swept, key, now, n), AfterAllowN(l, kept, key, now, n), now, es[1..]);
        assert ([es[0]] + WithoutTicks(es[1..]))[1..] == WithoutTicks(es[1..]);
      case Tick(_) =>
        SimilarAfterTick(l, swept, kept, now);
        SimilarRunsAgree(l, AfterCleanup(swept, now), kept, now, es[1..]);
    }
  }

  /** A pause longer than the idle limit that does not refill the bucket. */
  lemma ShortRefill(l: Limits) returns (pause: real)
    requires Sound(l) && l.rate * IDLE_LIMIT < l.burst as real
    ensures IDLE_LIMIT < pause <= 900.0 && l.rate * pause < l.burst as real
  {
    var rate, gap := l.rate, l.burst as real - l.rate * IDLE_LIMIT;
    var extra := gap / (2.0 * (rate + 1.0));
    ExtraIsSmall(rate, gap, extra);
    if extra > 300.0 {
      ProductMonotone(rate, 300.0, extra);
      extra := 300.0;
    }
    pause := IDLE_LIMIT + extra;
    assert rate * pause == rate * IDLE_LIMIT + rate * extra;
  }

  lemma ExtraIsSmall(rate: real, gap: real, extra: real)
    requires rate >= 0.0 && gap > 0.0 && extra == gap / (2.0 * (rate + 1.0))
    ensures extra > 0.0 && rate * extra < gap
  {
    var d := 2.0 * (rate + 1.0);
    assert extra * d == gap;
    if extra <= 0.0 {
      ProductMonotone(d, extra, 0.0);
    }
    ProductNonNegative(rate, extra);
    assert extra * d == 2.0 * (rate * extra) + 2.0 * extra;
  }

  // ---------------------------------------------------------------- batches of single requests

  /** The ticker's period: five minutes. */
  const PERIOD := 300.0

  predicate IsTick(start: real, time: real, m: nat) {
    m > 0 && time - start == m as real * PERIOD
  }

  ghost predicate OnPeriod(start: real, time: real) {
    exists m :: IsTick(start, time, m)
  }

  /** Single requests, all that the server ever makes, and ticks at whole multiples of the period after `start`. */
  ghost predicate ServerLike(start: real, es: seq<Event>) {
    forall e | e in es :: if e.Ask? then e.n == 1 else OnPeriod(start, e.time)
  }

  /** `k` single requests of `key` at one instant, then the rest. */
  function BatchThen(key: string, time: real, k: nat, rest: seq<Event>): seq<Event> {
    Times(Ask(key, time, 1), k, rest)
  }

  lemma Cons(l: Limits, bs: Buckets, e: Event, es: seq<Event>)
    ensures e.Ask? ==>
              && Answers(l, bs, [e] + es)
                 == [Allows(l, bs, e.key, e.time, e.n)] + Answers(l, AfterAllowN(l, bs, e.key, e.time, e.n), es)
              && WithoutTicks([e] + es) == [e] + WithoutTicks(es)
    ensures e.Tick? ==>
              && Answers(l, bs, [e] + es) == Answers(l, AfterCleanup(bs, e.time), es)
              && WithoutTicks([e] + es) == WithoutTicks(es)
  {
    assert ([e] + es)[1..] == es;
  }

  lemma {:induction false} BatchIsLegal(start: real, key: string, time: real, k: nat, clock: real, rest: seq<Event>)
    requires clock <= time && Legal(time, rest) && ServerLike(start, rest)
    ensures k > 0 ==> Legal(clock, BatchThen(key, time, k, rest))
    ensures ServerLike(start, BatchThen(key, time, k, rest))
    decreases k
  {
    if k > 0 {
      var ask, tail := Ask(key, time, 1), BatchThen(key, time, k - 1, rest);
      BatchIsLegal(start, key, time, k - 1, time, rest);
      assert ([ask] + tail)[1..] == tail;
      assert forall e | e in [ask] + tail :: e == ask || e in tail;
    }
  }

  lemma {:induction false} BatchWithoutTicks(key: string, time: real, k: nat, rest: seq<Event>)
    ensures WithoutTicks(BatchThen(key, time, k, rest)) == BatchThen(key, time, k, WithoutTicks(rest))
    decreases k
  {
    if k > 0 {
      BatchWithoutTicks(key, time, k - 1, rest);
      Cons(Limits(0.0, 0), map[], Ask(key, time, 1), BatchThen(key, time, k - 1, rest));
    }
  }

  lemma TakeOne(l: Limits, bs: Buckets, key: string, time: real)
    ensures var tokens := Refilled(l, BucketFor(l, bs, key, time), time);
            var next := AfterAllowN(l, bs, key, time, 1);
            tokens >= 1.0 ==>
              && Allows(l, bs, key, time, 1)
              && next == bs[key := Bucket(tokens - 1.0, time)]
              && Refilled(l, BucketFor(l, next, key, time), time) == tokens - 1.0
  {
    var tokens := Refilled(l, BucketFor(l, bs, key, time), time);
    RefilledAtOnce(l, tokens - 1.0, time);
  }

  /** A bucket that holds `k` tokens grants a batch of `k` requests in full. */
  lemma {:induction false} BatchGranted(l: Limits, bs: Buckets, key: string, time: real, k: nat, left: real, rest: seq<Event>)
    requires k > 0 && left >= 0.0
    requires Refilled(l, BucketFor(l, bs, key, time), time) == left + k as real
    ensures Answers(l, bs, BatchThen(key, time, k, rest))
            == Times(true, k, Answers(l, bs[key := Bucket(left, time)], rest))
    decreases k
  {
    var next := AfterAllowN(l, bs, key, time, 1);
    TakeOne(l, bs, key, time);
    Cons(l, bs, Ask(key, time, 1), BatchThen(key, time, k - 1, rest));
    if k > 1 {
      BatchGranted(l, next, key, time, k - 1, left, rest);
      assert next[key := Bucket(left, time)] == bs[key := Bucket(left, time)];
    }
  }

  /** One that holds fewer refuses some request of the batch. */
  lemma {:induction false} BatchRefused(l: Limits, bs: Buckets, key: string, time: real, k: nat)
    requires k > 0 && Refilled(l, BucketFor(l, bs, key, time), time) < k as real
    ensures Answers(l, bs, BatchThen(key, time, k, [])) != Times(true, k, [])
    decreases k
  {
    var next, tail := AfterAllowN(l, bs, key, time, 1), BatchThen(key, time, k - 1, []);
    Cons(l, bs, Ask(key, time, 1), tail);
    TakeOne(l, bs, key, time);
    assert Times(true, k, [])[0];
    if Allows(l, bs, key, time, 1) {
      BatchRefused(l, next, key, time, k - 1);
      assert ([true] + Answers(l, next, tail))[1..] == Answers(l, next, tail);
      assert ([true] + Times(true, k - 1, []))[1..] == Times(true, k - 1, []);
    }
  }

  lemma FirstBatchDrains(l: Limits, t: real, rest: seq<Event>)
    requires l.burst > 0
    ensures Answers(l, map[], BatchThen("client", t, l.burst, rest))
            == Times(true, l.burst, Answers(l, map["client" := Bucket(0.0, t)], rest))
  {
    assert Refilled(l, Bucket(l.burst as real, t), t) == l.burst as real;
    BatchGranted(l, map[], "client", t, l.burst, 0.0, rest);
  }

  /** After the pause the swept bucket serves the whole second batch and the kept one does not. */
  lemma SecondBatchDiffers(l: Limits, t: real, now: real)
    requires Sound(l) && l.burst > 0 && IDLE_LIMIT < now - t && Gained(l, now - t) < l.burst as real
    ensures var second := BatchThen("client", now, l.burst, []);
            var drained := map["client" := Bucket(0.0, t)];
            Answers(l, drained, [Tick(now)] + second) != Answers(l, drained, second)
  {
    var k, drained := l.burst, map["client" := Bucket(0.0, t)];
    Cons(l, drained, Tick(now), BatchThen("client", now, k, []));
    assert AfterCleanup(drained, now) == map[];
    FirstBatchDrains(l, now, []);
    BatchRefused(l, drained, "client", now, k);
  }

  /** Drain the bucket one request at a time, pause, tick, and repeat. */
  lemma TwoBatches(l: Limits, clock: real, t: real, now: real) returns (es: seq<Event>)
    requires Sound(l) && l.burst > 0 && clock <= t && OnPeriod(clock, now)
    requires IDLE_LIMIT < now - t && Gained(l, now - t) < l.burst as real
    ensures Legal(clock, es) && ServerLike(clock, es) && !Invisible(l, es)
  {
    var k := l.burst;
    var second := BatchThen("client", now, k, []);
    var rest := [Tick(now)] + second;
    es := BatchThen("client", t, k, rest);
    BatchIsLegal(clock, "client", now, k, now, []);
    BatchWithoutTicks("client", now, k, []);
    assert rest[1..] == second;
    BatchIsLegal(clock, "client", t, k, clock, rest);
    BatchWithoutTicks("client", t, k, rest);
    Cons(l, map[], Tick(now), second);
    FirstBatchDrains(l, t, rest);
    FirstBatchDrains(l, t, second);
    SecondBatchDiffers(l, t, now);
    if Invisible(l, es) {
      var drained := map["client" := Bucket(0.0, t)];
      TimesInjective(true, k, Answers(l, drained, rest), Answers(l, drained, second));
    }
  }

  /** A pause short enough not to refill the bucket, with a tick at its end. */
  lemma DivergingRun(l: Limits, clock: real) returns (es: seq<Event>)
    requires Sound(l) && l.rate * IDLE_LIMIT < l.burst as real
    ensures Legal(clock, es) && ServerLike(clock, es) && !Invisible(l, es)
  {
    ProductNonNegative(l.rate, IDLE_LIMIT);
    var pause := ShortRefill(l);
    var t, now := clock + 900.0 - pause, clock + 900.0;
    assert now - t == pause && IsTick(clock, now, 3);
    es := TwoBatches(l, clock, t, now);
  }

  ghost predicate AlwaysInvisibleToServer(l: Limits, clock: real) {
    forall es | Legal(clock, es) && ServerLike(clock, es) :: Invisible(l, es)
  }

  /** With non-negative rate and burst, cleanup can never be noticed exactly when an idle bucket is full
      again by the time it is deleted; whether the requests and the ticks are arbitrary or single requests
      and ticks on the ticker's period. */
  lemma CleanupInvisibleIff(l: Limits, clock: real)
    requires Sound(l)
    ensures AlwaysInvisible(l, clock) <==> l.rate * 600.0 >= l.burst as real
    ensures AlwaysInvisibleToServer(l, clock) <==> l.rate * 600.0 >= l.burst as real
  {
    if l.rate * IDLE_LIMIT >= l.burst as real {
      forall es | Legal(clock, es)
        ensures Invisible(l, es)
      {
        SimilarRunsAgree(l, map[], map[], clock, es);
      }
    } else {
      var es := DivergingRun(l, clock);
    }
  }
}
