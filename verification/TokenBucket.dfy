/** The token-bucket limiter of `internal/ratelimit/ratelimit.go` and its deployed copy in
    `internal/proxy/middleware.go`.

    Time is in seconds and, like the token count, exact (`real`). Each call is one atomic step
    that reads the clock once. */
module TokenBuckets {

  datatype Limits = Limits(rate: real, burst: int)

  datatype Bucket = Bucket(tokens: real, lastCheck: real)

  type Buckets = map<string, Bucket>

  const IDLE_LIMIT := 600.0

  function Gained(l: Limits, elapsed: real): real {
    elapsed * l.rate
  }

  function Refilled(l: Limits, b: Bucket, now: real): real {
    var tokens := b.tokens + Gained(l, now - b.lastCheck);
    if tokens > l.burst as real then l.burst as real else tokens
  }

  /** The key's bucket, or the full one that a first call creates. */
  function BucketFor(l: Limits, bs: Buckets, key: string, now: real): Bucket {
    if key in bs then bs[key] else Bucket(l.burst as real, now)
  }

  predicate Allows(l: Limits, bs: Buckets, key: string, now: real, n: int) {
    Refilled(l, BucketFor(l, bs, key, now), now) >= n as real
  }

  function AfterAllowN(l: Limits, bs: Buckets, key: string, now: real, n: int): Buckets {
    var tokens := Refilled(l, BucketFor(l, bs, key, now), now);
    bs[key := Bucket(if Allows(l, bs, key, now, n) then tokens - n as real else tokens, now)]
  }

  predicate Idle(b: Bucket, now: real) {
    now - b.lastCheck > IDLE_LIMIT
  }

  function AfterCleanup(bs: Buckets, now: real): Buckets {
    map key | key in bs && !Idle(bs[key], now) :: bs[key]
  }

  class TokenBucketLimiter {
    const limits: Limits
    var buckets: Buckets

    constructor (rate: real, burst: int)
      ensures limits == Limits(rate, burst) && buckets == map[]
    {
      limits := Limits(rate, burst);
      buckets := map[];
    }

    method Allow(key: string, now: real) returns (allowed: bool)
      modifies this
      ensures allowed == Allows(limits, old(buckets), key, now, 1)
      ensures buckets == AfterAllowN(limits, old(buckets), key, now, 1)
    {
      allowed := AllowN(key, 1, now);
    }

    method AllowN(key: string, n: int, now: real) returns (allowed: bool)
      modifies this
      ensures allowed == Allows(limits, old(buckets), key, now, n)
      ensures buckets == AfterAllowN(limits, old(buckets), key, now, n)
    {
      allowed, buckets := Take(limits, buckets, key, n, now);
    }

    method Cleanup(now: real)
      modifies this
      ensures buckets == AfterCleanup(old(buckets), now)
    {
      buckets := Sweep(buckets, now);
    }
  }

  /** The limiter wired into the HTTP server: the same bucket, one request a call, and an off switch. */
  class RateLimiter {
    const enabled: bool
    const limits: Limits
    var buckets: Buckets

    constructor (enabled: bool, rate: real, burst: int)
      ensures this.enabled == enabled && limits == Limits(rate, burst) && buckets == map[]
    {
      this.enabled := enabled;
      limits := Limits(rate, burst);
      buckets := map[];
    }

    method Allow(key: string, now: real) returns (allowed: bool)
      modifies this
      ensures allowed == (!enabled || Allows(limits, old(buckets), key, now, 1))
      ensures buckets == if enabled then AfterAllowN(limits, old(buckets), key, now, 1) else old(buckets)
    {
      if !enabled {
        return true;
      }
      allowed, buckets := Take(limits, buckets, key, 1, now);
    }

    method Cleanup(now: real)
      modifies this
      ensures buckets == AfterCleanup(old(buckets), now)
    {
      buckets := Sweep(buckets, now);
    }
  }

  /** The critical section both limiters share: create, refill, cap, and take `n` tokens if they are there. */
  method Take(limits: Limits, buckets: Buckets, key: string, n: int, now: real) returns (allowed: bool, after: Buckets)
    ensures allowed == Allows(limits, buckets, key, now, n)
    ensures after == AfterAllowN(limits, buckets, key, now, n)
  {
    var b := Bucket(limits.burst as real, now);
    if key in buckets {
      b := buckets[key];
    }
    assert b == BucketFor(limits, buckets, key, now);
    var elapsed := now - b.lastCheck;
    b := b.(tokens := b.tokens + elapsed * limits.rate);
    if b.tokens > limits.burst as real {
      b := b.(tokens := limits.burst as real);
    }
    assert b.tokens == Refilled(limits, BucketFor(limits, buckets, key, now), now);
    b := b.(lastCheck := now);
    allowed := b.tokens >= n as real;
    if allowed {
      b := b.(tokens := b.tokens - n as real);
    }
    after := buckets[key := b];
  }

  /** One tick of the cleanup goroutine: visit the keys in any order and delete the idle ones. */
  method Sweep(buckets: Buckets, now: real) returns (after: Buckets)
    ensures after == AfterCleanup(buckets, now)
    ensures forall key :: key in after <==> key in buckets && now - buckets[key].lastCheck <= 600.0
    ensures forall key | key in after :: after[key] == buckets[key]
  {
    after := buckets;
    var pending := buckets.Keys;
    while pending != {}
      invariant pending <= buckets.Keys
      invariant forall key :: key in after <==> key in buckets && (key in pending || !Idle(buckets[key], now))
      invariant forall key | key in after :: after[key] == buckets[key]
    {
      var key :| key in pending;
      if now - buckets[key].lastCheck > IDLE_LIMIT {
        after := after - {key};
      }
      pending := pending - {key};
    }
  }
}
