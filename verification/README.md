# Verified model of the multichain RPC proxy

A Dafny model of the stateful core of the proxy and proofs of what it guarantees over whole runs:

- the weighted round-robin balancer, request retries and health rounds (`internal/chain`);
- the circuit breaker and the endpoint that drives it (`internal/chain`);
- the token-bucket, sliding-window and combined rate limiters (`internal/ratelimit`), and the copy of the
  token bucket that the HTTP server uses (`internal/proxy/middleware.go`);
- the WebSocket connection pool (`internal/websocket/pool.go`);
- the in-memory response cache (`internal/cache/cache.go`), the request path that uses it
  (`internal/proxy/handler.go`), and the block-number parser (`internal/chain/health.go`).

`dafny verify dfyconfig.toml` checks everything.

## How it is built

Every mutex-protected method is one atomic step with the clock as a parameter. What the outside world does
(backend replies, dial results, arrival orders, cancellation) is a parameter too. Each component has a class
whose methods perform the step on its fields, with the loops of the original, and value functions that
say what a step does; each method is proved equal to its function. The `...Runs` and `...Cleanup` modules then
prove properties of these functions over all runs. Requests that overlap are two steps: admit, then complete.

| File | Contents |
|---|---|
| `Common.dfy` | options, results, 64-bit wrap-around, arithmetic helpers |
| `CircuitBreaker.dfy`, `BreakerRuns.dfy` | the breaker; invariant, wedge, episodes, the three-state machine |
| `Endpoint.dfy`, `EndpointRuns.dfy` | admission, outcome and counters of one endpoint; overlapping requests; which replies open the breaker |
| `RoundRobin.dfy`, `LoadBalancer.dfy` | the counting argument; the balancer |
| `Retry.dfy`, `RetryRuns.dfy` | one request with retries on a chain; several interleaved |
| `HealthRounds.dfy`, `BlockNumber.dfy` | health rounds, their interleaving with demotions; the parser |
| `TokenBucket.dfy`, `TokenBucketRuns.dfy`, `TokenBucketCleanup.dfy` | both token buckets; exactness, bounds, cleanup |
| `SlidingWindow.dfy`, `SlidingWindowRuns.dfy`, `SlidingWindowCleanup.dfy` | the sliding window; exactness, bounds, decay, cleanup |
| `MultiLimiter.dfy` | the global and per-chain limits together |
| `ConnectionPool.dfy`, `PoolRuns.dfy`, `PoolLedger.dfy` | the pool; conservation, exclusivity, draining; what is handed out and what is closed, by an outside ledger |
| `Cache.dfy`, `CacheRuns.dfy`, `CachedRequests.dfy` | the cache; agreement with a timed map; what is served from it |

## Where the code and an expected property part

The code is modelled as it is; where an expected property does not always hold, the exact condition is proved.

- The first ticket is 1, so with weights 10, 5, 5 request 10 goes to the second endpoint; the table in
  `docs/ARCHITECTURE.md:136-143` sends requests 1 to 10 to the first (`RoundRobin.FirstTicketIsOne`).
- The breaker trips and closes when a count reaches its threshold (`>=`), and a threshold of zero or less acts like one.
- A breaker can become stuck half-open for good, with nothing in flight, exactly when
  `HalfOpenMaxRequests < max(1, SuccessThreshold)`. After the default filling, setting only `SuccessThreshold` to 4
  or more is enough for that (`BreakerRuns.WedgeReachableIff`, `BreakerRuns.FilledConfigWedgesIff`).
- The sliding window admits up to `2 * rate` units, less the ceiling of `rate / windowSize` in nanoseconds, in one
  window length, and this is reached: in practice `2 * rate - 1`. The configured rate alone is a bound exactly for
  a rate of one, or a window of one nanosecond (`SlidingWindowRuns.RateIsBoundIff`).
- A sliding window of zero seconds or fewer, which the constructor accepts, never admits a unit at a non-negative rate
  (`SlidingWindowRuns.NonPositiveWindowRefuses`).
- Deleting idle token buckets is noticeable exactly when `rate * 600 s < burst`; deleting idle sliding
  windows (rate at least 1) exactly when the window is longer than five minutes. This is so even if all requests
  ask for one unit and all ticks fall on the five-minute ticker.
- A health round bounds the lag of every healthy endpoint exactly when no lag overflows 64 bits. It can
  overflow because a hexadecimal height of 2^63 or more, and a signed decimal one, may be negative.
- A height of zero makes an endpoint unhealthy, which the criteria in `docs/ARCHITECTURE.md:182-186` do not mention.
- The decimal fallback of the block-number parser only ever succeeds on a number written with a sign; an unsigned decimal
  number is read as hexadecimal.
- The cache is a timed map, and never serves one request's response to another, exactly when the names are
  unambiguous for the parameters in use: where a chain name and a method name written together begin another pair
  written together, what the longer has in excess must not complete parameters to other parameters. Both request
  handlers pass a JSON text or nothing, so an excess that cannot begin a JSON text does no harm
  (`CacheRuns.JsonParamsAreUnambiguous`); prefix-free chain names and prefix-free method names suffice for all
  parameters, and the shipped configuration has both.
- "No healthy endpoints" is reported when no healthy endpoint has positive weight: `H` below counts
  healthy endpoints of positive weight.

## Model

| member | source | states |
|---|---|---|
| `CircuitBreakers.CircuitBreaker.constructor` | internal/chain/circuitbreaker.go:61-66 | a new breaker is closed with all counters zero |
| `CircuitBreakers.CircuitBreaker.CurrentStateAt` | internal/chain/circuitbreaker.go:75-85 | half-open is derived, not stored: open and strictly more than the timeout since the trip |
| `CircuitBreakers.CircuitBreaker.Allow` | internal/chain/circuitbreaker.go:87-107 | the admission decision and the only state change, one probe slot taken by an admitted half-open request |
| `CircuitBreakers.CircuitBreaker.RecordSuccess` | internal/chain/circuitbreaker.go:109-122 | the whole new state by derived state: failures forgotten, ignored, or counted towards closing |
| `CircuitBreakers.CircuitBreaker.RecordFailure` | internal/chain/circuitbreaker.go:124-137 | the whole new state by derived state: counted towards a trip, ignored, or an immediate trip |
| `CircuitBreakers.CircuitBreaker.Trip` | internal/chain/circuitbreaker.go:140-145 | the whole new state after a trip; the failure count stays |
| `CircuitBreakers.CircuitBreaker.ResetFields` | internal/chain/circuitbreaker.go:148-159 | the whole new state after a reset; the time of the last trip stays |
| `CircuitBreakers.CircuitBreaker.GetStats` | internal/chain/circuitbreaker.go:161-172 | reports the derived state and the stored counters |
| `CircuitBreakers.CircuitBreaker.Execute` | internal/chain/circuitbreaker.go:182-195 | refuses without running, or runs and records exactly the one outcome |
| `BreakerRuns.InvHolds` | internal/chain/circuitbreaker.go:87-153 | on every run with any overlap: closed means failures below the threshold and no probes or successes; open means failures at the threshold, successes below theirs, and every probe slot accounted for by a request in flight or a recorded success |
| `BreakerRuns.WedgeReachableIff` | internal/chain/circuitbreaker.go:87-153 | some interleaving reaches "timeout over, nothing in flight, still refusing" if and only if `HalfOpenMaxRequests < max(1, SuccessThreshold)` |
| `BreakerRuns.DriveToWedge` | internal/chain/circuitbreaker.go:98-120 | from every idle reachable state of such a configuration, also one where late successes ran ahead of the probes, a legal run leads to the wedge |
| `BreakerRuns.WedgeIsPermanent` | internal/chain/circuitbreaker.go:98-120 | no run without a manual reset leaves a wedge or changes the breaker; one reset ends it |
| `BreakerRuns.FilledConfigWedgesIff` | internal/chain/chain.go:53-72 | which configurations can wedge after the chain fills in its defaults |
| `BreakerRuns.EpisodeFrom` | internal/chain/circuitbreaker.go:98-103 | in one open episode probes taken plus later admissions stay within `HalfOpenMaxRequests`, all later than the timeout |
| `BreakerRuns.EpisodeBound` | internal/chain/circuitbreaker.go:139-145 | after a trip at `t0` nothing is admitted up to and including `t0 + Timeout`, and at most `HalfOpenMaxRequests` requests before the next trip or reset |
| `BreakerRuns.RunsAreSpaced` | internal/chain/circuitbreaker.go:182-195 | once tripped, the runs of an always-failing function are more than a timeout apart |
| `BreakerRuns.FailingFunctionRunsRarely` | internal/chain/circuitbreaker.go:182-195 | an always-failing function runs at most `FailureThreshold + T / Timeout` times in the `T` time units from its first run |
| `BreakerRuns.SimulationAgrees` | internal/chain/circuitbreaker.go:75-153 | related states answer every timed sequence of calls alike |
| `BreakerRuns.RefinesTextbook` | internal/chain/circuitbreaker.go:75-172 | the two-stored-state code and a three-state machine with a timer agree on all `Allow`, `State` and `Stats` answers |
| `BreakerRuns.ExecutesAreRuns` | internal/chain/circuitbreaker.go:182-195 | sequential `Execute`s whose functions fail or succeed as given are legal runs of admissions and of the matching outcomes, with the same final breaker |
| `BreakerRuns.SucceedingFunctionAlwaysRuns` | internal/chain/circuitbreaker.go:182-195 | a function that never fails is run by every `Execute` of a closed breaker, which stays closed with no failures |
| `Endpoints.Endpoint.Begin` | internal/chain/endpoint.go:224-231 | a refused request leaves the counters alone; an admitted one is counted |
| `Endpoints.Endpoint.Finish` | internal/chain/endpoint.go:233-287 | exactly one outcome is recorded per admitted request; a status other than 200 counts as failed but is a breaker success and is delivered |
| `Endpoints.Endpoint.Forward` | internal/chain/endpoint.go:224-273 | result, counters and breaker after a whole request |
| `Endpoints.EndpointNeverSticks` | internal/chain/endpoint.go:168-287 | over overlapping forwards and health checks failures never exceed finished requests, and with enough probe slots an idle endpoint past its timeout admits the next request |
| `Endpoints.CountersAreExact` | internal/chain/endpoint.go:168-273 | over overlapping runs `totalReqs` counts exactly the admitted forwards and the health checks, `failedReqs` exactly the forwards without a 200 and a body and the failed checks |
| `EndpointRuns.AnswersKeepClosed` | internal/chain/endpoint.go:258-287 | while the backend answers, with whatever status, a closed breaker stays closed, forgets its failures, and every request gets the backend's body |
| `EndpointRuns.UnansweredTrip` | internal/chain/endpoint.go:224-262 | a fresh breaker forwards `max(1, FailureThreshold)` unanswered requests in a row, then refuses up to and including the timeout and probes after it; one fewer leaves it closed |
| `EndpointRuns.UnconfiguredTrip` | internal/chain/chain.go:60-71 | with nothing configured: the fifth unanswered request in a row makes the breaker refuse, for exactly thirty seconds |
| `EndpointRuns.CountersCount` | internal/chain/endpoint.go:224-273 | over a run `totalReqs` grows by the requests not refused, `failedReqs` by those of them that got no 200 with a body |
| `EndpointRuns.UnguardedCounters` | internal/chain/endpoint.go:224-273 | without a breaker nothing is refused and every answered request gets its body |
| `EndpointRuns.OverlapAgrees` | internal/chain/endpoint.go:224-287 | the steps of the overlapping runs and a whole `Forward` leave breaker and counters alike |
| `RoundRobin.OwnerIsUnique` | internal/chain/loadbalancer.go:54-65 | every residue belongs to at most one endpoint |
| `RoundRobin.SelectedIsAlive` | internal/chain/loadbalancer.go:57-65 | the owner of a ticket is healthy and has positive weight |
| `RoundRobin.Fairness` | internal/chain/loadbalancer.go:41-65 | any `m` consecutive tickets choose endpoint `i` so often that the distance of `W * count` from `m * w` is at most `w * (W - w)` |
| `RoundRobin.WholeCyclesAreExact` | internal/chain/loadbalancer.go:41-65 | `k * W` consecutive tickets choose endpoint `i` exactly `k * w` times, from any counter |
| `RoundRobin.FairnessIsTight` | internal/chain/loadbalancer.go:41-65 | some counter and window reach the fairness bound |
| `RoundRobin.NeverChosen` | internal/chain/loadbalancer.go:57-65 | unhealthy and zero-weight endpoints are never chosen |
| `RoundRobin.FallbackIsUnitWeights` | internal/chain/loadbalancer.go:85-88 | the fallback's plain round robin is the weighted one with unit weights, so the same bound holds |
| `RoundRobin.FirstTicketIsOne` | docs/ARCHITECTURE.md:134-143 | with the documented weights, which endpoint serves requests 9, 10, 14, 15, 19 and 20 of a fresh balancer |
| `LoadBalancers.LoadBalancer.Next` | internal/chain/loadbalancer.go:33-74 | an error and no ticket exactly when the healthy weight is zero; otherwise the owner of the next ticket's residue; the last-resort loop is unreachable |
| `LoadBalancers.LoadBalancer.NextWithFallback` | internal/chain/loadbalancer.go:76-91 | always an endpoint if there is one, for exactly one ticket |
| `LoadBalancers.LoadBalancer.HealthyCount` | internal/chain/loadbalancer.go:93-104 | the number of healthy endpoints, as a set |
| `Retries.AttemptsAreDistinct` | internal/chain/chain.go:111-125 | the attempts of one request hit pairwise distinct endpoints, all healthy and of positive weight when it began |
| `Retries.AttemptsUseUpEndpoints` | internal/chain/chain.go:111-125 | each attempt takes exactly one endpoint out of play |
| `Retries.RetryDemotes` | internal/chain/chain.go:108-137 | exactly the failing endpoints are demoted and a responder stays healthy; total failure demotes `min(maxRetries + 1, H)` and reports "no healthy endpoints" if and only if `H <= maxRetries` |
| `Retries.OutcomeIsUnique` | internal/chain/chain.go:108-137 | the attempts and the result are determined by the state before the request and by the environment |
| `Retries.Chain.Serve` | internal/chain/chain.go:117-125 | the answer, the endpoint's breaker and counters after one service, its demotion on failure, all others untouched |
| `Retries.Chain.Select` | internal/chain/chain.go:112-115 | an endpoint exactly if there is weight, the one the ticket owns; nothing but the ticket changes |
| `Retries.Chain.Attempt` | internal/chain/chain.go:112-125 | one attempt's whole effect on tickets, flags, breakers and counters |
| `Retries.Chain.Round` | internal/chain/chain.go:111-134 | one pass of the loop either ends with a correct outcome or leaves a state reached by failures only |
| `Retries.Chain.ForwardWithRetry` | internal/chain/chain.go:108-137 | the outcome satisfies the specification that `OutcomeIsUnique` and `RetryDemotes` are about; each attempted endpoint was served exactly once, with the whole new state |
| `RetryRuns.AttemptsStayDistinct` | internal/chain/chain.go:108-137 | however requests overlap, each one's attempts hit pairwise distinct endpoints, at most `maxRetries + 1`, and exactly so many when all retries failed |
| `RetryRuns.DemotedIffFailed` | internal/chain/chain.go:125 | however requests overlap, an endpoint is demoted if and only if it failed some request |
| `RetryRuns.NoHealthyMeansAllDown` | internal/chain/chain.go:112-115 | "no healthy endpoints" is reported only when every endpoint of positive weight is down |
| `RetryRuns.LoneRequest` | internal/chain/chain.go:108-137 | a request that runs alone makes the attempts that the sequential specification prescribes |
| `HealthRounds.RoundIsOrderIndependent` | internal/chain/health.go:99-115 | every iteration order of the height map leaves the same flags, heights and highest block |
| `HealthRounds.RoundBoundsLagIff` | internal/chain/health.go:89-115 | after a round every healthy endpoint's lag lies in `[0, maxBlockLag]` if and only if no lag overflows 64 bits |
| `HealthRounds.OverflowingRound` | internal/chain/health.go:105-111 | two answers that backends can send, after which the parser and the round leave an endpoint 2^63 + 1 blocks behind marked healthy |
| `HealthRounds.SomeoneHealthyIff` | internal/chain/health.go:89-115 | with non-negative heights a round leaves an endpoint healthy if and only if some height is positive |
| `HealthRounds.HealthyIffWithinLag` | internal/chain/health.go:99-113 | after a round with block numbers for reports an endpoint is healthy if and only if it reported a positive one that no other exceeds by more than `maxBlockLag` |
| `HealthRounds.HealthyIffKeepsUp` | internal/chain/health.go:99-113 | the same for signed reports whose lags do not overflow, block zero counting as reported |
| `HealthRounds.HealthyIff` | internal/chain/health.go:99-113 | for all 64-bit reports: those that keep up, and those whose lag overflows |
| `HealthRounds.FailedCheckIsDown` | internal/chain/health.go:99-146 | an endpoint that did not answer, answered with an error or gave an unreadable result is marked unhealthy and keeps its height |
| `HealthRounds.LagInvariant` | internal/chain/health.go:89-115 | over any interleaving of request-path demotions with the single writes of rounds whose reports do not overflow, the lag bound holds whenever no round is in progress |
| `HealthRounds.HealthChecker.Collect` | internal/chain/health.go:89-97 | for every arrival order the height map and the maximum are those of the reports |
| `HealthRounds.HealthChecker.Judge` | internal/chain/health.go:99-113 | zero is unhealthy and keeps the old height; otherwise the wrapped lag decides and the height is stored |
| `HealthRounds.HealthChecker.WriteOne` | internal/chain/health.go:99-113 | one pass of the loop makes exactly the single writes, in order, that the interleaved runs are about |
| `HealthRounds.HealthChecker.WriteAll` | internal/chain/health.go:99-113 | for every visiting order the loop makes the planned writes, all but the last, which publishes the highest block |
| `HealthRounds.HealthChecker.CheckAll` | internal/chain/health.go:63-116 | a round without demotions turns the visible chain into the round's result, whatever the two orders; with block numbers for reports, exactly the endpoints within the lag are healthy |
| `BlockNumbers.DecodeString` | internal/chain/health.go:162-165 | hexadecimal decoding succeeds exactly on valid digits and yields their bytes |
| `BlockNumbers.Accumulate` | internal/chain/health.go:167-170 | the shifting accumulator computes the string's value modulo 2^64 in two's complement |
| `BlockNumbers.ParseBlockNumber` | internal/chain/health.go:149-173 | the parser computes the stated meaning of every input |
| `BlockNumbers.OrAfterShiftAdds` | internal/chain/health.go:169 | on 64-bit words the OR after a shift by eight is an addition |
| `BlockNumbers.ShiftOrIsModular` | internal/chain/health.go:169 | one accumulator step commutes with wrapping to 64 bits |
| `BlockNumbers.HexParses` | internal/chain/health.go:149-172 | every non-empty hexadecimal string, of either case and parity, with or without prefix, yields its value modulo 2^64 |
| `BlockNumbers.QuantityParses` | internal/chain/health.go:149-172 | parsing the quoted `0x` printing of any number, however large, gives it modulo 2^64 in two's complement |
| `BlockNumbers.RoundTrip` | internal/chain/health.go:149-172 | parsing inverts the quoted `0x` printing of a number if and only if it is below 2^63 |
| `BlockNumbers.DecimalFallbackIff` | internal/chain/health.go:162-165 | the decimal fallback succeeds if and only if the input is a sign followed by decimal digits in 64-bit range |
| `BlockNumbers.EveryInput` | internal/chain/health.go:149-173 | what every input means: hexadecimal digits, perhaps none, behind at most one `0x` and inside any quotes, their value modulo 2^64; a sign and decimal digits, their value or a range error; anything else a syntax error |
| `BlockNumbers.DecimalRoundTrip` | internal/chain/health.go:162-165 | parsing inverts the signed decimal printing of every 64-bit number and gives a range error for any other |
| `BlockNumbers.CaseDoesNotMatter` | internal/chain/health.go:162 | upper-case and lower-case digits have the same value |
| `BlockNumbers.Int64IsCongruent` | internal/chain/health.go:167-170 | wrapping gives the one 64-bit number congruent modulo 2^64 |
| `BlockNumbers.ReportsAreInt64` | internal/chain/health.go:118-146 | every report fits 64 bits and is non-negative for results of up to fifteen digits |
| `TokenBuckets.Take` | internal/ratelimit/ratelimit.go:69-93 | create, refill, cap and take as one value function of the buckets |
| `TokenBuckets.Sweep` | internal/ratelimit/ratelimit.go:105-109 | for every visiting order exactly the buckets idle for more than ten minutes go |
| `TokenBuckets.TokenBucketLimiter.Allow` | internal/ratelimit/ratelimit.go:60-62 | one unit of `AllowN` |
| `TokenBuckets.TokenBucketLimiter.AllowN` | internal/ratelimit/ratelimit.go:65-94 | decision and new buckets |
| `TokenBuckets.TokenBucketLimiter.Cleanup` | internal/ratelimit/ratelimit.go:96-115 | one tick of the cleanup |
| `TokenBuckets.RateLimiter.Allow` | internal/proxy/middleware.go:43-74 | the server's limiter takes the same decision for one unit, or admits all when disabled |
| `TokenBuckets.RateLimiter.Cleanup` | internal/proxy/middleware.go:77-91 | one tick of the cleanup |
| `TokenBucketRuns.BucketTracksLog` | internal/ratelimit/ratelimit.go:65-94 | the stored token count is the tightest room over all windows of the key's admission log that end now |
| `TokenBucketRuns.TokenBucketIsExact` | internal/ratelimit/ratelimit.go:65-94 | a call is granted if and only if no window from an earlier or the current call of the key would exceed `burst + rate * length` |
| `TokenBucketRuns.TokensInRange` | internal/ratelimit/ratelimit.go:79-91 | tokens stay in `[0, burst]` |
| `TokenBucketRuns.WindowBound` | internal/ratelimit/ratelimit.go:65-94 | every interval of every run admits at most `burst + rate * length` units of a key |
| `TokenBucketCleanup.SimilarRunsAgree` | internal/ratelimit/ratelimit.go:65-115 | limiters that differ by full buckets only answer alike, with and without ticks |
| `TokenBucketCleanup.DivergingRun` | internal/proxy/middleware.go:43-91 | for every limiter with `rate * 600 < burst`, a run of single requests and on-period ticks that cleanup changes |
| `TokenBucketCleanup.CleanupInvisibleIff` | internal/ratelimit/ratelimit.go:96-115 | no run notices cleanup if and only if `rate * 600 >= burst`; likewise for the runs of the server's limiter, single requests and on-period ticks |
| `SlidingWindows.SlidingWindowLimiter.constructor` | internal/ratelimit/ratelimit.go:141-152 | rate and window size for any number of seconds, no windows yet |
| `SlidingWindows.SlidingWindowLimiter.Allow` | internal/ratelimit/ratelimit.go:155-157 | one unit of `AllowN` |
| `SlidingWindows.SlidingWindowLimiter.AllowN` | internal/ratelimit/ratelimit.go:160-203 | decision and new windows, for window sizes of either sign and zero |
| `SlidingWindows.SlidingWindowLimiter.Cleanup` | internal/ratelimit/ratelimit.go:205-224 | for every visiting order exactly the windows begun more than ten minutes ago go |
| `SlidingWindowRuns.CountersAreTheLog` | internal/ratelimit/ratelimit.go:174-200 | after every call the two counters are the units granted in the current and the preceding aligned window |
| `SlidingWindowRuns.SlidingWindowIsExact` | internal/ratelimit/ratelimit.go:160-203 | a call is granted if and only if, by the admission log, this window's units, the preceding window's reduced by the elapsed fraction, and the units asked for stay within the rate |
| `SlidingWindowRuns.InstantWindowIsExact` | internal/ratelimit/ratelimit.go:160-203 | the same for window sizes of zero and less: an empty window admits nothing, a negative one bounds each instant by the rate |
| `SlidingWindowRuns.CountsInRange` | internal/ratelimit/ratelimit.go:192-200 | both counters stay in `[0, rate]` |
| `SlidingWindowRuns.IntervalEndingAtGrant` | internal/ratelimit/ratelimit.go:192-200 | an interval of at most one window length that ends at a grant at offset `e` holds at most `rate + prevCount * e / windowSize` units |
| `SlidingWindowRuns.IntervalBound` | internal/ratelimit/ratelimit.go:160-203 | no interval of at most one window length of any run holds more than the peak, which is `2 * rate` less the ceiling of `rate / windowSize` and so below twice the rate |
| `SlidingWindowRuns.IntervalBoundIsTight` | internal/ratelimit/ratelimit.go:160-203 | for every rate and window, a run that reaches the peak |
| `SlidingWindowRuns.PeakIsLeastBound` | internal/ratelimit/ratelimit.go:160-203 | a number bounds every such interval of every run if and only if it is at least the peak |
| `SlidingWindowRuns.RateIsBoundIff` | internal/ratelimit/ratelimit.go:160-203 | the plain rate is a bound if and only if it is one or the window is a single nanosecond |
| `SlidingWindowRuns.NonPositiveWindowRefuses` | internal/ratelimit/ratelimit.go:141-203 | with zero or negative seconds and a non-negative rate no unit is ever granted |
| `SlidingWindowRuns.WindowLoadDecays` | internal/ratelimit/ratelimit.go:174-195 | the weighted count of a window falls with time within a window, across a rotation and across a reset |
| `SlidingWindowRuns.RefusalKeepsLoad` | internal/ratelimit/ratelimit.go:174-202 | a refused call leaves all later weighted counts of the key as they were |
| `SlidingWindowRuns.LoadOnlyDecays` | internal/ratelimit/ratelimit.go:174-202 | with only refusals of the key in between, its weighted count never rises |
| `SlidingWindowRuns.StaysAdmissible` | internal/ratelimit/ratelimit.go:174-202 | so what would be admitted now would still be admitted later |
| `SlidingWindowCleanup.DivergingRun` | internal/ratelimit/ratelimit.go:205-224 | for every window longer than five minutes, a run of single requests and an on-period tick that cleanup changes |
| `SlidingWindowCleanup.CleanupInvisibleIff` | internal/ratelimit/ratelimit.go:174-224 | for a positive rate no run notices cleanup if and only if the window is at most 300 seconds; likewise for runs of single requests and on-period ticks |
| `MultiLimiters.MultiLimiter.SetChainLimiter` | internal/ratelimit/ratelimit.go:247-251 | replaces one chain's limiter, by any limiter |
| `MultiLimiters.MultiLimiter.Allow` | internal/ratelimit/ratelimit.go:254-270 | the decision and every limiter's new buckets, limiters shared or not: the global one stays charged when the chain refuses, and is charged twice where it also limits the chain |
| `MultiLimiters.ChargesBalance` | internal/ratelimit/ratelimit.go:254-270 | in every window of every overlapping run, units charged to a limiter are, for its global role, admissions plus per-chain refusals plus requests between the checks, and, for its chain role, the admissions of its chains |
| `MultiLimiters.ChargesAreBounded` | internal/ratelimit/ratelimit.go:254-270 | these charges together stay within the limiter's window bound |
| `MultiLimiters.GlobalLimitHolds` | internal/ratelimit/ratelimit.go:254-270 | a key's admissions over all chains stay within the global window bound |
| `MultiLimiters.ChainLimitHolds` | internal/ratelimit/ratelimit.go:254-270 | a key's admissions on all chains that share a limiter, together, stay within that limiter's window bound |
| `MultiLimiters.AdmittedIffBothGrant` | internal/ratelimit/ratelimit.go:254-270 | a request alone is admitted if and only if the global and then the chain's limiter, where there is one, grant it |
| `ConnectionPools.ConnectionPool.constructor` | internal/websocket/pool.go:47-58 | an empty open pool |
| `ConnectionPools.ConnectionPool.Get` | internal/websocket/pool.go:60-86 | the first usable connection, else a new one below the maximum, else the reason; and the whole new pool |
| `ConnectionPools.ConnectionPool.Lease` | internal/websocket/pool.go:69-72 | marks one connection used and no other |
| `ConnectionPools.ConnectionPool.Grow` | internal/websocket/pool.go:77-82 | appends one fresh leased connection |
| `ConnectionPools.ConnectionPool.Put` | internal/websocket/pool.go:119-125 | frees the connection where it is pooled, and nothing else |
| `ConnectionPools.ConnectionPool.Remove` | internal/websocket/pool.go:127-138 | splices out and closes the connection if it is pooled, else changes nothing |
| `ConnectionPools.ConnectionPool.Drop` | internal/websocket/pool.go:132-135 | closes one socket and splices it out in order |
| `ConnectionPools.ConnectionPool.Close` | internal/websocket/pool.go:140-151 | closes each pooled socket once and empties the pool |
| `ConnectionPools.ConnectionPool.Survivors` | internal/websocket/pool.go:211-227 | keeps, in order, what is leased or not idle too long, and closes the rest once each |
| `ConnectionPools.ConnectionPool.Cleanup` | internal/websocket/pool.go:203-230 | one cleanup of an open pool; a closed one is left alone |
| `ConnectionPools.ConnectionPool.GetStats` | internal/websocket/pool.go:232-250 | active and idle connections add up to the pooled ones |
| `PoolRuns.InvHolds` | internal/websocket/pool.go:60-151 | on every run sockets dialled are, as a multiset, pooled plus closed; leases are the connections in use until the pool closes |
| `PoolRuns.Conservation` | internal/websocket/pool.go:60-250 | distinct pooled connections within the maximum, no socket closed twice or pooled after closing, dialled = pooled + closed, active = leases before `Close`; also when leases come back after `Close` |
| `PoolRuns.HandOutIsExclusive` | internal/websocket/pool.go:60-86 | what is handed out is leased to nobody else and its socket is open |
| `PoolRuns.GetReuses` | internal/websocket/pool.go:68-74 | an open pool hands out the first idle connection used at most `IdleTimeout` and, if that is positive, dialled at most `MaxLifetime` ago, dialling nothing |
| `PoolRuns.GetDials` | internal/websocket/pool.go:76-85 | without one it dials as long as there is room; a failed dial or a full pool changes nothing |
| `PoolRuns.CleanupKeepsIff` | internal/websocket/pool.go:203-230 | a cleanup keeps, in order, exactly the connections leased or idle for at most `IdleTimeout`, and closes exactly the others, in order |
| `PoolLedger.HandsOutReadySockets` | internal/websocket/pool.go:60-86 | on every run: a socket handed out is dialled now, or held by nobody, last given back at most `IdleTimeout` and dialled at most `MaxLifetime` ago; and if there is such a socket, one is reused |
| `PoolLedger.CleanupClosesIdleSockets` | internal/websocket/pool.go:203-230 | on every run: a cleanup closes an open socket if and only if nobody holds it and it was last given back more than `IdleTimeout` ago |
| `PoolRuns.ExhaustedIff` | internal/websocket/pool.go:68-85 | an open pool reports exhaustion if and only if it is full and every connection is leased, used more than `IdleTimeout` ago, or dialled more than `MaxLifetime` ago |
| `PoolRuns.StaleStep` | internal/websocket/pool.go:175-230 | one step keeps a stale idle connection as it is or closes it, never hands it out; a late enough cleanup closes it |
| `PoolRuns.ClosedStaysClosed` | internal/websocket/pool.go:60-151 | a closed socket is never handed out again on any run |
| `PoolRuns.StaleConnectionDrains` | internal/websocket/pool.go:175-230 | a stale idle connection is never handed out again, and is closed after the first cleanup later than `IdleTimeout` past its last use |
| `Caches.InMemoryCache.Get` | internal/cache/cache.go:136-149 | the live entry of the key, else a miss that deletes the key |
| `Caches.InMemoryCache.Set` | internal/cache/cache.go:151-161 | stores the response under the key with its expiry |
| `CacheRuns.PrefixFreeIsUnambiguous` | internal/cache/cache.go:163-169 | prefix-free chain names and prefix-free method names make keys unambiguous for all parameters |
| `CacheRuns.JsonParamsAreUnambiguous` | internal/proxy/handler.go:28-33 | when parameters are JSON texts or absent, names are unambiguous as soon as no pair has in excess of another what could begin a JSON text |
| `CacheRuns.AmbiguousNames` | internal/cache/cache.go:163-169 | ambiguous names yield two different requests with the same digested text |
| `CacheRuns.SameTextSameRequest` | internal/cache/cache.go:163-169 | unambiguous names: equal digested text means the same request |
| `CacheRuns.RepresentedRunsAgree` | internal/cache/cache.go:136-161 | from any store that represents a history the cache and the timed map answer alike |
| `CacheRuns.ConfusedRun` | internal/cache/cache.go:163-169 | two requests of the same text: one gets the other's response |
| `CacheRuns.CacheIsTimedMapIff` | internal/cache/cache.go:136-169 | for any set of parameters, every run answers as the timed map if and only if the names are unambiguous; deletions in `Get` are never noticed |
| `CacheRuns.PrefixFreeCacheIsTimedMap` | internal/cache/cache.go:136-169 | prefix-free names: every `Get` returns the last `Set` for its triple until its time plus the lifetime, else a miss |
| `CacheRuns.ShippedNamesArePrefixFree` | configs/config.yaml:45-113 | the shipped chain names and cacheable methods are prefix-free |
| `CachedRequests.Handler.Arrive` | internal/proxy/handler.go:77-85 | only a cacheable request can be answered from the cache; the store's change |
| `CachedRequests.Handler.Complete` | internal/proxy/handler.go:87-107 | only the successful reply to a cacheable request is stored |
| `CachedRequests.StaleRun` | internal/proxy/handler.go:77-107 | for two requests of the same text, a run that serves one the other's reply |
| `CachedRequests.HitsAreFreshIff` | internal/proxy/handler.go:77-107 | with overlapping forwards, everything served from the cache is the newest backend reply to the very same cacheable request, at most the lifetime old, if and only if the names are unambiguous |
| `CachedRequests.AnsweredFromCacheIff` | internal/proxy/handler.go:77-85 | after every overlapping run a request is answered from the cache if and only if its method is cacheable and the newest reply stored for it is at most the lifetime old, and with that reply |

## Left out

General:

- Each call reads the clock once. The original may read it again within one call (a breaker's trip, the pool's
  scan), microseconds later.
- Wall-clock steps backwards; runs assume non-decreasing times where their statement says so.
- Floating-point rounding: token counts and weighted counts are exact.
- Negative endpoint weights, and a ticket counter past 2^63.
- Starting and stopping the background goroutines and their channels.

By component:

- Health flags that change during one balancer selection; the last-resort loop is reachable only then.
- An endpoint's latency, last error and last check time; TLS and HTTP client settings.
- The 100 ms pause between attempts; only a cancellation during it is modelled.
- Retries while a health round runs: a round may put a failed endpoint back, and a request may try it again.
- Breakers and counters in runs of several overlapping retries; there an attempt's failure is an input.
- The health checker's ticker; its HTTP request and JSON decoding, which are reduced to the reported height.
- The sliding window's `prevWindow` field, which is written and never read.
- The combined limiter over sliding windows.
- The pool's `GetWithWait` (a polling loop around `Get`), its ticker, and a second `Close`, which panics.
- The cache's digest is any injective function instead of a truncated SHA-256 (section 6.2 of FIPS 180-4).
- The cache has no lock; its calls are modelled as sequential.
- That a cached reply carries the caller's JSON-RPC id: it carries the original one.
- JSON parsing of requests, and the rest of the HTTP handlers around the cached path.
- The Redis cache, gRPC services, metrics, configuration loading and watching, WebSocket client
  sessions, `NewLimiter`, `ListChains`, statistics copying: plumbing with easy members only.
