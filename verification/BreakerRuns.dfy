/** Whole runs of one circuit breaker with any number of requests in flight. */
module BreakerRuns {
  import opened Common
  import opened CircuitBreakers

  /** One atomic call. `Observe` stands for `State` and `Stats`. */
  datatype Event =
    | Admit(now: int)
    | Succeed(now: int)
    | Fail(now: int)
    | ManualReset(now: int)
    | Observe(now: int)

  function Next(c: Config, b: Breaker, e: Event): Breaker {
    match e
    case Admit(now) => AfterAllow(c, b, now)
    case Succeed(now) => AfterSuccess(c, b, now)
    case Fail(now) => AfterFailure(c, b, now)
    case ManualReset(_) => Closed(b)
    case Observe(_) => b
  }

  /** The breaker, the number of admitted requests that have not yet recorded their outcome,
      and the time of the last call. */
  datatype System = System(breaker: Breaker, inFlight: nat, clock: int)

  /** The clock does not run backwards, and an outcome belongs to an admitted request. */
  predicate Enabled(s: System, e: Event) {
    s.clock <= e.now && (e.Succeed? || e.Fail? ==> s.inFlight > 0)
  }

  function Step(c: Config, s: System, e: Event): System {
    var inFlight :=
      if e.Admit? && Admits(c, s.breaker, e.now) then s.inFlight + 1
      else if (e.Succeed? || e.Fail?) && s.inFlight > 0 then s.inFlight - 1
      else s.inFlight;
    System(Next(c, s.breaker, e), inFlight, e.now)
  }

  predicate Legal(c: Config, s: System, es: seq<Event>)
    decreases |es|
  {
    es == [] || (Enabled(s, es[0]) && Legal(c, Step(c, s, es[0]), es[1..]))
  }

  function Run(c: Config, s: System, es: seq<Event>): System
    decreases |es|
  {
    if es == [] then s else Run(c, Step(c, s, es[0]), es[1..])
  }

  function Start(clock: int): System {
    System(INITIAL, 0, clock)
  }

  /** A threshold of zero or less acts like one: the first failure (success) already reaches it. */
  function AtLeastOne(threshold: int): int {
    Max(1, threshold)
  }

  predicate Inv(c: Config, s: System) {
    var b := s.breaker;
    && !b.state.StateHalfOpen?
    && 0 <= b.halfOpenRequests <= Max(0, c.halfOpenMaxRequests)
    && (b.state.StateClosed? ==>
          0 <= b.failures < AtLeastOne(c.failureThreshold) && b.successes == 0 && b.halfOpenRequests == 0)
    && (b.state.StateOpen? ==>
          && b.failures == AtLeastOne(c.failureThreshold)
          && 0 <= b.successes < AtLeastOne(c.successThreshold)
          && b.halfOpenRequests <= s.inFlight + b.successes
          && (s.clock - b.lastFailureTime <= c.timeout ==> b.successes == 0 && b.halfOpenRequests == 0))
  }

  /** Counters stay within their thresholds, the half-open state is never stored, and while open
      every probe slot that was handed out is accounted for by a request still in flight or by a
      recorded success: on every run, for every configuration. */
  lemma {:induction false} InvHolds(c: Config, s: System, es: seq<Event>)
    requires Inv(c, s) && Legal(c, s, es)
    ensures Inv(c, Run(c, s, es))
    decreases |es|
  {
    if es != [] {
      InvHolds(c, Step(c, s, es[0]), es[1..]);
    }
  }

  /** The timeout has elapsed and nothing is in flight, yet the next request is refused. */
  predicate Wedged(c: Config, s: System) {
    s.inFlight == 0 && CurrentState(c, s.breaker, s.clock).StateHalfOpen? && !Admits(c, s.breaker, s.clock)
  }

  predicate LeadsToWedge(c: Config, s: System, es: seq<Event>) {
    Legal(c, s, es) && Wedged(c, Run(c, s, es))
  }

  /** Some legal run of a fresh breaker ends in a wedge. */
  ghost predicate CanWedge(c: Config, clock: int) {
    exists es :: LeadsToWedge(c, Start(clock), es)
  }

  /** Walks an idle state whose successes all came from probes towards the wedge: fail until the breaker
      trips, wait out the timeout, then use up every probe slot with successes that stay below the
      threshold. */
  lemma {:induction false} DriveFromProbes(c: Config, s: System) returns (es: seq<Event>)
    requires c.halfOpenMaxRequests < AtLeastOne(c.successThreshold)
    requires Inv(c, s) && s.inFlight == 0 && s.breaker.successes <= s.breaker.halfOpenRequests
    ensures LeadsToWedge(c, s, es)
    decreases
      if s.breaker.state.StateClosed? then 2
      else if CurrentState(c, s.breaker, s.clock).StateOpen? then 1
      else 0,
      if s.breaker.state.StateClosed? then AtLeastOne(c.failureThreshold) - s.breaker.failures
      else c.halfOpenMaxRequests - s.breaker.halfOpenRequests
  {
    var b, now := s.breaker, s.clock;
    if b.state.StateClosed? {
      es := DriveAfter(c, s, Admit(now), Fail(now));
    } else if CurrentState(c, b, now).StateOpen? {
      var wait := Observe(b.lastFailureTime + Max(c.timeout, 0) + 1 + Max(0, now - b.lastFailureTime));
      var rest := DriveFromProbes(c, Step(c, s, wait));
      es := [wait] + rest;
    } else if Admits(c, b, now) {
      es := DriveAfter(c, s, Admit(now), Succeed(now));
    } else {
      es := [];
    }
  }

  lemma {:induction false} DriveAfter(c: Config, s: System, e: Event, f: Event) returns (es: seq<Event>)
    requires c.halfOpenMaxRequests < AtLeastOne(c.successThreshold)
    requires Inv(c, s) && s.inFlight == 0 && s.breaker.successes <= s.breaker.halfOpenRequests
    requires e == Admit(s.clock) && Admits(c, s.breaker, s.clock)
    requires f == if s.breaker.state.StateClosed? then Fail(s.clock) else Succeed(s.clock)
    ensures LeadsToWedge(c, s, es)
    decreases
      if s.breaker.state.StateClosed? then 2
      else if CurrentState(c, s.breaker, s.clock).StateOpen? then 1
      else 0,
      if s.breaker.state.StateClosed? then AtLeastOne(c.failureThreshold) - s.breaker.failures
      else c.halfOpenMaxRequests - s.breaker.halfOpenRequests,
      0
  {
    var s1 := Step(c, s, e);
    var s2 := Step(c, s1, f);
    var rest := DriveFromProbes(c, s2);
    es := [e, f] + rest;
    assert es[1..] == [f] + rest && es[1..][1..] == rest;
  }

  /** From every idle state that a run can reach some run leads to the wedge. Late successes, of requests
      admitted before the trip, may have put the successes ahead of the probes; then one more probe either
      closes the breaker or uses up a slot. */
  lemma {:induction false} DriveToWedge(c: Config, s: System) returns (es: seq<Event>)
    requires c.halfOpenMaxRequests < AtLeastOne(c.successThreshold)
    requires Inv(c, s) && s.inFlight == 0
    ensures LeadsToWedge(c, s, es)
    decreases c.halfOpenMaxRequests - s.breaker.halfOpenRequests
  {
    var b, now := s.breaker, s.clock;
    if b.successes <= b.halfOpenRequests {
      es := DriveFromProbes(c, s);
    } else if Admits(c, b, now) {
      var e, f := Admit(now), Succeed(now);
      var s2 := Step(c, Step(c, s, e), f);
      var rest;
      if s2.breaker.state.StateClosed? {
        rest := DriveFromProbes(c, s2);
      } else {
        rest := DriveToWedge(c, s2);
      }
      es := [e, f] + rest;
      assert es[1..] == [f] + rest && es[1..][1..] == rest;
    } else {
      es := [];
    }
  }

  /** A fresh breaker can reach a wedge exactly when it grants fewer probes than it demands
      successes; with `halfOpenMaxRequests >= successThreshold >= 1` no interleaving does. */
  lemma {:induction false} WedgeReachableIff(c: Config, clock: int)
    ensures CanWedge(c, clock) <==> c.halfOpenMaxRequests < AtLeastOne(c.successThreshold)
  {
    if c.halfOpenMaxRequests < AtLeastOne(c.successThreshold) {
      var es := DriveToWedge(c, Start(clock));
      assert LeadsToWedge(c, Start(clock), es);
    } else {
      forall es | Legal(c, Start(clock), es)
        ensures !LeadsToWedge(c, Start(clock), es)
      {
        InvHolds(c, Start(clock), es);
      }
    }
  }

  /** A wedge is permanent: without a manual reset no later call changes the breaker or is admitted,
      and one reset ends it. */
  lemma {:induction false} WedgeIsPermanent(c: Config, s: System, es: seq<Event>)
    requires Wedged(c, s) && Legal(c, s, es)
    requires forall e | e in es :: !e.ManualReset?
    ensures Wedged(c, Run(c, s, es)) && Run(c, s, es).breaker == s.breaker
    ensures forall now :: Admits(c, Next(c, Run(c, s, es).breaker, ManualReset(now)), now)
    decreases |es|
  {
    if es != [] {
      assert es[0] in es;
      WedgeIsPermanent(c, Step(c, s, es[0]), es[1..]);
    }
  }

  /** After the default filling a chain's breaker can wedge exactly when a configured success
      threshold exceeds the (configured or default) number of probes. In particular the untouched
      configuration is safe, and raising only the success threshold to four or more is not. */
  lemma FilledConfigWedgesIff(c: Config, clock: int)
    ensures CanWedge(WithDefaults(c), clock) <==> if c.halfOpenMaxRequests == 0 then c.successThreshold >= 4
                 else if c.successThreshold == 0 then c.halfOpenMaxRequests < 2
                 else c.halfOpenMaxRequests < AtLeastOne(c.successThreshold)
  {
    WedgeReachableIff(WithDefaults(c), clock);
  }

  // ---------------------------------------------------------------- episodes

  predicate Trips(c: Config, b: Breaker, e: Event) {
    e.Fail? && Next(c, b, e).state.StateOpen? && !CurrentState(c, b, e.now).StateOpen?
  }

  predicate Closes(c: Config, b: Breaker, e: Event) {
    e.ManualReset? || (e.Succeed? && b.state.StateOpen? && Next(c, b, e).state.StateClosed?)
  }

  /** No event of the run trips or closes the breaker. */
  predicate SameEpisode(c: Config, b: Breaker, es: seq<Event>)
    decreases |es|
  {
    es == [] || (!Trips(c, b, es[0]) && !Closes(c, b, es[0]) && SameEpisode(c, Next(c, b, es[0]), es[1..]))
  }

  /** The times at which requests were admitted. */
  function Admissions(c: Config, b: Breaker, es: seq<Event>): seq<int>
    decreases |es|
  {
    if es == [] then []
    else
      (if es[0].Admit? && Admits(c, b, es[0].now) then [es[0].now] else [])
      + Admissions(c, Next(c, b, es[0]), es[1..])
  }

  /** Within one open episode the probe counter counts the admissions, so a breaker with `k` probes
      already handed out admits at most the remainder, and only after the timeout. */
  lemma {:induction false} EpisodeFrom(c: Config, b: Breaker, es: seq<Event>)
    requires b.state.StateOpen? && 0 <= b.halfOpenRequests <= Max(0, c.halfOpenMaxRequests)
    requires SameEpisode(c, b, es)
    ensures b.halfOpenRequests + |Admissions(c, b, es)| <= Max(0, c.halfOpenMaxRequests)
    ensures forall t | t in Admissions(c, b, es) :: t > b.lastFailureTime + c.timeout
    decreases |es|
  {
    if es != [] {
      EpisodeFrom(c, Next(c, b, es[0]), es[1..]);
    }
  }

  /** After a trip at `t0` nothing is admitted up to and including `t0 + timeout`, and at most
      `halfOpenMaxRequests` requests are admitted before the next trip or reset. */
  lemma EpisodeBound(c: Config, b: Breaker, t0: int, es: seq<Event>)
    requires Trips(c, b, Fail(t0)) && SameEpisode(c, Next(c, b, Fail(t0)), es)
    requires !b.state.StateHalfOpen?
    ensures |Admissions(c, Next(c, b, Fail(t0)), es)| <= Max(0, c.halfOpenMaxRequests)
    ensures forall t | t in Admissions(c, Next(c, b, Fail(t0)), es) :: t > t0 + c.timeout
  {
    EpisodeFrom(c, Next(c, b, Fail(t0)), es);
  }

  // ---------------------------------------------------------------- a failing backend behind Execute

  /** A call of `Execute`: the clock before and after. */
  datatype Call = Call(start: int, end: int)

  predicate InOrder(clock: int, calls: seq<Call>)
    decreases |calls|
  {
    calls == [] || (clock <= calls[0].start <= calls[0].end && InOrder(calls[0].end, calls[1..]))
  }

  /** When the always-failing function really ran. */
  function FailingRuns(c: Config, b: Breaker, calls: seq<Call>): seq<int>
    decreases |calls|
  {
    if calls == [] then []
    else
      (if Admits(c, b, calls[0].start) then [calls[0].start] else [])
      + FailingRuns(c, AfterExecute(c, b, true, calls[0].start, calls[0].end), calls[1..])
  }

  lemma {:induction false} OpenRunsAreSpaced(c: Config, b: Breaker, clock: int, calls: seq<Call>, i: nat)
    requires c.timeout > 0 && b.state.StateOpen? && InOrder(clock, calls)
    requires i < |FailingRuns(c, b, calls)|
    ensures FailingRuns(c, b, calls)[i] > b.lastFailureTime + (i + 1) * c.timeout
    decreases |calls|
  {
    var next := AfterExecute(c, b, true, calls[0].start, calls[0].end);
    if !Admits(c, b, calls[0].start) {
      OpenRunsAreSpaced(c, next, calls[0].end, calls[1..], i);
    } else if i > 0 {
      OpenRunsAreSpaced(c, next, calls[0].end, calls[1..], i - 1);
      assert (i + 1) * c.timeout == i * c.timeout + c.timeout;
    }
  }

  lemma {:induction false} RunsAreSpaced(c: Config, b: Breaker, clock: int, calls: seq<Call>, i: nat)
    requires c.timeout > 0 && b.state.StateClosed? && InOrder(clock, calls)
    requires 0 <= b.failures < AtLeastOne(c.failureThreshold)
    requires AtLeastOne(c.failureThreshold) - b.failures <= i < |FailingRuns(c, b, calls)|
    ensures FailingRuns(c, b, calls)[i]
            > clock + (i - (AtLeastOne(c.failureThreshold) - b.failures) + 1) * c.timeout
    decreases |calls|
  {
    var next := AfterExecute(c, b, true, calls[0].start, calls[0].end);
    if next.state.StateClosed? {
      RunsAreSpaced(c, next, calls[0].end, calls[1..], i - 1);
    } else {
      OpenRunsAreSpaced(c, next, calls[0].end, calls[1..], i - 1);
    }
  }

  function CountUpTo(runs: seq<int>, deadline: int): nat {
    if runs == [] then 0 else CountUpTo(runs[..|runs| - 1], deadline) + (if runs[|runs| - 1] <= deadline then 1 else 0)
  }

  lemma {:induction false} CountAtMost(runs: seq<int>, deadline: int, n: nat)
    requires forall i | n <= i < |runs| :: runs[i] > deadline
    ensures CountUpTo(runs, deadline) <= n
  {
    if |runs| > n {
      CountAtMost(runs[..|runs| - 1], deadline, n);
    } else if runs != [] {
      CountAtMost(runs[..|runs| - 1], deadline, n - 1);
    }
  }

  lemma MultipleExceeds(x: nat, d: int, k: int)
    requires d > 0 && k >= x / d + 1
    ensures k * d >= x
  {
    var q := x / d;
    assert x == q * d + x % d;
    MulMonotone(q + 1, k, d);
    assert (q + 1) * d == q * d + d;
  }

  lemma LateRun(c: Config, calls: seq<Call>, horizon: nat, i: nat)
    requires c.timeout > 0 && calls != [] && InOrder(calls[0].start, calls)
    requires AtLeastOne(c.failureThreshold) + horizon / c.timeout <= i < |FailingRuns(c, INITIAL, calls)|
    ensures FailingRuns(c, INITIAL, calls)[i] > calls[0].start + horizon
  {
    RunsAreSpaced(c, INITIAL, calls[0].start, calls, i);
    MultipleExceeds(horizon, c.timeout, i - AtLeastOne(c.failureThreshold) + 1);
  }

  /** Behind a fresh breaker an always-failing function is run at most
      `failureThreshold + horizon / timeout` times in the first `horizon` time units after its first run. */
  lemma {:induction false} FailingFunctionRunsRarely(c: Config, calls: seq<Call>, horizon: nat)
    requires c.timeout > 0 && calls != [] && InOrder(calls[0].start, calls)
    ensures CountUpTo(FailingRuns(c, INITIAL, calls), calls[0].start + horizon)
            <= AtLeastOne(c.failureThreshold) + horizon / c.timeout
    ensures FailingRuns(c, INITIAL, calls)[0] == calls[0].start
  {
    var runs, threshold := FailingRuns(c, INITIAL, calls), AtLeastOne(c.failureThreshold);
    forall i | threshold + horizon / c.timeout <= i < |runs|
      ensures runs[i] > calls[0].start + horizon
    {
      LateRun(c, calls, horizon, i);
    }
    CountAtMost(runs, calls[0].start + horizon, threshold + horizon / c.timeout);
  }

  // ---------------------------------------------------------------- the textbook machine

  /** The three-state breaker of the textbook: half-open is a stored state that a timer enters. */
  datatype Textbook =
    | TClosed(failures: int, lastTrip: int)
    | TOpen(failures: int, lastTrip: int)
    | THalfOpen(failures: int, lastTrip: int, successes: int, probes: int)

  function Timer(c: Config, t: Textbook, now: int): Textbook {
    if t.TOpen? && now - t.lastTrip > c.timeout then THalfOpen(t.failures, t.lastTrip, 0, 0) else t
  }

  function Act(c: Config, t: Textbook, e: Event): Textbook {
    match (t, e)
    case (_, ManualReset(_)) => TClosed(0, t.lastTrip)
    case (TClosed(_, last), Succeed(_)) => TClosed(0, last)
    case (TClosed(f, last), Fail(now)) => if f + 1 >= c.failureThreshold then TOpen(f + 1, now) else TClosed(f + 1, last)
    case (THalfOpen(f, last, s, p), Admit(_)) => if p < c.halfOpenMaxRequests then THalfOpen(f, last, s, p + 1) else t
    case (THalfOpen(f, last, s, p), Succeed(_)) =>
      if s + 1 >= c.successThreshold then TClosed(0, last) else THalfOpen(f, last, s + 1, p)
    case (THalfOpen(f, _, _, _), Fail(now)) => TOpen(f, now)
    case _ => t
  }

  datatype Output = Allowed(bool) | Snapshot(Stats) | NoOutput

  function Response(c: Config, b: Breaker, e: Event): Output {
    match e
    case Admit(now) => Allowed(Admits(c, b, now))
    case Observe(now) => Snapshot(StatsOf(c, b, now))
    case _ => NoOutput
  }

  function TextbookResponse(c: Config, t: Textbook, e: Event): Output {
    match (t, e)
    case (TClosed(_, _), Admit(_)) => Allowed(true)
    case (TOpen(_, _), Admit(_)) => Allowed(false)
    case (THalfOpen(_, _, _, p), Admit(_)) => Allowed(p < c.halfOpenMaxRequests)
    case (TClosed(f, last), Observe(_)) => Snapshot(Stats(StateClosed, f, 0, last, 0))
    case (TOpen(f, last), Observe(_)) => Snapshot(Stats(StateOpen, f, 0, last, 0))
    case (THalfOpen(f, last, s, p), Observe(_)) => Snapshot(Stats(StateHalfOpen, f, s, last, p))
    case _ => NoOutput
  }

  function Responses(c: Config, b: Breaker, es: seq<Event>): seq<Output>
    decreases |es|
  {
    if es == [] then [] else [Response(c, b, es[0])] + Responses(c, Next(c, b, es[0]), es[1..])
  }

  function TextbookResponses(c: Config, t: Textbook, es: seq<Event>): seq<Output>
    decreases |es|
  {
    if es == [] then []
    else
      var timed := Timer(c, t, es[0].now);
      [TextbookResponse(c, timed, es[0])] + TextbookResponses(c, Act(c, timed, es[0]), es[1..])
  }

  predicate TimesInOrder(clock: int, es: seq<Event>)
    decreases |es|
  {
    es == [] || (clock <= es[0].now && TimesInOrder(es[0].now, es[1..]))
  }

  predicate Simulates(c: Config, b: Breaker, t: Textbook, clock: int) {
    && t.failures == b.failures && t.lastTrip == b.lastFailureTime
    && match t
       case TClosed(_, _) => b.state.StateClosed? && b.successes == 0 && b.halfOpenRequests == 0
       case TOpen(_, _) => b.state.StateOpen? && b.successes == 0 && b.halfOpenRequests == 0
       case THalfOpen(_, last, s, p) =>
         b.state.StateOpen? && b.successes == s && b.halfOpenRequests == p && clock - last > c.timeout
  }

  lemma {:induction false} SimulationAgrees(c: Config, b: Breaker, t: Textbook, clock: int, es: seq<Event>)
    requires Simulates(c, b, t, clock) && TimesInOrder(clock, es)
    ensures Responses(c, b, es) == TextbookResponses(c, t, es)
    decreases |es|
  {
    if es != [] {
      SimulationAgrees(c, Next(c, b, es[0]), Act(c, Timer(c, t, es[0].now), es[0]), es[0].now, es[1..]);
    }
  }

  /** On every timed sequence of calls the breaker, which stores two states and derives half-open
      from the clock, answers `Allow`, `State` and `Stats` exactly like the three-state machine. */
  lemma RefinesTextbook(c: Config, clock: int, es: seq<Event>)
    requires TimesInOrder(clock, es)
    ensures Responses(c, INITIAL, es) == TextbookResponses(c, TClosed(0, 0), es)
  {
    SimulationAgrees(c, INITIAL, TClosed(0, 0), clock, es);
  }

  // ---------------------------------------------------------------- sequential Executes

  /** What a breaker makes of a whole sequence of `Execute`s whose functions fail as given. */
  function AfterCalls(c: Config, b: Breaker, calls: seq<Call>, fails: seq<bool>): Breaker
    requires |calls| == |fails|
    decreases |calls|
  {
    if calls == [] then b
    else AfterCalls(c, AfterExecute(c, b, fails[0], calls[0].start, calls[0].end), calls[1..], fails[1..])
  }

  /** The atomic calls that these `Execute`s make: ask, and record the outcome of a function that ran. */
  function CallEvents(c: Config, b: Breaker, calls: seq<Call>, fails: seq<bool>): seq<Event>
    requires |calls| == |fails|
    decreases |calls|
  {
    if calls == [] then []
    else
      var ask := Admit(calls[0].start);
      var record := if fails[0] then Fail(calls[0].end) else Succeed(calls[0].end);
      if Response(c, b, ask) == Allowed(true)
      then [ask, record] + CallEvents(c, Next(c, Next(c, b, ask), record), calls[1..], fails[1..])
      else [ask] + CallEvents(c, b, calls[1..], fails[1..])
  }

  /** Sequential `Execute`s are runs of the atomic calls, so all that is said of runs holds of them. */
  lemma {:induction false} ExecutesAreRuns(c: Config, s: System, calls: seq<Call>, fails: seq<bool>)
    requires |calls| == |fails| && s.inFlight == 0 && InOrder(s.clock, calls)
    ensures var es := CallEvents(c, s.breaker, calls, fails);
            Legal(c, s, es) && Run(c, s, es).breaker == AfterCalls(c, s.breaker, calls, fails) && Run(c, s, es).inFlight == 0
    decreases |calls|
  {
    if calls != [] {
      var ask := Admit(calls[0].start);
      var record := if fails[0] then Fail(calls[0].end) else Succeed(calls[0].end);
      var s1 := Step(c, s, ask);
      if Admits(c, s.breaker, calls[0].start) {
        var s2 := Step(c, s1, record);
        ExecutesAreRuns(c, s2, calls[1..], fails[1..]);
        ConsTwo(c, s, ask, record, CallEvents(c, s2.breaker, calls[1..], fails[1..]));
      } else {
        LaterStart(s1.clock, calls[0].end, calls[1..]);
        ExecutesAreRuns(c, s1, calls[1..], fails[1..]);
        assert ([ask] + CallEvents(c, s.breaker, calls[1..], fails[1..]))[1..] == CallEvents(c, s.breaker, calls[1..], fails[1..]);
      }
    }
  }

  lemma ConsTwo(c: Config, s: System, e: Event, f: Event, rest: seq<Event>)
    ensures Run(c, s, [e, f] + rest) == Run(c, Step(c, Step(c, s, e), f), rest)
    ensures Legal(c, s, [e, f] + rest)
            <==> Enabled(s, e) && Enabled(Step(c, s, e), f) && Legal(c, Step(c, Step(c, s, e), f), rest)
  {
    assert ([e, f] + rest)[1..] == [f] + rest && ([f] + rest)[1..] == rest;
  }

  lemma LaterStart(clock: int, later: int, calls: seq<Call>)
    requires clock <= later && InOrder(later, calls)
    ensures InOrder(clock, calls)
  {}

  /** A function that never fails is run by every `Execute` of a closed breaker, which stays closed. */
  lemma {:induction false} SucceedingFunctionAlwaysRuns(c: Config, b: Breaker, calls: seq<Call>, fails: seq<bool>, k: nat)
    requires b.state.StateClosed? && |calls| == |fails| && k < |calls| && forall i | 0 <= i < |fails| :: !fails[i]
    ensures Admits(c, AfterCalls(c, b, calls[..k], fails[..k]), calls[k].start)
    ensures AfterCalls(c, b, calls, fails) == b.(failures := 0)
    decreases |calls|
  {
    var next := AfterExecute(c, b, fails[0], calls[0].start, calls[0].end);
    if k > 0 {
      SucceedingFunctionAlwaysRuns(c, next, calls[1..], fails[1..], k - 1);
      assert calls[..k][1..] == calls[1..][..k - 1] && fails[..k][1..] == fails[1..][..k - 1];
    } else if |calls| > 1 {
      SucceedingFunctionAlwaysRuns(c, next, calls[1..], fails[1..], 0);
    }
  }
}
