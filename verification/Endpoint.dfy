/** One RPC endpoint of `internal/chain/endpoint.go`: its flag, height, counters and breaker.
    What the backend did with a request is an input. */
module Endpoints {
  import opened CircuitBreakers
  import BreakerRuns

  /** How an HTTP exchange with the backend ended. */
  datatype Reply =
    | RequestNotCreated
    | TransportFailed
    | BodyUnreadable
    | Answered(statusOk: bool, body: string)

  datatype ForwardResult = Body(body: string) | Refused | RequestFailed

  /** A reply with a status other than 200 counts as failed, yet is handed to the client and is a
      success for the breaker. */
  predicate CountsAsFailed(reply: Reply) {
    !reply.Answered? || !reply.statusOk
  }

  function AfterOutcome(c: Config, b: Breaker, reply: Reply, now: int): Breaker {
    if reply.Answered? then AfterSuccess(c, b, now) else AfterFailure(c, b, now)
  }

  class Endpoint {
    const weight: nat
    const breaker: CircuitBreaker?
    var healthy: bool
    var blockHeight: int
    var totalReqs: nat
    var failedReqs: nat

    constructor (weight: nat, breaker: CircuitBreaker?)
      ensures this.weight == weight && this.breaker == breaker
      ensures healthy && blockHeight == 0 && totalReqs == 0 && failedReqs == 0
    {
      this.weight := weight;
      this.breaker := breaker;
      healthy, blockHeight, totalReqs, failedReqs := true, 0, 0, 0;
    }

    method SetHealthy(healthy: bool)
      modifies this`healthy
      ensures this.healthy == healthy
    {
      this.healthy := healthy;
    }

    method SetBlockHeight(height: int)
      modifies this`blockHeight
      ensures blockHeight == height
    {
      blockHeight := height;
    }

    /** The first half of `Forward`: ask the breaker and count the request. */
    method Begin(now: int) returns (admitted: bool)
      modifies this`totalReqs, breaker
      ensures admitted == (breaker == null || Admits(breaker.config, old(breaker.View()), now))
      ensures breaker != null ==> breaker.View() == AfterAllow(breaker.config, old(breaker.View()), now)
      ensures totalReqs == old(totalReqs) + if admitted then 1 else 0
    {
      if breaker != null {
        admitted := breaker.Allow(now);
        if !admitted {
          return;
        }
      }
      admitted := true;
      totalReqs := totalReqs + 1;
    }

    /** The second half: the reply arrives and its outcome is recorded, once. */
    method Finish(reply: Reply, now: int) returns (r: ForwardResult)
      modifies this`failedReqs, breaker
      ensures breaker != null ==> breaker.View() == AfterOutcome(breaker.config, old(breaker.View()), reply, now)
      ensures failedReqs == old(failedReqs) + if CountsAsFailed(reply) then 1 else 0
      ensures r == if reply.Answered? then Body(reply.body) else RequestFailed
    {
      match reply
      case Answered(statusOk, body) =>
        if !statusOk {
          failedReqs := failedReqs + 1;
        }
        if breaker != null {
          breaker.RecordSuccess(now);
        }
        r := Body(body);
      case _ =>
        failedReqs := failedReqs + 1;
        if breaker != null {
          breaker.RecordFailure(now);
        }
        r := RequestFailed;
    }

    method Forward(reply: Reply, start: int, end: int) returns (r: ForwardResult)
      modifies this`totalReqs, this`failedReqs, breaker
      ensures var admitted := breaker == null || Admits(breaker.config, old(breaker.View()), start);
              && (r.Refused? <==> !admitted)
              && (admitted ==> r == if reply.Answered? then Body(reply.body) else RequestFailed)
              && totalReqs == old(totalReqs) + (if admitted then 1 else 0)
              && failedReqs == old(failedReqs) + (if admitted && CountsAsFailed(reply) then 1 else 0)
              && (breaker != null ==>
                    var asked := AfterAllow(breaker.config, old(breaker.View()), start);
                    breaker.View() == if admitted then AfterOutcome(breaker.config, asked, reply, end) else asked)
    {
      var admitted := Begin(start);
      if !admitted {
        return Refused;
      }
      r := Finish(reply, end);
    }
  }

  // ---------------------------------------------------------------- overlapping requests on one endpoint

  datatype Event =
    | Begin(now: int)
    | Finish(reply: Reply, now: int)
    | CallBegin(now: int)
    | CallEnd(failed: bool, now: int)

  /** The breaker's system (with the forwards in flight), the health-check calls in flight, the counters. */
  datatype System = System(breaker: BreakerRuns.System, calls: nat, total: nat, failed: nat)

  function BreakerEvent(e: Event): BreakerRuns.Event {
    match e
    case Begin(now) => BreakerRuns.Admit(now)
    case Finish(reply, now) => if reply.Answered? then BreakerRuns.Succeed(now) else BreakerRuns.Fail(now)
    case CallBegin(now) => BreakerRuns.Observe(now)
    case CallEnd(_, now) => BreakerRuns.Observe(now)
  }

  predicate Enabled(s: System, e: Event) {
    s.breaker.clock <= e.now && (e.Finish? ==> s.breaker.inFlight > 0) && (e.CallEnd? ==> s.calls > 0)
  }

  function Step(c: Config, s: System, e: Event): System
    requires Enabled(s, e)
  {
    var s' := s.(breaker := BreakerRuns.Step(c, s.breaker, BreakerEvent(e)));
    match e
    case Begin(now) => s'.(total := s.total + if Admits(c, s.breaker.breaker, now) then 1 else 0)
    case Finish(reply, _) => s'.(failed := s.failed + if CountsAsFailed(reply) then 1 else 0)
    case CallBegin(_) => s'.(total := s.total + 1, calls := s.calls + 1)
    case CallEnd(failed, _) => s'.(failed := s.failed + (if failed then 1 else 0), calls := s.calls - 1)
  }

  predicate Legal(c: Config, s: System, es: seq<Event>)
    decreases |es|
  {
    es == [] || (Enabled(s, es[0]) && Legal(c, Step(c, s, es[0]), es[1..]))
  }

  function Run(c: Config, s: System, es: seq<Event>): System
    requires Legal(c, s, es)
    decreases |es|
  {
    if es == [] then s else Run(c, Step(c, s, es[0]), es[1..])
  }

  function Start(clock: int): System {
    System(BreakerRuns.Start(clock), 0, 0, 0)
  }

  lemma {:induction false} CountersFrom(c: Config, s: System, es: seq<Event>)
    requires Legal(c, s, es) && BreakerRuns.Inv(c, s.breaker)
    requires s.failed + s.breaker.inFlight + s.calls <= s.total
    ensures var end := Run(c, s, es);
            BreakerRuns.Inv(c, end.breaker) && end.failed + end.breaker.inFlight + end.calls <= end.total
    decreases |es|
  {
    if es != [] {
      CountersFrom(c, Step(c, s, es[0]), es[1..]);
    }
  }

  /** On every run of overlapping forwards and health checks the failures never exceed the requests that
      are over, and when the breaker grants at least as many probes as it demands successes, an endpoint
      with nothing in flight and its timeout elapsed admits the next request. */
  lemma EndpointNeverSticks(c: Config, clock: int, es: seq<Event>)
    requires Legal(c, Start(clock), es)
    ensures var end := Run(c, Start(clock), es);
            && end.failed <= end.total - end.breaker.inFlight - end.calls
            && (c.halfOpenMaxRequests >= BreakerRuns.AtLeastOne(c.successThreshold) ==> !BreakerRuns.Wedged(c, end.breaker))
  {
    CountersFrom(c, Start(clock), es);
  }

  /** How many requests these events begin: forwards that the breaker admits, and health checks. */
  function Begun(c: Config, s: System, es: seq<Event>): nat
    requires Legal(c, s, es)
    decreases |es|
  {
    if es == [] then 0
    else
      (match es[0]
       case Begin(now) => if Admits(c, s.breaker.breaker, now) then 1 else 0
       case CallBegin(_) => 1
       case _ => 0)
      + Begun(c, Step(c, s, es[0]), es[1..])
  }

  /** How many of these events end a forward without a 200 and a body, or a health check in failure. */
  function FailedIn(es: seq<Event>): nat {
    if es == [] then 0
    else
      (match es[0]
       case Finish(Answered(true, _), _) => 0
       case Finish(_, _) => 1
       case CallEnd(true, _) => 1
       case _ => 0)
      + FailedIn(es[1..])
  }

  /** The counters count exactly these, on every run of overlapping forwards and health checks. */
  lemma {:induction false} CountersAreExact(c: Config, s: System, es: seq<Event>)
    requires Legal(c, s, es)
    ensures Run(c, s, es).total == s.total + Begun(c, s, es)
    ensures Run(c, s, es).failed == s.failed + FailedIn(es)
    decreases |es|
  {
    if es != [] {
      CountersAreExact(c, Step(c, s, es[0]), es[1..]);
    }
  }
}
