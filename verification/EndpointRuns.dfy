/** Runs of requests on one endpoint, one after the other: which replies its breaker counts as failures, and
    what its counters count. */
module EndpointRuns {
  import opened Common
  import opened CircuitBreakers
  import opened Endpoints
  import opened Retries
  import BreakerRuns

  /** A request: the backend's reply, the clock when the breaker is asked and when the reply is in. */
  datatype Use = Use(reply: Reply, start: int, end: int)

  function After(n: Node, uses: seq<Use>): Node
    decreases |uses|
  {
    if uses == [] then n else After(Served(n, uses[0].reply, uses[0].start, uses[0].end), uses[1..])
  }

  function Answers(n: Node, uses: seq<Use>): seq<ForwardResult>
    decreases |uses|
  {
    if uses == [] then []
    else
      [Answer(n, uses[0].reply, uses[0].start)]
      + Answers(Served(n, uses[0].reply, uses[0].start, uses[0].end), uses[1..])
  }

  predicate IsClosed(n: Node, failures: int) {
    n.guard.Some? && n.guard.value.breaker.state.StateClosed? && n.guard.value.breaker.failures == failures
  }

  /** While the backend answers, with whatever status, a closed breaker stays closed and forgets its failures,
      and every request gets the backend's body. */
  lemma {:induction false} AnswersKeepClosed(n: Node, failures: int, uses: seq<Use>)
    requires IsClosed(n, failures) && forall k | 0 <= k < |uses| :: uses[k].reply.Answered?
    ensures IsClosed(After(n, uses), if uses == [] then failures else 0)
    ensures |Answers(n, uses)| == |uses| && forall k | 0 <= k < |uses| :: Answers(n, uses)[k] == Body(uses[k].reply.body)
    decreases |uses|
  {
    if uses != [] {
      AnswersKeepClosed(Served(n, uses[0].reply, uses[0].start, uses[0].end), 0, uses[1..]);
    }
  }

  /** Requests that get no answer: all of them are forwarded up to the threshold, at which the breaker opens. */
  lemma {:induction false} FailuresAddUp(n: Node, failures: nat, uses: seq<Use>)
    requires IsClosed(n, failures) && uses != [] && forall k | 0 <= k < |uses| :: !uses[k].reply.Answered?
    requires failures + |uses| <= BreakerRuns.AtLeastOne(n.guard.value.config.failureThreshold)
    ensures forall a | a in Answers(n, uses) :: a == RequestFailed
    ensures if failures + |uses| < BreakerRuns.AtLeastOne(n.guard.value.config.failureThreshold)
            then IsClosed(After(n, uses), failures + |uses|) && After(n, uses).guard.value.config == n.guard.value.config
            else OpenedAt(After(n, uses), n.guard.value.config, uses[|uses| - 1].end)
    decreases |uses|
  {
    var next, rest := Served(n, uses[0].reply, uses[0].start, uses[0].end), uses[1..];
    if rest != [] {
      FailuresAddUp(next, failures + 1, rest);
    } else {
      assert After(next, rest) == next;
    }
  }

  predicate OpenedAt(n: Node, c: Config, t: int) {
    && n.guard.Some? && n.guard.value.config == c
    && n.guard.value.breaker.state.StateOpen? && n.guard.value.breaker.lastFailureTime == t
    && n.guard.value.breaker.halfOpenRequests == 0
  }

  /** A fresh breaker that sees `max(1, failureThreshold)` requests in a row go without an answer has let all
      of them through, then refuses up to and including the timeout after the last of them, and lets a probe
      through after that. One request fewer leaves it closed. */
  lemma UnansweredTrip(c: Config, total: nat, failed: nat, uses: seq<Use>, reply: Reply, now: int)
    requires |uses| == BreakerRuns.AtLeastOne(c.failureThreshold) && forall k | 0 <= k < |uses| :: !uses[k].reply.Answered?
    ensures var n := Node(Some(Guard(c, INITIAL)), total, failed);
            && (forall a | a in Answers(n, uses) :: a == RequestFailed)
            && (now - uses[|uses| - 1].end <= c.timeout ==> Answer(After(n, uses), reply, now) == Refused)
            && (now - uses[|uses| - 1].end > c.timeout && c.halfOpenMaxRequests > 0 ==> !Answer(After(n, uses), reply, now).Refused?)
            && IsClosed(After(n, uses[..|uses| - 1]), |uses| - 1)
  {
    var n := Node(Some(Guard(c, INITIAL)), total, failed);
    FailuresAddUp(n, 0, uses);
    if |uses| > 1 {
      FailuresAddUp(n, 0, uses[..|uses| - 1]);
    }
  }

  /** A breaker whose chain configures nothing refuses from the fifth unanswered request in a row on, for
      thirty seconds (in nanoseconds). */
  lemma UnconfiguredTrip(uses: seq<Use>, reply: Reply, now: int)
    requires |uses| == 5 && forall k | 0 <= k < |uses| :: !uses[k].reply.Answered?
    ensures var n := Node(Some(Guard(WithDefaults(Config(0, 0, 0, 0)), INITIAL)), 0, 0);
            && (Answer(After(n, uses), reply, now).Refused? <==> now <= uses[4].end + 30_000_000_000)
            && IsClosed(After(n, uses[..4]), 4)
  {
    UnansweredTrip(WithDefaults(Config(0, 0, 0, 0)), 0, 0, uses, reply, now);
  }

  // ---------------------------------------------------------------- the counters

  /** How many of these answers were not refusals. */
  function Forwarded(answers: seq<ForwardResult>): nat {
    if answers == [] then 0 else (if answers[0].Refused? then 0 else 1) + Forwarded(answers[1..])
  }

  /** How many of these requests were forwarded and did not get a 200 with a body. */
  function Bad(answers: seq<ForwardResult>, uses: seq<Use>): nat
    requires |answers| == |uses|
  {
    if uses == [] then 0
    else
      (match (answers[0], uses[0].reply)
       case (Refused, _) => 0
       case (_, Answered(true, _)) => 0
       case _ => 1)
      + Bad(answers[1..], uses[1..])
  }

  /** `totalReqs` grows by the requests forwarded and `failedReqs` by those of them whose reply was not a 200
      with a body; refusals count for neither. */
  lemma {:induction false} CountersCount(n: Node, uses: seq<Use>)
    ensures |Answers(n, uses)| == |uses|
    ensures After(n, uses).totalReqs == n.totalReqs + Forwarded(Answers(n, uses))
    ensures After(n, uses).failedReqs == n.failedReqs + Bad(Answers(n, uses), uses)
    decreases |uses|
  {
    if uses != [] {
      var next, rest := Served(n, uses[0].reply, uses[0].start, uses[0].end), uses[1..];
      CountersCount(next, rest);
      assert Answers(n, uses)[1..] == Answers(next, rest);
    }
  }

  /** Without a breaker nothing is refused: every reply that is not a 200 with a body counts as failed. */
  lemma {:induction false} UnguardedCounters(n: Node, uses: seq<Use>)
    requires n.guard.None?
    ensures Forwarded(Answers(n, uses)) == |uses| == |Answers(n, uses)|
    ensures forall k | 0 <= k < |uses| ::
              Answers(n, uses)[k] == if uses[k].reply.Answered? then Body(uses[k].reply.body) else RequestFailed
    decreases |uses|
  {
    if uses != [] {
      var next, rest := Served(n, uses[0].reply, uses[0].start, uses[0].end), uses[1..];
      UnguardedCounters(next, rest);
      assert Answers(n, uses)[1..] == Answers(next, rest);
    }
  }

  // ---------------------------------------------------------------- the overlapping runs

  /** The runs of overlapping requests record the outcomes that one request after the other does: a request
      alone takes breaker and counters from one to the next alike. */
  lemma OverlapAgrees(c: Config, s: Endpoints.System, reply: Reply, start: int, end: int)
    requires s.breaker.clock <= start <= end
    ensures var begun := Step(c, s, Endpoints.Begin(start));
            var n := Node(Some(Guard(c, s.breaker.breaker)), s.total, s.failed);
            if Answer(n, reply, start).Refused? then begun.breaker.breaker == s.breaker.breaker && begun.total == s.total
            else
              var over := Step(c, begun, Endpoints.Finish(reply, end));
              Served(n, reply, start, end) == Node(Some(Guard(c, over.breaker.breaker)), over.total, over.failed)
  {}
}
