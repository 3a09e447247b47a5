/** The request path with retries of `internal/chain/chain.go`, and what a sequence of retries does to
    the health flags. No health round runs meanwhile; the delay between attempts is left out, but the
    caller may cancel during it. */
module Retries {
  import opened Common
  import opened CircuitBreakers
  import opened Endpoints
  import opened LoadBalancers
  import opened RoundRobin

  /** The flags after every attempted endpoint has been demoted. */
  function Demoted(healthy: seq<bool>, attempts: seq<nat>): (h: seq<bool>)
    ensures |h| == |healthy|
    ensures forall i | 0 <= i < |h| :: h[i] == (healthy[i] && i !in attempts)
  {
    seq(|healthy|, i requires 0 <= i < |healthy| => healthy[i] && i !in attempts)
  }

  /** Each attempt is what the balancer selects with the next ticket once the earlier attempts are demoted. */
  predicate Tried(weights: seq<nat>, healthy: seq<bool>, current: nat, attempts: seq<nat>)
    requires |weights| == |healthy|
  {
    attempts == [] ||
    var before := attempts[..|attempts| - 1];
    && Tried(weights, healthy, current, before)
    && Total(weights, Demoted(healthy, before)) > 0
    && attempts[|attempts| - 1] == Selected(weights, Demoted(healthy, before), current + |attempts|)
  }

  lemma TriedAppend(weights: seq<nat>, healthy: seq<bool>, current: nat, attempts: seq<nat>, h: seq<bool>, ticket: nat, i: nat)
    requires |weights| == |healthy| && Tried(weights, healthy, current, attempts)
    requires h == Demoted(healthy, attempts) && ticket == current + |attempts| + 1
    requires Total(weights, h) > 0 && i == Selected(weights, h, ticket)
    ensures Tried(weights, healthy, current, attempts + [i])
    ensures i < |weights| && i !in attempts && Demoted(healthy, attempts + [i]) == h[i := false]
  {
    assert (attempts + [i])[..|attempts|] == attempts;
  }

  lemma LastAttemptIsNew(weights: seq<nat>, healthy: seq<bool>, current: nat, attempts: seq<nat>)
    requires |weights| == |healthy| && Tried(weights, healthy, current, attempts) && attempts != []
    ensures var before, last := attempts[..|attempts| - 1], attempts[|attempts| - 1];
            && Tried(weights, healthy, current, before)
            && last < |weights| && healthy[last] && weights[last] > 0 && last !in before
  {
    var h := Demoted(healthy, attempts[..|attempts| - 1]);
    SelectedIsAlive(weights, h, current + |attempts|);
  }

  /** The attempts hit pairwise distinct endpoints, all of them healthy and of positive weight at the start. */
  lemma {:induction false} AttemptsAreDistinct(weights: seq<nat>, healthy: seq<bool>, current: nat, attempts: seq<nat>)
    requires |weights| == |healthy| && Tried(weights, healthy, current, attempts)
    ensures forall i | i in attempts :: i < |weights| && healthy[i] && weights[i] > 0
    ensures forall j, k | 0 <= j < k < |attempts| :: attempts[j] != attempts[k]
    decreases |attempts|
  {
    if attempts != [] {
      var before, last := attempts[..|attempts| - 1], attempts[|attempts| - 1];
      LastAttemptIsNew(weights, healthy, current, attempts);
      AttemptsAreDistinct(weights, healthy, current, before);
      assert attempts == before + [last];
    }
  }

  /** Each attempt takes one endpoint out of play. */
  lemma {:induction false} AttemptsUseUpEndpoints(weights: seq<nat>, healthy: seq<bool>, current: nat, attempts: seq<nat>)
    requires |weights| == |healthy| && Tried(weights, healthy, current, attempts)
    ensures Alive(weights, Demoted(healthy, attempts), |weights|) == Alive(weights, healthy, |weights|) - |attempts|
  {
    if attempts == [] {
      assert Demoted(healthy, attempts) == healthy;
    } else {
      var before, i := attempts[..|attempts| - 1], attempts[|attempts| - 1];
      AttemptsUseUpEndpoints(weights, healthy, current, before);
      assert attempts == before + [i];
      var h := Demoted(healthy, before);
      TriedAppend(weights, healthy, current, before, h, current + |attempts|, i);
      AliveAfterDemotion(weights, h, i, |weights|);
    }
  }

  datatype RetryResult = Delivered(body: string) | NoHealthyEndpoints | AllRetriesFailed | Cancelled

  datatype Guard = Guard(config: Config, breaker: Breaker)

  /** What a request can change of an endpoint besides its flag: its breaker, if it has one, and its counters. */
  datatype Node = Node(guard: Option<Guard>, totalReqs: nat, failedReqs: nat)

  ghost function NodeOf(e: Endpoint): Node
    reads e, e.breaker
  {
    Node(if e.breaker == null then None else Some(Guard(e.breaker.config, e.breaker.View())), e.totalReqs, e.failedReqs)
  }

  ghost function NodesOf(endpoints: seq<Endpoint>): (g: seq<Node>)
    reads endpoints, set i | 0 <= i < |endpoints| && endpoints[i].breaker != null :: endpoints[i].breaker
    ensures |g| == |endpoints| && forall i | 0 <= i < |g| :: g[i] == NodeOf(endpoints[i])
  {
    if endpoints == [] then []
    else NodesOf(endpoints[..|endpoints| - 1]) + [NodeOf(endpoints[|endpoints| - 1])]
  }

  /** What `Forward` answers at `now` when the backend would reply like this. */
  function Answer(n: Node, reply: Reply, now: int): ForwardResult {
    if n.guard.Some? && !Admits(n.guard.value.config, n.guard.value.breaker, now) then Refused
    else if reply.Answered? then Body(reply.body)
    else RequestFailed
  }

  /** What one `Forward` from `start` to `end` leaves of an endpoint: a refusal changes nothing; otherwise
      the request is counted once, and the breaker is asked once and told the outcome once. */
  function Served(n: Node, reply: Reply, start: int, end: int): Node {
    if Answer(n, reply, start).Refused? then n
    else
      Node(
        if n.guard.None? then None
        else
          var c := n.guard.value.config;
          Some(Guard(c, AfterOutcome(c, AfterAllow(c, n.guard.value.breaker, start), reply, end))),
        n.totalReqs + 1,
        n.failedReqs + if CountsAsFailed(reply) then 1 else 0)
  }

  /** What the environment does: `replies[k]` is the backend's reply to attempt `k`, made at `starts[k]`
      and over at `ends[k]`; the caller cancels in the pause after attempt number `cancelAt`, if there is
      such a pause. */
  datatype Environment = Environment(replies: seq<Reply>, starts: seq<int>, ends: seq<int>, cancelAt: int) {
    predicate Covers(attempts: int) {
      |replies| == |starts| == |ends| && |replies| >= attempts
    }

    predicate CancelsBefore(pause: int) {
      0 <= cancelAt < pause
    }
  }

  /** All these attempts fail, seen from the endpoints before the first of them. */
  predicate AllFail(nodes: seq<Node>, env: Environment, attempts: seq<nat>)
    requires env.Covers(|attempts|)
  {
    attempts == [] ||
    var k := |attempts| - 1;
    && AllFail(nodes, env, attempts[..k])
    && attempts[k] < |nodes|
    && !Answer(nodes[attempts[k]], env.replies[k], env.starts[k]).Body?
  }

  /** The endpoints after these attempts, each served once in turn. */
  function NodesAfter(nodes: seq<Node>, env: Environment, attempts: seq<nat>): (after: seq<Node>)
    requires env.Covers(|attempts|)
    ensures |after| == |nodes|
    ensures forall i | 0 <= i < |nodes| && i !in attempts :: after[i] == nodes[i]
  {
    if attempts == [] then nodes
    else
      var k := |attempts| - 1;
      var i, before := attempts[k], NodesAfter(nodes, env, attempts[..k]);
      if i < |nodes| then before[i := Served(before[i], env.replies[k], env.starts[k], env.ends[k])] else before
  }

  /** The state of a chain as far as requests are concerned. */
  datatype Snapshot = Snapshot(weights: seq<nat>, healthy: seq<bool>, current: nat, nodes: seq<Node>) {
    predicate Aligned() {
      |weights| == |healthy| == |nodes|
    }

    predicate CanSelect()
      requires Aligned()
    {
      Total(weights, healthy) > 0
    }

    function Picked(): (i: nat)
      requires Aligned() && CanSelect()
      ensures i < |nodes|
    {
      Selected(weights, healthy, current + 1)
    }

    /** One attempt: the balancer's choice is served, and demoted if it fails. */
    function AfterAttempt(reply: Reply, start: int, end: int): (s: Snapshot)
      requires Aligned() && CanSelect()
      ensures s.Aligned()
    {
      var i := Picked();
      Snapshot(
        weights,
        if Answer(nodes[i], reply, start).Body? then healthy else healthy[i := false],
        current + 1,
        nodes[i := Served(nodes[i], reply, start, end)])
    }
  }

  /** Where the loop stands after `attempts`, all of which failed: those endpoints have been served once
      and are demoted. */
  predicate Reached(b: Snapshot, env: Environment, attempts: seq<nat>, s: Snapshot)
    requires b.Aligned() && env.Covers(|attempts|)
  {
    && s == Snapshot(b.weights, Demoted(b.healthy, attempts), b.current + |attempts|, NodesAfter(b.nodes, env, attempts))
    && Tried(b.weights, b.healthy, b.current, attempts)
    && AllFail(b.nodes, env, attempts)
  }

  lemma NextAttempt(b: Snapshot, env: Environment, attempts: seq<nat>, s: Snapshot)
    requires b.Aligned() && env.Covers(|attempts| + 1) && Reached(b, env, attempts, s) && s.CanSelect()
    ensures var k, i := |attempts|, s.Picked();
            var more, next := attempts + [i], s.AfterAttempt(env.replies[k], env.starts[k], env.ends[k]);
            && more[..k] == attempts && s.nodes[i] == b.nodes[i]
            && Tried(b.weights, b.healthy, b.current, more)
            && next.nodes == NodesAfter(b.nodes, env, more)
            && (!Answer(b.nodes[i], env.replies[k], env.starts[k]).Body? ==> Reached(b, env, more, next))
  {
    var i := s.Picked();
    TriedAppend(b.weights, b.healthy, b.current, attempts, s.healthy, s.current + 1, i);
    assert (attempts + [i])[..|attempts|] == attempts;
  }

  /** How a request may end after these attempts: the first answer that carries a body is delivered;
      otherwise every attempt failed and the reason for stopping is reported. */
  predicate Outcome(b: Snapshot, env: Environment, maxRetries: int, attempts: seq<nat>, r: RetryResult)
    requires b.Aligned() && env.Covers(|attempts|)
  {
    && Tried(b.weights, b.healthy, b.current, attempts)
    && match r
       case Delivered(body) =>
         && attempts != []
         && var k := |attempts| - 1;
            && AllFail(b.nodes, env, attempts[..k])
            && attempts[k] < |b.nodes|
            && Answer(b.nodes[attempts[k]], env.replies[k], env.starts[k]) == Body(body)
            && k <= maxRetries && !env.CancelsBefore(k)
       case NoHealthyEndpoints =>
         && AllFail(b.nodes, env, attempts)
         && Total(b.weights, Demoted(b.healthy, attempts)) == 0
         && |attempts| <= maxRetries && !env.CancelsBefore(|attempts|)
       case AllRetriesFailed =>
         AllFail(b.nodes, env, attempts) && |attempts| == Max(maxRetries + 1, 0) && !env.CancelsBefore(maxRetries)
       case Cancelled =>
         AllFail(b.nodes, env, attempts) && 0 < |attempts| == env.cancelAt + 1 <= maxRetries
  }

  /** The endpoints that the request demoted: all it attempted, except one that delivered. */
  function Failed(attempts: seq<nat>, r: RetryResult): seq<nat>
    requires r.Delivered? ==> attempts != []
  {
    if r.Delivered? then attempts[..|attempts| - 1] else attempts
  }

  /** What a request leaves of the chain: a ticket taken and one service for each attempt, and the failed
      endpoints demoted. */
  function AfterRequest(b: Snapshot, env: Environment, attempts: seq<nat>, r: RetryResult): Snapshot
    requires b.Aligned() && env.Covers(|attempts|) && (r.Delivered? ==> attempts != [])
  {
    Snapshot(b.weights, Demoted(b.healthy, Failed(attempts, r)), b.current + |attempts|, NodesAfter(b.nodes, env, attempts))
  }

  /** Stopping after failures only. */
  lemma StopsFailed(b: Snapshot, env: Environment, maxRetries: int, attempts: seq<nat>, s: Snapshot, r: RetryResult)
    requires b.Aligned() && env.Covers(|attempts|) && Reached(b, env, attempts, s) && !r.Delivered?
    requires match r
             case NoHealthyEndpoints => !s.CanSelect() && |attempts| <= maxRetries && !env.CancelsBefore(|attempts|)
             case AllRetriesFailed => |attempts| == Max(maxRetries + 1, 0) && !env.CancelsBefore(maxRetries)
             case _ => 0 < |attempts| == env.cancelAt + 1 <= maxRetries
    ensures Outcome(b, env, maxRetries, attempts, r) && s == AfterRequest(b, env, attempts, r)
  {}

  /** Stopping with a delivery. */
  lemma StopsDelivered(b: Snapshot, env: Environment, maxRetries: int, attempts: seq<nat>, s: Snapshot)
    requires b.Aligned() && env.Covers(|attempts| + 1) && Reached(b, env, attempts, s) && s.CanSelect()
    requires |attempts| <= maxRetries && !env.CancelsBefore(|attempts|)
    requires Answer(s.nodes[s.Picked()], env.replies[|attempts|], env.starts[|attempts|]).Body?
    ensures var k, more := |attempts|, attempts + [s.Picked()];
            var r := Delivered(Answer(s.nodes[s.Picked()], env.replies[k], env.starts[k]).body);
            && Outcome(b, env, maxRetries, more, r)
            && s.AfterAttempt(env.replies[k], env.starts[k], env.ends[k]) == AfterRequest(b, env, more, r)
  {
    NextAttempt(b, env, attempts, s);
  }

  /** What the loop does with the response to attempt number `i`. */
  function Decide(response: Option<ForwardResult>, maxRetries: int, i: int, cancelAt: int): Option<RetryResult> {
    if response.None? then Some(NoHealthyEndpoints)
    else if response.value.Body? then Some(Delivered(response.value.body))
    else if i < maxRetries && i == cancelAt then Some(Cancelled)
    else None
  }

  /** The loop has gone through these attempts: it is to go on, or it has ended the request. */
  predicate Stands(
    b: Snapshot, env: Environment, maxRetries: int, done: Option<RetryResult>, attempts: seq<nat>, s: Snapshot)
    requires b.Aligned() && env.Covers(|attempts|)
  {
    match done
    case None => Reached(b, env, attempts, s) && !env.CancelsBefore(Min(|attempts|, maxRetries))
    case Some(r) => Outcome(b, env, maxRetries, attempts, r) && s == AfterRequest(b, env, attempts, r)
  }

  lemma FailureStands(b: Snapshot, env: Environment, maxRetries: int, attempts: seq<nat>, s: Snapshot)
    requires b.Aligned() && env.Covers(|attempts| + 1) && |attempts| <= maxRetries && s.Aligned() && s.CanSelect()
    requires Stands(b, env, maxRetries, None, attempts, s)
    requires !Answer(s.nodes[s.Picked()], env.replies[|attempts|], env.starts[|attempts|]).Body?
    ensures var k := |attempts|;
            var next := s.AfterAttempt(env.replies[k], env.starts[k], env.ends[k]);
            var done := if k < maxRetries && k == env.cancelAt then Some(Cancelled) else None;
            Stands(b, env, maxRetries, done, attempts + [s.Picked()], next)
  {
    var k := |attempts|;
    NextAttempt(b, env, attempts, s);
    if k < maxRetries && k == env.cancelAt {
      StopsFailed(
        b, env, maxRetries, attempts + [s.Picked()], s.AfterAttempt(env.replies[k], env.starts[k], env.ends[k]), Cancelled);
    }
  }

  lemma RoundStands(
    b: Snapshot, env: Environment, maxRetries: int, attempts: seq<nat>, s: Snapshot, response: Option<ForwardResult>)
    requires b.Aligned() && env.Covers(|attempts| + 1) && |attempts| <= maxRetries && s.Aligned()
    requires Stands(b, env, maxRetries, None, attempts, s) && (response.Some? <==> s.CanSelect())
    requires response.Some? ==>
               response.value == Answer(s.nodes[s.Picked()], env.replies[|attempts|], env.starts[|attempts|])
    ensures var k, done := |attempts|, Decide(response, maxRetries, |attempts|, env.cancelAt);
            if response.None? then Stands(b, env, maxRetries, done, attempts, s)
            else Stands(b, env, maxRetries, done, attempts + [s.Picked()], s.AfterAttempt(env.replies[k], env.starts[k], env.ends[k]))
  {
    var k := |attempts|;
    if response.None? {
      StopsFailed(b, env, maxRetries, attempts, s, NoHealthyEndpoints);
    } else if response.value.Body? {
      StopsDelivered(b, env, maxRetries, attempts, s);
    } else {
      FailureStands(b, env, maxRetries, attempts, s);
    }
  }

  /** What a request with retries does to the health flags, `H` being the number of healthy endpoints of
      positive weight. It demotes exactly the endpoints that failed it, each once; one that delivered stays
      healthy. Without a delivery and without a cancellation exactly `min(maxRetries + 1, H)` endpoints are
      demoted, and the reason given is "no healthy endpoints" exactly when `H <= maxRetries`. */
  lemma RetryDemotes(b: Snapshot, env: Environment, maxRetries: nat, attempts: seq<nat>, r: RetryResult)
    requires b.Aligned() && env.Covers(|attempts|) && Outcome(b, env, maxRetries, attempts, r)
    ensures forall j, k | 0 <= j < k < |attempts| :: attempts[j] != attempts[k]
    ensures var after := Demoted(b.healthy, Failed(attempts, r));
            && (forall i: nat | i < |after| :: b.healthy[i] && !after[i] <==> i in Failed(attempts, r))
            && (r.Delivered? ==> |attempts| <= maxRetries + 1 && after[attempts[|attempts| - 1]])
    ensures r.NoHealthyEndpoints? || r.AllRetriesFailed? ==>
              var H := Alive(b.weights, b.healthy, |b.weights|);
              |attempts| == Min(maxRetries + 1, H) && (r.NoHealthyEndpoints? <==> H <= maxRetries)
  {
    AttemptsAreDistinct(b.weights, b.healthy, b.current, attempts);
    AttemptsUseUpEndpoints(b.weights, b.healthy, b.current, attempts);
    AliveIffWeight(b.weights, Demoted(b.healthy, attempts), |b.weights|);
  }

  lemma {:induction false} TriedPrefix(b: Snapshot, attempts: seq<nat>, n: nat)
    requires b.Aligned() && n <= |attempts| && Tried(b.weights, b.healthy, b.current, attempts)
    ensures Tried(b.weights, b.healthy, b.current, attempts[..n])
    decreases |attempts|
  {
    if n == |attempts| {
      assert attempts[..n] == attempts;
    } else {
      var before := attempts[..|attempts| - 1];
      TriedPrefix(b, before, n);
      assert before[..n] == attempts[..n];
    }
  }

  lemma {:induction false} AllFailPrefix(nodes: seq<Node>, env: Environment, attempts: seq<nat>, n: nat)
    requires n <= |attempts| && env.Covers(|attempts|) && AllFail(nodes, env, attempts)
    ensures AllFail(nodes, env, attempts[..n])
    decreases |attempts|
  {
    if n == |attempts| {
      assert attempts[..n] == attempts;
    } else {
      var before := attempts[..|attempts| - 1];
      AllFailPrefix(nodes, env, before, n);
      assert before[..n] == attempts[..n];
    }
  }

  /** The balancer's choices leave no freedom. */
  lemma {:induction false} TriedIsUnique(b: Snapshot, a: seq<nat>, a': seq<nat>)
    requires b.Aligned() && |a| == |a'|
    requires Tried(b.weights, b.healthy, b.current, a) && Tried(b.weights, b.healthy, b.current, a')
    ensures a == a'
  {
    if a != [] {
      TriedIsUnique(b, a[..|a| - 1], a'[..|a'| - 1]);
      assert a == a[..|a| - 1] + [a[|a| - 1]] && a' == a'[..|a'| - 1] + [a'[|a'| - 1]];
    }
  }

  /** The shorter of two runs of the balancer is a prefix of the longer, and could go on. */
  lemma ShorterIsPrefix(b: Snapshot, a: seq<nat>, a': seq<nat>)
    requires b.Aligned() && |a| < |a'|
    requires Tried(b.weights, b.healthy, b.current, a) && Tried(b.weights, b.healthy, b.current, a')
    ensures a == a'[..|a|] && Total(b.weights, Demoted(b.healthy, a)) > 0
  {
    var n := |a|;
    assert a'[..n + 1][..n] == a'[..n];
    TriedPrefix(b, a', n);
    TriedPrefix(b, a', n + 1);
    TriedIsUnique(b, a, a'[..n]);
  }

  /** A request that has stopped does not go on. */
  lemma NoLongerOutcome(b: Snapshot, env: Environment, maxRetries: int, a: seq<nat>, r: RetryResult, a': seq<nat>, r': RetryResult)
    requires b.Aligned() && env.Covers(|a|) && env.Covers(|a'|)
    requires Outcome(b, env, maxRetries, a, r) && Outcome(b, env, maxRetries, a', r')
    ensures |a'| <= |a|
  {
    if |a| < |a'| {
      ShorterIsPrefix(b, a, a');
      var before := a'[..|a'| - 1];
      assert before[..|a|] == a;
      AllFailPrefix(b.nodes, env, before, |a|);
    }
  }

  /** The outcome is a function of the state before the request and of the environment. */
  lemma OutcomeIsUnique(b: Snapshot, env: Environment, maxRetries: int, a: seq<nat>, r: RetryResult, a': seq<nat>, r': RetryResult)
    requires b.Aligned() && env.Covers(|a|) && env.Covers(|a'|)
    requires Outcome(b, env, maxRetries, a, r) && Outcome(b, env, maxRetries, a', r')
    ensures a == a' && r == r'
  {
    NoLongerOutcome(b, env, maxRetries, a, r, a', r');
    NoLongerOutcome(b, env, maxRetries, a', r', a, r);
    TriedIsUnique(b, a, a');
  }

  class Chain {
    const endpoints: seq<Endpoint>
    const loadBalancer: LoadBalancer
    var highestBlock: int

    ghost predicate Valid() {
      && loadBalancer.Valid() && loadBalancer.endpoints == endpoints
      && (forall i, j | 0 <= i < j < |endpoints| :: endpoints[i] != endpoints[j])
      && (forall i, j | 0 <= i < j < |endpoints| && endpoints[i].breaker != null :: endpoints[i].breaker != endpoints[j].breaker)
    }

    ghost function Health(): (h: seq<bool>)
      reads endpoints
      ensures |h| == |endpoints|
    {
      HealthOf(endpoints)
    }

    ghost function Breakers(): set<CircuitBreaker> {
      set i | 0 <= i < |endpoints| && endpoints[i].breaker != null :: endpoints[i].breaker
    }

    constructor (endpoints: seq<Endpoint>)
      requires forall i, j | 0 <= i < j < |endpoints| :: endpoints[i] != endpoints[j]
      requires forall i, j | 0 <= i < j < |endpoints| && endpoints[i].breaker != null :: endpoints[i].breaker != endpoints[j].breaker
      ensures Valid() && this.endpoints == endpoints && highestBlock == 0 && fresh(loadBalancer) && loadBalancer.current == 0
    {
      this.endpoints := endpoints;
      loadBalancer := new LoadBalancer(endpoints);
      highestBlock := 0;
    }

    method UpdateHighestBlock(height: int)
      modifies this`highestBlock
      ensures highestBlock == height
    {
      highestBlock := height;
    }

    ghost function Nodes(): (g: seq<Node>)
      reads endpoints, Breakers()
      ensures |g| == |endpoints| && forall i | 0 <= i < |g| :: g[i] == NodeOf(endpoints[i])
    {
      NodesOf(endpoints)
    }

    ghost function State(): (s: Snapshot)
      reads loadBalancer, endpoints, Breakers()
      ensures Valid() ==> s.Aligned()
    {
      Snapshot(loadBalancer.weights, Health(), loadBalancer.current, Nodes())
    }

    /** Forward to the selected endpoint and demote it if it fails. */
    method Serve(ep: Endpoint, ghost picked: nat, reply: Reply, start: int, end: int) returns (r: ForwardResult)
      requires Valid() && picked < |endpoints| && ep == endpoints[picked]
      modifies ep, ep.breaker
      ensures r == Answer(old(NodeOf(ep)), reply, start) && NodeOf(ep) == Served(old(NodeOf(ep)), reply, start, end)
      ensures forall k | 0 <= k < |endpoints| && k != picked ::
                NodeOf(endpoints[k]) == old(NodeOf(endpoints[k])) && endpoints[k].healthy == old(endpoints[k].healthy)
      ensures ep.healthy == (old(ep.healthy) && r.Body?)
    {
      r := ep.Forward(reply, start, end);
      if !r.Body? {
        ep.SetHealthy(false);
      }
    }

    lemma StateAfterService(s: Snapshot, picked: nat, served: bool, node: Node)
      requires Valid() && s.Aligned() && |s.nodes| == |endpoints| && picked < |endpoints|
      requires NodeOf(endpoints[picked]) == node && endpoints[picked].healthy == (s.healthy[picked] && served)
      requires forall k | 0 <= k < |endpoints| && k != picked ::
                 NodeOf(endpoints[k]) == s.nodes[k] && endpoints[k].healthy == s.healthy[k]
      ensures Nodes() == s.nodes[picked := node]
      ensures Health() == if served then s.healthy else s.healthy[picked := false]
    {
      assert Health() == if served then s.healthy else s.healthy[picked := false];
    }

    /** Ask the balancer; nothing but the ticket changes. */
    method Select() returns (next: Option<Endpoint>, ghost picked: nat)
      requires Valid() && loadBalancer.current < MAX_TICKET
      modifies loadBalancer
      ensures next.Some? <==> old(State()).CanSelect()
      ensures State() == old(State()).(current := old(State()).current + if next.Some? then 1 else 0)
      ensures next.Some? ==> picked == old(State()).Picked() && next.value == endpoints[picked]
    {
      ghost var h, nodes := Health(), Nodes();
      ghost var s := Snapshot(loadBalancer.weights, h, loadBalancer.current, nodes);
      next := loadBalancer.Next();
      picked := if next.Some? then s.Picked() else 0;
    }

    /** One attempt: select an endpoint and let it serve. */
    method Attempt(reply: Reply, start: int, end: int) returns (r: Option<ForwardResult>)
      requires Valid() && loadBalancer.current < MAX_TICKET
      modifies loadBalancer, endpoints, Breakers()
      ensures r.Some? <==> old(State()).CanSelect()
      ensures r.None? ==> State() == old(State())
      ensures r.Some? ==> State() == old(State()).AfterAttempt(reply, start, end)
      ensures r.Some? ==> r.value == Answer(old(State()).nodes[old(State()).Picked()], reply, start)
    {
      ghost var s := State();
      var next, picked := Select();
      if next.None? {
        return None;
      }
      var response := Serve(next.value, picked, reply, start, end);
      StateAfterService(s, picked, response.Body?, Served(s.nodes[picked], reply, start, end));
      r := Some(response);
    }

    /** The loop body: one attempt, and whether it is the last. */
    method Round(env: Environment, maxRetries: int, i: nat, ghost b: Snapshot, ghost attempts: seq<nat>)
      returns (done: Option<RetryResult>, ghost more: seq<nat>)
      requires Valid() && b.Aligned() && i == |attempts| <= maxRetries && env.Covers(i + 1)
      requires loadBalancer.current < MAX_TICKET
      requires Stands(b, env, maxRetries, None, attempts, State())
      modifies loadBalancer, endpoints, Breakers()
      ensures |more| <= i + 1 && (done.None? ==> |more| == i + 1)
      ensures Stands(b, env, maxRetries, done, more, State())
    {
      ghost var s := State();
      var response := Attempt(env.replies[i], env.starts[i], env.ends[i]);
      RoundStands(b, env, maxRetries, attempts, s, response);
      done := None;
      if response.None? {
        return Some(NoHealthyEndpoints), attempts;
      }
      more := attempts + [s.Picked()];
      if response.value.Body? {
        return Some(Delivered(response.value.body)), more;
      }
      if i < maxRetries && i == env.cancelAt {
        return Some(Cancelled), more;
      }
    }

    /** `attempts` lists the endpoints in the order in which they were tried. */
    method ForwardWithRetry(env: Environment, maxRetries: int) returns (r: RetryResult, ghost attempts: seq<nat>)
      requires Valid() && env.Covers(maxRetries + 1)
      requires loadBalancer.current + Max(maxRetries + 1, 0) < MAX_TICKET
      modifies loadBalancer, endpoints, Breakers()
      ensures env.Covers(|attempts|) && Outcome(old(State()), env, maxRetries, attempts, r)
      ensures State() == AfterRequest(old(State()), env, attempts, r)
    {
      attempts := [];
      ghost var b := State();
      assert Demoted(b.healthy, []) == b.healthy;
      var i := 0;
      while i <= maxRetries
        invariant 0 <= i == |attempts| <= Max(maxRetries + 1, 0)
        invariant Stands(b, env, maxRetries, None, attempts, State())
      {
        var done;
        done, attempts := Round(env, maxRetries, i, b, attempts);
        if done.Some? {
          return done.value, attempts;
        }
        i := i + 1;
      }
      StopsFailed(b, env, maxRetries, attempts, State(), AllRetriesFailed);
      r := AllRetriesFailed;
    }
  }
}
