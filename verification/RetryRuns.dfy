/** Several requests with retries on one chain, interleaved at every selection and every reply. No health
    round runs meanwhile. Whether an attempt fails, at the backend or at the breaker, is an input. */
module RetryRuns {
  import opened Common
  import opened Retries
  import opened RoundRobin

  /** A request: the endpoints it has tried, in order; whether it waits for the last one; how it ended. */
  datatype Progress = Progress(attempts: seq<nat>, waiting: bool, result: Option<RetryResult>)

  const NEW := Progress([], false, None)

  datatype System = System(healthy: seq<bool>, current: nat, requests: map<nat, Progress>)

  /** `Select`: the request asks the balancer. `Reply`: its attempt is over, with a body or a failure, which
      demotes the endpoint. `Cancel`: the caller gives up in the pause after a failure. */
  datatype Event = Select(r: nat) | Reply(r: nat, body: Option<string>) | Cancel(r: nat)

  function ProgressOf(s: System, r: nat): Progress {
    if r in s.requests then s.requests[r] else NEW
  }

  /** The endpoints that failed this request. */
  function Failures(p: Progress): seq<nat> {
    if p.attempts != [] && (p.waiting || (p.result.Some? && p.result.value.Delivered?))
    then p.attempts[..|p.attempts| - 1]
    else p.attempts
  }

  predicate Enabled(s: System, e: Event) {
    var p := ProgressOf(s, e.r);
    && p.result.None?
    && match e
       case Select(_) => !p.waiting
       case Reply(_, _) => p.waiting
       case Cancel(_) => !p.waiting && p.attempts != []
  }

  function WithoutEndpoint(healthy: seq<bool>, i: nat): (h: seq<bool>)
    ensures |h| == |healthy| && forall k | 0 <= k < |h| :: h[k] == (healthy[k] && k != i)
  {
    if i < |healthy| then healthy[i := false] else healthy
  }

  /** The request waits for endpoint `i`, which its ticket selected. */
  function Sent(s: System, r: nat, i: nat): System {
    System(s.healthy, s.current + 1, s.requests[r := Progress(ProgressOf(s, r).attempts + [i], true, None)])
  }

  /** The request after its attempt has failed. */
  function AfterFailure(p: Progress, maxRetries: nat): Progress {
    Progress(p.attempts, false, if |p.attempts| > maxRetries then Some(AllRetriesFailed) else None)
  }

  function Step(weights: seq<nat>, maxRetries: nat, s: System, e: Event): System
    requires |weights| == |s.healthy| && Enabled(s, e)
  {
    var p := ProgressOf(s, e.r);
    match e
    case Select(r) =>
      if Total(weights, s.healthy) == 0 then s.(requests := s.requests[r := p.(result := Some(NoHealthyEndpoints))])
      else Sent(s, r, Selected(weights, s.healthy, s.current + 1))
    case Reply(r, Some(body)) =>
      s.(requests := s.requests[r := Progress(p.attempts, false, Some(Delivered(body)))])
    case Reply(r, None) =>
      var last := if p.attempts == [] then |weights| else p.attempts[|p.attempts| - 1];
      s.(healthy := WithoutEndpoint(s.healthy, last), requests := s.requests[r := AfterFailure(p, maxRetries)])
    case Cancel(r) =>
      s.(requests := s.requests[r := p.(result := Some(Cancelled))])
  }

  predicate Legal(weights: seq<nat>, maxRetries: nat, s: System, es: seq<Event>)
    requires |weights| == |s.healthy|
    decreases |es|
  {
    es == [] || (Enabled(s, es[0]) && Legal(weights, maxRetries, Step(weights, maxRetries, s, es[0]), es[1..]))
  }

  function Run(weights: seq<nat>, maxRetries: nat, s: System, es: seq<Event>): (end: System)
    requires |weights| == |s.healthy| && Legal(weights, maxRetries, s, es)
    ensures |end.healthy| == |s.healthy|
    decreases |es|
  {
    if es == [] then s else Run(weights, maxRetries, Step(weights, maxRetries, s, es[0]), es[1..])
  }

  // ---------------------------------------------------------------- the invariant

  /** What holds of one request, whatever the others do. */
  ghost predicate Sane(weights: seq<nat>, start: seq<bool>, maxRetries: nat, p: Progress)
    requires |weights| == |start|
  {
    && (forall i | i in p.attempts :: i < |weights| && start[i] && weights[i] > 0)
    && (forall j, k | 0 <= j < k < |p.attempts| :: p.attempts[j] != p.attempts[k])
    && |p.attempts| <= maxRetries + 1
    && (p.waiting ==> p.result.None? && p.attempts != [])
    && match p.result
       case None => p.waiting || |p.attempts| <= maxRetries
       case Some(Delivered(_)) => p.attempts != []
       case Some(AllRetriesFailed) => |p.attempts| == maxRetries + 1
       case Some(_) => |p.attempts| <= maxRetries
  }

  predicate FailedSomeone(s: System, i: nat) {
    exists r | r in s.requests :: i in Failures(s.requests[r])
  }

  /** The endpoints that are down are those that were down and those that failed a request. */
  ghost predicate FlagsAreFailures(start: seq<bool>, s: System) {
    |s.healthy| == |start| && forall i | 0 <= i < |start| :: s.healthy[i] <==> start[i] && !FailedSomeone(s, i)
  }

  ghost predicate Inv(weights: seq<nat>, start: seq<bool>, maxRetries: nat, s: System)
    requires |weights| == |start|
  {
    && FlagsAreFailures(start, s)
    && (forall r | r in s.requests :: Sane(weights, start, maxRetries, s.requests[r]))
    && ((exists r | r in s.requests :: s.requests[r].result == Some(NoHealthyEndpoints)) ==> Total(weights, s.healthy) == 0)
  }

  lemma {:induction false} PrefixShrinks(weights: seq<nat>, h: seq<bool>, h': seq<bool>, n: nat)
    requires n <= |weights| == |h| == |h'| && forall i | 0 <= i < |h| :: h'[i] ==> h[i]
    ensures Prefix(weights, h', n) <= Prefix(weights, h, n)
  {
    if n > 0 {
      PrefixShrinks(weights, h, h', n - 1);
    }
  }

  lemma FlagsAfter(start: seq<bool>, s: System, r: nat, p: Progress, healthy: seq<bool>, current: nat)
    requires FlagsAreFailures(start, s) && |healthy| == |start|
    requires forall i | i in Failures(ProgressOf(s, r)) :: i in Failures(p)
    requires forall i | 0 <= i < |start| :: healthy[i] <==> s.healthy[i] && (i in Failures(p) ==> i in Failures(ProgressOf(s, r)))
    ensures FlagsAreFailures(start, System(healthy, current, s.requests[r := p]))
  {
    var s' := System(healthy, current, s.requests[r := p]);
    forall i | 0 <= i < |start|
      ensures FailedSomeone(s', i) <==> FailedSomeone(s, i) || i in Failures(p)
    {
      assert s'.requests[r] == p;
      assert forall q | q in s.requests && q != r :: s'.requests[q] == s.requests[q];
    }
  }

  /** One request moves on, and the endpoints that newly failed it are demoted. */
  lemma Moved(
    weights: seq<nat>, start: seq<bool>, maxRetries: nat, s: System, r: nat, p: Progress, healthy: seq<bool>, current: nat)
    requires |weights| == |start| && Inv(weights, start, maxRetries, s) && |healthy| == |start|
    requires forall i | i in Failures(ProgressOf(s, r)) :: i in Failures(p)
    requires forall i | 0 <= i < |start| :: healthy[i] <==> s.healthy[i] && (i in Failures(p) ==> i in Failures(ProgressOf(s, r)))
    requires Sane(weights, start, maxRetries, p)
    requires p.result == Some(NoHealthyEndpoints) ==> Total(weights, s.healthy) == 0
    ensures Inv(weights, start, maxRetries, System(healthy, current, s.requests[r := p]))
  {
    FlagsAfter(start, s, r, p, healthy, current);
    PrefixShrinks(weights, s.healthy, healthy, |weights|);
  }

  lemma SaneAfterSelection(weights: seq<nat>, start: seq<bool>, maxRetries: nat, p: Progress, i: nat)
    requires |weights| == |start| && Sane(weights, start, maxRetries, p) && !p.waiting && p.result.None?
    requires i < |weights| && start[i] && weights[i] > 0 && i !in p.attempts
    ensures Sane(weights, start, maxRetries, Progress(p.attempts + [i], true, None))
  {
    var more := p.attempts + [i];
    assert more[|p.attempts|] == i && forall k | 0 <= k < |p.attempts| :: more[k] == p.attempts[k] && p.attempts[k] in p.attempts;
  }

  /** What the balancer selects has failed nobody. */
  lemma SelectedIsNew(weights: seq<nat>, start: seq<bool>, s: System, r: nat, i: nat)
    requires |weights| == |start| && FlagsAreFailures(start, s) && Total(weights, s.healthy) > 0
    requires i == Selected(weights, s.healthy, s.current + 1)
    requires !ProgressOf(s, r).waiting && ProgressOf(s, r).result.None?
    ensures start[i] && weights[i] > 0 && i !in ProgressOf(s, r).attempts
  {
    SelectedIsAlive(weights, s.healthy, s.current + 1);
    assert Failures(ProgressOf(s, r)) == ProgressOf(s, r).attempts;
    assert !FailedSomeone(s, i);
  }

  lemma SelectedKeepsInv(weights: seq<nat>, start: seq<bool>, maxRetries: nat, s: System, r: nat, i: nat, s': System)
    requires |weights| == |start| && Inv(weights, start, maxRetries, s) && Enabled(s, Select(r)) && s' == Sent(s, r, i)
    requires i < |weights| && start[i] && weights[i] > 0 && i !in ProgressOf(s, r).attempts
    ensures Inv(weights, start, maxRetries, s')
  {
    var p := ProgressOf(s, r);
    SaneAfterSelection(weights, start, maxRetries, p, i);
    Moved(weights, start, maxRetries, s, r, Progress(p.attempts + [i], true, None), s.healthy, s.current + 1);
  }

  lemma SomeoneSelected(weights: seq<nat>, start: seq<bool>, maxRetries: nat, s: System, r: nat, s': System)
    requires |weights| == |start| && Inv(weights, start, maxRetries, s) && Enabled(s, Select(r)) && Total(weights, s.healthy) > 0
    requires s' == Step(weights, maxRetries, s, Select(r))
    ensures Inv(weights, start, maxRetries, s')
  {
    var i := Selected(weights, s.healthy, s.current + 1);
    SelectedIsNew(weights, start, s, r, i);
    SelectedKeepsInv(weights, start, maxRetries, s, r, i, s');
  }

  lemma NobodySelected(weights: seq<nat>, start: seq<bool>, maxRetries: nat, s: System, r: nat, s': System)
    requires |weights| == |start| && Inv(weights, start, maxRetries, s) && Enabled(s, Select(r)) && Total(weights, s.healthy) == 0
    requires s' == Step(weights, maxRetries, s, Select(r))
    ensures Inv(weights, start, maxRetries, s')
  {
    Moved(weights, start, maxRetries, s, r, ProgressOf(s, r).(result := Some(NoHealthyEndpoints)), s.healthy, s.current);
  }

  lemma SaneAfterFailure(weights: seq<nat>, start: seq<bool>, maxRetries: nat, p: Progress)
    requires |weights| == |start| && Sane(weights, start, maxRetries, p) && p.waiting
    ensures Sane(weights, start, maxRetries, AfterFailure(p, maxRetries))
    ensures Failures(AfterFailure(p, maxRetries)) == Failures(p) + [p.attempts[|p.attempts| - 1]]
  {}

  lemma FailureStep(weights: seq<nat>, start: seq<bool>, maxRetries: nat, s: System, r: nat, s': System)
    requires |weights| == |start| && Inv(weights, start, maxRetries, s) && Enabled(s, Reply(r, None))
    requires s' == Step(weights, maxRetries, s, Reply(r, None))
    ensures Inv(weights, start, maxRetries, s')
  {
    var p := ProgressOf(s, r);
    SaneAfterFailure(weights, start, maxRetries, p);
    Moved(weights, start, maxRetries, s, r, AfterFailure(p, maxRetries), s'.healthy, s.current);
  }

  lemma InvStep(weights: seq<nat>, start: seq<bool>, maxRetries: nat, s: System, e: Event)
    requires |weights| == |start| && Inv(weights, start, maxRetries, s) && Enabled(s, e)
    ensures Inv(weights, start, maxRetries, Step(weights, maxRetries, s, e))
  {
    var p, s' := ProgressOf(s, e.r), Step(weights, maxRetries, s, e);
    match e
    case Select(r) =>
      if Total(weights, s.healthy) > 0 {
        SomeoneSelected(weights, start, maxRetries, s, r, s');
      } else {
        NobodySelected(weights, start, maxRetries, s, r, s');
      }
    case Reply(r, Some(body)) =>
      Moved(weights, start, maxRetries, s, r, Progress(p.attempts, false, Some(Delivered(body))), s.healthy, s.current);
    case Reply(r, None) => FailureStep(weights, start, maxRetries, s, r, s');
    case Cancel(r) => Moved(weights, start, maxRetries, s, r, p.(result := Some(Cancelled)), s.healthy, s.current);
  }

  lemma {:induction false} InvHolds(weights: seq<nat>, start: seq<bool>, maxRetries: nat, s: System, es: seq<Event>)
    requires |weights| == |start| && Inv(weights, start, maxRetries, s) && Legal(weights, maxRetries, s, es)
    ensures Inv(weights, start, maxRetries, Run(weights, maxRetries, s, es))
    decreases |es|
  {
    if es != [] {
      InvStep(weights, start, maxRetries, s, es[0]);
      InvHolds(weights, start, maxRetries, Step(weights, maxRetries, s, es[0]), es[1..]);
    }
  }

  // ---------------------------------------------------------------- what it means

  /** However requests overlap, each one's attempts hit pairwise distinct endpoints that were healthy and of
      positive weight when the run began, at most `maxRetries + 1` of them, and exactly that many if all retries failed. */
  lemma AttemptsStayDistinct(weights: seq<nat>, start: seq<bool>, current: nat, maxRetries: nat, es: seq<Event>, r: nat)
    requires |weights| == |start| && Legal(weights, maxRetries, System(start, current, map[]), es)
    ensures var p := ProgressOf(Run(weights, maxRetries, System(start, current, map[]), es), r);
            && (forall i | i in p.attempts :: i < |weights| && start[i] && weights[i] > 0)
            && (forall j, k | 0 <= j < k < |p.attempts| :: p.attempts[j] != p.attempts[k])
            && |p.attempts| <= maxRetries + 1
            && (p.result == Some(AllRetriesFailed) ==> |p.attempts| == maxRetries + 1)
  {
    InvHolds(weights, start, maxRetries, System(start, current, map[]), es);
  }

  /** However requests overlap, exactly the endpoints that failed some request have been demoted. */
  lemma DemotedIffFailed(weights: seq<nat>, start: seq<bool>, current: nat, maxRetries: nat, es: seq<Event>, i: nat)
    requires |weights| == |start| && Legal(weights, maxRetries, System(start, current, map[]), es) && i < |start|
    ensures var end := Run(weights, maxRetries, System(start, current, map[]), es);
            start[i] && !end.healthy[i] <==> start[i] && FailedSomeone(end, i)
  {
    InvHolds(weights, start, maxRetries, System(start, current, map[]), es);
  }

  /** "No healthy endpoints" is reported to a request only if every endpoint of positive weight is down, then
      and for the rest of the run; one that was healthy at the start has failed some request. */
  lemma NoHealthyMeansAllDown(weights: seq<nat>, start: seq<bool>, current: nat, maxRetries: nat, es: seq<Event>, r: nat, i: nat)
    requires |weights| == |start| && Legal(weights, maxRetries, System(start, current, map[]), es) && i < |weights|
    requires ProgressOf(Run(weights, maxRetries, System(start, current, map[]), es), r).result == Some(NoHealthyEndpoints)
    ensures var end := Run(weights, maxRetries, System(start, current, map[]), es);
            weights[i] > 0 ==> !end.healthy[i] && (start[i] ==> FailedSomeone(end, i))
  {
    var end := Run(weights, maxRetries, System(start, current, map[]), es);
    InvHolds(weights, start, maxRetries, System(start, current, map[]), es);
    assert end.requests[r].result == Some(NoHealthyEndpoints);
    assert Prefix(weights, end.healthy, i) <= Prefix(weights, end.healthy, i + 1);
    PrefixMonotone(weights, end.healthy, i + 1, |weights|);
  }

  // ---------------------------------------------------------------- one request alone

  ghost predicate Alone(weights: seq<nat>, start: seq<bool>, current: nat, s: System, r: nat)
    requires |weights| == |start|
  {
    var p := ProgressOf(s, r);
    && s.healthy == Demoted(start, Failures(p))
    && s.current == current + |p.attempts|
    && Tried(weights, start, current, p.attempts)
    && (p.waiting ==> p.attempts != [])
  }

  lemma AloneSelected(weights: seq<nat>, start: seq<bool>, current: nat, s: System, r: nat, i: nat)
    requires |weights| == |start| && Alone(weights, start, current, s, r) && Enabled(s, Select(r)) && Total(weights, s.healthy) > 0
    requires i == Selected(weights, s.healthy, s.current + 1)
    ensures Alone(weights, start, current, Sent(s, r, i), r)
  {
    var p := ProgressOf(s, r);
    assert Failures(p) == p.attempts;
    TriedAppend(weights, start, current, p.attempts, s.healthy, s.current + 1, i);
    assert Failures(Progress(p.attempts + [i], true, None)) == p.attempts;
  }

  lemma AloneSomeoneSelected(weights: seq<nat>, start: seq<bool>, current: nat, maxRetries: nat, s: System, r: nat)
    requires |weights| == |start| && Alone(weights, start, current, s, r) && Enabled(s, Select(r)) && Total(weights, s.healthy) > 0
    ensures Alone(weights, start, current, Step(weights, maxRetries, s, Select(r)), r)
  {
    AloneSelected(weights, start, current, s, r, Selected(weights, s.healthy, s.current + 1));
  }

  lemma AloneReplies(weights: seq<nat>, start: seq<bool>, current: nat, maxRetries: nat, s: System, r: nat, body: Option<string>)
    requires |weights| == |start| && Alone(weights, start, current, s, r) && Enabled(s, Reply(r, body))
    ensures Alone(weights, start, current, Step(weights, maxRetries, s, Reply(r, body)), r)
  {
    var p, s' := ProgressOf(s, r), Step(weights, maxRetries, s, Reply(r, body));
    assert p.attempts == Failures(p) + [p.attempts[|p.attempts| - 1]];
    assert s'.healthy == Demoted(start, Failures(s'.requests[r]));
  }

  lemma AloneStep(weights: seq<nat>, start: seq<bool>, current: nat, maxRetries: nat, s: System, e: Event)
    requires |weights| == |start| && Alone(weights, start, current, s, e.r) && Enabled(s, e)
    ensures Alone(weights, start, current, Step(weights, maxRetries, s, e), e.r)
  {
    match e
    case Select(r) =>
      if Total(weights, s.healthy) > 0 {
        AloneSomeoneSelected(weights, start, current, maxRetries, s, r);
      }
    case Reply(r, body) => AloneReplies(weights, start, current, maxRetries, s, r, body);
    case Cancel(_) =>
  }

  /** When only one request runs, its attempts are those of the sequential loop. */
  lemma {:induction false} AloneIsSequential(
    weights: seq<nat>, start: seq<bool>, current: nat, maxRetries: nat, s: System, es: seq<Event>, r: nat)
    requires |weights| == |start| && Alone(weights, start, current, s, r) && Legal(weights, maxRetries, s, es)
    requires forall e | e in es :: e.r == r
    ensures Alone(weights, start, current, Run(weights, maxRetries, s, es), r)
    decreases |es|
  {
    if es != [] {
      assert es[0] in es;
      AloneStep(weights, start, current, maxRetries, s, es[0]);
      AloneIsSequential(weights, start, current, maxRetries, Step(weights, maxRetries, s, es[0]), es[1..], r);
    }
  }

  /** From a fresh run, with its own tickets, the attempts of a lone request are what the loop's specification
      says, and the endpoints that failed it are demoted. */
  lemma LoneRequest(weights: seq<nat>, start: seq<bool>, current: nat, maxRetries: nat, es: seq<Event>, r: nat)
    requires |weights| == |start| && Legal(weights, maxRetries, System(start, current, map[]), es)
    requires forall e | e in es :: e.r == r
    ensures var end := Run(weights, maxRetries, System(start, current, map[]), es);
            var p := ProgressOf(end, r);
            && Tried(weights, start, current, p.attempts)
            && end.current == current + |p.attempts| && end.healthy == Demoted(start, Failures(p))
  {
    assert Demoted(start, []) == start;
    AloneIsSequential(weights, start, current, maxRetries, System(start, current, map[]), es, r);
  }
}
