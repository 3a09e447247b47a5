/** The combined global and per-chain limiter of `internal/ratelimit/ratelimit.go`, over token buckets. One
    limiter may serve several chains, and the global limiter may serve a chain too. */
module MultiLimiters {
  import opened Common
  import opened TokenBuckets
  import opened TokenBucketRuns

  class MultiLimiter {
    const global: TokenBucketLimiter?
    var perChain: map<string, TokenBucketLimiter>

    constructor (global: TokenBucketLimiter?)
      ensures this.global == global && perChain == map[]
    {
      this.global := global;
      perChain := map[];
    }

    method SetChainLimiter(chain: string, limiter: TokenBucketLimiter)
      modifies this
      ensures perChain == old(perChain)[chain := limiter]
    {
      perChain := perChain[chain := limiter];
    }

    ghost function Limiters(): set<TokenBucketLimiter>
      reads this
    {
      perChain.Values + if global != null then {global} else {}
    }

    /** A limiter's buckets once the global limiter has been asked. */
    ghost function AfterGlobal(limiter: TokenBucketLimiter, key: string, now: real): Buckets
      reads limiter
    {
      if limiter == global then AfterAllowN(limiter.limits, limiter.buckets, key, now, 1) else limiter.buckets
    }

    /** The clock is read once by each limiter that is asked. The global limiter is charged first, and
        stays charged when the chain's limiter refuses; a chain whose limiter is the global one charges it
        twice. */
    method Allow(chain: string, key: string, globalNow: real, chainNow: real) returns (allowed: bool)
      modifies Limiters()
      ensures var passes := global == null || Allows(global.limits, old(global.buckets), key, globalNow, 1);
              && allowed == (passes &&
                   (chain in perChain ==>
                      Allows(perChain[chain].limits, old(AfterGlobal(perChain[chain], key, globalNow)), key, chainNow, 1)))
              && forall limiter | limiter in Limiters() ::
                   limiter.buckets ==
                     if passes && chain in perChain && limiter == perChain[chain]
                     then AfterAllowN(limiter.limits, old(AfterGlobal(limiter, key, globalNow)), key, chainNow, 1)
                     else old(AfterGlobal(limiter, key, globalNow))
    {
      if global != null {
        var passes := global.Allow(key, globalNow);
        if !passes {
          return false;
        }
      }
      if chain in perChain {
        var granted := perChain[chain].Allow(key, chainNow);
        if !granted {
          return false;
        }
      }
      return true;
    }
  }

  // ---------------------------------------------------------------- overlapping requests

  /** Limiters have numbers; the global one, if any, and the one of each limited chain. */
  datatype Setup = Setup(limits: nat -> Limits, global: Option<nat>, chains: map<string, nat>)

  /** A request with the times of its global and of its per-chain check. */
  datatype Request = Request(chain: string, key: string, entered: real, settled: real)

  /** `Allow` in two steps, so that requests can overlap: `Enter` is the global check of a new request,
      `Settle` the per-chain check of the `i`-th request still between the two. */
  datatype Event = Enter(chain: string, key: string, time: real) | Settle(i: nat, time: real)

  /** The calls each limiter has received, and what became of the requests. */
  datatype System = System(calls: map<nat, seq<Call>>, pending: seq<Request>, admitted: seq<Request>, refused: seq<Request>)

  const START := System(map[], [], [], [])

  function CallsOf(s: System, id: nat): seq<Call> {
    if id in s.calls then s.calls[id] else []
  }

  predicate Grants(setup: Setup, s: System, id: nat, call: Call) {
    Granted(setup.limits(id), CallsOf(s, id), call)
  }

  function Charge(s: System, id: nat, call: Call): System {
    s.(calls := s.calls[id := CallsOf(s, id) + [call]])
  }

  predicate Enabled(s: System, clock: real, e: Event) {
    clock <= e.time && (e.Settle? ==> e.i < |s.pending|)
  }

  function Entered(setup: Setup, s: System, chain: string, key: string, time: real): System {
    var call, more := Call(key, time, 1), s.pending + [Request(chain, key, time, time)];
    match setup.global
    case None => s.(pending := more)
    case Some(g) => Charge(s, g, call).(pending := if Grants(setup, s, g, call) then more else s.pending)
  }

  function Settled(setup: Setup, s: System, i: nat, time: real): System
    requires i < |s.pending|
  {
    var r := s.pending[i].(settled := time);
    var call, rest := Call(r.key, time, 1), s.pending[..i] + s.pending[i + 1..];
    if r.chain !in setup.chains then s.(pending := rest, admitted := s.admitted + [r])
    else
      var id := setup.chains[r.chain];
      var granted := Grants(setup, s, id, call);
      Charge(s, id, call).(
        pending := rest,
        admitted := if granted then s.admitted + [r] else s.admitted,
        refused := if granted then s.refused else s.refused + [r])
  }

  function Step(setup: Setup, s: System, clock: real, e: Event): System
    requires Enabled(s, clock, e)
  {
    match e
    case Enter(chain, key, time) => Entered(setup, s, chain, key, time)
    case Settle(i, time) => Settled(setup, s, i, time)
  }

  predicate Legal(setup: Setup, s: System, clock: real, es: seq<Event>)
    decreases |es|
  {
    es == [] || (Enabled(s, clock, es[0]) && Legal(setup, Step(setup, s, clock, es[0]), es[0].time, es[1..]))
  }

  function Run(setup: Setup, s: System, clock: real, es: seq<Event>): System
    requires Legal(setup, s, clock, es)
    decreases |es|
  {
    if es == [] then s else Run(setup, Step(setup, s, clock, es[0]), es[0].time, es[1..])
  }

  /** Requests of `key` whose global check lies in `[from, to]`. */
  function EnteredIn(rs: seq<Request>, key: string, from: real, to: real): nat {
    if rs == [] then 0
    else
      EnteredIn(rs[..|rs| - 1], key, from, to)
      + (if rs[|rs| - 1].key == key && from <= rs[|rs| - 1].entered <= to then 1 else 0)
  }

  predicate SettledHere(chains: map<string, nat>, r: Request, id: nat, key: string, from: real, to: real) {
    r.chain in chains && chains[r.chain] == id && r.key == key && from <= r.settled <= to
  }

  /** Requests of `key`, on the chains limited by this limiter, whose per-chain check lies in `[from, to]`. */
  function SettledIn(chains: map<string, nat>, rs: seq<Request>, id: nat, key: string, from: real, to: real): nat {
    if rs == [] then 0
    else
      SettledIn(chains, rs[..|rs| - 1], id, key, from, to)
      + (if SettledHere(chains, rs[|rs| - 1], id, key, from, to) then 1 else 0)
  }

  /** Requests of `key` that passed the global check in `[from, to]`, whatever became of them. */
  function PassedIn(s: System, key: string, from: real, to: real): nat {
    EnteredIn(s.admitted, key, from, to) + EnteredIn(s.refused, key, from, to) + EnteredIn(s.pending, key, from, to)
  }

  /** What a limiter has been charged in a window: as the global one, all that passed it; as the limiter of
      chains, what they admitted. */
  function Charges(setup: Setup, s: System, id: nat, key: string, from: real, to: real): nat {
    (if setup.global == Some(id) then PassedIn(s, key, from, to) else 0)
    + SettledIn(setup.chains, s.admitted, id, key, from, to)
  }

  ghost predicate Balance(setup: Setup, s: System, id: nat, key: string, from: real, to: real) {
    UnitsIn(LogOf(setup.limits(id), CallsOf(s, id), key), from, to) == Charges(setup, s, id, key, from, to)
  }

  predicate OrderedUpTo(calls: seq<Call>, clock: real) {
    Ordered(calls) && forall i | 0 <= i < |calls| :: calls[i].time <= clock
  }

  ghost predicate Inv(s: System, clock: real) {
    forall id | id in s.calls :: OrderedUpTo(s.calls[id], clock)
  }

  lemma EnteredAppend(rs: seq<Request>, r: Request, key: string, from: real, to: real)
    ensures EnteredIn(rs + [r], key, from, to)
            == EnteredIn(rs, key, from, to) + if r.key == key && from <= r.entered <= to then 1 else 0
  {
    assert (rs + [r])[..|rs|] == rs;
  }

  lemma {:induction false} EnteredConcat(a: seq<Request>, b: seq<Request>, key: string, from: real, to: real)
    ensures EnteredIn(a + b, key, from, to) == EnteredIn(a, key, from, to) + EnteredIn(b, key, from, to)
    decreases |b|
  {
    if b == [] {
      assert a + b == a;
    } else {
      var before, last := b[..|b| - 1], b[|b| - 1];
      EnteredConcat(a, before, key, from, to);
      EnteredAppend(a + before, last, key, from, to);
      assert a + b == (a + before) + [last];
    }
  }

  lemma EnteredRemove(rs: seq<Request>, i: nat, key: string, from: real, to: real)
    requires i < |rs|
    ensures EnteredIn(rs[..i] + rs[i + 1..], key, from, to)
            + (if rs[i].key == key && from <= rs[i].entered <= to then 1 else 0)
            == EnteredIn(rs, key, from, to)
  {
    EnteredConcat(rs[..i], rs[i + 1..], key, from, to);
    EnteredConcat(rs[..i] + [rs[i]], rs[i + 1..], key, from, to);
    EnteredAppend(rs[..i], rs[i], key, from, to);
    assert rs == (rs[..i] + [rs[i]]) + rs[i + 1..];
  }

  lemma SettledAppend(chains: map<string, nat>, rs: seq<Request>, r: Request, id: nat, key: string, from: real, to: real)
    ensures SettledIn(chains, rs + [r], id, key, from, to)
            == SettledIn(chains, rs, id, key, from, to) + if SettledHere(chains, r, id, key, from, to) then 1 else 0
  {
    assert (rs + [r])[..|rs|] == rs;
  }

  /** One more call in a limiter's history charges one unit exactly when it is granted. */
  lemma ChargeAppend(l: Limits, calls: seq<Call>, c: Call, key: string, from: real, to: real)
    ensures UnitsIn(LogOf(l, calls + [c], key), from, to)
            == UnitsIn(LogOf(l, calls, key), from, to)
               + if c.key == key && from <= c.time <= to && Granted(l, calls, c) then c.n else 0
  {
    assert (calls + [c])[..|calls|] == calls;
    if c.key == key {
      UnitsInAppend(LogOf(l, calls, key), Entry(c.time, if Granted(l, calls, c) then c.n else 0), from, to);
    }
  }

  lemma ChargeUnits(setup: Setup, s: System, id: nat, call: Call, other: nat, key: string, from: real, to: real)
    ensures UnitsIn(LogOf(setup.limits(other), CallsOf(Charge(s, id, call), other), key), from, to)
            == UnitsIn(LogOf(setup.limits(other), CallsOf(s, other), key), from, to)
               + if id == other && call.key == key && from <= call.time <= to && Grants(setup, s, id, call) then call.n else 0
  {
    if id == other {
      ChargeAppend(setup.limits(id), CallsOf(s, id), call, key, from, to);
    }
  }

  lemma EnterBalances(
    setup: Setup, s: System, chain: string, asker: string, time: real, id: nat, key: string, from: real, to: real)
    requires Balance(setup, s, id, key, from, to)
    ensures Balance(setup, Entered(setup, s, chain, asker, time), id, key, from, to)
  {
    EnteredAppend(s.pending, Request(chain, asker, time, time), key, from, to);
    if setup.global.Some? {
      ChargeUnits(setup, s, setup.global.value, Call(asker, time, 1), id, key, from, to);
    }
  }

  lemma SettlingKeepsPassed(setup: Setup, s: System, i: nat, time: real, key: string, from: real, to: real)
    requires i < |s.pending|
    ensures PassedIn(Settled(setup, s, i, time), key, from, to) == PassedIn(s, key, from, to)
  {
    var r := s.pending[i].(settled := time);
    EnteredRemove(s.pending, i, key, from, to);
    EnteredAppend(s.admitted, r, key, from, to);
    EnteredAppend(s.refused, r, key, from, to);
  }

  /** Settling charges a limiter for what it admits to the chains it limits. */
  lemma SettlingCharges(setup: Setup, s: System, i: nat, time: real, id: nat, key: string, from: real, to: real)
    requires i < |s.pending|
    ensures var s', l := Settled(setup, s, i, time), setup.limits(id);
            UnitsIn(LogOf(l, CallsOf(s', id), key), from, to) - UnitsIn(LogOf(l, CallsOf(s, id), key), from, to)
            == SettledIn(setup.chains, s'.admitted, id, key, from, to) - SettledIn(setup.chains, s.admitted, id, key, from, to)
  {
    var r := s.pending[i].(settled := time);
    SettledAppend(setup.chains, s.admitted, r, id, key, from, to);
    if r.chain in setup.chains {
      ChargeUnits(setup, s, setup.chains[r.chain], Call(r.key, time, 1), id, key, from, to);
    }
  }

  lemma SettleBalances(setup: Setup, s: System, i: nat, time: real, id: nat, key: string, from: real, to: real)
    requires i < |s.pending| && Balance(setup, s, id, key, from, to)
    ensures Balance(setup, Settled(setup, s, i, time), id, key, from, to)
  {
    SettlingKeepsPassed(setup, s, i, time, key, from, to);
    SettlingCharges(setup, s, i, time, id, key, from, to);
  }

  lemma {:induction false} BalanceHolds(
    setup: Setup, s: System, clock: real, es: seq<Event>, id: nat, key: string, from: real, to: real)
    requires Legal(setup, s, clock, es) && Balance(setup, s, id, key, from, to)
    ensures Balance(setup, Run(setup, s, clock, es), id, key, from, to)
    decreases |es|
  {
    if es != [] {
      var e := es[0];
      match e {
        case Enter(chain, asker, time) => EnterBalances(setup, s, chain, asker, time, id, key, from, to);
        case Settle(i, time) => SettleBalances(setup, s, i, time, id, key, from, to);
      }
      BalanceHolds(setup, Step(setup, s, clock, e), e.time, es[1..], id, key, from, to);
    }
  }

  lemma OrderedLater(calls: seq<Call>, clock: real, c: Call)
    requires OrderedUpTo(calls, clock) && clock <= c.time && c.n >= 0
    ensures OrderedUpTo(calls, c.time) && OrderedUpTo(calls + [c], c.time)
  {
    var more := calls + [c];
    forall i, j | 0 <= i < j < |more|
      ensures more[i].time <= more[j].time
    {
      assert more[i] == calls[i] && (j < |calls| ==> more[j] == calls[j]);
    }
  }

  lemma ChargeKeepsInv(s: System, clock: real, id: nat, call: Call)
    requires Inv(s, clock) && clock <= call.time && call.n >= 0
    ensures Inv(s, call.time) && Inv(Charge(s, id, call), call.time)
  {
    forall k | k in s.calls
      ensures OrderedUpTo(s.calls[k], call.time)
    {
      OrderedLater(s.calls[k], clock, call);
    }
    OrderedLater(CallsOf(s, id), clock, call);
  }

  lemma InvStep(setup: Setup, s: System, clock: real, e: Event)
    requires Inv(s, clock) && Enabled(s, clock, e)
    ensures Inv(Step(setup, s, clock, e), e.time)
  {
    match e
    case Enter(_, key, time) =>
      ChargeKeepsInv(s, clock, if setup.global.Some? then setup.global.value else 0, Call(key, time, 1));
    case Settle(i, time) =>
      var r := s.pending[i];
      ChargeKeepsInv(s, clock, if r.chain in setup.chains then setup.chains[r.chain] else 0, Call(r.key, time, 1));
  }

  lemma {:induction false} InvHolds(setup: Setup, s: System, clock: real, es: seq<Event>) returns (end: real)
    requires Inv(s, clock) && Legal(setup, s, clock, es)
    ensures Inv(Run(setup, s, clock, es), end)
    decreases |es|
  {
    if es == [] {
      end := clock;
    } else {
      InvStep(setup, s, clock, es[0]);
      end := InvHolds(setup, Step(setup, s, clock, es[0]), es[0].time, es[1..]);
    }
  }

  /** In every window of every run, with requests overlapping freely and limiters shared freely, the units
      charged to a limiter for a key are exactly what its roles call for: as the global limiter, the key's
      admissions on all chains, its per-chain refusals and its requests still between the two checks; as a
      chain's limiter, the key's admissions on its chains. */
  lemma ChargesBalance(setup: Setup, clock: real, es: seq<Event>, id: nat, key: string, from: real, to: real)
    requires Legal(setup, START, clock, es)
    ensures var s := Run(setup, START, clock, es);
            UnitsIn(LogOf(setup.limits(id), CallsOf(s, id), key), from, to) == Charges(setup, s, id, key, from, to)
  {
    BalanceHolds(setup, START, clock, es, id, key, from, to);
  }

  /** All that a limiter is charged in a window stays within its bound. */
  lemma ChargesAreBounded(setup: Setup, clock: real, es: seq<Event>, id: nat, key: string, from: real, to: real)
    requires Legal(setup, START, clock, es) && Sound(setup.limits(id)) && from <= to
    ensures Charges(setup, Run(setup, START, clock, es), id, key, from, to) as real <= Allowance(setup.limits(id), to - from)
  {
    var end := InvHolds(setup, START, clock, es);
    ChargesBalance(setup, clock, es, id, key, from, to);
    WindowBound(setup.limits(id), CallsOf(Run(setup, START, clock, es), id), key, from, to);
  }

  /** In every window of every run the admissions of a key across all chains stay within the global bound. */
  lemma GlobalLimitHolds(setup: Setup, clock: real, es: seq<Event>, key: string, from: real, to: real)
    requires Legal(setup, START, clock, es) && setup.global.Some? && Sound(setup.limits(setup.global.value)) && from <= to
    ensures EnteredIn(Run(setup, START, clock, es).admitted, key, from, to) as real
            <= Allowance(setup.limits(setup.global.value), to - from)
  {
    ChargesAreBounded(setup, clock, es, setup.global.value, key, from, to);
  }

  /** In every window of every run the admissions of a key on the chains that share a limiter, taken
      together, also stay within that limiter's bound. */
  lemma ChainLimitHolds(setup: Setup, clock: real, es: seq<Event>, id: nat, key: string, from: real, to: real)
    requires Legal(setup, START, clock, es) && Sound(setup.limits(id)) && from <= to
    ensures SettledIn(setup.chains, Run(setup, START, clock, es).admitted, id, key, from, to) as real
            <= Allowance(setup.limits(id), to - from)
  {
    ChargesAreBounded(setup, clock, es, id, key, from, to);
  }

  /** A request alone, its two checks one right after the other: it is admitted if and only if the global limiter,
      if there is one, grants it and then the chain's limiter, if there is one, grants it too. */
  lemma AdmittedIffBothGrant(setup: Setup, s: System, clock: real, chain: string, key: string, globalNow: real, chainNow: real)
    requires clock <= globalNow <= chainNow
    ensures var entered := Step(setup, s, clock, Enter(chain, key, globalNow));
            var passes := setup.global.None?
                          || Granted(setup.limits(setup.global.value), CallsOf(s, setup.global.value), Call(key, globalNow, 1));
            if !passes then entered.pending == s.pending && entered.admitted == s.admitted
            else
              var over := Step(setup, entered, globalNow, Settle(|s.pending|, chainNow));
              var granted := chain !in setup.chains
                             || Granted(setup.limits(setup.chains[chain]), CallsOf(entered, setup.chains[chain]), Call(key, chainNow, 1));
              && over.pending == s.pending
              && over.admitted == s.admitted + (if granted then [Request(chain, key, globalNow, chainNow)] else [])
              && over.refused == s.refused + (if granted then [] else [Request(chain, key, globalNow, chainNow)])
  {
    var request := Request(chain, key, globalNow, globalNow);
    assert (s.pending + [request])[..|s.pending|] + (s.pending + [request])[|s.pending| + 1..] == s.pending;
    assert s.admitted + [] == s.admitted && s.refused + [] == s.refused;
  }
}
