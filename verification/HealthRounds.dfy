/** Health rounds of `internal/chain/health.go` and their interplay with request-path demotions.

    A round's results are inputs. Heights are 64-bit; the lag is computed with wrap-around. */
module HealthRounds {
  import opened Common
  import opened BlockNumbers
  import opened Endpoints
  import opened LoadBalancers
  import opened Retries

  /** What the rest of the program sees of a chain. */
  datatype View = View(healthy: seq<bool>, heights: seq<int>, highest: int)

  predicate Fits(v: View, reports: seq<int>) {
    |v.healthy| == |v.heights| == |reports|
  }

  /** The greatest reported height, or zero. */
  function MaxHeight(reports: seq<int>): int {
    if reports == [] then 0 else Max(MaxHeight(reports[..|reports| - 1]), reports[|reports| - 1])
  }

  predicate StaysHealthy(maxLag: int, max: int, height: int) {
    height != 0 && Int64(max - height) <= maxLag
  }

  /** What an undisturbed round makes of a chain, endpoint by endpoint. */
  function RoundResult(v: View, maxLag: int, reports: seq<int>): (r: View)
    requires Fits(v, reports)
    ensures Fits(r, reports)
  {
    var max := MaxHeight(reports);
    View(
      seq(|reports|, i requires 0 <= i < |reports| => StaysHealthy(maxLag, max, reports[i])),
      seq(|reports|, i requires 0 <= i < |reports| => if reports[i] == 0 then v.heights[i] else reports[i]),
      max)
  }

  // ---------------------------------------------------------------- a round as single writes

  datatype Write = SetHealthy(i: nat, healthy: bool) | SetHeight(i: nat, height: int) | Publish(max: int)

  function Applied(v: View, w: Write): View {
    match w
    case SetHealthy(i, b) => if i < |v.healthy| then v.(healthy := v.healthy[i := b]) else v
    case SetHeight(i, h) => if i < |v.heights| then v.(heights := v.heights[i := h]) else v
    case Publish(max) => v.(highest := max)
  }

  function AllApplied(v: View, ws: seq<Write>): View
    decreases |ws|
  {
    if ws == [] then v else AllApplied(Applied(v, ws[0]), ws[1..])
  }

  /** The writes that the loop makes for one endpoint. */
  function WritesFor(maxLag: int, max: int, i: nat, height: int): seq<Write> {
    if height == 0 then [SetHealthy(i, false)]
    else [SetHealthy(i, StaysHealthy(maxLag, max, height)), SetHeight(i, height)]
  }

  /** The writes of a round that visits the endpoints in the given order. */
  function Plan(maxLag: int, reports: seq<int>, order: seq<nat>): seq<Write>
    requires forall k | 0 <= k < |order| :: order[k] < |reports|
  {
    if order == [] then [Publish(MaxHeight(reports))]
    else WritesFor(maxLag, MaxHeight(reports), order[0], reports[order[0]]) + Plan(maxLag, reports, order[1..])
  }

  /** Every endpoint once, in any order. */
  predicate IsOrder(order: seq<nat>, n: nat) {
    && |order| == n
    && (forall k | 0 <= k < n :: order[k] < n)
    && (forall i | 0 <= i < n :: i in order)
  }

  lemma AppliedTwo(v: View, a: Write, b: Write, ws: seq<Write>)
    ensures AllApplied(v, [a] + ws) == AllApplied(Applied(v, a), ws)
    ensures AllApplied(v, [a, b] + ws) == AllApplied(Applied(Applied(v, a), b), ws)
  {
    assert ([a] + ws)[1..] == ws;
    assert ([a, b] + ws)[1..] == [b] + ws && ([b] + ws)[1..] == ws;
  }

  lemma WritesForOne(v: View, maxLag: int, max: int, i: nat, height: int)
    requires i < |v.healthy| == |v.heights|
    ensures AllApplied(v, WritesFor(maxLag, max, i, height))
            == View(v.healthy[i := StaysHealthy(maxLag, max, height)], if height == 0 then v.heights else v.heights[i := height], v.highest)
  {
    AppliedTwo(v, SetHealthy(i, StaysHealthy(maxLag, max, height)), SetHeight(i, height), []);
    assert WritesFor(maxLag, max, i, height) + [] == WritesFor(maxLag, max, i, height);
  }

  lemma PlanStep(v: View, maxLag: int, reports: seq<int>, order: seq<nat>)
    requires order != [] && forall k | 0 <= k < |order| :: order[k] < |reports|
    ensures AllApplied(v, Plan(maxLag, reports, order))
            == AllApplied(AllApplied(v, WritesFor(maxLag, MaxHeight(reports), order[0], reports[order[0]])), Plan(maxLag, reports, order[1..]))
  {
    AppliedInTurn(v, WritesFor(maxLag, MaxHeight(reports), order[0], reports[order[0]]), Plan(maxLag, reports, order[1..]));
  }

  lemma {:induction false} AppliedInTurn(v: View, ws: seq<Write>, rest: seq<Write>)
    ensures AllApplied(v, ws + rest) == AllApplied(AllApplied(v, ws), rest)
    decreases |ws|
  {
    if ws == [] {
      assert ws + rest == rest;
    } else {
      AppliedInTurn(Applied(v, ws[0]), ws[1..], rest);
      assert (ws + rest)[1..] == ws[1..] + rest;
    }
  }

  /** Applying the plan leaves endpoint `i` as the round's result says if the order visits it, and as it
      was otherwise. */
  lemma {:induction false} PlanPointwise(v: View, maxLag: int, reports: seq<int>, order: seq<nat>, i: nat)
    requires Fits(v, reports) && i < |reports|
    requires forall k | 0 <= k < |order| :: order[k] < |reports|
    ensures var end := AllApplied(v, Plan(maxLag, reports, order));
            && Fits(end, reports)
            && end.highest == MaxHeight(reports)
            && end.healthy[i] == (if i in order then StaysHealthy(maxLag, MaxHeight(reports), reports[i]) else v.healthy[i])
            && end.heights[i] == if i in order && reports[i] != 0 then reports[i] else v.heights[i]
    decreases |order|
  {
    var max := MaxHeight(reports);
    if order == [] {
      assert [Publish(max)][1..] == [];
    } else {
      var next := AllApplied(v, WritesFor(maxLag, max, order[0], reports[order[0]]));
      PlanStep(v, maxLag, reports, order);
      WritesForOne(v, maxLag, max, order[0], reports[order[0]]);
      PlanPointwise(next, maxLag, reports, order[1..], i);
    }
  }

  /** Every iteration order of the height map leads to the same flags, heights and highest block. */
  lemma RoundIsOrderIndependent(v: View, maxLag: int, reports: seq<int>, order: seq<nat>)
    requires Fits(v, reports) && IsOrder(order, |reports|)
    ensures AllApplied(v, Plan(maxLag, reports, order)) == RoundResult(v, maxLag, reports)
  {
    var end, r := AllApplied(v, Plan(maxLag, reports, order)), RoundResult(v, maxLag, reports);
    if reports == [] {
      assert [Publish(0)][1..] == [];
    } else {
      PlanPointwise(v, maxLag, reports, order, 0);
    }
    forall i | 0 <= i < |reports|
      ensures end.healthy[i] == r.healthy[i] && end.heights[i] == r.heights[i]
    {
      PlanPointwise(v, maxLag, reports, order, i);
    }
    assert end.healthy == r.healthy && end.heights == r.heights;
  }

  // ---------------------------------------------------------------- what a round establishes

  lemma {:induction false} MaxHeightIsMax(reports: seq<int>)
    ensures forall i | 0 <= i < |reports| :: reports[i] <= MaxHeight(reports)
    ensures MaxHeight(reports) == 0 || exists i | 0 <= i < |reports| :: reports[i] == MaxHeight(reports)
    ensures MaxHeight(reports) >= 0
  {
    if reports != [] {
      var before := reports[..|reports| - 1];
      MaxHeightIsMax(before);
      assert forall i | 0 <= i < |before| :: reports[i] == before[i];
    }
  }

  /** Every healthy endpoint is at most `maxLag` blocks behind the highest one, and never ahead of it. */
  predicate LagBounded(v: View, maxLag: int) {
    |v.healthy| == |v.heights| &&
    forall i | 0 <= i < |v.healthy| && v.healthy[i] :: 0 <= v.highest - v.heights[i] <= maxLag
  }

  /** No report lies so far below the maximum that the lag overflows 64 bits. Non-negative heights never do. */
  predicate NoOverflow(reports: seq<int>) {
    forall i | 0 <= i < |reports| :: reports[i] == 0 || MaxHeight(reports) - reports[i] < TWO_63
  }

  lemma WrappedLag(max: int, height: int)
    requires IsInt64(max) && IsInt64(height) && height <= max
    ensures Int64(max - height) == if max - height < TWO_63 then max - height else max - height - TWO_64
  {}

  lemma {:induction false} ReportsInRange(reports: seq<int>)
    requires forall i | 0 <= i < |reports| :: IsInt64(reports[i])
    ensures IsInt64(MaxHeight(reports))
  {
    if reports != [] {
      ReportsInRange(reports[..|reports| - 1]);
    }
  }

  /** A round bounds every healthy endpoint's lag exactly when no lag overflows. */
  lemma RoundBoundsLagIff(v: View, maxLag: int, reports: seq<int>)
    requires Fits(v, reports) && 0 <= maxLag < TWO_63
    requires forall i | 0 <= i < |reports| :: IsInt64(reports[i])
    ensures LagBounded(RoundResult(v, maxLag, reports), maxLag) <==> NoOverflow(reports)
  {
    var r, max := RoundResult(v, maxLag, reports), MaxHeight(reports);
    MaxHeightIsMax(reports);
    ReportsInRange(reports);
    forall i | 0 <= i < |reports|
      ensures r.healthy[i] && reports[i] != 0 && max - reports[i] < TWO_63 ==> 0 <= max - r.heights[i] <= maxLag
      ensures reports[i] != 0 && max - reports[i] >= TWO_63 ==> r.healthy[i] && max - r.heights[i] > maxLag
    {
      WrappedLag(max, reports[i]);
    }
    if !NoOverflow(reports) {
      var i :| 0 <= i < |reports| && reports[i] != 0 && max - reports[i] >= TWO_63;
      assert r.healthy[i];
    }
  }

  /** Endpoint `i` reported some block and nobody's block, nor block zero, lies more than `maxLag` above it. */
  predicate KeepsUp(reports: seq<int>, maxLag: int, i: nat)
    requires i < |reports|
  {
    reports[i] != 0 && -reports[i] <= maxLag && forall j | 0 <= j < |reports| :: reports[j] - reports[i] <= maxLag
  }

  /** Which endpoints a round leaves healthy: those that keep up, and those so far behind that the lag
      overflows. Every other one is marked unhealthy. */
  lemma HealthyIff(v: View, maxLag: int, reports: seq<int>, i: nat)
    requires Fits(v, reports) && 0 <= maxLag < TWO_63 && i < |reports|
    requires forall j | 0 <= j < |reports| :: IsInt64(reports[j])
    ensures RoundResult(v, maxLag, reports).healthy[i] <==>
              KeepsUp(reports, maxLag, i) || (reports[i] != 0 && MaxHeight(reports) - reports[i] >= TWO_63)
  {
    MaxHeightIsMax(reports);
    ReportsInRange(reports);
    WrappedLag(MaxHeight(reports), reports[i]);
  }

  /** With reports that do not overflow these are exactly the endpoints that keep up. */
  lemma HealthyIffKeepsUp(v: View, maxLag: int, reports: seq<int>, i: nat)
    requires Fits(v, reports) && 0 <= maxLag < TWO_63 && i < |reports|
    requires (forall j | 0 <= j < |reports| :: IsInt64(reports[j])) && NoOverflow(reports)
    ensures RoundResult(v, maxLag, reports).healthy[i] <==> KeepsUp(reports, maxLag, i)
  {
    HealthyIff(v, maxLag, reports, i);
    MaxHeightIsMax(reports);
  }

  predicate BlockNumbersOnly(reports: seq<int>) {
    forall j | 0 <= j < |reports| :: 0 <= reports[j] < TWO_63
  }

  /** In particular, with block numbers for reports, an endpoint is healthy if and only if it reported a positive
      one that no other exceeds by more than `maxLag`. */
  lemma HealthyIffWithinLag(v: View, maxLag: int, reports: seq<int>, i: nat)
    requires Fits(v, reports) && 0 <= maxLag < TWO_63 && i < |reports| && BlockNumbersOnly(reports)
    ensures RoundResult(v, maxLag, reports).healthy[i] <==>
              reports[i] > 0 && forall j | 0 <= j < |reports| :: reports[j] - reports[i] <= maxLag
  {
    MaxHeightIsMax(reports);
    HealthyIffKeepsUp(v, maxLag, reports, i);
  }

  /** An endpoint that did not answer, answered with an error, or gave a result that does not parse is marked
      unhealthy, and keeps the height it had. */
  lemma FailedCheckIsDown(v: View, maxLag: int, reports: seq<int>, i: nat, result: Option<string>)
    requires Fits(v, reports) && i < |reports| && reports[i] == ReportedHeight(result)
    requires result.None? || Meaning(result.value).Err?
    ensures var after := RoundResult(v, maxLag, reports); !after.healthy[i] && after.heights[i] == v.heights[i]
  {}

  lemma OverflowingReports(v: View, maxLag: int, reports: seq<int>)
    requires 0 <= maxLag < TWO_63 && |v.healthy| == |v.heights| == 2
    requires reports == [TWO_63 / 2, -(TWO_63 / 2) - 1]
    ensures MaxHeight(reports) - reports[1] == TWO_63 + 1
    ensures !NoOverflow(reports) && RoundResult(v, maxLag, reports).healthy[1]
  {
    assert reports[..1] == [TWO_63 / 2] && [TWO_63 / 2][..0] == [];
    assert MaxHeight(reports[..1]) == TWO_63 / 2;
    WrappedLag(TWO_63 / 2, reports[1]);
  }

  /** The overflow is real, and two backends can cause it by what they answer: one the encoding of 2^62, the
      other that of 2^64 - 2^62 - 1 (`0xbfffffffffffffff`), which is read as -2^62 - 1. The second, 2^63 + 1
      blocks behind, is left healthy. */
  lemma OverflowingRound(v: View, maxLag: int, high: nat, low: nat)
    requires 0 <= maxLag < TWO_63 && |v.healthy| == |v.heights| == 2
    requires high == 0x4000_0000_0000_0000 && low == 0xbfff_ffff_ffff_ffff
    ensures var reports := [ReportedHeight(Some(Quantity(high))), ReportedHeight(Some(Quantity(low)))];
            && MaxHeight(reports) - reports[1] == TWO_63 + 1
            && !NoOverflow(reports) && RoundResult(v, maxLag, reports).healthy[1]
  {
    QuantityReports(high);
    QuantityReports(low);
    Int64Identity(high);
    Int64Wraps(low);
    OverflowingReports(v, maxLag, [Int64(high), Int64(low)]);
  }

  /** With non-negative heights a round leaves some endpoint healthy exactly when some height is positive. */
  lemma SomeoneHealthyIff(v: View, maxLag: int, reports: seq<int>)
    requires Fits(v, reports) && 0 <= maxLag
    requires forall i | 0 <= i < |reports| :: 0 <= reports[i] < TWO_63
    ensures (exists i | 0 <= i < |reports| :: RoundResult(v, maxLag, reports).healthy[i])
            <==> exists i | 0 <= i < |reports| :: reports[i] > 0
  {
    var r, max := RoundResult(v, maxLag, reports), MaxHeight(reports);
    MaxHeightIsMax(reports);
    if i :| 0 <= i < |reports| && reports[i] > 0 {
      var top :| 0 <= top < |reports| && reports[top] == max;
      assert r.healthy[top];
    }
  }

  // ---------------------------------------------------------------- rounds and demotions, interleaved

  /** The visible state and the writes that the round in progress has still to make. */
  datatype RoundSystem = RoundSystem(view: View, pending: seq<Write>)

  /** `Begin`: all results of a new round are in. `Continue`: the round's next write.
      `Demote`: a request failed on endpoint `i`. */
  datatype Event = Begin(reports: seq<int>, order: seq<nat>) | Continue | Demote(i: nat)

  predicate Enabled(s: RoundSystem, e: Event) {
    match e
    case Begin(reports, order) =>
      && s.pending == [] && Fits(s.view, reports) && IsOrder(order, |reports|)
      && (forall i | 0 <= i < |reports| :: IsInt64(reports[i])) && NoOverflow(reports)
    case Continue => s.pending != []
    case Demote(_) => true
  }

  function Step(maxLag: int, s: RoundSystem, e: Event): RoundSystem
    requires Enabled(s, e)
  {
    match e
    case Begin(reports, order) => s.(pending := Plan(maxLag, reports, order))
    case Continue => RoundSystem(Applied(s.view, s.pending[0]), s.pending[1..])
    case Demote(i) => s.(view := Applied(s.view, SetHealthy(i, false)))
  }

  predicate Legal(maxLag: int, s: RoundSystem, es: seq<Event>)
    decreases |es|
  {
    es == [] || (Enabled(s, es[0]) && Legal(maxLag, Step(maxLag, s, es[0]), es[1..]))
  }

  function Run(maxLag: int, s: RoundSystem, es: seq<Event>): RoundSystem
    requires Legal(maxLag, s, es)
    decreases |es|
  {
    if es == [] then s else Run(maxLag, Step(maxLag, s, es[0]), es[1..])
  }

  /** A fresh chain: all healthy, all heights zero. */
  function Start(n: nat): RoundSystem {
    RoundSystem(View(seq(n, _ => true), seq(n, _ => 0), 0), [])
  }

  /** The same heights, and no flag set that the other has cleared. */
  predicate Below(v: View, u: View) {
    && v.heights == u.heights && v.highest == u.highest && |v.healthy| == |u.healthy|
    && forall i | 0 <= i < |v.healthy| :: v.healthy[i] ==> u.healthy[i]
  }

  lemma {:induction false} WritesKeepOrder(v: View, u: View, ws: seq<Write>)
    requires Below(v, u)
    ensures Below(AllApplied(v, ws), AllApplied(u, ws))
    decreases |ws|
  {
    if ws != [] {
      WritesKeepOrder(Applied(v, ws[0]), Applied(u, ws[0]), ws[1..]);
    }
  }

  /** The invariant in the middle of a round: once the pending writes are made, the lags are bounded. */
  lemma StepKeepsPromise(maxLag: int, s: RoundSystem, e: Event)
    requires 0 <= maxLag < TWO_63 && Enabled(s, e)
    requires LagBounded(AllApplied(s.view, s.pending), maxLag)
    ensures var s' := Step(maxLag, s, e); LagBounded(AllApplied(s'.view, s'.pending), maxLag)
  {
    match e
    case Begin(reports, order) =>
      RoundIsOrderIndependent(s.view, maxLag, reports, order);
      RoundBoundsLagIff(s.view, maxLag, reports);
    case Continue =>
    case Demote(i) =>
      WritesKeepOrder(Applied(s.view, SetHealthy(i, false)), s.view, s.pending);
  }

  lemma {:induction false} PromiseHolds(maxLag: int, s: RoundSystem, es: seq<Event>)
    requires 0 <= maxLag < TWO_63 && Legal(maxLag, s, es)
    requires LagBounded(AllApplied(s.view, s.pending), maxLag)
    ensures var end := Run(maxLag, s, es); LagBounded(AllApplied(end.view, end.pending), maxLag)
    decreases |es|
  {
    if es != [] {
      StepKeepsPromise(maxLag, s, es[0]);
      PromiseHolds(maxLag, Step(maxLag, s, es[0]), es[1..]);
    }
  }

  /** However demotions interleave with the single writes of any number of rounds, whenever no round is in
      progress every healthy endpoint's lag is between zero and `maxLag`. */
  lemma LagInvariant(maxLag: int, n: nat, es: seq<Event>)
    requires 0 <= maxLag < TWO_63 && Legal(maxLag, Start(n), es)
    requires Run(maxLag, Start(n), es).pending == []
    ensures LagBounded(Run(maxLag, Start(n), es).view, maxLag)
  {
    PromiseHolds(maxLag, Start(n), es);
  }

  // ---------------------------------------------------------------- the checker

  lemma {:induction false} FoldedMax(heights: seq<int>, m: int)
    requires forall i | 0 <= i < |heights| :: heights[i] <= m
    requires m >= 0 && (m == 0 || m in heights)
    ensures MaxHeight(heights) == m
  {
    MaxHeightIsMax(heights);
  }

  ghost function HeightsOf(endpoints: seq<Endpoint>): (h: seq<int>)
    reads endpoints
    ensures |h| == |endpoints| && forall i | 0 <= i < |h| :: h[i] == endpoints[i].blockHeight
  {
    seq(|endpoints|, i requires 0 <= i < |endpoints| reads endpoints => endpoints[i].blockHeight)
  }

  class HealthChecker {
    const chain: Chain
    const maxBlockLag: int

    constructor (chain: Chain, maxBlockLag: int)
      ensures this.chain == chain && this.maxBlockLag == maxBlockLag
    {
      this.chain := chain;
      this.maxBlockLag := maxBlockLag;
    }

    ghost function ViewOf(): (v: View)
      reads chain, chain.endpoints
      ensures |v.healthy| == |v.heights| == |chain.endpoints|
    {
      View(HealthOf(chain.endpoints), HeightsOf(chain.endpoints), chain.highestBlock)
    }

    /** The fold over the results channel: the height map and the greatest height. */
    method Collect(reports: seq<int>, arrivals: seq<nat>) returns (heights: map<nat, int>, maxHeight: int)
      requires IsOrder(arrivals, |reports|)
      ensures forall i: nat :: i in heights <==> i < |reports|
      ensures forall i | i in heights :: heights[i] == reports[i]
      ensures maxHeight == MaxHeight(reports)
    {
      maxHeight := 0;
      heights := map[];
      for k := 0 to |arrivals|
        invariant forall i :: i in heights <==> i in arrivals[..k]
        invariant forall i | i in heights :: i < |reports| && heights[i] == reports[i] <= maxHeight
        invariant maxHeight >= 0 && (maxHeight == 0 || maxHeight in reports)
      {
        var r := arrivals[k];
        heights := heights[r := reports[r]];
        if reports[r] > maxHeight {
          maxHeight := reports[r];
        }
      }
      assert arrivals[..|arrivals|] == arrivals;
      FoldedMax(reports, maxHeight);
    }

    /** The loop body for one endpoint. */
    method Judge(ep: Endpoint, height: int, maxHeight: int)
      modifies ep`healthy, ep`blockHeight
      ensures ep.healthy == StaysHealthy(maxBlockLag, maxHeight, height)
      ensures ep.blockHeight == if height == 0 then old(ep.blockHeight) else height
    {
      if height == 0 {
        ep.SetHealthy(false);
        return;
      }
      var lag := Int64(maxHeight - height);
      if lag > maxBlockLag {
        ep.SetHealthy(false);
      } else {
        ep.SetHealthy(true);
      }
      ep.SetBlockHeight(height);
    }

    lemma FlagsAfterRound(v: View, reports: seq<int>)
      requires Fits(v, reports) && |reports| == |chain.endpoints| && ViewOf() == RoundResult(v, maxBlockLag, reports)
      ensures BlockNumbersOnly(reports) && 0 <= maxBlockLag < TWO_63 ==>
                forall i | 0 <= i < |reports| :: chain.endpoints[i].healthy <==> reports[i] > 0 && KeepsUp(reports, maxBlockLag, i)
    {
      if BlockNumbersOnly(reports) && 0 <= maxBlockLag < TWO_63 {
        forall i | 0 <= i < |reports|
          ensures chain.endpoints[i].healthy <==> reports[i] > 0 && KeepsUp(reports, maxBlockLag, i)
        {
          HealthyIffWithinLag(v, maxBlockLag, reports, i);
          assert ViewOf().healthy[i] == chain.endpoints[i].healthy;
        }
      }
    }

    /** The loop body, as writes to the visible chain. */
    method WriteOne(i: nat, height: int, maxHeight: int)
      requires chain.Valid() && i < |chain.endpoints|
      modifies chain.endpoints[i]
      ensures ViewOf() == AllApplied(old(ViewOf()), WritesFor(maxBlockLag, maxHeight, i, height))
    {
      ghost var v := ViewOf();
      Judge(chain.endpoints[i], height, maxHeight);
      WritesForOne(v, maxBlockLag, maxHeight, i, height);
      assert HealthOf(chain.endpoints) == v.healthy[i := StaysHealthy(maxBlockLag, maxHeight, height)];
      assert HeightsOf(chain.endpoints) == if height == 0 then v.heights else v.heights[i := height];
    }

    /** The loop over the height map makes the writes of the plan but the last. */
    method WriteAll(reports: seq<int>, heights: map<nat, int>, maxHeight: int, order: seq<nat>)
      requires chain.Valid() && |reports| == |chain.endpoints| && IsOrder(order, |reports|) && maxHeight == MaxHeight(reports)
      requires forall i: nat | i < |reports| :: i in heights && heights[i] == reports[i]
      modifies chain.endpoints
      ensures Applied(ViewOf(), Publish(maxHeight)) == AllApplied(old(ViewOf()), Plan(maxBlockLag, reports, order))
    {
      assert order[0..] == order;
      for k := 0 to |order|
        invariant AllApplied(ViewOf(), Plan(maxBlockLag, reports, order[k..]))
                  == AllApplied(old(ViewOf()), Plan(maxBlockLag, reports, order))
      {
        ghost var v := ViewOf();
        PlanStep(v, maxBlockLag, reports, order[k..]);
        assert order[k..][1..] == order[k + 1..];
        WriteOne(order[k], heights[order[k]], maxHeight);
      }
      assert order[|order|..] == [];
      assert [Publish(maxHeight)][1..] == [];
    }

    /** A round without concurrent demotions. `arrivals` lists the endpoints in the order in which their
        results come in, `order` in the order in which the height map is walked; `reports[i]` is what
        endpoint `i` reports. */
    method CheckAll(reports: seq<int>, arrivals: seq<nat>, order: seq<nat>)
      requires chain.Valid() && |reports| == |chain.endpoints|
      requires IsOrder(arrivals, |reports|) && IsOrder(order, |reports|)
      modifies chain`highestBlock, chain.endpoints
      ensures ViewOf() == RoundResult(old(ViewOf()), maxBlockLag, reports)
      ensures BlockNumbersOnly(reports) && 0 <= maxBlockLag < TWO_63 ==>
                forall i | 0 <= i < |reports| :: chain.endpoints[i].healthy <==> reports[i] > 0 && KeepsUp(reports, maxBlockLag, i)
    {
      ghost var v := ViewOf();
      var heights, maxHeight := Collect(reports, arrivals);
      WriteAll(reports, heights, maxHeight, order);
      ghost var u := ViewOf();
      chain.UpdateHighestBlock(maxHeight);
      assert ViewOf() == Applied(u, Publish(maxHeight));
      RoundIsOrderIndependent(v, maxBlockLag, reports, order);
      FlagsAfterRound(v, reports);
    }
  }
}
