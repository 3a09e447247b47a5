/** The arithmetic of weighted round robin: which endpoint a ticket selects, and how often. */
module RoundRobin {
  import opened Common

  /** The total weight of the healthy endpoints among the first `n`. */
  function Prefix(weights: seq<nat>, healthy: seq<bool>, n: nat): nat
    requires n <= |weights| == |healthy|
  {
    if n == 0 then 0 else Prefix(weights, healthy, n - 1) + (if healthy[n - 1] then weights[n - 1] else 0)
  }

  function Total(weights: seq<nat>, healthy: seq<bool>): nat
    requires |weights| == |healthy|
  {
    Prefix(weights, healthy, |weights|)
  }

  /** Endpoint `i` owns the residues from the weight before it up to the weight including it. */
  predicate Owns(weights: seq<nat>, healthy: seq<bool>, residue: int, i: nat)
    requires |weights| == |healthy|
  {
    i < |weights| && healthy[i] && Prefix(weights, healthy, i) <= residue < Prefix(weights, healthy, i + 1)
  }

  lemma {:induction false} PrefixMonotone(weights: seq<nat>, healthy: seq<bool>, i: nat, j: nat)
    requires i <= j <= |weights| == |healthy|
    ensures Prefix(weights, healthy, i) <= Prefix(weights, healthy, j)
  {
    if i < j {
      PrefixMonotone(weights, healthy, i, j - 1);
    }
  }

  /** The owner of a residue, searched from the last endpoint downwards. */
  function Owner(weights: seq<nat>, healthy: seq<bool>, residue: nat, n: nat): (i: nat)
    requires n <= |weights| == |healthy| && residue < Prefix(weights, healthy, n)
    ensures Owns(weights, healthy, residue, i)
  {
    if residue >= Prefix(weights, healthy, n - 1) then n - 1 else Owner(weights, healthy, residue, n - 1)
  }

  /** A residue has only one owner. */
  lemma OwnerIsUnique(weights: seq<nat>, healthy: seq<bool>, residue: int, i: nat, j: nat)
    requires |weights| == |healthy| && Owns(weights, healthy, residue, i) && Owns(weights, healthy, residue, j)
    ensures i == j
  {
    if i < j {
      PrefixMonotone(weights, healthy, i + 1, j);
    } else if j < i {
      PrefixMonotone(weights, healthy, j + 1, i);
    }
  }

  /** The endpoint that the given ticket selects. */
  function Selected(weights: seq<nat>, healthy: seq<bool>, ticket: nat): (i: nat)
    requires |weights| == |healthy| && Total(weights, healthy) > 0
    ensures Owns(weights, healthy, ticket % Total(weights, healthy), i)
  {
    Owner(weights, healthy, ticket % Total(weights, healthy), |weights|)
  }

  /** What is selected is healthy and has positive weight. */
  lemma SelectedIsAlive(weights: seq<nat>, healthy: seq<bool>, ticket: nat)
    requires |weights| == |healthy| && Total(weights, healthy) > 0
    ensures var i := Selected(weights, healthy, ticket); healthy[i] && weights[i] > 0
  {
    var i := Selected(weights, healthy, ticket);
    assert Prefix(weights, healthy, i) < Prefix(weights, healthy, i + 1);
  }

  /** How many of the `m` tickets after `current` select endpoint `i`. */
  function Count(weights: seq<nat>, healthy: seq<bool>, current: nat, m: nat, i: nat): nat
    requires |weights| == |healthy| && Total(weights, healthy) > 0
  {
    if m == 0 then 0
    else
      Count(weights, healthy, current, m - 1, i)
      + (if Selected(weights, healthy, current + m) == i then 1 else 0)
  }

  // ---------------------------------------------------------------- counting residues in a block

  /** How many of the remainders below `r` lie in `[lo, lo + w)`. */
  function Taken(r: nat, lo: nat, w: nat): nat {
    Min(Max(r - lo, 0), w)
  }

  /** How many numbers below `x` leave a remainder in `[lo, lo + w)` modulo `total`. */
  function Below(x: nat, total: nat, lo: nat, w: nat): nat
    requires total > 0
  {
    x / total * w + Taken(x % total, lo, w)
  }

  lemma NextRemainder(x: nat, d: nat)
    requires d > 0
    ensures if x % d == d - 1 then (x + 1) % d == 0 && (x + 1) / d == x / d + 1
            else (x + 1) % d == x % d + 1 && (x + 1) / d == x / d
  {
    var q, r := x / d, x % d;
    if r == d - 1 {
      assert x + 1 == (q + 1) * d;
      QuotientIs(x + 1, d, q + 1, 0);
    } else {
      QuotientIs(x + 1, d, q, r + 1);
    }
  }

  lemma BelowStep(x: nat, total: nat, lo: nat, w: nat)
    requires total > 0 && lo + w <= total
    ensures Below(x + 1, total, lo, w) == Below(x, total, lo, w) + if lo <= x % total < lo + w then 1 else 0
  {
    NextRemainder(x, total);
    var q := x / total;
    assert (q + 1) * w == q * w + w;
  }

  lemma BelowShift(x: nat, k: nat, total: nat, lo: nat, w: nat)
    requires total > 0
    ensures Below(x + k * total, total, lo, w) == Below(x, total, lo, w) + k * w
  {
    var q, r := x / total, x % total;
    assert x + k * total == (q + k) * total + r;
    QuotientIs(x + k * total, total, q + k, r);
    assert (q + k) * w == q * w + k * w;
  }

  /** `total * Below(x) - x * w` never leaves an interval of width `w * (total - w)`. */
  lemma Discrepancy(x: nat, total: nat, lo: nat, w: nat)
    requires total > 0 && lo + w <= total
    ensures 0 <= total * Below(x, total, lo, w) - x * w + lo * w <= w * (total - w)
  {
    var q, r := x / total, x % total;
    if r <= lo {
      BeforeBlock(total, lo, w, r);
    } else if r <= lo + w {
      InsideBlock(total, lo, w, r);
    } else {
      AfterBlock(total, lo, w, r);
    }
    CyclesCancel(total, x, q, r, w, Taken(r, lo, w));
  }

  lemma CyclesCancel(total: int, x: int, q: int, r: int, w: int, taken: int)
    requires x == q * total + r
    ensures total * (q * w + taken) - x * w == total * taken - r * w
  {
    assert total * (q * w + taken) == q * total * w + total * taken;
    assert x * w == q * total * w + r * w;
  }

  lemma BeforeBlock(total: nat, lo: nat, w: nat, r: nat)
    requires r <= lo && lo + w <= total
    ensures 0 <= total * Taken(r, lo, w) - r * w + lo * w <= w * (total - w)
  {
    MulMonotone(r, lo, w);
    MulMonotone(0, r, w);
    MulMonotone(lo, total - w, w);
  }

  lemma InsideBlock(total: nat, lo: nat, w: nat, r: nat)
    requires lo <= r <= lo + w <= total
    ensures 0 <= total * Taken(r, lo, w) - r * w + lo * w <= w * (total - w)
  {
    assert total * (r - lo) - r * w + lo * w == (r - lo) * (total - w);
    MulMonotone(0, r - lo, total - w);
    MulMonotone(r - lo, w, total - w);
  }

  lemma AfterBlock(total: nat, lo: nat, w: nat, r: nat)
    requires lo + w <= r < total
    ensures 0 <= total * Taken(r, lo, w) - r * w + lo * w <= w * (total - w)
  {
    assert total * w - r * w + lo * w == (total - r + lo) * w;
    MulMonotone(0, total - r + lo, w);
    MulMonotone(total - r + lo, total - w, w);
  }

  // ---------------------------------------------------------------- fairness

  lemma {:induction false} CountIsBelow(weights: seq<nat>, healthy: seq<bool>, current: nat, m: nat, i: nat)
    requires |weights| == |healthy| && Total(weights, healthy) > 0 && i < |weights| && healthy[i]
    ensures Prefix(weights, healthy, i) + weights[i] <= Total(weights, healthy)
    ensures var total, lo := Total(weights, healthy), Prefix(weights, healthy, i);
            Count(weights, healthy, current, m, i)
            == Below(current + m + 1, total, lo, weights[i]) - Below(current + 1, total, lo, weights[i])
  {
    var total, lo := Total(weights, healthy), Prefix(weights, healthy, i);
    PrefixMonotone(weights, healthy, i + 1, |weights|);
    if m > 0 {
      CountIsBelow(weights, healthy, current, m - 1, i);
      BelowStep(current + m, total, lo, weights[i]);
      if Owns(weights, healthy, (current + m) % total, i) {
        OwnerIsUnique(weights, healthy, (current + m) % total, i, Selected(weights, healthy, current + m));
      }
    }
  }

  lemma Differences(W: int, a: int, b: int, w: int, x: int, m: int)
    ensures W * (b - a) - m * w == (W * b - (x + m) * w) - (W * a - x * w)
  {
    assert W * (b - a) == W * b - W * a;
    assert (x + m) * w == x * w + m * w;
  }

  /** Weighted round robin is fair: any `m` consecutive tickets, from any counter, choose a healthy
      endpoint `count` times with `|W * count - m * w| <= w * (W - w)`. */
  lemma Fairness(weights: seq<nat>, healthy: seq<bool>, current: nat, m: nat, i: nat)
    requires |weights| == |healthy| && Total(weights, healthy) > 0 && i < |weights| && healthy[i]
    ensures var W, w, count := Total(weights, healthy), weights[i], Count(weights, healthy, current, m, i);
            w <= W && -(w * (W - w)) <= W * count - m * w <= w * (W - w)
  {
    var W, w, lo := Total(weights, healthy), weights[i], Prefix(weights, healthy, i);
    CountIsBelow(weights, healthy, current, m, i);
    var a, b := Below(current + 1, W, lo, w), Below(current + m + 1, W, lo, w);
    Discrepancy(current + 1, W, lo, w);
    Discrepancy(current + m + 1, W, lo, w);
    Differences(W, a, b, w, current + 1, m);
  }

  /** Whole cycles are exact: `k * W` consecutive tickets choose a healthy endpoint exactly `k * w` times. */
  lemma WholeCyclesAreExact(weights: seq<nat>, healthy: seq<bool>, current: nat, k: nat, i: nat)
    requires |weights| == |healthy| && Total(weights, healthy) > 0 && i < |weights| && healthy[i]
    ensures Count(weights, healthy, current, k * Total(weights, healthy), i) == k * weights[i]
  {
    var W, lo := Total(weights, healthy), Prefix(weights, healthy, i);
    CountIsBelow(weights, healthy, current, k * W, i);
    BelowShift(current + 1, k, W, lo, weights[i]);
  }

  /** Some window of `w` tickets is the endpoint's own block. */
  lemma OwnBlock(weights: seq<nat>, healthy: seq<bool>, i: nat) returns (current: nat)
    requires |weights| == |healthy| && Total(weights, healthy) > 0 && i < |weights| && healthy[i]
    ensures Count(weights, healthy, current, weights[i], i) == weights[i]
  {
    current := Total(weights, healthy) + Prefix(weights, healthy, i) - 1;
    CountIsBelow(weights, healthy, current, weights[i], i);
    BlockIsFull(Total(weights, healthy), Prefix(weights, healthy, i), weights[i]);
  }

  /** The fairness bound cannot be improved: that window reaches it. */
  lemma FairnessIsTight(weights: seq<nat>, healthy: seq<bool>, i: nat) returns (current: nat, m: nat)
    requires |weights| == |healthy| && Total(weights, healthy) > 0 && i < |weights| && healthy[i]
    ensures var W, w, count := Total(weights, healthy), weights[i], Count(weights, healthy, current, m, i);
            W * count - m * w == w * (W - w)
  {
    current := OwnBlock(weights, healthy, i);
    m := weights[i];
    Factor(Total(weights, healthy), m);
  }

  lemma Factor(a: int, b: int)
    ensures a * b - b * b == b * (a - b)
  {}

  lemma BlockIsFull(total: nat, lo: nat, w: nat)
    requires total > 0 && lo + w <= total
    ensures Below(total + lo + w, total, lo, w) - Below(total + lo, total, lo, w) == w
  {
    if lo < total {
      QuotientIs(total + lo, total, 1, lo);
    }
    if lo + w < total {
      QuotientIs(total + lo + w, total, 1, lo + w);
    } else {
      QuotientIs(total + lo + w, total, 2, 0);
    }
  }

  /** Endpoints that are down or have weight zero are never chosen. */
  lemma {:induction false} NeverChosen(weights: seq<nat>, healthy: seq<bool>, current: nat, m: nat, i: nat)
    requires |weights| == |healthy| && Total(weights, healthy) > 0
    requires i < |weights| ==> !healthy[i] || weights[i] == 0
    ensures Count(weights, healthy, current, m, i) == 0
  {
    if m > 0 {
      NeverChosen(weights, healthy, current, m - 1, i);
    }
  }

  // ---------------------------------------------------------------- endpoints that can be chosen

  /** Healthy endpoints of positive weight among the first `n`. */
  function Alive(weights: seq<nat>, healthy: seq<bool>, n: nat): nat
    requires n <= |weights| == |healthy|
  {
    if n == 0 then 0
    else Alive(weights, healthy, n - 1) + (if healthy[n - 1] && weights[n - 1] > 0 then 1 else 0)
  }

  lemma {:induction false} AliveIffWeight(weights: seq<nat>, healthy: seq<bool>, n: nat)
    requires n <= |weights| == |healthy|
    ensures Alive(weights, healthy, n) == 0 <==> Prefix(weights, healthy, n) == 0
  {
    if n > 0 {
      AliveIffWeight(weights, healthy, n - 1);
    }
  }

  lemma {:induction false} AliveAfterDemotion(weights: seq<nat>, healthy: seq<bool>, i: nat, n: nat)
    requires n <= |weights| == |healthy| && i < |weights| && healthy[i] && weights[i] > 0
    ensures Alive(weights, healthy[i := false], n) == Alive(weights, healthy, n) - if i < n then 1 else 0
  {
    if n > 0 {
      AliveAfterDemotion(weights, healthy, i, n - 1);
    }
  }

  lemma {:induction false} UnitPrefix(weights: seq<nat>, healthy: seq<bool>, n: nat)
    requires n <= |weights| == |healthy|
    requires forall i | 0 <= i < |weights| :: healthy[i] && weights[i] == 1
    ensures Prefix(weights, healthy, n) == n
  {
    if n > 0 {
      UnitPrefix(weights, healthy, n - 1);
    }
  }

  /** Plain round robin over `n` endpoints, the fallback, is the weighted one with unit weights; so it
      is fair by the same bound. */
  lemma FallbackIsUnitWeights(weights: seq<nat>, healthy: seq<bool>, ticket: nat)
    requires |weights| == |healthy| > 0
    requires forall i | 0 <= i < |weights| :: healthy[i] && weights[i] == 1
    ensures Total(weights, healthy) == |weights| && Selected(weights, healthy, ticket) == ticket % |weights|
  {
    UnitPrefix(weights, healthy, |weights|);
    var i := ticket % |weights|;
    UnitPrefix(weights, healthy, i);
    UnitPrefix(weights, healthy, i + 1);
    OwnerIsUnique(weights, healthy, i, i, Selected(weights, healthy, ticket));
  }

  /** The first ticket is 1, not 0: with weights 10, 5, 5 a fresh balancer sends request 10 to the second
      endpoint and request 20 to the first. */
  lemma FirstTicketIsOne()
    ensures var weights, healthy := [10, 5, 5], [true, true, true];
            && Total(weights, healthy) == 20
            && Selected(weights, healthy, 9) == 0 && Selected(weights, healthy, 10) == 1
            && Selected(weights, healthy, 14) == 1 && Selected(weights, healthy, 15) == 2
            && Selected(weights, healthy, 19) == 2 && Selected(weights, healthy, 20) == 0
  {
    var weights: seq<nat>, healthy := [10, 5, 5], [true, true, true];
    assert Prefix(weights, healthy, 1) == 10;
    assert Prefix(weights, healthy, 2) == 15;
    assert Prefix(weights, healthy, 3) == 20;
  }
}
