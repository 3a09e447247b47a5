/** The load balancer of `internal/chain/loadbalancer.go`. The health flags do not change during one
    selection. */
module LoadBalancers {
  import opened Common
  import opened Endpoints
  import opened RoundRobin

  /** Past this many tickets the 64-bit counter would wrap. */
  const MAX_TICKET: int := 0x7fff_ffff_ffff_ffff

  ghost function HealthOf(endpoints: seq<Endpoint>): (h: seq<bool>)
    reads endpoints
    ensures |h| == |endpoints| && forall i | 0 <= i < |h| :: h[i] == endpoints[i].healthy
  {
    seq(|endpoints|, i requires 0 <= i < |endpoints| reads endpoints => endpoints[i].healthy)
  }

  class LoadBalancer {
    const endpoints: seq<Endpoint>
    const weights: seq<nat>
    var current: nat

    ghost predicate Valid() {
      |weights| == |endpoints| && forall i | 0 <= i < |weights| :: weights[i] == endpoints[i].weight
    }

    constructor (endpoints: seq<Endpoint>)
      ensures Valid() && this.endpoints == endpoints && current == 0
    {
      this.endpoints := endpoints;
      weights := seq(|endpoints|, i requires 0 <= i < |endpoints| => endpoints[i].weight);
      current := 0;
    }

    /** Takes a ticket only if some healthy endpoint has positive weight, and then returns the owner of
        the ticket's residue; the last-resort loop is never reached. */
    method Next() returns (r: Option<Endpoint>)
      requires Valid() && current < MAX_TICKET
      modifies this
      ensures r.None? <==> Total(weights, old(HealthOf(endpoints))) == 0
      ensures r.None? ==> current == old(current)
      ensures r.Some? ==>
                && current == old(current) + 1
                && r.value == endpoints[Selected(weights, old(HealthOf(endpoints)), current)]
    {
      if |endpoints| == 0 {
        return None;
      }
      ghost var h := HealthOf(endpoints);

      var totalWeight: nat := 0;
      for i := 0 to |endpoints|
        invariant totalWeight == Prefix(weights, h, i)
      {
        if endpoints[i].healthy {
          totalWeight := totalWeight + weights[i];
        }
      }
      if totalWeight == 0 {
        return None;
      }

      current := current + 1;
      var selected := current % totalWeight;
      var cumulative: nat := 0;
      for i := 0 to |endpoints|
        invariant current == old(current) + 1 && cumulative == Prefix(weights, h, i) <= selected
      {
        if !endpoints[i].healthy {
          continue;
        }
        cumulative := cumulative + weights[i];
        if selected < cumulative {
          OwnerIsUnique(weights, h, selected, i, Selected(weights, h, current));
          return Some(endpoints[i]);
        }
      }
      assert false;
      r := None;
    }

    /** When nothing can be selected, falls back to plain round robin over all endpoints. */
    method NextWithFallback() returns (r: Option<Endpoint>)
      requires Valid() && current < MAX_TICKET
      modifies this
      ensures r.None? <==> endpoints == []
      ensures current == old(current) + if endpoints == [] then 0 else 1
      ensures endpoints != [] ==>
                var h := old(HealthOf(endpoints));
                r.value == endpoints[if Total(weights, h) > 0 then Selected(weights, h, current) else current % |endpoints|]
    {
      r := Next();
      if r.None? && |endpoints| > 0 {
        current := current + 1;
        r := Some(endpoints[current % |endpoints|]);
      }
    }

    method HealthyCount() returns (count: nat)
      ensures count == |set i: nat | i < |endpoints| && endpoints[i].healthy|
    {
      count := 0;
      for i := 0 to |endpoints|
        invariant count == |set j: nat | j < i && endpoints[j].healthy|
      {
        ghost var counted := set j: nat | j < i && endpoints[j].healthy;
        ghost var next := set j: nat | j < i + 1 && endpoints[j].healthy;
        if endpoints[i].healthy {
          assert next == counted + {i};
          count := count + 1;
        } else {
          assert next == counted;
        }
      }
    }
  }
}
