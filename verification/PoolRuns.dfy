/** Whole runs of a connection pool whose clients hold leases. */
module PoolRuns {
  import opened Common
  import opened ConnectionPools

  datatype Event =
    | GetConn(now: int, dialledAt: int, dialOk: bool)
    | PutConn(id: nat, now: int)
    | RemoveConn(id: nat, now: int)
    | ClosePool(now: int)
    | CleanUp(now: int)

  /** The pool, the connections that clients hold, and the time of the last call. */
  datatype System = System(pool: Pool, leases: set<nat>, clock: int)

  function Start(clock: int): System {
    System(EMPTY, {}, clock)
  }

  /** Only a lease's holder gives the connection back, and does so once; the pool is closed once. */
  predicate Enabled(s: System, e: Event) {
    && s.clock <= e.now
    && (e.GetConn? ==> e.now <= e.dialledAt)
    && (e.PutConn? || e.RemoveConn? ==> e.id in s.leases)
    && (e.ClosePool? ==> !s.pool.closed)
  }

  function Step(c: Config, s: System, e: Event): System {
    match e
    case GetConn(now, dialledAt, dialOk) =>
      var r := GetOutcome(c, s.pool, now, dialOk);
      System(AfterGet(c, s.pool, now, dialledAt, dialOk), if r.Got? then s.leases + {r.id} else s.leases, dialledAt)
    case PutConn(id, now) => System(AfterPut(s.pool, id, now), s.leases - {id}, now)
    case RemoveConn(id, now) => System(AfterRemove(s.pool, id), s.leases - {id}, now)
    case ClosePool(now) => System(AfterClose(s.pool), s.leases, now)
    case CleanUp(now) => System(AfterCleanup(c, s.pool, now), s.leases, now)
  }

  predicate Legal(c: Config, s: System, es: seq<Event>)
    decreases |es|
  {
    es == [] || (Enabled(s, es[0]) && Legal(c, Step(c, s, es[0]), es[1..]))
  }

  function Run(c: Config, s: System, es: seq<Event>): System
    decreases |es|
  {
    if es == [] then s else Run(c, Step(c, s, es[0]), es[1..])
  }

  // ---------------------------------------------------------------- conservation

  /** Every socket number below `n`, once. */
  function Numbers(n: nat): multiset<nat> {
    if n == 0 then multiset{} else Numbers(n - 1) + multiset{n - 1}
  }

  /** The numbers of the connections in use. */
  function InUse(conns: seq<Conn>): set<nat> {
    set k | 0 <= k < |conns| && conns[k].inUse :: conns[k].id
  }

  /** Every socket ever dialled is either pooled or has been closed, and that once. */
  ghost predicate Conserved(p: Pool) {
    multiset(Ids(p.conns)) + multiset(p.closings) == Numbers(p.dialled)
  }

  ghost predicate Inv(c: Config, s: System) {
    && Conserved(s.pool)
    && |s.pool.conns| <= c.maxConnections
    && (forall id | id in s.leases :: id < s.pool.dialled)
    && (if s.pool.closed then s.pool.conns == [] else s.leases == InUse(s.pool.conns))
  }

  lemma {:induction false} NumbersAreSingle(n: nat)
    ensures |Numbers(n)| == n
    ensures forall id: nat :: Numbers(n)[id] == if id < n then 1 else 0
  {
    if n > 0 {
      NumbersAreSingle(n - 1);
    }
  }

  lemma IdsSplit(a: seq<Conn>, b: seq<Conn>)
    ensures multiset(Ids(a + b)) == multiset(Ids(a)) + multiset(Ids(b))
  {
    assert Ids(a + b) == Ids(a) + Ids(b);
  }

  lemma PooledOnce(p: Pool, j: nat, k: nat)
    requires Conserved(p) && j < k < |p.conns|
    ensures p.conns[j].id != p.conns[k].id
  {
    NumbersAreSingle(p.dialled);
    var ids := Ids(p.conns);
    assert ids == ids[..k] + [ids[k]] + ids[k + 1..];
    assert ids[j] in multiset(ids[..k]) by {
      assert ids[..k][j] == ids[j];
    }
    assert multiset(ids) == multiset(ids[..k]) + multiset{ids[k]} + multiset(ids[k + 1..]);
    assert multiset(ids)[ids[k]] <= Numbers(p.dialled)[ids[k]] <= 1;
  }

  lemma GetConserves(c: Config, p: Pool, now: int, dialledAt: int, dialOk: bool)
    requires Conserved(p)
    ensures Conserved(AfterGet(c, p, now, dialledAt, dialOk))
  {
    var after := AfterGet(c, p, now, dialledAt, dialOk);
    var i := FirstUsable(c, p.conns, now);
    if !p.closed && i < |p.conns| {
      assert Ids(after.conns) == Ids(p.conns);
    } else if after != p {
      IdsSplit(p.conns, [Conn(p.dialled, dialledAt, dialledAt, true)]);
      assert Ids([Conn(p.dialled, dialledAt, dialledAt, true)]) == [p.dialled];
    }
  }

  lemma RemoveConserves(p: Pool, id: nat)
    requires Conserved(p)
    ensures Conserved(AfterRemove(p, id))
  {
    var i := Find(p.conns, id);
    if i < |p.conns| {
      SplitAround(p.conns, i);
      MovesOver(multiset(Ids(p.conns[..i] + p.conns[i + 1..])), p.closings, id);
    }
  }

  lemma MovesOver(pooled: multiset<nat>, closings: seq<nat>, id: nat)
    ensures pooled + multiset(closings + [id]) == pooled + multiset{id} + multiset(closings)
  {}

  lemma SplitAround(conns: seq<Conn>, i: nat)
    requires i < |conns|
    ensures multiset(Ids(conns)) == multiset(Ids(conns[..i] + conns[i + 1..])) + multiset{conns[i].id}
  {
    var ids := Ids(conns);
    assert Ids(conns[..i] + conns[i + 1..]) == ids[..i] + ids[i + 1..];
    assert ids == ids[..i] + ([ids[i]] + ids[i + 1..]);
  }

  lemma {:induction false} CleanupConserves(c: Config, conns: seq<Conn>, now: int)
    ensures multiset(Ids(Kept(c, conns, now))) + multiset(Evicted(c, conns, now)) == multiset(Ids(conns))
    ensures |Kept(c, conns, now)| <= |conns|
  {
    if conns != [] {
      var before, last := conns[..|conns| - 1], conns[|conns| - 1];
      CleanupConserves(c, before, now);
      assert Ids(conns) == Ids(before) + [last.id];
      assert Ids(Kept(c, before, now) + [last]) == Ids(Kept(c, before, now)) + [last.id];
    }
  }

  lemma {:induction false} CleanupKeepsLeases(c: Config, conns: seq<Conn>, now: int)
    ensures InUse(Kept(c, conns, now)) == InUse(conns)
  {
    if conns != [] {
      var before, last := conns[..|conns| - 1], conns[|conns| - 1];
      CleanupKeepsLeases(c, before, now);
      assert conns == before + [last];
      InUseAppend(before, last);
      InUseAppend(Kept(c, before, now), last);
    }
  }

  lemma InUseAppend(conns: seq<Conn>, conn: Conn)
    ensures InUse(conns + [conn]) == InUse(conns) + if conn.inUse then {conn.id} else {}
  {
    var more := conns + [conn];
    assert more[|conns|] == conn && forall k | 0 <= k < |conns| :: more[k] == conns[k];
  }

  lemma GetLeases(c: Config, p: Pool, now: int, dialledAt: int, dialOk: bool)
    requires !p.closed
    ensures var r := GetOutcome(c, p, now, dialOk);
            InUse(AfterGet(c, p, now, dialledAt, dialOk).conns) == InUse(p.conns) + if r.Got? then {r.id} else {}
  {
    var i := FirstUsable(c, p.conns, now);
    if i < |p.conns| {
      var after := AfterGet(c, p, now, dialledAt, dialOk).conns;
      assert after[i].inUse && after[i].id == p.conns[i].id;
      assert forall k | 0 <= k < |after| && k != i :: after[k] == p.conns[k];
    } else {
      InUseAppend(p.conns, Conn(p.dialled, dialledAt, dialledAt, true));
    }
  }

  /** Splicing out the `i`-th of distinct connections takes away its number and no other. */
  lemma SpliceReleases(conns: seq<Conn>, i: nat)
    requires i < |conns| && forall k | 0 <= k < |conns| && k != i :: conns[k].id != conns[i].id
    ensures InUse(conns[..i] + conns[i + 1..]) == InUse(conns) - {conns[i].id}
  {
    var after := conns[..i] + conns[i + 1..];
    forall k | 0 <= k < |conns| && k != i && conns[k].inUse
      ensures conns[k].id in InUse(after)
    {
      assert after[if k < i then k else k - 1] == conns[k];
    }
    forall k | 0 <= k < |after| && after[k].inUse
      ensures after[k].id in InUse(conns) && after[k].id != conns[i].id
    {
      assert after[k] == conns[if k < i then k else k + 1];
    }
  }

  lemma RemoveReleases(p: Pool, id: nat)
    requires Conserved(p)
    ensures InUse(AfterRemove(p, id).conns) == InUse(p.conns) - {id}
  {
    var i := Find(p.conns, id);
    if i < |p.conns| {
      forall k | 0 <= k < |p.conns| && k != i
        ensures p.conns[k].id != p.conns[i].id
      {
        PooledOnce(p, Min(i, k), Max(i, k));
      }
      SpliceReleases(p.conns, i);
    }
  }

  lemma PutReleases(p: Pool, id: nat, now: int)
    ensures InUse(AfterPut(p, id, now).conns) == InUse(p.conns) - {id}
    ensures Ids(AfterPut(p, id, now).conns) == Ids(p.conns)
  {
    var after := AfterPut(p, id, now).conns;
    forall k | 0 <= k < |p.conns| && p.conns[k].inUse && p.conns[k].id != id
      ensures p.conns[k].id in InUse(after)
    {
      assert after[k] == p.conns[k];
    }
  }

  /** Pooled and closed sockets have been dialled. */
  lemma InRange(p: Pool)
    requires Conserved(p)
    ensures forall k | 0 <= k < |p.conns| :: p.conns[k].id < p.dialled
    ensures forall id | id in p.closings :: id < p.dialled
  {
    NumbersAreSingle(p.dialled);
    forall k | 0 <= k < |p.conns|
      ensures p.conns[k].id < p.dialled
    {
      var ids := Ids(p.conns);
      assert ids[k] in multiset(ids);
      assert multiset(ids)[ids[k]] <= Numbers(p.dialled)[ids[k]];
    }
    forall id | id in p.closings
      ensures id < p.dialled
    {
      assert id in multiset(p.closings);
      assert multiset(p.closings)[id] <= Numbers(p.dialled)[id];
    }
  }

  lemma GetStaysInBounds(c: Config, p: Pool, now: int, dialledAt: int, dialOk: bool)
    requires Conserved(p) && |p.conns| <= c.maxConnections
    ensures var after, r := AfterGet(c, p, now, dialledAt, dialOk), GetOutcome(c, p, now, dialOk);
            && |after.conns| <= c.maxConnections && after.closed == p.closed
            && p.dialled <= after.dialled && (r.Got? ==> r.id < after.dialled)
            && (p.closed ==> after == p && !r.Got?)
  {
    InRange(p);
  }

  lemma GetKeepsInv(c: Config, s: System, e: Event)
    requires Inv(c, s) && e.GetConn?
    ensures Inv(c, Step(c, s, e))
  {
    GetConserves(c, s.pool, e.now, e.dialledAt, e.dialOk);
    GetStaysInBounds(c, s.pool, e.now, e.dialledAt, e.dialOk);
    LeasesAfterGet(c, s, e);
  }

  lemma LeasesAfterGet(c: Config, s: System, e: Event)
    requires Inv(c, s) && e.GetConn?
    ensures var s' := Step(c, s, e);
            && (forall id | id in s'.leases :: id < s'.pool.dialled)
            && (if s'.pool.closed then s'.pool.conns == [] else s'.leases == InUse(s'.pool.conns))
  {
    GetStaysInBounds(c, s.pool, e.now, e.dialledAt, e.dialOk);
    if !s.pool.closed {
      GetLeases(c, s.pool, e.now, e.dialledAt, e.dialOk);
    }
  }

  lemma RemoveKeepsInv(c: Config, s: System, id: nat, now: int)
    requires Inv(c, s)
    ensures Inv(c, Step(c, s, RemoveConn(id, now)))
  {
    RemoveConserves(s.pool, id);
    RemoveReleases(s.pool, id);
  }

  lemma InvStep(c: Config, s: System, e: Event)
    requires Inv(c, s) && Enabled(s, e)
    ensures Inv(c, Step(c, s, e))
  {
    match e
    case GetConn(_, _, _) => GetKeepsInv(c, s, e);
    case PutConn(id, now) => PutReleases(s.pool, id, now);
    case RemoveConn(id, now) => RemoveKeepsInv(c, s, id, now);
    case ClosePool(_) =>
      assert Ids([]) == [];
    case CleanUp(now) =>
      CleanupConserves(c, s.pool.conns, now);
      CleanupKeepsLeases(c, s.pool.conns, now);
  }

  lemma {:induction false} InvHolds(c: Config, s: System, es: seq<Event>)
    requires Inv(c, s) && Legal(c, s, es)
    ensures Inv(c, Run(c, s, es))
    decreases |es|
  {
    if es != [] {
      InvStep(c, s, es[0]);
      InvHolds(c, Step(c, s, es[0]), es[1..]);
    }
  }

  lemma StartInv(c: Config, clock: int)
    ensures Inv(c, Start(clock))
  {
    assert Ids([]) == [];
  }

  lemma {:induction false} ActiveIsInUse(conns: seq<Conn>)
    requires forall j, k | 0 <= j < k < |conns| :: conns[j].id != conns[k].id
    ensures ActiveCount(conns) == |InUse(conns)|
  {
    if conns != [] {
      var before, last := conns[..|conns| - 1], conns[|conns| - 1];
      ActiveIsInUse(before);
      assert conns == before + [last];
      InUseAppend(before, last);
      assert last.id !in InUse(before);
    }
  }

  /** In every reachable state the pooled connections are distinct and at most `maxConnections`, no socket is
      closed twice or both closed and pooled, every socket dialled is pooled or closed, and until the pool is
      closed the active count is the number of outstanding leases, each on a pooled connection. This holds
      also when leases are given back after the pool was closed. */
  lemma Conservation(c: Config, clock: int, es: seq<Event>)
    requires Legal(c, Start(clock), es)
    ensures var s := Run(c, Start(clock), es); var p := s.pool;
            && (forall j, k | 0 <= j < k < |p.conns| :: p.conns[j].id != p.conns[k].id)
            && |p.conns| <= c.maxConnections
            && (forall id :: multiset(p.closings)[id] <= 1)
            && (forall k | 0 <= k < |p.conns| :: p.conns[k].id !in p.closings)
            && p.dialled == |p.conns| + |p.closings|
            && (!p.closed ==> ActiveCount(p.conns) == |s.leases| && forall id | id in s.leases :: id !in p.closings)
  {
    StartInv(c, clock);
    InvHolds(c, Start(clock), es);
    var s := Run(c, Start(clock), es);
    NumbersAreSingle(s.pool.dialled);
    Partition(s.pool);
    ActiveIsInUse(s.pool.conns);
  }

  lemma Partition(p: Pool)
    requires Conserved(p)
    ensures forall j, k | 0 <= j < k < |p.conns| :: p.conns[j].id != p.conns[k].id
    ensures forall id :: multiset(p.closings)[id] <= 1
    ensures forall k | 0 <= k < |p.conns| :: p.conns[k].id !in p.closings
    ensures p.dialled == |p.conns| + |p.closings|
  {
    NumbersAreSingle(p.dialled);
    var ids := Ids(p.conns);
    forall j, k | 0 <= j < k < |p.conns|
      ensures p.conns[j].id != p.conns[k].id
    {
      PooledOnce(p, j, k);
    }
    forall id
      ensures multiset(p.closings)[id] <= 1
    {
      assert multiset(p.closings)[id] <= Numbers(p.dialled)[id];
    }
    forall k | 0 <= k < |p.conns|
      ensures p.conns[k].id !in p.closings
    {
      assert ids[k] in multiset(ids);
      assert multiset(ids)[ids[k]] + multiset(p.closings)[ids[k]] == Numbers(p.dialled)[ids[k]];
    }
    assert |multiset(ids)| + |multiset(p.closings)| == |Numbers(p.dialled)|;
  }

  /** A connection handed out is not leased to anybody else, and its socket is open. */
  lemma HandOutIsExclusive(c: Config, clock: int, es: seq<Event>, now: int, dialledAt: int, dialOk: bool)
    requires Legal(c, Start(clock), es)
    requires GetOutcome(c, Run(c, Start(clock), es).pool, now, dialOk).Got?
    ensures var s := Run(c, Start(clock), es); var id := GetOutcome(c, s.pool, now, dialOk).id;
            id !in s.leases && id !in s.pool.closings
  {
    StartInv(c, clock);
    InvHolds(c, Start(clock), es);
    var s := Run(c, Start(clock), es);
    Partition(s.pool);
    InRange(s.pool);
  }

  // ---------------------------------------------------------------- exhaustion and draining

  /** An idle connection that was last used too long ago, or dialled too long ago. */
  predicate Stale(c: Config, conn: Conn, now: int) {
    !conn.inUse && (now - conn.lastUsedAt > c.idleTimeout || (c.maxLifetime > 0 && now - conn.createdAt > c.maxLifetime))
  }

  /** An idle connection that may be handed out: used and dialled recently enough. */
  predicate Reusable(c: Config, conn: Conn, now: int) {
    !conn.inUse && now - conn.lastUsedAt <= c.idleTimeout && (c.maxLifetime > 0 ==> now - conn.createdAt <= c.maxLifetime)
  }

  lemma ReusableIsUsable(c: Config, conns: seq<Conn>, now: int)
    ensures forall k | 0 <= k < |conns| :: Reusable(c, conns[k], now) <==> Usable(c, conns[k], now)
    ensures forall k | 0 <= k < |conns| :: Reusable(c, conns[k], now) <==> !conns[k].inUse && !Stale(c, conns[k], now)
  {}

  /** An open pool hands out the first reusable connection it has, dialling nothing. */
  lemma GetReuses(c: Config, p: Pool, now: int, dialledAt: int, dialOk: bool, k: nat)
    requires !p.closed && k < |p.conns| && Reusable(c, p.conns[k], now)
    requires forall j | 0 <= j < k :: !Reusable(c, p.conns[j], now)
    ensures GetOutcome(c, p, now, dialOk) == Got(p.conns[k].id)
    ensures AfterGet(c, p, now, dialledAt, dialOk) == p.(conns := p.conns[k := p.conns[k].(inUse := true, lastUsedAt := now)])
  {
    ReusableIsUsable(c, p.conns, now);
    assert FirstUsable(c, p.conns, now) == k;
  }

  /** Without one it dials, as long as there is room; a failed dial or a full pool changes nothing. */
  lemma GetDials(c: Config, p: Pool, now: int, dialledAt: int, dialOk: bool)
    requires !p.closed && forall k | 0 <= k < |p.conns| :: !Reusable(c, p.conns[k], now)
    ensures var r, after := GetOutcome(c, p, now, dialOk), AfterGet(c, p, now, dialledAt, dialOk);
            if |p.conns| >= c.maxConnections then r == PoolExhausted && after == p
            else if !dialOk then r == DialFailed && after == p
            else
              && r == Got(p.dialled)
              && after == p.(conns := p.conns + [Conn(p.dialled, dialledAt, dialledAt, true)], dialled := p.dialled + 1)
  {
    ReusableIsUsable(c, p.conns, now);
    assert FirstUsable(c, p.conns, now) == |p.conns|;
  }

  // ---------------------------------------------------------------- what a cleanup spares

  predicate Increasing(at: seq<nat>, n: nat) {
    (forall j | 0 <= j < |at| :: at[j] < n) && forall i, j | 0 <= i < j < |at| :: at[i] < at[j]
  }

  predicate Spared(c: Config, conn: Conn, now: int) {
    conn.inUse || now - conn.lastUsedAt <= c.idleTimeout
  }

  lemma AppendPlace(at: seq<nat>, n: nat)
    requires Increasing(at, n)
    ensures Increasing(at, n + 1) && Increasing(at + [n], n + 1) && n !in at
    ensures forall k: nat :: k in at + [n] <==> k in at || k == n
  {}

  /** The places of the connections that a cleanup spares. */
  lemma {:induction false} KeptPlaces(c: Config, conns: seq<Conn>, now: int) returns (kept: seq<nat>)
    ensures Increasing(kept, |conns|) && forall k: nat | k < |conns| :: k in kept <==> Spared(c, conns[k], now)
    ensures |Kept(c, conns, now)| == |kept| && forall j | 0 <= j < |kept| :: Kept(c, conns, now)[j] == conns[kept[j]]
  {
    kept := [];
    if conns != [] {
      var n: nat := |conns| - 1;
      kept := KeptPlaces(c, conns[..n], now);
      AppendPlace(kept, n);
      assert forall k | 0 <= k < n :: conns[..n][k] == conns[k];
      if Spared(c, conns[n], now) {
        kept := kept + [n];
      }
    }
  }

  /** The places of the connections that a cleanup closes. */
  lemma {:induction false} EvictedPlaces(c: Config, conns: seq<Conn>, now: int) returns (gone: seq<nat>)
    ensures Increasing(gone, |conns|) && forall k: nat | k < |conns| :: k in gone <==> !Spared(c, conns[k], now)
    ensures |Evicted(c, conns, now)| == |gone| && forall j | 0 <= j < |gone| :: Evicted(c, conns, now)[j] == conns[gone[j]].id
  {
    gone := [];
    if conns != [] {
      var n: nat := |conns| - 1;
      gone := EvictedPlaces(c, conns[..n], now);
      AppendPlace(gone, n);
      assert forall k | 0 <= k < n :: conns[..n][k] == conns[k];
      if !Spared(c, conns[n], now) {
        gone := gone + [n];
      }
    }
  }

  /** A cleanup of an open pool keeps exactly the connections that are leased or not idle for longer than
      `idleTimeout`, in their order, and closes exactly the others, each once, in theirs. */
  lemma CleanupKeepsIff(c: Config, p: Pool, now: int) returns (kept: seq<nat>, gone: seq<nat>)
    requires !p.closed
    ensures Increasing(kept, |p.conns|) && Increasing(gone, |p.conns|)
    ensures forall k: nat | k < |p.conns| ::
              (k in kept <==> p.conns[k].inUse || now - p.conns[k].lastUsedAt <= c.idleTimeout) && (k in gone <==> k !in kept)
    ensures var after := AfterCleanup(c, p, now);
            && |after.conns| == |kept| && (forall j | 0 <= j < |kept| :: after.conns[j] == p.conns[kept[j]])
            && |after.closings| == |p.closings| + |gone| && p.closings <= after.closings
            && (forall j | 0 <= j < |gone| :: after.closings[|p.closings| + j] == p.conns[gone[j]].id)
  {
    kept := KeptPlaces(c, p.conns, now);
    gone := EvictedPlaces(c, p.conns, now);
  }

  /** An open pool reports exhaustion exactly when it is full and every connection is leased or stale. */
  lemma ExhaustedIff(c: Config, p: Pool, now: int, dialOk: bool)
    requires !p.closed
    ensures GetOutcome(c, p, now, dialOk).PoolExhausted?
            <==> |p.conns| >= c.maxConnections
                 && forall k | 0 <= k < |p.conns| :: p.conns[k].inUse || Stale(c, p.conns[k], now)
  {
    var i := FirstUsable(c, p.conns, now);
    assert i < |p.conns| ==> Usable(c, p.conns[i], now);
  }

  /** The numbers handed out during a run. */
  function HandedOut(c: Config, s: System, es: seq<Event>): set<nat>
    decreases |es|
  {
    if es == [] then {}
    else
      (if es[0].GetConn? then
         var r := GetOutcome(c, s.pool, es[0].now, es[0].dialOk);
         if r.Got? then {r.id} else {}
       else {})
      + HandedOut(c, Step(c, s, es[0]), es[1..])
  }

  /** The run cleans up later than `deadline`. */
  predicate CleansAfter(es: seq<Event>, deadline: int) {
    exists e | e in es :: e.CleanUp? && e.now > deadline
  }

  predicate Pooled(p: Pool, conn: Conn) {
    conn in p.conns
  }

  /** One step keeps a stale idle connection as it is or closes it, never hands it out, and a cleanup later
      than its idle deadline closes it. */
  lemma StaleStep(c: Config, s: System, e: Event, conn: Conn)
    requires Inv(c, s) && Enabled(s, e) && Pooled(s.pool, conn)
    requires Stale(c, conn, s.clock)
    ensures var s' := Step(c, s, e);
            && s.clock <= s'.clock
            && Stale(c, conn, s'.clock)
            && (e.GetConn? ==> GetOutcome(c, s.pool, e.now, e.dialOk) != Got(conn.id))
            && (if Pooled(s'.pool, conn) then !(e.CleanUp? && e.now > conn.lastUsedAt + c.idleTimeout)
                else conn.id in s'.pool.closings)
  {
    var p := s.pool;
    var k :| 0 <= k < |p.conns| && p.conns[k] == conn;
    NotLeased(c, s, k);
    match e
    case GetConn(now, dialledAt, dialOk) =>
      StaleIsNotHandedOut(c, p, now, dialledAt, dialOk, k);
    case PutConn(id, now) =>
      assert AfterPut(p, id, now).conns[k] == conn;
    case RemoveConn(id, _) =>
      OthersSurviveRemove(p, id, k);
    case ClosePool(_) =>
      assert Ids(p.conns)[k] in Ids(p.conns);
    case CleanUp(now) =>
      KeptOrEvicted(c, p.conns, now, conn);
  }

  lemma OthersSurviveRemove(p: Pool, id: nat, k: nat)
    requires k < |p.conns| && p.conns[k].id != id
    ensures p.conns[k] in AfterRemove(p, id).conns
  {
    var i := Find(p.conns, id);
    if i < |p.conns| {
      assert AfterRemove(p, id).conns[if k < i then k else k - 1] == p.conns[k];
    }
  }

  lemma NotLeased(c: Config, s: System, k: nat)
    requires Inv(c, s) && k < |s.pool.conns| && !s.pool.conns[k].inUse
    ensures s.pool.conns[k].id !in s.leases
  {
    Partition(s.pool);
  }

  lemma StaleIsNotHandedOut(c: Config, p: Pool, now: int, dialledAt: int, dialOk: bool, k: nat)
    requires Conserved(p) && k < |p.conns| && !IsHealthy(c, p.conns[k], now)
    ensures GetOutcome(c, p, now, dialOk) != Got(p.conns[k].id)
    ensures p.conns[k] in AfterGet(c, p, now, dialledAt, dialOk).conns
  {
    Partition(p);
    InRange(p);
    var i := FirstUsable(c, p.conns, now);
    assert AfterGet(c, p, now, dialledAt, dialOk).conns[k] == p.conns[k];
  }

  lemma {:induction false} KeptOrEvicted(c: Config, conns: seq<Conn>, now: int, conn: Conn)
    requires conn in conns
    ensures if Expired(c, conn, now) then conn !in Kept(c, conns, now) && conn.id in Evicted(c, conns, now)
            else conn in Kept(c, conns, now)
  {
    var before, last := conns[..|conns| - 1], conns[|conns| - 1];
    KeptOnly(c, before, now);
    if conn in before {
      KeptOrEvicted(c, before, now, conn);
    }
  }

  lemma {:induction false} KeptOnly(c: Config, conns: seq<Conn>, now: int)
    ensures forall conn | conn in Kept(c, conns, now) :: !Expired(c, conn, now)
  {
    if conns != [] {
      KeptOnly(c, conns[..|conns| - 1], now);
    }
  }

  lemma ClosedIsKept(c: Config, s: System, e: Event, id: nat)
    requires Inv(c, s) && id in s.pool.closings
    ensures id in Step(c, s, e).pool.closings
    ensures e.GetConn? ==> GetOutcome(c, s.pool, e.now, e.dialOk) != Got(id)
  {
    Partition(s.pool);
    InRange(s.pool);
  }

  lemma {:induction false} ClosedStaysClosed(c: Config, s: System, es: seq<Event>, id: nat)
    requires Inv(c, s) && Legal(c, s, es) && id in s.pool.closings
    ensures id in Run(c, s, es).pool.closings && id !in HandedOut(c, s, es)
    decreases |es|
  {
    if es != [] {
      InvStep(c, s, es[0]);
      ClosedIsKept(c, s, es[0], id);
      ClosedStaysClosed(c, Step(c, s, es[0]), es[1..], id);
    }
  }

  /** A stale idle connection drains: it is never handed out again, and once a cleanup runs later than
      `idleTimeout` past its last use its socket has been closed. */
  lemma {:induction false} StaleConnectionDrains(c: Config, s: System, es: seq<Event>, conn: Conn)
    requires Inv(c, s) && Legal(c, s, es) && Pooled(s.pool, conn)
    requires Stale(c, conn, s.clock)
    ensures conn.id !in HandedOut(c, s, es)
    ensures CleansAfter(es, conn.lastUsedAt + c.idleTimeout) ==> conn.id in Run(c, s, es).pool.closings
    ensures Pooled(Run(c, s, es).pool, conn) || conn.id in Run(c, s, es).pool.closings
    decreases |es|
  {
    if es != [] {
      var s' := Step(c, s, es[0]);
      StaleStep(c, s, es[0], conn);
      InvStep(c, s, es[0]);
      if Pooled(s'.pool, conn) {
        StaleConnectionDrains(c, s', es[1..], conn);
        assert forall e | e in es :: e == es[0] || e in es[1..];
      } else {
        ClosedStaysClosed(c, s', es[1..], conn.id);
      }
    }
  }
}
