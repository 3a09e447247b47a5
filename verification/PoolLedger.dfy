/** The pool against a ledger kept from the outside: when each socket was dialled and last given back. */
module PoolLedger {
  import opened Common
  import opened ConnectionPools
  import opened PoolRuns

  datatype Ledger = Ledger(born: map<nat, int>, returned: map<nat, int>)

  const BLANK := Ledger(map[], map[])

  /** A number handed out for the first time was dialled then; a connection given back was last used then. */
  function Noted(c: Config, s: System, l: Ledger, e: Event): Ledger {
    match e
    case GetConn(now, dialledAt, dialOk) =>
      var r := GetOutcome(c, s.pool, now, dialOk);
      if r.Got? && r.id !in l.born then l.(born := l.born[r.id := dialledAt]) else l
    case PutConn(id, now) => l.(returned := l.returned[id := now])
    case _ => l
  }

  function LedgerAfter(c: Config, s: System, l: Ledger, es: seq<Event>): Ledger
    decreases |es|
  {
    if es == [] then l else LedgerAfter(c, Step(c, s, es[0]), Noted(c, s, l, es[0]), es[1..])
  }

  /** The ledger tells of every pooled connection what the pool stores. */
  ghost predicate Agrees(s: System, l: Ledger) {
    && (forall id | id in l.born :: id < s.pool.dialled)
    && forall k | 0 <= k < |s.pool.conns| ::
         var conn := s.pool.conns[k];
         && conn.id in l.born && conn.createdAt == l.born[conn.id]
         && (!conn.inUse ==> conn.id in l.returned && conn.lastUsedAt == l.returned[conn.id])
  }

  lemma ReuseAgrees(c: Config, s: System, l: Ledger, now: int, dialledAt: int, dialOk: bool)
    requires Agrees(s, l) && !s.pool.closed && FirstUsable(c, s.pool.conns, now) < |s.pool.conns|
    ensures Agrees(Step(c, s, GetConn(now, dialledAt, dialOk)), l)
    ensures Noted(c, s, l, GetConn(now, dialledAt, dialOk)) == l
  {}

  lemma DialAgrees(c: Config, s: System, l: Ledger, dialledAt: int, s': System)
    requires Inv(c, s) && Agrees(s, l)
    requires s'.pool == s.pool.(conns := s.pool.conns + [Conn(s.pool.dialled, dialledAt, dialledAt, true)], dialled := s.pool.dialled + 1)
    ensures s.pool.dialled !in l.born && Agrees(s', l.(born := l.born[s.pool.dialled := dialledAt]))
  {
    InRange(s.pool);
    assert forall k | 0 <= k < |s.pool.conns| :: s'.pool.conns[k] == s.pool.conns[k];
  }

  lemma GetAgrees(c: Config, s: System, l: Ledger, now: int, dialledAt: int, dialOk: bool)
    requires Inv(c, s) && Agrees(s, l)
    ensures Agrees(Step(c, s, GetConn(now, dialledAt, dialOk)), Noted(c, s, l, GetConn(now, dialledAt, dialOk)))
  {
    if !s.pool.closed {
      if FirstUsable(c, s.pool.conns, now) < |s.pool.conns| {
        ReuseAgrees(c, s, l, now, dialledAt, dialOk);
      } else if |s.pool.conns| < c.maxConnections && dialOk {
        DialAgrees(c, s, l, dialledAt, Step(c, s, GetConn(now, dialledAt, dialOk)));
      }
    }
  }

  lemma RemoveAgrees(c: Config, s: System, l: Ledger, id: nat, now: int)
    requires Agrees(s, l)
    ensures Agrees(Step(c, s, RemoveConn(id, now)), l)
  {
    var i, after := Find(s.pool.conns, id), AfterRemove(s.pool, id);
    if i < |s.pool.conns| {
      forall k | 0 <= k < |after.conns|
        ensures after.conns[k] == s.pool.conns[if k < i then k else k + 1]
      {}
    }
  }

  lemma CleanupAgrees(c: Config, s: System, l: Ledger, now: int)
    requires Agrees(s, l)
    ensures Agrees(Step(c, s, CleanUp(now)), l)
  {
    if !s.pool.closed {
      var kept, gone := CleanupKeepsIff(c, s.pool, now);
    }
  }

  lemma StepAgrees(c: Config, s: System, l: Ledger, e: Event)
    requires Inv(c, s) && Agrees(s, l) && Enabled(s, e)
    ensures Agrees(Step(c, s, e), Noted(c, s, l, e))
  {
    match e
    case GetConn(now, dialledAt, dialOk) => GetAgrees(c, s, l, now, dialledAt, dialOk);
    case PutConn(_, _) =>
    case RemoveConn(id, now) => RemoveAgrees(c, s, l, id, now);
    case ClosePool(_) =>
    case CleanUp(now) => CleanupAgrees(c, s, l, now);
  }

  lemma {:induction false} RunAgrees(c: Config, s: System, l: Ledger, es: seq<Event>)
    requires Inv(c, s) && Agrees(s, l) && Legal(c, s, es)
    ensures Agrees(Run(c, s, es), LedgerAfter(c, s, l, es))
    decreases |es|
  {
    if es != [] {
      StepAgrees(c, s, l, es[0]);
      InvStep(c, s, es[0]);
      RunAgrees(c, Step(c, s, es[0]), Noted(c, s, l, es[0]), es[1..]);
    }
  }

  /** By the ledger the socket is open, nobody holds it, and it was given back and dialled recently enough. */
  ghost predicate Ready(c: Config, s: System, l: Ledger, id: nat, now: int) {
    && id in l.born && id in l.returned && id !in s.pool.closings && id !in s.leases
    && now - l.returned[id] <= c.idleTimeout
    && (c.maxLifetime > 0 ==> now - l.born[id] <= c.maxLifetime)
  }

  /** The open sockets are the pooled ones. */
  lemma OpenIsPooled(p: Pool, id: nat) returns (k: nat)
    requires Conserved(p) && id < p.dialled && id !in p.closings
    ensures k < |p.conns| && p.conns[k].id == id
  {
    NumbersAreSingle(p.dialled);
    var ids := Ids(p.conns);
    assert multiset(ids)[id] == Numbers(p.dialled)[id] == 1;
    assert id in ids;
    k :| 0 <= k < |ids| && ids[k] == id;
  }

  lemma ReadyIsReusable(c: Config, s: System, l: Ledger, now: int, id: nat)
    requires Inv(c, s) && Agrees(s, l) && !s.pool.closed
    ensures Ready(c, s, l, id, now) <==> exists k | 0 <= k < |s.pool.conns| :: s.pool.conns[k].id == id && Reusable(c, s.pool.conns[k], now)
  {
    Partition(s.pool);
    if Ready(c, s, l, id, now) {
      var k := OpenIsPooled(s.pool, id);
      assert Reusable(c, s.pool.conns[k], now);
    }
    if k :| 0 <= k < |s.pool.conns| && s.pool.conns[k].id == id && Reusable(c, s.pool.conns[k], now) {
      NotLeased(c, s, k);
    }
  }

  /** On every run of an open pool: a number handed out is either of a socket dialled now, or of one that nobody
      holds, that was last given back at most `idleTimeout` ago and dialled at most `maxLifetime` ago, if that
      is positive; and whenever there is such a socket, one is reused and nothing is dialled. */
  lemma HandsOutReadySockets(c: Config, clock: int, es: seq<Event>, now: int, dialledAt: int, dialOk: bool)
    requires Legal(c, Start(clock), es) && !Run(c, Start(clock), es).pool.closed
    ensures var s, l := Run(c, Start(clock), es), LedgerAfter(c, Start(clock), BLANK, es);
            var r, after := GetOutcome(c, s.pool, now, dialOk), AfterGet(c, s.pool, now, dialledAt, dialOk);
            && (r.Got? ==> r.id == s.pool.dialled || Ready(c, s, l, r.id, now))
            && ((exists id :: Ready(c, s, l, id, now)) ==> r.Got? && Ready(c, s, l, r.id, now) && after.dialled == s.pool.dialled)
  {
    StartInv(c, clock);
    InvHolds(c, Start(clock), es);
    RunAgrees(c, Start(clock), BLANK, es);
    var s, l := Run(c, Start(clock), es), LedgerAfter(c, Start(clock), BLANK, es);
    GetIsReady(c, s, l, now, dialledAt, dialOk);
  }

  lemma GetIsReady(c: Config, s: System, l: Ledger, now: int, dialledAt: int, dialOk: bool)
    requires Inv(c, s) && Agrees(s, l) && !s.pool.closed
    ensures var r, after := GetOutcome(c, s.pool, now, dialOk), AfterGet(c, s.pool, now, dialledAt, dialOk);
            && (r.Got? ==> r.id == s.pool.dialled || Ready(c, s, l, r.id, now))
            && ((exists id :: Ready(c, s, l, id, now)) ==> r.Got? && Ready(c, s, l, r.id, now) && after.dialled == s.pool.dialled)
  {
    var i := FirstUsable(c, s.pool.conns, now);
    ReusableIsUsable(c, s.pool.conns, now);
    if i < |s.pool.conns| {
      GetReuses(c, s.pool, now, dialledAt, dialOk, i);
      ReadyIsReusable(c, s, l, now, s.pool.conns[i].id);
    } else {
      GetDials(c, s.pool, now, dialledAt, dialOk);
      forall id
        ensures !Ready(c, s, l, id, now)
      {
        ReadyIsReusable(c, s, l, now, id);
      }
    }
  }

  lemma CleanupClosesIff(c: Config, s: System, l: Ledger, id: nat, now: int)
    requires Inv(c, s) && Agrees(s, l) && !s.pool.closed && id < s.pool.dialled && id !in s.pool.closings
    ensures id in AfterCleanup(c, s.pool, now).closings <==>
              id !in s.leases && id in l.returned && now - l.returned[id] > c.idleTimeout
  {
    Partition(s.pool);
    var k := OpenIsPooled(s.pool, id);
    var kept, gone := CleanupKeepsIff(c, s.pool, now);
    var after := AfterCleanup(c, s.pool, now).closings;
    if k in gone {
      var j :| 0 <= j < |gone| && gone[j] == k;
      assert after[|s.pool.closings| + j] == id;
    }
    forall j | 0 <= j < |after| && after[j] == id
      ensures k in gone
    {
      assert j >= |s.pool.closings|;
      assert gone[j - |s.pool.closings|] == k;
    }
    if s.pool.conns[k].inUse {
      assert id in s.leases;
    } else {
      NotLeased(c, s, k);
    }
  }

  /** On every run of an open pool a cleanup closes an open socket if and only if nobody holds it and it was last
      given back more than `idleTimeout` ago. */
  lemma CleanupClosesIdleSockets(c: Config, clock: int, es: seq<Event>, id: nat, now: int)
    requires Legal(c, Start(clock), es) && !Run(c, Start(clock), es).pool.closed
    requires id < Run(c, Start(clock), es).pool.dialled && id !in Run(c, Start(clock), es).pool.closings
    ensures var s, l := Run(c, Start(clock), es), LedgerAfter(c, Start(clock), BLANK, es);
            id in AfterCleanup(c, s.pool, now).closings <==>
              id !in s.leases && id in l.returned && now - l.returned[id] > c.idleTimeout
  {
    StartInv(c, clock);
    InvHolds(c, Start(clock), es);
    RunAgrees(c, Start(clock), BLANK, es);
    CleanupClosesIff(c, Run(c, Start(clock), es), LedgerAfter(c, Start(clock), BLANK, es), id, now);
  }
}
