/** The WebSocket connection pool of `internal/websocket/pool.go`.

    Sockets are numbered in the order in which they are dialled. Whether a dial succeeds is an input. */
module ConnectionPools {
  datatype Config = Config(maxConnections: nat, idleTimeout: int, maxLifetime: int)

  datatype Conn = Conn(id: nat, createdAt: int, lastUsedAt: int, inUse: bool)

  /** The pooled connections, the flag, the number of sockets ever dialled, and the sockets closed, in order. */
  datatype Pool = Pool(conns: seq<Conn>, closed: bool, dialled: nat, closings: seq<nat>)

  datatype GetResult = Got(id: nat) | PoolClosed | DialFailed | PoolExhausted

  const EMPTY := Pool([], false, 0, [])

  predicate IsHealthy(c: Config, conn: Conn, now: int) {
    !(now - conn.lastUsedAt > c.idleTimeout) && !(c.maxLifetime > 0 && now - conn.createdAt > c.maxLifetime)
  }

  predicate Usable(c: Config, conn: Conn, now: int) {
    !conn.inUse && IsHealthy(c, conn, now)
  }

  /** The first usable connection, or the number of connections if there is none. */
  function FirstUsable(c: Config, conns: seq<Conn>, now: int): (i: nat)
    ensures i <= |conns| && (i < |conns| ==> Usable(c, conns[i], now))
    ensures forall k | 0 <= k < i :: !Usable(c, conns[k], now)
  {
    if conns == [] || Usable(c, conns[0], now) then 0 else 1 + FirstUsable(c, conns[1..], now)
  }

  /** `dialledAt` is the clock after a dial and `dialOk` whether it succeeds. */
  function GetOutcome(c: Config, p: Pool, now: int, dialOk: bool): GetResult {
    var i := FirstUsable(c, p.conns, now);
    if p.closed then PoolClosed
    else if i < |p.conns| then Got(p.conns[i].id)
    else if |p.conns| >= c.maxConnections then PoolExhausted
    else if dialOk then Got(p.dialled)
    else DialFailed
  }

  function AfterGet(c: Config, p: Pool, now: int, dialledAt: int, dialOk: bool): Pool {
    var i := FirstUsable(c, p.conns, now);
    if p.closed then p
    else if i < |p.conns| then p.(conns := p.conns[i := p.conns[i].(inUse := true, lastUsedAt := now)])
    else if |p.conns| < c.maxConnections && dialOk
    then p.(conns := p.conns + [Conn(p.dialled, dialledAt, dialledAt, true)], dialled := p.dialled + 1)
    else p
  }

  /** The connection with this number is free again. */
  function Returned(conns: seq<Conn>, id: nat, now: int): (r: seq<Conn>)
    ensures |r| == |conns|
    ensures forall k | 0 <= k < |r| ::
              r[k] == if conns[k].id == id then conns[k].(inUse := false, lastUsedAt := now) else conns[k]
  {
    seq(|conns|, k requires 0 <= k < |conns| =>
      if conns[k].id == id then conns[k].(inUse := false, lastUsedAt := now) else conns[k])
  }

  /** A connection that is no longer pooled is changed too, but nobody sees it. */
  function AfterPut(p: Pool, id: nat, now: int): Pool {
    p.(conns := Returned(p.conns, id, now))
  }

  function Find(conns: seq<Conn>, id: nat): (i: nat)
    ensures i <= |conns| && (i < |conns| ==> conns[i].id == id)
    ensures forall k | 0 <= k < i :: conns[k].id != id
  {
    if conns == [] || conns[0].id == id then 0 else 1 + Find(conns[1..], id)
  }

  function AfterRemove(p: Pool, id: nat): Pool {
    var i := Find(p.conns, id);
    if i == |p.conns| then p
    else p.(conns := p.conns[..i] + p.conns[i + 1..], closings := p.closings + [id])
  }

  function Ids(conns: seq<Conn>): (ids: seq<nat>)
    ensures |ids| == |conns| && forall k | 0 <= k < |ids| :: ids[k] == conns[k].id
  {
    seq(|conns|, k requires 0 <= k < |conns| => conns[k].id)
  }

  function AfterClose(p: Pool): Pool {
    p.(conns := [], closed := true, closings := p.closings + Ids(p.conns))
  }

  predicate Expired(c: Config, conn: Conn, now: int) {
    !conn.inUse && now - conn.lastUsedAt > c.idleTimeout
  }

  function Kept(c: Config, conns: seq<Conn>, now: int): seq<Conn> {
    if conns == [] then []
    else
      var before, last := Kept(c, conns[..|conns| - 1], now), conns[|conns| - 1];
      if Expired(c, last, now) then before else before + [last]
  }

  function Evicted(c: Config, conns: seq<Conn>, now: int): seq<nat> {
    if conns == [] then []
    else
      var before, last := Evicted(c, conns[..|conns| - 1], now), conns[|conns| - 1];
      if Expired(c, last, now) then before + [last.id] else before
  }

  function AfterCleanup(c: Config, p: Pool, now: int): Pool {
    if p.closed then p
    else p.(conns := Kept(c, p.conns, now), closings := p.closings + Evicted(c, p.conns, now))
  }

  /** One more connection in the scan of a cleanup. */
  lemma ScanOne(c: Config, conns: seq<Conn>, i: nat, now: int)
    requires i < |conns|
    ensures Kept(c, conns[..i + 1], now) == Kept(c, conns[..i], now) + if Expired(c, conns[i], now) then [] else [conns[i]]
    ensures Evicted(c, conns[..i + 1], now) == Evicted(c, conns[..i], now) + if Expired(c, conns[i], now) then [conns[i].id] else []
  {
    assert conns[..i + 1][..i] == conns[..i];
  }

  function ActiveCount(conns: seq<Conn>): nat {
    if conns == [] then 0 else ActiveCount(conns[..|conns| - 1]) + (if conns[|conns| - 1].inUse then 1 else 0)
  }

  datatype Stats = Stats(total: nat, active: nat, idle: nat)

  class PooledConnection {
    const id: nat
    const createdAt: int
    var lastUsedAt: int
    var inUse: bool

    constructor (id: nat, now: int)
      ensures this.id == id && Value() == Conn(id, now, now, true)
    {
      this.id := id;
      createdAt, lastUsedAt, inUse := now, now, true;
    }

    function Value(): Conn
      reads this
    {
      Conn(id, createdAt, lastUsedAt, inUse)
    }
  }

  class ConnectionPool {
    const config: Config
    var connections: seq<PooledConnection>
    var closed: bool
    /** The next socket's number: the model's name for sockets. */
    var dialled: nat
    /** The log of socket closings, extended where the code closes a socket. */
    ghost var closings: seq<nat>
    /** All connections ever handed out, at their numbers. */
    ghost var issued: seq<PooledConnection>
    /** The pool as a value. */
    ghost var view: Pool

    ghost predicate Issued(conn: PooledConnection)
      reads this
    {
      conn.id < |issued| && issued[conn.id] == conn
    }

    ghost predicate Valid()
      reads this, connections
    {
      && |issued| == dialled == view.dialled && view.closed == closed && view.closings == closings
      && (forall i | 0 <= i < |issued| :: issued[i].id == i)
      && |view.conns| == |connections|
      && (forall k | 0 <= k < |connections| :: Issued(connections[k]) && view.conns[k] == connections[k].Value())
      && (forall j, k | 0 <= j < k < |connections| :: connections[j] != connections[k])
    }

    constructor (config: Config)
      ensures Valid() && this.config == config && view == EMPTY
    {
      this.config := config;
      connections, closed, dialled, issued, closings, view := [], false, 0, [], [], EMPTY;
    }

    predicate Healthy(conn: PooledConnection, now: int)
      reads this, conn
    {
      if now - conn.lastUsedAt > config.idleTimeout then false
      else if config.maxLifetime > 0 && now - conn.createdAt > config.maxLifetime then false
      else true
    }

    method Get(now: int, dialledAt: int, dialOk: bool) returns (r: GetResult, conn: PooledConnection?)
      requires Valid()
      modifies this, connections
      ensures Valid() && r == GetOutcome(config, old(view), now, dialOk)
      ensures view == AfterGet(config, old(view), now, dialledAt, dialOk)
      ensures (r.PoolClosed? <==> old(closed)) && (r.PoolClosed? ==> view == old(view))
      ensures r.Got? <==> conn != null
      ensures r.Got? ==> conn in connections && conn.id == r.id
    {
      conn := null;
      if closed {
        return PoolClosed, conn;
      }
      for i := 0 to |connections|
        invariant Valid() && view == old(view) && connections == old(connections) && !closed && conn == null
        invariant forall k | 0 <= k < i :: !Usable(config, view.conns[k], now)
      {
        if !connections[i].inUse && Healthy(connections[i], now) {
          conn := connections[i];
          Lease(i, now);
          return Got(conn.id), conn;
        }
      }
      if |connections| >= config.maxConnections {
        return PoolExhausted, conn;
      }
      if !dialOk {
        return DialFailed, conn;
      }
      conn := Grow(dialledAt);
      r := Got(conn.id);
    }

    method Lease(i: nat, now: int)
      requires Valid() && i < |connections|
      modifies this`view, connections[i]
      ensures Valid() && view == old(view).(conns := old(view).conns[i := old(view).conns[i].(inUse := true, lastUsedAt := now)])
    {
      connections[i].inUse := true;
      connections[i].lastUsedAt := now;
      view := view.(conns := view.conns[i := view.conns[i].(inUse := true, lastUsedAt := now)]);
    }

    /** Add a freshly dialled connection. */
    method Grow(now: int) returns (conn: PooledConnection)
      requires Valid()
      modifies this`connections, this`dialled, this`issued, this`view
      ensures Valid() && conn in connections && conn.id == old(dialled)
      ensures view == old(view).(conns := old(view).conns + [Conn(old(dialled), now, now, true)], dialled := old(dialled) + 1)
    {
      conn := new PooledConnection(dialled, now);
      issued := issued + [conn];
      dialled := dialled + 1;
      connections := connections + [conn];
      assert connections[|connections| - 1] == conn;
      view := view.(conns := view.conns + [conn.Value()], dialled := dialled);
    }

    method Put(conn: PooledConnection, now: int)
      requires Valid() && Issued(conn)
      modifies this`view, conn
      ensures Valid() && view == AfterPut(old(view), conn.id, now)
    {
      conn.inUse := false;
      conn.lastUsedAt := now;
      view := AfterPut(view, conn.id, now);
    }

    method Remove(conn: PooledConnection)
      requires Valid() && Issued(conn)
      modifies this`connections, this`closings, this`view
      ensures Valid() && view == AfterRemove(old(view), conn.id)
    {
      for i := 0 to |connections|
        invariant connections == old(connections) && closings == old(closings) && view == old(view)
        invariant forall k | 0 <= k < i :: view.conns[k].id != conn.id
      {
        if connections[i] == conn {
          Drop(i);
          return;
        }
      }
    }

    /** Close the `i`-th connection's socket and splice it out. */
    method Drop(i: nat)
      requires Valid() && i < |connections|
      modifies this`connections, this`closings, this`view
      ensures Valid()
      ensures view == old(view).(conns := old(view).conns[..i] + old(view).conns[i + 1..],
                                 closings := old(view).closings + [old(view).conns[i].id])
    {
      closings := closings + [connections[i].id];
      connections := connections[..i] + connections[i + 1..];
      view := view.(conns := view.conns[..i] + view.conns[i + 1..], closings := closings);
    }

    /** Closing a second time would panic on the closed channel. */
    method Close()
      requires Valid() && !closed
      modifies this`connections, this`closings, this`closed, this`view
      ensures Valid() && view == AfterClose(old(view))
    {
      closed := true;
      ghost var ids := Ids(view.conns);
      for i := 0 to |connections|
        invariant connections == old(connections) && closed && view == old(view)
        invariant closings == old(closings) + ids[..i]
      {
        closings := closings + [connections[i].id];
      }
      assert ids[..|connections|] == ids;
      connections := [];
      view := view.(conns := [], closed := true, closings := closings);
    }

    /** The connections that survive a cleanup; the sockets of the others are closed. */
    method Survivors(now: int) returns (alive: seq<PooledConnection>, ghost kept: seq<Conn>)
      requires Valid()
      modifies this`closings
      ensures kept == Kept(config, view.conns, now) && closings == old(closings) + Evicted(config, view.conns, now)
      ensures |alive| == |kept| && forall k | 0 <= k < |alive| :: Issued(alive[k]) && kept[k] == alive[k].Value()
      ensures forall j, k | 0 <= j < k < |alive| :: alive[j] != alive[k]
    {
      alive, kept := [], [];
      ghost var origin: seq<nat>, conns := [], view.conns;
      for i := 0 to |connections|
        invariant kept == Kept(config, conns[..i], now)
        invariant closings == old(closings) + Evicted(config, conns[..i], now)
        invariant |origin| == |alive| == |kept|
        invariant forall k | 0 <= k < |alive| :: origin[k] < i && alive[k] == connections[origin[k]] && kept[k] == conns[origin[k]]
        invariant forall j, k | 0 <= j < k < |alive| :: origin[j] < origin[k]
      {
        var conn := connections[i];
        ScanOne(config, conns, i, now);
        if conn.inUse {
          alive := alive + [conn];
          kept, origin := kept + [conns[i]], origin + [i];
        } else if now - conn.lastUsedAt > config.idleTimeout {
          closings := closings + [conn.id];
        } else {
          alive := alive + [conn];
          kept, origin := kept + [conns[i]], origin + [i];
        }
      }
      assert conns[..|connections|] == conns;
    }

    method Cleanup(now: int)
      requires Valid()
      modifies this`connections, this`closings, this`view
      ensures Valid() && view == AfterCleanup(config, old(view), now)
    {
      if closed {
        return;
      }
      ghost var kept;
      connections, kept := Survivors(now);
      view := view.(conns := kept, closings := closings);
    }

    method GetStats() returns (stats: Stats)
      requires Valid()
      ensures stats.total == stats.active + stats.idle == |view.conns| && stats.active == ActiveCount(view.conns)
    {
      var active, idle := 0, 0;
      for i := 0 to |connections|
        invariant active == ActiveCount(view.conns[..i]) && active + idle == i
      {
        assert view.conns[..i + 1][..i] == view.conns[..i];
        if connections[i].inUse {
          active := active + 1;
        } else {
          idle := idle + 1;
        }
      }
      assert view.conns[..|connections|] == view.conns;
      stats := Stats(|connections|, active, idle);
    }
  }
}
