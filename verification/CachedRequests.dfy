/** The cached request path of `internal/proxy/handler.go`: look a cacheable request up, forward it on a miss,
    store a successful reply. Forwards overlap; what the backend replies is an input. */
module CachedRequests {
  import opened Common
  import opened Caches
  import opened CacheRuns

  datatype Settings = Settings(hash: Digest, ttl: int, enabled: bool, cacheable: set<string>)

  predicate Cached(c: Settings, r: Request) {
    c.enabled && r.name in c.cacheable
  }

  /** What the cache has for a request that arrives at `now`. */
  function Found(c: Settings, store: Store, r: Request, now: int): Option<string> {
    if Cached(c, r) then Lookup(store, KeyOf(c.hash, r), now) else None
  }

  function AfterArrival(c: Settings, store: Store, r: Request, now: int): Store {
    if Cached(c, r) then AfterLookup(store, KeyOf(c.hash, r), now) else store
  }

  function AfterReply(c: Settings, store: Store, r: Request, reply: Option<string>, now: int): Store {
    if reply.Some? && Cached(c, r) then store[KeyOf(c.hash, r) := Entry(reply.value, now + c.ttl)] else store
  }

  class Handler {
    const cache: InMemoryCache

    constructor (cache: InMemoryCache)
      ensures this.cache == cache
    {
      this.cache := cache;
    }

    ghost function SettingsOf(): Settings {
      Settings(cache.hash, cache.ttl, cache.enabled, cache.cacheableMethods)
    }

    /** Up to the forward: a hit ends the request. */
    method Arrive(r: Request, now: int) returns (hit: Option<string>)
      modifies cache
      ensures hit == Found(SettingsOf(), old(cache.data), r, now)
      ensures cache.data == AfterArrival(SettingsOf(), old(cache.data), r, now)
    {
      hit := None;
      if cache.IsCacheable(r.name) {
        hit := cache.Get(r.chain, r.name, r.params, now);
      }
    }

    /** From the end of the forward; nothing for a forward that failed. */
    method Complete(r: Request, reply: Option<string>, now: int)
      modifies cache
      ensures cache.data == AfterReply(SettingsOf(), old(cache.data), r, reply, now)
    {
      if reply.Some? && cache.IsCacheable(r.name) {
        cache.Set(r.chain, r.name, r.params, reply.value, now);
      }
    }
  }

  // ---------------------------------------------------------------- overlapping requests

  datatype Event = Arrive(request: Request, now: int) | Complete(i: nat, reply: Option<string>, now: int)

  /** A request that was answered from the cache, when `seen` backend replies had been stored. */
  datatype Hit = Hit(request: Request, value: string, time: int, seen: nat)

  /** The store, the backend replies stored so far in order, the requests being forwarded, and the hits. */
  datatype System = System(store: Store, replies: seq<CacheRuns.Event>, pending: seq<Request>, hits: seq<Hit>)

  const START := System(map[], [], [], [])

  /** Other chains are not served; a method that is not cacheable may have any name. */
  ghost predicate Enabled(c: Settings, v: Vocabulary, s: System, clock: int, e: Event) {
    && clock <= e.now
    && match e
       case Arrive(r, _) => r.chain in v.chains && r.params in v.params
       case Complete(i, _, _) => i < |s.pending|
  }

  function Step(c: Settings, s: System, e: Event): System
    requires e.Complete? ==> e.i < |s.pending|
  {
    match e
    case Arrive(r, now) =>
      var found := Found(c, s.store, r, now);
      s.(store := AfterArrival(c, s.store, r, now),
         pending := if found.Some? then s.pending else s.pending + [r],
         hits := if found.Some? then s.hits + [Hit(r, found.value, now, |s.replies|)] else s.hits)
    case Complete(i, reply, now) =>
      var r := s.pending[i];
      s.(store := AfterReply(c, s.store, r, reply, now),
         pending := s.pending[..i] + s.pending[i + 1..],
         replies := if reply.Some? && Cached(c, r) then s.replies + [Set(r, reply.value, now)] else s.replies)
  }

  ghost predicate Legal(c: Settings, v: Vocabulary, s: System, clock: int, es: seq<Event>)
    decreases |es|
  {
    es == [] || (Enabled(c, v, s, clock, es[0]) && Legal(c, v, Step(c, s, es[0]), es[0].now, es[1..]))
  }

  ghost function Run(c: Settings, v: Vocabulary, s: System, clock: int, es: seq<Event>): System
    requires Legal(c, v, s, clock, es)
    decreases |es|
  {
    if es == [] then s else Run(c, v, Step(c, s, es[0]), es[0].now, es[1..])
  }

  // ---------------------------------------------------------------- what is served from the cache

  /** The hit is the newest reply that the backend gave to this very request, at most `ttl` old; and its
      method is cacheable. */
  predicate Fresh(c: Settings, replies: seq<CacheRuns.Event>, h: Hit) {
    && Cached(c, h.request) && h.seen <= |replies|
    && Remembered(c.ttl, replies[..h.seen], h.request, h.time) == Some(h.value)
  }

  ghost predicate AllFresh(c: Settings, s: System) {
    forall k | 0 <= k < |s.hits| :: Fresh(c, s.replies, s.hits[k])
  }

  ghost predicate Inv(c: Settings, v: Vocabulary, s: System, clock: int) {
    && AllFresh(c, s)
    && (forall k | 0 <= k < |s.pending| :: s.pending[k].chain in v.chains && s.pending[k].params in v.params)
    && Represents(c.hash, c.ttl, v, s.store, s.replies, clock)
  }

  lemma FreshStays(c: Settings, replies: seq<CacheRuns.Event>, e: CacheRuns.Event, h: Hit)
    requires Fresh(c, replies, h)
    ensures Fresh(c, replies + [e], h)
  {
    assert (replies + [e])[..h.seen] == replies[..h.seen];
  }

  /** As time passes and keys are looked up, the store goes on representing the replies. */
  lemma RepresentsAfterLookup(c: Settings, v: Vocabulary, store: Store, replies: seq<CacheRuns.Event>, clock: int, r: Request, now: int)
    requires Injective(c.hash) && Unambiguous(v) && Represents(c.hash, c.ttl, v, store, replies, clock) && clock <= now
    ensures Represents(c.hash, c.ttl, v, store, replies, now)
    ensures Known(v, r) ==> Represents(c.hash, c.ttl, v, AfterLookup(store, KeyOf(c.hash, r), now), replies, now)
  {
    if Known(v, r) {
      forall q | Known(v, q)
        ensures KeyOf(c.hash, q) == KeyOf(c.hash, r) ==> q == r
      {
        KeysAreDistinct(c.hash, v, q, r);
      }
    }
  }

  lemma ArriveStep(c: Settings, v: Vocabulary, s: System, clock: int, r: Request, now: int)
    requires Injective(c.hash) && Unambiguous(v) && v.names == c.cacheable
    requires Inv(c, v, s, clock) && Enabled(c, v, s, clock, Arrive(r, now))
    ensures Inv(c, v, Step(c, s, Arrive(r, now)), now)
  {
    RepresentsAfterLookup(c, v, s.store, s.replies, clock, r, now);
    assert s.replies[..|s.replies|] == s.replies;
    if Found(c, s.store, r, now).Some? {
      assert Known(v, r);
      assert Fresh(c, s.replies, Hit(r, Found(c, s.store, r, now).value, now, |s.replies|));
    }
  }

  lemma CompleteStep(c: Settings, v: Vocabulary, s: System, clock: int, i: nat, reply: Option<string>, now: int)
    requires Injective(c.hash) && Unambiguous(v) && v.names == c.cacheable
    requires Inv(c, v, s, clock) && Enabled(c, v, s, clock, Complete(i, reply, now))
    ensures Inv(c, v, Step(c, s, Complete(i, reply, now)), now)
  {
    var r := s.pending[i];
    if reply.Some? && Cached(c, r) {
      var e := Set(r, reply.value, now);
      RepresentsStep(c.hash, c.ttl, v, s.store, s.replies, clock, e);
      forall k | 0 <= k < |s.hits|
        ensures Fresh(c, s.replies + [e], s.hits[k])
      {
        FreshStays(c, s.replies, e, s.hits[k]);
      }
    } else {
      RepresentsAfterLookup(c, v, s.store, s.replies, clock, r, now);
    }
  }

  lemma InvStep(c: Settings, v: Vocabulary, s: System, clock: int, e: Event)
    requires Injective(c.hash) && Unambiguous(v) && v.names == c.cacheable
    requires Inv(c, v, s, clock) && Enabled(c, v, s, clock, e)
    ensures Inv(c, v, Step(c, s, e), e.now)
  {
    match e
    case Arrive(r, now) => ArriveStep(c, v, s, clock, r, now);
    case Complete(i, reply, now) => CompleteStep(c, v, s, clock, i, reply, now);
  }

  lemma {:induction false} InvHolds(c: Settings, v: Vocabulary, s: System, clock: int, es: seq<Event>) returns (end: int)
    requires Injective(c.hash) && Unambiguous(v) && v.names == c.cacheable
    requires Inv(c, v, s, clock) && Legal(c, v, s, clock, es)
    ensures Inv(c, v, Run(c, v, s, clock, es), end) && end == if es == [] then clock else es[|es| - 1].now
    decreases |es|
  {
    if es == [] {
      end := clock;
    } else {
      InvStep(c, v, s, clock, es[0]);
      end := InvHolds(c, v, Step(c, s, es[0]), es[0].now, es[1..]);
    }
  }

  ghost predicate AlwaysFresh(c: Settings, v: Vocabulary, clock: int) {
    forall es | Legal(c, v, START, clock, es) :: AllFresh(c, Run(c, v, START, clock, es))
  }

  /** One request's reply is served to another. */
  lemma StaleRun(c: Settings, v: Vocabulary, clock: int, r: Request, q: Request) returns (es: seq<Event>)
    requires c.enabled && c.ttl >= 0 && v.names == c.cacheable
    requires Known(v, r) && Known(v, q) && r != q && Text(r) == Text(q)
    ensures Legal(c, v, START, clock, es) && !AllFresh(c, Run(c, v, START, clock, es))
  {
    var first, reply, second := Arrive(r, clock), Complete(0, Some(""), clock), Arrive(q, clock);
    es := [first, reply, second];
    assert es[1..] == [reply, second] && es[1..][1..] == [second] && [second][1..] == [];
    assert r.chain + r.name + r.params == q.chain + q.name + q.params;
    var set_ := Set(r, "", clock);
    var s1 := Step(c, START, first);
    var s2 := Step(c, s1, reply);
    var s3 := Step(c, s2, second);
    assert s1 == System(map[], [], [r], []);
    assert s2.replies == [set_] && s2.store == map[KeyOf(c.hash, r) := Entry("", clock + c.ttl)];
    assert s3.hits == [Hit(q, "", clock, 1)];
    LastSetAppend([], set_, q);
    assert [] + [set_] == [set_] == [set_][..1];
    assert !Fresh(c, s3.replies, s3.hits[0]);
    assert Legal(c, v, s3, clock, []) && Legal(c, v, s2, clock, [second]);
    assert Legal(c, v, s1, clock, es[1..]);
    assert Run(c, v, START, clock, es) == Run(c, v, s1, clock, es[1..]) == Run(c, v, s2, clock, [second]) == s3;
  }

  /** However requests overlap, everything served from the cache is the newest backend reply to the very same
      request, at most `ttl` old, and only for cacheable methods, exactly when the names are unambiguous. */
  lemma HitsAreFreshIff(c: Settings, v: Vocabulary, clock: int)
    requires Injective(c.hash) && c.enabled && c.ttl >= 0 && v.names == c.cacheable
    ensures AlwaysFresh(c, v, clock) <==> Unambiguous(v)
  {
    if Unambiguous(v) {
      forall es | Legal(c, v, START, clock, es)
        ensures AllFresh(c, Run(c, v, START, clock, es))
      {
        var end := InvHolds(c, v, START, clock, es);
      }
    } else {
      var r, q := AmbiguousNames(v);
      var es := StaleRun(c, v, clock, r, q);
    }
  }

  lemma FoundIsRemembered(c: Settings, v: Vocabulary, s: System, clock: int, r: Request, now: int)
    requires Injective(c.hash) && Unambiguous(v) && v.names == c.cacheable
    requires Inv(c, v, s, clock) && clock <= now && r.chain in v.chains && r.params in v.params
    ensures Found(c, s.store, r, now)
            == if c.enabled && r.name in c.cacheable then Remembered(c.ttl, s.replies, r, now) else None
  {
    if Cached(c, r) {
      assert Known(v, r);
    }
  }

  /** After every run, however requests overlapped, a request is answered from the cache if and only if its method
      is cacheable and the newest reply stored for it is at most `ttl` old; and then with that reply. */
  lemma AnsweredFromCacheIff(c: Settings, v: Vocabulary, clock: int, es: seq<Event>, r: Request, now: int)
    requires Injective(c.hash) && Unambiguous(v) && v.names == c.cacheable
    requires Legal(c, v, START, clock, es) && r.chain in v.chains && r.params in v.params
    requires clock <= now && (es != [] ==> es[|es| - 1].now <= now)
    ensures var s := Run(c, v, START, clock, es);
            Found(c, s.store, r, now)
            == if c.enabled && r.name in c.cacheable then Remembered(c.ttl, s.replies, r, now) else None
  {
    var end := InvHolds(c, v, START, clock, es);
    FoundIsRemembered(c, v, Run(c, v, START, clock, es), end, r, now);
  }
}
