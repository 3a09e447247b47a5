/** The in-memory response cache of `internal/cache/cache.go`, whose keys digest the chain, the method and
    the parameters written one after the other without a separator. The digest is a parameter. */
module Caches {
  import opened Common

  type Digest = string -> string

  /** No two inputs share a digest: what is taken for granted of the truncated SHA-256. */
  ghost predicate Injective(hash: Digest) {
    forall a, b :: hash(a) == hash(b) ==> a == b
  }

  datatype Entry = Entry(value: string, expiresAt: int)

  type Store = map<string, Entry>

  function MakeKey(hash: Digest, chain: string, name: string, params: string): string {
    hash(chain + name + params)
  }

  predicate Live(store: Store, key: string, now: int) {
    key in store && now <= store[key].expiresAt
  }

  function Lookup(store: Store, key: string, now: int): Option<string> {
    if Live(store, key, now) then Some(store[key].value) else None
  }

  /** A miss deletes the key. */
  function AfterLookup(store: Store, key: string, now: int): Store {
    if Live(store, key, now) then store else store - {key}
  }

  class InMemoryCache {
    const ttl: int
    const enabled: bool
    const cacheableMethods: set<string>
    const hash: Digest
    var data: Store

    constructor (enabled: bool, ttl: int, cacheableMethods: set<string>, hash: Digest)
      ensures this.enabled == enabled && this.ttl == ttl && this.cacheableMethods == cacheableMethods
      ensures this.hash == hash && data == map[]
    {
      this.enabled := enabled;
      this.ttl := ttl;
      this.cacheableMethods := cacheableMethods;
      this.hash := hash;
      data := map[];
    }

    predicate IsCacheable(name: string) {
      if !enabled then false else name in cacheableMethods
    }

    method Get(chain: string, name: string, params: string, now: int) returns (r: Option<string>)
      modifies this
      ensures r == if enabled then Lookup(old(data), MakeKey(hash, chain, name, params), now) else None
      ensures data == if enabled then AfterLookup(old(data), MakeKey(hash, chain, name, params), now) else old(data)
      ensures enabled && r.None? ==> data == old(data) - {MakeKey(hash, chain, name, params)}
      ensures !enabled || r.Some? ==> data == old(data)
    {
      if !enabled {
        return None;
      }
      var key := MakeKey(hash, chain, name, params);
      if key !in data || now > data[key].expiresAt {
        data := data - {key};
        return None;
      }
      r := Some(data[key].value);
    }

    method Set(chain: string, name: string, params: string, response: string, now: int)
      modifies this
      ensures data == if enabled
                      then old(data)[MakeKey(hash, chain, name, params) := Entry(response, now + ttl)]
                      else old(data)
    {
      if !enabled {
        return;
      }
      var key := MakeKey(hash, chain, name, params);
      data := data[key := Entry(response, now + ttl)];
    }
  }
}
