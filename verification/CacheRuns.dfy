/** When the cache is a plain timed map from requests to responses. */
module CacheRuns {
  import opened Common
  import opened Caches

  /** What a response is cached for. */
  datatype Request = Request(chain: string, name: string, params: string)

  function KeyOf(hash: Digest, r: Request): string {
    MakeKey(hash, r.chain, r.name, r.params)
  }

  function Text(r: Request): string {
    r.chain + r.name + r.params
  }

  datatype Event = Get(request: Request, now: int) | Set(request: Request, response: string, now: int)

  /** The names of a server's chains and cacheable methods, and the texts that may stand for parameters. */
  datatype Vocabulary = Vocabulary(chains: set<string>, names: set<string>, params: iset<string>)

  ghost predicate Known(v: Vocabulary, r: Request) {
    r.chain in v.chains && r.name in v.names && r.params in v.params
  }

  ghost predicate Legal(v: Vocabulary, clock: int, es: seq<Event>)
    decreases |es|
  {
    es == [] ||
    (Known(v, es[0].request) && clock <= es[0].now && Legal(v, es[0].now, es[1..]))
  }

  /** The answers of the cache to the `Get`s of a run. */
  function Answers(hash: Digest, ttl: int, store: Store, es: seq<Event>): seq<Option<string>>
    decreases |es|
  {
    if es == [] then []
    else match es[0]
      case Get(r, now) =>
        [Lookup(store, KeyOf(hash, r), now)] + Answers(hash, ttl, AfterLookup(store, KeyOf(hash, r), now), es[1..])
      case Set(r, response, now) =>
        Answers(hash, ttl, store[KeyOf(hash, r) := Entry(response, now + ttl)], es[1..])
  }

  /** The last response stored for a request before `n`, with its time. */
  function LastSet(history: seq<Event>, r: Request): Option<(string, int)> {
    if history == [] then None
    else
      var e := history[|history| - 1];
      if e.Set? && e.request == r then Some((e.response, e.now)) else LastSet(history[..|history| - 1], r)
  }

  /** What a timed map answers: the last response stored for this very request, while it is at most `ttl` old. */
  function Remembered(ttl: int, history: seq<Event>, r: Request, now: int): Option<string> {
    var last := LastSet(history, r);
    if last.Some? && now <= last.value.1 + ttl then Some(last.value.0) else None
  }

  function TimedMapAnswers(ttl: int, history: seq<Event>, es: seq<Event>): seq<Option<string>>
    decreases |es|
  {
    if es == [] then []
    else
      (if es[0].Get? then [Remembered(ttl, history, es[0].request, es[0].now)] else [])
      + TimedMapAnswers(ttl, history + [es[0]], es[1..])
  }

  ghost predicate Agrees(hash: Digest, ttl: int, es: seq<Event>) {
    Answers(hash, ttl, map[], es) == TimedMapAnswers(ttl, [], es)
  }

  ghost predicate AlwaysAgrees(hash: Digest, ttl: int, v: Vocabulary, clock: int) {
    forall es | Legal(v, clock, es) :: Agrees(hash, ttl, es)
  }

  // ---------------------------------------------------------------- when keys tell requests apart

  predicate PrefixFree(s: set<string>) {
    forall a, b | a in s && b in s && a <= b :: a == b
  }

  ghost predicate Completes(params: iset<string>, excess: string) {
    exists p :: p in params && excess + p in params
  }

  /** Whenever a chain and a method name, written together, begin another such pair written together, what
      the longer one has in excess does not complete any parameters to other parameters. */
  ghost predicate Unambiguous(v: Vocabulary) {
    forall c, n, c', n' | c in v.chains && n in v.names && c' in v.chains && n' in v.names && c + n <= c' + n' ::
      (c == c' && n == n') || !Completes(v.params, (c' + n')[|c + n|..])
  }

  lemma PrefixesOfSame(a: string, b: string, s: string)
    requires a <= s && b <= s && |a| <= |b|
    ensures a <= b
  {
    assert a == s[..|a|] && b == s[..|b|];
  }

  /** Prefix-free chain names and prefix-free method names are enough for all parameters. */
  lemma PrefixFreeIsUnambiguous(v: Vocabulary)
    requires PrefixFree(v.chains) && PrefixFree(v.names)
    ensures Unambiguous(v)
  {
    forall c, n, c', n' | c in v.chains && n in v.names && c' in v.chains && n' in v.names && c + n <= c' + n'
      ensures c == c' && n == n'
    {
      SplitPrefix(c, n, c', n');
    }
  }

  lemma SplitPrefix(c: string, n: string, c': string, n': string)
    requires c + n <= c' + n'
    ensures c <= c' || c' <= c
    ensures c == c' ==> n <= n'
  {
    var whole := c' + n';
    assert c == (c + n)[..|c|] == whole[..|c|];
    if |c| <= |c'| {
      PrefixesOfSame(c, c', whole);
    } else {
      PrefixesOfSame(c', c, whole);
    }
    if c == c' {
      assert n == (c + n)[|c|..] && n' == whole[|c|..];
    }
  }

  /** The characters that a JSON text can begin with, white space included. */
  predicate OpensJson(c: char) {
    c in {'{', '[', '"', '-', 't', 'f', 'n', ' ', '\t', '\n', '\r'} || '0' <= c <= '9'
  }

  /** What both request handlers pass as parameters: nothing, or a JSON text. */
  ghost predicate JsonParams(v: Vocabulary) {
    forall p | p in v.params && p != "" :: OpensJson(p[0])
  }

  /** For such parameters it is enough that different pairs of names are written differently, and that what
      one has in excess of another does not begin like a JSON text. */
  lemma JsonParamsAreUnambiguous(v: Vocabulary)
    requires JsonParams(v)
    requires forall c, n, c', n' | c in v.chains && n in v.names && c' in v.chains && n' in v.names && c + n <= c' + n' ::
               (c == c' && n == n') || (|c + n| < |c' + n'| && !OpensJson((c' + n')[|c + n|]))
    ensures Unambiguous(v)
  {
    forall c, n, c', n' | c in v.chains && n in v.names && c' in v.chains && n' in v.names && c + n <= c' + n'
                          && !(c == c' && n == n')
      ensures !Completes(v.params, (c' + n')[|c + n|..])
    {
      var excess := (c' + n')[|c + n|..];
      assert excess[0] == (c' + n')[|c + n|];
      assert forall p :: (excess + p)[0] == excess[0];
    }
  }

  lemma ShorterNamesFirst(v: Vocabulary, r: Request, q: Request)
    requires Unambiguous(v) && Known(v, r) && Known(v, q) && Text(r) == Text(q)
    requires |r.chain + r.name| <= |q.chain + q.name|
    ensures r == q
  {
    var a, b := r.chain + r.name, q.chain + q.name;
    assert a <= Text(r) && b <= Text(r);
    PrefixesOfSame(a, b, Text(r));
    assert r.params == Text(r)[|a|..] && q.params == Text(q)[|b|..];
    assert r.params == b[|a|..] + q.params;
  }

  /** Two known requests with the same text are the same request. */
  lemma SameTextSameRequest(v: Vocabulary, r: Request, q: Request)
    requires Unambiguous(v) && Known(v, r) && Known(v, q)
    requires Text(r) == Text(q)
    ensures r == q
  {
    if |r.chain + r.name| <= |q.chain + q.name| {
      ShorterNamesFirst(v, r, q);
    } else {
      ShorterNamesFirst(v, q, r);
    }
  }

  lemma ExcessMovesOver(a: string, b: string, p: string)
    requires a <= b
    ensures a + (b[|a|..] + p) == b + p
  {
    assert b == a + b[|a|..];
  }

  /** Names that are not unambiguous let two different requests have the same text. */
  lemma AmbiguousNames(v: Vocabulary) returns (r: Request, q: Request)
    requires !Unambiguous(v)
    ensures Known(v, r) && Known(v, q) && r != q && Text(r) == Text(q)
  {
    var c, n, c', n' :| c in v.chains && n in v.names && c' in v.chains && n' in v.names && c + n <= c' + n'
                        && !(c == c' && n == n') && Completes(v.params, (c' + n')[|c + n|..]);
    var excess := (c' + n')[|c + n|..];
    var p :| p in v.params && excess + p in v.params;
    r, q := Request(c, n, excess + p), Request(c', n', p);
    ExcessMovesOver(c + n, c' + n', p);
  }

  // ---------------------------------------------------------------- agreement

  /** The store holds, for every known request, the last response stored for it; or nothing, if there is
      none or it had expired by `clock`. */
  ghost predicate Represents(
    hash: Digest, ttl: int, v: Vocabulary, store: Store, history: seq<Event>, clock: int)
  {
    forall r | Known(v, r) ::
      var last := LastSet(history, r);
      if KeyOf(hash, r) in store
      then last.Some? && store[KeyOf(hash, r)] == Entry(last.value.0, last.value.1 + ttl)
      else last.None? || last.value.1 + ttl < clock
  }

  lemma LastSetAppend(history: seq<Event>, e: Event, r: Request)
    ensures LastSet(history + [e], r) ==
            if e.Set? && e.request == r then Some((e.response, e.now)) else LastSet(history, r)
  {
    assert (history + [e])[..|history|] == history;
  }

  lemma KeysAreDistinct(hash: Digest, v: Vocabulary, r: Request, q: Request)
    requires Injective(hash) && Unambiguous(v) && Known(v, r) && Known(v, q)
    ensures KeyOf(hash, r) == KeyOf(hash, q) ==> r == q
  {
    if KeyOf(hash, r) == KeyOf(hash, q) {
      SameTextSameRequest(v, r, q);
    }
  }

  function AfterEvent(hash: Digest, ttl: int, store: Store, e: Event): Store {
    match e
    case Get(r, now) => AfterLookup(store, KeyOf(hash, r), now)
    case Set(r, response, now) => store[KeyOf(hash, r) := Entry(response, now + ttl)]
  }

  lemma RepresentsStep(
    hash: Digest, ttl: int, v: Vocabulary, store: Store, history: seq<Event>, clock: int, e: Event)
    requires Injective(hash) && Unambiguous(v)
    requires Represents(hash, ttl, v, store, history, clock) && Known(v, e.request) && clock <= e.now
    ensures Represents(hash, ttl, v, AfterEvent(hash, ttl, store, e), history + [e], e.now)
  {
    forall r | Known(v, r)
      ensures var last := LastSet(history + [e], r); var after := AfterEvent(hash, ttl, store, e);
              if KeyOf(hash, r) in after
              then last.Some? && after[KeyOf(hash, r)] == Entry(last.value.0, last.value.1 + ttl)
              else last.None? || last.value.1 + ttl < e.now
    {
      LastSetAppend(history, e, r);
      KeysAreDistinct(hash, v, r, e.request);
    }
  }

  lemma {:induction false} RepresentedRunsAgree(
    hash: Digest, ttl: int, v: Vocabulary, store: Store, history: seq<Event>, clock: int, es: seq<Event>)
    requires Injective(hash) && Unambiguous(v)
    requires Represents(hash, ttl, v, store, history, clock) && Legal(v, clock, es)
    ensures Answers(hash, ttl, store, es) == TimedMapAnswers(ttl, history, es)
    decreases |es|
  {
    if es != [] {
      var e := es[0];
      RepresentsStep(hash, ttl, v, store, history, clock, e);
      RepresentedRunsAgree(hash, ttl, v, AfterEvent(hash, ttl, store, e), history + [e], e.now, es[1..]);
    }
  }

  /** A response is stored for one request and returned for another. */
  lemma ConfusedRun(hash: Digest, ttl: int, v: Vocabulary, clock: int, r: Request, q: Request)
    requires ttl >= 0 && Known(v, r) && Known(v, q) && r != q && Text(r) == Text(q)
    ensures Legal(v, clock, [Set(r, "", clock), Get(q, clock)])
    ensures !Agrees(hash, ttl, [Set(r, "", clock), Get(q, clock)])
  {
    var set_, get := Set(r, "", clock), Get(q, clock);
    var es := [set_, get];
    assert es[1..] == [get] && [get][1..] == [];
    assert Legal(v, clock, [get]);
    assert r.chain + r.name + r.params == q.chain + q.name + q.params;
    var store := map[KeyOf(hash, r) := Entry("", clock + ttl)];
    assert Answers(hash, ttl, map[], es) == Answers(hash, ttl, store, [get]) == [Some("")] + [];
    LastSetAppend([], set_, q);
    assert [] + [set_] == [set_];
    assert TimedMapAnswers(ttl, [], es) == [] + TimedMapAnswers(ttl, [set_], [get]);
    assert TimedMapAnswers(ttl, [set_], [get]) == [None] + TimedMapAnswers(ttl, [set_] + [get], []);
    assert Answers(hash, ttl, map[], es)[0] != TimedMapAnswers(ttl, [], es)[0];
  }

  /** With an injective digest and a non-negative `ttl`, every run of the cache answers like the timed map
      exactly when the server's names are unambiguous. In particular the deletions made by `Get` are never
      noticed. */
  lemma CacheIsTimedMapIff(hash: Digest, ttl: int, v: Vocabulary, clock: int)
    requires Injective(hash) && ttl >= 0
    ensures AlwaysAgrees(hash, ttl, v, clock) <==> Unambiguous(v)
  {
    if Unambiguous(v) {
      forall es | Legal(v, clock, es)
        ensures Agrees(hash, ttl, es)
      {
        RepresentedRunsAgree(hash, ttl, v, map[], [], clock, es);
      }
    } else {
      var r, q := AmbiguousNames(v);
      ConfusedRun(hash, ttl, v, clock, r, q);
    }
  }

  /** For prefix-free chain names and prefix-free method names, whatever the sign of `ttl`, every run of the
      cache answers like the timed map. */
  lemma PrefixFreeCacheIsTimedMap(hash: Digest, ttl: int, v: Vocabulary, clock: int)
    requires Injective(hash) && PrefixFree(v.chains) && PrefixFree(v.names)
    ensures AlwaysAgrees(hash, ttl, v, clock)
  {
    PrefixFreeIsUnambiguous(v);
    forall es | Legal(v, clock, es)
      ensures Agrees(hash, ttl, es)
    {
      RepresentedRunsAgree(hash, ttl, v, map[], [], clock, es);
    }
  }

  /** The chain names and cacheable methods of the shipped configuration meet the condition. */
  lemma ShippedNamesArePrefixFree()
    ensures PrefixFree({"ethereum", "arbitrum", "optimism", "base", "polygon"})
    ensures PrefixFree({"eth_chainId", "net_version", "web3_clientVersion"})
  {
    var chains := {"ethereum", "arbitrum", "optimism", "base", "polygon"};
    var names := {"eth_chainId", "net_version", "web3_clientVersion"};
    forall a, b | a <= b && ((a in chains && b in chains) || (a in names && b in names))
      ensures a == b
    {
      assert a[0] == b[0];
    }
  }
}
