/**
 * The service worker of the app (public/sw.js): request classification in
 * the `fetch` handler, the network-first, cache-first and network-only
 * strategies, the `install` pre-cache and the `activate` clean-up. The
 * network is the oracle `network`: `None` is a `fetch` that rejects.
 */
module Worker {
  import opened Wrappers
  import opened CacheApi

  /**
   * `CACHE_NAME` and `NEWS_CACHE` (derived from the clock when the script
   * starts) and `location.origin`.
   */
  datatype Config = Config(cacheName: string, newsCache: string, origin: string)

  /** `STATIC_ASSETS`. */
  const StaticAssets: seq<string> := ["/", "/index.html", "/manifest.json", "/icons/icon-192.png", "/icons/icon-512.png"]

  /** The requests `cache.addAll` builds from the asset paths, resolved against the worker's origin. */
  function AssetRequests(origin: string): (r: seq<Request>)
    ensures |r| == |StaticAssets|
    ensures forall i :: 0 <= i < |r| ==> r[i] == Request(Url(origin, StaticAssets[i], ""), "GET", Cors)
  {
    seq(|StaticAssets|, i requires 0 <= i < |StaticAssets| => Request(Url(origin, StaticAssets[i], ""), "GET", Cors))
  }

  datatype Strategy = NetworkFirst | PassThrough | CacheFirst | PlainFetch

  /** The `fetch` handler's choice, decided in this order. */
  function Classify(req: Request, origin: string): (r: Strategy)
    ensures r == NetworkFirst ==> req.url.origin == origin
    ensures r == CacheFirst ==> req.url.origin == origin && req.mode != Navigate
    ensures r == PassThrough ==> req.url.pathname == "/news.json"
    ensures r == PlainFetch ==> req.url.origin != origin && req.url.pathname != "/news.json"
  {
    if req.url.origin == origin &&
       (req.mode == Navigate || req.url.pathname == "/" || req.url.pathname == "/index.html")
    then NetworkFirst
    else if req.url.pathname == "/news.json" then PassThrough
    else if req.url.origin == origin then CacheFirst
    else PlainFetch
  }

  /** Same-origin page loads (navigations, `/`, `/index.html`) go network-first, even a navigation to `/news.json`. */
  lemma {:induction false} PagesAreNetworkFirst(req: Request, origin: string)
    requires req.url.origin == origin
    requires req.mode == Navigate || req.url.pathname in {"/", "/index.html"}
    ensures Classify(req, origin) == NetworkFirst
  {
  }

  /** A `/news.json` request that is not a same-origin navigation is never served from a cache store. */
  lemma {:induction false} NewsIsNeverCacheFirst(req: Request, origin: string)
    requires req.url.pathname == "/news.json"
    ensures Classify(req, origin) == (if req.url.origin == origin && req.mode == Navigate then NetworkFirst else PassThrough)
  {
  }

  /** Cross-origin requests only ever go to the network. */
  lemma {:induction false} CrossOriginIsNetworkOnly(req: Request, origin: string)
    requires req.url.origin != origin
    ensures Classify(req, origin) in {PassThrough, PlainFetch}
  {
  }

  /** Cache-first applies exactly to same-origin non-navigation requests for other paths. */
  lemma {:induction false} CacheFirstScope(req: Request, origin: string)
    ensures Classify(req, origin) == CacheFirst <==>
      req.url.origin == origin && req.mode != Navigate &&
      req.url.pathname !in {"/", "/index.html", "/news.json"}
  {
  }

  /** What `respondWith` receives: a response, or a rejection / `undefined` (a network error for the page). */
  datatype Reply = Responded(response: Response) | Failed

  function FromOutcome(outcome: Option<Response>): (r: Reply)
    ensures r.Responded? <==> outcome.Some?
    ensures outcome.Some? ==> r.response == outcome.value
  {
    match outcome
    case Some(resp) => Responded(resp)
    case None => Failed
  }

  /** The effect of one handled request: the reply, the cache state after it, and whether `fetch` was called. */
  datatype Outcome = Outcome(reply: Reply, state: CacheState, fetched: bool)

  /** Opens `CACHE_NAME` and puts the response into it (the clone is the same response). */
  function Stored(cfg: Config, s: CacheState, req: Request, resp: Response): CacheState {
    WithEntry(Opened(s, cfg.cacheName), cfg.cacheName, req, resp)
  }

  /**
   * Network-first: the fetched response, handed to `cache.put` whatever its
   * status (put itself refuses a 206 or a non-GET); on failure, whatever
   * `caches.match` finds.
   */
  function NetworkFirstSpec(cfg: Config, s: CacheState, req: Request, network: Request -> Option<Response>): (r: Outcome)
    ensures r.fetched
    ensures WellFormed(s) ==> WellFormed(r.state)
    ensures network(req).None? ==> r.state == s
    ensures network(req).Some? ==> r.reply == Responded(network(req).value)
  {
    match network(req)
    case Some(resp) => Outcome(Responded(resp), Stored(cfg, s, req, resp), true)
    case None => Outcome(FromOutcome(Lookup(s, req)), s, true)
  }

  /** `cacheFirst` keeps a fetched response only when it has status 200 and is not an error response. */
  predicate CacheWorthy(resp: Response) {
    resp.status == 200 && resp.responseType != TypeError
  }

  /** Cache-first: a hit is returned without fetching; a miss is fetched and kept when it is worth caching. */
  function CacheFirstSpec(cfg: Config, s: CacheState, req: Request, network: Request -> Option<Response>): (r: Outcome)
    ensures r.fetched <==> Lookup(s, req).None?
    ensures WellFormed(s) ==> WellFormed(r.state)
    ensures r.state != s ==> network(req).Some? && CacheWorthy(network(req).value)
  {
    match Lookup(s, req)
    case Some(hit) => Outcome(Responded(hit), s, false)
    case None =>
      match network(req)
      case None => Outcome(Failed, s, true)
      case Some(resp) =>
        if CacheWorthy(resp) then Outcome(Responded(resp), Stored(cfg, s, req, resp), true)
        else Outcome(Responded(resp), s, true)
  }

  /** Pass-through and plain fetch: the network's answer, caches untouched. */
  function NetworkOnlySpec(s: CacheState, req: Request, network: Request -> Option<Response>): (r: Outcome)
    ensures r.state == s && r.fetched
    ensures r.reply.Responded? <==> network(req).Some?
  {
    Outcome(FromOutcome(network(req)), s, true)
  }

  /** The whole `fetch` handler. */
  function FetchSpec(cfg: Config, s: CacheState, req: Request, network: Request -> Option<Response>): (r: Outcome)
    ensures WellFormed(s) ==> WellFormed(r.state)
    ensures !r.fetched ==> Classify(req, cfg.origin) == CacheFirst && Lookup(s, req).Some?
    ensures network(req).None? && r.reply.Responded? ==> Lookup(s, req).Some?
  {
    match Classify(req, cfg.origin)
    case NetworkFirst => NetworkFirstSpec(cfg, s, req, network)
    case CacheFirst => CacheFirstSpec(cfg, s, req, network)
    case PassThrough => NetworkOnlySpec(s, req, network)
    case PlainFetch => NetworkOnlySpec(s, req, network)
  }

  /** Handling a request keeps the cache storage well formed. */
  lemma {:induction false} FetchKeepsWellFormed(cfg: Config, s: CacheState, req: Request, network: Request -> Option<Response>)
    requires WellFormed(s)
    ensures WellFormed(FetchSpec(cfg, s, req, network).state)
  {
  }

  /** `/news.json` and cross-origin requests go to the network and leave every cache store unchanged. */
  lemma {:induction false} NetworkOnlyLeavesCaches(cfg: Config, s: CacheState, req: Request, network: Request -> Option<Response>)
    requires Classify(req, cfg.origin) in {PassThrough, PlainFetch}
    ensures FetchSpec(cfg, s, req, network) == Outcome(FromOutcome(network(req)), s, true)
  {
  }

  /**
   * Network-first, on success: the reply is the fetched response and
   * `CACHE_NAME` maps the request's URL to it (unless `cache.put` rejects it);
   * other stores keep their contents.
   */
  lemma {:induction false} NetworkFirstOnSuccess(cfg: Config, s: CacheState, req: Request, resp: Response, network: Request -> Option<Response>)
    requires network(req) == Some(resp)
    ensures var o := NetworkFirstSpec(cfg, s, req, network);
      && o.reply == Responded(resp)
      && o.fetched
      && cfg.cacheName in o.state.stores
      && (Storable(req, resp) ==> o.state.stores[cfg.cacheName] == Opened(s, cfg.cacheName).stores[cfg.cacheName][req.url := resp])
      && (forall n :: n in s.stores && n != cfg.cacheName ==> n in o.state.stores && o.state.stores[n] == s.stores[n])
  {
  }

  /** Network-first, on failure: nothing is stored and the reply is what `caches.match` finds, if anything. */
  lemma {:induction false} NetworkFirstOnFailure(cfg: Config, s: CacheState, req: Request, network: Request -> Option<Response>)
    requires network(req).None?
    ensures NetworkFirstSpec(cfg, s, req, network).state == s
    ensures NetworkFirstSpec(cfg, s, req, network).reply == FromOutcome(Lookup(s, req))
  {
  }

  /**
   * Once a page was loaded network-first, loading it again while the network
   * is down is answered from the cache.
   */
  lemma {:induction false} OfflineAfterOnline(cfg: Config, s: CacheState, req: Request, online: Request -> Option<Response>, offline: Request -> Option<Response>)
    requires WellFormed(s)
    requires Classify(req, cfg.origin) == NetworkFirst
    requires online(req).Some? && Storable(req, online(req).value)
    requires offline(req).None?
    ensures FetchSpec(cfg, FetchSpec(cfg, s, req, online).state, req, offline).reply.Responded?
  {
    var resp := online(req).value;
    var t := Stored(cfg, s, req, resp);
    var k :| 0 <= k < |t.names| && t.names[k] == cfg.cacheName;
    assert HoldsAt(t.names, t.stores, req.url, k);
    LookupInFirst(t.names, t.stores, req.url);
  }

  /** Cache-first on a hit: the stored response, no fetch, no change. */
  lemma {:induction false} CacheFirstOnHit(cfg: Config, s: CacheState, req: Request, network: Request -> Option<Response>)
    requires Lookup(s, req).Some?
    ensures CacheFirstSpec(cfg, s, req, network) == Outcome(Responded(Lookup(s, req).value), s, false)
  {
  }

  /**
   * Cache-first on a miss: the request is fetched and its outcome returned;
   * the caches change only for a response with status 200 that is not an
   * error, and such a response to a GET is then stored under the URL.
   */
  lemma {:induction false} CacheFirstOnMiss(cfg: Config, s: CacheState, req: Request, network: Request -> Option<Response>)
    requires Lookup(s, req).None?
    ensures var o := CacheFirstSpec(cfg, s, req, network);
      && o.fetched
      && o.reply == FromOutcome(network(req))
      && (o.state != s ==> network(req).Some? && CacheWorthy(network(req).value))
      && (network(req).Some? && CacheWorthy(network(req).value) && req.verb == "GET" ==>
            req.url in o.state.stores[cfg.cacheName] && o.state.stores[cfg.cacheName][req.url] == network(req).value)
  {
  }

  /** The `fetch` handler, one strategy per branch. */
  method HandleFetch(cfg: Config, caches: CacheStorage, req: Request, network: Request -> Option<Response>)
    returns (reply: Reply, fetched: bool)
    requires caches.Valid()
    modifies caches
    ensures caches.Valid()
    ensures Outcome(reply, caches.State(), fetched) == FetchSpec(cfg, old(caches.State()), req, network)
  {
    match Classify(req, cfg.origin)
    case NetworkFirst =>
      reply := NetworkFirstFetch(cfg, caches, req, network);
      fetched := true;
    case PassThrough =>
      reply := FromOutcome(network(req));
      fetched := true;
    case CacheFirst =>
      reply, fetched := CacheFirstFetch(cfg, caches, req, network);
    case PlainFetch =>
      reply := FromOutcome(network(req));
      fetched := true;
  }

  /** Opens `CACHE_NAME` and puts the response into it. */
  method Store(cfg: Config, caches: CacheStorage, req: Request, resp: Response)
    requires caches.Valid()
    modifies caches
    ensures caches.Valid()
    ensures caches.State() == Stored(cfg, old(caches.State()), req, resp)
  {
    caches.Open(cfg.cacheName);
    caches.Put(cfg.cacheName, req, resp);
  }

  method NetworkFirstFetch(cfg: Config, caches: CacheStorage, req: Request, network: Request -> Option<Response>)
    returns (reply: Reply)
    requires caches.Valid()
    modifies caches
    ensures caches.Valid()
    ensures Outcome(reply, caches.State(), true) == NetworkFirstSpec(cfg, old(caches.State()), req, network)
  {
    var outcome := network(req);
    if outcome.Some? {
      Store(cfg, caches, req, outcome.value);
      reply := Responded(outcome.value);
    } else {
      reply := FromOutcome(caches.Match(req));
    }
  }

  method CacheFirstFetch(cfg: Config, caches: CacheStorage, req: Request, network: Request -> Option<Response>)
    returns (reply: Reply, fetched: bool)
    requires caches.Valid()
    modifies caches
    ensures caches.Valid()
    ensures Outcome(reply, caches.State(), fetched) == CacheFirstSpec(cfg, old(caches.State()), req, network)
  {
    var cached := caches.Match(req);
    if cached.Some? {
      return Responded(cached.value), false;
    }
    fetched := true;
    var outcome := network(req);
    if outcome.None? {
      return Failed, fetched;
    }
    var resp := outcome.value;
    if CacheWorthy(resp) {
      Store(cfg, caches, req, resp);
    }
    reply := Responded(resp);
  }

  /** `install`: opens `CACHE_NAME` and, if every asset fetch is acceptable, stores all of them. */
  function InstallSpec(cfg: Config, s: CacheState, network: Request -> Option<Response>): (r: CacheState)
    ensures WellFormed(s) ==> WellFormed(r)
    ensures cfg.cacheName in r.stores && r.names == Opened(s, cfg.cacheName).names
    ensures forall n :: n in s.stores && n != cfg.cacheName ==> n in r.stores && r.stores[n] == s.stores[n]
  {
    var openedState := Opened(s, cfg.cacheName);
    var reqs := AssetRequests(cfg.origin);
    if forall i :: 0 <= i < |reqs| ==> AddAllAccepts(network(reqs[i])) then
      WithEntries(openedState, cfg.cacheName, reqs, Fetched(reqs, network))
    else openedState
  }

  lemma {:induction false} AssetUrlsDistinct(origin: string)
    ensures forall i, j :: 0 <= i < j < |StaticAssets| ==> AssetRequests(origin)[i].url != AssetRequests(origin)[j].url
  {
    assert StaticAssets[1][1] == 'i' && StaticAssets[2][1] == 'm' && StaticAssets[3][1] == 'i';
    assert |StaticAssets[0]| == 1 && |StaticAssets[1]| == 11;
    assert StaticAssets[3][12] == '1' && StaticAssets[4][12] == '5';
  }

  /** After a successful install, `CACHE_NAME` holds the fetched response for each of the five static assets. */
  lemma {:induction false} InstallCachesAssets(cfg: Config, s: CacheState, network: Request -> Option<Response>)
    requires forall i :: 0 <= i < |StaticAssets| ==> AddAllAccepts(network(AssetRequests(cfg.origin)[i]))
    ensures var store := InstallSpec(cfg, s, network).stores[cfg.cacheName];
      forall p :: p in StaticAssets ==>
        var req := Request(Url(cfg.origin, p, ""), "GET", Cors);
        Url(cfg.origin, p, "") in store && Some(store[Url(cfg.origin, p, "")]) == network(req)
  {
    var reqs := AssetRequests(cfg.origin);
    var resps := Fetched(reqs, network);
    AssetUrlsDistinct(cfg.origin);
    WithEntriesHolds(Opened(s, cfg.cacheName), cfg.cacheName, reqs, resps);
    forall p | p in StaticAssets
      ensures Url(cfg.origin, p, "") in InstallSpec(cfg, s, network).stores[cfg.cacheName]
      ensures Some(InstallSpec(cfg, s, network).stores[cfg.cacheName][Url(cfg.origin, p, "")]) ==
        network(Request(Url(cfg.origin, p, ""), "GET", Cors))
    {
      var i :| 0 <= i < |StaticAssets| && StaticAssets[i] == p;
      assert reqs[i] == Request(Url(cfg.origin, p, ""), "GET", Cors);
    }
  }

  /** A failed install leaves no asset stored that was not stored before. */
  lemma {:induction false} InstallFailureStoresNothing(cfg: Config, s: CacheState, network: Request -> Option<Response>)
    requires exists i :: 0 <= i < |StaticAssets| && !AddAllAccepts(network(AssetRequests(cfg.origin)[i]))
    ensures InstallSpec(cfg, s, network) == Opened(s, cfg.cacheName)
  {
  }

  method Install(cfg: Config, caches: CacheStorage, network: Request -> Option<Response>) returns (ok: bool)
    requires caches.Valid()
    modifies caches
    ensures caches.Valid()
    ensures ok <==> forall i :: 0 <= i < |StaticAssets| ==> AddAllAccepts(network(AssetRequests(cfg.origin)[i]))
    ensures caches.State() == InstallSpec(cfg, old(caches.State()), network)
  {
    caches.Open(cfg.cacheName);
    AssetUrlsDistinct(cfg.origin);
    ok := caches.AddAll(cfg.cacheName, AssetRequests(cfg.origin), network);
  }

  /** The entries of `names` that are in `keep`, order kept. */
  function Retained(names: seq<string>, keep: set<string>): seq<string> {
    if names == [] then []
    else if names[|names| - 1] in keep then Retained(names[..|names| - 1], keep) + [names[|names| - 1]]
    else Retained(names[..|names| - 1], keep)
  }

  /** The names in `names` that are not kept. */
  function Stale(names: seq<string>, keep: set<string>): set<string> {
    set n | n in names && n !in keep
  }

  /** `activate`: every cache store other than the two current ones is deleted. */
  function ActivateSpec(cfg: Config, s: CacheState): (r: CacheState)
    ensures forall n :: n in r.stores ==> n in s.stores && r.stores[n] == s.stores[n]
    ensures forall n :: n in s.stores && n in {cfg.cacheName, cfg.newsCache} ==> n in r.stores
    ensures WellFormed(s) ==> forall n :: n in r.stores ==> n in {cfg.cacheName, cfg.newsCache}
  {
    var keep := {cfg.cacheName, cfg.newsCache};
    CacheState(Retained(s.names, keep), s.stores - Stale(s.names, keep))
  }

  lemma {:induction false} RetainedMembers(names: seq<string>, keep: set<string>)
    ensures forall n :: n in Retained(names, keep) <==> n in names && n in keep
  {
    if names != [] {
      var init := names[..|names| - 1];
      RetainedMembers(init, keep);
      assert names == init + [names[|names| - 1]];
    }
  }

  lemma {:induction false} RetainedSnoc(names: seq<string>, x: string, keep: set<string>)
    ensures Retained(names + [x], keep) == if x in keep then Retained(names, keep) + [x] else Retained(names, keep)
  {
    assert (names + [x])[..|names|] == names;
  }

  lemma {:induction false} RemoveBoth<K, V>(m: map<K, V>, a: set<K>, b: set<K>)
    ensures m - a - b == m - (a + b)
  {
  }

  lemma {:induction false} RetainedDistinct(names: seq<string>, keep: set<string>)
    requires DistinctNames(names)
    ensures DistinctNames(Retained(names, keep))
  {
    if names != [] {
      var init := names[..|names| - 1];
      assert DistinctNames(init);
      RetainedDistinct(init, keep);
      RetainedMembers(init, keep);
      assert names[|names| - 1] !in init;
    }
  }

  /**
   * After activation the store names are exactly the old ones that equal
   * `CACHE_NAME` or `NEWS_CACHE`, in their old order, with their contents.
   */
  lemma {:induction false} ActivateKeepsCurrent(cfg: Config, s: CacheState)
    requires WellFormed(s)
    ensures var t := ActivateSpec(cfg, s);
      && WellFormed(t)
      && (set n | n in t.names) == (set n | n in s.names) * {cfg.cacheName, cfg.newsCache}
      && (forall n :: n in t.stores ==> n in s.stores && t.stores[n] == s.stores[n])
      && t.names == Retained(s.names, {cfg.cacheName, cfg.newsCache})
  {
    RetainedDistinct(s.names, {cfg.cacheName, cfg.newsCache});
    RetainedMembers(s.names, {cfg.cacheName, cfg.newsCache});
  }

  /** The state once the first `i` names listed at the start of `activate` have been dealt with. */
  function ActivatedUpTo(s: CacheState, keep: set<string>, i: nat): CacheState
    requires i <= |s.names|
  {
    CacheState(Retained(s.names[..i], keep) + s.names[i..], s.stores - Stale(s.names[..i], keep))
  }

  method Activate(cfg: Config, caches: CacheStorage)
    requires caches.Valid()
    modifies caches
    ensures caches.Valid()
    ensures caches.State() == ActivateSpec(cfg, old(caches.State()))
  {
    var keep := {cfg.cacheName, cfg.newsCache};
    ghost var s0 := caches.State();
    var cacheNames := caches.names;
    assert s0.names[..0] == [] && s0.names[0..] == s0.names;
    for i := 0 to |cacheNames|
      invariant caches.Valid()
      invariant caches.State() == ActivatedUpTo(s0, keep, i)
    {
      DeleteIfStale(caches, keep, cacheNames, s0, i);
    }
    assert s0.names[..|s0.names|] == s0.names;
  }

  /** One step of `activate`: deletes the `i`-th of the names listed at the start unless it is kept. */
  method DeleteIfStale(caches: CacheStorage, keep: set<string>, cacheNames: seq<string>, ghost s0: CacheState, i: nat)
    requires WellFormed(s0) && cacheNames == s0.names && i < |cacheNames|
    requires caches.Valid() && caches.State() == ActivatedUpTo(s0, keep, i)
    modifies caches
    ensures caches.Valid() && caches.State() == ActivatedUpTo(s0, keep, i + 1)
  {
    var name := cacheNames[i];
    if name !in keep {
      StaleStepDropped(s0, keep, i);
      var _ := caches.Delete(name);
    } else {
      StaleStepKept(s0, keep, i);
    }
  }

  lemma {:induction false} StaleStepKept(s0: CacheState, keep: set<string>, i: nat)
    requires i < |s0.names| && s0.names[i] in keep
    ensures ActivatedUpTo(s0, keep, i + 1) == ActivatedUpTo(s0, keep, i)
  {
    var name, done, rest := s0.names[i], s0.names[..i], s0.names[i + 1..];
    assert s0.names[..i + 1] == done + [name];
    assert s0.names[i..] == [name] + rest;
    RetainedSnoc(done, name, keep);
    assert Stale(done + [name], keep) == Stale(done, keep);
  }

  lemma {:induction false} StaleStepDropped(s0: CacheState, keep: set<string>, i: nat)
    requires WellFormed(s0) && i < |s0.names| && s0.names[i] !in keep
    ensures ActivatedUpTo(s0, keep, i + 1) == Deleted(ActivatedUpTo(s0, keep, i), s0.names[i])
  {
    var name, done, rest := s0.names[i], s0.names[..i], s0.names[i + 1..];
    assert s0.names[..i + 1] == done + [name];
    assert s0.names[i..] == [name] + rest;
    RetainedSnoc(done, name, keep);
    assert name !in done && name !in rest by {
      forall k | 0 <= k < |s0.names| && k != i ensures s0.names[k] != name {
      }
    }
    RetainedMembers(done, keep);
    WithoutMiddle(Retained(done, keep), name, rest);
    assert Retained(done, keep) + s0.names[i..] == Retained(done, keep) + [name] + rest;
    assert Stale(done + [name], keep) == Stale(done, keep) + {name};
    RemoveBoth(s0.stores, Stale(done, keep), {name});
  }
}
