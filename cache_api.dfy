/**
 * The part of the browser Cache Storage API that public/sw.js relies on:
 * named cache stores, each a map from request URL to response, kept in the
 * order they were created (`caches.keys()` and `caches.match` follow that
 * order). The state is a value (`CacheState`) with pure operations, and a
 * class (`CacheStorage`) whose methods update it in place.
 */
module CacheApi {
  import opened Wrappers

  /** A parsed request URL; the fragment plays no part in cache matching. */
  datatype Url = Url(origin: string, pathname: string, search: string)

  datatype RequestMode = Navigate | SameOrigin | NoCors | Cors

  /** A request: its URL, its HTTP method (`verb`) and its mode. */
  datatype Request = Request(url: Url, verb: string, mode: RequestMode)

  /** `Response.type`. */
  datatype ResponseType = TypeBasic | TypeCors | TypeDefault | TypeError | TypeOpaque | TypeOpaqueRedirect

  datatype Response = Response(status: int, responseType: ResponseType)

  /** One cache store: request URL to stored response. */
  type Store = map<Url, Response>

  datatype CacheState = CacheState(names: seq<string>, stores: map<string, Store>)

  predicate DistinctNames(names: seq<string>) {
    forall i, j :: 0 <= i < j < |names| ==> names[i] != names[j]
  }

  /** Every store appears exactly once in the creation order. */
  predicate WellFormed(s: CacheState) {
    DistinctNames(s.names) && s.stores.Keys == set n | n in s.names
  }

  /** `caches.open(name)`: creates an empty store, last in order, when there is none. */
  function Opened(s: CacheState, name: string): (t: CacheState)
    ensures WellFormed(s) ==> WellFormed(t)
    ensures name in t.stores && t.stores[name] == (if name in s.stores then s.stores[name] else map[])
    ensures forall n :: n != name ==> (n in t.stores <==> n in s.stores)
    ensures forall n :: n != name && n in s.stores ==> t.stores[n] == s.stores[n]
    ensures t.names == if name in s.stores then s.names else s.names + [name]
  {
    if name in s.stores then s
    else CacheState(s.names + [name], s.stores[name := map[]])
  }

  /** `cache.put` rejects a request that is not a GET and a partial (206) response. */
  predicate Storable(req: Request, resp: Response) {
    req.verb == "GET" && resp.status != 206
  }

  /** `cache.put(req, resp)` on the store `name`: replaces any entry for the same URL. */
  function WithEntry(s: CacheState, name: string, req: Request, resp: Response): (t: CacheState)
    requires name in s.stores
    ensures WellFormed(s) ==> WellFormed(t)
    ensures t.names == s.names && t.stores.Keys == s.stores.Keys
    ensures Storable(req, resp) ==> t.stores[name] == s.stores[name][req.url := resp]
    ensures !Storable(req, resp) ==> t == s
    ensures forall n :: n in s.stores && n != name ==> t.stores[n] == s.stores[n]
  {
    if Storable(req, resp) then CacheState(s.names, s.stores[name := s.stores[name][req.url := resp]])
    else s
  }

  /** `names` without `name`, order kept. */
  function Without(names: seq<string>, name: string): (r: seq<string>)
    ensures forall n :: n in r <==> n in names && n != name
  {
    if names == [] then []
    else if names[|names| - 1] == name then Without(names[..|names| - 1], name)
    else Without(names[..|names| - 1], name) + [names[|names| - 1]]
  }

  lemma {:induction false} WithoutDistinct(names: seq<string>, name: string)
    ensures DistinctNames(names) ==> DistinctNames(Without(names, name))
  {
    if names != [] && DistinctNames(names) {
      var init := names[..|names| - 1];
      assert DistinctNames(init);
      WithoutDistinct(init, name);
      assert names[|names| - 1] !in init;
    }
  }

  /** Removing a name from a concatenation removes it from each part. */
  lemma {:induction false} WithoutConcat(a: seq<string>, b: seq<string>, x: string)
    ensures Without(a + b, x) == Without(a, x) + Without(b, x)
    decreases |b|
  {
    if b == [] {
      assert a + b == a;
    } else {
      var n := |b| - 1;
      assert (a + b)[..|a + b| - 1] == a + b[..n];
      WithoutConcat(a, b[..n], x);
    }
  }

  /** Removing a name that is not there changes nothing. */
  lemma {:induction false} WithoutAbsent(a: seq<string>, x: string)
    requires x !in a
    ensures Without(a, x) == a
  {
    if a != [] {
      WithoutAbsent(a[..|a| - 1], x);
      assert a[..|a| - 1] + [a[|a| - 1]] == a;
    }
  }

  /** Deleting a name that occurs once, between two parts that do not hold it. */
  lemma {:induction false} WithoutMiddle(a: seq<string>, x: string, b: seq<string>)
    requires x !in a && x !in b
    ensures Without(a + [x] + b, x) == a + b
  {
    WithoutConcat(a + [x], b, x);
    WithoutConcat(a, [x], x);
    WithoutAbsent(a, x);
    WithoutAbsent(b, x);
    assert Without([x], x) == [];
  }

  /** Deleting a name from distinct names cuts out its one position and keeps the others in order. */
  lemma {:induction false} DeletedOrder(names: seq<string>, name: string)
    ensures name !in names ==> Without(names, name) == names
    ensures DistinctNames(names) && name in names ==>
      exists k :: 0 <= k < |names| && names[k] == name && Without(names, name) == names[..k] + names[k + 1..]
  {
    if name !in names {
      WithoutAbsent(names, name);
    } else if DistinctNames(names) {
      var k :| 0 <= k < |names| && names[k] == name;
      assert names == names[..k] + [name] + names[k + 1..];
      assert name !in names[..k] && name !in names[k + 1..];
      WithoutMiddle(names[..k], name, names[k + 1..]);
    }
  }

  /** `caches.delete(name)`. */
  function Deleted(s: CacheState, name: string): (t: CacheState)
    ensures WellFormed(s) ==> WellFormed(t)
    ensures name !in t.stores
    ensures forall n :: n != name ==> (n in t.stores <==> n in s.stores)
    ensures forall n :: n in t.stores ==> t.stores[n] == s.stores[n]
    ensures WellFormed(s) && name !in s.stores ==> t.names == s.names
    ensures WellFormed(s) && name in s.stores ==>
      exists k :: 0 <= k < |s.names| && s.names[k] == name && t.names == s.names[..k] + s.names[k + 1..]
  {
    DeletedWellFormed(s, name);
    DeletedOrder(s.names, name);
    CacheState(Without(s.names, name), s.stores - {name})
  }

  lemma {:induction false} DeletedWellFormed(s: CacheState, name: string)
    ensures WellFormed(s) ==> WellFormed(CacheState(Without(s.names, name), s.stores - {name}))
  {
    if WellFormed(s) {
      var names, stores := Without(s.names, name), s.stores - {name};
      WithoutDistinct(s.names, name);
      assert stores.Keys == set n | n in names by {
        forall n ensures n in stores.Keys <==> n in names {
          assert n in s.stores.Keys <==> n in s.names;
        }
      }
    }
  }

  /** The first store in `names` that holds `url`, searching in order. */
  function LookupIn(names: seq<string>, stores: map<string, Store>, url: Url): Option<Response> {
    if names == [] then None
    else if names[0] in stores && url in stores[names[0]] then Some(stores[names[0]][url])
    else LookupIn(names[1..], stores, url)
  }

  /** `caches.match(req)`: nothing for a request that is not a GET. */
  function Lookup(s: CacheState, req: Request): Option<Response> {
    if req.verb != "GET" then None else LookupIn(s.names, s.stores, req.url)
  }

  /** The store at position `i` of `names` holds `url`. */
  predicate HoldsAt(names: seq<string>, stores: map<string, Store>, url: Url, i: int) {
    0 <= i < |names| && names[i] in stores && url in stores[names[i]]
  }

  /**
   * The search finds the entry of the earliest store holding the URL, and
   * finds nothing exactly when no store holds it.
   */
  lemma {:induction false} LookupInFirst(names: seq<string>, stores: map<string, Store>, url: Url)
    ensures LookupIn(names, stores, url).None? <==> forall i :: !HoldsAt(names, stores, url, i)
    ensures LookupIn(names, stores, url).Some? ==> exists i ::
      HoldsAt(names, stores, url, i) && LookupIn(names, stores, url).value == stores[names[i]][url] &&
      forall j :: 0 <= j < i ==> !HoldsAt(names, stores, url, j)
  {
    if names != [] {
      LookupInFirst(names[1..], stores, url);
      if HoldsAt(names, stores, url, 0) {
      } else {
        forall i | 1 <= i < |names| ensures HoldsAt(names, stores, url, i) == HoldsAt(names[1..], stores, url, i - 1) {
        }
        if LookupIn(names, stores, url).Some? {
          var k :| HoldsAt(names[1..], stores, url, k) && LookupIn(names[1..], stores, url).value == stores[names[1..][k]][url] &&
            forall j :: 0 <= j < k ==> !HoldsAt(names[1..], stores, url, j);
          assert HoldsAt(names, stores, url, k + 1);
        } else {
          forall i ensures !HoldsAt(names, stores, url, i) {
            if 1 <= i < |names| {
              assert !HoldsAt(names[1..], stores, url, i - 1);
            }
          }
        }
      }
    }
  }

  /**
   * The search result, stated by store name: a hit is the entry of the first
   * listed store that holds the URL; a miss means no listed store holds it.
   */
  lemma {:induction false} LookupInByName(names: seq<string>, stores: map<string, Store>, url: Url)
    ensures LookupIn(names, stores, url).None? ==> forall n :: n in names && n in stores ==> url !in stores[n]
    ensures LookupIn(names, stores, url).Some? ==>
      exists n :: n in names && n in stores && url in stores[n] && stores[n][url] == LookupIn(names, stores, url).value
    ensures LookupIn(names, stores, url).Some? ==>
      exists i ::
        && 0 <= i < |names| && names[i] in stores && url in stores[names[i]]
        && stores[names[i]][url] == LookupIn(names, stores, url).value
        && forall j :: 0 <= j < i && names[j] in stores ==> url !in stores[names[j]]
  {
    LookupInFirst(names, stores, url);
    if LookupIn(names, stores, url).Some? {
      var i :| HoldsAt(names, stores, url, i) && LookupIn(names, stores, url).value == stores[names[i]][url] &&
        forall j :: 0 <= j < i ==> !HoldsAt(names, stores, url, j);
      assert names[i] in names;
      forall j | 0 <= j < i && names[j] in stores ensures url !in stores[names[j]] {
        assert !HoldsAt(names, stores, url, j);
      }
    }
    forall n | n in names && n in stores && LookupIn(names, stores, url).None? ensures url !in stores[n] {
      var i :| 0 <= i < |names| && names[i] == n;
      assert !HoldsAt(names, stores, url, i);
    }
  }

  /** A GET stored in a store that comes first among those holding its URL is found again by `caches.match`. */
  lemma {:induction false} LookupAfterPut(s: CacheState, name: string, req: Request, resp: Response)
    requires WellFormed(s) && name in s.stores && Storable(req, resp)
    requires forall i :: 0 <= i < |s.names| && s.names[i] != name ==>
      !HoldsAt(s.names, s.stores, req.url, i) || exists j :: 0 <= j < |s.names| && s.names[j] == name && j < i
    ensures Lookup(WithEntry(s, name, req, resp), req) == Some(resp)
  {
    var t := WithEntry(s, name, req, resp);
    var k :| 0 <= k < |s.names| && s.names[k] == name;
    assert HoldsAt(t.names, t.stores, req.url, k);
    forall j | 0 <= j < k ensures !HoldsAt(t.names, t.stores, req.url, j) {
      assert s.names[j] != name;
      assert forall m :: 0 <= m < |s.names| && s.names[m] == name ==> m == k;
    }
    LookupInFirst(t.names, t.stores, req.url);
    var i :| HoldsAt(t.names, t.stores, req.url, i) && Lookup(t, req).value == t.stores[t.names[i]][req.url] &&
      forall j :: 0 <= j < i ==> !HoldsAt(t.names, t.stores, req.url, j);
    assert i == k;
  }

  /** `cache.addAll` accepts a fetch outcome: a response, not an error, with an ok status other than 206. */
  predicate AddAllAccepts(outcome: Option<Response>) {
    outcome.Some? && outcome.value.responseType != TypeError &&
    200 <= outcome.value.status <= 299 && outcome.value.status != 206
  }

  /**
   * The batches `cache.addAll` takes at all: it rejects one holding a request
   * whose method is not GET (a `TypeError`) or two requests for the same URL
   * (an `InvalidStateError`), and stores nothing.
   */
  predicate AddAllBatch(reqs: seq<Request>) {
    && (forall i :: 0 <= i < |reqs| ==> reqs[i].verb == "GET")
    && (forall i, j :: 0 <= i < j < |reqs| ==> reqs[i].url != reqs[j].url)
  }

  /** Puts `reqs[i] -> resps[i]` into the store `name`, in order. */
  function WithEntries(s: CacheState, name: string, reqs: seq<Request>, resps: seq<Response>): (t: CacheState)
    requires name in s.stores && |reqs| == |resps|
    ensures name in t.stores && t.names == s.names && t.stores.Keys == s.stores.Keys
    ensures WellFormed(s) ==> WellFormed(t)
    ensures forall n :: n in s.stores && n != name ==> t.stores[n] == s.stores[n]
  {
    if reqs == [] then s
    else WithEntry(WithEntries(s, name, reqs[..|reqs| - 1], resps[..|resps| - 1]), name, reqs[|reqs| - 1], resps[|resps| - 1])
  }

  /** After storing GET responses for distinct URLs, the store maps each URL to its response. */
  lemma {:induction false} WithEntriesHolds(s: CacheState, name: string, reqs: seq<Request>, resps: seq<Response>)
    requires name in s.stores && |reqs| == |resps|
    requires forall i :: 0 <= i < |reqs| ==> Storable(reqs[i], resps[i])
    requires forall i, j :: 0 <= i < j < |reqs| ==> reqs[i].url != reqs[j].url
    ensures forall i :: 0 <= i < |reqs| ==>
      reqs[i].url in WithEntries(s, name, reqs, resps).stores[name] &&
      WithEntries(s, name, reqs, resps).stores[name][reqs[i].url] == resps[i]
  {
    if reqs != [] {
      var n := |reqs| - 1;
      var init := WithEntries(s, name, reqs[..n], resps[..n]);
      WithEntriesHolds(s, name, reqs[..n], resps[..n]);
      forall i | 0 <= i < n
        ensures reqs[i].url in WithEntries(s, name, reqs, resps).stores[name]
        ensures WithEntries(s, name, reqs, resps).stores[name][reqs[i].url] == resps[i]
      {
        assert reqs[..n][i] == reqs[i] && resps[..n][i] == resps[i];
        assert reqs[i].url != reqs[n].url;
      }
    }
  }

  /** Storing entries leaves every other URL of the store as it was. */
  lemma {:induction false} WithEntriesKeeps(s: CacheState, name: string, reqs: seq<Request>, resps: seq<Response>, u: Url)
    requires name in s.stores && |reqs| == |resps|
    requires forall i :: 0 <= i < |reqs| ==> reqs[i].url != u
    ensures u in WithEntries(s, name, reqs, resps).stores[name] <==> u in s.stores[name]
    ensures u in s.stores[name] ==> WithEntries(s, name, reqs, resps).stores[name][u] == s.stores[name][u]
  {
    if reqs != [] {
      var n := |reqs| - 1;
      WithEntriesKeeps(s, name, reqs[..n], resps[..n], u);
    }
  }

  /** The responses `fetch` gives for `reqs`, a failed fetch standing as an error response. */
  function Fetched(reqs: seq<Request>, network: Request -> Option<Response>): (r: seq<Response>)
    ensures |r| == |reqs|
    ensures forall i :: 0 <= i < |reqs| && network(reqs[i]).Some? ==> r[i] == network(reqs[i]).value
  {
    seq(|reqs|, i requires 0 <= i < |reqs| => network(reqs[i]).GetOr(Response(0, TypeError)))
  }

  /** The browser's cache storage, updated in place. */
  class CacheStorage {
    var names: seq<string>
    var stores: map<string, Store>

    function State(): CacheState
      reads this
    {
      CacheState(names, stores)
    }

    ghost predicate Valid()
      reads this
    {
      WellFormed(State())
    }

    constructor ()
      ensures Valid() && names == [] && stores == map[]
    {
      names := [];
      stores := map[];
    }

    /** `caches.open(name)`. */
    method Open(name: string)
      requires Valid()
      modifies this
      ensures Valid() && name in stores
      ensures State() == Opened(old(State()), name)
    {
      if name !in stores {
        names := names + [name];
        stores := stores[name := map[]];
      }
    }

    /** `cache.put(req, resp)` on the open store `name`; a rejected put changes nothing. */
    method Put(name: string, req: Request, resp: Response)
      requires Valid() && name in stores
      modifies this
      ensures Valid()
      ensures State() == WithEntry(old(State()), name, req, resp)
    {
      if req.verb == "GET" && resp.status != 206 {
        stores := stores[name := stores[name][req.url := resp]];
      }
    }

    /** `caches.delete(name)`: reports whether there was such a store. */
    method Delete(name: string) returns (deleted: bool)
      requires Valid()
      modifies this
      ensures Valid()
      ensures deleted == (name in old(stores))
      ensures State() == Deleted(old(State()), name)
    {
      deleted := name in stores;
      WithoutDistinct(names, name);
      names := Without(names, name);
      stores := stores - {name};
    }

    /** `caches.match(req)`. */
    function Match(req: Request): (r: Option<Response>)
      reads this
      ensures r.Some? ==> req.verb == "GET" && exists n :: n in names && n in stores && req.url in stores[n] && stores[n][req.url] == r.value
      ensures r.None? && req.verb == "GET" ==> forall n :: n in names && n in stores ==> req.url !in stores[n]
      ensures r.Some? ==>
        exists i ::
          && 0 <= i < |names| && names[i] in stores && req.url in stores[names[i]]
          && stores[names[i]][req.url] == r.value
          && forall j :: 0 <= j < i && names[j] in stores ==> req.url !in stores[names[j]]
    {
      LookupInByName(names, stores, req.url);
      Lookup(State(), req)
    }

    /**
     * `cache.addAll(reqs)` on the open store `name`: fetches every request
     * and stores all responses only if the batch is one `addAll` takes and
     * every fetch is acceptable.
     */
    method AddAll(name: string, reqs: seq<Request>, network: Request -> Option<Response>) returns (ok: bool)
      requires Valid() && name in stores
      modifies this
      ensures Valid()
      ensures ok <==> AddAllBatch(reqs) && forall i :: 0 <= i < |reqs| ==> AddAllAccepts(network(reqs[i]))
      ensures !ok ==> State() == old(State())
      ensures ok ==> State() == WithEntries(old(State()), name, reqs, Fetched(reqs, network))
    {
      ok := true;
      var seen: set<Url> := {};
      for i := 0 to |reqs|
        invariant seen == set k | 0 <= k < i :: reqs[k].url
        invariant ok <==> AddAllBatch(reqs[..i]) && forall k :: 0 <= k < i ==> AddAllAccepts(network(reqs[k]))
      {
        if reqs[i].verb != "GET" || reqs[i].url in seen || !AddAllAccepts(network(reqs[i])) {
          ok := false;
        }
        seen := seen + {reqs[i].url};
      }
      assert reqs[..|reqs|] == reqs;
      if ok {
        PutEach(name, reqs, Fetched(reqs, network));
      }
    }

    /** The puts of a successful `addAll`, one after the other. */
    method PutEach(name: string, reqs: seq<Request>, resps: seq<Response>)
      requires Valid() && name in stores && |reqs| == |resps|
      modifies this
      ensures Valid()
      ensures State() == WithEntries(old(State()), name, reqs, resps)
    {
      for i := 0 to |reqs|
        invariant Valid() && name in stores
        invariant State() == WithEntries(old(State()), name, reqs[..i], resps[..i])
      {
        assert reqs[..i + 1][..i] == reqs[..i] && resps[..i + 1][..i] == resps[..i];
        Put(name, reqs[i], resps[i]);
      }
      assert reqs[..|reqs|] == reqs && resps[..|reqs|] == resps;
    }
  }
}
