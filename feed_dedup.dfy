/**
 * URL de-duplication of `fetchAllFeeds` (scripts/fetchFeeds.js): the article
 * list is loaded into a JavaScript `Map` keyed by URL and its values are read
 * back. A key keeps the position of its first insertion and the value of its
 * last one.
 */
module Dedup {
  import opened Wrappers
  import opened Articles

  /** A JavaScript `Map`: keys in first-insertion order and the current value of each key. */
  datatype JsMap<K, V> = JsMap(keys: seq<K>, entries: map<K, V>)

  predicate Distinct<T(==)>(s: seq<T>) {
    forall i, j :: 0 <= i < j < |s| ==> s[i] != s[j]
  }

  predicate Valid<K, V>(m: JsMap<K, V>) {
    && Distinct(m.keys)
    && m.entries.Keys == set k | k in m.keys
  }

  /** `Map.prototype.set`: a new key goes to the end; an existing key keeps its place and gets the new value. */
  function Set<K, V>(m: JsMap<K, V>, k: K, v: V): (r: JsMap<K, V>)
    requires Valid(m)
    ensures Valid(r)
    ensures k in r.entries && r.entries[k] == v
    ensures r.entries.Keys == m.entries.Keys + {k}
    ensures forall k' :: k' in m.entries && k' != k ==> r.entries[k'] == m.entries[k']
    ensures r.keys == if k in m.entries then m.keys else m.keys + [k]
  {
    if k in m.entries then JsMap(m.keys, m.entries[k := v])
    else JsMap(m.keys + [k], m.entries[k := v])
  }

  /** `Map.prototype.values()`, in key order. */
  function Values<K, V>(m: JsMap<K, V>): (r: seq<V>)
    requires Valid(m)
    ensures |r| == |m.keys|
    ensures forall i :: 0 <= i < |r| ==> r[i] == m.entries[m.keys[i]]
  {
    seq(|m.keys|, i requires 0 <= i < |m.keys| => m.entries[m.keys[i]])
  }

  /** The URLs that occur in an article list. */
  function Urls(s: seq<Article>): set<string> {
    set i | 0 <= i < |s| :: s[i].url
  }

  lemma {:induction false} UrlsSnoc(s: seq<Article>, a: Article)
    ensures Urls(s + [a]) == Urls(s) + {a.url}
  {
    assert (s + [a])[|s|] == a;
    forall u | u in Urls(s) ensures u in Urls(s + [a]) {
      var i :| 0 <= i < |s| && s[i].url == u;
      assert (s + [a])[i] == s[i];
    }
  }

  /** Reference definition: the last article of `s` whose URL is `u`. */
  function LastWithUrl(s: seq<Article>, u: string): (r: Option<Article>)
    ensures r.Some? ==> r.value in s && r.value.url == u
  {
    if s == [] then None
    else if s[|s| - 1].url == u then Some(s[|s| - 1])
    else LastWithUrl(s[..|s| - 1], u)
  }

  /** `k` is the position of the first article of `s` whose URL is `u`. */
  predicate FirstAt(s: seq<Article>, u: string, k: nat) {
    && k < |s| && s[k].url == u
    && forall j :: 0 <= j < k ==> s[j].url != u
  }

  lemma {:induction false} FirstExists(s: seq<Article>, u: string)
    requires u in Urls(s)
    ensures exists k: nat :: FirstAt(s, u, k)
  {
    if s[0].url == u {
      assert FirstAt(s, u, 0);
    } else {
      var i :| 0 <= i < |s| && s[i].url == u;
      assert s[1..][i - 1] == s[i];
      FirstExists(s[1..], u);
      var k: nat :| FirstAt(s[1..], u, k);
      assert FirstAt(s, u, k + 1);
    }
  }

  /** Reference definition: the position of the first article of `s` whose URL is `u`. */
  ghost function FirstIndex(s: seq<Article>, u: string): (k: nat)
    requires u in Urls(s)
    ensures FirstAt(s, u, k)
  {
    FirstExists(s, u);
    var k: nat :| FirstAt(s, u, k);
    k
  }

  /** The `Map` built by `new Map(articles.map(a => [a.url, a]))`. */
  function ByUrl(s: seq<Article>): (m: JsMap<string, Article>)
    ensures Valid(m)
    ensures m.entries.Keys == Urls(s)
  {
    if s == [] then JsMap([], map[])
    else
      var p := s[..|s| - 1];
      UrlsSnoc(p, s[|s| - 1]);
      assert s == p + [s[|s| - 1]];
      Set(ByUrl(p), s[|s| - 1].url, s[|s| - 1])
  }

  /** The de-duplicated list: `Array.from(map.values())`. */
  function UniqueByUrl(s: seq<Article>): seq<Article> {
    Values(ByUrl(s))
  }

  lemma {:induction false} ByUrlLastValue(s: seq<Article>)
    ensures forall u :: u in ByUrl(s).entries ==> LastWithUrl(s, u) == Some(ByUrl(s).entries[u])
  {
    if s != [] {
      ByUrlLastValue(s[..|s| - 1]);
    }
  }

  lemma {:induction false} FirstIndexSnoc(p: seq<Article>, x: Article, u: string)
    requires u in Urls(p + [x])
    ensures u in Urls(p) ==> FirstIndex(p + [x], u) == FirstIndex(p, u)
    ensures u !in Urls(p) ==> FirstIndex(p + [x], u) == |p|
  {
    var s := p + [x];
    UrlsSnoc(p, x);
    var a := FirstIndex(s, u);
    if u in Urls(p) {
      var b := FirstIndex(p, u);
      assert s[b] == p[b];
    }
  }

  /** The URLs in `urls` appear in the order of their first occurrence in `s`. */
  ghost predicate InFirstOccurrenceOrder(s: seq<Article>, urls: seq<string>) {
    forall i, j :: 0 <= i < j < |urls| && urls[i] in Urls(s) && urls[j] in Urls(s) ==>
      FirstIndex(s, urls[i]) < FirstIndex(s, urls[j])
  }

  lemma {:induction false} ByUrlFirstOrder(s: seq<Article>)
    ensures InFirstOccurrenceOrder(s, ByUrl(s).keys)
  {
    ByUrlKeys(s);
    FirstUrlsOrder(s);
  }

  /** Reference definition: the URLs of `s` in order of first occurrence, each once. */
  function FirstUrls(s: seq<Article>): seq<string> {
    if s == [] then []
    else
      var p, x := s[..|s| - 1], s[|s| - 1];
      if x.url in Urls(p) then FirstUrls(p) else FirstUrls(p) + [x.url]
  }

  /** The keys of the `Map` are the URLs in order of first occurrence. */
  lemma {:induction false} ByUrlKeys(s: seq<Article>)
    ensures ByUrl(s).keys == FirstUrls(s)
  {
    if s != [] {
      ByUrlKeys(s[..|s| - 1]);
    }
  }

  lemma {:induction false} FirstUrlsInUrls(s: seq<Article>)
    ensures forall i :: 0 <= i < |FirstUrls(s)| ==> FirstUrls(s)[i] in Urls(s)
  {
    if s != [] {
      var p, x := s[..|s| - 1], s[|s| - 1];
      FirstUrlsInUrls(p);
      UrlsSnoc(p, x);
      assert s == p + [x];
    }
  }

  lemma {:induction false} FirstUrlsOrder(s: seq<Article>)
    ensures InFirstOccurrenceOrder(s, FirstUrls(s))
  {
    if s != [] {
      var p, x := s[..|s| - 1], s[|s| - 1];
      FirstUrlsOrder(p);
      FirstUrlsInUrls(p);
      FirstOrderSnoc(p, x, FirstUrls(p), FirstUrls(s));
      assert s == p + [x];
    }
  }

  /** Appending an article keeps the order of the URLs seen before, and a new URL comes after all of them. */
  lemma {:induction false} FirstOrderSnoc(p: seq<Article>, x: Article, before: seq<string>, after: seq<string>)
    requires InFirstOccurrenceOrder(p, before)
    requires forall i :: 0 <= i < |before| ==> before[i] in Urls(p)
    requires after == if x.url in Urls(p) then before else before + [x.url]
    ensures InFirstOccurrenceOrder(p + [x], after)
  {
    var s := p + [x];
    UrlsSnoc(p, x);
    forall i, j | 0 <= i < j < |after| && after[i] in Urls(s) && after[j] in Urls(s)
      ensures FirstIndex(s, after[i]) < FirstIndex(s, after[j])
    {
      assert after[i] == before[i];
      FirstIndexSnoc(p, x, after[i]);
      FirstIndexSnoc(p, x, after[j]);
      if j < |before| {
        assert after[j] == before[j];
      }
    }
  }



  lemma {:induction false} DistinctCard<T>(s: seq<T>)
    requires Distinct(s)
    ensures |set i | 0 <= i < |s| :: s[i]| == |s|
  {
    if s != [] {
      var p := s[..|s| - 1];
      DistinctCard(p);
      var sp := set i | 0 <= i < |p| :: p[i];
      var ss := set i | 0 <= i < |s| :: s[i];
      assert ss == sp + {s[|s| - 1]} by {
        forall x | x in ss ensures x in sp + {s[|s| - 1]} {
          var i :| 0 <= i < |s| && s[i] == x;
          if i < |p| { assert p[i] == x; }
        }
        forall x | x in sp ensures x in ss {
          var i :| 0 <= i < |p| && p[i] == x;
          assert s[i] == x;
        }
      }
      assert s[|s| - 1] !in sp;
    }
  }

  /** The URL of each article of `s`, in order. */
  function UrlList(s: seq<Article>): (r: seq<string>)
    ensures |r| == |s| && forall i :: 0 <= i < |s| ==> r[i] == s[i].url
  {
    seq(|s|, i requires 0 <= i < |s| => s[i].url)
  }

  /** Every entry of `m` is stored under its own URL. */
  predicate KeyedByUrl(m: JsMap<string, Article>) {
    forall u :: u in m.entries ==> m.entries[u].url == u
  }

  lemma {:induction false} ByUrlKeyed(s: seq<Article>)
    ensures KeyedByUrl(ByUrl(s))
    ensures forall u :: u in ByUrl(s).entries ==> LastWithUrl(s, u) == Some(ByUrl(s).entries[u])
  {
    ByUrlLastValue(s);
  }

  /** The values of a `Map` keyed by URL carry the keys, in order, and are its entries. */
  lemma {:induction false} KeyedValues(m: JsMap<string, Article>)
    requires Valid(m) && KeyedByUrl(m)
    ensures UrlList(Values(m)) == m.keys
    ensures forall a :: a in Values(m) ==> a.url in m.entries && m.entries[a.url] == a
    ensures Urls(Values(m)) == m.entries.Keys
  {
    var r := Values(m);
    forall i | 0 <= i < |r| ensures r[i].url == m.keys[i] {
      assert m.keys[i] in m.entries;
    }
    forall u | u in m.entries.Keys ensures u in Urls(r) {
      var i :| 0 <= i < |m.keys| && m.keys[i] == u;
      assert r[i].url == u;
    }
  }

  lemma {:induction false} UniqueKeys(s: seq<Article>)
    ensures UrlList(UniqueByUrl(s)) == ByUrl(s).keys
  {
    ByUrlKeyed(s);
    KeyedValues(ByUrl(s));
  }

  lemma {:induction false} UniqueKeepsLast(s: seq<Article>)
    ensures forall a :: a in UniqueByUrl(s) ==> LastWithUrl(s, a.url) == Some(a)
  {
    ByUrlKeyed(s);
    KeyedValues(ByUrl(s));
  }

  lemma {:induction false} UniqueUrls(s: seq<Article>)
    ensures Urls(UniqueByUrl(s)) == Urls(s)
  {
    ByUrlKeyed(s);
    KeyedValues(ByUrl(s));
  }

  lemma {:induction false} UniqueCount(s: seq<Article>)
    ensures |UniqueByUrl(s)| == |Urls(s)|
  {
    ValuesCount(ByUrl(s));
  }

  /** A valid `Map` has one value per key. */
  lemma {:induction false} ValuesCount<K, V>(m: JsMap<K, V>)
    requires Valid(m)
    ensures |Values(m)| == |m.entries.Keys|
  {
    DistinctCard(m.keys);
    assert (set i | 0 <= i < |m.keys| :: m.keys[i]) == m.entries.Keys by {
      forall k | k in m.entries.Keys ensures k in set i | 0 <= i < |m.keys| :: m.keys[i] {
        var i :| 0 <= i < |m.keys| && m.keys[i] == k;
      }
    }
  }

  /**
   * De-duplication keeps exactly one article per distinct URL of the input;
   * the one kept for URL `u` is the last input article with that URL; and the
   * output follows the order of each URL's first occurrence.
   */
  lemma {:induction false} DedupSpec(s: seq<Article>)
    ensures Distinct(UrlList(UniqueByUrl(s)))
    ensures Urls(UniqueByUrl(s)) == Urls(s)
    ensures |UniqueByUrl(s)| == |Urls(s)|
    ensures forall a :: a in UniqueByUrl(s) ==> LastWithUrl(s, a.url) == Some(a)
    ensures InFirstOccurrenceOrder(s, UrlList(UniqueByUrl(s)))
  {
    UniqueKeys(s);
    ByUrlFirstOrder(s);
    UniqueKeepsLast(s);
    UniqueUrls(s);
    UniqueCount(s);
  }

  /** Two articles sharing a URL collapse to the later one. */
  lemma {:induction false} LaterDuplicateWins(s: seq<Article>, i: nat, j: nat)
    requires i < j < |s| && s[i].url == s[j].url
    requires forall k :: j < k < |s| ==> s[k].url != s[j].url
    ensures s[j] in UniqueByUrl(s)
    ensures s[i] != s[j] ==> s[i] !in UniqueByUrl(s)
  {
    var r := UniqueByUrl(s);
    var u := s[j].url;
    LastIsAt(s, j);
    UniqueKeepsLast(s);
    UniqueUrls(s);
    assert u in Urls(s);
    assert u in Urls(r);
    var k :| 0 <= k < |r| && r[k].url == u;
    assert r[k] in r;
  }

  lemma {:induction false} LastIsAt(s: seq<Article>, j: nat)
    requires j < |s|
    requires forall k :: j < k < |s| ==> s[k].url != s[j].url
    ensures LastWithUrl(s, s[j].url) == Some(s[j])
    decreases |s|
  {
    if j < |s| - 1 {
      var p := s[..|s| - 1];
      assert p[j] == s[j];
      LastIsAt(p, j);
    }
  }
}
