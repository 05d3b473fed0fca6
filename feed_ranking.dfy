/**
 * Collection, ranking and output of the feed script (scripts/fetchFeeds.js):
 * `fetchAllFeeds`, `calculateImportance`, `saveToJson`, `createDemoData` and
 * `main`. Clock reads are the single parameter `now` (milliseconds); each
 * feed's fetch outcome is given, `None` standing for a fetch that threw.
 */
module Ranking {
  import opened Wrappers
  import opened Articles
  import opened StableSort
  import Dedup
  import Tagging

  const HourMs: int := 60 * 60 * 1000

  /** `importantTags` of `calculateImportance`. */
  const ImportantTags: seq<string> := ["HBM", "AI", "EUV", "TSMC", "Policy"]

  /** Length of `topArticles` (`slice(0, 10)`). */
  const TopCount: nat := 10

  /** `RSS_FEEDS`. */
  const RssFeeds: seq<FeedConfig> := [
    FeedConfig("https://www.semiconductordigest.com/feed/", "Semiconductor Digest", "Industry"),
    FeedConfig("https://www.electronicsweekly.com/feed/", "Electronics Weekly", "Technology"),
    FeedConfig("https://semiengineering.com/feed/", "Semiconductor Engineering", "Engineering")
  ]

  /** The sort key of `fetchAllFeeds`: newest first. */
  function Recency(a: Article): int {
    a.publishedAt
  }

  /** Recency bonus for an article `ageMs` milliseconds old: `hoursAgo <= 24` and `hoursAgo <= 48`. */
  function RecencyBonus(ageMs: int): nat {
    if ageMs <= 24 * HourMs then 10 else if ageMs <= 48 * HourMs then 5 else 0
  }

  /** How many entries of `tags` are important tags (duplicates count each time). */
  function ImportantCount(tags: seq<string>): nat {
    if tags == [] then 0
    else ImportantCount(tags[..|tags| - 1]) + (if tags[|tags| - 1] in ImportantTags then 1 else 0)
  }

  /** Reference definition of the importance score. */
  function Importance(a: Article, now: int): nat {
    RecencyBonus(now - a.publishedAt) + 5 * ImportantCount(a.tags) + 2 * |a.tags|
  }

  /** `calculateImportance`: accumulates the score over the tag list. */
  method CalculateImportance(a: Article, now: int) returns (score: int)
    ensures score == Importance(a, now)
    ensures score >= 2 * |a.tags|
  {
    score := 0;
    var ageMs := now - a.publishedAt;
    if ageMs <= 24 * HourMs {
      score := score + 10;
    } else if ageMs <= 48 * HourMs {
      score := score + 5;
    }
    for i := 0 to |a.tags|
      invariant score == RecencyBonus(ageMs) + 5 * ImportantCount(a.tags[..i])
    {
      assert a.tags[..i + 1][..i] == a.tags[..i];
      if a.tags[i] in ImportantTags {
        score := score + 5;
      }
    }
    assert a.tags[..|a.tags|] == a.tags;
    score := score + |a.tags| * 2;
  }

  /** For a fixed tag list the score does not increase as the article gets older. */
  lemma {:induction false} ImportanceNonIncreasingWithAge(a: Article, b: Article, now: int)
    requires a.tags == b.tags && a.publishedAt >= b.publishedAt
    ensures Importance(a, now) >= Importance(b, now)
  {
  }

  lemma {:induction false} ImportantCountBounds(tags: seq<string>)
    ensures ImportantCount(tags) <= |tags|
    ensures (forall t :: t in tags ==> t !in ImportantTags) ==> ImportantCount(tags) == 0
  {
    if tags != [] {
      ImportantCountBounds(tags[..|tags| - 1]);
    }
  }

  /** The score is at least 2 points per tag and at most 7 points per tag plus 10 for recency. */
  lemma {:induction false} ImportanceBounds(a: Article, now: int)
    ensures 2 * |a.tags| <= Importance(a, now) <= 10 + 7 * |a.tags|
  {
    ImportantCountBounds(a.tags);
  }

  /**
   * `TSMC` is an important tag but not a label of the keyword table, so no
   * extracted tag list contains it and it never adds to a score.
   */
  lemma {:induction false} TsmcNeverTagged(title: string, description: string)
    ensures "TSMC" !in Tagging.TagsOf(title, description)
  {
    Tagging.TagsAreOrderedLabels(title, description);
    assert "TSMC" !in Tagging.Labels();
  }

  /** An article with the score `saveToJson` attaches to it. */
  datatype Scored = Scored(article: Article, importanceScore: int)

  /** The sort key of `saveToJson`: highest score first. */
  function ScoreOf(s: Scored): int {
    s.importanceScore
  }

  /** `articles.map(article => ({...article, importanceScore}))`. */
  function ScoreAll(articles: seq<Article>, now: int): (r: seq<Scored>)
    ensures |r| == |articles|
    ensures forall i :: 0 <= i < |r| ==> r[i] == Scored(articles[i], Importance(articles[i], now))
  {
    seq(|articles|, i requires 0 <= i < |articles| => Scored(articles[i], Importance(articles[i], now)))
  }

  /** The scored articles `saveToJson` keeps: the first ten of the stable score sort. */
  function TopScored(articles: seq<Article>, now: int): seq<Scored> {
    var sorted := SortSpec(ScoreAll(articles, now), ScoreOf);
    if |sorted| <= TopCount then sorted else sorted[..TopCount]
  }

  /** `topArticles`: the kept entries with the score removed. */
  function TopArticles(articles: seq<Article>, now: int): (r: seq<Article>)
    ensures |r| == |TopScored(articles, now)|
    ensures forall i :: 0 <= i < |r| ==> r[i] == TopScored(articles, now)[i].article
  {
    var top := TopScored(articles, now);
    seq(|top|, i requires 0 <= i < |top| => top[i].article)
  }

  /** The JSON document written to public/news.json. */
  datatype Snapshot = Snapshot(
    generatedAt: int,
    totalArticles: nat,
    topArticles: seq<Article>,
    allArticles: seq<Article>)

  /** `saveToJson`: scores a copy of the list, sorts the copy in place and keeps its first ten. */
  method SaveToJson(articles: seq<Article>, now: int) returns (snapshot: Snapshot)
    ensures snapshot.generatedAt == now
    ensures snapshot.allArticles == articles && snapshot.totalArticles == |articles|
    ensures snapshot.topArticles == TopArticles(articles, now)
  {
    var scored := new Scored[|articles|];
    for i := 0 to |articles|
      invariant forall k :: 0 <= k < i ==> scored[k] == Scored(articles[k], Importance(articles[k], now))
    {
      var score := CalculateImportance(articles[i], now);
      scored[i] := Scored(articles[i], score);
    }
    assert scored[..] == ScoreAll(articles, now);
    SortDescending(scored, ScoreOf);
    var n := if scored.Length <= TopCount then scored.Length else TopCount;
    var top := seq(n, i requires 0 <= i < n reads scored => scored[i].article);
    snapshot := Snapshot(now, |articles|, top, articles);
  }

  lemma {:induction false} WithKeyPrefix<T>(s: seq<T>, k: nat, key: T -> int, v: int)
    requires k <= |s|
    ensures WithKey(s[..k], key, v) <= WithKey(s, key, v)
  {
    assert s == s[..k] + s[k..];
    WithKeyConcat(s[..k], s[k..], key, v);
  }

  lemma {:induction false} SortSpecLength<T>(s: seq<T>, key: T -> int)
    ensures |SortSpec(s, key)| == |s|
  {
    SortSpecPermutation(s, key);
    assert |multiset(SortSpec(s, key))| == |multiset(s)|;
  }

  /** `topArticles` holds `min(10, n)` articles. */
  lemma {:induction false} TopLength(articles: seq<Article>, now: int)
    ensures |TopArticles(articles, now)| == if |articles| < TopCount then |articles| else TopCount
  {
    SortSpecLength(ScoreAll(articles, now), ScoreOf);
  }

  /** Every kept entry is an input article with its score, each kept at most as often as it occurs. */
  lemma {:induction false} TopFromInput(articles: seq<Article>, now: int)
    ensures multiset(TopScored(articles, now)) <= multiset(ScoreAll(articles, now))
    ensures forall a :: a in TopArticles(articles, now) ==> a in articles
  {
    var all := ScoreAll(articles, now);
    var sorted := SortSpec(all, ScoreOf);
    var top := TopScored(articles, now);
    SortSpecPermutation(all, ScoreOf);
    assert sorted == top + sorted[|top|..];
    assert multiset(sorted) == multiset(top) + multiset(sorted[|top|..]);
    forall a | a in TopArticles(articles, now) ensures a in articles {
      var i :| 0 <= i < |top| && TopArticles(articles, now)[i] == a;
      assert top[i] in multiset(all);
      var j :| 0 <= j < |all| && all[j] == top[i];
    }
  }

  /** `topArticles` is ordered by non-increasing score. */
  lemma {:induction false} TopOrdered(articles: seq<Article>, now: int)
    ensures var top := TopArticles(articles, now);
      forall i, j :: 0 <= i < j < |top| ==> Importance(top[i], now) >= Importance(top[j], now)
  {
    var sorted := SortSpec(ScoreAll(articles, now), ScoreOf);
    var top := TopArticles(articles, now);
    forall i, j | 0 <= i < j < |top| ensures Importance(top[i], now) >= Importance(top[j], now) {
      assert ScoreOf(sorted[i]) >= ScoreOf(sorted[j]);
      SortSpecPermutation(ScoreAll(articles, now), ScoreOf);
      ScoredEntry(articles, now, sorted[i]);
      ScoredEntry(articles, now, sorted[j]);
    }
  }

  /** An entry of a permutation of the scored list carries its article's score. */
  lemma {:induction false} ScoredEntry(articles: seq<Article>, now: int, x: Scored)
    requires x in multiset(ScoreAll(articles, now))
    ensures x.importanceScore == Importance(x.article, now)
  {
    var all := ScoreAll(articles, now);
    var j :| 0 <= j < |all| && all[j] == x;
  }

  /** Among articles of equal score, the kept ones are the first of them in input order. */
  lemma {:induction false} TopKeepsTieOrder(articles: seq<Article>, now: int)
    ensures forall v :: WithKey(TopScored(articles, now), ScoreOf, v) <= WithKey(ScoreAll(articles, now), ScoreOf, v)
  {
    var all := ScoreAll(articles, now);
    var sorted := SortSpec(all, ScoreOf);
    var top := TopScored(articles, now);
    SortSpecStable(all, ScoreOf);
    assert top == sorted[..|top|];
    forall v ensures WithKey(top, ScoreOf, v) <= WithKey(all, ScoreOf, v) {
      WithKeyPrefix(sorted, |top|, ScoreOf, v);
    }
  }

  /** No article left out of `topArticles` scores higher than the last one kept. */
  lemma {:induction false} LeftOutScoreNoHigher(articles: seq<Article>, now: int)
    ensures var top := TopScored(articles, now);
      top != [] ==> forall x :: x in multiset(ScoreAll(articles, now)) - multiset(top) ==>
        x.importanceScore <= top[|top| - 1].importanceScore
  {
    var all := ScoreAll(articles, now);
    var sorted := SortSpec(all, ScoreOf);
    var top := TopScored(articles, now);
    var k := |top|;
    SortSpecPermutation(all, ScoreOf);
    assert sorted == top + sorted[k..];
    assert multiset(sorted) == multiset(top) + multiset(sorted[k..]);
    if top != [] {
      forall x: Scored | x in multiset(all) - multiset(top) ensures x.importanceScore <= top[k - 1].importanceScore {
        assert x in multiset(sorted[k..]);
        var j :| 0 <= j < |sorted[k..]| && sorted[k..][j] == x;
        assert sorted[k + j] == x;
        assert ScoreOf(sorted[k - 1]) >= ScoreOf(sorted[k + j]);
      }
    }
  }

  /** Hours before `now` at which the `index`-th demo article is dated. */
  function DemoAge(index: nat): (hours: nat)
    requires index < 5
    ensures 2 <= hours <= 18
  {
    [2, 5, 8, 12, 18][index]
  }

  /** Title, summary, source, domain, category and tags of the `index`-th demo article. */
  function DemoText(index: nat): (string, string, string, string, string, seq<string>)
    requires index < 5
  {
    if index == 0 then
      ("SK Hynix announces next-generation HBM3E memory for AI accelerators",
       "SK Hynix unveiled its latest HBM3E memory solution, delivering unprecedented bandwidth for AI and machine learning workloads...",
       "Tech News Daily", "technews.com", "Memory", ["HBM", "Memory", "AI"])
    else if index == 1 then
      ("TSMC accelerates 2nm node development with enhanced EUV technology",
       "Taiwan Semiconductor Manufacturing Company reported significant progress in 2nm process development, leveraging advanced EUV lithography...",
       "Semiconductor Times", "semitimes.com", "Foundry", ["Foundry", "EUV"])
    else if index == 2 then
      ("U.S. and Japan strengthen semiconductor supply chain partnership",
       "New bilateral agreement aims to secure critical semiconductor materials and reduce dependency on single-source suppliers...",
       "Global Policy Review", "globalpolicy.com", "Policy", ["Policy"])
    else if index == 3 then
      ("NVIDIA unveils breakthrough GPU architecture for generative AI",
       "The new Blackwell architecture promises 5x performance improvement in large language model training and inference...",
       "AI Hardware News", "aihardware.com", "AI", ["AI", "GPU"])
    else
      ("Samsung expands advanced packaging capabilities with new Texas facility",
       "Samsung Electronics breaks ground on a state-of-the-art packaging plant to support growing demand for chiplet-based designs...",
       "Industry Insider", "industryinsider.com", "Packaging", ["Packaging", "Foundry"])
  }

  /** The `index`-th fixed article of `createDemoData`, at `https://example.com/article1` to `article5`. */
  function DemoArticle(index: nat, now: int): (r: Article)
    requires index < 5
    ensures r.publishedAt == now - DemoAge(index) * HourMs
    ensures |r.url| == 28 && r.url[27] == ('1' as int + index) as char
  {
    var text := DemoText(index);
    Article(text.0, text.1, "https://example.com/article" + [('1' as int + index) as char],
      now - DemoAge(index) * HourMs, text.2, text.3, text.4, text.5)
  }

  /** The five articles of `createDemoData`, newest first. */
  function DemoArticles(now: int): (r: seq<Article>)
    ensures |r| == 5 && forall i :: 0 <= i < 5 ==> r[i] == DemoArticle(i, now)
  {
    seq(5, i requires 0 <= i < 5 => DemoArticle(i, now))
  }

  /**
   * The demo articles already come newest first, with distinct URLs, and
   * all of them are younger than a day.
   */
  lemma {:induction false} DemoArticlesNewestFirst(now: int)
    ensures SortedDesc(DemoArticles(now), Recency)
    ensures Dedup.Distinct(Dedup.UrlList(DemoArticles(now)))
    ensures forall i :: 0 <= i < 5 ==> 0 < now - DemoArticles(now)[i].publishedAt <= 18 * HourMs
  {
    var r := DemoArticles(now);
    assert HourMs == 3600000;
    forall i, j | 0 <= i < j < 5 ensures DemoAge(i) * HourMs < DemoAge(j) * HourMs {
    }
    forall i | 0 <= i < 5
      ensures 0 < DemoAge(i) * HourMs <= 18 * HourMs
      ensures r[i].publishedAt == now - DemoAge(i) * HourMs
      ensures |r[i].url| == 28 && r[i].url[27] == ('1' as int + i) as char
    {
      var h := DemoAge(i);
      assert 2 * HourMs <= h * HourMs <= 18 * HourMs;
      assert r[i] == DemoArticle(i, now);
    }
    forall i, j | 0 <= i < j < 5 ensures r[i].url != r[j].url {
      assert r[i].url[27] != r[j].url[27];
    }
  }

  /** `createDemoData`: saves the demo articles. */
  method CreateDemoData(now: int) returns (snapshot: Snapshot)
    ensures snapshot.generatedAt == now
    ensures snapshot.allArticles == DemoArticles(now) && snapshot.totalArticles == 5
    ensures snapshot.topArticles == TopArticles(DemoArticles(now), now)
  {
    snapshot := SaveToJson(DemoArticles(now), now);
  }

  /** All articles of all feeds, in feed order (`results.flat()`). */
  function Collected(feeds: seq<FeedConfig>, fetched: seq<Option<seq<RawItem>>>, now: int, platform: Platform): seq<Article>
    requires |fetched| == |feeds|
  {
    Flatten(seq(|feeds|, i requires 0 <= i < |feeds| => ParseFeed(feeds[i], fetched[i], now, platform)))
  }

  /**
   * `fetchAllFeeds`: parses every feed, removes duplicate URLs and sorts the
   * survivors in place, newest first.
   */
  method FetchAllFeeds(feeds: seq<FeedConfig>, fetched: seq<Option<seq<RawItem>>>, now: int, platform: Platform)
    returns (articles: seq<Article>)
    requires |fetched| == |feeds|
    ensures articles == SortSpec(Dedup.UniqueByUrl(Collected(feeds, fetched, now, platform)), Recency)
    ensures SortedDesc(articles, Recency)
    ensures multiset(articles) == multiset(Dedup.UniqueByUrl(Collected(feeds, fetched, now, platform)))
    ensures Dedup.Urls(articles) == Dedup.Urls(Collected(feeds, fetched, now, platform))
    ensures Dedup.Distinct(Dedup.UrlList(articles))
  {
    var all := Collected(feeds, fetched, now, platform);
    var unique := Dedup.UniqueByUrl(all);
    var buffer := new Article[|unique|](i requires 0 <= i < |unique| => unique[i]);
    assert buffer[..] == unique;
    SortDescending(buffer, Recency);
    articles := buffer[..];
    SortSpecPermutation(unique, Recency);
    Dedup.DedupSpec(all);
    PermutationKeepsUrls(unique, articles);
    PermutationKeepsDistinctUrls(unique, articles);
  }

  /** Reordering a list keeps its set of URLs. */
  lemma {:induction false} PermutationKeepsUrls(s: seq<Article>, t: seq<Article>)
    requires multiset(s) == multiset(t)
    ensures Dedup.Urls(t) == Dedup.Urls(s)
  {
    forall u | u in Dedup.Urls(t) ensures u in Dedup.Urls(s) {
      var i :| 0 <= i < |t| && t[i].url == u;
      assert t[i] in multiset(s);
      var p :| 0 <= p < |s| && s[p] == t[i];
    }
    forall u | u in Dedup.Urls(s) ensures u in Dedup.Urls(t) {
      var i :| 0 <= i < |s| && s[i].url == u;
      assert s[i] in multiset(t);
      var p :| 0 <= p < |t| && t[p] == s[i];
    }
  }

  /** Reordering a list whose URLs are distinct keeps them distinct. */
  lemma {:induction false} PermutationKeepsDistinctUrls(s: seq<Article>, t: seq<Article>)
    requires multiset(s) == multiset(t)
    requires Dedup.Distinct(Dedup.UrlList(s))
    ensures Dedup.Distinct(Dedup.UrlList(t))
  {
    forall i, j | 0 <= i < j < |t| ensures t[i].url != t[j].url {
      if t[i].url == t[j].url {
        assert t[i] in multiset(s) && t[j] in multiset(s);
        var p :| 0 <= p < |s| && s[p] == t[i];
        var q :| 0 <= q < |s| && s[q] == t[j];
        if p == q {
          OccursTwice(t, i, j);
          forall k | 0 <= k < |s| && k != p ensures s[k] != s[p] {
            assert Dedup.UrlList(s)[k] != Dedup.UrlList(s)[p];
          }
          OccursOnce(s, p);
          assert false;
        } else {
          assert false;
        }
      }
    }
  }

  lemma {:induction false} OccursTwice<T>(t: seq<T>, i: nat, j: nat)
    requires i < j < |t| && t[i] == t[j]
    ensures multiset(t)[t[i]] >= 2
  {
    assert t == t[..i] + [t[i]] + t[i + 1..j] + [t[j]] + t[j + 1..];
  }

  lemma {:induction false} OccursOnce<T>(s: seq<T>, p: nat)
    requires p < |s| && forall k :: 0 <= k < |s| && k != p ==> s[k] != s[p]
    ensures multiset(s)[s[p]] == 1
  {
    assert s == s[..p] + [s[p]] + s[p + 1..];
    assert s[p] !in s[..p];
    assert s[p] !in s[p + 1..];
  }

  /**
   * `main`: collects the configured feeds; when nothing was collected the
   * demo articles are saved instead, so the written document always lists
   * at least one article.
   */
  method Run(fetched: seq<Option<seq<RawItem>>>, now: int, platform: Platform) returns (snapshot: Snapshot)
    requires |fetched| == |RssFeeds|
    ensures snapshot.generatedAt == now
    ensures |snapshot.allArticles| > 0
    ensures Collected(RssFeeds, fetched, now, platform) == [] ==> snapshot.allArticles == DemoArticles(now)
    ensures Collected(RssFeeds, fetched, now, platform) != [] ==>
      snapshot.allArticles == SortSpec(Dedup.UniqueByUrl(Collected(RssFeeds, fetched, now, platform)), Recency)
    ensures snapshot.totalArticles == |snapshot.allArticles|
    ensures snapshot.topArticles == TopArticles(snapshot.allArticles, now)
  {
    var articles := FetchAllFeeds(RssFeeds, fetched, now, platform);
    NothingCollected(Collected(RssFeeds, fetched, now, platform));
    if |articles| == 0 {
      snapshot := CreateDemoData(now);
    } else {
      snapshot := SaveToJson(articles, now);
    }
  }

  /** Deduplication and sorting leave an empty list only when nothing was collected. */
  lemma {:induction false} NothingCollected(all: seq<Article>)
    ensures SortSpec(Dedup.UniqueByUrl(all), Recency) == [] <==> all == []
  {
    var unique := Dedup.UniqueByUrl(all);
    Dedup.DedupSpec(all);
    SortSpecPermutation(unique, Recency);
    if all != [] {
      assert all[0].url in Dedup.Urls(all);
      assert unique != [];
      assert multiset(SortSpec(unique, Recency)) != multiset{};
    } else {
      assert Dedup.Urls(all) == {};
    }
  }
}
