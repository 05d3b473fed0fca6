/**
 * Article records and the per-feed item mapping of `parseFeed`
 * (scripts/fetchFeeds.js). The RSS library, the network and the clock are
 * outside the model: a feed's fetch outcome, `now` and the two parsers the
 * mapping needs are parameters.
 */
module Articles {
  import opened Wrappers
  import JsStrings
  import Cleaning
  import Tagging

  /** One entry of `RSS_FEEDS`. */
  datatype FeedConfig = FeedConfig(url: string, source: string, category: string)

  /** The fields of an RSS item that the mapping reads; `None` is an absent field. */
  datatype RawItem = RawItem(
    title: Option<string>,
    contentSnippet: Option<string>,
    description: Option<string>,
    link: Option<string>,
    pubDate: Option<string>,
    isoDate: Option<string>)

  /** An article record; `publishedAt` is an instant in milliseconds since the epoch. */
  datatype Article = Article(
    title: string,
    summary: string,
    url: string,
    publishedAt: int,
    source: string,
    sourceDomain: string,
    category: string,
    tags: seq<string>)

  /** What the mapping needs from the platform: `new Date(s)` and the host name of `new URL(s)`. */
  datatype Platform = Platform(parseDate: string -> Option<int>, hostOf: string -> Option<string>)

  /** A field that is absent or empty, so falsy in JavaScript. */
  predicate Blank(a: Option<string>) {
    a.None? || a.value == []
  }

  /** JavaScript `a || b` on an optional string: `a` unless it is absent or empty. */
  function Or(a: Option<string>, b: string): string {
    if !Blank(a) then a.value else b
  }

  /** JavaScript `a || b` on two optional strings. */
  function OrElse(a: Option<string>, b: Option<string>): Option<string> {
    if !Blank(a) then a else b
  }

  /** The item mapping inside `parseFeed`. */
  function ToArticle(item: RawItem, feed: FeedConfig, now: int, platform: Platform): Article {
    var text := Or(item.contentSnippet, Or(item.description, ""));
    Article(
      title := Or(item.title, "Untitled"),
      summary := Cleaning.CleanText(Some(text)),
      url := Or(item.link, ""),
      publishedAt := Cleaning.NormalizeDate(OrElse(item.pubDate, item.isoDate), now, platform.parseDate),
      source := feed.source,
      sourceDomain := Cleaning.ExtractDomain(Or(item.link, feed.url), platform.hostOf),
      category := feed.category,
      tags := Tagging.TagsOf(Or(item.title, ""), text))
  }

  /**
   * The fallbacks of the mapping: a missing or empty title becomes
   * `Untitled`, a missing link leaves the URL empty and takes the domain from
   * the feed's URL, a missing date becomes `now`, and missing text leaves the
   * summary and the tags empty.
   */
  lemma {:induction false} ToArticleFallbacks(item: RawItem, feed: FeedConfig, now: int, platform: Platform)
    ensures var a := ToArticle(item, feed, now, platform);
      && (Blank(item.title) ==> a.title == "Untitled")
      && (!Blank(item.title) ==> a.title == item.title.value)
      && (Blank(item.link) ==> a.url == [] && a.sourceDomain == Cleaning.ExtractDomain(feed.url, platform.hostOf))
      && (Blank(item.pubDate) && Blank(item.isoDate) ==> a.publishedAt == now)
      && (Blank(item.contentSnippet) && Blank(item.description) ==> a.summary == [])
      && (Blank(item.contentSnippet) && Blank(item.description) && Blank(item.title) ==> a.tags == [])
  {
    Tagging.EmptyTextHasNoTags();
  }

  /** The invariants every parsed article satisfies. */
  predicate WellFormed(a: Article, feed: FeedConfig) {
    && a.title != []
    && |a.summary| <= Cleaning.SummaryLimit
    && a.source == feed.source
    && a.category == feed.category
    && Tagging.InTableOrder(a.tags)
  }

  /**
   * `parseFeed`: a failed fetch or parse (`None`) contributes no article;
   * otherwise one article per item, in item order.
   */
  function ParseFeed(feed: FeedConfig, fetched: Option<seq<RawItem>>, now: int, platform: Platform): (r: seq<Article>)
    ensures fetched.None? ==> r == []
    ensures fetched.Some? ==> |r| == |fetched.value|
    ensures forall i :: 0 <= i < |r| ==> r[i] == ToArticle(fetched.value[i], feed, now, platform)
  {
    match fetched
    case None => []
    case Some(items) => seq(|items|, i requires 0 <= i < |items| => ToArticle(items[i], feed, now, platform))
  }

  /** Every parsed article has a title, a short summary, its feed's source and category and ordered tags. */
  lemma {:induction false} ParsedArticlesWellFormed(feed: FeedConfig, fetched: Option<seq<RawItem>>, now: int, platform: Platform)
    ensures forall a :: a in ParseFeed(feed, fetched, now, platform) ==> WellFormed(a, feed)
  {
    forall a | a in ParseFeed(feed, fetched, now, platform) ensures WellFormed(a, feed) {
      var item :| item in fetched.value && a == ToArticle(item, feed, now, platform);
      Tagging.TagsAreOrderedLabels(Or(item.title, ""), Or(item.contentSnippet, Or(item.description, "")));
    }
  }

  /** `results.flat()`: the feeds' article lists joined in feed order. */
  function Flatten(lists: seq<seq<Article>>): (r: seq<Article>)
    ensures |lists| == 0 ==> r == []
    ensures forall i :: 0 <= i < |lists| ==> |lists[i]| <= |r|
  {
    if lists == [] then [] else Flatten(lists[..|lists| - 1]) + lists[|lists| - 1]
  }

  /** Joining two runs of feeds is joining their joins. */
  lemma {:induction false} FlattenAppend(a: seq<seq<Article>>, b: seq<seq<Article>>)
    ensures Flatten(a + b) == Flatten(a) + Flatten(b)
    decreases |b|
  {
    if b == [] {
      assert a + b == a;
    } else {
      var c, x := b[..|b| - 1], b[|b| - 1];
      assert (a + b)[..|a + b| - 1] == a + c && (a + b)[|a + b| - 1] == x;
      FlattenAppend(a, c);
      JoinLast(Flatten(a + b), Flatten(a), Flatten(c), x, Flatten(b));
    }
  }

  /** Sequence algebra for `FlattenAppend`, on plain variables. */
  lemma {:induction false} JoinLast(whole: seq<Article>, first: seq<Article>, middle: seq<Article>, last: seq<Article>, second: seq<Article>)
    requires whole == (first + middle) + last && second == middle + last
    ensures whole == first + second
  {
  }

  /**
   * Feed order: the articles of feed `i` come after those of every earlier
   * feed and before those of every later one.
   */
  lemma {:induction false} FlattenFeedOrder(lists: seq<seq<Article>>, i: nat)
    requires i < |lists|
    ensures Flatten(lists) == Flatten(lists[..i]) + lists[i] + Flatten(lists[i + 1..])
  {
    var before, one, after := lists[..i], [lists[i]], lists[i + 1..];
    assert lists == before + (one + after);
    FlattenAppend(before, one + after);
    FlattenAppend(one, after);
    assert one[..0] == [] && Flatten(one) == lists[i];
    JoinAround(Flatten(lists), Flatten(before), Flatten(one + after), lists[i], Flatten(after));
  }

  lemma {:induction false} JoinAround(whole: seq<Article>, first: seq<Article>, rest: seq<Article>, middle: seq<Article>, last: seq<Article>)
    requires whole == first + rest && rest == middle + last
    ensures whole == first + middle + last
  {
  }

  lemma {:induction false} FlattenMembers(lists: seq<seq<Article>>)
    ensures forall a :: a in Flatten(lists) <==> exists i :: 0 <= i < |lists| && a in lists[i]
  {
    if lists != [] {
      FlattenMembers(lists[..|lists| - 1]);
    }
  }
}
