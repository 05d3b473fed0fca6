# Semiconductor news feed and its offline service worker, in Dafny

This project models the two core pieces of a small progressive web app that
publishes semiconductor-industry news. It proves properties of both.

**The collector script** (`scripts/fetchFeeds.js`) reads a fixed list of RSS
feeds and maps each item to an article record. Each record gets:
- a cleaned summary: tags stripped, entities decoded, whitespace collapsed, cut to 300 characters;
- a source domain: the host name with its first `www.` removed;
- a publication instant, falling back to "now";
- keyword tags from a fixed ten-row table.

The script then drops duplicate URLs (the last article per URL wins, at its
URL's first position) and sorts the rest newest first. It writes one JSON
document holding:
- every article, as given;
- the article count;
- the ten highest-scoring articles.

The score is a recency bonus plus points per tag. When nothing was collected,
five fixed demo articles are saved instead.

**The service worker** (`public/sw.js`) sorts every request into one of four
strategies:
- network-first for same-origin page loads;
- pass-through for `/news.json`;
- cache-first for other same-origin files;
- plain fetch for everything else.

It pre-caches five static assets on install. On activation it deletes every
cache store except the two current ones.

Modules:

- `Wrappers`: `Option`.
- `JsStrings`: the JavaScript string built-ins the script uses. These are ASCII `toLowerCase`, the `\s` class, `includes`, `replace` with a string, global literal `replace`, `trim` and `substring`.
- `Cleaning`: `cleanText`, `extractDomain` and `normalizeDate`.
- `Tagging`: `KEYWORD_MAP` and `extractTags`, the latter as a loop proved equal to a reference definition.
- `Articles`: article records and the item mapping of `parseFeed`.
- `Dedup`: the `Map` keyed by URL, with insertion order and last-value-wins.
- `StableSort`: a reference stable descending sort and an in-place array sort proved equal to it. Any sorted rearrangement that keeps equal keys in input order is shown to be that reference.
- `Ranking`: `calculateImportance`, `saveToJson`, `fetchAllFeeds`, `createDemoData` and `main`.
- `CacheApi`: the Cache Storage API as used by the worker. It is a value-level state with pure operations, plus a class whose methods update it in place.
- `Worker`: the classifier, the three strategies, install and activate. Each is a value-level specification plus a method proved to implement it.

Two details of the code that the model keeps:
- `extractDomain` removes the first `www.` anywhere in the host name, which for most hosts is a leading one.
- Tags come out in the keyword table's order, without repeats.

Two consequences of the code are stated as lemmas:
- `TSMC` is an important tag but never a tag label, so it never adds to a score.
- A same-origin navigation to `/news.json` goes network-first, so it is stored in `CACHE_NAME`.

## Model

| member | source | states |
|---|---|---|
| `JsStrings.LowerIdempotent` | scripts/fetchFeeds.js:61 | `Lower` (`toLowerCase` on ASCII letters): lowering twice is lowering once |
| `JsStrings.LowerConcat` | scripts/fetchFeeds.js:61 | `Lower` works piece by piece: lowering a concatenation is concatenating the lowered parts |
| `JsStrings.TrimStart` | scripts/fetchFeeds.js:110 | the result is a suffix of the input that does not start with `\s`, and every dropped character is `\s` |
| `JsStrings.TrimEnd` | scripts/fetchFeeds.js:110 | the result is a prefix of the input that does not end with `\s`, and every dropped character is `\s` |
| `JsStrings.Trim` | scripts/fetchFeeds.js:110 | `trim` returns a contiguous middle part of the input that neither starts nor ends with `\s`; everything cut off on either side is `\s` |
| `JsStrings.Prefix` | scripts/fetchFeeds.js:111 | `substring(0, n)` is the input's first `n` characters, or the whole input when it is shorter |
| `JsStrings.ReplaceFirstAt` | scripts/fetchFeeds.js:79 | `ReplaceFirst` (`replace` with a string pattern) cuts out exactly the first occurrence and splices in the replacement |
| `JsStrings.ReplaceFirstAbsent` | scripts/fetchFeeds.js:79 | `replace` leaves a string without the pattern unchanged |
| `JsStrings.ReplaceAllAbsent` | scripts/fetchFeeds.js:103-108 | `ReplaceAll` (a global replace of a literal) leaves text without the pattern unchanged |
| `JsStrings.ReplaceAllSkip` | scripts/fetchFeeds.js:103-108 | a global replace passes unchanged over a leading part in which no occurrence starts |
| `JsStrings.ReplaceAllAt` | scripts/fetchFeeds.js:103-108 | a global replace keeps the text before the first occurrence, replaces that occurrence and carries on with the rest of the text |
| `JsStrings.ReplaceAllSkipPlain` | scripts/fetchFeeds.js:103-108 | a global replace of a pattern starting with `&` leaves a leading part without `&` unchanged |
| `Cleaning.IndexOf` | scripts/fetchFeeds.js:102 | the position of the first `>`, with no `>` before it |
| `Cleaning.StripTags` | scripts/fetchFeeds.js:102 | tag removal never lengthens the text and only keeps characters of the input |
| `Cleaning.StripTagsLeavesNoTag` | scripts/fetchFeeds.js:102 | after tag removal no `<` has a `>` anywhere after it |
| `Cleaning.StripTagsWithoutClose` | scripts/fetchFeeds.js:102 | text without `>` is left untouched, even an unclosed `<` |
| `Cleaning.StripTagsConcat` | scripts/fetchFeeds.js:102 | text before the first `<` is kept as it is, whatever follows |
| `Cleaning.StripTagsDropsTag` | scripts/fetchFeeds.js:102 | a complete tag `<...>` (no `>` inside) is removed and nothing else around it |
| `Cleaning.NoAmpNoEntity` | scripts/fetchFeeds.js:103-108 | every entity pattern starts with `&`, so text without `&` contains none |
| `Cleaning.DecodeWithoutAmp` | scripts/fetchFeeds.js:103-108 | `DecodeEntities` leaves text without `&` unchanged |
| `Cleaning.SkipLessThanEntity` | scripts/fetchFeeds.js:103-104 | the `&nbsp;` and `&amp;` passes leave a leading `&lt;` alone |
| `Cleaning.DecodeLessThanAfterPlain` | scripts/fetchFeeds.js:103-108 | `DecodeEntities` on text without `&`, then `&lt;`, then any rest gives that text, `<`, and the decoded rest |
| `Cleaning.SkipEntity` | scripts/fetchFeeds.js:103-108 | one entity is never taken for another whose second character differs, so a pass goes past it |
| `Cleaning.PassOverEntity` | scripts/fetchFeeds.js:103-108 | a pass goes past text without `&` followed by an entity it does not decode |
| `Cleaning.PassAtEntity` | scripts/fetchFeeds.js:103-108 | the pass for an entity decodes it when it follows text without `&`, and goes on after it |
| `Cleaning.DecodeSpaceAfterPlain` | scripts/fetchFeeds.js:103-108 | `&nbsp;` after text without `&` decodes to a space, and the rest decodes as if it stood alone |
| `Cleaning.DecodeGreaterThanAfterPlain` | scripts/fetchFeeds.js:103-108 | `&gt;` after text without `&` decodes to `>`, and the rest decodes as if it stood alone |
| `Cleaning.DecodeQuoteAfterPlain` | scripts/fetchFeeds.js:103-108 | `&quot;` after text without `&` decodes to `"`, and the rest decodes as if it stood alone |
| `Cleaning.DecodeApostropheAfterPlain` | scripts/fetchFeeds.js:103-108 | `&#39;` after text without `&` decodes to `'`, and the rest decodes as if it stood alone |
| `Cleaning.DecodeAmpersandAfterPlain` | scripts/fetchFeeds.js:103-108 | `&amp;` after text without `&` decodes to `&`, and that is all when the rest has no `&` and does not start with `l`, `g`, `q` or `#` (otherwise the new `&` may start another entity, as the next row shows) |
| `Cleaning.AmpersandLeft` | scripts/fetchFeeds.js:105-108 | a lone `&` before text without `&` survives a pass whose entity it does not begin |
| `Cleaning.DoubleEscapedLessThan` | scripts/fetchFeeds.js:103-108 | because `DecodeEntities` decodes `&amp;` before `&lt;`, `&amp;lt;` decodes to `<` |
| `Cleaning.CollapseSpaces` | scripts/fetchFeeds.js:109 | collapsing gives an empty text only for an empty input, and starts with a space exactly when the input starts with `\s` |
| `Cleaning.NonSpace` | scripts/fetchFeeds.js:109 | the characters that are not `\s` are exactly those of the input that are not `\s` |
| `Cleaning.CollapseShape` | scripts/fetchFeeds.js:109 | after collapsing every `\s` left is a plain space, and no two are adjacent |
| `Cleaning.CollapseKeepsNonSpace` | scripts/fetchFeeds.js:109 | collapsing keeps every character that is not `\s`, in order |
| `Cleaning.CollapseWithoutSpace` | scripts/fetchFeeds.js:109 | text without `\s` comes back unchanged |
| `Cleaning.CollapseRun` | scripts/fetchFeeds.js:109 | a run made only of `\s` becomes exactly one space |
| `Cleaning.TrimStartConcat` | scripts/fetchFeeds.js:109-110 | leading `\s` are dropped from the first part of a concatenation, or from the second when the first is all `\s` |
| `Cleaning.CollapseConcat` | scripts/fetchFeeds.js:109 | collapsing works piece by piece at any cut that does not split a run of `\s`, so with the two lemmas above it fixes every output |
| `Cleaning.CollapseConsWord` | scripts/fetchFeeds.js:109 | one step of that induction: a leading non-`\s` character is kept in front |
| `Cleaning.CollapseConsRun` | scripts/fetchFeeds.js:109 | one step of that induction: a leading run of `\s` becomes one space in front |
| `Cleaning.CollapseUnfoldWord` | scripts/fetchFeeds.js:109 | a leading non-`\s` character stays in front of the collapsed rest |
| `Cleaning.NonSpaceTrimStart` | scripts/fetchFeeds.js:109-110 | dropping leading `\s` keeps every other character |
| `Cleaning.NoDoubleSpaceCons` | scripts/fetchFeeds.js:109 | putting a character in front keeps the text free of adjacent `\s` unless both are `\s` |
| `Cleaning.TrimKeepsNoDoubleSpace` | scripts/fetchFeeds.js:110 | trimming keeps the text free of double spaces and leaves no leading space |
| `Cleaning.PrefixKeepsNoDoubleSpace` | scripts/fetchFeeds.js:111 | `substring(0, n)` is at most `n` long and keeps both properties |
| `Cleaning.TrimmedPrefix` | scripts/fetchFeeds.js:110-111 | trim then cut to 300 gives a text of at most 300 characters with no leading space and no double space |
| `Cleaning.CleanText` | scripts/fetchFeeds.js:98-112 | a missing or empty input gives `''`; every summary is at most 300 characters, has no leading whitespace and never two whitespace characters in a row |
| `Cleaning.CleanTextOfPlainText` | scripts/fetchFeeds.js:98-112 | a non-empty text with no `<`, no `&` and no `\s` comes back only cut to its first 300 characters |
| `Cleaning.ExtractDomainResult` | scripts/fetchFeeds.js:76-83 | `ExtractDomain`: an unparseable URL gives `Unknown`; a host with a leading `www.` loses those four characters; a host without `www.` is kept; otherwise the first `www.` is cut out |
| `Cleaning.NormalizeDate` | scripts/fetchFeeds.js:88-93 | a missing, empty or unparseable date gives `now`; otherwise the parsed instant |
| `Tagging.LabelsDistinct` | scripts/fetchFeeds.js:44-55 | no label appears twice in the table |
| `Tagging.SetAdd` | scripts/fetchFeeds.js:66 | adding a tag keeps the existing tags in place, appends the tag at the end only if it is new, and makes it a member |
| `Tagging.ExtractTags` | scripts/fetchFeeds.js:60-71 | the loop over the table returns exactly the reference tag list |
| `Tagging.TagsAreOrderedLabels` | scripts/fetchFeeds.js:64-70 | the tags are labels of the table, each at most once, in table order |
| `Tagging.TagsOfExactly` | scripts/fetchFeeds.js:60-71 | a label is present if and only if one of its keywords, lowered, occurs in the lowered `title + ' ' + description` |
| `Tagging.TagsCaseInsensitive` | scripts/fetchFeeds.js:61-65 | lowering title and description first yields the same tags |
| `Tagging.EmptyTextHasNoTags` | scripts/fetchFeeds.js:61-68 | an empty title and description give no tags |
| `Tagging.HbmTitleIsTaggedHbm` | scripts/fetchFeeds.js:44-71 | any title containing `hbm` in any case (such as `HBM3`) is tagged `HBM`, whatever the description |
| `Articles.ToArticleFallbacks` | scripts/fetchFeeds.js:122-134 | `ToArticle`: a blank title becomes `Untitled`; a blank link gives an empty URL and the feed's domain; no date gives `now`; no text gives an empty summary, and no text and no title give no tags |
| `Articles.ParsedArticlesWellFormed` | scripts/fetchFeeds.js:117-143 | every article `ParseFeed` yields has a non-empty title, a summary of at most 300 characters, its feed's source and category, and table-ordered tags |
| `Articles.FlattenMembers` | scripts/fetchFeeds.js:157 | `Flatten` (`flat()`) holds exactly the articles of the per-feed lists |
| `Articles.FlattenAppend` | scripts/fetchFeeds.js:157 | joining two runs of feeds gives the join of the first followed by the join of the second |
| `Articles.FlattenFeedOrder` | scripts/fetchFeeds.js:157 | `flat()` keeps feed order: feed `i`'s articles, in their own order, follow all earlier feeds' articles and precede all later ones |
| `Dedup.Set` | scripts/fetchFeeds.js:161 | `Map.set` keeps the keys distinct, appends a new key at the end, leaves an existing key where it is, stores the value under the key and leaves the other entries' values alone |
| `Dedup.ByUrl` | scripts/fetchFeeds.js:161 | the map's keys are exactly the URLs of the input |
| `Dedup.LastWithUrl` | scripts/fetchFeeds.js:161 | the reference "last article with this URL" is an input article with that URL |
| `Dedup.FirstIndex` | scripts/fetchFeeds.js:161 | the reference first position of a URL holds that URL and no earlier position does |
| `Dedup.DedupSpec` | scripts/fetchFeeds.js:160-162 | `UniqueByUrl` has distinct URLs and the same URL set as the input, one article per URL; each kept article is the last one with its URL; URLs appear in the order of their first occurrence |
| `Dedup.ByUrlKeys` | scripts/fetchFeeds.js:161 | the map's keys are the reference list of the input's URLs in order of first occurrence, each once |
| `Dedup.FirstUrlsOrder` | scripts/fetchFeeds.js:161 | that reference list is ordered by first occurrence in the input |
| `Dedup.ByUrlLastValue` | scripts/fetchFeeds.js:161 | the value under each URL is the last input article with that URL |
| `Dedup.KeyedValues` | scripts/fetchFeeds.js:160-162 | for a map that stores each article under its own URL, `Values` (`values()`) lists the articles in key order, each of them the map's entry for its URL, and covers exactly the keys |
| `Dedup.ValuesCount` | scripts/fetchFeeds.js:160-162 | `Values` (`values()`) of a map has as many entries as the map has keys |
| `Dedup.LaterDuplicateWins` | scripts/fetchFeeds.js:161 | of two articles with the same URL the last survives and the earlier, if different, is dropped |
| `StableSort.SortSpec` | scripts/fetchFeeds.js:165-167 | the reference sort is non-increasing in its key |
| `StableSort.SortSpecStable` | scripts/fetchFeeds.js:165-167 | for every key value, the elements with that key keep their input order |
| `StableSort.SortSpecPermutation` | scripts/fetchFeeds.js:165-167 | the sort is a permutation of its input |
| `StableSort.Unique` | scripts/fetchFeeds.js:165-167 | any rearrangement that is sorted and keeps each key's elements in input order equals the reference sort |
| `StableSort.InsertIntoPrefix` | scripts/fetchFeeds.js:165-167 | moving one element into a sorted prefix by neighbour swaps gives a longer sorted prefix, keeps each key's elements in order and leaves the rest alone |
| `StableSort.SortDescending` | scripts/fetchFeeds.js:165-167 | `Array.prototype.sort` with a descending comparator leaves the array equal to the reference sort of its old contents |
| `Ranking.CalculateImportance` | scripts/fetchFeeds.js:176-194 | the accumulated score equals the reference `Importance`: recency bonus of 10 (≤ 24 h), 5 (≤ 48 h) or 0, plus 5 per important tag, plus 2 per tag |
| `Ranking.ImportanceNonIncreasingWithAge` | scripts/fetchFeeds.js:180-182 | with the same tags, an older article never scores higher |
| `Ranking.ImportantCountBounds` | scripts/fetchFeeds.js:185-188 | at most one important hit per tag, none when no tag is important |
| `Ranking.ImportanceBounds` | scripts/fetchFeeds.js:176-194 | the score is at least 2 points per tag and at most 10 + 7 points per tag |
| `Ranking.TsmcNeverTagged` | scripts/fetchFeeds.js:185 | `TSMC` never appears in an extracted tag list, so it never adds to a score |
| `Ranking.SaveToJson` | scripts/fetchFeeds.js:199-224 | the document holds `now`, the input list unchanged, its length, and the first ten of the stable score sort |
| `Ranking.TopLength` | scripts/fetchFeeds.js:206-208 | `TopArticles` has `min(10, n)` articles |
| `Ranking.TopFromInput` | scripts/fetchFeeds.js:201-209 | every top article is an input article, none more often than it occurs |
| `Ranking.TopOrdered` | scripts/fetchFeeds.js:206-207 | top articles come in non-increasing score order |
| `Ranking.ScoredEntry` | scripts/fetchFeeds.js:201-204 | every scored entry carries its own article's score |
| `Ranking.TopKeepsTieOrder` | scripts/fetchFeeds.js:206-207 | among equal scores, the kept articles are the first ones in input order |
| `Ranking.LeftOutScoreNoHigher` | scripts/fetchFeeds.js:206-208 | no article left out scores above the last one kept |
| `Ranking.DemoArticlesNewestFirst` | scripts/fetchFeeds.js:252-305 | the five `DemoArticles` are already newest first, have distinct URLs, and are all between 0 and 18 hours old |
| `Ranking.CreateDemoData` | scripts/fetchFeeds.js:251-307 | the demo articles are saved as the document, stamped `now` |
| `Ranking.FetchAllFeeds` | scripts/fetchFeeds.js:148-171 | the result is the reference stable newest-first sort of the de-duplicated articles: sorted, a permutation of them, distinct URLs, every collected URL present |
| `Ranking.PermutationKeepsUrls` | scripts/fetchFeeds.js:165-167 | sorting keeps the set of URLs |
| `Ranking.PermutationKeepsDistinctUrls` | scripts/fetchFeeds.js:165-167 | sorting keeps the URLs distinct |
| `Ranking.NothingCollected` | scripts/fetchFeeds.js:231-233 | the sorted de-duplicated list is empty exactly when nothing was collected |
| `Ranking.Run` | scripts/fetchFeeds.js:229-246 | the document is stamped `now` and never lists zero articles: demo data when nothing was collected, else the sorted de-duplicated articles, with count and top list to match |
| `CacheApi.Opened` | public/sw.js:23 | `caches.open` adds an empty store at the end only when none has that name, keeping the others |
| `CacheApi.WithEntry` | public/sw.js:66-67 | `cache.put` replaces the entry for the request URL in that store only, and does nothing for a non-GET or a 206 response |
| `CacheApi.Without` | public/sw.js:44 | removing a name keeps every other name |
| `CacheApi.WithoutDistinct` | public/sw.js:44 | removing a name keeps the names distinct |
| `CacheApi.WithoutConcat` | public/sw.js:44 | removing a name from a concatenation removes it from each part, in place |
| `CacheApi.WithoutAbsent` | public/sw.js:44 | removing a name that is not there changes nothing |
| `CacheApi.WithoutMiddle` | public/sw.js:44 | removing a name that occurs once cuts out exactly that position |
| `CacheApi.DeletedOrder` | public/sw.js:44 | for distinct names, deleting cuts out the one position of the name and keeps the others in order |
| `CacheApi.Deleted` | public/sw.js:44 | `caches.delete` removes that store, leaves the others' contents as they were, and keeps the other names in creation order with only that name's position cut out |
| `CacheApi.LookupInFirst` | public/sw.js:72 | `caches.match` returns the entry of the earliest store holding the URL, and nothing only if no store holds it |
| `CacheApi.LookupInByName` | public/sw.js:87 | stated by store name: a hit is the entry of the first listed store holding the URL; a miss means no listed store holds it |
| `CacheApi.LookupAfterPut` | public/sw.js:66-72 | a stored GET is found again by `caches.match` when no earlier store holds its URL |
| `CacheApi.WithEntries` | public/sw.js:26 | storing a batch changes only the target store |
| `CacheApi.WithEntriesHolds` | public/sw.js:26 | after storing GET responses for distinct URLs, each URL maps to its response |
| `CacheApi.WithEntriesKeeps` | public/sw.js:26 | storing a batch leaves other URLs of the store unchanged |
| `CacheApi.CacheStorage.Open` | public/sw.js:23 | in place, the state becomes `Opened` of the old state |
| `CacheApi.CacheStorage.Put` | public/sw.js:67 | in place, the state becomes `WithEntry` of the old state |
| `CacheApi.CacheStorage.Delete` | public/sw.js:44 | in place, the state becomes `Deleted` of the old state; reports whether the store existed |
| `CacheApi.CacheStorage.Match` | public/sw.js:87-89 | a hit is a GET answered from the first store, in creation order, that holds the URL; a miss on a GET means no store holds it |
| `CacheApi.CacheStorage.AddAll` | public/sw.js:26 | succeeds exactly when every request is a GET, no two requests share a URL, and every fetch gives a non-error response with a 2xx status other than 206; then all responses are stored, otherwise (a `TypeError`, an `InvalidStateError` or a failed fetch) nothing is |
| `CacheApi.CacheStorage.PutEach` | public/sw.js:26 | the puts of a successful `addAll`, in order |
| `Worker.PagesAreNetworkFirst` | public/sw.js:58-61 | same-origin navigations and requests for `/` or `/index.html` are network-first |
| `Worker.NewsIsNeverCacheFirst` | public/sw.js:58-82 | `/news.json` is pass-through unless it is a same-origin navigation, which is network-first |
| `Worker.CrossOriginIsNetworkOnly` | public/sw.js:58-111 | a cross-origin request is never network-first or cache-first |
| `Worker.CacheFirstScope` | public/sw.js:58-108 | cache-first applies exactly to same-origin non-navigations for paths other than `/`, `/index.html` and `/news.json` |
| `Worker.Classify` | public/sw.js:58-111 | network-first and cache-first only apply to same-origin requests, cache-first never to navigations; pass-through only to `/news.json`; plain fetch only to other cross-origin requests |
| `Worker.NetworkFirstSpec` | public/sw.js:58-76 | network-first always fetches and keeps the storage well formed; on success it replies with the response, on failure it changes nothing |
| `Worker.CacheFirstSpec` | public/sw.js:85-108 | cache-first fetches exactly on a cache miss, keeps the storage well formed, and changes it only for a status-200 non-error response |
| `Worker.NetworkOnlySpec` | public/sw.js:79-111 | pass-through and plain fetch fetch, reply exactly when the network answers, and leave the caches alone |
| `Worker.FetchSpec` | public/sw.js:53-112 | the handler keeps the storage well formed, skips the network only on a cache-first hit, and can answer without the network only from a cache |
| `Worker.FetchKeepsWellFormed` | public/sw.js:53-112 | handling a request keeps the cache storage well formed |
| `Worker.NetworkOnlyLeavesCaches` | public/sw.js:79-82 | pass-through and plain fetch return the network's answer and change no cache store |
| `Worker.NetworkFirstOnSuccess` | public/sw.js:62-70 | on success the reply is the fetched response and `CACHE_NAME` exists; a GET response other than 206 is stored under the URL there; other stores are unchanged |
| `Worker.NetworkFirstOnFailure` | public/sw.js:71-73 | on failure nothing is stored and the reply is whatever `caches.match` finds, possibly nothing |
| `Worker.OfflineAfterOnline` | public/sw.js:58-76 | a page loaded network-first is served from the cache when the next load finds the network down |
| `Worker.CacheFirstOnHit` | public/sw.js:87-91 | a cache hit is returned as is, with no fetch and no change |
| `Worker.CacheFirstOnMiss` | public/sw.js:93-104 | a miss is fetched and returned; the caches change only for a status-200 non-error response, and such a GET response is then stored under its URL |
| `Worker.HandleFetch` | public/sw.js:53-112 | the handler's reply, new state and whether it fetched equal the specification of the chosen strategy |
| `Worker.Store` | public/sw.js:66-68 | opens `CACHE_NAME` and puts the response into it |
| `Worker.NetworkFirstFetch` | public/sw.js:62-74 | implements the network-first specification in place |
| `Worker.CacheFirstFetch` | public/sw.js:86-105 | implements the cache-first specification in place |
| `Worker.AssetUrlsDistinct` | public/sw.js:10-16 | the five asset URLs are distinct |
| `Worker.InstallCachesAssets` | public/sw.js:10-27 | after a successful install `CACHE_NAME` maps each of the five asset URLs to its fetched response |
| `Worker.InstallFailureStoresNothing` | public/sw.js:22-27 | if any asset fetch is unacceptable, install only creates `CACHE_NAME` |
| `Worker.InstallSpec` | public/sw.js:19-30 | install creates `CACHE_NAME` if needed, keeps the storage well formed and leaves every other store as it was |
| `Worker.Install` | public/sw.js:19-30 | succeeds exactly when every asset fetch is acceptable, and leaves the state the install specification gives |
| `Worker.RetainedMembers` | public/sw.js:41 | the filter keeps exactly the names that are in the kept set |
| `Worker.RetainedDistinct` | public/sw.js:41 | the filter keeps the names distinct |
| `Worker.ActivateSpec` | public/sw.js:33-50 | after activation the only stores left are `CACHE_NAME` and `NEWS_CACHE`, each of them kept if it existed, with unchanged contents |
| `Worker.ActivateKeepsCurrent` | public/sw.js:36-47 | afterwards the store names are the old ones that equal `CACHE_NAME` or `NEWS_CACHE`, in old order and with their old contents |
| `Worker.Activate` | public/sw.js:33-50 | deleting in place leaves the state the activate specification gives |
| `Worker.DeleteIfStale` | public/sw.js:40-45 | one deletion step: names listed so far are filtered, the rest untouched |
| `Worker.StaleStepDropped` | public/sw.js:41-44 | a stale name's step is a `caches.delete` of it |
| `Worker.StaleStepKept` | public/sw.js:41 | a kept name's step changes nothing |

## Left out

- The RSS library, its user agent and timeout, and the network. Each feed's outcome is a parameter: the parsed items, or `None` for a fetch that threw.
- `Promise.all` concurrency. The feed lists are joined in feed order, which `Promise.all` preserves.
- Console output, writing `public/news.json`, JSON formatting, and `process.exit` on a fatal error in `main`.
- Clock reads. Every `Date.now()` and `new Date()` in one run is the single parameter `now`, in milliseconds. The script reads the clock separately per article, which can differ by milliseconds.
- Date parsing and ISO formatting. `new Date(s)` is the oracle `parseDate`. `publishedAt` is kept as the instant in milliseconds rather than its ISO text, which holds the same instant.
- The `URL` constructor. It is the oracle `hostOf`, with `None` when it throws.
- `JsStrings.Lower`: only ASCII letters are lowered; JavaScript's full Unicode case mapping is not modelled.
- `JsStrings.Prefix`: it counts characters, not the UTF-16 code units that `substring` counts, so a cut never splits a surrogate pair and summaries holding characters outside the Basic Multilingual Plane may differ in length. `Cleaning.PrefixKeepsNoDoubleSpace` and `Cleaning.CleanText` inherit this.
- The values of `CACHE_NAME` and `NEWS_CACHE`, which are built from the clock. They are parameters of `Worker.Config`.
- The fire-and-forget `caches.open().then(put)` in the fetch handler. It is modelled as happening before the reply, so its ordering against later events is not modelled.
- Parts of the Cache API: response bodies and `clone()`, `Vary` handling, rejection of non-HTTP(S) URLs, and match options. Responses are compared by status and type.
- The `!response` test at public/sw.js:94. `fetch` either resolves with a response or rejects, so this case does not occur and is not modelled.
- `skipWaiting`, `clients.claim`, the `sync`, `push` and `notificationclick` handlers (public/sw.js:115-167), and the stray fence at public/sw.js:170. These are browser lifecycle and notification plumbing.
