/** Keyword tagging of the feed script (`KEYWORD_MAP` and `extractTags` in scripts/fetchFeeds.js). */
module Tagging {
  import opened JsStrings

  /** `KEYWORD_MAP`, in its declaration order: each label with the keywords that select it. */
  const KeywordMap: seq<(string, seq<string>)> := [
    ("HBM", ["HBM", "High Bandwidth Memory", "HBM2", "HBM3"]),
    ("Foundry", ["TSMC", "Samsung Foundry", "Intel Foundry", "foundry", "fab"]),
    ("Equipment", ["ASML", "Applied Materials", "Lam Research", "Tokyo Electron", "KLA"]),
    ("Memory", ["DRAM", "NAND", "memory chip", "SK Hynix", "Micron"]),
    ("AI", ["AI chip", "GPU", "NPU", "NVIDIA", "AMD", "artificial intelligence"]),
    ("EUV", ["EUV", "extreme ultraviolet", "lithography"]),
    ("Packaging", ["chiplet", "packaging", "3D IC", "CoWoS", "HBM packaging"]),
    ("Mobile", ["Qualcomm", "MediaTek", "mobile processor", "smartphone chip"]),
    ("Automotive", ["automotive semiconductor", "EV chip", "ADAS"]),
    ("Policy", ["chip act", "export control", "subsidy", "tariff", "sanction"])
  ]

  /** The labels of the table, in table order. */
  function Labels(): (r: seq<string>)
    ensures |r| == |KeywordMap|
    ensures forall i :: 0 <= i < |r| ==> r[i] == KeywordMap[i].0
  {
    seq(|KeywordMap|, i requires 0 <= i < |KeywordMap| => KeywordMap[i].0)
  }

  lemma {:induction false} LabelsDistinct()
    ensures forall i, j :: 0 <= i < j < |KeywordMap| ==> KeywordMap[i].0 != KeywordMap[j].0
  {
  }

  /** The lowered text `extractTags` searches: `${title} ${description}`.toLowerCase(). */
  function SearchText(title: string, description: string): string {
    Lower(title + " " + description)
  }

  /** `keywords.some(keyword => text.includes(keyword.toLowerCase()))`. */
  predicate Matches(text: string, keywords: seq<string>) {
    exists k | k in keywords :: Contains(text, Lower(k))
  }

  /** The labels among the first `n` table rows that match `text`, in table order. */
  function TagsUpTo(text: string, n: nat): seq<string>
    requires n <= |KeywordMap|
  {
    if n == 0 then []
    else TagsUpTo(text, n - 1) + (if Matches(text, KeywordMap[n - 1].1) then [KeywordMap[n - 1].0] else [])
  }

  /** Reference definition of the tag list: every label, in table order, whose keywords match. */
  function TagsOf(title: string, description: string): seq<string> {
    TagsUpTo(SearchText(title, description), |KeywordMap|)
  }

  /** `Set.prototype.add` on a set kept in insertion order. */
  function SetAdd(tags: seq<string>, tag: string): (r: seq<string>)
    ensures tag in r
    ensures forall t :: t in r <==> t in tags || t == tag
    ensures |r| == |tags| + (if tag in tags then 0 else 1)
    ensures r[..|tags|] == tags
  {
    if tag in tags then tags else tags + [tag]
  }

  lemma {:induction false} TagsUpToLabels(text: string, n: nat)
    requires n <= |KeywordMap|
    ensures forall t :: t in TagsUpTo(text, n) ==> exists i :: 0 <= i < n && KeywordMap[i].0 == t
  {
    if n > 0 {
      TagsUpToLabels(text, n - 1);
    }
  }

  /** `extractTags`: fills a set, in table order, with every label one of whose keywords occurs. */
  method ExtractTags(title: string, description: string) returns (tags: seq<string>)
    ensures tags == TagsOf(title, description)
  {
    var text := Lower(title + " " + description);
    tags := [];
    for n := 0 to |KeywordMap|
      invariant tags == TagsUpTo(text, n)
    {
      var (tag, keywords) := KeywordMap[n];
      if Matches(text, keywords) {
        TagsUpToLabels(text, n);
        LabelsDistinct();
        assert tag !in tags;
        tags := SetAdd(tags, tag);
      }
    }
  }

  /** Position of a label in the table. */
  function LabelIndex(tag: string): (i: nat)
    requires tag in Labels()
    ensures i < |KeywordMap| && KeywordMap[i].0 == tag
  {
    var i :| 0 <= i < |KeywordMap| && KeywordMap[i].0 == tag;
    LabelsDistinct();
    i
  }

  /** `r` holds labels of the table, in strictly increasing table position. */
  predicate InTableOrder(r: seq<string>) {
    && (forall i :: 0 <= i < |r| ==> r[i] in Labels())
    && (forall i, j :: 0 <= i < j < |r| ==> LabelIndex(r[i]) < LabelIndex(r[j]))
  }

  lemma {:induction false} TagsUpToOrdered(text: string, n: nat)
    requires n <= |KeywordMap|
    ensures InTableOrder(TagsUpTo(text, n))
    ensures forall t :: t in TagsUpTo(text, n) ==> LabelIndex(t) < n
  {
    if n > 0 {
      TagsUpToOrdered(text, n - 1);
      var prev := TagsUpTo(text, n - 1);
      var t := KeywordMap[n - 1].0;
      assert t == Labels()[n - 1];
      assert LabelIndex(t) == n - 1 by { LabelsDistinct(); }
      var r := TagsUpTo(text, n);
      if r != prev {
        assert r == prev + [t];
        forall i, j | 0 <= i < j < |r| ensures LabelIndex(r[i]) < LabelIndex(r[j]) {
          if j == |prev| {
            assert r[i] == prev[i] && prev[i] in prev;
          } else {
            assert r[i] == prev[i] && r[j] == prev[j];
          }
        }
      }
    }
  }

  /** The tags are labels of the table, each at most once, in table order. */
  lemma {:induction false} TagsAreOrderedLabels(title: string, description: string)
    ensures InTableOrder(TagsOf(title, description))
    ensures var r := TagsOf(title, description);
      forall i, j :: 0 <= i < j < |r| ==> r[i] != r[j]
  {
    TagsUpToOrdered(SearchText(title, description), |KeywordMap|);
  }

  lemma {:induction false} TagsUpToExactly(text: string, n: nat)
    requires n <= |KeywordMap|
    ensures forall i :: 0 <= i < n ==>
      (KeywordMap[i].0 in TagsUpTo(text, n) <==> Matches(text, KeywordMap[i].1))
  {
    if n > 0 {
      TagsUpToExactly(text, n - 1);
      TagsUpToLabels(text, n - 1);
      LabelsDistinct();
    }
  }

  /** A label is present exactly when one of its keywords, lowered, occurs in the lowered text. */
  lemma {:induction false} TagsOfExactly(title: string, description: string)
    ensures forall i :: 0 <= i < |KeywordMap| ==>
      (KeywordMap[i].0 in TagsOf(title, description) <==>
       exists k | k in KeywordMap[i].1 :: Contains(Lower(title + " " + description), Lower(k)))
  {
    TagsUpToExactly(SearchText(title, description), |KeywordMap|);
  }

  /** Tagging ignores ASCII case: lowering the inputs first changes nothing. */
  lemma {:induction false} TagsCaseInsensitive(title: string, description: string)
    ensures TagsOf(Lower(title), Lower(description)) == TagsOf(title, description)
  {
    LowerConcat(title, " " + description);
    LowerConcat(Lower(title), " " + Lower(description));
    LowerConcat(" ", description);
    LowerConcat(" ", Lower(description));
    LowerIdempotent(description);
    LowerIdempotent(title);
    assert SearchText(Lower(title), Lower(description)) == SearchText(title, description);
  }

  lemma {:induction false} NoTagsUpTo(text: string, n: nat)
    requires n <= |KeywordMap|
    requires forall i, k :: 0 <= i < n && k in KeywordMap[i].1 ==> |text| < |k|
    ensures TagsUpTo(text, n) == []
  {
    if n > 0 {
      NoTagsUpTo(text, n - 1);
      var keywords := KeywordMap[n - 1].1;
      forall k | k in keywords ensures !Contains(text, Lower(k)) {
        assert |Lower(k)| > |text|;
      }
    }
  }

  /** Empty title and description carry no tag. */
  lemma {:induction false} EmptyTextHasNoTags()
    ensures TagsOf("", "") == []
  {
    assert SearchText("", "") == " ";
    NoTagsUpTo(" ", |KeywordMap|);
  }

  /** A title that mentions `hbm`, in any case, is tagged `HBM`, whatever the description. */
  lemma {:induction false} HbmTitleIsTaggedHbm(title: string, description: string)
    requires Contains(Lower(title), "hbm")
    ensures "HBM" in TagsOf(title, description)
  {
    var text := SearchText(title, description);
    LowerConcat(title, " " + description);
    var i: nat :| i <= |Lower(title)| && OccursAt(Lower(title), "hbm", i);
    assert text[i..i + 3] == Lower(title)[i..i + 3];
    assert Lower("HBM") == "hbm";
    assert OccursAt(text, Lower("HBM"), i);
    assert Matches(text, KeywordMap[0].1);
    TagsUpToExactly(text, |KeywordMap|);
  }

}
