/**
 * Text normalisation of the feed script (scripts/fetchFeeds.js): `cleanText`,
 * the `www.` clean-up of `extractDomain` and the fallback of `normalizeDate`.
 */
module Cleaning {
  import opened Wrappers
  import opened JsStrings

  /** Upper bound on the length of a cleaned summary (`substring(0, 300)`). */
  const SummaryLimit: nat := 300

  /** Position of the first `c` in `s`. */
  function IndexOf(s: string, c: char): (k: nat)
    requires c in s
    ensures k < |s| && s[k] == c && c !in s[..k]
  {
    if s[0] == c then 0 else 1 + IndexOf(s[1..], c)
  }

  /**
   * `replace(/<[^>]*>/g, '')`: scanning left to right, a `<` that has a `>`
   * somewhere after it starts a match that runs to the first such `>`; a `<`
   * with no `>` after it is kept, like every other character.
   */
  function StripTags(s: string): (r: string)
    ensures |r| <= |s|
    ensures forall c :: c in r ==> c in s
    decreases |s|
  {
    if s == [] then []
    else if s[0] == '<' && '>' in s then StripTags(s[IndexOf(s, '>') + 1..])
    else [s[0]] + StripTags(s[1..])
  }

  /** No `<` in `s` is followed, anywhere later, by a `>`: `s` holds no `<...>` span. */
  predicate NoTagSpan(s: string) {
    forall i, j :: 0 <= i < j < |s| && s[i] == '<' ==> s[j] != '>'
  }

  lemma {:induction false} NoTagSpanCons(c: char, rest: string)
    requires NoTagSpan(rest)
    requires c == '<' ==> '>' !in rest
    ensures NoTagSpan([c] + rest)
  {
    var r := [c] + rest;
    forall i, j | 0 <= i < j < |r| && r[i] == '<' ensures r[j] != '>' {
      assert r[j] == rest[j - 1];
      if i > 0 {
        assert r[i] == rest[i - 1];
      }
    }
  }

  /** After tag stripping no `<` is followed, anywhere later, by a `>`. */
  lemma {:induction false} StripTagsLeavesNoTag(s: string)
    ensures NoTagSpan(StripTags(s))
    decreases |s|
  {
    if s == [] {
    } else if s[0] == '<' && '>' in s {
      StripTagsLeavesNoTag(s[IndexOf(s, '>') + 1..]);
    } else {
      StripTagsLeavesNoTag(s[1..]);
      var rest := StripTags(s[1..]);
      assert StripTags(s) == [s[0]] + rest;
      if s[0] == '<' {
        assert '>' !in s[1..];
        assert '>' !in rest;
      }
      NoTagSpanCons(s[0], rest);
    }
  }

  /** A `<` that is never closed survives: text without `>` is left as it is. */
  lemma {:induction false} StripTagsWithoutClose(s: string)
    requires '>' !in s
    ensures StripTags(s) == s
    decreases |s|
  {
    if s != [] {
      StripTagsWithoutClose(s[1..]);
    }
  }

  /** Text before the first `<` is kept as it is. */
  lemma {:induction false} StripTagsConcat(a: string, b: string)
    requires '<' !in a
    ensures StripTags(a + b) == a + StripTags(b)
    decreases |a|
  {
    if a != [] {
      var s := a + b;
      assert s[0] == a[0] != '<' && s[1..] == a[1..] + b;
      assert StripTags(s) == [a[0]] + StripTags(a[1..] + b);
      StripTagsConcat(a[1..], b);
      assert a == [a[0]] + a[1..];
    } else {
      assert a + b == b;
    }
  }

  /** A complete tag `<...>` is dropped, with nothing else. */
  lemma {:induction false} StripTagsDropsTag(t: string, b: string)
    requires '>' !in t
    ensures StripTags(['<'] + t + ['>'] + b) == StripTags(b)
  {
    var s := ['<'] + t + ['>'] + b;
    var k := |t| + 1;
    assert s[k] == '>' && s[..k] == ['<'] + t;
    assert '>' in s;
    var first := IndexOf(s, '>');
    assert forall j :: 0 <= j < k ==> s[j] == s[..k][j] && s[j] != '>';
    assert forall j :: 0 <= j < first ==> s[j] == s[..first][j] && s[j] != '>';
    assert first == k;
    assert s[k + 1..] == b;
  }

  /** The five entity replacements and `&nbsp;`, in the order the script applies them. */
  function DecodeEntities(s: string): string {
    var s1 := ReplaceAll(s, "&nbsp;", " ");
    var s2 := ReplaceAll(s1, "&amp;", "&");
    var s3 := ReplaceAll(s2, "&lt;", "<");
    var s4 := ReplaceAll(s3, "&gt;", ">");
    var s5 := ReplaceAll(s4, "&quot;", "\"");
    ReplaceAll(s5, "&#39;", "'")
  }

  lemma {:induction false} NbspAbsentStep()
    ensures ReplaceAll("&amp;lt;", "&nbsp;", " ") == "&amp;lt;"
  {
    var s0 := "&amp;lt;";
    assert !Contains(s0, "&nbsp;") by {
      forall i: nat | i <= |s0| ensures !OccursAt(s0, "&nbsp;", i) {
        if i + 6 <= |s0| {
          assert s0[i + 1] != 'n';
        }
      }
    }
    ReplaceAllAbsent(s0, "&nbsp;", " ");
  }

  lemma {:induction false} AmpStep()
    ensures ReplaceAll("&amp;lt;", "&amp;", "&") == "&lt;"
  {
    var s0 := "&amp;lt;";
    assert "&amp;" <= s0;
    assert s0[5..] == "lt;";
    assert !Contains("lt;", "&amp;");
    ReplaceAllAbsent("lt;", "&amp;", "&");
  }

  lemma {:induction false} LtStep()
    ensures ReplaceAll("&lt;", "&lt;", "<") == "<"
  {
    var s := "&lt;";
    assert "&lt;" <= s && s[4..] == [];
  }

  lemma {:induction false} LessThanStaysStep()
    ensures ReplaceAll(ReplaceAll(ReplaceAll("<", "&gt;", ">"), "&quot;", "\""), "&#39;", "'") == "<"
  {
    assert !Contains("<", "&gt;") && !Contains("<", "&quot;") && !Contains("<", "&#39;");
    ReplaceAllAbsent("<", "&gt;", ">");
    ReplaceAllAbsent("<", "&quot;", "\"");
    ReplaceAllAbsent("<", "&#39;", "'");
  }

  /** Because `&amp;` is decoded before `&lt;`, a double-escaped `&amp;lt;` becomes `<`. */
  lemma {:induction false} DoubleEscapedLessThan()
    ensures DecodeEntities("&amp;lt;") == "<"
  {
    NbspAbsentStep();
    AmpStep();
    LtStep();
    LessThanStaysStep();
  }

  /** An entity pattern starts with `&`, so text without `&` holds none. */
  lemma {:induction false} NoAmpNoEntity(s: string, pat: string)
    requires pat != [] && pat[0] == '&' && '&' !in s
    ensures !Contains(s, pat)
  {
    forall i: nat | i <= |s| ensures !OccursAt(s, pat, i) {
      if i + |pat| <= |s| {
        assert s[i..i + |pat|][0] == s[i];
      }
    }
  }

  /** Text without `&` passes entity decoding unchanged. */
  lemma {:induction false} DecodeWithoutAmp(s: string)
    requires '&' !in s
    ensures DecodeEntities(s) == s
  {
    NoAmpNoEntity(s, "&nbsp;");
    ReplaceAllAbsent(s, "&nbsp;", " ");
    NoAmpNoEntity(s, "&amp;");
    ReplaceAllAbsent(s, "&amp;", "&");
    NoAmpNoEntity(s, "&lt;");
    ReplaceAllAbsent(s, "&lt;", "<");
    NoAmpNoEntity(s, "&gt;");
    ReplaceAllAbsent(s, "&gt;", ">");
    NoAmpNoEntity(s, "&quot;");
    ReplaceAllAbsent(s, "&quot;", "\"");
    NoAmpNoEntity(s, "&#39;");
    ReplaceAllAbsent(s, "&#39;", "'");
  }

  /** The `&nbsp;` and `&amp;` passes go past a leading `&lt;`. */
  lemma {:induction false} SkipLessThanEntity(y: string, pat: string, rep: string)
    requires pat == "&nbsp;" || pat == "&amp;"
    ensures ReplaceAll("&lt;" + y, pat, rep) == "&lt;" + ReplaceAll(y, pat, rep)
  {
    var x := "&lt;";
    forall i: nat | i < |x|
      ensures !OccursAt(x + y, pat, i)
    {
      if i + |pat| <= |x + y| {
        var w := (x + y)[i..i + |pat|];
        assert w[0] == x[i];
        if i == 0 {
          assert w[1] == 'l';
        }
      }
    }
    ReplaceAllSkip(x, y, pat, rep);
  }

  /**
   * An encoded `<` after text without `&` is decoded, and decoding goes on
   * after it as if the text began there.
   */
  lemma {:induction false} DecodeLessThanAfterPlain(t: string, u: string)
    requires '&' !in t
    ensures DecodeEntities(t + "&lt;" + u) == t + "<" + DecodeEntities(u)
  {
    var lt := "&lt;";
    var u1 := ReplaceAll(u, "&nbsp;", " ");
    var u2 := ReplaceAll(u1, "&amp;", "&");
    var u3 := ReplaceAll(u2, "&lt;", "<");
    assert t + lt + u == t + (lt + u);
    ReplaceAllSkipPlain(t, lt + u, "&nbsp;", " ");
    SkipLessThanEntity(u, "&nbsp;", " ");
    ReplaceAllSkipPlain(t, lt + u1, "&amp;", "&");
    SkipLessThanEntity(u1, "&amp;", "&");
    ReplaceAllSkipPlain(t, lt + u2, "&lt;", "<");
    ReplaceAllAt(lt + u2, lt, "<", 0);
    assert (lt + u2)[..0] == [] && (lt + u2)[|lt|..] == u2;
    assert t + ([] + "<" + u3) == (t + "<") + u3;
    DecodeTailPasses(t + "<", u3);
  }

  /** The last three passes of `DecodeEntities` go past text without `&`. */
  lemma {:induction false} DecodeTailPasses(p: string, u3: string)
    requires '&' !in p
    ensures var u4 := ReplaceAll(u3, "&gt;", ">");
      var u5 := ReplaceAll(u4, "&quot;", "\"");
      ReplaceAll(ReplaceAll(ReplaceAll(p + u3, "&gt;", ">"), "&quot;", "\""), "&#39;", "'")
        == p + ReplaceAll(u5, "&#39;", "'")
  {
    var u4 := ReplaceAll(u3, "&gt;", ">");
    var u5 := ReplaceAll(u4, "&quot;", "\"");
    ReplaceAllSkipPlain(p, u3, "&gt;", ">");
    ReplaceAllSkipPlain(p, u4, "&quot;", "\"");
    ReplaceAllSkipPlain(p, u5, "&#39;", "'");
  }

  /** An entity is not taken for another one whose second character differs. */
  lemma {:induction false} SkipEntity(e: string, y: string, pat: string, rep: string)
    requires 2 <= |e| && 2 <= |pat| && e[0] == '&' && pat[0] == '&' && e[1] != pat[1]
    requires '&' !in e[1..]
    ensures ReplaceAll(e + y, pat, rep) == e + ReplaceAll(y, pat, rep)
  {
    forall i: nat | i < |e|
      ensures !OccursAt(e + y, pat, i)
    {
      if i + |pat| <= |e + y| {
        var w := (e + y)[i..i + |pat|];
        assert w[0] == e[i] && w[1] == (e + y)[i + 1];
        if i > 0 {
          assert e[i] == e[1..][i - 1];
        }
      }
    }
    ReplaceAllSkip(e, y, pat, rep);
  }

  /** One decoding pass goes past text without `&` and an entity it does not decode. */
  lemma {:induction false} PassOverEntity(t: string, e: string, y: string, pat: string, rep: string)
    requires '&' !in t
    requires 2 <= |e| && 2 <= |pat| && e[0] == '&' && pat[0] == '&' && e[1] != pat[1]
    requires '&' !in e[1..]
    ensures ReplaceAll(t + e + y, pat, rep) == t + e + ReplaceAll(y, pat, rep)
  {
    assert t + e + y == t + (e + y);
    ReplaceAllSkipPlain(t, e + y, pat, rep);
    SkipEntity(e, y, pat, rep);
    assert t + (e + ReplaceAll(y, pat, rep)) == t + e + ReplaceAll(y, pat, rep);
  }

  /** The pass for an entity decodes it when it comes right after text without `&`. */
  lemma {:induction false} PassAtEntity(t: string, e: string, y: string, rep: string)
    requires '&' !in t && e != [] && e[0] == '&'
    ensures ReplaceAll(t + e + y, e, rep) == (t + rep) + ReplaceAll(y, e, rep)
  {
    var s := e + y;
    assert t + e + y == t + s;
    ReplaceAllSkipPlain(t, s, e, rep);
    assert s[0..|e|] == e;
    ReplaceAllAt(s, e, rep, 0);
    assert s[..0] == [] && s[|e|..] == y;
    assert t + ([] + rep + ReplaceAll(y, e, rep)) == (t + rep) + ReplaceAll(y, e, rep);
  }

  /** `&nbsp;` after text without `&` becomes a space, and decoding goes on after it. */
  lemma {:induction false} DecodeSpaceAfterPlain(t: string, u: string)
    requires '&' !in t
    ensures DecodeEntities(t + "&nbsp;" + u) == t + " " + DecodeEntities(u)
  {
    var p := t + " ";
    var u1 := ReplaceAll(u, "&nbsp;", " ");
    var u2 := ReplaceAll(u1, "&amp;", "&");
    PassAtEntity(t, "&nbsp;", u, " ");
    ReplaceAllSkipPlain(p, u1, "&amp;", "&");
    ReplaceAllSkipPlain(p, u2, "&lt;", "<");
    DecodeTailPasses(p, ReplaceAll(u2, "&lt;", "<"));
  }

  /** `&gt;` after text without `&` becomes `>`, and decoding goes on after it. */
  lemma {:induction false} DecodeGreaterThanAfterPlain(t: string, u: string)
    requires '&' !in t
    ensures DecodeEntities(t + "&gt;" + u) == t + ">" + DecodeEntities(u)
  {
    var gt, p := "&gt;", t + ">";
    var u1 := ReplaceAll(u, "&nbsp;", " ");
    var u2 := ReplaceAll(u1, "&amp;", "&");
    var u3 := ReplaceAll(u2, "&lt;", "<");
    var u4 := ReplaceAll(u3, "&gt;", ">");
    var u5 := ReplaceAll(u4, "&quot;", "\"");
    PassOverEntity(t, gt, u, "&nbsp;", " ");
    PassOverEntity(t, gt, u1, "&amp;", "&");
    PassOverEntity(t, gt, u2, "&lt;", "<");
    PassAtEntity(t, gt, u3, ">");
    ReplaceAllSkipPlain(p, u4, "&quot;", "\"");
    ReplaceAllSkipPlain(p, u5, "&#39;", "'");
  }

  /** `&quot;` after text without `&` becomes `"`, and decoding goes on after it. */
  lemma {:induction false} DecodeQuoteAfterPlain(t: string, u: string)
    requires '&' !in t
    ensures DecodeEntities(t + "&quot;" + u) == t + "\"" + DecodeEntities(u)
  {
    var quot, p := "&quot;", t + "\"";
    var u1 := ReplaceAll(u, "&nbsp;", " ");
    var u2 := ReplaceAll(u1, "&amp;", "&");
    var u3 := ReplaceAll(u2, "&lt;", "<");
    var u4 := ReplaceAll(u3, "&gt;", ">");
    var u5 := ReplaceAll(u4, "&quot;", "\"");
    PassOverEntity(t, quot, u, "&nbsp;", " ");
    PassOverEntity(t, quot, u1, "&amp;", "&");
    PassOverEntity(t, quot, u2, "&lt;", "<");
    PassOverEntity(t, quot, u3, "&gt;", ">");
    PassAtEntity(t, quot, u4, "\"");
    ReplaceAllSkipPlain(p, u5, "&#39;", "'");
  }

  /** `&#39;` after text without `&` becomes `'`, and decoding goes on after it. */
  lemma {:induction false} DecodeApostropheAfterPlain(t: string, u: string)
    requires '&' !in t
    ensures DecodeEntities(t + "&#39;" + u) == t + "'" + DecodeEntities(u)
  {
    var apos := "&#39;";
    var u1 := ReplaceAll(u, "&nbsp;", " ");
    var u2 := ReplaceAll(u1, "&amp;", "&");
    var u3 := ReplaceAll(u2, "&lt;", "<");
    var u4 := ReplaceAll(u3, "&gt;", ">");
    var u5 := ReplaceAll(u4, "&quot;", "\"");
    PassOverEntity(t, apos, u, "&nbsp;", " ");
    PassOverEntity(t, apos, u1, "&amp;", "&");
    PassOverEntity(t, apos, u2, "&lt;", "<");
    PassOverEntity(t, apos, u3, "&gt;", ">");
    PassOverEntity(t, apos, u4, "&quot;", "\"");
    PassAtEntity(t, apos, u5, "'");
  }

  /**
   * `&amp;` after text without `&` becomes `&`; when the rest has no `&` and
   * cannot complete the new `&` into another entity, that is the whole effect.
   */
  lemma {:induction false} DecodeAmpersandAfterPlain(t: string, u: string)
    requires '&' !in t && '&' !in u
    requires u == [] || (u[0] != 'l' && u[0] != 'g' && u[0] != 'q' && u[0] != '#')
    ensures DecodeEntities(t + "&amp;" + u) == t + "&" + u
  {
    AmpersandHeadPasses(t, u);
    AmpersandTailPasses(t, u);
    assert t + ("&" + u) == t + "&" + u;
  }

  /** The `&nbsp;` and `&amp;` passes turn `&amp;` after text without `&` into `&`. */
  lemma {:induction false} AmpersandHeadPasses(t: string, u: string)
    requires '&' !in t && '&' !in u
    ensures ReplaceAll(ReplaceAll(t + "&amp;" + u, "&nbsp;", " "), "&amp;", "&") == t + ("&" + u)
  {
    var amp, nbsp := "&amp;", "&nbsp;";
    assert amp[1] == 'a' && nbsp[1] == 'n' && amp[1..] == "amp;";
    NoAmpNoEntity(u, nbsp);
    ReplaceAllAbsent(u, nbsp, " ");
    PassOverEntity(t, amp, u, nbsp, " ");
    var s1 := ReplaceAll(t + amp + u, nbsp, " ");
    assert s1 == t + amp + u;
    NoAmpNoEntity(u, amp);
    ReplaceAllAbsent(u, amp, "&");
    PassAtEntity(t, amp, u, "&");
    PlainAlgebra(ReplaceAll(s1, amp, "&"), t, "&", u);
  }

  lemma {:induction false} PlainAlgebra(whole: string, t: string, c: string, u: string)
    requires whole == (t + c) + u
    ensures whole == t + (c + u)
  {
  }

  /** The last four passes leave a lone `&` that the text after it does not complete. */
  lemma {:induction false} AmpersandTailPasses(t: string, u: string)
    requires '&' !in t && '&' !in u
    requires u == [] || (u[0] != 'l' && u[0] != 'g' && u[0] != 'q' && u[0] != '#')
    ensures var s := t + ("&" + u);
      ReplaceAll(ReplaceAll(ReplaceAll(ReplaceAll(s, "&lt;", "<"), "&gt;", ">"), "&quot;", "\""), "&#39;", "'") == s
  {
    var rest := "&" + u;
    var s := t + rest;
    assert "&lt;"[1] == 'l' && "&gt;"[1] == 'g' && "&quot;"[1] == 'q' && "&#39;"[1] == '#';
    AmpersandLeft(u, "&lt;", "<");
    ReplaceAllSkipPlain(t, rest, "&lt;", "<");
    assert ReplaceAll(s, "&lt;", "<") == s;
    AmpersandLeft(u, "&gt;", ">");
    ReplaceAllSkipPlain(t, rest, "&gt;", ">");
    assert ReplaceAll(s, "&gt;", ">") == s;
    AmpersandLeft(u, "&quot;", "\"");
    ReplaceAllSkipPlain(t, rest, "&quot;", "\"");
    assert ReplaceAll(s, "&quot;", "\"") == s;
    AmpersandLeft(u, "&#39;", "'");
    ReplaceAllSkipPlain(t, rest, "&#39;", "'");
  }

  /** A lone `&` in front of text without `&` is left by a pass whose entity it does not begin. */
  lemma {:induction false} AmpersandLeft(u: string, pat: string, rep: string)
    requires '&' !in u && 2 <= |pat| && pat[0] == '&'
    requires u == [] || u[0] != pat[1]
    ensures ReplaceAll("&" + u, pat, rep) == "&" + u
  {
    var s := "&" + u;
    forall i: nat | i <= |s| ensures !OccursAt(s, pat, i) {
      if i + |pat| <= |s| {
        var w := s[i..i + |pat|];
        assert w[0] == s[i] && w[1] == s[i + 1];
        if i > 0 {
          assert s[i] == u[i - 1];
        }
      }
    }
    ReplaceAllAbsent(s, pat, rep);
  }

  /** No two adjacent characters are both `\s`. */
  predicate NoDoubleSpace(s: string) {
    forall i :: 0 <= i < |s| - 1 ==> !(IsSpace(s[i]) && IsSpace(s[i + 1]))
  }

  /**
   * `replace(/\s+/g, ' ')`: every maximal run of `\s` characters becomes one
   * plain space.
   */
  function CollapseSpaces(s: string): (r: string)
    ensures r == [] <==> s == []
    ensures r != [] ==> (IsSpace(r[0]) <==> IsSpace(s[0]))
    decreases |s|
  {
    if s == [] then []
    else if IsSpace(s[0]) then [' '] + CollapseSpaces(TrimStart(s))
    else [s[0]] + CollapseSpaces(s[1..])
  }

  lemma {:induction false} NoDoubleSpaceCons(c: char, x: string)
    requires NoDoubleSpace(x)
    requires x == [] || !IsSpace(c) || !IsSpace(x[0])
    ensures NoDoubleSpace([c] + x)
  {
    var r := [c] + x;
    forall i | 0 <= i < |r| - 1 ensures !(IsSpace(r[i]) && IsSpace(r[i + 1])) {
      if i > 0 {
        assert r[i] == x[i - 1] && r[i + 1] == x[i];
      }
    }
  }

  /** After collapsing, every `\s` left is a plain space and no two are adjacent. */
  lemma {:induction false} CollapseShape(s: string)
    ensures forall i :: 0 <= i < |CollapseSpaces(s)| && IsSpace(CollapseSpaces(s)[i]) ==> CollapseSpaces(s)[i] == ' '
    ensures NoDoubleSpace(CollapseSpaces(s))
    decreases |s|
  {
    if s != [] {
      var next := if IsSpace(s[0]) then TrimStart(s) else s[1..];
      var c := if IsSpace(s[0]) then ' ' else s[0];
      CollapseShape(next);
      var x := CollapseSpaces(next);
      assert CollapseSpaces(s) == [c] + x;
      NoDoubleSpaceCons(c, x);
      forall i | 0 <= i < |[c] + x| && IsSpace(([c] + x)[i]) ensures ([c] + x)[i] == ' ' {
        if i > 0 {
          assert ([c] + x)[i] == x[i - 1];
        }
      }
    }
  }

  /** The characters of `s` that are not `\s`, in order. */
  function NonSpace(s: string): (r: string)
    ensures forall c :: c in r <==> c in s && !IsSpace(c)
  {
    if s == [] then []
    else (if IsSpace(s[0]) then [] else [s[0]]) + NonSpace(s[1..])
  }

  lemma {:induction false} NonSpaceTrimStart(s: string)
    ensures NonSpace(TrimStart(s)) == NonSpace(s)
    decreases |s|
  {
    if s != [] && IsSpace(s[0]) {
      NonSpaceTrimStart(s[1..]);
    }
  }

  /** Collapsing keeps every character that is not `\s`, in order. */
  lemma {:induction false} CollapseKeepsNonSpace(s: string)
    ensures NonSpace(CollapseSpaces(s)) == NonSpace(s)
    decreases |s|
  {
    if s != [] {
      if IsSpace(s[0]) {
        var rest := CollapseSpaces(TrimStart(s));
        CollapseKeepsNonSpace(TrimStart(s));
        NonSpaceTrimStart(s);
        assert ([' '] + rest)[1..] == rest;
      } else {
        CollapseKeepsNonSpace(s[1..]);
        assert ([s[0]] + CollapseSpaces(s[1..]))[1..] == CollapseSpaces(s[1..]);
      }
    }
  }

  /** Text without `\s` is left as it is. */
  lemma {:induction false} CollapseWithoutSpace(s: string)
    requires forall i :: 0 <= i < |s| ==> !IsSpace(s[i])
    ensures CollapseSpaces(s) == s
    decreases |s|
  {
    if s != [] {
      CollapseWithoutSpace(s[1..]);
    }
  }

  /** A run made only of `\s` becomes a single space. */
  lemma {:induction false} CollapseRun(s: string)
    requires s != [] && forall i :: 0 <= i < |s| ==> IsSpace(s[i])
    ensures CollapseSpaces(s) == " "
  {
    assert TrimStart(s) == [];
  }

  lemma {:induction false} TrimStartConcat(a: string, b: string)
    ensures TrimStart(a) != [] ==> TrimStart(a + b) == TrimStart(a) + b
    ensures TrimStart(a) == [] ==> TrimStart(a + b) == TrimStart(b)
    decreases |a|
  {
    if a == [] {
      assert a + b == b;
    } else if IsSpace(a[0]) {
      assert (a + b)[1..] == a[1..] + b;
      TrimStartConcat(a[1..], b);
    }
  }

  lemma {:induction false} CollapseUnfoldWord(a: string, b: string)
    requires a != [] && !IsSpace(a[0])
    ensures CollapseSpaces(a + b) == [a[0]] + CollapseSpaces(a[1..] + b)
  {
    assert (a + b)[0] == a[0] && (a + b)[1..] == a[1..] + b;
  }

  /** The step of `CollapseConcat` for a first character that is not `\s`. */
  lemma {:induction false} CollapseConsWord(a: string, b: string)
    requires a != [] && !IsSpace(a[0])
    requires CollapseSpaces(a[1..] + b) == CollapseSpaces(a[1..]) + CollapseSpaces(b)
    ensures CollapseSpaces(a + b) == CollapseSpaces(a) + CollapseSpaces(b)
  {
    CollapseUnfoldWord(a, b);
    CollapseUnfoldWord(a, []);
    assert a + [] == a && a[1..] + [] == a[1..];
    CharInFront(a[0], CollapseSpaces(a + b), CollapseSpaces(a), CollapseSpaces(a[1..]), CollapseSpaces(b));
  }

  /** Leading `\s` that make up all of `a` leave `b` as it is, when `b` does not start with `\s`. */
  lemma {:induction false} TrimStartAfterRun(a: string, b: string)
    requires a != [] && forall i :: 0 <= i < |a| ==> IsSpace(a[i])
    requires !(b != [] && IsSpace(a[|a| - 1]) && IsSpace(b[0]))
    ensures TrimStart(a + b) == b
  {
    assert TrimStart(a) == [];
    TrimStartConcat(a, b);
    assert IsSpace(a[|a| - 1]);
  }

  lemma {:induction false} CollapseUnfoldRun(s: string)
    requires s != [] && IsSpace(s[0])
    ensures CollapseSpaces(s) == [' '] + CollapseSpaces(TrimStart(s))
  {
  }

  lemma {:induction false} CollapseUnfoldRunConcat(a: string, b: string)
    requires a != [] && IsSpace(a[0])
    ensures CollapseSpaces(a + b) == [' '] + CollapseSpaces(TrimStart(a + b))
  {
    assert (a + b)[0] == a[0];
    CollapseUnfoldRun(a + b);
  }

  /** The step of `CollapseConcat` for a first character that is `\s`. */
  lemma {:induction false} CollapseConsRun(a: string, b: string)
    requires a != [] && IsSpace(a[0])
    requires !(b != [] && IsSpace(a[|a| - 1]) && IsSpace(b[0]))
    requires TrimStart(a) != [] ==>
      CollapseSpaces(TrimStart(a) + b) == CollapseSpaces(TrimStart(a)) + CollapseSpaces(b)
    ensures CollapseSpaces(a + b) == CollapseSpaces(a) + CollapseSpaces(b)
  {
    if TrimStart(a) == [] {
      CollapseConsWholeRun(a, b);
    } else {
      CollapseConsPartRun(a, b);
    }
  }

  lemma {:induction false} CollapseConsWholeRun(a: string, b: string)
    requires a != [] && forall i :: 0 <= i < |a| ==> IsSpace(a[i])
    requires !(b != [] && IsSpace(a[|a| - 1]) && IsSpace(b[0]))
    ensures CollapseSpaces(a + b) == CollapseSpaces(a) + CollapseSpaces(b)
  {
    assert IsSpace(a[0]) && TrimStart(a) == [];
    var s := a + b;
    assert s[0] == a[0];
    CollapseUnfoldRun(s);
    TrimStartAfterRun(a, b);
    assert CollapseSpaces(s) == [' '] + CollapseSpaces(b);
    CollapseUnfoldRun(a);
    assert CollapseSpaces(a) == [' '] + CollapseSpaces([]) == [' '];
  }

  lemma {:induction false} CollapseConsPartRun(a: string, b: string)
    requires a != [] && IsSpace(a[0]) && TrimStart(a) != []
    requires CollapseSpaces(TrimStart(a) + b) == CollapseSpaces(TrimStart(a)) + CollapseSpaces(b)
    ensures CollapseSpaces(a + b) == CollapseSpaces(a) + CollapseSpaces(b)
  {
    CollapseUnfoldRunConcat(a, b);
    TrimStartConcat(a, b);
    CollapseUnfoldRun(a);
    CharInFront(' ', CollapseSpaces(a + b), CollapseSpaces(a), CollapseSpaces(TrimStart(a)), CollapseSpaces(b));
  }

  /** Sequence algebra for the two steps above, kept apart so the solver meets it on plain variables. */
  lemma {:induction false} CharInFront(c: char, whole: string, first: string, rest: string, second: string)
    requires whole == [c] + (rest + second) && first == [c] + rest
    ensures whole == first + second
  {
    assert [c] + (rest + second) == ([c] + rest) + second;
  }

  /**
   * Collapsing works piece by piece wherever the pieces do not split a run
   * of `\s`: together with the two lemmas above this fixes the result.
   */
  lemma {:induction false} CollapseConcat(a: string, b: string)
    requires !(a != [] && b != [] && IsSpace(a[|a| - 1]) && IsSpace(b[0]))
    ensures CollapseSpaces(a + b) == CollapseSpaces(a) + CollapseSpaces(b)
    decreases |a|
  {
    if a == [] {
      assert a + b == b;
    } else if !IsSpace(a[0]) {
      CollapseConcat(a[1..], b);
      CollapseConsWord(a, b);
    } else {
      var t := TrimStart(a);
      if t != [] {
        assert t[|t| - 1] == a[|a| - 1];
        CollapseConcat(t, b);
      }
      CollapseConsRun(a, b);
    }
  }

  lemma {:induction false} NoDoubleSpaceInfix(s: string, a: nat, b: nat)
    requires NoDoubleSpace(s) && a <= b <= |s|
    ensures NoDoubleSpace(s[a..b])
  {
    forall i | 0 <= i < |s[a..b]| - 1 ensures !(IsSpace(s[a..b][i]) && IsSpace(s[a..b][i + 1])) {
      assert s[a..b][i] == s[a + i] && s[a..b][i + 1] == s[a + i + 1];
    }
  }

  /** Trimming keeps a text free of double spaces and leaves no leading space. */
  lemma {:induction false} TrimKeepsNoDoubleSpace(s: string)
    requires NoDoubleSpace(s)
    ensures NoDoubleSpace(Trim(s)) && (Trim(s) == [] || !IsSpace(Trim(s)[0]))
  {
    var started := TrimStart(s);
    var trimmed := TrimEnd(started);
    NoDoubleSpaceInfix(s, |s| - |started|, |s|);
    NoDoubleSpaceInfix(started, 0, |trimmed|);
    if trimmed != [] {
      assert trimmed[0] == started[0];
    }
  }

  /** Cutting to length keeps a text free of double spaces and keeps its first character. */
  lemma {:induction false} PrefixKeepsNoDoubleSpace(s: string, n: nat)
    requires NoDoubleSpace(s) && (s == [] || !IsSpace(s[0]))
    ensures |Prefix(s, n)| <= n && NoDoubleSpace(Prefix(s, n))
    ensures Prefix(s, n) == [] || !IsSpace(Prefix(s, n)[0])
  {
    NoDoubleSpaceInfix(s, 0, |Prefix(s, n)|);
  }

  /** Trimming and cutting to length keep a text free of double spaces and leave no leading space. */
  lemma {:induction false} TrimmedPrefix(collapsed: string)
    requires NoDoubleSpace(collapsed)
    ensures var r := Prefix(Trim(collapsed), SummaryLimit);
      |r| <= SummaryLimit && (r == [] || !IsSpace(r[0])) && NoDoubleSpace(r)
  {
    TrimKeepsNoDoubleSpace(collapsed);
    PrefixKeepsNoDoubleSpace(Trim(collapsed), SummaryLimit);
  }

  /**
   * `cleanText`: empty or missing input gives `''`; otherwise tags are
   * stripped, entities decoded, whitespace collapsed, the ends trimmed and
   * the result cut to 300 characters.
   */
  function CleanText(html: Option<string>): (r: string)
    ensures |r| <= SummaryLimit
    ensures r == [] || !IsSpace(r[0])
    ensures NoDoubleSpace(r)
    ensures html.None? || html.value == [] ==> r == []
  {
    if html.None? || html.value == [] then []
    else
      var collapsed := CollapseSpaces(DecodeEntities(StripTags(html.value)));
      CollapseShape(DecodeEntities(StripTags(html.value)));
      TrimmedPrefix(collapsed);
      Prefix(Trim(collapsed), SummaryLimit)
  }

  /**
   * A summary of plain words, with no markup, no entity and no whitespace,
   * is only cut to 300 characters.
   */
  lemma {:induction false} CleanTextOfPlainText(s: string)
    requires s != [] && '<' !in s && '&' !in s
    requires forall i :: 0 <= i < |s| ==> !IsSpace(s[i])
    ensures CleanText(Some(s)) == Prefix(s, SummaryLimit)
  {
    StripTagsConcat(s, []);
    assert s + [] == s;
    DecodeWithoutAmp(s);
    CollapseWithoutSpace(s);
    assert TrimStart(s) == s;
    assert TrimEnd(s) == s;
  }

  /**
   * `extractDomain`: `hostOf` stands for the `URL` constructor (`None` when it
   * throws); the host name loses its first `www.`, wherever it occurs.
   */
  function ExtractDomain(url: string, hostOf: string -> Option<string>): string {
    match hostOf(url)
    case None => "Unknown"
    case Some(host) => ReplaceFirst(host, "www.", "")
  }

  lemma {:induction false} ExtractDomainResult(url: string, hostOf: string -> Option<string>)
    ensures hostOf(url).None? ==> ExtractDomain(url, hostOf) == "Unknown"
    ensures hostOf(url).Some? && "www." <= hostOf(url).value ==>
      ExtractDomain(url, hostOf) == hostOf(url).value[4..]
    ensures hostOf(url).Some? && !Contains(hostOf(url).value, "www.") ==>
      ExtractDomain(url, hostOf) == hostOf(url).value
    ensures forall i: nat ::
      hostOf(url).Some? && OccursAt(hostOf(url).value, "www.", i) &&
      (forall j: nat :: j < i ==> !OccursAt(hostOf(url).value, "www.", j)) ==>
      ExtractDomain(url, hostOf) == hostOf(url).value[..i] + hostOf(url).value[i + 4..]
  {
    if hostOf(url).Some? {
      var h := hostOf(url).value;
      if "www." <= h {
        PrefixIsOccurrence(h, "www.");
        ReplaceFirstAt(h, "www.", "", 0);
      }
      if !Contains(h, "www.") {
        ReplaceFirstAbsent(h, "www.", "");
      }
      forall i: nat | OccursAt(h, "www.", i) && (forall j: nat :: j < i ==> !OccursAt(h, "www.", j))
        ensures ExtractDomain(url, hostOf) == h[..i] + h[i + 4..]
      {
        ReplaceFirstAt(h, "www.", "", i);
      }
    }
  }

  /**
   * `normalizeDate`: `parse` stands for `new Date(...)` (`None` for an
   * invalid date); a missing, empty or unparseable date yields `now`.
   */
  function NormalizeDate(dateString: Option<string>, now: int, parse: string -> Option<int>): (t: int)
    ensures t == now || (dateString.Some? && parse(dateString.value) == Some(t))
    ensures dateString.None? || dateString.value == [] || parse(dateString.value).None? ==> t == now
    ensures dateString.Some? && dateString.value != [] && parse(dateString.value).Some? ==>
      t == parse(dateString.value).value
  {
    if dateString.None? || dateString.value == [] then now
    else parse(dateString.value).GetOr(now)
  }
}
