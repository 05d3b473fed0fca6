/**
 * The JavaScript string built-ins the feed script relies on, on strings of
 * Unicode scalar values: ASCII `toLowerCase`, the `\s` class, `includes`,
 * `replace` with a string pattern (first occurrence), `replace` with a global
 * literal pattern, `trim` and `substring(0, n)`.
 */
module JsStrings {

  /** `toLowerCase` restricted to ASCII letters. */
  function LowerChar(c: char): char {
    if 'A' <= c <= 'Z' then (c as int + 32) as char else c
  }

  function Lower(s: string): (r: string)
    ensures |r| == |s|
    ensures forall i :: 0 <= i < |s| ==> r[i] == LowerChar(s[i])
  {
    seq(|s|, i requires 0 <= i < |s| => LowerChar(s[i]))
  }

  lemma {:induction false} LowerIdempotent(s: string)
    ensures Lower(Lower(s)) == Lower(s)
  {
  }

  lemma {:induction false} LowerConcat(a: string, b: string)
    ensures Lower(a + b) == Lower(a) + Lower(b)
  {
  }

  /**
   * The members of the regular-expression class `\s`: the ECMAScript
   * WhiteSpace and LineTerminator code points. `trim` strips the same set.
   */
  predicate IsSpace(c: char) {
    || c == '\t' || c == '\n' || c == '\U{B}' || c == '\U{C}' || c == '\r' || c == ' '
    || c == '\U{A0}' || c == '\U{1680}' || ('\U{2000}' <= c <= '\U{200A}')
    || c == '\U{2028}' || c == '\U{2029}' || c == '\U{202F}' || c == '\U{205F}'
    || c == '\U{3000}' || c == '\U{FEFF}'
  }

  /** `pat` occurs in `text` starting at offset `i`. */
  predicate OccursAt(text: string, pat: string, i: nat) {
    i + |pat| <= |text| && text[i..i + |pat|] == pat
  }

  /** `text.includes(pat)`: `pat` occurs in `text` at some offset. */
  predicate Contains(text: string, pat: string) {
    exists i: nat | i <= |text| :: OccursAt(text, pat, i)
  }

  /** `s.replace(pat, rep)` with a string pattern: only the first occurrence is replaced. */
  function ReplaceFirst(s: string, pat: string, rep: string): string
    decreases |s|
  {
    if pat <= s then rep + s[|pat|..]
    else if s == [] then []
    else [s[0]] + ReplaceFirst(s[1..], pat, rep)
  }

  /** `s.replace(/pat/g, rep)` for a pattern without metacharacters: left to right, non-overlapping. */
  function ReplaceAll(s: string, pat: string, rep: string): string
    requires pat != []
    decreases |s|
  {
    if s == [] then []
    else if pat <= s then rep + ReplaceAll(s[|pat|..], pat, rep)
    else [s[0]] + ReplaceAll(s[1..], pat, rep)
  }

  /** Drops the leading run of `\s` characters. */
  function TrimStart(s: string): (r: string)
    ensures |r| <= |s| && r == s[|s| - |r|..]
    ensures r == [] || !IsSpace(r[0])
    ensures forall i :: 0 <= i < |s| - |r| ==> IsSpace(s[i])
  {
    if s != [] && IsSpace(s[0]) then
      var r := TrimStart(s[1..]);
      TrimStartShift(s, r);
      r
    else s
  }

  /** What holds of the tail after a leading `\s` holds of the whole. */
  lemma {:induction false} TrimStartShift(s: string, r: string)
    requires s != [] && IsSpace(s[0])
    requires |r| <= |s| - 1 && r == s[1..][|s| - 1 - |r|..]
    requires forall i :: 0 <= i < |s| - 1 - |r| ==> IsSpace(s[1..][i])
    ensures r == s[|s| - |r|..]
    ensures forall i :: 0 <= i < |s| - |r| ==> IsSpace(s[i])
  {
    assert s[1..][|s| - 1 - |r|..] == s[|s| - |r|..];
    forall i | 0 <= i < |s| - |r|
      ensures IsSpace(s[i])
    {
      if i > 0 {
        assert s[i] == s[1..][i - 1];
      }
    }
  }

  /** Drops the trailing run of `\s` characters. */
  function TrimEnd(s: string): (r: string)
    ensures |r| <= |s| && r == s[..|r|]
    ensures r == [] || !IsSpace(r[|r| - 1])
    ensures forall i :: |r| <= i < |s| ==> IsSpace(s[i])
  {
    if s != [] && IsSpace(s[|s| - 1]) then TrimEnd(s[..|s| - 1]) else s
  }

  /** `r` is `s[k..k + |r|]`, and everything of `s` around it is `\s`. */
  predicate MiddleAt(s: string, r: string, k: nat) {
    && k + |r| <= |s|
    && r == s[k..k + |r|]
    && (forall i :: 0 <= i < k ==> IsSpace(s[i]))
    && (forall i :: k + |r| <= i < |s| ==> IsSpace(s[i]))
  }

  /** `s.trim()`: the middle of `s`, between a dropped prefix and a dropped suffix of `\s` characters. */
  function Trim(s: string): (r: string)
    ensures r == [] || (!IsSpace(r[0]) && !IsSpace(r[|r| - 1]))
    ensures exists k: nat :: MiddleAt(s, r, k)
  {
    TrimMiddle(s);
    TrimEnd(TrimStart(s))
  }

  lemma {:induction false} TrimMiddle(s: string)
    ensures var t := TrimStart(s);
      MiddleAt(s, TrimEnd(t), |s| - |t|)
    ensures var r := TrimEnd(TrimStart(s));
      r == [] || (!IsSpace(r[0]) && !IsSpace(r[|r| - 1]))
  {
    var t := TrimStart(s);
    MiddleOfDrop(s, t, TrimEnd(t), |s| - |t|);
  }

  /** A prefix `r` of the suffix `t == s[k..]` sits at `k` in `s`. */
  lemma {:induction false} MiddleOfDrop(s: string, t: string, r: string, k: nat)
    requires k <= |s| && t == s[k..] && |r| <= |t| && r == t[..|r|]
    requires forall i :: 0 <= i < k ==> IsSpace(s[i])
    requires forall i :: |r| <= i < |t| ==> IsSpace(t[i])
    requires t == [] || !IsSpace(t[0])
    requires r == [] || !IsSpace(r[|r| - 1])
    ensures MiddleAt(s, r, k)
    ensures r == [] || (!IsSpace(r[0]) && !IsSpace(r[|r| - 1]))
  {
    if r != [] {
      assert r[0] == t[0];
    }
    assert r == s[k..k + |r|];
    forall i | k + |r| <= i < |s|
      ensures IsSpace(s[i])
    {
      assert s[i] == t[i - k];
    }
  }

  /** `s.substring(0, n)`: the first `n` characters, or all of `s` when it is shorter. */
  function Prefix(s: string, n: nat): (r: string)
    ensures |r| == if |s| <= n then |s| else n
    ensures r == s[..|r|]
  {
    if |s| <= n then s else s[..n]
  }

  lemma {:induction false} PrefixIsOccurrence(s: string, pat: string)
    ensures pat <= s <==> OccursAt(s, pat, 0)
  {
  }

  /** An occurrence in the tail is an occurrence in the whole, one place further on. */
  lemma {:induction false} OccursInTail(s: string, pat: string, j: nat)
    requires s != []
    ensures OccursAt(s[1..], pat, j) <==> OccursAt(s, pat, j + 1)
  {
    if j + |pat| <= |s[1..]| {
      assert s[1..][j..j + |pat|] == s[j + 1..j + 1 + |pat|];
    }
  }

  /** `replace` with a string pattern removes exactly the first occurrence. */
  lemma {:induction false} ReplaceFirstAt(s: string, pat: string, rep: string, i: nat)
    requires OccursAt(s, pat, i)
    requires forall j: nat :: j < i ==> !OccursAt(s, pat, j)
    ensures ReplaceFirst(s, pat, rep) == s[..i] + rep + s[i + |pat|..]
    decreases i
  {
    PrefixIsOccurrence(s, pat);
    if i > 0 {
      assert !OccursAt(s, pat, 0);
      var tail := s[1..];
      forall j: nat | j < i - 1 ensures !OccursAt(tail, pat, j) {
        OccursInTail(s, pat, j);
      }
      OccursInTail(s, pat, i - 1);
      ReplaceFirstAt(tail, pat, rep, i - 1);
      ReplaceFirstStep(s, pat, rep, i);
    }
  }

  /** The step of `ReplaceFirstAt`: the first character goes in front of the tail's replacement. */
  lemma {:induction false} ReplaceFirstStep(s: string, pat: string, rep: string, i: nat)
    requires 0 < i && i + |pat| <= |s| && !(pat <= s)
    requires ReplaceFirst(s[1..], pat, rep) == s[1..][..i - 1] + rep + s[1..][i - 1 + |pat|..]
    ensures ReplaceFirst(s, pat, rep) == s[..i] + rep + s[i + |pat|..]
  {
    assert s[1..][..i - 1] == s[1..i];
    assert s[1..][i - 1 + |pat|..] == s[i + |pat|..];
    assert [s[0]] + (s[1..i] + rep + s[i + |pat|..]) == s[..i] + rep + s[i + |pat|..];
  }

  /** Without an occurrence of the pattern, `replace` leaves the string as it is. */
  lemma {:induction false} ReplaceFirstAbsent(s: string, pat: string, rep: string)
    requires !Contains(s, pat)
    ensures ReplaceFirst(s, pat, rep) == s
    decreases |s|
  {
    PrefixIsOccurrence(s, pat);
    assert !OccursAt(s, pat, 0);
    if s != [] {
      AbsentInTail(s, pat);
      ReplaceFirstAbsent(s[1..], pat, rep);
      assert [s[0]] + s[1..] == s;
    }
  }

  /** A pattern absent from a string is absent from its tail. */
  lemma {:induction false} AbsentInTail(s: string, pat: string)
    requires s != [] && !Contains(s, pat)
    ensures !Contains(s[1..], pat)
  {
    forall j: nat | j <= |s[1..]|
      ensures !OccursAt(s[1..], pat, j)
    {
      OccursInTail(s, pat, j);
    }
  }


  /** A global replace passes over a part in which no occurrence starts. */
  lemma {:induction false} ReplaceAllSkip(x: string, y: string, pat: string, rep: string)
    requires pat != []
    requires forall i: nat :: i < |x| ==> !OccursAt(x + y, pat, i)
    ensures ReplaceAll(x + y, pat, rep) == x + ReplaceAll(y, pat, rep)
    decreases |x|
  {
    if x == [] {
      assert x + y == y;
    } else {
      var s := x + y;
      PrefixIsOccurrence(s, pat);
      assert !OccursAt(s, pat, 0);
      assert s[0] == x[0] && s[1..] == x[1..] + y;
      forall i: nat | i < |x[1..]|
        ensures !OccursAt(x[1..] + y, pat, i)
      {
        OccursInTail(s, pat, i);
      }
      ReplaceAllSkip(x[1..], y, pat, rep);
      assert [x[0]] + (x[1..] + ReplaceAll(y, pat, rep)) == x + ReplaceAll(y, pat, rep);
    }
  }

  /**
   * A global replace keeps everything before the first occurrence, replaces
   * that occurrence and goes on after it.
   */
  lemma {:induction false} ReplaceAllAt(s: string, pat: string, rep: string, i: nat)
    requires pat != [] && OccursAt(s, pat, i)
    requires forall j: nat :: j < i ==> !OccursAt(s, pat, j)
    ensures ReplaceAll(s, pat, rep) == s[..i] + rep + ReplaceAll(s[i + |pat|..], pat, rep)
  {
    var x, y, rest := s[..i], s[i..], s[i + |pat|..];
    assert s == x + y;
    ReplaceAllSkip(x, y, pat, rep);
    assert pat <= y && y[|pat|..] == rest by {
      assert y[..|pat|] == s[i..i + |pat|];
    }
    ReplaceAllOccurrence(y, pat, rep, rest);
    var done, tail := ReplaceAll(s, pat, rep), ReplaceAll(y, pat, rep);
    PrependReplaced(done, x, tail, rep, ReplaceAll(rest, pat, rep));
  }

  /** One unfolding of a global replace at a leading occurrence. */
  lemma {:induction false} ReplaceAllOccurrence(y: string, pat: string, rep: string, rest: string)
    requires pat != [] && pat <= y && y[|pat|..] == rest
    ensures ReplaceAll(y, pat, rep) == rep + ReplaceAll(rest, pat, rep)
  {
  }

  lemma {:induction false} PrependReplaced(done: string, x: string, tail: string, rep: string, after: string)
    requires done == x + tail && tail == rep + after
    ensures done == x + rep + after
  {
  }

  /** No occurrence of a pattern starting with `&` begins inside text without `&`. */
  lemma {:induction false} ReplaceAllSkipPlain(t: string, y: string, pat: string, rep: string)
    requires pat != [] && pat[0] == '&' && '&' !in t
    ensures ReplaceAll(t + y, pat, rep) == t + ReplaceAll(y, pat, rep)
  {
    forall i: nat | i < |t|
      ensures !OccursAt(t + y, pat, i)
    {
      if i + |pat| <= |t + y| {
        assert (t + y)[i..i + |pat|][0] == t[i];
      }
    }
    ReplaceAllSkip(t, y, pat, rep);
  }

  /** Without an occurrence of the pattern, a global replace leaves the string as it is. */
  lemma {:induction false} ReplaceAllAbsent(s: string, pat: string, rep: string)
    requires pat != [] && !Contains(s, pat)
    ensures ReplaceAll(s, pat, rep) == s
    decreases |s|
  {
    PrefixIsOccurrence(s, pat);
    assert !OccursAt(s, pat, 0);
    if s != [] {
      AbsentInTail(s, pat);
      ReplaceAllAbsent(s[1..], pat, rep);
      assert [s[0]] + s[1..] == s;
    }
  }
}
