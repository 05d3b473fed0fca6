/**
 * `Array.prototype.sort` with a comparator that orders by an integer key,
 * largest first (`(a, b) => key(b) - key(a)`), as scripts/fetchFeeds.js uses
 * it twice. ECMAScript requires the sort to be stable, so its result is fully
 * determined: sorted by key, and for every key value the elements carrying
 * it keep their input order. `SortSpec` is a reference definition of that
 * result, `Unique` shows that nothing else satisfies the two properties, and
 * `SortDescending` sorts an array in place and meets `SortSpec`.
 */
module StableSort {

  predicate SortedDesc<T>(s: seq<T>, key: T -> int) {
    forall i, j :: 0 <= i < j < |s| ==> key(s[i]) >= key(s[j])
  }

  /** The elements of `s` whose key is `v`, in order. */
  function WithKey<T>(s: seq<T>, key: T -> int, v: int): seq<T> {
    if s == [] then []
    else (if key(s[0]) == v then [s[0]] else []) + WithKey(s[1..], key, v)
  }

  /** `t` is a stable rearrangement of `s`: every key group keeps its order. */
  ghost predicate SameKeyGroups<T>(s: seq<T>, t: seq<T>, key: T -> int) {
    forall v :: WithKey(s, key, v) == WithKey(t, key, v)
  }

  lemma {:induction false} WithKeyConcat<T>(a: seq<T>, b: seq<T>, key: T -> int, v: int)
    ensures WithKey(a + b, key, v) == WithKey(a, key, v) + WithKey(b, key, v)
  {
    if a != [] {
      assert (a + b)[0] == a[0];
      assert (a + b)[1..] == a[1..] + b;
      WithKeyConcat(a[1..], b, key, v);
    } else {
      assert a + b == b;
    }
  }

  lemma {:induction false} WithKeyMembers<T>(s: seq<T>, key: T -> int, v: int)
    ensures forall x :: x in WithKey(s, key, v) <==> x in s && key(x) == v
  {
    if s != [] {
      WithKeyMembers(s[1..], key, v);
    }
  }

  lemma {:induction false} WithKeyMultiset<T>(s: seq<T>, key: T -> int, v: int)
    ensures forall x :: key(x) == v ==> multiset(WithKey(s, key, v))[x] == multiset(s)[x]
  {
    if s != [] {
      WithKeyMultiset(s[1..], key, v);
      assert s == [s[0]] + s[1..];
    }
  }

  /** Stable rearrangements are permutations. */
  lemma {:induction false} SameKeyGroupsPermutation<T>(s: seq<T>, t: seq<T>, key: T -> int)
    requires SameKeyGroups(s, t, key)
    ensures multiset(s) == multiset(t)
  {
    forall x ensures multiset(s)[x] == multiset(t)[x] {
      WithKeyMultiset(s, key, key(x));
      WithKeyMultiset(t, key, key(x));
      assert WithKey(s, key, key(x)) == WithKey(t, key, key(x));
    }
  }

  /** Swapping two neighbours with different keys keeps every key group. */
  lemma {:induction false} SwapNeighbours<T>(s: seq<T>, j: nat, key: T -> int)
    requires 0 < j < |s| && key(s[j - 1]) != key(s[j])
    ensures SameKeyGroups(s[j - 1 := s[j]][j := s[j - 1]], s, key)
  {
    var t := s[j - 1 := s[j]][j := s[j - 1]];
    var pre, post := s[..j - 1], s[j + 1..];
    assert s == pre + [s[j - 1], s[j]] + post;
    assert t == pre + [s[j], s[j - 1]] + post;
    forall v ensures WithKey(t, key, v) == WithKey(s, key, v) {
      WithKeyConcat(pre + [s[j - 1], s[j]], post, key, v);
      WithKeyConcat(pre, [s[j - 1], s[j]], key, v);
      WithKeyConcat(pre + [s[j], s[j - 1]], post, key, v);
      WithKeyConcat(pre, [s[j], s[j - 1]], key, v);
      assert [s[j - 1], s[j]][1..] == [s[j]];
      assert [s[j], s[j - 1]][1..] == [s[j - 1]];
    }
  }

  /** Inserts `x` into the sorted `s` after every element whose key is at least `key(x)`. */
  function Insert<T>(x: T, s: seq<T>, key: T -> int): seq<T> {
    if s == [] then [x]
    else if key(s[0]) >= key(x) then [s[0]] + Insert(x, s[1..], key)
    else [x] + s
  }

  /** Every element of `s` has a key of at most `k`. */
  predicate KeysAtMost<T>(s: seq<T>, key: T -> int, k: int) {
    forall i :: 0 <= i < |s| ==> key(s[i]) <= k
  }

  lemma {:induction false} InsertSorted<T>(x: T, s: seq<T>, key: T -> int)
    requires SortedDesc(s, key)
    ensures SortedDesc(Insert(x, s, key), key)
    ensures forall k :: KeysAtMost(s, key, k) && key(x) <= k ==> KeysAtMost(Insert(x, s, key), key, k)
  {
    if s != [] && key(s[0]) >= key(x) {
      InsertSorted(x, s[1..], key);
      var rest := Insert(x, s[1..], key);
      assert KeysAtMost(s[1..], key, key(s[0]));
      assert KeysAtMost(rest, key, key(s[0]));
      forall k | KeysAtMost(s, key, k) && key(x) <= k ensures KeysAtMost(Insert(x, s, key), key, k) {
        assert KeysAtMost(s[1..], key, k);
      }
    }
  }

  /** Reference definition of the stable descending sort: insertion of each element in input order. */
  function SortSpec<T>(s: seq<T>, key: T -> int): (r: seq<T>)
    ensures SortedDesc(r, key)
  {
    if s == [] then []
    else
      var sorted := SortSpec(s[..|s| - 1], key);
      InsertSorted(s[|s| - 1], sorted, key);
      Insert(s[|s| - 1], sorted, key)
  }

  lemma {:induction false} NoneWithKey<T>(s: seq<T>, key: T -> int, v: int)
    requires forall i :: 0 <= i < |s| ==> key(s[i]) != v
    ensures WithKey(s, key, v) == []
  {
    if s != [] {
      NoneWithKey(s[1..], key, v);
    }
  }

  lemma {:induction false} InsertGroups<T>(x: T, s: seq<T>, key: T -> int)
    requires SortedDesc(s, key)
    ensures forall v ::
      WithKey(Insert(x, s, key), key, v) == WithKey(s, key, v) + (if key(x) == v then [x] else [])
  {
    if s == [] {
    } else if key(s[0]) >= key(x) {
      InsertGroups(x, s[1..], key);
    } else {
      NoneWithKey(s, key, key(x));
    }
  }

  /** The reference sort is stable. */
  lemma {:induction false} SortSpecStable<T>(s: seq<T>, key: T -> int)
    ensures SameKeyGroups(SortSpec(s, key), s, key)
  {
    if s != [] {
      var p, x := s[..|s| - 1], s[|s| - 1];
      SortSpecStable(p, key);
      InsertGroups(x, SortSpec(p, key), key);
      assert s == p + [x];
      forall v ensures WithKey(SortSpec(s, key), key, v) == WithKey(s, key, v) {
        WithKeyConcat(p, [x], key, v);
      }
    }
  }

  /** The reference sort is a permutation of its input. */
  lemma {:induction false} SortSpecPermutation<T>(s: seq<T>, key: T -> int)
    ensures multiset(SortSpec(s, key)) == multiset(s)
  {
    SortSpecStable(s, key);
    SameKeyGroupsPermutation(SortSpec(s, key), s, key);
  }

  lemma {:induction false} WithKeyHead<T>(s: seq<T>, key: T -> int)
    requires s != []
    ensures WithKey(s, key, key(s[0])) != [] && WithKey(s, key, key(s[0]))[0] == s[0]
  {
  }

  /** In a sorted sequence the first element carries the largest key. */
  lemma {:induction false} HeadKeyIsMax<T>(s: seq<T>, key: T -> int, x: T)
    requires SortedDesc(s, key) && x in s
    ensures key(s[0]) >= key(x)
  {
    var i :| 0 <= i < |s| && s[i] == x;
    if i > 0 {
      assert key(s[0]) >= key(s[i]);
    }
  }

  lemma {:induction false} HeadsAgree<T>(a: seq<T>, b: seq<T>, key: T -> int)
    requires SortedDesc(a, key) && SortedDesc(b, key)
    requires SameKeyGroups(a, b, key)
    requires a != [] && b != []
    ensures a[0] == b[0]
  {
    var ka, kb := key(a[0]), key(b[0]);
    WithKeyHead(a, key);
    WithKeyHead(b, key);
    WithKeyMembers(a, key, kb);
    WithKeyMembers(b, key, ka);
    assert WithKey(a, key, ka) == WithKey(b, key, ka);
    assert WithKey(a, key, kb) == WithKey(b, key, kb);
    assert a[0] in WithKey(b, key, ka);
    HeadKeyIsMax(b, key, a[0]);
    assert b[0] in WithKey(a, key, kb);
    HeadKeyIsMax(a, key, b[0]);
  }

  lemma {:induction false} TailGroups<T>(a: seq<T>, b: seq<T>, key: T -> int)
    requires SameKeyGroups(a, b, key)
    requires a != [] && b != [] && a[0] == b[0]
    ensures SameKeyGroups(a[1..], b[1..], key)
  {
    forall v ensures WithKey(a[1..], key, v) == WithKey(b[1..], key, v) {
      var h := if key(a[0]) == v then [a[0]] else [];
      assert WithKey(a, key, v) == h + WithKey(a[1..], key, v);
      assert WithKey(b, key, v) == h + WithKey(b[1..], key, v);
      assert WithKey(a, key, v) == WithKey(b, key, v);
      assert WithKey(a[1..], key, v) == (h + WithKey(a[1..], key, v))[|h|..];
      assert WithKey(b[1..], key, v) == (h + WithKey(b[1..], key, v))[|h|..];
    }
  }

  lemma {:induction false} OnlyEmptyMatchesEmpty<T>(a: seq<T>, b: seq<T>, key: T -> int)
    requires SameKeyGroups(a, b, key) && b == []
    ensures a == []
  {
    if a != [] {
      WithKeyHead(a, key);
    }
  }

  /** A sorted, stable rearrangement is unique: any stable sort agrees with `SortSpec`. */
  lemma {:induction false} Unique<T>(a: seq<T>, b: seq<T>, key: T -> int)
    requires SortedDesc(a, key) && SortedDesc(b, key)
    requires SameKeyGroups(a, b, key)
    ensures a == b
    decreases |a|
  {
    if b == [] {
      OnlyEmptyMatchesEmpty(a, b, key);
    } else if a == [] {
      OnlyEmptyMatchesEmpty(b, a, key);
    } else {
      HeadsAgree(a, b, key);
      TailGroups(a, b, key);
      Unique(a[1..], b[1..], key);
      assert a == [a[0]] + a[1..] && b == [b[0]] + b[1..];
    }
  }

  /**
   * One step of the insertion sort: moves `a[i]` left past the elements of
   * the sorted prefix `a[..i]` whose key is strictly smaller, by neighbour swaps.
   */
  method InsertIntoPrefix<T>(a: array<T>, i: nat, key: T -> int)
    requires i < a.Length
    requires forall p, q :: 0 <= p < q < i ==> key(a[p]) >= key(a[q])
    modifies a
    ensures forall p, q :: 0 <= p < q <= i ==> key(a[p]) >= key(a[q])
    ensures a[i + 1..] == old(a[i + 1..])
    ensures SameKeyGroups(a[..], old(a[..]), key)
  {
    var j := i;
    while j > 0 && key(a[j - 1]) < key(a[j])
      invariant 0 <= j <= i
      invariant forall p, q :: 0 <= p < q <= i && p != j && q != j ==> key(a[p]) >= key(a[q])
      invariant forall q :: j < q <= i ==> key(a[j]) > key(a[q])
      invariant a[i + 1..] == old(a[i + 1..])
      invariant SameKeyGroups(a[..], old(a[..]), key)
    {
      ghost var before := a[..];
      a[j - 1], a[j] := a[j], a[j - 1];
      assert a[..] == before[j - 1 := before[j]][j := before[j - 1]];
      SwapNeighbours(before, j, key);
      j := j - 1;
    }
  }

  /**
   * In-place stable sort by descending key: insertion sort by neighbour swaps,
   * moving an element left only past elements with a strictly smaller key.
   */
  method SortDescending<T>(a: array<T>, key: T -> int)
    modifies a
    ensures a[..] == SortSpec(old(a[..]), key)
  {
    ghost var original := a[..];
    var i := 0;
    while i < a.Length
      invariant 0 <= i <= a.Length
      invariant forall p, q :: 0 <= p < q < i ==> key(a[p]) >= key(a[q])
      invariant SameKeyGroups(a[..], original, key)
    {
      InsertIntoPrefix(a, i, key);
      i := i + 1;
    }
    SortSpecStable(original, key);
    Unique(a[..], SortSpec(original, key), key);
  }
}
