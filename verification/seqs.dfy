/** Generic sequence utilities shared by the ledger's lookups and reports:
    first-match search, order-preserving filtering, first-occurrence
    de-duplication and a stable descending sort with its top-k prefix. */
module Seqs {

  function Min(a: int, b: int): int
  {
    if a <= b then a else b
  }

  /** Index of the first element satisfying `p`, or `|xs|` when none does
      (the row a repository `findOne` returns). */
  function FirstIndex<T>(xs: seq<T>, p: T -> bool): (i: nat)
    ensures i <= |xs|
    ensures i < |xs| ==> p(xs[i])
    ensures forall j :: 0 <= j < i ==> !p(xs[j])
    decreases |xs|
  {
    if |xs| == 0 then 0
    else if p(xs[0]) then 0
    else
      var i := 1 + FirstIndex(xs[1..], p);
      assert forall j :: 1 <= j < i ==> xs[j] == xs[1..][j - 1];
      i
  }

  /** Position of the first occurrence of `x` in `xs` (`|xs|` if absent). */
  function Position<T(==)>(xs: seq<T>, x: T): nat
  {
    FirstIndex(xs, (y: T) => y == x)
  }

  /** The elements of `xs` that satisfy `p`, in their original order. */
  function Filter<T(!new)>(xs: seq<T>, p: T -> bool): (r: seq<T>)
    ensures |r| <= |xs|
    ensures forall x :: x in r <==> x in xs && p(x)
    decreases |xs|
  {
    if |xs| == 0 then []
    else
      var init := xs[..|xs| - 1];
      var last := xs[|xs| - 1];
      assert xs == init + [last];
      var r := Filter(init, p);
      if p(last) then r + [last] else r
  }

  /** Filtering never repeats an element: each one is kept at most as often
      as it occurs. */
  lemma {:induction false} FilterSubMultiset<T(!new)>(xs: seq<T>, p: T -> bool)
    ensures multiset(Filter(xs, p)) <= multiset(xs)
    decreases |xs|
  {
    if |xs| > 0 {
      var init := xs[..|xs| - 1];
      var last := xs[|xs| - 1];
      assert xs == init + [last];
      FilterSubMultiset(init, p);
    }
  }

  lemma {:induction false} FilterConcat<T(!new)>(a: seq<T>, b: seq<T>, p: T -> bool)
    ensures Filter(a + b, p) == Filter(a, p) + Filter(b, p)
    decreases |b|
  {
    if |b| == 0 {
      assert a + b == a;
    } else {
      var b' := b[..|b| - 1];
      var last := b[|b| - 1];
      var tail := if p(last) then [last] else [];
      assert Filter(a + b, p) == Filter(a + b', p) + tail by {
        var ab := a + b;
        assert ab[..|ab| - 1] == a + b';
        assert ab[|ab| - 1] == last;
      }
      assert Filter(b, p) == Filter(b', p) + tail by {
        assert b[..|b| - 1] == b';
      }
      FilterConcat(a, b', p);
      assert Filter(a, p) + (Filter(b', p) + tail) == (Filter(a, p) + Filter(b', p)) + tail;
    }
  }

  /** Filtering keeps everything exactly when every element passes, and
      otherwise removes at least one element. */
  lemma {:induction false} FilterKeepsAll<T(!new)>(xs: seq<T>, p: T -> bool)
    ensures Filter(xs, p) == xs <==> forall i :: 0 <= i < |xs| ==> p(xs[i])
    ensures |Filter(xs, p)| == |xs| <==> Filter(xs, p) == xs
    decreases |xs|
  {
    if |xs| > 0 {
      var init := xs[..|xs| - 1];
      assert xs == init + [xs[|xs| - 1]];
      FilterKeepsAll(init, p);
    }
  }

  /** Filtering leaves nothing when no element passes. */
  lemma {:induction false} FilterDropsAll<T(!new)>(xs: seq<T>, p: T -> bool)
    requires forall i :: 0 <= i < |xs| ==> !p(xs[i])
    ensures Filter(xs, p) == []
    decreases |xs|
  {
    if |xs| > 0 {
      FilterDropsAll(xs[..|xs| - 1], p);
    }
  }

  /** The first `n` elements of `xs`, or all of them when there are fewer. */
  function Take<T>(xs: seq<T>, n: nat): (r: seq<T>)
    ensures |r| == Min(n, |xs|)
    ensures r == xs[..|r|]
  {
    if n <= |xs| then xs[..n] else xs
  }

  predicate Distinct<T(==)>(xs: seq<T>)
  {
    forall i, j :: 0 <= i < j < |xs| ==> xs[i] != xs[j]
  }

  /** The distinct elements of `xs`, each kept where it first occurs. */
  function Dedup<T(==,!new)>(xs: seq<T>): (r: seq<T>)
    ensures forall x :: x in r <==> x in xs
    ensures forall i, j :: 0 <= i < j < |r| ==> Position(xs, r[i]) < Position(xs, r[j])
    ensures Distinct(r)
    decreases |xs|
  {
    if |xs| == 0 then []
    else
      var init := xs[..|xs| - 1];
      var last := xs[|xs| - 1];
      assert xs == init + [last];
      var d := Dedup(init);
      PositionInPrefix(init, last);
      assert forall x :: x in init ==> Position(xs, x) == Position(init, x) < |init| by {
        forall x | x in init
          ensures Position(xs, x) == Position(init, x) < |init|
        {
          PositionInPrefix(init, last);
        }
      }
      if last in d then d else d + [last]
  }

  /** Appending an element does not move the first occurrence of anything
      already present, and puts a new element at the end. */
  lemma PositionInPrefix<T>(init: seq<T>, last: T)
    ensures forall x :: x in init ==> Position(init + [last], x) == Position(init, x) < |init|
    ensures last !in init ==> Position(init + [last], last) == |init|
  {
    var xs := init + [last];
    forall x | x in init
      ensures Position(xs, x) == Position(init, x) < |init|
    {
      var k := Position(init, x);
      var i := Position(xs, x);
      assert k < |init| by {
        var w :| 0 <= w < |init| && init[w] == x;
        assert xs[w] == x;
      }
      assert xs[k] == init[k];
      assert forall j :: 0 <= j < k ==> xs[j] == init[j];
    }
    if last !in init {
      assert xs[|init|] == last;
      assert forall j :: 0 <= j < |init| ==> xs[j] == init[j];
    }
  }

  /** Every element's key is at least that of every later element. */
  predicate SortedDesc<T>(xs: seq<T>, key: T -> int)
  {
    forall i, j :: 0 <= i < j < |xs| ==> key(xs[i]) >= key(xs[j])
  }

  /** Inserts `x` after every element whose key is at least `key(x)`. */
  function InsertDesc<T>(x: T, xs: seq<T>, key: T -> int): (r: seq<T>)
    requires SortedDesc(xs, key)
    ensures SortedDesc(r, key)
    ensures multiset(r) == multiset(xs) + multiset{x}
    decreases |xs|
  {
    if |xs| == 0 then [x]
    else if key(x) > key(xs[0]) then [x] + xs
    else
      var tail := xs[1..];
      assert xs == [xs[0]] + tail;
      var rest := InsertDesc(x, tail, key);
      assert forall j :: 0 <= j < |rest| ==> key(xs[0]) >= key(rest[j]) by {
        forall j | 0 <= j < |rest|
          ensures key(xs[0]) >= key(rest[j])
        {
          assert rest[j] in multiset(rest);
          if rest[j] != x {
            assert rest[j] in multiset(tail);
            var k :| 0 <= k < |tail| && tail[k] == rest[j];
            assert xs[k + 1] == rest[j];
          }
        }
      }
      [xs[0]] + rest
  }

  /** A stable sort by descending key. */
  function SortDesc<T>(xs: seq<T>, key: T -> int): (r: seq<T>)
    ensures SortedDesc(r, key)
    ensures multiset(r) == multiset(xs)
    ensures |r| == |xs|
    decreases |xs|
  {
    if |xs| == 0 then []
    else
      var init := xs[..|xs| - 1];
      assert xs == init + [xs[|xs| - 1]];
      var r := InsertDesc(xs[|xs| - 1], SortDesc(init, key), key);
      assert |r| == |multiset(r)|;
      r
  }

  /** The (at most) `k` elements of `xs` with the largest keys, largest first:
      anything left out has a key no larger than any kept element. */
  function TopK<T(!new)>(xs: seq<T>, key: T -> int, k: nat): (r: seq<T>)
    ensures |r| == Min(k, |xs|)
    ensures multiset(r) <= multiset(xs)
    ensures SortedDesc(r, key)
    ensures forall y :: y in xs && y !in r ==> forall i :: 0 <= i < |r| ==> key(y) <= key(r[i])
    ensures |xs| <= k ==> multiset(r) == multiset(xs)
  {
    var sorted := SortDesc(xs, key);
    var r := Take(sorted, k);
    TakeOfSorted(xs, sorted, r, key);
    assert |xs| <= k ==> r == sorted;
    r
  }

  /** Everything the top-k list holds comes from `xs`, and it leaves an
      element of `xs` out only when it is full. */
  lemma TopKMembers<T(!new)>(xs: seq<T>, key: T -> int, k: nat)
    ensures forall y :: y in TopK(xs, key, k) ==> y in xs
    ensures forall y :: y in xs && y !in TopK(xs, key, k) ==> |TopK(xs, key, k)| == k
  {
    var r := TopK(xs, key, k);
    forall y | y in r ensures y in xs {
      assert y in multiset(r);
    }
    forall y | y in xs && y !in r ensures |r| == k {
      assert y in multiset(xs);
    }
  }

  lemma TakeOfSorted<T(!new)>(xs: seq<T>, sorted: seq<T>, r: seq<T>, key: T -> int)
    requires SortedDesc(sorted, key) && multiset(sorted) == multiset(xs)
    requires |r| <= |sorted| && r == sorted[..|r|]
    ensures multiset(r) <= multiset(xs)
    ensures SortedDesc(r, key)
    ensures forall y :: y in xs && y !in r ==> forall i :: 0 <= i < |r| ==> key(y) <= key(r[i])
  {
    assert multiset(r) <= multiset(xs) by {
      assert sorted == r + sorted[|r|..];
    }
    PrefixIsTop(sorted, |r|, key);
    forall y | y in xs ensures y in sorted {
      assert y in multiset(xs);
    }
  }

  /** In a sequence sorted by descending key, an element outside a prefix has
      a key no larger than any element of the prefix. */
  lemma PrefixIsTop<T>(sorted: seq<T>, n: nat, key: T -> int)
    requires SortedDesc(sorted, key)
    requires n <= |sorted|
    ensures forall y :: y in sorted && y !in sorted[..n] ==> forall i :: 0 <= i < n ==> key(y) <= key(sorted[i])
  {
    forall y, i | y in sorted && y !in sorted[..n] && 0 <= i < n
      ensures key(y) <= key(sorted[i])
    {
      var j :| 0 <= j < |sorted| && sorted[j] == y;
    }
  }

  /** Taking elements from a sequence without repeats, no more often than
      they occur there, yields a sequence without repeats. */
  lemma DistinctSubMultiset<T>(xs: seq<T>, ys: seq<T>)
    requires Distinct(xs)
    requires multiset(ys) <= multiset(xs)
    ensures Distinct(ys)
  {
    forall i, j | 0 <= i < j < |ys| ensures ys[i] != ys[j] {
      if ys[i] == ys[j] {
        assert ys == ys[..j] + [ys[j]] + ys[j + 1..];
        assert ys[i] in ys[..j];
        assert multiset(ys)[ys[i]] >= 2;
        DistinctOccursOnce(xs, ys[i]);
        assert false;
      }
    }
  }

  lemma {:induction false} DistinctOccursOnce<T>(xs: seq<T>, x: T)
    requires Distinct(xs)
    ensures multiset(xs)[x] <= 1
    decreases |xs|
  {
    if |xs| > 0 {
      var init := xs[..|xs| - 1];
      assert xs == init + [xs[|xs| - 1]];
      DistinctOccursOnce(init, x);
      if x == xs[|xs| - 1] {
        assert x !in init;
      }
    }
  }

  /** No two elements of `xs` have the same key. */
  ghost predicate KeysDistinct<T, K>(xs: seq<T>, key: T -> K)
  {
    forall i, j :: 0 <= i < j < |xs| ==> key(xs[i]) != key(xs[j])
  }

  /** Filtering keeps a sequence free of two elements with the same key. */
  lemma {:induction false} FilterKeepsKeysDistinct<T(!new), K>(xs: seq<T>, p: T -> bool, key: T -> K)
    requires KeysDistinct(xs, key)
    ensures KeysDistinct(Filter(xs, p), key)
    decreases |xs|
  {
    if |xs| > 0 {
      var init := xs[..|xs| - 1];
      var last := xs[|xs| - 1];
      var f := Filter(init, p);
      FilterKeepsKeysDistinct(init, p, key);
      if p(last) {
        var r := f + [last];
        assert Filter(xs, p) == r;
        forall i, j | 0 <= i < j < |r| ensures key(r[i]) != key(r[j]) {
          if j == |f| {
            assert r[i] in init;
            var k :| 0 <= k < |init| && init[k] == r[i];
            assert xs[k] == r[i];
          }
        }
      } else {
        assert Filter(xs, p) == f;
      }
    }
  }
}
