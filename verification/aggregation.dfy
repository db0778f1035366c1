/** The group-by-and-sum fold behind the ledger's reports: items are scanned
    in order, each one is added to the running group with its key, and a key
    seen for the first time opens a new group at the end. */
module Aggregation {
  import opened Seqs

  /** A group's key and the running total of the values filed under it. */
  datatype Group<K> = Group(key: K, total: int)

  function Keys<K>(gs: seq<Group<K>>): (ks: seq<K>)
    ensures |ks| == |gs|
    ensures forall i :: 0 <= i < |gs| ==> ks[i] == gs[i].key
  {
    seq(|gs|, i requires 0 <= i < |gs| => gs[i].key)
  }

  function ItemKeys<K>(items: seq<(K, int)>): (ks: seq<K>)
    ensures |ks| == |items|
    ensures forall i :: 0 <= i < |items| ==> ks[i] == items[i].0
  {
    seq(|items|, i requires 0 <= i < |items| => items[i].0)
  }

  /** Sum of the values of the items filed under key `k`. */
  function SumFor<K(==)>(items: seq<(K, int)>, k: K): int
    decreases |items|
  {
    if |items| == 0 then 0
    else
      var last := items[|items| - 1];
      SumFor(items[..|items| - 1], k) + (if last.0 == k then last.1 else 0)
  }

  /** Sum of the values of all items. */
  function Sum<K>(items: seq<(K, int)>): int
    decreases |items|
  {
    if |items| == 0 then 0 else Sum(items[..|items| - 1]) + items[|items| - 1].1
  }

  /** Sum of the totals of all groups. */
  function SumTotals<K>(gs: seq<Group<K>>): int
    decreases |gs|
  {
    if |gs| == 0 then 0 else SumTotals(gs[..|gs| - 1]) + gs[|gs| - 1].total
  }

  /** Index of the first group with key `k`, or `|gs|` when there is none
      (the `find` on the running result). */
  function KeyIndex<K(==)>(gs: seq<Group<K>>, k: K): (i: nat)
    ensures i <= |gs|
    ensures i < |gs| <==> k in Keys(gs)
    ensures i < |gs| ==> gs[i].key == k
  {
    var i := FirstIndex(gs, (g: Group<K>) => g.key == k);
    assert k in Keys(gs) ==> i < |gs| by {
      if k in Keys(gs) {
        var w :| 0 <= w < |gs| && Keys(gs)[w] == k;
        assert gs[w].key == k;
      }
    }
    i
  }

  /** Files one item: adds its value to the first group with its key, or opens
      a new group at the end when no group has that key yet. */
  function Accumulate<K(==)>(gs: seq<Group<K>>, item: (K, int)): (r: seq<Group<K>>)
    ensures Keys(r) == if item.0 in Keys(gs) then Keys(gs) else Keys(gs) + [item.0]
  {
    var i := KeyIndex(gs, item.0);
    if i < |gs| then gs[i := Group(item.0, gs[i].total + item.1)]
    else gs + [Group(item.0, item.1)]
  }

  /** Groups `items` by key, summing values. The keys come out once each, in
      the order in which they are first met, and each group's total is the sum
      of the values filed under its key. */
  function GroupSum<K(==,!new)>(items: seq<(K, int)>): (r: seq<Group<K>>)
    ensures Keys(r) == Dedup(ItemKeys(items))
    ensures forall i :: 0 <= i < |r| ==> r[i].total == SumFor(items, r[i].key)
    decreases |items|
  {
    if |items| == 0 then []
    else
      var init := items[..|items| - 1];
      var item := items[|items| - 1];
      var g := GroupSum(init);
      var r := Accumulate(g, item);
      AccumulateKeys(items, g);
      AccumulateTotals(items, g);
      r
  }

  /** Filing the last item extends the keys as de-duplication does. */
  lemma AccumulateKeys<K(!new)>(items: seq<(K, int)>, g: seq<Group<K>>)
    requires |items| > 0
    requires Keys(g) == Dedup(ItemKeys(items[..|items| - 1]))
    ensures Keys(Accumulate(g, items[|items| - 1])) == Dedup(ItemKeys(items))
  {
    assert ItemKeys(items)[..|items| - 1] == ItemKeys(items[..|items| - 1]);
  }

  /** Filing the last item keeps every group's total equal to its key's sum. */
  lemma AccumulateTotals<K(!new)>(items: seq<(K, int)>, g: seq<Group<K>>)
    requires |items| > 0
    requires Keys(g) == Dedup(ItemKeys(items[..|items| - 1]))
    requires forall i :: 0 <= i < |g| ==> g[i].total == SumFor(items[..|items| - 1], g[i].key)
    ensures var r := Accumulate(g, items[|items| - 1]);
      forall i :: 0 <= i < |r| ==> r[i].total == SumFor(items, r[i].key)
  {
    var init := items[..|items| - 1];
    var item := items[|items| - 1];
    var r := Accumulate(g, item);
    assert Distinct(Keys(g));
    var i := KeyIndex(g, item.0);
    if i < |g| {
      forall j | 0 <= j < |r| ensures r[j].total == SumFor(items, r[j].key) {
        if j != i {
          assert Keys(g)[j] != Keys(g)[i];
        }
      }
    } else {
      assert item.0 !in ItemKeys(init);
      SumForAbsent(init, item.0);
      forall j | 0 <= j < |r| ensures r[j].total == SumFor(items, r[j].key) {
        if j < |g| {
          assert Keys(g)[j] in Keys(g);
        }
      }
    }
  }

  lemma {:induction false} SumForAbsent<K>(items: seq<(K, int)>, k: K)
    requires k !in ItemKeys(items)
    ensures SumFor(items, k) == 0
    decreases |items|
  {
    if |items| > 0 {
      var init := items[..|items| - 1];
      assert ItemKeys(init) == ItemKeys(items)[..|items| - 1];
      assert ItemKeys(items)[|items| - 1] == items[|items| - 1].0;
      SumForAbsent(init, k);
    }
  }

  /** Grouping neither loses nor invents value: the group totals add up to
      the sum of all item values. */
  lemma {:induction false} GroupSumPreservesSum<K(!new)>(items: seq<(K, int)>)
    ensures SumTotals(GroupSum(items)) == Sum(items)
    decreases |items|
  {
    if |items| > 0 {
      var init := items[..|items| - 1];
      var item := items[|items| - 1];
      var g := GroupSum(init);
      GroupSumPreservesSum(init);
      assert GroupSum(items) == Accumulate(g, item);
      AccumulateAddsValue(g, item);
    }
  }

  lemma AccumulateAddsValue<K>(gs: seq<Group<K>>, item: (K, int))
    ensures SumTotals(Accumulate(gs, item)) == SumTotals(gs) + item.1
  {
    var i := KeyIndex(gs, item.0);
    if i < |gs| {
      SumTotalsUpdate(gs, i, Group(item.0, gs[i].total + item.1));
    } else {
      assert (gs + [Group(item.0, item.1)])[..|gs|] == gs;
    }
  }

  lemma {:induction false} SumTotalsUpdate<K>(gs: seq<Group<K>>, i: nat, x: Group<K>)
    requires i < |gs|
    ensures SumTotals(gs[i := x]) == SumTotals(gs) - gs[i].total + x.total
    decreases |gs|
  {
    var n := |gs|;
    var u := gs[i := x];
    if i == n - 1 {
      assert u[..n - 1] == gs[..n - 1];
    } else {
      assert u[..n - 1] == gs[..n - 1][i := x];
      SumTotalsUpdate(gs[..n - 1], i, x);
    }
  }

  /** Groups drawn from a list with distinct keys, none more often than it
      occurs there, have distinct keys. */
  lemma SubGroupsKeysDistinct<K>(gs: seq<Group<K>>, sub: seq<Group<K>>)
    requires forall i, j :: 0 <= i < j < |gs| ==> gs[i].key != gs[j].key
    requires multiset(sub) <= multiset(gs)
    ensures forall i, j :: 0 <= i < j < |sub| ==> sub[i].key != sub[j].key
  {
    assert Distinct(gs);
    DistinctSubMultiset(gs, sub);
    forall i, j | 0 <= i < j < |sub| ensures sub[i].key != sub[j].key {
      assert sub[i] in multiset(gs) && sub[j] in multiset(gs);
      var a :| 0 <= a < |gs| && gs[a] == sub[i];
      var b :| 0 <= b < |gs| && gs[b] == sub[j];
    }
  }

  /** A group whose key is missing from the top `limit` groups is left out
      only when the list is full, and it ranks no higher than any listed group. */
  /** Asking for as many groups as there are keeps every group's key. */
  lemma TopAllKeepsKeys<K(!new)>(gs: seq<Group<K>>, key: Group<K> -> int, g: Group<K>)
    requires g in gs
    ensures g.key in Keys(TopK(gs, key, |gs|))
  {
    var top := TopK(gs, key, |gs|);
    assert g in multiset(gs);
    assert g in multiset(top);
    var i :| 0 <= i < |top| && top[i] == g;
    assert Keys(top)[i] == g.key;
  }

  lemma TopGroupLeftOut<K(!new)>(gs: seq<Group<K>>, key: Group<K> -> int, limit: nat, g: Group<K>)
    requires g in gs && g.key !in Keys(TopK(gs, key, limit))
    ensures |TopK(gs, key, limit)| == limit
    ensures forall i :: 0 <= i < |TopK(gs, key, limit)| ==> key(g) <= key(TopK(gs, key, limit)[i])
  {
    var top := TopK(gs, key, limit);
    assert g !in top;
    TopKMembers(gs, key, limit);
  }
}
