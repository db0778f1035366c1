/** The read side of the transaction ledger: the five most recent
    transactions, the transactions of a date window, the totals per
    (currency, category type), and the categories used most often per type. */
module TransactionQueries {
  import opened Seqs
  import opened Model
  import opened Aggregation
  import Categories
  import Transactions

  /** How many transactions the most-recent listing returns. */
  const RecentLimit: nat := 5

  function DateOf(t: Transaction): int
  {
    t.date
  }

  /** The user's transactions, latest date first, at most `RecentLimit` of
      them; a transaction left out is dated no later than any listed one. */
  function FindMostRecentTransactions(s: Store, userId: nat): (r: seq<Transaction>)
    ensures |r| == Min(RecentLimit, |Transactions.FindTransactionsByUserId(s, userId)|)
    ensures multiset(r) <= multiset(Transactions.FindTransactionsByUserId(s, userId))
    ensures forall t :: t in r ==> t in s.transactions && t.ownerId == userId
    ensures forall i, j :: 0 <= i < j < |r| ==> r[i].date >= r[j].date
    ensures forall t :: t in s.transactions && t.ownerId == userId && t !in r ==>
      |r| == RecentLimit && forall i :: 0 <= i < |r| ==> t.date <= r[i].date
  {
    var owned := Transactions.FindTransactionsByUserId(s, userId);
    TopKMembers(owned, DateOf, RecentLimit);
    TopK(owned, DateOf, RecentLimit)
  }

  /** The user's transactions dated from `from` to `to`, both ends inclusive.
      The caller supplies both ends: `to` is the current time and `from` the
      same moment three calendar months earlier. */
  function GetTransactionsLastThreeMonths(s: Store, userId: nat, from: int, to: int): (r: seq<Transaction>)
    ensures forall t :: t in r <==> t in s.transactions && t.ownerId == userId && from <= t.date <= to
    ensures multiset(r) <= multiset(s.transactions)
  {
    FilterSubMultiset(s.transactions, (t: Transaction) => t.ownerId == userId && from <= t.date <= to);
    Filter(s.transactions, (t: Transaction) => t.ownerId == userId && from <= t.date <= to)
  }

  // ---------------------------------------------------------------------
  // Totals per (currency, category type)
  // ---------------------------------------------------------------------

  /** One row of the totals report. */
  datatype TypeAmount = TypeAmount(kind: CategoryType, currency: Currency, totalAmount: int)

  /** Every transaction of the user references a category that exists; the
      report reads each transaction's category type. */
  predicate CategoriesResolve(s: Store, userId: nat)
  {
    forall t :: t in s.transactions && t.ownerId == userId ==> HasCategory(s, t.categoryId)
  }

  /** The type of the category a transaction is filed under. */
  function KindOf(s: Store, t: Transaction): CategoryType
    requires HasCategory(s, t.categoryId)
  {
    Categories.FindCategoryById(s, t.categoryId).value.kind
  }

  /** Each transaction as its (currency, type) key and its amount. */
  function TotalsItems(s: Store, ts: seq<Transaction>): (items: seq<((Currency, CategoryType), int)>)
    requires forall t :: t in ts ==> HasCategory(s, t.categoryId)
    ensures |items| == |ts|
    ensures forall i :: 0 <= i < |ts| ==> items[i] == ((ts[i].currency, KindOf(s, ts[i])), ts[i].amount)
  {
    seq(|ts|, i requires 0 <= i < |ts| => ((ts[i].currency, KindOf(s, ts[i])), ts[i].amount))
  }

  /** Reference definition: the sum of the amounts of the transactions in `ts`
      with currency `currency` whose category has type `kind`. */
  function TotalFor(s: Store, ts: seq<Transaction>, currency: Currency, kind: CategoryType): int
    requires forall t :: t in ts ==> HasCategory(s, t.categoryId)
    decreases |ts|
  {
    if |ts| == 0 then 0
    else
      var last := ts[|ts| - 1];
      TotalFor(s, ts[..|ts| - 1], currency, kind)
        + (if last.currency == currency && KindOf(s, last) == kind then last.amount else 0)
  }

  /** Reference definition: the sum of the amounts of all transactions in `ts`. */
  function AmountSum(ts: seq<Transaction>): int
    decreases |ts|
  {
    if |ts| == 0 then 0 else AmountSum(ts[..|ts| - 1]) + ts[|ts| - 1].amount
  }

  function RowKey(row: TypeAmount): (Currency, CategoryType)
  {
    (row.currency, row.kind)
  }

  function RowKeys(rows: seq<TypeAmount>): (ks: seq<(Currency, CategoryType)>)
    ensures |ks| == |rows|
    ensures forall i :: 0 <= i < |rows| ==> ks[i] == RowKey(rows[i])
  {
    seq(|rows|, i requires 0 <= i < |rows| => RowKey(rows[i]))
  }

  function AsRows(gs: seq<Group<(Currency, CategoryType)>>): (rows: seq<TypeAmount>)
    ensures |rows| == |gs|
    ensures forall i :: 0 <= i < |gs| ==> rows[i] == TypeAmount(gs[i].key.1, gs[i].key.0, gs[i].total)
  {
    seq(|gs|, i requires 0 <= i < |gs| => TypeAmount(gs[i].key.1, gs[i].key.0, gs[i].total))
  }

  /** The report has a row for this currency and type. */
  predicate HasRow(rows: seq<TypeAmount>, currency: Currency, kind: CategoryType)
  {
    exists i :: 0 <= i < |rows| && rows[i].currency == currency && rows[i].kind == kind
  }

  /** Some transaction of `ts` has this currency and a category of this type. */
  predicate Occurs(s: Store, ts: seq<Transaction>, currency: Currency, kind: CategoryType)
  {
    exists t :: t in ts && HasCategory(s, t.categoryId) && t.currency == currency && KindOf(s, t) == kind
  }

  /** The user's transactions folded into one row per (currency, type): a
      row exists exactly for the pairs that occur among the user's
      transactions, no pair has two rows, the rows come in the order in which
      their pair first occurs, and each row's total is the sum of the amounts
      of the transactions with its pair. */
  function GetTotalAmountPerCurrencyByType(s: Store, userId: nat): (r: seq<TypeAmount>)
    requires CategoriesResolve(s, userId)
    ensures var ts := Transactions.FindTransactionsByUserId(s, userId);
      forall currency, kind :: HasRow(r, currency, kind) <==> Occurs(s, ts, currency, kind)
    ensures forall i, j :: 0 <= i < j < |r| ==> RowKey(r[i]) != RowKey(r[j])
    ensures var ts := Transactions.FindTransactionsByUserId(s, userId);
      RowKeys(r) == Dedup(ItemKeys(TotalsItems(s, ts)))
    ensures var ts := Transactions.FindTransactionsByUserId(s, userId);
      forall i :: 0 <= i < |r| ==> r[i].totalAmount == TotalFor(s, ts, r[i].currency, r[i].kind)
  {
    var ts := Transactions.FindTransactionsByUserId(s, userId);
    TotalsRowKeys(s, ts);
    TotalsRowsMatch(s, ts);
    TotalsRowAmounts(s, ts);
    AsRows(GroupSum(TotalsItems(s, ts)))
  }

  lemma TotalsRowKeys(s: Store, ts: seq<Transaction>)
    requires forall t :: t in ts ==> HasCategory(s, t.categoryId)
    ensures RowKeys(AsRows(GroupSum(TotalsItems(s, ts)))) == Dedup(ItemKeys(TotalsItems(s, ts)))
  {
    var gs := GroupSum(TotalsItems(s, ts));
    assert RowKeys(AsRows(gs)) == Keys(gs);
  }

  /** The rows built from `ts` name exactly the (currency, type) pairs that
      occur in `ts`. */
  lemma TotalsRowsMatch(s: Store, ts: seq<Transaction>)
    requires forall t :: t in ts ==> HasCategory(s, t.categoryId)
    ensures var r := AsRows(GroupSum(TotalsItems(s, ts)));
      forall currency, kind :: HasRow(r, currency, kind) <==> Occurs(s, ts, currency, kind)
  {
    var r := AsRows(GroupSum(TotalsItems(s, ts)));
    forall currency, kind ensures HasRow(r, currency, kind) <==> Occurs(s, ts, currency, kind) {
      RowKeyMembership(s, ts, currency, kind);
      ItemKeyMembership(s, ts, currency, kind);
    }
  }

  /** A row exists for a pair exactly when the pair is some item's key. */
  lemma RowKeyMembership(s: Store, ts: seq<Transaction>, currency: Currency, kind: CategoryType)
    requires forall t :: t in ts ==> HasCategory(s, t.categoryId)
    ensures HasRow(AsRows(GroupSum(TotalsItems(s, ts))), currency, kind)
      <==> (currency, kind) in ItemKeys(TotalsItems(s, ts))
  {
    var r := AsRows(GroupSum(TotalsItems(s, ts)));
    TotalsRowKeys(s, ts);
    if HasRow(r, currency, kind) {
      var i :| 0 <= i < |r| && r[i].currency == currency && r[i].kind == kind;
      assert RowKeys(r)[i] == (currency, kind);
    }
    if (currency, kind) in RowKeys(r) {
      var i :| 0 <= i < |r| && RowKeys(r)[i] == (currency, kind);
      assert r[i].currency == currency && r[i].kind == kind;
    }
  }

  /** A pair is some item's key exactly when it occurs among the transactions. */
  lemma ItemKeyMembership(s: Store, ts: seq<Transaction>, currency: Currency, kind: CategoryType)
    requires forall t :: t in ts ==> HasCategory(s, t.categoryId)
    ensures (currency, kind) in ItemKeys(TotalsItems(s, ts)) <==> Occurs(s, ts, currency, kind)
  {
    var items := TotalsItems(s, ts);
    if (currency, kind) in ItemKeys(items) {
      var m :| 0 <= m < |items| && ItemKeys(items)[m] == (currency, kind);
      assert ts[m] in ts;
    }
    if Occurs(s, ts, currency, kind) {
      var t :| t in ts && HasCategory(s, t.categoryId) && t.currency == currency && KindOf(s, t) == kind;
      var m :| 0 <= m < |ts| && ts[m] == t;
      assert items[m].0 == (t.currency, KindOf(s, t));
      assert ItemKeys(items)[m] == items[m].0;
    }
  }

  lemma TotalsRowAmounts(s: Store, ts: seq<Transaction>)
    requires forall t :: t in ts ==> HasCategory(s, t.categoryId)
    ensures var r := AsRows(GroupSum(TotalsItems(s, ts)));
      forall i :: 0 <= i < |r| ==> r[i].totalAmount == TotalFor(s, ts, r[i].currency, r[i].kind)
  {
    var r := AsRows(GroupSum(TotalsItems(s, ts)));
    forall i | 0 <= i < |r| ensures r[i].totalAmount == TotalFor(s, ts, r[i].currency, r[i].kind) {
      SumForTotalsItems(s, ts, r[i].currency, r[i].kind);
    }
  }

  lemma {:induction false} SumForTotalsItems(s: Store, ts: seq<Transaction>, currency: Currency, kind: CategoryType)
    requires forall t :: t in ts ==> HasCategory(s, t.categoryId)
    ensures SumFor(TotalsItems(s, ts), (currency, kind)) == TotalFor(s, ts, currency, kind)
    decreases |ts|
  {
    if |ts| > 0 {
      var init := ts[..|ts| - 1];
      assert TotalsItems(s, ts)[..|ts| - 1] == TotalsItems(s, init);
      SumForTotalsItems(s, init, currency, kind);
    }
  }

  lemma {:induction false} SumTotalsItems(s: Store, ts: seq<Transaction>)
    requires forall t :: t in ts ==> HasCategory(s, t.categoryId)
    ensures Sum(TotalsItems(s, ts)) == AmountSum(ts)
    decreases |ts|
  {
    if |ts| > 0 {
      var init := ts[..|ts| - 1];
      assert TotalsItems(s, ts)[..|ts| - 1] == TotalsItems(s, init);
      SumTotalsItems(s, init);
    }
  }

  function RowsTotal(rows: seq<TypeAmount>): int
    decreases |rows|
  {
    if |rows| == 0 then 0 else RowsTotal(rows[..|rows| - 1]) + rows[|rows| - 1].totalAmount
  }

  lemma {:induction false} RowsTotalOfGroups(gs: seq<Group<(Currency, CategoryType)>>)
    ensures RowsTotal(AsRows(gs)) == SumTotals(gs)
    decreases |gs|
  {
    if |gs| > 0 {
      assert AsRows(gs)[..|gs| - 1] == AsRows(gs[..|gs| - 1]);
      RowsTotalOfGroups(gs[..|gs| - 1]);
    }
  }

  /** The report neither loses nor invents money: its totals add up to the sum
      of the amounts of all the user's transactions. */
  lemma TotalsAddUp(s: Store, userId: nat)
    requires CategoriesResolve(s, userId)
    ensures RowsTotal(GetTotalAmountPerCurrencyByType(s, userId))
      == AmountSum(Transactions.FindTransactionsByUserId(s, userId))
  {
    var ts := Transactions.FindTransactionsByUserId(s, userId);
    var items := TotalsItems(s, ts);
    RowsTotalOfGroups(GroupSum(items));
    GroupSumPreservesSum(items);
    SumTotalsItems(s, ts);
  }

  // ---------------------------------------------------------------------
  // Most common categories per type
  // ---------------------------------------------------------------------

  /** A category as the most-common report returns it: id, name and the type
      that was asked for. */
  datatype CategorySummary = CategorySummary(id: nat, name: string, kind: CategoryType)

  /** Category `categoryId` exists and has type `kind`. */
  predicate KindIs(s: Store, categoryId: nat, kind: CategoryType)
  {
    HasCategory(s, categoryId) && Categories.FindCategoryById(s, categoryId).value.kind == kind
  }

  /** Reference definition: how many transactions of `ts` belong to the user
      and are filed under `categoryId`. */
  function CountUses(ts: seq<Transaction>, userId: nat, categoryId: nat): nat
    decreases |ts|
  {
    if |ts| == 0 then 0
    else
      var last := ts[|ts| - 1];
      CountUses(ts[..|ts| - 1], userId, categoryId)
        + (if last.ownerId == userId && last.categoryId == categoryId then 1 else 0)
  }

  lemma {:induction false} CountUsesPositive(ts: seq<Transaction>, userId: nat, categoryId: nat)
    ensures CountUses(ts, userId, categoryId) > 0 <==>
      exists t :: t in ts && t.ownerId == userId && t.categoryId == categoryId
    decreases |ts|
  {
    if |ts| > 0 {
      var init := ts[..|ts| - 1];
      assert ts == init + [ts[|ts| - 1]];
      CountUsesPositive(init, userId, categoryId);
    }
  }

  /** How many of the user's transactions are filed under `categoryId`. */
  function UsageCount(s: Store, userId: nat, categoryId: nat): nat
  {
    CountUses(s.transactions, userId, categoryId)
  }

  /** The usage count is positive exactly when the user has a transaction
      filed under the category. */
  lemma UsageCountPositive(s: Store, userId: nat, categoryId: nat)
    ensures UsageCount(s, userId, categoryId) > 0 <==>
      exists t :: t in s.transactions && t.ownerId == userId && t.categoryId == categoryId
  {
    CountUsesPositive(s.transactions, userId, categoryId);
  }

  /** The rows of the join: one `(categoryId, 1)` per transaction of the user
      whose category exists and has type `kind`, in table order. */
  function UsageItems(s: Store, ts: seq<Transaction>, userId: nat, kind: CategoryType): seq<(nat, int)>
    decreases |ts|
  {
    if |ts| == 0 then []
    else
      var last := ts[|ts| - 1];
      var rest := UsageItems(s, ts[..|ts| - 1], userId, kind);
      if last.ownerId == userId && KindIs(s, last.categoryId, kind) then rest + [(last.categoryId, 1)] else rest
  }

  lemma {:induction false} UsageItemsCount(s: Store, ts: seq<Transaction>, userId: nat, kind: CategoryType, c: nat)
    ensures SumFor(UsageItems(s, ts, userId, kind), c) == if KindIs(s, c, kind) then CountUses(ts, userId, c) else 0
    decreases |ts|
  {
    if |ts| > 0 {
      var init := ts[..|ts| - 1];
      var last := ts[|ts| - 1];
      var rest := UsageItems(s, init, userId, kind);
      UsageItemsCount(s, init, userId, kind, c);
      if last.ownerId == userId && KindIs(s, last.categoryId, kind) {
        assert (rest + [(last.categoryId, 1)])[..|rest|] == rest;
      }
    }
  }

  lemma {:induction false} UsageItemsKeys(s: Store, ts: seq<Transaction>, userId: nat, kind: CategoryType, c: nat)
    ensures c in ItemKeys(UsageItems(s, ts, userId, kind)) <==> KindIs(s, c, kind) && CountUses(ts, userId, c) > 0
    decreases |ts|
  {
    if |ts| > 0 {
      var init := ts[..|ts| - 1];
      var last := ts[|ts| - 1];
      var rest := UsageItems(s, init, userId, kind);
      UsageItemsKeys(s, init, userId, kind, c);
      if last.ownerId == userId && KindIs(s, last.categoryId, kind) {
        assert ItemKeys(rest + [(last.categoryId, 1)]) == ItemKeys(rest) + [last.categoryId];
      }
    }
  }

  /** The category has type `kind` and the user has filed at least one
      transaction under it. */
  predicate Used(s: Store, userId: nat, kind: CategoryType, categoryId: nat)
  {
    KindIs(s, categoryId, kind) && UsageCount(s, userId, categoryId) > 0
  }

  /** The per-category counts of the join, before ordering and limiting. */
  function UsageGroups(s: Store, userId: nat, kind: CategoryType): seq<Group<nat>>
  {
    GroupSum(UsageItems(s, s.transactions, userId, kind))
  }

  /** Every group is a used category counted exactly, and no category has
      two groups. */
  lemma UsageGroupsCounted(s: Store, userId: nat, kind: CategoryType)
    ensures var gs := UsageGroups(s, userId, kind);
      forall i :: 0 <= i < |gs| ==> Used(s, userId, kind, gs[i].key) && gs[i].total == UsageCount(s, userId, gs[i].key)
    ensures var gs := UsageGroups(s, userId, kind);
      forall i, j :: 0 <= i < j < |gs| ==> gs[i].key != gs[j].key
  {
    var items := UsageItems(s, s.transactions, userId, kind);
    var gs := GroupSum(items);
    forall i | 0 <= i < |gs| ensures Used(s, userId, kind, gs[i].key) && gs[i].total == UsageCount(s, userId, gs[i].key) {
      assert Keys(gs)[i] == gs[i].key;
      UsageItemsKeys(s, s.transactions, userId, kind, gs[i].key);
      UsageItemsCount(s, s.transactions, userId, kind, gs[i].key);
    }
    assert Distinct(Keys(gs));
    forall i, j | 0 <= i < j < |gs| ensures gs[i].key != gs[j].key {
      assert Keys(gs)[i] == gs[i].key && Keys(gs)[j] == gs[j].key;
    }
  }

  /** Every used category has a group. */
  lemma UsageGroupsComplete(s: Store, userId: nat, kind: CategoryType, c: nat)
    requires Used(s, userId, kind, c)
    ensures c in Keys(UsageGroups(s, userId, kind))
  {
    UsageItemsKeys(s, s.transactions, userId, kind, c);
  }

  function TotalOf(g: Group<nat>): int
  {
    g.total
  }

  function Ids(r: seq<CategorySummary>): (ids: seq<nat>)
    ensures |ids| == |r|
    ensures forall i :: 0 <= i < |r| ==> ids[i] == r[i].id
  {
    seq(|r|, i requires 0 <= i < |r| => r[i].id)
  }

  /** The `limit` most used categories of type `kind` among the user's
      transactions, most used first, as (id, name, kind), each category at
      most once. A used category of that type is left out only when the list
      is full and every listed category has been used at least as often. */
  function GetMostCommonCategoriesByType(s: Store, userId: nat, kind: CategoryType, limit: nat): (r: seq<CategorySummary>)
    ensures limit > 0 ==> |r| <= limit
    ensures limit == 0 ==> forall c :: Used(s, userId, kind, c) ==> c in Ids(r)
    ensures forall i :: 0 <= i < |r| ==>
      && r[i].kind == kind
      && Used(s, userId, kind, r[i].id)
      && r[i].name == Categories.FindCategoryById(s, r[i].id).value.name
    ensures forall i, j :: 0 <= i < j < |r| ==> UsageCount(s, userId, r[i].id) >= UsageCount(s, userId, r[j].id)
    ensures forall i, j :: 0 <= i < j < |r| ==> r[i].id != r[j].id
    ensures forall c :: Used(s, userId, kind, c) && c !in Ids(r) ==>
      limit > 0 && |r| == limit && forall i :: 0 <= i < |r| ==> UsageCount(s, userId, c) <= UsageCount(s, userId, r[i].id)
  {
    var cap := RowCap(s, userId, kind, limit);
    TopGroupsCounted(s, userId, kind, cap);
    SummariesOrdered(s, userId, kind, cap);
    SummariesOmitted(s, userId, kind, limit);
    Summaries(s, TopK(UsageGroups(s, userId, kind), TotalOf, cap), kind)
  }

  /** How many groups the query keeps: `limit`, except that a limit of 0 puts
      no LIMIT clause into the query, which then keeps every group. */
  function RowCap(s: Store, userId: nat, kind: CategoryType, limit: nat): nat
  {
    if limit == 0 then |UsageGroups(s, userId, kind)| else limit
  }

  /** Without a limit every used category of the type is listed. */
  lemma NoLimitListsAll(s: Store, userId: nat, kind: CategoryType)
    ensures var gs := UsageGroups(s, userId, kind);
      forall c :: Used(s, userId, kind, c) ==> c in Keys(TopK(gs, TotalOf, |gs|))
  {
    forall c | Used(s, userId, kind, c)
      ensures c in Keys(TopK(UsageGroups(s, userId, kind), TotalOf, |UsageGroups(s, userId, kind)|))
    {
      var g := UsedGroup(s, userId, kind, c);
      TopAllKeepsKeys(UsageGroups(s, userId, kind), TotalOf, g);
    }
  }

  /** The listed categories are ordered by usage and each is listed once. */
  lemma SummariesOrdered(s: Store, userId: nat, kind: CategoryType, limit: nat)
    ensures var top := TopK(UsageGroups(s, userId, kind), TotalOf, limit);
      forall i :: 0 <= i < |top| ==> HasCategory(s, top[i].key)
    ensures var r := Summaries(s, TopK(UsageGroups(s, userId, kind), TotalOf, limit), kind);
      forall i, j :: 0 <= i < j < |r| ==>
        UsageCount(s, userId, r[i].id) >= UsageCount(s, userId, r[j].id) && r[i].id != r[j].id
  {
    TopGroupsCounted(s, userId, kind, limit);
    TopGroupsOrdered(s, userId, kind, limit);
  }

  /** With a positive limit, a used category is left off the list only when
      the list is full and every listed category is used at least as often;
      without one, every used category is listed. */
  lemma SummariesOmitted(s: Store, userId: nat, kind: CategoryType, limit: nat)
    ensures var top := TopK(UsageGroups(s, userId, kind), TotalOf, RowCap(s, userId, kind, limit));
      forall i :: 0 <= i < |top| ==> HasCategory(s, top[i].key)
    ensures var r := Summaries(s, TopK(UsageGroups(s, userId, kind), TotalOf, RowCap(s, userId, kind, limit)), kind);
      forall c :: Used(s, userId, kind, c) && c !in Ids(r) ==>
        limit > 0 && |r| == limit && forall i :: 0 <= i < |r| ==> UsageCount(s, userId, c) <= UsageCount(s, userId, r[i].id)
    ensures var r := Summaries(s, TopK(UsageGroups(s, userId, kind), TotalOf, RowCap(s, userId, kind, limit)), kind);
      limit == 0 ==> forall c :: Used(s, userId, kind, c) ==> c in Ids(r)
  {
    var cap := RowCap(s, userId, kind, limit);
    TopGroupsCounted(s, userId, kind, cap);
    if limit == 0 {
      NoLimitListsAll(s, userId, kind);
    } else {
      TopGroupsOmitted(s, userId, kind, cap);
    }
  }

  /** Each listed group as its category's id and name, with the type asked for. */
  function Summaries(s: Store, top: seq<Group<nat>>, kind: CategoryType): (r: seq<CategorySummary>)
    requires forall i :: 0 <= i < |top| ==> HasCategory(s, top[i].key)
    ensures |r| == |top| && Ids(r) == Keys(top)
    ensures forall i :: 0 <= i < |r| ==>
      && r[i].id == top[i].key && r[i].kind == kind
      && HasCategory(s, r[i].id) && r[i].name == Categories.FindCategoryById(s, r[i].id).value.name
  {
    var r := seq(|top|, i requires 0 <= i < |top| =>
      CategorySummary(top[i].key, Categories.FindCategoryById(s, top[i].key).value.name, kind));
    assert Ids(r) == Keys(top);
    r
  }

  /** The listed groups are used categories counted exactly. */
  lemma TopGroupsCounted(s: Store, userId: nat, kind: CategoryType, limit: nat)
    ensures var top := TopK(UsageGroups(s, userId, kind), TotalOf, limit);
      forall i :: 0 <= i < |top| ==> Used(s, userId, kind, top[i].key) && top[i].total == UsageCount(s, userId, top[i].key)
  {
    var gs := UsageGroups(s, userId, kind);
    var top := TopK(gs, TotalOf, limit);
    UsageGroupsCounted(s, userId, kind);
    TopKMembers(gs, TotalOf, limit);
    forall i | 0 <= i < |top| ensures Used(s, userId, kind, top[i].key) && top[i].total == UsageCount(s, userId, top[i].key) {
      assert top[i] in top;
      var m :| 0 <= m < |gs| && gs[m] == top[i];
    }
  }

  /** The listed groups are ordered by count and name each category once. */
  lemma TopGroupsOrdered(s: Store, userId: nat, kind: CategoryType, limit: nat)
    ensures var top := TopK(UsageGroups(s, userId, kind), TotalOf, limit);
      forall i, j :: 0 <= i < j < |top| ==> top[i].total >= top[j].total
    ensures var top := TopK(UsageGroups(s, userId, kind), TotalOf, limit);
      forall i, j :: 0 <= i < j < |top| ==> top[i].key != top[j].key
  {
    var gs := UsageGroups(s, userId, kind);
    var top := TopK(gs, TotalOf, limit);
    assert forall i, j :: 0 <= i < j < |top| ==> TotalOf(top[i]) >= TotalOf(top[j]);
    UsageGroupsCounted(s, userId, kind);
    SubGroupsKeysDistinct(gs, top);
  }

  /** A used category missing from the list means the list is full and every
      listed category was used at least as often. */
  lemma TopGroupsOmitted(s: Store, userId: nat, kind: CategoryType, limit: nat)
    ensures var top := TopK(UsageGroups(s, userId, kind), TotalOf, limit);
      forall c :: Used(s, userId, kind, c) && c !in Keys(top) ==>
        |top| == limit && forall i :: 0 <= i < |top| ==> UsageCount(s, userId, c) <= top[i].total
  {
    var top := TopK(UsageGroups(s, userId, kind), TotalOf, limit);
    forall c | Used(s, userId, kind, c) && c !in Keys(top)
      ensures |top| == limit && forall i :: 0 <= i < |top| ==> UsageCount(s, userId, c) <= top[i].total
    {
      TopGroupOmitted(s, userId, kind, limit, c);
    }
  }

  lemma TopGroupOmitted(s: Store, userId: nat, kind: CategoryType, limit: nat, c: nat)
    ensures var top := TopK(UsageGroups(s, userId, kind), TotalOf, limit);
      Used(s, userId, kind, c) && c !in Keys(top) ==>
        |top| == limit && forall i :: 0 <= i < |top| ==> UsageCount(s, userId, c) <= top[i].total
  {
    if Used(s, userId, kind, c) && c !in Keys(TopK(UsageGroups(s, userId, kind), TotalOf, limit)) {
      var g := UsedGroup(s, userId, kind, c);
      TopGroupLeftOut(UsageGroups(s, userId, kind), TotalOf, limit, g);
    }
  }

  /** The group of a used category, holding its usage count. */
  lemma UsedGroup(s: Store, userId: nat, kind: CategoryType, c: nat) returns (g: Group<nat>)
    requires Used(s, userId, kind, c)
    ensures g in UsageGroups(s, userId, kind) && g.key == c && g.total == UsageCount(s, userId, c)
  {
    var gs := UsageGroups(s, userId, kind);
    UsageGroupsComplete(s, userId, kind, c);
    var m :| 0 <= m < |gs| && Keys(gs)[m] == c;
    g := gs[m];
    UsageGroupsCounted(s, userId, kind);
  }

  /** Both per-type lists, income first, then expense. */
  function GetMostCommonCategories(s: Store, userId: nat, limit: nat): (r: seq<CategorySummary>)
    ensures limit > 0 ==> |r| <= 2 * limit
    ensures forall i :: 0 <= i < |r| ==> Used(s, userId, r[i].kind, r[i].id)
    ensures forall i, j :: 0 <= i < j < |r| && r[j].kind == Income ==> r[i].kind == Income
    ensures forall i, j :: 0 <= i < j < |r| ==> r[i].id != r[j].id
    ensures limit > 0 ==> |Filter(r, IsIncome)| <= limit && |Filter(r, IsExpense)| <= limit
    ensures limit == 0 ==> forall c :: Used(s, userId, Income, c) || Used(s, userId, Expense, c) ==> c in Ids(r)
  {
    MostCommonShape(s, userId, limit);
    MostCommonBounds(s, userId, limit);
    GetMostCommonCategoriesByType(s, userId, Income, limit) + GetMostCommonCategoriesByType(s, userId, Expense, limit)
  }

  /** The joined list keeps every entry's facts, puts income first and
      repeats no category. */
  lemma MostCommonShape(s: Store, userId: nat, limit: nat)
    ensures var r := GetMostCommonCategoriesByType(s, userId, Income, limit) + GetMostCommonCategoriesByType(s, userId, Expense, limit);
      && (forall i :: 0 <= i < |r| ==> Used(s, userId, r[i].kind, r[i].id))
      && (forall i, j :: 0 <= i < j < |r| && r[j].kind == Income ==> r[i].kind == Income)
      && (forall i, j :: 0 <= i < j < |r| ==> r[i].id != r[j].id)
  {
    var income := GetMostCommonCategoriesByType(s, userId, Income, limit);
    var expense := GetMostCommonCategoriesByType(s, userId, Expense, limit);
    ConcatByType(s, userId, income, expense);
  }

  /** The joined list holds at most `limit` entries of each type, or every
      used category when there is no limit. */
  lemma MostCommonBounds(s: Store, userId: nat, limit: nat)
    ensures var r := GetMostCommonCategoriesByType(s, userId, Income, limit) + GetMostCommonCategoriesByType(s, userId, Expense, limit);
      && (limit > 0 ==> |r| <= 2 * limit)
      && (limit > 0 ==> |Filter(r, IsIncome)| <= limit && |Filter(r, IsExpense)| <= limit)
      && (limit == 0 ==> forall c :: Used(s, userId, Income, c) || Used(s, userId, Expense, c) ==> c in Ids(r))
  {
    var income := GetMostCommonCategoriesByType(s, userId, Income, limit);
    var expense := GetMostCommonCategoriesByType(s, userId, Expense, limit);
    SplitByType(income, expense);
    if limit == 0 {
      ConcatListsAll(s, userId, income, expense);
    }
  }

  /** Joining two lists that each list every used category of their type
      lists every used category. */
  lemma ConcatListsAll(s: Store, userId: nat, income: seq<CategorySummary>, expense: seq<CategorySummary>)
    requires forall c :: Used(s, userId, Income, c) ==> c in Ids(income)
    requires forall c :: Used(s, userId, Expense, c) ==> c in Ids(expense)
    ensures forall c :: Used(s, userId, Income, c) || Used(s, userId, Expense, c) ==> c in Ids(income + expense)
  {
    assert Ids(income + expense) == Ids(income) + Ids(expense);
  }

  /** Joining an income list and an expense list keeps every entry's facts,
      puts all income entries first, and, since no category has both types,
      repeats no category when neither list does. */
  lemma ConcatByType(s: Store, userId: nat, income: seq<CategorySummary>, expense: seq<CategorySummary>)
    requires forall i :: 0 <= i < |income| ==> income[i].kind == Income && Used(s, userId, Income, income[i].id)
    requires forall i :: 0 <= i < |expense| ==> expense[i].kind == Expense && Used(s, userId, Expense, expense[i].id)
    requires forall i, j :: 0 <= i < j < |income| ==> income[i].id != income[j].id
    requires forall i, j :: 0 <= i < j < |expense| ==> expense[i].id != expense[j].id
    ensures var r := income + expense;
      forall i :: 0 <= i < |r| ==> Used(s, userId, r[i].kind, r[i].id)
    ensures var r := income + expense;
      forall i, j :: 0 <= i < j < |r| && r[j].kind == Income ==> r[i].kind == Income
    ensures var r := income + expense;
      forall i, j :: 0 <= i < j < |r| ==> r[i].id != r[j].id
  {
    var r := income + expense;
    forall i | 0 <= i < |r| ensures Used(s, userId, r[i].kind, r[i].id) {
      if i >= |income| {
        assert r[i] == expense[i - |income|];
      }
    }
    assert forall k :: |income| <= k < |r| ==> r[k] == expense[k - |income|];
    forall i, j | 0 <= i < j < |r| ensures r[i].id != r[j].id {
      if i < |income| <= j {
        assert r[j] == expense[j - |income|];
        assert KindIs(s, r[i].id, Income) && KindIs(s, r[j].id, Expense);
      } else if |income| <= i {
        assert r[i] == expense[i - |income|] && r[j] == expense[j - |income|];
      }
    }
  }

  predicate IsIncome(c: CategorySummary)
  {
    c.kind == Income
  }

  predicate IsExpense(c: CategorySummary)
  {
    c.kind == Expense
  }

  /** Splitting the combined list by type gives back the two per-type lists. */
  lemma MostCommonSplitsByType(s: Store, userId: nat, limit: nat)
    ensures Filter(GetMostCommonCategories(s, userId, limit), IsIncome) == GetMostCommonCategoriesByType(s, userId, Income, limit)
    ensures Filter(GetMostCommonCategories(s, userId, limit), IsExpense) == GetMostCommonCategoriesByType(s, userId, Expense, limit)
  {
    var income := GetMostCommonCategoriesByType(s, userId, Income, limit);
    var expense := GetMostCommonCategoriesByType(s, userId, Expense, limit);
    SplitByType(income, expense);
  }

  /** An all-income list followed by an all-expense list splits back into
      the two by filtering on the type. */
  lemma SplitByType(income: seq<CategorySummary>, expense: seq<CategorySummary>)
    requires forall i :: 0 <= i < |income| ==> income[i].kind == Income
    requires forall i :: 0 <= i < |expense| ==> expense[i].kind == Expense
    ensures Filter(income + expense, IsIncome) == income
    ensures Filter(income + expense, IsExpense) == expense
  {
    FilterConcat(income, expense, IsIncome);
    FilterConcat(income, expense, IsExpense);
    FilterKeepsAll(income, IsIncome);
    FilterKeepsAll(expense, IsExpense);
    FilterDropsAll(income, IsExpense);
    FilterDropsAll(expense, IsIncome);
  }
}
