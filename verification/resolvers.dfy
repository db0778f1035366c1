/** The transaction API as an authenticated caller sees it: the caller's id
    (from the verified token) replaces any owner the request names, and
    removal checks existence first, then ownership. */
module TransactionsResolver {
  import opened Seqs
  import opened Model
  import Categories
  import Transactions
  import TransactionQueries

  /** How many categories per type the most-common query asks for. */
  const MostCommonLimit: nat := 5

  /** Creates a transaction owned by the caller, whatever owner the input
      names; the category must be one of the caller's. Request validation
      has already rejected a non-positive amount or category id and an empty
      description. */
  function CreateTransaction(s: Store, callerId: nat, input: Transactions.NewTransaction): (r: Result<(Store, Transaction)>)
    requires input.amount > 0 && input.categoryId > 0 && input.description != ""
    ensures r.Ok? <==> HasUser(s, callerId) && Categories.OwnsCategory(s, callerId, input.categoryId)
    ensures r.Err? ==> r.error == NotFound
    ensures r.Ok? ==> r.value.1.ownerId == callerId && Categories.OwnsCategory(s, callerId, r.value.1.categoryId)
  {
    Transactions.CreateTransaction(s, input.(userId := callerId))
  }

  /** Updates a transaction on the caller's behalf: it fails with `Conflict`
      exactly when the transaction exists and belongs to someone else.
      Request validation has already rejected a supplied amount, category id
      or user id that is not positive. */
  function UpdateTransaction(s: Store, callerId: nat, id: nat, patch: Transactions.TransactionPatch): (r: Result<(Store, Transaction)>)
    requires patch.amount.Some? ==> patch.amount.value > 0
    requires patch.categoryId.Some? ==> patch.categoryId.value > 0
    requires patch.userId.Some? ==> patch.userId.value > 0
    ensures r == Err(Conflict) <==>
      HasTransaction(s, id) && Transactions.FindTransactionById(s, id).value.ownerId != callerId
    ensures r.Ok? ==>
      && Transactions.FindTransactionById(s, id).Ok?
      && Transactions.FindTransactionById(s, id).value.ownerId == callerId
      && r.value.1.ownerId == callerId
    ensures !HasTransaction(s, id) ==> r == Err(NotFound)
  {
    Transactions.UpdateTransaction(s, id, patch.(userId := Some(callerId)))
  }

  /** On a well-formed store an update through the API never changes a
      transaction of another user. */
  lemma UpdateTransactionKeepsOthers(s: Store, callerId: nat, id: nat, patch: Transactions.TransactionPatch)
    requires WellFormed(s)
    requires patch.amount.Some? ==> patch.amount.value > 0
    requires patch.categoryId.Some? ==> patch.categoryId.value > 0
    requires patch.userId.Some? ==> patch.userId.value > 0
    ensures var r := UpdateTransaction(s, callerId, id, patch);
      r.Ok? ==> forall i :: 0 <= i < |s.transactions| && s.transactions[i].ownerId != callerId ==>
        r.value.0.transactions[i] == s.transactions[i]
  {
    var r := UpdateTransaction(s, callerId, id, patch);
    if r.Ok? {
      var t := Transactions.FindTransactionById(s, id).value;
      forall i | 0 <= i < |s.transactions| && s.transactions[i].ownerId != callerId
        ensures r.value.0.transactions[i] == s.transactions[i]
      {
        var k :| 0 <= k < |s.transactions| && s.transactions[k] == t;
        assert s.transactions[i].id != id by {
          if i != k {
            assert s.transactions[i].id != s.transactions[k].id;
          }
        }
      }
    }
  }

  /** Deletes a transaction of the caller and returns it as it was. */
  function RemoveTransaction(s: Store, callerId: nat, id: nat): (r: Result<(Store, Transaction)>)
    ensures r == Err(NotFound) <==> !HasTransaction(s, id)
    ensures r == Err(Conflict) <==> HasTransaction(s, id) && !Transactions.IsTransactionForUser(s, callerId, id)
    ensures r.Ok? ==>
      && r.value.1 == Transactions.FindTransactionById(s, id).value
      && (exists t :: t in s.transactions && t.id == id && t.ownerId == callerId)
      && (forall t :: t in r.value.0.transactions <==> t in s.transactions && t.id != id)
      && r.value.0 == s.(transactions := r.value.0.transactions)
  {
    match Transactions.FindTransactionById(s, id)
    case Err(e) => Err(e)
    case Ok(t) =>
      if !Transactions.IsTransactionForUser(s, callerId, id) then Err(Conflict)
      else Ok((RemoveTransactionRows(s, id).0, t))
  }

  /** On a well-formed store a removal through the API deletes only a
      transaction of the caller: every transaction of another user survives. */
  lemma RemoveTransactionKeepsOthers(s: Store, callerId: nat, id: nat)
    requires WellFormed(s)
    ensures var r := RemoveTransaction(s, callerId, id);
      r.Ok? ==> (r.value.1.ownerId == callerId
        && forall t :: t in s.transactions && t.ownerId != callerId ==> t in r.value.0.transactions)
  {
    var r := RemoveTransaction(s, callerId, id);
    if r.Ok? {
      var w :| w in s.transactions && w.id == id && w.ownerId == callerId;
      var a :| 0 <= a < |s.transactions| && s.transactions[a] == w;
      forall t | t in s.transactions && t.id == id ensures t == w {
        var b :| 0 <= b < |s.transactions| && s.transactions[b] == t;
        assert a == b;
      }
    }
  }

  /** The caller's most used income categories, then expense categories, at
      most five of each. */
  function GetMostCommonCategories(s: Store, callerId: nat): (r: seq<TransactionQueries.CategorySummary>)
    ensures |r| <= 2 * MostCommonLimit
    ensures forall i :: 0 <= i < |r| ==> TransactionQueries.Used(s, callerId, r[i].kind, r[i].id)
    ensures forall i, j :: 0 <= i < j < |r| && r[j].kind == Income ==> r[i].kind == Income
    ensures |Filter(r, TransactionQueries.IsIncome)| <= MostCommonLimit
    ensures |Filter(r, TransactionQueries.IsExpense)| <= MostCommonLimit
  {
    TransactionQueries.GetMostCommonCategories(s, callerId, MostCommonLimit)
  }
}

/** The category API as an authenticated caller sees it: creation is forced
    onto the caller, removal checks existence then ownership, and update has
    no ownership check at all. */
module CategoriesResolver {
  import opened Model
  import Categories

  /** Creates a category owned by the caller; request validation has already
      rejected an empty name. */
  function CreateCategory(s: Store, callerId: nat, name: string, kind: CategoryType): (r: Result<(Store, Category)>)
    requires name != ""
    ensures r.Ok? <==> HasUser(s, callerId) && !Categories.NameTaken(s, callerId, name, kind)
    ensures r.Ok? ==> r.value.1.ownerId == callerId
  {
    Categories.CreateCategory(s, callerId, name, kind)
  }

  /** Updates any existing category, whoever calls; the category keeps its
      owner even when the patch names another user. Request validation has
      already rejected a supplied empty name. */
  function UpdateCategory(s: Store, callerId: nat, id: nat, patch: Categories.CategoryPatch): (r: Result<(Store, Category)>)
    requires patch.name.Some? ==> patch.name.value != ""
    ensures r.Err? <==> !HasCategory(s, id)
    ensures r.Ok? ==> r.value.1.id == id && r.value.1.ownerId == Categories.FindCategoryById(s, id).value.ownerId
  {
    Categories.UpdateCategory(s, id, patch)
  }

  /** Any authenticated user can rename a category of another user. */
  lemma UpdateCategoryByAnyCaller()
    ensures exists s: Store, callerId: nat, id: nat, patch: Categories.CategoryPatch ::
      && WellFormed(s)
      && (patch.name.Some? ==> patch.name.value != "")
      && !Categories.OwnsCategory(s, callerId, id)
      && UpdateCategory(s, callerId, id, patch).Ok?
  {
    var c := Category(1, "Food", Expense, 1);
    var s := Store([User(1, "Ann", "ann@example.com", "h1"), User(2, "Bob", "bob@example.com", "h2")], [c], [], 3, 2, 1);
    assert s.categories[0].id == 1;
    assert !Categories.OwnsCategory(s, 2, 1) by {
      forall x | x in s.categories ensures !(x.id == 1 && x.ownerId == 2) {
        assert x == c;
      }
    }
    assert UpdateCategory(s, 2, 1, Categories.CategoryPatch(Some("Fun"), None, None)).Ok?;
  }

  /** Deletes a category of the caller and returns it as it was. */
  function RemoveCategory(s: Store, callerId: nat, id: nat): (r: Result<(Store, Category)>)
    ensures r == Err(NotFound) <==> !HasCategory(s, id)
    ensures r == Err(Conflict) <==> HasCategory(s, id) && !Categories.OwnsCategory(s, callerId, id)
    ensures r.Ok? ==>
      && r.value.1 == Categories.FindCategoryById(s, id).value
      && (forall c :: c in r.value.0.categories <==> c in s.categories && c.id != id)
      && r.value.0 == s.(categories := r.value.0.categories)
  {
    match Categories.FindCategoryById(s, id)
    case Err(e) => Err(e)
    case Ok(c) =>
      if !Categories.IsCategoryForUser(s, callerId, id) then Err(Conflict)
      else Ok((RemoveCategoryRows(s, id).0, c))
  }

  /** On a well-formed store a removal through the API deletes only a
      category of the caller. */
  lemma RemoveCategoryKeepsOthers(s: Store, callerId: nat, id: nat)
    requires WellFormed(s)
    ensures var r := RemoveCategory(s, callerId, id);
      r.Ok? ==> (r.value.1.ownerId == callerId
        && forall c :: c in s.categories && c.ownerId != callerId ==> c in r.value.0.categories)
  {
    var r := RemoveCategory(s, callerId, id);
    if r.Ok? {
      var w :| w in s.categories && w.id == id && w.ownerId == callerId;
      var a :| 0 <= a < |s.categories| && s.categories[a] == w;
      forall c | c in s.categories && c.id == id ensures c == w {
        var b :| 0 <= b < |s.categories| && s.categories[b] == c;
        assert a == b;
      }
    }
  }

  /** The caller's categories. */
  function GetCategoriesForUser(s: Store, callerId: nat): (r: seq<Category>)
    ensures forall c :: c in r <==> c in s.categories && c.ownerId == callerId
    ensures multiset(r) <= multiset(s.categories)
  {
    Categories.FindCategoriesByUserId(s, callerId)
  }
}
