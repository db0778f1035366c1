/** The transaction ledger: creation checks that the owner exists and owns
    the category; update refuses a change of owner and resolves a new
    category without scoping it to the owner; point and per-user lookups;
    delete; and the ownership check used by the resolver. */
module Transactions {
  import opened Seqs
  import opened Model
  import Categories

  /** Every transaction's owner exists and owns the transaction's category. */
  predicate TransactionsConsistent(s: Store)
  {
    forall t :: t in s.transactions ==> HasUser(s, t.ownerId) && Categories.OwnsCategory(s, t.ownerId, t.categoryId)
  }

  /** The fields of a create request; there is no currency among them, so a
      new transaction always gets the default currency. */
  datatype NewTransaction = NewTransaction(amount: int, description: string, date: int, categoryId: nat, userId: nat)

  function CreateTransaction(s: Store, input: NewTransaction): (r: Result<(Store, Transaction)>)
    requires input.amount > 0
    ensures !HasUser(s, input.userId) ==> r == Err(NotFound)
    ensures HasUser(s, input.userId) && !Categories.OwnsCategory(s, input.userId, input.categoryId) ==> r == Err(NotFound)
    ensures r.Ok? <==> HasUser(s, input.userId) && Categories.OwnsCategory(s, input.userId, input.categoryId)
    ensures r.Ok? ==>
      var (s', t) := r.value;
      && t.id == s.nextTransactionId
      && t.ownerId == input.userId && t.categoryId == input.categoryId
      && Categories.OwnsCategory(s, t.ownerId, t.categoryId)
      && t.amount == input.amount && t.description == input.description && t.date == input.date
      && t.currency == DefaultCurrency
      && s' == s.(transactions := s.transactions + [t], nextTransactionId := s.nextTransactionId + 1)
    ensures r.Ok? && WellFormed(s) ==> WellFormed(r.value.0)
  {
    match FindUserById(s, input.userId)
    case Err(e) => Err(e)
    case Ok(user) =>
      match Categories.FindCategoryByIdAndUserId(s, input.categoryId, user.id)
      case Err(e) => Err(e)
      case Ok(category) =>
        Ok(InsertTransaction(s, input.amount, DefaultCurrency, input.description, input.date, user.id, category.id))
  }

  /** A successful create keeps every transaction consistent with its owner. */
  lemma CreateTransactionPreservesConsistency(s: Store, input: NewTransaction)
    requires input.amount > 0
    requires TransactionsConsistent(s)
    ensures CreateTransaction(s, input).Ok? ==> TransactionsConsistent(CreateTransaction(s, input).value.0)
  {
    var r := CreateTransaction(s, input);
    if r.Ok? {
      var s' := r.value.0;
      forall t | t in s'.transactions
        ensures HasUser(s', t.ownerId) && Categories.OwnsCategory(s', t.ownerId, t.categoryId)
      {
        if t in s.transactions {
          assert HasUser(s, t.ownerId) && Categories.OwnsCategory(s, t.ownerId, t.categoryId);
        }
      }
    }
  }

  /** What `updateTransaction` may overwrite. `userId` must name the current
      owner; `categoryId` counts as supplied only when present and non-zero. */
  datatype TransactionPatch = TransactionPatch(
    amount: Option<int>,
    description: Option<string>,
    date: Option<int>,
    categoryId: Option<nat>,
    userId: Option<nat>)

  predicate ChangesCategory(patch: TransactionPatch)
  {
    patch.categoryId.Some? && patch.categoryId.value != 0
  }

  function UpdateTransaction(s: Store, id: nat, patch: TransactionPatch): (r: Result<(Store, Transaction)>)
    requires patch.amount.Some? ==> patch.amount.value > 0
    ensures r == Err(NotFound) <==>
      || !HasTransaction(s, id)
      || (&& patch.userId == Some(FindTransactionById(s, id).value.ownerId)
          && ChangesCategory(patch) && !HasCategory(s, patch.categoryId.value))
    ensures r == Err(Conflict) <==>
      HasTransaction(s, id) && patch.userId != Some(FindTransactionById(s, id).value.ownerId)
    ensures r.Ok? ==>
      FindTransactionById(s, id).Ok? &&
      var t := FindTransactionById(s, id).value;
      var t' := r.value.1;
      && t'.id == id && t'.ownerId == t.ownerId && t'.currency == t.currency
      && t'.amount == (if patch.amount.Some? then patch.amount.value else t.amount)
      && t'.description == (if patch.description.Some? then patch.description.value else t.description)
      && t'.date == (if patch.date.Some? then patch.date.value else t.date)
      && t'.categoryId == (if ChangesCategory(patch) then patch.categoryId.value else t.categoryId)
      && HasCategory(s, t'.categoryId) == (ChangesCategory(patch) || HasCategory(s, t.categoryId))
      && r.value.0 == SaveTransaction(s, t')
    ensures r.Ok? && WellFormed(s) ==> WellFormed(r.value.0)
  {
    match FindTransactionById(s, id)
    case Err(e) => Err(e)
    case Ok(t) =>
      if patch.userId != Some(t.ownerId) then Err(Conflict)
      else
        var edited := t.(
          amount := patch.amount.GetOr(t.amount),
          description := patch.description.GetOr(t.description),
          date := patch.date.GetOr(t.date));
        if ChangesCategory(patch) then
          (match Categories.FindCategoryById(s, patch.categoryId.value)
           case Err(e) => Err(e)
           case Ok(category) =>
             var t' := edited.(categoryId := category.id);
             Ok((SaveTransaction(s, t'), t')))
        else
          Ok((SaveTransaction(s, edited), edited))
  }

  /** A store where Ann (user 1) has a transaction in her own category 1 and
      Bob (user 2) owns category 2 with the same name and type. */
  const CrossOwnersStore := Store(
    [User(1, "Ann", "ann@example.com", "h1"), User(2, "Bob", "bob@example.com", "h2")],
    [Category(1, "Food", Expense, 1), Category(2, "Food", Expense, 2)],
    [Transaction(1, 10, "USD", "lunch", 0, 1, 1)],
    3, 3, 2)

  /** Ann re-points her transaction to category 2. */
  const CrossOwnersPatch := TransactionPatch(None, None, None, Some(2), Some(1))

  lemma CrossOwnersStoreConsistent()
    ensures WellFormed(CrossOwnersStore) && TransactionsConsistent(CrossOwnersStore)
  {
    var s := CrossOwnersStore;
    assert s.users[0] in s.users && s.categories[0] in s.categories;
    forall x | x in s.transactions
      ensures HasUser(s, x.ownerId) && Categories.OwnsCategory(s, x.ownerId, x.categoryId)
    {
      assert x == s.transactions[0];
    }
  }

  lemma CrossOwnersUpdateMoves()
    ensures UpdateTransaction(CrossOwnersStore, 1, CrossOwnersPatch).Ok?
    ensures !TransactionsConsistent(UpdateTransaction(CrossOwnersStore, 1, CrossOwnersPatch).value.0)
  {
    var s := CrossOwnersStore;
    var t := s.transactions[0];
    var moved := t.(categoryId := 2);
    var s' := SaveTransaction(s, moved);
    assert UpdateTransaction(s, 1, CrossOwnersPatch) == Ok((s', moved)) by {
      assert FindTransactionById(s, 1) == Ok(t);
      assert Categories.FindCategoryById(s, 2) == Ok(s.categories[1]);
    }
    assert s'.transactions[0] == moved;
    assert !Categories.OwnsCategory(s', 1, 2) by {
      forall c | c in s'.categories ensures !(c.id == 2 && c.ownerId == 1) {
        assert c == s.categories[0] || c == s.categories[1];
      }
    }
  }

  /** The new category of an update is looked up without regard to its owner,
      so an owner can move a transaction into another user's category. */
  lemma UpdateTransactionCanCrossOwners()
    ensures exists s: Store, id: nat, patch: TransactionPatch ::
      && WellFormed(s) && TransactionsConsistent(s)
      && (patch.amount.Some? ==> patch.amount.value > 0)
      && UpdateTransaction(s, id, patch).Ok?
      && !TransactionsConsistent(UpdateTransaction(s, id, patch).value.0)
  {
    CrossOwnersStoreConsistent();
    CrossOwnersUpdateMoves();
    var s, patch := CrossOwnersStore, CrossOwnersPatch;
    assert WellFormed(s) && TransactionsConsistent(s) && patch.amount.None?
      && UpdateTransaction(s, 1, patch).Ok?
      && !TransactionsConsistent(UpdateTransaction(s, 1, patch).value.0);
  }

  function FindTransactionById(s: Store, id: nat): (r: Result<Transaction>)
    ensures r.Ok? <==> HasTransaction(s, id)
    ensures r.Ok? ==> r.value in s.transactions && r.value.id == id
    ensures r.Err? ==> r.error == NotFound
  {
    var i := FirstIndex(s.transactions, (t: Transaction) => t.id == id);
    if i < |s.transactions| then Ok(s.transactions[i]) else Err(NotFound)
  }

  function FindTransactionsByUserId(s: Store, userId: nat): (r: seq<Transaction>)
    ensures forall t :: t in r <==> t in s.transactions && t.ownerId == userId
    ensures multiset(r) <= multiset(s.transactions)
  {
    FilterSubMultiset(s.transactions, (t: Transaction) => t.ownerId == userId);
    Filter(s.transactions, (t: Transaction) => t.ownerId == userId)
  }

  function DeleteTransaction(s: Store, id: nat): (r: Result<Store>)
    ensures r.Err? <==> !HasTransaction(s, id)
    ensures r.Err? ==> r.error == NotFound
    ensures r.Ok? ==> forall t :: t in r.value.transactions <==> t in s.transactions && t.id != id
    ensures r.Ok? ==> r.value == s.(transactions := r.value.transactions)
    ensures r.Ok? && WellFormed(s) ==> WellFormed(r.value)
  {
    var (s', affected) := RemoveTransactionRows(s, id);
    if affected == 0 then Err(NotFound) else Ok(s')
  }

  function IsTransactionForUser(s: Store, userId: nat, transactionId: nat): (r: bool)
    ensures r <==> exists t :: t in s.transactions && t.id == transactionId && t.ownerId == userId
  {
    var found := Filter(s.transactions, (t: Transaction) => t.id == transactionId && t.ownerId == userId);
    assert |found| > 0 ==> found[0] in found;
    |found| > 0
  }
}
