/** The ledger as a state machine: every mutating service operation is one
    step from store to store, a failed step leaves the store as it was, and a
    run is a sequence of requests applied one after another. The invariant
    kept throughout is the one the database guarantees (ids handed out by the
    counters, unique per table, references below the counters) together with
    unique e-mail addresses. */
module Ledger {
  import opened Model
  import Users
  import Categories
  import Transactions

  /** One mutating request to the services. */
  datatype Op =
    | AddUser(name: string, email: string, password: string)
    | EditUser(userId: nat, userPatch: Users.UserPatch)
    | RemoveUser(userId: nat)
    | AddCategory(ownerId: nat, categoryName: string, kind: CategoryType)
    | EditCategory(categoryId: nat, categoryPatch: Categories.CategoryPatch)
    | RemoveCategory(categoryId: nat)
    | AddTransaction(input: Transactions.NewTransaction)
    | EditTransaction(transactionId: nat, transactionPatch: Transactions.TransactionPatch)
    | RemoveTransaction(transactionId: nat)

  /** What the request validation admits: amounts are positive. */
  predicate Admissible(op: Op)
  {
    match op
    case AddTransaction(input) => input.amount > 0
    case EditTransaction(_, patch) => patch.amount.Some? ==> patch.amount.value > 0
    case _ => true
  }

  predicate Invariant(s: Store)
  {
    WellFormed(s) && Users.EmailsUnique(s)
  }

  /** Ids are never handed out twice: no counter moves backwards. */
  predicate CountersAdvance(s: Store, s': Store)
  {
    s.nextUserId <= s'.nextUserId && s.nextCategoryId <= s'.nextCategoryId
      && s.nextTransactionId <= s'.nextTransactionId
  }

  /** Ids are never reused: every row of `s'` either keeps an id that already
      had a row in `s`, or carries an id the counter had not handed out yet.
      So an id that was handed out and then deleted never comes back. */
  predicate IdsFresh(s: Store, s': Store)
  {
    && (forall u :: u in s'.users ==> HasUser(s, u.id) || s.nextUserId <= u.id)
    && (forall c :: c in s'.categories ==> HasCategory(s, c.id) || s.nextCategoryId <= c.id)
    && (forall t :: t in s'.transactions ==> HasTransaction(s, t.id) || s.nextTransactionId <= t.id)
  }

  /** Freshness composes along a run, because counters only move forward. */
  lemma IdsFreshTransitive(s: Store, s1: Store, s2: Store)
    requires IdsFresh(s, s1) && IdsFresh(s1, s2) && CountersAdvance(s, s1)
    ensures IdsFresh(s, s2)
  {
    forall u | u in s2.users ensures HasUser(s, u.id) || s.nextUserId <= u.id {
      if HasUser(s1, u.id) {
        var v :| v in s1.users && v.id == u.id;
      }
    }
    forall c | c in s2.categories ensures HasCategory(s, c.id) || s.nextCategoryId <= c.id {
      if HasCategory(s1, c.id) {
        var d :| d in s1.categories && d.id == c.id;
      }
    }
    forall t | t in s2.transactions ensures HasTransaction(s, t.id) || s.nextTransactionId <= t.id {
      if HasTransaction(s1, t.id) {
        var w :| w in s1.transactions && w.id == t.id;
      }
    }
  }

  /** The categories a new user is seeded with all carry fresh ids. */
  lemma CreateUserIdsFresh(s: Store, name: string, email: string, password: string, hash: string -> string)
    ensures Users.CreateUser(s, name, email, password, hash).Ok? ==>
      IdsFresh(s, Users.CreateUser(s, name, email, password, hash).value.0)
  {
    var r := Users.CreateUser(s, name, email, password, hash);
    if r.Ok? {
      var cs := r.value.0.categories;
      var n := |s.categories|;
      forall k | n <= k < |cs| ensures s.nextCategoryId <= cs[k].id {
        assert cs[n + (k - n)].id == s.nextCategoryId + (k - n);
      }
      AppendedCategoriesFresh(s, cs);
    }
  }

  /** Rows appended past the existing ones under ids from the counter on
      carry fresh ids. */
  lemma AppendedCategoriesFresh(s: Store, cs: seq<Category>)
    requires |s.categories| <= |cs| && cs[..|s.categories|] == s.categories
    requires forall k :: |s.categories| <= k < |cs| ==> s.nextCategoryId <= cs[k].id
    ensures forall c :: c in cs ==> HasCategory(s, c.id) || s.nextCategoryId <= c.id
  {
    var n := |s.categories|;
    forall c | c in cs ensures HasCategory(s, c.id) || s.nextCategoryId <= c.id {
      var k :| 0 <= k < |cs| && cs[k] == c;
      if k < n {
        assert cs[..n][k] == c;
      }
    }
  }

  /** Saving, editing or removing rows keeps ids that already had a row. */
  lemma EditUserIdsFresh(s: Store, id: nat, patch: Users.UserPatch, hash: string -> string)
    ensures Users.UpdateUser(s, id, patch, hash).Ok? ==> IdsFresh(s, Users.UpdateUser(s, id, patch, hash).value.0)
  {
    var r := Users.UpdateUser(s, id, patch, hash);
    if r.Ok? {
      forall u | u in r.value.0.users ensures HasUser(s, u.id) {
        assert u in s.users || u == r.value.1;
      }
      assert r.value.0.categories == s.categories && r.value.0.transactions == s.transactions;
    }
  }

  lemma AddCategoryIdsFresh(s: Store, ownerId: nat, name: string, kind: CategoryType)
    ensures Categories.CreateCategory(s, ownerId, name, kind).Ok? ==>
      IdsFresh(s, Categories.CreateCategory(s, ownerId, name, kind).value.0)
  {
    var r := Categories.CreateCategory(s, ownerId, name, kind);
    if r.Ok? {
      forall c | c in r.value.0.categories ensures HasCategory(s, c.id) || s.nextCategoryId <= c.id {
        assert c in s.categories || c == r.value.1;
      }
    }
  }

  lemma EditCategoryIdsFresh(s: Store, id: nat, patch: Categories.CategoryPatch)
    ensures Categories.UpdateCategory(s, id, patch).Ok? ==> IdsFresh(s, Categories.UpdateCategory(s, id, patch).value.0)
  {
    var r := Categories.UpdateCategory(s, id, patch);
    if r.Ok? {
      forall c | c in r.value.0.categories ensures HasCategory(s, c.id) {
        assert c in s.categories || c == r.value.1;
      }
    }
  }

  lemma AddTransactionIdsFresh(s: Store, input: Transactions.NewTransaction)
    requires input.amount > 0
    ensures Transactions.CreateTransaction(s, input).Ok? ==> IdsFresh(s, Transactions.CreateTransaction(s, input).value.0)
  {
    var r := Transactions.CreateTransaction(s, input);
    if r.Ok? {
      forall t | t in r.value.0.transactions ensures HasTransaction(s, t.id) || s.nextTransactionId <= t.id {
        assert t in s.transactions || t == r.value.1;
      }
    }
  }

  lemma EditTransactionIdsFresh(s: Store, id: nat, patch: Transactions.TransactionPatch)
    requires patch.amount.Some? ==> patch.amount.value > 0
    ensures Transactions.UpdateTransaction(s, id, patch).Ok? ==>
      IdsFresh(s, Transactions.UpdateTransaction(s, id, patch).value.0)
  {
    var r := Transactions.UpdateTransaction(s, id, patch);
    if r.Ok? {
      forall t | t in r.value.0.transactions ensures HasTransaction(s, t.id) {
        assert t in s.transactions || t == r.value.1;
      }
    }
  }

  /** The tables `op` may change; the others are left exactly as they were. */
  predicate Touches(op: Op, s: Store, s': Store)
  {
    match op
    case AddUser(_, _, _) => s'.transactions == s.transactions
    case EditUser(_, _) | RemoveUser(_) => s'.categories == s.categories && s'.transactions == s.transactions
    case AddCategory(_, _, _) | EditCategory(_, _) | RemoveCategory(_) =>
      s'.users == s.users && s'.transactions == s.transactions
    case AddTransaction(_) | EditTransaction(_, _) | RemoveTransaction(_) =>
      s'.users == s.users && s'.categories == s.categories
  }

  /** Applies one request; the error is the service's. */
  function Step(s: Store, op: Op, hash: string -> string): (r: Result<Store>)
    requires Admissible(op)
    ensures r.Ok? && Invariant(s) ==> Invariant(r.value)
    ensures r.Ok? ==> CountersAdvance(s, r.value) && Touches(op, s, r.value)
    ensures r.Ok? ==> IdsFresh(s, r.value)
  {
    match op
    case AddUser(_, _, _) => UserStep(s, op, hash)
    case EditUser(_, _) => UserStep(s, op, hash)
    case RemoveUser(_) => UserStep(s, op, hash)
    case AddCategory(_, _, _) => CategoryStep(s, op)
    case EditCategory(_, _) => CategoryStep(s, op)
    case RemoveCategory(_) => CategoryStep(s, op)
    case AddTransaction(_) => TransactionStep(s, op)
    case EditTransaction(_, _) => TransactionStep(s, op)
    case RemoveTransaction(_) => TransactionStep(s, op)
  }

  /** A request to the users service. */
  function UserStep(s: Store, op: Op, hash: string -> string): (r: Result<Store>)
    requires op.AddUser? || op.EditUser? || op.RemoveUser?
    ensures r.Ok? && Invariant(s) ==> Invariant(r.value)
    ensures r.Ok? ==> CountersAdvance(s, r.value) && Touches(op, s, r.value)
    ensures r.Ok? ==> IdsFresh(s, r.value)
  {
    match op
    case AddUser(name, email, password) =>
      (match Users.CreateUser(s, name, email, password, hash)
       case Err(e) => Err(e)
       case Ok((s', _)) =>
         assert Invariant(s) ==> Users.EmailsUnique(s') by {
           if Invariant(s) {
             Users.CreateUserPreservesEmailUniqueness(s, name, email, password, hash);
           }
         }
         CreateUserIdsFresh(s, name, email, password, hash);
         Ok(s'))
    case EditUser(id, patch) =>
      (match Users.UpdateUser(s, id, patch, hash)
       case Err(e) => Err(e)
       case Ok((s', _)) =>
         assert Invariant(s) ==> Users.EmailsUnique(s') by {
           if Invariant(s) {
             Users.UpdateUserPreservesEmailUniqueness(s, id, patch, hash);
           }
         }
         EditUserIdsFresh(s, id, patch, hash);
         Ok(s'))
    case RemoveUser(id) => Users.DeleteUser(s, id)
  }

  /** A request to the categories service. */
  function CategoryStep(s: Store, op: Op): (r: Result<Store>)
    requires op.AddCategory? || op.EditCategory? || op.RemoveCategory?
    ensures r.Ok? && Invariant(s) ==> Invariant(r.value)
    ensures r.Ok? ==> CountersAdvance(s, r.value) && Touches(op, s, r.value)
    ensures r.Ok? ==> IdsFresh(s, r.value)
  {
    match op
    case AddCategory(ownerId, name, kind) =>
      AddCategoryIdsFresh(s, ownerId, name, kind);
      (match Categories.CreateCategory(s, ownerId, name, kind)
       case Err(e) => Err(e)
       case Ok((s', _)) => Ok(s'))
    case EditCategory(id, patch) =>
      EditCategoryIdsFresh(s, id, patch);
      (match Categories.UpdateCategory(s, id, patch)
       case Err(e) => Err(e)
       case Ok((s', _)) => Ok(s'))
    case RemoveCategory(id) => Categories.DeleteCategory(s, id)
  }

  /** A request to the transactions service. */
  function TransactionStep(s: Store, op: Op): (r: Result<Store>)
    requires op.AddTransaction? || op.EditTransaction? || op.RemoveTransaction?
    requires Admissible(op)
    ensures r.Ok? && Invariant(s) ==> Invariant(r.value)
    ensures r.Ok? ==> CountersAdvance(s, r.value) && Touches(op, s, r.value)
    ensures r.Ok? ==> IdsFresh(s, r.value)
  {
    match op
    case AddTransaction(input) =>
      AddTransactionIdsFresh(s, input);
      (match Transactions.CreateTransaction(s, input)
       case Err(e) => Err(e)
       case Ok((s', _)) => Ok(s'))
    case EditTransaction(id, patch) =>
      EditTransactionIdsFresh(s, id, patch);
      (match Transactions.UpdateTransaction(s, id, patch)
       case Err(e) => Err(e)
       case Ok((s', _)) => Ok(s'))
    case RemoveTransaction(id) => Transactions.DeleteTransaction(s, id)
  }

  /** Applies the requests in order; a request that fails changes nothing and
      the next one sees the store as it was. */
  function Run(s: Store, ops: seq<Op>, hash: string -> string): (r: Store)
    requires forall i :: 0 <= i < |ops| ==> Admissible(ops[i])
    ensures Invariant(s) ==> Invariant(r)
    ensures CountersAdvance(s, r)
    ensures IdsFresh(s, r)
    decreases |ops|
  {
    if |ops| == 0 then s
    else
      var next := match Step(s, ops[0], hash) case Ok(s') => s' case Err(_) => s;
      var r := Run(next, ops[1..], hash);
      IdsFreshTransitive(s, next, r);
      r
  }

  /** Starting from the empty database, every reachable store satisfies the
      invariant. */
  lemma {:induction false} RunFromEmpty(ops: seq<Op>, hash: string -> string)
    requires forall i :: 0 <= i < |ops| ==> Admissible(ops[i])
    ensures Invariant(Run(EmptyStore, ops, hash))
  {
    assert Invariant(EmptyStore);
  }
}
