/** The ledger's entities and the in-memory store that stands in for the three
    database tables (users, categories, transactions), together with the
    repository primitives every service shares: keyed insert, save-by-id,
    delete-by-id, and the user point lookup. */
module Model {
  import opened Seqs

  datatype Option<T> = None | Some(value: T)
  {
    function GetOr(default: T): T
    {
      if Some? then value else default
    }
  }

  /** The two outcomes the services report to their callers. */
  datatype Error = NotFound | Conflict

  datatype Result<T> = Ok(value: T) | Err(error: Error)

  /** Whether a category records money coming in or going out. */
  datatype CategoryType = Income | Expense

  /** A currency code such as "USD" or "EUR"; never converted. */
  type Currency = string

  /** The column default every transaction is created with. */
  const DefaultCurrency: Currency := "USD"

  /** A user; `passwordHash` is the value the hash function produced; it is never inspected. */
  datatype User = User(id: nat, name: string, email: string, passwordHash: string)

  /** A category; `ownerId` is the id of the owning user. */
  datatype Category = Category(id: nat, name: string, kind: CategoryType, ownerId: nat)

  /** A transaction; `date` is the event time as a timestamp, `ownerId` and
      `categoryId` the ids of the owning user and the referenced category. */
  datatype Transaction = Transaction(
    id: nat,
    amount: int,
    currency: Currency,
    description: string,
    date: int,
    ownerId: nat,
    categoryId: nat)

  /** The three tables in insertion order, and for each one the id the next
      inserted row receives (the auto-increment counter). */
  datatype Store = Store(
    users: seq<User>,
    categories: seq<Category>,
    transactions: seq<Transaction>,
    nextUserId: nat,
    nextCategoryId: nat,
    nextTransactionId: nat)

  const EmptyStore := Store([], [], [], 1, 1, 1)

  predicate HasUser(s: Store, id: nat)
  {
    exists u :: u in s.users && u.id == id
  }

  predicate HasCategory(s: Store, id: nat)
  {
    exists c :: c in s.categories && c.id == id
  }

  predicate HasTransaction(s: Store, id: nat)
  {
    exists t :: t in s.transactions && t.id == id
  }

  /** The store-level facts the database itself guarantees: every id was
      handed out by its counter, ids are unique within a table, and every
      reference names an id that was handed out. */
  predicate WellFormed(s: Store)
  {
    && (forall u :: u in s.users ==> u.id < s.nextUserId)
    && (forall c :: c in s.categories ==> c.id < s.nextCategoryId && c.ownerId < s.nextUserId)
    && (forall t :: t in s.transactions ==>
          t.id < s.nextTransactionId && t.ownerId < s.nextUserId && t.categoryId < s.nextCategoryId)
    && (forall i, j :: 0 <= i < j < |s.users| ==> s.users[i].id != s.users[j].id)
    && (forall i, j :: 0 <= i < j < |s.categories| ==> s.categories[i].id != s.categories[j].id)
    && (forall i, j :: 0 <= i < j < |s.transactions| ==> s.transactions[i].id != s.transactions[j].id)
  }

  function UserId(u: User): nat { u.id }
  function UserEmail(u: User): string { u.email }
  function CategoryId(c: Category): nat { c.id }
  function TransactionId(t: Transaction): nat { t.id }

  /** The user with id `id`, or `NotFound`. */
  function FindUserById(s: Store, id: nat): (r: Result<User>)
    ensures r.Ok? <==> HasUser(s, id)
    ensures r.Ok? ==> r.value in s.users && r.value.id == id
    ensures r.Err? ==> r.error == NotFound
  {
    var i := FirstIndex(s.users, (u: User) => u.id == id);
    if i < |s.users| then Ok(s.users[i]) else Err(NotFound)
  }

  /** Inserts a new user under the next free user id. */
  function InsertUser(s: Store, name: string, email: string, passwordHash: string): (r: (Store, User))
    ensures r.1 == User(s.nextUserId, name, email, passwordHash)
    ensures r.0 == s.(users := s.users + [r.1], nextUserId := s.nextUserId + 1)
    ensures WellFormed(s) ==> WellFormed(r.0)
  {
    var u := User(s.nextUserId, name, email, passwordHash);
    (s.(users := s.users + [u], nextUserId := s.nextUserId + 1), u)
  }

  /** Inserts a new category under the next free category id. */
  function InsertCategory(s: Store, name: string, kind: CategoryType, ownerId: nat): (r: (Store, Category))
    ensures r.1 == Category(s.nextCategoryId, name, kind, ownerId)
    ensures r.0 == s.(categories := s.categories + [r.1], nextCategoryId := s.nextCategoryId + 1)
    ensures WellFormed(s) && ownerId < s.nextUserId ==> WellFormed(r.0)
  {
    var c := Category(s.nextCategoryId, name, kind, ownerId);
    (s.(categories := s.categories + [c], nextCategoryId := s.nextCategoryId + 1), c)
  }

  /** Inserts a new transaction under the next free transaction id. */
  function InsertTransaction(s: Store, amount: int, currency: Currency, description: string, date: int,
                             ownerId: nat, categoryId: nat): (r: (Store, Transaction))
    ensures r.1 == Transaction(s.nextTransactionId, amount, currency, description, date, ownerId, categoryId)
    ensures r.0 == s.(transactions := s.transactions + [r.1], nextTransactionId := s.nextTransactionId + 1)
    ensures WellFormed(s) && ownerId < s.nextUserId && categoryId < s.nextCategoryId ==> WellFormed(r.0)
  {
    var t := Transaction(s.nextTransactionId, amount, currency, description, date, ownerId, categoryId);
    (s.(transactions := s.transactions + [t], nextTransactionId := s.nextTransactionId + 1), t)
  }

  /** Saves `u` over every row with its id; all other rows keep their values. */
  function SaveUser(s: Store, u: User): (r: Store)
    ensures |r.users| == |s.users|
    ensures forall i :: 0 <= i < |s.users| ==> r.users[i] == if s.users[i].id == u.id then u else s.users[i]
    ensures r == s.(users := r.users)
    ensures forall x :: x in r.users ==> x in s.users || x == u
    ensures WellFormed(s) ==> WellFormed(r)
  {
    s.(users := seq(|s.users|, i requires 0 <= i < |s.users| =>
      if s.users[i].id == u.id then u else s.users[i]))
  }

  function SaveCategory(s: Store, c: Category): (r: Store)
    ensures |r.categories| == |s.categories|
    ensures forall i :: 0 <= i < |s.categories| ==>
      r.categories[i] == if s.categories[i].id == c.id then c else s.categories[i]
    ensures r == s.(categories := r.categories)
    ensures forall x :: x in r.categories ==> x in s.categories || x == c
    ensures WellFormed(s) && c.ownerId < s.nextUserId ==> WellFormed(r)
  {
    s.(categories := seq(|s.categories|, i requires 0 <= i < |s.categories| =>
      if s.categories[i].id == c.id then c else s.categories[i]))
  }

  function SaveTransaction(s: Store, t: Transaction): (r: Store)
    ensures |r.transactions| == |s.transactions|
    ensures forall i :: 0 <= i < |s.transactions| ==>
      r.transactions[i] == if s.transactions[i].id == t.id then t else s.transactions[i]
    ensures r == s.(transactions := r.transactions)
    ensures forall x :: x in r.transactions ==> x in s.transactions || x == t
    ensures WellFormed(s) && t.ownerId < s.nextUserId && t.categoryId < s.nextCategoryId ==> WellFormed(r)
  {
    s.(transactions := seq(|s.transactions|, i requires 0 <= i < |s.transactions| =>
      if s.transactions[i].id == t.id then t else s.transactions[i]))
  }

  /** Deletes every user row with id `id`; `affected` is how many went. */
  function RemoveUserRows(s: Store, id: nat): (r: (Store, nat))
    ensures forall u :: u in r.0.users <==> u in s.users && u.id != id
    ensures r.1 == 0 <==> !HasUser(s, id)
    ensures r.0 == s.(users := r.0.users)
    ensures WellFormed(s) ==> WellFormed(r.0)
    ensures KeysDistinct(s.users, UserEmail) ==> KeysDistinct(r.0.users, UserEmail)
  {
    var keep := (u: User) => u.id != id;
    var kept := Filter(s.users, keep);
    FilterKeepsAll(s.users, keep);
    assert WellFormed(s) ==> KeysDistinct(s.users, UserId);
    FilterUsersKeepsKeys(s.users, keep);
    (s.(users := kept), |s.users| - |kept|)
  }

  lemma FilterUsersKeepsKeys(us: seq<User>, keep: User -> bool)
    ensures KeysDistinct(us, UserId) ==> KeysDistinct(Filter(us, keep), UserId)
    ensures KeysDistinct(us, UserEmail) ==> KeysDistinct(Filter(us, keep), UserEmail)
  {
    if KeysDistinct(us, UserId) {
      FilterKeepsKeysDistinct(us, keep, UserId);
    }
    if KeysDistinct(us, UserEmail) {
      FilterKeepsKeysDistinct(us, keep, UserEmail);
    }
  }

  function RemoveCategoryRows(s: Store, id: nat): (r: (Store, nat))
    ensures forall c :: c in r.0.categories <==> c in s.categories && c.id != id
    ensures r.1 == 0 <==> !HasCategory(s, id)
    ensures r.0 == s.(categories := r.0.categories)
    ensures WellFormed(s) ==> WellFormed(r.0)
  {
    var keep := (c: Category) => c.id != id;
    var kept := Filter(s.categories, keep);
    FilterKeepsAll(s.categories, keep);
    assert WellFormed(s) ==> KeysDistinct(kept, CategoryId) by {
      if WellFormed(s) {
        assert KeysDistinct(s.categories, CategoryId);
        FilterKeepsKeysDistinct(s.categories, keep, CategoryId);
      }
    }
    (s.(categories := kept), |s.categories| - |kept|)
  }

  function RemoveTransactionRows(s: Store, id: nat): (r: (Store, nat))
    ensures forall t :: t in r.0.transactions <==> t in s.transactions && t.id != id
    ensures r.1 == 0 <==> !HasTransaction(s, id)
    ensures r.0 == s.(transactions := r.0.transactions)
    ensures WellFormed(s) ==> WellFormed(r.0)
  {
    var keep := (t: Transaction) => t.id != id;
    var kept := Filter(s.transactions, keep);
    FilterKeepsAll(s.transactions, keep);
    assert WellFormed(s) ==> KeysDistinct(kept, TransactionId) by {
      if WellFormed(s) {
        assert KeysDistinct(s.transactions, TransactionId);
        FilterKeepsKeysDistinct(s.transactions, keep, TransactionId);
      }
    }
    (s.(transactions := kept), |s.transactions| - |kept|)
  }
}
