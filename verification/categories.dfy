/** The category ledger: per-user categories, unique by (owner, name, type)
    on creation, with owner-scoped and unscoped lookups, partial update,
    delete, and the fixed catalogue seeded for every new user. */
module Categories {
  import opened Seqs
  import opened Model

  /** Two categories clash when they have the same owner, name and type. */
  predicate SameKey(a: Category, b: Category)
  {
    a.ownerId == b.ownerId && a.name == b.name && a.kind == b.kind
  }

  /** No user has two categories with the same name and type. */
  predicate CategoryKeysUnique(s: Store)
  {
    forall i, j :: 0 <= i < j < |s.categories| ==> !SameKey(s.categories[i], s.categories[j])
  }

  /** The user already has a category with this name and type. */
  predicate NameTaken(s: Store, userId: nat, name: string, kind: CategoryType)
  {
    exists c :: c in s.categories && c.ownerId == userId && c.name == name && c.kind == kind
  }

  /** A category with id `categoryId` owned by `userId` exists. */
  predicate OwnsCategory(s: Store, userId: nat, categoryId: nat)
  {
    exists c :: c in s.categories && c.id == categoryId && c.ownerId == userId
  }

  /** The store-level change of a successful create or seed: the given rows are
      appended to the categories, the counter moves past them, and nothing else
      changes. */
  predicate AppendsCategories(s: Store, s': Store, added: seq<Category>)
  {
    s' == s.(categories := s.categories + added, nextCategoryId := s.nextCategoryId + |added|)
  }

  function CreateCategory(s: Store, userId: nat, name: string, kind: CategoryType): (r: Result<(Store, Category)>)
    ensures !HasUser(s, userId) ==> r == Err(NotFound)
    ensures HasUser(s, userId) && NameTaken(s, userId, name, kind) ==> r == Err(Conflict)
    ensures r.Ok? <==> HasUser(s, userId) && !NameTaken(s, userId, name, kind)
    ensures r.Ok? ==>
      && r.value.1.ownerId == userId && r.value.1.name == name && r.value.1.kind == kind
      && r.value.1.id == s.nextCategoryId
      && AppendsCategories(s, r.value.0, [r.value.1])
    ensures r.Ok? && WellFormed(s) ==> WellFormed(r.value.0)
  {
    match FindUserById(s, userId)
    case Err(e) => Err(e)
    case Ok(user) =>
      var i := FirstIndex(s.categories, (c: Category) => c.name == name && c.kind == kind && c.ownerId == userId);
      if i < |s.categories| then Err(Conflict)
      else
        assert !NameTaken(s, userId, name, kind) by {
          forall c | c in s.categories ensures !(c.ownerId == userId && c.name == name && c.kind == kind) {
            var k :| 0 <= k < |s.categories| && s.categories[k] == c;
          }
        }
        Ok(InsertCategory(s, name, kind, user.id))
  }

  /** A successful create keeps categories unique per (owner, name, type). */
  lemma CreateCategoryPreservesUniqueness(s: Store, userId: nat, name: string, kind: CategoryType)
    requires CategoryKeysUnique(s)
    ensures CreateCategory(s, userId, name, kind).Ok? ==> CategoryKeysUnique(CreateCategory(s, userId, name, kind).value.0)
  {
    var r := CreateCategory(s, userId, name, kind);
    if r.Ok? {
      var cs := r.value.0.categories;
      forall i, j | 0 <= i < j < |cs| ensures !SameKey(cs[i], cs[j]) {
        if j == |s.categories| {
          assert cs[i] in s.categories;
        }
      }
    }
  }

  /** What `updateCategory` may overwrite; `userId` is accepted but is not a
      column of the category, so it has no effect. */
  datatype CategoryPatch = CategoryPatch(name: Option<string>, kind: Option<CategoryType>, userId: Option<nat>)

  function UpdateCategory(s: Store, id: nat, patch: CategoryPatch): (r: Result<(Store, Category)>)
    ensures r.Err? <==> !HasCategory(s, id)
    ensures r.Err? ==> r.error == NotFound
    ensures r.Ok? ==>
      FindCategoryById(s, id).Ok? &&
      var c := FindCategoryById(s, id).value;
      var c' := r.value.1;
      && c'.id == id && c'.ownerId == c.ownerId
      && c'.name == (if patch.name.Some? then patch.name.value else c.name)
      && c'.kind == (if patch.kind.Some? then patch.kind.value else c.kind)
      && r.value.0 == SaveCategory(s, c')
    ensures r.Ok? && WellFormed(s) ==> WellFormed(r.value.0)
  {
    match FindCategoryById(s, id)
    case Err(e) => Err(e)
    case Ok(c) =>
      var c' := c.(name := patch.name.GetOr(c.name), kind := patch.kind.GetOr(c.kind));
      Ok((SaveCategory(s, c'), c'))
  }

  /** Update does not re-check the (owner, name, type) uniqueness: renaming a
      category onto a sibling's name and type succeeds and leaves a duplicate. */
  lemma UpdateCategoryCanBreakUniqueness()
    ensures exists s: Store, id: nat, patch: CategoryPatch ::
      && WellFormed(s) && CategoryKeysUnique(s)
      && UpdateCategory(s, id, patch).Ok?
      && !CategoryKeysUnique(UpdateCategory(s, id, patch).value.0)
  {
    var a := Category(1, "Food", Expense, 1);
    var b := Category(2, "Fun", Expense, 1);
    var s := Store([User(1, "Ann", "ann@example.com", "h")], [a, b], [], 2, 3, 1);
    var patch := CategoryPatch(Some("Food"), None, None);
    assert s.categories[1].id == 2;
    var r := UpdateCategory(s, 2, patch);
    assert r.value.0.categories[0] == a;
    assert SameKey(r.value.0.categories[0], r.value.0.categories[1]);
  }

  function FindCategoryById(s: Store, id: nat): (r: Result<Category>)
    ensures r.Ok? <==> HasCategory(s, id)
    ensures r.Ok? ==> r.value in s.categories && r.value.id == id
    ensures r.Err? ==> r.error == NotFound
  {
    var i := FirstIndex(s.categories, (c: Category) => c.id == id);
    if i < |s.categories| then Ok(s.categories[i]) else Err(NotFound)
  }

  function FindCategoriesByUserId(s: Store, userId: nat): (r: seq<Category>)
    ensures forall c :: c in r <==> c in s.categories && c.ownerId == userId
    ensures multiset(r) <= multiset(s.categories)
  {
    FilterSubMultiset(s.categories, (c: Category) => c.ownerId == userId);
    Filter(s.categories, (c: Category) => c.ownerId == userId)
  }

  /** Listing a user's categories after appending rows that all belong to
      that user, to a table where none did, yields exactly the appended rows. */
  lemma ListingAfterAppend(s: Store, s': Store, added: seq<Category>, userId: nat)
    requires s'.categories == s.categories + added
    requires forall c :: c in s.categories ==> c.ownerId != userId
    requires forall c :: c in added ==> c.ownerId == userId
    ensures FindCategoriesByUserId(s', userId) == added
  {
    var owned := (c: Category) => c.ownerId == userId;
    FilterConcat(s.categories, added, owned);
    FilterKeepsAll(added, owned);
    FilterDropsAll(s.categories, owned);
  }

  function FindCategoryByIdAndUserId(s: Store, categoryId: nat, userId: nat): (r: Result<Category>)
    ensures r.Ok? <==> OwnsCategory(s, userId, categoryId)
    ensures r.Ok? ==> r.value in s.categories && r.value.id == categoryId && r.value.ownerId == userId
    ensures r.Err? ==> r.error == NotFound
  {
    var found := Filter(s.categories, (c: Category) => c.id == categoryId && c.ownerId == userId);
    if |found| == 0 then Err(NotFound)
    else
      assert found[0] in found;
      Ok(found[0])
  }

  function IsCategoryForUser(s: Store, userId: nat, categoryId: nat): (r: bool)
    ensures r <==> OwnsCategory(s, userId, categoryId)
  {
    var found := Filter(s.categories, (c: Category) => c.id == categoryId && c.ownerId == userId);
    assert |found| > 0 ==> found[0] in found;
    |found| > 0
  }

  /** The ownership check and the owner-scoped lookup agree. */
  lemma IsCategoryForUserMatchesScopedLookup(s: Store, userId: nat, categoryId: nat)
    ensures IsCategoryForUser(s, userId, categoryId) <==> FindCategoryByIdAndUserId(s, categoryId, userId).Ok?
  {
  }

  function DeleteCategory(s: Store, id: nat): (r: Result<Store>)
    ensures r.Err? <==> !HasCategory(s, id)
    ensures r.Err? ==> r.error == NotFound
    ensures r.Ok? ==> forall c :: c in r.value.categories <==> c in s.categories && c.id != id
    ensures r.Ok? ==> r.value == s.(categories := r.value.categories)
    ensures r.Ok? && WellFormed(s) ==> WellFormed(r.value)
  {
    var (s', affected) := RemoveCategoryRows(s, id);
    if affected == 0 then Err(NotFound) else Ok(s')
  }

  /** The catalogue seeded for every new user: five income categories, then
      ten expense categories, in this order. */
  const DefaultIncomeCategories: seq<(string, CategoryType)> := [
    ("Salary", Income),
    ("Freelance Income", Income),
    ("Investments", Income),
    ("Rental Income", Income),
    ("Gift Income", Income)
  ]

  const DefaultExpenseCategories: seq<(string, CategoryType)> := [
    ("Rent/Mortgage", Expense),
    ("Utilities", Expense),
    ("Groceries", Expense),
    ("Transportation", Expense),
    ("Dining Out", Expense),
    ("Entertainment", Expense),
    ("Travel", Expense),
    ("Health Care", Expense),
    ("Education", Expense),
    ("Insurance", Expense)
  ]

  const DefaultCategories: seq<(string, CategoryType)> := DefaultIncomeCategories + DefaultExpenseCategories

  /** Inserts one category per entry, in order, all owned by `ownerId`, with
      no uniqueness check. */
  function SeedCategories(s: Store, ownerId: nat, entries: seq<(string, CategoryType)>): (r: (Store, seq<Category>))
    ensures |r.1| == |entries|
    ensures forall i :: 0 <= i < |entries| ==>
      r.1[i] == Category(s.nextCategoryId + i, entries[i].0, entries[i].1, ownerId)
    ensures AppendsCategories(s, r.0, r.1)
    ensures WellFormed(s) && ownerId < s.nextUserId ==> WellFormed(r.0)
    decreases |entries|
  {
    if |entries| == 0 then (s, [])
    else
      var (s1, c) := InsertCategory(s, entries[0].0, entries[0].1, ownerId);
      var (s2, cs) := SeedCategories(s1, ownerId, entries[1..]);
      assert s2.categories == s.categories + ([c] + cs);
      (s2, [c] + cs)
  }

  function CreateDefaultCategoriesForUser(s: Store, user: User): (r: (Store, seq<Category>))
    ensures |r.1| == 15
    ensures forall i :: 0 <= i < 15 ==>
      && r.1[i].ownerId == user.id
      && r.1[i].id == s.nextCategoryId + i
      && r.1[i].name == DefaultCategories[i].0
      && r.1[i].kind == DefaultCategories[i].1
    ensures forall i :: 0 <= i < 5 ==> r.1[i].kind == Income
    ensures forall i :: 5 <= i < 15 ==> r.1[i].kind == Expense
    ensures forall i, j :: 0 <= i < j < 15 ==> r.1[i].name != r.1[j].name
    ensures AppendsCategories(s, r.0, r.1)
    ensures WellFormed(s) && user.id < s.nextUserId ==> WellFormed(r.0)
  {
    DefaultCatalogueShape();
    SeedCategories(s, user.id, DefaultCategories)
  }

  /** The catalogue has 15 entries with pairwise distinct names: 5 income
      entries first, then 10 expense entries. */
  lemma DefaultCatalogueShape()
    ensures |DefaultCategories| == 15
    ensures forall i :: 0 <= i < 5 ==> DefaultCategories[i].1 == Income
    ensures forall i :: 5 <= i < 15 ==> DefaultCategories[i].1 == Expense
    ensures forall i, j :: 0 <= i < j < 15 ==> DefaultCategories[i].0 != DefaultCategories[j].0
  {
  }
}
