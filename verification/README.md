# FundTrack ledger core in Dafny

FundTrack is a personal-finance backend. Users register with a unique e-mail
address and receive a fixed catalogue of fifteen income and expense
categories. They record transactions (an amount, a currency, a description,
a date and one of their categories) and ask for reports:

- their most recent transactions;
- a window of transactions by date;
- totals per currency and category type;
- their most used categories.

Every request arrives with the caller's id taken from a verified token.

This project models that core as pure functions over an in-memory store that
stands in for the three database tables. It proves what the services and
the two authenticated APIs guarantee, and what they do not.

- `seqs.dfy` (module `Seqs`): generic sequence operations. It holds filter,
  first index, de-duplication, a descending sort, and `TopK`, which models
  `ORDER BY … DESC LIMIT k`.
- `aggregation.dfy` (module `Aggregation`): `GroupSum`, a first-seen-order
  group-by-and-sum. Both reports are built on it.
- `model.dfy` (module `Model`):
  - the entities `User`, `Category` and `Transaction`;
  - the `Store` with its auto-increment counters;
  - `Result` with the two errors `NotFound` and `Conflict`;
  - the repository primitives (insert, save-by-id, delete-by-id) and their
    `WellFormed` invariant (ids handed out by the counters, unique per table,
    references below the counters).
- `users.dfy`, `categories.dfy` and `transactions.dfy` (modules `Users`,
  `Categories`, `Transactions`): the three services.
- `queries.dfy` (module `TransactionQueries`): the read-only reports of the
  transactions service.
- `resolvers.dfy` (modules `TransactionsResolver`, `CategoriesResolver`):
  the ownership gates the two APIs add on top of the services.
- `ledger.dfy` (module `Ledger`): the services as a state machine. Every
  mutating request is one `Step`, and `Run` applies a sequence of them. It
  proves that the store invariant and e-mail uniqueness hold in every store
  reachable from the empty database. It also proves that a request never
  brings back an id that was handed out and deleted, and that each request
  changes only the tables it is about.

Where the code behaves surprisingly, the model follows the code:

- **No currency in transaction requests.** Neither the create nor the update
  request carries a currency. A new transaction therefore always gets the
  column default `USD`, and an update keeps the stored currency.
- **`updateCategory` ignores the owner.** It copies the request onto the
  category, but the request's `userId` is not a column, so the owner never
  changes. The categories API performs no ownership check at all before
  updating.
- **`updateTransaction` looks the new category up by id only.** It never
  scopes the lookup to the owner, so an owner can move a transaction into
  another user's category (`Transactions.UpdateTransactionCanCrossOwners`).
- **`updateTransaction` compares owners strictly.** It compares the stored
  owner with the request's `userId` using strict inequality. A request
  without a `userId` is therefore refused with `Conflict`.
- **JavaScript truthiness decides what counts as supplied.** In
  `updateUser`, empty strings count as "not supplied". In
  `updateTransaction`, a `categoryId` of 0 counts as "not supplied".
- **A limit of 0 means no limit.** The most-common query passes its limit to
  the query builder, which writes no LIMIT clause for 0. Such a call lists
  every used category of the type. The API itself always asks for five.

## Model

| member | source | states |
|---|---|---|
| Model.FindUserById | src/users/users.service.ts:78-84 | succeeds exactly when a user with the id exists, returns that user, and fails with `NotFound` otherwise |
| Model.InsertUser | src/users/users.service.ts:35-40 | a saved new user receives the next id, the counter moves past it, and a well-formed store stays well-formed |
| Model.InsertCategory | src/categories/categories.service.ts:46-48 | a saved new category receives the next id, and the store stays well-formed when the owner id was handed out |
| Model.InsertTransaction | src/transactions/transactions.service.ts:48-52 | a saved new transaction receives the next id, and the store stays well-formed when owner and category ids were handed out |
| Model.SaveUser | src/users/users.service.ts:71 | saving replaces exactly the rows with the saved id, and well-formedness is kept |
| Model.SaveCategory | src/categories/categories.service.ts:60 | saving replaces exactly the rows with the saved id, and well-formedness is kept when the owner id was handed out |
| Model.SaveTransaction | src/transactions/transactions.service.ts:85 | saving replaces exactly the rows with the saved id, and well-formedness is kept when its references were handed out |
| Model.RemoveUserRows | src/users/users.service.ts:86-91 | delete-by-id keeps exactly the other rows, reports zero affected rows iff no row had the id, and keeps ids and e-mails unique |
| Model.RemoveCategoryRows | src/categories/categories.service.ts:90-95 | delete-by-id keeps exactly the other categories, reports zero affected iff none had the id, and keeps the store well-formed |
| Model.RemoveTransactionRows | src/transactions/transactions.service.ts:211-216 | delete-by-id keeps exactly the other transactions, reports zero affected iff none had the id, and keeps the store well-formed |
| Seqs.TopK | src/transactions/transactions.service.ts:104-112 | `ORDER BY key DESC LIMIT k`: the result has min(k, n) elements drawn from the input, in non-increasing key order, and every element left out has a key no greater than any listed one |
| Seqs.TopKMembers | src/transactions/transactions.service.ts:181-182 | every listed element comes from the input, and an input element is left out only when the limit is reached |
| Aggregation.GroupSum | src/transactions/transactions.service.ts:121-143 | the fold creates one group per distinct key in first-seen order, and each group's total is the sum of that key's values |
| Aggregation.GroupSumPreservesSum | src/transactions/transactions.service.ts:125-141 | the group totals add up to the sum of all values, so the fold neither loses nor double-counts an amount |
| Users.FindUserByEmail | src/users/users.service.ts:93-95 | returns a user with that address exactly when one exists; a miss is `None`, not an error |
| Users.CreateUser | src/users/users.service.ts:25-45 | fails with `Conflict` iff the address is taken; otherwise it appends the user with the hashed password under the next id and appends the 15 default categories owned by them; it keeps the store well-formed |
| Users.CreateUserSeedsDefaults | src/users/users.service.ts:40-42 | after registration, the new user's category listing is exactly the catalogue, in catalogue order |
| Users.CreateUserPreservesEmailUniqueness | src/users/users.service.ts:28-31 | registration keeps e-mail addresses unique |
| Users.CreateUserPreservesCategoryKeys | src/categories/categories.service.ts:107-205 | seeding keeps categories unique per (owner, name, type) |
| Users.UpdateUser | src/users/users.service.ts:47-72 | `NotFound` iff the user is missing; `Conflict` iff a new, different address is already taken; otherwise only the non-empty supplied fields change, the password is stored hashed, and the store stays well-formed |
| Users.UpdateUserOwnEmailNeverConflicts | src/users/users.service.ts:58 | re-submitting one's own address never conflicts |
| Users.UpdateUserPreservesEmailUniqueness | src/users/users.service.ts:58-64 | a successful update keeps e-mail addresses unique |
| Users.SaveUserKeepsEmailsUnique | src/users/users.service.ts:71 | saving a user whose address no other user holds keeps addresses unique |
| Users.DeleteUser | src/users/users.service.ts:86-91 | `NotFound` iff no such user; otherwise exactly that user is gone, nothing else changes, and address uniqueness and well-formedness are kept |
| Categories.CreateCategory | src/categories/categories.service.ts:26-49 | `NotFound` iff the owner is missing, `Conflict` iff the owner already has that name and type; otherwise one category is appended under the next id, and the store stays well-formed |
| Categories.CreateCategoryPreservesUniqueness | src/categories/categories.service.ts:34-44 | a successful create keeps categories unique per (owner, name, type) |
| Categories.UpdateCategory | src/categories/categories.service.ts:50-61 | `NotFound` iff the category is missing; otherwise name and type follow the request, id and owner are kept, and the store stays well-formed |
| Categories.UpdateCategoryCanBreakUniqueness | src/categories/categories.service.ts:59-60 | a rename onto a sibling's name and type succeeds and leaves two categories with the same key |
| Categories.FindCategoryById | src/categories/categories.service.ts:62-68 | succeeds exactly when a category with the id exists, and fails with `NotFound` otherwise |
| Categories.FindCategoriesByUserId | src/categories/categories.service.ts:70-75 | lists exactly the categories the user owns, each row at most as often as it is stored |
| Categories.ListingAfterAppend | src/categories/categories.service.ts:70-75 | after appending rows of a user who owned none, the listing is exactly those rows, in order |
| Categories.FindCategoryByIdAndUserId | src/categories/categories.service.ts:77-88 | succeeds iff the user owns a category with the id, and returns one |
| Categories.IsCategoryForUser | src/categories/categories.service.ts:97-105 | true iff the user owns a category with the id |
| Categories.IsCategoryForUserMatchesScopedLookup | src/categories/categories.service.ts:77-105 | the ownership check and the owner-scoped lookup agree |
| Categories.DeleteCategory | src/categories/categories.service.ts:90-95 | `NotFound` iff no such category; otherwise exactly that category is gone, nothing else changes, and the store stays well-formed |
| Categories.SeedCategories | src/categories/categories.service.ts:197-202 | one category per catalogue entry, in order, with consecutive fresh ids, all owned by the user; the store stays well-formed |
| Categories.CreateDefaultCategoriesForUser | src/categories/categories.service.ts:107-205 | seeds 15 categories owned by the user: 5 income categories first, then 10 expense categories, with distinct names |
| Categories.DefaultCatalogueShape | src/categories/categories.service.ts:109-195 | the catalogue has 15 entries, 5 income then 10 expense, with pairwise distinct names |
| Transactions.CreateTransaction | src/transactions/transactions.service.ts:33-53 | `NotFound` when the owner is missing or does not own the category, and succeeds exactly when both hold; the new row gets the next id, the given fields and the default currency; the store stays well-formed |
| Transactions.CreateTransactionPreservesConsistency | src/transactions/transactions.service.ts:36-51 | a successful create keeps every transaction's owner existing and owning its category |
| Transactions.UpdateTransaction | src/transactions/transactions.service.ts:55-86 | `Conflict` iff the transaction exists and the request's `userId` is not its owner; `NotFound` iff it is missing or a new category id names no category; otherwise only supplied fields change, while id, owner and currency are kept and the store stays well-formed |
| Transactions.UpdateTransactionCanCrossOwners | src/transactions/transactions.service.ts:74-83 | an owner can re-point a transaction to a category of another user, breaking owner consistency |
| Transactions.FindTransactionById | src/transactions/transactions.service.ts:88-94 | succeeds exactly when a transaction with the id exists, and fails with `NotFound` otherwise |
| Transactions.FindTransactionsByUserId | src/transactions/transactions.service.ts:96-102 | lists exactly the user's transactions, each row at most as often as it is stored |
| Transactions.DeleteTransaction | src/transactions/transactions.service.ts:211-216 | `NotFound` iff no such transaction; otherwise exactly that transaction is gone, nothing else changes, and the store stays well-formed |
| Transactions.IsTransactionForUser | src/transactions/transactions.service.ts:218-226 | true iff the user owns a transaction with the id |
| TransactionQueries.FindMostRecentTransactions | src/transactions/transactions.service.ts:104-112 | at most five of the user's transactions, newest first, drawn from the user's rows without repeating any; when one is left out the list is full and it is no newer than any listed one |
| TransactionQueries.GetTransactionsLastThreeMonths | src/transactions/transactions.service.ts:195-209 | exactly the user's transactions dated within the window, both ends inclusive, each row at most as often as it is stored |
| TransactionQueries.GetTotalAmountPerCurrencyByType | src/transactions/transactions.service.ts:113-144 | one row per (currency, type) pair occurring among the user's transactions, and only those, each pair once, in first-seen order; each total is the sum of that pair's amounts |
| TransactionQueries.TotalsRowsMatch | src/transactions/transactions.service.ts:128-140 | a row exists for a (currency, type) pair iff some transaction has that currency and a category of that type |
| TransactionQueries.TotalsRowAmounts | src/transactions/transactions.service.ts:132-139 | each row's total equals the independently defined total for its pair |
| TransactionQueries.TotalsAddUp | src/transactions/transactions.service.ts:121-143 | the report's totals add up to the sum of all the user's amounts |
| TransactionQueries.UsageCountPositive | src/transactions/transactions.service.ts:175-179 | a category's usage count for a user is positive iff the user has a transaction in it |
| TransactionQueries.UsageGroupsCounted | src/transactions/transactions.service.ts:171-180 | grouping the join yields each used category of the type once, with its usage count |
| TransactionQueries.UsageGroupsComplete | src/transactions/transactions.service.ts:176-180 | every category of the type that the user used appears among the groups |
| TransactionQueries.GetMostCommonCategoriesByType | src/transactions/transactions.service.ts:166-193 | distinct categories of the requested type that the user used, named from the category, by non-increasing usage; at most `limit` of them when `limit` is positive, and every used one when it is 0 (no LIMIT clause); a used category is left out only when the limit is positive, the list is full and it is used no more often than any listed one |
| TransactionQueries.GetMostCommonCategories | src/transactions/transactions.service.ts:146-164 | income categories first, then expense categories, all used by the user, without repeats; at most `limit` of each type when `limit` is positive, and every used category when it is 0 |
| TransactionQueries.MostCommonSplitsByType | src/transactions/transactions.service.ts:163 | filtering the combined list by type gives back each per-type list |
| TransactionsResolver.CreateTransaction | src/transactions/transactions.resolver.ts:94-103 | for a request that passed validation (positive amount and category id, non-empty description), whatever owner the request names, the transaction is created for the caller, and creation succeeds iff the caller exists and owns the category |
| TransactionsResolver.UpdateTransaction | src/transactions/transactions.resolver.ts:105-118 | for a request that passed validation (supplied amount, category id and user id positive), `Conflict` iff the transaction exists and belongs to someone else; an update that succeeds leaves a transaction of the caller |
| TransactionsResolver.UpdateTransactionKeepsOthers | src/transactions/transactions.resolver.ts:112-117 | an update through the API never changes another user's transaction |
| TransactionsResolver.RemoveTransaction | src/transactions/transactions.resolver.ts:120-140 | `NotFound` iff missing, `Conflict` iff present but not the caller's; otherwise exactly that transaction is deleted and returned as it was |
| TransactionsResolver.RemoveTransactionKeepsOthers | src/transactions/transactions.resolver.ts:131-138 | a removal through the API deletes only a transaction of the caller |
| TransactionsResolver.GetMostCommonCategories | src/transactions/transactions.resolver.ts:84-92 | income categories before expense categories, at most five of each type, all used by the caller |
| CategoriesResolver.CreateCategory | src/categories/categories.resolver.ts:43-52 | for a non-empty name, the category is created for the caller, and creation succeeds iff the caller exists and has no category of that name and type |
| CategoriesResolver.UpdateCategory | src/categories/categories.resolver.ts:54-61 | for a request whose supplied name is non-empty, fails iff the category is missing; the category keeps its id and owner |
| CategoriesResolver.UpdateCategoryByAnyCaller | src/categories/categories.resolver.ts:54-61 | a user who does not own a category can still update it |
| CategoriesResolver.RemoveCategory | src/categories/categories.resolver.ts:63-84 | `NotFound` iff missing, `Conflict` iff present but not the caller's; otherwise exactly that category is deleted and returned as it was |
| CategoriesResolver.RemoveCategoryKeepsOthers | src/categories/categories.resolver.ts:74-82 | a removal through the API deletes only a category of the caller |
| CategoriesResolver.GetCategoriesForUser | src/categories/categories.resolver.ts:32-41 | lists exactly the caller's categories, each row at most as often as it is stored |
| Ledger.Step | src/users/users.service.ts:25-91 | composes the mutations of the three services (the users service's are the lines cited; the others have their own rows): any single request keeps the store well-formed and e-mails unique, never moves a counter back, gives every row either an id that already had a row or one the counter had not yet handed out, and changes only the tables it is about |
| Ledger.Run | src/users/users.service.ts:25-91 | composes the service mutations over a sequence of requests, failed ones changing nothing: the invariant is kept, no counter moves back, and an id that had no row at the start and lies below the starting counter never appears, so a deleted id is never handed out again |
| Ledger.RunFromEmpty | src/users/users.service.ts:25-72 | in every store reachable from the empty database, ids are generated and unique, and no two users share an e-mail address, because creating and updating a user check the address before writing |

## Left out

- Persistence: TypeORM, the MySQL schema, module wiring and dependency injection are not modelled. The store is three in-memory sequences with auto-increment counters.
- Foreign keys: deleting a user or a category leaves rows that still reference it. The model does not decide what the database would do (refuse or cascade). That behaviour is outside the code, so the ledger invariant only bounds references by the counters.
- Password hashing: bcrypt is the parameter `hash`, and salting and cost are not modelled.
- Authentication: token verification, the auth resolver and the JWT strategy are not modelled. The caller's id is a parameter.
- Request validation: the class-validator rules of the transaction and category requests become preconditions of the resolver functions: positive amounts and ids, and non-empty descriptions and category names. The services, and so the `Ledger` steps, only require positive amounts. The user request rules (e-mail format, password length) are not modelled, because the users API is not part of this model. The ISO date-string conversion in `updateTransaction` is left out, and dates are integer timestamps.
- TransactionsResolver.CreateTransaction: the request's `userId` is optional and must be positive when given, but the model's request always carries one and does not require it positive; the resolver overwrites it with the caller's id either way.
- Calendar: `getTransactionsLastThreeMonths` reads the clock and subtracts three calendar months. The window ends are parameters.
- Floating point: amounts are integers, and float rounding in the totals is not modelled.
- Ordering: the database's tie order is not modelled, in `findMostRecentTransactions` or in the most-common query. The tie-breaks of the model's sort are a choice, and only the orderings the queries request are stated. The model also takes the unordered `find` queries (transactions.service.ts:116-119, categories.service.ts:71-73) to return rows in insertion order, which SQL does not guarantee without ORDER BY. The "first-seen order" of the totals report and the "catalogue order" of the seeded categories in `Users.CreateUserSeedsDefaults` rest on that choice.
- Concurrency: `Promise.all`, and races between the check and the write in create and update, are not modelled. Every operation is atomic.
- Collation: e-mail, name and currency comparisons are exact string equality, with no case folding.
- Timestamps: `createdAt` and `updatedAt` are not modelled.
- Read-only delegations: `findAllUsers`, the users API, `getCurrencies`, the `category` field resolver, and the resolver queries `getTransactionById`, `getCategoryById`, `getTransactionsForUser`, `getMostRecentTransactions`, `getTransactionsLastThreeMonths` and `getTotalAmountPerCurrencyByType` are not modelled. They only forward to the service functions modelled here (the by-id queries add a `NotFound` for a missing row, which the service lookups already return).
- TransactionQueries.GetTotalAmountPerCurrencyByType: requires every transaction's category to exist, because the code reads the category's type and would fail on a missing one.
- TransactionQueries.GetMostCommonCategoriesByType: a category's name is taken from the first category with that id, which is the category itself in a well-formed store.
- TransactionQueries.FindMostRecentTransactions: states the order and the content, not which of several transactions with equal dates is listed.
