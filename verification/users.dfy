/** The identity store: users with unique e-mail addresses. Creating a user
    seeds the default categories; updating one changes only the fields that
    are supplied. Password hashing is the parameter `hash`. */
module Users {
  import opened Seqs
  import opened Model
  import Categories

  predicate EmailTaken(s: Store, email: string)
  {
    exists u :: u in s.users && u.email == email
  }

  /** No two users share an e-mail address. */
  predicate EmailsUnique(s: Store)
  {
    forall i, j :: 0 <= i < j < |s.users| ==> s.users[i].email != s.users[j].email
  }

  /** A user with this e-mail address, or `None` (a miss is not an error). */
  function FindUserByEmail(s: Store, email: string): (r: Option<User>)
    ensures r.None? <==> !EmailTaken(s, email)
    ensures r.Some? ==> r.value in s.users && r.value.email == email
  {
    var i := FirstIndex(s.users, (u: User) => u.email == email);
    if i < |s.users| then Some(s.users[i])
    else
      assert !EmailTaken(s, email) by {
        forall u | u in s.users ensures u.email != email {
          var k :| 0 <= k < |s.users| && s.users[k] == u;
        }
      }
      None
  }

  function CreateUser(s: Store, name: string, email: string, password: string, hash: string -> string): (r: Result<(Store, User)>)
    ensures r.Err? <==> EmailTaken(s, email)
    ensures r.Err? ==> r.error == Conflict
    ensures r.Ok? ==>
      var (s', u) := r.value;
      && u == User(s.nextUserId, name, email, hash(password))
      && s'.users == s.users + [u] && s'.nextUserId == s.nextUserId + 1
      && s'.transactions == s.transactions && s'.nextTransactionId == s.nextTransactionId
      && |s'.categories| == |s.categories| + 15
      && s'.categories[..|s.categories|] == s.categories
      && s'.nextCategoryId == s.nextCategoryId + 15
      && (forall i :: 0 <= i < 15 ==>
            s'.categories[|s.categories| + i]
              == Category(s.nextCategoryId + i, Categories.DefaultCategories[i].0, Categories.DefaultCategories[i].1, u.id))
    ensures r.Ok? && WellFormed(s) ==> WellFormed(r.value.0)
  {
    if FindUserByEmail(s, email).Some? then Err(Conflict)
    else
      var (s1, u) := InsertUser(s, name, email, hash(password));
      var (s2, seeded) := Categories.CreateDefaultCategoriesForUser(s1, u);
      assert s2.categories == s.categories + seeded;
      Ok((s2, u))
  }

  /** After a successful create, listing the new user's categories yields
      exactly the 15 default categories, in catalogue order. */
  lemma CreateUserSeedsDefaults(s: Store, name: string, email: string, password: string, hash: string -> string)
    requires WellFormed(s)
    ensures CreateUser(s, name, email, password, hash).Ok? ==>
      var (s', u) := CreateUser(s, name, email, password, hash).value;
      var listed := Categories.FindCategoriesByUserId(s', u.id);
      && |listed| == 15
      && forall i :: 0 <= i < 15 ==>
           listed[i].name == Categories.DefaultCategories[i].0 && listed[i].kind == Categories.DefaultCategories[i].1
  {
    var r := CreateUser(s, name, email, password, hash);
    if r.Ok? {
      var (s', u) := r.value;
      var seeded := s'.categories[|s.categories|..];
      assert s'.categories == s.categories + seeded;
      assert forall c :: c in seeded ==> c.ownerId == u.id by {
        forall c | c in seeded ensures c.ownerId == u.id {
          var k :| 0 <= k < |seeded| && seeded[k] == c;
          assert c == s'.categories[|s.categories| + k];
        }
      }
      Categories.ListingAfterAppend(s, s', seeded, u.id);
    }
  }

  /** A successful create keeps e-mail addresses unique. */
  lemma CreateUserPreservesEmailUniqueness(s: Store, name: string, email: string, password: string, hash: string -> string)
    requires EmailsUnique(s)
    ensures CreateUser(s, name, email, password, hash).Ok? ==> EmailsUnique(CreateUser(s, name, email, password, hash).value.0)
  {
    var r := CreateUser(s, name, email, password, hash);
    if r.Ok? {
      var us := r.value.0.users;
      forall i, j | 0 <= i < j < |us| ensures us[i].email != us[j].email {
        if j == |s.users| {
          assert us[i] in s.users;
        }
      }
    }
  }

  /** The new user owns no category yet, and the catalogue names are distinct,
      so seeding keeps categories unique per (owner, name, type). */
  lemma CreateUserPreservesCategoryKeys(s: Store, name: string, email: string, password: string, hash: string -> string)
    requires WellFormed(s) && Categories.CategoryKeysUnique(s)
    ensures CreateUser(s, name, email, password, hash).Ok? ==>
      Categories.CategoryKeysUnique(CreateUser(s, name, email, password, hash).value.0)
  {
    var r := CreateUser(s, name, email, password, hash);
    if r.Ok? {
      var cs := r.value.0.categories;
      var n := |s.categories|;
      Categories.DefaultCatalogueShape();
      forall i, j | 0 <= i < j < |cs| ensures !Categories.SameKey(cs[i], cs[j]) {
        if i < n && n <= j {
          assert cs[i] in s.categories;
        } else if n <= i {
          assert cs[i].name == Categories.DefaultCategories[i - n].0;
          assert cs[j].name == Categories.DefaultCategories[j - n].0;
        }
      }
    }
  }

  /** The fields `updateUser` may change; a field counts as supplied only when
      it is present and non-empty. */
  datatype UserPatch = UserPatch(name: Option<string>, email: Option<string>, password: Option<string>)

  predicate Supplied(o: Option<string>)
  {
    o.Some? && o.value != ""
  }

  /** The patch asks to change `u`'s address to a different one. */
  predicate ChangesEmail(u: User, patch: UserPatch)
  {
    Supplied(patch.email) && patch.email.value != u.email
  }

  function UpdateUser(s: Store, id: nat, patch: UserPatch, hash: string -> string): (r: Result<(Store, User)>)
    ensures r == Err(NotFound) <==> !HasUser(s, id)
    ensures r == Err(Conflict) <==>
      HasUser(s, id) && ChangesEmail(FindUserById(s, id).value, patch) && EmailTaken(s, patch.email.value)
    ensures r.Ok? ==>
      FindUserById(s, id).Ok? &&
      var u := FindUserById(s, id).value;
      var u' := r.value.1;
      && u'.id == id
      && u'.name == (if Supplied(patch.name) then patch.name.value else u.name)
      && u'.email == (if ChangesEmail(u, patch) then patch.email.value else u.email)
      && u'.passwordHash == (if Supplied(patch.password) then hash(patch.password.value) else u.passwordHash)
      && r.value.0 == SaveUser(s, u')
    ensures r.Ok? && WellFormed(s) ==> WellFormed(r.value.0)
  {
    match FindUserById(s, id)
    case Err(e) => Err(e)
    case Ok(u) =>
      var name := if Supplied(patch.name) then patch.name.value else u.name;
      if ChangesEmail(u, patch) && FindUserByEmail(s, patch.email.value).Some? then Err(Conflict)
      else
        var email := if ChangesEmail(u, patch) then patch.email.value else u.email;
        var passwordHash := if Supplied(patch.password) then hash(patch.password.value) else u.passwordHash;
        var u' := User(u.id, name, email, passwordHash);
        Ok((SaveUser(s, u'), u'))
  }

  /** Re-submitting the user's own current address never conflicts. */
  lemma UpdateUserOwnEmailNeverConflicts(s: Store, id: nat, name: Option<string>, password: Option<string>, hash: string -> string)
    requires HasUser(s, id)
    ensures UpdateUser(s, id, UserPatch(name, Some(FindUserById(s, id).value.email), password), hash).Ok?
  {
  }

  /** A successful update keeps e-mail addresses unique. */
  lemma UpdateUserPreservesEmailUniqueness(s: Store, id: nat, patch: UserPatch, hash: string -> string)
    requires WellFormed(s) && EmailsUnique(s)
    ensures UpdateUser(s, id, patch, hash).Ok? ==> EmailsUnique(UpdateUser(s, id, patch, hash).value.0)
  {
    var r := UpdateUser(s, id, patch, hash);
    if r.Ok? {
      var u := FindUserById(s, id).value;
      var u' := r.value.1;
      forall v | v in s.users && v.id != u'.id ensures v.email != u'.email {
        if !ChangesEmail(u, patch) {
          var a :| 0 <= a < |s.users| && s.users[a] == v;
          var b :| 0 <= b < |s.users| && s.users[b] == u;
          assert a != b;
        }
      }
      SaveUserKeepsEmailsUnique(s, u');
    }
  }

  /** Saving a user whose address no other user holds keeps addresses unique. */
  lemma SaveUserKeepsEmailsUnique(s: Store, u': User)
    requires WellFormed(s) && EmailsUnique(s)
    requires forall v :: v in s.users && v.id != u'.id ==> v.email != u'.email
    ensures EmailsUnique(SaveUser(s, u'))
  {
    var us := SaveUser(s, u').users;
    forall i, j | 0 <= i < j < |us| ensures us[i].email != us[j].email {
      assert s.users[i] in s.users && s.users[j] in s.users;
    }
  }

  function DeleteUser(s: Store, id: nat): (r: Result<Store>)
    ensures r.Err? <==> !HasUser(s, id)
    ensures r.Err? ==> r.error == NotFound
    ensures r.Ok? ==> forall u :: u in r.value.users <==> u in s.users && u.id != id
    ensures r.Ok? ==> r.value == s.(users := r.value.users)
    ensures r.Ok? && EmailsUnique(s) ==> EmailsUnique(r.value)
    ensures r.Ok? && WellFormed(s) ==> WellFormed(r.value)
  {
    var (s', affected) := RemoveUserRows(s, id);
    assert EmailsUnique(s) ==> KeysDistinct(s.users, UserEmail);
    assert KeysDistinct(s'.users, UserEmail) ==> EmailsUnique(s');
    if affected == 0 then Err(NotFound) else Ok(s')
  }
}
