/** User registration with upsert-by-email semantics, layered on the store: a known e-mail
    gets its licence date updated, an unknown one a new user. */
module UserService {
  import opened Wrappers
  import opened Calendar
  import opened Types
  import opened Errors
  import opened InMemoryDb

  /** Registers `dto`: updates the licence of the user holding its e-mail, or creates a user
      under `freshId` when there is none. */
  function CreateUser(store: Store, dto: CreateUserDto, freshId: Id): (r: Result<(Store, User), Failure>)
    ensures (forall i :: 0 <= i < |store.users| ==> store.users[i].email != dto.email) ==>
              && r.Ok?
              && r.value.1 == User(freshId, dto.email, dto.licenseValidUntil)
              && r.value.0 == store.(users := store.users + [r.value.1])
    ensures r.Ok? ==> r.value.1.licenseValidUntil == dto.licenseValidUntil
    ensures r.Ok? ==> r.value.0.cars == store.cars && r.value.0.bookings == store.bookings
  {
    match FindUserByEmail(store, dto.email)
    case Some(existing) => UpdateUserLicense(store, existing.id, dto.licenseValidUntil)
    case None => Ok(InMemoryDb.CreateUser(store, dto, freshId))
  }

  /** The user with id `id`, or the error "User not found". */
  function GetUserById(store: Store, id: Id): (r: Result<User, Failure>)
    ensures r.Err? <==> forall i :: 0 <= i < |store.users| ==> store.users[i].id != id
    ensures r.Err? ==> r.error == UserNotFound
    ensures r.Ok? ==> r.value in store.users && r.value.id == id
    ensures r.Ok? ==> exists i :: && 0 <= i < |store.users| && store.users[i] == r.value
                                  && forall j :: 0 <= j < i ==> store.users[j].id != id
  {
    match FindUserById(store, id)
    case None => Err(UserNotFound)
    case Some(user) => Ok(user)
  }

  /** With unique ids, a known e-mail keeps its user's id and e-mail, changes only that user's
      licence date and adds no user. */
  lemma CreateUserUpdatesExisting(store: Store, dto: CreateUserDto, freshId: Id, k: nat)
    requires UniqueIds(store.users)
    requires k < |store.users| && store.users[k].email == dto.email
    ensures var r := CreateUser(store, dto, freshId);
            && r.Ok?
            && exists i :: && 0 <= i < |store.users| && store.users[i].email == dto.email
                           && r.value.1 == store.users[i].(licenseValidUntil := dto.licenseValidUntil)
                           && r.value.0 == store.(users := store.users[i := r.value.1])
  {
    var existing := FindUserByEmail(store, dto.email).value;
    var i :| && 0 <= i < |store.users| && store.users[i] == existing && existing.email == dto.email
             && forall j :: 0 <= j < i ==> store.users[j].email != dto.email;
    assert UserIndexById(store.users, existing.id) == Some(i);
  }

  /** The store's users are well formed: ids and e-mails are unique. */
  ghost predicate WellFormedUsers(store: Store) {
    UniqueIds(store.users) && UniqueEmails(store.users)
  }

  lemma AppendKeepsUsersWellFormed(users: seq<User>, u: User)
    requires UniqueIds(users) && UniqueEmails(users)
    requires forall k :: 0 <= k < |users| ==> users[k].id != u.id && users[k].email != u.email
    ensures UniqueIds(users + [u]) && UniqueEmails(users + [u])
  {
    var users' := users + [u];
    forall i, j | 0 <= i < j < |users'|
      ensures users'[i].id != users'[j].id && users'[i].email != users'[j].email
    {
      if j == |users| {
        assert users'[i] == users[i] && users'[j] == u;
      }
    }
  }

  lemma ReplaceKeepsUsersWellFormed(users: seq<User>, i: nat, u: User)
    requires UniqueIds(users) && UniqueEmails(users)
    requires i < |users| && u.id == users[i].id && u.email == users[i].email
    ensures UniqueIds(users[i := u]) && UniqueEmails(users[i := u])
  {
    var users' := users[i := u];
    assert forall k :: 0 <= k < |users'| ==> users'[k].id == users[k].id && users'[k].email == users[k].email;
  }

  /** Registration keeps ids and e-mails unique when the new id is fresh. */
  lemma CreateUserKeepsUsersWellFormed(store: Store, dto: CreateUserDto, freshId: Id)
    requires WellFormedUsers(store)
    requires forall u :: u in store.users ==> u.id != freshId
    ensures CreateUser(store, dto, freshId).Ok?
    ensures WellFormedUsers(CreateUser(store, dto, freshId).value.0)
  {
    var r := CreateUser(store, dto, freshId);
    if k :| 0 <= k < |store.users| && store.users[k].email == dto.email {
      CreateUserUpdatesExisting(store, dto, freshId, k);
      var i :| && 0 <= i < |store.users| && store.users[i].email == dto.email
               && r.value.1 == store.users[i].(licenseValidUntil := dto.licenseValidUntil)
               && r.value.0 == store.(users := store.users[i := r.value.1]);
      ReplaceKeepsUsersWellFormed(store.users, i, r.value.1);
    } else {
      AppendKeepsUsersWellFormed(store.users, r.value.1);
    }
  }

  /** Where registration leaves its user: at an index of the new user list holding `dto`'s
      e-mail. */
  lemma RegisteredUserIndex(store: Store, dto: CreateUserDto, freshId: Id) returns (k: nat)
    requires UniqueIds(store.users)
    ensures var r := CreateUser(store, dto, freshId);
            && r.Ok? && k < |r.value.0.users|
            && r.value.0.users[k] == r.value.1 && r.value.1.email == dto.email
  {
    var r := CreateUser(store, dto, freshId);
    if k0 :| 0 <= k0 < |store.users| && store.users[k0].email == dto.email {
      CreateUserUpdatesExisting(store, dto, freshId, k0);
      var i :| && 0 <= i < |store.users| && store.users[i].email == dto.email
               && r.value.1 == store.users[i].(licenseValidUntil := dto.licenseValidUntil)
               && r.value.0 == store.(users := store.users[i := r.value.1]);
      k := i;
    } else {
      k := |store.users|;
    }
  }

  /** After registering `dto`, looking its e-mail up finds a user with `dto`'s licence date. */
  lemma LookupAfterCreateUser(store: Store, dto: CreateUserDto, freshId: Id)
    requires WellFormedUsers(store)
    requires forall u :: u in store.users ==> u.id != freshId
    ensures var r := CreateUser(store, dto, freshId);
            && r.Ok?
            && FindUserByEmail(r.value.0, dto.email) == Some(r.value.1)
            && r.value.1.licenseValidUntil == dto.licenseValidUntil
  {
    CreateUserKeepsUsersWellFormed(store, dto, freshId);
    var k := RegisteredUserIndex(store, dto, freshId);
    var store1, user1 := CreateUser(store, dto, freshId).value.0, CreateUser(store, dto, freshId).value.1;
    var found := FindUserByEmail(store1, dto.email);
    var j :| 0 <= j < |store1.users| && store1.users[j] == found.value && found.value.email == dto.email;
    assert UniqueEmails(store1.users);
    assert j == k;
  }

  /** Registering the same `dto` twice returns the same user and leaves the store as the
      first registration left it, whatever id the second call is offered. */
  lemma CreateUserIsIdempotent(store: Store, dto: CreateUserDto, freshId: Id, otherId: Id)
    requires WellFormedUsers(store)
    requires forall u :: u in store.users ==> u.id != freshId
    ensures var first := CreateUser(store, dto, freshId);
            && first.Ok?
            && var second := CreateUser(first.value.0, dto, otherId);
            && second.Ok?
            && second.value == first.value
  {
    CreateUserKeepsUsersWellFormed(store, dto, freshId);
    var j := RegisteredUserIndex(store, dto, freshId);
    var store1, user1 := CreateUser(store, dto, freshId).value.0, CreateUser(store, dto, freshId).value.1;
    assert UniqueIds(store1.users) && UniqueEmails(store1.users);
    CreateUserUpdatesExisting(store1, dto, otherId, j);
    var second := CreateUser(store1, dto, otherId);
    var i :| && 0 <= i < |store1.users| && store1.users[i].email == dto.email
             && second.value.1 == store1.users[i].(licenseValidUntil := dto.licenseValidUntil)
             && second.value.0 == store1.(users := store1.users[i := second.value.1]);
    assert i == j;
    assert second.value.1 == user1;
    assert store1.users[i := user1] == store1.users;
  }
}
