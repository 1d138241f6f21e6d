/** UserService: account creation with the uniqueness pre-checks and password
    encoding, profile updates that avoid encoding a password twice,
    activation, deletion, the dashboard counts, and the automatic parking
    assignment for new CLIENT accounts.

    The password encoder is a parameter (`encode`); the deployed encoder is
    BCrypt, whose output starts with "$2a$" (PrefixedEncoder). */
module UserService {
  import opened Common
  import opened Accounts
  import opened Parkings
  import opened Repository

  /** The prefix updateUser takes as the sign of an already-encoded password. */
  const EncodedPrefix := "$2a$"

  /** Why saveUser threw. The encoder refuses a null password. */
  datatype SaveError = UsernameExists | EmailExists | NullPassword

  /** Every password the encoder produces carries the encoded prefix. */
  ghost predicate PrefixedEncoder(encode: string -> string)
  {
    forall p :: StartsWith(encode(p), EncodedPrefix)
  }

  // ---------------------------------------------------------------------
  // Password handling on update

  /** The password updateUser stores for the submitted one: a null password
      and one that already looks encoded are stored as they are, any other is
      encoded. */
  function StoredPassword(encode: string -> string, pw: Option<string>): (r: Option<string>)
    ensures r.None? <==> pw.None?
    ensures pw.Some? && StartsWith(pw.value, EncodedPrefix) ==> r == pw
  {
    match pw
    case None => None
    case Some(p) => if StartsWith(p, EncodedPrefix) then pw else Some(encode(p))
  }

  /** With a prefixed encoder, updateUser keeps the password exactly when it is
      null or already looks encoded, and whatever it stores that is not null
      looks encoded. */
  lemma StoredPasswordKeepsEncoded(encode: string -> string, pw: Option<string>)
    requires PrefixedEncoder(encode)
    ensures StoredPassword(encode, pw) == pw <==> pw.None? || StartsWith(pw.value, EncodedPrefix)
    ensures pw.Some? <==> StoredPassword(encode, pw).Some?
    ensures pw.Some? ==> StartsWith(StoredPassword(encode, pw).value, EncodedPrefix)
  {
    if pw.Some? && !StartsWith(pw.value, EncodedPrefix) {
      var e := encode(pw.value);
      assert StartsWith(e, EncodedPrefix);
      assert e != pw.value;
    }
  }

  /** Updating a user twice encodes the password at most once. */
  lemma StoredPasswordIdempotent(encode: string -> string, pw: Option<string>)
    requires PrefixedEncoder(encode)
    ensures StoredPassword(encode, StoredPassword(encode, pw)) == StoredPassword(encode, pw)
  {
    StoredPasswordKeepsEncoded(encode, pw);
    StoredPasswordKeepsEncoded(encode, StoredPassword(encode, pw));
  }

  /** A submitted plaintext that happens to begin with "$2a$" is stored as it
      is, unencoded: the prefix test cannot tell it from an encoded one. */
  lemma PrefixedPlaintextStoredUnencoded(encode: string -> string, rest: string)
    ensures StoredPassword(encode, Some(EncodedPrefix + rest)) == Some(EncodedPrefix + rest)
  {
    StartsWithConcat(EncodedPrefix, rest);
  }

  // ---------------------------------------------------------------------
  // Counts

  /** countUsersByRole: the number of stored users with that role; zero
      exactly when no user has it. */
  function CountUsersByRole(users: map<nat, User>, role: UserRole): (r: nat)
    ensures r <= |users|
    ensures r == 0 <==> forall id :: id in users ==> users[id].role != role
  {
    var ids := UserIdsWhere(users, (u: User) => u.role == role);
    SubsetSize(ids, users.Keys);
    assert ids == {} <==> forall id :: id in users ==> users[id].role != role;
    |ids|
  }

  function ActiveUserIds(users: map<nat, User>): (r: set<nat>)
    ensures forall id :: id in r <==> id in users && users[id].active
  {
    UserIdsWhere(users, (u: User) => u.active)
  }

  /** getActiveUsersCount: at most the number of users. */
  function ActiveUsersCount(users: map<nat, User>): (r: nat)
    ensures r <= |users|
  {
    SubsetSize(ActiveUserIds(users), users.Keys);
    |ActiveUserIds(users)|
  }

  /** getTotalUsers */
  function TotalUsers(users: map<nat, User>): (r: nat)
  {
    |users|
  }

  /** Every user is an ADMIN or a CLIENT, so the two role counts on the
      dashboard add up to the total, and the active count is at most it. */
  lemma RoleCountsPartition(users: map<nat, User>)
    ensures CountUsersByRole(users, Admin) + CountUsersByRole(users, Client) == TotalUsers(users)
    ensures ActiveUsersCount(users) <= TotalUsers(users)
  {
    var admins := UserIdsWhere(users, (u: User) => u.role == Admin);
    var clients := UserIdsWhere(users, (u: User) => u.role == Client);
    assert admins + clients == users.Keys by {
      forall id | id in users.Keys
        ensures id in admins + clients
      {
        assert users[id].role == Admin || users[id].role == Client;
      }
    }
    DisjointUnionSize(admins, clients);
  }


  // ---------------------------------------------------------------------
  // Activation

  /** The users after setting the active flag of `id`; an unknown id changes
      nothing. */
  function WithActive(users: map<nat, User>, id: nat, active: bool): (r: map<nat, User>)
    ensures r.Keys == users.Keys
  {
    if id in users then users[id := users[id].(active := active)] else users
  }

  /** Deactivation removes exactly that id from the active ones, activation adds
      exactly it; the total and the role counts stay. */
  lemma WithActiveMovesOneId(users: map<nat, User>, id: nat, active: bool)
    ensures ActiveUserIds(WithActive(users, id, active)) ==
      if id !in users then ActiveUserIds(users)
      else if active then ActiveUserIds(users) + {id}
      else ActiveUserIds(users) - {id}
    ensures TotalUsers(WithActive(users, id, active)) == TotalUsers(users)
    ensures forall role :: CountUsersByRole(WithActive(users, id, active), role) == CountUsersByRole(users, role)
  {
    var after := WithActive(users, id, active);
    forall role
      ensures CountUsersByRole(after, role) == CountUsersByRole(users, role)
    {
      SameRoleIds(users, id, active, role);
    }
  }

  lemma SameRoleIds(users: map<nat, User>, id: nat, active: bool, role: UserRole)
    ensures UserIdsWhere(WithActive(users, id, active), (u: User) => u.role == role) ==
            UserIdsWhere(users, (u: User) => u.role == role)
  {
  }

  /** Deactivating and then activating an active user restores the accounts. */
  lemma DeactivateActivateRestores(users: map<nat, User>, id: nat)
    requires id in users && users[id].active
    ensures WithActive(WithActive(users, id, false), id, true) == users
  {
  }

  /** A stored user re-saved under its own id never clashes with another. */
  lemma ResaveNoClash(users: map<nat, User>, id: nat, u: User)
    requires UniqueAccounts(users) && id in users
    requires u.username == users[id].username && u.email == users[id].email
    ensures !ClashesWithOthers(users, id, u)
  {
    forall j | j in users && j != id
      ensures users[j].username != u.username && users[j].email != u.email
    {
    }
  }

  method SetActive(store: Store, id: nat, active: bool)
    requires store.Valid()
    modifies store
    ensures store.Valid()
    ensures store.users == WithActive(old(store.users), id, active)
    ensures store.apartments == old(store.apartments) && store.parkings == old(store.parkings)
  {
    if id in store.users {
      var user := store.users[id].(active := active);
      ResaveNoClash(store.users, id, user);
      var _ := store.SaveUserRow(Some(id), user);
    }
  }

  /** deactivateUser */
  method DeactivateUser(store: Store, id: nat)
    requires store.Valid()
    modifies store
    ensures store.Valid()
    ensures store.users == WithActive(old(store.users), id, false)
    ensures store.apartments == old(store.apartments) && store.parkings == old(store.parkings)
  {
    SetActive(store, id, false);
  }

  /** activateUser */
  method ActivateUser(store: Store, id: nat)
    requires store.Valid()
    modifies store
    ensures store.Valid()
    ensures store.users == WithActive(old(store.users), id, true)
    ensures store.apartments == old(store.apartments) && store.parkings == old(store.parkings)
  {
    SetActive(store, id, true);
  }

  /** deleteUser: removes the account if present; parking spaces and
      apartments that refer to it keep the id. */
  method DeleteUser(store: Store, id: nat)
    requires store.Valid()
    modifies store
    ensures store.Valid()
    ensures store.users == old(store.users) - {id}
    ensures !(id in store.users)
    ensures store.apartments == old(store.apartments) && store.parkings == old(store.parkings)
  {
    store.DeleteUserRow(id);
  }

  // ---------------------------------------------------------------------
  // Creation and update

  /** assignParkingSlotToNewCustomer for the user `u` stored under `uid`. */
  method AssignParkingSlotToNewCustomer(store: Store, uid: nat, u: User) returns (granted: bool)
    requires store.Valid()
    modifies store
    ensures store.Valid()
    ensures (store.parkings, granted) == AutoAssign(old(store.parkings), uid, u.role)
    ensures store.users == old(store.users) && store.apartments == old(store.apartments)
  {
    if u.role != Client {
      return false;
    }
    var existing := SpacesOf(store.parkings, uid);
    if existing != [] {
      return true;
    }
    var available := UnassignedAvailable(store.parkings);
    if available == [] {
      return false;
    }
    store.AssignParkingSpaceToTenant(available[0], uid);
    granted := true;
  }

  /** saveUser for a new user: refuses a taken username, then a taken email,
      then a null password (the encoder throws); otherwise stores the user with
      the encoded password under a fresh id and, for a CLIENT, runs the
      automatic parking assignment. On an error nothing changes. */
  method SaveUser(store: Store, encode: string -> string, u: User) returns (r: Result<nat, SaveError>)
    requires store.Valid()
    modifies store
    ensures store.Valid()
    ensures r == Err(UsernameExists) <==> UsernameTaken(old(store.users), u.username)
    ensures r == Err(EmailExists) <==>
      !UsernameTaken(old(store.users), u.username) && EmailTaken(old(store.users), u.email)
    ensures r == Err(NullPassword) <==>
      !UsernameTaken(old(store.users), u.username) && !EmailTaken(old(store.users), u.email) && u.password.None?
    ensures r.Ok? <==>
      !UsernameTaken(old(store.users), u.username) && !EmailTaken(old(store.users), u.email) && u.password.Some?
    ensures r.Err? ==> unchanged(store)
    ensures r.Ok? ==>
      && r.value !in old(store.users)
      && store.users == old(store.users)[r.value := u.(password := Some(encode(u.password.value)))]
      && store.parkings == AutoAssign(old(store.parkings), r.value, u.role).0
      && store.apartments == old(store.apartments)
      && store.ExistsByUsername(u.username) && store.ExistsByEmail(u.email)
  {
    if store.ExistsByUsername(u.username) {
      return Err(UsernameExists);
    }
    if store.ExistsByEmail(u.email) {
      return Err(EmailExists);
    }
    if u.password.None? {
      return Err(NullPassword);
    }
    var user := u.(password := Some(encode(u.password.value)));
    var saved := store.SaveUserRow(None, user);
    var id := saved.value;
    if user.role == Client {
      var _ := AssignParkingSlotToNewCustomer(store, id, user);
    }
    assert store.users[id] == user;
    r := Ok(id);
  }

  /** updateUser: stores `u` under `id` (a new row when the store does not hold
      it) with the password StoredPassword gives; a unique-constraint violation
      changes nothing. */
  method UpdateUser(store: Store, encode: string -> string, id: Option<nat>, u: User) returns (r: Result<nat, StoreError>)
    requires store.Valid()
    modifies store
    ensures store.Valid()
    ensures store.apartments == old(store.apartments) && store.parkings == old(store.parkings)
    ensures var v := u.(password := StoredPassword(encode, u.password));
      if id.Some? && id.value in old(store.users) then
        if ClashesWithOthers(old(store.users), id.value, v) then r.Err? && store.users == old(store.users)
        else r == Ok(id.value) && store.users == old(store.users)[id.value := v]
      else
        if UsernameTaken(old(store.users), v.username) || EmailTaken(old(store.users), v.email)
        then r.Err? && store.users == old(store.users)
        else r.Ok? && r.value !in old(store.users) && store.users == old(store.users)[r.value := v]
  {
    var v := u.(password := StoredPassword(encode, u.password));
    r := store.SaveUserRow(id, v);
  }
}
