/** ClientController: a client's own profile and password. The signed-in
    user is the parameter `userId` (the principal's id). The password check is
    the parameter `matches`, standing for PasswordEncoder.matches(raw, stored);
    a null stored password is passed as None. */
module ClientController {
  import opened Common
  import opened Accounts
  import opened Repository
  import opened UserService

  /** Why changePassword sent the client back to the form. */
  datatype PasswordChangeError = ConfirmationDiffers | TooShort | UserNotFound | WrongCurrent | SameAsCurrent

  /** Why updateProfile sent the client back to the form. */
  datatype ProfileError = ProfileNotFound | ProfileNotSaved

  /** The fewest characters a new password may have. */
  const MinPasswordLength := 6

  /** The checks changePassword makes, in order, for the stored account
      `found` (None when the id is unknown). */
  function PasswordChangeCheck(current: string, newPassword: string, confirm: string, found: Option<User>,
                               matches: (string, Option<string>) -> bool): (r: Option<PasswordChangeError>)
    ensures r == Some(ConfirmationDiffers) <==> newPassword != confirm
    ensures r == Some(TooShort) <==> newPassword == confirm && |newPassword| < MinPasswordLength
    ensures r == Some(UserNotFound) <==> newPassword == confirm && |newPassword| >= MinPasswordLength && found.None?
    ensures r == Some(WrongCurrent) <==>
      newPassword == confirm && |newPassword| >= MinPasswordLength && found.Some?
      && !matches(current, found.value.password)
    ensures r == Some(SameAsCurrent) <==>
      newPassword == confirm && |newPassword| >= MinPasswordLength && found.Some?
      && matches(current, found.value.password) && matches(newPassword, found.value.password)
    ensures r.None? <==>
      newPassword == confirm && |newPassword| >= MinPasswordLength && found.Some?
      && matches(current, found.value.password) && !matches(newPassword, found.value.password)
  {
    if newPassword != confirm then Some(ConfirmationDiffers)
    else if |newPassword| < MinPasswordLength then Some(TooShort)
    else if found.None? then Some(UserNotFound)
    else if !matches(current, found.value.password) then Some(WrongCurrent)
    else if matches(newPassword, found.value.password) then Some(SameAsCurrent)
    else None
  }

  /** The stored account under `id`, if any. */
  function Lookup(users: map<nat, User>, id: nat): (r: Option<User>)
    ensures r.Some? <==> id in users
    ensures r.Some? ==> r.value == users[id]
  {
    if id in users then Some(users[id]) else None
  }

  /** changePassword: when every check passes, the account's password becomes
      the new one as updateUser stores it, and nothing else changes; otherwise
      nothing is written. */
  method ChangePassword(store: Store, encode: string -> string, matches: (string, Option<string>) -> bool,
                        userId: nat, current: string, newPassword: string, confirm: string)
    returns (r: Result<(), PasswordChangeError>)
    requires store.Valid()
    modifies store
    ensures store.Valid()
    ensures store.apartments == old(store.apartments) && store.parkings == old(store.parkings)
    ensures var check := PasswordChangeCheck(current, newPassword, confirm, Lookup(old(store.users), userId), matches);
      && (r.Err? <==> check.Some?)
      && (r.Err? ==> r.error == check.value && store.users == old(store.users))
    ensures r.Ok? ==>
      store.users == old(store.users)[userId :=
        old(store.users)[userId].(password := StoredPassword(encode, Some(newPassword)))]
  {
    if newPassword != confirm {
      return Err(ConfirmationDiffers);
    }
    if |newPassword| < MinPasswordLength {
      return Err(TooShort);
    }
    if userId !in store.users {
      return Err(UserNotFound);
    }
    var dbUser := store.users[userId];
    if !matches(current, dbUser.password) {
      return Err(WrongCurrent);
    }
    if matches(newPassword, dbUser.password) {
      return Err(SameAsCurrent);
    }
    var changed := dbUser.(password := Some(newPassword));
    ResaveNoClash(store.users, userId, changed.(password := StoredPassword(encode, changed.password)));
    var _ := UpdateUser(store, encode, Some(userId), changed);
    r := Ok(());
  }

  /** With a prefixed encoder, a successful change stores the encoded new
      password, unless the new password itself begins with the encoded prefix,
      in which case it is stored as typed. */
  lemma ChangedPasswordStored(encode: string -> string, newPassword: string)
    requires PrefixedEncoder(encode)
    ensures StartsWith(StoredPassword(encode, Some(newPassword)).value, EncodedPrefix)
    ensures StoredPassword(encode, Some(newPassword)) ==
      if StartsWith(newPassword, EncodedPrefix) then Some(newPassword) else Some(encode(newPassword))
  {
    StoredPasswordKeepsEncoded(encode, Some(newPassword));
  }

  /** The account updateProfile writes back: the stored one with the four
      editable fields replaced. */
  function WithProfile(u: User, firstName: string, lastName: string, email: string, phoneNumber: Option<string>): (r: User)
    ensures r.firstName == firstName && r.lastName == lastName && r.email == email && r.phoneNumber == phoneNumber
    ensures r.(firstName := u.firstName, lastName := u.lastName, email := u.email, phoneNumber := u.phoneNumber) == u
  {
    u.(firstName := firstName, lastName := lastName, email := email, phoneNumber := phoneNumber)
  }

  /** Another account already uses `email`. */
  predicate EmailUsedByOther(users: map<nat, User>, id: nat, email: string)
  {
    exists j :: j in users && j != id && users[j].email == email
  }

  /** updateProfile: changes the first name, last name, email and phone number
      of the signed-in account; an unknown id, or an email another account
      uses, writes nothing. A stored password that does not look encoded is
      encoded by updateUser on the way. */
  method UpdateProfile(store: Store, encode: string -> string, userId: nat,
                       firstName: string, lastName: string, email: string, phoneNumber: Option<string>)
    returns (r: Result<(), ProfileError>)
    requires store.Valid()
    modifies store
    ensures store.Valid()
    ensures store.apartments == old(store.apartments) && store.parkings == old(store.parkings)
    ensures r == Err(ProfileNotFound) <==> userId !in old(store.users)
    ensures r == Err(ProfileNotSaved) <==> userId in old(store.users) && EmailUsedByOther(old(store.users), userId, email)
    ensures r.Err? ==> store.users == old(store.users)
    ensures r.Ok? ==>
      && store.users == old(store.users)[userId :=
           WithProfile(old(store.users)[userId], firstName, lastName, email, phoneNumber)
             .(password := StoredPassword(encode, old(store.users)[userId].password))]
    ensures r.Ok? && (old(store.users)[userId].password.None? ||
                      StartsWith(old(store.users)[userId].password.value, EncodedPrefix)) ==>
      store.users[userId] == WithProfile(old(store.users)[userId], firstName, lastName, email, phoneNumber)
  {
    if userId !in store.users {
      return Err(ProfileNotFound);
    }
    var dbUser := store.users[userId];
    var edited := WithProfile(dbUser, firstName, lastName, email, phoneNumber);
    var v := edited.(password := StoredPassword(encode, edited.password));
    assert ClashesWithOthers(store.users, userId, v) <==> EmailUsedByOther(store.users, userId, email) by {
      if ClashesWithOthers(store.users, userId, v) {
        var j :| j in store.users && j != userId && (store.users[j].username == v.username || store.users[j].email == v.email);
        assert store.users[j].username != dbUser.username;
      }
    }
    var saved := UpdateUser(store, encode, Some(userId), edited);
    if saved.Err? {
      return Err(ProfileNotSaved);
    }
    r := Ok(());
  }
}
