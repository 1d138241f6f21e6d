/** UserController: self-registration. Bean-validation errors are an input
    (`hasErrors`), as they come from the form binding; the username and the
    email are then checked in that order, and an account that passes is saved
    as an active CLIENT. */
module UserController {
  import opened Common
  import opened Accounts
  import opened Parkings
  import opened Repository
  import opened UserService

  /** How registerUser ends: the registration form again (with the reason), or
      the redirect to the login page after saving the account under `id`. */
  datatype RegisterOutcome =
    | FormErrors
    | UsernameRejected
    | EmailRejected
    | RegistrationFailed
    | Registered(id: nat)

  /** The account registerUser saves for the submitted one. */
  function AsNewClient(u: User): (r: User)
    ensures r.role == Client && r.active
    ensures r.(role := u.role, active := u.active) == u
  {
    u.(role := Client, active := true)
  }

  /** registerUser: form errors, then a taken username, then a taken email send
      the form back with nothing saved; otherwise the account is saved as an
      active CLIENT (which runs the automatic parking assignment). A failed save
      is reported on the form, never as a successful registration. */
  method RegisterUser(store: Store, encode: string -> string, hasErrors: bool, u: User)
    returns (outcome: RegisterOutcome)
    requires store.Valid()
    modifies store
    ensures store.Valid()
    ensures outcome == FormErrors <==> hasErrors
    ensures outcome == UsernameRejected <==> !hasErrors && UsernameTaken(old(store.users), u.username)
    ensures outcome == EmailRejected <==>
      !hasErrors && !UsernameTaken(old(store.users), u.username) && EmailTaken(old(store.users), u.email)
    ensures outcome.Registered? <==>
      !hasErrors && !UsernameTaken(old(store.users), u.username) && !EmailTaken(old(store.users), u.email)
      && u.password.Some?
    ensures !outcome.Registered? ==> unchanged(store)
    ensures outcome.Registered? ==>
      && outcome.id !in old(store.users)
      && store.users == old(store.users)[outcome.id := AsNewClient(u).(password := Some(encode(u.password.value)))]
      && store.parkings == AutoAssign(old(store.parkings), outcome.id, Client).0
      && store.apartments == old(store.apartments)
  {
    if hasErrors {
      return FormErrors;
    }
    if store.ExistsByUsername(u.username) {
      return UsernameRejected;
    }
    if store.ExistsByEmail(u.email) {
      return EmailRejected;
    }
    var saved := SaveUser(store, encode, AsNewClient(u));
    if saved.Err? {
      return RegistrationFailed;
    }
    outcome := Registered(saved.value);
  }
}
