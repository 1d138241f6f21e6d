/** AdminController: the checks in front of user creation, the AGENT role edits
    on the agent pages, the guarded user deletion and the dashboard's agent
    count. Flash messages and view names are left out; each handler returns
    what it did as a Result. */
module AdminController {
  import opened Common
  import opened Accounts
  import opened Parkings
  import opened Repository
  import opened UserService

  /** Why createUser redirected back to the form. `NotSaved` is an exception
      from saveUser (a null password among them) caught by the handler. */
  datatype CreateUserError = PasswordsDiffer | UsernameInUse | EmailInUse | NotSaved

  /** Why an agent or user handler reported an error. */
  datatype AdminError = NotFound | UpdateFailed

  // ---------------------------------------------------------------------
  // createUser

  /** The checks createUser makes before saving, in order: the password
      confirmation, then the username, then the email. A null password makes
      the comparison throw, which the handler reports like a failed save. */
  function CreateUserCheck(users: map<nat, User>, u: User, confirm: string): (r: Option<CreateUserError>)
    ensures r == Some(NotSaved) <==> u.password.None?
    ensures r == Some(PasswordsDiffer) <==> u.password.Some? && u.password.value != confirm
    ensures r == Some(UsernameInUse) <==> u.password == Some(confirm) && UsernameTaken(users, u.username)
    ensures r == Some(EmailInUse) <==>
      u.password == Some(confirm) && !UsernameTaken(users, u.username) && EmailTaken(users, u.email)
    ensures r.None? <==> u.password == Some(confirm) && !UsernameTaken(users, u.username) && !EmailTaken(users, u.email)
  {
    if u.password.None? then Some(NotSaved)
    else if u.password.value != confirm then Some(PasswordsDiffer)
    else if UsernameTaken(users, u.username) then Some(UsernameInUse)
    else if EmailTaken(users, u.email) then Some(EmailInUse)
    else None
  }

  /** The management role an ADMIN account gets from the form: added only when
      the field is present, not blank after trimming, and names a constant of
      ManagementRole (`constants`); an unknown name is ignored. Nothing else
      about the account changes. */
  function WithRequestedRole(u: User, managementRole: Option<string>, constants: set<string>): (r: User)
    ensures r.(managementRoles := u.managementRoles) == u
    ensures u.managementRoles <= r.managementRoles
    ensures forall m :: m in r.managementRoles - u.managementRoles ==>
      && u.role == Admin && managementRole == Some(m.name) && m.name in constants
      && !TrimmedEmpty(m.name)
    ensures (u.role == Admin && managementRole.Some? && !TrimmedEmpty(managementRole.value) &&
             managementRole.value in constants) ==> ManagementRole(managementRole.value) in r.managementRoles
  {
    if u.role == Admin && managementRole.Some? && !TrimmedEmpty(managementRole.value) then
      match ManagementRoleOf(constants, managementRole.value)
      case Some(m) => u.(managementRoles := u.managementRoles + {m})
      case None => u
    else u
  }

  /** createUser: on any failed check nothing is stored; otherwise the account,
      with the requested management role when it applies, is saved by
      saveUser. */
  method CreateUser(store: Store, encode: string -> string, u: User, confirm: string,
                    managementRole: Option<string>, constants: set<string>)
    returns (r: Result<nat, CreateUserError>)
    requires store.Valid()
    modifies store
    ensures store.Valid()
    ensures CreateUserCheck(old(store.users), u, confirm).Some? ==>
      r == Err(CreateUserCheck(old(store.users), u, confirm).value) && unchanged(store)
    ensures CreateUserCheck(old(store.users), u, confirm).None? ==>
      && r.Ok? && r.value !in old(store.users)
      && store.users == old(store.users)[r.value :=
           WithRequestedRole(u, managementRole, constants).(password := Some(encode(confirm)))]
      && store.apartments == old(store.apartments)
      && store.parkings == AutoAssign(old(store.parkings), r.value, u.role).0
  {
    var check := CreateUserCheck(store.users, u, confirm);
    if check.Some? {
      return Err(check.value);
    }
    var user := WithRequestedRole(u, managementRole, constants);
    assert user.username == u.username && user.email == u.email && user.password == u.password by {
      assert user.(managementRoles := u.managementRoles) == u;
    }
    var saved := SaveUser(store, encode, user);
    r := Ok(saved.value);
  }

  // ---------------------------------------------------------------------
  // Agents

  /** createAgent: the submitted account is saved as a CLIENT whose management
      roles are exactly {AGENT}; a failed save stores nothing. */
  method CreateAgent(store: Store, encode: string -> string, agent: User) returns (r: Result<nat, SaveError>)
    requires store.Valid()
    modifies store
    ensures store.Valid()
    ensures r.Err? ==> unchanged(store)
    ensures r.Ok? <==>
      !UsernameTaken(old(store.users), agent.username) && !EmailTaken(old(store.users), agent.email) &&
      agent.password.Some?
    ensures r.Ok? ==>
      store.parkings == AutoAssign(old(store.parkings), r.value, Client).0 &&
      store.apartments == old(store.apartments)
    ensures r.Ok? ==>
      && r.value !in old(store.users) && agent.password.Some?
      && store.users == old(store.users)[r.value :=
           agent.(role := Client, managementRoles := {Agent}, password := Some(encode(agent.password.value)))]
      && store.users[r.value].role == Client && store.users[r.value].managementRoles == {Agent}
      && TotalAgents(store.users) == TotalAgents(old(store.users)) + 1
  {
    var user := agent.(role := Client, managementRoles := {Agent});
    r := SaveUser(store, encode, user);
    if r.Ok? {
      TotalAgentsAfterStore(old(store.users), r.value, store.users[r.value]);
    }
  }

  /** updateAgent: the account under `id` is replaced by the submitted one,
      whose management roles become the stored account's roles plus AGENT. An
      unknown id, or a username or email in use by another account, changes
      nothing. */
  method UpdateAgent(store: Store, encode: string -> string, id: nat, agent: User) returns (r: Result<(), AdminError>)
    requires store.Valid()
    modifies store
    ensures store.Valid()
    ensures store.apartments == old(store.apartments) && store.parkings == old(store.parkings)
    ensures r == Err(NotFound) <==> id !in old(store.users)
    ensures r == Err(UpdateFailed) <==> id in old(store.users) && ClashesWithOthers(old(store.users), id, agent)
    ensures r.Err? ==> store.users == old(store.users)
    ensures r.Ok? ==>
      && id in old(store.users)
      && store.users == old(store.users)[id :=
           agent.(managementRoles := old(store.users)[id].managementRoles + {Agent},
                  password := StoredPassword(encode, agent.password))]
      && IsAgent(store.users[id])
      && TotalAgents(store.users) == TotalAgents(old(store.users)) + (if IsAgent(old(store.users)[id]) then 0 else 1)
  {
    if id !in store.users {
      return Err(NotFound);
    }
    var roles := store.users[id].managementRoles + {Agent};
    var updated := UpdateUser(store, encode, Some(id), agent.(managementRoles := roles));
    if updated.Err? {
      return Err(UpdateFailed);
    }
    TotalAgentsAfterStore(old(store.users), id, store.users[id]);
    r := Ok(());
  }

  /** deleteAgent: the stored account under `id` loses the AGENT role and
      keeps everything else, except that updateUser encodes a password that
      does not look encoded. An unknown id changes nothing. */
  method DeleteAgent(store: Store, encode: string -> string, id: nat) returns (r: Result<(), AdminError>)
    requires store.Valid()
    modifies store
    ensures store.Valid()
    ensures store.apartments == old(store.apartments) && store.parkings == old(store.parkings)
    ensures r.Err? <==> id !in old(store.users)
    ensures r.Err? ==> r.error == NotFound && store.users == old(store.users)
    ensures r.Ok? ==>
      && store.users == old(store.users)[id :=
           old(store.users)[id].(managementRoles := old(store.users)[id].managementRoles - {Agent},
                                 password := StoredPassword(encode, old(store.users)[id].password))]
      && !IsAgent(store.users[id])
      && TotalAgents(store.users) == TotalAgents(old(store.users)) - (if IsAgent(old(store.users)[id]) then 1 else 0)
  {
    if id !in store.users {
      return Err(NotFound);
    }
    var agent := store.users[id];
    var revoked := agent.(managementRoles := agent.managementRoles - {Agent});
    ResaveNoClash(store.users, id, revoked.(password := StoredPassword(encode, revoked.password)));
    var _ := UpdateUser(store, encode, Some(id), revoked);
    TotalAgentsAfterStore(old(store.users), id, store.users[id]);
    r := Ok(());
  }

  // ---------------------------------------------------------------------
  // deleteUser and the agent count

  /** deleteUser: an unknown id is reported and deletes nothing; otherwise the
      account is removed. */
  method DeleteUser(store: Store, id: nat) returns (r: Result<(), AdminError>)
    requires store.Valid()
    modifies store
    ensures store.Valid()
    ensures store.apartments == old(store.apartments) && store.parkings == old(store.parkings)
    ensures r.Err? <==> id !in old(store.users)
    ensures r.Err? ==> r.error == NotFound && store.users == old(store.users)
    ensures r.Ok? ==> store.users == old(store.users) - {id} && |store.users| == |old(store.users)| - 1
    ensures r.Ok? ==>
      TotalAgents(store.users) == TotalAgents(old(store.users)) - (if IsAgent(old(store.users)[id]) then 1 else 0)
  {
    if id !in store.users {
      return Err(NotFound);
    }
    UserService.DeleteUser(store, id);
    TotalAgentsAfterDelete(old(store.users), id);
    r := Ok(());
  }

  /** The ids of the accounts holding the AGENT role. */
  function AgentIds(users: map<nat, User>): (r: set<nat>)
    ensures forall j :: j in r <==> j in users && IsAgent(users[j])
  {
    UserIdsWhere(users, IsAgent)
  }

  /** The dashboard's totalAgents: zero exactly when no user is an agent. */
  function TotalAgents(users: map<nat, User>): (r: nat)
    ensures r == 0 <==> forall id :: id in users ==> !IsAgent(users[id])
  {
    assert AgentIds(users) == {} <==> forall id :: id in users ==> !IsAgent(users[id]);
    |AgentIds(users)|
  }

  /** Storing `v` under `id` changes the agent count only by what the
      account under `id` was and becomes: granting AGENT adds one, revoking it
      removes one, and every other account counts as before. */
  lemma TotalAgentsAfterStore(users: map<nat, User>, id: nat, v: User)
    ensures TotalAgents(users[id := v]) ==
      TotalAgents(users)
      - (if id in users && IsAgent(users[id]) then 1 else 0)
      + (if IsAgent(v) then 1 else 0)
  {
    var rest := AgentIds(users) - {id};
    assert AgentIds(users[id := v]) - {id} == rest;
    AgentsAround(users[id := v], id, rest);
    AgentsAround(users, id, rest);
  }

  /** The agent count is the agents other than `id` plus `id` itself when it
      is an agent. */
  lemma AgentsAround(users: map<nat, User>, id: nat, rest: set<nat>)
    requires rest == AgentIds(users) - {id}
    ensures |AgentIds(users)| == |rest| + (if id in users && IsAgent(users[id]) then 1 else 0)
  {
    if id in users && IsAgent(users[id]) {
      assert AgentIds(users) == rest + {id};
    } else {
      assert AgentIds(users) == rest;
    }
  }

  /** Removing an account removes it from the agent count when it was an
      agent. */
  lemma TotalAgentsAfterDelete(users: map<nat, User>, id: nat)
    ensures TotalAgents(users - {id}) ==
      TotalAgents(users) - (if id in users && IsAgent(users[id]) then 1 else 0)
  {
    var before := AgentIds(users);
    assert AgentIds(users - {id}) == before - {id};
    if id in users && IsAgent(users[id]) {
      assert before == (before - {id}) + {id};
    } else {
      assert before - {id} == before;
    }
  }

  /** Every agent is counted among the users. */
  lemma TotalAgentsBounded(users: map<nat, User>)
    ensures TotalAgents(users) <= TotalUsers(users)
  {
    SubsetSize(AgentIds(users), users.Keys);
  }
}
