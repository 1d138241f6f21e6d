/** The User entity as the core uses it. User.java, UserRole.java and
    ManagementRole.java are not part of this model: the fields below are the ones
    the services and controllers read and write. */
module Accounts {
  import opened Common

  datatype UserRole = Admin | Client

  /** A management capability tag. The enum's constants are not part of this
      model; the one the core names is AGENT. */
  datatype ManagementRole = ManagementRole(name: string)

  const Agent := ManagementRole("AGENT")

  /** ManagementRole.valueOf: `constants` is the set of the enum's constant
      names (it contains "AGENT"); any other name throws, modelled as None. */
  function ManagementRoleOf(constants: set<string>, name: string): (r: Option<ManagementRole>)
    ensures r.Some? <==> name in constants
    ensures r.Some? ==> r.value.name == name
  {
    if name in constants then Some(ManagementRole(name)) else None
  }

  /** A stored or submitted account; `password` None stands for a null password,
      `phoneNumber` None for a null phone number. The id is the store's key. */
  datatype User = User(
    username: string,
    email: string,
    password: Option<string>,
    firstName: string,
    lastName: string,
    phoneNumber: Option<string>,
    role: UserRole,
    active: bool,
    managementRoles: set<ManagementRole>)

  predicate IsAgent(u: User)
  {
    Agent in u.managementRoles
  }
}
