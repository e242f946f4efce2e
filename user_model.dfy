/** The User schema: a stored account of an engineer or a supervisor. */
module UserModel {
  import opened Common

  /** The role enum of a stored user. The admin is a configured credential
      pair and never a stored user, so it has no constructor here. */
  datatype Role = Engineer | Supervisor

  function RoleName(r: Role): string {
    match r
    case Engineer => "engineer"
    case Supervisor => "supervisor"
  }

  /** The enum validator on `role`: only the two listed names are accepted. */
  function ParseRole(s: string): (r: Option<Role>)
    ensures r.Some? <==> s == "engineer" || s == "supervisor"
    ensures r.Some? ==> RoleName(r.value) == s
  {
    if s == "engineer" then Some(Engineer)
    else if s == "supervisor" then Some(Supervisor)
    else None
  }

  lemma RoleNameRoundTrip(r: Role)
    ensures ParseRole(RoleName(r)) == Some(r)
  {
  }

  /** A stored user. `password` holds the credential hash. `assignedProjects`
      is a list of project ids that no handler ever writes, so nothing keeps
      it in step with the membership lists of the projects. */
  datatype User = User(name: string, email: string, password: string, role: Role,
                       assignedProjects: seq<Id>)

  /** Every field the schema marks required holds a non-empty string. */
  predicate WellFormedUser(u: User) {
    u.name != "" && u.email != "" && u.password != ""
  }

  /** `User.create`: the schema's required and enum validators, and the
      default empty `assignedProjects`. */
  function NewUser(name: string, email: string, password: string, role: string): (r: Result<User>)
    ensures r.Ok? <==> name != "" && email != "" && password != "" && ParseRole(role).Some?
    ensures r.Err? ==> r.error == SchemaError
    ensures r.Ok? ==> WellFormedUser(r.value) && RoleName(r.value.role) == role
    ensures r.Ok? ==> r.value.name == name && r.value.email == email && r.value.password == password
    ensures r.Ok? ==> r.value.assignedProjects == []
  {
    if name == "" || email == "" || password == "" then Err(SchemaError)
    else match ParseRole(role)
      case None => Err(SchemaError)
      case Some(rl) => Ok(User(name, email, password, rl, []))
  }

  /** `User.findOne({ email })` finds a document. */
  predicate EmailTaken(users: map<Id, User>, email: string) {
    exists id :: id in users && users[id].email == email
  }

  /** The unique index on `email`. */
  ghost predicate UniqueEmails(users: map<Id, User>) {
    forall a, b :: a in users && b in users && users[a].email == users[b].email ==> a == b
  }

  lemma AddingUnusedEmailKeepsUnique(users: map<Id, User>, id: Id, u: User)
    requires UniqueEmails(users) && id !in users && !EmailTaken(users, u.email)
    ensures UniqueEmails(users[id := u])
  {
  }

  /** A user as a listing shows it: every field except the password. */
  datatype UserView = UserView(id: Id, name: string, email: string, role: Role,
                               assignedProjects: seq<Id>)

  /** A user as the create response shows it: id, name, email and role. */
  datatype UserSummary = UserSummary(id: Id, name: string, email: string, role: Role)

  function View(id: Id, u: User): UserView {
    UserView(id, u.name, u.email, u.role, u.assignedProjects)
  }

  function Summary(id: Id, u: User): UserSummary {
    UserSummary(id, u.name, u.email, u.role)
  }

  /** Neither output shape depends on the stored password. */
  lemma OutputsHidePassword(id: Id, u: User, other: string)
    ensures View(id, u) == View(id, u.(password := other))
    ensures Summary(id, u) == Summary(id, u.(password := other))
  {
  }
}
