/** The login schema (Server/models/User.js). */
module UserModel {
  import opened Common
  import Strings

  /** The `role` enum. */
  datatype Role = Admin | Manager | Employee

  /** Schema casting of a role string. */
  function ParseRole(s: string): (r: Option<Role>)
    ensures r.Some? ==> RoleName(r.value) == s
    ensures r.None? ==> s !in {"admin", "manager", "employee"}
  {
    if s == "admin" then Some(Admin)
    else if s == "manager" then Some(Manager)
    else if s == "employee" then Some(Employee)
    else None
  }

  function RoleName(r: Role): string
  {
    match r
    case Admin => "admin"
    case Manager => "manager"
    case Employee => "employee"
  }

  /** One login; the timestamps are not modelled. */
  datatype User = User(email: string, passwordHash: string, role: Role, employeeId: Option<Id>)

  /** `required` on email and passwordHash, and `lowercase: true` on email. */
  predicate Conforms(u: User)
  {
    u.email != "" && u.passwordHash != "" && Strings.IsLower(u.email)
  }

  /** The unique index on email. */
  predicate EmailsUnique(users: map<Id, User>)
  {
    forall a, b :: a in users && b in users && users[a].email == users[b].email ==> a == b
  }

  /** `User.findOne({ email })`; the lowercase setter also runs on the query value. */
  predicate EmailTaken(users: map<Id, User>, email: string)
  {
    exists a :: a in users && users[a].email == Strings.Lower(email)
  }

  /** `User.findOne({ role: "admin" })` finds someone. */
  predicate HasAdmin(users: map<Id, User>)
  {
    exists a :: a in users && users[a].role == Admin
  }

  /** The collection invariant. */
  predicate TableValid(users: map<Id, User>)
  {
    EmailsUnique(users) && forall a :: a in users ==> Conforms(users[a])
  }

  /** Inserting a conforming user under a fresh id with an unused email keeps the table valid. */
  lemma InsertKeepsValid(users: map<Id, User>, id: Id, u: User)
    requires TableValid(users) && Conforms(u) && id !in users
    requires forall a :: a in users ==> users[a].email != u.email
    ensures TableValid(users[id := u])
  {
  }
}
