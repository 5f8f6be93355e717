/** The login handlers (Server/controllers/authController.js) over the login
    collection. bcrypt and jwt are passed in as functions. */
module AuthController {
  import opened Common
  import opened UserModel
  import Strings
  import Database
  import EmployeeModel

  /** The user part of the register reply: id, email and role, never the hash. */
  datatype PublicUser = PublicUser(id: Id, email: string, role: Role)

  /** The login reply: the token and the user's id, email, role and populated employee id. */
  datatype Session = Session(token: string, id: Id, email: string, role: Role, employeeId: Option<Id>)

  /** The credentials seedAdmin answers with. */
  datatype Credentials = Credentials(email: string, password: string)

  const AdminEmail := "admin@peoplehub.com"
  const AdminPassword := "admin123"

  /** `!email || !password || !role` is false. */
  predicate HasRequired(email: Option<string>, password: Option<string>, role: Option<string>)
  {
    Truthy(email) && Truthy(password) && Truthy(role)
  }

  /** POST /api/auth/register. `hash` is bcrypt.hash at cost 10; `id` is the new ObjectId. */
  method RegisterUser(db: Database.Db, id: Id, email: Option<string>, password: Option<string>, role: Option<string>,
                      employeeId: Option<Id>, hash: string -> string)
    returns (r: Result<PublicUser>)
    requires db.Valid() && id !in db.users
    modifies db`users
    ensures db.Valid()
    ensures !HasRequired(email, password, role) ==> r == Fail(BadRequest, "Missing required fields")
    ensures HasRequired(email, password, role) && EmailTaken(old(db.users), email.value) ==>
      r == Fail(BadRequest, "User already exists")
    ensures HasRequired(email, password, role) && !EmailTaken(old(db.users), email.value)
            && (ParseRole(role.value).None? || hash(password.value) == "") ==>
      r == Fail(ServerError, ServerErrorMessage)
    ensures r.Ok? <==> HasRequired(email, password, role) && !EmailTaken(old(db.users), email.value)
                       && ParseRole(role.value).Some? && hash(password.value) != ""
    ensures r.Ok? ==>
      var stored := User(Strings.Lower(email.value), hash(password.value), ParseRole(role.value).value,
                         TruthyOrNull(employeeId));
      db.users == old(db.users)[id := stored] && r.value == PublicUser(id, stored.email, stored.role)
    ensures r.Fail? ==> db.users == old(db.users)
  {
    if !HasRequired(email, password, role) {
      return Fail(BadRequest, "Missing required fields");
    }
    if EmailTaken(db.users, email.value) {
      return Fail(BadRequest, "User already exists");
    }
    var parsed := ParseRole(role.value);
    var passwordHash := hash(password.value);
    if parsed.None? || passwordHash == "" {
      // the role enum or the required hash fails validation in User.create
      return Fail(ServerError, ServerErrorMessage);
    }
    var u := User(Strings.Lower(email.value), passwordHash, parsed.value, TruthyOrNull(employeeId));
    InsertKeepsValid(db.users, id, u);
    db.users := db.users[id := u];
    r := Ok(PublicUser(id, u.email, u.role));
  }

  /** registerUser as the directory page relies on it: the same checks and the same new login, and
      in addition the linked employee's `userId` records the login, so the page stops offering to
      create one. */
  method RegisterUserLinked(db: Database.Db, id: Id, email: Option<string>, password: Option<string>,
                            role: Option<string>, employeeId: Option<Id>, hash: string -> string)
    returns (r: Result<PublicUser>)
    requires db.Valid() && id !in db.users
    modifies db`users, db`employees
    ensures db.Valid()
    ensures !HasRequired(email, password, role) ==> r == Fail(BadRequest, "Missing required fields")
    ensures HasRequired(email, password, role) && EmailTaken(old(db.users), email.value) ==>
      r == Fail(BadRequest, "User already exists")
    ensures r.Ok? <==> HasRequired(email, password, role) && !EmailTaken(old(db.users), email.value)
                       && ParseRole(role.value).Some? && hash(password.value) != ""
    ensures HasRequired(email, password, role) && !EmailTaken(old(db.users), email.value)
            && (ParseRole(role.value).None? || hash(password.value) == "") ==>
      r == Fail(ServerError, ServerErrorMessage)
    ensures r.Ok? ==>
      var stored := User(Strings.Lower(email.value), hash(password.value), ParseRole(role.value).value,
                         TruthyOrNull(employeeId));
      db.users == old(db.users)[id := stored] && r.value == PublicUser(id, stored.email, stored.role)
    ensures r.Ok? && Truthy(employeeId) && employeeId.value in old(db.employees) ==>
      db.employees == old(db.employees)[employeeId.value := old(db.employees)[employeeId.value].(userId := Some(id))]
    ensures !(r.Ok? && Truthy(employeeId) && employeeId.value in old(db.employees)) ==>
      db.employees == old(db.employees)
    ensures r.Fail? ==> db.users == old(db.users)
  {
    r := RegisterUser(db, id, email, password, role, employeeId, hash);
    if r.Ok? && Truthy(employeeId) && employeeId.value in db.employees {
      var eid := employeeId.value;
      EmployeeModel.LinkKeepsValid(db.employees, db.departments, eid, id);
      db.employees := db.employees[eid := db.employees[eid].(userId := Some(id))];
    }
  }

  /** POST /api/auth/login. `compare` is bcrypt.compare and `sign` is `generateToken`
      (a one-day jwt over the user id). */
  method LoginUser(db: Database.Db, email: string, password: string, compare: (string, string) -> bool,
                   sign: Id -> string)
    returns (r: Result<Session>)
    requires db.Valid()
    ensures !EmailTaken(db.users, email) ==> r == Fail(NotFound, "User not found")
    ensures forall u :: u in db.users && db.users[u].email == Strings.Lower(email) ==>
      (r.Ok? <==> compare(password, db.users[u].passwordHash))
    ensures forall u :: u in db.users && db.users[u].email == Strings.Lower(email)
                        && !compare(password, db.users[u].passwordHash) ==>
      r == Fail(Unauthorized, "Invalid credentials")
    ensures r.Ok? ==>
      && r.value.id in db.users
      && var u := db.users[r.value.id];
         && u.email == Strings.Lower(email)
         && r.value == Session(sign(r.value.id), r.value.id, u.email, u.role,
                               if u.employeeId.Some? && u.employeeId.value in db.employees then u.employeeId else None)
  {
    if !EmailTaken(db.users, email) {
      return Fail(NotFound, "User not found");
    }
    var uid :| uid in db.users && db.users[uid].email == Strings.Lower(email);
    var u := db.users[uid];
    if !compare(password, u.passwordHash) {
      return Fail(Unauthorized, "Invalid credentials");
    }
    // `user.employeeId?._id || null` after populate: a dangling reference reads as null
    var linked := if u.employeeId.Some? && u.employeeId.value in db.employees then u.employeeId else None;
    r := Ok(Session(sign(uid), uid, u.email, u.role, linked));
  }

  /** POST /api/auth/seed-admin. */
  method SeedAdmin(db: Database.Db, id: Id, hash: string -> string) returns (r: Result<Credentials>)
    requires db.Valid() && id !in db.users
    modifies db`users
    ensures db.Valid()
    ensures HasAdmin(old(db.users)) ==> r == Fail(BadRequest, "Admin already exists")
    ensures !HasAdmin(old(db.users)) && (EmailTaken(old(db.users), AdminEmail) || hash(AdminPassword) == "") ==>
      r == Fail(ServerError, ServerErrorMessage)
    ensures r.Ok? <==> !HasAdmin(old(db.users)) && !EmailTaken(old(db.users), AdminEmail) && hash(AdminPassword) != ""
    ensures r.Ok? ==> db.users == old(db.users)[id := User(AdminEmail, hash(AdminPassword), Admin, None)]
    ensures r.Ok? ==> r.value == Credentials(AdminEmail, AdminPassword) && HasAdmin(db.users)
    ensures r.Fail? ==> db.users == old(db.users)
  {
    if HasAdmin(db.users) {
      return Fail(BadRequest, "Admin already exists");
    }
    var passwordHash := hash(AdminPassword);
    Strings.LowerIdempotent(AdminEmail);
    if EmailTaken(db.users, AdminEmail) || passwordHash == "" {
      // the unique email index, or the required hash, refuses User.create
      return Fail(ServerError, ServerErrorMessage);
    }
    var admin := User(AdminEmail, passwordHash, Admin, None);
    InsertKeepsValid(db.users, id, admin);
    db.users := db.users[id := admin];
    assert db.users[id].role == Admin;
    r := Ok(Credentials(AdminEmail, AdminPassword));
  }

  /** seedAdmin is one-shot: whatever the first call does, a second call is refused, with 400 when
      an admin exists by then and otherwise with the first call's own 500. */
  method SeedAdminTwice(db: Database.Db, id1: Id, id2: Id, hash: string -> string)
    returns (first: Result<Credentials>, second: Result<Credentials>)
    requires db.Valid() && id1 !in db.users && id2 !in db.users && id1 != id2
    modifies db`users
    ensures second.Fail?
    ensures first.Ok? ==> second == Fail(BadRequest, "Admin already exists")
    ensures HasAdmin(old(db.users)) ==> first == second == Fail(BadRequest, "Admin already exists")
    ensures first.Fail? && !HasAdmin(old(db.users)) ==> second == first == Fail(ServerError, ServerErrorMessage)
  {
    first := SeedAdmin(db, id1, hash);
    second := SeedAdmin(db, id2, hash);
  }
}
