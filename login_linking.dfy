/** The directory page's create-login action (the key icon, shown while a row has no `userId`)
    against registerUser, as written and as corrected. */
module LoginLinking {
  import opened Common
  import Database
  import AuthController
  import EmployeeController
  import EmployeeManagement
  import Strings
  import UserModel

  /** Whether the key icon shows for the employee after the page refetches the directory. */
  function OfferedAfterRefetch(db: Database.Db, employeeId: Id): bool
    reads db
    requires employeeId in db.employees
  {
    var view := EmployeeController.EmployeeById(db.employees, employeeId);
    EmployeeManagement.CreateLoginOffered(EmployeeManagement.ToRow(EmployeeManagement.AsListed(view.value)))
  }

  /** As written: a login created from the key icon leaves the employee's `userId` unset, so after the
      refetch the icon is still offered, and using it again is refused because the email is taken. */
  method CreateLoginTwiceAsWritten(db: Database.Db, first: Id, second: Id, employeeId: Id, email: string,
                                   password1: string, password2: string, hash: string -> string)
    returns (r1: Result<AuthController.PublicUser>, offered: bool, r2: Result<AuthController.PublicUser>)
    requires db.Valid() && first !in db.users && second !in db.users && first != second
    requires employeeId in db.employees && db.employees[employeeId].userId.None?
    requires password2 != ""
    modifies db`users
    ensures r1.Ok? ==> offered && r2 == Fail(BadRequest, "User already exists")
  {
    r1 := AuthController.RegisterUser(db, first, Some(email), Some(password1), Some("employee"), Some(employeeId), hash);
    assert db.employees[employeeId].userId.None?;
    offered := OfferedAfterRefetch(db, employeeId);
    if r1.Ok? {
      assert db.users[first].email == Strings.Lower(email);
      assert UserModel.EmailTaken(db.users, email);
    }
    r2 := AuthController.RegisterUser(db, second, Some(email), Some(password2), Some("employee"), Some(employeeId), hash);
  }

  /** Corrected: once registration records the login on the employee, the refetched row no longer
      offers to create one. */
  method CreateLoginLinked(db: Database.Db, user: Id, employeeId: Id, email: string, password: string,
                           hash: string -> string)
    returns (r: Result<AuthController.PublicUser>, offered: bool)
    requires db.Valid() && user !in db.users && user != "" && employeeId in db.employees && employeeId != ""
    modifies db`users, db`employees
    ensures employeeId in db.employees
    ensures r.Ok? ==> !offered
    ensures r.Fail? ==> (offered <==> !Truthy(old(db.employees)[employeeId].userId))
  {
    r := AuthController.RegisterUserLinked(db, user, Some(email), Some(password), Some("employee"), Some(employeeId), hash);
    offered := OfferedAfterRefetch(db, employeeId);
  }
}
