/** The employee directory handlers (Server/controllers/employeeController.js)
    over the employee and login collections. */
module EmployeeController {
  import opened Common
  import opened EmployeeModel
  import UserModel
  import Database

  /** A request body; `None` stands for a field the body leaves out. */
  datatype EmployeeInput = EmployeeInput(
    firstName: Option<string>,
    lastName: Option<string>,
    email: Option<string>,
    department: Option<string>,
    jobTitle: Option<string>,
    managerId: Option<Id>,
    skills: Option<seq<string>>,
    location: Option<string>)

  /** `!firstName || !lastName || !email` is false. */
  predicate HasRequired(input: EmployeeInput)
  {
    Truthy(input.firstName) && Truthy(input.lastName) && Truthy(input.email)
  }

  /** `department && !DEPARTMENTS.includes(department)`. */
  predicate DepartmentRejected(department: Option<string>, departments: set<string>)
  {
    Truthy(department) && department.value !in departments
  }

  /** A truthy managerId that names no employee. */
  predicate UnknownManager(employees: map<Id, Employee>, managerId: Option<Id>)
  {
    Truthy(managerId) && managerId.value !in employees
  }

  /** The document createEmployee passes to `Employee.create`. */
  function Created(input: EmployeeInput): (e: Employee)
    requires HasRequired(input)
    ensures e.managerId == TruthyOrNull(input.managerId)
    ensures input.skills.None? ==> e.skills == []
    ensures e.userId.None?
    ensures e.firstName == input.firstName.value && e.lastName == input.lastName.value
    ensures e.email == input.email.value
    ensures e.department == input.department && e.jobTitle == input.jobTitle && e.location == input.location
    ensures input.skills.Some? ==> e.skills == input.skills.value
  {
    Employee(input.firstName.value, input.lastName.value, input.email.value, input.department, input.jobTitle,
             TruthyOrNull(input.managerId), OrElse(input.skills, []), input.location, None)
  }

  /** POST /api/employees. `id` is the new document's ObjectId. */
  method CreateEmployee(db: Database.Db, id: Id, input: EmployeeInput) returns (r: Result<Employee>)
    requires db.Valid() && id !in db.employees
    modifies db`employees
    ensures db.Valid()
    ensures !HasRequired(input) ==> r == Fail(BadRequest, "Missing required fields")
    ensures HasRequired(input) && DepartmentRejected(input.department, db.departments) ==>
      r == Fail(BadRequest, "Invalid department")
    ensures HasRequired(input) && !DepartmentRejected(input.department, db.departments)
            && EmailTakenByOther(old(db.employees), input.email.value, None) ==>
      r == Fail(BadRequest, "Employee with this email exists")
    ensures HasRequired(input) && !DepartmentRejected(input.department, db.departments)
            && !EmailTakenByOther(old(db.employees), input.email.value, None)
            && UnknownManager(old(db.employees), input.managerId) ==>
      r == Fail(BadRequest, "Invalid managerId")
    ensures r.Ok? <==>
      && HasRequired(input) && !EmailTakenByOther(old(db.employees), input.email.value, None)
      && !UnknownManager(old(db.employees), input.managerId)
      && DepartmentConforms(input.department, db.departments)
    ensures r.Ok? ==> r.value == Created(input) && db.employees == old(db.employees)[id := r.value]
    ensures r.Fail? ==> db.employees == old(db.employees)
  {
    if !HasRequired(input) {
      return Fail(BadRequest, "Missing required fields");
    }
    if DepartmentRejected(input.department, db.departments) {
      return Fail(BadRequest, "Invalid department");
    }
    if EmailTakenByOther(db.employees, input.email.value, None) {
      return Fail(BadRequest, "Employee with this email exists");
    }
    if UnknownManager(db.employees, input.managerId) {
      return Fail(BadRequest, "Invalid managerId");
    }
    var e := Created(input);
    if !DepartmentConforms(e.department, db.departments) {
      // an empty department passes the guard but not the schema enum
      return Fail(ServerError, ServerErrorMessage);
    }
    db.employees := db.employees[id := e];
    r := Ok(e);
  }

  /** The document after `findByIdAndUpdate`: fields the body leaves out are dropped from the
      update, `managerId || null` is always written. */
  function Updated(e: Employee, input: EmployeeInput): (u: Employee)
    ensures u.managerId == TruthyOrNull(input.managerId)
    ensures u.userId == e.userId
    ensures u.firstName == if input.firstName.Some? then input.firstName.value else e.firstName
    ensures u.lastName == if input.lastName.Some? then input.lastName.value else e.lastName
    ensures u.email == if input.email.Some? then input.email.value else e.email
    ensures u.department == if input.department.Some? then input.department else e.department
    ensures u.jobTitle == if input.jobTitle.Some? then input.jobTitle else e.jobTitle
    ensures u.skills == if input.skills.Some? then input.skills.value else e.skills
    ensures u.location == if input.location.Some? then input.location else e.location
  {
    e.(firstName := OrElse(input.firstName, e.firstName),
       lastName := OrElse(input.lastName, e.lastName),
       email := OrElse(input.email, e.email),
       department := if input.department.Some? then input.department else e.department,
       jobTitle := if input.jobTitle.Some? then input.jobTitle else e.jobTitle,
       managerId := TruthyOrNull(input.managerId),
       skills := OrElse(input.skills, e.skills),
       location := if input.location.Some? then input.location else e.location)
  }

  /** The guards of updateEmployee all pass. */
  predicate UpdateAccepted(employees: map<Id, Employee>, departments: set<string>, id: Id, input: EmployeeInput)
  {
    && id in employees
    && !DepartmentRejected(input.department, departments)
    && !(Truthy(input.managerId) && input.managerId.value == id)
    && !UnknownManager(employees, input.managerId)
  }

  /** PUT /api/employees/:id. The update runs no validators, but the unique email index still refuses
      another employee's email (the store error surfaces as 500). */
  method UpdateEmployee(db: Database.Db, id: Id, input: EmployeeInput) returns (r: Result<Employee>)
    requires db.Valid()
    modifies db`employees
    ensures db.Valid()
    ensures id !in old(db.employees) ==> r == Fail(NotFound, "Employee not found")
    ensures id in old(db.employees) && DepartmentRejected(input.department, db.departments) ==>
      r == Fail(BadRequest, "Invalid department")
    ensures id in old(db.employees) && !DepartmentRejected(input.department, db.departments)
            && Truthy(input.managerId) && input.managerId.value == id ==>
      r == Fail(BadRequest, "Employee cannot be their own manager")
    ensures id in old(db.employees) && !DepartmentRejected(input.department, db.departments)
            && Truthy(input.managerId) && input.managerId.value != id && input.managerId.value !in old(db.employees) ==>
      r == Fail(BadRequest, "Invalid managerId")
    ensures UpdateAccepted(old(db.employees), db.departments, id, input)
            && input.email.Some? && EmailTakenByOther(old(db.employees), input.email.value, Some(id)) ==>
      r == Fail(ServerError, ServerErrorMessage)
    ensures r.Ok? <==> UpdateAccepted(old(db.employees), db.departments, id, input)
                       && !(input.email.Some? && EmailTakenByOther(old(db.employees), input.email.value, Some(id)))
    ensures r.Ok? ==> r.value == Updated(old(db.employees)[id], input) && db.employees == old(db.employees)[id := r.value]
    ensures r.Fail? ==> db.employees == old(db.employees)
  {
    if id !in db.employees {
      return Fail(NotFound, "Employee not found");
    }
    if DepartmentRejected(input.department, db.departments) {
      return Fail(BadRequest, "Invalid department");
    }
    if Truthy(input.managerId) && input.managerId.value == id {
      return Fail(BadRequest, "Employee cannot be their own manager");
    }
    if UnknownManager(db.employees, input.managerId) {
      return Fail(BadRequest, "Invalid managerId");
    }
    if input.email.Some? && EmailTakenByOther(db.employees, input.email.value, Some(id)) {
      return Fail(ServerError, ServerErrorMessage);
    }
    var e := Updated(db.employees[id], input);
    db.employees := db.employees[id := e];
    r := Ok(e);
  }

  /** Some login is linked to the employee. */
  predicate HasLogin(users: map<Id, UserModel.User>, id: Id)
  {
    exists u :: u in users && users[u].employeeId == Some(id)
  }

  /** DELETE /api/employees/:id. `User.deleteOne({ employeeId })` removes one linked login, if any. */
  method DeleteEmployee(db: Database.Db, id: Id) returns (r: Result<()>, ghost removedLogin: Option<Id>)
    requires db.Valid()
    modifies db`employees, db`users
    ensures db.Valid()
    ensures id !in old(db.employees) ==> r == Fail(NotFound, "Employee not found")
    ensures id in old(db.employees) && Manages(old(db.employees), id) ==>
      r == Fail(BadRequest, "Cannot delete this employee because they manage other employees.")
    ensures r.Ok? <==> id in old(db.employees) && !Manages(old(db.employees), id)
    ensures r.Ok? ==> db.employees == old(db.employees) - {id}
    ensures r.Ok? && HasLogin(old(db.users), id) ==>
      && removedLogin.Some? && removedLogin.value in old(db.users)
      && old(db.users)[removedLogin.value].employeeId == Some(id)
      && db.users == old(db.users) - {removedLogin.value}
    ensures r.Ok? && !HasLogin(old(db.users), id) ==> db.users == old(db.users)
    ensures r.Fail? ==> db.employees == old(db.employees) && db.users == old(db.users)
  {
    removedLogin := None;
    if id !in db.employees {
      return Fail(NotFound, "Employee not found"), removedLogin;
    }
    if Manages(db.employees, id) {
      return Fail(BadRequest, "Cannot delete this employee because they manage other employees."), removedLogin;
    }
    if HasLogin(db.users, id) {
      var u :| u in db.users && db.users[u].employeeId == Some(id);
      db.users := db.users - {u};
      removedLogin := Some(u);
    }
    db.employees := db.employees - {id};
    r := Ok(());
  }

  /** The manager fields `populate("managerId", "firstName lastName email")` brings in. */
  datatype ManagerInfo = ManagerInfo(id: Id, firstName: string, lastName: string, email: string)

  /** An employee as the read paths return it: the document with its manager populated
      (`None` when there is no manager or the reference no longer resolves). */
  datatype EmployeeView = EmployeeView(id: Id, employee: Employee, manager: Option<ManagerInfo>)

  /** GET /api/employees/:id. */
  function EmployeeById(employees: map<Id, Employee>, id: Id): (r: Result<EmployeeView>)
    ensures r.Ok? <==> id in employees
    ensures r.Fail? ==> r == Fail(NotFound, "Employee not found")
    ensures r.Ok? ==> r.value.id == id && r.value.employee == employees[id]
    ensures r.Ok? ==> (r.value.manager.Some? <==>
                        employees[id].managerId.Some? && employees[id].managerId.value in employees)
    ensures r.Ok? && r.value.manager.Some? ==>
      var m := employees[employees[id].managerId.value];
      && r.value.manager.value.id == employees[id].managerId.value
      && r.value.manager.value.firstName == m.firstName && r.value.manager.value.lastName == m.lastName
      && r.value.manager.value.email == m.email
  {
    if id !in employees then Fail(NotFound, "Employee not found")
    else
      var e := employees[id];
      var m := if e.managerId.Some? && e.managerId.value in employees
               then var boss := employees[e.managerId.value];
                    Some(ManagerInfo(e.managerId.value, boss.firstName, boss.lastName, boss.email))
               else None;
      Ok(EmployeeView(id, e, m))
  }

  /** In a valid directory the populated manager is present exactly when a manager is set. */
  lemma ManagerAlwaysResolves(employees: map<Id, Employee>, departments: set<string>, id: Id)
    requires DirectoryValid(employees, departments) && id in employees
    ensures EmployeeById(employees, id).Ok?
    ensures EmployeeById(employees, id).value.manager.Some? <==> employees[id].managerId.Some?
  {
  }
}
