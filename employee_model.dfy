/** The employee schema the controller uses (server/models/Employee.js). */
module EmployeeModel {
  import opened Common

  /** One employee document; phone, bio, documents and timestamps are not modelled. */
  datatype Employee = Employee(
    firstName: string,
    lastName: string,
    email: string,
    department: Option<string>,
    jobTitle: Option<string>,
    managerId: Option<Id>,
    skills: seq<string>,
    location: Option<string>,
    userId: Option<Id>)

  /** The `enum: DEPARTMENTS` validator: an absent department passes, a present one must be listed. */
  predicate DepartmentConforms(department: Option<string>, departments: set<string>)
  {
    department.None? || department.value in departments
  }

  /** What `Employee.create` validation accepts: the three required strings and the enum. */
  predicate Conforms(e: Employee, departments: set<string>)
  {
    e.firstName != "" && e.lastName != "" && e.email != "" && DepartmentConforms(e.department, departments)
  }

  /** The unique index on email. */
  predicate EmailsUnique(employees: map<Id, Employee>)
  {
    forall a, b :: a in employees && b in employees && employees[a].email == employees[b].email ==> a == b
  }

  /** Some employee other than `except` has this email. */
  predicate EmailTakenByOther(employees: map<Id, Employee>, email: string, except: Option<Id>)
  {
    exists a :: a in employees && employees[a].email == email && Some(a) != except
  }

  /** Every manager reference resolves to an existing employee. */
  predicate ManagersExist(employees: map<Id, Employee>)
  {
    forall a :: a in employees && employees[a].managerId.Some? ==> employees[a].managerId.value in employees
  }

  /** No employee is their own manager. */
  predicate NoSelfManagement(employees: map<Id, Employee>)
  {
    forall a :: a in employees ==> employees[a].managerId != Some(a)
  }

  /** A stored department is absent, empty, or one of DEPARTMENTS. The empty string gets in through
      updateEmployee, whose guard skips a falsy department and whose update runs no validators. */
  predicate DepartmentsStored(employees: map<Id, Employee>, departments: set<string>)
  {
    forall a :: a in employees && employees[a].department.Some? ==>
      employees[a].department.value == "" || employees[a].department.value in departments
  }

  /** `Employee.findOne({ managerId: id })` finds someone: `id` manages a team. */
  predicate Manages(employees: map<Id, Employee>, id: Id)
  {
    exists a :: a in employees && employees[a].managerId == Some(id)
  }

  /** The directory invariant. */
  predicate DirectoryValid(employees: map<Id, Employee>, departments: set<string>)
  {
    EmailsUnique(employees) && ManagersExist(employees) && NoSelfManagement(employees)
    && DepartmentsStored(employees, departments)
  }

  /** Recording a login on an employee touches nothing the directory invariant constrains. */
  lemma LinkKeepsValid(employees: map<Id, Employee>, departments: set<string>, id: Id, userId: Id)
    requires DirectoryValid(employees, departments) && id in employees
    ensures DirectoryValid(employees[id := employees[id].(userId := Some(userId))], departments)
  {
    var linked := employees[id := employees[id].(userId := Some(userId))];
    assert forall a :: a in linked ==>
      (a in employees && linked[a].email == employees[a].email
       && linked[a].managerId == employees[a].managerId && linked[a].department == employees[a].department);
  }
}
