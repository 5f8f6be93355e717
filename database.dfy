/** The four document collections the controllers read and write, held in
    one object. Each controller method names in its `modifies` clause the
    collections it may write. */
module Database {
  import opened Common
  import ChecklistModel
  import OnboardingModel
  import EmployeeModel
  import UserModel

  class Db {
    /** DEPARTMENTS from server/utils/departments.js, fixed for the process's lifetime. */
    const departments: set<string>
    var employees: map<Id, EmployeeModel.Employee>
    var users: map<Id, UserModel.User>
    var checklists: map<Id, ChecklistModel.Checklist>
    /** Onboarding instances in the collection's natural (insertion) order. */
    var instances: seq<OnboardingModel.Instance>

    /** The schema-level invariants of all four collections. */
    predicate Valid()
      reads this
    {
      && EmployeeModel.DirectoryValid(employees, departments)
      && UserModel.TableValid(users)
      && (forall id :: id in checklists ==> ChecklistModel.Conforms(checklists[id]))
      && OnboardingModel.StoreValid(instances)
    }

    /** An empty database. */
    constructor(departments: set<string>)
      ensures Valid()
      ensures this.departments == departments
      ensures employees == map[] && users == map[] && checklists == map[] && instances == []
    {
      this.departments := departments;
      employees, users, checklists, instances := map[], map[], map[], [];
    }
  }
}
