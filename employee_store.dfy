/** The client's employee store (client/src/store/useEmployeeStore.js): the
    directory as last fetched, patched locally after each call. The server's
    reply to each call is a parameter. */
module EmployeeStore {
  import opened Common
  import ListOps
  import Strings

  /** The `managerId` field as the client receives it: absent, populated with the manager's
      names (the list and by-id reads), or the bare id (the create and update replies). */
  datatype ManagerRef =
    | NoManager
    | Populated(id: Id, firstName: string, lastName: string, email: string)
    | Unpopulated(id: Id)

  /** An employee document as JSON on the client. */
  datatype EmployeeDoc = EmployeeDoc(
    id: Id,
    firstName: string,
    lastName: string,
    email: string,
    department: Option<string>,
    jobTitle: Option<string>,
    manager: ManagerRef,
    skills: Option<seq<string>>,
    location: Option<string>,
    userId: Option<Id>)

  /** `emp => emp._id !== id`. */
  function IdIsNot(id: Id): EmployeeDoc -> bool
  {
    (d: EmployeeDoc) => d.id != id
  }

  /** `emp => emp._id === id`. */
  function IdIs(id: Id): EmployeeDoc -> bool
  {
    (d: EmployeeDoc) => d.id == id
  }

  /** `emp.jobTitle?.toLowerCase().includes("manager")`. */
  predicate HasManagerTitle(d: EmployeeDoc)
  {
    d.jobTitle.Some? && Strings.Contains(Strings.Lower(d.jobTitle.value), "manager")
  }

  /** The predicate above as the callback `filter` receives. */
  function ManagerTitled(): EmployeeDoc -> bool
  {
    (d: EmployeeDoc) => HasManagerTitle(d)
  }

  /** The client's directory with its loading flag and last error. */
  class Store {
    var employees: seq<EmployeeDoc>
    var loading: bool
    var error: Option<string>

    constructor()
      ensures employees == [] && !loading && error.None?
    {
      employees := [];
      loading := false;
      error := None;
    }

    /** getEmployees: a success replaces the list and clears the error; a failure keeps the list. */
    method GetEmployees(resp: Response<seq<EmployeeDoc>>)
      modifies this
      ensures !loading
      ensures resp.Success? ==> employees == resp.data && error.None?
      ensures resp.Failure? ==> employees == old(employees)
                                && error == Some(ErrorMessage(resp, "Failed to fetch employees"))
    {
      loading := true;
      error := None;
      if resp.Success? {
        employees := resp.data;
      } else {
        error := Some(ErrorMessage(resp, "Failed to fetch employees"));
      }
      loading := false;
    }

    /** getEmployeeById: the document, or null on any failure; nothing in the store changes. */
    method GetEmployeeById(resp: Response<EmployeeDoc>) returns (r: Option<EmployeeDoc>)
      ensures r.Some? <==> resp.Success?
      ensures r.Some? ==> r.value == resp.data
    {
      r := if resp.Success? then Some(resp.data) else None;
    }

    /** createEmployee: the created document goes first; a failure records the message and yields null. */
    method CreateEmployee(resp: Response<EmployeeDoc>) returns (r: Option<EmployeeDoc>)
      modifies this
      ensures !loading
      ensures resp.Success? ==> employees == [resp.data] + old(employees) && error == old(error)
                                && r == Some(resp.data)
      ensures resp.Failure? ==> employees == old(employees) && r.None?
                                && error == Some(ErrorMessage(resp, "Failed to create employee"))
    {
      loading := true;
      if resp.Success? {
        employees := [resp.data] + employees;
        r := Some(resp.data);
      } else {
        error := Some(ErrorMessage(resp, "Failed to create employee"));
        r := None;
      }
      loading := false;
    }

    /** updateEmployee: every document with the id becomes the server's copy. */
    method UpdateEmployee(id: Id, resp: Response<EmployeeDoc>) returns (r: Option<EmployeeDoc>)
      modifies this
      ensures !loading
      ensures resp.Success? ==> |employees| == |old(employees)| && error == old(error) && r == Some(resp.data)
      ensures resp.Success? ==> forall i :: 0 <= i < |employees| ==>
        employees[i] == if old(employees)[i].id == id then resp.data else old(employees)[i]
      ensures resp.Failure? ==> employees == old(employees) && r.None?
                                && error == Some(ErrorMessage(resp, "Failed to update employee"))
    {
      loading := true;
      if resp.Success? {
        employees := ListOps.MapWhere(employees, IdIs(id), (_: EmployeeDoc) => resp.data);
        r := Some(resp.data);
      } else {
        error := Some(ErrorMessage(resp, "Failed to update employee"));
        r := None;
      }
      loading := false;
    }

    /** deleteEmployee: the id leaves the list and the call answers true; a failure answers false. */
    method DeleteEmployee(id: Id, resp: Response<()>) returns (ok: bool)
      modifies this
      ensures !loading
      ensures ok <==> resp.Success?
      ensures resp.Success? ==> error == old(error)
                                && (forall d :: d in employees <==> d in old(employees) && d.id != id)
                                && (forall d :: multiset(employees)[d] ==
                                      if d.id != id then multiset(old(employees))[d] else 0)
                                && ListOps.IsSubsequence(employees, old(employees))
      ensures resp.Failure? ==> employees == old(employees)
                                && error == Some(ErrorMessage(resp, "Failed to delete employee"))
    {
      loading := true;
      if resp.Success? {
        ListOps.FilterCharacterised(employees, IdIsNot(id));
        var kept := ListOps.Filter(employees, IdIsNot(id));
        assert forall i :: 0 <= i < |kept| ==> IdIsNot(id)(kept[i]);
        forall d | d in employees && d.id != id
          ensures d in kept
        {
          ListOps.FilterKeeps(employees, IdIsNot(id), d);
        }
        assert forall d :: d in kept ==> d in multiset(kept);
        employees := kept;
        ok := true;
      } else {
        error := Some(ErrorMessage(resp, "Failed to delete employee"));
        ok := false;
      }
      loading := false;
    }

    /** getManagers: the employees whose job title mentions "manager" in any letter case,
        in list order. */
    function Managers(): (r: seq<EmployeeDoc>)
      reads this
      ensures forall d :: d in r <==> d in employees && HasManagerTitle(d)
      ensures |r| <= |employees|
      ensures forall d :: multiset(r)[d] == if HasManagerTitle(d) then multiset(employees)[d] else 0
      ensures ListOps.IsSubsequence(r, employees)
    {
      ListOps.FilterCharacterised(employees, ManagerTitled());
      var r := ListOps.Filter(employees, ManagerTitled());
      assert forall i :: 0 <= i < |r| ==> ManagerTitled()(r[i]);
      forall d | d in employees && HasManagerTitle(d)
        ensures d in r
      {
        ListOps.FilterKeeps(employees, ManagerTitled(), d);
      }
      assert forall d :: d in r ==> d in multiset(r);
      r
    }
  }

  /** An untitled employee is never offered as a manager, and neither is one whose title
      lacks the word. */
  lemma ManagerTitleExamples(d: EmployeeDoc)
    ensures d.jobTitle.None? ==> !HasManagerTitle(d)
    ensures d.jobTitle == Some("Engineering Manager") ==> HasManagerTitle(d)
  {
    if d.jobTitle == Some("Engineering Manager") {
      var t := Strings.Lower("Engineering Manager");
      assert t == "engineering manager";
      assert t[12..][..7] == "manager";
      Strings.ContainsAt(t, "manager", 12);
    }
  }
}
