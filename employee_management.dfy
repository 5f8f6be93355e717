/** The directory page (client/src/pages/admin/EmployeeManagement.jsx): the
    skills text field, the add and edit form payloads, the table rows built
    from the store's documents, pagination and the create-login action. */
module EmployeeManagement {
  import opened Common
  import ListOps
  import Strings
  import EmployeeModel
  import EmployeeController
  import opened EmployeeStore

  /* ---------- the skills text field ---------- */

  /** `filter(Boolean)` on strings. */
  function NonEmpty(): string -> bool
  {
    (s: string) => s != ""
  }

  /** A skill the text field can carry unchanged: non-empty, trimmed, without a comma. */
  predicate IsSkill(s: string)
  {
    s != "" && Strings.IsTrimmed(s) && ',' !in s
  }

  /** `skills.split(",").map(s => s.trim()).filter(Boolean)`. */
  function ParseSkills(text: string): (r: seq<string>)
    ensures forall i :: 0 <= i < |r| ==> IsSkill(r[i])
  {
    var pieces := ListOps.Map(Strings.Split(text, ','), Strings.Trim);
    var r := ListOps.Filter(pieces, NonEmpty());
    forall i | 0 <= i < |r|
      ensures IsSkill(r[i])
    {
      assert NonEmpty()(r[i]);
      assert r[i] in multiset(pieces);
      var j :| 0 <= j < |pieces| && pieces[j] == r[i];
    }
    r
  }

  /** `employee.skills.join(", ")`: how the edit form shows stored skills. */
  function JoinSkills(skills: seq<string>): string
  {
    Strings.Join(skills, ", ")
  }

  /** `" " + s` for every element. */
  function Spaced(xs: seq<string>): (r: seq<string>)
    ensures |r| == |xs|
    ensures forall i :: 0 <= i < |xs| ==> r[i] == " " + xs[i]
  {
    if xs == [] then [] else [" " + xs[0]] + Spaced(xs[1..])
  }

  /** Splitting joined skills at the commas gives each skill, all but the first behind a space. */
  lemma {:induction false} SplitJoined(p: string, xs: seq<string>)
    requires xs != [] && ',' !in p
    requires forall i :: 0 <= i < |xs| ==> ',' !in xs[i]
    ensures Strings.Split(p + JoinSkills(xs), ',') == [p + xs[0]] + Spaced(xs[1..])
    decreases |xs|
  {
    if |xs| == 1 {
      assert ',' !in p + xs[0];
      Strings.SplitNoSeparator(p + xs[0], ',');
    } else {
      var rest := JoinSkills(xs[1..]);
      assert p + JoinSkills(xs) == (p + xs[0]) + [','] + (" " + rest);
      assert ',' !in p + xs[0];
      Strings.SplitAtFirst(p + xs[0], ',', " " + rest);
      SplitJoined(" ", xs[1..]);
      assert Spaced(xs[1..]) == [" " + xs[1]] + Spaced(xs[2..]);
    }
  }

  /** Trimming pieces that are trimmed skills, some behind one space, gives the skills. */
  lemma TrimPieces(pieces: seq<string>, skills: seq<string>)
    requires |pieces| == |skills|
    requires forall i :: 0 <= i < |skills| ==> Strings.IsTrimmed(skills[i])
    requires forall i :: 0 <= i < |skills| ==> pieces[i] == skills[i] || pieces[i] == " " + skills[i]
    ensures ListOps.Map(pieces, Strings.Trim) == skills
  {
    var trimmed := ListOps.Map(pieces, Strings.Trim);
    forall i | 0 <= i < |skills|
      ensures trimmed[i] == skills[i]
    {
      TrimPiece(pieces[i], skills[i]);
    }
    assert trimmed == skills;
  }

  /** One piece: a trimmed skill, possibly behind one space, trims to the skill. */
  lemma TrimPiece(piece: string, skill: string)
    requires Strings.IsTrimmed(skill)
    requires piece == skill || piece == " " + skill
    ensures Strings.Trim(piece) == skill
  {
    Strings.TrimSpacePrefixed(skill);
  }

  /** Trimming the pieces of joined skills gives the skills back. */
  lemma TrimmedPiecesOfJoined(skills: seq<string>)
    requires skills != []
    requires forall i :: 0 <= i < |skills| ==> IsSkill(skills[i])
    ensures ListOps.Map(Strings.Split(JoinSkills(skills), ','), Strings.Trim) == skills
  {
    var joined := JoinSkills(skills);
    SplitJoined("", skills);
    assert "" + joined == joined;
    assert "" + skills[0] == skills[0];
    var split := Strings.Split(joined, ',');
    var spaced := Spaced(skills[1..]);
    assert split == [skills[0]] + spaced;
    forall i | 0 <= i < |skills|
      ensures split[i] == skills[i] || split[i] == " " + skills[i]
    {
      if i > 0 {
        assert split[i] == spaced[i - 1];
      }
    }
    TrimPieces(split, skills);
  }

  /** Showing stored skills in the edit form and saving it unchanged gives the same skills back. */
  lemma SkillsRoundTrip(skills: seq<string>)
    requires forall i :: 0 <= i < |skills| ==> IsSkill(skills[i])
    ensures ParseSkills(JoinSkills(skills)) == skills
  {
    if skills == [] {
      assert Strings.Split("", ',') == [""];
      assert ListOps.Map([""], Strings.Trim) == [""] by {
        assert Strings.Trim("") == "";
      }
      assert !NonEmpty()("");
      assert ListOps.Filter([""], NonEmpty()) == ListOps.Filter([""][1..], NonEmpty());
    } else {
      TrimmedPiecesOfJoined(skills);
      assert forall i :: 0 <= i < |skills| ==> NonEmpty()(skills[i]);
      ListOps.FilterKeepsAll(skills, NonEmpty());
    }
  }

  /** Parsing is a normal form: whatever was typed, showing and saving the parsed skills again
      changes nothing. */
  lemma ParseSkillsStable(text: string)
    ensures ParseSkills(JoinSkills(ParseSkills(text))) == ParseSkills(text)
  {
    SkillsRoundTrip(ParseSkills(text));
  }

  /* ---------- form payloads ---------- */

  /** The add form's body: every field as typed, `managerId || null`, the parsed skills. */
  function AddPayload(firstName: string, lastName: string, email: string, department: string, jobTitle: string,
                      managerChoice: Id, skillsText: string, location: string): (p: EmployeeController.EmployeeInput)
    ensures p.firstName == Some(firstName) && p.lastName == Some(lastName) && p.email == Some(email)
    ensures p.department == Some(department) && p.jobTitle == Some(jobTitle) && p.location == Some(location)
    ensures p.managerId.Some? <==> managerChoice != ""
    ensures p.managerId.Some? ==> p.managerId.value == managerChoice
    ensures p.skills == Some(ParseSkills(skillsText))
    ensures forall i :: 0 <= i < |p.skills.value| ==> IsSkill(p.skills.value[i])
  {
    EmployeeController.EmployeeInput(Some(firstName), Some(lastName), Some(email), Some(department), Some(jobTitle),
      TruthyOrNull(Some(managerChoice)), Some(ParseSkills(skillsText)), Some(location))
  }

  /** Leaving the manager dropdown on its empty choice stores no manager. */
  lemma NoManagerChosen(firstName: string, lastName: string, email: string, department: string, jobTitle: string,
                        skillsText: string, location: string)
    requires firstName != "" && lastName != "" && email != ""
    ensures EmployeeController.Created(AddPayload(firstName, lastName, email, department, jobTitle, "", skillsText,
                                                  location)).managerId.None?
  {
  }

  /* ---------- table rows ---------- */

  /** One entry of `transformedEmployees` (the placeholder image is left out). */
  datatype Row = Row(
    id: Id,
    firstName: string,
    lastName: string,
    name: string,
    email: string,
    department: Option<string>,
    jobTitle: Option<string>,
    skills: seq<string>,
    userId: Option<Id>,
    location: Option<string>,
    managerName: string,
    managerId: Option<Id>)

  /** `managerName`: the populated manager's names, JavaScript's rendering of two missing fields
      for a bare id, "N/A" without a manager. */
  function ManagerName(m: ManagerRef): (r: string)
    ensures m.Populated? ==> r == m.firstName + " " + m.lastName
    ensures m.Unpopulated? ==> r == "undefined undefined"
    ensures m.NoManager? <==> r == "N/A"
  {
    match m
    case Populated(_, first, last, _) =>
      var name := first + " " + last;
      assert name[|first|] == ' ' && ' ' !in "N/A";
      name
    case Unpopulated(_) => "undefined undefined"
    case NoManager => "N/A"
  }

  /** The fields of a row that do not depend on how the manager id is read back: the document's own
      fields, `name` as first and last name joined by a space, `skills || []`, `userId || null`, and
      `managerName` as above. */
  predicate RowFields(d: EmployeeDoc, r: Row)
  {
    && r.id == d.id && r.firstName == d.firstName && r.lastName == d.lastName && r.email == d.email
    && r.name == d.firstName + " " + d.lastName
    && r.department == d.department && r.jobTitle == d.jobTitle && r.location == d.location
    && r.skills == OrElse(d.skills, [])
    && (r.userId.Some? <==> Truthy(d.userId)) && (r.userId.Some? ==> r.userId == d.userId)
    && r.managerName == ManagerName(d.manager)
  }

  /** `transformedEmployees` as written: `emp.managerId ? emp.managerId._id : typeof emp.managerId === "string"
      ? emp.managerId : null`. A bare id is truthy, so the first branch reads `_id` off a string and the
      string branch is never reached. */
  function ToRowAsWritten(d: EmployeeDoc): (r: Row)
    ensures r.managerId.Some? <==> d.manager.Populated?
    ensures r.managerId.Some? ==> r.managerId.value == d.manager.id
    ensures RowFields(d, r)
  {
    Row(d.id, d.firstName, d.lastName, d.firstName + " " + d.lastName, d.email, d.department, d.jobTitle,
        OrElse(d.skills, []), TruthyOrNull(d.userId), d.location, ManagerName(d.manager),
        match d.manager
        case Populated(id, _, _, _) => Some(id)
        case Unpopulated(_) => None
        case NoManager => None)
  }

  /** The row the mapping evidently intends: the manager's id whether or not it was populated. */
  function ToRow(d: EmployeeDoc): (r: Row)
    ensures r.managerId.Some? <==> !d.manager.NoManager?
    ensures r.managerId.Some? ==> r.managerId.value == d.manager.id
    ensures RowFields(d, r)
  {
    ToRowAsWritten(d).(managerId := if d.manager.NoManager? then None else Some(d.manager.id))
  }

  /** The reply of createEmployee and updateEmployee: the stored document, its manager not populated. */
  function AsReturned(id: Id, e: EmployeeModel.Employee): (d: EmployeeDoc)
    ensures d.id == id && d.skills == Some(e.skills)
    ensures d.manager.NoManager? <==> e.managerId.None?
    ensures d.manager.Unpopulated? <==> e.managerId.Some?
  {
    EmployeeDoc(id, e.firstName, e.lastName, e.email, e.department, e.jobTitle,
                if e.managerId.Some? then Unpopulated(e.managerId.value) else NoManager,
                Some(e.skills), e.location, e.userId)
  }

  /** An entry of the getEmployees reply: the document with `populate("managerId", ...)`. */
  function AsListed(v: EmployeeController.EmployeeView): (d: EmployeeDoc)
    ensures d.id == v.id
    ensures d.manager.Populated? <==> v.manager.Some?
  {
    var e := v.employee;
    EmployeeDoc(v.id, e.firstName, e.lastName, e.email, e.department, e.jobTitle,
                match v.manager
                case Some(m) => Populated(m.id, m.firstName, m.lastName, m.email)
                case None => NoManager,
                Some(e.skills), e.location, e.userId)
  }

  /** The edit form's body when it is saved unchanged: each field `|| ""`, `managerId || null`, and
      the skills joined for display and parsed back. */
  function EditPayload(row: Row): (p: EmployeeController.EmployeeInput)
    ensures p.managerId == TruthyOrNull(row.managerId)
  {
    EmployeeController.EmployeeInput(Some(row.firstName), Some(row.lastName), Some(row.email),
      Some(OrElse(row.department, "")), Some(OrElse(row.jobTitle, "")),
      TruthyOrNull(Some(OrElse(row.managerId, ""))), Some(ParseSkills(JoinSkills(row.skills))),
      Some(OrElse(row.location, "")))
  }

  /** As written, a row built from a create or update reply has no managerId, so saving its edit form
      unchanged clears the employee's manager. */
  lemma ManagerLostAsWritten(id: Id, e: EmployeeModel.Employee)
    requires e.managerId.Some?
    ensures ToRowAsWritten(AsReturned(id, e)).managerId.None?
    ensures EmployeeController.Updated(e, EditPayload(ToRowAsWritten(AsReturned(id, e)))).managerId.None?
  {
  }

  /** In the listed (populated) rows the mapping as written does keep the manager, which is why the
      loss only shows after a create or an edit. */
  lemma ManagerKeptInListedRows(employees: map<Id, EmployeeModel.Employee>, departments: set<string>, id: Id)
    requires EmployeeModel.DirectoryValid(employees, departments) && id in employees
    ensures ToRowAsWritten(AsListed(EmployeeController.EmployeeById(employees, id).value)).managerId
            == employees[id].managerId
  {
    EmployeeController.ManagerAlwaysResolves(employees, departments, id);
  }

  /** With the corrected mapping, saving a row's edit form unchanged keeps the names, the email,
      the manager and the skills, whichever reply the row came from; an absent department is
      written back as "". */
  lemma {:induction false} UnchangedEditKeeps(d: EmployeeDoc, e: EmployeeModel.Employee)
    requires d.firstName == e.firstName && d.lastName == e.lastName && d.email == e.email
    requires d.department == e.department && d.skills == Some(e.skills)
    requires d.manager.NoManager? <==> e.managerId.None?
    requires !d.manager.NoManager? ==> d.manager.id == e.managerId.value && d.manager.id != ""
    requires forall i :: 0 <= i < |e.skills| ==> IsSkill(e.skills[i])
    ensures var u := EmployeeController.Updated(e, EditPayload(ToRow(d)));
      && u.firstName == e.firstName && u.lastName == e.lastName && u.email == e.email
      && u.managerId == e.managerId && u.skills == e.skills && u.userId == e.userId
      && u.department == Some(OrElse(e.department, ""))
  {
    SkillsRoundTrip(e.skills);
  }

  /** Both replies satisfy the previous lemma's requirements, so the corrected rows survive an unchanged
      edit whether they came from the list or from a create or update reply. */
  lemma CorrectedRowsKeepManager(employees: map<Id, EmployeeModel.Employee>, departments: set<string>, id: Id)
    requires EmployeeModel.DirectoryValid(employees, departments) && id in employees
    requires employees[id].managerId != Some("")
    ensures var e := employees[id];
      && EmployeeController.Updated(e, EditPayload(ToRow(AsReturned(id, e)))).managerId == e.managerId
      && EmployeeController.Updated(e, EditPayload(ToRow(AsListed(EmployeeController.EmployeeById(employees, id).value))))
           .managerId == e.managerId
  {
    EmployeeController.ManagerAlwaysResolves(employees, departments, id);
  }

  /** The key icon (create a login) is offered exactly for rows without a linked user. */
  predicate CreateLoginOffered(row: Row)
  {
    row.userId.None?
  }

  /** The icon is offered exactly for employees whose document has no linked login, whichever
      mapping built the row. */
  lemma LoginOfferedWithoutLogin(d: EmployeeDoc)
    ensures CreateLoginOffered(ToRow(d)) <==> !Truthy(d.userId)
    ensures CreateLoginOffered(ToRowAsWritten(d)) <==> !Truthy(d.userId)
  {
  }

  /* ---------- pagination ---------- */

  const EmployeesPerPage: nat := 10

  function Min(a: int, b: int): int { if a <= b then a else b }
  function Max(a: int, b: int): int { if a >= b then a else b }

  /** `Math.ceil(totalEmployees / employeesPerPage)`. */
  function TotalPages(n: nat): (r: nat)
    ensures r * EmployeesPerPage >= n
    ensures r > 0 ==> (r - 1) * EmployeesPerPage < n
    ensures r == 0 <==> n == 0
  {
    (n + EmployeesPerPage - 1) / EmployeesPerPage
  }

  /** How `Array.prototype.slice` reads one bound: negative counts from the end, both clamp to the length. */
  function SliceBound(i: int, len: nat): (r: nat)
    ensures r <= len
    ensures 0 <= i <= len ==> r == i
  {
    if i < 0 then (if len + i < 0 then 0 else len + i) else if i > len then len else i
  }

  /** `xs.slice(start, end)`. */
  function Slice<T>(xs: seq<T>, start: int, end: int): (r: seq<T>)
    ensures |r| <= |xs|
  {
    var s := SliceBound(start, |xs|);
    var e := SliceBound(end, |xs|);
    if s < e then xs[s..e] else []
  }

  /** `currentEmployees`: the rows of one page. */
  function PageOf<T>(xs: seq<T>, page: int): (r: seq<T>)
    ensures |r| <= EmployeesPerPage
    ensures page >= 1 ==> r == xs[Min((page - 1) * EmployeesPerPage, |xs|)..Min(page * EmployeesPerPage, |xs|)]
    ensures page == 0 ==> r == []
  {
    Slice(xs, page * EmployeesPerPage - EmployeesPerPage, page * EmployeesPerPage)
  }

  /** Pages 1 to k laid end to end. */
  function PagesThrough<T>(xs: seq<T>, k: nat): seq<T>
  {
    if k == 0 then [] else PagesThrough(xs, k - 1) + PageOf(xs, k)
  }

  lemma {:induction false} PagesThroughPrefix<T>(xs: seq<T>, k: nat)
    ensures PagesThrough(xs, k) == xs[..Min(k * EmployeesPerPage, |xs|)]
  {
    if k > 0 {
      PagesThroughPrefix(xs, k - 1);
      var a := Min((k - 1) * EmployeesPerPage, |xs|);
      var b := Min(k * EmployeesPerPage, |xs|);
      assert xs[..a] + xs[a..b] == xs[..b];
    }
  }

  /** The pages 1 to totalPages show every row once, in order, and none of them is empty. */
  lemma PagesCover<T>(xs: seq<T>)
    ensures PagesThrough(xs, TotalPages(|xs|)) == xs
    ensures forall p :: 1 <= p <= TotalPages(|xs|) ==> PageOf(xs, p) != []
  {
    PagesThroughPrefix(xs, TotalPages(|xs|));
  }

  /** `Math.min(prev + 1, totalPages)`. */
  function NextPage(current: int, total: nat): (r: int)
    ensures r <= current + 1 && r <= total
    ensures r == current + 1 || r == total
  {
    Min(current + 1, total)
  }

  /** `Math.max(prev - 1, 1)`. */
  function PrevPage(current: int): (r: int)
    ensures r >= current - 1 && r >= 1
    ensures r == current - 1 || r == 1
  {
    Max(current - 1, 1)
  }

  /** Paging keeps the current page between 1 and totalPages, and next and previous undo each other
      away from the ends. On an empty directory "next" moves to page 0, which shows nothing. */
  lemma Navigation(current: int, total: nat)
    ensures 1 <= current <= total ==> 1 <= NextPage(current, total) <= total && 1 <= PrevPage(current) <= total
    ensures 1 <= current < total ==> PrevPage(NextPage(current, total)) == current
    ensures 1 < current <= total ==> NextPage(PrevPage(current), total) == current
    ensures total == 0 ==> NextPage(1, total) == 0
  {
  }

  /** The page component's `currentPage` state. */
  class Pager {
    var current: int

    constructor()
      ensures current == 1
    {
      current := 1;
    }

    method GoToNext(totalPages: nat)
      modifies this
      ensures current == NextPage(old(current), totalPages)
      ensures 1 <= old(current) <= totalPages ==> 1 <= current <= totalPages
    {
      current := Min(current + 1, totalPages);
    }

    method GoToPrev()
      modifies this
      ensures current == PrevPage(old(current))
      ensures current >= 1
    {
      current := Max(current - 1, 1);
    }
  }
}
