# WorkOrbit onboarding core in Dafny

WorkOrbit is an HR web application. Administrators keep an employee directory and
onboarding checklist templates. They assign templates to employees and track each
assigned item through `pending`, `done` and `approved`. Logins carry the roles
admin, manager and employee.

This project models the core of that application.

Server side (Express handlers over Mongoose collections):
- `Database.Db` holds the four collections as fields:
  - employees, users and checklists as maps from ObjectId to document;
  - onboarding instances as a sequence in insertion order.
- `Db.Valid()` collects the schema invariants:
  - unique e-mails;
  - lower-case user e-mails;
  - manager references resolve and nobody manages themselves;
  - stored departments are listed (or empty);
  - required fields are present in users and templates (employees are not re-checked, because
    updateEmployee runs no validators);
  - at most one instance per (employee, template) pair.
- Each handler is a method over `db`. It states every error answer in the source's
  order. A failing call leaves the collections unchanged. A successful call's new
  state is stated exactly, and `db.Valid()` is preserved.

Client side:
- The two zustand stores are classes whose fields the actions reassign.
- The route guard is a pure decision function.
- The directory and template pages are modelled by:
  - their data mappings, form payloads and pagination (pure functions);
  - their React state (small classes).

Foreign code is passed in as parameters: bcrypt hash and compare, jwt signing, uuid
generation, the clock, the authenticated caller, and the server's reply to each
client call.

Mongoose behaviour the handlers depend on is written out:
- A failed `required` or `enum` validation at `create`/`save` is answered 500 by the
  handler's `catch`.
- A unique-index violation in `findByIdAndUpdate` or `create` is answered 500.
- The `lowercase` setter runs on stored e-mails and on query values.
- `findByIdAndUpdate` drops `undefined` fields and runs no validators.
- `populate` yields `null` for a deleted reference.

Behaviour of the code that one might not expect, modelled as written:
- updateEmployee has no missing-field check. An e-mail already used by another
  employee is refused by the unique index (500), not with a 400.
- Item keys are kept when the request supplies them, so keys are not unique across
  templates, or even within one. Templates duplicated with their tasks share all
  keys (`OnboardingPage.DuplicatedKeysCollide`). updateTaskStatus and approveTask
  therefore act on one of possibly several matching instances, modelled as a
  nondeterministic choice.
- Deleting a template does not cascade. The employee's status view then fails with
  500 rather than omitting the template (`OnboardingController.StatusFailsAfterTemplateDeleted`).
- seedAdmin is not idempotent. A second call answers 400 "Admin already exists".

## Model

| member | source | states |
|---|---|---|
| Common.TruthyOrNull | Server/controllers/employeeController.js:77 | `x \|\| null`: present exactly when the input is a non-empty string, and then unchanged |
| Common.ErrorMessage | client/src/store/onboardingStore.js:16 | `err.response?.data?.message \|\| fallback`: the server's message when non-empty, otherwise the fallback |
| Strings.Lower | Server/models/User.js:10 | `toLowerCase`: every character lowered one by one (ASCII letters), same length, no upper-case letter left |
| Strings.LowerIdempotent | Server/models/User.js:10 | a lower-case string is its own lowering, so lowering twice is lowering once |
| Strings.Trim | client/src/pages/admin/EmployeeManagement.jsx:40 | `trim`: the input is white space, then the result, then white space, and the result neither starts nor ends with white space |
| Strings.TrimSpacePrefixed | client/src/pages/admin/EmployeeManagement.jsx:40 | trimming a trimmed string, with or without one leading space, gives it back |
| Strings.Split | client/src/pages/admin/EmployeeManagement.jsx:39 | `split(",")` always yields at least one piece and no piece contains the separator |
| Strings.SplitAtFirst | client/src/pages/admin/EmployeeManagement.jsx:39 | a string splits at its first separator into the part before it and the split of the rest |
| ListOps.FilterCharacterised | client/src/store/onboardingStore.js:54 | `filter` keeps every element that passes, as often as it occurs, nothing else, in the input's order |
| ChecklistModel.SchemaItem | Server/models/Checklist.js:4-8 | an item as the schema stores it: the given key or the uuid default, the given title, the given flag or the default true |
| ChecklistModel.IndexOfKey | server/controllers/checklistController.js:123 | `items.find(i => i.key === key)`: none exactly when no item has the key, otherwise the first such position |
| ChecklistModel.WithoutKey | server/controllers/checklistController.js:143 | `filter`: exactly the items whose key differs, each as often as in the input, in their order |
| ChecklistModel.WithoutKeyShrinks | server/controllers/checklistController.js:142-145 | the filter shortens the list exactly when the key is present, which is the 404 test of deleteChecklistItem |
| ChecklistController.NewItem | server/controllers/checklistController.js:37-41 | a request item keeps a non-empty key and otherwise gets the uuid; the given title (`""` when missing); `!!requiresApproval`; schema-valid exactly when the title is non-empty |
| ChecklistController.AbsentFlagIsFalse | server/controllers/checklistController.js:40 | the handler stores false for an absent flag although the schema default is true |
| ChecklistController.NewItems | server/controllers/checklistController.js:37-41 | one stored item per request item, in order |
| ChecklistController.SuppliedKeysKept | server/controllers/checklistController.js:38 | request items that carry stored items with their non-empty keys come back unchanged: no uuid is drawn |
| ChecklistController.Edited | server/controllers/checklistController.js:125-127 | the item keeps its key; the title and the flag change exactly when given |
| ChecklistController.GetChecklistById | server/controllers/checklistController.js:16-26 | the template when the id exists, otherwise 404 "Checklist not found" |
| ChecklistController.CreateChecklist | server/controllers/checklistController.js:29-50 | 400 without a title; 500 when an item has no title; otherwise the new template under the new id, nothing else changed |
| ChecklistController.UpdateChecklist | server/controllers/checklistController.js:53-78 | 404 for an unknown id; `??` on title and description; supplied items replace the list; 500 if the result fails validation; store unchanged on failure |
| ChecklistController.DeleteChecklist | server/controllers/checklistController.js:81-92 | 404 for an unknown id, otherwise exactly that template is removed (instances stay) |
| ChecklistController.AddChecklistItem | server/controllers/checklistController.js:95-114 | 404 / 400 "Item title required"; otherwise the item with the fresh uuid is appended and returned |
| ChecklistController.UpdateChecklistItem | server/controllers/checklistController.js:117-134 | 404 for template or key; only the first item with the key changes, only in the given fields; 500 if the title becomes empty |
| ChecklistController.DeleteChecklistItem | server/controllers/checklistController.js:137-152 | 404 when nothing was removed; otherwise every item with the key is removed |
| ChecklistController.AddThenDeleteRestores | server/controllers/checklistController.js:95-152 | deleting an item just added under a new key restores the item list |
| ChecklistController.AddedItemIsAddressable | server/controllers/checklistController.js:102-123 | the appended item is the one its key finds afterwards |
| OnboardingModel.ParseStatus | Server/models/OnboardingInstance.js:6-10 | only "pending", "done" and "approved" cast, each to the status of that name |
| OnboardingModel.ParseStatusRoundTrip | Server/models/OnboardingInstance.js:6-10 | every status is accepted under its own name and no other string is accepted |
| OnboardingModel.NewItemStatus | Server/models/OnboardingInstance.js:3-14 | a new tracked item is pending with no stamp and no comment |
| OnboardingModel.AppendKeepsValid | Server/models/OnboardingInstance.js:34 | adding an instance for an unassigned pair keeps the (employee, template) pairs unique |
| OnboardingModel.ItemIndex | server/controllers/onboardingController.js:79 | the first tracked item with the key, none exactly when absent |
| OnboardingModel.ReplaceItemsKeepsValid | Server/models/OnboardingInstance.js:34 | changing an instance's items keeps the collection valid |
| OnboardingController.Snapshot | server/controllers/onboardingController.js:31-35 | one pending item per template item, same key and title, in order |
| OnboardingController.Touched | server/controllers/onboardingController.js:82-85 | key and title kept; status and comment change exactly when given; the actor and the time always recorded |
| OnboardingController.AssignOnboarding | server/controllers/onboardingController.js:6-47 | 400 / 404 employee / 404 checklist / 400 already assigned, in that order; otherwise exactly one instance with the snapshot is appended |
| OnboardingController.TouchFirst | server/controllers/onboardingController.js:79-87 | only the first item with the key changes: status and comment when given, stamp always |
| OnboardingController.UpdateTaskStatus | server/controllers/onboardingController.js:64-93 | 404 when no instance of the employee has the key; 500 for a status outside the enum; otherwise one owning instance is touched and its item returned |
| OnboardingController.ApproveTask | server/controllers/onboardingController.js:96-121 | 404 as above; otherwise one owning instance's item is set to approved from any status, with the stamp |
| OnboardingController.KeysKept | server/controllers/onboardingController.js:79-87 | a touch keeps every key, so the key still finds the same item |
| OnboardingController.ApproveIdempotent | server/controllers/onboardingController.js:111-113 | after approval the item is approved, and a second approval equals one approval at the later time |
| OnboardingController.NoStatusKeepsStatuses | server/controllers/onboardingController.js:82 | an update without a status changes no status |
| OnboardingController.EmployeeOnboarding | server/controllers/onboardingController.js:50-61 | exactly the employee's instances, each as often as stored, in natural order |
| OnboardingController.SummaryOf | server/controllers/onboardingController.js:131-139 | a group carries the template id and current title and one `{key,title,status}` per tracked item |
| OnboardingController.Summaries | server/controllers/onboardingController.js:131-139 | one group per instance, in order |
| OnboardingController.OnboardingStatus | server/controllers/onboardingController.js:124-145 | succeeds exactly when every instance's template still exists, with one group per instance; otherwise 500 |
| OnboardingController.StatusFailsAfterTemplateDeleted | server/controllers/onboardingController.js:127-132 | deleting an assigned template makes that employee's status view fail |
| OnboardingController.FirstAssignmentStatus | server/controllers/onboardingController.js:31-41 | after a first assignment the status view shows one group with every item pending, in template order |
| UserModel.ParseRole | Server/models/User.js:17-21 | only "admin", "manager" and "employee" cast, each to the role of that name |
| UserModel.InsertKeepsValid | Server/models/User.js:6-16 | a conforming user with an unused e-mail keeps the unique index and the validators satisfied |
| Database.Db.constructor | Server/index.js:18 | the database the server connects to starts empty and satisfies every schema invariant |
| EmployeeModel.LinkKeepsValid | server/models/Employee.js:27 | writing an employee's `userId` keeps the directory invariant |
| EmployeeController.Created | Server/controllers/employeeController.js:71-80 | the created document: names, e-mail, department, job title, location and skills as sent (skills `[]` when absent), `managerId \|\| null`, no login |
| EmployeeController.CreateEmployee | Server/controllers/employeeController.js:41-87 | 400 missing fields / invalid department / e-mail exists / invalid managerId, in that order; 500 for an empty department outside the enum; otherwise the document is inserted |
| EmployeeController.Updated | Server/controllers/employeeController.js:120-133 | each supplied field is written and each absent one kept; `managerId \|\| null` is always written; the login is kept |
| EmployeeController.UpdateEmployee | Server/controllers/employeeController.js:93-145 | 404 / 400 department / 400 own manager / 400 invalid manager; 500 for another employee's e-mail; otherwise exactly that document is replaced |
| EmployeeController.DeleteEmployee | Server/controllers/employeeController.js:151-175 | 404; 400 while the employee manages someone; otherwise the employee and one linked login (if any) are removed |
| EmployeeController.EmployeeById | Server/controllers/employeeController.js:23-36 | 404 for an unknown id; otherwise the document, and the populated manager (id, names and e-mail of the referenced employee) present exactly when the reference resolves |
| EmployeeController.ManagerAlwaysResolves | Server/controllers/employeeController.js:25-26 | in a valid directory the populated manager is present exactly when a manager is set |
| AuthController.RegisterUser | Server/controllers/authController.js:10-37 | 400 missing fields / 400 e-mail taken (case-insensitively); 500 for a bad role; otherwise the login stores the lowered e-mail and the hash, never the password |
| AuthController.RegisterUserLinked | Server/controllers/authController.js:10-37 | registration as the directory page relies on it: the same errors, the same new login (lowered e-mail, the hash rather than the password, the role, `employeeId \|\| null`) and reply, and in addition the linked employee records the login; nothing else changes |
| AuthController.LoginUser | Server/controllers/authController.js:39-66 | 404 for an unknown e-mail; 401 exactly when compare fails; otherwise a token for that user and the employee id only if it still resolves |
| AuthController.SeedAdmin | Server/controllers/authController.js:83-104 | 400 when an admin exists; otherwise the fixed admin is created (500 if its e-mail is taken) and afterwards an admin exists |
| AuthController.SeedAdminTwice | Server/controllers/authController.js:85-94 | a second seeding always fails: with 400 once an admin exists, otherwise with the same 500 the first call gave |
| OnboardingStore.Relayed | client/src/store/onboardingStore.js:125-178 | `{ok:true,data}` exactly on success, otherwise the server's message or the action's fallback |
| OnboardingStore.Prepended | client/src/store/onboardingStore.js:26 | the created template first, the old list after it |
| OnboardingStore.Replaced | client/src/store/onboardingStore.js:40 | every template with the id becomes the server copy, the others stay |
| OnboardingStore.Removed | client/src/store/onboardingStore.js:54 | exactly the templates with other ids remain, each as often as before, in their order |
| OnboardingStore.TaskAdded | client/src/store/onboardingStore.js:67-70 | the item is appended to the templates with the id, the others stay |
| OnboardingStore.TaskReplaced | client/src/store/onboardingStore.js:88-94 | in the template with the id every item with the key becomes the server's item |
| OnboardingStore.TaskRemoved | client/src/store/onboardingStore.js:109-113 | in the template with the id exactly the items with other keys remain, in their order, the template otherwise unchanged; other templates untouched |
| OnboardingStore.RemovedUndoesPrepended | client/src/store/onboardingStore.js:22-62 | deleting a just-created template with a new id restores the list |
| OnboardingStore.ReplacedIdempotent | client/src/store/onboardingStore.js:36-49 | applying the same update reply twice equals applying it once |
| OnboardingStore.TaskRemovedUndoesTaskAdded | client/src/store/onboardingStore.js:64-122 | deleting a just-added task under a new key restores the list |
| OnboardingStore.Store.constructor | client/src/store/onboardingStore.js:5-7 | empty list, not loading, no error |
| OnboardingStore.Store.FetchTemplates | client/src/store/onboardingStore.js:9-20 | success replaces the list and keeps an earlier error; failure keeps the list and records the message; loading ends false |
| OnboardingStore.Store.CreateTemplate | client/src/store/onboardingStore.js:22-34 | success prepends the created template; failure changes nothing; the reply uses "Create failed" |
| OnboardingStore.Store.UpdateTemplate | client/src/store/onboardingStore.js:36-49 | success replaces by id; failure changes nothing |
| OnboardingStore.Store.DeleteTemplate | client/src/store/onboardingStore.js:51-62 | success removes by id; failure changes nothing |
| OnboardingStore.Store.AddTask | client/src/store/onboardingStore.js:64-79 | success appends the server's item to the template; failure changes nothing |
| OnboardingStore.Store.UpdateTask | client/src/store/onboardingStore.js:81-103 | success replaces the keyed items of the template; failure changes nothing |
| OnboardingStore.Store.DeleteTask | client/src/store/onboardingStore.js:105-122 | success removes the keyed items of the template; failure changes nothing |
| EmployeeStore.Store.constructor | client/src/store/useEmployeeStore.js:5-7 | empty list, not loading, no error |
| EmployeeStore.Store.GetEmployees | client/src/store/useEmployeeStore.js:12-28 | success replaces the list and clears the error; failure keeps the list and records the message |
| EmployeeStore.Store.GetEmployeeById | client/src/store/useEmployeeStore.js:33-41 | the document exactly on success, null otherwise, store untouched |
| EmployeeStore.Store.CreateEmployee | client/src/store/useEmployeeStore.js:46-66 | success puts the document first and returns it; failure records the message and returns null |
| EmployeeStore.Store.UpdateEmployee | client/src/store/useEmployeeStore.js:71-93 | success replaces every document with the id; failure records the message and returns null |
| EmployeeStore.Store.DeleteEmployee | client/src/store/useEmployeeStore.js:98-118 | true exactly on success, and then exactly the other ids remain, in their order; false and the message otherwise |
| EmployeeStore.Store.Managers | client/src/store/useEmployeeStore.js:123-130 | exactly the employees whose job title contains "manager" in any letter case, each as often as listed, in list order |
| EmployeeStore.ManagerTitleExamples | client/src/store/useEmployeeStore.js:127-129 | no title is never a manager; "Engineering Manager" is |
| PrivateRoute.Decide | Client/src/routes/PrivateRoute.jsx:4-12 | loading first, login redirect without a user, 404 redirect when roles are given and do not include the user's role, the page otherwise |
| PrivateRoute.GuardAdmitsListedRoles | Client/src/routes/PrivateRoute.jsx:9 | a role list admits exactly its roles; an empty list admits nobody; no list admits every signed-in user |
| EmployeeManagement.ParseSkills | client/src/pages/admin/EmployeeManagement.jsx:38-41 | every parsed skill is non-empty, trimmed and comma-free |
| EmployeeManagement.SkillsRoundTrip | client/src/pages/admin/EmployeeManagement.jsx:330-361 | joining stored skills with ", " for the edit form and parsing them back gives the same skills |
| EmployeeManagement.ParseSkillsStable | client/src/pages/admin/EmployeeManagement.jsx:330-361 | whatever was typed, showing and saving the parsed skills again changes nothing |
| EmployeeManagement.AddPayload | client/src/pages/admin/EmployeeManagement.jsx:28-43 | every field as typed; the chosen manager id exactly when one was chosen; the skills are the parse of the typed text |
| EmployeeManagement.NoManagerChosen | client/src/pages/admin/EmployeeManagement.jsx:37 | the empty manager choice stores no manager |
| EmployeeManagement.ToRowAsWritten | client/src/pages/admin/EmployeeManagement.jsx:632-657 | the row carries the document's fields, `name` as first and last name, `skills \|\| []`, `userId \|\| null` and the manager's name; its managerId is present only for a populated manager |
| EmployeeManagement.ToRow | client/src/pages/admin/EmployeeManagement.jsx:632-657 | the same row fields, and the managerId is the manager's id whether or not it was populated |
| EmployeeManagement.AsReturned | Server/controllers/employeeController.js:71-83 | the create/update reply carries the manager as a bare id |
| EmployeeManagement.AsListed | Server/controllers/employeeController.js:8-13 | the list reply carries a populated manager exactly when it resolves |
| EmployeeManagement.ManagerName | client/src/pages/admin/EmployeeManagement.jsx:645-647 | "first last" for a populated manager, "undefined undefined" for a bare id, and "N/A" exactly when there is no manager |
| EmployeeManagement.EditPayload | client/src/pages/admin/EmployeeManagement.jsx:348-362 | the edit form sends `managerId \|\| null` from the row |
| EmployeeManagement.ManagerLostAsWritten | client/src/pages/admin/EmployeeManagement.jsx:649-653 | a row from a create/update reply has no managerId, and saving it unchanged clears the manager |
| EmployeeManagement.ManagerKeptInListedRows | client/src/pages/admin/EmployeeManagement.jsx:645-653 | rows from the populated list keep their managerId |
| EmployeeManagement.UnchangedEditKeeps | client/src/pages/admin/EmployeeManagement.jsx:328-362 | saving a corrected row unchanged keeps names, e-mail, manager, skills and login; an absent department is written back as "" |
| EmployeeManagement.CorrectedRowsKeepManager | client/src/pages/admin/EmployeeManagement.jsx:649-653 | with the corrected mapping both replies survive an unchanged edit with their manager |
| EmployeeManagement.LoginOfferedWithoutLogin | client/src/pages/admin/EmployeeManagement.jsx:961 | the key icon is offered exactly for employees whose document has no linked login |
| EmployeeManagement.TotalPages | client/src/pages/admin/EmployeeManagement.jsx:680 | `Math.ceil(n / 10)`: the least page count covering n rows, 0 exactly for no rows |
| EmployeeManagement.SliceBound | client/src/pages/admin/EmployeeManagement.jsx:685-688 | a `slice` bound is clamped into the list and in-range bounds are kept |
| EmployeeManagement.PageOf | client/src/pages/admin/EmployeeManagement.jsx:683-688 | page p shows rows 10(p-1) to 10p clipped to the list, at most 10 rows; page 0 shows none |
| EmployeeManagement.PagesCover | client/src/pages/admin/EmployeeManagement.jsx:679-688 | pages 1 to totalPages show every row once, in order, and none is empty |
| EmployeeManagement.Navigation | client/src/pages/admin/EmployeeManagement.jsx:720-726 | next and previous keep the page within 1..totalPages and undo each other away from the ends; with no rows next goes to page 0 |
| EmployeeManagement.NextPage | client/src/pages/admin/EmployeeManagement.jsx:720-722 | the next page is one more than the current, but never beyond totalPages |
| EmployeeManagement.PrevPage | client/src/pages/admin/EmployeeManagement.jsx:724-726 | the previous page is one less than the current, but never below 1 |
| EmployeeManagement.Pager.constructor | client/src/pages/admin/EmployeeManagement.jsx:669 | paging starts on page 1 |
| EmployeeManagement.Pager.GoToNext | client/src/pages/admin/EmployeeManagement.jsx:720-722 | the page becomes `min(page + 1, totalPages)` and stays in range |
| EmployeeManagement.Pager.GoToPrev | client/src/pages/admin/EmployeeManagement.jsx:724-726 | the page becomes `max(page - 1, 1)` and is at least 1 |
| LoginLinking.CreateLoginTwiceAsWritten | client/src/pages/admin/EmployeeManagement.jsx:703-719 | after a login is created the refetched row still offers the key icon, and using it again is refused with "User already exists" |
| LoginLinking.CreateLoginLinked | client/src/pages/admin/EmployeeManagement.jsx:961 | with registration linking the employee, the refetched row no longer offers the key icon |
| OnboardingPage.MapServerToDisplay | client/src/pages/admin/Onboarding.jsx:40-51 | null for null; otherwise id, name, description and items from the template, task count equal to its item count |
| OnboardingPage.ItemToTask | client/src/pages/admin/Onboarding.jsx:81-86 | a task row has the item's key, title and flag, unchecked |
| OnboardingPage.ItemsToTasks | client/src/pages/admin/Onboarding.jsx:80-86 | one row per item, in order |
| OnboardingPage.TasksFor | client/src/pages/admin/Onboarding.jsx:78-86 | the rows of the first template with the id, none for a template missing from the store; all unchecked |
| OnboardingPage.Toggled | client/src/pages/admin/Onboarding.jsx:256-265 | only the tick of the rows with the id flips |
| OnboardingPage.ToggleTwice | client/src/pages/admin/Onboarding.jsx:256-265 | ticking a row twice restores the panel |
| OnboardingPage.TaskPanel.constructor | client/src/pages/admin/Onboarding.jsx:68 | the panel starts with no rows |
| OnboardingPage.TaskPanel.Open | client/src/pages/admin/Onboarding.jsx:77-91 | opening the panel loads fresh rows for the template |
| OnboardingPage.TaskPanel.ToggleTask | client/src/pages/admin/Onboarding.jsx:256-265 | the rows become the toggled rows |
| OnboardingPage.DefaultDuplicateName | client/src/pages/admin/Onboarding.jsx:838 | the name followed by " (Copy)" |
| OnboardingPage.DuplicatePayload | client/src/pages/admin/Onboarding.jsx:185-202 | new name, same description, and with tasks every raw item with its key |
| OnboardingPage.SaveAction | client/src/pages/admin/Onboarding.jsx:158-177 | an update of title and description when editing, otherwise a create with no items |
| OnboardingPage.SavedTemplateStartsEmpty | client/src/pages/admin/Onboarding.jsx:166-170 | a template created from the form has no items |
| OnboardingPage.DuplicateCopiesItems | client/src/pages/admin/Onboarding.jsx:188-195 | the server stores a duplicate's items exactly as the original's, keys included |
| OnboardingPage.DuplicatedKeysCollide | server/controllers/onboardingController.js:70-73 | after assigning a template and its duplicate, two instances of the employee own the same key |

## Left out

- Bcrypt, jwt signing, uuid generation, the clock and the authenticated caller are parameters. Token verification and the `authenticate`/`authorize` middleware are not part of this model.
- ObjectId casting is not modelled: a malformed id makes `findById` throw (500), but ids are opaque strings here, so an unknown id is treated as not found.
- Concurrency (two requests interleaving between a check and a write) is not modelled; each handler runs as one atomic step.
- Each client store action is modelled by its final state. The transient `loading: true` while a request is in flight is not modelled.
- `getChecklists`, `getMe`, the department, file and document routes, and `authStore` are not part of the core modelled here.
- The Onboarding page's `formatDate` (locale date text) and the row's placeholder image URL are left out.
- OnboardingStore.Store.FetchTemplates: `templates` becomes whatever the server sent; its relation to the server collection is not modelled.
- The listed departments are a parameter (`Db.departments`), because `utils/departments.js` is not part of this model.
- LoginUser: the caller's e-mail is lowered before lookup as the schema setter does. The model does not distinguish bcrypt failures from mismatches.
- ChecklistController.Edited: a JSON `null` in the request is treated like an absent field, so the title and the flag are kept. The handler assigns `null` instead: a null title then fails `required` (500), and a null flag is stored as `false`.
- OnboardingController.Touched: a JSON `null` comment is treated like an absent one and the comment is kept; the handler clears it.
- EmployeeController.Updated: a JSON `null` field is treated like an absent one and kept; `findByIdAndUpdate` would unset it (the department, for instance). Elsewhere a `null` request field is handled as missing, which is what the handlers' truthiness tests do.
- OnboardingPage.MapServerToDisplay: the `items || []` fallback is not modelled; a template always carries an items list, because a Mongoose array path defaults to `[]`.
- Strings.Lower, Strings.Trim: ASCII only. JavaScript's `toLowerCase` and `trim` also act on non-ASCII characters ("É" lowers to "é", U+00A0 is trimmed). The user e-mail setter and the `EmailTaken` check, getManagers' case folding and the skills parsing inherit this restriction.
- OnboardingStore.ReplacedIdempotent and PrivateRoute.GuardAdmitsListedRoles follow directly from their functions' definitions; they are kept as documentation of the behaviour.

## Findings

| source | as written | input that shows it | evidently intended | confidence | as-written member | corrected member |
|---|---|---|---|---|---|---|
| client/src/pages/admin/EmployeeManagement.jsx:649-653 | `emp.managerId ? emp.managerId._id : typeof emp.managerId === "string" ? emp.managerId : null` reads `_id` off a bare id string, so the string branch is dead | an employee created or edited with a manager: the reply's `managerId` is a bare id, the row's `managerId` is undefined, and saving its edit form unchanged sends `managerId: null` and clears the manager | test for a string first, so the row keeps the manager's id | medium, not executed | EmployeeManagement.ManagerLostAsWritten | EmployeeManagement.CorrectedRowsKeepManager |
| Server/controllers/authController.js:22-27 | registerUser creates the login but never writes `Employee.userId`, which the directory page uses to decide whether to offer "create login" | create a login from the key icon: after the refetch the icon is still shown, and using it again answers "User already exists" | record the new login on the linked employee | medium, not executed | LoginLinking.CreateLoginTwiceAsWritten | LoginLinking.CreateLoginLinked |
