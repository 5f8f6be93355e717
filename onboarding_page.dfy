/** The template administration page (client/src/pages/admin/Onboarding.jsx):
    the display mapping, the task panel and the payloads its forms send. */
module OnboardingPage {
  import opened Common
  import ListOps
  import opened ChecklistModel
  import ChecklistController
  import OnboardingModel
  import OnboardingController
  import OnboardingStore

  /** `mapServerToDisplay(t)`, without the formatted date. */
  datatype Display = Display(id: Id, name: string, description: Option<string>, tasks: nat, items: seq<Item>,
                             raw: OnboardingStore.Template)

  /** `mapServerToDisplay(t)`: null for null, otherwise the display fields of the template. */
  function MapServerToDisplay(t: Option<OnboardingStore.Template>): (d: Option<Display>)
    ensures d.None? <==> t.None?
    ensures t.Some? ==> var v := d.value;
      && v.id == t.value.id && v.name == t.value.title && v.description == t.value.description
      && v.tasks == |t.value.items| == |v.items| && v.items == t.value.items && v.raw == t.value
  {
    match t
    case None => None
    case Some(t) => Some(Display(t.id, t.title, t.description, |t.items|, t.items, t))
  }

  /** A row of the manage-tasks panel. */
  datatype Task = Task(id: Key, title: string, requiresApproval: bool, isCompleted: bool)

  /** `{ id: it.key, title: it.title, requiresApproval: !!it.requiresApproval, isCompleted: false }`. */
  function ItemToTask(it: Item): (t: Task)
    ensures t.id == it.key && t.title == it.title && t.requiresApproval == it.requiresApproval
    ensures !t.isCompleted
  {
    Task(it.key, it.title, it.requiresApproval, false)
  }

  /** The panel rows for a template's items: one unchecked row per item, in order. */
  function ItemsToTasks(items: seq<Item>): (r: seq<Task>)
    ensures |r| == |items|
    ensures forall i :: 0 <= i < |items| ==> r[i] == ItemToTask(items[i])
  {
    ListOps.Map(items, ItemToTask)
  }

  /** `(templatesRaw.find(t => t._id === id)?.items || []).map(...)`. */
  function TasksFor(templates: seq<OnboardingStore.Template>, id: Id): (r: seq<Task>)
    ensures !OnboardingStore.Listed(templates, id) ==> r == []
    ensures forall i :: 0 <= i < |templates| && templates[i].id == id
                        && (forall j :: 0 <= j < i ==> templates[j].id != id) ==>
      r == ItemsToTasks(templates[i].items)
    ensures forall i :: 0 <= i < |r| ==> !r[i].isCompleted
  {
    var found := ListOps.FirstWhere(templates, OnboardingStore.IdIs(id));
    if found.None? then
      assert !OnboardingStore.Listed(templates, id) by {
        forall i | 0 <= i < |templates| ensures templates[i].id != id {
          assert !OnboardingStore.IdIs(id)(templates[i]);
        }
      }
      []
    else ItemsToTasks(templates[found.value].items)
  }

  /** `t.id === taskId ? { ...t, isCompleted: !t.isCompleted } : t`. */
  function TaskIdIs(taskId: Key): Task -> bool
  {
    (t: Task) => t.id == taskId
  }

  function Flip(t: Task): Task
  {
    t.(isCompleted := !t.isCompleted)
  }

  /** handleToggleTask's new list: the rows with the id flip their tick. */
  function Toggled(tasks: seq<Task>, taskId: Key): (r: seq<Task>)
    ensures |r| == |tasks|
    ensures forall i :: 0 <= i < |tasks| ==>
      r[i].id == tasks[i].id && r[i].title == tasks[i].title && r[i].requiresApproval == tasks[i].requiresApproval
    ensures forall i :: 0 <= i < |tasks| ==>
      (r[i].isCompleted <==> if tasks[i].id == taskId then !tasks[i].isCompleted else tasks[i].isCompleted)
  {
    ListOps.MapWhere(tasks, TaskIdIs(taskId), Flip)
  }

  /** Ticking a row twice restores the panel. */
  lemma ToggleTwice(tasks: seq<Task>, taskId: Key)
    ensures Toggled(Toggled(tasks, taskId), taskId) == tasks
  {
    var once := Toggled(tasks, taskId);
    var twice := Toggled(once, taskId);
    forall i | 0 <= i < |tasks|
      ensures twice[i] == tasks[i]
    {
    }
  }

  /** The manage-tasks panel: the selected template's rows with their local ticks. Ticks are never
      sent to the server. */
  class TaskPanel {
    var currentTasks: seq<Task>

    constructor()
      ensures currentTasks == []
    {
      currentTasks := [];
    }

    /** handleOpenManageTasks (and the refresh after adding or deleting a task): fresh unchecked rows
        from the store's copy of the template. */
    method Open(templates: seq<OnboardingStore.Template>, id: Id)
      modifies this
      ensures currentTasks == TasksFor(templates, id)
    {
      currentTasks := TasksFor(templates, id);
    }

    method ToggleTask(taskId: Key)
      modifies this
      ensures currentTasks == Toggled(old(currentTasks), taskId)
    {
      currentTasks := Toggled(currentTasks, taskId);
    }
  }

  /** The body of a template create or update request. */
  datatype TemplatePayload = TemplatePayload(title: Option<string>, description: Option<string>,
                                             items: Option<seq<ChecklistController.ItemInput>>)

  /** A stored item sent back as a request item, key included. */
  function AsInput(it: Item): ChecklistController.ItemInput
  {
    ChecklistController.ItemInput(Some(it.key), Some(it.title), Some(it.requiresApproval))
  }

  /** The name the duplicate form starts with. */
  function DefaultDuplicateName(name: string): (r: string)
    ensures |r| == |name| + 7 && r[..|name|] == name && r[|name|..] == " (Copy)"
  {
    name + " (Copy)"
  }

  /** handleDuplicateTemplate's body: the new name, the same description, and with tasks the
      template's raw items as they are, keys included. */
  function DuplicatePayload(selected: Display, newName: string, includeTasks: bool): (p: TemplatePayload)
    ensures p.title == Some(newName) && p.description == selected.description && p.items.Some?
    ensures |p.items.value| == if includeTasks then |selected.raw.items| else 0
    ensures includeTasks ==> forall i :: 0 <= i < |p.items.value| ==> p.items.value[i] == AsInput(selected.raw.items[i])
  {
    TemplatePayload(Some(newName), selected.description,
                    Some(if includeTasks then ListOps.Map(selected.raw.items, AsInput) else []))
  }

  /** What saving the edit form sends: an update of title and description when the form was opened on a
      template, otherwise a create with no items. */
  datatype SaveCall = UpdateCall(id: Id, body: TemplatePayload) | CreateCall(body: TemplatePayload)

  function SaveAction(id: Option<Id>, name: string, description: string): (r: SaveCall)
    ensures r.UpdateCall? <==> Truthy(id)
    ensures r.UpdateCall? ==> r.id == id.value && r.body.items.None?
    ensures r.CreateCall? ==> r.body.items == Some([])
    ensures r.body.title == Some(name) && r.body.description == Some(description)
  {
    if Truthy(id) then UpdateCall(id.value, TemplatePayload(Some(name), Some(description), None))
    else CreateCall(TemplatePayload(Some(name), Some(description), Some([])))
  }

  /** A template created from the edit form has no items, whatever uuids the server draws. */
  lemma SavedTemplateStartsEmpty(name: string, description: string)
    ensures var call := SaveAction(None, name, description);
      ChecklistController.NewItems(ChecklistController.Supplied(call.body.items), []) == []
  {
  }

  /** Duplicating with tasks makes the server store exactly the original items: createChecklist keeps
      every supplied key, so no fresh uuid is drawn. */
  lemma {:induction false} DuplicateCopiesItems(t: OnboardingStore.Template, newName: string, uuids: seq<Key>)
    requires forall i :: 0 <= i < |t.items| ==> t.items[i].key != ""
    requires |uuids| == |t.items|
    ensures var p := DuplicatePayload(MapServerToDisplay(Some(t)).value, newName, true);
      |uuids| == |ChecklistController.Supplied(p.items)|
      && ChecklistController.NewItems(ChecklistController.Supplied(p.items), uuids) == t.items
  {
    var p := DuplicatePayload(MapServerToDisplay(Some(t)).value, newName, true);
    ChecklistController.SuppliedKeysKept(ChecklistController.Supplied(p.items), uuids, t.items);
  }

  /** Item keys are therefore not unique across templates: once an employee is assigned both a template
      and its duplicate, two of their onboarding instances own each of its keys, and a status change
      or approval by key acts on one of them. */
  lemma DuplicatedKeysCollide(t: OnboardingStore.Template, copyId: Id, newName: string, uuids: seq<Key>,
                              employeeId: Id)
    requires t.items != [] && copyId != t.id
    requires forall i :: 0 <= i < |t.items| ==> t.items[i].key != ""
    requires |uuids| == |t.items|
    ensures var p := DuplicatePayload(MapServerToDisplay(Some(t)).value, newName, true);
      var copied := ChecklistController.NewItems(ChecklistController.Supplied(p.items), uuids);
      var original := OnboardingModel.Instance(employeeId, t.id, OnboardingController.Snapshot(t.items));
      var duplicate := OnboardingModel.Instance(employeeId, copyId, OnboardingController.Snapshot(copied));
      && OnboardingModel.Owns(original, employeeId, t.items[0].key)
      && OnboardingModel.Owns(duplicate, employeeId, t.items[0].key)
      && OnboardingModel.UniquePairs([original, duplicate])
  {
    DuplicateCopiesItems(t, newName, uuids);
    var snap := OnboardingController.Snapshot(t.items);
    assert snap[0].key == t.items[0].key;
  }
}
