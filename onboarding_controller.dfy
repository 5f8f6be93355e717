/** The onboarding handlers (server/controllers/onboardingController.js):
    assigning a template to an employee, per-item status changes, and the
    read-only views. The caller's user id and the clock are passed in. */
module OnboardingController {
  import opened Common
  import opened OnboardingModel
  import ChecklistModel
  import ListOps
  import Database

  /** `checklist.items.map(it => ({ key: it.key, title: it.title, status: "pending" }))`. */
  function Snapshot(items: seq<ChecklistModel.Item>): (r: seq<ItemStatus>)
    ensures |r| == |items|
    ensures forall i :: 0 <= i < |items| ==>
      r[i].key == items[i].key && r[i].title == items[i].title && r[i].status == Pending
      && r[i].updatedBy.None? && r[i].updatedAt.None? && r[i].comment.None?
  {
    if items == [] then [] else [NewItemStatus(items[0].key, items[0].title)] + Snapshot(items[1..])
  }

  /** POST /api/onboarding/:employeeId/assign. */
  method AssignOnboarding(db: Database.Db, employeeId: Id, checklistId: Option<Id>) returns (r: Result<Instance>)
    requires db.Valid() && employeeId != ""
    modifies db`instances
    ensures db.Valid()
    ensures !Truthy(checklistId) ==> r == Fail(BadRequest, "checklistId required")
    ensures Truthy(checklistId) && employeeId !in db.employees ==> r == Fail(NotFound, "Employee not found")
    ensures Truthy(checklistId) && employeeId in db.employees && checklistId.value !in db.checklists ==>
      r == Fail(NotFound, "Checklist not found")
    ensures Truthy(checklistId) && employeeId in db.employees && checklistId.value in db.checklists
            && Assigned(old(db.instances), employeeId, checklistId.value) ==>
      r == Fail(BadRequest, "Onboarding already assigned for this checklist")
    ensures r.Ok? <==> Truthy(checklistId) && employeeId in db.employees && checklistId.value in db.checklists
                       && !Assigned(old(db.instances), employeeId, checklistId.value)
    ensures r.Ok? ==> r.value == Instance(employeeId, checklistId.value, Snapshot(db.checklists[checklistId.value].items))
    ensures r.Ok? ==> db.instances == old(db.instances) + [r.value]
    ensures r.Fail? ==> db.instances == old(db.instances)
  {
    if !Truthy(checklistId) {
      return Fail(BadRequest, "checklistId required");
    }
    if employeeId !in db.employees {
      return Fail(NotFound, "Employee not found");
    }
    var cid := checklistId.value;
    if cid !in db.checklists {
      return Fail(NotFound, "Checklist not found");
    }
    if Assigned(db.instances, employeeId, cid) {
      return Fail(BadRequest, "Onboarding already assigned for this checklist");
    }
    var inst := Instance(employeeId, cid, Snapshot(db.checklists[cid].items));
    AppendKeepsValid(db.instances, inst);
    db.instances := db.instances + [inst];
    r := Ok(inst);
  }

  /** The field writes of updateTaskStatus/approveTask on one item: status and comment only when
      given, the stamp always. */
  function Touched(it: ItemStatus, status: Option<Status>, comment: Option<string>, actor: Option<Id>, now: int)
    : (r: ItemStatus)
    ensures r.key == it.key && r.title == it.title
    ensures r.status == if status.Some? then status.value else it.status
    ensures r.comment == if comment.Some? then comment else it.comment
    ensures r.updatedBy == actor && r.updatedAt == Some(now)
  {
    it.(status := OrElse(status, it.status),
        comment := if comment.Some? then comment else it.comment,
        updatedBy := actor,
        updatedAt := Some(now))
  }

  /** The instance after `itemsStatus.find(i => i.key === key)` was touched and saved. */
  function TouchFirst(inst: Instance, key: Key, status: Option<Status>, comment: Option<string>, actor: Option<Id>, now: int)
    : (r: Instance)
    requires HasItemKey(inst.itemsStatus, key)
    ensures r.employeeId == inst.employeeId && r.checklistId == inst.checklistId
    ensures |r.itemsStatus| == |inst.itemsStatus|
    ensures var i := ItemIndex(inst.itemsStatus, key).value;
      && (forall j :: 0 <= j < |inst.itemsStatus| && j != i ==> r.itemsStatus[j] == inst.itemsStatus[j])
      && r.itemsStatus[i].key == key && r.itemsStatus[i].title == inst.itemsStatus[i].title
      && r.itemsStatus[i].status == (if status.Some? then status.value else inst.itemsStatus[i].status)
      && r.itemsStatus[i].comment == (if comment.Some? then comment else inst.itemsStatus[i].comment)
      && r.itemsStatus[i].updatedBy == actor && r.itemsStatus[i].updatedAt == Some(now)
  {
    var i := ItemIndex(inst.itemsStatus, key).value;
    inst.(itemsStatus := inst.itemsStatus[i := Touched(inst.itemsStatus[i], status, comment, actor, now)])
  }

  /** The status an update request asks for: `if (status) item.status = status`. */
  function Requested(status: Option<string>): Option<Status>
  {
    if Truthy(status) then ParseStatus(status.value) else None
  }

  /** A status string that is given but outside the enum fails validation at save(). */
  predicate RejectedStatus(status: Option<string>)
  {
    Truthy(status) && ParseStatus(status.value).None?
  }

  /** PUT /api/onboarding/:employeeId/item/:key. The query may match several instances of the
      employee (item keys are not unique across templates); the store answers with one of them. */
  method UpdateTaskStatus(db: Database.Db, employeeId: Id, key: Key, status: Option<string>, comment: Option<string>,
                          actor: Option<Id>, now: int)
    returns (r: Result<ItemStatus>, ghost chosen: int)
    requires db.Valid()
    modifies db`instances
    ensures db.Valid()
    ensures !OwnedBySome(old(db.instances), employeeId, key) ==>
      r == Fail(NotFound, "Onboarding item not found for employee")
    ensures OwnedBySome(old(db.instances), employeeId, key) && RejectedStatus(status) ==>
      r == Fail(ServerError, ServerErrorMessage)
    ensures r.Ok? <==> OwnedBySome(old(db.instances), employeeId, key) && !RejectedStatus(status)
    ensures r.Ok? ==>
      && 0 <= chosen < |old(db.instances)| && Owns(old(db.instances)[chosen], employeeId, key)
      && var inst := TouchFirst(old(db.instances)[chosen], key, Requested(status), comment, actor, now);
         && db.instances == old(db.instances)[chosen := inst]
         && r.value == inst.itemsStatus[ItemIndex(inst.itemsStatus, key).value]
    ensures r.Fail? ==> db.instances == old(db.instances)
  {
    if !OwnedBySome(db.instances, employeeId, key) {
      r, chosen := Fail(NotFound, "Onboarding item not found for employee"), 0;
      return;
    }
    var j :| 0 <= j < |db.instances| && Owns(db.instances[j], employeeId, key);
    chosen := j;
    if RejectedStatus(status) {
      r := Fail(ServerError, ServerErrorMessage);
      return;
    }
    var inst := TouchFirst(db.instances[j], key, Requested(status), comment, actor, now);
    KeysKept(db.instances[j], key, Requested(status), comment, actor, now);
    ReplaceItemsKeepsValid(db.instances, j, inst.itemsStatus);
    db.instances := db.instances[j := inst];
    r := Ok(inst.itemsStatus[ItemIndex(inst.itemsStatus, key).value]);
  }

  /** approveTask's write: `item.status = "approved"` plus the stamp. */
  function Approve(inst: Instance, key: Key, actor: Option<Id>, now: int): (r: Instance)
    requires HasItemKey(inst.itemsStatus, key)
  {
    TouchFirst(inst, key, Some(Approved), None, actor, now)
  }

  /** POST /api/onboarding/:employeeId/item/:key/approve: forces `approved` from any status. */
  method ApproveTask(db: Database.Db, employeeId: Id, key: Key, actor: Option<Id>, now: int)
    returns (r: Result<ItemStatus>, ghost chosen: int)
    requires db.Valid()
    modifies db`instances
    ensures db.Valid()
    ensures r.Fail? <==> !OwnedBySome(old(db.instances), employeeId, key)
    ensures r.Fail? ==> r == Fail(NotFound, "Onboarding item not found for employee") && db.instances == old(db.instances)
    ensures r.Ok? ==>
      && 0 <= chosen < |old(db.instances)| && Owns(old(db.instances)[chosen], employeeId, key)
      && db.instances == old(db.instances)[chosen := Approve(old(db.instances)[chosen], key, actor, now)]
      && r.value.status == Approved && r.value.key == key && r.value.updatedBy == actor && r.value.updatedAt == Some(now)
  {
    if !OwnedBySome(db.instances, employeeId, key) {
      r, chosen := Fail(NotFound, "Onboarding item not found for employee"), 0;
      return;
    }
    var j :| 0 <= j < |db.instances| && Owns(db.instances[j], employeeId, key);
    chosen := j;
    var inst := Approve(db.instances[j], key, actor, now);
    KeysKept(db.instances[j], key, Some(Approved), None, actor, now);
    ReplaceItemsKeepsValid(db.instances, j, inst.itemsStatus);
    db.instances := db.instances[j := inst];
    r := Ok(inst.itemsStatus[ItemIndex(inst.itemsStatus, key).value]);
  }

  /** Touching an item keeps every key where it was, so the same key still finds the same item. */
  lemma KeysKept(inst: Instance, key: Key, status: Option<Status>, comment: Option<string>, actor: Option<Id>, now: int)
    requires HasItemKey(inst.itemsStatus, key)
    ensures var r := TouchFirst(inst, key, status, comment, actor, now);
      HasItemKey(r.itemsStatus, key) && ItemIndex(r.itemsStatus, key) == ItemIndex(inst.itemsStatus, key)
  {
    var r := TouchFirst(inst, key, status, comment, actor, now);
    var i := ItemIndex(inst.itemsStatus, key).value;
    assert r.itemsStatus[i].key == key;
    assert forall j :: 0 <= j < |r.itemsStatus| ==> r.itemsStatus[j].key == inst.itemsStatus[j].key;
  }

  /** Approving leaves the item `approved` whatever its status was, and approving again changes
      nothing but the stamp: the second approval equals a single one made at the later time. */
  lemma ApproveIdempotent(inst: Instance, key: Key, a1: Option<Id>, t1: int, a2: Option<Id>, t2: int)
    requires HasItemKey(inst.itemsStatus, key)
    ensures var once := Approve(inst, key, a1, t1);
      && HasItemKey(once.itemsStatus, key)
      && once.itemsStatus[ItemIndex(once.itemsStatus, key).value].status == Approved
      && Approve(once, key, a2, t2) == Approve(inst, key, a2, t2)
  {
    KeysKept(inst, key, Some(Approved), None, a1, t1);
    var i := ItemIndex(inst.itemsStatus, key).value;
    var once := Approve(inst, key, a1, t1);
    assert once.itemsStatus[i := Touched(once.itemsStatus[i], Some(Approved), None, a2, t2)]
        == inst.itemsStatus[i := Touched(inst.itemsStatus[i], Some(Approved), None, a2, t2)];
  }

  /** An update without a status leaves every status as it was. */
  lemma NoStatusKeepsStatuses(inst: Instance, key: Key, comment: Option<string>, actor: Option<Id>, now: int)
    requires HasItemKey(inst.itemsStatus, key)
    ensures var r := TouchFirst(inst, key, Requested(None), comment, actor, now);
      forall j :: 0 <= j < |inst.itemsStatus| ==> r.itemsStatus[j].status == inst.itemsStatus[j].status
  {
  }

  /** `ins => ins.employeeId == employeeId`. */
  function OfEmployee(employeeId: Id): Instance -> bool
  {
    (inst: Instance) => inst.employeeId == employeeId
  }

  /** GET /api/onboarding/:employeeId: the employee's instances in natural order
      (the populated checklist is a lookup the callers make themselves). */
  function EmployeeOnboarding(instances: seq<Instance>, employeeId: Id): (r: seq<Instance>)
    ensures forall i :: 0 <= i < |r| ==> r[i].employeeId == employeeId
    ensures forall inst :: inst in instances && inst.employeeId == employeeId ==> inst in r
    ensures forall inst :: inst in r ==> inst in instances
    ensures forall inst :: multiset(r)[inst] == if inst.employeeId == employeeId then multiset(instances)[inst] else 0
    ensures ListOps.IsSubsequence(r, instances)
  {
    ListOps.FilterCharacterised(instances, OfEmployee(employeeId));
    var r := ListOps.Filter(instances, OfEmployee(employeeId));
    assert forall i :: 0 <= i < |r| ==> OfEmployee(employeeId)(r[i]);
    forall inst | inst in instances && inst.employeeId == employeeId
      ensures inst in r
    {
      ListOps.FilterKeeps(instances, OfEmployee(employeeId), inst);
    }
    assert forall inst :: inst in r ==> inst in multiset(r);
    r
  }

  /** One row of an item summary: `{ key, title, status }`. */
  datatype ItemSummary = ItemSummary(key: Key, title: string, status: Status)

  /** One group of the status view: the template's id and current title, and the instance's items. */
  datatype ChecklistSummary = ChecklistSummary(checklistId: Id, checklistTitle: string, items: seq<ItemSummary>)

  function Summarize(it: ItemStatus): ItemSummary
  {
    ItemSummary(it.key, it.title, it.status)
  }

  /** The group for one instance whose populated checklist is `c`. */
  function SummaryOf(inst: Instance, c: ChecklistModel.Checklist): (r: ChecklistSummary)
    ensures r.checklistId == inst.checklistId && r.checklistTitle == c.title
    ensures |r.items| == |inst.itemsStatus|
    ensures forall j :: 0 <= j < |inst.itemsStatus| ==>
      r.items[j] == ItemSummary(inst.itemsStatus[j].key, inst.itemsStatus[j].title, inst.itemsStatus[j].status)
  {
    ChecklistSummary(inst.checklistId, c.title, ListOps.Map(inst.itemsStatus, Summarize))
  }

  /** `instances.map(...)` once every populated checklist resolved. */
  function Summaries(mine: seq<Instance>, checklists: map<Id, ChecklistModel.Checklist>): (r: seq<ChecklistSummary>)
    requires forall i :: 0 <= i < |mine| ==> mine[i].checklistId in checklists
    ensures |r| == |mine|
    ensures forall i :: 0 <= i < |mine| ==> r[i] == SummaryOf(mine[i], checklists[mine[i].checklistId])
  {
    if mine == [] then [] else [SummaryOf(mine[0], checklists[mine[0].checklistId])] + Summaries(mine[1..], checklists)
  }

  /** Every instance of the employee still has its template. */
  predicate TemplatesPresent(mine: seq<Instance>, checklists: map<Id, ChecklistModel.Checklist>)
  {
    forall i :: 0 <= i < |mine| ==> mine[i].checklistId in checklists
  }

  /** GET /api/onboarding/:employeeId/status. `populate` leaves `null` where the template was
      deleted, and reading `ins.checklistId._id` then throws: the handler answers 500. */
  function OnboardingStatus(instances: seq<Instance>, checklists: map<Id, ChecklistModel.Checklist>, employeeId: Id)
    : (r: Result<seq<ChecklistSummary>>)
    ensures var mine := EmployeeOnboarding(instances, employeeId);
      && (r.Ok? <==> TemplatesPresent(mine, checklists))
      && (r.Fail? ==> r == Fail(ServerError, ServerErrorMessage))
      && (r.Ok? ==> |r.value| == |mine|
                    && forall i :: 0 <= i < |mine| ==> r.value[i] == SummaryOf(mine[i], checklists[mine[i].checklistId]))
  {
    var mine := EmployeeOnboarding(instances, employeeId);
    if TemplatesPresent(mine, checklists) then Ok(Summaries(mine, checklists)) else Fail(ServerError, ServerErrorMessage)
  }

  /** Deleting a template does not cascade to its instances, so afterwards the status view of
      every employee it was assigned to fails. */
  lemma StatusFailsAfterTemplateDeleted(instances: seq<Instance>, checklists: map<Id, ChecklistModel.Checklist>,
                                        employeeId: Id, checklistId: Id)
    requires Assigned(instances, employeeId, checklistId)
    ensures OnboardingStatus(instances, checklists - {checklistId}, employeeId).Fail?
  {
    var i :| 0 <= i < |instances| && instances[i].employeeId == employeeId && instances[i].checklistId == checklistId;
    var mine := EmployeeOnboarding(instances, employeeId);
    assert instances[i] in instances;
    var k :| 0 <= k < |mine| && mine[k] == instances[i];
    assert mine[k].checklistId !in checklists - {checklistId};
  }

  /** A first assignment shows up in the status view as one group with every item pending,
      in template order. */
  lemma {:induction false} FirstAssignmentStatus(instances: seq<Instance>, checklists: map<Id, ChecklistModel.Checklist>,
                                                 employeeId: Id, checklistId: Id)
    requires checklistId in checklists
    requires forall i :: 0 <= i < |instances| ==> instances[i].employeeId != employeeId
    ensures var items := checklists[checklistId].items;
      var r := OnboardingStatus(instances + [Instance(employeeId, checklistId, Snapshot(items))], checklists, employeeId);
      && r.Ok? && |r.value| == 1
      && r.value[0].checklistId == checklistId && r.value[0].checklistTitle == checklists[checklistId].title
      && |r.value[0].items| == |items|
      && forall j :: 0 <= j < |items| ==>
           r.value[0].items[j] == ItemSummary(items[j].key, items[j].title, Pending)
  {
    var inst := Instance(employeeId, checklistId, Snapshot(checklists[checklistId].items));
    ListOps.FilterAppend(instances, [inst], OfEmployee(employeeId));
    NoneOfEmployee(instances, employeeId);
    assert ListOps.Filter([inst], OfEmployee(employeeId)) == [inst];
    assert EmployeeOnboarding(instances + [inst], employeeId) == [inst];
  }

  /** An employee without instances has an empty onboarding list. */
  lemma {:induction false} NoneOfEmployee(instances: seq<Instance>, employeeId: Id)
    requires forall i :: 0 <= i < |instances| ==> instances[i].employeeId != employeeId
    ensures ListOps.Filter(instances, OfEmployee(employeeId)) == []
  {
    if instances != [] {
      NoneOfEmployee(instances[1..], employeeId);
    }
  }
}
