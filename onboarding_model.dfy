/** The onboarding instance schema (Server/models/OnboardingInstance.js): a
    per-employee copy of a template's items, each with its own status. */
module OnboardingModel {
  import opened Common
  import ListOps

  /** The `status` enum; the datatype makes "one of pending, done, approved" hold by construction. */
  datatype Status = Pending | Done | Approved

  /** Schema casting of a status string: only the three enum values are accepted. */
  function ParseStatus(s: string): (r: Option<Status>)
    ensures r.Some? ==> StatusName(r.value) == s
  {
    if s == "pending" then Some(Pending)
    else if s == "done" then Some(Done)
    else if s == "approved" then Some(Approved)
    else None
  }

  function StatusName(st: Status): string
  {
    match st
    case Pending => "pending"
    case Done => "done"
    case Approved => "approved"
  }

  /** Every status is accepted under its own name, and nothing else is accepted. */
  lemma ParseStatusRoundTrip(st: Status, s: string)
    ensures ParseStatus(StatusName(st)) == Some(st)
    ensures ParseStatus(s).Some? <==> s in {"pending", "done", "approved"}
  {
  }

  /** One tracked item (onboardingItemSchema); `updatedAt` is a caller-supplied clock reading. */
  datatype ItemStatus = ItemStatus(
    key: Key,
    title: string,
    status: Status,
    updatedBy: Option<Id>,
    updatedAt: Option<int>,
    comment: Option<string>)

  /** An item as the schema creates it from `{ key, title }`: status defaults to pending,
      nothing else is set. */
  function NewItemStatus(key: Key, title: string): (r: ItemStatus)
    ensures r.status == Pending
    ensures r.key == key && r.title == title
    ensures r.updatedBy.None? && r.updatedAt.None? && r.comment.None?
  {
    ItemStatus(key, title, Pending, None, None, None)
  }

  /** One onboarding instance (onboardingInstanceSchema). */
  datatype Instance = Instance(employeeId: Id, checklistId: Id, itemsStatus: seq<ItemStatus>)

  /** `required: true` on both references. */
  predicate InstanceConforms(inst: Instance)
  {
    inst.employeeId != "" && inst.checklistId != ""
  }

  /** The unique index on (employeeId, checklistId). */
  predicate UniquePairs(instances: seq<Instance>)
  {
    forall i, j :: 0 <= i < j < |instances| ==>
      (instances[i].employeeId, instances[i].checklistId) != (instances[j].employeeId, instances[j].checklistId)
  }

  /** An instance exists for the pair: what `findOne({ employeeId, checklistId })` finds. */
  predicate Assigned(instances: seq<Instance>, employeeId: Id, checklistId: Id)
  {
    exists i :: 0 <= i < |instances| && instances[i].employeeId == employeeId && instances[i].checklistId == checklistId
  }

  /** The collection invariant the schema enforces. */
  predicate StoreValid(instances: seq<Instance>)
  {
    UniquePairs(instances) && forall i :: 0 <= i < |instances| ==> InstanceConforms(instances[i])
  }

  /** Appending an instance for a pair not yet assigned keeps the collection valid. */
  lemma {:induction false} AppendKeepsValid(instances: seq<Instance>, inst: Instance)
    requires StoreValid(instances) && InstanceConforms(inst)
    requires !Assigned(instances, inst.employeeId, inst.checklistId)
    ensures StoreValid(instances + [inst])
  {
    var s := instances + [inst];
    forall i, j | 0 <= i < j < |s|
      ensures (s[i].employeeId, s[i].checklistId) != (s[j].employeeId, s[j].checklistId)
    {
      if j == |instances| {
        assert s[i] == instances[i];
      }
    }
  }

  /** `i => i.key === key` over tracked items. */
  function ItemKeyIs(key: Key): ItemStatus -> bool
  {
    (it: ItemStatus) => it.key == key
  }

  /** Some tracked item carries the key. */
  predicate HasItemKey(items: seq<ItemStatus>, key: Key)
  {
    exists i :: 0 <= i < |items| && items[i].key == key
  }

  /** `itemsStatus.find(i => i.key === key)`: the position of the first item with the key. */
  function ItemIndex(items: seq<ItemStatus>, key: Key): (r: Option<nat>)
    ensures r.None? <==> !HasItemKey(items, key)
    ensures r.Some? ==> r.value < |items| && items[r.value].key == key
    ensures r.Some? ==> forall j :: 0 <= j < r.value ==> items[j].key != key
  {
    var r := ListOps.FirstWhere(items, ItemKeyIs(key));
    assert ListOps.Any(items, ItemKeyIs(key)) <==> HasItemKey(items, key) by {
      if HasItemKey(items, key) {
        var i :| 0 <= i < |items| && items[i].key == key;
        assert ItemKeyIs(key)(items[i]);
      }
    }
    r
  }

  /** The query `{ employeeId, "itemsStatus.key": key }` matches this instance. */
  predicate Owns(inst: Instance, employeeId: Id, key: Key)
  {
    inst.employeeId == employeeId && HasItemKey(inst.itemsStatus, key)
  }

  /** Some instance matches that query. */
  predicate OwnedBySome(instances: seq<Instance>, employeeId: Id, key: Key)
  {
    exists i :: 0 <= i < |instances| && Owns(instances[i], employeeId, key)
  }

  /** Replacing an instance's items keeps the collection valid (pairs and references unchanged). */
  lemma ReplaceItemsKeepsValid(instances: seq<Instance>, i: nat, items: seq<ItemStatus>)
    requires StoreValid(instances) && i < |instances|
    ensures StoreValid(instances[i := instances[i].(itemsStatus := items)])
  {
    var s := instances[i := instances[i].(itemsStatus := items)];
    assert forall k :: 0 <= k < |s| ==> s[k].employeeId == instances[k].employeeId && s[k].checklistId == instances[k].checklistId;
  }
}
