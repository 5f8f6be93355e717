/** The client's template store (client/src/store/onboardingStore.js): a list of
    templates mirrored from the server and patched locally after each call. The
    server's reply to each call is a parameter. */
module OnboardingStore {
  import opened Common
  import ListOps
  import opened ChecklistModel
  import ChecklistController

  /** A checklist as the client holds it: the document together with its `_id`. */
  datatype Template = Template(id: Id, title: string, description: Option<string>, items: seq<Item>)

  /** What every store action resolves to: `{ ok: true, data }` or `{ ok: false, message }`. */
  datatype Reply<T> = Done(data: T) | Refused(message: string)

  /** The reply of a call whose failure is answered with `fallback` when the server sent no message. */
  function Relayed<T>(resp: Response<T>, fallback: string): (r: Reply<T>)
    ensures r.Done? <==> resp.Success?
    ensures r.Done? ==> r.data == resp.data
    ensures r.Refused? && Truthy(resp.serverMessage) ==> r.message == resp.serverMessage.value
    ensures r.Refused? && !Truthy(resp.serverMessage) ==> r.message == fallback
  {
    match resp
    case Success(d) => Done(d)
    case Failure(_) => Refused(ErrorMessage(resp, fallback))
  }

  /** `t => t._id === id`. */
  function IdIs(id: Id): Template -> bool
  {
    (t: Template) => t.id == id
  }

  /** `t => t._id !== id`. */
  function IdIsNot(id: Id): Template -> bool
  {
    (t: Template) => t.id != id
  }

  /** Some template in the list has the id. */
  predicate Listed(ts: seq<Template>, id: Id)
  {
    exists i :: 0 <= i < |ts| && ts[i].id == id
  }

  /** `[created, ...templates]`. */
  function Prepended(ts: seq<Template>, t: Template): (r: seq<Template>)
    ensures |r| == |ts| + 1 && r[0] == t && r[1..] == ts
  {
    [t] + ts
  }

  /** `templates.map(t => t._id === id ? updated : t)`. */
  function Replaced(ts: seq<Template>, id: Id, updated: Template): (r: seq<Template>)
    ensures |r| == |ts|
    ensures forall i :: 0 <= i < |ts| ==> r[i] == if ts[i].id == id then updated else ts[i]
  {
    ListOps.MapWhere(ts, IdIs(id), (_: Template) => updated)
  }

  /** `templates.filter(t => t._id !== id)`. */
  function Removed(ts: seq<Template>, id: Id): (r: seq<Template>)
    ensures !Listed(r, id)
    ensures forall t :: t in r <==> t in ts && t.id != id
    ensures forall t :: multiset(r)[t] == if t.id != id then multiset(ts)[t] else 0
    ensures ListOps.IsSubsequence(r, ts)
  {
    ListOps.FilterCharacterised(ts, IdIsNot(id));
    var r := ListOps.Filter(ts, IdIsNot(id));
    assert forall i :: 0 <= i < |r| ==> IdIsNot(id)(r[i]);
    forall t | t in ts && t.id != id
      ensures t in r
    {
      ListOps.FilterKeeps(ts, IdIsNot(id), t);
    }
    assert forall t :: t in r ==> t in multiset(r);
    r
  }

  /** `{ ...t, items: [...t.items, item] }`. */
  function WithTask(item: Item): Template -> Template
  {
    (t: Template) => t.(items := t.items + [item])
  }

  /** `it.key === key ? updated : it`, over one template's items. */
  function WithTaskReplaced(key: Key, updated: Item): Template -> Template
  {
    (t: Template) => t.(items := ListOps.MapWhere(t.items, KeyIs(key), (_: Item) => updated))
  }

  /** `t.items.filter(it => it.key !== key)`, over one template. */
  function WithoutTask(key: Key): Template -> Template
  {
    (t: Template) => t.(items := WithoutKey(t.items, key))
  }

  /** addTask's patch: the new item appended to every template with the id. */
  function TaskAdded(ts: seq<Template>, id: Id, item: Item): (r: seq<Template>)
    ensures |r| == |ts|
    ensures forall i :: 0 <= i < |ts| && ts[i].id == id ==> r[i].items == ts[i].items + [item]
    ensures forall i :: 0 <= i < |ts| && ts[i].id != id ==> r[i] == ts[i]
    ensures forall i :: 0 <= i < |ts| ==> r[i].id == ts[i].id
  {
    ListOps.MapWhere(ts, IdIs(id), WithTask(item))
  }

  /** updateTask's patch: every item with the key, in the template with the id, becomes the server's item. */
  function TaskReplaced(ts: seq<Template>, id: Id, key: Key, updated: Item): (r: seq<Template>)
    ensures |r| == |ts|
    ensures forall i :: 0 <= i < |ts| && ts[i].id == id ==>
      |r[i].items| == |ts[i].items|
      && forall j :: 0 <= j < |ts[i].items| ==>
           r[i].items[j] == if ts[i].items[j].key == key then updated else ts[i].items[j]
    ensures forall i :: 0 <= i < |ts| && ts[i].id != id ==> r[i] == ts[i]
  {
    ListOps.MapWhere(ts, IdIs(id), WithTaskReplaced(key, updated))
  }

  /** deleteTask's patch: the key's items dropped from the template with the id. */
  function TaskRemoved(ts: seq<Template>, id: Id, key: Key): (r: seq<Template>)
    ensures |r| == |ts|
    ensures forall i :: 0 <= i < |ts| && ts[i].id == id ==> !HasKey(r[i].items, key)
    ensures forall i :: 0 <= i < |ts| && ts[i].id == id ==>
      forall it :: it in r[i].items <==> it in ts[i].items && it.key != key
    ensures forall i :: 0 <= i < |ts| && ts[i].id == id ==>
      && r[i] == ts[i].(items := r[i].items)
      && ListOps.IsSubsequence(r[i].items, ts[i].items)
      && forall it :: multiset(r[i].items)[it] == if it.key != key then multiset(ts[i].items)[it] else 0
    ensures forall i :: 0 <= i < |ts| && ts[i].id != id ==> r[i] == ts[i]
  {
    ListOps.MapWhere(ts, IdIs(id), WithoutTask(key))
  }

  /** Deleting a template just created restores the list, when its id was new to the list. */
  lemma {:induction false} RemovedUndoesPrepended(ts: seq<Template>, t: Template)
    requires !Listed(ts, t.id)
    ensures Removed(Prepended(ts, t), t.id) == ts
  {
    ListOps.FilterAppend([t], ts, IdIsNot(t.id));
    assert ListOps.Filter([t], IdIsNot(t.id)) == [];
    assert forall i :: 0 <= i < |ts| ==> IdIsNot(t.id)(ts[i]);
    ListOps.FilterKeepsAll(ts, IdIsNot(t.id));
  }

  /** Replacing with the server's copy twice is replacing once. */
  lemma ReplacedIdempotent(ts: seq<Template>, id: Id, updated: Template)
    ensures Replaced(Replaced(ts, id, updated), id, updated) == Replaced(ts, id, updated)
  {
  }

  /** Deleting a task just added restores the list, when its key was new to that template. */
  lemma {:induction false} TaskRemovedUndoesTaskAdded(ts: seq<Template>, id: Id, item: Item)
    requires forall i :: 0 <= i < |ts| && ts[i].id == id ==> !HasKey(ts[i].items, item.key)
    ensures TaskRemoved(TaskAdded(ts, id, item), id, item.key) == ts
  {
    var added := TaskAdded(ts, id, item);
    var r := TaskRemoved(added, id, item.key);
    forall i | 0 <= i < |ts|
      ensures r[i] == ts[i]
    {
      if ts[i].id == id {
        ChecklistController.AddThenDeleteRestores(ts[i].items, item);
        assert r[i] == WithoutTask(item.key)(added[i]);
      }
    }
  }

  /** The client's template list with its loading flag and last fetch error. */
  class Store {
    var templates: seq<Template>
    var loading: bool
    var error: Option<string>

    constructor()
      ensures templates == [] && !loading && error.None?
    {
      templates := [];
      loading := false;
      error := None;
    }

    /** fetchTemplates: the server's list replaces the local one; a failure keeps the list and
        records the message. A success leaves an earlier error in place. */
    method FetchTemplates(resp: Response<seq<Template>>)
      modifies this
      ensures !loading
      ensures resp.Success? ==> templates == resp.data && error == old(error)
      ensures resp.Failure? ==> templates == old(templates)
                                && error == Some(ErrorMessage(resp, "Failed to fetch templates"))
    {
      loading := true;
      match resp
      case Success(data) =>
        templates := data;
        loading := false;
      case Failure(_) =>
        error := Some(ErrorMessage(resp, "Failed to fetch templates"));
        loading := false;
    }

    method CreateTemplate(resp: Response<Template>) returns (r: Reply<Template>)
      modifies this`templates
      ensures r == Relayed(resp, "Create failed")
      ensures resp.Success? ==> templates == Prepended(old(templates), resp.data)
      ensures resp.Failure? ==> templates == old(templates)
    {
      if resp.Success? {
        templates := Prepended(templates, resp.data);
      }
      r := Relayed(resp, "Create failed");
    }

    method UpdateTemplate(id: Id, resp: Response<Template>) returns (r: Reply<Template>)
      modifies this`templates
      ensures r == Relayed(resp, "Update failed")
      ensures resp.Success? ==> templates == Replaced(old(templates), id, resp.data)
      ensures resp.Failure? ==> templates == old(templates)
    {
      if resp.Success? {
        templates := Replaced(templates, id, resp.data);
      }
      r := Relayed(resp, "Update failed");
    }

    method DeleteTemplate(id: Id, resp: Response<()>) returns (r: Reply<()>)
      modifies this`templates
      ensures r == Relayed(resp, "Delete failed")
      ensures resp.Success? ==> templates == Removed(old(templates), id)
      ensures resp.Failure? ==> templates == old(templates)
    {
      if resp.Success? {
        templates := Removed(templates, id);
      }
      r := Relayed(resp, "Delete failed");
    }

    method AddTask(checklistId: Id, resp: Response<Item>) returns (r: Reply<Item>)
      modifies this`templates
      ensures r == Relayed(resp, "Add task failed")
      ensures resp.Success? ==> templates == TaskAdded(old(templates), checklistId, resp.data)
      ensures resp.Failure? ==> templates == old(templates)
    {
      if resp.Success? {
        templates := TaskAdded(templates, checklistId, resp.data);
      }
      r := Relayed(resp, "Add task failed");
    }

    method UpdateTask(checklistId: Id, key: Key, resp: Response<Item>) returns (r: Reply<Item>)
      modifies this`templates
      ensures r == Relayed(resp, "Update task failed")
      ensures resp.Success? ==> templates == TaskReplaced(old(templates), checklistId, key, resp.data)
      ensures resp.Failure? ==> templates == old(templates)
    {
      if resp.Success? {
        templates := TaskReplaced(templates, checklistId, key, resp.data);
      }
      r := Relayed(resp, "Update task failed");
    }

    method DeleteTask(checklistId: Id, key: Key, resp: Response<()>) returns (r: Reply<()>)
      modifies this`templates
      ensures r == Relayed(resp, "Delete task failed")
      ensures resp.Success? ==> templates == TaskRemoved(old(templates), checklistId, key)
      ensures resp.Failure? ==> templates == old(templates)
    {
      if resp.Success? {
        templates := TaskRemoved(templates, checklistId, key);
      }
      r := Relayed(resp, "Delete task failed");
    }
  }
}
