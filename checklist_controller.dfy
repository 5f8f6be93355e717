/** The checklist template handlers (server/controllers/checklistController.js)
    over the checklist collection. Generated uuids are passed in. */
module ChecklistController {
  import opened Common
  import opened ChecklistModel
  import Database

  /** An item as it arrives in a request body; `title: None` stands for a missing title. */
  datatype ItemInput = ItemInput(key: Option<string>, title: Option<string>, requiresApproval: Option<bool>)

  /** The items a request supplies: `items || []`. */
  function Supplied(items: Option<seq<ItemInput>>): seq<ItemInput>
  {
    OrElse(items, [])
  }

  /** `{ key: it.key || uuidv4(), title: it.title, requiresApproval: !!it.requiresApproval }`. */
  function NewItem(it: ItemInput, uuid: Key): (r: Item)
    ensures Truthy(it.key) ==> r.key == it.key.value
    ensures !Truthy(it.key) ==> r.key == uuid
    ensures r.requiresApproval <==> it.requiresApproval == Some(true)
    ensures it.title.Some? ==> r.title == it.title.value
    ensures it.title.None? ==> r.title == ""
    ensures ItemConforms(r) <==> Truthy(it.title)
  {
    Item(if Truthy(it.key) then it.key.value else uuid, OrElse(it.title, ""), it.requiresApproval == Some(true))
  }

  /** The controllers always pass the flag, so the schema default (true) never applies:
      an item given without the flag is stored with false. */
  lemma AbsentFlagIsFalse(key: Key, title: string, uuid: Key)
    ensures !NewItem(ItemInput(Some(key), Some(title), None), uuid).requiresApproval
    ensures SchemaItem(Some(key), title, None, uuid).requiresApproval
  {
  }

  /** `items.map(...)` with one generated uuid per position (used only where the key is missing). */
  function NewItems(inputs: seq<ItemInput>, uuids: seq<Key>): (r: seq<Item>)
    requires |uuids| == |inputs|
    ensures |r| == |inputs|
    ensures forall i :: 0 <= i < |inputs| ==> r[i] == NewItem(inputs[i], uuids[i])
  {
    if inputs == [] then [] else [NewItem(inputs[0], uuids[0])] + NewItems(inputs[1..], uuids[1..])
  }

  /** Items whose keys are all supplied come through unchanged, keys included:
      nothing in createChecklist makes a supplied key unique. */
  lemma {:induction false} SuppliedKeysKept(inputs: seq<ItemInput>, uuids: seq<Key>, items: seq<Item>)
    requires |uuids| == |inputs| == |items|
    requires forall i :: 0 <= i < |items| ==>
      inputs[i] == ItemInput(Some(items[i].key), Some(items[i].title), Some(items[i].requiresApproval))
    requires forall i :: 0 <= i < |items| ==> items[i].key != ""
    ensures NewItems(inputs, uuids) == items
  {
    if inputs != [] {
      SuppliedKeysKept(inputs[1..], uuids[1..], items[1..]);
      assert NewItem(inputs[0], uuids[0]) == items[0];
      assert [items[0]] + items[1..] == items;
    }
  }

  /** `item.title = title` / `item.requiresApproval = !!requiresApproval`, each only when supplied. */
  function Edited(it: Item, title: Option<string>, requiresApproval: Option<bool>): (r: Item)
    ensures r.key == it.key
    ensures r.title == if title.Some? then title.value else it.title
    ensures r.requiresApproval == if requiresApproval.Some? then requiresApproval.value else it.requiresApproval
  {
    it.(title := OrElse(title, it.title), requiresApproval := OrElse(requiresApproval, it.requiresApproval))
  }

  /** GET /api/checklists/:id. */
  method GetChecklistById(db: Database.Db, id: Id) returns (r: Result<Checklist>)
    ensures id in db.checklists <==> r.Ok?
    ensures r.Ok? ==> r.value == db.checklists[id]
    ensures r.Fail? ==> r == Fail(NotFound, "Checklist not found")
  {
    if id !in db.checklists {
      return Fail(NotFound, "Checklist not found");
    }
    r := Ok(db.checklists[id]);
  }

  /** POST /api/checklists. `id` is the new document's ObjectId. */
  method CreateChecklist(db: Database.Db, id: Id, title: Option<string>, description: Option<string>,
                         items: Option<seq<ItemInput>>, uuids: seq<Key>)
    returns (r: Result<Checklist>)
    requires db.Valid() && id !in db.checklists
    requires |uuids| == |Supplied(items)|
    modifies db`checklists
    ensures db.Valid()
    ensures !Truthy(title) ==> r == Fail(BadRequest, "Title is required")
    ensures Truthy(title) ==>
      var c := Checklist(title.value, description, NewItems(Supplied(items), uuids));
      if Conforms(c) then r == Ok(c) else r == Fail(ServerError, ServerErrorMessage)
    ensures r.Ok? ==> db.checklists == old(db.checklists)[id := r.value]
    ensures r.Fail? ==> db.checklists == old(db.checklists)
  {
    if !Truthy(title) {
      return Fail(BadRequest, "Title is required");
    }
    var c := Checklist(title.value, description, NewItems(Supplied(items), uuids));
    if !Conforms(c) {
      // an item without a title fails schema validation; the catch answers 500
      return Fail(ServerError, ServerErrorMessage);
    }
    db.checklists := db.checklists[id := c];
    r := Ok(c);
  }

  /** PUT /api/checklists/:id. `title ?? old`, `description ?? old`; an items array replaces the list. */
  method UpdateChecklist(db: Database.Db, id: Id, title: Option<string>, description: Option<string>,
                         items: Option<seq<ItemInput>>, uuids: seq<Key>)
    returns (r: Result<Checklist>)
    requires db.Valid()
    requires |uuids| == |Supplied(items)|
    modifies db`checklists
    ensures db.Valid()
    ensures id !in old(db.checklists) ==> r == Fail(NotFound, "Checklist not found")
    ensures id in old(db.checklists) ==>
      var was := old(db.checklists)[id];
      var c := Checklist(OrElse(title, was.title), if description.Some? then description else was.description,
                         if items.Some? then NewItems(items.value, uuids) else was.items);
      if Conforms(c) then r == Ok(c) else r == Fail(ServerError, ServerErrorMessage)
    ensures r.Ok? ==> db.checklists == old(db.checklists)[id := r.value]
    ensures r.Fail? ==> db.checklists == old(db.checklists)
  {
    if id !in db.checklists {
      return Fail(NotFound, "Checklist not found");
    }
    var c := db.checklists[id];
    c := c.(title := OrElse(title, c.title));
    c := c.(description := if description.Some? then description else c.description);
    if items.Some? {
      c := c.(items := NewItems(items.value, uuids));
    }
    if !Conforms(c) {
      return Fail(ServerError, ServerErrorMessage);
    }
    db.checklists := db.checklists[id := c];
    r := Ok(c);
  }

  /** DELETE /api/checklists/:id. Instances made from the template are left alone. */
  method DeleteChecklist(db: Database.Db, id: Id) returns (r: Result<()>)
    requires db.Valid()
    modifies db`checklists
    ensures db.Valid()
    ensures id in old(db.checklists) <==> r.Ok?
    ensures r.Fail? ==> r == Fail(NotFound, "Checklist not found") && db.checklists == old(db.checklists)
    ensures r.Ok? ==> db.checklists == old(db.checklists) - {id}
  {
    if id !in db.checklists {
      return Fail(NotFound, "Checklist not found");
    }
    db.checklists := db.checklists - {id};
    r := Ok(());
  }

  /** POST /api/checklists/:id/items. `uuid` is the generated key, unused in this template. */
  method AddChecklistItem(db: Database.Db, id: Id, title: Option<string>, requiresApproval: Option<bool>, uuid: Key)
    returns (r: Result<Item>)
    requires db.Valid()
    requires id in db.checklists ==> !HasKey(db.checklists[id].items, uuid)
    modifies db`checklists
    ensures db.Valid()
    ensures id !in old(db.checklists) ==> r == Fail(NotFound, "Checklist not found")
    ensures id in old(db.checklists) && !Truthy(title) ==> r == Fail(BadRequest, "Item title required")
    ensures r.Ok? <==> id in old(db.checklists) && Truthy(title)
    ensures r.Ok? ==> r.value == Item(uuid, title.value, requiresApproval == Some(true))
    ensures r.Ok? ==>
      var was := old(db.checklists)[id];
      db.checklists == old(db.checklists)[id := was.(items := was.items + [r.value])]
    ensures r.Fail? ==> db.checklists == old(db.checklists)
  {
    if id !in db.checklists {
      return Fail(NotFound, "Checklist not found");
    }
    if !Truthy(title) {
      return Fail(BadRequest, "Item title required");
    }
    var c := db.checklists[id];
    var item := Item(uuid, title.value, requiresApproval == Some(true));
    db.checklists := db.checklists[id := c.(items := c.items + [item])];
    r := Ok(item);
  }

  /** PUT /api/checklists/:id/items/:key: edits the first item with the key. */
  method UpdateChecklistItem(db: Database.Db, id: Id, key: Key, title: Option<string>, requiresApproval: Option<bool>)
    returns (r: Result<Item>)
    requires db.Valid()
    modifies db`checklists
    ensures db.Valid()
    ensures id !in old(db.checklists) ==> r == Fail(NotFound, "Checklist not found")
    ensures id in old(db.checklists) && !HasKey(old(db.checklists)[id].items, key) ==> r == Fail(NotFound, "Item not found")
    ensures id in old(db.checklists) && HasKey(old(db.checklists)[id].items, key) ==>
      var was := old(db.checklists)[id];
      var i := IndexOfKey(was.items, key).value;
      var it := Edited(was.items[i], title, requiresApproval);
      if it.title != "" then r == Ok(it) && db.checklists == old(db.checklists)[id := was.(items := was.items[i := it])]
      else r == Fail(ServerError, ServerErrorMessage)
    ensures r.Fail? ==> db.checklists == old(db.checklists)
  {
    if id !in db.checklists {
      return Fail(NotFound, "Checklist not found");
    }
    var c := db.checklists[id];
    var found := IndexOfKey(c.items, key);
    if found.None? {
      return Fail(NotFound, "Item not found");
    }
    var i := found.value;
    var it := Edited(c.items[i], title, requiresApproval);
    if it.title == "" {
      // `required` on the item title fails at save()
      return Fail(ServerError, ServerErrorMessage);
    }
    db.checklists := db.checklists[id := c.(items := c.items[i := it])];
    r := Ok(it);
  }

  /** DELETE /api/checklists/:id/items/:key: drops every item with the key, or answers 404 without saving. */
  method DeleteChecklistItem(db: Database.Db, id: Id, key: Key) returns (r: Result<()>)
    requires db.Valid()
    modifies db`checklists
    ensures db.Valid()
    ensures id !in old(db.checklists) ==> r == Fail(NotFound, "Checklist not found")
    ensures id in old(db.checklists) && !HasKey(old(db.checklists)[id].items, key) ==> r == Fail(NotFound, "Item not found")
    ensures r.Ok? <==> id in old(db.checklists) && HasKey(old(db.checklists)[id].items, key)
    ensures r.Ok? ==>
      var was := old(db.checklists)[id];
      db.checklists == old(db.checklists)[id := was.(items := WithoutKey(was.items, key))]
    ensures r.Fail? ==> db.checklists == old(db.checklists)
  {
    if id !in db.checklists {
      return Fail(NotFound, "Checklist not found");
    }
    var c := db.checklists[id];
    var kept := WithoutKey(c.items, key);
    WithoutKeyShrinks(c.items, key);
    if |kept| == |c.items| {
      return Fail(NotFound, "Item not found");
    }
    db.checklists := db.checklists[id := c.(items := kept)];
    r := Ok(());
  }

  /** Adding an item and then deleting it by its (fresh) key restores the template's item list. */
  lemma {:induction false} AddThenDeleteRestores(items: seq<Item>, item: Item)
    requires !HasKey(items, item.key)
    ensures WithoutKey(items + [item], item.key) == items
  {
    ListOps.FilterAppend(items, [item], KeyIsNot(item.key));
    assert ListOps.Filter([item], KeyIsNot(item.key)) == [];
    assert forall i :: 0 <= i < |items| ==> KeyIsNot(item.key)(items[i]);
    ListOps.FilterKeepsAll(items, KeyIsNot(item.key));
  }

  /** The item added by addChecklistItem is the one its key addresses afterwards. */
  lemma AddedItemIsAddressable(items: seq<Item>, item: Item)
    requires !HasKey(items, item.key)
    ensures IndexOfKey(items + [item], item.key) == Some(|items|)
  {
    var s := items + [item];
    assert s[|items|].key == item.key;
    assert forall j :: 0 <= j < |items| ==> s[j] == items[j];
  }
}
