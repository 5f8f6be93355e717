/** The checklist template schema (Server/models/Checklist.js): a titled,
    ordered list of items, each addressed by a string key. */
module ChecklistModel {
  import opened Common
  import ListOps

  /** One template item (checklistItemSchema). */
  datatype Item = Item(key: Key, title: string, requiresApproval: bool)

  /** A template (checklistSchema); `createdBy` and the timestamps are not modelled. */
  datatype Checklist = Checklist(title: string, description: Option<string>, items: seq<Item>)

  /** The schema's own default for `requiresApproval`. */
  const SchemaRequiresApproval := true

  /** What the schema alone would store for an item given as `{ key?, title, requiresApproval? }`:
      a missing key becomes the generated uuid, a missing flag becomes true. */
  function SchemaItem(key: Option<Key>, title: string, requiresApproval: Option<bool>, uuid: Key): (r: Item)
    ensures key.None? ==> r.key == uuid
    ensures key.Some? ==> r.key == key.value
    ensures requiresApproval.None? ==> r.requiresApproval
    ensures requiresApproval.Some? ==> r.requiresApproval == requiresApproval.value
    ensures r.title == title
  {
    Item(OrElse(key, uuid), title, OrElse(requiresApproval, SchemaRequiresApproval))
  }

  /** `required: true` on a String rejects `undefined`, `null` and `""`, so a missing
      title is represented by `""` and refused alike. */
  predicate ItemConforms(it: Item)
  {
    it.title != ""
  }

  /** What `save()`/`create()` validation accepts. */
  predicate Conforms(c: Checklist)
  {
    c.title != "" && forall i :: 0 <= i < |c.items| ==> ItemConforms(c.items[i])
  }

  /** `i => i.key === key`. */
  function KeyIs(key: Key): Item -> bool
  {
    (it: Item) => it.key == key
  }

  /** `i => i.key !== key`. */
  function KeyIsNot(key: Key): Item -> bool
  {
    (it: Item) => it.key != key
  }

  /** Some item carries the key. */
  predicate HasKey(items: seq<Item>, key: Key)
  {
    exists i :: 0 <= i < |items| && items[i].key == key
  }

  /** `items.findIndex(i => i.key === key)`: the first item with the key. */
  function IndexOfKey(items: seq<Item>, key: Key): (r: Option<nat>)
    ensures r.None? <==> !HasKey(items, key)
    ensures r.Some? ==> r.value < |items| && items[r.value].key == key
    ensures r.Some? ==> forall j :: 0 <= j < r.value ==> items[j].key != key
  {
    var r := ListOps.FirstWhere(items, KeyIs(key));
    assert ListOps.Any(items, KeyIs(key)) <==> HasKey(items, key) by {
      if HasKey(items, key) {
        var i :| 0 <= i < |items| && items[i].key == key;
        assert KeyIs(key)(items[i]);
      }
    }
    r
  }

  /** `items.filter(i => i.key !== key)`. */
  function WithoutKey(items: seq<Item>, key: Key): (r: seq<Item>)
    ensures forall i :: 0 <= i < |r| ==> r[i].key != key
    ensures forall it :: it in r <==> it in items && it.key != key
    ensures forall it :: multiset(r)[it] == if it.key != key then multiset(items)[it] else 0
    ensures ListOps.IsSubsequence(r, items)
  {
    ListOps.FilterCharacterised(items, KeyIsNot(key));
    var r := ListOps.Filter(items, KeyIsNot(key));
    assert forall i :: 0 <= i < |r| ==> KeyIsNot(key)(r[i]);
    forall it | it in items && it.key != key
      ensures it in r
    {
      ListOps.FilterKeeps(items, KeyIsNot(key), it);
    }
    assert forall it :: it in r ==> it in multiset(r);
    r
  }

  /** Removing by key drops something exactly when the key is present:
      the test deleteChecklistItem uses to answer 404. */
  lemma WithoutKeyShrinks(items: seq<Item>, key: Key)
    ensures |WithoutKey(items, key)| == |items| <==> !HasKey(items, key)
    ensures |WithoutKey(items, key)| < |items| <==> HasKey(items, key)
  {
    ListOps.FilterShrinks(items, KeyIsNot(key));
    if HasKey(items, key) {
      var i :| 0 <= i < |items| && items[i].key == key;
      assert ListOps.NotOf(KeyIsNot(key))(items[i]);
    }
    if ListOps.Any(items, ListOps.NotOf(KeyIsNot(key))) {
      var i :| 0 <= i < |items| && ListOps.NotOf(KeyIsNot(key))(items[i]);
      assert items[i].key == key;
    }
  }
}
