/**
 * The backend's list-per-collection store (app/data/storage.py), held in
 * memory as the test suite holds it: a map from collection name to the
 * records of that collection, in insertion order.
 */
module Storage {
  import opened Wrappers

  /** The JSON values the records of this application hold. */
  datatype Value = Str(str: string) | Int(num: int) | StrList(list: seq<string>)

  /** A stored document: a JSON object. */
  type Record = map<string, Value>

  /** `item.get("id") == item_id`. */
  predicate HasId(r: Record, id: string) {
    "id" in r && r["id"] == Str(id)
  }

  /** Index of the first record carrying `id`, or `|items|` when there is none. */
  function FirstIndex(items: seq<Record>, id: string): (k: nat)
    ensures k <= |items|
    ensures k < |items| ==> HasId(items[k], id)
    ensures forall j :: 0 <= j < k ==> !HasId(items[j], id)
  {
    if items == [] then 0
    else if HasId(items[0], id) then 0
    else 1 + FirstIndex(items[1..], id)
  }

  /** The first record carrying `id`, if any. */
  function Find(items: seq<Record>, id: string): (r: Option<Record>)
    ensures r.None? <==> forall j :: 0 <= j < |items| ==> !HasId(items[j], id)
    ensures r.Some? ==> r.value in items && HasId(r.value, id)
  {
    var k := FirstIndex(items, id);
    if k < |items| then Some(items[k]) else None
  }

  /** `dict.update`: the keys of `updates` are overwritten, every other key is kept. */
  function Merge(r: Record, updates: Record): (m: Record)
    ensures m.Keys == r.Keys + updates.Keys
    ensures forall k :: k in updates ==> m[k] == updates[k]
    ensures forall k :: k in r && k !in updates ==> m[k] == r[k]
  {
    r + updates
  }

  class Db {
    var collections: map<string, seq<Record>>

    /** `db.get(collection, [])`. */
    function Items(c: string): seq<Record>
      reads this
    {
      if c in collections then collections[c] else []
    }

    /** The database a missing file is initialised to. */
    constructor ()
      ensures collections == map["users" := [], "groups" := []]
    {
      collections := map["users" := [], "groups" := []];
    }

    /** `get_all`: the whole collection, empty when it does not exist. */
    method GetAll(c: string) returns (items: seq<Record>)
      ensures c in collections ==> items == collections[c]
      ensures c !in collections ==> items == []
    {
      items := if c in collections then collections[c] else [];
    }

    /** `add_item`: appends the item, creating the collection when missing. */
    method AddItem(c: string, item: Record)
      modifies this
      ensures collections == old(collections)[c := old(Items(c)) + [item]]
    {
      var items := if c in collections then collections[c] else [];
      collections := collections[c := items + [item]];
    }

    /** `get_item_by_id`: a linear scan that stops at the first record with the id. */
    method GetItemById(c: string, id: string) returns (r: Option<Record>)
      ensures r == Find(Items(c), id)
    {
      var items := GetAll(c);
      var i := 0;
      while i < |items|
        invariant 0 <= i <= |items|
        invariant forall j :: 0 <= j < i ==> !HasId(items[j], id)
      {
        if HasId(items[i], id) {
          assert FirstIndex(items, id) == i;
          return Some(items[i]);
        }
        i := i + 1;
      }
      return None;
    }

    /** `update_item`: merges `updates` into the first record with the id; false and no change when there is none. */
    method UpdateItem(c: string, id: string, updates: Record) returns (found: bool)
      modifies this
      ensures var items := old(Items(c));
        var k := FirstIndex(items, id);
        && found == (k < |items|)
        && collections == if found then old(collections)[c := items[k := Merge(items[k], updates)]]
                          else old(collections)
    {
      var items := if c in collections then collections[c] else [];
      var i := 0;
      while i < |items|
        invariant 0 <= i <= |items|
        invariant forall j :: 0 <= j < i ==> !HasId(items[j], id)
      {
        if HasId(items[i], id) {
          assert FirstIndex(items, id) == i;
          items := items[i := Merge(items[i], updates)];
          collections := collections[c := items];
          return true;
        }
        i := i + 1;
      }
      return false;
    }

    /** `delete_item`: removes the first record with the id, keeping the order of the rest. */
    method DeleteItem(c: string, id: string) returns (found: bool)
      modifies this
      ensures var items := old(Items(c));
        var k := FirstIndex(items, id);
        && found == (k < |items|)
        && collections == (if found then old(collections)[c := items[..k] + items[k + 1..]]
                           else old(collections))
        && (found ==> |Items(c)| == |items| - 1)
    {
      var items := if c in collections then collections[c] else [];
      var i := 0;
      while i < |items|
        invariant 0 <= i <= |items|
        invariant forall j :: 0 <= j < i ==> !HasId(items[j], id)
      {
        if HasId(items[i], id) {
          assert FirstIndex(items, id) == i;
          collections := collections[c := items[..i] + items[i + 1..]];
          return true;
        }
        i := i + 1;
      }
      return false;
    }
  }
}
