/**
  The shortcut list and its one persisted slot. Browser storage is a map from
  key to what JSON.parse makes of the text stored there; the list lives under
  StorageKey and is always read and written whole.
*/
module Store {

  /** One tile: `{icon, label, url}` (`label` is a Dafny keyword, hence `labelText`). */
  datatype Item = Item(icon: string, labelText: string, url: string)

  /** The stored text under a key, once parsed: an array of items, a JSON value
      that `|| []` replaces (null, false, 0 or ""), or text JSON.parse rejects. */
  datatype Stored = ItemArray(items: seq<Item>) | FalsyJson | Unparsable

  const StorageKey: string := "wp_style_dashboard_items"

  /** `loadItems()`: the stored array, or the empty list when the slot is
      absent, falsy or unparsable. It never fails. */
  function Load(storage: map<string, Stored>): (items: seq<Item>)
    ensures StorageKey !in storage ==> items == []
    ensures StorageKey in storage && !storage[StorageKey].ItemArray? ==> items == []
  {
    if StorageKey in storage && storage[StorageKey].ItemArray? then storage[StorageKey].items else []
  }

  /** The storage after `saveItems(items)`: loading gives back `items`, in
      order, and no other key is touched. */
  function Saved(storage: map<string, Stored>, items: seq<Item>): (after: map<string, Stored>)
    ensures Load(after) == items
    ensures after - {StorageKey} == storage - {StorageKey}
    ensures StorageKey in after
  {
    storage[StorageKey := ItemArray(items)]
  }

  /** The storage after `addItem(item)`. */
  function StorageAfterAdd(storage: map<string, Stored>, item: Item): (after: map<string, Stored>)
    ensures |Load(after)| == |Load(storage)| + 1
    ensures Load(after)[..|Load(storage)|] == Load(storage)
    ensures Load(after)[|Load(storage)|] == item
    ensures after - {StorageKey} == storage - {StorageKey}
  {
    Saved(storage, Load(storage) + [item])
  }

  /** The storage after `updateItem(index, item)`: in range, only position
      `index` changes; out of range, nothing is written. */
  function StorageAfterUpdate(storage: map<string, Stored>, index: int, item: Item): (after: map<string, Stored>)
    ensures 0 <= index < |Load(storage)| ==>
      && |Load(after)| == |Load(storage)|
      && Load(after)[index] == item
      && (forall k :: 0 <= k < |Load(storage)| && k != index ==> Load(after)[k] == Load(storage)[k])
      && after - {StorageKey} == storage - {StorageKey}
    ensures !(0 <= index < |Load(storage)|) ==> after == storage
  {
    var items := Load(storage);
    if 0 <= index < |items| then Saved(storage, items[index := item]) else storage
  }

  /** The storage after `removeItem(index)` for an index of a stored item: the
      item goes, those before stay, those after move down by one. */
  function StorageAfterRemove(storage: map<string, Stored>, index: int): (after: map<string, Stored>)
    requires 0 <= index < |Load(storage)|
    ensures |Load(after)| == |Load(storage)| - 1
    ensures Load(after)[..index] == Load(storage)[..index]
    ensures forall k :: index <= k < |Load(after)| ==> Load(after)[k] == Load(storage)[k + 1]
    ensures after - {StorageKey} == storage - {StorageKey}
  {
    var items := Load(storage);
    Saved(storage, items[..index] + items[index + 1..])
  }

  /** Once written, a slot that was corrupt reads as the list written. */
  lemma SaveOverwritesCorruption(storage: map<string, Stored>, items: seq<Item>)
    requires StorageKey in storage && storage[StorageKey] == Unparsable
    ensures Load(storage) == [] && Load(Saved(storage, items)) == items
  {
  }
}
