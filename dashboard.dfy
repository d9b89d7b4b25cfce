/**
  The dashboard page: the persisted storage, the edit-session scratch
  variables `editingIndex` and `importedDataUrl`, the three form fields and
  whether the modal form is open, with the store operations and the event
  handlers that change them.
*/
module Dashboard {
  import opened Wrappers
  import opened Text
  import opened Store
  import opened Icons

  /** What the submit handler makes of the form: nothing when the trimmed
      URL is empty (the source alerts and stops), else an item with trimmed
      label and URL and the icon the precedence rule picks. */
  function FormItem(iconField: string, labelField: string, urlField: string, imported: Option<string>): (r: Option<Item>)
    ensures r.None? <==> AllWhitespace(urlField)
    ensures r.Some? ==> r.value.url != [] && IsTrimOf(r.value.url, urlField)
    ensures r.Some? ==> IsTrimOf(r.value.labelText, labelField)
    ensures r.Some? && IsTruthy(imported) ==> r.value.icon == imported.value
    ensures r.Some? && !IsTruthy(imported) ==> IsTrimOf(r.value.icon, iconField)
  {
    TrimEmptyIffBlank(urlField);
    var urlVal := Trim(urlField);
    if urlVal == [] then None
    else Some(Item(ResolveIcon(imported, Trim(iconField)), Trim(labelField), urlVal))
  }

  /** An item with trimmed fields and a URL, opened for editing and saved
      untouched, is saved as it was. */
  lemma ResubmitIsIdentity(item: Item)
    requires item.url != [] && IsTrimmed(item.url) && IsTrimmed(item.labelText)
    requires IsTrimmed(item.icon) || IsEmbedded(item.icon)
    ensures FormItem(item.icon, item.labelText, item.url, ImportedForEdit(item.icon)) == Some(item)
  {
    TrimOfTrimmed(item.url);
    TrimOfTrimmed(item.labelText);
    ReopenKeepsIcon(item.icon);
  }

  class Page {
    var storage: map<string, Stored>
    var editingIndex: Option<int>
    var importedDataUrl: Option<string>
    var iconInput: string
    var labelInput: string
    var urlInput: string
    var modalOpen: bool

    /** While the form is open for editing, it edits an item that exists. */
    ghost predicate Valid()
      reads this
    {
      modalOpen && editingIndex.Some? ==> 0 <= editingIndex.value < |Load(storage)|
    }

    /** The form as `closeModal` leaves it. */
    ghost predicate IsClosed()
      reads this
    {
      !modalOpen && importedDataUrl == None && iconInput == [] && labelInput == [] && urlInput == []
    }

    /** The page as it starts, over whatever the browser has stored. */
    constructor (stored: map<string, Stored>)
      ensures Valid() && IsClosed()
      ensures storage == stored && editingIndex == None
    {
      storage := stored;
      editingIndex := None;
      importedDataUrl := None;
      iconInput, labelInput, urlInput := [], [], [];
      modalOpen := false;
    }

    /** The item the form would submit now. */
    ghost function Submitted(): Option<Item>
      reads this
    {
      FormItem(iconInput, labelInput, urlInput, importedDataUrl)
    }

    function LoadItems(): seq<Item>
      reads this
    {
      Load(storage)
    }

    method SaveItems(items: seq<Item>)
      modifies this`storage
      ensures storage == Saved(old(storage), items)
      ensures LoadItems() == items
    {
      storage := storage[StorageKey := ItemArray(items)];
    }

    method AddItem(item: Item)
      modifies this`storage
      ensures storage == StorageAfterAdd(old(storage), item)
      ensures old(Valid()) ==> Valid()
    {
      var items := LoadItems();
      items := items + [item];
      SaveItems(items);
    }

    method UpdateItem(index: int, item: Item)
      modifies this`storage
      ensures storage == StorageAfterUpdate(old(storage), index, item)
      ensures old(Valid()) ==> Valid()
    {
      var items := LoadItems();
      if 0 <= index < |items| {
        items := items[index := item];
        SaveItems(items);
      }
    }

    method RemoveItem(index: int)
      requires 0 <= index < |LoadItems()|
      modifies this`storage
      ensures storage == StorageAfterRemove(old(storage), index)
    {
      var items := LoadItems();
      items := items[..index] + items[index + 1..];
      SaveItems(items);
    }

    method OpenForAdd()
      requires Valid()
      modifies this
      ensures Valid()
      ensures modalOpen && editingIndex == None && importedDataUrl == None
      ensures iconInput == [] && labelInput == [] && urlInput == []
      ensures storage == old(storage)
    {
      editingIndex := None;
      importedDataUrl := None;
      iconInput, labelInput, urlInput := [], [], [];
      modalOpen := true;
    }

    /** Fills the form from stored item `index`; does nothing at all when there
        is no such item. */
    method OpenForEdit(index: int)
      requires Valid()
      modifies this
      ensures Valid()
      ensures storage == old(storage)
      ensures 0 <= index < |LoadItems()| ==>
        var item := LoadItems()[index];
        && modalOpen && editingIndex == Some(index)
        && importedDataUrl == ImportedForEdit(item.icon)
        && iconInput == item.icon && labelInput == item.labelText && urlInput == item.url
      ensures !(0 <= index < |LoadItems()|) ==> unchanged(this)
    {
      var items := LoadItems();
      if !(0 <= index < |items|) {
        return;
      }
      var item := items[index];
      editingIndex := Some(index);
      iconInput := item.icon;
      if item.icon != [] && IsEmbedded(item.icon) {
        importedDataUrl := Some(item.icon);
      } else {
        importedDataUrl := None;
      }
      labelInput := item.labelText;
      urlInput := item.url;
      modalOpen := true;
    }

    /** The user types into the three fields (the browser's input events). */
    method EditFields(icon: string, labelText: string, url: string)
      requires Valid()
      modifies this`iconInput, this`labelInput, this`urlInput
      ensures Valid()
      ensures iconInput == icon && labelInput == labelText && urlInput == url
    {
      iconInput, labelInput, urlInput := icon, labelText, url;
    }

    /** A file read has finished with `payload`: it becomes the imported icon
        and the icon text field is cleared. */
    method FileImported(payload: string)
      requires Valid()
      modifies this`importedDataUrl, this`iconInput
      ensures Valid()
      ensures importedDataUrl == Some(payload) && iconInput == []
    {
      importedDataUrl := Some(payload);
      iconInput := [];
    }

    method ClearImported()
      requires Valid()
      modifies this`importedDataUrl
      ensures Valid()
      ensures importedDataUrl == None
    {
      importedDataUrl := None;
    }

    /** Resets the form and the imported payload; `editingIndex` is left as
        it was. */
    method Close()
      modifies this`modalOpen, this`importedDataUrl, this`iconInput, this`labelInput, this`urlInput
      ensures Valid() && IsClosed()
    {
      modalOpen := false;
      iconInput, labelInput, urlInput := [], [], [];
      importedDataUrl := None;
    }

    /** The delete button of the open form; `confirmed` is the user's answer
        to the confirmation dialog. */
    method Delete(confirmed: bool)
      requires Valid() && modalOpen
      modifies this
      ensures Valid()
      ensures old(editingIndex).Some? && confirmed ==>
        && storage == StorageAfterRemove(old(storage), old(editingIndex).value)
        && IsClosed() && editingIndex == old(editingIndex)
      ensures !(old(editingIndex).Some? && confirmed) ==> unchanged(this)
    {
      if editingIndex.Some? && confirmed {
        RemoveItem(editingIndex.value);
        Close();
      }
    }

    /** The form's submit handler. */
    method Submit()
      requires Valid()
      modifies this
      ensures Valid()
      ensures old(Submitted()).None? ==> unchanged(this)
      ensures old(Submitted()).Some? && old(editingIndex).None? ==>
        storage == StorageAfterAdd(old(storage), old(Submitted()).value)
      ensures old(Submitted()).Some? && old(editingIndex).Some? ==>
        storage == StorageAfterUpdate(old(storage), old(editingIndex).value, old(Submitted()).value)
      ensures old(Submitted()).Some? ==> IsClosed() && editingIndex == old(editingIndex)
    {
      var form := FormItem(iconInput, labelInput, urlInput, importedDataUrl);
      if form.None? {
        return;
      }
      var item := form.value;
      if editingIndex.None? {
        AddItem(item);
      } else {
        UpdateItem(editingIndex.value, item);
      }
      Close();
    }
  }

  /** A walk-through: add to an empty store, update the item's
      icon, remove it; and an add submitted without a URL changes nothing. */
  method Walkthrough()
  {
    var page := new Page(map[]);
    var docs := Item("", "Docs", "https://docs.example.com");
    page.AddItem(docs);
    assert page.LoadItems() == [docs];
    var book := Item("📘", "Docs", "https://docs.example.com");
    page.UpdateItem(0, book);
    assert page.LoadItems()[0].icon == "📘";
    page.RemoveItem(0);
    assert page.LoadItems() == [];

    page.OpenForAdd();
    page.EditFields("", "Docs", "  ");
    var before := page.storage;
    page.Submit();
    assert page.storage == before;
  }
}
