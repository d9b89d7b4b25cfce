# Shortcut dashboard: item store, icon rules and edit session

A model of the logic of a browser-side shortcut dashboard (`script.js`). The
dashboard keeps an ordered list of tiles `{icon, label, url}` in one
`localStorage` slot, reads and writes that list whole, decides how each
tile's icon string is shown, and runs one modal form for both adding and
editing. The form is driven by two scratch variables, `editingIndex` and
`importedDataUrl`.

The project has six modules:

- `Wrappers` (wrappers.dfy): `Option`. It stands for JavaScript's value-or-`null`.
- `Text` (text.dfy): the whitespace and line-terminator sets of ECMAScript,
  `startsWith`, and `trim`. `trim` is specified by `IsTrimOf` and proved to be
  the only string meeting it.
- `ImageUrl` (image_url.dfy): `isImageUrl`. `IsImageUrl` is a scan that follows
  the regular expression's backtracking. `MatchesImagePattern` states what the
  expression `^https?:\/\/.+\.(png|jpe?g|gif|svg|webp)(\?.*)?$` with flag `i`
  accepts, by cutting the string into scheme, run, dot, extension and query.
  The two are proved equal on every string.
- `Store` (store.dfy): the `Item` record and the stored slot. `Load` models
  `loadItems`. `Saved` and `StorageAfterAdd`/`Update`/`Remove` give the storage
  after each store operation, with positional contracts.
- `Icons` (icons.dfy): the render classification of `createTile`, the icon
  precedence of the submit handler, and how `openModalForEdit` re-imports an
  embedded icon.
- `Dashboard` (dashboard.dfy): class `Page`. Its fields are the storage map,
  `editingIndex`, `importedDataUrl`, the three form fields and whether the modal
  is open. Its methods are the store operations and the event handlers. Each
  method is specified by the `Store` functions. `Walkthrough` is a client
  method. It shows the contracts carry the add/update/remove scenario and the
  empty-URL rejection.

Browser storage is a `map<string, Stored>`. It maps a key to what `JSON.parse`
makes of the stored text: an item array, a falsy JSON value that `|| []`
replaces, or unparsable text. A missing key is `getItem` returning `null`,
which also loads as `[]`. Serialisation is taken to round-trip at this
boundary.

Two behaviours of the code worth knowing:

- `openModalForEdit` copies an embedded `data:` payload into the icon text
  field (script.js:186). It does not show an indicator in the field's place.
  So "clear imported" followed by a save keeps the image
  (`Icons.ClearedPayloadSurvives`).
- `closeModal` leaves `editingIndex` as it was.

## Model

| member | source | states |
|---|---|---|
| `Text.Trim` | script.js:270-272 | the result is a slice of the input with only whitespace cut from either end, and it has no whitespace at either end |
| `Text.TrimOfIsUnique` | script.js:270-272 | at most one string is a trim of a given input, so `IsTrimOf` pins `trim` down |
| `Text.TrimCharacterized` | script.js:270-272 | a string is a trim of `s` exactly when it equals `Trim(s)` |
| `Text.TrimOfTrimmed` | script.js:270-272 | a string without surrounding whitespace trims to itself, so trimming twice is trimming once |
| `Text.TrimEmptyIffBlank` | script.js:273 | the trimmed value is empty exactly when every character is whitespace |
| `Text.TrimKeepsPrefix` | script.js:270 | a prefix with no whitespace, such as `data:`, is still a prefix after trimming |
| `ImageUrl.IsImageUrl` | script.js:36-38 | the executable scan for `isImageUrl`, trying `https://` before `http://`; it has no contract of its own and is equal to `MatchesImagePattern` by `IsImageUrlIffPattern` |
| `ImageUrl.IsImageUrlIffPattern` | script.js:36-38 | `isImageUrl` holds exactly when the string splits into an `http://` or `https://` scheme (any case), a non-empty run without line terminators, a dot, one of png/jpg/jpeg/gif/svg/webp (any case), and nothing or `?` and a run without line terminators up to the end |
| `ImageUrl.PartsMatchPattern` | script.js:37 | every string assembled from a scheme, a non-empty run, a dot, an image extension and a query matches the expression |
| `Store.Load` | script.js:28-34 | an absent key, a falsy value and unparsable text all load as the empty list; nothing fails |
| `Store.Saved` | script.js:25-27 | after saving a list, loading returns that list unchanged and in order; no other key changes |
| `Store.SaveOverwritesCorruption` | script.js:25-34 | a corrupt slot loads as empty, and after a save it loads as the saved list |
| `Store.StorageAfterAdd` | script.js:140-145 | the list grows by one, earlier items are unchanged, and the new item is last |
| `Store.StorageAfterUpdate` | script.js:147-154 | for an index in range, only that position changes and the length stays; out of range, storage is not written at all |
| `Store.StorageAfterRemove` | script.js:156-161 | for an index in range, the list shrinks by one, items before the index stay and items after it move down by one |
| `Icons.IsEmbedded` | script.js:49 | `icon.startsWith('data:')`, the test shared by `createTile` and `openModalForEdit` (script.js:188); `RemoteIsNeverEmbedded` and `ImportedForEdit` state what it separates |
| `Icons.Classify` | script.js:49-71 | every icon gets exactly one view: `data:` prefix gives the embedded image, else a string matching the image pattern gives the remote image, else non-empty text gives the glyph, else the 🔗 placeholder; images and glyphs carry the icon itself |
| `Icons.RemoteIsNeverEmbedded` | script.js:49-55 | a string matching the image pattern never starts with `data:`, so the first two tests never compete |
| `Icons.ClassifyExamples` | script.js:49-71 | `https://example.com/pic.PNG?x=1` shows as a remote image, `🚀` as a glyph, the empty icon as the placeholder |
| `Icons.IsTruthy` | script.js:279 | JavaScript truthiness of `importedDataUrl`: present and not the empty string; `ResolveIcon` states the precedence it decides |
| `Icons.ResolveIcon` | script.js:278-285 | a truthy imported payload is stored whatever the text says; otherwise the trimmed text; otherwise the empty string |
| `Icons.ImportedForEdit` | script.js:188-193 | opening an item for editing imports its icon exactly when the icon shows as an embedded image |
| `Icons.ReopenKeepsIcon` | script.js:186-193 | an icon opened for editing and saved untouched is stored again unchanged, if it is trimmed or embedded |
| `Icons.ClearedPayloadSurvives` | script.js:249-254 | clearing the import of an embedded icon opened for editing still saves an embedded image, because the text field holds the payload |
| `Dashboard.FormItem` | script.js:270-291 | submission is refused exactly when the URL field is all whitespace; otherwise the item has a non-empty trimmed URL, a trimmed label, and the imported payload or the trimmed icon text |
| `Dashboard.ResubmitIsIdentity` | script.js:178-207 | an item with trimmed fields and a URL, opened for editing and submitted unchanged, produces that same item |
| `Dashboard.Page.constructor` | script.js:21-22 | the page starts with both scratch variables null, empty fields, the modal closed, over whatever is stored |
| `Dashboard.Page.SaveItems` | script.js:25-27 | overwrites the slot with the list; loading then returns it |
| `Dashboard.Page.AddItem` | script.js:140-145 | load, push, save: the new storage is `StorageAfterAdd` of the old |
| `Dashboard.Page.UpdateItem` | script.js:147-154 | load, guarded indexed assignment, save only when in range: the new storage is `StorageAfterUpdate` of the old |
| `Dashboard.Page.RemoveItem` | script.js:156-161 | for an index of a stored item, load, splice, save: the new storage is `StorageAfterRemove` of the old |
| `Dashboard.Page.OpenForAdd` | script.js:164-176 | clears both scratch variables and the fields and opens the form; storage untouched |
| `Dashboard.Page.OpenForEdit` | script.js:178-207 | for a stored index, sets `editingIndex`, fills the fields from the item, and imports its icon when embedded; for any other index, changes nothing |
| `Dashboard.Page.EditFields` | script.js:7-9 | the user's typing sets the three input fields |
| `Dashboard.Page.FileImported` | script.js:238-244 | a finished file read makes its payload the imported icon and clears the icon text field |
| `Dashboard.Page.ClearImported` | script.js:249-254 | drops the imported payload |
| `Dashboard.Page.Close` | script.js:215-223 | resets the fields and the imported payload and closes the form; `editingIndex` and storage unchanged |
| `Dashboard.Page.Delete` | script.js:257-265 | when editing and confirmed, removes the edited item and closes the form; otherwise changes nothing |
| `Dashboard.Page.Submit` | script.js:268-300 | with a blank URL nothing changes; otherwise appends when `editingIndex` is null, updates at `editingIndex` when it is not, and closes the form |

`Page.Valid` is the invariant every form handler keeps, and so do
`AddItem` and `UpdateItem`: while the form is open
for editing, `editingIndex` names a stored item. It is what lets `Delete`
call `RemoveItem` within that method's precondition.

## Left out

- DOM construction, CSS classes, tile labels, the entry animation and the focus timer: these are rendering.
  Only the icon decision of `createTile` is modelled.
- `render()` after every store operation: it only redraws from storage.
- FileReader: the file read is an asynchronous foreign call. Only its completion is modelled, as `FileImported` with an opaque payload string.
  A change event without a file does nothing and is not a separate method.
- `alert` and `confirm`: these are dialogs. A refused submit is "no state change", and `confirm` is the `confirmed` parameter of `Delete`.
- JSON text and the `localStorage` API: serialisation is assumed to round-trip.
  Parsed values that are truthy but not an item array, array elements that are not items, and non-string icons are not modelled.
- `addForm.reset()`: restores the fields' HTML default values, taken to be empty. The HTML is not part of this model.
- Dashboard.Page.RemoveItem: requires an index of a stored item. The source does not check, and the UI only passes indices of drawn tiles.
  JavaScript `splice` behaviour for out-of-range or negative indices is not modelled.
- Dashboard.Page.RemoveItem: does not keep `Page.Valid`. Removing a tile through its × button (script.js:102-106) while the form is open for editing a later item would leave `editingIndex` past the end; the model takes the tile buttons to be unreachable behind the open form, and the form handlers require `Valid()`.
- Dashboard.Page.Delete: requires the form to be open. The delete button exists only inside the open form.
- Strings are sequences of Unicode scalar values, not UTF-16 code units. Lone surrogates cannot occur.
- The modal's open state is kept only as a flag. It is needed to state `Page.Valid`.
