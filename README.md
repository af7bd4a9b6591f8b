# Materials administration page — verified model

This project models the state and command handlers of `MaterialsPage`, the
"Materials" screen of a management dashboard. The page lists materials
(`id`, `name`, `is_active`, `alloys_count`), filters them by a search box,
and creates, edits and deletes them through a remote materials service.
Every change to the local list happens only after the service confirms it.

- `text.dfy` (module `Text`): the string primitives the page uses. It holds
  `trim` with the exact ECMAScript white-space set, `toLowerCase` for ASCII,
  and `includes` with a reference definition by position.
- `material_list.dfy` (module `MaterialList`): the `Material` and `Draft`
  values and the pure list transformations. These are `Filter`
  (`Array.prototype.filter`), `ReplaceById` (the update handler's `map`),
  `RemoveById` (the delete handler's `filter`) and `Search` (the derived
  `filteredMaterials`). Lemmas cover order, membership, idempotence, unique
  ids, and the create-then-delete round trip.
- `materials_page.dfy` (module `MaterialsScreen`): class `MaterialsPage`
  holds the page's state fields (Material.jsx:35-49) and has one method per
  handler. Each mutating handler takes the server's answer as a parameter,
  `Ok(payload)` or `Err(optional message)`. It returns the service request
  it issued (`None` when validation stops it first) and the notification it
  shows. Each contract states the whole new state with `View()`, a value
  holding every field, so "nothing else changes" is part of the contract.

Each handler is one atomic step. The submitting or loading flag is set on
entry to the request path and cleared before the method returns, as the
source's `finally` does.

Closing or cancelling the add dialog (Material.jsx:267, 291) only flips
`isAddDialogOpen`. The draft is reset only after a successful create
(Material.jsx:82).

## Model

| member | source | states |
|---|---|---|
| Text.IsSpace | Material.jsx:72 | the characters `trim` removes: space, tab, line feed and carriage return are among them, and ASCII letters and digits never are |
| Text.Trim | Material.jsx:72 | `trim()` (also at Material.jsx:98, 295 and 332) is never longer than the name and leaves no white space at either end |
| Text.TrimStart | Material.jsx:72 | the result is the suffix of the input after its leading white space; every dropped character is white space and the result does not start with one |
| Text.TrimEnd | Material.jsx:72 | the result is the prefix of the input before its trailing white space; every dropped character is white space and the result does not end with one |
| Text.TrimSpec | Material.jsx:72 | `trim()` gives a slice of the name with no white space at either end, and it is empty exactly when the name is blank (all white space, or empty) |
| Text.Lower | Material.jsx:156 | lower-casing keeps the length of the string |
| Text.LowerIdempotent | Material.jsx:156 | lower-casing an already lower-cased string changes nothing |
| Text.Includes | Material.jsx:156 | `includes` holds for the empty term, and only for a term no longer than the string |
| Text.IncludesSpec | Material.jsx:156 | `includes` holds exactly when the term occurs at some position of the string |
| MaterialList.Filter | Material.jsx:137 | `filter` returns no more elements than it gets, and an element is in the result exactly when it is in the input and passes the test |
| MaterialList.FilterConcat | Material.jsx:137 | filtering a concatenation filters each part and keeps the parts in order |
| MaterialList.FilterIsSubsequence | Material.jsx:137 | what `filter` keeps stays in its original relative order |
| MaterialList.FilterKeepsAll | Material.jsx:155-157 | when every element passes, `filter` returns the list unchanged |
| MaterialList.ReplaceById | Material.jsx:108-110 | the update's `map` keeps the length; each entry whose id matches becomes the returned record, and every other entry stays at its position unchanged |
| MaterialList.ReplaceAbsent | Material.jsx:108-110 | an update for an id the list does not hold leaves the list as it was |
| MaterialList.ReplaceAt | Material.jsx:108-110 | with unique ids, the update is a swap of the single entry at that id's position |
| MaterialList.ReplaceIdempotent | Material.jsx:108-110 | applying the same update twice is the same as applying it once |
| MaterialList.ReplacePreservesUniqueIds | Material.jsx:108-110 | an update whose returned record keeps the selected id keeps the ids unique |
| MaterialList.RemoveById | Material.jsx:137 | the delete's `filter` keeps exactly the entries whose id differs from the deleted one |
| MaterialList.RemoveIsSubsequence | Material.jsx:137 | the entries that survive a delete keep their relative order |
| MaterialList.RemoveAbsent | Material.jsx:137 | deleting an id the list does not hold leaves the list as it was |
| MaterialList.RemoveOne | Material.jsx:137 | with unique ids, deleting an id the list holds shortens it by exactly one |
| MaterialList.RemovePreservesUniqueIds | Material.jsx:137 | deleting keeps the ids unique |
| MaterialList.AppendPreservesUniqueIds | Material.jsx:80 | appending a created record whose id is new keeps the ids unique |
| MaterialList.CreateThenDelete | Material.jsx:80 | appending a record with a new id and then deleting that id gives back the original list |
| MaterialList.MatchesSearch | Material.jsx:156 | a material matches every empty term, and matches a term only if the term is no longer than its name |
| MaterialList.Search | Material.jsx:155-157 | the search result is no longer than the list, and a material is in it exactly when it is in the list and its lower-cased name includes the lower-cased term |
| MaterialList.SearchSpec | Material.jsx:155-157 | a material is shown exactly when it is in the list and the lower-cased term occurs at some position of its lower-cased name |
| MaterialList.SearchIsSubsequence | Material.jsx:155-157 | the shown materials keep the list's order |
| MaterialList.SearchEmptyTerm | Material.jsx:155-157 | an empty search term shows the whole list, in order |
| MaterialList.SearchIgnoresTermCase | Material.jsx:155-157 | searching for the lower-cased term shows the same materials as searching for the term |
| MaterialsScreen.ErrorNotice | Material.jsx:86-90 | a failed mutation (also Material.jsx:118-122 and 144-148) always shows an error; it is the server's message exactly when that message is present and non-empty, and the operation's generic text otherwise |
| MaterialsScreen.MaterialsPage.constructor | Material.jsx:35-49 | the page starts with an empty list, loading on, an empty search, every dialog closed, the draft `{name: '', is_active: true}`, no selection, and not submitting |
| MaterialsScreen.MaterialsPage.LoadMaterials | Material.jsx:57-68 | load always requests the full list; success replaces the list wholesale and shows nothing; failure keeps the previous list and shows the generic load error; loading is off afterwards and nothing else changes |
| MaterialsScreen.MaterialsPage.HandleCreateMaterial | Material.jsx:71-94 | a blank draft name sends nothing, shows the empty-name error and changes no state. Otherwise the draft is sent. Success appends exactly the server's record at the end, closes the add dialog and resets the draft. Failure keeps list, dialog and draft and shows the server's non-empty message or the generic one. Submitting is off after the request. Unique ids are preserved when the new id is fresh |
| MaterialsScreen.MaterialsPage.HandleUpdateMaterial | Material.jsx:97-126 | no selection, or a blank edited name, sends nothing, shows the empty-name error and changes no state. Otherwise the selection is sent under its id. Success applies ReplaceById with the server's record, closes the edit dialog and clears the selection. Failure keeps list, dialog and selection and shows the server's or the generic message. Submitting is off after the request. Unique ids are preserved when the record keeps its id |
| MaterialsScreen.MaterialsPage.HandleDeleteMaterial | Material.jsx:129-152 | no selection is a silent no-op. Otherwise the selected id is sent. Success applies RemoveById, closes the delete dialog and clears the selection. Failure keeps list, dialog and selection and shows the server's or the generic message. Submitting is off after the request. The list is always a subsequence of the old one, and unique ids stay unique |
| MaterialsScreen.MaterialsPage.SetAddDialogOpen | Material.jsx:267 | opening or closing the add dialog (also Material.jsx:165 and 291) changes only that flag; the draft is kept |
| MaterialsScreen.MaterialsPage.SetEditDialogOpen | Material.jsx:304 | opening or closing the edit dialog (also its cancel, Material.jsx:328) changes only that flag; the selection is kept |
| MaterialsScreen.MaterialsPage.SetDeleteDialogOpen | Material.jsx:341 | opening or closing the delete dialog (also its cancel, Material.jsx:356) changes only that flag |
| MaterialsScreen.MaterialsPage.OpenEditDialog | Material.jsx:237-240 | the selection becomes a copy of the row and the edit dialog opens; nothing else changes |
| MaterialsScreen.MaterialsPage.OpenDeleteDialog | Material.jsx:248-251 | the selection becomes the row and the delete dialog opens; nothing else changes |
| MaterialsScreen.MaterialsPage.SetSearchTerm | Material.jsx:180 | typing in the search box changes only the search term |
| MaterialsScreen.MaterialsPage.SetDraftName | Material.jsx:279 | typing in the create dialog changes only the draft's name |
| MaterialsScreen.MaterialsPage.SetDraftActive | Material.jsx:285 | the create dialog's switch changes only the draft's active flag |
| MaterialsScreen.MaterialsPage.SetEditName | Material.jsx:316 | typing in the edit dialog changes only the selection's name; the list is untouched until an update succeeds |
| MaterialsScreen.MaterialsPage.SetEditActive | Material.jsx:322 | the edit dialog's switch changes only the selection's active flag; the list is untouched |
| MaterialsScreen.MaterialsPage.FilteredMaterials | Material.jsx:155-157 | the table shows exactly the listed materials whose lower-cased name includes the lower-cased term, in list order, and the whole list for an empty term |
| MaterialsScreen.MaterialsPage.CreateSubmitDisabled | Material.jsx:295 | the create dialog's save button is disabled exactly while submitting or when the draft name is blank |
| MaterialsScreen.MaterialsPage.UpdateSubmitDisabled | Material.jsx:332 | the update button is disabled exactly while submitting, with no selection, or when the edited name is blank |

## Left out

- Rendering: the JSX layout, styling classes, animation, icons and the card, table, dialog, switch and input components. These are presentation only.
- The materials service's HTTP transport and the `response.data.*` payload shape. The server's answer is a parameter of each handler. A malformed payload (for instance a missing `materials` field) is not modelled.
- Notification delivery, the localized message texts and `console.error` logging. A handler returns an abstract notice instead: silent, success of an operation, or an error reason (empty name, generic, or the server's message).
- Asynchronous interleaving. Each handler is one atomic step, so effects such as opening another dialog while a request is pending are not modelled. Neither is a request that never answers and leaves the flag set.
- The mount effect (Material.jsx:52-54) that calls `loadMaterials` once. A caller of the model calls `LoadMaterials` after the constructor.
- Text.Lower: handles ASCII letters only. The source's `toLowerCase` also folds non-ASCII letters, so the model's search matches "Ä" and "ä" case-sensitively where the page does not. `toLowerCase` can also change a string's length ("İ" becomes two code units), so `Lower`'s length-preserving ensures holds of the model only.
- Text.IsSpace: follows the ECMAScript white-space and line-terminator set for a fixed Unicode version. Later changes to the Unicode space category are not tracked.
- MaterialsScreen.MaterialsPage.SetEditName: with no selection, the source would build a record without an id (`{...null, name}`). The model leaves the state unchanged instead. This assumes the edit dialog is never open without a selection. The model does not enforce that: opening the edit dialog, then the delete dialog, then deleting successfully leaves the edit dialog open with no selection. The page avoids it only because its dialogs are modal, which the model assumes rather than proves.
- MaterialsScreen.MaterialsPage.SetEditActive: the same as SetEditName when there is no selection.
- Display-only details: the row number `index + 1`, the `alloys_count || 0` default, and the `?.name || ''` and `?.is_active || false` input defaults (Material.jsx:217, 220, 315, 321).
- The delete dialog's confirm button has no `disabled` condition in the source (Material.jsx:357-361), so the model has no predicate for it.
- Ids are opaque in the source and compared with `===`. The model uses `int` and `==`.
