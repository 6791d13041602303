# Verified model of the travel-tours admin front end: category editor, product table, user initials

This project models three pieces of list and string logic from the React front end of a travel-tours booking site. The rest of that front end is rendering, pop-ups and HTTP calls.

- **Category editor** (`CatalagoForm`, module `CategoryForm`). This is a class whose fields are the category list, the list in the shared store, the draft bound to the inputs, the row being edited, the modal and add-panel flags, the loading flag and the last alert shown. Each asynchronous create, update or delete handler has two methods:
  - one for the moment the request is issued: validation, then spinner on and the request recorded as pending;
  - one for the moment the service's promise settles: the outcome `Success(record)` or `Failure(response data)` is a parameter, and the spinner goes off whatever the outcome.
  The object invariant `Valid()` ties the spinner to the pending request and keeps the local list equal to the store's. The list transforms are pure functions: append, replace by id and remove by id.
- **Admin product table** (`Admin`, module `AdminTable`). This is a class with the product list, the search term, the narrow-viewport flag and the last alert. Its save is a duplicate-name check followed by an upsert by id. Its search is a case-insensitive substring filter on the location. Its view is either the restricted notice or one row per matching product, and each row's availability is stock minus purchased.
- **User initials** (`getUserInitials`, module `UserInitials`). This is a pure function. It models `split(" ")`, then `map(n => n[0])`, then `join("")`, and it spells out what `undefined` does in each step.
- Module `Common` holds `Option`, the primitive key type compared with `===` (`undefined`, a string or a number), and `Array.prototype.filter` with its guarantees: it keeps a subsequence, it keeps exactly the members that pass, it distributes over concatenation, and it is idempotent.

Points where the behaviour of the code is easy to misread:
- The product save compares names with `===`, so its duplicate check is case-sensitive.
- The category duplicate check is applied only on add. Save-edit validates nothing. The add check, as the code writes it, exempts the category whose id the draft carries, so after an edit it can let a duplicate name in. The editor models the check as written, and a corrected check is proved beside it (see Findings).
- The update and delete results are computed from the list their handler saw when it was invoked, because the handler closes over it. The create result instead appends to the current list, because it uses a functional state update. The model records the seen list in the pending request.

## Model

| member | source | states |
|---|---|---|
| `Common.Filter` | src/routes/Admin.jsx:55-57 | `filter` returns a subsequence of its input, in order. Each element it returns passes the predicate, and each passing element of the input is returned. It is no longer than its input. |
| `Common.FilterAppend` | src/routes/Admin.jsx:55-57 | Filtering a concatenation is the concatenation of the filtered parts. This fixes the result exactly, multiplicities included. |
| `Common.FilterCount` | src/routes/Admin.jsx:55-57 | `filter` keeps each passing value exactly as many times as it occurs in the input, and no failing value at all. |
| `Common.FilterKeepsAll` | src/routes/Admin.jsx:55-57 | A filter returns its input unchanged if and only if every element passes. |
| `Common.FilterAgrees` | src/routes/Admin.jsx:55-57 | Two predicates that agree on the list's elements select the same list. |
| `Common.FilterKeepsPairwise` | src/routes/components/admin/CatagoriForm.jsx:100 | If a relation holds between every earlier and every later element of a list, it also holds in every filter of that list. One example: no two elements share a key. |
| `Common.FilterIdempotent` | src/routes/Admin.jsx:55-57 | Filtering twice by the same predicate is the same as filtering once. |
| `UserInitials.SplitCons` | src/routes/SubComponentes/IniciarSesion.jsx:57 | `split` starts a new empty piece at a leading space. Any other leading character goes at the front of the first piece. |
| `UserInitials.Split` | src/routes/SubComponentes/IniciarSesion.jsx:57 | `split(" ")` yields exactly one more piece than the string has spaces, and no piece contains a space. |
| `UserInitials.FirstChar` | src/routes/SubComponentes/IniciarSesion.jsx:57 | `n[0]` is `undefined` exactly for an empty segment, and otherwise is the segment's first character. |
| `UserInitials.Heads` | src/routes/SubComponentes/IniciarSesion.jsx:57 | The `map` keeps the number of segments, and entry k is the first character of segment k. |
| `UserInitials.Initials` | src/routes/SubComponentes/IniciarSesion.jsx:56-58 | A nullish name yields `undefined` (`None`), and only a nullish name does. A present name yields its joined initials. |
| `UserInitials.JoinSplit` | src/routes/SubComponentes/IniciarSesion.jsx:57 | Joining the pieces of `split(" ")` with spaces gives back the name. |
| `UserInitials.SplitJoin` | src/routes/SubComponentes/IniciarSesion.jsx:57 | Take one or more space-free pieces, join them with spaces, and split the result: the result is the same pieces. |
| `UserInitials.SplitWithoutSpace` | src/routes/SubComponentes/IniciarSesion.jsx:57 | A name without spaces is a single piece. |
| `UserInitials.SplitAtSpace` | src/routes/SubComponentes/IniciarSesion.jsx:57 | `split` of `a + " " + b` is the pieces of `a` followed by the pieces of `b`. |
| `UserInitials.JoinCharsAppend` | src/routes/SubComponentes/IniciarSesion.jsx:57 | `join("")` of a concatenation is the concatenation of the joins. |
| `UserInitials.JoinChars` | src/routes/SubComponentes/IniciarSesion.jsx:57 | `join("")` of the first characters has at most one character per entry, because `undefined` renders as nothing, and every character of the result is a present entry of the list. |
| `UserInitials.HeadsAppend` | src/routes/SubComponentes/IniciarSesion.jsx:57 | The `map` distributes over concatenation. |
| `UserInitials.InitialsSingleWord` | src/routes/SubComponentes/IniciarSesion.jsx:57 | A non-empty name without spaces yields exactly its first character. |
| `UserInitials.InitialsAtSpace` | src/routes/SubComponentes/IniciarSesion.jsx:57 | The initials of `a + " " + b` are the initials of `a` followed by the initials of `b`. |
| `UserInitials.InitialsOf` | src/routes/SubComponentes/IniciarSesion.jsx:57 | The initials of a present name (split, first characters, join) number at most the spaces plus one, and none of them is a space. |
| `UserInitials.InitialsAreWordStarts` | src/routes/SubComponentes/IniciarSesion.jsx:57 | The initials equal a definition that does not split: the non-space characters at the start of the name or right after a space, in order. Empty pieces from leading, trailing or doubled spaces contribute nothing. |
| `UserInitials.WordStartsAreNonSpace` | src/routes/SubComponentes/IniciarSesion.jsx:57 | Every initial is a non-space character of the name. |
| `AdminTable.IsMobile` | src/routes/Admin.jsx:14-17 | The view is restricted exactly when the viewport is narrower than 768 pixels (definition). |
| `AdminTable.IsDuplicateName` | src/routes/Admin.jsx:30 | A save is a duplicate exactly when some product with another id has a name equal under `===` (definition). |
| `AdminTable.FindIndex` | src/routes/Admin.jsx:37 | `findIndex` returns -1 exactly when no product has the id. Otherwise it returns an index carrying the id, and no earlier index carries it. |
| `AdminTable.Upsert` | src/routes/Admin.jsx:36-45 | If the id is present, the length is kept, only the first index with the id is replaced by the item, and every other element is unchanged. If the id is absent, the item is appended at the end. |
| `AdminTable.UpsertPlacesItem` | src/routes/Admin.jsx:36-45 | After a save, the item is the first entry with its id. |
| `AdminTable.SaveIdempotent` | src/routes/Admin.jsx:27-48 | An accepted item is accepted again on a second save, and the second save changes nothing. |
| `AdminTable.SaveKeepsIdsUnique` | src/routes/Admin.jsx:27-48 | With unique ids, a save keeps the ids unique, and the item is the only entry with its id. |
| `AdminTable.SaveKeepsNamesUnique` | src/routes/Admin.jsx:30-45 | With unique ids and names, an accepted save keeps the names unique. |
| `AdminTable.LowerChar` | src/routes/Admin.jsx:56 | `toLowerCase` on one character never yields a modelled capital. A capital moves to its small letter, and any other character is kept. |
| `AdminTable.Lower` | src/routes/Admin.jsx:56 | `toLowerCase` keeps the length and lowercases each character. |
| `AdminTable.Contains` | src/routes/Admin.jsx:56 | `includes`: the empty needle is contained in every string, a needle longer than the string never is, and a prefix always is. |
| `AdminTable.MatchesSearch` | src/routes/Admin.jsx:56 | A product matches when its lowercased location contains the lowercased term (definition). |
| `AdminTable.FilteredData` | src/routes/Admin.jsx:55-57 | `filteredData` is a subsequence of the products, in order. It contains exactly the products whose lowercased location contains the lowercased term. |
| `AdminTable.LowerIdempotent` | src/routes/Admin.jsx:56 | Lowercasing twice is lowercasing once. |
| `AdminTable.SearchIgnoresCase` | src/routes/Admin.jsx:55-57 | Searching for the lowercase form of a term selects the same products as the term itself. |
| `AdminTable.EmptySearchShowsAll` | src/routes/Admin.jsx:55-57 | An empty search term returns all products. |
| `AdminTable.SearchIdempotent` | src/routes/Admin.jsx:55-57 | Filtering the filtered list by the same term changes nothing. |
| `AdminTable.SearchAppend` | src/routes/Admin.jsx:55-57 | Searching a concatenation searches each part. |
| `AdminTable.SearchCount` | src/routes/Admin.jsx:55-57 | The search keeps each matching product exactly as many times as it occurs, and no product that does not match. |
| `AdminTable.RowOf` | src/routes/Admin.jsx:112-117 | A row shows the product's fields, and availability plus purchased equals stock. |
| `AdminTable.Admin.constructor` | src/routes/Admin.jsx:12-14 | On mount the table has the mock list and an empty search, and it is restricted exactly when the width is below 768. |
| `AdminTable.Admin.CheckScreenSize` | src/routes/Admin.jsx:17 | After a resize, the view is restricted exactly when the new width is below 768. |
| `AdminTable.Admin.HandleSearch` | src/routes/Admin.jsx:23-25 | The search term becomes the typed value. |
| `AdminTable.Admin.HandleSave` | src/routes/Admin.jsx:27-48 | A name equal under `===` to that of a product with another id is rejected: an alert is shown and the list is unchanged. Otherwise the list becomes the upsert. |
| `AdminTable.Admin.HandleDelete` | src/routes/Admin.jsx:50-52 | Delete changes no state at all. |
| `AdminTable.Admin.View` | src/routes/Admin.jsx:59-127 | The notice is shown exactly when the view is restricted. Otherwise there is one row per filtered product, in order, with availability `stock - comprados`. |
| `CategoryForm.IsTruthy` | src/routes/components/admin/CatagoriForm.jsx:33 | An image is truthy when it is a picked file or a non-empty reference, and not when it is null (definition). |
| `CategoryForm.HasRequiredFields` | src/routes/components/admin/CatagoriForm.jsx:33 | The draft has a non-empty name and a truthy image (definition). |
| `CategoryForm.IsDuplicateName` | src/routes/components/admin/CatagoriForm.jsx:38-40 | The duplicate check as written: some category with an id other than the draft's has exactly the draft's name (definition). |
| `CategoryForm.NameTaken` | src/routes/components/admin/CatagoriForm.jsx:38-40 | The corrected duplicate check: some category has exactly the draft's name, whatever its id (definition). |
| `CategoryForm.CreateBodyOf` | src/routes/components/admin/CatagoriForm.jsx:46-49 | The create body passes name and image unchanged. Its description is the draft's when that is non-empty, and `" "` otherwise, so it is never empty. |
| `CategoryForm.UpdateBodyOf` | src/routes/components/admin/CatagoriForm.jsx:74-77 | The update body is the draft's name, image and description, unvalidated (definition). |
| `CategoryForm.ApplyInput` | src/routes/components/admin/CatagoriForm.jsx:24-30 | The field the input names takes its value. The image input takes its first file, or `undefined` when none is selected. An input with any other name changes nothing (definition). |
| `CategoryForm.CreateFailureText` | src/routes/components/admin/CatagoriForm.jsx:62 | The create-failure alert is the server's data when that is non-empty, and the generic message otherwise. It is never empty. |
| `CategoryForm.ReplaceById` | src/routes/components/admin/CatagoriForm.jsx:83-85 | The length and the ids are kept. Every element with the record's id becomes the record, and every other element is unchanged. |
| `CategoryForm.RemoveById` | src/routes/components/admin/CatagoriForm.jsx:100 | The result is a subsequence in order, no element with the id remains, and every element with another id is kept. |
| `CategoryForm.RemoveByIdCount` | src/routes/components/admin/CatagoriForm.jsx:100 | Removal keeps each category with another id exactly as many times as it occurs, and no occurrence of the removed id. |
| `CategoryForm.ReplaceByIdIdempotent` | src/routes/components/admin/CatagoriForm.jsx:83-85 | Replacing twice with the same record is the same as replacing once. |
| `CategoryForm.ReplaceByIdKeepsIds` | src/routes/components/admin/CatagoriForm.jsx:83-85 | A record whose id is absent leaves the list unchanged, and uniqueness of ids is preserved. |
| `CategoryForm.RemoveByIdAbsentAndIdempotent` | src/routes/components/admin/CatagoriForm.jsx:100 | Removing an absent id changes nothing, and removing twice is the same as removing once. |
| `CategoryForm.RemoveByIdKeepsUnique` | src/routes/components/admin/CatagoriForm.jsx:100 | Removing keeps unique ids unique and unique names unique. |
| `CategoryForm.DuplicateChecksAgree` | src/routes/components/admin/CatagoriForm.jsx:38-40 | The corrected check rejects everything the check as written rejects. When no category carries the draft's id, as on a fresh add, the two checks agree. |
| `CategoryForm.AddAsWrittenDuplicatesEditedRow` | src/routes/components/admin/CatagoriForm.jsx:38-58 | With the check as written, a draft copied from a listed category is accepted, and appending the created record with its name breaks name uniqueness. |
| `CategoryForm.AddKeepsNamesUnique` | src/routes/components/admin/CatagoriForm.jsx:38-58 | An add accepted by the corrected check, whose server record keeps the draft's name, keeps names unique whatever the draft's id. |
| `CategoryForm.CategoryEditor.constructor` | src/routes/components/admin/CatagoriForm.jsx:8-22 | On mount the list is the store's, the draft is empty, nothing is being edited, all flags are off and no call is in flight. |
| `CategoryForm.CategoryEditor.StoreChanged` | src/routes/components/admin/CatagoriForm.jsx:20-22 | A new store list is copied into the local list. |
| `CategoryForm.CategoryEditor.HandleInputChange` | src/routes/components/admin/CatagoriForm.jsx:24-30 | The draft becomes `ApplyInput` of the old draft and the event. |
| `CategoryForm.CategoryEditor.HandleImageChange` | src/routes/components/admin/CatagoriForm.jsx:120-125 | A selected file replaces the draft's image. An empty selection changes nothing. |
| `CategoryForm.CategoryEditor.HandleAddCatalog` | src/routes/components/admin/CatagoriForm.jsx:32-53 | A missing name or image is rejected with its alert. So is a name that a category with an id other than the draft's already has. In both cases no call is made, the spinner stays off, and list and draft are unchanged. Otherwise the spinner turns on and a create call with `CreateBodyOf(draft)` is issued. |
| `CategoryForm.CategoryEditor.CompleteAdd` | src/routes/components/admin/CatagoriForm.jsx:53-65 | On success the list is the old list plus the record, the store holds the same list, the draft is reset and the panel is closed. On failure the list and draft are unchanged and the alert follows line 62. The spinner is off in both cases. |
| `CategoryForm.CategoryEditor.HandleEditCatalog` | src/routes/components/admin/CatagoriForm.jsx:68-71 | The row becomes the one being edited, and its fields fill the draft. |
| `CategoryForm.CategoryEditor.HandleSaveEdit` | src/routes/components/admin/CatagoriForm.jsx:73-81 | With no validation, the spinner turns on and an update call is issued for the draft's id and fields. |
| `CategoryForm.CategoryEditor.CompleteSaveEdit` | src/routes/components/admin/CatagoriForm.jsx:81-93 | On success the list is the seen list with the returned record replaced by id, editing is cleared and the draft is reset. On failure a generic alert is shown and nothing else changes. The spinner is off in both cases. |
| `CategoryForm.CategoryEditor.HandleDeleteFeature` | src/routes/components/admin/CatagoriForm.jsx:96-99 | The spinner turns on and a delete call is issued for the id. |
| `CategoryForm.CategoryEditor.CompleteDelete` | src/routes/components/admin/CatagoriForm.jsx:99-107 | On success the list is the seen list without the id, in the store and locally. On failure the list is unchanged and a generic alert is shown. The spinner is off in both cases. |
| `CategoryForm.CategoryEditor.OpenModal` | src/routes/components/admin/CatagoriForm.jsx:111 | The modal is open. |
| `CategoryForm.CategoryEditor.OpenInputs` | src/routes/components/admin/CatagoriForm.jsx:112 | The add-panel flag is negated. |
| `CategoryForm.CategoryEditor.CloseModal` | src/routes/components/admin/CatagoriForm.jsx:113-118 | The modal and panel are closed, editing is null, and the draft holds only an empty name and image. |
| `CategoryForm.ToggleTwice` | src/routes/components/admin/CatagoriForm.jsx:112 | Toggling the add panel twice restores it. |
| `CategoryForm.EditThenAddScenario` | src/routes/components/admin/CatagoriForm.jsx:32-71 | After editing a row `c` and opening the add panel, the add of that draft is accepted and a create call is issued. When it succeeds with a record named like `c`, the list is `[c, rec]`, which has two categories with the same name. |

## Left out

- Rendering: JSX, CSS classes, the conditional display of inputs and images, and the image preview (`getImageSrc`, which uses `URL.createObjectURL` and `instanceof File`). These are presentation. The header and the profile page are not part of this model.
- Service calls (`createCategory`, `updateCategory`, `deleteCategory`): each is issued as a pending request, and its settled outcome is a parameter. How `FormData` turns `undefined` or `null` values of the update body into strings is not modelled.
- Login, logout and the other handlers of the session widget (`handleSubmit`, `processingLogin`, `togglePasswordVisibility`, `handleLogout`): these are browser storage, page reload and a foreign hook. Only `getUserInitials` is modelled.
- Alerts and the spinner: at most the text of the last alert is recorded, and the spinner is the `loading` flag. The confirmation pop-up in front of a delete is the caller's business: `HandleDeleteFeature` models the call made after confirmation.
- The `console.log` calls of the save and delete handlers (Admin.jsx lines 28 and 51): console output is not modelled.
- The registration of the resize listener: only its threshold check (`CheckScreenSize`) is modelled.
- Overlapping submissions: the issuing methods require that no call is in flight. This reflects the blocking spinner and treats each handler as atomic. The races of overlapping requests are not modelled.
- The "cancel" button of an edited row calls the edit handler with no argument, which throws. No cancel transition is modelled.
- The initial read of the misspelled store key: the local list is modelled as synchronised from the store's category list.
- The `catalogo?.` optional chaining on list elements: list elements are always records here.
- Non-string names, descriptions or product locations (`ubicacion`, on which `toLowerCase` throws), and a non-string `response.data`: not modelled. An absent `response.data` counts as the empty string.
- `AdminTable.LowerChar`: models `toLowerCase` only for A-Z and the Latin-1 capitals U+00C0 to U+00DE (except U+00D7). Other scripts, and mappings that change length, are not modelled.
- `UserInitials.FirstChar`: Dafny characters are Unicode scalar values. JavaScript's `n[0]` is a UTF-16 code unit, so for a character outside the Basic Multilingual Plane the model returns the whole character where the source returns half a surrogate pair.
- Numbers: keys are integers or strings, prices are reals, and stock and purchased counts are integers. Floating-point rounding and `NaN` are not modelled.

## Findings

| source | as written | input that shows it | evidently intended | confidence | as-written member | corrected member |
|---|---|---|---|---|---|---|
| src/routes/components/admin/CatagoriForm.jsx:38-40 | The add handler's duplicate check skips the category whose id equals the draft's id. | Click edit on category `c`, which copies `c` with its id into the draft (lines 68-71). Then open the add panel, which stays reachable (lines 146-150) and is bound to that draft (lines 157-172), and add. The check passes, and lines 54-57 append a second category named `c.name`. | An add compares the name with every category, because the new category is not yet in the list. | not executed | `CategoryForm.AddAsWrittenDuplicatesEditedRow` | `CategoryForm.AddKeepsNamesUnique` |

The editor class keeps the check as written, so `CategoryEditor.HandleAddCatalog` and `EditThenAddScenario` behave as the program does. The corrected check (`NameTaken`, `AddAllowed`) and its uniqueness property are stated and proved on their own, and `DuplicateChecksAgree` relates it to the check as written.
