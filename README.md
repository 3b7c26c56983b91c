# venefish: a model of the measurement catalogue's core

venefish is a reference catalogue of medical measurements. A public page
lists the records and filters them by a search box. An administrator area
lets signed-in administrators create, edit and delete records, each with
images kept in object storage. This project models five pieces of it:

- the public search filter, and the cover image and "+N more" badge of each
  card (`PublicSearch`, over the JavaScript string operations in `Text`);
- the record store client `measurementService` (`MeasurementService`). It
  is a class `Store` over an in-memory document collection (`docs`), an
  object bucket (`blobs`), and a log of the writes issued;
- the `useIsAdmin` hook (`IsAdminHook`). It is a class with the hook's two
  state variables;
- the `AdminRoute` guard (`AdminRoute`): the navigation its effect issues
  and what it renders;
- the admin form (`MeasurementForm`):
  - its schema and default values;
  - the comma-separated list inputs;
  - the working set of images;
  - the submission that uploads new images and then writes the record.

The records themselves are in `Records`, with `Option` and `Outcome` in
`Wrappers`.

The backend's outside inputs become parameters:

- the id the document store assigns (`newId`);
- each reading of the writing browser's clock by `Timestamp.now()`
  (`createdAt` and `updatedAt` of `create`, `now` of `update`);
- the temporary owner id (`tempId`);
- the objects the storage rules refuse to delete (`denied`);
- the outcome of the user-document lookup (`lookup`).

`deleteImage` on a path where nothing is stored
fails with `ObjectNotFound` (`deleteObject` rejects a missing object), and
is not treated as success.

## Model

| member | source | states |
|---|---|---|
| `Text.Lower` | app/page.tsx:29-33 | `toLowerCase` keeps the length and folds each character on its own |
| `Text.LowerIdempotent` | app/page.tsx:29-33 | lowercasing the candidates and the query twice is the same as once |
| `Text.Contains` | app/page.tsx:33 | `includes`; its meaning is stated by `Text.ContainsIffOccurs` and `Text.ContainsEmpty` |
| `Text.ContainsIffOccurs` | app/page.tsx:33 | `includes` holds exactly when the query occurs at some position of the candidate |
| `Text.ContainsEmpty` | app/page.tsx:33 | every candidate includes the empty query |
| `Text.TrimStart` | app/admin/measurements/measurement-form.tsx:138 | the result is a suffix, everything dropped is whitespace, and it does not start with whitespace |
| `Text.TrimEnd` | app/admin/measurements/measurement-form.tsx:138 | the result is a prefix, everything dropped is whitespace, and it does not end with whitespace |
| `Text.Trim` | app/admin/measurements/measurement-form.tsx:138 | `trim()` gives `s` less a run of whitespace at its start and a run at its end: the result is a contiguous slice of `s`, everything around it is whitespace, and it has no whitespace at either end; a trimmed string is left alone |
| `Text.TrimStartSkips` | app/admin/measurements/measurement-form.tsx:138 | leading whitespace in front of a term does not change its trimmed start |
| `Text.TrimEndSkips` | app/admin/measurements/measurement-form.tsx:138 | trailing whitespace behind a term does not change its trimmed end |
| `Text.TrimPadded` | app/admin/measurements/measurement-form.tsx:138 | a trimmed term padded with whitespace on both sides trims back to itself |
| `Text.Split` | app/admin/measurements/measurement-form.tsx:138 | `split(',')` gives one segment more than there are commas, and no segment holds a comma |
| `Text.SplitWithoutSeparator` | app/admin/measurements/measurement-form.tsx:143 | text without a comma splits into itself alone |
| `Text.SplitAtFirstSeparator` | app/admin/measurements/measurement-form.tsx:143 | the first comma ends the first segment, and the rest splits on its own |
| `Text.Join` | app/admin/measurements/measurement-form.tsx:222 | `join`; its meaning is stated by `Text.JoinSplit` and `Text.SplitJoin` |
| `Text.JoinSplit` | app/admin/measurements/measurement-form.tsx:222 | joining the segments with the separator gives the text back |
| `Text.SplitJoin` | app/admin/measurements/measurement-form.tsx:239 | splitting a join of comma-free strings gives the strings back |
| `Records.ApplyPatch` | lib/services/measurementService.ts:31-37 | `updateDoc` with a partial payload: each supplied field replaces the stored one, and each absent field is kept |
| `Records.FullPatchReplaces` | app/admin/measurements/measurement-form.tsx:86-92 | the form's complete payload, references included, replaces the whole stored data on update |
| `PublicSearch.LowerAll` | app/page.tsx:30 | every search term is lowercased, in place and in order |
| `PublicSearch.Candidates` | app/page.tsx:28-32 | the `searchTerms` array of the filter; its contents are stated by `PublicSearch.CandidatesAt` |
| `PublicSearch.Matches` | app/page.tsx:33 | the `some(... includes ...)` test; its meaning is stated by `PublicSearch.MatchesIff` |
| `PublicSearch.CandidatesAt` | app/page.tsx:28-32 | the candidates are the title, then each search term, then the category, all lowercased |
| `PublicSearch.Filter` | app/page.tsx:27-34 | a record is kept exactly when it is in the list and matches, and the result is no longer than the list |
| `PublicSearch.MatchesIff` | app/page.tsx:27-34 | a record matches iff the lowercased query occurs in its lowercased title, in one of its lowercased terms, or in its lowercased category |
| `PublicSearch.FilterIsSubsequence` | app/page.tsx:27 | `filter` keeps the records' order: the result is a subsequence of the list |
| `PublicSearch.FilterAppend` | app/page.tsx:27 | filtering a concatenation filters each part in turn |
| `PublicSearch.FilterEmptyQuery` | app/page.tsx:33 | the empty query, as on first load, keeps every record |
| `PublicSearch.FilterLowerQuery` | app/page.tsx:33 | the search is case-insensitive in the query |
| `PublicSearch.FilterIdempotent` | app/page.tsx:27-34 | filtering the filtered list again changes nothing |
| `PublicSearch.MatchesOnlyOnTitleCategoryTerms` | app/page.tsx:28-32 | only title, category and search terms decide a match; description, normal value, references and images do not |
| `PublicSearch.LowerKeepsSpaceFree` | app/page.tsx:29-31 | lowercasing does not introduce a space |
| `PublicSearch.SpaceFreeLacksSpace` | app/page.tsx:33 | a candidate without a space does not include `" "` |
| `PublicSearch.SpaceFreeRecordMissesSpace` | app/page.tsx:27-34 | a record with no space in its title, category or search terms does not match `" "` |
| `PublicSearch.SpaceQueryIsNotEmpty` | app/page.tsx:33 | the query is not trimmed: a record with no space in its searched fields is kept by `""` and dropped by `" "` |
| `PublicSearch.Cover` | app/page.tsx:139-156 | a card shows an image iff the record has one, and then it shows the first |
| `PublicSearch.MoreBadge` | app/page.tsx:157-161 | the badge appears iff there are at least two images, and counts all but the first |
| `PublicSearch.CoverAndBadgeAccount` | app/page.tsx:139-161 | the cover and the badge together account for every image |
| `MeasurementService.AsRecord` | lib/services/measurementService.ts:64-67 | a record read back carries the document's id and exactly the stored fields |
| `MeasurementService.Urls` | lib/services/measurementService.ts:47-48 | one storage reference per listed image, in order |
| `MeasurementService.DeleteAttempts` | lib/services/measurementService.ts:46-55 | one `deleteObject` attempt per listed image, for that image's path, in order |
| `MeasurementService.AttemptOneMore` | lib/services/measurementService.ts:47-54 | one more attempt logs one more entry and removes at most that path |
| `MeasurementService.AfterDeletesRemovesAllowed` | lib/services/measurementService.ts:45-55 | attempting every image removes exactly the listed objects the backend allows, and nothing else |
| `MeasurementService.InsertNewestFirst` | lib/services/measurementService.ts:62 | inserting a record keeps the list newest first, one longer, and a permutation of the old list plus that record (same multiset) |
| `MeasurementService.InsertListed` | lib/services/measurementService.ts:62-67 | one step of the listing: with the record of one more document inserted, the list still holds each listed document's record once, newest first |
| `MeasurementService.StoragePath` | lib/services/measurementService.ts:85 | the object path `measurements/{id}/{name}`; its meaning is stated by `MeasurementService.StoragePathInjective` and `MeasurementService.Store.UploadImage` |
| `MeasurementService.SplitAtFirstSlash` | lib/services/measurementService.ts:85 | a `/` after a slash-free id divides the path back into its id and its remainder |
| `MeasurementService.StoragePathInjective` | lib/services/measurementService.ts:85 | two uploads share a path iff they have the same owner id and the same file name |
| `MeasurementService.Store.GetById` | lib/services/measurementService.ts:70-82 | `null` iff there is no document under the id; otherwise the record with that id and the stored fields |
| `MeasurementService.Store.Create` | lib/services/measurementService.ts:20-29 | writes the payload stamped with the two clock readings under a fresh id, returns that id, and `getById` reads the payload back |
| `MeasurementService.Store.Update` | lib/services/measurementService.ts:31-37 | a missing document fails with nothing written; otherwise the patch is merged, `createdAt` is kept and `updatedAt` is set to the writer's clock reading |
| `MeasurementService.Store.UploadImage` | lib/services/measurementService.ts:84-93 | stores the file at `measurements/{id}/{name}`, replacing any earlier file there, and returns it captioned with the file name |
| `MeasurementService.Store.DeleteImage` | lib/services/measurementService.ts:95-98 | succeeds iff an object is stored at the url and the backend allows it; only then is the object removed |
| `MeasurementService.Store.DeleteObjects` | lib/services/measurementService.ts:45-56 | each listed image is attempted in order and its failure swallowed; exactly the stored, allowed paths go, and the documents are untouched |
| `MeasurementService.Store.Delete` | lib/services/measurementService.ts:39-59 | a missing document fails before any write; otherwise each image is attempted in order, failures are swallowed, exactly the allowed objects go, and the document is deleted last |
| `MeasurementService.Store.GetAll` | lib/services/measurementService.ts:61-68 | every document once as a record with its id, newest first, nothing else |
| `MeasurementService.UpdateFromSlowerClock` | lib/services/measurementService.ts:20-37 | each write stamps the writer's own clock, so an edit from a browser whose clock is behind leaves `updatedAt` before `createdAt` |
| `MeasurementService.StrictlyNewestComesFirst` | lib/services/measurementService.ts:62 | the record created strictly last is listed first |
| `IsAdminHook.GrantsAdmin` | lib/hooks/useIsAdmin.ts:21 | the `isAdmin === true` test; its meaning is stated by `IsAdminHook.OnlyTrueGrants` |
| `IsAdminHook.OnlyTrueGrants` | lib/hooks/useIsAdmin.ts:21 | only a field holding the boolean `true` grants the privilege; `"true"`, `1`, an object, a missing field or a missing document do not |
| `IsAdminHook.AdminStatus.constructor` | lib/hooks/useIsAdmin.ts:7-8 | the hook starts as not an administrator and still loading |
| `IsAdminHook.AdminStatus.CheckAdminStatus` | lib/hooks/useIsAdmin.ts:11-28 | the check as it completes: loading ends; the flag is set iff the user has a uid and the lookup succeeds and grants; a lookup happens only for a uid |
| `IsAdminHook.AdminStatus.BeginCheck` | lib/hooks/useIsAdmin.ts:10-31 | corrected effect start: marks loading, so that the flags of a check that has already completed are not read for a new user; it does not stop a lookup still under way from completing later (`AdminRoute.LateLookupAfterSignOut`) |
| `AdminRoute.Navigations` | components/admin/admin-route.tsx:13-23 | nothing while loading; the login redirect iff there is no user; home iff a user is not an administrator; at most one push |
| `AdminRoute.Render` | components/admin/admin-route.tsx:25-40 | a spinner iff loading; the children iff settled and an administrator; nothing otherwise |
| `AdminRoute.SettledGuardNavigatesOrRenders` | components/admin/admin-route.tsx:13-40 | with consistent flags, a settled guard either renders the children or navigates away, never both |
| `AdminRoute.CompletedCheckDecides` | components/admin/admin-route.tsx:25-40 | after a completed check the children show iff the user's document grants the privilege; a user without a uid is sent away |
| `AdminRoute.ChildrenOnlyForCheckedAdmin` | components/admin/admin-route.tsx:36-40 | with flags that describe the current user, the children are shown only to a user with a uid, with no redirect |
| `AdminRoute.SignOutWithStaleFlags` | components/admin/admin-route.tsx:13-40 | as written, after sign-out the children render while the login redirect is pushed |
| `AdminRoute.SignOutWithBeginCheck` | components/admin/admin-route.tsx:25-38 | with the pending check marked, sign-out shows the spinner, then nothing, with the login redirect |
| `AdminRoute.LateLookupAfterSignOut` | lib/hooks/useIsAdmin.ts:18-27 | a lookup is never cancelled: when an administrator's lookup resolves after the sign-out's check, the guard renders the children with no user while pushing the login redirect, even with the pending check marked |
| `MeasurementForm.WithText` | app/admin/measurements/measurement-form.tsx:158-212 | a text input changes its own field and no other |
| `MeasurementForm.Validate` | app/admin/measurements/measurement-form.tsx:29-33 | no errors iff the four required texts are non-empty; each error names an empty field with its message |
| `MeasurementForm.SpacesPassValidation` | app/admin/measurements/measurement-form.tsx:30-33 | `min(1)` counts whitespace: fields holding one space pass |
| `MeasurementForm.AsFormImages` | app/admin/measurements/measurement-form.tsx:61 | the stored images enter the working set in order, with no file attached |
| `MeasurementForm.DefaultValues` | app/admin/measurements/measurement-form.tsx:54-62 | a new record starts empty; an edited one starts from its fields, with missing references as `[]` |
| `MeasurementForm.TrimAll` | app/admin/measurements/measurement-form.tsx:138 | `map(term => term.trim())` trims each element in place |
| `MeasurementForm.ParseList` | app/admin/measurements/measurement-form.tsx:137-145 | one element per comma plus one, each trimmed and comma-free, empty ones kept |
| `MeasurementForm.ParseAtFirstComma` | app/admin/measurements/measurement-form.tsx:138 | the first comma ends the first element, which is trimmed, and the rest parses on its own |
| `MeasurementForm.ParsePaddedDisplay` | app/admin/measurements/measurement-form.tsx:137-145 | whitespace around the shown list does not change what it reads back as |
| `MeasurementForm.DisplayRoundTrip` | app/admin/measurements/measurement-form.tsx:222-223 | a non-empty list of trimmed comma-free terms survives being shown and read back |
| `MeasurementForm.EmptyListReadsBackAsOneEmptyTerm` | app/admin/measurements/measurement-form.tsx:239-240 | an empty list shows as `""`, and reading that back gives one empty term |
| `MeasurementForm.ParsedListIsStable` | app/admin/measurements/measurement-form.tsx:221-224 | what a change stores is shown and read back unchanged |
| `MeasurementForm.Display` | app/admin/measurements/measurement-form.tsx:222 | the shown text `join(', ')`; its meaning is stated by `MeasurementForm.DisplayRoundTrip` and `MeasurementForm.EmptyListReadsBackAsOneEmptyTerm` |
| `MeasurementForm.TrailingSpaceIsDropped` | app/admin/measurements/measurement-form.tsx:137-140 | a space typed at the end of the input is trimmed away and the text is shown without it, so typing `a`, space, `b` at the end gives `ab` |
| `MeasurementForm.WithoutIndex` | app/admin/measurements/measurement-form.tsx:133 | `filter((_, i) => i !== index)`; its meaning is stated by `MeasurementForm.WithoutIndexRemovesOne` and `MeasurementForm.WithoutIndexOutOfRange` |
| `MeasurementForm.WithoutIndexRemovesOne` | app/admin/measurements/measurement-form.tsx:133 | filtering by an index in range drops exactly that entry and keeps the others in order |
| `MeasurementForm.WithoutIndexOutOfRange` | app/admin/measurements/measurement-form.tsx:133 | filtering by an index the list does not have keeps every entry |
| `MeasurementForm.NewEntries` | app/admin/measurements/measurement-form.tsx:121-125 | one entry per picked file, captioned with its name, previewing its local address, and holding the file |
| `MeasurementForm.ExistingImages` | app/admin/measurements/measurement-form.tsx:84 | the entries without a file, as images; its meaning is stated by `MeasurementForm.PartitionAppend`, `MeasurementForm.AllStored` and `MeasurementForm.FinalImagesKeepsCount` |
| `MeasurementForm.PendingFiles` | app/admin/measurements/measurement-form.tsx:80 | the files of the entries that hold one; its meaning is stated by `MeasurementForm.PartitionAppend`, `MeasurementForm.NewEntriesArePending` and `MeasurementForm.FinalImagesKeepsCount` |
| `MeasurementForm.Uploaded` | app/admin/measurements/measurement-form.tsx:81-83 | one image per file, in order: the i-th is stored at the i-th file's path under the owner id and captioned with its name |
| `MeasurementForm.FinalImages` | app/admin/measurements/measurement-form.tsx:84-88 | `[...existingImages, ...uploadedImages]`; its meaning is stated by `MeasurementForm.FinalImagesKeepsCount`, `MeasurementForm.PickedFilesUploadedLast`, `MeasurementForm.StoredEntriesWrittenBack` and `MeasurementForm.NewImageKeepsFileNameCaption` |
| `MeasurementForm.FinalData` | app/admin/measurements/measurement-form.tsx:86-89 | the payload: the form's values with the merged image list; what is written from it is stated by `MeasurementForm.Form.Submit` |
| `MeasurementForm.FinalImagesKeepsCount` | app/admin/measurements/measurement-form.tsx:79-88 | each entry is either stored or pending, so the written list has as many images as the working set |
| `MeasurementForm.PartitionAppend` | app/admin/measurements/measurement-form.tsx:80-84 | both filters keep the entries' order across a concatenation |
| `MeasurementForm.AllStored` | app/admin/measurements/measurement-form.tsx:84 | without picked files every entry is a stored image, in order |
| `MeasurementForm.StoredEntriesWrittenBack` | app/admin/measurements/measurement-form.tsx:84-89 | without picked files the written list is the working set, edited captions included |
| `MeasurementForm.NewEntriesArePending` | app/admin/measurements/measurement-form.tsx:79-81 | entries from picked files are all pending, in the order picked |
| `MeasurementForm.PickedFilesUploadedLast` | app/admin/measurements/measurement-form.tsx:79-88 | newly picked files are written after every stored image and after earlier pending files |
| `MeasurementForm.NewImageKeepsFileNameCaption` | app/admin/measurements/measurement-form.tsx:79-88 | a caption typed on a pending image is lost: the stored caption is the file name |
| `MeasurementForm.Owner` | app/admin/measurements/measurement-form.tsx:65-72 | uploads go under the record's id when it has a truthy one, and under the temporary id otherwise |
| `MeasurementForm.UploadPending` | app/admin/measurements/measurement-form.tsx:79-83 | one image per pending file, in order; each file is stored at its path under the owner id with one upload write; documents are untouched |
| `MeasurementForm.SaveRecord` | app/admin/measurements/measurement-form.tsx:91-103 | when editing, updates the record, or fails with nothing written when it is missing; otherwise creates it under a fresh id; storage is untouched |
| `MeasurementForm.Form.constructor` | app/admin/measurements/measurement-form.tsx:49-63 | the form opens on the default values, not submitting |
| `MeasurementForm.Form.EditText` | app/admin/measurements/measurement-form.tsx:158-212 | a text input sets its field only |
| `MeasurementForm.Form.HandleSearchTermsChange` | app/admin/measurements/measurement-form.tsx:137-140 | the search terms become the parsed input; nothing else changes |
| `MeasurementForm.Form.HandleReferencesChange` | app/admin/measurements/measurement-form.tsx:142-145 | the references become the parsed input; nothing else changes |
| `MeasurementForm.Form.HandleFileChange` | app/admin/measurements/measurement-form.tsx:117-129 | the picked files are appended after the current entries; an empty selection changes nothing |
| `MeasurementForm.Form.RemoveImage` | app/admin/measurements/measurement-form.tsx:131-135 | drops the entry at the index, keeps the rest in order; an index out of range changes nothing |
| `MeasurementForm.Form.EditCaption` | app/admin/measurements/measurement-form.tsx:272-276 | only that entry's caption changes |
| `MeasurementForm.Form.Submit` | app/admin/measurements/measurement-form.tsx:74-115 | invalid values write nothing. Otherwise every pending file is uploaded under the owner id, in order. Then the record is updated or created with the stored images followed by the uploads. A failed update leaves the uploads in place. `isSubmitting` ends false |

## Left out

- The download url of an upload is modelled as its storage path. `getDownloadURL` and the resolution of a url back to a storage reference are not modelled.
- `Timestamp.now()` reads the clock of the browser that issues the write. Each reading is a parameter with no constraint: the program orders no reading against another, across writes or across machines, so `updatedAt >= createdAt` is not guaranteed (`MeasurementService.UpdateFromSlowerClock`). `Date.now()` is the `tempId` parameter.
- The id the document store assigns is the `newId` parameter, required to be unused.
- MeasurementForm.Form.Submit: the source reads `Date.now()` once per upload. The model uses one temporary id per submission, so it does not capture files of one submission landing in different folders when the millisecond changes between calls.
- `Promise.all` runs the uploads, and the image deletions, concurrently. The model runs them one after the other in list order. Two pending files with the same name therefore end with the later one stored; concurrently, either could win.
- Upload failures are not modelled: every `uploadBytes` succeeds. A failed `addDoc` is not modelled either. A failed `updateDoc` on a missing document is modelled.
- Read failures are not modelled: `getDoc` and `getDocs` always succeed, so `GetById` and `GetAll` always answer and `Delete` fails only for a missing document.
- Write failures for other reasons (the network, security rules) are not modelled, except for `deleteObject`, which is refused for the paths in `denied`.
- `console.error` logging, toasts and `onClose` are not modelled; the outcome of `Submit` stands for them.
- `toLowerCase` folds only the ASCII letters A-Z. Unicode case mapping is not modelled.
- Zod's `min(1)` counts UTF-16 code units; the model counts characters.
- `getAll`: Firestore breaks ties in `createdAt` by document id. The model leaves the order of records with equal `createdAt` open.
- A stored document without an `images` field is represented by an empty image list. `delete` then skips the deletions, as the `if (measurement.images)` test does.
- `getById` spreads the data after the id. The stored data has no `id` field in this model, so no stored field can override the id.
- The caption edit mutates the image object in place, which can alias other holders of the same object. The model updates a value.
- The debounce of the query (300 ms), the `isSearching` flag and its timer, the list loading hook, and the page layout are not modelled.
- IsAdminHook.AdminStatus.CheckAdminStatus: the awaited `getDoc` (lib/hooks/useIsAdmin.ts:20) is modelled as one step applied when the lookup resolves. Nothing cancels a lookup still under way when the user changes, so a late lookup for an earlier user can set the flags after the check for the current one. `AdminRoute.LateLookupAfterSignOut` shows this; `BeginCheck` does not prevent it.
- React's effect scheduling is modelled by the order of calls in `AdminRoute.SignOutWithStaleFlags`, `AdminRoute.SignOutWithBeginCheck` and `AdminRoute.LateLookupAfterSignOut`. The router and `useUser` are parameters.
- The sign-in pages, the admin list page, the record detail page and the Firebase setup are not part of this model.
- The disabled Save button while `isSubmitting` is true is not modelled.

## Findings

| source | as written | input that shows it | evidently intended | confidence | as-written member | corrected member |
|---|---|---|---|---|---|---|
| lib/hooks/useIsAdmin.ts:10-31 | the effect that reruns when the user changes never sets `isLoading` back to true, so the flags of the previous user are kept until the new check completes | an administrator's check completes, then the user signs out: `AdminRoute` renders with no user but `isLoading = false` and `isAdmin = true`, so it renders the children while pushing the login redirect | mark the check as pending when the user changes, so that the guard shows the spinner until the flags describe the current user (ignoring a lookup that resolves after the user changed is a further step, not modelled) | medium; not executed | `AdminRoute.SignOutWithStaleFlags` | `IsAdminHook.AdminStatus.BeginCheck` |
