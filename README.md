# ModStack Notes: the notes store, the dashboard and the note card in Dafny

This project models the client-side core of the ModStack Notes web app:

- **The notes store** (`src/utils/localStorage.js`). Each user's notes sit under the key
  `"modstack_notes_" + userId` in the browser's key-value storage, newest first. The store
  reads, saves, adds (by prepending), updates (the first note with the id), deletes (every
  note with the id) and searches (case-insensitive substring match on title or content).
  Every mutation re-reads and rewrites the whole list; reads and searches write nothing. An empty user id makes every
  operation return its sentinel (`[]`, `false` or `null`) and write nothing.
- **The dashboard** (`src/components/Dashboard.jsx`). It keeps the session's copy of the
  user's notes, the filtered view, the creation draft and the search query. Its handlers
  create, delete and update notes through the store. Its two effects (loading, and deriving
  the filtered view) become the explicit methods `Load` and `Recompute`.
- **The note card** (`src/components/NotesCard.jsx`). It is a state machine with three
  flags (modal open, editing, delete confirmation) and an edit buffer. Saving checks that
  the title and then the content are not blank, and calls the dashboard's `onEdit`.
  Deleting calls `onDelete`.

Layout:

| file | module |
|---|---|
| `text.dfy` | `Text`: JavaScript `trim`, `toLowerCase` and `includes` over `seq<char>` |
| `notes_storage.dfy` | `NotesStorage`: `Note`, `Draft`, `Stored`, the list functions, and class `NotesStore` over `storage: map<string, Stored>` |
| `dashboard.dfy` | `DashboardPage`: class `Dashboard` |
| `notes_card.dfy` | `NotesCardView`: class `NotesCard` |
| `scenarios.dfy` | `Scenarios`: client runs of the store and the card |

How the model represents things:

- A missing `user?.sub` is the empty user id `""`; it is the only falsy string.
- Storage values are already parsed: `Parsed(notes)`, or `Corrupt` for text that
  `JSON.parse` rejects. A corrupt value reads as `[]`.
- `Date.now()` and `new Date().toISOString()` are parameters. `AddNote` takes the id and
  its two timestamps separately, because the source reads the clock three times.
- A `setItem` failure, such as an exceeded storage quota, is the parameter `quotaOk`.
  `addNote`, `updateNote` and `deleteNote` ignore `saveNotes`'s result, and the model does
  the same: after a failed save the dashboard's list and storage can disagree. See
  `Dashboard.HandleCreateNote`.
- Fresh ids are not guaranteed by the source. Uniqueness of ids is therefore a premise
  (`!HasId(old(notes), id)`) of the postconditions that preserve `UniqueIds`, not a theorem.
- The card's `onEdit` callback is a function parameter from the sent note to an optional
  note. `onDelete` is represented by the id `ConfirmDelete` returns.

## Model

| member | source | states |
|---|---|---|
| Text.TrimStartShape | src/components/NotesCard.jsx:41 | the result is a suffix of the input; everything removed is whitespace; the result is empty or starts with a non-whitespace character |
| Text.TrimEndShape | src/components/NotesCard.jsx:41 | the result is a prefix of the input; everything removed is whitespace; the result is empty or ends with a non-whitespace character |
| Text.BlankIffAllWhitespace | src/components/NotesCard.jsx:41-49 | `s.trim()` is empty exactly when every character of `s` is JavaScript whitespace |
| Text.Trim | src/components/NotesCard.jsx:41 | `s.trim()` is no longer than `s`; it is empty or starts and ends with a non-whitespace character; a string that already starts and ends with one comes back unchanged |
| Text.IsBlank | src/components/Dashboard.jsx:73 | the empty string is blank; a string whose first or last character is not whitespace is not blank |
| Text.Lower | src/utils/localStorage.js:78-79 | same length; each ASCII upper-case letter becomes the lower-case letter at the same place in the alphabet; every other character is kept; no upper-case ASCII letter is left |
| Text.LowerIdempotent | src/utils/localStorage.js:78-79 | lowercasing an already lowercased string changes nothing |
| Text.Includes | src/utils/localStorage.js:78-79 | a prefix of `s` is included in `s`; a string longer than `s` is not |
| Text.IncludesIffOccurs | src/utils/localStorage.js:78-79 | `includes` holds exactly when the query occurs as a contiguous window of the text (both directions) |
| Text.IncludesEmpty | src/utils/localStorage.js:76-80 | the empty query is included in every string |
| NotesStorage.StorageKeyInjective | src/utils/localStorage.js:1-8 | two user ids give the same storage key only if they are equal |
| NotesStorage.ReadNotes | src/utils/localStorage.js:5-14 | an empty user id reads `[]`; any other read is `[]` or exactly the list parsed from the user's key |
| NotesStorage.ReadMissingOrCorrupt | src/utils/localStorage.js:5-14 | `getNotes` returns `[]` for an empty user id, an absent key or a corrupt value |
| NotesStorage.ReadAfterSave | src/utils/localStorage.js:17-24 | after writing `ns` under a user's key, `getNotes` for that user returns `ns` |
| NotesStorage.SaveIsolation | src/utils/localStorage.js:17-24 | writing one user's notes leaves what every other user reads unchanged |
| NotesStorage.FindIndex | src/utils/localStorage.js:50 | the result is -1 exactly when no note has the id; otherwise it is the first index holding the id |
| NotesStorage.ApplyPatch | src/utils/localStorage.js:52-56 | the patched note keeps the id and `createdAt`, takes the patch's title and content and `updatedAt = now`; the card's copy for `onEdit` (src/components/NotesCard.jsx:51-56) is the same spread |
| NotesStorage.RemoveId | src/utils/localStorage.js:67 | a note survives exactly when it was in the list and has another id; survivors keep their order; an absent id leaves the list as it was; unique ids stay unique |
| NotesStorage.RemoveIdCounts | src/utils/localStorage.js:67 | every copy of a note with another id is kept, and no copy of a note with the id |
| NotesStorage.RemoveIdIdempotent | src/utils/localStorage.js:64-70 | deleting the same id twice gives the same list as deleting it once |
| NotesStorage.Matches | src/utils/localStorage.js:77-79 | a note matches exactly when the lowercased query occurs as a contiguous window of the lowercased title or of the lowercased content |
| NotesStorage.FilterMatching | src/utils/localStorage.js:76-80 | a note is kept exactly when it was in the list and its lowercased title or content includes the lowercased query; kept notes stay in order |
| NotesStorage.FilterCounts | src/utils/localStorage.js:76-80 | every copy of a matching note is kept, and no copy of a note that does not match |
| NotesStorage.FilterEmptyQuery | src/utils/localStorage.js:76-80 | the empty query keeps every note |
| NotesStorage.PrependKeepsIdsUnique | src/utils/localStorage.js:35-41 | prepending a note with an id not yet in the list keeps the ids unique |
| NotesStorage.ReplaceKeepsIdsUnique | src/utils/localStorage.js:50-56 | replacing one entry by a note with the same id keeps the ids unique |
| NotesStorage.ReplaceAllById | src/components/Dashboard.jsx:108-110 | the length is kept; every entry with another id is kept; every entry with the id becomes the new note; a list without the id comes back unchanged |
| NotesStorage.ReplaceAllIsReplaceFirst | src/components/Dashboard.jsx:108-110 | with unique ids, the dashboard's "replace every note with this id" gives the same list as the store's "replace the first note with this id" |
| NotesStorage.NotesStore.GetNotes | src/utils/localStorage.js:5-14 | `[]` with no user; otherwise `[]` or exactly the list parsed from the user's key |
| NotesStorage.NotesStore.SaveNotes | src/utils/localStorage.js:17-29 | succeeds exactly when the user id is non-empty and the write does not fail; on success only the user's key is written and `getNotes` then returns the saved list; on failure storage is unchanged; other users' reads never change |
| NotesStorage.NotesStore.AddNote | src/utils/localStorage.js:32-44 | with no user: `None` and no write; otherwise returns the note with the draft's title and content, the given id and the two clock readings; a successful save stores `[note] + old list`; other users are untouched; a fresh id keeps ids unique |
| NotesStorage.NotesStore.UpdateNote | src/utils/localStorage.js:47-61 | `None`, with no write, exactly when there is no user or no note with the id; otherwise the first note with the id keeps its id and `createdAt`, takes the patch's title and content and `updatedAt = now`; only that entry changes; the length is kept; other users are untouched |
| NotesStorage.NotesStore.DeleteNote | src/utils/localStorage.js:64-70 | returns the stored list with every note of the id removed (`[]` with no user); a successful save stores exactly that list; other users are untouched |
| NotesStorage.NotesStore.SearchNotes | src/utils/localStorage.js:73-81 | `[]` with no user; otherwise the filter of the stored list by `Matches` (so every copy of a match is kept, see `FilterCounts`): exactly the stored notes whose lowercased title or content includes the lowercased query, as an order-preserving subsequence |
| DashboardPage.Dashboard.constructor | src/components/Dashboard.jsx:18-22 | empty lists, empty draft, creation form closed, empty query |
| DashboardPage.Dashboard.Load | src/components/Dashboard.jsx:27-33 | with a user, both `notes` and `filteredNotes` become the stored notes, so the list is synced with storage; with no user nothing changes |
| DashboardPage.Dashboard.Recompute | src/components/Dashboard.jsx:36-45 | a blank query shows `notes`; any other query shows the store's search with the untrimmed query, re-reading storage; with no user nothing changes; when synced, the view is a subsequence of `notes` |
| DashboardPage.Dashboard.SetSearchQuery | src/components/Dashboard.jsx:145 | the query takes the typed value |
| DashboardPage.Dashboard.OpenCreateForm | src/components/Dashboard.jsx:150 | opens the creation form |
| DashboardPage.Dashboard.SetDraft | src/components/Dashboard.jsx:254-268 | the draft takes the typed title and content |
| DashboardPage.Dashboard.CanCreate | src/components/Dashboard.jsx:73 | holds exactly when there is a user and both the draft's title and its content contain a character that is not whitespace |
| DashboardPage.Dashboard.HandleCreateNote | src/components/Dashboard.jsx:72-80 | with no user, or a blank title or content, nothing changes anywhere; otherwise `notes = [created] + old notes`, the draft is cleared and the form closed, and the store is written as `AddNote` says; a successful save keeps the list synced, a failed one leaves it out of sync; a fresh id keeps ids unique |
| DashboardPage.Dashboard.DeleteNote | src/components/Dashboard.jsx:82-87 | with no user nothing changes; otherwise `notes` becomes the store's result (the stored list without the id), whether or not the id existed; after a successful save the list is synced |
| DashboardPage.Dashboard.ResetForm | src/components/Dashboard.jsx:89-92 | closes the form and clears the draft |
| DashboardPage.Dashboard.UpdateNote | src/components/Dashboard.jsx:94-120 | with no user: `None` and no change; otherwise only the title and content are forwarded; `None` exactly when the id is not stored, and then nothing in memory changes; on success every in-memory entry with the id becomes the result and `filteredNotes` is set to the same list; a synced list with unique ids stays synced and unique after a successful save |
| NotesCardView.NotesCard.constructor | src/components/NotesCard.jsx:7-13 | all three flags are false and the buffer holds the note's title and content |
| NotesCardView.NotesCard.ReceiveNote | src/components/Dashboard.jsx:290-297 | a re-render with the same key replaces the `note` prop and keeps the card's state |
| NotesCardView.NotesCard.OpenModal | src/components/NotesCard.jsx:23 | only raises the modal flag |
| NotesCardView.NotesCard.CloseModal | src/components/NotesCard.jsx:24-33 | all three flags are false and the buffer is reset to the note's title and content |
| NotesCardView.NotesCard.HandleEdit | src/components/NotesCard.jsx:35-37 | only raises the editing flag |
| NotesCardView.NotesCard.EditButton | src/components/NotesCard.jsx:115-119 | opens the modal in editing mode without touching the buffer |
| NotesCardView.NotesCard.HandleInputChange | src/components/NotesCard.jsx:92-98 | the named buffer field takes the value and the other field keeps its own |
| NotesCardView.NotesCard.HandleSave | src/components/NotesCard.jsx:39-75 | a blank title is rejected first, then a blank content, with no call and no change; otherwise `onEdit` is called with `ApplyPatch` of the note by the buffer at `now`; a null answer leaves the card unchanged; any other answer closes the card and resets the buffer to the pre-save note |
| NotesCardView.NotesCard.HandleSaveReseeding | src/components/NotesCard.jsx:39-75 | as `HandleSave`, except that a successful save leaves the buffer holding the saved title and content |
| NotesCardView.NotesCard.HandleDeleteConfirm | src/components/NotesCard.jsx:77-79 | only raises the delete-confirmation flag; no data call |
| NotesCardView.NotesCard.ConfirmDelete | src/components/NotesCard.jsx:81-90 | asks for the deletion of exactly the card's note id, then closes the card as `CloseModal` does |
| Scenarios.CreateEditDelete | src/utils/localStorage.js:32-70 | create "A"/"B" for "u1", edit it to "A2"/"B2": the user holds one note with those fields and the original `createdAt`; after the delete the user holds nothing |
| Scenarios.SearchMeetExample | src/utils/localStorage.js:73-81 | among notes titled "Meeting Notes" and "Ideas", both with empty content, "meet" finds only the first and "zzz" finds nothing |
| Scenarios.StaleBufferAfterSave | src/components/NotesCard.jsx:60-70 | with the card as written, after a successful save and a re-render, pressing Edit shows the title from before the save |
| Scenarios.FreshBufferAfterSave | src/components/NotesCard.jsx:60-70 | with the corrected save, the same run shows the saved title and content |

## Findings

| source | as written | input that shows it | evidently intended | confidence | as-written member | corrected member |
|---|---|---|---|---|---|---|
| src/components/NotesCard.jsx:69-70 | After a successful save, `handleSave` calls `closeModal` from its own render. That resets the edit buffer to the `note` prop of that render, which is the note from before the save. The Edit button (lines 115-119) does not reseed the buffer. | A card on `{title: "A", content: "B"}`. Press Edit, change the title to "A2", save with `onEdit` answering the note. The card re-renders with the saved note. Press Edit again: the buffer's title is "A" while the note's title is "A2". Saving again without typing would revert the title. | After a successful save the buffer holds the saved title and content, so editing again starts from what was saved. | medium; not executed | NotesCardView.NotesCard.HandleSave, Scenarios.StaleBufferAfterSave | NotesCardView.NotesCard.HandleSaveReseeding, Scenarios.FreshBufferAfterSave |

## Left out

- JSON text. Storage holds already-parsed lists, so `JSON.stringify`/`JSON.parse` round-tripping is assumed, not proved. Stored text that parses to something other than an array of notes (for example `"null"`) is not modelled.
- `toLowerCase` is modelled on the ASCII letters only; full Unicode case mapping is not.
- Clocks. `Date.now()` and `toISOString()` are inputs. Nothing relates successive readings, so "`updatedAt` increases on every edit" is not stated.
- Side effects that are not state: console logging, the toasts, `framer-motion` animation, all JSX rendering and `formatDate`.
- React scheduling. The effects are the explicit `Load` and `Recompute`; a client must call `Recompute` after changing `notes` or `searchQuery`, as React's re-run of the effect would.
- The `try`/`catch` of the dashboard's `updateNote` and of `confirmDelete`. No modelled callee throws, so the catch branches are unreachable here. An `onEdit` that throws behaves like one that answers null, which the `None` answer covers.
- The card's callbacks are not linked to the dashboard's methods. `onEdit` is an abstract function of the sent note, and `onDelete` is the returned id.
- The in-place `unshift` and index assignment on the loaded array are modelled as sequence values. The array is freshly parsed on every call, so no other holder can observe the mutation.
- The dropdown's outside-click listener, logout and navigation, the landing page, the router (`App.jsx`) and the identity-provider wrapper (`AuthContext.jsx`). The user id is a plain input.
- Several tabs writing the same key (last writer wins).
