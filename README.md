# Counter app — a Dafny model of its logic

The counter app keeps an ordered list of named counters, each with an id, a name and an
integer count. The user adds counters, increments and decrements them, renames them,
reorders them by drag and drop, resets or removes them all, edits the page title, and
exports a report with a summary of the counts. State is persisted in browser storage
through a small adapter that turns every failure into a `{success, data?, error?}`
result, and a reactive binding that loads one key at start-up and writes through on
every update. Confirmations go through a dialog that can be controlled by a prop or
hold its own open state.

This project models that logic and proves what each part promises:

- `wrappers.dfy` — `Option`, standing in for `null`/`undefined`.
- `text.dfy` (`Text`) — JavaScript `trim` (ECMAScript white space and line terminators),
  the decimal rendering of a number in a template literal, `split(sep)[0]`, and the
  edit-commit rule shared by the title and the counter names.
- `counters.dfy` (`Counters`) — the list operations of the home page as functions over
  `seq<Counter>`: add, update by partial patch, delete, find-index, `arrayMove`, the
  drag-end handler, reset all counts.
- `home.dfy` (`Home`) — the page's state as a class: the counter list and title, the title
  editor, and one method per handler, each writing the whole new list.
- `report.dfy` (`Report`) — the report's summary values (number of counters, sum, maximum,
  minimum) and the download file name.
- `local_storage.dfy` (`LocalStorage`) — the storage adapter: JSON values, an encode/decode
  codec, each operation as a function over the stored map and the availability flag, and
  the `Store` class whose methods are proved against those functions.
- `storage_binding.dfy` (`StorageBinding`) — the reactive binding as a class over
  `value`, `error` and `loading`, with its load step and two setters.
- `counter_card.dfy` (`CounterCard`) — one card's editing and deleting state and the
  requests it sends to the page.
- `confirmation_dialog.dfy` (`ConfirmationDialog`) — the dialog's open state in
  controlled and uncontrolled mode.

Modelling choices:

- Ids from `uuidv4()` and the ISO timestamp from `new Date()` are parameters.
- Browser storage is a `map<string, string>` plus an `available` flag that decides the
  availability probe. When storage is available the probe writes and then removes the key
  `__localStorage_test__`, so the model drops that key at every operation. A value stored
  under that key is never read back (`LocalStorage.ProbeKeyNeverReadsBack`).
- `JSON.stringify`/`JSON.parse` are a `Codec` value whose `decode` may fail. Wherever the
  round trip is needed it is a hypothesis, `RoundTrips(codec)`, of the lemma that uses it.
- `arrayMove` belongs to the drag-and-drop library, whose source is not part of this model.
  It is defined as "remove at `from`, insert at `to`" on valid indices.
- `title || "Titulo"` treats the empty title like a missing one (`Home.OrDefault`). Saving
  a blank title restores "Titulo"; Escape restores "Counter X". Both fallbacks are kept as
  the page has them.
- Handlers that invoke callbacks (`onUpdate`, `onDelete`, `onConfirm`, `onCancel`)
  return the requests or callbacks they invoke, in order.

## Model

| member | source | states |
|---|---|---|
| `Counters.AddCounter` | app/page.tsx:63-71 | the result is the old list (absent = empty) followed by one counter with the fresh id, count 0 and the default name for the old length |
| `Counters.DefaultNameCounts` | app/page.tsx:67 | the default name is "Contador " followed by digits that read back as old length + 1 |
| `Counters.AddKeepsIdsUnique` | app/page.tsx:63-71 | with a fresh id, adding keeps ids unique and adds exactly that id |
| `Counters.UpdateCounter` | app/page.tsx:73-82 | same length and order; counters with another id unchanged; matching counters take the patch's present fields and keep the rest |
| `Counters.UpdateUnknownIdIsIdentity` | app/page.tsx:73-82 | updating an id that is not in the list gives back an equal list |
| `Counters.ApplyEmptyPatch` | app/page.tsx:77 | spreading a patch with no fields leaves the counter unchanged |
| `Counters.ApplyIdempotent` | app/page.tsx:77 | spreading the same patch twice gives the same counter as spreading it once |
| `Counters.ApplyThenApply` | app/page.tsx:77 | two successive updates act as one update with both patches merged, the later patch winning field by field |
| `Counters.UpdateKeepsIds` | app/page.tsx:73-82 | a patch without an id keeps every position's id, so unique ids stay unique |
| `Counters.DeleteCounter` | app/page.tsx:84-93 | no survivor has the id; the survivors are a subsequence of the input (order kept) and exactly as many as the non-matching counters |
| `Counters.DeleteUnknownIdIsIdentity` | app/page.tsx:84-93 | deleting an id that is not in the list gives back an equal list |
| `Counters.FindIndex` | app/page.tsx:101-106 | the first position holding the id, or -1 when no counter has it |
| `Counters.ArrayMove` | app/page.tsx:108 | same length, the moved element lands at `to`, and removing it there gives the input with `from` removed |
| `Counters.ArrayMoveShifts` | app/page.tsx:108 | each position of the result: the moved element at `to`, positions between the two indices shifted by one, all others unchanged |
| `Counters.ArrayMovePermutes` | app/page.tsx:108 | the moved list is a permutation of the input |
| `Counters.ArrayMoveInPlace` | app/page.tsx:99-108 | moving an element onto its own index changes nothing |
| `Counters.ArrayMoveUndo` | app/page.tsx:108 | moving back from `to` to `from` restores the input |
| `Counters.HandleDragEnd` | app/page.tsx:95-112 | as written: no write exactly when over.id equals active.id; a write is a permutation; otherwise `arrayMove` is reached with an index of -1 |
| `Counters.DropOutsideReachesMinusOne` | app/page.tsx:99-106 | dropping a listed counter outside every item (over is null) passes newIndex -1 to `arrayMove` |
| `Counters.DragEndAgreesWhenWriting` | app/page.tsx:95-112 | the handler as written writes exactly when the guarded one does, and then the same list: the dragged counter at the target's index, the others in their relative order |
| `Counters.HandleDragEndGuarded` | app/page.tsx:95-112 | with the null guard: writes exactly when both ids are listed and differ, and the write is a permutation with the dragged counter at the target's index and the others in their relative order |
| `Counters.ResetAllCounts` | app/page.tsx:137-144 | same length, order, ids and names; every count 0 |
| `Counters.ResetIdempotent` | app/page.tsx:137-144 | resetting twice equals resetting once |
| `Home.OrDefault` | app/page.tsx:115 | the fallback of a logical or: the title when it is a non-empty string, the fallback for null and for "" |
| `Home.SaveTitle` | app/page.tsx:119-126 | a whitespace-only buffer keeps the title and restores the buffer; otherwise the trimmed buffer becomes the title |
| `Home.Page.constructor` | app/page.tsx:39-51 | the page starts with the bound list and title, not editing, an empty buffer |
| `Home.Page.AddCounter` | app/page.tsx:63-71 | writes the list `Counters.AddCounter` gives, once, and changes nothing else |
| `Home.Page.UpdateCounter` | app/page.tsx:73-82 | writes the updated list once, even for an unknown id |
| `Home.Page.DeleteCounter` | app/page.tsx:84-93 | writes the filtered list once |
| `Home.Page.HandleDragEnd` | app/page.tsx:95-112 | writes nothing when the drop is on the dragged item or outside the list, otherwise writes the moved list once |
| `Home.Page.ResetAllCounts` | app/page.tsx:137-144 | writes the reset list once |
| `Home.Page.RemoveAllCounters` | app/page.tsx:146-148 | writes the empty list once |
| `Home.Page.HandleRequest` | app/page.tsx:299-303 | a card's update request goes to `updateCounter`, its delete request to `deleteCounter` |
| `Home.Page.HandleTitleEdit` | app/page.tsx:114-117 | loads the buffer with the title (or "Titulo") and starts editing |
| `Home.Page.HandleTitleSave` | app/page.tsx:119-126 | title and buffer follow `SaveTitle`; editing ends; the list is untouched |
| `Home.Page.HandleTitleKeyDown` | app/page.tsx:128-135 | Enter saves; Escape restores the buffer to the title or "Counter X" and ends editing; other keys change nothing |
| `Text.SkipBlankForward` | app/page.tsx:120 | `trim`'s front scan: stops at the first character that is not whitespace (or the end), with only whitespace before it |
| `Text.SkipBlankBackward` | app/page.tsx:120 | `trim`'s back scan: stops just after the last character that is not whitespace (or at the front scan's stop), with only whitespace after it |
| `Text.Trim` | app/page.tsx:120-121 | `trim` returns a contiguous slice of the input surrounded only by whitespace, with non-whitespace at both ends |
| `Text.TrimEmptyIffBlank` | app/page.tsx:120 | the trimmed buffer is empty exactly when the buffer is all whitespace |
| `Text.TrimIdempotent` | app/page.tsx:121 | trimming twice equals trimming once |
| `Text.Commit` | components/CounterCard.tsx:37-42 | a blank buffer commits nothing; any other commits its trimmed, non-empty text |
| `Text.NatToDecimal` | app/page.tsx:67 | the decimal rendering is a non-empty digit string with no leading zero |
| `Text.DecimalRoundTrip` | app/page.tsx:67 | reading the rendered digits back gives the number |
| `Text.DecimalInjective` | app/page.tsx:67 | distinct numbers render distinctly |
| `Text.BeforeFirst` | lib/pdfExport.tsx:185 | `split("T")[0]`: the longest prefix without a "T", followed by "T" unless it is the whole string |
| `Report.MaxCount` | lib/pdfExport.tsx:109 | for a non-empty list, some counter's count and at least every count |
| `Report.MinCount` | lib/pdfExport.tsx:110 | for a non-empty list, some counter's count and at most every count |
| `Report.Summarize` | lib/pdfExport.tsx:106-110 | total counters is the length and total count the sum; the empty list gives 0, 0, 0 and the average text "0"; otherwise max and min as above and the average is total over length |
| `Report.TotalBetweenBounds` | lib/pdfExport.tsx:107 | if every count lies in [lo, hi], then n·lo ≤ sum ≤ n·hi |
| `Report.SummaryBounds` | lib/pdfExport.tsx:107-110 | for a non-empty list min ≤ max and n·min ≤ total ≤ n·max |
| `Report.TotalAppend` | lib/pdfExport.tsx:107 | the sum over a concatenation is the sum of the sums |
| `Report.ResetZeroesTotal` | lib/pdfExport.tsx:107 | after resetting all counts the reported sum is 0 |
| `Report.AddKeepsTotal` | lib/pdfExport.tsx:106-107 | adding a counter raises the number of counters by one and keeps the sum |
| `Report.DownloadName` | lib/pdfExport.tsx:185 | the name is the title, "-counters-", the timestamp's text before the first "T", then ".pdf" |
| `Report.DownloadNameOfIsoTimestamp` | lib/pdfExport.tsx:185 | for an ISO timestamp the date part is its first ten characters |
| `Report.SummaryExample` | lib/pdfExport.tsx:106-110 | counts 3 and 5 give 2 counters, sum 8, average 8/2, max 5, min 3 |
| `LocalStorage.Probed` | hooks/localStorage.ts:20-29 | a successful probe leaves the probe key absent and every other entry as it was |
| `LocalStorage.SetOp` | hooks/localStorage.ts:156-169 | available: success with the value as data, the key holds its text (raw string, otherwise encoded), other keys unchanged; unavailable: failure, store unchanged |
| `LocalStorage.GetOp` | hooks/localStorage.ts:171-191 | success exactly when available and the key is present; absent key fails with "Key not found"; a present item comes back decoded, or raw when it does not decode |
| `LocalStorage.RemoveOp` | hooks/localStorage.ts:193-204 | available: success whether or not the key was there, the key is gone, others unchanged; unavailable: failure, store unchanged |
| `LocalStorage.ClearOp` | hooks/localStorage.ts:206-217 | available: success and an empty store; unavailable: failure, store unchanged |
| `LocalStorage.ExistsOp` | hooks/localStorage.ts:219-222 | true exactly when available and the key is stored |
| `LocalStorage.KeysOp` | hooks/localStorage.ts:224-227 | exactly the keys `exists` reports; empty when unavailable |
| `LocalStorage.SizeOp` | hooks/localStorage.ts:229-232 | the number of keys; 0 when unavailable |
| `LocalStorage.SetThenGet` | hooks/localStorage.ts:162-187 | set then get: non-strings (given the codec round trip) and non-JSON strings return as written; a JSON-text string returns parsed |
| `LocalStorage.JsonTextStringReadsBackParsed` | hooks/localStorage.ts:162-187 | the string "42" is stored raw and read back as the number 42 |
| `LocalStorage.ProbeKeyNeverReadsBack` | hooks/localStorage.ts:20-29 | a value set under the probe key reads back as "Key not found" |
| `LocalStorage.UnavailableChangesNothing` | hooks/localStorage.ts:157-232 | unavailable: set, get, remove, clear fail and change nothing; exists is false, keys empty, size 0 |
| `LocalStorage.RemoveIdempotent` | hooks/localStorage.ts:193-204 | removing twice equals removing once, and a following get reports "Key not found" |
| `LocalStorage.Store.Probe` | hooks/localStorage.ts:20-29 | reports availability and leaves the store as `Probed` describes |
| `LocalStorage.Store.Set` | hooks/localStorage.ts:156-169 | new contents and result are those of `SetOp` |
| `LocalStorage.Store.Get` | hooks/localStorage.ts:171-191 | new contents and result are those of `GetOp` |
| `LocalStorage.Store.Remove` | hooks/localStorage.ts:193-204 | new contents and result are those of `RemoveOp` |
| `LocalStorage.Store.Clear` | hooks/localStorage.ts:206-217 | new contents and result are those of `ClearOp` |
| `LocalStorage.Store.Exists` | hooks/localStorage.ts:219-222 | the answer is `ExistsOp` of the old contents |
| `LocalStorage.Store.GetKeys` | hooks/localStorage.ts:224-227 | the answer is `KeysOp` of the old contents |
| `LocalStorage.Store.Size` | hooks/localStorage.ts:229-232 | the answer is `SizeOp` of the old contents |
| `StorageBinding.Binding.constructor` | hooks/localStorage.ts:45-47 | value null, error null, loading true |
| `StorageBinding.Binding.Load` | hooks/localStorage.ts:50-74 | loading ends false on every path; unavailable: error set, value kept, initial value ignored; a stored item is read back (raw if it does not decode); an absent key takes the initial value when given |
| `StorageBinding.Binding.SetStoredValue` | hooks/localStorage.ts:76-101 | failure: value kept, error recorded and returned; success: only this key written as `SetOp` says, value is the new value, error cleared |
| `StorageBinding.Binding.RemoveStoredValue` | hooks/localStorage.ts:103-123 | failure: value kept, error recorded; success: key gone, value null, error null |
| `StorageBinding.WriteThrough` | hooks/localStorage.ts:87-93 | after a successful write, reading the key back yields the written value (for non-strings and non-JSON strings) |
| `StorageBinding.Mount` | hooks/localStorage.ts:41-74 | on mount: unavailable leaves value null with the error set; an absent key yields the initial value with no error |
| `CounterCard.IncrementRequest` | components/CounterCard.tsx:55-57 | an update for this counter's id carrying only count + 1 |
| `CounterCard.DecrementRequest` | components/CounterCard.tsx:59-61 | an update for this counter's id carrying only count - 1, with no lower bound |
| `CounterCard.IncrementThenDecrement` | components/CounterCard.tsx:55-61 | through `updateCounter`, increment then decrement restores the list; the name is unchanged in between |
| `CounterCard.DecrementBelowZero` | components/CounterCard.tsx:59-61 | decrementing a zero count gives -1 |
| `CounterCard.NameSaveRequest` | components/CounterCard.tsx:37-44 | no request for a blank buffer; otherwise only `name := trim(editName)` for this id |
| `CounterCard.Card.constructor` | components/CounterCard.tsx:19-21 | not editing, buffer is the counter's name, not deleting |
| `CounterCard.Card.Rerender` | components/CounterCard.tsx:18-21 | a new counter prop keeps the card's own state |
| `CounterCard.Card.StartEditing` | components/CounterCard.tsx:101 | clicking the name starts editing |
| `CounterCard.Card.Type` | components/CounterCard.tsx:92 | typing replaces the buffer |
| `CounterCard.Card.Increment` | components/CounterCard.tsx:55-57 | returns the increment request and changes no state |
| `CounterCard.Card.Decrement` | components/CounterCard.tsx:59-61 | returns the decrement request and changes no state |
| `CounterCard.Card.HandleNameSave` | components/CounterCard.tsx:37-44 | request as `NameSaveRequest`; a blank buffer is reset to the counter's name; editing ends |
| `CounterCard.Card.HandleNameKeyDown` | components/CounterCard.tsx:46-53 | Enter saves; Escape resets the buffer and ends editing with no request; other keys change nothing |
| `CounterCard.Card.HandleDelete` | components/CounterCard.tsx:63-68 | marks the card deleting and requests deletion of exactly this id |
| `CounterCard.Card.ClickDelete` | components/CounterCard.tsx:134-140 | the button is disabled while deleting, so a card sends at most one delete request |
| `ConfirmationDialog.Dialog.EffectiveOpen` | components/dialogs/ConfirmationDialog.tsx:75 | the prop when controlled, the internal flag otherwise; equal to the internal flag whenever synced |
| `ConfirmationDialog.Dialog.constructor` | components/dialogs/ConfirmationDialog.tsx:38 | the flag starts false and is synced to a non-null prop at mount |
| `ConfirmationDialog.Dialog.SyncEffect` | components/dialogs/ConfirmationDialog.tsx:70-73 | in controlled mode copies the prop into the flag; otherwise changes nothing |
| `ConfirmationDialog.Dialog.Rerender` | components/dialogs/ConfirmationDialog.tsx:70-73 | new props; the flag follows a non-null prop and is kept when the prop becomes null |
| `ConfirmationDialog.Dialog.HandleClickOpen` | components/dialogs/ConfirmationDialog.tsx:40-45 | opens only when uncontrolled and not disabled; otherwise nothing changes |
| `ConfirmationDialog.Dialog.HandleClose` | components/dialogs/ConfirmationDialog.tsx:47-52 | disabled: no callback, flag unchanged; enabled: `onCancel` once, flag false only when uncontrolled |
| `ConfirmationDialog.Dialog.HandleConfirm` | components/dialogs/ConfirmationDialog.tsx:54-58 | `onConfirm` once even when disabled; closes only when uncontrolled |
| `ConfirmationDialog.Dialog.HandleOpenChange` | components/dialogs/ConfirmationDialog.tsx:60-68 | no-op when controlled; uncontrolled `false` behaves as `handleClose`, `true` opens |
| `ConfirmationDialog.ClickThenConfirm` | components/dialogs/ConfirmationDialog.tsx:40-58 | an uncontrolled dialog opens on click and shows closed after one confirm callback |
| `ConfirmationDialog.ControlledIgnoresHandlers` | components/dialogs/ConfirmationDialog.tsx:40-75 | a controlled dialog shows exactly its prop whatever the click and open-change handlers do |

## Findings

| source | as written | input that shows it | evidently intended | confidence | as-written member | corrected member |
|---|---|---|---|---|---|---|
| app/page.tsx:99-108 | the guard `active.id !== over?.id` lets a drop with no target through, and `findIndex` then yields -1 for `newIndex`, which is passed to `arrayMove` | a drag end whose `over` is null, with the first of two counters as `active` | a drop with no target leaves the order unchanged (`if (over && active.id !== over.id)`); the corrected member also writes nothing when either id is missing from the list, instead of handing -1 to `arrayMove` | medium; not executed | `Counters.HandleDragEnd` (with `Counters.DropOutsideReachesMinusOne`) | `Counters.HandleDragEndGuarded` |

## Left out

- `Home.Page.HandleDragEnd`: uses the guarded drag-end rule from the finding above. What `arrayMove` does with an index of -1 depends on the drag-and-drop library, which is not part of this model.
- JavaScript `null` as a stored value: the hook's `value` is `None` before loading and after a removal, but `Some(JNull)` after loading a stored `"null"` or taking a `null` initial or new value, where the source has the same `null` in every case. Nothing in the model depends on telling the two apart.
- `Counters.ArrayMove`: its "remove at `from`, insert at `to`" semantics are assumed; the library's code is not part of this model.
- `Home.Page.SetCounters`: the page's writes through `setCounters` and `setTitle` always succeed here. A failed write is modelled on `StorageBinding.Binding.SetStoredValue` alone. The page and the binding are not connected, because that would need a Counter-to-JSON mapping.
- `LocalStorage.Store.GetKeys`: returns a set. The order of `Object.keys(localStorage)` is engine-defined and not modelled.
- Exceptions thrown by `setItem`, `getItem`, `removeItem`, `clear` or `JSON.stringify` inside the `try` blocks (a full quota, for example) are not modelled. Storage is either reachable or not (the `available` flag), and the error text is always "localStorage is not available".
- `console.warn`/`console.error` in `handleError` and in the export: logging only.
- The JSON encoder and parser: the codec is a parameter, and its round trip is a hypothesis of the lemmas that need it. Decoded values are not checked against the expected shape (the source trusts them too).
- Numbers are unbounded integers. JavaScript's floating-point counts (precision lost beyond 2^53) and non-integer JSON numbers are not modelled.
- The average's `toFixed(2)` on a float division (lib/pdfExport.tsx:108). Only its branch is modelled: "0" for the empty list, otherwise the quotient to be formatted.
- PDF rendering, Blob, object URLs, the download click, `handleExportPDF`'s empty-list early return and the report date line (lib/pdfExport.tsx:112-200, app/page.tsx:150-157): browser and library I/O.
- uuid generation and `new Date()`: the fresh id and the ISO timestamp are parameters.
- The 300 ms `setTimeout` before `onDelete` in the card: the delete request is returned at once.
- React scheduling: effect timing, stale closures in `useCallback`, re-render order. Each handler runs to completion on the state it reads.
- The theme flag and `toggleTheme` with its DOM class toggling (app/page.tsx:159-170), all JSX and styling, `Dialog.tsx`, `layout.tsx`, `AddCounterButton.tsx`, and the drag sensors and collision detection.
- The typed hook wrappers `useLocalStorageString`/`Number`/`Boolean`/`Object` (hooks/localStorage.ts:135-152) only fix the type parameter.
