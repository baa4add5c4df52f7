# UB TreeTrack plant records, in Dafny

A model of the parts of UB TreeTrack, a plant catalogue, that have behaviour worth stating:

- the server actions that create, edit, delete and rate plant records and attach QR codes;
- the add-plant form: its field checks, its common-names parser, and its
  upload → insert → navigate submission sequence;
- the monthly plant trend report.

Every action is a pure transition `(world, caller, arguments, oracle) → (response, world')`.
The world holds:

- the four tables: `plants` as a map, `qr_codes` and `ratings` as sequences of rows in
  insertion order, and `administrators` as a map from admin id to edit counter;
- the set of hashes the image host still serves;
- a trace of every side effect in order: row writes, image-delete requests, cache
  revalidations.

The oracle decides everything the code cannot know in advance:

- which store call fails;
- the id the store gives a new row;
- which of a plant's QR rows the unordered QR lookup lists first;
- what the image host answers to a delete request;
- the clock.

Ordering promises ("the row is written before the old image is deleted") are stated on the
trace.

Modules:

- `Wrappers`: `Option`.
- `Store`: rows, world, oracle, response envelope, trace views.
- `Actions`: `actions/index.ts`.
- `ActionProperties`: ordering, framing and invariants across actions.
- `CommonNames`: split, trim and join.
- `AddForm`: `components/add-form.tsx`.
- `TrendReport`: `app/reports/plant-qr-trend/page.tsx`.

Three facts about the code that are easy to assume otherwise:

- Creating a plant does not upload the image. The form uploads it, and the action only inserts
  the row. The action then revalidates only `/plants`, not the new plant's page.
- An edit of a plant id with no row is not an error. The store's `update … eq` touches no row
  and reports success, so the action goes on to the counter step.
- A rating is stored with no range check.

## Model

| member | source | states |
|---|---|---|
| Actions.DeleteImage | actions/index.ts:164-180 | The host is asked to delete exactly one hash and no table changes. The host loses at most that hash, and only when it answers success. A negative answer leaves the host as it was, and the call never fails when the host answers with JSON. |
| Actions.AddEntry | actions/index.ts:9-60 | Without a signed-in user it fails with "User not authenticated" and the world is unchanged. It succeeds exactly when the insert goes through with a fresh id, adding one plant row: owner = caller, photo link and hash = the supplied ones. All other rows are kept. It returns `plantId` and `redirectUrl = "/plant/" + id` and appends the insert and then the revalidation of `/plants`. On failure nothing changes. |
| Actions.AddQrEntry | actions/index.ts:63-104 | Refuses a signed-out caller with the world unchanged. On success it appends exactly one QR row built from the arguments, touches no other table, and revalidates nothing. On failure nothing changes. |
| Actions.DeleteEntry | actions/index.ts:107-161 | Refuses a signed-out caller. A failed QR lookup reports a store error with the world unchanged: no plant row goes, no image is requested, and the trace is as it was. A plant with no QR rows fails with "QR codes not found for the given plant ID" and leaves the rows and the host untouched. Otherwise it first asks the host to delete the image of the QR row the lookup lists first, which may be any of the plant's QR rows. Then, if the plant delete goes through, it removes exactly that plant row and revalidates `/plants`. If the delete fails, the image request stays and the plant row stays. QR rows are never touched. |
| Actions.Revise | actions/index.ts:206-239 | The edited row takes the new name, common names, description and modification time. It takes the new photo link and hash exactly when both are non-empty, and otherwise keeps the old ones. Owner and creation time are kept. |
| Actions.WriteRow | actions/index.ts:206-239 | The row write of an edit: only the edited plant row changes. With a new image, the old hash's delete request follows the write; without one, the host is untouched. |
| Actions.UpdateEntry | actions/index.ts:183-274 | Refuses a signed-out caller. A failed row write leaves the world unchanged, with no image request and no counter change. It succeeds exactly when the row write, the counter read (the caller must have an admin row) and the counter write all go through. Success bumps only the caller's counter, by one, redirects to `/plant/{id}`, and revalidates the detail page and then `/plants`. A counter failure leaves the row rewritten and the counter unchanged. |
| Actions.AddRating | actions/index.ts:277-303 | Needs no sign-in and checks no range. On success it appends one rating row with the given value, revalidates the plant's page, and changes no other table or the host. |
| Store.QrRowsOf | actions/index.ts:121-124 | The lookup `select … eq("plant_id", plantId)` returns exactly the QR rows of that plant: every row it returns is a QR row of the plant, and every QR row of the plant is returned. |
| ActionProperties.DeleteOrdersImageBeforeRow | actions/index.ts:130-156 | After a successful delete, the image-delete request for the hash of the QR row the lookup listed first comes before the plant-row delete. No other image is requested, only `/plants` is revalidated, and the QR table is unchanged. |
| ActionProperties.UpdateTrailDeletes | actions/index.ts:206-239 | An edit's effects ask for the old image's deletion exactly when a new image came with it, and then strictly after the row write. |
| ActionProperties.UpdateTrailRevalidations | actions/index.ts:267-268 | An edit revalidates the detail page and `/plants` exactly when its counter write went through, and nothing otherwise. |
| ActionProperties.UpdateTrailEditWrites | actions/index.ts:252-256 | An edit's effects write the caller's counter once when the counter step went through, and never write anyone else's. |
| ActionProperties.UpdateDeletesOldImageAfterWrite | actions/index.ts:206-223 | An edit with a new image whose row write succeeded requests deletion of the old hash, only that hash, and only after the row write. |
| ActionProperties.UpdateWithoutImageDeletesNothing | actions/index.ts:224-239 | An edit without a new image, or whose row write failed, requests no image deletion and leaves the host as it was. |
| ActionProperties.UpdateRevalidations | actions/index.ts:267-269 | A successful edit revalidates exactly `/plant/{id}` and `/plants`. A failed one revalidates nothing. |
| ActionProperties.AddEntryRevalidatesListing | actions/index.ts:49 | A successful insert revalidates only `/plants` and requests no image deletion. |
| ActionProperties.UpdateSplitOutcome | actions/index.ts:241-260 | When the counter read or write fails after the row write, the edit reports failure, yet the plant row holds the revised values and no counter moved. |
| ActionProperties.DeleteIgnoresImageVerdict | actions/index.ts:130-131 | Flipping the host's answer to the delete request changes neither the delete's response nor any table. |
| ActionProperties.UpdateIgnoresImageVerdict | actions/index.ts:223 | Flipping the host's answer to the old-image delete changes neither the edit's response nor any table. |
| ActionProperties.SignedOutIsRefused | actions/index.ts:24-26 | `addSupabaseEntry`, `addSupabaseQREntry`, `deleteSupabaseEntry` and `updateSupabaseEntry` each refuse a signed-out caller with "User not authenticated" and leave the world unchanged. |
| ActionProperties.RatingLeavesPlantsAlone | actions/index.ts:281-298 | With the insert going through, a rating succeeds for any caller and any value. It stores exactly the given value and leaves every plant row as it was. |
| ActionProperties.AddEntryEvolves | actions/index.ts:9-60 | Creating a plant keeps the invariant: the trace only grows, the host only loses requested hashes, QR and rating rows are only appended, and counters move only by counter writes. |
| ActionProperties.AddQrEntryEvolves | actions/index.ts:63-104 | Attaching a QR code keeps the invariant. |
| ActionProperties.DeleteEntryEvolves | actions/index.ts:107-161 | Deleting a plant keeps the invariant: a hash leaves the host only after its delete was requested. |
| ActionProperties.UpdateEntryEvolves | actions/index.ts:183-274 | Editing a plant keeps the invariant: the caller's counter grows by exactly the number of counter writes in the new effects. |
| ActionProperties.AddRatingEvolves | actions/index.ts:277-303 | Rating keeps the invariant. |
| ActionProperties.ApplyEvolves | actions/index.ts:9-303 | Any single action keeps the invariant. |
| ActionProperties.RunEvolves | actions/index.ts:9-303 | Any sequence of actions, under any oracles, keeps the invariant. The trace only grows, and the host has lost only hashes some action asked to delete. Each counter ends at its start value plus the counter writes in the new effects. |
| ActionProperties.ApplyCountsEdit | actions/index.ts:241-260 | One action raises an administrator's counter by one exactly when it is a successful edit by that administrator, and otherwise leaves the counter alone. |
| ActionProperties.RunCountsSuccessfulEdits | actions/index.ts:241-260 | After any sequence of actions, each administrator's counter is its start value plus the number of that administrator's edits that reported success. |
| Store.AnyRowMayBeListedFirst | actions/index.ts:121-131 | Every one of the plant's QR rows can be the one the unordered lookup lists first, so the delete contracts cover whichever row the database returns. |
| CommonNames.Split | components/add-form.tsx:80-81 | `split(",")` yields one piece more than there are commas, and no piece contains a comma. |
| CommonNames.JoinSplit | components/add-form.tsx:80-81 | Joining the pieces of a split with the separator gives the original text back. |
| CommonNames.SplitJoin | components/add-form.tsx:80-81 | Splitting the join of comma-free pieces gives the pieces back. |
| CommonNames.TrimStart | components/add-form.tsx:82 | Removes a whitespace-only prefix and leaves a suffix that does not start with whitespace. |
| CommonNames.TrimEnd | components/add-form.tsx:82 | Removes a whitespace-only suffix and leaves a prefix that does not end with whitespace. |
| CommonNames.Trim | components/add-form.tsx:82 | The result neither starts nor ends with whitespace, and the input is the result with only whitespace around it. |
| CommonNames.TrimAddsNothing | components/add-form.tsx:82 | Trimming introduces no character absent from the input. |
| CommonNames.TrimIdempotent | components/add-form.tsx:82 | Trimming twice is trimming once. |
| CommonNames.TrimBlank | components/add-form.tsx:82 | A whitespace-only piece trims to the empty name. |
| CommonNames.ParseCommonNames | components/add-form.tsx:80-82 | One name per comma-separated piece: comma count + 1 names, each the trimmed piece. No name contains a comma or has whitespace at either end. |
| CommonNames.ParseJoin | components/add-form.tsx:80-82 | Names that are already trimmed and comma-free survive a round trip through joining with commas and parsing. |
| CommonNames.EmptyPieceIsKept | components/add-form.tsx:51-53 | `"a,,b"` parses to `["a", "", "b"]`: an empty piece is not rejected, since only the whole field must be non-empty. |
| CommonNames.BlankPiecesTrimToEmpty | components/add-form.tsx:80-82 | `" , "` parses to two empty names. |
| AddForm.Check | components/add-form.tsx:42-65 | A schema check yields a message exactly when it fails. |
| AddForm.ScientificNameErrors | components/add-form.tsx:43-50 | The scientific name is rejected exactly when it is empty or an exact, case-sensitive member of the existing names. |
| AddForm.AcceptedFileLimits | components/add-form.tsx:31-32 | Each of `image/jpeg`, `image/png` and `image/webp` passes at exactly 10485760 bytes and fails at 10485761. `image/jpg`, `image/gif` and an empty type fail at every size. A file that passes still passes when smaller. |
| AddForm.ImageFileErrors | components/add-form.tsx:57-64 | A missing file gives exactly the "required" message. A present file is rejected exactly when its type or its size is not accepted. |
| AddForm.Validate | components/add-form.tsx:42-65 | Each field has messages exactly when its predicate fails. The form passes exactly when the name is new and non-empty, common names and description are non-empty, and an accepted file is present. |
| AddForm.OnSubmit | components/add-form.tsx:76-127 | The insert is attempted exactly when the upload answered ok. It carries the upload's link and hash unchanged and the parsed common names. A failed upload changes nothing and shows the error toast. Navigation happens exactly when the insert succeeded with a redirect URL: to `/plant/{id}` of a row holding the uploaded photo, with the success toast. A failed insert changes no plant row and shows no toast. The form is never left submitting. |
| AddForm.HandleSubmit | components/add-form.tsx:131 | A form that fails validation neither uploads, inserts nor navigates. Any insert it sends has a new, non-empty scientific name and one common name per comma-separated piece. |
| AddForm.SuccessfulInsertNavigates | components/add-form.tsx:106-117 | A successful insert always navigates: the "Redirect URL is undefined" branch cannot be reached. |
| AddForm.FailedInsertOrphansUpload | components/add-form.tsx:86-106 | When the insert fails after a good upload, the uploaded image stays on the host, no plant row is added, and nothing navigates. |
| TrendReport.Fetch | app/reports/plant-qr-trend/page.tsx:24-32 | A failed query yields no rows. Otherwise exactly the records at or after the window start are returned, so every month after the start month, and the start month itself when the window starts at its first instant, keeps its full count. |
| TrendReport.Tally | app/reports/plant-qr-trend/page.tsx:45-55 | The reduce has an entry exactly for the months with records, and each entry is that month's record count. |
| TrendReport.ZeroFilledCounts | app/reports/plant-qr-trend/page.tsx:57-61 | `ChartData`, the zero-fill map, gives the chart one bar per month, in the same order, carrying that month's count, 0 for months without records. |
| TrendReport.TotalCountsEachRecordOnce | app/reports/plant-qr-trend/page.tsx:45-61 | Over distinct months the bar total counts each record at most once, so it never exceeds the number of records. |
| TrendReport.CountIn | app/reports/plant-qr-trend/page.tsx:45-61 | No more records fall in a set of months than there are records. |
| TrendReport.ReportFrom | app/reports/plant-qr-trend/page.tsx:19-61 | Six bars for six consecutive months from the window start's month, as `Months` models the `last6Months` loop (lines 35-42). Each counts the fetched records of its month, and the total is at most the number fetched. |
| TrendReport.Report | app/reports/plant-qr-trend/page.tsx:19-61 | With the window starting at midnight on the first of the month five months back, bar i is month now − 5 + i. It counts exactly the records created in that month, and all bars are 0 when the query failed. The total never exceeds the number of records. |
| TrendReport.CountFrom | app/reports/plant-qr-trend/page.tsx:27 | The records of a month at or after a given instant are at most the whole month's count. They are all of it when the instant is the month's first. |
| TrendReport.WindowStartAsWritten | app/reports/plant-qr-trend/page.tsx:19-21 | The page's window start is in the month five back, on its first day, at the current time of day. |
| TrendReport.ReportAsWritten | app/reports/plant-qr-trend/page.tsx:19-61 | The page as written gives six bars for the current month and the five before it. Bars 1 to 5 count their months exactly, and all bars are 0 when the query failed. The oldest bar counts only the records from the current time of day on its first day onwards, which is at most its month's count. |
| TrendReport.AsWrittenMissesFirstMorning | app/reports/plant-qr-trend/page.tsx:19-21 | At 14:00 on the fifteenth, a plant created at 08:00 on the first of the oldest month is counted by the corrected report but missed by the page as written. |

## Left out

- Store and gateway calls: the Supabase client, the session lookup and the image host's HTTP calls
  are not modelled as I/O. The caller is an `Option` parameter, and every outcome is a field of
  the oracle.
- Actions.DeleteImage: exceptions thrown by `fetch` itself, and a reply that `response.json()`
  cannot parse, are not modelled. The delete is taken to always return a JSON answer. In the code
  either rejection leaves `deleteImgurImage` through the caller's `catch`. `deleteSupabaseEntry`
  then reports failure and keeps the plant row. `updateSupabaseEntry` then reports failure with
  the row already rewritten and the counter not incremented.
- `deleteImgurImage` is itself an exported server action that checks no session and deletes any
  hash it is given. It is modelled only as a step inside the delete and the edit, so nothing
  here states what a direct call can do.
- `console.log`/`console.error` are left out. `revalidatePath` appears only as an event in the
  trace.
- Error messages of store failures are the database's own and are abstracted as one
  `StoreError`.
- `JSON.stringify` of the common names is taken as an injective encoding and stored as the list
  itself.
- Creation and modification timestamps come from the oracle's clock. In the report, a date is
  its month key `year * 12 + month` plus the seconds since that month began. Time zones and the
  month-label formatting are not modelled.
- The day overflow of `setMonth` before `setDate(1)` on the 29th–31st is not modelled.
- The lost-update race on the administrator's edit counter is not modelled. The model is
  sequential, so only the single-request read-plus-one is covered.
- Store constraints beyond primary keys (the unique scientific name, foreign keys) are covered
  only as oracle-decided insert failures.
- A `null` edits value on an administrator row is not modelled. Counters are integers.
- The order of the report query's rows is not modelled, because counting does not depend on it.
- The image upload of the add form is a parameter: its `ok` flag, link and hash.
- Rating values are integers. The code accepts any JavaScript number.
- The plant's own photo is never deleted when a plant is deleted, and QR rows are left in place.
  Both are modelled as written. Any store-level cascade is not part of this model.
- React state, toasts' descriptions and the rendered form are out of scope, beyond the toast
  titles, the navigation target and the submitting flag.

## Findings

| source | as written | input that shows it | evidently intended | confidence | as-written member | corrected member |
|---|---|---|---|---|---|---|
| app/reports/plant-qr-trend/page.tsx:19-27 | The window start is "now" with the month moved back five and the day set to 1, but the time of day is kept, and the query keeps records `>=` that instant. | Now is the 15th at 14:00. A plant created at 08:00 on the 1st of the month five months back is excluded, so the oldest bar shows 0 instead of 1. | The window starts at midnight on the first day of that month, so the oldest bar counts its whole month. | medium, not executed | TrendReport.AsWrittenMissesFirstMorning | TrendReport.Report |
