# Meropenem dispensing tracker — verified model

This project models the bookkeeping core of the meropenem dispensing tracker (`app.js`). A pharmacist fills in a dispensing form. The form is validated and becomes a record, and the record is saved in the browser's object store and in the in-memory `records` cache. It starts out Pending, and a successful push to the spreadsheet endpoint marks it Synced. The record list, the statistics, the pending banner, the diagnosis and gender charts and the CSV export are all derived from the cache.

The model is written in Dafny, one module per component:

- `Base` (base.dfy): an option type and timestamps.
- `Text` (text.dfy): the JavaScript string operations the core relies on:
  - `trim` with the ECMAScript white-space set;
  - ASCII `toLowerCase` and `includes`;
  - `join`;
  - integer rendering and parsing;
  - the one-decimal rendering of half-gram amounts (`toFixed(1)`).
- `Dispensation` (dispensation.dfy):
  - the record, and dose totals counted exactly in half-grams (`2*q1g + q05g`);
  - the shallow merge performed by `updateRecord`;
  - the list filters every view is built from.
- `Validation` (validation.dfy): the eight form rules, checked in order by a method that pushes onto `errors`, and the record `getFormData` builds.
- `Store` (store.dfy): a class `RecordStore` with three fields:
  - the object store, as a map from key to record;
  - the key generator, which starts at 1;
  - the `records` cache.

  `Add`, `Update`, `Delete` and `Load` change those fields in place. A class invariant ties the cache to the store; a store opened at start-up meets only the weaker `Opened`, until `Load` fills the cache.
- `Sync` (sync.dfy):
  - the row sent to the spreadsheet;
  - pushing one record;
  - the sync-all loop, which takes the push outcome from an oracle;
  - the submit flow.
- `Views` (views.dfy):
  - statistics and the pending banner;
  - status/search filtering and newest-first sorting;
  - the diagnosis and gender tally loops.
- `Export` (export.dfy): the CSV text built line by line, and a CSV field count that shows which lines line up with the header.

The network, the clock, the locale date formatter, the device's online state and the success or failure of each database write are not computed by the model. They are inputs: booleans, a `nat -> bool` oracle, or a `Timestamp -> string` function.

## Model

| member | source | states |
|---|---|---|
| Dispensation.HalfGrams | app.js:429-433 | the half-gram total is exactly twice `q1g + q05g * 0.5` |
| Validation.NewEntry | app.js:407-424 | the record built from a form has a trimmed name, parsed numbers (NaN read as 0), a total computed from the stored vial counts, the creation time, and Pending state |
| Validation.ValidateForm | app.js:351-402 | the errors pushed are exactly the failing rules in source order, and `isValid` holds iff no error was pushed |
| Validation.ValidatePatient | app.js:364-378 | the first four checks (name, age, gender, diagnosis) push their messages in order |
| Validation.ValidateTreatment | app.js:380-396 | the last four checks (allergy test, frequency, duration, amount) append their messages in order |
| Validation.ErrorsInOrder | app.js:351-402 | the error list equals the rule list filtered to the failing rules, in order |
| Validation.ValidIff | app.js:354-396 | a form is valid iff the trimmed name is non-empty, age > 0, every choice is made, duration > 0 and the total is non-zero; a name survives trim iff it has a non-white-space character |
| Validation.ErrorIffRuleFails | app.js:364-396 | a rule's message is among the errors iff that rule fails |
| Validation.UnparsedNumbersRejected | app.js:355-362 | an unparsable age, duration or pair of dose fields is read as 0 and rejected |
| Validation.NoFailedRulesIff | app.js:398-401 | no failures iff every rule holds |
| Validation.FirstFailedRule | app.js:465-465 | the first error is the first rule in order that fails |
| Validation.ReportedError | app.js:462-467 | the message shown for an invalid form is that of the first failing rule, all earlier rules holding |
| Validation.NegativeDosePasses | app.js:392-396 | the amount check only asks for a non-zero total, so a negative count passes it |
| Validation.ValidFormGivesCompleteEntry | app.js:407-424 | a valid form yields a record with a name, positive age and duration, every choice made and a non-zero dose |
| Validation.MessagesDistinct | app.js:365-395 | distinct rules have distinct messages |
| Text.TrimStart | app.js:354-354 | strips exactly the leading white space |
| Text.TrimEnd | app.js:354-354 | strips exactly the trailing white space |
| Text.TrimIsInnerSlice | app.js:354-354 | the trimmed name is a slice of the input with only white space cut from each end |
| Text.TrimEdges | app.js:412-412 | a trimmed string neither starts nor ends with white space |
| Text.TrimEmptyIff | app.js:364-366 | trim gives the empty string iff every character is white space |
| Text.TrimIdempotent | app.js:412-412 | trimming twice is trimming once |
| Text.ToLower | app.js:550-550 | lower-casing keeps the length and maps every character |
| Text.Includes | app.js:563-564 | `includes` holds iff the query occurs at some position |
| Text.NatToStringRoundTrip | app.js:827-835 | the decimal rendering of a count reads back as that count |
| Text.IntToStringRoundTrip | app.js:827-835 | the rendering of any integer parses back to it |
| Text.Fixed1RoundTrip | app.js:832-832 | the one-decimal rendering of a half-gram total reads back as that total |
| Text.Fixed1Parts | app.js:832-832 | the rendering is sign, whole grams, a point and 0 or 5 |
| Dispensation.MergeEmpty | app.js:127-128 | merging no updates keeps the record |
| Dispensation.MergeIdempotent | app.js:127-128 | merging the same updates twice is merging them once |
| Dispensation.MarkSyncedEffect | app.js:294-297 | the sync update sets `synced` and `syncedAt` only, and keeps a record well formed |
| Dispensation.Filter | app.js:557-557 | a filter keeps exactly the records that pass |
| Dispensation.FilterKeepsKeyOrder | app.js:167-167 | filtering keeps the order of the remaining records |
| Dispensation.FilterTwice | app.js:557-566 | filtering by one test and then another is filtering by both |
| Dispensation.FilterAll | app.js:552-552 | a filter every record passes keeps the list as it is |
| Dispensation.FilterComplement | app.js:640-641 | the records passing a test plus those failing it are all of them |
| Dispensation.WithoutIdLength | app.js:167-167 | removing a key present once shortens the cache by one, else not at all |
| Store.KeyOrder | app.js:185-202 | `getAll` returns every stored record under an issued key, in ascending key order |
| Store.Unsynced | app.js:207-225 | the corrected pending query lists only Pending stored records, in key order |
| Store.UnsyncedComplete | app.js:207-225 | every Pending stored record is in that list |
| Store.UnsyncedAsWritten | app.js:207-225 | the query as written asks the `synced` index for the key `false` |
| Store.UnsyncedAsWrittenFails | app.js:207-225 | a boolean is not a valid key, so the query as written always fails with a DataError |
| Store.ReplaceEntry | app.js:133-136 | replacing by key keeps the length and changes exactly the entries with that key |
| Store.FindIndex | app.js:133-134 | `findIndex` returns the first position with the key, or -1 iff the key is absent |
| Store.IdsOfReplace | app.js:133-136 | replacing an entry keeps the set of keys and their distinctness |
| Store.IdsOfWithoutId | app.js:167-167 | removing by key removes exactly that key |
| Store.AddKeepsConsistent | app.js:96-102 | a fresh key is unused, and storing under it while prepending to the cache keeps cache and store in agreement |
| Store.ReplaceKeepsConsistent | app.js:129-136 | an update under an existing key keeps cache and store in agreement |
| Store.RecordStore.constructor | app.js:22-23 | an empty store whose key generator starts at 1, and an empty cache |
| Store.RecordStore.Open | app.js:988-999 | at start-up the persisted store, whatever it holds, is opened with an empty cache |
| Store.RecordStore.AllRecords | app.js:185-202 | the stored records in ascending key order, with exactly the store's keys and each with its stored fields; needs only a sound store, not a filled cache |
| Store.RecordStore.CachedIffStored | app.js:23-23 | a key is in the cache iff it is in the store |
| Store.RecordStore.Add | app.js:91-112 | success stores the record under the next key and puts it first in the cache, with nothing else changed; a failed write changes nothing |
| Store.RecordStore.Update | app.js:117-152 | an existing key gets the old record with only the given fields overwritten, in store and cache; a missing key changes nothing |
| Store.RecordStore.Delete | app.js:157-180 | success removes the key from store and cache, keeping the rest in order, and shrinks the cache by one iff the key was there; a failed write changes nothing |
| Store.RecordStore.Load | app.js:230-240 | from any cache, including the empty one at start-up, the cache becomes the stored records in key order and agrees with the store |
| Store.RecordStore.UnsyncedRecords | app.js:207-225 | the corrected pending query: exactly the stored Pending records, with their stored fields, in key order |
| Sync.PayloadOf | app.js:251-264 | the row sent carries the creation time as timestamp and the status `Synced` |
| Sync.PayloadIgnoresSyncState | app.js:251-264 | the row sent does not depend on the record's sync state |
| Sync.SyncRecord | app.js:290-305 | the push reports success iff it does not throw; on success the record gets `synced` and `syncedAt` in store and cache; otherwise nothing changes |
| Sync.PatchFreshlyStored | app.js:294-297 | patching a record just stored is storing the patched record |
| Sync.SyncedDbKeys | app.js:322-329 | pushing records never adds or removes a key |
| Sync.SyncedDbChangesOnlySync | app.js:322-329 | the sync loop changes only the sync fields of any record |
| Sync.SyncedDbMarksDelivered | app.js:322-329 | every record whose push succeeded ends Synced |
| Sync.SyncedDbLeavesUnnamed | app.js:322-329 | a record no successful push named is unchanged |
| Sync.FailedPushLeavesRecord | app.js:322-329 | a record whose push failed is unchanged |
| Sync.AlwaysDeliveredSyncsAll | app.js:310-342 | with the pending query corrected and a transport that always delivers, every push counts and no record is left Pending |
| Sync.AlwaysThrowingChangesNothing | app.js:310-342 | with a transport that always throws, the count is 0 and the store is unchanged |
| Sync.SyncFrom | app.js:310-342 | once the pending query has answered: a query that threw changes nothing; an empty list changes nothing; otherwise each listed record is pushed once in order, successes are counted, and the cache is reloaded |
| Sync.SyncAllAsWritten | app.js:310-342 | as written, the pending query throws, so the run ends in the error branch with store and cache unchanged |
| Sync.SyncAll | app.js:310-342 | with the pending query corrected: no Pending records means nothing changes; otherwise each is pushed once in key order, successes are counted, and the cache is reloaded |
| Sync.PushInOrder | app.js:321-329 | the loop leaves the store as the pushes in order leave it, and counts exactly the successes |
| Sync.Successes | app.js:321-326 | the success count is at most the number of pushes |
| Sync.Submit | app.js:459-513 | an invalid form is rejected with its first error and nothing is stored; otherwise the new Pending record is saved and, when online, pushed |
| Sync.SaveAndPush | app.js:483-496 | a failed save stores nothing; otherwise the record is stored under the next key, put first in the cache, and Synced iff online and the push did not throw |
| Sync.PushNew | app.js:488-496 | pushing the record just saved marks it Synced in store and cache on success; otherwise nothing changes |
| Views.SumHalvesSplits | app.js:639-642 | the total amount is the synced total plus the pending total |
| Views.SumHalvesAppend | app.js:642-642 | the total amount of two lists is the sum of their totals |
| Views.StatsOf | app.js:638-653 | total is the record count, synced + pending = total, and the amount is the sum over all records |
| Views.PendingBanner | app.js:678-689 | the banner shows iff some record is Pending, and then shows the pending count |
| Views.Insert | app.js:569-569 | insertion adds exactly one record to the list |
| Views.InsertKeepsOrder | app.js:569-569 | inserting into a newest-first list keeps it newest first |
| Views.SortNewestFirst | app.js:569-569 | the sort yields a newest-first permutation of its input |
| Views.SortKeepsRecords | app.js:569-569 | the sort keeps the length and exactly the same records |
| Views.ByStatus | app.js:555-558 | the status filter keeps exactly the records with the chosen state |
| Views.BySearch | app.js:561-566 | the search keeps exactly the records whose name or diagnosis includes the query, or all of them for an empty query |
| Views.Displayed | app.js:548-569 | the table shows, newest first, exactly the records passing the status filter and the search, each as often as the cache holds it |
| Views.NarrowedIsFilter | app.js:552-566 | the status stage then the search stage keep, in order, exactly the records passing both tests |
| Views.ShowAll | app.js:549-569 | with status `all` and no query, every record is shown |
| Views.CountWhereAll | app.js:756-762 | a count equals the length iff every record qualifies |
| Views.CountWherePositive | app.js:705-707 | a count is positive iff some record qualifies |
| Views.SumOverIncrement | app.js:706-706 | adding one to a listed counter adds one to the sum of the counters |
| Views.DiagnosisCounts | app.js:702-707 | one counter per diagnosis present, each counting its records, and all summing to the number of records |
| Views.TallyOne | app.js:705-707 | the callback adds one to the record's diagnosis, creating the counter at 1 |
| Views.TalliedAll | app.js:702-707 | a finished tally has distinct keys, exactly the diagnoses present, exact counts and the record count as sum |
| Views.GenderCountsSum | app.js:756-762 | the three gender counts add up to the number of records with one of those genders |
| Views.CountGender | app.js:758-762 | the callback counts the record's gender when it is a chart key and skips it otherwise |
| Views.GenderCounts | app.js:755-762 | exactly the three chart genders, each counted exactly; the sum is at most the record count, and equal to it iff every record has one of the three genders |
| Export.ScanAppend | app.js:825-837 | scanning a concatenation for fields is scanning one part, then the other |
| Export.PlainIsOneField | app.js:825-837 | a value without commas or quotes is one field |
| Export.QuotedIsOneField | app.js:826-829 | a quoted value without quotes is one field |
| Export.JoinFields | app.js:825-837 | joining n single fields with commas gives n fields |
| Export.IntIsPlain | app.js:827-835 | a rendered integer is one field |
| Export.AmountIsPlain | app.js:832-832 | a rendered amount is one field |
| Export.RowTail | app.js:826-836 | the ten columns after the date, the status reading `Synced` or `Pending` from the sync flag, each one field for a CSV-safe record |
| Export.RowAsWrittenFields | app.js:825-837 | as written, a row has ten field separators plus one per comma in the formatted date |
| Export.ThreePartDate | app.js:908-919 | a date formatted as three comma-separated parts contains two commas |
| Export.RowAsWrittenMisaligned | app.js:824-838 | with an en-US date such as "Oct 18, 2026, 04:18 PM", a row as written has 13 fields |
| Export.RowFields | app.js:824-838 | with the date quoted, a row has as many fields as the header |
| Export.HeaderFields | app.js:820-822 | the header line has 11 fields |
| Export.CsvLines | app.js:822-838 | the export is the header followed by one row per record, in cache order, with the date bare (as written) or quoted |
| Export.TerminatedNewlines | app.js:822-837 | every line is newline-terminated, one newline per line |
| Export.ExportCsv | app.js:814-838 | as written: no records gives no export; otherwise the text is the header line and one row per record with the date bare, each newline-terminated |
| Export.ExportCsvQuoted | app.js:814-838 | the corrected export: the same text with the date quoted |
| Export.BuildCsv | app.js:822-838 | the `csv +=` loop builds exactly the terminated lines |
| Export.ExportAsWrittenMisaligned | app.js:820-838 | as written, with the en-US date, the header line has 11 fields and every record line 13 |
| Export.ExportLinesAligned | app.js:820-838 | for CSV-safe records, every line of the corrected export has the header's 11 fields |

## Left out

- IndexedDB plumbing (`initDB`, `getDB`, transactions, request callbacks) is not part of this model. The object store is a map plus a key generator, and whether a write succeeds is an input.
- The `fetch` POST in `no-cors` mode and the JSON serialisation are network I/O. Only the push's outcome (whether it threw) is an input. The 500 ms pause between pushes and the toasts are timing and display only.
- All DOM work is left out: reading form fields (the form arrives as values), generating table and chart HTML, `showPage`, `showToast`, event wiring, the connection indicator. `navigator.onLine` is an input to `Submit`.
- The clock (`new Date().toISOString()`) is an input timestamp. Timestamps are abstract `nat`s, so the date parsing in the newest-first sort is not modelled.
- `formatDate`'s locale formatting is a function parameter of the export. The misalignment finding uses one sample en-US output.
- Validation.NewEntry: `parseInt`'s character scanning is not modelled. Each numeric field arrives already parsed (`None` for NaN), and `|| 0` is applied to it.
- Text.ToLower: lower-cases ASCII letters only. Unicode case mapping is not modelled.
- Store.RecordStore.Update: the source does not await the inner `put`, and a failing `put` is only logged. The model completes the update at once and assumes the `put` succeeds.
- Views.SortNewestFirst: the browser's sort algorithm, and so the relative order of records with equal timestamps, is not modelled. The contract states only order and permutation.
- Views.DiagnosisCounts: the chart's descending sort of the counts, the maximum used for bar widths and the percentages (floating point) are left out.
- Views.GenderCounts: the percentages and bar widths are left out.
- Sync.SyncAll: models `syncAllRecords` with its pending query corrected; the program as written never gets past that query, which Sync.SyncAllAsWritten states.
- Sync.AlwaysDeliveredSyncsAll: holds for the corrected run only; as written no record is ever pushed.
- Export.ExportCsvQuoted: the quoted date column is the correction, not what the source writes; Export.ExportCsv is the export as written.
- Numbers are unbounded integers, while JavaScript numbers are doubles: above 2^53 `parseInt` and `q1g + q05g * 0.5` round, and from 1e21 on `String(n)` and `toFixed(1)` switch to exponent notation. Text.IntToString, Text.HalvesToFixed1 and Dispensation.HalfGrams do not model either.
- Export.ExportCsv: the field-count properties assume CSV-safe values, meaning names and diagnoses without double quotes and other columns without commas or quotes. The source does not escape quotes.
- Export.ExportCsv: the Blob, the object URL and the download link are left out.
- `updateDashboardStats` repeats `updateStats`' computation and is covered by Views.StatsOf. `updateTotalAmount` is the same sum as `calculateTotalAmount`.

## Findings

| source | as written | input that shows it | evidently intended | confidence | as-written member | corrected member |
|---|---|---|---|---|---|---|
| app.js:207-225 | `getUnsyncedRecords` queries the `synced` index with `getAll(false)`. A boolean is not a valid IndexedDB key, so the `getAll(false)` call itself throws a DataError before any request exists; `getUnsyncedRecords` rethrows it, and `syncAllRecords` always ends in its error branch. | any store, for example one Pending record with key 1 | list the stored records whose `synced` is false | not executed | Sync.SyncAllAsWritten | Sync.SyncAll |
| app.js:824-838 | The date column is the unquoted en-US `toLocaleDateString` output, which contains commas, so each data row splits into more fields than the 11-field header. | a record created on 18 October 2026 at 16:18, formatted "Oct 18, 2026, 04:18 PM": its row has 13 fields | quote the date like the name and diagnosis, so each row has 11 fields | not executed | Export.ExportAsWrittenMisaligned | Export.ExportLinesAligned |
