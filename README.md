# WSI Workboard: a Dafny model of the sync pipeline and the task board

WSI Workboard is a dashboard that turns Gmail messages into tasks on a board
of workflow sections. This project models its logic in Dafny and proves what
that logic promises. The model covers:

- **Task age** (`task_age.dfy`, module `TaskAge`): how many whole days a task
  has been in its current status, the warning and urgent flags, snoozing, the
  card colours, the badge text and the tooltip.
- **Message conversion** (`gmail.dfy`, module `Gmail`):
  - the header map;
  - the choice of body part and the base64url decode;
  - the keyword priority, the 500-character excerpt and the account guess;
  - the client-side merging of per-label listings: the watermark filter, one
    message per id and newest first.
- **The sync run and the board** (`dashboard.dfy`, module `Dashboard`, and
  `sections.dfy`, module `Sections`):
  - `handleSyncGmail`: the choice between the first sync and an incremental
    sync, skipping messages that already have a task, the label choice,
    per-message failures, the counters, the newest-email watermark and the
    final writes to the sync records;
  - `organizeTasks`: filtering, grouping by label, sorting inside a section,
    the default sections and the section order.
- **The sync-state store** (`sync_service.dfy`, module `Sync`): a class over
  a key-value map with one global record and one record per account, plus the
  "time since last sync" text and the sync suggestion.
- **The blocklist** (`blocked_email_service.dfy`, module `Blocklist`): a class
  over a sequence of entries.
- **The task collection** (`task_service.dfy`, module `Tasks`): a class over a
  map from id to stored document, with the defaults applied on read and the
  update rule.
- **The create-task form** (`create_task_dialog.dfy`, module `CreateTask`):
  validation, the trimmed payload, reset on close and the category colours.
- **The shared records and tables** (`types.dfy`, module `Types`).
- **Library behaviour the code relies on** (`text.dfy`, `seqs.dfy`,
  `wrappers.dfy`): ECMAScript `trim` and `\s`, ASCII `toLowerCase`,
  `includes`, decimal formatting, a stable `sort`, `filter`,
  `findIndex`-based deduplication, `slice` and `indexOf`.

Timestamps are integer milliseconds. `Date | null` and optional fields are
`Option`s. The clock is a parameter `now`, and one sync run reads one `now`.

The mail provider is a function from a listing request to a result, which
may be a failure. The active account is an input. So is the set of message
ids whose conversion or task write throws for a reason the model does not
capture. A mail task with no account is a write the model does capture: the
task store refuses a document with an `undefined` field (the app opens it
with `getFirestore(app)` and the default settings, `src/firebase/config.ts:34`),
so such a message is neither imported nor counted.

Firestore collections are modelled as follows:

- The task collection is a map from id to document.
- The blocklist is a sequence of entries.
- New documents get ids from a counter (`Types.DocId`). Two different counter
  values always give two different ids.

On these points the model follows the code's actual behaviour:

- A missing sync record reads as the labels `INBOX`, `IMPORTANT` and
  `STARRED`, not as an empty label set.
- The watermark of a sync is the custom date, else the **global** record's
  newest email time. The account's own record is never consulted.
- A run whose listing throws leaves the account record marked in progress.
  The code does not always finalise it.
- `updateTask` stamps `lastStatusChange` whenever the update carries a
  non-empty label, even when that label is the current one.

## Model

| member | source | states |
|---|---|---|
| TaskAge.WholeDaysIsFloor | src/utils/taskAgeUtils.ts:20 | `Math.floor` of the real quotient is integer floor division by 86400000: whole days elapsed, with the partial day dropped |
| TaskAge.SnoozedIff | src/utils/taskAgeUtils.ts:16 | snoozed iff `snoozeUntil` is set and `now` is strictly before it; at exactly `snoozeUntil` the task is not snoozed |
| TaskAge.DaysSinceAnchor | src/utils/taskAgeUtils.ts:18-20 | the day count is the floor of (now − anchor)/day, with the anchor `lastStatusChange` else `createdAt`; 23 hours gives 0 |
| TaskAge.Thresholds | src/utils/taskAgeUtils.ts:22-24 | warning iff not snoozed and at least one day; urgent iff not snoozed and at least three; urgent implies warning; snoozed implies neither |
| TaskAge.ColourSelection | src/utils/taskAgeUtils.ts:26-39 | exactly one colour pair, chosen in the order snoozed, urgent, warning, default |
| TaskAge.DisplayTextCases | src/utils/taskAgeUtils.ts:51-65 | "Snoozed" iff snoozed; "Today" iff 0 days; "1 day" iff 1 day; any other count, negative included, is its decimal form followed by " days", and the text parses back to the count |
| TaskAge.TooltipCases | src/utils/taskAgeUtils.ts:67-75 | the snooze branch iff snoozed; otherwise the text reports the anchor and the day count that `calculateTaskAge` uses |
| TaskAge.CalculateTaskAge | src/utils/taskAgeUtils.ts:12-49 | `calculateTaskAge`: the day count from the anchor, the two flags and the colours; stated by `TaskAge.DaysSinceAnchor`, `TaskAge.Thresholds` and `TaskAge.ColourSelection` |
| TaskAge.GetAgeDisplayText | src/utils/taskAgeUtils.ts:51-65 | the badge text; stated by `TaskAge.DisplayTextCases` |
| TaskAge.GetAgeTooltip | src/utils/taskAgeUtils.ts:67-75 | the tooltip text; stated by `TaskAge.TooltipCases` |
| Types.PrioritiesTable | src/types/index.ts:45-50 | each priority appears once; the orders strictly decrease down the table (4, 3, 2, 1) and equal the ranks the section sort uses |
| Types.CategoriesTable | src/types/index.ts:52-58 | the table holds every category, each once, five in all |
| Types.OrDefault | src/services/taskService.ts:23-27 | `x \|\| fallback`: the value when it is present and non-empty, else the fallback |
| Types.DocId | src/services/taskService.ts:58-64 | a generated id is all digits and gives back its counter value, so ids from different counter values differ |
| Text.TrimEmptyIff | gmail-task-dashboard/src/components/CreateTaskDialog.tsx:92-102 | `trim()` is empty exactly when the string is all ECMAScript whitespace |
| Text.TrimIdempotent | gmail-task-dashboard/src/components/CreateTaskDialog.tsx:112-115 | trimming twice is trimming once |
| Text.TrimIsSlice | src/services/blockedEmailService.ts:20 | `trim()` is a contiguous slice with only whitespace cut from either side |
| Text.TrimStartCuts | gmail-task-dashboard/src/components/CreateTaskDialog.tsx:112-115 | the leading trim cuts exactly a whitespace prefix |
| Text.TrimEndCuts | src/services/blockedEmailService.ts:20 | the trailing trim cuts exactly a whitespace suffix |
| Text.CompareAntisymmetric | src/components/Dashboard.tsx:159 | the title comparison is antisymmetric and is 0 only for equal strings |
| Text.CompareTransitive | src/components/Dashboard.tsx:159 | the title comparison is transitive |
| Text.ParseNatRoundTrip | src/components/Dashboard.tsx:350 | a count printed in decimal parses back to itself |
| Text.NatToStringInjective | src/components/Dashboard.tsx:350-353 | different counts print differently |
| Text.IntToStringRoundTrip | src/utils/taskAgeUtils.ts:63 | a signed day count printed in decimal parses back to itself |
| Text.MissingCharNotContained | src/services/gmailService.ts:491-496 | `includes` is false when a character of the keyword does not occur in the subject |
| Seqs.SortPermutes | src/components/Dashboard.tsx:123-129 | `sort` rearranges its input: same multiset |
| Seqs.SortSorted | src/components/Dashboard.tsx:147-160 | with a total-preorder comparator, `sort` returns a sequence ordered by it |
| Seqs.SortIdempotent | src/services/blockedEmailService.ts:90 | `sort` leaves an already ordered sequence unchanged |
| Seqs.FilterMembers | src/components/Dashboard.tsx:107 | `filter` keeps a sub-multiset; every kept element passes, and every element that passes is kept |
| Seqs.FilterSortCommute | src/services/blockedEmailService.ts:98-124 | with a stable sort, filtering the sorted list equals sorting the filtered list |
| Seqs.FilterReorder | src/components/Dashboard.tsx:290-326 | filtering two rearrangements of one sequence gives rearrangements of one another |
| Seqs.FilterUnique | src/components/Dashboard.tsx:290-326 | filtering keeps keys distinct |
| Seqs.SortUnique | src/services/gmailService.ts:388-392 | sorting keeps keys distinct and adds no key |
| Seqs.TakeKeeps | src/components/Dashboard.tsx:277-280 | `slice(0, n)` is a prefix: order, distinct keys and membership survive |
| Seqs.DedupBy | src/services/gmailService.ts:389-391 | the `findIndex` filter keeps keys distinct and keeps a sub-multiset; the first element with each key is kept (its order is `Seqs.DedupOrder`) |
| Seqs.DedupOrder | src/services/gmailService.ts:389-391 | the filter keeps input order: the k-th kept element is the input's element at the k-th of strictly increasing positions, each the first position with its key |
| Seqs.TakeSortedRest | src/components/Dashboard.tsx:277-280 | cutting a sorted list keeps min(n, length) elements, and no element left out comes before one kept |
| Seqs.DedupKeepsKeys | src/services/gmailService.ts:412-414 | every key of the input still has an element in the output |
| Seqs.IndexOf | src/components/Dashboard.tsx:148-149 | `indexOf` is −1 iff the value is absent; otherwise it is the position of the first occurrence |
| Seqs.Take | src/components/Dashboard.tsx:280 | at most `n` elements, and the whole sequence when it is short enough |
| Gmail.HeaderMapLookup | src/services/gmailService.ts:430-433 | a lower-cased name is in the map iff some header has that name in any case, and its value is that of the last such header |
| Gmail.HeaderMapLast | src/services/gmailService.ts:430-433 | the header whose value a name maps to has no later header with the same name |
| Gmail.HeaderMap | src/services/gmailService.ts:430-433 | the `reduce` into a map keyed by lower-cased name, later headers overwriting earlier; stated by `Gmail.HeaderMapLookup` and `Gmail.HeaderMapLast` |
| Gmail.ParseHeaders | src/services/gmailService.ts:424-441 | the four named headers looked up in that map; stated by `Gmail.ParseHeadersDefaults` |
| Gmail.ParseHeadersDefaults | src/services/gmailService.ts:435-440 | subject, from, to and date are `''` when no header of that name exists |
| Gmail.UrlToStandard | src/services/gmailService.ts:461 | the `-`→`+`, `_`→`/` rewrite keeps the length, character for character |
| Gmail.UrlToStandardKeepsValues | src/services/gmailService.ts:461 | the rewrite carries each base64url character (section 5 of RFC 4648) to the standard character (section 4) with the same sextet value |
| Gmail.Atob | src/services/gmailService.ts:461 | a successful decode gives three characters per four significant sextets, after whitespace and padding are removed |
| Gmail.AtobRejectsForeign | src/services/gmailService.ts:461 | a character outside the alphabet, other than whitespace or `=`, makes the decode fail |
| Gmail.DecodeSextets | src/services/gmailService.ts:461 | every decoded character is a byte value below 256, three per four sextets |
| Gmail.FirstPlainTextDataIsFirst | src/services/gmailService.ts:450-456 | the part used is the first `text/plain` part with data; the result is `''` iff there is none |
| Gmail.ExtractBodyText | src/services/gmailService.ts:444-470 | the loop chooses the top-level data, else the first plain-text part; the snippet comes back when there is no data or when the decode fails |
| Gmail.BodyText | src/services/gmailService.ts:444-470 | the text `extractBodyText` returns; `Gmail.ExtractBodyText` and `Gmail.FirstPlainTextDataIsFirst` state its cases |
| Gmail.InferPriorityRules | src/services/gmailService.ts:488-497 | each priority is chosen exactly when its keyword rule is the first to match the lower-cased subject |
| Gmail.InferPriority | src/services/gmailService.ts:488-497 | the keyword priority of a subject; stated by `Gmail.InferPriorityRules` |
| Gmail.InferPriorityUrgent | src/services/gmailService.ts:491-492 | an upper-case "URGENT" subject is urgent |
| Gmail.InferPriorityFyi | src/services/gmailService.ts:495-496 | an "FYI" subject is low |
| Gmail.InferPriorityNoKeyword | src/services/gmailService.ts:488 | a subject with no keyword is medium |
| Gmail.Excerpt | src/services/gmailService.ts:505 | at most 503 characters; the body itself when it has at most 500; otherwise its first 500 followed by `...` |
| Gmail.SplitAddressTokens | src/services/gmailService.ts:501 | `split` gives at least one token |
| Gmail.SplitAddressTokensClean | src/services/gmailService.ts:501 | no token holds whitespace, `,`, `<` or `>` |
| Gmail.SplitAddressTokensJoin | src/services/gmailService.ts:501 | the tokens spell the header with its separators removed |
| Gmail.FirstTokenWithAtIsFirst | src/services/gmailService.ts:501 | `find` returns the first token holding `@`, or nothing iff no token holds one |
| Gmail.GuessAccountEmailCases | src/services/gmailService.ts:501 | the explicit account when it is non-empty; else the first To token holding `@`; else undefined |
| Gmail.GuessAccountEmail | src/services/gmailService.ts:501 | the account a mail task gets; stated by `Gmail.GuessAccountEmailCases` |
| Gmail.ConvertMessageToTask | src/services/gmailService.ts:473-514 | never null: a non-empty title (the subject, or "No Subject" when it is empty), the excerpt of the extracted body, the keyword priority, the given label, the message id, the raw From, the subject and the snippet, and the guessed account |
| Gmail.GetMessagesByLabel | src/services/gmailService.ts:301-364 | a listing that succeeds returns at most `maxResults` messages (the Gmail API's promise for one list request) |
| Gmail.CollectedNotOlder | src/services/gmailService.ts:378-382 | with a watermark, nothing collected is older than it (inclusive) |
| Gmail.CollectedBound | src/services/gmailService.ts:406-409 | each label adds at most `maxResults` messages |
| Gmail.CollectAbortsOnFailure | src/services/gmailService.ts:395-398 | a failed listing fails the whole collection |
| Gmail.KeptMembers | src/services/gmailService.ts:379-382 | the client-side filter keeps exactly the listed messages not older than the watermark |
| Gmail.CollectMembers | src/services/gmailService.ts:375-385 | a collection that succeeds holds exactly the messages some label's listing returned that pass the `>= since` filter |
| Gmail.StripPaddingKeeps | src/services/gmailService.ts:461 | dropping the `=` padding keeps every other character in place |
| Gmail.Collect | src/services/gmailService.ts:375-385 | the per-label loop, with the filter when a watermark is given, `None` once a listing fails; stated by `Gmail.CollectMembers`, `Gmail.CollectedNotOlder`, `Gmail.CollectedBound` and `Gmail.CollectAbortsOnFailure` |
| Gmail.UniqueNewestFirst | src/services/gmailService.ts:388-392 | dedup then sort gives one message per id, newest first, all drawn from the input; the first message seen with each id is kept, so every input id is present |
| Gmail.GetNewMessagesSince | src/services/gmailService.ts:367-399 | equals `NewMessagesSince`: `None` iff a listing fails; otherwise newest first, one message per id, none older than the watermark, each listed for some label, and every listed id not older than the watermark present |
| Gmail.NewMessagesSinceFacts | src/services/gmailService.ts:373-394 | the pure result: the same facts, plus: drawn from the collection, and the first message collected with each id kept |
| Gmail.MergedFromListings | src/services/gmailService.ts:375-392 | the merge holds only messages some label listed, and every listed message not older than the watermark has its id in it |
| Gmail.NewMessagesSince | src/services/gmailService.ts:367-399 | the value `getNewMessagesSince` resolves to; stated by `Gmail.NewMessagesSinceFacts` |
| Gmail.NewestFirstIsPreorder | src/services/gmailService.ts:392 | the newest-first comparator is a total preorder |
| Gmail.GetMessagesByLabels | src/services/gmailService.ts:402-421 | the listings merged, one message per id with the first kept, in fetch order (`Seqs.DedupOrder`), at most labels × maxResults; `None` iff a listing fails |
| Dashboard.FindLabelIsFirst | src/components/Dashboard.tsx:300-301 | the label found is the first selected label, in selection order, that the message carries; nothing iff it carries none |
| Dashboard.MessageLabel | src/components/Dashboard.tsx:300-302 | the first matching selected label when it is non-empty, else "Gmail"; never empty |
| Dashboard.Watermark | src/components/Dashboard.tsx:252 | the custom date when given, else the global record's newest email time |
| Dashboard.CandidatesShape | src/components/Dashboard.tsx:251-281 | fails iff a listing fails; newest first, one message per id, drawn from the listings. Incremental: none older than the watermark, and no listed id dropped. First sync: the 50 newest of the deduplicated listing, or all when fewer; none left out is newer than one kept |
| Dashboard.IncrementalCandidates | src/components/Dashboard.tsx:257-263 | with a watermark: fails iff a listing fails; newest first, one per id, drawn from the listings, none older than the watermark, and no listed id dropped |
| Dashboard.BootstrapCandidates | src/components/Dashboard.tsx:270-281 | the first sync: fails iff a listing fails; newest first, one per id, drawn from the listings; the 50 newest of the deduplicated listing, or all when fewer |
| Dashboard.Bootstrap | src/components/Dashboard.tsx:270-281 | the first-sync candidates: 20 per label, merged, deduplicated, newest first, the first 50; stated by `Dashboard.CandidatesShape` |
| Dashboard.Candidates | src/components/Dashboard.tsx:251-281 | the incremental listing with a watermark, else the first sync; stated by `Dashboard.CandidatesShape` |
| Dashboard.Later | src/components/Dashboard.tsx:319-322 | the running maximum: never below the old value or the new time, and it is one of the two |
| Dashboard.ImportAllNext | src/components/Dashboard.tsx:290-326 | the loop after i + 1 messages is one more step after i |
| Dashboard.ImportStep | src/components/Dashboard.tsx:292-322 | one turn of the loop: skip and count an existing message, drop a failing one, import any other; stated through `Dashboard.ImportAllCounts` and `Dashboard.LatestIsMax` |
| Dashboard.ImportAll | src/components/Dashboard.tsx:290-326 | the whole loop from the stored newest time; stated by `Dashboard.ImportAllCounts`, `Dashboard.LatestIsMax` and `Dashboard.OrderIndependent` |
| Dashboard.Unattributed | src/services/gmailService.ts:501 | a message whose task would get no account: no active account and no To token with `@` |
| Dashboard.Refused | src/services/taskService.ts:85-104 | the ids of the candidates whose task write the store refuses for want of an account; added to the failures by `Dashboard.Conclude` |
| Dashboard.ImportAllCounts | src/components/Dashboard.tsx:290-326 | the imported messages are exactly the candidates neither existing nor failing, in order; skipped counts the existing ones; imported + skipped ≤ candidates |
| Dashboard.LatestIsMax | src/components/Dashboard.tsx:285-322 | the final newest time is the maximum of the start and the imported messages' times; skipped or failing messages do not move it |
| Dashboard.LatestUnique | src/components/Dashboard.tsx:285-322 | that maximum is fixed by the start and the set of imported messages |
| Dashboard.OrderIndependent | src/components/Dashboard.tsx:290-326 | any reordering of the candidates imports the same messages, skips as many and ends at the same newest time |
| Dashboard.OneTaskPerMessage | src/components/Dashboard.tsx:293-297 | with unique candidate ids, the imported messages have unique ids, none failing and none matching a snapshot task |
| Dashboard.Report | src/components/Dashboard.tsx:349-356 | "imported" iff something was imported; else "already imported" iff something was skipped; else "up to date", with the matching count |
| Dashboard.ReportTextOne | src/components/Dashboard.tsx:350 | one import is reported in the singular |
| Dashboard.ReportTextMany | src/components/Dashboard.tsx:350 | twelve imports are reported in the plural |
| Dashboard.ReportTextFound | src/components/Dashboard.tsx:352-353 | two skipped messages give the already-imported text |
| Dashboard.ReportTextUpToDate | src/components/Dashboard.tsx:354 | nothing imported or skipped gives the up-to-date text |
| Dashboard.StartedAccount | src/components/Dashboard.tsx:245-249 | the account record at the start: in progress and stamped now, everything else kept |
| Dashboard.FinishedAccount | src/components/Dashboard.tsx:331-344 | at the end: not in progress and stamped in both branches; the newest time and the total move only when there is a newest time |
| Dashboard.FinishedGlobal | src/components/Dashboard.tsx:329-339 | `recordImport` whenever there is a newest time, even with 0 imports; otherwise only the flag is cleared |
| Dashboard.Rewrite | src/components/Dashboard.tsx:330-343 | writing the global key and writing the account key commute, and a second write of the account record replaces the first |
| Dashboard.EmailDocFields | src/components/Dashboard.tsx:299-314 | an imported message's document is an open mail task with the message id, the chosen label, the default category and the run's time |
| Dashboard.AddDocsContents | src/components/Dashboard.tsx:314 | adding the documents keeps every earlier one and uses only fresh ids from the counter |
| Dashboard.AddDocsAt | src/components/Dashboard.tsx:314 | the k-th added document sits under id n + k |
| Dashboard.BeginKeepsWatermark | src/components/Dashboard.tsx:241-252 | marking the run as started does not change the watermark it lists from |
| Dashboard.Begin | src/components/Dashboard.tsx:239-249 | the start of a run: the global record marked and stamped, then the account record; stated by `Dashboard.BeginKeepsWatermark` and `Dashboard.Dashboard.StartSync` |
| Dashboard.Conclude | src/components/Dashboard.tsx:283-360 | the rest of a run: the failure branch, or the loop (with `Dashboard.Refused` among the failures) and the final writes; stated by the `Dashboard.Run…` lemmas |
| Dashboard.SyncRun | src/components/Dashboard.tsx:239-364 | a whole run in write order; stated by `Dashboard.RunFailed`, `Dashboard.RunImportedDocs`, `Dashboard.RunImportedRecords` and `Dashboard.RunNoDuplicates` |
| Dashboard.RunFailed | src/components/Dashboard.tsx:357-360 | a failed listing writes no task and shows the failure; the global record is stamped and cleared; the account record stays in progress |
| Dashboard.RunIsFinish | src/components/Dashboard.tsx:239-356 | a successful run is its start, the message loop from the stored newest time, and its end |
| Dashboard.RunImportedDocs | src/components/Dashboard.tsx:283-356 | the documents of the candidates that are not in the snapshot, not failing and have an account are added, in order, under the next ids; earlier documents are kept; ids stay below the counter; the report gives the counts |
| Dashboard.RunNoDuplicates | src/components/Dashboard.tsx:277-314 | a run never makes two tasks for one message id, nor for a message a snapshot task already has, and every task it makes has an account |
| Dashboard.FinishRecords | src/components/Dashboard.tsx:329-345 | the end writes the finished global record, then the finished account record |
| Dashboard.RunImportedRecords | src/components/Dashboard.tsx:244-345 | after a successful run the global record is stamped and not in progress, its newest time is the max of the old one and the imported times, and its total rises by the number imported; the account record is finished likewise |
| Dashboard.Dashboard.constructor | src/components/Dashboard.tsx:60-63 | the component starts with the given snapshot, no sections, no dialog open, not syncing |
| Dashboard.Dashboard.OrganizeTasks | src/components/Dashboard.tsx:105-164 | the filter, the grouping loop, the push of defaults and the sort leave exactly `Sections.Organize(taskList)` |
| Dashboard.Dashboard.TasksUpdated | src/components/Dashboard.tsx:60-63 | a subscription update stores the snapshot and organises it |
| Dashboard.Dashboard.HandleSyncGmail | src/components/Dashboard.tsx:227-364 | not connected: opens setup and writes nothing; no labels: opens the sync dialog and writes nothing; otherwise the stores end as `SyncRun` describes and the busy flag is cleared |
| Dashboard.Dashboard.RunSync | src/components/Dashboard.tsx:239-364 | ends not busy, with a message shown; leaves the stores and the message `SyncRun` describes |
| Dashboard.Dashboard.StartSync | src/components/Dashboard.tsx:241-249 | the global record is marked and stamped, then the account record |
| Dashboard.Dashboard.ConcludeSync | src/components/Dashboard.tsx:283-360 | the failure branch or the loop and final writes, as `Conclude` describes |
| Dashboard.Dashboard.FetchCandidates | src/components/Dashboard.tsx:251-281 | calls `getNewMessagesSince` with a watermark, else the per-label first-sync loop |
| Dashboard.Dashboard.ImportMessages | src/components/Dashboard.tsx:290-326 | given failures that cover the messages without an account, the loop's tally is `ImportAll`, and the documents are those of the imported messages under consecutive ids |
| Dashboard.Dashboard.ImportNext | src/components/Dashboard.tsx:299-322 | the import branch: one more document and one more import counted |
| Dashboard.Dashboard.ImportMessage | src/components/Dashboard.tsx:299-314 | a message with an account converted and written under the next id |
| Dashboard.Dashboard.FinishSync | src/components/Dashboard.tsx:328-345 | the global record, then the account record, as at the end of a run |
| Sections.SectionIdShape | src/components/Dashboard.tsx:120 | an id holds no whitespace, is no longer than its label, and is the label itself when the label has no whitespace |
| Sections.SectionIdAppend | src/components/Dashboard.tsx:120 | a stretch without whitespace is copied unchanged |
| Sections.SectionIdTwoWords | src/components/Dashboard.tsx:120 | a whitespace run between two words becomes one `-` |
| Sections.SectionId | src/components/Dashboard.tsx:120 | `label.replace(/\s+/g, '-')`; stated by `Sections.SectionIdShape`, `Sections.SectionIdAppend` and `Sections.SectionIdTwoWords` |
| Sections.FollowUpId | src/components/Dashboard.tsx:137 | "FOLLOW UP" gets the id "FOLLOW-UP" |
| Sections.LabelsExact | src/components/Dashboard.tsx:110-116 | the accumulator's keys are exactly the labels of the active tasks, each once |
| Sections.GroupNext | src/components/Dashboard.tsx:111-114 | one more task: its label becomes a key if new, and only its own group grows |
| Sections.GroupAbsent | src/components/Dashboard.tsx:111-113 | a label with no task has an empty group |
| Sections.GroupMembers | src/components/Dashboard.tsx:107-116 | a label's group holds exactly the list's tasks that are active and carry that label |
| Sections.TaskFirstIff | src/components/Dashboard.tsx:123-129 | inside a section, a task may come first iff it has higher priority, or equal priority and is no older |
| Sections.TaskFirstIsPreorder | src/components/Dashboard.tsx:123-129 | the task comparator is a total preorder |
| Sections.TaskCompare | src/components/Dashboard.tsx:123-129 | the in-section comparator: priority descending, then creation time descending; stated by `Sections.TaskFirstIff` |
| Sections.SectionsOf | src/components/Dashboard.tsx:119-130 | one section per label of the active tasks |
| Sections.SectionsOfFacts | src/components/Dashboard.tsx:119-130 | the built sections have distinct titles, one per label of an active task, each built from that label's group |
| Sections.AddDefaultsFacts | src/components/Dashboard.tsx:133-143 | the existing sections stay in front; every default title has a section; only empty sections are added, for titles that had none; titles stay distinct |
| Sections.AddDefaults | src/components/Dashboard.tsx:131-143 | an empty section appended for each default title still missing; stated by `Sections.AddDefaultsFacts` |
| Sections.BoardFacts | src/components/Dashboard.tsx:107-143 | before sorting, there is one section per default title or active label, each built from its group |
| Sections.RankedCompareFlip | src/components/Dashboard.tsx:147-160 | the section comparator is antisymmetric |
| Sections.RankedCompareTransitive | src/components/Dashboard.tsx:147-160 | the section comparator is transitive |
| Sections.RankedCompare | src/components/Dashboard.tsx:147-160 | the section comparator: ranked titles by rank, ranked before unranked, unranked by title; stated by `Sections.RankedCompareFlip`, `Sections.RankedCompareTransitive` and `Sections.PairOrder` |
| Sections.RankedFirstIsPreorder | src/components/Dashboard.tsx:147-160 | ranked order is a total preorder for any list of titles |
| Sections.SectionFirstIsPreorder | src/components/Dashboard.tsx:146-160 | the board's section order is a total preorder |
| Sections.SortKeepsSections | src/components/Dashboard.tsx:147 | sorting the sections neither adds nor drops a section |
| Sections.OrganizeSections | src/components/Dashboard.tsx:105-164 | distinct titles, in section order; one section per default title or active label and no other; each built from its label's active tasks |
| Sections.Organize | src/components/Dashboard.tsx:105-164 | the board `organizeTasks` computes; stated by `Sections.OrganizeSections`, `Sections.OrganizeContents`, `Sections.OrganizePlacesEachTask` and `Sections.OrganizeLayout` |
| Sections.SectionMembers | src/components/Dashboard.tsx:107-130 | a section holds exactly the list's active tasks carrying its title as label |
| Sections.OrganizeContents | src/components/Dashboard.tsx:119-130 | each section's id is its title with whitespace runs replaced; its label is its title; its tasks are all its label's active tasks, each as often as in the list, most pressing and then newest first |
| Sections.OrganizePlacesEachTask | src/components/Dashboard.tsx:107-130 | every active task is in its label's section and in no other; completed and DONE tasks are in none |
| Sections.DoneSectionEmpty | src/components/Dashboard.tsx:107-143 | the DONE section is always present and always empty |
| Sections.DefaultsDistinct | src/components/Dashboard.tsx:133-146 | no default title is listed twice |
| Sections.PairOrder | src/components/Dashboard.tsx:147-160 | in ranked order with distinct titles, a ranked section never follows an unranked one, ranked sections keep the fixed order, and unranked ones go by title |
| Sections.RankedPairsOf | src/components/Dashboard.tsx:147-160 | the pairwise facts hold for every pair of a ranked, distinct-titled list |
| Sections.RanksIncrease | src/components/Dashboard.tsx:148-153 | along the list the ranks strictly rise, and no ranked section follows an unranked one |
| Sections.RankedPlace | src/components/Dashboard.tsx:146-157 | the v-th ranked title sits at position v |
| Sections.RankedFirstPlaces | src/components/Dashboard.tsx:146-157 | with every ranked title present, the ranked sections fill the first places, in the fixed order |
| Sections.LayoutOf | src/components/Dashboard.tsx:146-160 | with every ranked title present, the ranked sections come first, in the fixed order; the others follow, strictly by title, none with a ranked title |
| Sections.OrganizeLayout | src/components/Dashboard.tsx:133-160 | the board shows the eleven default sections first, in the fixed order, then every other section strictly by title |
| Sections.GroupByLabel | src/components/Dashboard.tsx:110-116 | the `reduce` loop: the keys are the labels in first-occurrence order, and each group holds the active tasks with that label, in list order |
| Sections.AddDefaultSections | src/components/Dashboard.tsx:133-143 | the `forEach` loop appends an empty section for each default title still missing, as `AddDefaults` describes |
| Sync.AccountKeysDistinct | gmail-task-dashboard/src/services/syncService.ts:3-12 | an account key never equals the global key, and two accounts' keys are equal iff the accounts are |
| Sync.StatusAt | gmail-task-dashboard/src/services/syncService.ts:10-29 | a read gives the saved record, or the default (no times, not in progress, 0, INBOX/IMPORTANT/STARRED) when the value is missing or unparsable |
| Sync.SaveThenRead | gmail-task-dashboard/src/services/syncService.ts:12-35 | after a save, a read of the same key returns what was saved; other keys read as before |
| Sync.WithProgress | gmail-task-dashboard/src/services/syncService.ts:71-78 | the flag is set; `lastSyncTime` is stamped only when starting; nothing else changes |
| Sync.WithImport | gmail-task-dashboard/src/services/syncService.ts:81-87 | the newest time is set, n is added to the total, the flag is cleared; `lastSyncTime` and the labels are kept |
| Sync.WithCustomSyncFrom | gmail-task-dashboard/src/services/syncService.ts:97-104 | the newest time is set and `lastSyncTime` cleared; nothing else changes |
| Sync.SuggestSyncIff | gmail-task-dashboard/src/services/syncService.ts:107-113 | suggested iff never synced or strictly more than four hours ago |
| Sync.SuggestSync | gmail-task-dashboard/src/services/syncService.ts:107-113 | the suggestion rule; stated by `Sync.SuggestSyncIff` |
| Sync.FloorTwice | gmail-task-dashboard/src/services/syncService.ts:121-123 | flooring minutes to hours to days equals flooring once by the combined unit |
| Sync.TimeSinceCases | gmail-task-dashboard/src/services/syncService.ts:116-129 | "Never" without a sync; otherwise days from one day, hours from one hour, minutes from one minute, else "Just now" |
| Sync.TimeSinceText | gmail-task-dashboard/src/services/syncService.ts:116-129 | the "time since last sync" text; stated by `Sync.TimeSinceCases` and `Sync.AgoPlural` |
| Sync.AgoPlural | gmail-task-dashboard/src/services/syncService.ts:125-127 | the text ends in " ago", and a unit not already ending in "s" takes one iff the count exceeds one |
| Sync.SyncService.constructor | gmail-task-dashboard/src/services/syncService.ts:6 | the store starts as given |
| Sync.SyncService.GetAccountSyncStatus | gmail-task-dashboard/src/services/syncService.ts:10-29 | the account's saved record, else the default; nothing is written |
| Sync.SyncService.GetSyncStatus | gmail-task-dashboard/src/services/syncService.ts:37-59 | the global saved record, else the default |
| Sync.SyncService.SaveAccountSyncStatus | gmail-task-dashboard/src/services/syncService.ts:31-35 | only the account's key changes; it then reads back as saved |
| Sync.SyncService.SaveSyncStatus | gmail-task-dashboard/src/services/syncService.ts:62-68 | only the global key changes; account records read as before |
| Sync.SyncService.UpdateSyncProgress | gmail-task-dashboard/src/services/syncService.ts:71-78 | read, `WithProgress`, save; account records untouched |
| Sync.SyncService.RecordImport | gmail-task-dashboard/src/services/syncService.ts:81-87 | read, `WithImport`, save; account records untouched |
| Sync.SyncService.UpdateSelectedLabels | gmail-task-dashboard/src/services/syncService.ts:90-94 | only the global record's labels change |
| Sync.SyncService.SetCustomSyncFromDate | gmail-task-dashboard/src/services/syncService.ts:97-104 | read, `WithCustomSyncFrom`, save; account records untouched |
| Sync.SyncService.ShouldSuggestSync | gmail-task-dashboard/src/services/syncService.ts:107-113 | true iff the global record was never synced or was synced more than four hours ago |
| Sync.SyncService.GetTimeSinceLastSync | gmail-task-dashboard/src/services/syncService.ts:116-129 | "Never" iff the global record was never synced |
| Sync.SyncService.ClearSyncData | gmail-task-dashboard/src/services/syncService.ts:132-134 | only the global key is removed; it then reads as the default, and account records survive |
| Blocklist.FirstMatch | src/services/blockedEmailService.ts:41-48 | the index of the first entry with the address; none iff no entry has it |
| Blocklist.Normalise | src/services/blockedEmailService.ts:20 | `toLowerCase().trim()`; `Blocklist.BlockedEmailService.BlockEmail` and `IsEmailBlocked` use it for every address |
| Blocklist.CountPositiveIff | src/services/blockedEmailService.ts:60-66 | an address's count is positive iff some entry has the address |
| Blocklist.RemoveFirstCounts | src/services/blockedEmailService.ts:47-50 | deleting the first match lowers that address's count by one and leaves other addresses' counts alone |
| Blocklist.NewestBlockedFirstIsPreorder | src/services/blockedEmailService.ts:90 | the newest-first comparator is a total preorder |
| Blocklist.ByUserSorted | src/services/blockedEmailService.ts:98-119 | sorting the user's entries equals filtering the sorted full list |
| Blocklist.ByUserMembers | src/services/blockedEmailService.ts:98-119 | the user's sorted list holds exactly the entries blocked by that user |
| Blocklist.BlockedTwiceSurvivesUnblock | src/services/blockedEmailService.ts:17-50 | an address blocked twice stays blocked after one unblock |
| Blocklist.BlockedEmailService.constructor | src/services/blockedEmailService.ts:13 | the collection starts empty |
| Blocklist.BlockedEmailService.IsEmailBlocked | src/services/blockedEmailService.ts:58-71 | true iff the lookup succeeds and some entry has the normalised address |
| Blocklist.BlockedEmailService.BlockEmail | src/services/blockedEmailService.ts:17-36 | appends exactly one entry, with the normalised address, the reason or "Marked as spam", the time, the blocker or "unknown", and a fresh id; afterwards every address with the same normal form is blocked |
| Blocklist.BlockedEmailService.UnblockEmail | src/services/blockedEmailService.ts:39-55 | deletes the first entry with the normalised address, or nothing when none matches |
| Blocklist.BlockedEmailService.GetBlockedEmails | src/services/blockedEmailService.ts:74-95 | all entries, newest first, as a permutation; `[]` on a failed read |
| Blocklist.BlockedEmailService.GetBlockedEmailsByUser | src/services/blockedEmailService.ts:98-124 | exactly the user's entries, in the full list's order; `[]` on a failed read |
| Tasks.CreateTaskFromData | src/services/taskService.ts:20-44 | every field of the read task: the id given; '' for a missing or empty title or description; medium; INBOX for a missing or empty label; UNASSIGNED; not completed; manual; now for a missing creation or update time; notes, mail fields, account and snooze as stored; `lastStatusChange` always defined, the stored value else `createdAt` |
| Tasks.ReadTaskAnchor | src/services/taskService.ts:30-38 | a read task's age runs from the stored status change, else its creation, else now |
| Tasks.ManualTaskReadsBack | src/services/taskService.ts:50-62 | a created task reads back open and manual, with the form's fields, `createdAt == updatedAt == lastStatusChange`, and no stored status change |
| Tasks.EmailTaskReadsBack | src/services/taskService.ts:85-106 | a mail task reads back open, from gmail, with the message data unchanged and the category given or UNASSIGNED |
| Tasks.ApplyUpdateRule | src/services/taskService.ts:121-131 | `updatedAt` is always stamped; `lastStatusChange` is stamped iff the update carries a non-empty label; given fields win; all others are kept |
| Tasks.ApplyUpdate | src/services/taskService.ts:121-131 | the update merge; stated by `Tasks.ApplyUpdateRule` and `Tasks.LabelUpdateStamps` |
| Tasks.ManualTaskDoc | src/services/taskService.ts:50-56 | the document `createTask` writes; stated by `Tasks.ManualTaskReadsBack` |
| Tasks.EmailTaskDoc | src/services/taskService.ts:85-100 | the document `createTaskFromEmail` writes; stated by `Tasks.EmailTaskReadsBack` |
| Tasks.WrappersKeepStatusChange | src/services/taskService.ts:216-233 | toggling completion and changing priority touch only that field and `updatedAt` |
| Tasks.LabelUpdateStamps | src/services/taskService.ts:127-129 | a non-empty label restarts the status clock; an empty one does not |
| Tasks.ResetCreationDateAge | src/services/taskService.ts:246-253 | resetting the creation date restarts the shown age only when no status change is stored |
| Tasks.NewestCreatedFirstIsPreorder | src/services/taskService.ts:153 | the `createdAt desc` order is a total preorder |
| Tasks.TaskService.constructor | src/services/taskService.ts:17 | the collection starts empty |
| Tasks.TaskService.CreateTask | src/services/taskService.ts:48-69 | one new document under a fresh id, with the fields `createTask` writes |
| Tasks.TaskService.CreateTaskFromEmail | src/services/taskService.ts:72-113 | fails, changing nothing, iff the account is undefined; otherwise one new document under the next fresh id, with the fields `createTaskFromEmail` writes |
| Tasks.TaskService.UpdateTask | src/services/taskService.ts:116-136 | fails iff there is no such document; otherwise only that document changes, by the update rule |
| Tasks.TaskService.ToggleTaskCompletion | src/services/taskService.ts:216-223 | only `completed` and `updatedAt` of that document change |
| Tasks.TaskService.UpdateTaskPriority | src/services/taskService.ts:226-233 | only `priority` and `updatedAt` of that document change |
| Tasks.TaskService.UpdateTaskLabel | src/services/taskService.ts:236-243 | the label update rule; a non-empty label stamps `lastStatusChange` |
| Tasks.TaskService.ResetTaskCreationDate | src/services/taskService.ts:246-253 | only `createdAt` and `updatedAt` of that document change |
| Tasks.TaskService.DeleteTask | src/services/taskService.ts:139-146 | exactly that id is removed; a missing id changes nothing |
| Tasks.TaskService.GetAllTasks | src/services/taskService.ts:149-169 | every document read back exactly once, and nothing else, in `createdAt` descending order |
| CreateTask.Errors | gmail-task-dashboard/src/components/CreateTaskDialog.tsx:89-102 | each recorded message is the fixed text for its field |
| CreateTask.FieldError | gmail-task-dashboard/src/components/CreateTaskDialog.tsx:89-102 | the message for one required field when its trimmed value is empty; stated by `CreateTask.ErrorsIff` |
| CreateTask.ErrorsIff | gmail-task-dashboard/src/components/CreateTaskDialog.tsx:89-106 | one message for each blank title, description or label, and only for those; valid iff none is blank; notes are never checked |
| CreateTask.SubmitDisabled | gmail-task-dashboard/src/components/CreateTaskDialog.tsx:347 | the button is disabled iff validation would record an error |
| CreateTask.SubmitPayload | gmail-task-dashboard/src/components/CreateTaskDialog.tsx:110-116 | the priority and category are passed unchanged |
| CreateTask.PayloadKeepsErrors | gmail-task-dashboard/src/components/CreateTaskDialog.tsx:110-116 | the trimmed payload validates exactly as the form did |
| CreateTask.PayloadOfValidForm | gmail-task-dashboard/src/components/CreateTaskDialog.tsx:108-116 | a valid form's payload has non-empty required fields and its four text fields trimmed |
| CreateTask.GetCategoryColor | gmail-task-dashboard/src/components/CreateTaskDialog.tsx:137-146 | grey iff the category is none of WINDSOR, CUSTOMER, VENDOR, SHIPPER |
| CreateTask.CategoryColors | gmail-task-dashboard/src/components/CreateTaskDialog.tsx:137-146 | the five fixed colours; no two named categories share a colour |
| CreateTask.CreateTaskDialog.constructor | gmail-task-dashboard/src/components/CreateTaskDialog.tsx:33-42 | the initial form, with no errors |
| CreateTask.CreateTaskDialog.ValidateForm | gmail-task-dashboard/src/components/CreateTaskDialog.tsx:89-106 | records exactly the form's errors and reports whether there are none |
| CreateTask.CreateTaskDialog.HandleClose | gmail-task-dashboard/src/components/CreateTaskDialog.tsx:121-132 | the form goes back to its initial state with no errors, and the close callback runs once |
| CreateTask.CreateTaskDialog.HandleSubmit | gmail-task-dashboard/src/components/CreateTaskDialog.tsx:108-119 | a valid form submits its trimmed payload once and closes; an invalid one only shows its errors; everything ever submitted is submittable |
| CreateTask.CreateTaskDialog.Submit | gmail-task-dashboard/src/components/CreateTaskDialog.tsx:110-116 | appends the trimmed payload and keeps the submitted list submittable |
| CreateTask.CreateTaskDialog.HandleInputChange | gmail-task-dashboard/src/components/CreateTaskDialog.tsx:44-59 | the field takes the typed value and its error is cleared; notes have no error |
| CreateTask.CreateTaskDialog.HandleLabelChange | gmail-task-dashboard/src/components/CreateTaskDialog.tsx:75-87 | an absent choice clears the label; the label error goes |
| CreateTask.CreateTaskDialog.HandlePriorityChange | gmail-task-dashboard/src/components/CreateTaskDialog.tsx:61-66 | only the priority changes |
| CreateTask.CreateTaskDialog.HandleCategoryChange | gmail-task-dashboard/src/components/CreateTaskDialog.tsx:68-73 | only the category changes |

## Left out

- I/O and timing: the provider's network calls, authentication and account
  switching are inputs. Each `new Date()` is the parameter `now`, so one sync
  run uses one instant. `toLocaleDateString` is the parameter `formatDate`.
- The Gmail query string built in `getMessagesByLabel`: the date minus one
  day, formatted as an ISO string. It is calendar and time-zone arithmetic.
  Only the exact client-side `>=` filter is modelled. The provider may have
  answered anything.
- Unicode: `toLowerCase` is ASCII only. `localeCompare` is modelled as
  character-code order (`Text.Compare`), which differs from the locale's
  collation even on ASCII: it puts every upper-case letter before every
  lower-case one and orders punctuation by code. Dafny characters are Unicode
  scalar values, not UTF-16 code units, so a string with surrogate pairs has
  another length and order in the code. `trim` uses the ECMAScript whitespace
  and line terminator set.
- `atob`: modelled as the WHATWG forgiving-base64 decode, with characters
  0–255 as the output.
- Firestore:
  - document order and auto-generated ids are a counter (`Types.DocId`);
  - an absent field of a read document is `None`; a write of a mail task
    whose account is `undefined` is refused (`Tasks.TaskService.CreateTaskFromEmail`);
  - `Timestamp` conversions are the identity on milliseconds;
  - `onSnapshot` is reduced to `Dashboard.Dashboard.TasksUpdated` being
    called with each snapshot;
  - `getTasksByLabel` is not modelled: no caller in the core uses it;
  - write failures (rejected promises) are not modelled, apart from the
    per-message failures of a sync run.
- The key-value store: `localStorage` and JSON are a map from key to a stored
  record or an unparsable value. Exceptions from `setItem`, and the `Date`
  round trip through JSON, are not modelled.
- Concurrency: two overlapping sync runs racing on the watermark, and the
  check-then-create of a task, are not modelled. Each run is sequential.
- Dashboard.Dashboard.HandleSyncGmail: the active account is read once per
  run. The code reads it again for each message and the model assumes the
  answer does not change.
- Dashboard.Dashboard.HandleSyncGmail: the "Checking for new emails since …"
  snackbar of an incremental run is not modelled, because a later message
  always replaces it.
- Blocklist enforcement during sync: neither the code nor the model has any.
  `convertMessageToTask` never returns null, so the `!taskData` branch is
  dead and is not modelled.
- Dashboard.RunFailed: it states only what the code does when a listing
  throws. The account's record is then still marked in progress; no
  finalisation is claimed.
- Dashboard.RunImportedDocs: it states the documents through `AddDocs`. It
  does not restate each field; `Dashboard.EmailDocFields` does that.
- Sections.Organize: `Object.entries` order is not modelled. The sections are
  built in first-occurrence order, and `Sections.LayoutOf` shows the sorted
  board does not depend on that order, since titles are distinct.
- Sections.GroupByLabel: labels that name `Object.prototype` properties
  (`constructor`, `toString`, …) are ordinary keys in the model. In the code
  they hit the inherited property of the `{}` accumulator.
- The app imports a `src/services/syncService.ts` that is not part of this
  model. The model follows the `gmail-task-dashboard` copy of `SyncService`.
  Its `getTimeSinceLastAccountSync` does not exist there and is not modelled.
- Sync.SyncService.GetTimeSinceLastSync: its own contract states only the
  "Never" case. `Sync.TimeSinceCases` states the other cases of the text.
- Gmail.Atob: its own contract states only the output length.
  `Gmail.AtobRejectsForeign` and `Gmail.DecodeSextets` state the rest.
- Gmail.GetMessagesByLabel: the code itself never truncates a listing. It
  makes one list request with `maxResults` and no page token, and the Gmail
  API returns at most `maxResults` ids for it; the model writes that promise
  of the API as `Take(ms, maxResults)` over the `fetch` answer. The bounds
  `Gmail.CollectedBound` and `Gmail.GetMessagesByLabels` state (labels ×
  `maxResults`) rest on it. What the provider returns for a label is
  otherwise the `fetch` input; per-message fetch errors inside a listing
  (`gmailService.ts:345-357`) are part of that input.
- Rendering: the JSX, dialogs other than the create-task form, the task
  cards and their snooze-date arithmetic are not modelled.
