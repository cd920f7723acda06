# Verified model of subsyncd's core

subsyncd finds subtitles for the films and episodes that Radarr and Sonarr
manage, repairs and times them, and installs them. This project models the
parts of it that are hardest to get right and proves what they promise, for all
inputs and, where callers run concurrently, for every interleaving.
`dafny verify dfyconfig.toml` checks all of it.

What is modelled, one group of modules after the other:

- **Rewriting subtitles** (`CueBlocks`, `TimingLine`, `SubtitleRewrite`,
  `SubtitleReread`, `SecondRepair`, `LosslessReorder`, `SubtitleText`,
  `RewriteWitnesses`, `DialogueRewrite`, `DialogueFields`, `DialogueRules`).
  Records are found in raw lines, dropped, retimed, closed and moved into start
  order without being reserialized. The main results: a rewritten SRT text reads
  as exactly the kept cues in start order if and only if no text stands right
  before a first record without an index line; a second repair changes nothing
  if and only if no index line closed italics; a pure reorder loses no line; a
  rewritten ASS file reads as exactly the kept cues, with everything else in
  place.
- **Planning repairs** (`OverlapSweep`, `RepairPlan`). Which cues are dropped
  and retimed, and the sweep that tells two subtitles in one file. The sweep
  counts instants exactly, and every plan yields cues that play and validate.
- **Reading Arr history** (`HistoryWindow`, `HistoryChanges`). Offset pages of a
  log that may grow at its head, reduced to the last event of each entity: a
  successful read misses nothing and repeats nothing.
- **Shared state**, each as atomic steps, one for each section under a mutex or
  SQL statement: the slots of manual searches (`ManualSlots`), stored provider
  cooldowns and disables (`ProviderState`), the two-level permit gate before
  each provider request (`GatePermits`, `GateRules`), the single-flight cache
  (`SingleFlightCache`, `LoadRules`), the search row shared by worker, manual
  search and reject (`SearchLease`), and the webhook inbox (`WebhookInbox`).
  Invariants are proved over every run.
- **Archives and packs** (`MemberNames`, `MemberNaming`, `NamingRules`,
  `PackEviction`, `EditDistance`, `VersionChoice`). File names that do not
  depend on archive order, eviction that keeps a byte budget and the agreement
  of rows and directories, title similarity as a true edit distance, and which
  versions of an episode are timed.
- **Merging search results** (`Deduplication`), a homomorphism over
  concatenation.

`Text` and `Sorting` hold the string operations and the stable sort the others
use. Times are integers (nanoseconds, where the unit matters), shares and
similarities are exact, SHA-256 is injective, and clocks, handlers, clients and
classifiers are parameters. Where code updates fields or loops, the model is a
class or a method proved against a function; where it interleaves, the sections
are also steps of a state machine over those functions. What the functions of an
operation decide is stated a second time without them, on inputs and results
alone, in the lemmas whose names end in `Rules` or `Exactly`.

Where the code does less than its comments say, the model follows the code:

- A rewritten SRT text takes text right before a first record without an index
  line for its index when it is read again (`SubtitleReread.RewrittenReadsAsKept`,
  with a file in `RewriteWitnesses.FrontTextMisread`).
- The first repair counts a closing tag in an index line and then overwrites it,
  so the second repair may add one (`SecondRepair.SecondRepairChangesNothing`,
  with a file in `RewriteWitnesses.SecondRepairMayClose`).
- A run whose lease had lapsed when a rejection without an owner arrived, but
  which still completes, takes the rejection with it
  (`SearchLease.RejectionLostExactly`, `SearchLease.LapsedRunTakesRejection`).
  Only a call without an owner can lose it, and the one caller in the program
  always gives one (internal/app/reject.go:169, :257).
- A webhook may be handled more than seven times: each stop between its handler
  and its settlement costs one more run, even of a handler that succeeded
  (`WebhookInbox.EveryWebhookIsSettled`, `WebhookInbox.InterruptionsAreUnbounded`).
- Webhooks are handled in arrival order except that one is passed while it is
  not due, as when it waits for a retry: each handling is of the earliest that
  was due at its batch's reading (`WebhookInbox.Inbox.Drain`,
  `WebhookInbox.RetriedIsPassed`).
- A crash after a pack's directory is renamed and before its row is deleted
  leaves a row without its directory, which a later eviction may not repair
  (`PackEviction.EvictionAgrees`, `PackEviction.CrashLosesDirectory`).
- A permanent disable or a cooldown reported under a reason that begins with
  `transient_` is not protected (`ProviderState.TransientDisableIsLost`,
  `ProviderState.ProtectionLostExactly`); no caller in the repository does so.
- The empty key defeats the search for the oldest cache entry when it is alone
  in being oldest (`SingleFlightCache.ScanFindsOldestExactly`,
  `SingleFlightCache.ScanPicksNewer`).
- A provider id can be confused with one that it begins, if a NUL follows there
  (`Deduplication.IdentitiesConfusedExactly`, `Deduplication.NulConfusesIdentities`).
- A carriage return left at the end of a line, or a byte order mark at the
  front of a timing line that comes first, is lost when a repaired text is read
  again; its cues are the same (`SubtitleText.NothingLostExactly`).

## Model

| member | source | states |
|---|---|---|
| `CueBlocks.FindCues` | internal/subtitleorder/order.go:170-224 | The one-pass scanner finds exactly the cues of the lines, for SRT and WebVTT: every timing line, its index or identifier line, the end of its text, and whether some SRT index line is surely text. |
| `CueBlocks.CueListUnique` | internal/subtitleorder/order.go:146-168 | The rule for cue boundaries leaves no choice: lines have at most one cue list. |
| `CueBlocks.BlockShape` | internal/subtitleorder/order.go:146-151 | Blocks are in order: start <= timing < end <= start of the next block. |
| `CueBlocks.OneTimingLine` | internal/subtitleorder/order.go:181-222 | Among the lines of a cue the timing line is the only timing line. |
| `TimingLine.ClockReadsBack` | internal/subtitleorder/order.go:326-333 | A printed clock matches the timing pattern again and denotes the same milliseconds, with any text behind it. |
| `TimingLine.TimingIsRead` | internal/subtitleorder/order.go:19-22 | Every line of two clocks, each with or without hours, with an arrow, tabs and spaces between them and anything behind, is read with its two times to the millisecond. |
| `TimingLine.RetimedIsTiming` | internal/subtitleorder/order.go:313-324 | A rewritten timing line is still a timing line. |
| `TimingLine.RetimedReadsBack` | internal/subtitleorder/order.go:313-333 | Retiming a line and reading it again gives the new start and end to the millisecond and keeps separator, arrow and settings. |
| `SubtitleRewrite.StartOrderFacts` | internal/subtitleorder/order.go:133-144 | The order lists exactly the cues that are not dropped, each once, by start, equal starts in file order. |
| `SubtitleRewrite.Repair` | internal/subtitleorder/order.go:55-117 | The rewrite of lines equals its specification, and its outcome is what the cues and lines say by themselves: unchanged only with starts in order and nothing retimed or dropped, and always then unless italics are to be closed; otherwise refused, or rewritten. |
| `SubtitleRewrite.OutcomesExactly` | internal/subtitleorder/order.go:55-101 | When a file stays unchanged and when it is refused, stated on the cues and lines: some cue starts before an earlier one, is retimed or dropped, or a record leaves italics open; and there is not one record per cue, a number would overwrite text, or a kept retimed cue has no readable timing line. |
| `SubtitleRewrite.WriteRecords` | internal/subtitleorder/order.go:77-116 | The output loop writes front, records, gaps and tail as specified, and gives up when a kept record cannot be retimed. |
| `SubtitleReread.RewrittenReadsAsKept` | internal/subtitleorder/order.go:55-117 | For every rewritten SRT file: reading the lines again gives exactly the kept records, in stable start order and unambiguously, if and only if no text stands right before a first record that has no index line. |
| `SubtitleReread.TimingLinesRead` | internal/subtitleorder/order.go:96-101 | After a rewrite a retimed cue reads its new times, and any other cue has its own timing line, up to closing tags behind it. |
| `SubtitleReread.OutputReads` | internal/subtitleorder/order.go:78-109 | After every record written the output so far reads as exactly the records written. |
| `SecondRepair.SecondRepairChangesNothing` | internal/subtitleorder/order.go:71-107 | Repairing again with the kept cues unmarked changes nothing if and only if no kept record has an index line that closed italics its text opens. |
| `RewriteWitnesses.SecondRepairMayClose` | internal/subtitleorder/order.go:102-107 | A concrete file whose first repair overwrites an index line that held a closing tag, and whose second repair, with the kept cue unmarked, therefore adds that tag: both outputs are given. |
| `RewriteWitnesses.FrontTextMisread` | internal/subtitleorder/order.go:79-110 | A concrete file whose repair succeeds and is read back wrongly: after its first cue is dropped, the text before it is taken for the index of the second. |
| `LosslessReorder.ReorderLosesNothing` | internal/subtitleorder/order.go:33-45 | Without drops and retimes a reorder never fails, and the nonblank lines of its output are a permutation of the input's, with the old SRT index lines replaced by the new numbers. |
| `LosslessReorder.RecordKeepsLines` | internal/subtitleorder/order.go:234-244 | A written record holds the nonblank lines of its block, but for its index line. |
| `SubtitleText.RepairText` | internal/subtitleorder/order.go:55-117 | On text: line endings, byte order mark and final newlines come off, the lines are rewritten, and they go back on. The text is returned as it was only when the starts are in order and nothing is retimed or dropped, and always then unless italics are to be closed. |
| `SubtitleText.SplitLinesFacts` | internal/subtitleorder/order.go:68-69 | Splitting content into lines and joining them with newlines is the identity. |
| `SubtitleText.AssembledComesApart` | internal/subtitleorder/order.go:116-131 | Assembled text splits back into what ReadLines says of the lines it was assembled from, but for empty lines at the end. |
| `SubtitleText.NothingLostExactly` | internal/subtitleorder/order.go:116-131 | Lines read back as they were exactly if none that a newline follows ends in a carriage return and, in a text without a byte order mark, the first does not begin with one; otherwise just that character is lost. |
| `SubtitleText.RewritePlain` | internal/subtitleorder/order.go:79-116 | A rewrite writes no newline into a line. |
| `SubtitleText.RepairedTextReadsAsKept` | internal/subtitleorder/order.go:55-131 | The reading theorem for whole texts, whatever their lines end or begin with: the repaired text reads as the kept records if and only if no text stands right before a first record without an index line. |
| `SubtitleText.SecondRepairKeepsText` | internal/subtitleorder/order.go:47-117 | For every text, the second repair of the repaired text returns the text itself if and only if no index line closed italics. |
| `DialogueRewrite.RepairDialogue` | internal/subtitleorder/order.go:246-311 | The ASS rewrite equals its specification, including every refusal: lines and cues not one to one, a second format, a line that cannot be retimed. |
| `DialogueRewrite.OthersStay` | internal/subtitleorder/order.go:246-247 | After an ASS rewrite every line that is no cue is there, in order, and between them exactly the kept cues, each its own line retimed if asked, in stable start order. |
| `DialogueFields.RepairText` | internal/subtitleorder/order.go:62-66 | On ASS and SSA text: a file is returned as it was exactly when its starts are in order and nothing is retimed or dropped; otherwise its lines are told apart by their headers, rewritten and put together again. |
| `DialogueFields.FieldsRetimed` | internal/subtitleorder/order.go:335-359 | Retiming a Dialogue line changes the Start and End fields that its format names to the new times, and no other field and nothing before them. |
| `DialogueFields.ClockReads` | internal/subtitleorder/order.go:360-363 | A written ASS time denotes the same hundredths of a second. |
| `DialogueFields.RewrittenReads` | internal/subtitleorder/order.go:246-311 | Reading the lines of a rewritten ASS file again finds exactly the kept cues as Dialogue lines, in stable start order, each its own line or that line retimed, every other line in its order, and still one format. |
| `DialogueRules.RowRules` | internal/subtitleorder/order.go:257-266 | A line is a format or a cue exactly by what stands before its first colon, spaces aside; a format is what stands after it. |
| `DialogueRules.RetimedExactly` | internal/subtitleorder/order.go:335-359 | A Dialogue line can be retimed exactly when it has a colon, its format has a Start and an End field, and it has at least as many fields as the format. |
| `DialogueRules.DialogueIsRetimed` | internal/subtitleorder/order.go:335-359 | Retiming writes the two times over the last Start and the last End field and leaves prefix, spaces and all other fields. |
| `DialogueRules.RefusedExactly` | internal/subtitleorder/order.go:246-311 | An ASS file is refused exactly when its Dialogue lines and the cues do not match one to one, two of the lines have different formats in force, or a kept line that is to be retimed cannot be. |
| `DialogueRules.WrittenExactly` | internal/subtitleorder/order.go:246-311 | Otherwise every other line is written in order and between them, in start order, the Dialogue line of each kept cue, retimed by the format in force there if asked and as it was if not. |
| `OverlapSweep.OverlapTotals` | internal/pack/repair.go:200-230 | The sweep is exact: covered and overlapped are the numbers of instants inside at least one and at least two shown cues, over any span holding them. |
| `OverlapSweep.DepthNeverNegative` | internal/pack/repair.go:219-230 | The running depth of the sweep is never negative, not even between events at one instant. |
| `OverlapSweep.SortedIsOnly` | internal/pack/repair.go:213-218 | Equal events cannot be told apart, so the unstable sort has only one result. |
| `OverlapSweep.MergedOverlap` | internal/pack/repair.go:114-116 | The verdict on merged subtitles is that more than a quarter of the shown instants lie under two cues. |
| `RepairPlan.PlanRepairs` | internal/pack/repair.go:52-118 | Both passes and the overlap check compute the planned cues, or refuse a merged subtitle. |
| `RepairPlan.PlanRules` | internal/pack/repair.go:52-118 | The plan cue by cue, from the parsed and the planned cues alone: which cues are dropped; a kept start moves, to the end of the kept cue with the furthest start before it, exactly when all conditions of a mistyped start hold; an inverted and a mistyped end become the stated values exactly when their conditions hold; nothing else moves. |
| `RepairPlan.NextStart` | internal/pack/repair.go:86-92 | The binary search finds the first start after a given one. |
| `RepairPlan.PlannedCuesPlay` | internal/pack/repair.go:52-118 | With nonnegative parsed times every kept cue has 0 <= start <= end, and only a retimed cue changes its times. |
| `RepairPlan.EndRepairs` | internal/pack/repair.go:93-110 | An inverted cue ends up lasting 500 ms to 7 s; a mistyped end moves strictly earlier and never before the next start or the reading time; no other end moves. |
| `RepairPlan.DropsAreRepeats` | internal/pack/repair.go:63-71 | A cue is dropped exactly when it has no text or, outside ASS, repeats an earlier kept cue. |
| `RepairPlan.PlannedCuesValidate` | internal/syncer/lapse.go:606-619 | The kept cues in start order pass the order and timing check of installation. |
| `RepairPlan.OnlyTidies` | internal/pack/archive.go:659-679 | The scan answers exactly whether every parsed cue already passes validation in file order and no kept cue needs new times. |
| `HistoryWindow.ReadHistoryWindow` | internal/catalog/history.go:78-147 | The paging loop computes the specified reading of the answers a client gives, for any client. |
| `HistoryWindow.ReadsExactly` | internal/catalog/history.go:78-147 | For any client: a reading succeeds exactly when some number of pages are all as asked for, each with something new unless empty, their records identified, with one date for each id and first appearances never later than those before, and the last page but none before covers the window; it returns the wanted records, each once, in order of first appearance. |
| `HistoryWindow.EndIsNeverIncomplete` | internal/catalog/history.go:104-107 | Whatever a client answers, the error of the empty last page is unreachable: an earlier check has caught every short page. |
| `HistoryWindow.ReadIsComplete` | internal/catalog/history.go:80-147 | Of a newest-first log that grows at its head between requests, a successful read returns every wanted record of the log as it was at the first page, and none twice. |
| `HistoryWindow.FixedLogIsRead` | internal/catalog/history.go:80-147 | A log of identified records that does not change is read successfully in at most |log|/100 + 1 requests, and the result is exactly its wanted records. |
| `HistoryChanges.ReduceByEntity` | internal/catalog/history.go:14-51 | The reduction says, of each entity with a relevant record up to the end of the window, what its last such record says, ordered by date, history id and entity, and no entity has two; it fails exactly on a relevant record without a date, or up to the end of the window without an id or entity. |
| `HistoryChanges.ReadThenReduced` | internal/catalog/history.go:14-147 | Reading a growing log and reducing it covers every wanted record of the first page's log by a change of its entity at least as late. |
| `HistoryChanges.FixedLogReduced` | internal/catalog/history.go:14-147 | Of a log that does not change, reading and reducing give each entity exactly its latest wanted record. |
| `ManualSlots.ManualSlots.Enter` | internal/app/manual_search.go:77-86 | A caller takes a slot at once exactly when one is free and nobody waits; otherwise it queues. |
| `ManualSlots.ManualSlots.Withdraw` | internal/app/manual_search.go:91-99 | Giving up removes the caller from the queue and reports whether it was still there. |
| `ManualSlots.ManualSlots.Release` | internal/app/manual_search.go:106-117 | A released slot goes to the longest waiter, or is freed. |
| `ManualSlots.EveryRunKeeps` | internal/app/manual_search.go:67-117 | In every interleaving of arrivals, grants, cancellations and releases: free slots plus slots held, granted or being passed on are n, waiters exist only while none is free, and grants went out in arrival order. |
| `ManualSlots.NoneIsLost` | internal/app/manual_search.go:90-103 | Once every caller is gone all slots are free, also when callers gave up just as they were granted. |
| `ManualSlots.WaitersAreServed` | internal/app/manual_search.go:106-117 | While somebody waits all n slots are out, so some caller can still pass one on. |
| `ManualSlots.ArrivalOrder` | internal/app/manual_search.go:65-66 | A caller that still waits has not been overtaken by a later one. |
| `ProviderState.ProviderStates.Persist` | internal/provider/limiter.go:142-185 | Storing a throttle: a disabled row stays, a running exhausted window stays unless the throttle disables it or outlasts it; the reset reported back is the bounded one or the longer one in effect. |
| `ProviderState.ThrottleRules` | internal/provider/limiter.go:142-185 | What a throttle leaves, field by field: over a missing row, and over one that is neither disabled nor a running window, its own values with the reset at most 48 hours ahead and the old failure count; over a running window only if it disables, or is exhausted and lasts as long; a disabled row and all other scopes stay. |
| `ProviderState.CheckAfterThrottle` | internal/provider/availability.go:90-118 | After an exhausted or disabling throttle is reported, no check of its scope finds the provider available before its bounded reset, through every run of reports without an explicit retry. |
| `ProviderState.ProviderStates.RecordTransientFailure` | internal/provider/limiter.go:187-234 | Recording a failure counts it and opens a circuit, but leaves a disabled row and a running exhausted window in force, which it may only prolong. |
| `ProviderState.FailureRules` | internal/provider/limiter.go:187-234 | What a failure leaves, field by field: one failure more in every row; a disabled row otherwise as it is, a running window at most longer, and over anything else a circuit closed until the reported reset, or for 1, 5, 15 minutes or an hour. |
| `ProviderState.ProviderStates.ResetTransientFailures` | internal/provider/limiter.go:236-265 | An answered request clears the failure count, and the circuit only when its reason is transient. |
| `ProviderState.RecoveryRules` | internal/provider/limiter.go:236-265 | What an answered request leaves, field by field: no failures, and no circuit if its reason was transient; everything else as it was. |
| `ProviderState.ProviderStates.ClearProvider` | internal/store/repository.go:1359-1367 | The explicit retry forgets every scope of the provider and nothing else. |
| `ProviderState.RetryRules` | internal/store/repository.go:1359-1367 | After a retry exactly the scopes of other providers are left, as they were. |
| `ProviderState.ResetsAreBounded` | internal/provider/limiter.go:310-317 | Over every run with a clock that does not go back, no stored reset is more than 48 hours ahead. |
| `ProviderState.DisabledStays` | internal/provider/limiter.go:152-155 | A disable whose reason is not transient survives every run without an explicit retry; only the failure count moves. |
| `ProviderState.DisableLiftedExactly` | internal/provider/limiter.go:236-265 | One operation lifts a disable exactly when it is a retry, or an answer that finds failures counted under a transient reason. |
| `ProviderState.TransientDisableIsLost` | internal/provider/limiter.go:249-258 | A concrete run that loses a disable reported under a transient reason. |
| `ProviderState.CooldownHolds` | internal/provider/limiter.go:156-164 | A running exhausted window is neither shortened nor lifted before it ends, whatever throttles with server reasons, failures and answers arrive. |
| `ProviderState.ProtectionLostExactly` | internal/provider/limiter.go:145-265 | One operation ends the protection of a running window exactly when it is a retry, disables the scope, or reports an exhausted window at least as long under a transient reason. |
| `ProviderState.AttemptCountsFailures` | internal/provider/limiter.go:187-196 | The stored attempt is the number of failures since the provider last answered, through disables and cooldowns. |
| `ProviderState.BackoffFollowsTheRow` | internal/provider/limiter.go:59-59 | A failure without a usable reset, in a scope nothing blocks, closes the circuit for the delay that its place in the row of failures asks for. |
| `ProviderState.CheckAvailability` | internal/provider/availability.go:90-118 | The first unreadable or disabled scope decides; otherwise the blocking cooldown that ends last, the first of equals; auth cooldowns count only for authentication; available exactly when nothing blocks. |
| `ProviderState.CheckDuringCooldown` | internal/provider/availability.go:90-118 | While a cooldown runs no check of an operation it covers finds the provider available, and a cooldown answer lasts at least as long. |
| `GatePermits.Gate.Configure` | internal/provider/limiter.go:72-88 | Configuring gives the provider a new semaphore of at least one permit; callers keep the one they looked up. |
| `GatePermits.Gate.LookUp` | internal/provider/limiter.go:94-101 | The lookup answers the provider's semaphore, if any, and makes the origin's shared one on first use. |
| `GatePermits.EveryRunBalances` | internal/provider/limiter.go:90-131 | In every interleaving, with providers reconfigured and checks failing at any time, the permits taken from each semaphore are exactly those its requests hold, and at most its capacity. |
| `GatePermits.AllPermitsReturn` | internal/provider/limiter.go:109-130 | Once no request is under way, however each ended, no permit is out: every failing path returns what it took, a check that fails through its context or the store included. |
| `GatePermits.SecondReleaseIsIgnored` | internal/provider/limiter.go:124-130 | Through every run that follows a release, the request stays released, and releasing it again at any point changes nothing. |
| `GatePermits.FreedOnce` | internal/provider/limiter.go:112-130 | Over every run no request, refused, cancelled or released however often, gives back either of its permits twice. |
| `GatePermits.OriginIsNeverCrowded` | internal/provider/limiter.go:97-101 | No origin serves more than the shared maximum of requests at once, whichever providers they belong to. |
| `GatePermits.NoDeadlock` | internal/provider/limiter.go:108-118 | Requests never wait for each other in a circle: while one is unfinished, some request can move or is with its caller. |
| `GatePermits.NoAdmissionDuringCooldown` | internal/provider/limiter.go:119-123 | While a cooldown runs no request it covers is admitted, in any interleaving of single looks at scopes, unless its last check had looked at that scope before. |
| `GateRules.StepRules` | internal/provider/limiter.go:72-135 | Every step of the gate can be taken, and has its effect on semaphores, requests and table, exactly as stated; a disabled scope ends a check at once and a running cooldown at its end. |
| `GateRules.OpenRequestIsAdmitted` | internal/provider/limiter.go:90-131 | If no scope is disabled or cooling, the provider is configured and both semaphores have a permit, a request that arrives can be admitted without a step of anybody else. |
| `SingleFlightCache.TTLCache.LookupLocked` | internal/provider/ttlcache.go:95-107 | A lookup answers a live entry and forgets an expired one. |
| `SingleFlightCache.TTLCache.StoreLocked` | internal/provider/ttlcache.go:109-121 | A store leaves at most limit entries; it evicts as many as exceed it and, unless the empty key is cached, none newer than one that stays. |
| `SingleFlightCache.TTLCache.Enter` | internal/provider/ttlcache.go:39-61 | The first section of a load: a live entry, a fetch of its own, or waiting for the fetch under way. |
| `SingleFlightCache.TTLCache.Finish` | internal/provider/ttlcache.go:50-57 | The section after a fetch stores a cacheable answer and ends the flight. |
| `SingleFlightCache.ScanFindsOldestExactly` | internal/provider/ttlcache.go:112-119 | One pass over the entries in any order picks a least recently stored one exactly when the empty key is not alone in being oldest, or is visited last. |
| `SingleFlightCache.ScanPicksNewer` | internal/provider/ttlcache.go:112-119 | Concrete entries and a visiting order in which the pass picks the newer one: the empty key is oldest and comes first. |
| `SingleFlightCache.EveryRunKeeps` | internal/provider/ttlcache.go:38-121 | The invariant of every run of concurrent loads, cancellations, stores, lookups and clock: entries within the limit and stored, one caller per fetch, waiters counted, answers fresh. |
| `SingleFlightCache.SingleFlight` | internal/provider/ttlcache.go:38-57 | At most one fetch of a key is ever under way. |
| `SingleFlightCache.SharedAnswersAreFresh` | internal/provider/ttlcache.go:34-49 | A caller that did not fetch was answered with a value that a put, or another caller's own successful fetch, stored under its key less than a time to live before. |
| `SingleFlightCache.WaitersAreWoken` | internal/provider/ttlcache.go:59-66 | A blocked caller can leave at once, or a caller for the same key is still fetching on its channel. |
| `SingleFlightCache.FailuresAreOwn` | internal/provider/ttlcache.go:34-37 | A caller fails only through its own fetch or its own cancellation. |
| `LoadRules.StepRules` | internal/provider/ttlcache.go:38-121 | Every section of the cache can run, and has its effect on entries, flights, waiters, channels and callers, exactly as stated, eviction and expiry included. |
| `LoadRules.EntryStays` | internal/provider/ttlcache.go:95-121 | Through every run of loads, stores, lookups and clock, an entry that no step evicts or replaces stays until its time to live has passed. |
| `LoadRules.FetchedAnswerIsShared` | internal/provider/ttlcache.go:38-61 | Once a fetch has returned a cacheable answer that is not evicted, every caller for its key that asks within the time to live gets that answer without a fetch, whatever other callers do. |
| `SearchLease.SearchTable.ClaimSearch` | internal/store/search_claim.go:19-36 | Claiming succeeds exactly on a missing, unleased or expired row and on the owner's own; it then holds until now plus the lease, and nothing else changes but the rerun request. |
| `SearchLease.ClaimRules` | internal/store/search_claim.go:19-36 | A claim that succeeds gives the job the row until now plus the lease and withdraws a rerun request; a row it makes is pending and due now; one that fails changes nothing. |
| `SearchLease.ClaimExcludes` | internal/store/search_claim.go:12-36 | Mutual exclusion from the claim on: through every run of others' statements before the lease ends, the two displacing ones apart, the row stays with the job and every other job's claim fails and changes nothing. |
| `SearchLease.WorkerLeaseRules` | internal/store/repository.go:936-1052 | The worker leases exactly a pending, due, unleased row, until now plus the lease. |
| `SearchLease.WorkerLeaseExcludes` | internal/store/repository.go:936-1052 | Mutual exclusion from the worker's lease on, in the same words. |
| `SearchLease.SearchTable.ReleaseSearchLease` | internal/store/lease_release.go:12-20 | Releasing clears the lease of the rows the owner holds and nothing else. |
| `SearchLease.ReleaseRules` | internal/store/lease_release.go:12-20 | Releasing clears lease and rerun request of exactly the rows the job owns. |
| `SearchLease.SearchTable.RecordUserRejection` | internal/store/user_rejection.go:39-86 | A rejection makes the search due now at import priority and arms the replacement; a live holder keeps the row and is asked to run again, otherwise a given owner takes it. |
| `SearchLease.RejectionRules` | internal/store/user_rejection.go:39-86 | The row a rejection leaves, column by column: pending, due and queued at its time at import priority, counts and resume state cleared, replacement armed; a live lease stays with a rerun asked for, and otherwise a given owner holds it until its time plus the lease. |
| `SearchLease.RejectionIsRecorded` | internal/store/repository.go:1495-1501 | The candidate's rejection is the owner's afterwards, an earlier one of the owner's stays as it was, and no other rejection changes. |
| `SearchLease.SearchTable.ClearUserRejections` | internal/store/user_rejection.go:94-115 | Undo removes the owner's rejections of the row and disarms the replacement. |
| `SearchLease.UndoRules` | internal/store/user_rejection.go:94-115 | Undo removes exactly the owner's rejections of the row, and of the rows changes only that one's replacement flag. |
| `SearchLease.SearchTable.EnsureUpgradeSearch` | internal/store/upgrade_search.go:13-37 | The upgrade statement as a guarded update. |
| `SearchLease.UpgradeRules` | internal/store/upgrade_search.go:13-37 | What an upgrade leaves, column by column: a missing search pending at its time, a complete unleased one restarted, a later pending unleased one brought forward, any other as it was. |
| `SearchLease.CompletionRules` | internal/store/repository.go:1068-1153 | What a completion leaves, column by column: refused unless its job owns exactly one row; the lease ends; a requested rerun keeps the row queued where it was, and otherwise state, counts, priority and resume state are as the run says. |
| `SearchLease.CatalogRules` | internal/store/repository.go:2092-2101 | What a catalog change leaves, column by column: the search due again with a leased one asked to rerun, or complete with the reason it is unsupported unless somebody holds it; a deletion ends the search and leaves a lease to its owner. |
| `SearchLease.LeaseColumnsAgree` | internal/store/search_claim.go:19-36 | Over every run owner and expiry are both null or both set. |
| `SearchLease.LiveLeaseStays` | internal/store/search_claim.go:12-18 | Until its lease runs out nobody but the owner takes, clears, shortens or extends it, over every run of all statements on the row but the two of LeaseLostExactly. |
| `SearchLease.LeaseLostExactly` | internal/store/repository.go:844-853 | A statement of somebody else ends a live lease if and only if it schedules the search from scratch, which nothing in the program calls, or forgets the instance. |
| `SearchLease.UpgradeOnlyBringsForward` | internal/store/upgrade_search.go:11-36 | Scheduling an upgrade changes no row with a lease, live or expired, and never makes pending work later, in due time or place. |
| `SearchLease.RejectionWaits` | internal/store/user_rejection.go:30-38 | Until undone, answered by a run that saw it, settled, or the media is gone, forgotten or unsupported, a rejected row stays pending, armed for replacement and due by the latest of the rejection and later catalog changes; a run already under way is asked to run again. |
| `SearchLease.RejectionLostExactly` | internal/store/user_rejection.go:63-71 | A rejection survives the completion of the run that held its row exactly if the lease was live, the rejection took the row for another owner, or, without an owner, found a rerun asked for, or the run schedules itself as early with the replacement armed. |
| `SearchLease.LapsedRunTakesRejection` | internal/store/user_rejection.go:63-71 | Claim, lapse, rejection, completion: a run of statements that loses the rejection when it names no owner, and keeps it queued for its owner when it names one. |
| `SearchLease.ReplacedOnlyIfRejected` | internal/store/user_rejection.go:88-115 | Over every run a row is armed for replacement only while a rejection of the owner's stands for it. |
| `PackEviction.PackCache.EvictLocked` | internal/pack/cache.go:355-419 | A successful eviction leaves exactly the packs that have not expired and whose bytes, with those of the unexpired packs used no earlier, fit the budget, and on disk exactly their directories that no evicted pack shared. It fails exactly at the first pack that has to go and cannot be renamed, or at a pack left whose path is outside the layout. |
| `PackEviction.SurvivorsExactly` | internal/pack/cache.go:355-391 | The packs left, without the eviction order: unexpired, and within the budget together with all unexpired packs used no earlier. |
| `PackEviction.PackCache.EvictOne` | internal/pack/cache.go:367-390 | One pack goes, with its row and directory, unless its path is outside the layout or its directory is there and the name for renaming it is taken; then nothing changes. |
| `PackEviction.PackCache.SweepOrphans` | internal/pack/cache.go:392-417 | The sweep leaves exactly the children of the root that are a row's directory, and fails, leaving all, exactly when a row's path is outside the layout. |
| `PackEviction.PackCache.InvalidateEntry` | internal/pack/cache.go:421-433 | A broken pack loses its row and its directory. |
| `PackEviction.PackCache.Publish` | internal/pack/cache.go:296-346 | Publishing puts the directory in place and appends the row, or replaces the row of the same identity, which keeps its id and place. |
| `PackEviction.HowManyGo` | internal/pack/cache.go:364-367 | Only one number of packs both may go and suffices. |
| `PackEviction.SurvivorsFit` | internal/pack/cache.go:355-391 | After eviction every pack left is unexpired and their bytes are within the budget. |
| `PackEviction.EvictedInOrder` | internal/store/repository.go:1738-1739 | A pack is evicted only if everything before it in the order was, and an unexpired one only if the budget was exceeded. |
| `PackEviction.NewestSurvives` | internal/pack/cache.go:349-391 | A pack just stored, more recently used than every other, survives its eviction unless it has expired or alone exceeds the budget. |
| `PackEviction.EvictionAgrees` | internal/pack/cache.go:392-417 | Whatever lies on disk, a successful eviction leaves rows and directories in one-to-one agreement if and only if each row it leaves had its directory. |
| `PackEviction.CrashLosesDirectory` | internal/pack/cache.go:373-384 | A crash after the directory is renamed and before the row is deleted: if the next eviction keeps the row, it sweeps the renamed directory and they disagree; invalidating the pack restores agreement. |
| `PackEviction.InvalidateAgrees` | internal/pack/cache.go:421-433 | Invalidating a pack leaves rows and directories in agreement if and only if each other row has its directory, whether or not its own does. |
| `PackEviction.Put` | internal/pack/cache.go:236-347 | Storing a pack keeps the budget, brings rows and directories into agreement exactly if each row left has its directory, and the stored pack stays if it fits and is newest. |
| `WebhookInbox.Inbox.EnqueueWebhook` | internal/store/webhook_inbox.go:21-34 | An accepted webhook waits behind all earlier ones, due at once; an incomplete one is refused. |
| `WebhookInbox.Inbox.DueWebhooks` | internal/store/webhook_inbox.go:37-59 | The listing is the first due webhooks of the instance in arrival order, up to the limit. |
| `WebhookInbox.Inbox.Settle` | internal/store/webhook_inbox.go:74-87 | After a handling that webhook is deleted, or counted and rescheduled, and no other changes. |
| `WebhookInbox.SettlementRules` | internal/schedule/backoff.go:26-76 | A settlement in numbers: after failures one to six the webhook waits 1, 5 and 15 minutes, 1, 6 and 24 hours and counts one attempt more; after the seventh failure or anything else it is gone; no other changes. |
| `WebhookInbox.Inbox.Drain` | internal/catalog/webhook_inbox.go:157-202 | For every handler, clock and place to stop, draining terminates; each handling it settles is of the earliest waiting webhook that was due when its batch was read, nothing is due at the end unless it was stopped, and a webhook whose handler ran just before the stop waits unchanged. |
| `WebhookInbox.EveryWebhookIsSettled` | internal/catalog/webhook_inbox.go:157-202 | Over the whole life of the inbox the handler runs at most seven times for a webhook, plus once for each drain stopped between handler and settlement; while it waits its attempt counts the settled runs, and it leaves applied, ignored or invalid, or at its seventh settled failure. |
| `WebhookInbox.LeavesOnlyWhenSettled` | internal/catalog/webhook_inbox.go:175-199 | The only event that takes a webhook out of the inbox is the settlement of a handling that ends it. |
| `WebhookInbox.InterruptionsAreUnbounded` | internal/catalog/webhook_inbox.go:173-176 | For every n there is a life in which a webhook was handled and applied n times and still waits at attempt 0, with the drain stopped each time before it was deleted. |
| `WebhookInbox.DrainContinuesLife` | internal/catalog/webhook_inbox.go:157-202 | Whatever a drain did, stopped or not, continues any life of the inbox whose rows it found. |
| `WebhookInbox.NoneOvertaken` | internal/catalog/webhook_inbox.go:156-164 | A webhook that was due when the drain began is handled before anything that arrived after it. |
| `WebhookInbox.RetriedIsPassed` | internal/catalog/webhook_inbox.go:188-196 | Two due webhooks of which the first fails once: every complete drain on a standing clock handles the second while the first, the earlier arrival, waits for its retry. |
| `WebhookInbox.HandlingEffort` | internal/catalog/webhook_inbox.go:165-200 | Each settled handling lowers the sum over waiting webhooks of the attempts left, which bounds a drain. |
| `WebhookInbox.ErrorDelayDoubles` | internal/catalog/webhook_inbox.go:34-48 | After n failed drains in a row the wait is 5 s doubled n - 1 times, and five minutes from the seventh on. |
| `EditDistance.ComputeDistance` | internal/pack/select.go:718-734 | The two-row loop computes the recursive edit distance. |
| `EditDistance.ComputeSimilarity` | internal/pack/select.go:709-735 | The similarity is one minus the distance over the longer length, and 1 for two empty titles. |
| `EditDistance.CheapestScript` | internal/pack/select.go:709-735 | Some sequence of edits turns one string into the other at the cost of the distance. |
| `EditDistance.NoCheaperScript` | internal/pack/select.go:709-735 | No sequence of edits does so for less. |
| `EditDistance.TriangleInequality` | internal/pack/select.go:709-735 | The distance satisfies the triangle inequality. |
| `EditDistance.SimilarityFacts` | internal/pack/select.go:709-735 | Similarity is symmetric, lies between 0 and 1, and is 1 for equal titles only. |
| `EditDistance.TitleThreshold` | internal/pack/select.go:144-146 | The threshold 0.98 forgives one edit for every fifty characters of the longer title, and none in shorter titles. |
| `MemberNames.AssignMemberNames` | internal/pack/archive.go:420-497 | Grouping, keeping, prefixing and numbering compute the specified names, or refuse one longer than 255 bytes. |
| `MemberNames.DistinguishingPrefixes` | internal/pack/archive.go:511-541 | The loop finds the specified prefixes. |
| `MemberNames.PrefixesAreFewest` | internal/pack/archive.go:511-514 | Prefixes use the fewest trailing folders, at least one, that tell all members apart ignoring case, and all folders when none do. |
| `MemberNames.NumberName` | internal/pack/archive.go:472-477 | The unbounded numbering loop ends, at the first number from 2 on whose name is not taken. |
| `MemberNames.FreeNumberIsFree` | internal/pack/archive.go:472-477 | Since no two numbers give one name and finitely many are taken, a free number exists, and all smaller ones are taken. |
| `MemberNaming.NamesAreDistinct` | internal/pack/archive.go:411-419 | All file names given differ ignoring case. |
| `MemberNaming.OneFilePerNameAndText` | internal/pack/archive.go:411-419 | The result keeps archive order and changes only names, and of the subtitles that share a lower-cased name and a checksum exactly one is in it. |
| `MemberNaming.TextIsKept` | internal/pack/archive.go:435-448 | The one kept is the first of them in path order. |
| `MemberNaming.ArchiveOrderDoesNotMatter` | internal/pack/archive.go:411-419 | Any permutation of the archive is refused alike or gives the same multiset of files, provided equal path and checksum mean equal records. |
| `NamingRules.NamesFollowTheRules` | internal/pack/archive.go:402-497 | Every file is named by the rules: a name of its own stays; in a group of several texts, in path order, a member whose folders and name fit in 255 bytes and differ, ignoring case, from every original name and every name given before takes them; the first that cannot keeps its bare name, and any further one gets the first free number. |
| `NamingRules.GroupRules` | internal/pack/archive.go:450-497 | A group of several texts is refused exactly when the rules lead to a name of more than 255 bytes. |
| `NamingRules.OneKeepsItsName` | internal/pack/archive.go:462-477 | At most one member of such a group keeps its bare name: the first in path order that cannot take its folders. |
| `NamingRules.PrefixesOf` | internal/pack/archive.go:511-541 | The prefixes in plain terms: the last folders of each path with a dash behind each, at least one and as few as tell all members apart ignoring case, or all of them. |
| `NamingRules.FoldersReadBack` | internal/pack/archive.go:499-509 | The folders of a path built from ordinary folder names, with either separator, from a root or not, are those folders. |
| `VersionChoice.SelectUntriedAlternatives` | internal/pack/alternatives.go:33-88 | Returns the one selected member, or up to three versions: all of them by name when they fit, otherwise the three best; refuses exactly on an exact hash, on an error other than several matches by one of the three episode rules, or when no member matches on its own; fails exactly when more than three match and one cannot be looked up. |
| `VersionChoice.ChoiceRules` | internal/pack/alternatives.go:64-88 | Of more than three versions the three chosen precede all others: untried before tried, then closer to the release, then by name; untriedLeft is set exactly when an untried one is left out. |
| `VersionChoice.VersionsExactly` | internal/pack/alternatives.go:43-57 | The versions are, in pack order, exactly the members that the rule identifies on their own and whose checksum no earlier such member has. |
| `VersionChoice.UntriedComeFirst` | internal/pack/alternatives.go:26-32 | A tried version never takes the place of an untried one. |
| `VersionChoice.VersionsAreMembers` | internal/pack/alternatives.go:43-57 | Every version is identified by the rule on its own, and no checksum occurs twice. |
| `Deduplication.DeduplicateCandidates` | internal/provider/coordinator.go:256-330 | The indexed in-place merge computes the fold that merges each candidate into the entry of its identity or adds it. |
| `Deduplication.AppendUniqueStrings` | internal/provider/coordinator.go:332-348 | Appends each new nonempty string once, in order. |
| `Deduplication.MergeInto` | internal/provider/coordinator.go:270-327 | Merging field by field computes the specified merge. |
| `Deduplication.MergeAssociative` | internal/provider/coordinator.go:270-327 | Merging three candidates of one identity does not depend on which two are merged first. |
| `Deduplication.DeduplicationIsAHomomorphism` | internal/provider/coordinator.go:255-330 | Deduplicating in pieces is deduplicating at once. |
| `Deduplication.DeduplicationIsIdempotent` | internal/provider/coordinator.go:255-330 | Deduplicating again changes nothing. |
| `Deduplication.DeduplicationGroups` | internal/provider/coordinator.go:255-330 | The result has one entry for each complete identity, at its first appearance, merged from all its candidates in order; candidates without an identity stay as they are. |
| `Deduplication.FirstValueWins` | internal/provider/coordinator.go:271-311 | A text or number of a merged entry is that of the first candidate that has one. |
| `Deduplication.FirstIsKept` | internal/provider/coordinator.go:270-327 | Ids and release numbering of a merged entry are the first candidate's, and its pack is that of the first candidate that has one. |
| `Deduplication.AnyFlagAndLargestMeasure` | internal/provider/coordinator.go:314-319 | A flag of a merged entry is set if any candidate sets it, and a measure is the largest. |
| `Deduplication.ListsAreUnited` | internal/provider/coordinator.go:302-313 | A list of a merged entry is the first candidate's own and after it what the others add, once each and in order. |
| `Deduplication.KeyTellsIdentity` | internal/provider/coordinator.go:260-265 | Two candidates are merged exactly when both have both ids and the ids joined by a NUL agree; and unless one provider id followed by a NUL begins the other, exactly when both ids agree. |
| `Deduplication.IdentitiesConfusedExactly` | internal/provider/coordinator.go:264-264 | Two different provider ids have results that share a key if and only if one of them followed by a NUL begins the other. |
| `Deduplication.NulConfusesIdentities` | internal/provider/coordinator.go:264-264 | With a NUL in a provider id two different identities are merged into one. |

## Left out

- WebVTT files are not shown to read back as the kept cues: notes and free text between cues break the statement; that reordering loses no line is proved for WebVTT too. ASS files read back as Dialogue lines; the parser of their fields is outside the model.
- DialogueRewrite.RepairDialogue: what a line is and how it is retimed are parameters here; `DialogueFields.RepairText` gives them.
- Parsing subtitles into cues, character decoding and MicroDVD conversion: cues come parsed.
- RepairPlan.PlanRepairs: whether a cue is held apart from dialogue is a parameter, as it depends on styles and patterns of the parser.
- OverlapSweep.MergedOverlap: compares exact integers where the code divides floating-point numbers.
- HistoryWindow.ReadHistoryWindow: the client is the sequence of its answers; cancellation is an answer that fails.
- ProviderState.ProviderStates.Persist: a failing state store is an operation that does not happen; log events are left out.
- GatePermits.EveryRunBalances: a permit bound holds for each semaphore; a provider that is reconfigured gets a second one while requests still hold the first.
- GatePermits.NoAdmissionDuringCooldown: a look reads one scope and the clock at one moment. Rate tokens are a step that always can happen.
- SingleFlightCache.TTLCache.StoreLocked: takes a limit of zero or more; with a negative limit the eviction loop of the code does not end.
- SearchLease.LiveLeaseStays: excludes the two statements of `SearchLease.LeaseLostExactly`; the worker's choice among due rows, route pauses, the rank of an instance, the validation of resume lists and migrations are left out. Every other statement on search rows and rejections is an operation.
- PackEviction.PackCache.EvictLocked: file operations either happen or are the modelled errors; what a crash between two of them leaves is covered by the starting states of `PackEviction.EvictionAgrees` and `PackEviction.CrashLosesDirectory`. Sizes are not negative, and a directory is named by its pack's identity and evidence version.
- PackEviction.Put: staging, the verification of an existing directory and failing file operations.
- The lookup loop over cached packs (FindEligible), its path checks and its memo maps.
- WebhookInbox.Inbox.Drain: no arrival during one drain; `WebhookInbox.EveryWebhookIsSettled` covers arrivals between handlings.
- EditDistance.ComputeSimilarity: real numbers where the code rounds.
- The cascade of rules in Select, its compact-number scanner and the episode patterns: token classification would be parameters throughout, and what remains is a chain of unique matches.
- VersionChoice.SelectUntriedAlternatives: strict selection of a pack, of a single member, and the affinity of a name to a release are parameters.
- MemberNames.AssignMemberNames: the case mapping of characters is a parameter that leaves digits alone; names are collected in a map where the code writes them into the slice.
- The registry of stuck media probes: two counters that an abandoned run raises and its end lowers.
- Claiming and running a manual search around its slot and lease, beyond the slot semaphore and the lease statements.
- HTTP, Arr and provider adapters, SQLite itself, migrations, configuration, logging and the command line.
