# A verified model of the Amazon mail notifier

The notifier watches a Gmail inbox, sends a Discord message for every matching mail and remembers in an
append-only log how far it has come. Its promise is that this frontier never passes a message that was not
delivered, and that everything else on disk can be lost and rebuilt. The project models the parts that keep the
promise and proves it over every run:

| file | what it models |
|---|---|
| `Wrappers.dfy`, `Records.dfy` | optional values; JSON values, events, run results, the frontier of a list of events |
| `JsonLines.dfy` | a log file as bytes: appending, reading from an offset, damaged tails and damaged middles |
| `CodecWitness.dfy` | one concrete record codec that meets the laws asked of JSON |
| `CheckpointIndex.dfy` | the checkpoint index: validation, incremental scan, fallback, and every history of it |
| `TornTail.dfy` | what an append does behind a torn tail |
| `CheckpointStore.dfy` | the store as a class over the log, its index and the state snapshot |
| `Doctor.dfy` | the doctor's own scan and its check of the index; rebuilding the index |
| `RunSummary.dfy` | the run summary: rebuilt, folded, resumed from an index, cached with every append |
| `MailSource.dfy` | paging through the listing and selecting the messages of a run |
| `Pipeline.dfy`, `FrontierSafety.dfy` | one run, as methods over the store; what every sequence of runs keeps |
| `FrontierProgress.dfy`, `RunReport.dfy` | how far runs without failures come; when a run's checkpoint is the log's frontier |
| `RunRows.dfy`, `FirstRuns.dfy` | the row a run leaves, its counters and its failure; the setup message, first runs and the move from a snapshot |
| `Recovery.dfy` | runs and crashes together: what the frontier read back from a cut log still means |
| `Dedupe.dfy`, `DedupeHistory.dfy` | dedupe claims, as methods over the file; what every history of them means |
| `Backoff.dfy`, `StreamingPull.dfy` | delays and retries; the trigger worker as a protocol of lock regions and flags |
| `Incidents.dfy` | the incident machine and the two independent checks that read it |
| `TransientAlerts.dfy` | alerts about a lasting network issue |

Outcomes of the outside world (Gmail pages and details, Discord sends, writes to disk, clocks, random jitter, new
ids) are parameters; a theorem speaks of every outcome that its `requires` clauses do not exclude. The record codec is a pair of functions; the log
lemmas hold for every pair that meets the laws of `JsonLines.Lawful` (and `JsonLines.NeverGlues` behind a torn tail).
Loops and objects of the source are methods and classes proved equal to specification functions; the lemmas are
about those functions.

Hypotheses that the theorems name, because the code does not keep the property without them, come with an exact
condition or a counterexample: a torn tail with a later append (`AppendSurvivesIffNotTorn`, `GluedIndexAgreesIff`,
`GluedIndexCanDisagree`), a null checkpoint (`NullCheckpointReadsOnePage`), a lost summary cache
(`FailedSummaryIsRebuiltIff`, `NextSummaryIsRebuiltIff`, `LostUpdateKeepsOldSuccess`), an event without a history id
(`QueueKeepsCoveredIff`, `DisplacedIdIsLost`), a last checkpoint that is no string (`RebuildMakesConsistentIff`), a
commit append that wrote its line and then failed and a first run whose setup message fails (`RunReportsFrontierIff`,
`CommittedReportCanLag`, `FirstReportCanLag`), an alert whose save is lost (`CooldownKeptIff`, `UnsavedAlertRepeats`),
an incident opened over another (`LifecyclePassesIff`), a lost incident event (`LostEventPassesIff`). Where README.md
of the repository says that a backfill processes the existing messages, the code reads only the first listing page
when there is no checkpoint yet; the model follows the code.

## Model

| member | source | states |
|---|---|---|
| JsonLines.LoadJsonlEntries | src/amazon_notify/checkpoint_store.py:461-520 | the reading loop returns the records of the lines from an offset on, ignores a damaged last line, and reports a damaged middle line or a bad offset |
| JsonLines.EveryPrefixLoads | src/amazon_notify/checkpoint_store.py:442-520 | from every byte prefix of an append-only log the loader raises nothing and returns exactly the records whose encoding lies wholly in the prefix, at the offsets the appends returned |
| JsonLines.ScanFromBoundary | src/amazon_notify/checkpoint_store.py:461-520 | scanning a cut log from the line of any record gives the matching suffix of the full scan |
| JsonLines.WholeLogLoads | src/amazon_notify/checkpoint_store.py:442-520 | reading undoes appending |
| JsonLines.LoadSplits | src/amazon_notify/checkpoint_store.py:461-520 | on every file, a readable scan splits at each line boundary into the scans of the two parts |
| JsonLines.LoadShifts | src/amazon_notify/checkpoint_store.py:474-520 | scanning from an offset depends only on the bytes behind it |
| JsonLines.EntriesReadBack | src/amazon_notify/checkpoint_store.py:829-855 | every scanned entry can be read again at its own offset |
| JsonLines.LoadExactly | src/amazon_notify/checkpoint_store.py:461-520 | on every file, reading from the start of a line is an error exactly when some line but the last of the file is malformed, and otherwise finds exactly the lines that are objects, where they start |
| JsonLines.LoadInOrder | src/amazon_notify/checkpoint_store.py:461-520 | the entries found stand in the order of their offsets |
| JsonLines.RStripExactly | src/amazon_notify/checkpoint_store.py:487-515 | stripping a line drops exactly the terminators at its end |
| CodecWitness.FieldCodecIsLawful | src/amazon_notify/checkpoint_store.py:442-446 | the laws asked of the JSON codec hold of a concrete codec of any record type that has fields |
| CodecWitness.EventCodecIsLawful | src/amazon_notify/checkpoint_store.py:305-315 | in particular of one for the events of the log |
| CheckpointIndex.FindLastCheckpointEntry | src/amazon_notify/checkpoint_store.py:863-870 | the backward search finds the last checkpoint event |
| CheckpointIndex.LastCheckpointIsFrontier | src/amazon_notify/checkpoint_store.py:863-870 | that entry is one of the scan, and its value is the frontier of the records |
| CheckpointIndex.GoodIndexAgrees | src/amazon_notify/checkpoint_store.py:522-602 | on every readable file an index whose end is a line boundary and whose checkpoint is the frontier there gives what the full scan gives, and refreshes to such an index |
| CheckpointIndex.OfPrefixIsGoodOnCut | src/amazon_notify/checkpoint_store.py:538-549 | every index of an append-only log stays trustworthy when the tail is cut at any byte |
| CheckpointIndex.LoadGivesFrontier | src/amazon_notify/checkpoint_store.py:133-165 | loading an append-only log gives its last checkpoint, or the snapshot's value when there is none, and bootstraps exactly on an empty log |
| CheckpointIndex.IndexNeverChangesTheAnswer | src/amazon_notify/checkpoint_store.py:133-149 | after every history of interleaved appends (offset sampled at open), lost, late or reordered index writes and loads, and a cut at any byte, loading with any index ever computed equals loading without one |
| CheckpointIndex.StepKeepsAllOfPrefix | src/amazon_notify/checkpoint_store.py:446-452 | each step of such a history keeps every computed index the index of a prefix, whatever offset it carries |
| CheckpointIndex.AppendedIndexIsUsed | src/amazon_notify/checkpoint_store.py:522-602 | the index an append wrote is accepted with any events behind it: the index path alone finds the frontier and moves the index to the end of the log |
| TornTail.AppendSurvivesIffNotTorn | src/amazon_notify/checkpoint_store.py:442-520 | an append to a cut log is read back, and leaves the log readable for the next append, if and only if the cut was at a line boundary |
| TornTail.GluedIndexAgreesIff | src/amazon_notify/checkpoint_store.py:446-573 | the index of that append is always accepted; it agrees with the full scan if and only if the cut was at a line boundary or the two name the same checkpoint |
| TornTail.GluedIndexCanDisagree | src/amazon_notify/checkpoint_store.py:446-573 | a concrete log on which the two answers differ |
| CheckpointStore.JsonlCheckpointStore.AppendJsonl | src/amazon_notify/checkpoint_store.py:442-459 | one line is added, or nothing, and the offset and end are reported |
| CheckpointStore.JsonlCheckpointStore.AppendEvent | src/amazon_notify/checkpoint_store.py:305-324 | only a successful append of a checkpoint event updates the index |
| CheckpointStore.JsonlCheckpointStore.AdvanceCheckpoint | src/amazon_notify/checkpoint_store.py:272-303 | the checkpoint event comes first, the snapshot follows only a success |
| CheckpointStore.JsonlCheckpointStore.CompleteInitialSync | src/amazon_notify/checkpoint_store.py:221-263 | the same for the event that completes the first synchronisation |
| CheckpointStore.JsonlCheckpointStore.LoadCheckpoint | src/amazon_notify/checkpoint_store.py:133-165 | the result on any log and index content, and on an append-only log its frontier; the bootstrap append and its failure |
| CheckpointStore.LoadRefreshesIndex | src/amazon_notify/checkpoint_store.py:133-149 | loading an append-only log leaves an index of the whole log that the next load accepts |
| CheckpointStore.JsonlCheckpointStore.LoadInitialSyncState | src/amazon_notify/checkpoint_store.py:167-219 | what any log says about the first run, the index refresh on the way for a log of an older installation, and that for an append-only log it is what the records say |
| CheckpointStore.JsonlCheckpointStore.RebuildCheckpointIndex | src/amazon_notify/checkpoint_store.py:410-421 | the index after a rebuild, from any content before it |
| Doctor.ScanJsonl | src/amazon_notify/status/_collect.py:98-157 | the doctor's scanning loop, which takes a line of white space for a damaged one |
| Doctor.StoreLoadsWhatDoctorReads | src/amazon_notify/status/_collect.py:98-157 | whatever the doctor reads without an error the store loads as the same rows |
| Doctor.DoctorReadsEveryPrefix | src/amazon_notify/status/_collect.py:98-157 | on an append-only log cut anywhere the doctor reads the same rows as the store |
| Doctor.DoctorReadsExactly | src/amazon_notify/status/_collect.py:98-157 | on every file the doctor fails exactly when it stumbles before the last line, and ignores that line exactly when it stumbles there |
| Doctor.AppendedIndexPassesIff | src/amazon_notify/status/_doctor.py:245-291 | the index an append wrote passes the check if and only if its checkpoint is still the frontier |
| Doctor.AppendedIndexStaysConsistent | src/amazon_notify/status/_doctor.py:245-291 | so it passes while only other events follow |
| Doctor.ConsistentIndexGivesFrontier | src/amazon_notify/status/_doctor.py:245-291 | when the index check passes and the index ends at a line boundary, the store's index path yields the frontier |
| Doctor.ConsistentIndexLoads | src/amazon_notify/status/_doctor.py:245-291 | then loading gives what the full scan gives: the doctor's frontier, or the snapshot when there is no checkpoint event |
| Doctor.RebuildMakesConsistentIff | src/amazon_notify/checkpoint_store.py:404-421 | a rebuild makes the check pass, on any log the doctor reads, if and only if the last checkpoint is null or a string |
| RunSummary.FoldEqualsRebuild | src/amazon_notify/checkpoint_store.py:781-816 | folding rows behind any non-empty prefix gives the summary rebuilt from all rows |
| RunSummary.FailedSummaryIsRebuiltIff | src/amazon_notify/checkpoint_store.py:683-697 | when the cached summary describes the first rows of the log, the one that a failed result caches is the rebuilt one if and only if no later row succeeded |
| RunSummary.CachedSuccessIsRightIff | src/amazon_notify/checkpoint_store.py:683-697 | after every sequence of appends with any outcomes, the cached time of the last success is right if and only if the last success reached the cache that the next append reads |
| RunSummary.NextSummaryIsRebuiltIff | src/amazon_notify/checkpoint_store.py:683-697 | after every sequence of appends, the summary the next result caches is the rebuilt one if and only if that result is a success or the last success before it reached the cache |
| RunSummary.LostUpdateKeepsOldSuccess | src/amazon_notify/checkpoint_store.py:683-697 | a success whose index update is lost, between a cached success and a cached failure, leaves the older success in the index |
| RunSummary.ResumedEqualsRebuilt | src/amazon_notify/checkpoint_store.py:617-681 | resuming an index that summarises any prefix gives the rebuilt summary |
| RunSummary.PrefixIndexSummarises | src/amazon_notify/checkpoint_store.py:691-696 | the index an append caches is such an index, also later and when the tail is cut |
| RunSummary.AppendedRunIndexIsUsed | src/amazon_notify/checkpoint_store.py:617-681 | the index that appending a row wrote is accepted with any rows behind it and gives the rebuilt summary |
| RunSummary.LoadRefreshesRunIndex | src/amazon_notify/checkpoint_store.py:617-681 | loading moves it to the last row and the end of the log |
| RunSummary.ScanRuns | src/amazon_notify/status/_collect.py:68-95 | the doctor's own fold over the run log |
| RunSummary.DoctorAgreesOnSuccess | src/amazon_notify/status/_collect.py:72-95 | it finds the store's time of the last success when that is a non-empty string or there was no success |
| RunSummary.RunSummaryStore.AppendRunResult | src/amazon_notify/checkpoint_store.py:326-353 | the row and both caches after an append, as one step of the sequences above, and that no lost update keeps the caches right |
| RunSummary.RunSummaryStore.LoadRunSummaryFromIndex | src/amazon_notify/checkpoint_store.py:617-681 | the index path: validation, and folding the rows behind the indexed part |
| RunSummary.RunSummaryStore.LoadLastRunSummary | src/amazon_notify/checkpoint_store.py:355-378 | the summary through index, snapshot or rebuild, and the rebuilt one when no update was lost |
| MailSource.ScanPage | src/amazon_notify/gmail_source.py:311-317 | one page contributes its ids in front of the checkpoint |
| MailSource.SelectNewMessages | src/amazon_notify/gmail_source.py:296-342 | the paging loop, the reversal and the truncation, with every way to raise |
| MailSource.SelectsOldestNewer | src/amazon_notify/gmail_source.py:302-342 | for any split into pages: a fetch failed, or the checkpoint is not visible and its absence is raised, or exactly the oldest `maxMessages` newer messages are selected, oldest first |
| MailSource.SelectsWithoutHole | src/amazon_notify/gmail_source.py:302-342 | the selection starts right behind the checkpoint in the mailbox and has no hole |
| MailSource.ListingFailsIff | src/amazon_notify/gmail_source.py:267-305 | a failing fetch is raised exactly when paging comes to its page |
| MailSource.VisibleEndsAtEmptyPage | src/amazon_notify/gmail_source.py:305-308 | paging sees exactly the pages in front of the first empty one |
| MailSource.NullCheckpointReadsOnePage | src/amazon_notify/gmail_source.py:298-320 | without a checkpoint only the first page is read; the oldest message is reached if and only if that page holds everything |
| Pipeline.NotificationPipeline.CommitCheckpoint | src/amazon_notify/pipeline.py:173-180 | a commit, its failure and the failure event of a failed commit |
| Pipeline.NotificationPipeline.ProcessOne | src/amazon_notify/pipeline.py:84-107 | one message: detail, classification, notification, and only then the commit |
| Pipeline.NotificationPipeline.ProcessMessages | src/amazon_notify/pipeline.py:81-107 | the loop stops at the first failure |
| Pipeline.NotificationPipeline.SendSetupNotification | src/amazon_notify/pipeline.py:154-168 | the setup message and its marker event |
| Pipeline.NotificationPipeline.InitializeIfNeeded | src/amazon_notify/pipeline.py:120-152 | the first synchronisation, in both modes |
| Pipeline.NotificationPipeline.FetchAndProcess | src/amazon_notify/pipeline.py:80-107 | recovery, service, listing and messages |
| Pipeline.NotificationPipeline.LoadCheckpoint | src/amazon_notify/pipeline.py:66 | the frontier a run starts from |
| Pipeline.NotificationPipeline.HandleError | src/amazon_notify/pipeline.py:182-215 | the failure event of a failed run, and when marking the transient issue raises once more |
| Pipeline.NotificationPipeline.PersistRunResult | src/amazon_notify/pipeline.py:238-251 | the row a result becomes, and what a result that cannot be stored turns into |
| Pipeline.NotificationPipeline.RunOnce | src/amazon_notify/pipeline.py:63-118 | one run over the byte-level store equals the specification of a run, and keeps the store valid |
| FrontierSafety.FrontierNeverPassesUndelivered | src/amazon_notify/pipeline.py:81-111 | after every sequence of runs with any settings and outcomes, with incident and failure events logged in between, every matching message after the start and up to the log's frontier has had its notification return true |
| FrontierSafety.FrontierNeverMovesBack | src/amazon_notify/pipeline.py:173-180 | the frontier never moves back in inbox order |
| FrontierSafety.DeliveriesAreBounded | src/amazon_notify/pipeline.py:95-107 | a message is delivered at most once more than its commit append failed |
| FrontierProgress.FailureFreeRunAdvances | src/amazon_notify/gmail_source.py:335-344 | a failure-free run whose paging reaches the frontier moves it by exactly `maxMessages`, or to the newest message, and delivers exactly the matching messages in between in order |
| FrontierProgress.EnoughRunsReachTheNewest | src/amazon_notify/gmail_source.py:335-344 | the rounded-up quotient of failure-free runs, with any non-checkpoint events logged in between, reaches the newest message, each matching message delivered once, oldest first |
| FrontierSafety.FirstRunSkipsExisting | src/amazon_notify/pipeline.py:136-152 | a first run that skips existing mail puts the frontier at the newest message and delivers nothing, once its initial event is in the log |
| FrontierSafety.RoundsKeepSafe | src/amazon_notify/pipeline.py:63-118 | the safety invariant holds between any two moments of any sequence of runs on a growing mailbox |
| FrontierSafety.LoggedKeepsSafe | src/amazon_notify/notifier.py:286-293 | events logged between runs that are no checkpoints keep the safety invariant |
| FrontierSafety.RunKeepsSafe | src/amazon_notify/pipeline.py:63-118 | one run with any outcomes keeps the safety invariant |
| RunReport.RunCountsAddUp | src/amazon_notify/pipeline.py:217-236 | the counters of a run account for every message, and the notified ones are those delivered |
| RunReport.MessagesReportFrontierIff | src/amazon_notify/pipeline.py:81-107 | the messages of a run leave the log's frontier in its result if and only if the first one that does not pass is not committed by an append that writes its line and then fails, and one passed or the two agreed before |
| RunReport.RunReportsFrontierIff | src/amazon_notify/pipeline.py:63-180 | for every run with a result, the first one included: it names the log's frontier if and only if the named condition on what the run meets holds |
| RunReport.FirstReportCanLag | src/amazon_notify/pipeline.py:147-152 | a first run whose setup message raises reports no checkpoint while the log names the newest message |
| RunReport.CommittedReportCanLag | src/amazon_notify/pipeline.py:253-263 | a run whose commit append writes its line and then fails reports the message before |
| RunRows.RunAddsOneRow | src/amazon_notify/pipeline.py:217-251 | a run adds one row or none; the row names where the run started, and its checkpoint is the log's frontier exactly under the condition above; a result that is not stored becomes a failure |
| RunRows.RowCounts | src/amazon_notify/pipeline.py:84-107 | the run delivers exactly the target messages it looked at whose notification returned true, in order, and the counters of the row count its messages by how far they came |
| RunRows.RowTellsMessageFailure | src/amazon_notify/pipeline.py:108-111 | a run that comes to its messages fails with the first one that does not pass; row and last event tell at which step it stopped |
| RunRows.RowTellsSourceFailure | src/amazon_notify/errors.py:20-69 | a run that does not come to its messages tells in its row why, and asks for an alert unless the failure passes by itself |
| RunRows.RunRaisesIff | src/amazon_notify/pipeline.py:182-215 | a run ends with an exception exactly when it is to note a transient issue and that raises |
| RunRows.DryRunLeavesOnlyItsRow | src/amazon_notify/pipeline.py:253-257 | a dry run delivers and logs nothing, and its row names the last message all the same |
| RunRows.SummaryAfterRun | src/amazon_notify/checkpoint_store.py:759-816 | the summary rebuilt behind a run tells where it started and how it ended, and the time of the last success |
| RunRows.InitialSyncWithCheckpoint | src/amazon_notify/checkpoint_store.py:167-219 | a log with a checkpoint is never initialised again, and its setup message is sent exactly when the log has the first synchronisation but not the message |
| FirstRuns.RunMarksIff | src/amazon_notify/pipeline.py:126-168 | a run logs the setup message as sent exactly when it was due, sent, and the line written |
| FirstRuns.SetupIsMarkedOnce | src/amazon_notify/pipeline.py:126-168 | over every sequence of runs it is logged at most once |
| FirstRuns.FirstSyncIsRecorded | src/amazon_notify/pipeline.py:136-152 | the first synchronisation is logged with its mode and the message it starts from |
| FirstRuns.FailedFirstRunStaysFirstIff | src/amazon_notify/checkpoint_store.py:202-219 | a first run that fails leaves the installation new if and only if its result made no snapshot |
| FirstRuns.SnapshotBecomesFrontier | src/amazon_notify/checkpoint_store.py:150-165 | an installation with only a snapshot goes on from its checkpoint, and no matching message behind it is passed undelivered |
| Recovery.RecoveredFrontierIsDelivered | src/amazon_notify/checkpoint_store.py:133-165 | after every sequence of runs with any outcomes and of crashes that cut lines off the log's tail, loading from the log cut at any further byte, with or without an index, succeeds and gives a message up to which every matching message since the start was delivered |
| Recovery.StepsKeepDurable | src/amazon_notify/pipeline.py:63-118 | every such sequence keeps a log whose checkpoint events name consecutive messages from the start to the frontier, all matching ones delivered |
| Recovery.KeptFrontier | src/amazon_notify/checkpoint_store.py:863-870 | the frontier of any kept part of the log is never behind the start and never in front of the frontier of the whole log |
| Recovery.LoadCutLog | src/amazon_notify/checkpoint_store.py:461-602 | from a log cut at any byte, loading with or without an index gives the frontier of the records that are still whole, or the snapshot's value when they hold no checkpoint event |
| Dedupe.DropOldest | src/amazon_notify/discord_client.py:203-216 | above the cap exactly the largest entries by time of last send and key remain |
| Dedupe.NewestIsUnique | src/amazon_notify/discord_client.py:203-216 | there is only one such map |
| Dedupe.DedupeFile.PruneEntries | src/amazon_notify/discord_client.py:165-216 | the pruning loop, and that the changed flag is true exactly when the map changed |
| Dedupe.PruneTwice | src/amazon_notify/discord_client.py:165-216 | pruning again at the same time is a no-op |
| Dedupe.PruningKeepsDecision | src/amazon_notify/discord_client.py:273-302 | pruning within the cap never changes a later decision |
| Dedupe.PruningRemovesStale | src/amazon_notify/discord_client.py:165-201 | what pruning leaves is alive, keeps its last send, and keeps its claim exactly while that runs; within the cap every live entry stays |
| Dedupe.CapKeepsLatest | src/amazon_notify/discord_client.py:203-216 | above the cap a live entry is dropped only for ones sent later, or at the same time under a greater key |
| Dedupe.TextLessIff | src/amazon_notify/discord_client.py:203-216 | keys are ordered by the first place where they differ |
| Dedupe.DedupeFile.Reserve | src/amazon_notify/discord_client.py:255-317 | the decision, the claim, what is written on either branch, and that a failing lock or write allows the send without a claim |
| Dedupe.DedupeFile.Finalize | src/amazon_notify/discord_client.py:320-351 | only the owner of a live claim settles it, and only when lock and write succeed |
| Dedupe.DedupeFile.PostWithDedupe | src/amazon_notify/discord_client.py:446-479 | a refused send reports success without sending; a granted or bypassed one reports its own result; a claim is settled in whatever others left of the file meanwhile |
| Dedupe.DedupeFile.Prune | src/amazon_notify/discord_client.py:226-230 | reading the summary prunes the file when lock and write succeed |
| Dedupe.KeysSeparateMessages | src/amazon_notify/discord_client.py:32-37 | every window has its length and lies within the retention time, and keys of different messages differ |
| DedupeHistory.ApplyIsTheFile | src/amazon_notify/discord_client.py:165-351 | within the cap, the operations of a history are what the methods of the file promise |
| DedupeHistory.RefusedExactlyWhen | src/amazon_notify/discord_client.py:255-317 | after every history, a reserve is refused exactly when the history holds an effective successful finalize less than a window ago or an unsettled claim younger than 120 s |
| DedupeHistory.AliveExactlyWhen | src/amazon_notify/discord_client.py:165-201 | the file holds a live entry exactly for a running claim or an effective send within the retention time |
| DedupeHistory.PrunedFileHolds | src/amazon_notify/discord_client.py:165-201 | after a prune the file holds exactly those keys |
| DedupeHistory.NoEmptyEntry | src/amazon_notify/discord_client.py:344-348 | no entry without a send and a claim ever stays |
| DedupeHistory.SendersAreDisjoint | src/amazon_notify/discord_client.py:290-310 | a sender that settles in time has settled before the key is granted again |
| DedupeHistory.GrantAfterWindow | src/amazon_notify/discord_client.py:276-288 | a grant comes at least one window after every effective successful finalize before it |
| DedupeHistory.FinalizeWritesIffHeld | src/amazon_notify/discord_client.py:334-351 | a finalize changes the file if and only if its owner still holds the claim |
| Backoff.DelayInBounds | src/amazon_notify/backoff.py:29-37 | every delay lies between the capped exponential delay and the maximum, and exceeds the former by no more than the jitter ratio |
| Backoff.DelayDoubles | src/amazon_notify/backoff.py:29-34 | the delay starts at the base or the maximum and doubles from attempt to attempt until it is capped |
| Backoff.RetryWithBackoff | src/amazon_notify/backoff.py:40-78 | which call decides the result, how many calls are made and how long it sleeps between them |
| StreamingPull.NoEventIsLost | src/amazon_notify/streaming_pull.py:257-298 | in every reachable state a pending event has its wake-up, no event is lost or counted twice, triggered ids strictly increase, and with no id displaced and nothing pending or in hand the last triggered id is at least every accepted one |
| StreamingPull.QueueKeepsCoveredIff | src/amazon_notify/streaming_pull.py:257-288 | queueing an event keeps every accepted id covered if and only if it does not displace a pending id that nothing else covers |
| StreamingPull.DisplacedIdIsLost | src/amazon_notify/streaming_pull.py:260-298 | a run in which an event without an id displaces one with an id, for which no trigger is ever started |
| StreamingPull.MergeKeepsIdsIff | src/amazon_notify/streaming_pull.py:260-268 | merging two events keeps the ids they cover if and only if it is not one without an id behind one with an id |
| StreamingPull.HaltsExactlyOnFailures | src/amazon_notify/streaming_pull.py:300-366 | barring a stop from outside, the worker halts exactly when the last N started triggers all failed, and every pause is within its bounds |
| StreamingPull.NoTriggerAfterwards | src/amazon_notify/streaming_pull.py:356-360 | then it starts none any more |
| StreamingPull.PendingIsTaken | src/amazon_notify/streaming_pull.py:368-399 | from any state without a stop, a worker left alone takes the pending event in fewer than eight steps |
| StreamingPull.TriggerStartsIff | src/amazon_notify/streaming_pull.py:401-430 | in every run a step starts a trigger exactly when idle time has passed or the event in hand has no id or one beyond all that were triggered |
| StreamingPull.PendingIsAnswered | src/amazon_notify/streaming_pull.py:368-430 | so a pending event ends in a trigger of its own, unless one was started for its id or a later one |
| StreamingPull.QuietWorkerSleeps | src/amazon_notify/streaming_pull.py:290-298 | with nothing pending the worker is soon waiting with the flag down |
| StreamingPull.StopIsAnswered | src/amazon_notify/streaming_pull.py:368-440 | a stopped worker is gone within six steps and starts at most the trigger for an event it has or takes |
| StreamingPull.EveryFailurePauses | src/amazon_notify/streaming_pull.py:328-366 | exactly the failures that do not make the worker give up are followed by a pause each, in order |
| StreamingPull.BacklogWarnedIff | src/amazon_notify/streaming_pull.py:270-286 | the backlog warning stands exactly while enough events are pending |
| StreamingPull.StepKeepsInv | src/amazon_notify/streaming_pull.py:257-440 | every step of callbacks, stops and worker keeps the invariants |
| StreamingPull.StreamingPullRunner.QueueUnderLock | src/amazon_notify/streaming_pull.py:258-286 | the lock region of a callback |
| StreamingPull.StreamingPullRunner.SetTriggerEvent | src/amazon_notify/streaming_pull.py:287 | its flag set, outside the lock |
| StreamingPull.StreamingPullRunner.DequeueEvent | src/amazon_notify/streaming_pull.py:290-298 | the lock region of the worker |
| StreamingPull.StreamingPullRunner.DecideTrigger | src/amazon_notify/streaming_pull.py:401-417 | the duplicate check |
| StreamingPull.StreamingPullRunner.FinishTrigger | src/amazon_notify/streaming_pull.py:328-366 | counting failures, pausing, giving up |
| StreamingPull.StreamingPullRunner.Execute | src/amazon_notify/streaming_pull.py:368-440 | any interleaving performed on the runner keeps the invariants |
| Incidents.IncidentStateStore.SuppressIncident | src/amazon_notify/incident_store.py:37-51 | counting a suppression and logging it |
| Incidents.IncidentStateStore.OpenIncident | src/amazon_notify/incident_store.py:53-74 | opening an incident |
| Incidents.IncidentStateStore.RecoverIncident | src/amazon_notify/incident_store.py:76-104 | recovering from it |
| Incidents.IncidentStateStore.HandleIncidentLifecycle | src/amazon_notify/notifier.py:125-214 | what a run's result does to the incident |
| Incidents.HandlingKeepsFrontier | src/amazon_notify/notifier.py:125-214 | handling a result only appends to the event log, never a checkpoint |
| Incidents.CheckIncidentEventLifecycle | src/amazon_notify/verify_state.py:88-127 | the loop of the lifecycle checker |
| Incidents.LifecyclePassesIff | src/amazon_notify/verify_state.py:88-127 | the log that handling leaves passes the checker if and only if no incident was opened while one of another kind was active |
| Incidents.CheckerAcceptsIff | src/amazon_notify/verify_state.py:88-127 | the checker accepts any rows if and only if each incident event fits the ones before it |
| Incidents.ActiveIff | src/amazon_notify/notifier.py:125-214 | after every history an incident is active if and only if an alert was sent and saved and no recovery since |
| Incidents.ActiveKindIs | src/amazon_notify/notifier.py:125-214 | its kind is that of the last saved alert |
| Incidents.HandlingLogs | src/amazon_notify/incident_store.py:37-104 | which event a handling appends, a recovery under the kind that was active |
| Incidents.StateAlwaysMatches | src/amazon_notify/status/_doctor.py:364-397 | the state-against-event check always passes, and the stored count is the number of suppressions since the last open |
| Incidents.LostEventPassesIff | src/amazon_notify/status/_doctor.py:364-397 | when an event is lost, exactly when the check still passes |
| TransientAlerts.TransientState.RecordTransientIssue | src/amazon_notify/gmail_transient_state.py:86-147 | recording an error, deciding on an alert, and saving after the alert was sent, with every way the save ends |
| TransientAlerts.TransientState.ClearTransientIssueKeys | src/amazon_notify/gmail_transient_state.py:55-63 | clearing the issue |
| TransientAlerts.TransientState.NotifyRecoveryIfNeeded | src/amazon_notify/gmail_transient_state.py:150-180 | when a recovery is tried, when the issue is cleared, and how the save ends |
| TransientAlerts.AlertsKeepCooldown | src/amazon_notify/gmail_transient_state.py:66-83 | any two alerts without a clear between them are at least the later one's clamped cooldown apart when the file remembers the earlier one, whatever happens to other saves |
| TransientAlerts.CooldownKeptIff | src/amazon_notify/gmail_transient_state.py:129-147 | an alert keeps the cooldown from all alerts that may follow before a clear if and only if its save reached the file or the file named its time already |
| TransientAlerts.UnsavedAlertRepeats | src/amazon_notify/gmail_transient_state.py:129-147 | an alert whose save raises is sent again a second later |
| TransientAlerts.AlertsKeepDuration | src/amazon_notify/gmail_transient_state.py:66-83 | no alert comes before the first saved record since the last clear, or itself, plus the clamped minimum duration |
| TransientAlerts.RecoveryTriedIff | src/amazon_notify/gmail_transient_state.py:157-180 | a recovery message is tried exactly when an alert was sent and saved since the last clear |
| TransientAlerts.AlertSentIff | src/amazon_notify/gmail_transient_state.py:66-143 | a record sends an alert if and only if it can, the issue began long enough ago and the last saved alert is long enough ago, all told from the calls |
| TransientAlerts.FileTellsCalls | src/amazon_notify/gmail_transient_state.py:86-180 | the state file holds exactly when the issue began, when it was last seen and when an alert was last saved |
| TransientAlerts.RecoveryStartsAfresh | src/amazon_notify/gmail_transient_state.py:150-180 | behind a recovery that was sent and saved, an alert needs a new issue of the clamped minimum duration |
| TransientAlerts.QuietRecoveryStartsAfresh | src/amazon_notify/gmail_transient_state.py:161-165 | so it does behind a saved recovery with nothing to take back, however its message would have ended |
| TransientAlerts.OccurrencesCountRecords | src/amazon_notify/gmail_transient_state.py:116-125 | the stored occurrences count the saved records since the last clear |

## Left out

- JSON, UTF-8, SHA-256, unique ids and fsync: library code; the codec laws and the freshness of owners are hypotheses.
- Values that Python counts as false apart from null and the empty string: `JsonValue.Other` stands for true ones.
- A missing log file: it reads like an empty one.
- A failing append that leaves part of a line: the pipeline's appends leave nothing or the whole line; `TornTail.dfy` says what a torn line does.
- Mail that arrives between two page fetches of one run: each run sees one listing.
- The page size asked of Gmail, the message texts and the parsing of mail headers: no property beyond one branch.
- Gmail, OAuth, Discord and Pub/Sub calls: only their outcomes.
- Token issues, heartbeat snapshots, metrics, retention, failover, the command line and the configuration.
- The wall-clock test for the idle interval and the 0.5 s wait: the worker may find either outcome.
- Floating point: times and delays are reals.
- Pipeline.NotificationPipeline.RunOnce: asks for a log that was only appended to; a damaged log is covered at the level of the store, whose loading method asks for nothing.
- Recovery.RecoveredFrontierIsDelivered: a crash in the middle of the sequence leaves whole lines, because a torn line with a later append glues two records (`TornTail.AppendSurvivesIffNotTorn`); only the last cut is at any byte. Its index describes the log as it is after the crashes, so an index of lost lines counts as deleted once the log grows again.
- FrontierSafety.FrontierNeverPassesUndelivered: "delivered" is "notify returned true", which a send suppressed by somebody else's live claim also does (`Dedupe.DedupeFile.PostWithDedupe`).
- DedupeHistory.RefusedExactlyWhen: needs the number of entries within the cap, above which a live claim may be dropped; lock and write succeeding, without which a send is allowed with no claim (`Dedupe.DedupeFile.Reserve`); and clock readings that do not run back in the order of the lock, although the code reads the clock before it takes the lock.
- TransientAlerts.TransientState.RecordTransientIssue: does not model a state file that cannot be read, or the copy of the state that is kept in memory.
- RunSummary.NextSummaryIsRebuiltIff: speaks of appends only; a load in between may repair a cache (`RunSummary.RunSummaryStore.LoadLastRunSummary`).
- RunReport.RunReportsFrontierIff: leaves out dry runs, which report messages they do not commit (`RunRows.DryRunLeavesOnlyItsRow`).
