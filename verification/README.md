# OpportunityOS in Dafny

OpportunityOS is a single-user job-acquisition service. This project models the parts of it whose
correctness depends on whole runs, on failures between durable writes, on concurrency, or on
arithmetic and ordering, and proves what those parts are for.

| file | what it models |
|---|---|
| `Wrappers.dfy`, `Strings.dfy`, `Sorting.dfy` | optional values, string order and Python's stable `sorted`, shared by the rest |
| `Pipeline.dfy` | pipeline events and the replay that derives a stage from them |
| `Inbox.dfy`, `InboxMeaning.dfy`, `InboxLoop.dfy` | the polling loop over an append-only mailbox, its SQLite store, and a process that may die before any durable write while the founder acknowledges notifications |
| `ArtifactCache.dfy` | cached artifacts in two stores (SQL rows, external objects), with every remote call and commit allowed to fail, to fail after taking effect, or to be cut short by a crash |
| `Tracker.dfy` | the founder tracker: an event log with idempotency keys, undo and attestations |
| `UpsertRace.dfy` | workers racing to upsert one evaluation row, step by step |
| `Ranking.dfy` | tie-averaged ranks and the rank correlation |
| `Feed.dfy` | the composed feed: one item per family, employer caps |
| `Behavior.dfy` | learned role and source affinities and the affinity score |
| `Seniority.dfy` | months of experience as a union of month intervals, and level thresholds |
| `RateLimit.dfy` | the in-memory sliding-window and the durable fixed-window login limiters |
| `HiddenFilter.dfy` | the lightweight computation of hidden ids, with its memo tables, against the exact filters |
| `Facets.dfy` | facet counts, and merging them batch by batch |
| `Grouping.dfy` | grouping into a dict of lists and joining the lists again |
| `Clustering.dfy` | family clustering and its corpus check |
| `Skills.dfy` | the skills section: selection and grouping by category |

Objects that the program updates in place are classes; loops that update variables are methods
proved against a specification function or predicate; concurrent workers are a state machine over
their steps. Failures are inputs: a run is quantified over every schedule of deaths, failed calls,
acknowledgements, batch limits or interleavings.

The main theorems:

- **Inbox.** `InboxLoop.Orchestrator.RunSchedule` keeps, over every schedule of deliveries,
  acknowledgements and cycles, the invariant that the store holds exactly the effects of one
  sequential pass over a prefix of the mailbox plus a partial set for the next message, with the
  committed cursor behind it (`Consistent`, part of `Valid()`). `RunThenDrain` closes the
  refinement: after any schedule, enough uninterrupted cycles leave exactly the sequential pass
  over everything delivered. `InboxMeaning` says what that pass stores in the terms of the mailbox
  alone, down to the chain of stages each opportunity goes through.
- **Cache.** `ArtifactCache.Cache.Run` keeps every external row's object absent or byte-identical
  over every run of stores under every failure, and traces each new object without a row to a store
  whose schedule holds the crash, the double failure or the misreported upload that explains it.
  `StoreThenGet` says exactly when a store makes its artifact available, and `Stranded` is a run
  after which every store returns at once and no retrieval succeeds.
- **Tracker.** `FounderTracker.Tracker.Run` keeps the triage table equal to the log's latest
  results, at most one open attestation per opportunity and exactly one where the state is
  `applied`; no two requests undo one event, and no two requests with one key both change anything.
  `SameInstant` shows that undo needs a clock that moves on, for every digest.
- **Upsert.** `UpsertRace.Linearizable`: an interleaving leaves the table that the single atomic
  statements leave in commit order if and only if no cell was lost, and none is if updates write
  every column. `FinalRowIff`: the final row carries the last committer's values if and only if that
  worker's own update was well timed. A mapper that writes only the columns that differ from what
  the worker read can fail this; `SkippedColumn` is a concrete run.
- **Arithmetic and order.** Spearman's rho lies in [-1, 1] by a proof of Cauchy-Schwarz, and its
  equality case makes rho 1 or -1 exactly for agreeing or opposite orders; the durable limiter
  admits at most `2 * max - 1` attempts in a window and `WorstCase` reaches that for every `max`;
  total experience is the number of distinct months covered; the feed, the clustering, the replay
  and the profile do not depend on input order.

Where code and documentation disagree, the model follows the code. The docstring of
`check_family_invariants` promises no family spanning two employers; the code compares raw
spellings while families are keyed by normalized ones. `Clustering.TwoSpellings` makes the check
count a violation for any employer name, and `Clustering.CrossEmployerZeroIff` states exactly when
its count is zero. `_upsert_match_evaluation` is described as equivalent to the
PostgreSQL statement; `UpsertRace.Linearizable` states exactly when it is.

## Model

| member | source | states |
|---|---|---|
| `Strings.LeMeaning` | inbox/pipeline.py:53-102 | text order: a prefix comes first, and otherwise the first differing character decides |
| `Pipeline.ReplayEvents` | inbox/pipeline.py:53-102 | the sort-then-loop replay computes the fold over the sorted events, with an empty log giving the initial state |
| `Pipeline.ReplayPermutation` | inbox/pipeline.py:53-102 | with distinct event ids, every order of the same events replays to the same state |
| `Pipeline.LastDictatingDecides` | inbox/pipeline.py:23-102 | the last stage-setting event in replay order decides the stage, whatever came before |
| `Pipeline.ConfirmationRule` | inbox/pipeline.py:23-51 | without a stage-setting event, a confirmation lifts a discovered or empty opportunity to applied, and nothing else moves it |
| `Pipeline.ReplayClosedForm` | inbox/pipeline.py:23-102 | both rules together, for every supplied list of events |
| `Pipeline.EventOrder` | inbox/pipeline.py:53-102 | events are replayed by occurrence, then recording, then id |
| `Pipeline.LatestEventDecides` | inbox/pipeline.py:53-102 | of the events that set a stage, the one that occurred last decides, in whatever order they are supplied |
| `Pipeline.ReplayReports` | inbox/pipeline.py:53-102 | the replay counts every event, asks for action exactly if some event does, in the words of the last one that does, and names the last event |
| `Pipeline.RecordedStageIsReplayedStage` | inbox/pipeline.py:116-139 | an event that sorts last stores the stage a later replay derives, with "no events" read as applied |
| `InboxEffects.Resume` | inbox/orchestrator.py:88-112 | resuming a message after any of its three effects leaves what an uninterrupted run leaves |
| `InboxEffects.PassPresent` | inbox/orchestrator.py:83-115 | after a sequential pass every message, and every message with equal content, has all its effects |
| `InboxEffects.SkipSeen` | inbox/ingestion.py:117-126 | redelivered content changes nothing in a pass |
| `InboxEffects.EventIdsDistinct` | inbox/persistence.py:237-261 | a pass never stores two events with one id |
| `InboxEffects.EventIsOwn` | inbox/pipeline.py:111-139 | with collision-free event ids, a linked message's stored event carries its own signal, opportunity and category |
| `InboxMeaning.ReconciliationsExactly` | inbox/orchestrator.py:92-104 | there is a reconciliation exactly for each message that confirms, through the first action recorded for its opportunity, an outcome that is unknown, and what it says |
| `InboxMeaning.NotificationsExactly` | inbox/notifications.py:34-56 | there is a notification exactly for each message that is urgent, high or medium or asks for action, and what it says |
| `InboxMeaning.EventsRecorded` | inbox/pipeline.py:116-139 | every event records the earliest message with its content, field by field |
| `InboxMeaning.EventsComplete` | inbox/pipeline.py:123-139 | every authoritatively linked message is recorded |
| `InboxMeaning.StagesStored` | inbox/pipeline.py:127-129 | whatever the dates, an event stores the stage that any listing of its opportunity's earlier events replays to, applied if there is none, and the stage its category leads to from there |
| `InboxMeaning.StagesChain` | inbox/pipeline.py:116-139 | if messages about an opportunity arrive in the order of their timestamps, its first event starts at applied, each later one where the one before it ended, and each ends where a replay of everything up to it ends |
| `InboxStore.DurableInboxStore.Survive` | inbox/persistence.py:350-361 | before a write, acknowledgements may arrive or the process may die; neither loses nor reopens an acknowledgement |
| `InboxStore.DurableInboxStore.StoreEvidence` | inbox/persistence.py:139-164 | insert-or-ignore of the message by content hash, as FETCHED |
| `InboxStore.DurableInboxStore.MarkEvidenceProcessed` | inbox/persistence.py:166-177 | exactly this message becomes PROCESSED; no message is added, dropped or altered |
| `InboxStore.DurableInboxStore.IsEvidenceProcessed` | inbox/persistence.py:179-189 | true exactly for messages on file and PROCESSED |
| `InboxStore.DurableInboxStore.StorePipelineEvent` | inbox/persistence.py:237-261 | appended exactly if its id is new |
| `InboxStore.DurableInboxStore.StoreNotification` | inbox/persistence.py:303-327 | inserted exactly if its key is new; an acknowledged notification stays acknowledged |
| `InboxStore.DurableInboxStore.AcknowledgeNotification` | inbox/persistence.py:350-361 | acknowledges exactly the named notification and reports whether it exists |
| `InboxStore.DurableInboxStore.SaveCheckpoint` | inbox/persistence.py:363-377 | overwrites the cursor, or nothing if the process is dead |
| `InboxStore.DurableInboxStore.RecordReconciliation` | inbox/persistence.py:390-415 | insert-or-ignore of the reconciliation |
| `InboxLoop.MailTransport.FetchMessages` | inbox/ingestion.py:29-36 | the slice and the next cursor, for every cursor and every limit, negative ones included |
| `InboxLoop.Orchestrator.StoreBatch` | inbox/ingestion.py:117-126 | files every fetched message and returns those not yet PROCESSED, in order; touches no effect |
| `InboxLoop.Orchestrator.ReconcileConfirmation` | inbox/orchestrator.py:92-104 | a confirmation of an action with unknown outcome is reconciled once |
| `InboxLoop.Orchestrator.RecordSignalEvent` | inbox/pipeline.py:116-139 | one event per signal and authoritative opportunity, as a sequential pass stores it |
| `InboxLoop.Orchestrator.ProcessSignal` | inbox/notifications.py:34-56 | one notification per key, for actionable or high-priority signals only |
| `InboxLoop.Orchestrator.WriteEffects` | inbox/orchestrator.py:88-112 | the tables are those after the first n of the three effects, n being where the process died |
| `InboxLoop.Orchestrator.HandleMessage` | inbox/orchestrator.py:83-115 | the message becomes PROCESSED only after all three effects |
| `InboxLoop.Orchestrator.HandleBatch` | inbox/orchestrator.py:83-119 | handles the polled messages in order, keeping the invariant, with exact counters |
| `InboxLoop.Orchestrator.Poll` | inbox/orchestrator.py:79-81 | polling changes no effect, cursor or PROCESSED flag |
| `InboxLoop.Orchestrator.CommitCursor` | inbox/orchestrator.py:121-122 | the cursor is committed only over messages that are PROCESSED |
| `InboxLoop.Orchestrator.RunCycle` | inbox/orchestrator.py:74-129 | a cycle that dies anywhere, or completes, keeps the invariant and all acknowledgements; a completed one reports exact counts and commits exactly the next cursor |
| `InboxLoop.Orchestrator.RunSchedule` | inbox/orchestrator.py:74-129 | every interleaving of deliveries, acknowledgements and cycles, with any limits and deaths, keeps the invariant |
| `InboxLoop.Orchestrator.Drain` | inbox/orchestrator.py:74-129 | at most one uninterrupted cycle per outstanding message, with any positive limits, brings the store to the sequential pass over the whole mailbox |
| `InboxLoop.Orchestrator.RunThenDrain` | inbox/orchestrator.py:74-129 | whatever schedule came before, draining leaves exactly the sequential pass over all that was delivered, with every acknowledgement kept |
| `InboxLoop.HandleKeepsConsistent` | inbox/orchestrator.py:83-115 | handling a message to its n-th effect, or to the end, keeps the store a sequential prefix plus one partial message |
| `InboxLoop.CommitKeepsConsistent` | inbox/orchestrator.py:121-122 | moving the cursor over a processed prefix keeps the invariant |
| `InboxLoop.BelowCursorComplete` | inbox/orchestrator.py:74-122 | every message below the committed cursor is PROCESSED with all its effects stored |
| `InboxLoop.OnlyNextIsPartial` | inbox/orchestrator.py:74-122 | stored effects are those of the sequential pass, never duplicated, plus rows caused by the next message only |
| `InboxLoop.DrainedIsSequential` | inbox/orchestrator.py:74-122 | once the cursor reaches the end, the store equals one sequential pass over the whole mailbox |
| `ArtifactCache.DeletionSound` | api/artifact_cache.py:248-252 | losing objects breaks no row and orphans nothing |
| `ArtifactCache.UploadSound` | api/artifact_cache.py:147-161 | a new object under an unused key breaks no row and is the only new orphan |
| `ArtifactCache.AppendSound` | api/artifact_cache.py:279-286 | committing a row over its own object keeps the table sound and adopts the object |
| `ArtifactCache.WithoutOrphans` | api/artifact_cache.py:269-272 | dropping rows whose objects are gone orphans nothing |
| `ArtifactCache.EvictionBound` | api/artifact_cache.py:295-302 | after eviction exactly 500 rows are left if there were more, and all of them otherwise |
| `ArtifactCache.NewestSurvives` | api/artifact_cache.py:295-302 | a row newer than every other is never evicted |
| `ArtifactCache.Cache.DeleteExternal` | api/artifact_cache.py:248-252 | only objects of the given rows go; on success all of them are gone |
| `ArtifactCache.Cache.Upload` | api/artifact_cache.py:147-161 | never overwrites; success means the object holds exactly these bytes, and `True` means this call created it; a failure changes the store only if the schedule holds a crash or a misreported call |
| `ArtifactCache.Cache.Get` | api/artifact_cache.py:232-245 | returns exactly the bytes the row was created with, nothing, or an error; a row is returned exactly if its body is within reach |
| `ArtifactCache.Cache.Compensate` | api/artifact_cache.py:288-294 | takes back this call's upload, or says that it could not |
| `ArtifactCache.Cache.CommitRow` | api/artifact_cache.py:285-294 | the replacement is committed or the upload is undone; the cleanup error arises only when commit and compensation both fail |
| `ArtifactCache.Cache.Prepare` | api/artifact_cache.py:264-278 | stale objects are removed before the new body is in place; any failure leaves the rows intact, and a new orphan is explained by the schedule |
| `ArtifactCache.Cache.DropStale` | api/artifact_cache.py:264-270 | removes only stale rows' objects, never the new key's, and orphans nothing |
| `ArtifactCache.Cache.PutBody` | api/artifact_cache.py:276-278 | adds at most the new key's object, and on failure only with an explanation in the schedule |
| `ArtifactCache.Cache.Insert` | api/artifact_cache.py:264-302 | the rows are the old ones, the replaced ones or the evicted ones; an object is orphaned only by a crash, by a commit and a cleanup that both failed, or by a misreported upload in the schedule |
| `ArtifactCache.Cache.Evict` | api/artifact_cache.py:295-302 | only the oldest rows beyond the bound go, objects first |
| `ArtifactCache.Cache.Store` | api/artifact_cache.py:255-302 | under every failure the cache stays sound and objects are never overwritten; if no call in the schedule failed after taking effect, orphans grow only on a failed compensation or a crash, each shown by the schedule; a stored artifact has no row for another truth pack left, and while there is room no row of another opportunity, kind or template, nor its object, is touched |
| `ArtifactCache.OthersStay` | api/artifact_cache.py:264-272 | which rows a store replaces, in the fields of the request |
| `ArtifactCache.KeysSeparate` | api/artifact_cache.py:29-30 | requests whose fields are free of bars have keys of their own |
| `ArtifactCache.KeysCollide` | api/artifact_cache.py:29-30 | others may share one, which the binding check then reports |
| `ArtifactCache.Cache.Run` | api/artifact_cache.py:255-302 | over every run of stores, each new orphan is the object of a store whose result and schedule explain it |
| `ArtifactCache.Cache.StoreThenGet` | api/artifact_cache.py:232-302 | a fresh artifact can be retrieved exactly if it was not evicted at once, which a newest row never is; one already stored exactly if its body is within reach |
| `ArtifactCache.Stranded` | api/artifact_cache.py:255-302 | a commit that fails after taking effect strands the row: every later store returns at once and every retrieval fails |
| `FounderTracker.LatestIsLastAppended` | api/tracker_service.py:189-196 | with a clock that moves on, the latest-activity query returns the event appended last |
| `FounderTracker.LatestIff` | api/tracker_service.py:189-196 | the query returns the last event appended exactly if that event is greatest in `(created_at, id)` order |
| `FounderTracker.SameInstant` | api/tracker_service.py:189-196 | for every digest and two actions in one instant, exactly one of the two ways to key them makes the query pass over the last action, which then cannot be undone |
| `FounderTracker.PreviousIsLastBefore` | api/tracker_service.py:202-211 | the previous-activity query yields the state before the latest event |
| `FounderTracker.UndoNeverLandsOnApplied` | api/tracker_service.py:78-89 | no undoable action leaves `applied`, so no restore lands there |
| `FounderTracker.Edges` | api/tracker_service.py:78-89 | from which states each target may be reached |
| `FounderTracker.Targets` | api/tracker_service.py:35-41 | the state each action leads to |
| `FounderTracker.IdsSeparate` | api/tracker_service.py:69-75 | under an injective digest, an event id names its opportunity and key, whatever the action and time |
| `FounderTracker.UnkeyedIdsSeparate` | api/tracker_service.py:69-75 | without a key, the action and the time |
| `FounderTracker.Tracker.Transition` | api/tracker_service.py:92-157 | changes state exactly for admissible moves along an allowed edge under a new event id; a repeat changes nothing and is told the current state, or what its event recorded once the opportunity is back to review; otherwise an error and no change; needs no assumption about the clock |
| `FounderTracker.Tracker.Attest` | api/routes_api.py:2500-2537 | reuses the open attestation or opens one, and only for this opportunity |
| `FounderTracker.Tracker.Submit` | api/routes_api.py:2484-2540 | transition and attestation together keep "applied has exactly one open attestation", with the same answers |
| `FounderTracker.Tracker.FindUndoable` | api/tracker_service.py:183-196 | an event may be undone exactly if the latest-activity query returns it and it is a save, application or rejection, whatever the clock did |
| `FounderTracker.Tracker.Moves` | api/tracker_service.py:198-200 | the "state no longer matches" refusal is never reached |
| `FounderTracker.Tracker.StateBefore` | api/tracker_service.py:202-211 | the state to return to is the one before the undone event, never `applied` |
| `FounderTracker.Tracker.WithdrawAttestation` | api/tracker_service.py:221-234 | closes this opportunity's open attestation and no other |
| `FounderTracker.Tracker.Undo` | api/tracker_service.py:202-245 | restores exactly the state before, logs it, and the event had not been undone before |
| `FounderTracker.Tracker.RestoreTransition` | api/tracker_service.py:160-245 | when an undo happens and what it restores; a replayed one reports what its own event recorded; a refused or replayed one changes nothing |
| `FounderTracker.Tracker.ActThenUndo` | api/tracker_service.py:160-245 | an action followed by its undo returns every opportunity to the state it was in |
| `FounderTracker.Tracker.Serve` | api/tracker_service.py:92-245 | a request makes exactly the log entry its outcome describes, or none |
| `FounderTracker.Tracker.Run` | api/tracker_service.py:92-245 | over every run of requests the invariants hold, the log grows by exactly the entries of the requests that changed something, no two of them undo one event, and no two with one key both change anything |
| `UpsertRace.StepKeepsInv` | matching/evaluate_persist.py:232-262 | every step of every worker keeps one row per opportunity and per key |
| `UpsertRace.ReachableInv` | matching/evaluate_persist.py:232-262 | so does every interleaving of any number of workers |
| `UpsertRace.ConflictMeansRow` | matching/evaluate_persist.py:246-253 | a rejected insert finds the winner's row on re-selection, unless the opportunity itself is missing |
| `UpsertRace.NeverReraises` | matching/evaluate_persist.py:248-256 | a worker re-raises only if its opportunity is missing, and then it never finishes normally |
| `UpsertRace.CommitIsAtomic` | matching/evaluate_persist.py:237-242 | an update acts as the atomic statement exactly if it writes every column or skips only columns that still hold its value |
| `UpsertRace.Linearizable` | matching/evaluate_persist.py:214-262 | the table after an interleaving is that of the atomic statements in commit order exactly if no cell was lost, and always if updates write every column; each finished worker committed once |
| `UpsertRace.LastCommitterWins` | matching/evaluate_persist.py:214-230 | after atomic statements in any order a row carries its last committer's columns |
| `UpsertRace.StepCell` | matching/evaluate_persist.py:237-262 | a step sets exactly the cells it assigns and does not skip |
| `UpsertRace.CellIff` | matching/evaluate_persist.py:214-262 | rows always agree with the atomic statements, and a cell does exactly if the last commit for it did not skip a value that had changed |
| `UpsertRace.FinalRowIff` | matching/evaluate_persist.py:232-262 | the opportunity's one row carries its last committer's truth pack and values exactly if that worker's own update skipped nothing that had changed, whatever happened to the others |
| `UpsertRace.FinalRow` | matching/evaluate_persist.py:232-262 | with a mapper that writes every column, the last committer's truth pack and values always stand, and every other column is as that commit found it |
| `UpsertRace.InsertedId` | matching/evaluate_persist.py:244-247 | an inserted row has the inserting worker's id |
| `UpsertRace.StepKeepsRows` | matching/evaluate_persist.py:232-262 | no step removes a row or rewrites its id |
| `UpsertRace.AtomicAllRow` | matching/evaluate_persist.py:214-230 | rows appear exactly for committed opportunities, and an existing row keeps its key |
| `UpsertRace.SkippedColumn` | matching/evaluate_persist.py:237-242 | a concrete two-worker run in which a mapper writing only changed columns drops the last committer's value |
| `UpsertRace.Alone` | matching/evaluate_persist.py:232-245 | a worker that is not interleaved acts as the atomic statement in both modes |
| `UpsertRace.FinishesInFourTurns` | matching/evaluate_persist.py:232-262 | a worker finishes within four of its own steps whatever the others do |
| `RankCorrelation.AverageRanks` | matching/ranking_calibration.py:377-389 | the in-place tie-averaging loop gives each item the number of smaller values plus half of one more than the number of equal ones |
| `RankCorrelation.RanksAddUp` | matching/ranking_calibration.py:377-389 | the ranks of n items add up to n(n+1)/2 however they tie |
| `RankCorrelation.RanksRespectOrder` | matching/ranking_calibration.py:377-389 | ranks compare exactly as values do |
| `RankCorrelation.RankPermutation` | matching/ranking_calibration.py:377-389 | ranks move with any permutation of the input |
| `RankCorrelation.RescalingKeepsRanks` | matching/ranking_calibration.py:377-389 | a strictly increasing rescaling keeps every rank |
| `RankCorrelation.PearsonInRange` | matching/ranking_calibration.py:392-401 | numerator squared is at most the product of the squared deviations, so the quotient lies in [-1, 1] |
| `RankCorrelation.PearsonUndefinedIff` | matching/ranking_calibration.py:392-401 | unavailable exactly if one list is constant |
| `RankCorrelation.Proportional` | matching/ranking_calibration.py:392-401 | the bound is reached only by proportional deviations |
| `RankCorrelation.SpearmanRange` | matching/ranking_calibration.py:354-401 | rho lies in [-1, 1] and, from two items on, is unavailable exactly if scores or labels are constant |
| `RankCorrelation.SpearmanRescaling` | matching/ranking_calibration.py:354-401 | rho is unchanged by strictly increasing rescalings |
| `RankCorrelation.SpearmanAgreement` | matching/ranking_calibration.py:354-401 | rho is 1 exactly if the scores distinguish items and order them as the labels do |
| `RankCorrelation.SpearmanReversal` | matching/ranking_calibration.py:354-401 | rho is -1 exactly if they order them the other way round |
| `Feed.ComposeForYou` | matching/recommendation_engine.py:220-272 | without a limit the whole feed, with one its first max(0, limit) ids |
| `Feed.RankInventory` | matching/recommendation_engine.py:232-250 | the dict-building loop and sort compute the ranked inventory |
| `Feed.PlaceByCaps` | matching/recommendation_engine.py:251-264 | the cap loop computes the selected and deferred parts |
| `Feed.ItemsAreRepresentatives` | matching/recommendation_engine.py:232-246 | the inventory is every ungrouped for_you item and, per family, the maximum by rank key with the smallest id |
| `Feed.OnePerFamily` | matching/recommendation_engine.py:242-246 | no family has two representatives |
| `Feed.FeedIsInventory` | matching/recommendation_engine.py:220-272 | the unlimited feed lists each representative once and nothing else |
| `Feed.FeedPermutation` | matching/recommendation_engine.py:220-272 | the feed does not depend on the order of recommendations or candidates |
| `Feed.CapsHold` | matching/recommendation_engine.py:254-264 | in the capped part no employer exceeds 4 of the first 20 or 6 of the first 50 places |
| `Feed.AllHeldBack` | matching/recommendation_engine.py:254-261 | an item is deferred only if, where it was due, its employer had used up its share |
| `Feed.FeedStructure` | matching/recommendation_engine.py:251-269 | the feed is a capped part, then the deferred items, each part best first |
| `Feed.AboveIff` | matching/recommendation_engine.py:133-138 | a rank key is above another exactly if it is greater at the first of the seven components where they differ |
| `Feed.TierThenFit` | matching/recommendation_engine.py:133-138 | a greater tier wins, and at equal tiers a better fit |
| `Feed.FeedBestFirst` | matching/recommendation_engine.py:243-269 | in either part of the feed nothing is outranked by something after it, and equal keys go by id |
| `Feed.RepresentativeIsBest` | matching/recommendation_engine.py:242-246 | no member of a family outranks the one shown |
| `Feed.CandidateFields` | matching/recommendation_engine.py:231-256 | families and employers are those of the candidate with the item's id |
| `Behavior.BuildBehaviorProfile` | matching/recommendation_engine.py:45-92 | the accumulating loop computes, per role and source, total worth over one more than the evidence count |
| `Behavior.AffinityStrict` | matching/recommendation_engine.py:82-87 | an affinity lies strictly between the extreme worths of a single signal, so its clamp never acts |
| `Behavior.ScoreStrict` | matching/recommendation_engine.py:35-42 | role affinities lie in (-24, 20), source affinities in (-6, 5), the score in (20, 75), for every history |
| `Behavior.RepeatedSignals` | matching/recommendation_engine.py:62-87 | a signal seen n times moves its role n/(n+1) of the way to 20, -24 or 12, and its source a quarter as far; a label goes before an action |
| `Behavior.ExcludingIsDeleting` | matching/recommendation_engine.py:59-61 | excluding an opportunity equals deleting its signals first |
| `Behavior.ProfilePermutation` | matching/recommendation_engine.py:45-92 | the profile does not depend on the order of the signals |
| `Seniority.MergeMonthRanges` | matching/seniority.py:198-212 | merged ranges cover the same months, ascend, and leave a month uncovered between neighbours |
| `Seniority.TotalCounts` | matching/seniority.py:224-225 | for such ranges the sum of lengths is the number of months covered |
| `Seniority.TotalMonths` | matching/seniority.py:215-225 | the total is the number of distinct months covered by a counted span |
| `Seniority.OneSpan` | matching/seniority.py:187-225 | one role counts every calendar month from its first to its last, an open one up to the given date, an internship or inverted span none |
| `Seniority.WorkedMonotone` | matching/seniority.py:215-232 | more spans or a later date never mean fewer months |
| `Seniority.WorkedPermutation` | matching/seniority.py:215-232 | the order and repetition of spans do not matter |
| `Seniority.MonthsInFamily` | matching/seniority.py:242-256 | the family total counts months of matching spans and is at most the overall total |
| `Seniority.FamilyWorked` | matching/seniority.py:235-256 | the family's months are those of counted spans that match one of its aliases |
| `Seniority.PeopleLeadership` | matching/seniority.py:259-272 | found exactly if a counted span describes leadership, citing exactly those spans |
| `Seniority.Assess` | matching/seniority.py:319-361 | the totals, the verdict, the gap and the references cited, stated on the employment history |
| `Seniority.LevelsNest` | matching/seniority.py:291-361 | meeting a level means meeting every lower one, now and with more employment or time |
| `Seniority.LevelBars` | matching/seniority.py:291-297 | 2, 5, 10 and 15 years for mid, senior, staff and principal, the last two with leadership |
| `RateLimit.LoginRateLimiter.CheckAndRecord` | api/security.py:224-238 | accepts exactly while fewer than max accepted attempts are in the window; no window ever holds more than max; waiting the returned time with nothing accepted meanwhile guarantees acceptance |
| `RateLimit.LoginRateLimiter.Reset` | api/security.py:240-242 | a new budget |
| `RateLimit.AcceptBounded` | api/security.py:224-238 | accepting below the limit keeps every window of that length within it |
| `RateLimit.WaitSuffices` | api/security.py:230-235 | after the returned wait the oldest remembered attempt has expired |
| `RateLimit.WaitTight` | api/security.py:230-235 | the wait is at most a second more than needed |
| `RateLimit.DurableRateLimiter.Check` | api/security.py:90-112 | over every run with a monotone clock no window length holds more than 2*max-1 accepted attempts; when it accepts, and what it tells a refused caller |
| `RateLimit.NewWindow` | api/security.py:104-111 | opening a new window keeps the bound, because the old window's first attempt is a full length away |
| `RateLimit.SameWindow` | api/security.py:104-111 | accepting inside the current window keeps the bound |
| `RateLimit.WorstCase` | api/security.py:90-112 | for every budget some run reaches 2*max-1 |
| `HiddenFilter.FilterCaches.RedLinesMatches` | api/filters.py:343-383 | the memoised matcher answers as the matcher, from any reachable memo state |
| `HiddenFilter.FilterCaches.ExcludedIndustriesMatches` | api/filters.py:447-493 | likewise for excluded industries |
| `HiddenFilter.FilterCaches.ApplyFilters` | api/filters.py:901-942 | the accumulating loop computes the exact outcome |
| `HiddenFilter.FilterCaches.IsHidden` | api/routes_api.py:338-361 | the per-row verdict from title, organization and description |
| `HiddenFilter.FilterCaches.FillMissing` | api/routes_api.py:316-374 | after scoring the missing rows every row has a right entry |
| `HiddenFilter.FilterCaches.LightweightHiddenIds` | api/routes_api.py:301-379 | equals the ids the exact pass hides, for every corpus and memo state |
| `HiddenFilter.FilterCaches.CountHidden` | api/routes_api.py:2644-2650 | fast and exact path report the same count |
| `HiddenFilter.HiddenIff` | api/filters.py:901-942 | a record is hidden exactly if an enabled hide-mode filter matches |
| `HiddenFilter.HidesMeaning` | api/filters.py:700-805 | a filter hides if set to; with nothing set, the two text filters and no other |
| `HiddenFilter.FlaggedIff` | api/filters.py:901-942 | a record is flagged by exactly the marking filters that match it, and moves down once for each ranking one |
| `HiddenFilter.AllRegistered` | api/filters.py:700-805 | the registry lists every filter |
| `HiddenFilter.ExactIsVerdictOrOther` | api/routes_api.py:338-361 | for each record and matcher, the exact pass hides what the lightweight verdict or another filter hides |
| `HiddenFilter.VerdictDiffersIff` | api/routes_api.py:271-282 | the passes disagree about a record exactly if another filter hides it and no text filter does |
| `HiddenFilter.VerdictExact` | api/routes_api.py:271-282 | whenever no other filter hides, which the guard demands, the lightweight verdict is the exact one |
| `HiddenFilter.NothingHidden` | api/routes_api.py:305-306 | the early return of no ids is right |
| `HiddenFilter.PrefilterNeeded` | api/routes_api.py:271-282 | the guard's condition on filters is exact: the verdict is right about every record under every matcher if and only if it holds |
| `Facets.FacetPayload` | api/facets.py:231-277 | one facet's counts, states and excluded count, listed by ascending value |
| `Facets.ShownIff` | api/facets.py:181-195 | a value is shown exactly if it is included, or nothing is, and it is not excluded |
| `Facets.StateTells` | api/facets.py:257-264 | the state listed with a value tells why it is hidden |
| `Facets.FacetPayloads` | api/facets.py:214-278 | one such payload per facet definition |
| `Facets.CountsAppend` | api/facets.py:250-256 | counting is a homomorphism from concatenation to pointwise sum |
| `Facets.MergedCells` | api/routes_api.py:418-422 | merging two rendered lists gives the cells of the concatenation |
| `Facets.MergePayload` | api/routes_api.py:416-426 | the merge of two payloads is the payload of the concatenated contexts |
| `Facets.MergeFacetPayloads` | api/routes_api.py:415-426 | the in-place merge of all facets |
| `Facets.ListFacets` | api/routes_api.py:978-985 | however the table is cut into batches, and whatever the clock shows at each, the aggregate is the single-pass payload of every visible row as it was read |
| `Facets.SteadyClock` | api/routes_api.py:978-985 | while the clock crosses no bucket boundary, that is one pass at one instant |
| `Facets.SelectAppend` | api/routes_api.py:167-176 | filtering batch by batch visits each row once and in order |
| `Facets.PayloadTotals` | api/facets.py:250-275 | counts add up to the number of contexts, and the excluded count to the counts of the hidden values |
| `Facets.PayloadUnique` | api/facets.py:257-275 | contexts determine the payload |
| `Facets.BatchingAgrees` | api/routes_api.py:978-985 | a single pass and any batching return the same payloads |
| `Grouping.Group` | opportunity/clustering.py:230-233 | the `setdefault(...).append(...)` loop files each item under its key, keys by first appearance |
| `Clustering.SameFamilyIff` | opportunity/clustering.py:136-151 | two postings share a family key exactly if normalized employer and title agree |
| `Clustering.BestIsBest` | opportunity/clustering.py:208-219 | no member beats the selected one: scored before unscored, higher score, then smaller id |
| `Clustering.ClusterMembers` | opportunity/clustering.py:222-255 | the two loops produce the family of every key, by ascending key |
| `Clustering.FamilyMeaning` | opportunity/clustering.py:235-254 | a family holds exactly the members with its key, ids ascending; its best member is scored if any is, has the highest score and then the smallest id; the right locations and disagreement flag |
| `Clustering.ClusterPartition` | opportunity/clustering.py:222-255 | keys strictly ascend, every member has a family, and member counts add up to the input |
| `Clustering.ClusterPermutation` | opportunity/clustering.py:222-255 | with unique ids every input order gives the same families |
| `Clustering.CheckFamilyInvariants` | opportunity/clustering.py:265-297 | with unique ids and a collision-free digest, counts zero title violations, and zero employer violations exactly if no employer key hides two spellings |
| `Clustering.CrossTitleZero` | opportunity/clustering.py:284-296 | no family spans two normalized titles, read back through the id table |
| `Clustering.CrossEmployerZeroIff` | opportunity/clustering.py:284-294 | the employer count is zero exactly if postings that normalize alike spell their employer alike |
| `Clustering.SeparatorIgnored` | opportunity/clustering.py:136-137 | a separator anywhere in an employer name does not change its key |
| `Clustering.TwoSpellings` | opportunity/clustering.py:284-297 | for every employer name, two spellings of it under one title are counted as one employer violation |
| `Skills.GroupSkills` | matching/document_model.py:546-562 | the ranked dict-of-lists code computes categories by first appearance, order inside each unchanged |
| `Skills.OrderIsFirstAppearance` | matching/document_model.py:548-560 | sorting categories by best rank, and members by rank, changes nothing |
| `Skills.NothingToGroup` | matching/document_model.py:546-562 | with no categories, grouping would be the identity, so the fallback agrees with it |
| `Skills.GroupedMeaning` | matching/document_model.py:546-562 | a permutation with contiguous categories that keeps in-category order, category order and the first skill |
| `Skills.Uncategorised` | matching/document_model.py:549-552 | skills without a category stand with those filed under General |
| `Skills.BuildSkillsSection` | matching/document_model.py:542-562 | ranking, cut and grouping together, for every `max_skills` |
| `Skills.SectionMeaning` | matching/document_model.py:542-562 | shown and omitted skills partition the verified ones; relevant skills are shown before others, and then smaller ids; how many, for every `max_skills` |
| `Skills.SectionPermutation` | matching/document_model.py:542-544 | the ranking does not depend on the order of the truth graph |

## Left out

- Digests: sha256 identities are modelled by the value hashed, or by a function assumed injective; truncation and collisions are not modelled.
- Floating point: scores, times, affinities and correlations are exact reals; the square root is a given non-negative root; final rounding is not modelled.
- Text: classification, correlation, regular expressions, title normalisation, stripping and case folding are opaque functions or done before the model starts.
- Inbox: `processed_at`, notification titles and the explicit override of a message's content hash are not modelled; classifier, correlator and outbound ledger are fixed for a run.
- Inbox: the store is the SQLite one; `inbox/postgres_persistence.py` turns write errors into `False`, so the argument does not carry over to it.
- ArtifactCache.Cache.Prepare: a failed store leaves its pending row deletions to the rollback at the end of the request (api/deps.py:19-28), so they never happen in the model.
- ArtifactCache.Cache.Run: one writer at a time, and the transport's private-bucket check counts as part of each remote call; rows created by other versions of the program are not modelled.
- FounderTracker.Tracker.Run: assumes the clock moves on between requests about one opportunity; `LatestIff` and `SameInstant` show what this assumption buys.
- FounderTracker.Tracker.RestoreTransition: the tracker state only; `snoozed_until` is not modelled.
- FounderTracker.Tracker.Submit: the attestation's own columns other than opportunity, status and time are not modelled.
- UpsertRace.Linearizable: rows and opportunities are not deleted while workers run, and each statement is one atomic step.
- Behavior.BuildBehaviorProfile: the sorted tuple of affinities is modelled as the map it lists.
- Seniority.Assess: the sorted tuples of references are modelled as the sets they list.
- RateLimit.DurableRateLimiter.Check: the row is locked for the whole call, as `FOR UPDATE` does, and the window length is positive.
- HiddenFilter.FilterCaches.LightweightHiddenIds: assumes an (id, content hash) pair determines the text; the thread pool is a sequential loop.
- Facets.ListFacets: the table does not change between batches.
- Clustering.ClusterMembers: titles and employers are normalized by opaque functions; only the employer key's alphanumeric alphabet is used.
- Skills.BuildSkillsSection: the rendered text, evidence and claim ids of each item are not modelled.
- The lightweight rank penalty, the apply/skip metric, recommendation gates, parameter validators and unavailable-reason texts: one-branch or counting facts.
- Tracker notes, follow-ups, interviews and documents, routing, authentication cookies, password hashing, Supabase HTTP, the Gmail adapter, document export, logging, full-text search, the scorer and the truth graph: input/output or outside this core.
