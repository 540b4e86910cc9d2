# Zuihitsu: a verified model of its protocols

Zuihitsu is an event-sourced agent server. Its append-only log is the source of truth; the graph, its
snapshots, the vector index and the live event stream are all derived from the log, while conversations,
model calls and background passes run beside each other. This project models the small protocols that
keep those pieces in agreement and proves what they promise, for every input and every interleaving.

Check everything with `dafny verify dfyconfig.toml`.

| module | models |
|---|---|
| `ConversationTurns`, `TurnRuns`, `TurnLedgers` | the per-conversation deli counter: transitions and invariant, whole runs, the locked map changed in place |
| `ModelArbiters` | turns and background model calls as interleaved steps; the atomic counter and the wait list |
| `EventLog`, `EventStreams` | the append-only log; log, forwarding thread, broadcast and clients |
| `SnapshotFiles`, `SnapshotCaches` | snapshot names and directory; graph and snapshots as folds of log prefixes, across reverts |
| `VectorIndexing`, `VectorConvergence`, `VectorStores` | the cursor-resumed vector projection with crashes, model changes and names looked up batch by batch; when it equals a rebuild; its records and batches |
| `LockOrder` | any number of threads over the engine's mutexes |
| `SearchHits` | the date and the relations a search hit shows to an audience |
| `ByteRanges` | `Range` headers, their resolution and the blob table |
| `AttachmentBudget` | the attachment budgets of a message batch |
| `Words`, `Decimal`, `Wrappers` | 64-bit words and their signed reading; their decimal text; optional values and results |

Three forms recur. A protocol is a `State`, a `Step`, `Enabled`, `Apply`, `Legal` and `Exec`, and its
theorems hold at the end of every legal run. Code that updates state in place is a class or a method with
loops, proved to be the matching step or specification function. Ghost history (`Room`, `State.space`)
records what happened, so that theorems can speak of it without naming the code's own fields.
What a step or a method does is stated twice: as the specification function it equals, and outright, in terms
of the state before it, with what it leaves alone (`CallSteps`, `ClientSteps`, `StepEffects`, `EventAsks`, `CallTakes`).

## Where the code and its comments differ

The model follows the code. In each case below a concrete instance and the exact condition are proved.

* `finished` is not bounded by `outstanding`, as a comment says (`src/instance/turn_ledger.rs:113-116`): two
  tickets leaving early behind one holder break it (`FinishedOutgrowsOutstanding`). The exact size, and the
  exact condition for the bound, are `FinishedCount`.
* A ticket's own arrival need not be outstanding when it is admitted (`src/instance/turn_ledger.rs:299-300`):
  a later ticket that drops first prunes it (`EarlyDropPrunesALiveArrival`). A live ticket's arrival is
  outstanding exactly while no later ticket left early (`OwnArrivalOutstandingIff`). One more arrival then
  anchors the waiting turn after its own arrival (`EarlyDropMovesTheAnchor`); with increasing stamps that is so
  exactly when `finished` and `arrivals` are both non-empty (`AnchorAfterOwnArrivalIff`), and with monotone ones
  never while `finished` is empty (`AnchorNotAfterOwnArrival`).
* A stream asked to start at or past 2^63 replays the whole log, because the word is read as signed
  (`src/store/sqlite.rs:169`): `HighFromReplaysTheLog`, with the exact condition in `StartsWhereAskedIff`.
* Blank text produces no change to a vector at all (`src/model/index/batch.rs:99-109`), so a description
  regenerated to blank keeps its old vector in a caught-up index and has none after a rebuild
  (`BlankedDescription`). `BlankOverVectorDiverges` shows that every log with that pattern can diverge; over
  every other, `PlainVectorsConverge` holds for descriptions and entry texts.
* A contextual vector carries the name its batch found in the graph (`src/instance/workers.rs:94-117`), so two
  ways to the same log need not agree. The indexer may run between an append and the graph's reading of it
  (`IndexerAheadOfTheGraph`), and the graph answers for no deleted memory (`DeletedMemoryKeepsItsContext`); a
  rename does the same. `ContextualConvergesIff` is the exact condition: the entry was dropped again, or every
  graph looked into names its memory as the rebuild does. Vectors that consolidation fills in without the log
  are as a rebuild has them exactly when `BackfillKeepsSettledIff` says.
* A revert truncates the log, removes the graph, removes the vectors and deletes snapshots one by one, as
  separate operations (`src/cli/debug/revert.rs:62-76`). `BootAfterInterruptedRevert` says exactly when the next
  boot, with snapshots on or off, still agrees with the log if the revert stopped anywhere in between;
  `InterruptedRevertExample` is a boot that does not. `StoppedRevertRecoversIff` says exactly when the vector
  index recovers if the revert stopped before removing it: a cursor past the cut skips the next events, and a
  batch cut short past the cut leaves vectors no event accounts for (`CutShortBatchOutlivesTheRevert`).
* A suffix range of an empty blob is satisfiable under section 14.1.2 of RFC 9110 and is refused by the code;
  `EmptyBlobSuffix` proves that this is the only departure in the satisfiability of a range. What is read as a
  range is wider than that section's grammar: positions may carry a plus sign, as `ReadIffSpelled` shows.

## Model

| member | source | states |
|---|---|---|
| `ConversationTurns.ArriveKeepsInvariant` | src/instance/turn_ledger.rs:142-168 | an arrival keeps the counter partition, the slot law and the exact arrivals list |
| `ConversationTurns.ObserveKeepsInvariant` | src/instance/turn_ledger.rs:283-291 | a ticket seeing its epoch served keeps the invariant |
| `ConversationTurns.CommitKeepsInvariant` | src/instance/turn_ledger.rs:292-318 | taking the slot keeps the invariant |
| `ConversationTurns.ExitKeepsInvariant` | src/instance/turn_ledger.rs:187-226 | any exit, in turn or early, superseded or not, keeps the invariant: live epochs are exactly [serving, next_epoch) less `finished`, `outstanding` counts them, `arrivals` is what lies above the largest answered epoch |
| `ConversationTurns.AdvancePartition` | src/instance/turn_ledger.rs:199-210 | landing on the first unfinished epoch re-partitions the live epochs, across any run of finished ones |
| `ConversationTurns.PruneMovesFloor` | src/instance/turn_ledger.rs:212-217 | pruning at an epoch leaves exactly the arrivals above it or above the earlier floor, in order with original times |
| `ConversationTurns.CountsNeverUnderflow` | src/instance/turn_ledger.rs:193-197 | whenever a live holder exits, both counts are positive |
| `ConversationTurns.FinishedCount` | src/instance/turn_ledger.rs:113-116 | the size of `finished` is next_epoch - serving - outstanding; the comment's bound holds iff next_epoch - serving is at most twice `outstanding` |
| `ConversationTurns.ServesALiveHolder` | src/instance/turn_ledger.rs:199-210 | the served epoch is itself live exactly while any holder is |
| `ConversationTurns.AdmissionIsExclusive` | src/instance/turn_ledger.rs:279-319 | one admission at a time; every other holder waits with a higher epoch and every lower epoch has exited |
| `ConversationTurns.AdmittedCountIsPresence` | src/instance/turn_ledger.rs:175-180 | the admitted count is positive iff some holder is admitted |
| `ConversationTurns.ServedWhenNobodyIsAhead` | src/instance/turn_ledger.rs:283-291 | a holder is served iff nobody live is ahead of it, else the served epoch is one of those ahead |
| `ConversationTurns.ExitShortensTheLine` | src/instance/turn_ledger.rs:187-226 | an exit below a holder shortens its line by exactly one, any other by none |
| `ConversationTurns.SupersededIffNewerArrival` | src/instance/turn_ledger.rs:147-158 | a holder sees a higher level iff a newer batch arrived; of two live epochs at most one never does |
| `ConversationTurns.OwnArrivalOutstandingIff` | src/instance/turn_ledger.rs:212-217 | a live ticket's arrival is still listed iff every epoch that left early is below it |
| `ConversationTurns.OwnArrivalOutstandingIffNoneFinishedEarly` | src/instance/turn_ledger.rs:299-304 | the served holder's arrival is still listed iff nobody left early |
| `ConversationTurns.BurstOriginIs` | src/instance/turn_ledger.rs:292-308 | the anchor is the original time of the first epoch above the largest answered one, else the turn's own |
| `ConversationTurns.AnchorNotAfterOwnArrival` | src/instance/turn_ledger.rs:292-308 | with monotone stamps and nobody gone early, the anchor is never after the turn's own arrival |
| `ConversationTurns.AnchorAfterOwnArrivalIff` | src/instance/turn_ledger.rs:292-308 | with increasing stamps the anchor is after the turn's own arrival iff somebody left early and some arrival is unanswered, both read off the entry |
| `TurnRuns.StepKeepsInvariant` | src/instance/turn_ledger.rs:142-226 | every step on any conversation keeps every conversation's invariant, and an entry exists only with a live holder |
| `TurnRuns.EveryRunIsConsistent` | src/instance/turn_ledger.rs:142-226 | the invariant holds at the end of every run over any number of conversations |
| `TurnRuns.EntryLivesWhileHeld` | src/instance/turn_ledger.rs:219-225 | after any run an entry exists iff arrivals exceed exits, and `outstanding` is that difference |
| `TurnRuns.Projection` | src/instance/turn_ledger.rs:187-226 | a conversation ends a run exactly as if its own steps had run alone |
| `TurnRuns.AdmissionsInArrivalOrder` | src/instance/turn_ledger.rs:268-291 | of two admissions in one entry's life the later has the higher epoch, and by then every lower epoch has exited |
| `TurnRuns.LineShrinksByExits` | src/instance/turn_ledger.rs:199-210 | over any run a waiter's line shrinks by exactly the exits below it, and it is served iff all of them happened |
| `TurnRuns.ServedHolderCanMove` | src/instance/turn_ledger.rs:283-291 | an open entry always has a live served holder with a step to take |
| `TurnRuns.AnchorSurvivesSupersededTurns` | src/instance/turn_ledger.rs:212-217 | after any chain in which only superseded turns exit, the next admission reads the same origin |
| `TurnRuns.FinishedOutgrowsOutstanding` | src/instance/turn_ledger.rs:113-116 | three arrivals and two early exits leave more finished epochs than holders |
| `TurnRuns.EarlyDropPrunesALiveArrival` | src/instance/turn_ledger.rs:215-217 | a later ticket's drop empties the list while an earlier one is live and served |
| `TurnRuns.PrunedTurnTakesTheNextAnchor` | src/instance/turn_ledger.rs:301-304 | with no arrival listed, a live turn is anchored at whatever arrives next |
| `TurnRuns.EarlyDropMovesTheAnchor` | src/instance/turn_ledger.rs:292-308 | three arrivals and one early drop anchor the first turn at the third's time |
| `TurnLedgers.TurnLedger.Arrive` | src/instance/turn_ledger.rs:142-168 | the critical section is the arrival step; the ticket's epoch is new and held; the entry gains one outstanding holder and one arrival, announces the epoch, and no other conversation changes |
| `TurnLedgers.TurnLedger.HasAdmittedTurn` | src/instance/turn_ledger.rs:175-180 | true iff the conversation has a live admission |
| `TurnLedgers.TurnLedger.Observe` | src/instance/turn_ledger.rs:283-291 | the ticket goes on iff its epoch is the one the entry serves |
| `TurnLedgers.TurnLedger.Commit` | src/instance/turn_ledger.rs:292-318 | the admission holds the origin the history says it should: the oldest listed arrival's time, or the turn's own when none is listed; nothing else changes |
| `TurnLedgers.TurnLedger.Advance` | src/instance/turn_ledger.rs:203-206 | the skip loop computes the specified landing point and what is left of `finished` |
| `TurnLedgers.TurnLedger.Retain` | src/instance/turn_ledger.rs:215-217 | the retained arrivals are those above the epoch, in order |
| `TurnLedgers.TurnLedger.ExitEntry` | src/instance/turn_ledger.rs:193-217 | the entry's update is the specified one and no count goes negative |
| `TurnLedgers.TurnLedger.Exit` | src/instance/turn_ledger.rs:187-226 | the critical section is the exit step and drops the entry with its last holder; a superseded admission keeps every listed arrival and any other exit exactly those above its epoch; the counter lands on the first epoch that did not leave early; no other conversation changes |
| `ModelArbiters.CounterFollowsGuards` | src/model/priority.rs:95-136 | every step keeps `turns_pending` equal to the number of live guards |
| `ModelArbiters.SleepersStayCovered` | src/model/priority.rs:105-136 | every step keeps: a sleeper not yet woken has a counted turn or a drop still to notify |
| `ModelArbiters.NoLostWakeup` | src/model/priority.rs:105-136 | in every reachable state the counter is the number of live guards and the above holds, and with no guard and no half-done drop nobody sleeps un-notified |
| `ModelArbiters.NoWedge` | src/model/priority.rs:105-120 | with no turn left any waiting call runs to its dispatch by its own steps |
| `ModelArbiters.DispatchFollowsAnIdleInstant` | src/model/priority.rs:175-178 | every dispatch is preceded, after its own call began, by an instant at which every guard had been dropped, cancelled and undrained streams included |
| `ModelArbiters.CallSteps` | src/model/priority.rs:105-120 | a call's step moves that call to its next place, by the counter and its own notification alone, and no turn and no other call |
| `ModelArbiters.TurnSteps` | src/model/priority.rs:95-136 | a turn's step moves that turn and the counter, and only the wake-up reaches the calls |
| `ModelArbiters.NobodyIsHeldUp` | src/model/priority.rs:122-136 | a guard may be dropped while it lives, and a call begun, dropped or carried on, whatever the others do |
| `ModelArbiters.ModelArbiter.EnterTurn` | src/model/priority.rs:95-100 | the increment is the enter step, and touches no other turn and no call |
| `ModelArbiters.ModelArbiter.FetchSub` | src/model/priority.rs:130-132 | the decrement owes a notification iff it left no live guard, and touches no other turn, no call and no registration |
| `ModelArbiters.ModelArbiter.NotifyWaiters` | src/model/priority.rs:133-135 | notifying wakes exactly the registered calls, each where it stands, and empties the wait list |
| `ModelArbiters.ModelArbiter.Load` | src/model/priority.rs:107-107 | the first load lets the call pass iff no turn is pending, and moves nobody else |
| `ModelArbiters.ModelArbiter.Notified` | src/model/priority.rs:108-109 | making the future puts the call, and nobody else, on the wait list, so that no later notification is missed |
| `ModelArbiters.ModelArbiter.Enable` | src/model/priority.rs:110-110 | enabling keeps a notification already caught and goes on catching; nobody else moves |
| `ModelArbiters.ModelArbiter.Reload` | src/model/priority.rs:111-113 | the second load lets the call pass iff no turn is pending, and only then gives up its registration; nobody else moves |
| `ModelArbiters.ModelArbiter.Poll` | src/model/priority.rs:118-118 | a sleeping call goes on iff it is no longer on the wait list; nobody else moves |
| `ModelArbiters.ModelArbiter.Drop` | src/model/priority.rs:105-120 | a call dropped anywhere in its wait is gone, and its registration with it; every other call keeps its place and its registration, and turns and counter are unchanged |
| `EventLog.RowsSinceIsTail` | src/store/sqlite.rs:165-188 | on a contiguous log the selected rows are exactly a tail |
| `EventLog.ReadFromIsTail` | src/store/sqlite.rs:165-188 | a read is the rows from `from` on, or the whole log at or past 2^63 |
| `EventLog.EventStore.Append` | src/store/sqlite.rs:121-163 | a batch gets the next seqs in order, keeps the log contiguous, and reaches every subscriber whole |
| `EventLog.EventStore.Read` | src/store/sqlite.rs:165-188 | a tail of the rows: those numbered `from` or more, or the whole log at or past 2^63 |
| `EventLog.EventStore.Head` | src/store/sqlite.rs:190-198 | the head is the row count and the last row's seq |
| `EventLog.EventStore.TruncateTo` | src/store/sqlite.rs:213-219 | exactly the rows up to the bound stay, none at or past 2^63 where the bound reads as negative, and the count of removed rows is reported |
| `Words.SignedReading` | src/store/sqlite.rs:165-169 | a word is read in the table as its two's complement |
| `EventStreams.SnapshotKeepsLaw` | src/http_server/stream.rs:77-86 | subscribing before reading leaves no row between snapshot and feed |
| `EventStreams.ReceiveKeepsLaw` | src/http_server/stream.rs:101-121 | an event is sent iff it is the next row; one the snapshot covered is dropped; an overrun ends the stream |
| `EventStreams.FeedSteps` | src/http_server/stream.rs:44-58 | only a commit writes rows, numbered on from the log; only the forwarding thread takes one from the queue and broadcasts it |
| `EventStreams.OtherClientsStand` | src/http_server/stream.rs:77-133 | no step touches another client |
| `EventStreams.ClientSteps` | src/http_server/stream.rs:77-130 | a subscription starts at the broadcast's end; the backlog is the rows asked for, sent in order; a receive ends the stream iff more rows wait than the buffer holds, else sends the row unless it was covered; an end keeps what was sent |
| `EventStreams.NobodyIsStuck` | src/http_server/stream.rs:91-130 | a queued row can be forwarded and a client can go on unless it has drained its feed |
| `EventStreams.EveryRunKeepsInvariant` | src/http_server/stream.rs:45-133 | the feed and client laws hold at the end of every interleaving of commits, forwards, subscriptions, reads, lags and ends |
| `EventStreams.GaplessCut` | src/http_server/stream.rs:66-133 | what any client was sent is always consecutive log rows, starting at max(from, 1) below 2^63 |
| `EventStreams.DrainedClientHasEverything` | src/http_server/stream.rs:66-133 | a client that drained its feed has the whole log from its start |
| `EventStreams.StartsWhereAskedIff` | src/store/sqlite.rs:165-169 | a stream starts where it was asked to iff `from` is below 2^63 or the log is empty |
| `EventStreams.HighFromReplaysTheLog` | src/store/sqlite.rs:165-169 | from 2^63 a one-row log is sent again |
| `EventStreams.ReconnectContinues` | src/http_server/stream.rs:66-73 | a reconnection from the last row seen plus one continues the same sequence, ended or still streaming |
| `EventStreams.FreshContinues` | src/http_server/stream.rs:101-109 | the de-duplicated feed is exactly the log rows after the snapshot's horizon |
| `EventStreams.FreshCounts` | src/http_server/stream.rs:101-121 | the number of fresh rows is what was heard before the break less what the horizon covers |
| `EventStreams.RelayedRows` | src/http_server/stream.rs:83-130 | snapshot and fresh rows together are the log after the rows before `from`, up to the later of the snapshot's head and the last event heard |
| `EventStreams.Relay` | src/http_server/stream.rs:83-130 | the loop's frames are the snapshot, the fresh rows, and one end frame iff the feed broke off; whatever contiguous log they were read from, the event frames are its consecutive rows from max(from, 1), each once, up to the later of the snapshot's head and the last event heard, for broken feeds and empty snapshots too |
| `Decimal.ParsePadded` | src/snapshot.rs:22-31 | a zero-padded word parses back |
| `Decimal.ParsePrint` | src/http_server/blobs.rs:204-216 | a printed word parses back |
| `Decimal.LexIsNumeric` | src/snapshot.rs:20-24 | equally long digit strings order as their values do |
| `SnapshotFiles.NameRoundTrip` | src/snapshot.rs:22-31 | parsing a snapshot's name gives its head, for every word |
| `SnapshotFiles.NameOrderIsHeadOrder` | src/snapshot.rs:20-24 | names order as heads do, and differ when heads do |
| `SnapshotFiles.ParsesIff` | src/snapshot.rs:28-31 | a name is a snapshot at a head iff the text between the affixes reads as that head |
| `SnapshotFiles.UnpaddedNamesParse` | src/snapshot.rs:28-31 | for every head the shortest digits are read as well as the padded ones, with or without a plus sign |
| `SnapshotFiles.NamesSpelled` | src/snapshot.rs:20-24 | a name is the fixed affixes around twenty digits with leading zeros, spelled out for two heads |
| `SnapshotFiles.SortLaw` | src/snapshot.rs:41-63 | the listing is ordered by head and loses nothing |
| `SnapshotFiles.SortIsStable` | src/snapshot.rs:61-61 | files at one head keep the directory's order |
| `SnapshotFiles.SnapshotsApart` | src/snapshot.rs:41-63 | the listing holds exactly the files whose names parse, each once, ascending |
| `SnapshotFiles.LatestIs` | src/snapshot.rs:35-37 | of the snapshots no other leads, the one listed last is the latest |
| `SnapshotFiles.LatestNone` | src/snapshot.rs:35-37 | there is none iff no name parses |
| `SnapshotFiles.SnapshotsWithout` | src/snapshot.rs:98-114 | removing files removes exactly their listing entries and keeps the order |
| `SnapshotFiles.PruneKeepsNewest` | src/snapshot.rs:98-114 | pruning keeps exactly the max(keep, 1) newest, or all when there are no more, and the latest is unchanged |
| `SnapshotFiles.DiscardKeepsPrefix` | src/snapshot.rs:120-132 | discarding past `to` keeps exactly the snapshots at or below it |
| `SnapshotFiles.SnapshotDirectory.Newest` | src/snapshot.rs:35-37 | the scan finds the latest snapshot |
| `SnapshotFiles.SnapshotDirectory.Prune` | src/snapshot.rs:98-114 | the max(keep, 1) newest snapshots stay, with the same latest one; exactly the others are deleted and reported, oldest first; no other file goes |
| `SnapshotFiles.SnapshotDirectory.DiscardAfter` | src/snapshot.rs:120-132 | exactly the files whose names parse to a head past `to` are deleted, and reported in order |
| `SnapshotCaches.CatchUpIsFold` | src/instance/mod.rs:335-339 | replay from any agreeing graph ends at the fold of the whole log |
| `SnapshotCaches.SnapshotAgrees` | src/instance/mod.rs:350-370 | writing a snapshot keeps every file a fold of the prefix its name gives |
| `SnapshotCaches.SnapshotFiled` | src/instance/mod.rs:350-370 | the graph is on file under its head after a snapshot, and one file is new or none |
| `SnapshotCaches.LostGraphIsRestored` | src/snapshot.rs:65-94 | a graph lost after a snapshot is restored by the next boot, or a newer one is, and the boot ends at the fold of the log |
| `SnapshotCaches.StepEffects` | src/instance/mod.rs:323-370 | each step changes only its own part of log, graph and directory, and to what |
| `SnapshotCaches.RevertLeaves` | src/cli/debug/revert.rs:62-76 | a revert below the head leaves the first `to` events, no graph, and exactly the snapshots at or below `to` |
| `SnapshotCaches.DiscardAgrees` | src/snapshot.rs:116-132 | what a discard leaves agrees with the truncated log |
| `SnapshotCaches.BootAgrees` | src/instance/mod.rs:323-348 | a boot, restored from a snapshot or not, ends with the graph equal to the fold of the whole log |
| `SnapshotCaches.CachesAgreeOverRuns` | src/snapshot.rs:71-132 | over every run of append, replay, snapshot, prune, graph loss, boot and revert, the graph and every snapshot are folds of the current log's prefixes |
| `SnapshotCaches.SkippedSnapshotIsCurrent` | src/instance/mod.rs:363-366 | a file already under the graph's head holds that very graph |
| `SnapshotCaches.LatestIsHighest` | src/snapshot.rs:35-37 | the latest snapshot has the highest head of the directory |
| `SnapshotCaches.StoppedRevertLeaves` | src/cli/debug/revert.rs:62-76 | a revert stopped past its cut has the cut log, its graph or none, and exactly the files not yet deleted |
| `SnapshotCaches.BootAfterInterruptedRevert` | src/cli/debug/revert.rs:62-76 | wherever the revert stopped, inside the deletions too, and with snapshots on or off, the next boot agrees with the log iff nothing it looks at was captured past the cut, and otherwise ends ahead of its log |
| `SnapshotCaches.BootAfterCleanStop` | src/http_server/mod.rs:164-173 | in the agreeing case the boot ends at the fold of the cut log and whatever it appended |
| `SnapshotCaches.InterruptedRevertExample` | src/cli/debug/revert.rs:62-76 | a snapshot that outlives the cut is restored, and one append later head and log agree while the contents do not |
| `SnapshotCaches.Instance.MaterializeFrom` | src/instance/mod.rs:335-339 | the loop replays everything past the graph's head and counts it; an agreeing graph ends at the fold of the whole log |
| `SnapshotCaches.Instance.RestoreIfStale` | src/snapshot.rs:71-94 | the newest snapshot's content replaces the graph iff it leads it |
| `SnapshotCaches.Instance.WriteSnapshot` | src/instance/mod.rs:355-370 | a file is written iff the name is free, and holds the graph; a file of that name exists afterwards, every old file is still in place, and no other is new |
| `SnapshotCaches.Instance.BootUp` | src/instance/mod.rs:323-348 | the boot sequence is the specified boot, and from an agreeing state ends at the fold of the whole log |
| `VectorIndexing.CrashKeepsSettled` | src/instance/workers.rs:120-124 | a batch that stops after any of its writes leaves a settled vector settled, whatever names it looked up if an unread event will decide the vector, agreeing ones otherwise |
| `VectorIndexing.CatchUpSettles` | src/instance/workers.rs:86-124 | a full batch whose names agree with the rebuild's at the appends it reads keeps every vector settled, with the cursor moved |
| `VectorIndexing.EveryRunSettles` | src/instance/workers.rs:86-181 | over every run of appends, boots, migrations, crashes, catch-ups, backfills and reverts, each batch with names of its own, a vector on which the steps since the last clearing agree with a rebuild is the rebuild's or about to be decided |
| `VectorIndexing.OneEmbeddingSpace` | src/instance/workers.rs:126-181 | all stored vectors share one model in every reachable state, backfills included, and it is the configured one once a boot reconciled |
| `VectorIndexing.BatchAgrees` | src/instance/workers.rs:99-117 | two lookups that name alike the memories of live appends ask the same of a vector; what is dropped later and what has no name in its text never differs |
| `VectorIndexing.EventAsks` | src/model/index/batch.rs:38-97 | for every event and vector: an entry's text is written by its append and by nothing else, so is its contextual text under the memory's name, both go exactly with a supersession, a retraction or a consolidation naming the entry; a description is written by a regeneration and goes with its memory |
| `VectorIndexing.LastEventAsks` | src/model/index/batch.rs:26-29 | the last event to speak of a vector decides what a batch asks of it |
| `VectorIndexing.LastChangeReflects` | src/model/index/batch.rs:99-132 | what a batch makes of a vector is what its last event writes or drops; blank text and silence leave it |
| `VectorIndexing.BlankMeans` | src/model/index/batch.rs:99-106 | blank text is text of white space alone, by code point |
| `VectorIndexing.StepEffects` | src/instance/workers.rs:138-181 | each step's effect on log, cursor, configuration and phase; a reconciliation logs the migration iff the stored model differs from the configured one |
| `VectorIndexing.StepWrites` | src/instance/workers.rs:120-124 | each step's effect on each vector; a batch cut short writes only what it reached |
| `VectorConvergence.CatchUpConverges` | src/instance/workers.rs:86-124 | however it got there, a vector of a caught-up index is one rebuild's, if no blank text follows it and the steps since the last clearing agree on it |
| `VectorConvergence.WholeIndexConverges` | src/instance/workers.rs:86-124 | when that holds of every vector, the whole index is the rebuild's |
| `VectorConvergence.PlainVectorsConverge` | src/instance/workers.rs:99-117 | descriptions and entry texts converge whatever names the batches looked up |
| `VectorConvergence.BlankOverVectorDiverges` | src/model/index/batch.rs:99-109 | for every log with a blank over a written vector two ordinary catch-ups, under any names, leave a vector the rebuild does not have |
| `VectorConvergence.BlankedDescription` | src/model/index/batch.rs:99-109 | a description regenerated to a blank is such a log |
| `VectorConvergence.ContextualFollowsItsBatch` | src/instance/workers.rs:99-117 | a live entry's contextual vector carries the name looked up by the batch that read its append, a rebuild's the name looked up by the rebuild |
| `VectorConvergence.ContextualConvergesIff` | src/instance/workers.rs:99-117 | every run that looks names up in given graphs ends with the rebuild's contextual vector iff the entry was dropped or each graph names its memory as the rebuild does |
| `VectorConvergence.IndexerAheadOfTheGraph` | src/agent/lua/execute.rs:303-309 | an indexer between the append and the graph's reading of it writes no contextual vector, and never will, where a rebuild has one |
| `VectorConvergence.DeletedMemoryKeepsItsContext` | crates/core/src/graph/search.rs:107-118 | once a memory is deleted a rebuild has no contextual vector for its entry, where a caught-up index keeps it |
| `VectorConvergence.BackfillKeepsSettledIff` | src/agent/maintenance/consolidation/clustering/mod.rs:97-121 | a vector filled in past the cursor protocol stays settled iff its text is the one the log asks for, and not blank, or an unread event will decide it |
| `VectorConvergence.StoppedRevertRecoversIff` | src/cli/debug/revert.rs:62-71 | if the revert stops before removing the vectors, from any index whatever, every continuation is indexed as a rebuild would iff the cursor is not past the cut and the cut log accounts for every stored vector |
| `VectorConvergence.RecoverableStaysSettled` | src/cli/debug/revert.rs:62-71 | such a vector is settled for every longer log, so later runs with crashes, model changes and other names keep it so |
| `VectorConvergence.StoppedRevertRecovers` | src/cli/debug/revert.rs:62-71 | it recovers after any run whose batches, cut short or not, read nothing past the cut |
| `VectorConvergence.CutShortBatchOutlivesTheRevert` | src/cli/debug/revert.rs:62-71 | a batch cut short past the cut leaves a vector for good although the cursor is not past it |
| `VectorStores.InMemoryVectorIndex.Upsert` | src/vector/in_memory.rs:26-32 | the record is stored under its id, once, and no other id changes |
| `VectorStores.InMemoryVectorIndex.Remove` | src/vector/in_memory.rs:34-37 | that id is gone and no other changes |
| `VectorStores.InMemoryVectorIndex.Get` | src/vector/in_memory.rs:39-45 | the stored embedding of that id, or none |
| `VectorStores.InMemoryVectorIndex.StoredModel` | src/vector/in_memory.rs:74-76 | the model of the first stored vector, none iff the index is empty |
| `VectorStores.InMemoryVectorIndex.Clear` | src/vector/in_memory.rs:78-82 | no vector and a zero cursor |
| `VectorStores.Coalesce` | src/model/index/batch.rs:36-97 | for every vector the events speak of, the map holds what the last event to speak of it asks: the text of an append or a regeneration, the contextual text when the memory has a name, a removal otherwise; it holds nothing else |
| `VectorStores.EmbedBatch` | src/model/index/batch.rs:31-134 | for every vector the events speak of, the batch embeds the text its last event writes, unless blank, or drops it; one change per vector, and no other |
| `VectorStores.ApplyBatch` | src/model/index/batch.rs:140-151 | any prefix of the batch writes and drops exactly its own vectors, and the cursor moves only after all of them |
| `VectorStores.IndexCatchUp` | src/instance/workers.rs:86-124 | a catch-up on the real records is the state machine's catch-up step; every vector is then what the last event read leaves, the rest are untouched, and an entry dropped and not appended again has neither of its vectors |
| `VectorStores.ReembedIfChanged` | src/instance/workers.rs:138-181 | a re-embed runs iff a stored vector was made with another model; it logs the migration, and every vector is then a rebuild's under the configured model, else nothing changes; it is the state machine's reconciliation, clearing and catch-up |
| `LockOrder.PairIsDisciplinedIff` | src/engine.rs:11-17 | nesting two locks keeps the order iff the inner one ranks higher |
| `LockOrder.RankIsTheRule` | src/engine.rs:11-17 | the graph ranks below every other lock and the blobs above every other, with no order between store and vectors |
| `LockOrder.CallTakes` | src/engine.rs:11-17 | which locks each operation takes, in order, and with what in hand: the graph over the store or the vectors, and nothing else nested |
| `LockOrder.ProgramIsDisciplined` | src/instance/mod.rs:393-406 | each modelled operation, search included, takes its locks in rank order and lets all go |
| `LockOrder.ScriptIsDisciplined` | src/instance/drivers.rs:61-74 | any sequence of the modelled operations keeps the order |
| `LockOrder.ReembedIsDisciplined` | src/instance/workers.rs:138-181 | the model migration keeps the order |
| `LockOrder.CatchUpIsDisciplined` | src/instance/workers.rs:86-124 | the index catch-up keeps the order |
| `LockOrder.ScriptMeans` | src/instance/drivers.rs:61-74 | a script runs its calls' programs one after another, whatever their number |
| `LockOrder.MutexMeans` | src/engine.rs:11-17 | a lock is taken only when nobody, its owner included, has it, and is freed by its release alone |
| `LockOrder.StepKeepsInvariant` | src/engine.rs:11-17 | every step keeps every thread disciplined against what it holds |
| `LockOrder.WaitChainEnds` | src/engine.rs:11-17 | from any blocked thread the chain of waits ends, within three waits, at a lock holder that can run |
| `LockOrder.NoCircularWait` | src/engine.rs:11-17 | for any number of threads whose programs keep the rule, a reachable state with a blocked thread has a runnable lock holder |
| `LockOrder.CallsNeverDeadlock` | src/instance/drivers.rs:61-74 | threads making the modelled calls, any number in any order, get stuck only when all is done |
| `LockOrder.StuckIffDone` | src/engine.rs:11-17 | no thread can step iff all have finished and every lock is free |
| `LockOrder.EveryRunCanFinish` | src/engine.rs:11-17 | every state kept by the order extends to one where all is done, in exactly the steps that were left |
| `LockOrder.OppositeOrdersDeadlock` | src/engine.rs:13-14 | without the order two threads nesting any two locks oppositely do deadlock |
| `SearchHits.VisibleOccurrence` | src/memory/search.rs:300-323 | fails iff the verdict on a dated entry does; otherwise the date is that of the last shown authored entry, of the last shown extracted one when no authored one is shown, or none |
| `SearchHits.OccurrenceLaw` | src/memory/search.rs:289-299 | that date is the last visible authored one, or the last visible extracted one when there is none |
| `SearchHits.OccurrenceShownIff` | src/memory/search.rs:298-299 | a date shows iff some dated entry is visible |
| `SearchHits.HiddenEntryLeavesNoTrace` | src/memory/search.rs:297-299 | adding or dropping a hidden entry anywhere changes no date |
| `SearchHits.SalientRelations` | src/memory/search.rs:338-386 | the first three of the considered links (every link when nobody is present) that no earlier considered one matches in relation, direction and far end, persons first, in the order of the read; each is shown with its own relation, direction and name; the rest are counted |
| `SearchHits.CollapsedLaw` | src/memory/search.rs:360-366 | the links kept are, in order, exactly those no earlier visible link shares a key with |
| `SearchHits.FloatedIsTheStableSort` | src/memory/search.rs:367-369 | persons first with both groups in order, and no other list is |
| `SearchHits.ShownPlusMoreIsVisibleKeys` | src/memory/search.rs:363-385 | shown plus elided is one relation for each key some visible link has |
| `SearchHits.HiddenEdgeLeavesNoTrace` | src/memory/search.rs:346-366 | a hidden edge, wherever it stands, changes neither the relations nor the count |
| `SearchHits.CollapsingFirstLosesVisibleEdges` | src/memory/search.rs:360-366 | collapsing before filtering would let a hidden edge take a visible one's slot |
| `ByteRanges.ReadIffSpelled` | src/http_server/blobs.rs:186-217 | a header names a range iff it is the unit, a number, a dash and a number, blanks around them allowed, in one of the three forms; the comma and character checks never decide it |
| `ByteRanges.PrintThenParse` | src/http_server/blobs.rs:186-217 | printing and parsing gives the range back iff its end is not before its start, else nothing |
| `ByteRanges.HeaderForms` | src/http_server/blobs.rs:186-217 | the three forms spelled out, with any blanks before the unit and around the numbers, for every pair of words |
| `ByteRanges.ResolvesToWhatIsAsked` | src/http_server/blobs.rs:170-183 | on a non-empty blob a range resolves iff satisfiable, to exactly the positions asked for, within the blob and without overflow |
| `ByteRanges.EmptyBlobSuffix` | src/http_server/blobs.rs:171-173 | the code and section 14.1.2 of RFC 9110 disagree exactly on a non-zero suffix of an empty blob |
| `ByteRanges.Window` | src/store/blobs.rs:219-263 | on a row whose recorded length is right, exactly the slice from `start`, cut at the end |
| `ByteRanges.BlobStore.Put` | src/store/blobs.rs:130-182 | a row is written once under its content address and never changed; a second media type is refused |
| `ByteRanges.BlobStore.GetRange` | src/store/blobs.rs:219-263 | exactly the slice, the whole length and the type, or none for an unknown address |
| `ByteRanges.BlobStore.Remove` | src/store/blobs.rs:276-281 | exactly that row goes, and the result says whether it was there |
| `ByteRanges.BlobStore.Serve` | src/http_server/blobs.rs:72-129 | the response is the specified answer, or not found; written out for an open end, a closed range and a suffix |
| `ByteRanges.Answer` | src/http_server/blobs.rs:72-129 | whole without a range; otherwise the positions asked for and nothing else, or unsatisfiable when there are none |
| `ByteRanges.PieceIsServed` | src/http_server/blobs.rs:92-129 | a printed request for a piece is answered with exactly that piece |
| `ByteRanges.TilesReassemble` | src/store/blobs.rs:219-263 | requests that tile a blob, at any cuts, join back to it |
| `AttachmentBudget.Admit` | src/http_server/platform.rs:76-120 | one reference is admitted iff it resolves and both running totals stay within the caps, overflow included; the totals grow by one and by the blob's own length; each refusal says which lookup or which total it means |
| `AttachmentBudget.MessageInputs` | src/http_server/platform.rs:66-128 | a batch is accepted iff all references resolve and the unbounded count and byte total are within the caps; inputs keep order and content; a refusal names the first faulty reference and what is wrong with it |
| `AttachmentBudget.OverBudgetStays` | src/http_server/platform.rs:93-112 | stopping early is safe: a batch within budget is so at every prefix |
| `AttachmentBudget.OverBudgetIff` | src/http_server/platform.rs:76-112 | a batch is over budget iff it has a first faulty reference |
| `AttachmentBudget.FirstFaultIsUnique` | src/http_server/platform.rs:76-112 | there is only one |
| `AttachmentBudget.RefusalMeans` | src/http_server/platform.rs:88-112 | each of the six refusals is the one whose condition on the lookup and the totals holds; the count overflows only under a cap as large as the word |
| `AttachmentBudget.DeliveryMeans` | src/http_server/platform.rs:113-125 | delivery field by field: senders, texts and attachments stay in place, and only the name is the client's own |

## Left out

- Word overflow of epochs, of `outstanding` and of `turns_pending`: those counters are unbounded here. Log positions are kept below 2^63 by a guard on appending, as SQLite's row ids are.
- Memory ordering: every atomic access is one sequentially consistent step.
- `ModelArbiters.DispatchFollowsAnIdleInstant`: background starvation under endless turns is allowed by design, and no fairness is claimed.
- Waking through watch channels in `admit`: a ticket may look at the counter at any moment; that a change notification arrives is the channel's contract.
- The window logic of `Supersession`, and what a turn does between admission and exit.
- Progress frames and the shutdown arm of the stream loop: neither carries events; a shutdown is the `End` step of the state machine, and `EventStreams.Relay` covers the event arm.
- `SnapshotCaches.Instance.MaterializeFrom`: applying an event and advancing the graph's head is one step, and the fold itself is arbitrary.
- File copies, WAL siblings, SQLite transactions and read failures under snapshots and graphs: directories and tables are values changed atomically between crash points. A stop between the removal of a database and of its siblings is not modelled.
- `snapshot_if_due`'s gap threshold: it only decides when the modelled snapshot and prune steps happen.
- `VectorConvergence.CatchUpConverges`: one indexer runs at a time and each text has one embedding per model; a batch's names are any map, and which graph states give which maps is not modelled.
- `VectorConvergence.ContextualConvergesIff`: speaks of entries appended once, as minted ids give, of runs without backfills, and of an embedder that gives no two texts one vector.
- `VectorIndexing.OneEmbeddingSpace`: a backfill writes any texts under any keys; how consolidation picks its entries is not modelled.
- `VectorStores.EmbedBatch`: resolves vectors in any order, where the source embeds first and removes after; no two changes of a batch share a vector, so the order is not observable.
- `VectorStores.ReembedIfChanged`: the graph's reading of the migration event, which changes nothing there, is not modelled; crashes inside it are steps of the state machine.
- The SQLite vector backend: the same map as the in-memory one, with its dimension check and table encoding left out.
- `LockOrder.ScriptIsDisciplined`: covers the operations the lock rule names; that every other call site obeys it, and the per-memory lock registry, are not modelled.
- `SearchHits.VisibleOccurrence`: the visibility predicates are parameters that look at one entry or one link, the graph reads are given lists.
- Search scoring, the class collapse of raw hits, snippets and markers: scores read hidden entries by design, so no claim is made of them.
- `ByteRanges.BlobStore.Put`: the content hash is any function, so two contents with one address are not told apart, as in the source.
- Response headers, media-type parsing and the whole-body upload cap.
- `AttachmentBudget.MessageInputs`: counts are 64-bit words; name cleaning, sender resolution and classification are parameters.
- HTTP routing, authentication, the scheduler's due rule, the memory and identity logic of the graph, the Lua runtime, the command line and the console.
