# Verified model of the managed-agents service

The service keeps agents, sessions, work items, memories, files and deployments
as database rows. Its hardest promises span several requests, several
transactions or several processes. This project restates that logic in Dafny
and proves what the service keeps over every run, and, where it does not keep
what one would expect, exactly when it does.

`dafny verify dfyconfig.toml` checks the whole project.

## How the model is laid out

| files | part of the service |
|---|---|
| `SessionState`, `SessionHandlers`, `SessionTransaction` | one transaction on a session: what each handler does to the row and the log, as a function and as the statements that do it |
| `SessionInterleaving`, `SessionLog`, `SessionSafety` | every interleaving of those transactions, what the log records, and safety over all runs |
| `SessionOutcomes`, `WorkOutcomes`, `MemoryOutcomes`, `FileOutcomes`, `AgentOutcomes`, `TickOutcomes` | what each request, transaction or tick comes to, said of the rows before and after it by their fields and indexes, apart from the functions that compute it |
| `EventStream` | the polling event stream of a session |
| `WorkQueue` | work items, leases, heartbeats, reclaiming, executions |
| `Strings`, `MemoryPaths`, `LikePattern`, `DepthRollup`, `MemoryStore` | memory paths, prefix queries, depth listings, memories and their version history |
| `FileStore`, `FileFidelity` | files that share stored objects by content, and when that is faithful |
| `AgentVersions` | agents, their versions and pinned rosters |
| `CronField`, `Calendar`, `CronScan`, `CronCoverage`, `Scheduler`, `CronScheduler` | cron fields, the minute scan, when it finds a run, the scheduler tick, and the tick with that scan |

An object whose fields the service assigns is a class (`SessionRow`,
`Streamer`, `WorkItem`, `MemoryRows`, `FileRows`, `AgentRows`,
`DeploymentRows`). Each method leaves the row as a function of the old row
says, and the lemmas are about runs of those functions. Loops of the service
are loops here.

**A session under concurrency.** A transaction reads the session row and log
when it opens and writes the columns it changed when it closes. There is no
row lock. Every write of the status or stop reason also appends an event with
the next sequence number, and (session, number) is unique, so the log is a
compare-and-swap lock. `SessionInterleaving.World` has any number of open
requests and any number of processes, each with at most one turn in flight; a
turn is three transactions and a failure handler. The model reads everything
at the opening. A transaction that reads the log again later sees at most a
longer log, and then its own append is refused.

**Findings.** Each is a lemma, with the exact condition where there is one.

- A transient failure of a turn still in flight revives a cancelled session:
  `CancelledSessionComesBack`, `TerminatedIsRevivedIff`.
- A turn that loses a race for its last transaction treats the integrity error
  as a fatal one and ends the session; an interrupt at the wrong moment is enough:
  `FinishLosesIff`, `LostRaceIsFatal`, `AnInterruptEndsASession`.
- With two processes an interrupted turn writes its output into the turn
  another process has started since: `TwoProcessesMixTurns`. It keeps to its own
  turn exactly when no other has started: `OutputFollowsOwnStartIff`. Two
  processes can also record a fourth failure in a row: `FourFailuresInARow`,
  `FurtherFailureIff`.
- A client may send a status event of its own; the log then records a status
  the row does not have: `AClientCanForgeAStatus`. Exactly which batches spoil the
  record: `SendIsRecordedIff`, `SendKeepsCountIff`, `SendKeepsSeparationIff`.
- The stream filtered by thread stops for good behind 100 foreign events:
  `FilteredStreamStaysStuck`. A deletion cuts every stream off, its own event
  unsent: `DeletionCutsTheStream`.
- `docs/work-queue.md` line 16 requires acks and heartbeats to name the lease's
  owner. A caller that names nobody is taken for the owner, and its heartbeat can
  shorten the lease: `OwnerCheckPassesIff`, `HeartbeatSetsTheEnd`,
  `AStrangerCutsALease`. The model follows the code.
- A new lease keeps the heartbeat of the one before it and can be reclaimed at
  once: `FreshLeaseSurvivesReclaimIff`.
- The exception path of an execution overwrites a stop: `StopIsOverwrittenIff`.
  An execution that outlives its lease overlaps the next one and takes a
  completed item back into the queue: `LateExecutionOverlaps`. Exactly when that
  can happen: `OverlapIff`, `OverlapAfterTickIff`, `OverlapAfterReclaimIff`,
  `OverlapAfterBeginIff`, `FinishedChangesIff`.
- Redaction leaves a copy of the content in the version row, though no response
  shows it: `RedactedContentRemains`.
- `docs/memory-stores.md` line 21 says that archived stores reject writes. Updates and
  redactions do not look at the flag: `ArchivedStoreStillUpdates`. The model
  follows the code.
- An update stores the path as it was sent, a creation its normal form; the key is
  that of the normal form either way: `UpdateKeepsWhatWasSent`,
  `CreateKeepsWhatWasSent`.
- The branch that redacts a live memory with its version is unreachable:
  `RedactNeverTouchesMemories`.
- A schedule on every weekday has a next run at every moment exactly when it names
  a date that every year has: `AlwaysFoundIff`; for the others see
  `FoundAtEveryMomentIff`. One for 29 February is valid and
  can have none, so it is never started: `LeapDayIsMissed`.
- Two contents whose digests share 16 characters can share a stored object, and
  the later upload replaces the bytes of the earlier file:
  `CollidingPrefixesOverwrite`. Without such contents the store is faithful:
  `EveryRunRefines`. Exactly which requests are: `FaithfulIff`.
- A tick never looks at a deployment behind 1000 newer live ones, due or not:
  `ListingIs`, `TickRunsWhatIsDue`.
- `docs/deployments.md` line 12 calls the tick idempotent. It is, in the sense of
  `InstantsRunOnce` and `SecondTickIsIdle`; but a tick that is given an instant
  ahead of the clock stops the schedule it runs for good: `CronTickBlocksIff`,
  `EarlyTickStopsEveryMinute`. A client may start a second scheduled run for one
  instant, and nothing else can: `AClientCanRunAnInstantTwice`, `InstantsRunOnceIff`.

## Model

| member | source | states |
|---|---|---|
| SessionInterleaving.FlushIsCompareAndSwap | app/db/models/domain.py:114 | a write that appends succeeds exactly when nothing has been appended since its transaction read, and then leaves the session as it meant to; otherwise it changes nothing |
| SessionHandlers.WritesAppend | app/db/queries/events.py:20-31 | every handler that changes any column also appends, keeps the log it read as a prefix, and keeps the numbering 1, 2, 3, … |
| SessionInterleaving.SettleIsAtomic | app/routers/sessions.py:361 | closing a transaction either changes nothing in the session or does what its handler does to the session as it is at that moment |
| SessionInterleaving.NextKeepsValid | app/runtime/runner.py:69-80 | every step of requests and turns, in any order, keeps the world valid and the log as a prefix |
| SessionInterleaving.EveryRunIsSerial | app/db/queries/events.py:20-31 | every interleaving of requests and of turns in any number of processes leaves the session as its appending transactions would one after the other, and no two of them read the same sequence number |
| SessionInterleaving.EveryCommitSeesItsPredecessors | app/db/queries/events.py:20-31 | in that serial order each commit read the number its predecessors left and took effect on the session they left |
| SessionInterleaving.StartsAreSeparated | app/runtime/runner.py:84-97 | two turns never start from one idle state: between two committed starts another commit has taken the session out of running |
| SessionSafety.EveryRunIsRecorded | app/runtime/runner.py:90-96 | if clients send only `user.*` and `system.message` events and the executor emits only `agent.*` ones, in every run the stored status and retry counter are the replay of the log, and two running events are separated by an event that names another status |
| SessionSafety.OutputFollowsOwnStartIff | app/runtime/runner.py:125-130 | in any number of processes, a turn writes its output only into a running session, and directly behind its own running event, credential reports aside, exactly when no other running event has come since |
| SessionSafety.OutputFollowsOwnStart | app/runtime/runner.py:125-130 | so with one process, a turn that writes its output does so behind its own running event with nothing but its own credential reports between: no interrupt, cancel or other turn |
| SessionSafety.TwoProcessesMixTurns | app/runtime/runner.py:69-80 | with two processes a run exists in which an interrupted turn answers inside the next turn |
| SessionSafety.RetriesAreBounded | app/runtime/runner.py:247-332 | with one process the transient failures since the last turn that ended by itself never exceed three |
| SessionSafety.ThirdFailureTerminates | app/runtime/runner.py:247-332 | in any number of processes a session with three such failures or more is terminated |
| SessionSafety.FourFailuresInARow | app/runtime/runner.py:247-332 | a run of two processes that records a fourth |
| SessionSafety.FailureIsRecordedIff | app/runtime/runner.py:213-225 | in every reachable state a step records a further failure exactly when it closes a transient failure handler that read the latest log |
| SessionSafety.FurtherFailureIff | app/runtime/runner.py:213-225 | once three failures have ended a session, in any number of processes, a further one can be recorded exactly when some turn still in flight can fail: it is preparing or executing, or its failure handler has not read a stale log |
| SessionSafety.TerminatedForEver | app/routers/sessions.py:312-313 | a terminated session with no turn in flight stays terminated whatever follows in however many processes |
| SessionSafety.TerminatedIsRevivedIff | app/runtime/runner.py:213-225 | the only step that takes a session out of terminated is the failure handler of a turn in flight, with a transient error, short of the retry limit, that reads the latest log |
| SessionSafety.CancelledSessionComesBack | app/runtime/runner.py:213-225 | a run that cancels a session during a turn and leaves it rescheduling after a transient failure |
| SessionSafety.LostRaceIsFatal | app/runtime/runner.py:213-244 | a turn whose last transaction lost the race then terminates the session with an error although no step failed |
| SessionSafety.FinishLosesIff | app/runtime/runner.py:125-213 | a turn with its last transaction open goes to the failure handler exactly when it read a running session and something has been appended since |
| SessionSafety.AnInterruptEndsASession | app/runtime/runner.py:213-244 | a run of one process in which an interrupt during the answer ends the session for good |
| SessionLog.ApplyKeepsRecorded | app/runtime/runner.py:148-212 | each handler that keeps to the event types leaves a status and a retry counter that replaying the log gives |
| SessionLog.RunningEventsAreSeparated | app/runtime/runner.py:90-96 | in a recorded session two running events have an event between them that names another status |
| SessionLog.SendIsRecordedIff | app/routers/sessions.py:614-635 | after an accepted batch the log still records the status exactly when the batch interrupts, names no status, or names the current one last |
| SessionLog.SendKeepsCountIff | app/routers/sessions.py:614-635 | it still records the retry counter exactly when the batch forges neither a transient error nor the end of a turn, or as many errors behind its last forged end as the counter says |
| SessionLog.SendKeepsSeparationIff | app/routers/sessions.py:614-635 | running events stay separated exactly when those the batch forges are, from the session's status on |
| SessionLog.AClientCanForgeAStatus | app/routers/sessions.py:614-635 | a batch that is accepted and makes the log say terminated while the row says idle |
| SessionLog.AcceptedAnswer | app/routers/sessions.py:637-679 | an action result in an accepted batch answers a pending, unresolved event in the history, of a type it fits, and no earlier result of the batch answers the same |
| SessionLog.ApplyKeepsAnsweredOnce | app/routers/sessions.py:637-658 | every handler, given an executor that emits only `agent.*` events, keeps: each result answers an earlier event it fits, and of the first 1000 events no two answer the same |
| SessionSafety.EveryRunAnswersOnce | app/routers/sessions.py:637-658 | the same in every interleaved run, whatever clients send |
| SessionLog.ReleasedIff | app/routers/sessions.py:338-359 | a waiting session that accepts results becomes action_submitted with one new work item exactly when nothing pending is left unresolved, and otherwise stays as it was |
| SessionLog.ReleasedWithinHistory | app/routers/sessions.py:682-696 | while the log fits a history query the resolved set after a batch is that before it and the targets of the batch |
| SessionTransaction.FlagsOfUnmixedBatch | app/routers/sessions.py:325-340 | the check for pending actions made inside the loop gives at the end what checking once at the end would |
| SessionTransaction.AcceptedResultBatch | app/routers/sessions.py:620-635 | a batch with an action result is accepted only while results are awaited and then mixes only with a system message |
| SessionLog.RetryDelayIsBoundedAndGrows | app/runtime/runner.py:366-390 | the retry delay lies between 1 and 300 seconds, and without a hint it does not shrink with the attempts |
| SessionOutcomes.RetryDelayIs | app/runtime/runner.py:366-390 | without a hint 5 seconds and then twice the last delay up to 300; a positive hint is taken up to 300, the exception's own before the header's |
| SessionTransaction.ValidateActionResults | app/routers/sessions.py:637-658 | the loop over results gives the refusal of the first refused one, or none |
| SessionTransaction.ValidateSystemMessageBatch | app/routers/sessions.py:614-617 | a batch passes exactly when its system messages are at most one, last, and right after an event it may follow |
| SessionTransaction.ValidateEventBatch | app/routers/sessions.py:614-635 | the refusal of a batch by status, stop reason and contents, in the order of the checks |
| SessionTransaction.SessionRow.SendEvents | app/routers/sessions.py:301-368 | the row, the log and the queue after a batch that is accepted, and no change after one that is refused |
| SessionTransaction.SessionRow.AppendRuntimeContextEvents | app/runtime/runner.py:764-780 | the second transaction appends one error event per missing credential and nothing else |
| SessionTransaction.SessionRow.AppendToolEvents | app/runtime/runner.py:131-147 | the tool events in order, and the identifiers of those that block |
| SessionTransaction.SessionRow.FinishTurn | app/runtime/runner.py:125-212 | the third transaction: output only while running, then idle with the matching stop reason and a fresh retry counter |
| SessionOutcomes.SendIsAcceptedIff | app/routers/sessions.py:614-658 | exactly which batches are accepted, by the status, the stop reason, the place of a system message and the answer each result gives to a pending event of the first 1000 that nothing has answered |
| SessionOutcomes.SendIsRefusedWith | app/routers/sessions.py:301-323 | the refusal of every other batch, in the order of the checks |
| SessionOutcomes.ResultIsRefusedWith | app/routers/sessions.py:637-679 | the refusal of the first result that is no fitting answer: 422, 409 or 404 |
| SessionOutcomes.SendIsLogged | app/routers/sessions.py:325-348 | an accepted batch is logged as sent, with the next numbers, and an interrupt adds its idle event |
| SessionOutcomes.AcceptedSendDoes | app/routers/sessions.py:324-368 | an accepted interrupt stops the session without work; the last answer releases a waiting one with one work item; otherwise one item is enqueued exactly when the batch holds a message or an outcome to define |
| SessionOutcomes.WorkIsEnqueuedIff | app/routers/sessions.py:276-368 | of all requests and transactions only an accepted resume and such a batch enqueue work, one item |
| SessionOutcomes.WaitsForIff | app/runtime/runner.py:131-159 | a turn that requires action waits for exactly its own tool-use events, by their numbers in the log, and only for those that ask for confirmation if any does |
| SessionOutcomes.BlockingIdsAre | app/runtime/runner.py:1381-1393 | the same of the loop over the tool events, from any number on |
| SessionOutcomes.FinishIsLogged | app/runtime/runner.py:125-213 | a turn ends with its tool events in order, its text unless the executor has sent one, the evaluation of an outcome, and the idle event |
| SessionOutcomes.AcceptedIff | app/routers/sessions.py:182-299 | exactly when each other request and each transaction of a turn is accepted |
| SessionOutcomes.StatusAfterHandler | app/runtime/runner.py:84-244 | which transactions leave a session running, terminated or rescheduling: a third transient failure terminates, an earlier one reschedules |
| SessionOutcomes.StopAfterHandler | app/runtime/runner.py:247-332 | the stop reason, retry counter and deletion mark after each of them |
| SessionOutcomes.HandlerIsLogged | app/runtime/runner.py:213-332 | the events each of them appends, in order, and no others |
| EventStream.EveryStreamDelivers | app/routers/sessions.py:941-970 | under every interleaving of appends, polls and a deletion the stream, filtered or not, has sent exactly the events that belong between its start and where it stands, each once, in order |
| EventStream.PollDelivers | app/routers/sessions.py:941-970 | a poll keeps that, and it moves the cursor exactly when the stream is open, the session not deleted, and one of the next 100 events belongs |
| EventStream.DeletionCutsTheStream | app/routers/sessions.py:950-955 | when the session is deleted the stream has sent exactly the belonging events up to its last poll, and whatever follows it never sends another, the deletion's own event among those lost |
| EventStream.UnfilteredStreamAdvances | app/routers/sessions.py:941-970 | without a filter everything passed has been sent, and each poll takes the next 100 events or all that are left |
| EventStream.FilteredStreamStaysStuck | app/routers/sessions.py:941-970 | a filtered stream behind 100 foreign events sends nothing ever again |
| EventStream.Streamer.Poll | app/routers/sessions.py:941-970 | one round of the generator, an event at a time, moves cursor and output as the specification says |
| WorkQueue.LeaseIsLostIff | app/runtime/work_queue.py:212-248 | one step loses an unexpired lease in exactly five ways, and none that names another worker is granted the item, acknowledges it, extends it or starts it |
| WorkQueue.LeaseIsKeptIff | app/runtime/work_queue.py:212-248 | over every run a lease is held all along exactly when no step releases it; then no grant is made and no step in another worker's name has any effect |
| WorkQueue.OwnerCheckPassesIff | app/routers/environments.py:440-447 | acks and heartbeats of a leased item pass the owner check exactly when they name its holder or name nobody |
| WorkQueue.HeartbeatSetsTheEnd | app/routers/environments.py:283-320 | after a heartbeat, the holder's or an unnamed one, another worker is granted the item exactly from the end of that heartbeat's own time on, however long the lease was to last |
| WorkQueue.AStrangerCutsALease | app/routers/environments.py:283-320 | a run in which an unnamed heartbeat takes a minute's lease away after a second |
| WorkQueue.DisciplinedExecutionsNeverOverlap | app/runtime/work_queue.py:48-103 | if workers execute only on a live grant of their own, end before it expires as the last heartbeat left it, and nobody stops or reclaims, then executions never overlap and at most one grant is live |
| WorkQueue.OverlapIff | app/runtime/work_queue.py:226-235 | another worker can poll and start beside an execution, however that one was started, exactly when the item is available or the worker passes the owner check anyway |
| WorkQueue.OverlapOnLeaseIff | app/runtime/work_queue.py:226-235 | beside an execution on a lease: exactly when the lease has run out |
| WorkQueue.OverlapWithoutLeaseIff | app/runtime/work_queue.py:48-65 | beside one just started without a lease: at once, unless an earlier worker's lease is still in the row and has not run out |
| WorkQueue.OverlapAfterBeginIff | app/runtime/work_queue.py:48-65 | from any point of a disciplined run, a start without a grant overlaps exactly when it is made in the name of the worker whose execution is under way |
| WorkQueue.OverlapAfterTickIff | app/runtime/work_queue.py:226-235 | from any point of a disciplined run, letting time pass allows an overlap exactly when it passes the lease of the execution under way |
| WorkQueue.OverlapAfterReclaimIff | app/routers/environments.py:371-395 | a reclaiming poll allows one exactly when it finds the item reclaimable |
| WorkQueue.FinishedForEver | app/runtime/work_queue.py:82-103 | in such a run a completed or failed item is never changed again |
| WorkQueue.FinishedChangesIff | app/runtime/work_queue.py:66-103 | without discipline, a finished item changes exactly when it is stopped or an execution still under way ends with another result |
| WorkQueue.LateExecutionOverlaps | app/runtime/work_queue.py:82-103 | a run in which an execution outlives its lease, overlaps the next, and the completed item is granted a third time |
| WorkQueue.AttemptCountsStarts | app/runtime/work_queue.py:130-148 | in every run the attempt counter is the number of leases granted plus the executions started without one |
| WorkQueue.StopIsOverwrittenIff | app/runtime/work_queue.py:66-80 | a stopped item leaves that status exactly when an execution of it ends by an exception |
| WorkQueue.FreshLeaseSurvivesReclaimIff | app/routers/environments.py:371-395 | a lease just granted survives a reclaiming poll at the same instant exactly when the previous heartbeat is recent or there was none |
| WorkQueue.LeaseNextWork | app/runtime/work_queue.py:110-127 | the oldest available candidate is leased, none that is older is available, and nothing else changes |
| WorkQueue.ExpireReclaimableWork | app/routers/environments.py:371-395 | each item is expired exactly when leased or running with a reference that is old enough; the others stay |
| WorkOutcomes.PollIsGrantedIff | app/runtime/work_queue.py:196-235 | a poll is granted the item exactly when it is queued, its retry time has come, or its lease has run out or has no end; the row then names the worker until the end of its time |
| WorkOutcomes.RetryIsWaitedFor | app/runtime/work_queue.py:216-223 | an item rescheduled by its execution is granted to a later poll exactly from its retry time on |
| WorkOutcomes.StartIsMadeIff | app/runtime/work_queue.py:48-65 | when an execution may start, and when the start counts as an attempt |
| WorkOutcomes.EndMakes | app/runtime/work_queue.py:66-103 | what each result of an execution makes of the item |
| WorkOutcomes.AckAndBeatMake | app/runtime/work_queue.py:151-186 | an ack makes a leased item run, a heartbeat also renews its end, and the rest stays |
| WorkOutcomes.ReclaimOpensIff | app/routers/environments.py:371-395 | a reclaiming poll opens exactly the items not heard of since, by the last heartbeat or else by the lease |
| WorkQueue.WorkItem.WorkerIdForWork | app/routers/environments.py:440-447 | the worker the caller names, or else the lease's own holder |
| LikePattern.EscapeLikeIsOnePass | app/db/queries/resources.py:317-318 | the three successive replacements equal one pass that escapes each special character |
| LikePattern.PrefixQueryIsPrefixTest | app/db/queries/resources.py:172-183 | the escaped pattern followed by `/%` matches exactly the strings that start with the prefix and a slash, for every prefix |
| DepthRollup.QueryFindsScope | app/db/queries/resources.py:172-183 | the prefix query returns exactly the keys in the scope of the listing |
| MemoryPaths.NormalizeText | app/routers/generic_resources.py:1542-1559 | a text path is accepted exactly when its stripped form is valid, and is its own normal form |
| MemoryPaths.NormalizeList | app/routers/generic_resources.py:1549-1559 | a list is accepted exactly when its stripped, non-blank items are the parts of a valid path, and that path is its normal form |
| MemoryPaths.ValidPathIff | app/routers/generic_resources.py:1571-1590 | a path is valid exactly when it starts with a slash, has at most 1024 bytes, is composed, contains, with a slash added, neither `//` nor `/./` nor `/../`, and no control character |
| MemoryPaths.NormalizeIsIdempotent | app/routers/generic_resources.py:1542-1590 | normalizing a normal form, from a text or a list, changes nothing |
| MemoryPaths.KeyOfNormalPath | app/routers/generic_resources.py:1593-1594 | a valid path is a slash and its key, and the key has no empty part |
| MemoryPaths.PathKeyDeterminesPath | app/routers/generic_resources.py:1593-1594 | every normal form is a slash and its key, so equal keys mean equal paths |
| DepthRollup.ListItems | app/routers/generic_resources.py:1707-1747 | the loop builds the listing of the specification |
| DepthRollup.ListedByDepth | app/routers/generic_resources.py:1722-1745 | a memory in scope is listed by itself where it lies at most the depth below the prefix, and otherwise by the directory at that depth |
| DepthRollup.ListingHolds | app/routers/generic_resources.py:1707-1747 | the listing holds exactly the path of each memory in scope, with the item that memory calls for, in whatever order memories come |
| DepthRollup.EachMemoryIsCoveredOnce | app/routers/generic_resources.py:1707-1747 | each memory in scope is represented by exactly one listed item |
| DepthRollup.EveryPrefixHasAMemory | app/routers/generic_resources.py:1734-1745 | every listed directory has a memory deeper than the listing below it |
| DepthRollup.PathsNeverCollide | app/routers/generic_resources.py:1725-1745 | a memory's path never equals a directory's |
| DepthRollup.TruncationGivesShallowerListing | app/routers/generic_resources.py:1707-1747 | cutting the listing of depth d+1 gives the listing of depth d, paths and items |
| MemoryStore.EveryRunIsSound | app/routers/generic_resources.py:231-256 | in every run of create, update, delete, redact and archive: the versions of a memory are exactly 1..n with n its current one, live heads are current and unredacted, live keys are distinct and equal to the names |
| MemoryStore.HistoryIsKept | app/routers/generic_resources.py:510-549 | from any point of a run to its end no version is lost, and none changes except by being marked redacted and losing the content of its snapshot |
| MemoryStore.RedactedContentRemains | app/routers/generic_resources.py:510-549 | from a redaction on, no response shows the version's content and its snapshot has none, but the copy beside the snapshot stays in the row for good |
| MemoryStore.RedactNeverTouchesMemories | app/routers/generic_resources.py:510-549 | in a sound store an accepted redaction leaves every memory as it was; the branch at line 542 is never taken |
| MemoryStore.NameFindsAtMostOne | app/routers/generic_resources.py:359-366 | in every run a lookup by name finds at most one live memory |
| MemoryStore.RepeatedUpdateChangesNothing | app/routers/generic_resources.py:1435-1464 | an update that took effect, sent again without preconditions, adds no version |
| MemoryStore.ArchivedStoreStillUpdates | app/routers/generic_resources.py:338-379 | archiving the store changes nothing about updates and redactions, while creates and deletes are refused |
| MemoryStore.MemoryRows.CreateMemory | app/routers/generic_resources.py:231-256 | the new memory with its first version, or the first refusal that applies |
| MemoryStore.MemoryRows.UpdateMemory | app/routers/generic_resources.py:337-379 | no change, one new version, or the first refusal that applies |
| MemoryOutcomes.CreateIsAcceptedIff | app/routers/generic_resources.py:231-256 | exactly an unarchived store with fewer than 2000 live memories, a path with a normal form and a free key, and at most 102400 bytes |
| MemoryOutcomes.CreateKeepsWhatWasSent | app/routers/generic_resources.py:1388-1406 | one memory and one version row are added and hold the path in normal form, the content, its digest, metadata, author and session that were sent |
| MemoryOutcomes.UpdateIsRefusedIff | app/routers/generic_resources.py:337-379 | where the quoted digest fits, exactly for a missing memory, another version than quoted, a path without a normal form, too much content, or a key another live memory has |
| MemoryOutcomes.UpdateKeepsWhatWasSent | app/routers/generic_resources.py:1409-1464 | content, path (as sent, not in normal form), metadata, author and session become what the body gives, are cleared where it gives null, and stay where it says nothing |
| MemoryOutcomes.UpdateAddsVersionIff | app/routers/generic_resources.py:363-379 | a version row that holds what the memory now holds is added exactly when content, path or metadata change |
| MemoryOutcomes.StaleDigestAnswers | app/routers/generic_resources.py:344-358 | a quoted digest that does not fit is answered with the memory as it is where the body asks for what is there, and with a conflict otherwise |
| MemoryOutcomes.DeleteMarks | app/routers/generic_resources.py:382-408 | which deletions are accepted, and the mark and version each leaves |
| MemoryOutcomes.RedactIsAcceptedIff | app/routers/generic_resources.py:510-549 | in a sound store exactly the versions that head no live memory can be redacted, and nothing but the version's snapshot and mark changes |
| FileStore.EveryRunRefines | app/routers/files.py:53-116 | over every run of uploads, staged uploads, completions, mounts, removals and deletions the shared store shows what a plain map from file to bytes would; every live file's object is present with its own bytes, and every object that is not staged has a live file |
| FileStore.CollidingPrefixesOverwrite | app/storage.py:104-118 | two uploads with colliding digest prefixes, one day and one name leave the first file with the bytes of the second, which a plain store would not |
| FileFidelity.FaithfulIff | app/routers/files.py:53-281 | with no assumption on digests or names: a request changes what users see as on a plain store exactly when every live file at the key it writes already holds those bytes, the object it shares holds them, or the object it frees is no other file's; for uploads, completions, mounts, removals and deletions |
| FileFidelity.EveryRunIsFaithfulIff | app/routers/files.py:53-281 | a run looks like a plain store at every moment exactly when each of its requests was faithful on the store it met |
| FileFidelity.EveryRunIsTidy | app/routers/files.py:146-212 | in every run no live file uses a staged key |
| FileStore.ApplyRefines | app/routers/files.py:146-212 | each request keeps that, also when it shares, copies or frees an object |
| FileStore.LastReference | app/db/queries/resources.py:141-159 | when a file is the last reference to its key no other live file in any workspace uses that key |
| FileStore.FileRows.FindDeduplicated | app/routers/files.py:333-341 | the oldest live file of the workspace with the digest, if there is one |
| FileStore.FileRows.CompleteFileUpload | app/routers/files.py:146-212 | a staged object becomes a file, shared or not, and the staged object is gone; refusals change nothing |
| FileOutcomes.UploadStores | app/routers/files.py:53-116 | an upload adds one file; it stores the bytes under a key with the first 16 characters of the digest if no file of the workspace has that digest, and otherwise stores nothing and shares the object of the oldest that has |
| FileOutcomes.CompletionStores | app/routers/files.py:146-212 | exactly staged bytes of the workspace with the digest claimed, if any, are accepted; then it is an upload of those bytes, and the staged object is gone |
| FileOutcomes.MountCopies | app/session_resources.py:228-325 | the bytes are copied to a key of the session, with a file of the session and a resource for it |
| FileOutcomes.DeletionFrees | app/routers/files.py:265-281 | a deletion removes the file, and its object exactly when no other file of the workspace uses it |
| FileOutcomes.UnmountFrees | app/session_resources.py:108-136 | removing a resource also removes the file it mounts exactly when that is the session's own copy |
| AgentVersions.EveryRunIsSound | app/db/queries/agents.py:117-174 | in every run the versions of each agent are exactly 1..active, consecutive versions differ, and each roster entry names an existing version, of another agent only if that version coordinates nobody, with no agent named twice |
| AgentVersions.VersionsAreImmutable | app/db/queries/agents.py:117-174 | from any point of a run to its end, every committed version is still there, unchanged |
| AgentVersions.StaleUpdateIsRefused | app/routers/agents.py:118-156 | of two updates that quote the same version the second is refused with a conflict once the first took effect |
| AgentVersions.ReferencesAreAcyclic | app/routers/agents.py:175-258 | every cycle of references consists of one version, so references are well founded but for a version that names itself |
| AgentVersions.PathStaysInside | app/routers/agents.py:175-258 | in every run references lead from existing versions to existing versions only |
| AgentVersions.PathGoesDown | app/routers/agents.py:175-258 | along references between coordinators the agent stays and the version never grows |
| AgentVersions.ResolvedIsSound | app/routers/agents.py:175-270 | an accepted roster, its self entries resolved, is sound for the version it is stored in |
| AgentVersions.NormalizeMultiagentRoster | app/routers/agents.py:175-258 | the loop accepts exactly the lists of 1 to 20 acceptable entries that name no agent twice, and pins each entry |
| AgentVersions.AgentRows.UpdateAgent | app/db/queries/agents.py:117-174 | no change, one new version, or a refusal that changes nothing |
| AgentOutcomes.RosterIsAcceptedIff | app/routers/agents.py:175-258 | exactly 1 to 20 entries, each the agent itself or an existing version, of an unarchived agent, that coordinates nobody, and no agent twice |
| AgentOutcomes.AcceptedRosterIsKept | app/routers/agents.py:261-272 | each entry keeps its place: the agent itself at the version it is stored in, the others at the version asked for |
| AgentOutcomes.CreateMakes | app/db/queries/agents.py:19-62 | version 1 of a new agent with the settings and roster sent |
| AgentOutcomes.UpdateIsRefusedIff | app/routers/agents.py:118-156 | exactly for a missing or archived agent, another version than the active one, or a roster that is not acceptable |
| AgentOutcomes.UpdateMakes | app/db/queries/agents.py:117-174 | an accepted update leaves all as it is only where the active version holds what was sent, and otherwise makes the next version active with what was sent, the rest kept |
| AgentOutcomes.ArchiveMarks | app/routers/agents.py:157-172 | archiving marks the agent and touches nothing else |
| CronField.CronFieldValues | app/routers/generic_resources.py:2012-2034 | a field is accepted exactly when each of its items is; the result holds exactly the values some item names, never none, all within the bounds |
| CronField.ReadItemIff | app/routers/generic_resources.py:2018-2030 | cutting at the first slash and the first hyphen reads exactly the grammar of items |
| CronField.RangeValues | app/routers/generic_resources.py:2033 | the values from start to end by the step, all of them |
| CronField.RangeItemNamesIff | app/routers/generic_resources.py:2018-2033 | `first-last/step` names exactly every step-th value from first to last, and none if it leaves the bounds |
| CronField.StarItemNamesIff | app/routers/generic_resources.py:2018-2033 | `*/step` names exactly every step-th value from the lower bound |
| CronScan.ValidCronExpression | app/routers/generic_resources.py:1969-1981 | five fields, each accepted within its own bounds |
| CronScan.NumbersAreValidIff | app/routers/generic_resources.py:1969-1981 | five plain numbers are valid exactly within 0-59, 0-23, 1-31, 1-12 and 0-7 |
| CronScan.NumbersFireIff | app/routers/generic_resources.py:1984-2005 | they name exactly that minute of that hour on that date where it falls on that weekday, counted from a Monday, 1 January of year 1 |
| CronScan.UpcomingCronRuns | app/routers/generic_resources.py:1984-2009 | the first five minutes after now that the expression names, in order, none skipped, within 366 days, as the recursive list NextRuns; an error exactly when a field is not accepted |
| CronScan.RunCount | app/routers/generic_resources.py:1995-2009 | there are as many runs as matches in the next 366 days, but at most five |
| CronScan.FirstMatchesIff | app/routers/generic_resources.py:1994-2009 | the same with the limits written out: five runs, 527040 minutes |
| CronScan.FirstIsNextRuns | app/routers/generic_resources.py:1984-2009 | a list is the first matches in order, none skipped, exactly when it is NextRuns; so one exists and no other |
| CronScan.DailySchedulesFillUp | app/routers/generic_resources.py:1995-2009 | with `*` for day, month and weekday there are always five |
| CronScan.AlwaysFoundIff | app/routers/generic_resources.py:1995-2009 | if every weekday is named, that comes to: the expression names a date that every year has |
| CronCoverage.FoundAtEveryMomentIff | app/routers/generic_resources.py:1995-2009 | for any valid expression, weekdays and all: there is a next run at every moment exactly when for each day of 400 years one of the 365 days after it is named, or the 366th is and so is the day itself or midnight |
| Calendar.CalendarIsPeriodic | app/routers/generic_resources.py:1994-2008 | dates and weekdays come back after 146097 days |
| CronScan.LeapDayIsMissed | app/routers/generic_resources.py:1995-2009 | a valid schedule for 29 February has no next run on 1 March before a common year |
| Calendar.EveryDateComesRound | app/routers/generic_resources.py:1994-2008 | any date that every year has comes round within 366 days of any day, at the latest on the same date a year later |
| Scheduler.InstantsRunOnceIff | app/routers/generic_resources.py:1766-1799 | over all ticks at arbitrary instants and all other requests: two scheduled runs of a deployment for one instant are always more than 1000 runs apart exactly when no client starts a run for an instant among its newest 1000 |
| Scheduler.InstantsRunOnce | app/routers/generic_resources.py:1766-1796 | so ticks at whatever instants never run one instant of a deployment twice within 1000 runs if clients start only manual runs |
| Scheduler.AppendFarApartIff | app/routers/generic_resources.py:1787-1799 | one more run keeps that exactly when its instant is not among the newest 1000 |
| Scheduler.SecondTickIsIdle | app/routers/generic_resources.py:652-710 | for any list of next runs that lies after the clock: after a tick that was not cut short, a tick at an instant not after it and not after its clock creates nothing and changes nothing |
| Scheduler.PromptTicksRunOnce | app/routers/generic_resources.py:652-710 | for any such list: if no tick is given an instant ahead of the clock, each instant is run at most once however many runs there are, and a deployment is due exactly when it is active and a listed instant has come |
| CronScheduler.ScanIsStrictlyFuture | app/routers/generic_resources.py:1984-2009 | the list the cron scan gives lies after the clock |
| CronScheduler.SecondCronTickIsIdle | app/routers/generic_resources.py:652-710 | so with the cron scan the second tick is idle |
| CronScheduler.PromptCronTicksRunOnce | app/routers/generic_resources.py:652-710 | with the cron scan, prompt ticks run each instant at most once, and a deployment is due exactly when it is active and a listed instant has come |
| CronScheduler.PromptCronTickMissesNothing | app/routers/generic_resources.py:652-710 | and after them a tick that is not cut short runs exactly the live, active deployments a listed instant of which has come and which have fewer than 1000 newer live ones |
| Scheduler.BlockedForEver | app/routers/generic_resources.py:1766-1784 | a deployment whose earliest listed instant has been run is never run again by any number of ticks |
| Scheduler.BlockedAfterRunIff | app/routers/generic_resources.py:680-711 | a tick blocks the deployment it runs exactly when the refreshed list still holds the instant just run |
| CronScheduler.CronTickBlocksIff | app/routers/generic_resources.py:680-711 | with the cron scan, exactly when the clock had not reached that instant |
| CronScheduler.FirstRunStays | app/routers/generic_resources.py:1984-2009 | the first listed run stays listed exactly until its instant has come, and no later list goes back before it |
| Scheduler.EarlyTickStopsASchedule | app/routers/generic_resources.py:1766-1796 | such a tick leads to one run, and none ever after |
| CronScheduler.EarlyTickStopsEveryMinute | app/routers/generic_resources.py:1766-1799 | for instance `* * * * *` made at second 0 and ticked for second 60 at second 30 |
| Scheduler.AClientCanRunAnInstantTwice | app/routers/generic_resources.py:635-649 | a run request with the schedule trigger adds a second run for an instant already run |
| Scheduler.ScheduledDeploymentDueAt | app/routers/generic_resources.py:1766-1784 | the earliest listed instant not after now, unless paused, disabled or already run |
| Scheduler.ScheduledDeploymentRunExists | app/routers/generic_resources.py:1787-1799 | whether one of the newest 1000 runs is a scheduled run for the instant |
| Scheduler.DeploymentRows.RunDueScheduledDeployments | app/routers/generic_resources.py:652-677 | the tick over the newest live deployments, cut short by its limit or by an archived agent |
| TickOutcomes.DueAtIff | app/routers/generic_resources.py:1766-1799 | an instant is due exactly when it is the earliest listed of an active deployment, has come, and none of the newest 1000 runs is for it |
| TickOutcomes.RunMakes | app/routers/generic_resources.py:680-711 | which runs are made, the row each adds, the list a scheduled one renews, and the archiving of a deployment without a usable agent |
| TickOutcomes.ListingIs | app/routers/generic_resources.py:659-664 | the tick looks at exactly the live deployments that have fewer than 1000 newer live ones, newest first |
| TickOutcomes.TickRunsWhatIsDue | app/routers/generic_resources.py:652-677 | a tick that is not cut short runs exactly the live deployments that are due and have fewer than 1000 newer live ones, each for its due instant |
| TickOutcomes.TickRunsTheNewestDue | app/routers/generic_resources.py:652-677 | a tick that is cut short has run due ones only, newest first, none twice, within its limit, and passed over no newer due one |
| TickOutcomes.TickLeavesTheRest | app/routers/generic_resources.py:652-689 | what a tick has not run stays as it was, but for the due deployment without a usable agent at which it raised, which is archived |
| TickOutcomes.TickRaisesIff | app/routers/generic_resources.py:652-689 | a tick raises exactly when some due deployment it looks at has no usable agent and fewer due ones than the limit come before it |
| TickOutcomes.RequestsLeaveDue | app/routers/generic_resources.py:568-634 | a new or updated deployment is due by the list made at the clock of the request; a pause ends that and is undone by resuming |

## Left out

- HTTP, validation of request shapes, response shaping, pagination, tool normalization, webhooks, skills, vaults, environments' configuration and provider calls: they add no state that the properties here depend on.
- The executor: any result or exception it may produce is an input.
- Event payloads beyond the parts some decision reads; random identifiers of events, for which the sequence number within the session stands.
- The status details of a session beyond its retry counter, and the archiving of a session's primary thread, which rewrites them without appending an event and so lies outside the serial order.
- A session's threads, overlays and usage; the session is one, and so is the memory store.
- History queries stop at 1000 events. The handlers are modelled with that limit; `EveryRunAnswersOnce` is about the first 1000 events, and beyond them an answer can be repeated. The runner's own limit of 500 only decides what the executor is shown.
- The checks made when a session is created: a new session is where every run starts.
- The blocking wait of a work poll, the worker's endless loop, item metadata and the inline execution of a background task: only the decisions on the item are modelled. Work items, memories, files, agents and deployments are handled one request at a time; overlapping transactions are modelled for sessions only.
- WorkQueue.AttemptCountsStarts: counts executions started without a lease separately, because an inline execution raises the counter without being granted the item.
- The expected heartbeat a caller may quote, which can only refuse its heartbeat.
- WorkQueue.DisciplinedExecutionsNeverOverlap: one item and distinct worker names; a worker starts at most one execution per grant.
- Unicode tables, the UTF-8 length, SHA-256, the sanitizers of names and Python's `int` are functions the lemmas take as parameters.
- MemoryStore.EveryRunIsSound: update bodies hold the declared fields only; undeclared extra fields can overwrite computed ones.
- The sorting and paging of memory listings.
- FileStore.EveryRunRefines: the contents of a run have distinct digest prefixes and its workspaces sanitize to distinct names, since a 16-character prefix and a sanitized name make up an object key; FileFidelity.FaithfulIff does without that. Object storage is configured, and every file's bytes are in it. A crash between the object store and the database is not modelled, nor are capacity limits of session resources.
- AgentVersions.EveryRunIsSound: settings other than the roster are compared as a whole; two updates in overlapping transactions are stopped by the unique (agent, version) and are not modelled.
- AgentVersions.VersionsAreImmutable: the archived flag belongs to the agent, not to a version.
- CronScan.UpcomingCronRuns: works on wall-clock minutes, as the code does; the conversion to UTC, and with it the order of two runs across a change of the clocks, is not modelled. Day of month and weekday must both match, unlike the crontab utility of IEEE Std 1003.1.
- CronScheduler.ScanIsStrictlyFuture: time zones at a fixed distance from UTC; where an hour is repeated the list can go back.
- CronScheduler.PromptCronTicksRunOnce: ticks are not ahead of the clock; what one that is does, CronScheduler.CronTickBlocksIff says.
- The session a deployment run creates, and ticks that overlap one another.
