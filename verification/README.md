# Verified model of the collaborative learning platform

Students work in groups: they chat in a room, an assistant watches the room and
sometimes intervenes, and the group hands in one shared document, with
questionnaires before and after. The Python source keeps all of this in SQLite
and serves it to polling browser pages, background workers and a collaboration
server. This Dafny project models the parts of that source whose correctness
depends on many operations at once, and proves what they guarantee.

`dafny verify dfyconfig.toml` checks everything.

Each file is one module. Database transactions are functions on an immutable
snapshot of the tables; code that updates state in steps is also written as a
class or a loop whose contract ties it to those functions. Whole systems are
step machines, and results are about every run of them.

| file | what it holds |
|---|---|
| `Tables.dfy`, `Text.dfy` | optional values, `ORDER BY`, `str.strip` and client message ids |
| `MessageLog.dfy`, `WriterRuns.dfy`, `Observation.dfy`, `WriteOutcomes.dfy`, `MessageStore.dfy` | the group message log, its concurrent writers, the post-intervention observation cursors, what each write answers and stores column by column, and the statements as `db.py` issues them |
| `RoomSync.dfy`, `StudentPage.dfy` | polling, the browser's cursors and chat box, and the network of writers and pages |
| `SilenceCheck.dfy` | revalidation of a delayed silence check |
| `HelpQueue.dfy`, `HelpTask.dfy`, `HelpOutcomes.dfy` | queuing a help request once, the worker that answers it under a room lease, and the status each of its exits leaves |
| `DocumentSubmit.dfy`, `SubmitRaces.dfy` | prepare, commit, unfreeze and teacher return of a shared document, request by request and with the handlers interleaved statement by statement |
| `LoginKeys.dfy` | indexed login-key lookup with backfill |
| `Questionnaires.dfy`, `Publications.dfy`, `Expansions.dfy`, `Deletions.dfy`, `CompletionGate.dfy` | which questionnaires a student sees, publishing and deleting them, also row by row among other writers, answering them, and the page gate |
| `AssessmentBatches.dfy` | clean-up before the one-active-batch index |
| `StateNames.dfy`, `Templates.dfy`, `Strategy.dfy` | normalising group states, the template banks and the strategy library, and selecting a strategy and template |

## What the code does not do

Where a natural claim is false of the code, the code is modelled as it is, the exact
condition is proved, and a run or an input that meets it is given.

- A document room can stay frozen with nothing to unfreeze it: when the freeze
  answer is lost, when flush, clean-up or record creation raises, or when a
  teacher returns a document while the status call fails. The docstrings of
  `routes/collaborative_api.py` do not mention this.
  `DocumentSubmit.RequestKeepsJustifiedExactly` says exactly when;
  `DocumentSubmit.LostFreezeStrands` and `DocumentSubmit.BlindReturnStrands` are runs.
  With handlers at work at the same time it can happen without any failure: a room
  opened between a return's status call and its status write.
  `SubmitRaces.MoveKeepsJustifiedExactly` says exactly when for single statements;
  `SubmitRaces.LateOpenStrands` is a run.
- A help worker takes over leases of pipelines it outranks, and expired leases,
  as intended. But its exception handler frees any lease whose owner number is
  minus its request id, and strategy pipelines lease under negated ids too, so it
  can free a pipeline's lease that it neither outranks nor may reclaim.
  `HelpTask.ForeignLeaseFreedExactly`; `HelpTask.HandlerFreesPipelineLease` is a run.
- A completed help request is overwritten with a failure when loading it raises.
  `HelpTask.RerunKeepsDoneExactly`; `HelpTask.JobOutranksPipeline` and
  `HelpTask.RerunOverwrites` are two jobs in a row.
- A help job that claimed its request brings it to an end unless the last mark in the
  exception handler raises; then the request says Running for good.
  `HelpOutcomes.ClaimedJobEndsExactly`; `HelpOutcomes.UnfinishedExactly` lists the marks.
- Deleting a publication counts its submissions and deletes on two connections. An
  answered publication is lost exactly when a submit lands between some delete's
  count and its DELETE. `Deletions.LosesAnsweredExactly`; `Deletions.OvertakenDelete` is a run.
- No index covers the source message of a help request. When one call looks up while
  another stands between its look-up and its insert for the same message, the
  message is queued twice unless one of them raises first.
  `HelpQueue.StepKeepsQueueInvExactly`, `HelpQueue.SecondRequestExactly`;
  `HelpQueue.RetriedHelpDoubles` is a run.
- When two active rows share a login key, the indexed lookup prefers the one that
  has its digest, not the first one a scan would meet.
  `LoginKeys.SameRowExactly`; `LoginKeys.SharedKeyPicksOther` is such a table.
- Cutting a client message id at 100 characters can leave an outer blank, and the
  stored id is then not its own normal form. `Text.StoredIdNormalizesExactly`;
  `Text.CutBehindBlank` is such an id.

## Model

| member | source | states |
|---|---|---|
| `MessageLog.MaxSequence` | db.py:656-672 | the largest stored sequence of the group, 0 for none: an upper bound that is attained |
| `MessageLog.FindByClientId` | db.py:636-652 | finds a stored row with this group, user and client id, and finds none only if there is none |
| `MessageLog.NextSequenceIsFree` | db.py:656-685 | the allocated sequence is unused in every database, whatever rows other writers put above the counter |
| `MessageLog.StepKeepsLogInv` | db.py:588-800 | one step of any writer keeps ids ascending, sequences and client ids distinct, allocated rows on top, counters bounded |
| `MessageLog.RunKeepsLogInv` | db.py:2585-2586 | the same after every interleaving of split sends, publications, fallback writes, crashes and foreign inserts, the unique indexes aborting what would clash |
| `WriterRuns.StepGrowsOnTop` | services/intervention_pipeline_v2/fallback_service.py:150-195 | whatever an application writer inserts carries exactly MAX(sequence) + 1 of its group, stale fallback reads included, and earlier rows stay |
| `WriterRuns.RunKeepsAppInv` | db.py:636-739 | id order agrees with sequence order in every group after every application run |
| `WriterRuns.RunKeepsNumbering` | db.py:656-685 | no run leaves a gap or a repeat in a group's numbers |
| `WriterRuns.InterleavingIsSerial` | db.py:636-739 | every interleaving of two-step writers ends in the database of a serial order of whole requests |
| `WriterRuns.RetryReturnsStoredRow` | db.py:785-789 | a send whose client id is stored changes nothing and returns the one row that carries it |
| `WriterRuns.ErasingRetriesChangesNothing` | db.py:636-652 | a serial run and the same run without its retried sends end in the same log, counters and cursors |
| `WriterRuns.InterleavingWithRetries` | db.py:636-789 | a concurrent run with retries ends where a serial run without them ends |
| `Observation.FirstStudentAfter` | db.py:530-576 | the least sequence of a student row of the scope above the given one, None exactly for none |
| `Observation.LastPublication` | services/agent_intervention_publisher.py:900-907 | the largest sequence published for the scope, None exactly for none |
| `Observation.RecordAgrees` | db.py:729-737 | recording a sent row gives each cursor the value the longer log demands |
| `Observation.BeginAgrees` | db.py:498-519 | beginning with a publication on top of the log gives the cursor the value the longer log demands |
| `Observation.RunKeepsObservation` | db.py:448-586 | in every reachable state every cursor holds the largest sequence published for it and, while observing, the first student sequence after it, None exactly for none, begins repeated after the publication included |
| `Observation.BeginFitsExactly` | db.py:498-519 | whatever the cursor, fresh, inactive or observing: a begin leaves it as its scope deserves if and only if it is refused as old or no student row of the scope is numbered above it, which is why it belongs into the publishing transaction |
| `Observation.PipelinePublicationObserves` | services/agent_intervention_publisher.py:254-274 | a publication for a named discussion is written only under that discussion, which it observes |
| `Observation.LateBeginIsReplay` | services/three_stage_publish.py:1525-1532 | the begin a pipeline makes after its publication was committed finds the very row the publisher began, by id or without, or none, and changes nothing in any reachable state |
| `Observation.LateBeginsErase` | services/three_stage_publish.py:1525-1532 | a run with such begins ends where it ends without them |
| `Observation.BeginsEndAtLargest` | db.py:498-519 | begins alone end at the largest sequence; without an accepted one the row, also an inactive one, is unchanged |
| `Observation.BeginsCommute` | db.py:498-519 | begins in any order end in the same cursor row |
| `Observation.RecordsKeepLeast` | db.py:543-576 | records between two begins leave the least qualifying sequence |
| `Observation.RecordsCommute` | db.py:543-576 | records in any order end in the same cursor row |
| `WriteOutcomes.CreateMessageExactly` | db.py:588-800 | a send is a duplicate exactly when a row has its client id, else stored exactly when group and scope are there; the row carries the content, session, task, time and client id of the draft, its role, student by default, and its sender type, by default the role |
| `WriteOutcomes.PublishExactly` | services/agent_intervention_publisher.py:565-907 | a publication is refused exactly when group, scope or named discussion fail, a duplicate exactly when the client id is stored, and else stored as the agent's with every column of its draft, on top of the group, under the observation its session calls for |
| `WriteOutcomes.PublicationStartsObservation` | services/agent_intervention_publisher.py:900-907 | in every reachable state the scope so observed is observed from then on, no student seen yet, and no other cursor moves |
| `WriteOutcomes.FallbackExactly` | services/intervention_pipeline_v2/fallback_service.py:150-195 | the fallback row is stored exactly when the group exists, its place is free and the client id is new; it is the agent's, carries every column of its draft, and the counter is at or above it |
| `WriteOutcomes.SendAlone` | db.py:588-800 | look-up and write with nothing between them are the whole send |
| `WriteOutcomes.FallbackAlone` | services/intervention_pipeline_v2/fallback_service.py:150-195 | the read and the insert with nothing between them are the fallback request of the serialisation results |
| `MessageStore.Store.AllocateSequence` | db.py:656-685 | the counter statement gives the allocated sequence and moves only this group's counter |
| `MessageStore.Store.InsertRow` | db.py:704-725 | a row goes in exactly when the foreign key and both unique indexes allow it, else nothing changes |
| `MessageStore.Store.RecordObservation` | db.py:530-586 | updates the cursor rows its WHERE clause names, as the specification function does |
| `MessageStore.Store.BeginRow` | db.py:488-519 | insert-or-ignore and guarded update together are the specification of begin |
| `MessageStore.Store.BeginObservation` | db.py:448-528 | finds the discussion by id, group and session or by the pair alone, and begins its row or none |
| `MessageStore.Store.EnterStage` | services/group_discussion_runtime_service.py:153-183 | a group's discussion row of a session is created once and not replaced |
| `MessageStore.Store.CreateMessage` | db.py:588-800 | statement by statement with rollback, from the raw client id: exactly the transaction the run theorems are about |
| `MessageStore.Store.PublishAgentMessage` | services/agent_intervention_publisher.py:565-907 | lookup, allocation, insert and begin in one transaction, rolled back as one |
| `Text.StripMeaning` | db.py:153-159 | strip leaves a middle part without outer whitespace and drops only whitespace |
| `Text.StripBares` | db.py:153-159 | the result has no outer whitespace, and exactly such strings are left alone |
| `Text.StoredIdExactly` | db.py:153-159 | nothing is stored exactly for an id of nothing but whitespace; else the text between its outer whitespace, whole up to 100 characters, then its first 100 |
| `Text.StoredIdNormalizesExactly` | db.py:153-159 | a stored client id has 1 to 100 characters and is its own normal form if and only if the cut did not land behind a blank |
| `Text.CutBehindBlank` | db.py:153-159 | 99 letters, a blank and a letter are stored with an outer blank |
| `RoomSync.NewerAscends` | routes/api.py:638-645 | rows above a sequence: exactly the group's, each once, ascending |
| `RoomSync.EventRowsArePrefix` | routes/api.py:638-645 | ORDER BY and LIMIT together give the first rows of that list |
| `RoomSync.BetweenMeaning` | routes/api.py:638-645 | an interval of the log is the group's rows in it, each once, ascending |
| `RoomSync.NewerSplit` | routes/api.py:638-646 | the first k newer rows are one interval and the rest is what the next poll sees |
| `RoomSync.PollReturnsInterval` | routes/api.py:629-654 | a reply holds exactly the rows its cursor advances over, and leaves exactly the others |
| `RoomSync.BacklogDrains` | routes/api.py:876-882 | once sends stop, polls with any limits take their sum off the backlog, down to nothing |
| `RoomSync.BacklogGoneExactly` | routes/api.py:876-882 | with one limit, a backlog of k is gone after n polls if and only if n * limit >= k |
| `RoomSync.ChatMeaning` | routes/api.py:579-626 | the chat of a group is exactly the stored rows with its group and, in a session, its session number and task, whoever wrote them, each once in id order |
| `RoomSync.ChatAfterMeaning` | routes/api.py:608-626 | the rows after an id are exactly the chat's with a greater one, each once in id order |
| `RoomSync.ChatRowsMeaning` | routes/api.py:579-626 | without a cursor a reply holds the newest rows of the chat up to the limit, with one the next rows after it up to the limit |
| `StudentPage.ChatPage.BeginSync` | routes/collab_pages.py:912-917 | one sync at a time, asking from the page's own cursors |
| `StudentPage.ChatPage.EndSync` | routes/collab_pages.py:903-926 | a reply updates cursors and box as specified, a failure changes neither, and the flag is cleared either way |
| `StudentPage.ChatPage.ShowMessages` | routes/collab_pages.py:864-900 | the removal loop leaves the newest 350 rows |
| `StudentPage.NetRunKeepsInv` | routes/collab_pages.py:829-926 | every interleaving of writers, servers and pages keeps each page consistent with the log |
| `StudentPage.EventsDeliveredExactlyOnce` | routes/collab_pages.py:850-862 | each page's event batches joined are the group's messages in (start, cursor]: each once, ascending, none missing |
| `StudentPage.RenderedChatIsUnbroken` | routes/api.py:579-626 | what a page has rendered is, each once in id order, exactly the stored rows of its group, session number and task with an id from the first rendered one to lastMessageId, whoever wrote them; the box is its newest 350 rows |
| `StudentPage.SyncDrains` | routes/collab_pages.py:829-926 | in any reachable state one undisturbed sync takes its limit off the page's backlog of events and of chat rows, down to nothing |
| `StudentPage.LostSyncLeavesPage` | routes/collab_pages.py:903-926 | a sync whose answer fails leaves the page as before it began, wherever it had got |
| `SilenceCheck.LastStudent` | agent/monitoring_tasks.py:190-201 | the group's student row with the largest sequence |
| `SilenceCheck.CheckRoomSilence` | agent/monitoring_tasks.py:182-299 | each stale field is collected exactly when the newest student row lacks the expected value, and the verdict is stale exactly when one was collected |
| `SilenceCheck.VerdictExactly` | agent/monitoring_tasks.py:182-299 | whatever was scheduled: no room, stale, closed or detection, by whether some row is the newest student row with the expected sequence, time, session and task |
| `SilenceCheck.DetectsWhileUnanswered` | agent/monitoring_tasks.py:182-290 | a check for student row k is stale exactly when a later student row exists, else it closes or detects by room state |
| `SilenceCheck.RunExtendsLog` | db.py:704-739 | stored rows never change or move |
| `SilenceCheck.SilenceCheckExact` | agent/monitoring_tasks.py:155-299 | after any interleaving a fresh check detects if and only if the room is not closed and no student row was appended |
| `HelpQueue.HelpRequests.QueueStudentHelpRequest` | routes/api.py:339-443 | lookup, rate limit, a scope that does not resolve, insert and failed scheduling as specified, the new queue stated in full |
| `HelpQueue.QueueRequestExactly` | routes/api.py:339-443 | a message with a request gets no second one, the answer naming the stored one, open exactly while it waits or is worked on; else nothing is queued when refused or unresolved, and exactly one row for the message otherwise |
| `HelpQueue.QueueRequestKeepsOne` | routes/api.py:350-368 | every call keeps one request per message |
| `HelpQueue.CallAlone` | routes/api.py:350-413 | look-up, then insert or a raise, with nothing between them are the whole call |
| `HelpQueue.HandledAlone` | routes/api.py:471-523 | a whole request handled alone stores the message and queues for it as one call would |
| `HelpQueue.StepKeepsQueueInvExactly` | routes/api.py:350-413 | with message write, look-up and insert as separate steps, between which a handler may raise, a step keeps "one request per message, none about to be inserted twice" if and only if it is not a look-up that finds nothing while another call stands between look-up and insert for the message |
| `HelpQueue.SecondRequestExactly` | routes/api.py:350-413 | a message gets its second request exactly by the insert of a caller for whose message a request came since it looked; callers that raise in between do no harm |
| `HelpQueue.RunQueuesOncePerMessage` | routes/api.py:999-1043 | over any run without overlapping look-ups each message gets at most one request |
| `HelpQueue.PostsNeverOverlap` | routes/api.py:471-523 | through POST /api/message alone nothing overlaps, retried and racing sends included |
| `HelpQueue.OverlapDoublesRequest` | routes/api.py:350-413 | after an overlap the two inserts put two requests on one message |
| `HelpQueue.RetriedHelpDoubles` | routes/api.py:999-1043 | from an empty desk, a help call and its retry with the same client id queue message 1 twice |
| `HelpTask.RunKeepsLockInv` | agent/help_tasks.py:123-375 | in every run a room held under a worker's token can still be freed by that worker and carries its owner number |
| `HelpTask.FinishedWorkerHoldsNoLease` | agent/help_tasks.py:222-375 | a finished worker leaves no lease behind, whatever calls failed or raised |
| `HelpTask.HelpLeaseIsHeld` | agent/help_tasks.py:29-42 | in any run from a system without workers, a room leased under minus the request id in its name is held by a worker of it that has not finished |
| `HelpTask.ForeignLeaseFreedExactly` | agent/help_tasks.py:29-73 | a worker step changes a lease that is no worker's if and only if it preempts a pipeline the request outranks, reclaims an expired lease, or runs the exception handler while the owner number is minus its request id |
| `HelpTask.HandlerFreesPipelineLease` | agent/help_tasks.py:54-73 | from a new system, a run in which the handler frees a pipeline's lease that is neither outranked nor expired |
| `HelpTask.StepKeepsClaimInv` | agent/help_tasks.py:181-202 | each event moves the status only from waiting to running to terminal |
| `HelpTask.RunKeepsClaimInv` | agent/help_tasks.py:160-202 | claim and status bookkeeping hold in every run in which nothing raises before the claim |
| `HelpTask.OneClaimAndFinalStatus` | agent/help_tasks.py:181-202 | at most one worker ever claims, and a terminal status is never changed |
| `HelpTask.LateWorkerIsIdle` | agent/help_tasks.py:165-202 | a worker that has not claimed a terminal request changes nothing |
| `HelpTask.AloneEndsOpenExactly` | agent/help_tasks.py:222-375 | a job alone leaves an open room open, opens a leased one if and only if it takes the lease over or ends in the handler with its own number on it, and else leaves the room as it was |
| `HelpTask.JobOutranksPipeline` | services/three_stage_coordination.py:381-424 | a job that meets the lease of a pipeline it outranks takes the room, answers and opens it |
| `HelpTask.PipelineComesAndGoes` | services/intervention_pipeline_v2/room_lease_service.py:173-231 | a pipeline leases an open room, its claim changes, and the room is given back or reclaimed after its time |
| `HelpTask.RerunKeepsDoneExactly` | agent/help_tasks.py:131-150 | a finished request survives a re-run if and only if loading does not raise, or marking it failed raises too |
| `HelpTask.RerunOverwrites` | agent/help_tasks.py:131-150 | the request that job answered is marked failed by a second job whose load raises |
| `HelpOutcomes.StatementStatusExactly` | agent/help_tasks.py:123-375 | in every state a statement changes the request exactly when it claims, publishes, marks failed or reclaims the request's own expired lease, and to what |
| `HelpOutcomes.ClaimedJobEnds` | agent/help_tasks.py:203-375 | in every run, whatever raises, a finished job that claimed the request has brought it to a terminal status, unless the handler's final mark raised on it |
| `HelpOutcomes.ClaimedJobEndsExactly` | agent/help_tasks.py:203-375 | when nothing raises before the claim, if and only if that mark did not raise; otherwise it stays Running |
| `HelpOutcomes.JobEndsExactly` | agent/help_tasks.py:123-375 | exit by exit: Failed for no room, no suggestion, a refusal and an exception; completed with the stored message exactly when published, with fallback exactly when the publication was one |
| `HelpOutcomes.UnfinishedExactly` | agent/help_tasks.py:123-375 | exactly the marks that have to raise for a job alone to leave a waiting request unfinished |
| `HelpOutcomes.RecoveryExactly` | services/intervention_pipeline_v2/room_lease_service.py:1064-1275 | recovering an expired lease opens the room and fails the request exactly when the lease was its own and it was not done |
| `HelpTask.HelpDesk.Claim` | agent/help_tasks.py:181-202 | the conditional update wins exactly when claimable, and then only sets the status |
| `HelpTask.HelpDesk.PreemptPipelines` | services/three_stage_coordination.py:381-424 | opens the room exactly when a pipeline the request outranks leases it |
| `HelpTask.HelpDesk.RecoverExpired` | services/intervention_pipeline_v2/room_lease_service.py:1064-1275 | reclaims an expired lease, and fails the help request it belonged to |
| `HelpTask.HelpDesk.TakeOpenRoom` | services/intervention_pipeline_v2/room_lease_service.py:173-231 | an open room is leased under a fresh token, any other state is left alone |
| `HelpTask.HelpDesk.AcquireHelpRoomLock` | agent/help_tasks.py:29-42 | preempt, reclaim, acquire; a raise at any of them after the earlier ones committed means no lock |
| `HelpTask.HelpDesk.Free` | services/intervention_pipeline_v2/room_lease_service.py:1008-1061 | frees the room only under the given token |
| `HelpTask.HelpDesk.PublishIntervention` | services/agent_intervention_publisher.py:211-244 | refuses without the lease or after its time; else completes the request and frees the room in one |
| `HelpTask.HelpDesk.LoadAndClaim` | agent/help_tasks.py:159-202 | the idempotency tests and the claim end where the step machine stands |
| `HelpTask.HelpDesk.AnswerUnderLease` | agent/help_tasks.py:230-309 | from the lease on, exit by exit, ends where the step machine ends |
| `HelpTask.HelpDesk.ExecuteHelpFlow` | agent/help_tasks.py:153-309 | the flow as a whole ends where the step machine ends |
| `HelpTask.HelpDesk.WritePhase` | agent/help_tasks.py:311-375 | the try block and its except branch end where the step machine ends |
| `HelpTask.HelpDesk.ProcessStudentHelp` | agent/help_tasks.py:123-150 | the whole worker job is the step machine run alone |
| `DocumentSubmit.RequestKeepsJustifiedExactly` | routes/collaborative_api.py:381-427 | a frozen room stays justified (an open prepare, or a document handed in) if and only if the request is none of the listed stranding ones |
| `DocumentSubmit.RunKeepsJustified` | routes/collaborative_api.py:381-715 | so it is between any two requests of a run without a stranding request |
| `DocumentSubmit.LostFreezeStrands` | routes/collaborative_api.py:405-408 | a new document, opened, whose prepare loses the freeze answer is frozen with nothing to commit |
| `DocumentSubmit.BlindReturnStrands` | routes/collaborative_api.py:686-694 | prepare, commit with a failed close, return with a failed status call: returned and still frozen |
| `DocumentSubmit.RunTracesTickets` | services/collaborative_service.py:359-416 | over any run at most one prepare record exists, and it is open if and only if it is the ticket issued last and not voided since |
| `DocumentSubmit.CommitRedeemsCurrentTicket` | routes/collaborative_api.py:437-552 | after any run a commit succeeds if and only if its calls work, the document is not submitted, and its ticket is the current one of the same user and revision; it submits the document and spends the ticket |
| `DocumentSubmit.CommitAlone` | routes/collaborative_api.py:437-552 | what a commit answers and leaves, by column, for every outcome of its calls: the status set as soon as the update worked, the ticket spent once marked, the room thawed after a raise |
| `DocumentSubmit.PrepareSucceedsExactly` | routes/collaborative_api.py:381-427 | a prepare succeeds exactly when status, right, room and calls allow it, and then leaves a frozen room and its ticket alone |
| `DocumentSubmit.UnfreezeUndoesPrepare` | routes/collaborative_api.py:563-584 | after an unfreeze the room is open for editing and the ticket is worthless |
| `DocumentSubmit.ReturnReopens` | routes/collaborative_api.py:656-715 | a document handed in and returned can be opened and prepared once more |
| `DocumentSubmit.PrepareThenCommit` | routes/collaborative_api.py:381-545 | prepare then commit submits the document and closes the room, and the commit cannot be repeated |
| `DocumentSubmit.DocumentDesk.PrepareSubmit` | routes/collaborative_api.py:381-427 | the handler's new state and answer for every outcome of every call |
| `DocumentSubmit.DocumentDesk.WriteRows` | routes/collaborative_api.py:474-531 | the auto-committed writes up to the first that raises |
| `DocumentSubmit.DocumentDesk.CommitSubmit` | routes/collaborative_api.py:437-552 | the handler's new state and answer, the room unfrozen after a raise, nothing rolled back |
| `DocumentSubmit.DocumentDesk.UnfreezeSubmit` | routes/collaborative_api.py:563-584 | clears the prepare records and the freeze unless the document is submitted or the clean-up raises |
| `DocumentSubmit.DocumentDesk.Return` | routes/collaborative_api.py:656-715 | unfreezes only a room the status call reports, then sets the status, which stays set when recording the event raises |
| `SubmitRaces.AloneIsHandle` | routes/collaborative_api.py:381-715 | a handler nobody comes between, run statement by statement, ends where the request is specified to end |
| `SubmitRaces.OvertakenCommitFails` | routes/collaborative_api.py:474-552 | a commit whose update was undone before it reads the row again fails and thaws the room |
| `SubmitRaces.MoveKeepsJustifiedExactly` | routes/collaborative_api.py:381-715 | with any number of handlers at work, one statement leaves a frozen room covered or in some handler's care if and only if it is none of the listed stranding ones |
| `SubmitRaces.RacesKeepJustified` | routes/collaborative_api.py:381-715 | so over any interleaving without such a statement, and once no handler is at work a frozen room has an open prepare or a document handed in |
| `SubmitRaces.LateOpenStrands` | services/collaboration_server/app.py:275-303 | a document handed in is returned while a student opens its room: every call works, and the returned document stays frozen with nothing to commit |
| `LoginKeys.SucceedsAsPlainScan` | auth.py:96-137 | a login succeeds if and only if a scan of all active rows would, and only for a holder of the key, distinct keys or not |
| `LoginKeys.SameRowAsPlainScan` | auth.py:140-180 | with distinct active keys it returns that very row |
| `LoginKeys.SameRowExactly` | auth.py:114-137 | without that, it is the scan's row if and only if that row has its digest or no active row with the key has one |
| `LoginKeys.SharedKeyPicksOther` | auth.py:114-137 | a table of two rows with one key on which scan and lookup differ |
| `LoginKeys.VerifyFills` | auth.py:84-93 | a login fills in the digest of the row it matched and writes nothing else |
| `LoginKeys.VerifyKeepsDigests` | auth.py:84-93 | no login changes a stored digest or any other column, even when row ids repeat |
| `LoginKeys.RunFills` | auth.py:84-137 | after any run the table is the initial one with the digests of the keys used filled in, order and repetition aside |
| `LoginKeys.RunAgreesWithPlainScan` | auth.py:96-137 | whatever logins came before, the next finds the row a scan of the initial table finds |
| `LoginKeys.ScanShrinks` | auth.py:127-136 | digests stay right, and the rows still to be scanned lose exactly those whose key was used |
| `LoginKeys.KeyTable.VerifyLoginKey` | auth.py:96-137 | lookup, scan loop with early return and backfill are the specification function |
| `Questionnaires.Join` | db.py:4279-4296 | the join holds exactly the offered pairs with their rank |
| `Questionnaires.OfferedExactly` | db.py:4279-4296 | a publication reaches a student exactly when open, for the session and stage, and limited to nobody but the student's own group or the student |
| `Questionnaires.RankMeaning` | db.py:4279-4296 | rank 0 is the student's own publication, 1 the group's, 2 everyone's |
| `Questionnaires.ListIsOrdered` | db.py:4267-4304 | the list goes by rank, then sort order, then id, strictly |
| `Questionnaires.NearestPublicationWins` | db.py:4297-4304 | a questionnaire published to the student is listed through the student's own publication, one published to the group never through one for everyone |
| `Questionnaires.KeepFirstIsLeast` | db.py:4297-4304 | in ordered rows the row kept for an id has the least rank of its rows |
| `Questionnaires.OfferedIsCovered` | db.py:4267-4304 | a publication that reaches the student puts its questionnaire on the list at its rank or a lesser one |
| `Questionnaires.StudentListExact` | db.py:4267-4304 | the list is exactly the active questionnaires reached by an enabled publication, each once, with least rank, ordered by rank, sort order, id |
| `Questionnaires.ListPublished` | db.py:4297-4304 | the pass with the seen set computes that list |
| `Publications.RunKeepsInv` | migrations.py:408-418 | after any run of whole creates, publishes, expansions, opens, closes, deletes and submits a questionnaire is published at most once per session, stage and scope |
| `Expansions.SharedRunKeepsInv` | migrations.py:408-418 | the same with any number of publishes and expansions running row by row, each read and write on its own, among other writers |
| `Expansions.FinishedJobsCover` | db.py:3964-3990 | as long as nobody closes or deletes, every such publish or expansion that finishes has all its targets open under the ids it returns |
| `Expansions.FinishedJobsAgree` | db.py:3964-3990 | two of them over the same targets return the same ids if both finish |
| `Expansions.FinishedJobsRepeat` | db.py:3964-3990 | running the targets once more goes through and returns the same ids |
| `Expansions.RaisesExactly` | db.py:3964-4035 | a step raises if and only if it is about to create a row that may not be or by now exists, or to open a row that is gone; the latter never in runs without deletes |
| `Expansions.PublishAlone` | db.py:4077-4131 | a publish run row by row with nobody coming between is the whole operation, a raise in the middle included |
| `Expansions.ExpandAlone` | db.py:3947-3990 | so is an expansion |
| `Publications.EnsureAllOpens` | db.py:3964-3990 | when no step raised, every target is open under the id returned for it |
| `Publications.EnsureAllRepeats` | db.py:3964-3990 | repeating steps that went through changes nothing and returns the same ids |
| `Publications.ExpandCoversAndRepeats` | db.py:3947-3990 | expanding opens every active item in every stage its timing allows; expanding again changes nothing |
| `Publications.ExpandSucceedsExactly` | db.py:3947-4019 | expanding goes through if and only if set and session are there and the scope is valid or nothing is left to create |
| `Publications.EnsureAllSucceedsExactly` | db.py:3993-4029 | steps go through if and only if each target is published already or may be |
| `Publications.PublishRepeats` | db.py:4077-4131 | publishing again changes nothing and returns the same ids |
| `Publications.PublishSucceedsExactly` | db.py:4077-4131 | a publish goes through exactly when questionnaire and session exist and each stage meant is published or may be |
| `Publications.PublishOpensExactly` | db.py:4077-4131 | it then has the questionnaire open in each stage asked for, or each its timing has, one id for each |
| `Publications.EnsureAllTouchesOnly` | db.py:3964-3990 | publishing and expanding touch no row but those of their targets |
| `Publications.CreateExactly` | db.py:3993-4035 | a create goes through exactly when its checks pass and no row has the same questionnaire, session, stage and scope; it adds one open row with the columns given |
| `Publications.SetStatusExactly` | db.py:4133-4142 | opening or closing sets the one row's status and nothing else, and raises exactly without the row |
| `Publications.DeleteExactly` | db.py:4152-4165 | an unanswered publication is the one row that goes; an answered one stays, closed and otherwise unchanged, and the call raises |
| `Deletions.DeleteAlone` | db.py:4152-4165 | look-up, count and DELETE with nothing in between are the whole operation |
| `Deletions.RunKeepsOfficeInv` | migrations.py:408-418 | with deletes, publishes and expansions all split and mixed with other writers: at most one publication per key, and a delete counts for the very row it removes |
| `Deletions.StepKeepsAnsweredExactly` | db.py:4152-4165 | a step loses an answered publication if and only if it is the DELETE of a caller that counted none |
| `Deletions.LosesAnsweredExactly` | db.py:4152-4165 | a publication that was answered at some point of a run is missing at its end if and only if a submit for its questionnaire, session and stage landed between some delete's count and its DELETE |
| `Deletions.RunKeepsAnswered` | db.py:4152-4165 | what was answered before any delete began is never lost |
| `Deletions.OvertakenDelete` | db.py:4152-4165 | from an empty table: published, counted by a delete, answered, deleted all the same |
| `Publications.PublicationDesk.CreatePublication` | db.py:3993-4035 | the new table and id, or an error and no change |
| `Publications.PublicationDesk.EnsureTargets` | db.py:3964-3990 | the loop is the specification, a raise in the middle included |
| `Publications.PublicationDesk.ExpandSet` | db.py:3947-3990 | expansion as specified |
| `Publications.PublicationDesk.PublishToSession` | db.py:4077-4131 | publication to a session as specified |
| `Publications.PublicationDesk.DeletePublication` | db.py:4152-4165 | deletes, or closes and raises when submissions exist |
| `CompletionGate.SubmitAllOrNothing` | db.py:4201-4264 | a submit stores its row and every answer with a numeric key, or nothing |
| `CompletionGate.SubmitExactly` | db.py:4201-4264 | a form is accepted exactly when no row has its key and none of its items raises, turned away exactly on a submitted row it sees, and what is stored is given by column |
| `CompletionGate.ResponsesMeaning` | db.py:4218-4256 | the rows a form stores are one for each item with a numeric key, all under the form's own key |
| `CompletionGate.SubmitOnlyOnce` | db.py:4206-4214 | after an accepted submit every later one for its key is turned away without effect, whatever it raced with |
| `CompletionGate.RunKeepsOnePerKey` | db.py:3098-3101 | at most one submission per questionnaire, student, session and stage after any run of submits, racing or not |
| `CompletionGate.RunAnswersExactly` | db.py:4201-4264 | a key is answered after a run if and only if it was before or a submit for it was accepted |
| `CompletionGate.AnsweredExactly` | db.py:1564-1585 | answered means a submitted row or any response with the same questionnaire, student, session and stage |
| `CompletionGate.PendingOnList` | db.py:1564-1585 | an unanswered row on the list exists exactly when something offered is unanswered |
| `CompletionGate.HasPending` | db.py:1553-1587 | true exactly when the session asked for, or the running one, offers something unanswered |
| `CompletionGate.CheckPhaseDone` | routes/collab_pages.py:79-103 | true exactly when no session runs or nothing offered is unanswered |
| `CompletionGate.LoopsAgree` | routes/collab_pages.py:79-106 | the two loops are each other's negation |
| `CompletionGate.GateOpensExactly` | db.py:1553-1587 | with publications fixed the gate is open after a run if and only if each offered questionnaire was answered before or accepted in it |
| `CompletionGate.OrdinaryFormsOpenGate` | db.py:1553-1587 | a run with one ordinary form for each offered questionnaire opens the gate, whatever else was stored or is submitted |
| `CompletionGate.GateStaysOpen` | db.py:1553-1587 | an open gate stays open under any submits |
| `CompletionGate.RedirectsEnd` | routes/collab_pages.py:24-68 | a browser follows at most two redirects and ends on the page the state calls for |
| `CompletionGate.AnswerStore.CreateSubmission` | db.py:4201-4264 | the transaction with its loop and rollback is the specification |
| `AssessmentBatches.MinId` | migrations.py:1022-1029 | the least id among the active rows of a scope, None exactly for none |
| `AssessmentBatches.SupersedeExactly` | migrations.py:1019-1031 | exactly the active rows that are not their scope's oldest become superseded, all others untouched, leaving one active per scope |
| `AssessmentBatches.SupersededColumns` | migrations.py:1019-1031 | an active row with an elder becomes superseded, completed now unless it had been, and stamped; no other column or row changes |
| `AssessmentBatches.ScopeKeepsItsOldest` | migrations.py:1017-1031 | a scope with an active batch keeps its oldest as it is |
| `AssessmentBatches.SupersedeIdleExactly` | migrations.py:1019-1031 | the update changes nothing if and only if the index could already be created |
| `AssessmentBatches.RunKeepsIndexed` | migrations.py:1050-1054 | the index's test of each written row against the others keeps one active batch per scope over all later writes |
| `AssessmentBatches.RefusedExactly` | migrations.py:1050-1054 | an insert is refused if and only if it would leave two active batches in a scope |
| `AssessmentBatches.UpdateExactly` | migrations.py:1050-1054 | a status update is refused exactly when it would leave two active batches, and else sets that row's status and time |
| `AssessmentBatches.MigrationRepeats` | migrations.py:1017-1054 | after any writes the migration runs again without effect |
| `AssessmentBatches.BatchTable.Migrate` | migrations.py:1017-1054 | creating the index after the update cannot fail |
| `StateNames.CoerceEvidenceTags` | knowledge_base.py:70-85 | the loops yield each stripped non-empty tag once |
| `StateNames.SplitExactly` | knowledge_base.py:70-85 | a text is cut at every comma and semicolon, full-width ones included, and nowhere else |
| `StateNames.TagsExactly` | knowledge_base.py:70-85 | exactly the stripped non-empty texts that some value mentions become tags |
| `StateNames.OnceInOrder` | knowledge_base.py:70-85 | tags stand in the order in which they first appear |
| `StateNames.CoercedCleans` | knowledge_base.py:70-85 | tags are clean whatever shape they came in, and clean tags come back unchanged |
| `StateNames.NormalizedTagsClean` | knowledge_base.py:88-139 | normalising loses no old code: it is among the tags |
| `StateNames.NormalizedCodeExactly` | knowledge_base.py:88-139 | a final code comes through, an old one is replaced and remembered, anything else is unknown and remembered as written |
| `StateNames.OldCodesGo` | knowledge_base.py:88-139 | which final code each old one becomes, by which tags |
| `StateNames.NormalizeTwice` | knowledge_base.py:88-139 | normalising a normalised payload changes neither code nor tags |
| `Strategy.Pick` | agent/strategy.py:307-311 | the index is in range: an entry of the list, none exactly for an empty list |
| `Strategy.PickGoesRound` | agent/strategy.py:307-311 | picking goes round the list: the empty seed picks the first entry, each further character moves on by its code |
| `Templates.IdsSpell` | knowledge_base.py:252-426 | every listed id spells the table and the bank it is filed in, and its place there |
| `Templates.IdsDoNotClash` | knowledge_base.py:252-426 | no id is filed twice, in one table or across the two |
| `Templates.IdResolvesHome` | agent/strategy.py:96-100 | the map over both tables leads every id to the entry of its own table and bank |
| `Templates.LibraryResolves` | agent/strategy.py:25-94 | every id a strategy lists for a condition resolves to a template of that condition's table and the strategy's own bank |
| `Strategy.StrategyEntryIsOwn` | agent/strategy.py:323-336 | the entry picked is one of the strategy's ids, so the fallback bank is never needed |
| `Strategy.EntryBySeed` | agent/strategy.py:323-336 | the template said is the id the seed leads to, counted round the strategy's own list |
| `Strategy.SeedExactly` | agent/strategy.py:323-336 | the seed is group, condition, strategy and the last 240 characters of the summary |
| `Strategy.SelectionStaysInCondition` | agent/strategy.py:390-443 | only "control" selects from the control table; the chosen template is filed in the table of the condition, its id says so too, and it is one of the strategy's ids or of the default bank |
| `Strategy.StrategyAddressesState` | agent/strategy.py:343-387 | a strategy is selected exactly in a formal state, from a bank that addresses it |
| `Strategy.SilenceStrategies` | agent/strategy.py:343-387 | each strategy for silence, and exactly when it is selected |
| `Strategy.OtherStrategies` | agent/strategy.py:343-387 | each other strategy, and by which words of the summary or which category of the decision it is selected |
| `Strategy.IntervenesExactly` | agent/strategy.py:390-417 | a group is addressed exactly in a formal state when the decision says so, or says nothing and the route asks for it, unless an undecided model objects |
| `Strategy.SubCategoryExactly` | agent/strategy.py:398-402 | the model's sub-category counts exactly when a route knows it |
| `Strategy.InterventionHasStrategy` | agent/strategy.py:343-417 | intervening implies a formal state and a strategy, and the template addresses that state |
| `Strategy.ConditionOnlyPicksTemplate` | agent/strategy.py:390-443 | whether and with which strategy a group is addressed does not depend on its condition |

## Left out

- Flask, Huey, SQLite pragmas, the language model, HTML, logging, clocks and exports: input and output only.
- `resolve_discussion_scope`: its result, or that it raises, is part of a draft; for a pipeline's publication it is taken to be the pipeline's own session, and whether the named discussion is running is part of the same outcome. Sessions are deleted only as drafts, before any discussion.
- `updated_at` and the cursor columns no modelled statement reads; `last_finalized_student_sequence` is one of them.
- Rows written by seeding code take part in the uniqueness results only; in the numbering, delivery and serialisation results all writers are the application's.
- The emotion agent's writer (services/emotion_agent/emotion_reflection_service.py:2457-2511) allocates and inserts as a publication that begins no observation, and is modelled as one.
- A send that loses a race to the client-id index gets an error where the serial order returns the stored row; the serialisation result is about the database, not that answer.
- Joins with `users` and `experiment_participants` are taken to keep one row per message; a page is taken to have its chat box and a fixed session while open.
- The silence check's audit rows and the detection it starts are not part of this model.
- Lease release and room unfreeze are taken to succeed. Whether a lease has expired, and whether the request outranks the pipeline that holds it, are flags of the lease that other users of the room change; clocks, priorities and scopes behind them are not modelled. Leases of other help requests and of intervention runs appear as leases of other users.
- DocumentSubmit.RunKeepsJustified: its requests run one after the other (`SubmitRaces.RacesKeepJustified` has them interleaved); the ticket results are about requests in a row only, and the automatic submit on timeout is left out.
- "Exactly one submission row per document" is false of the commit handler, whose writes are not one transaction.
- LoginKeys.SameRowAsPlainScan: a password hash is taken to match exactly the key it was made from, and the digest secret not to change.
- The latest membership row supplies a missing group before the questionnaire list is read; the list takes the group as given.
- `list_student_questionnaires`: its inner loop overwrites the stage it iterates over, so the natural claims are false.
- Parsing of answer values in `create_questionnaire_submission` is not modelled, only which items are stored.
- StateNames.NormalizeTwice: `str.lower` is a parameter that must leave the six final codes alone; labels and risk levels are constants per code and are left out, as is the last test on the assessment status, which never fires because the code is final by then.
- Keyword heuristics (`infer_sub_category`, the counters in `knowledge_base.py` and `agent/detector.py`) and the rendering of template texts have no strong specification; their results are parameters.
- The long lists of column migrations, the segment table rebuild, seed scripts and one-off fix scripts.
