# Verified model of the durable execution kernel

The repository runs coding-agent Jobs that must survive crashes: several processes share one
transactional record store, take over each other's work under fenced leases, queue for capacity,
retry, cancel, control running attempts, and build an immutable chain of evidence on top. This
project models that kernel in Dafny and proves its guarantees over every run.

`dafny verify dfyconfig.toml` checks everything.

## Layout

| files | what they hold |
|---|---|
| Records, DurableStore, DurableRecordStore | the store's tables, one function per transaction, and the store object whose methods update the tables in place and are proved against those functions |
| StoreCalls, StoreInvariant, StoreHistory, StoreFences, StoreSlots, StoreCapacity, StoreHeartbeat, StoreAdmission, StoreRefinement, StoreRoutePool, RoutePool, MemoryJobStore | when each call goes through and what it writes, told by the tables' columns, and what runs of calls keep: histories, fences, capacity rows and their leases, heartbeats, idempotent admission and its in-memory form, route pools |
| JobProtocol, JobSafety, JobGuarantees, JobProgress, JobActivation | several owners running Jobs over the store as a state machine, its invariant and theorems, what an undisturbed activation achieves, and one activation as an object with its attempt loop and recovery |
| ControlProtocol, ControlSafety, ControlGuarantees, WorkerControl | worker controls over the same store, and the per-attempt channel |
| DurableExecution, LocalCapacity | the lease coordinator of one process, and its local capacity when its store has no leases |
| SubscriptionProtocol, SubscriptionSafety, DurableSubscription | subscribers against writers, and the signal objects and cursor loop |
| OrchestrationDispatch | the bounded dispatch loop of a parent |
| SemaphoreSpec, SemaphoreRuns, Semaphore | the local semaphore as a state machine, its runs told by their calls, and as an object |
| Utf8, RecordLimits, JobOutput, Jsonl | byte and text algorithms |
| CanonicalJson | canonical JSON text |
| DomainChain, DomainProgress, DomainServices | WorkOrder, Candidate, Review and Disposition over separate stores |

Time is an argument. The store, Job, control, subscription, semaphore and domain theorems hold for
arbitrary clock readings; `StoreHeartbeat` constrains them, to readings at most two heartbeats after
the latest renewal, and a full round of a route pool lets the calls of one run read one clock. A failed transaction is modelled by its result: the state stays as it was.
In the state machines a move is what runs between two awaits, a move that is not possible leaves the
state alone, and a crash is the disappearance of an activation.

## What the code does not promise

Where the code is weaker than its comments suggest, the project follows the code.

- `releaseCapacity` does not look at the lease: a lease that is over still removes a capacity row exactly when it was released while that row stood and the row has stood since (`StoreSlots.OverReleasesSlotExactlyWhen`); a lease that was taken over never does (`StoreSlots.TakenOverNeverReleasesSlot`).
- A recovery starts a queued Job exactly when the stored history holds no job.recovery.started and no cancellation was accepted; it settles any other queued Job (`JobProgress.QueuedJobRecoversExactlyWhen`). So a queued Job whose recovering process dies between persisting that event and starting the Job is settled as failed by the next recovery (`JobProgress.QueuedJobMayFailOnSecondRecovery`).
- A newcomer may pass a waiter whose callback is still running (`SemaphoreSpec.NewcomerOvertakes`).
- The in-memory idempotency key joins scope and key with NUL and can collide for scopes that contain NUL (`StoreAdmission.ScopesApartExactlyWhen`).
- The JSON Lines decoder drops empty lines except one at the end of the stream (`Jsonl.EmptyLineExactlyWhen`).
- When the dispatch loop drains after an error, children stay unawaited exactly when a settlement other than the drain's last one fails (`OrchestrationDispatch.DrainLeavesExactlyWhen`); a failing last settlement leaves none (`OrchestrationDispatch.SecondFailureMayLeaveAChild`).

## Model

| member | source | states |
|---|---|---|
| DurableRecordStore.SqliteRecordStore.Create | src/durable-record-store.ts:364-369 | A new record is inserted under revision 1 with all its events, or the call fails (bad numbering, identity taken) and no table changed. |
| DurableRecordStore.SqliteRecordStore.InsertEventRows | src/durable-record-store.ts:649-657 | The loop that inserts the new suffix of events writes exactly that suffix and never hits the primary key. |
| DurableRecordStore.SqliteRecordStore.UpdateRecord | src/durable-record-store.ts:658-667 | The guarded row update changes one row when the expected revision is the stored one, and none otherwise. |
| DurableRecordStore.SqliteRecordStore.Save | src/durable-record-store.ts:597-670 | A save refuses immutable kinds, missing or stale revisions, a presented lease that is not current, a success after a cancellation request and rewritten history, in this order and with no table changed; otherwise it commits the copy, its new events and the next revision. |
| DurableRecordStore.SqliteRecordStore.BindWorkOrderExecutorJob | src/durable-record-store.ts:673-742 | Binding is accepted once against the public event sequence, repeats for the same Job, conflicts for another one, and otherwise changes nothing. |
| DurableRecordStore.SqliteRecordStore.ClaimInTransaction | src/durable-record-store.ts:984-1034 | First claim, own renewal, refusal while another lease lasts, and takeover under the next fence with the capacity row moved along. |
| DurableRecordStore.SqliteRecordStore.ClaimLease | src/durable-record-store.ts:801-811 | The claim of an existing record keeps every table invariant and does what the claim transaction says. |
| DurableRecordStore.SqliteRecordStore.RenewLease | src/durable-record-store.ts:813-829 | Only the exact, unexpired lease is extended; the reply says whether it was. |
| DurableRecordStore.SqliteRecordStore.ReleaseLease | src/durable-record-store.ts:831-834 | Release clears the owner and keeps the fence, for the exact lease only. |
| DurableRecordStore.SqliteRecordStore.TryAcquireInTransaction | src/durable-record-store.ts:1036-1122 | Upsert of the caller's row, purge of rows without an unexpired lease of their own, then a grant to the first waiting row below the limit; a lease that is not current changes nothing. |
| DurableRecordStore.SqliteRecordStore.TryAcquireCapacity | src/durable-record-store.ts:836-847 | The capacity call checks kind and limit first and keeps every table invariant. |
| DurableRecordStore.SqliteRecordStore.ReleaseCapacity | src/durable-record-store.ts:849-861 | Deletes the row that carries the lease's owner and fence, and no other. |
| DurableRecordStore.SqliteRecordStore.RequestCancellation | src/durable-record-store.ts:868-887 | A terminal record accepts no request; the first request of a record is kept and returned to every later one. |
| DurableRecordStore.SqliteRecordStore.EnrollRecord | src/durable-record-store.ts:404-425 | A first admission writes record, key, lease and capacity row together and cannot fail half way. |
| DurableRecordStore.SqliteRecordStore.Admit | src/durable-record-store.ts:372-440 | Admission replays a known key, conflicts on another request hash, or enrolls; refusals change no table. |
| DurableRecordStore.SqliteRecordStore.AdmitRoutePool | src/durable-record-store.ts:447-578 | Route-pool admission selects, checks the built record's route, enrolls and advances the cursor in one transaction, or changes nothing. |
| StoreInvariant.StepKeeps | src/durable-record-store.ts:171-185 | Every call, committed or rolled back, keeps the table invariant and only moves forward: revisions, histories, fences and capacity sequences never go back, cancellations and keys are never rewritten. |
| StoreInvariant.RunKeeps | src/durable-record-store.ts:171-185 | The same over whole runs of calls. |
| StoreInvariant.WrittenTable | src/durable-record-store.ts:649-664 | After a commit the event table is again exactly the snapshots' event lists. |
| StoreInvariant.FirstClaim | src/durable-record-store.ts:414-425 | The admission lease and slot request of a new record always go through, so the errors after the insert are unreachable. |
| StoreHistory.EventsAfterIsSuffix | src/durable-record-store.ts:791-799 | `eventsAfter(id, k)` is the snapshot's event list from position k on. |
| StoreHistory.EveryRowReadsBack | src/durable-record-store.ts:954-964 | In every reachable store each row parses to its record; the sequence mismatch error cannot occur. |
| StoreHistory.OneCommitPerRevision | src/durable-record-store.ts:621-625 | Of all saves of a record that present the same revision, at most one commits, over every run. |
| StoreHistory.HistoryOnlyGrows | src/durable-record-store.ts:921-930 | What a reader got after a cursor is a prefix of what it gets from the same cursor later. |
| StoreHistory.NeverSucceededAndCancelled | src/durable-record-store.ts:639-642 | No reachable record is both succeeded and cancellation-requested. |
| StoreHistory.FirstRequestStays | src/durable-record-store.ts:868-887 | An accepted cancellation request is what every later lookup and request returns. |
| StoreHistory.CancelledNeverSucceeds | src/durable-record-store.ts:639-642 | After an accepted request every save with status succeeded is refused. |
| StoreFences.IssuedIsCurrent | src/durable-record-store.ts:984-1034 | A lease that a call returns is the current one at that moment. |
| StoreFences.OneOwnerPerFence | src/durable-record-store.ts:984-1034 | Fences of a record are issued in ascending order and each belongs to one owner, over every run and any clocks. |
| StoreFences.WhatEndsALease | src/durable-record-store.ts:318-326 | A current lease ends exactly by its own release or by a claim at or after its expiry. |
| StoreFences.OverNeverAuthorizes | src/durable-record-store.ts:626-638 | A superseded or released lease never again passes a leased save, renewal, release or capacity request, for any clock. |
| StoreSlots.OverReleasesSlotExactlyWhen | src/durable-record-store.ts:849-861 | Over every run, a lease that is over gets a capacity row removed exactly when it was released while its row stood and the row has stood ever since. |
| StoreSlots.TakenOverNeverReleasesSlot | src/durable-record-store.ts:1024-1032 | Over every run, a lease that a claim took over never again removes a capacity row: the takeover moved the row along. |
| StoreSlots.RowOutlivesLease | src/durable-record-store.ts:984-1053 | Call by call: the row of a lease that is over was there before, and the lease was over before or is released by this very call. |
| StoreFences.ReleasedLeaseKeepsItsRow | src/durable-record-store.ts:831-861 | Such a row exists: a lease released before its slot is over and can still remove its row. |
| StoreCapacity.CapacityNeverExceeded | src/durable-record-store.ts:1082-1122 | Over every run whose calls use limits of at most `limit`, at most `limit` rows are acquired, whatever the clocks say. |
| StoreCalls.SlotGrantedExactlyWhen | src/durable-record-store.ts:1054-1122 | A lease that is the row's and has not expired leaves with a slot exactly when the record had one, or when fewer than `limit` other records with an unexpired lease have one and none of those that wait was queued before it. |
| StoreCalls.CapacityLostExactlyWhen | src/durable-record-store.ts:1041-1053 | A capacity request is refused as lost, with no table changed, exactly when the record's lease has another owner or fence or has expired. |
| StoreCalls.RowsAfterRequest | src/durable-record-store.ts:1054-1122 | After a capacity request another record's row is there, unchanged, exactly when it was and its lease has the row's owner and fence and has not expired; the caller's row keeps its place in the queue, or takes the last one, and has a slot exactly when the answer is yes. |
| StoreCalls.SlotReleasedExactlyWhen | src/durable-record-store.ts:849-861 | A slot is given back exactly under the owner and fence of its row. |
| StoreCalls.SaveCommitsExactlyWhen | src/durable-record-store.ts:597-670 | In a store in order a save commits exactly from the stored revision, on the stored history, under an unexpired lease of the row if it presents one, and not as succeeded after a cancellation; it writes that one row, and a refused one writes nothing. |
| StoreCalls.LeasedSaveLostExactlyWhen | src/durable-record-store.ts:626-638 | A leased save from the stored revision is refused as lost exactly when the record's lease has another owner or fence or has expired. |
| StoreCalls.StaleSaveIsRefused | src/durable-record-store.ts:621-625 | A save from another revision is refused as stale, whatever it presents. |
| StoreCalls.BindsExactlyWhen | src/durable-record-store.ts:673-742 | A binding goes through exactly on an issued WorkOrder that is unbound at the expected sequence or bound to the same Job. |
| StoreCalls.ClaimGrantedExactlyWhen | src/durable-record-store.ts:984-1034 | A claim is granted exactly when the record has no lease, an expired one, or one of the caller's own; the fence is 1, the next one, or the same one, and the expiry the caller's clock plus its ttl. |
| StoreCalls.ClaimMovesSlotExactlyWhen | src/durable-record-store.ts:1020-1033 | A granted claim moves the record's capacity row to the new owner and fence exactly when it belonged to the lease before, and touches no other row. |
| StoreCalls.RenewedExactlyWhen | src/durable-record-store.ts:813-829 | A renewal goes through exactly under the row's owner and fence before the expiry. |
| StoreCalls.ReleasedLeaseIsClaimable | src/durable-record-store.ts:831-834 | Right after a release every runtime's claim goes through, at any clock reading that is not negative, under the next fence. |
| StoreCalls.OnlyTheHolderReleases | src/durable-record-store.ts:831-834 | A release under another owner or fence changes nothing. |
| StoreCalls.CancellationAcceptedExactlyWhen | src/durable-record-store.ts:868-887 | A request is on file afterwards exactly when the record is not terminal, and it is the first one made. |
| StoreCalls.AdmitsExactlyWhen | src/durable-record-store.ts:372-440 | A valid admission replays its key's record, is refused for another request hash, and otherwise creates its record exactly when the identity is free. |
| StoreCalls.OptionsRefusedExactlyWhen | src/durable-record-store.ts:372-387 | An admission is refused for its options exactly when the owner, ttl, capacity limit or key is out of its range. |
| StoreCalls.AdmissionWrites | src/durable-record-store.ts:404-425 | A creating admission writes the record at revision 1, its key, and a first lease from the caller's clock to its ttl. |
| StoreCalls.AdmissionQueuesExactly | src/durable-record-store.ts:414-425 | With a capacity limit the new record is queued last, with a slot exactly when fewer than `limit` records with an unexpired lease have one and none of them waits. |
| StoreCalls.PoolAdmitsExactlyWhen | src/durable-record-store.ts:447-578 | A valid pool admission answers like any other one, for the chosen member's record, and there always is a chosen member. |
| StoreCalls.LoadIsUnexpired | src/durable-record-store.ts:490-508 | The load of a pool member counts the Jobs on its route whose lease has not expired. |
| StoreCapacity.NeverOvertaken | src/durable-record-store.ts:1054-1074 | The records waiting ahead of a kept waiting row only ever become fewer. |
| StoreHeartbeat.HeartbeatKeepsTheRecord | src/durable-execution.ts:104-111 | With ttl > 2 * heartbeat and renewals in time, at every moment of the run the fence stays, a slot held at any earlier moment is not purged, and every competing claim gets nothing. |
| StoreHeartbeat.HeldInRun | src/durable-execution.ts:244-279 | The lease and its expiry after any such run. |
| StoreAdmission.CreationRemembers | src/durable-record-store.ts:372-440 | A creation under a key leaves that key pointing at the new record, with the request hash it came with. |
| StoreAdmission.OneRecordPerKey | src/durable-record-store.ts:380-399 | Once a (scope, key) created a record, every later admission under it replays that record or is refused, and changes no table. |
| StoreRefinement.RunRefines | src/durable-record-store.ts:372-578 | After every run from the empty stores, with saves, lease, capacity and cancellation calls in between, the transactional store and the in-memory one hold the same records under the same keys. |
| StoreRefinement.RunGivesSameReplies | src/store.ts:134-156 | In every run each creating call, keyed or not, over either admission path, is answered as the in-memory store answers it at that point. |
| StoreRefinement.FindIdempotentAgrees | src/durable-record-store.ts:580-595 | After every run both stores find the same record under a key, and a known key never lacks its record. |
| StoreAdmission.ScopesApartExactlyWhen | src/store.ts:140 | The joined in-memory key keeps two scopes apart exactly when neither scope followed by NUL starts the other. |
| MemoryJobStore.MemoryStore.CreateIdempotent | src/store.ts:134-156 | The key is entered first and taken back when the creation fails. |
| MemoryJobStore.MemoryStore.Save | src/store.ts:49-58 | Only an existing record can be saved over. |
| RoutePool.ChooseMember | src/durable-record-store.ts:515-524 | The scanning loop finds the chosen member. |
| RoutePool.ChoosesFirstLeastActive | src/durable-record-store.ts:515-524 | The choice is a least-active member, and the first such in rotating order from the cursor. |
| RoutePool.ChoiceIsUnique | src/durable-record-store.ts:515-524 | That description fixes the choice. |
| RoutePool.CursorModuloAgrees | src/orchestrator.ts:1295-1303 | The in-memory version, which does not reduce the cursor first, chooses the same member. |
| RoutePool.SpreadStays | src/durable-record-store.ts:515-524 | One admission leaves the difference of active counts at most max(1, what it was). |
| RoutePool.FullRound | src/durable-record-store.ts:515-565 | n admissions from an equal load take each of n members once and bring the cursor back. |
| StoreRoutePool.PoolAdmissionTakesFirstLeastActive | src/durable-record-store.ts:490-565 | A durable pool admission enrolls on that member, raises its count by one and moves the cursor behind it. |
| StoreRoutePool.DurableFullRound | src/durable-record-store.ts:490-565 | n admissions to a pool of n members from an equal load, among any other calls that bring no record into the pool and take none out, give each member one more record and bring the cursor back. |
| StoreRoutePool.UntouchedKeeps | src/durable-record-store.ts:490-515 | Renewals, saves that keep the route, capacity and cancellation calls, and calls for records of other routes leave the pool's load and cursor alone. |
| StoreRoutePool.RouteActivity.Reserve | src/orchestrator.ts:1283-1323 | The in-memory reservation chooses by the same rule and changes only the chosen route's count. |
| JobGuarantees.AtMostOnce | src/orchestrator.ts:1674-1945 | Over every interleaving of owners, crashes, expiries, takeovers and recoveries no attempt of a Job reaches the worker twice. |
| JobGuarantees.RunOnlyAfterReservation | src/orchestrator.ts:1055-1187 | A worker run is added only for an attempt whose reserving event was committed before. |
| JobGuarantees.RunsWithinLimit | src/orchestrator.ts:1704 | The worker runs of a Job never exceed its attempt limit. |
| JobGuarantees.ReservationMatches | src/orchestrator.ts:1705-1709 | The reservation mismatch error of the attempt loop is unreachable. |
| JobGuarantees.HistoryEndsOnce | src/orchestrator.ts:1599-1645 | Every persisted history reserves ascending attempts and holds at most one terminal event, the one of its status. |
| JobGuarantees.OutcomeStays | src/orchestrator.ts:1599-1645 | A persisted outcome is never changed or followed by another one. |
| JobGuarantees.CancellationExcludesSuccess | src/orchestrator.ts:1599-1629 | From an accepted cancellation on, the history never holds job.succeeded. |
| JobGuarantees.ProtocolIsAStoreRun | src/orchestrator.ts:873-876 | Every store the protocol reaches is reached by a run of store calls, so fences, capacity and history hold for it. |
| JobProgress.QueuedJobRecoversExactlyWhen | src/orchestrator.ts:1055-1187 | An undisturbed recovery starts a queued Job, and its first attempt reaches the worker, exactly when the history holds no recovery and no cancellation was accepted; otherwise it settles the Job, as cancelled or as failed, without a run. |
| JobProgress.QueuedAttemptIsRecovery | src/orchestrator.ts:1121-1128 | In every reachable store a queued Job has attempt 0 exactly when its history holds no job.recovery.started. |
| JobProgress.QueuedJobMayFailOnSecondRecovery | src/orchestrator.ts:1165-1171 | A startable queued Job whose recovering process dies before the start is settled as failed by the next recovery, without any run. |
| JobProgress.RunningJobRecoversExactlyWhen | src/orchestrator.ts:1055-1187 | An undisturbed recovery of a running Job goes on to its next attempt, and that attempt reaches the worker, exactly when the lost attempt was below the limit and no cancellation was accepted; otherwise it settles the Job, as cancelled or as failed, without a run. |
| JobGuarantees.ArtifactsStay | src/orchestrator.ts:1807-1829 | Over every run, the artifacts a Job has recorded stay at the head of its list, and its attempt limit never changes. |
| JobProgress.UndisturbedJobSucceeds | src/orchestrator.ts:1686-1893 | Left alone, a queued Job runs its first attempt once and its success is the one stored outcome. |
| JobProgress.UndisturbedRetryRuns | src/orchestrator.ts:1918-1944 | Left alone, a failed attempt below the limit is followed by a run of the next one. |
| JobProgress.UndisturbedEndPersists | src/orchestrator.ts:1223-1246 | Left alone, the outcome of an attempt, of the wait for it or of its preparation is the one outcome of the stored history; a success is stored as cancelled exactly when a cancellation is on file. |
| JobProgress.UndisturbedCaptureIsStored | src/orchestrator.ts:1805-1829 | Left alone, a captured artifact and its event join the stored Job together. |
| JobProgress.UndisturbedNoteIsStored | src/orchestrator.ts:1979-2033 | Left alone, an event of the worker joins the stored history and moves nothing else. |
| JobProgress.AdmittedJobIsActive | src/durable-record-store.ts:372-440 | An admission without a key activates its Job for a first attempt exactly when its identity is free. |
| JobProgress.PooledJobIsActive | src/durable-record-store.ts:447-578 | An admission to a route pool activates the chosen member's Job exactly when its identity is free. |
| JobSafety.MoveSafe | src/orchestrator.ts:1055-1945 | Each step of an activation keeps the protocol invariant: tokens to run are backed by committed reservations and held once. |
| JobSafety.CommitSafe | src/durable-record-store.ts:623-661 | A commit of one activation leaves the others' copies stale and their tokens good. |
| JobActivation.JobActivation.AppendEvent | src/orchestrator.ts:1979-2033 | The event is pushed, saved, and popped again exactly when the save fails. |
| JobActivation.JobActivation.StartRunning | src/orchestrator.ts:1686-1702 | Starting a queued Job is the protocol's start step; a failed save restores the attempt number. |
| JobActivation.JobActivation.ReserveRetry | src/orchestrator.ts:1918-1942 | Reserving the next attempt is the protocol's retry step; a failed save restores the attempt number. |
| JobActivation.JobActivation.Settle | src/orchestrator.ts:1223-1246 | Setting a terminal status and persisting its event is the protocol's settling step, including the turn to cancelled. |
| JobActivation.JobActivation.SettleSuccess | src/orchestrator.ts:1606-1629 | The end of a finished attempt is the store's answer to its settlement: under succeeded without a cancellation on file, under cancelled with one, and a refused save otherwise. |
| JobActivation.JobActivation.MarkPendingControlsLost | src/orchestrator.ts:1248-1276 | When it returns, every control requested for the attempt is settled in the history; each event it adds settles, as lost, a request that nothing before settled. |
| JobActivation.JobActivation.RecordArtifact | src/orchestrator.ts:1805-1829 | The artifact and its event are saved together or both taken back: the protocol's capture step. |
| JobActivation.JobActivation.CloseAttempt | src/orchestrator.ts:1776-1838 | Pending controls are settled, the patch of an isolated workspace is recorded, and the first failure is kept, except that unsettled controls always end the activation; without a refused save the result says exactly whether capture and clean-up went well. |
| JobActivation.JobActivation.RunAttempt | src/orchestrator.ts:1711-1850 | The worker runs exactly when the workspace is there and nothing stopped the attempt, its events are persisted in order, an artifact is recorded exactly when it was captured in an isolated workspace, no control of the attempt is left pending, and without a refused save the result is the one its workspace, worker, capture, clean-up and report call for. |
| JobActivation.JobActivation.Turn | src/orchestrator.ts:1704-1944 | A turn settles the Job as the attempt's result calls for, ends after a refused save, or leaves the next attempt reserved, exactly after a failure that may be retried below the limit. |
| JobActivation.JobActivation.GoOn | src/orchestrator.ts:1918-1943 | The next attempt is reserved and goes on exactly unless the save fails or the Job is cancelled during the delay. |
| JobActivation.JobActivation.Conclude | src/orchestrator.ts:1854-1944 | What a turn ends with, by the result: a finished attempt succeeds, or is cancelled if a cancellation is on file; a blocked one fails; a failure that is final, last or aborted fails or is cancelled; any other one reserves the next attempt; a refused save ends the activation. |
| JobActivation.JobActivation.Attempts | src/orchestrator.ts:1704-1945 | The loop runs exactly the attempts whose worlds let them run, in order; all results but the last are failures that may be retried, each is the one its attempt's world calls for, and the last one decides the outcome. |
| JobActivation.JobActivation.Execute | src/orchestrator.ts:1674-1945 | The attempt loop runs ascending, reserved attempts within the limit and ends in one persisted terminal event or after a refused save; the outcome is that of the wait for a slot or of the last attempt's result, so a run whose last attempt finished settles as succeeded or, with a cancellation on file, as cancelled; it runs out only if it started beyond the limit. |
| JobActivation.JobActivation.LoseAttempt | src/orchestrator.ts:1095-1120 | Recording a lost attempt is the protocol's step, with failure when no attempt is left. |
| JobActivation.JobActivation.StartRecovery | src/orchestrator.ts:1165-1171 | Persisting a recovery is the protocol's step; it reserves an attempt only if the Job was running. |
| JobActivation.JobActivation.Resume | src/orchestrator.ts:1080-1171 | From the look-up of a cancellation on, a recovery ends by the refused save, the cancellation on file, the exhausted or invalid attempt, the missing adapter or snapshot, or the next attempt, in this order, and asks for no control. |
| JobActivation.JobActivation.Recover | src/orchestrator.ts:1055-1187 | Without a refused save a running Job is handed to `Execute` under its next, newly reserved attempt exactly when the lost one was below the limit, and a queued Job under attempt 1 exactly when it has attempt 0, in both cases with adapter and snapshot available and no cancellation on file at the look-up; otherwise the Job is settled, as cancelled exactly with a cancellation on file, and as failed without; the controls of the lost attempt are settled first. |
| ControlGuarantees.HandedAtMostOnce | src/orchestrator.ts:610-681 | Each control id reaches the handler at most once in a Job's life, whatever the attempt, under repeats, retries, crashes and takeovers. |
| ControlGuarantees.HandedOnlyAfterRequest | src/orchestrator.ts:753-803 | A control is handed over only after its request was committed. |
| ControlGuarantees.SettledAtMostOnce | src/orchestrator.ts:725-855 | Every stored history requests and settles each control id at most once. |
| ControlGuarantees.SweptAttemptIsSettled | src/orchestrator.ts:1248-1276 | Once an activation has finished closing an attempt, each control it saw requested for that attempt has exactly one settlement in the stored history, at that moment and at every later one, at the same position. |
| ControlGuarantees.HandedIsRequested | src/orchestrator.ts:753-766 | Every control that reached a handler is requested in the stored history, for the attempt that handed it over. |
| ControlGuarantees.HandedControlIsSettled | src/orchestrator.ts:753-855 | Every control handed over during an attempt has exactly one settlement in the stored history from the moment at which an activation that holds its request, or a current copy, has finished closing that attempt, at every later moment. |
| ControlGuarantees.UndisturbedControlIsSettled | src/orchestrator.ts:753-855 | Left alone, a new request is stored, and handed over once exactly when it is for the running attempt, the attempt is not closing and the adapter supports it and is ready; its stored settlement is then the handler's result, and a rejection otherwise. |
| ControlGuarantees.RepeatedControlIsLost | src/orchestrator.ts:624-751 | A repeated request whose settlement is missing is settled as lost and reaches no handler again. |
| ControlGuarantees.RefusedSettlementIsLost | src/orchestrator.ts:803-855 | When the settlement of a request that the handler got cannot be persisted, it is settled as lost; a rejection that cannot be persisted changes nothing. |
| ControlGuarantees.CallsQueuedExactlyWhen | src/orchestrator.ts:610-681 | A call is queued exactly when its id is not in flight, its attempt is not over, and its id is new or repeats an unsettled request of the same attempt and content; it is delivered exactly if its id is new. |
| ControlGuarantees.UndisturbedSweepSettles | src/orchestrator.ts:1248-1276 | Left alone, the closing of an attempt settles its first pending control as lost, and is done exactly when none is left. |
| ControlGuarantees.AttemptsOpen | src/orchestrator.ts:1726-1733 | An attempt opens on the stored Job; a recovery starts by closing the attempt it finds; a swept attempt is followed by the next one. |
| ControlSafety.MoveSafe | src/orchestrator.ts:610-855 | Each step of the control protocol keeps its invariant, whatever saves fail. |
| WorkerControl.AttemptWorkerControlChannel.Bind | src/worker-control.ts:75-85 | Binding succeeds exactly on an open, unbound channel. |
| WorkerControl.AttemptWorkerControlChannel.Unbind | src/worker-control.ts:80-84 | A binding's closure removes that binding once and never a later one. |
| WorkerControl.AttemptWorkerControlChannel.Deliver | src/worker-control.ts:87-118 | The handler gets the request exactly when the channel is ready; an exception or timeout is reported as uncertain. |
| WorkerControl.AttemptWorkerControlChannel.Close | src/worker-control.ts:120-123 | A closed channel is never ready again. |
| DurableExecution.DurableExecutionCoordinator.Open | src/durable-execution.ts:96-133 | Construction succeeds exactly for ttl > 2 * heartbeat, a positive limit and a poll interval in range. |
| DurableExecution.DurableExecutionCoordinator.Save | src/durable-execution.ts:170-174 | Saves present the lease this process holds for the record. |
| DurableExecution.DurableExecutionCoordinator.Admit | src/durable-execution.ts:143-155 | Admissions carry this process's ttl and capacity limit; only a creating one files a lease, which is held for that ttl. |
| DurableExecution.DurableExecutionCoordinator.Claim | src/durable-execution.ts:177-186 | A successful claim replaces the filed lease. |
| DurableExecution.DurableExecutionCoordinator.WaitForCapacity | src/durable-execution.ts:222-241 | The wait goes on exactly while the polls answer no, and ends as the last poll answers, by abort or by a failed report; a grant leaves the record's row acquired under this process's lease, whatever others did meanwhile; waiting is reported exactly once after a first no. |
| LocalCapacity.LocalCoordinator.WaitForCapacity | src/durable-execution.ts:215-221 | Without durable capacity a record that gets a slot has a release handle of its own that holds a permit, whatever other acquisitions did meanwhile; with a free permit it gets it at once; a waiter that is aborted neither waits nor holds one. |
| LocalCapacity.LocalCoordinator.WithinLimit | src/durable-execution.ts:128-133 | At most as many records of a process hold a local handle as its capacity limit allows. |
| DurableExecution.DurableExecutionCoordinator.Tick | src/durable-execution.ts:253-272 | A cancellation request is handed on; the lease is renewed exactly when it is still current after the look-up and the handler did not throw, and a lease that is no longer current is reported. |
| DurableExecution.DurableExecutionCoordinator.Release | src/durable-execution.ts:281-300 | The lease is given back also when giving back the slot throws or is refused, and forgotten whatever happens; without errors neither the lease nor its capacity row is held, and no other record's lease or row is touched. |
| LocalCapacity.LocalCoordinator.Release | src/durable-execution.ts:282-287 | The record's local handle is called once and forgotten; no other handle loses its permit. |
| SubscriptionSafety.NoGapNoDuplicate | src/durable-subscription.ts:76-106 | Interleaved with any writers, a subscriber has yielded exactly the events between its start and its cursor. |
| SubscriptionSafety.TerminalReturnIsComplete | src/durable-subscription.ts:98-101 | On a terminal return all events of the record read have been yielded. |
| SubscriptionSafety.SleepersAreUpToDate | src/durable-subscription.ts:179-211 | A registered waiter with an unchanged version has yielded every notified event: no wake-up is lost. |
| SubscriptionSafety.NotifyWakesAll | src/durable-subscription.ts:61-66 | A notification leaves no subscriber of the record asleep. |
| SubscriptionSafety.UndisturbedTurnCatchesUp | src/durable-subscription.ts:85-102 | One undisturbed turn of the loop yields all unseen events and then returns on a terminal or missing record and sleeps otherwise. |
| SubscriptionSafety.TimeoutFindsAllCommits | src/durable-subscription.ts:179-211 | A sleeper that nobody notified yields every event committed meanwhile by itself once its refresh interval runs out. |
| SubscriptionSafety.SubscriptionStarts | src/durable-subscription.ts:76-84 | A subscriber starts at its cursor, having yielded nothing. |
| SubscriptionSafety.CommitExtends | src/durable-record-store.ts:649-664 | A commit with numbered events extends the history that subscribers read, and leaves them alone. |
| SubscriptionSafety.RetainedStays | src/durable-subscription.ts:166-177 | The signal object an active subscriber retained stays the one in the map. |
| DurableSubscription.DurableEventSubscription.NotifyPersisted | src/durable-subscription.ts:61-66 | Bumps the version and wakes all waiters of one record. |
| DurableSubscription.DurableEventSubscription.Retain | src/durable-subscription.ts:157-170 | Counts an observer on the object in the map, which stays the same object if there was one. |
| DurableSubscription.DurableEventSubscription.Release | src/durable-subscription.ts:172-177 | Only the last observer of the mapped object, with no waiter left, removes it. |
| DurableSubscription.DurableEventSubscription.Subscribe | src/durable-subscription.ts:76-106 | The cursor loop yields a contiguous run of events whatever others commit, after its first turn all there were when it began; it ends exactly on a terminal record whose events it has all yielded, without a record, or by its signal, and gives its signal object back. |
| DurableSubscription.DurableEventSubscription.Turn | src/durable-subscription.ts:85-102 | One turn yields all events there were at its start, and ends exactly on a terminal record whose events have all been yielded, without a record, or when the signal has fired at its top. |
| OrchestrationDispatch.Orchestration.Dispatch | src/orchestration.ts:1222-1383 | At most maxConcurrency children are active, each subtask enters the pool and gets a new Job at most once, settled children stay, the loop ends, normally if nothing fails, a normal unaborted return leaves exactly one terminal child per subtask, each awaited in this run or settled before it, every awaited child carries what its Job settled with, and after an error children stay in the pool exactly when a settlement of the drain other than its last one fails. |
| OrchestrationDispatch.Orchestration.Drain | src/orchestration.ts:1378-1382 | The drain awaits one child after the other until a settlement throws; the children after it stay in the pool as they are. |
| OrchestrationDispatch.DrainLeavesExactlyWhen | src/orchestration.ts:1378-1382 | A drain leaves children unawaited exactly when a settlement other than its last one fails. |
| OrchestrationDispatch.UnawaitedAfterFirstFailure | src/orchestration.ts:1378-1382 | If settlement number k is the first to fail, exactly the n - 1 - k children after it are left. |
| OrchestrationDispatch.SecondFailureMayLeaveAChild | src/orchestration.ts:1378-1382 | Of two children, a failing first settlement leaves one and a failing last one leaves none. |
| OrchestrationDispatch.Orchestration.Launch | src/orchestration.ts:1247-1340 | A subtask is skipped exactly when its child is terminal and agrees with its Job; a known child is awaited exactly when its own Job is found and, if unfinished, recovered; a subtask without a child gets one, under the Job found for its key or a new one started only if there is none. |
| OrchestrationDispatch.Orchestration.LaunchNew | src/orchestration.ts:1262-1311 | The child that joins the record names the subtask, the plan and the Job, with that Job's status, also when saving its event fails; a Job is started exactly when none is found. |
| OrchestrationDispatch.Orchestration.SettleNext | src/orchestration.ts:1342-1362 | Whichever completion comes first leaves the pool, and that child alone changes: it gets the status its Job settled with, or for any other error failed, and cancelled after an abort; the status and its event are recorded together. |
| OrchestrationDispatch.Orchestration.Fill | src/orchestration.ts:1365-1374 | The inner loop stops only when aborted, finished or full, and launches nothing after an abort. |
| OrchestrationDispatch.Orchestration.Execute | src/orchestration.ts:565-664 | A plan without dispatch touches no child and never fails the parent; delegated success is recorded only if every subtask has exactly one child and every child's Job settled as succeeded; failure only if some child's Job settled otherwise or its completion was an error. |
| OrchestrationDispatch.Orchestration.Delegate | src/orchestration.ts:611-664 | The part from the dispatch on: the outcome follows what the children's Jobs settled with, and without a failure or an abort it is recorded. |
| OrchestrationDispatch.Orchestration.OutcomesFollow | src/orchestration.ts:1342-1362 | When all children are accounted for, a child's status is succeeded exactly if its Job settled so, in this run or before it. |
| OrchestrationDispatch.Orchestration.RecordEvidence | src/orchestration.ts:625-635 | A review or validation changes its own evidence only, and each of its steps is persisted with its event or not at all. |
| OrchestrationDispatch.Orchestration.AppendEvent | src/orchestration.ts:1385-1423 | A failed save pops the event. |
| OrchestrationDispatch.Orchestration.SetEvidenceAndAppend | src/orchestration.ts:1425-1445 | Evidence and its event are persisted together; a failed save restores the previous evidence or its absence. |
| SemaphoreSpec.PermitsConserved | src/semaphore.ts:64-85 | Free permits plus unreleased handles always equal the capacity. |
| SemaphoreSpec.SettlesOnce | src/semaphore.ts:25-61 | Each call of acquire is queued or settled, never both, and settles once. |
| SemaphoreSpec.RejectedNeverGranted | src/semaphore.ts:32-39 | A rejected or aborted waiter never gets a permit. |
| SemaphoreSpec.GrantedInOrder | src/semaphore.ts:64-75 | Queued waiters are granted in queue order, and none still queued was overtaken by another waiter. |
| SemaphoreSpec.NoIdlePermit | src/semaphore.ts:64-75 | After every step a free permit means an empty queue or a head that is not ready. |
| SemaphoreRuns.ReadyExactlyWhen | src/semaphore.ts:43-50 | Over every run, a queued waiter may be granted exactly when its callback has resolved since it queued. |
| SemaphoreRuns.ResolvedWaiterIsGranted | src/semaphore.ts:43-75 | Over every run, a waiter whose callback resolved, that did not give up and has none queued before it, is granted as soon as a permit is free. |
| SemaphoreRuns.HeldExactlyWhen | src/semaphore.ts:77-84 | Over every run, a ticket holds a permit exactly from its grant until the call of its handle. |
| SemaphoreRuns.RejectedExactlyWhen | src/semaphore.ts:19-59 | Over every run, a call is rejected exactly when its signal was aborted before it, or its waiter was aborted or failed while it was queued. |
| SemaphoreSpec.NewcomerOvertakesExactlyWhen | src/semaphore.ts:21-24 | A newcomer passes waiters exactly when a permit is free and the head is not ready. |
| SemaphoreSpec.NewcomerOvertakes | src/semaphore.ts:21-24 | Such a run exists. |
| Semaphore.Semaphore.Acquire | src/semaphore.ts:19-42 | The call throws, takes a permit, or queues. |
| Semaphore.Semaphore.Drain | src/semaphore.ts:64-75 | The loop grants what the specification grants. |
| Semaphore.Semaphore.OnReady | src/semaphore.ts:46-50 | A waiter whose callback resolved is marked so, and every grant that this allows is made. |
| Semaphore.Semaphore.OnRejected | src/semaphore.ts:32-59 | An abort or a failed callback takes the waiter out of the queue. |
| Semaphore.Semaphore.Release | src/semaphore.ts:77-84 | A handle gives its permit back once. |
| Utf8.DecodeEncode | src/record-limits.ts:71-85 | Decoding undoes encoding (section 3 of RFC 3629). |
| Utf8.EncodeDecode | src/job-output.ts:74-92 | Encoding undoes decoding: a byte string has at most one reading. |
| Utf8.EncodedAs | src/record-limits.ts:71-85 | The bytes of a character are those of the table in section 3 of RFC 3629. |
| Utf8.ContinuationExactlyInside | src/record-limits.ts:80 | A byte is a continuation byte exactly when it is not the first of its character, and characters have at most 4 bytes. |
| RecordLimits.LimitText | src/record-limits.ts:71-85 | Keeps the longest whole-character prefix within the budget, at most 3 bytes below it, and reports a truncation exactly when it cut. |
| RecordLimits.LongestPrefixUnique | src/record-limits.ts:71-85 | There is only one such prefix. |
| RecordLimits.LimitTextSuffix | src/record-limits.ts:87-95 | The mirror image for suffixes. |
| RecordLimits.LimitErrorDetails | src/record-limits.ts:97-107 | Name and message stay within their budgets; a cut message is a longest prefix followed by the notice. |
| RecordLimits.DigitsAreDecimal | src/record-limits.ts:97-107 | The length in the notice is written in decimal digits without a leading zero. |
| JobOutput.ReadJobOutputRecord | src/job-output.ts:57-101 | Exactly the error or unavailable reply that comes first in the source's order; otherwise a page of whole characters from the cursor, as many as fit, with the next cursor at its end. |
| JobOutput.StartsCharacterExactlyWhen | src/job-output.ts:75-80 | The boundary error occurs exactly for cursors inside a character. |
| JobOutput.ReadPage | src/job-output.ts:82-95 | The loop that moves the end back yields such a page. |
| JobOutput.ReadAll | src/job-output.ts:57-101 | Following nextCursor from 0 with any page sizes meets no error, ends, and has read exactly the retained output. |
| Jsonl.StrictJsonlDecoder.Push | src/adapters/subprocess.ts:28-31 | After any chunks the decoder stands where one single chunk would have brought it. |
| Jsonl.StrictJsonlDecoder.TakeLines | src/adapters/subprocess.ts:43-53 | The loop takes the terminated lines and leaves the rest. |
| Jsonl.StrictJsonlDecoder.End | src/adapters/subprocess.ts:33-41 | At the end the lines returned are all lines of the stream; bytes left incomplete become one replacement character. |
| Jsonl.DecodeChunks | src/adapters/subprocess.ts:24-54 | Every split of any byte stream into chunks, well-formed UTF-8 or not, gives the same lines. |
| Jsonl.CharactersSplit | src/adapters/subprocess.ts:25-31 | Feeding a stream in two parts gives the characters of the whole, malformed stretches included. |
| Jsonl.HeldExactlyWhen | src/adapters/subprocess.ts:25-34 | The decoder holds back exactly the bytes that more bytes can still complete to a character. |
| Jsonl.WholeStream | src/adapters/subprocess.ts:24-54 | For a stream of whole characters those are the lines of its decoded text. |
| Jsonl.LinesOfJoined | src/adapters/subprocess.ts:43-53 | Newline-terminated plain lines come back as they were. |
| Jsonl.LinesOfJoinedCrLf | src/adapters/subprocess.ts:43-53 | Lines that end in CR LF come back as they were, even those with a carriage return of their own at the end. |
| Jsonl.LineEndsExactly | src/adapters/subprocess.ts:43-53 | A terminated line loses its line feed and at most one carriage return before it, and an empty one is dropped. |
| Jsonl.EmptyLineExactlyWhen | src/adapters/subprocess.ts:33-41 | An empty line is returned exactly when the stream is a lone carriage return or ends in one right after a line feed. |
| Jsonl.EmptyLineReturned | src/adapters/subprocess.ts:33-41 | Such a stream: a line, a line feed and a carriage return. |
| CanonicalJson.CanonicalTextExactlySame | src/canonical-json.ts:3-21 | Canonical text exists exactly for supported values, and two values have the same text exactly when they are equal up to member order, undefined members and the sign of zero. |
| CanonicalJson.CanonicalIsNormal | src/canonical-json.ts:13-18 | The text is that of the normal form: sorted keys, no undefined members, one zero. |
| CanonicalJson.UniqueReading | src/canonical-json.ts:4-18 | Two values whose texts begin a common text are the same value (strings as in section 7 of RFC 8259). |
| CanonicalJson.NormalExactlySame | src/canonical-json.ts:13-18 | Two values have the same normal form exactly when they are the same in that sense. |
| CanonicalJson.UniqueQuoted | src/canonical-json.ts:4-6 | A quoted string can be read off the text that follows it, lone surrogates included. |
| CanonicalJson.LessExactlyWhen | src/canonical-json.ts:13-18 | Keys ascend by code units: the smaller unit where two keys first differ comes first, and a proper prefix before the longer key. |
| CanonicalJson.WrittenAs | src/canonical-json.ts:4-18 | The text of a value in normal form: items between brackets, keys, colons and values between braces, joined by commas, and the words of the grammar (section 3 of RFC 8259). |
| CanonicalJson.UnitsWrittenAs | src/canonical-json.ts:4-6 | In a string each unit stands for itself, has its two-character escape, or is written as the four lower-case hexadecimal digits of its value, control characters and lone surrogates always escaped (section 7 of RFC 8259). |
| DomainChain.BindingIsWriteOnce | src/durable-record-store.ts:673-742 | A WorkOrder's bound Job never changes, over every interleaving. |
| DomainChain.CandidateNamesBoundJob | src/candidate.ts:127-172 | Every Candidate names the Job its WorkOrder is bound to and an artifact that Job records, although the checks share no transaction and the Job protocol runs on meanwhile. |
| DomainChain.ReviewNamesCandidate | src/review.ts:155-185 | Every Review names an existing Candidate. |
| DomainChain.OneDispositionPerCandidate | src/disposition.ts:165-225 | A Candidate has at most one Disposition, and its Review is one of that Candidate. |
| DomainChain.RecordCallsAgree | src/disposition.ts:165-225 | All successful record calls for a Candidate return one and the same record, now and later. |
| DomainChain.ConflictMeansOtherInput | src/disposition.ts:208-224 | A conflict is reported only when the stored Disposition was decided on other input. |
| DomainChain.MoveLinked | src/candidate.ts:127-172 | Each step of each service keeps the links, and no established fact is ever undone. |
| DomainProgress.IssuedExactlyWhen | src/work-order.ts:123-145 | Issuing adds its WorkOrder exactly when the identity is free. |
| DomainProgress.BoundExactlyWhen | src/durable-record-store.ts:673-742 | After a binding call the WorkOrder is bound to the named Job exactly when it was, or when it was issued, unbound and at the expected sequence. |
| DomainProgress.CandidateCreatedExactlyWhen | src/candidate.ts:127-172 | Left alone, a candidate call creates its Candidate exactly when the WorkOrder is bound to the Job, the Job records the artifact and the identity is free. |
| DomainProgress.ReviewCreatedExactlyWhen | src/review.ts:155-185 | Left alone, a review call creates its Review exactly when the Candidate exists and the identity is free. |
| DomainProgress.DispositionRecordedExactlyWhen | src/disposition.ts:165-225 | Left alone, a record call for a Candidate and a Review of it records the Disposition if there is none, returns the stored one for the same input, and reports a conflict for another; without them it records nothing. |
| DomainServices.Issue | src/work-order.ts:123-145 | A WorkOrder is issued unbound, without touching another. |
| DomainServices.BindExecutorJob | src/work-order.ts:160-184 | Succeeds exactly on an issued WorkOrder that is unbound at the expected sequence or bound to the same Job; it is then bound to that Job, another binding is refused and none is lost. |
| DomainServices.CreateCandidate | src/candidate.ts:127-172 | Succeeds exactly when the WorkOrder is bound to the Job, the Job records the artifact and the identity is free. |
| DomainServices.CreateReview | src/review.ts:155-185 | Succeeds exactly when the Candidate exists and the identity is free. |
| DomainServices.RecordDisposition | src/disposition.ts:165-225 | Returns the Candidate's one stored Disposition if it has the request's input, reports a conflict if it has not, and never changes an existing one. |

## Left out

- SQLite, files and JSON libraries: BEGIN IMMEDIATE is taken as serializable, stored values come back as they were written, and a failing COMMIT is not modelled apart from a failing transaction.
- Record size limits and the field checks of stored records: a record is its identity, status, events and the part its kind needs.
- `#assertAppendOnly` compares events by their JSON text; here events are equal as values.
- SHA-256 is an injective function and random identities are arguments; the stores refuse a repeated one.
- JobSafety.MoveSafe: activations may present any lease or none to a save and may start without a capacity slot, so what is proved holds for more behaviour than the code has.
- JobActivation.JobActivation.RunAttempt: whether workspace creation, the worker, patch capture and clean-up succeed is an argument; worker events are notes without content, and their limit of 512 is not modelled.
- JobActivation.JobActivation.Conclude: the length of retry delays, error details and completion summaries are not modelled.
- ControlSafety.MoveSafe: no observer is installed, since a failing observer may make a persisted settlement look failed; and the control data fits its 16 KiB event budget, since a replaced payload would hide the control id.
- ControlGuarantees.SweptAttemptIsSettled: it is about an attempt whose closing came to its end; after a save that failed while closing, the next recovery repeats it.
- DurableSubscription.DurableEventSubscription.Subscribe: its consumer stops after a given number of turns; waiting for a signal between two turns is a step of SubscriptionProtocol.
- `awaitTerminal` and `wait` of the subscription kernel use the same signals without a cursor.
- DurableExecution.DurableExecutionCoordinator.WaitForCapacity: the polling caller gives up after a given number of polls; a process without a durable store waits in LocalCapacity instead.
- OrchestrationDispatch.Orchestration.Execute: what a quality review and an artifact validation decide is arbitrary; the model keeps that each of their steps persists its evidence.
- Semaphore.Semaphore.Acquire: waiter objects and release closures are represented by tickets, so promise callbacks and listeners are not objects.
- RecordLimits.LimitErrorDetails: the fixed words of the notice are arguments with their length, and the message has fewer than 10^16 bytes.
- Jsonl.DecodeChunks: the platform's string decoder is not part of the repository; it is taken to put one replacement character for each maximal malformed stretch (section 3.9 of the Unicode Standard).
- Utf8.DecodeEncode: text is a sequence of Unicode scalar values; strings with lone surrogates are not encoded.
- CanonicalJson.CanonicalTextExactlySame: finite numbers are given by their decimal text, different for different numbers; sparse arrays, accessors and toJSON are not modelled.
- Callback delivery, usage evidence, route diagnostics, lists, plan composition, transports, workspaces and artifacts on disk.
