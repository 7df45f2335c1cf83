/**
 * What an activation that nobody disturbs achieves: which recoveries go on to a run and which settle
 * the Job, and what a run leaves in the store.
 */
module JobProgress {
  import opened Prelude
  import opened Records
  import opened JobProtocol
  import opened JobSafety
  import Store = DurableStore
  import Inv = StoreInvariant
  import Calls = StoreCalls
  import Guarantees = JobGuarantees

  // ---- Undisturbed progress ------------------------------------------------

  /** An unleased save of the current record with one more event goes through. */
  lemma {:induction false} SaveGoesThrough(db: Store.Db, job: Record, event: Event, now: Time)
    requires Inv.RowsValid(db.rows) && db.kind == JobKind && job.id in db.rows
    requires job.status == Succeeded ==> job.id !in db.cancellations
    requires job.events == db.rows[job.id].record.events + [event] && event.sequence == |job.events|
    ensures Store.Save(db, job, Some(db.rows[job.id].revision), None, now) == Ok(Store.Commit(db, db.rows[job.id], job))
  {
    hide Store.Commit;
  }

  /** Session `sid` holds the current copy of its Job. */
  ghost predicate Current(sys: Sys, sid: nat) {
    && Safe(sys) && sid in sys.sessions && Fresh(sys.db.rows, sys.sessions[sid])
  }

  /** A current activation's save with one more event goes through and leaves it current. */
  lemma {:induction false} PersistGoesThrough(
      sys: Sys, sid: nat, job: Record, event: Event, now: Time, next: Phase, failed: Session)
    requires Current(sys, sid) && job.id == sys.sessions[sid].job.id
    requires job.events == sys.sessions[sid].job.events + [event] && event.sequence == |job.events|
    requires job.status == Succeeded ==> job.id !in sys.db.cancellations
    ensures var after := Persist(sys, sid, job, None, now, next, failed);
      && after.sessions == sys.sessions[sid := Session(job, sys.sessions[sid].revision + 1, next)]
      && after.runs == sys.runs && after.db.cancellations == sys.db.cancellations
      && job.id in after.db.rows && after.db.rows[job.id].record == job
      && after.db.rows[job.id].revision == sys.sessions[sid].revision + 1
  {
    hide RecordOk, PhaseOk, RowsOk, RunsOk, TokensOk, Inv.EventTableValid, Inv.CapacityValid, Store.InsertEvents;
    Memory(sys, sid);
    assert Inv.RowsValid(sys.db.rows);
    SaveGoesThrough(sys.db, job, event, now);
    hide Store.Save;
  }

  /** The next event of a Job. */
  function NextEvent(job: Record, body: EventBody, at: Time): Event {
    Event(|job.events| + 1, at, body)
  }

  lemma {:induction false} StartGoesThrough(sys: Sys, sid: nat, t: Time)
    requires Current(sys, sid) && sys.sessions[sid].job.status == Queued && sys.sessions[sid].phase == Waiting(1)
    ensures var after := Do(sys, Start(sid, None, t));
      && Current(after, sid) && after.runs == sys.runs && after.db.cancellations == sys.db.cancellations
      && after.sessions[sid].phase == Reserved(1)
      && after.sessions[sid].job.id == sys.sessions[sid].job.id
      && MaxAttempts(after.sessions[sid].job) == MaxAttempts(sys.sessions[sid].job)
  {
    hide Safe, RecordOk, PhaseOk, Persist;
    var s := sys.sessions[sid];
    Memory(sys, sid);
    StartSafe(sys, sid, None, t);
    var running := WithAttempt(s.job, 1).(status := Running);
    PersistGoesThrough(sys, sid, Append(running, JobStarted, t), NextEvent(s.job, JobStarted, t), t, Reserved(1),
                       Session(s.job.(status := Running), s.revision, Closed));
  }

  /** A reserved attempt within the limit reaches the worker. */
  lemma {:induction false} LaunchRuns(sys: Sys, sid: nat)
    requires Current(sys, sid) && sys.sessions[sid].phase.Reserved?
    requires sys.sessions[sid].phase.attempt <= MaxAttempts(sys.sessions[sid].job)
    ensures var after := Do(sys, Launch(sid, true));
      && Current(after, sid) && after.db == sys.db
      && after.runs == sys.runs + [Run(sys.sessions[sid].job.id, sys.sessions[sid].phase.attempt)]
      && after.sessions[sid] == sys.sessions[sid].(phase := Working(sys.sessions[sid].phase.attempt))
  {
    hide Safe, RecordOk;
    Memory(sys, sid);
    LaunchSafe(sys, sid, true);
  }

  /** The settlement of a current activation persists its outcome, unless it is a success that was cancelled. */
  lemma {:induction false} SettlementPersists(sys: Sys, sid: nat, t: Time)
    requires Current(sys, sid) && sys.sessions[sid].phase.Settling?
    ensures var s := sys.sessions[sid];
      var after := Do(sys, PersistSettled(sid, None, t));
      && Safe(after) && sid in after.sessions && after.runs == sys.runs && s.job.id in after.db.rows
      && if s.phase.outcome == Succeeded && s.job.id in sys.db.cancellations then
           && Current(after, sid) && after.db == sys.db
           && after.sessions[sid] == Session(s.job.(status := Cancelled), s.revision, Settling(Cancelled))
         else
           && after.sessions[sid].phase == Closed && after.db.rows[s.job.id].record.status == s.phase.outcome
           && Outcomes(after.db.rows[s.job.id].record.events) == [TerminalEvent(s.phase.outcome)]
  {
    hide Safe, RecordOk, HighWater, Outcomes, Persist, Store.Save, MaxAttempts, Ascending;
    var s := sys.sessions[sid];
    var body := TerminalEvent(s.phase.outcome);
    PersistSettledSafe(sys, sid, None, t);
    Memory(sys, sid);
    Appended(s.job.events, NextEvent(s.job, body, t));
    var job := Append(s.job, body, t);
    var saved := Store.Save(sys.db, job, Some(s.revision), None, t);
    var failed :=
      if saved.Err? && saved.error.CancellationRequested?
      then Session(s.job.(status := Cancelled), s.revision, Settling(Cancelled))
      else s.(phase := Closed);
    if s.phase.outcome == Succeeded && s.job.id in sys.db.cancellations {
      SuccessIsRefused(sys, sid, t);
      RefusedStays(sys, sid, job, None, t, Closed, failed);
    } else {
      PersistGoesThrough(sys, sid, job, NextEvent(s.job, body, t), t, Closed, failed);
    }
  }

  lemma {:induction false} RefusedStays(
      sys: Sys, sid: nat, job: Record, lease: Option<Lease>, now: Time, next: Phase, failed: Session)
    requires sid in sys.sessions && Store.Save(sys.db, job, Some(sys.sessions[sid].revision), lease, now).Err?
    ensures Persist(sys, sid, job, lease, now, next, failed) == Stay(sys, sid, failed)
  {
    hide Store.Save;
  }

  /** The store refuses the success of a cancelled Job for the cancellation. */
  lemma {:induction false} SuccessIsRefused(sys: Sys, sid: nat, t: Time)
    requires Current(sys, sid) && sys.sessions[sid].phase == Settling(Succeeded)
    requires sys.sessions[sid].job.id in sys.db.cancellations
    ensures var s := sys.sessions[sid];
      var saved := Store.Save(sys.db, Append(s.job, JobSucceeded, t), Some(s.revision), None, t);
      saved.Err? && saved.error.CancellationRequested?
  {
    hide RecordOk, RowsOk, RunsOk, TokensOk, Inv.EventTableValid, Inv.CapacityValid, Store.InsertEvents;
    Memory(sys, sid);
    assert Inv.RowsValid(sys.db.rows);
  }

  /** An outcome that an attempt may have is set in memory first. */
  lemma {:induction false} OutcomeIsSet(sys: Sys, sid: nat, outcome: Status)
    requires Current(sys, sid) && IsTerminal(outcome)
    requires var phase := sys.sessions[sid].phase;
      phase.Working? || ((phase.Waiting? || phase.Reserved?) && outcome != Succeeded)
    ensures var s := sys.sessions[sid];
      var after := Do(sys, Settle(sid, outcome));
      && Current(after, sid) && after.db == sys.db && after.runs == sys.runs
      && after.sessions[sid] == Session(s.job.(status := outcome), s.revision, Settling(outcome))
  {
    hide Safe;
    SettleSafe(sys, sid, outcome);
  }

  /** What an attempt, the wait for it or its preparation ends with is what the Job has as its one outcome. */
  lemma {:induction false} UndisturbedEndPersists(sys: Sys, sid: nat, outcome: Status, t: Time, u: Time)
    requires Current(sys, sid) && IsTerminal(outcome)
    requires var phase := sys.sessions[sid].phase;
      phase.Working? || ((phase.Waiting? || phase.Reserved?) && outcome != Succeeded)
    ensures var id := sys.sessions[sid].job.id;
      var persisted := if outcome == Succeeded && id in sys.db.cancellations then Cancelled else outcome;
      var after := Do(Do(Do(sys, Settle(sid, outcome)), PersistSettled(sid, None, t)), PersistSettled(sid, None, u));
      && Safe(after) && after.runs == sys.runs && id in after.db.rows
      && after.db.rows[id].record.status == persisted
      && Outcomes(after.db.rows[id].record.events) == [TerminalEvent(persisted)]
  {
    hide Safe, Fresh, Outcomes, DoSettle, DoPersistSettled;
    OutcomeIsSet(sys, sid, outcome);
    var settling := Do(sys, Settle(sid, outcome));
    SettlementPersists(settling, sid, t);
    var persisted := Do(settling, PersistSettled(sid, None, t));
    if persisted.sessions[sid].phase == Closed {
      ClosedStays(persisted, sid, u);
    } else {
      SettlementPersists(persisted, sid, u);
    }
  }

  lemma {:induction false} ClosedStays(sys: Sys, sid: nat, t: Time)
    requires sid in sys.sessions && sys.sessions[sid].phase == Closed
    ensures Do(sys, PersistSettled(sid, None, t)) == sys
  {
  }

  /**
   * An undisturbed Job gets where it should: its first attempt reaches the worker once, and its
   * success is the one outcome of the stored history.
   */
  lemma {:induction false} UndisturbedJobSucceeds(sys: Sys, sid: nat, t: Time, u: Time)
    requires Current(sys, sid) && sys.sessions[sid].job.status == Queued && sys.sessions[sid].phase == Waiting(1)
    requires sys.sessions[sid].job.id !in sys.db.cancellations && MaxAttempts(sys.sessions[sid].job) >= 1
    ensures var id := sys.sessions[sid].job.id;
      var running := Do(Do(sys, Start(sid, None, t)), Launch(sid, true));
      var after := Do(Do(running, Settle(sid, Succeeded)), PersistSettled(sid, None, u));
      && after.runs == sys.runs + [Run(id, 1)]
      && id in after.db.rows && Outcomes(after.db.rows[id].record.events) == [JobSucceeded]
  {
    hide Do, Safe, Outcomes;
    StartGoesThrough(sys, sid, t);
    LaunchRuns(Do(sys, Start(sid, None, t)), sid);
    var running := Do(Do(sys, Start(sid, None, t)), Launch(sid, true));
    OutcomeIsSet(running, sid, Succeeded);
    SettlementPersists(Do(running, Settle(sid, Succeeded)), sid, u);
  }

  /** A failed attempt below the limit is followed by the next one. */
  lemma {:induction false} UndisturbedRetryRuns(sys: Sys, sid: nat, t: Time)
    requires Current(sys, sid) && sys.sessions[sid].phase.Working?
    requires sys.sessions[sid].phase.attempt < MaxAttempts(sys.sessions[sid].job)
    ensures var s := sys.sessions[sid];
      var after := Do(Do(Do(sys, Retry(sid)), PersistRetry(sid, None, t)), Launch(sid, true));
      after.runs == sys.runs + [Run(s.job.id, s.phase.attempt + 1)]
  {
    hide Safe, RecordOk, HighWater, Outcomes, Persist;
    var s := sys.sessions[sid];
    var attempt := s.phase.attempt;
    Memory(sys, sid);
    RetrySafe(sys, sid);
    var backoff := Do(sys, Retry(sid));
    assert backoff.sessions[sid] == Session(WithAttempt(s.job, attempt + 1), s.revision, Backoff(attempt))
        && backoff.db == sys.db;
    PersistRetrySafe(backoff, sid, None, t);
    var job := Append(WithAttempt(s.job, attempt + 1), JobRetrying(attempt, attempt + 1), t);
    PersistGoesThrough(backoff, sid, job, NextEvent(s.job, JobRetrying(attempt, attempt + 1), t), t,
        Reserved(attempt + 1),
                       Session(WithAttempt(WithAttempt(s.job, attempt + 1), attempt), s.revision, Closed));
    LaunchRuns(Do(backoff, PersistRetry(sid, None, t)), sid);
  }

  // ---- Recovering a queued Job ---------------------------------------------

  lemma {:induction false} QueuedRow(sys: Sys, id: Id)
    requires Safe(sys) && id in sys.db.rows && sys.db.rows[id].record.status == Queued
    ensures var job := sys.db.rows[id].record;
      job.id == id && job.body.JobBody? && (Attempt(job) == 0 <==> !Recovered(job.events))
  {
    hide Safe, HighWater, Outcomes, Ascending, Recovered;
    RecoveredRow(sys, id);
  }

  /** In every reachable store a queued Job's attempt number says whether its history holds a recovery. */
  lemma {:induction false} QueuedAttemptIsRecovery(moves: seq<Move>, id: Id)
    requires id in After(Init(), moves).db.rows && After(Init(), moves).db.rows[id].record.status == Queued
    ensures var job := After(Init(), moves).db.rows[id].record;
      Attempt(job) == 0 <==> !Recovered(job.events)
  {
    hide After, Safe, Recovered;
    Guarantees.ReachableSafe(moves);
    QueuedRow(After(Init(), moves), id);
  }

  /** A recovery starts a queued Job that no recovery has taken up before and nobody asked to cancel. */
  ghost predicate Startable(db: Store.Db, id: Id)
    requires id in db.rows
  {
    !Recovered(db.rows[id].record.events) && id !in db.cancellations
  }

  /** The state in which a recovery of `id` has read the record and made its decision. */
  function Decided(sys: Sys, sid: nat, id: Id): Sys {
    Do(Do(sys, Move.Recover(sid, id)), Decide(sid))
  }

  lemma {:induction false} DecidedSession(sys: Sys, id: Id, sid: nat)
    requires Safe(sys) && id in sys.db.rows && sid !in sys.sessions && sys.db.rows[id].record.status == Queued
    ensures var row, after := sys.db.rows[id], Decided(sys, sid, id);
      && Current(after, sid) && after.db == sys.db && after.runs == sys.runs
           && after.sessions.Keys == sys.sessions.Keys + {sid}
      && after.sessions[sid] ==
           if Startable(sys.db, id) then Session(row.record, row.revision, RecoverReady(Queued, 1))
           else var outcome := if id in sys.db.cancellations then Cancelled else Failed;
             Session(row.record.(status := outcome), row.revision, Settling(outcome))
  {
    hide Safe, Recovered;
    QueuedRow(sys, id);
    RecoverSafe(sys, sid, id);
    DecideSafe(Do(sys, Move.Recover(sid, id)), sid);
  }

  /** A startable Job's recovery is persisted and waits for a slot. */
  lemma {:induction false} RecoveryGoesThrough(sys: Sys, id: Id, sid: nat, t: Time)
    requires Safe(sys) && id in sys.db.rows && sid !in sys.sessions && sys.db.rows[id].record.status == Queued
    requires Startable(sys.db, id)
    ensures var after := Do(Decided(sys, sid, id), PersistRecovery(sid, None, t));
      && Current(after, sid) && after.runs == sys.runs && after.sessions.Keys == sys.sessions.Keys + {sid}
      && after.sessions[sid].job.status == Queued && after.sessions[sid].phase == Waiting(1)
           && after.sessions[sid].job.id == id
      && MaxAttempts(after.sessions[sid].job) == MaxAttempts(sys.db.rows[id].record)
      && id in after.db.rows && after.db.rows[id].record.status == Queued && Recovered(after.db.rows[id].record.events)
      && after.db.cancellations == sys.db.cancellations
  {
    hide Safe, Decided, Recovered, Persist;
    QueuedRow(sys, id);
    DecidedSession(sys, id, sid);
    var decided, record := Decided(sys, sid, id), sys.db.rows[id].record;
    var event := NextEvent(record, RecoveryStarted(Queued, 1), t);
    var job := Append(WithAttempt(record, 1), RecoveryStarted(Queued, 1), t);
    PersistRecoverySafe(decided, sid, None, t);
    RecoveredAppended(record.events, event);
    PersistGoesThrough(decided, sid, job, event, t, Waiting(1), decided.sessions[sid].(phase := Closed));
  }

  /** Any other queued Job is settled by its recovery. */
  lemma {:induction false} RecoverySettles(sys: Sys, id: Id, sid: nat, t: Time)
    requires Safe(sys) && id in sys.db.rows && sid !in sys.sessions && sys.db.rows[id].record.status == Queued
    requires !Startable(sys.db, id)
    ensures var after := Do(Decided(sys, sid, id), PersistSettled(sid, None, t));
      && id in after.db.rows && after.runs == sys.runs
      && after.db.rows[id].record.status == if id in sys.db.cancellations then Cancelled else Failed
  {
    hide Safe, Decided, Startable, Persist, Store.Save;
    QueuedRow(sys, id);
    DecidedSession(sys, id, sid);
    var decided := Decided(sys, sid, id);
    var s := decided.sessions[sid];
    var job := Append(s.job, TerminalEvent(s.phase.outcome), t);
    var saved := Store.Save(decided.db, job, Some(s.revision), None, t);
    PersistGoesThrough(decided, sid, job, NextEvent(s.job, TerminalEvent(s.phase.outcome), t), t, Closed,
      if saved.Err? && saved.error.CancellationRequested?
      then Session(s.job.(status := Cancelled), s.revision, Settling(Cancelled))
      else s.(phase := Closed));
  }

  /** A persisted recovery goes on to its first run. */
  lemma {:induction false} RecoveredJobRuns(sys: Sys, sid: nat, u: Time)
    requires Current(sys, sid) && sys.sessions[sid].job.status == Queued && sys.sessions[sid].phase == Waiting(1)
    ensures var s := sys.sessions[sid];
      Do(Do(sys, Start(sid, None, u)), Launch(sid, true)).runs
      == if MaxAttempts(s.job) >= 1 then sys.runs + [Run(s.job.id, 1)] else sys.runs
  {
    hide Safe, Fresh, DoStart;
    StartGoesThrough(sys, sid, u);
    if MaxAttempts(sys.sessions[sid].job) >= 1 {
      LaunchRuns(Do(sys, Start(sid, None, u)), sid);
    }
  }

  /** An activation that settles neither recovers nor runs. */
  lemma {:induction false} SettlingStays(sys: Sys, sid: nat, t: Time, u: Time)
    requires sid in sys.sessions && sys.sessions[sid].phase.Settling?
    ensures Do(sys, PersistRecovery(sid, None, t)) == sys
    ensures Do(Do(sys, Start(sid, None, u)), Launch(sid, true)) == sys
  {
    hide Store.Save;
  }

  /**
   * A queued Job is started by an undisturbed recovery, and its first attempt reaches the worker,
   * exactly when its history holds no recovery and no cancellation was accepted; otherwise the
   * recovery settles it, as cancelled if a cancellation was accepted and as failed if not, without a run.
   */
  lemma {:induction false} QueuedJobRecoversExactlyWhen(sys: Sys, id: Id, sid: nat, t: Time, u: Time)
    requires Safe(sys) && id in sys.db.rows && sid !in sys.sessions && sys.db.rows[id].record.status == Queued
    ensures var decided := Decided(sys, sid, id);
      var waiting := Do(decided, PersistRecovery(sid, None, t));
      var running := Do(Do(waiting, Start(sid, None, u)), Launch(sid, true));
      var settled := Do(decided, PersistSettled(sid, None, t));
      && sid in decided.sessions && sid in waiting.sessions
      && (decided.sessions[sid].phase == RecoverReady(Queued, 1) <==> Startable(sys.db, id))
      && (waiting.sessions[sid].phase == Waiting(1) <==> Startable(sys.db, id))
      && running.runs == (if Startable(sys.db, id) && MaxAttempts(sys.db.rows[id].record) >= 1
           then sys.runs + [Run(id, 1)] else sys.runs)
      && id in settled.db.rows
      && settled.db.rows[id].record.status ==
           (if Startable(sys.db, id) then Queued else if id in sys.db.cancellations then Cancelled else Failed)
  {
    hide Safe, Decided, Startable, DoPersistRecovery, DoStart, DoLaunch;
    DecidedSession(sys, id, sid);
    var decided := Decided(sys, sid, id);
    if Startable(sys.db, id) {
      RecoveryGoesThrough(sys, id, sid, t);
      RecoveredJobRuns(Do(decided, PersistRecovery(sid, None, t)), sid, u);
    } else {
      RecoverySettles(sys, id, sid, t);
      SettlingStays(decided, sid, t, u);
    }
  }

  /**
   * So a queued Job does not survive every crash: when the process that recovers it dies between
   * persisting the recovery and starting the Job, the next recovery settles it as failed, and no
   * worker ever ran.
   */
  lemma {:induction false} QueuedJobMayFailOnSecondRecovery(sys: Sys, id: Id, a: nat, b: nat, t: Time)
    requires Safe(sys) && id in sys.db.rows && a !in sys.sessions && b !in sys.sessions
    requires sys.db.rows[id].record.status == Queued && Startable(sys.db, id)
    ensures var crashed := Do(Do(Decided(sys, a, id), PersistRecovery(a, None, t)), Crash(a));
      var after := Do(Decided(crashed, b, id), PersistSettled(b, None, t));
      id in after.db.rows && after.db.rows[id].record.status == Failed && after.runs == sys.runs
  {
    hide Safe, Decided, Recovered, DoPersistRecovery, DoPersistSettled;
    RecoveryGoesThrough(sys, id, a, t);
    var waiting := Do(Decided(sys, a, id), PersistRecovery(a, None, t));
    CrashSafe(waiting, a);
    RecoverySettles(Do(waiting, Crash(a)), id, b, t);
  }

  // ---- Recovering a running Job --------------------------------------------

  /** The lost attempt is persisted; the activation goes on to the next one or settles the Job as failed. */
  lemma {:induction false} LostGoesThrough(sys: Sys, sid: nat, t: Time)
    requires Current(sys, sid) && sys.sessions[sid].phase.RecoverLost?
    ensures var s := sys.sessions[sid];
      var lost := Append(s.job, AttemptLost(s.phase.lost), t);
      var after := Do(sys, PersistLost(sid, None, t));
      && Current(after, sid) && after.runs == sys.runs && after.db.cancellations == sys.db.cancellations
      && s.job.id in after.db.rows && after.db.rows[s.job.id].record == lost
      && after.sessions[sid] ==
           if s.phase.lost < MaxAttempts(s.job)
           then Session(lost, s.revision + 1, RecoverReady(Running, s.phase.lost + 1))
           else Session(lost.(status := Failed), s.revision + 1, Settling(Failed))
  {
    hide Safe, RecordOk, HighWater, Outcomes, Persist, Store.Save, MaxAttempts, Ascending;
    var s := sys.sessions[sid];
    PersistLostSafe(sys, sid, None, t);
    Memory(sys, sid);
    PersistGoesThrough(sys, sid, Append(s.job, AttemptLost(s.phase.lost), t),
        NextEvent(s.job, AttemptLost(s.phase.lost), t), t, RecoverReady(Running, s.phase.lost + 1),
        s.(phase := Closed));
  }

  /** The recovery of a running Job is persisted, and its next attempt reaches the worker. */
  lemma {:induction false} ResumedJobRuns(sys: Sys, sid: nat, t: Time)
    requires Current(sys, sid) && sys.sessions[sid].phase.RecoverReady? && sys.sessions[sid].job.status == Running
    requires sys.sessions[sid].phase.next <= MaxAttempts(sys.sessions[sid].job)
    ensures var s := sys.sessions[sid];
      var waiting := Do(sys, PersistRecovery(sid, None, t));
      && sid in waiting.sessions && waiting.sessions[sid].phase == Waiting(s.phase.next)
      && s.job.id in waiting.db.rows && waiting.db.rows[s.job.id].record.status == Running
      && Do(Do(waiting, Resume(sid)), Launch(sid, true)).runs == sys.runs + [Run(s.job.id, s.phase.next)]
  {
    hide Safe, RecordOk, HighWater, Outcomes, Persist, Store.Save, Ascending;
    var s := sys.sessions[sid];
    var next, previous := s.phase.next, s.phase.previous;
    PersistRecoverySafe(sys, sid, None, t);
    Memory(sys, sid);
    var job := Append(WithAttempt(s.job, next), RecoveryStarted(previous, next), t);
    PersistGoesThrough(sys, sid, job, NextEvent(s.job, RecoveryStarted(previous, next), t), t, Waiting(next),
        s.(phase := Closed));
    var waiting := Do(sys, PersistRecovery(sid, None, t));
    ResumeSafe(waiting, sid);
    LaunchRuns(Do(waiting, Resume(sid)), sid);
  }

  /** An activation that settles reads no lost attempt and resumes nothing. */
  lemma {:induction false} SettlingResumesNothing(sys: Sys, sid: nat, t: Time)
    requires sid in sys.sessions && sys.sessions[sid].phase.Settling?
    ensures Do(sys, PersistLost(sid, None, t)) == sys && Do(sys, PersistRecovery(sid, None, t)) == sys
    ensures Do(Do(sys, Resume(sid)), Launch(sid, true)) == sys
  {
    hide Store.Save;
  }

  lemma {:induction false} DecidedRunning(sys: Sys, id: Id, sid: nat)
    requires Safe(sys) && id in sys.db.rows && sid !in sys.sessions && sys.db.rows[id].record.status == Running
    ensures var row, after := sys.db.rows[id], Decided(sys, sid, id);
      && Current(after, sid) && after.db == sys.db && after.runs == sys.runs
      && row.record.id == id && row.record.body.JobBody?
      && after.sessions[sid] ==
           if id in sys.db.cancellations
           then Session(row.record.(status := Cancelled), row.revision, Settling(Cancelled))
           else Session(row.record, row.revision, RecoverLost(Attempt(row.record)))
  {
    hide Safe, Recovered;
    RecoverSafe(sys, sid, id);
    DecideSafe(Do(sys, Move.Recover(sid, id)), sid);
    RecoveredRow(sys, id);
  }

  /**
   * The recovery of a running Job whose process died goes on to the next attempt, which reaches the
   * worker, exactly when the lost attempt was below the limit and no cancellation was accepted;
   * otherwise it settles the Job, as cancelled if a cancellation was accepted and as failed if not,
   * without a run.
   */
  lemma {:induction false} RunningJobRecoversExactlyWhen(sys: Sys, id: Id, sid: nat, t: Time, u: Time)
    requires Safe(sys) && id in sys.db.rows && sid !in sys.sessions && sys.db.rows[id].record.status == Running
    ensures var job := sys.db.rows[id].record;
      var resumes := Attempt(job) < MaxAttempts(job) && id !in sys.db.cancellations;
      var lost := Do(Decided(sys, sid, id), PersistLost(sid, None, t));
      var waiting := Do(lost, PersistRecovery(sid, None, u));
      var running := Do(Do(waiting, Resume(sid)), Launch(sid, true));
      var settled := Do(lost, PersistSettled(sid, None, u));
      && sid in waiting.sessions
      && (waiting.sessions[sid].phase == Waiting(Attempt(job) + 1) <==> resumes)
      && running.runs == (if resumes then sys.runs + [Run(id, Attempt(job) + 1)] else sys.runs)
      && id in settled.db.rows
      && settled.db.rows[id].record.status ==
           (if resumes then Running else if id in sys.db.cancellations then Cancelled else Failed)
      && Outcomes(settled.db.rows[id].record.events) ==
           (if resumes then [] else if id in sys.db.cancellations then [JobCancelled] else [JobFailed])
  {
    hide Safe, Fresh, Decided, DoPersistLost, DoPersistRecovery, DoPersistSettled, DoResume, DoLaunch, Outcomes, Append;
    DecidedRunning(sys, id, sid);
    var decided, job := Decided(sys, sid, id), sys.db.rows[id].record;
    var lost := Do(decided, PersistLost(sid, None, t));
    if id in sys.db.cancellations {
      SettlingResumesNothing(decided, sid, t);
      SettlingResumesNothing(decided, sid, u);
      SettlementPersists(decided, sid, u);
    } else {
      LostGoesThrough(decided, sid, t);
      AppendKeeps(job, AttemptLost(Attempt(job)), t);
      if Attempt(job) < MaxAttempts(job) {
        ResumedJobRuns(lost, sid, u);
        ReadyUnsettled(lost, sid, u);
      } else {
        SettlingResumesNothing(lost, sid, u);
        SettlementPersists(lost, sid, u);
      }
    }
  }

  lemma {:induction false} AppendKeeps(job: Record, body: EventBody, at: Time)
    ensures var after := Append(job, body, at);
      after.id == job.id && after.status == job.status && MaxAttempts(after) == MaxAttempts(job)
  {
  }

  /** An activation that is ready to resume its Job settles nothing. */
  lemma {:induction false} ReadyUnsettled(sys: Sys, sid: nat, t: Time)
    requires Current(sys, sid) && sys.sessions[sid].phase.RecoverReady? && sys.sessions[sid].job.status == Running
    ensures Do(sys, PersistSettled(sid, None, t)) == sys
    ensures var id := sys.sessions[sid].job.id;
      id in sys.db.rows && Outcomes(sys.db.rows[id].record.events) == []
  {
    hide Safe, RecordOk, Outcomes;
    Memory(sys, sid);
  }

  // ---- What an attempt records ---------------------------------------------

  /** The artifact of an undisturbed attempt joins the stored Job together with its event. */
  lemma {:induction false} UndisturbedCaptureIsStored(sys: Sys, sid: nat, artifact: Artifact, t: Time)
    requires Current(sys, sid) && sys.sessions[sid].phase.Working?
    ensures var s := sys.sessions[sid];
      var after := Do(sys, Capture(sid, artifact, None, t));
      && Current(after, sid) && after.sessions[sid].phase == s.phase && after.runs == sys.runs
      && s.job.id in sys.db.rows && s.job.id in after.db.rows
      && Artifacts(after.db.rows[s.job.id].record) == Artifacts(sys.db.rows[s.job.id].record) + [artifact]
      && after.db.rows[s.job.id].record.events ==
           sys.db.rows[s.job.id].record.events + [Event(|s.job.events| + 1, t, Other("job.artifact"))]
  {
    hide Safe, HighWater, Outcomes, Persist, Store.Save, Ascending;
    var s := sys.sessions[sid];
    CaptureSafe(sys, sid, artifact, None, t);
    Memory(sys, sid);
    PersistGoesThrough(sys, sid, Append(WithArtifact(s.job, artifact), Other("job.artifact"), t),
        NextEvent(s.job, Other("job.artifact"), t), t, s.phase, s);
  }

  /** A note of an undisturbed activation joins the stored history, and moves nothing else. */
  lemma {:induction false} UndisturbedNoteIsStored(sys: Sys, sid: nat, body: EventBody, t: Time)
    requires Current(sys, sid) && IsNote(body)
    requires sys.sessions[sid].job.status != Succeeded
    ensures var s := sys.sessions[sid];
      var after := Do(sys, Note(sid, Some(body), None, t));
      && Current(after, sid) && after.sessions[sid].phase == s.phase && after.runs == sys.runs
      && s.job.id in sys.db.rows && s.job.id in after.db.rows
      && after.db.rows[s.job.id].record.events ==
           sys.db.rows[s.job.id].record.events + [Event(|s.job.events| + 1, t, body)]
  {
    hide Safe, HighWater, Outcomes, Persist, Store.Save, Ascending, IsNote;
    var s := sys.sessions[sid];
    NoteSafe(sys, sid, Some(body), None, t);
    Memory(sys, sid);
    PersistGoesThrough(sys, sid, Append(s.job, body, t), NextEvent(s.job, body, t), t, s.phase, s);
  }

  /**
   * An admission with valid options and a new key activates its queued Job, for a first attempt, exactly
   * when the identity is free; so an undisturbed Job runs from its admission to its success.
   */
  lemma {:induction false} AdmittedJobIsActive(sys: Sys, sid: nat, record: Record, options: Store.Admission)
    requires Safe(sys) && sid !in sys.sessions && IsQueuedJob(record)
    requires Store.ValidAdmission(JobKind, options) && options.idempotency == None
    ensures var after := Do(sys, Admit(sid, record, options));
      && (sid in after.sessions <==> record.id !in sys.db.rows)
      && (record.id !in sys.db.rows ==>
            && Current(after, sid) && after.runs == sys.runs
            && after.sessions[sid] == Session(record, 1, Waiting(1))
            && record.id !in after.db.cancellations)
  {
    hide Safe, Store.Step, Store.ValidAdmission;
    AdmitSafe(sys, sid, record, options);
    SafeStore(sys);
    Calls.AdmitsExactlyWhen(sys.db, record, options);
    if record.id !in sys.db.rows {
      AdmittedRow(sys.db, record, options);
      Calls.AdmissionWrites(sys.db, record, options);
      NewIsUncancelled(sys.db, record.id);
    }
  }

  lemma {:induction false} SafeStore(sys: Sys)
    requires Safe(sys)
    ensures Inv.ValidDb(sys.db) && sys.db.kind == JobKind
  {
    hide Inv.ValidDb, RowsOk, SessionsOk, RunsOk, TokensOk;
  }

  lemma {:induction false} NewIsUncancelled(db: Store.Db, id: Id)
    requires Inv.ValidDb(db) && id !in db.rows
    ensures id !in db.cancellations
  {
  }

  /** The same for a pool: its chosen member's Job is the one that becomes active. */
  lemma {:induction false} PooledJobIsActive(
      sys: Sys, sid: nat, key: string, members: seq<(string, Record)>, options: Store.Admission)
    requires Safe(sys) && sid !in sys.sessions && options.idempotency == None
    requires Store.ValidAdmission(JobKind, options) && Store.ValidPool(key, Store.Names(members))
    requires forall i | 0 <= i < |members| :: IsQueuedJob(members[i].1) && members[i].1.body.route == members[i].0
    ensures var after := Do(sys, AdmitPool(sid, key, members, options));
      var chosen := Store.ChosenMember(sys.db, key, Store.Names(members), options.now);
      && 0 <= chosen < |members|
      && (sid in after.sessions <==> members[chosen].1.id !in sys.db.rows)
      && (members[chosen].1.id !in sys.db.rows ==>
            && Safe(after) && after.runs == sys.runs
            && after.sessions[sid] == Session(members[chosen].1, 1, Waiting(1))
            && members[chosen].1.id in after.db.rows
            && after.db.rows[members[chosen].1.id] == Store.Row(1, 1, members[chosen].1))
  {
    hide Safe, Store.Step, Store.ValidAdmission, Store.ValidPool, Store.ChosenMember;
    AdmitPoolSafe(sys, sid, key, members, options);
    SafeStore(sys);
    QueuedIsNumbered(members);
    Calls.PoolAdmitsExactlyWhen(sys.db, key, members, options);
    var chosen := Store.ChosenMember(sys.db, key, Store.Names(members), options.now);
    if members[chosen].1.id !in sys.db.rows {
      PoolAdmittedRow(sys.db, key, members, options);
    }
  }

  lemma {:induction false} QueuedIsNumbered(members: seq<(string, Record)>)
    requires forall i | 0 <= i < |members| :: IsQueuedJob(members[i].1)
    ensures forall i | 0 <= i < |members| :: Numbered(members[i].1.events)
  {
  }
}
