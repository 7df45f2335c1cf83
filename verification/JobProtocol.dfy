/**
 * Several processes running, losing, taking over, retrying and settling Jobs over one store. An
 * activation (session) works on its own in-memory copy of a Job and persists it with `save`; any
 * interleaving of activations, crashes, clocks and lease calls is a sequence of moves.
 */
module JobProtocol {
  import opened Prelude
  import opened Records
  import Store = DurableStore

  /** Where an activation stands between two awaits. */
  datatype Phase =
    | Waiting(start: nat)                        // waits for a capacity slot, to start or resume attempt `start`
    | Reserved(attempt: nat)                     // top of the attempt loop
    | Working(attempt: nat)                      // the worker attempt is under way
    | Backoff(attempt: nat)                      // attempt + 1 chosen in memory, job.retrying not persisted
    | Settling(outcome: Status)                  // terminal status set in memory, its event not persisted
    | RecoverRead                                // recovering an unfinished Job, a cancellation not looked up yet
    | RecoverLost(lost: nat)                     // recovering a running Job, job.attempt.lost not persisted
    | RecoverReady(previous: Status, next: nat)  // job.recovery.started not persisted
    | Closed                                     // the activation is over

  /** `revision` is the one attached to the in-memory copy `job`. */
  datatype Session = Session(job: Record, revision: nat, phase: Phase)

  /** One call of `adapter.run`. */
  datatype Run = Run(jobId: Id, attempt: nat)

  datatype Sys = Sys(db: Store.Db, sessions: map<nat, Session>, runs: seq<Run>)

  function Init(): Sys {
    Sys(Store.Empty(JobKind), map[], [])
  }

  // ---- In-memory changes ---------------------------------------------------

  function Attempt(job: Record): nat {
    if job.body.JobBody? then job.body.attempt else 0
  }

  function MaxAttempts(job: Record): nat {
    if job.body.JobBody? then job.body.maxAttempts else 0
  }

  function Artifacts(job: Record): seq<Artifact> {
    if job.body.JobBody? then job.body.artifacts else []
  }

  function WithArtifact(job: Record, artifact: Artifact): Record {
    if job.body.JobBody? then job.(body := job.body.(artifacts := job.body.artifacts + [artifact])) else job
  }

  function WithAttempt(job: Record, attempt: nat): Record {
    if job.body.JobBody? then job.(body := job.body.(attempt := attempt)) else job
  }

  /** `#appendEvent` pushes the next numbered event before it saves. */
  function Append(job: Record, body: EventBody, at: Time): Record {
    job.(events := job.events + [Event(|job.events| + 1, at, body)])
  }

  function TerminalEvent(outcome: Status): EventBody {
    match outcome
    case Succeeded => JobSucceeded
    case Cancelled => JobCancelled
    case _ => JobFailed
  }

  predicate IsTerminalEvent(body: EventBody) {
    body in {JobSucceeded, JobFailed, JobCancelled}
  }

  /** The attempt number an event reserves for its activation to run. */
  function Reserves(body: EventBody): Option<nat> {
    match body
    case JobStarted => Some(1)
    case JobRetrying(_, next) => Some(next)
    case RecoveryStarted(previous, next) => if previous == Running then Some(next) else None
    case _ => None
  }

  /** Events that move nothing: capacity waiting, worker output, controls, observer failures. */
  predicate IsNote(body: EventBody) {
    body.CapacityWaiting? || body.ControlRequested? || body.ControlSettled? || body.Other?
  }

  // ---- Moves ---------------------------------------------------------------

  datatype Move =
    | StoreCall(op: Store.Op)
    | Admit(sid: nat, record: Record, options: Store.Admission)
    | AdmitPool(sid: nat, key: string, members: seq<(string, Record)>, poolOptions: Store.Admission)
    | Note(sid: nat, body: Option<EventBody>, lease: Option<Lease>, now: Time)
    | Start(sid: nat, lease: Option<Lease>, now: Time)
    | Resume(sid: nat)
    | Launch(sid: nat, reached: bool)
    | Capture(sid: nat, artifact: Artifact, lease: Option<Lease>, now: Time)
    | Retry(sid: nat)
    | PersistRetry(sid: nat, lease: Option<Lease>, now: Time)
    | Settle(sid: nat, outcome: Status)
    | PersistSettled(sid: nat, lease: Option<Lease>, now: Time)
    | Recover(sid: nat, jobId: Id)
    | Decide(sid: nat)
    | PersistLost(sid: nat, lease: Option<Lease>, now: Time)
    | PersistRecovery(sid: nat, lease: Option<Lease>, now: Time)
    | Crash(sid: nat)

  /** The store calls that write no record: leases, capacity and cancellation, by anyone, at any time. */
  predicate WritesNoRecord(op: Store.Op) {
    || op.OpClaim? || op.OpRenew? || op.OpReleaseLease?
    || op.OpTryAcquire? || op.OpReleaseCapacity? || op.OpCancel?
  }

  /** What `#queuedJob` builds. */
  predicate IsQueuedJob(record: Record) {
    && record.status == Queued
    && record.body.JobBody? && record.body.attempt == 0
    && |record.events| == 1 && record.events[0].sequence == 1 && record.events[0].body == JobQueued
  }

  /** The next state; a move that is not possible in a state leaves it as it is. */
  function Do(sys: Sys, move: Move): Sys {
    match move
    case StoreCall(op) => if WritesNoRecord(op) then sys.(db := Store.Step(sys.db, op).0) else sys
    case Admit(sid, record, options) => DoAdmit(sys, sid, record, Store.Step(sys.db, Store.OpAdmit(record, options)))
    case AdmitPool(sid, key, members, options) => DoAdmitPool(sys, sid, key, members, options)
    case Note(sid, body, lease, now) => DoNote(sys, sid, body, lease, now)
    case Start(sid, lease, now) => DoStart(sys, sid, lease, now)
    case Resume(sid) => DoResume(sys, sid)
    case Launch(sid, reached) => DoLaunch(sys, sid, reached)
    case Capture(sid, artifact, lease, now) => DoCapture(sys, sid, artifact, lease, now)
    case Retry(sid) => DoRetry(sys, sid)
    case PersistRetry(sid, lease, now) => DoPersistRetry(sys, sid, lease, now)
    case Settle(sid, outcome) => DoSettle(sys, sid, outcome)
    case PersistSettled(sid, lease, now) => DoPersistSettled(sys, sid, lease, now)
    case Recover(sid, jobId) => DoRecover(sys, sid, jobId)
    case Decide(sid) => DoDecide(sys, sid)
    case PersistLost(sid, lease, now) => DoPersistLost(sys, sid, lease, now)
    case PersistRecovery(sid, lease, now) => DoPersistRecovery(sys, sid, lease, now)
    case Crash(sid) => sys.(sessions := sys.sessions - {sid})
  }

  function Stay(sys: Sys, sid: nat, session: Session): Sys {
    sys.(sessions := sys.sessions[sid := session])
  }

  /** `#save` of an in-memory copy: its new state and phase if the commit succeeds, `failed` otherwise. */
  function Persist(sys: Sys, sid: nat, job: Record, lease: Option<Lease>, now: Time, next: Phase, failed: Session): Sys
    requires sid in sys.sessions
  {
    var s := sys.sessions[sid];
    match Store.Save(sys.db, job, Some(s.revision), lease, now)
    case Ok(db) => Sys(db, sys.sessions[sid := Session(job, s.revision + 1, next)], sys.runs)
    case Err(_) => Stay(sys, sid, failed)
  }

  /** A first admission activates the new Job; a replay or a refusal activates nothing. */
  function DoAdmit(sys: Sys, sid: nat, record: Record, result: (Store.Db, Store.Reply)): Sys {
    if sid in sys.sessions || !IsQueuedJob(record) then sys
    else if result.1.AdmissionReply? && result.1.outcome.Created? && result.1.outcome.lease.recordId == record.id then
      sys.(db := result.0, sessions := sys.sessions[sid := Session(record, 1, Waiting(1))])
    else sys
  }

  function DoAdmitPool(sys: Sys, sid: nat, key: string, members: seq<(string, Record)>, options: Store.Admission): Sys {
    if members == [] || !(forall i | 0 <= i < |members| :: IsQueuedJob(members[i].1)) then sys
    else
      var chosen := Store.ChosenMember(sys.db, key, Store.Names(members), options.now);
      if 0 <= chosen < |members| then
        DoAdmit(sys, sid, members[chosen].1, Store.Step(sys.db, Store.OpAdmitRoutePool(key, members, options)))
      else sys
  }

  /** Any other save of the current copy, with one more event or (callback) none. */
  function DoNote(sys: Sys, sid: nat, body: Option<EventBody>, lease: Option<Lease>, now: Time): Sys {
    if sid !in sys.sessions || (body.Some? && !IsNote(body.value)) then sys
    else
      var s := sys.sessions[sid];
      var job := if body.Some? then Append(s.job, body.value, now) else s.job;
      Persist(sys, sid, job, lease, now, s.phase, s)
  }

  /** A queued Job is marked running under attempt `start`. */
  function DoStart(sys: Sys, sid: nat, lease: Option<Lease>, now: Time): Sys {
    if sid !in sys.sessions || !sys.sessions[sid].phase.Waiting? || sys.sessions[sid].job.status != Queued then sys
    else
      var s := sys.sessions[sid];
      var running := WithAttempt(s.job, s.phase.start).(status := Running);
      var failed := Session(s.job.(status := Running), s.revision, Closed);
      Persist(sys, sid, Append(running, JobStarted, now), lease, now, Reserved(s.phase.start), failed)
  }

  /** A recovered Job that is already running goes straight to the attempt loop. */
  function DoResume(sys: Sys, sid: nat): Sys {
    if sid !in sys.sessions || !sys.sessions[sid].phase.Waiting? || sys.sessions[sid].job.status == Queued then sys
    else
      var s := sys.sessions[sid];
      Stay(sys, sid, s.(phase := Reserved(s.phase.start)))
  }

  /** The loop body: `adapter.run`, unless preparation failed or the Job was aborted before it. */
  function DoLaunch(sys: Sys, sid: nat, reached: bool): Sys {
    if sid !in sys.sessions || !sys.sessions[sid].phase.Reserved? then sys
    else
      var s := sys.sessions[sid];
      var attempt := s.phase.attempt;
      if attempt > MaxAttempts(s.job) || Attempt(s.job) != attempt then Stay(sys, sid, s.(phase := Closed))
      else
        Stay(sys, sid, s.(phase := Working(attempt)))
          .(runs := if reached then sys.runs + [Run(s.job.id, attempt)] else sys.runs)
  }

  /** The patch artifact of an attempt is recorded together with its event. */
  function DoCapture(sys: Sys, sid: nat, artifact: Artifact, lease: Option<Lease>, now: Time): Sys {
    if sid !in sys.sessions || !sys.sessions[sid].phase.Working? then sys
    else
      var s := sys.sessions[sid];
      Persist(sys, sid, Append(WithArtifact(s.job, artifact), Other("job.artifact"), now), lease, now, s.phase, s)
  }

  function DoRetry(sys: Sys, sid: nat): Sys {
    if sid !in sys.sessions || !sys.sessions[sid].phase.Working? then sys
    else
      var s := sys.sessions[sid];
      var attempt := s.phase.attempt;
      if attempt < MaxAttempts(s.job)
          then Stay(sys, sid, Session(WithAttempt(s.job, attempt + 1), s.revision, Backoff(attempt)))
      else sys
  }

  function DoPersistRetry(sys: Sys, sid: nat, lease: Option<Lease>, now: Time): Sys {
    if sid !in sys.sessions || !sys.sessions[sid].phase.Backoff? then sys
    else
      var s := sys.sessions[sid];
      var attempt := s.phase.attempt;
      var failed := Session(WithAttempt(s.job, attempt), s.revision, Closed);
      Persist(sys, sid, Append(s.job, JobRetrying(attempt, attempt + 1), now), lease, now, Reserved(attempt + 1),
          failed)
  }

  /** Success is decided by a finished attempt only, cancellation by an activation, failure by a recovery too. */
  function DoSettle(sys: Sys, sid: nat, outcome: Status): Sys {
    if sid !in sys.sessions then sys
    else
      var s := sys.sessions[sid];
      var allowed :=
        match s.phase
        case Working(_) => outcome in {Succeeded, Failed, Cancelled}
        case Waiting(_) | Reserved(_) => outcome in {Failed, Cancelled}
        case RecoverReady(_, _) => outcome == Failed
        case _ => false;
      if allowed then Stay(sys, sid, Session(s.job.(status := outcome), s.revision, Settling(outcome))) else sys
  }

  /** A success refused because of a cancellation request settles as cancelled instead. */
  function DoPersistSettled(sys: Sys, sid: nat, lease: Option<Lease>, now: Time): Sys {
    if sid !in sys.sessions || !sys.sessions[sid].phase.Settling? then sys
    else
      var s := sys.sessions[sid];
      var job := Append(s.job, TerminalEvent(s.phase.outcome), now);
      var saved := Store.Save(sys.db, job, Some(s.revision), lease, now);
      var failed :=
        if saved.Err? && saved.error.CancellationRequested?
        then Session(s.job.(status := Cancelled), s.revision, Settling(Cancelled))
        else s.(phase := Closed);
      Persist(sys, sid, job, lease, now, Closed, failed)
  }

  /** `#recoverInterruptedJob` reads the current record of an unfinished Job. */
  function DoRecover(sys: Sys, sid: nat, jobId: Id): Sys {
    if sid in sys.sessions || jobId !in sys.db.rows then sys
    else
      var row := sys.db.rows[jobId];
      if row.record.status in {Queued, Running} then Stay(sys, sid, Session(row.record, row.revision, RecoverRead))
          else sys
  }

  /** It then looks for a cancellation, and after that at the attempt number of a queued Job. */
  function DoDecide(sys: Sys, sid: nat): Sys {
    if sid !in sys.sessions || !sys.sessions[sid].phase.RecoverRead? then sys
    else
      var s := sys.sessions[sid];
      if s.job.id in sys.db.cancellations then
        Stay(sys, sid, Session(s.job.(status := Cancelled), s.revision, Settling(Cancelled)))
      else if s.job.status == Running then Stay(sys, sid, s.(phase := RecoverLost(Attempt(s.job))))
      else if Attempt(s.job) == 0 then Stay(sys, sid, s.(phase := RecoverReady(Queued, 1)))
      else Stay(sys, sid, Session(s.job.(status := Failed), s.revision, Settling(Failed)))
  }

  function DoPersistLost(sys: Sys, sid: nat, lease: Option<Lease>, now: Time): Sys {
    if sid !in sys.sessions || !sys.sessions[sid].phase.RecoverLost? then sys
    else
      var s := sys.sessions[sid];
      var lost := s.phase.lost;
      var after := Persist(sys, sid, Append(s.job, AttemptLost(lost), now), lease, now,
                           RecoverReady(Running, lost + 1), s.(phase := Closed));
      if lost < MaxAttempts(s.job) || after.sessions[sid].phase == Closed then after
      else
        Stay(after, sid, Session(after.sessions[sid].job.(status := Failed), after.sessions[sid].revision,
        Settling(Failed)))
  }

  function DoPersistRecovery(sys: Sys, sid: nat, lease: Option<Lease>, now: Time): Sys {
    if sid !in sys.sessions || !sys.sessions[sid].phase.RecoverReady? then sys
    else
      var s := sys.sessions[sid];
      var next := s.phase.next;
      var job := Append(WithAttempt(s.job, next), RecoveryStarted(s.phase.previous, next), now);
      Persist(sys, sid, job, lease, now, Waiting(next), s.(phase := Closed))
  }

  /** The state after a sequence of moves. */
  function After(sys: Sys, moves: seq<Move>): Sys {
    if moves == [] then sys else Do(After(sys, moves[..|moves| - 1]), moves[|moves| - 1])
  }
}
