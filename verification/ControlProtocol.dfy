/**
 * Worker controls: requests that callers send to a running attempt. An activation queues them, and
 * each one persists `job.control.requested`, reaches the adapter's handler, and persists a
 * settlement. Several activations of one Job may exist after crashes and takeovers.
 */
module ControlProtocol {
  import opened Prelude
  import opened Records
  import Store = DurableStore

  /** A validated `WorkerControlRequest`; `content` stands for its kind and message. */
  datatype Request = Request(controlId: string, attempt: nat, content: string)

  /** One entry of an attempt's serial queue (`#queueControl`). */
  datatype Work = Deliver(request: Request) | SettleUntracked(request: Request)

  /** How far the first entry of the queue got. */
  datatype Stage =
    | Begin                                                   // nothing persisted yet
    | AfterRequest                                            // job.control.requested is persisted
    | AwaitHandler                                            // the adapter's handler has the request
    | BeforeSettlement(outcome: ControlOutcome, delivered: bool)
    | AfterFailure                                            // the settlement of a delivered request was not persisted

  datatype Life = Open | Closing | Swept | SweepFailed

  /** An activation of a Job during one attempt; `revision` is the one attached to its copy. */
  datatype Session = Session(job: Record, revision: nat, attempt: nat, life: Life, queue: seq<Work>, stage: Stage)

  /** One call of an adapter's control handler, during an attempt. */
  datatype Handing = Handing(jobId: Id, controlId: string, attempt: nat)

  datatype Sys = Sys(db: Store.Db, sessions: map<nat, Session>, handed: seq<Handing>)

  // ---- What a history says -------------------------------------------------

  function RequestedIds(events: seq<Event>): set<string> {
    if events == [] then {}
    else
      var last := events[|events| - 1].body;
      RequestedIds(events[..|events| - 1]) + if last.ControlRequested? then {last.controlId} else {}
  }

  function SettledIds(events: seq<Event>): set<string> {
    if events == [] then {}
    else
      var last := events[|events| - 1].body;
      SettledIds(events[..|events| - 1]) + if last.ControlSettled? then {last.settledId} else {}
  }

  /** The request at position i was made for this attempt and has no settlement. */
  predicate PendingAt(events: seq<Event>, attempt: nat, i: nat)
    requires i < |events|
  {
    var body := events[i].body;
    body.ControlRequested? && body.controlAttempt == attempt && body.controlId !in SettledIds(events)
  }

  predicate NonePending(events: seq<Event>, attempt: nat) {
    forall i: nat | i < |events| :: !PendingAt(events, attempt, i)
  }

  /** The request that a history holds under a control id. */
  predicate RequestedAs(events: seq<Event>, request: Request) {
    exists i | 0 <= i < |events| ::
        events[i].body == ControlRequested(request.controlId, request.attempt, request.content)
  }

  predicate InFlight(queue: seq<Work>, controlId: string) {
    exists i | 0 <= i < |queue| :: queue[i].request.controlId == controlId
  }

  // ---- Moves ---------------------------------------------------------------

  datatype Move =
    | Others(op: Store.Op)
    | OpenAttempt(sid: nat, jobId: Id, attempt: nat)
    | RecoverAttempt(sid: nat, jobId: Id)
    | Call(sid: nat, request: Request)
    | PersistRequest(sid: nat, lease: Option<Lease>, now: Time)
    | Decide(sid: nat, supported: bool, ready: bool)
    | HandlerReturns(sid: nat, result: ControlOutcome)
    | PersistSettlement(sid: nat, lease: Option<Lease>, now: Time)
    | PersistLost(sid: nat, lease: Option<Lease>, now: Time)
    | Close(sid: nat)
    | Sweep(sid: nat, index: nat, lease: Option<Lease>, now: Time)
    | FinishSweep(sid: nat)
    | NextAttempt(sid: nat, attempt: nat)
    | Write(sid: nat, job: Record, lease: Option<Lease>, now: Time)
    | Crash(sid: nat)

  function Append(job: Record, body: EventBody, at: Time): Record {
    job.(events := job.events + [Event(|job.events| + 1, at, body)])
  }

  /** No event from position `from` on is about a control. */
  predicate NoControl(events: seq<Event>, from: nat) {
    forall i | from <= i < |events| :: !events[i].body.ControlRequested? && !events[i].body.ControlSettled?
  }

  /** What other store calls (admissions, leases, capacity, other writers) do to the event lists. */
  predicate WritesNoControl(before: map<Id, Store.Row>, after: map<Id, Store.Row>) {
    forall id | id in after ::
      NoControl(after[id].record.events, if id in before then |before[id].record.events| else 0)
  }

  /** The next state; a move that is not possible in a state leaves it as it is. */
  function Do(sys: Sys, move: Move): Sys {
    match move
    case Others(op) => DoOthers(sys, Store.Step(sys.db, op).0)
    case OpenAttempt(sid, jobId, attempt) => DoOpen(sys, sid, jobId, attempt)
    case RecoverAttempt(sid, jobId) => DoRecover(sys, sid, jobId)
    case Call(sid, request) => DoCall(sys, sid, request)
    case PersistRequest(sid, lease, now) => DoPersistRequest(sys, sid, lease, now)
    case Decide(sid, supported, ready) => DoDecide(sys, sid, supported, ready)
    case HandlerReturns(sid, result) => DoHandlerReturns(sys, sid, result)
    case PersistSettlement(sid, lease, now) => DoPersistSettlement(sys, sid, lease, now)
    case PersistLost(sid, lease, now) => DoPersistLost(sys, sid, lease, now)
    case Close(sid) => DoClose(sys, sid)
    case Sweep(sid, index, lease, now) => DoSweep(sys, sid, index, lease, now)
    case FinishSweep(sid) => DoFinishSweep(sys, sid)
    case NextAttempt(sid, attempt) => DoNextAttempt(sys, sid, attempt)
    case Write(sid, job, lease, now) => DoWrite(sys, sid, job, lease, now)
    case Crash(sid) => sys.(sessions := sys.sessions - {sid})
  }

  function Stay(sys: Sys, sid: nat, session: Session): Sys {
    sys.(sessions := sys.sessions[sid := session])
  }

  /** `#emit`: the next state if the save commits; a failed save takes the event back and goes to `failed`. */
  function Emit(sys: Sys, sid: nat, job: Record, lease: Option<Lease>, now: Time, saved: Session, failed: Session): Sys
    requires sid in sys.sessions
  {
    match Store.Save(sys.db, job, Some(sys.sessions[sid].revision), lease, now)
    case Ok(db) => Sys(db, sys.sessions[sid := saved], sys.handed)
    case Err(_) => Stay(sys, sid, failed)
  }

  function DoOthers(sys: Sys, after: Store.Db): Sys {
    if WritesNoControl(sys.db.rows, after.rows) then sys.(db := after) else sys
  }

  /** An activation starts an attempt on the current record, as after a recovery or an admission. */
  function DoOpen(sys: Sys, sid: nat, jobId: Id, attempt: nat): Sys {
    if sid in sys.sessions || jobId !in sys.db.rows then sys
    else
      var row := sys.db.rows[jobId];
      Stay(sys, sid, Session(row.record, row.revision, attempt, Open, [], Begin))
  }

  /** Recovery of a running Job first settles what the lost attempt left pending. */
  function DoRecover(sys: Sys, sid: nat, jobId: Id): Sys {
    if sid in sys.sessions || jobId !in sys.db.rows || !sys.db.rows[jobId].record.body.JobBody? then sys
    else
      var row := sys.db.rows[jobId];
      Stay(sys, sid, Session(row.record, row.revision, row.record.body.attempt, Closing, [], Begin))
  }

  /** `control`: a repeated, settled, unsettled or new request of a caller. */
  function DoCall(sys: Sys, sid: nat, request: Request): Sys {
    if sid !in sys.sessions || InFlight(sys.sessions[sid].queue, request.controlId) then sys
    else
      var s := sys.sessions[sid];
      if request.controlId in RequestedIds(s.job.events) then
        if RequestedAs(s.job.events, request) && request.controlId !in SettledIds(s.job.events)
           && s.life == Open && s.attempt == request.attempt
        then Stay(sys, sid, s.(queue := s.queue + [SettleUntracked(request)]))
        else sys
      else if s.life == Open then Stay(sys, sid, s.(queue := s.queue + [Deliver(request)]))
      else sys
  }

  /** The first entry of the queue is done, whatever came of it. */
  function Dequeue(s: Session): Session
    requires s.queue != []
  {
    s.(queue := s.queue[1..], stage := Begin)
  }

  function DoPersistRequest(sys: Sys, sid: nat, lease: Option<Lease>, now: Time): Sys {
    if sid !in sys.sessions || sys.sessions[sid].queue == [] || sys.sessions[sid].stage != Begin
       || !sys.sessions[sid].queue[0].Deliver?
    then sys
    else
      var s := sys.sessions[sid];
      var r := s.queue[0].request;
      var job := Append(s.job, ControlRequested(r.controlId, r.attempt, r.content), now);
      Emit(sys, sid, job, lease, now, s.(job := job, revision := s.revision + 1, stage := AfterRequest), Dequeue(s))
  }

  /** Stale and unsupported requests and a channel that is not ready never reach the handler. */
  function DoDecide(sys: Sys, sid: nat, supported: bool, ready: bool): Sys {
    if sid !in sys.sessions || sys.sessions[sid].queue == [] || sys.sessions[sid].stage != AfterRequest then sys
    else
      var s := sys.sessions[sid];
      var r := s.queue[0].request;
      if r.attempt != s.attempt || s.life != Open || !supported || !ready then
        Stay(sys, sid, s.(stage := BeforeSettlement(Rejected, false)))
      else
        Stay(sys, sid, s.(stage := AwaitHandler)).(handed := sys.handed + [Handing(s.job.id, r.controlId, s.attempt)])
  }

  /** `result` is Lost when the handler threw or timed out. */
  function DoHandlerReturns(sys: Sys, sid: nat, result: ControlOutcome): Sys {
    if sid !in sys.sessions || sys.sessions[sid].stage != AwaitHandler then sys
    else Stay(sys, sid, sys.sessions[sid].(stage := BeforeSettlement(result, true)))
  }

  /** Appends the settlement of the first entry. */
  function SettleFirst(s: Session, outcome: ControlOutcome, now: Time): Record
    requires s.queue != []
  {
    Append(s.job, ControlSettled(s.queue[0].request.controlId, outcome), now)
  }

  function DoPersistSettlement(sys: Sys, sid: nat, lease: Option<Lease>, now: Time): Sys {
    if sid !in sys.sessions || sys.sessions[sid].queue == [] || !sys.sessions[sid].stage.BeforeSettlement? then sys
    else
      var s := sys.sessions[sid];
      var job := SettleFirst(s, s.stage.outcome, now);
      var failed := if s.stage.delivered then s.(stage := AfterFailure) else Dequeue(s);
      Emit(sys, sid, job, lease, now, Dequeue(s).(job := job, revision := s.revision + 1), failed)
  }

  /** `job.control.lost`: after an unpersisted settlement, or for an earlier call's unsettled request. */
  function DoPersistLost(sys: Sys, sid: nat, lease: Option<Lease>, now: Time): Sys {
    if sid !in sys.sessions || sys.sessions[sid].queue == [] then sys
    else if !(sys.sessions[sid].stage == AfterFailure
              || (sys.sessions[sid].stage == Begin && sys.sessions[sid].queue[0].SettleUntracked?)) then sys
    else
      var s := sys.sessions[sid];
      var job := SettleFirst(s, Lost, now);
      Emit(sys, sid, job, lease, now, Dequeue(s).(job := job, revision := s.revision + 1), Dequeue(s))
  }

  /** The attempt is over: the channel closes and no new control is queued. */
  function DoClose(sys: Sys, sid: nat): Sys {
    if sid !in sys.sessions || sys.sessions[sid].life != Open then sys
    else Stay(sys, sid, sys.sessions[sid].(life := Closing))
  }

  /** `#markPendingControlsLost` settles the pending requests of the attempt, in order, once the queue is drained. */
  function DoSweep(sys: Sys, sid: nat, index: nat, lease: Option<Lease>, now: Time): Sys {
    if sid !in sys.sessions || sys.sessions[sid].life != Closing || sys.sessions[sid].queue != [] then sys
    else
      var s := sys.sessions[sid];
      if index < |s.job.events| && PendingAt(s.job.events, s.attempt, index)
         && (forall i: nat | i < index :: !PendingAt(s.job.events, s.attempt, i))
      then
        var job := Append(s.job, ControlSettled(s.job.events[index].body.controlId, Lost), now);
        Emit(sys, sid, job, lease, now, s.(job := job, revision := s.revision + 1), s.(life := SweepFailed))
      else sys
  }

  function DoFinishSweep(sys: Sys, sid: nat): Sys {
    if sid !in sys.sessions || sys.sessions[sid].life != Closing || sys.sessions[sid].queue != [] then sys
    else
      var s := sys.sessions[sid];
      if NonePending(s.job.events, s.attempt) then Stay(sys, sid, s.(life := Swept)) else sys
  }

  /** A retry, or the attempt that follows a recovery, in the same activation. */
  function DoNextAttempt(sys: Sys, sid: nat, attempt: nat): Sys {
    if sid !in sys.sessions || sys.sessions[sid].life != Swept then sys
    else Stay(sys, sid, sys.sessions[sid].(attempt := attempt, life := Open))
  }

  /** Any other save of the activation's copy: it adds no control event. */
  function DoWrite(sys: Sys, sid: nat, job: Record, lease: Option<Lease>, now: Time): Sys {
    if sid !in sys.sessions then sys
    else
      var s := sys.sessions[sid];
      if job.id == s.job.id && s.job.events <= job.events && NoControl(job.events, |s.job.events|)
          then Emit(sys, sid, job, lease, now, s.(job := job, revision := s.revision + 1), s)
      else sys
  }

  /** The state after a sequence of moves. */
  function After(sys: Sys, moves: seq<Move>): Sys {
    if moves == [] then sys else Do(After(sys, moves[..|moves| - 1]), moves[|moves| - 1])
  }
}
