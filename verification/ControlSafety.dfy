/**
 * A worker control reaches the adapter's handler at most once in a Job's life, after its request was
 * persisted, and a persisted history settles it at most once; a finished sweep leaves none pending.
 */
module ControlSafety {
  import opened Prelude
  import opened Records
  import opened ControlProtocol
  import Store = DurableStore
  import Inv = StoreInvariant

  type Rows = map<Id, Store.Row>

  // ---- Histories -----------------------------------------------------------

  /** Each control id is requested at most once, and settled at most once, after its request. */
  predicate LogOk(events: seq<Event>) {
    events == [] ||
    (var rest, body := events[..|events| - 1], events[|events| - 1].body;
     && LogOk(rest)
     && (body.ControlRequested? ==> body.controlId !in RequestedIds(rest))
     && (body.ControlSettled? ==> body.settledId in RequestedIds(rest) && body.settledId !in SettledIds(rest)))
  }

  lemma {:induction false} Appended(events: seq<Event>, e: Event)
    ensures RequestedIds(events + [e]) == RequestedIds(events) + if e.body.ControlRequested? then {e.body.controlId}
      else {}
    ensures SettledIds(events + [e]) == SettledIds(events) + if e.body.ControlSettled? then {e.body.settledId} else {}
    ensures LogOk(events + [e]) <==>
      && LogOk(events)
      && (e.body.ControlRequested? ==> e.body.controlId !in RequestedIds(events))
      && (e.body.ControlSettled? ==>
           e.body.settledId in RequestedIds(events) && e.body.settledId !in SettledIds(events))
  {
    assert (events + [e])[..|events|] == events;
  }

  /** Events that are not about controls change nothing of this. */
  lemma {:induction false} Extended(events: seq<Event>, later: seq<Event>)
    requires events <= later && NoControl(later, |events|)
    ensures RequestedIds(later) == RequestedIds(events) && SettledIds(later) == SettledIds(events)
    ensures LogOk(later) <==> LogOk(events)
  {
    if events != later {
      Extended(events, later[..|later| - 1]);
    }
  }

  lemma {:induction false} IdsGrow(events: seq<Event>, later: seq<Event>)
    requires events <= later
    ensures RequestedIds(events) <= RequestedIds(later) && SettledIds(events) <= SettledIds(later)
  {
    if events != later {
      IdsGrow(events, later[..|later| - 1]);
    }
  }

  lemma {:induction false} RequestedAt(events: seq<Event>, i: nat)
    requires i < |events| && events[i].body.ControlRequested?
    ensures events[i].body.controlId in RequestedIds(events)
  {
    if i < |events| - 1 {
      RequestedAt(events[..|events| - 1], i);
    }
  }

  /** The history requests the control for this attempt. */
  predicate RequestedFor(events: seq<Event>, controlId: string, attempt: nat) {
    exists i | 0 <= i < |events| ::
      events[i].body.ControlRequested? && events[i].body.controlId == controlId
          && events[i].body.controlAttempt == attempt
  }

  lemma {:induction false} RequestedForStays(events: seq<Event>, later: seq<Event>, controlId: string, attempt: nat)
    requires events <= later && RequestedFor(events, controlId, attempt)
    ensures RequestedFor(later, controlId, attempt)
  {
    var i :| 0 <= i < |events| && events[i].body.ControlRequested? && events[i].body.controlId == controlId
             && events[i].body.controlAttempt == attempt;
    assert later[i] == events[i];
  }

  // ---- The invariant -------------------------------------------------------

  /** What a queue entry relies on in the activation's copy of the history. */
  predicate EntryOk(events: seq<Event>, work: Work, begun: bool) {
    var id := work.request.controlId;
    if begun then work.Deliver? && id in RequestedIds(events) && id !in SettledIds(events)
    else if work.Deliver? then id !in RequestedIds(events)
    else id in RequestedIds(events) && id !in SettledIds(events)
  }

  predicate QueueOk(events: seq<Event>, queue: seq<Work>, stage: Stage) {
    && (queue == [] ==> stage == Begin)
    && (forall i | 0 <= i < |queue| :: EntryOk(events, queue[i], i == 0 && stage != Begin))
    && (forall i, j | 0 <= i < j < |queue| :: queue[i].request.controlId != queue[j].request.controlId)
  }

  /** A request that may be handed over is persisted for the attempt it names. */
  predicate FirstRequested(events: seq<Event>, queue: seq<Work>, stage: Stage) {
    stage == AfterRequest && queue != [] ==> RequestedFor(events, queue[0].request.controlId, queue[0].request.attempt)
  }

  predicate MemoryOk(s: Session) {
    && LogOk(s.job.events)
    && QueueOk(s.job.events, s.queue, s.stage)
    && FirstRequested(s.job.events, s.queue, s.stage)
    && (s.life == Swept ==> s.queue == [] && NonePending(s.job.events, s.attempt))
  }

  predicate Fresh(rows: Rows, s: Session) {
    s.job.id in rows && s.revision == rows[s.job.id].revision
  }

  ghost predicate SessionOk(rows: Rows, s: Session) {
    && s.job.id in rows
    && s.revision <= rows[s.job.id].revision
    && s.job.events <= rows[s.job.id].record.events
    && (Fresh(rows, s) ==> s.job.events == rows[s.job.id].record.events)
    && MemoryOk(s)
  }

  /** The control id an activation may hand to the handler without persisting anything more. */
  function Token(s: Session): Option<string> {
    if s.stage == AfterRequest && s.queue != [] then Some(s.queue[0].request.controlId) else None
  }

  ghost predicate Backed(rows: Rows, id: Id, controlId: string) {
    id in rows && controlId in RequestedIds(rows[id].record.events)
  }

  /** No handler ever got this control. */
  predicate Unhanded(handed: seq<Handing>, id: Id, controlId: string) {
    forall i | 0 <= i < |handed| :: handed[i].jobId != id || handed[i].controlId != controlId
  }

  ghost predicate Free(sessions: map<nat, Session>, handed: seq<Handing>, sid: nat, id: Id, controlId: string) {
    && Unhanded(handed, id, controlId)
    && forall other | other in sessions && other != sid && sessions[other].job.id == id ::
         Token(sessions[other]) != Some(controlId)
  }

  ghost predicate RowsOk(rows: Rows) {
    forall id | id in rows :: LogOk(rows[id].record.events)
  }

  ghost predicate SessionsOk(rows: Rows, sessions: map<nat, Session>) {
    forall sid | sid in sessions :: SessionOk(rows, sessions[sid])
  }

  ghost predicate HandedOk(rows: Rows, handed: seq<Handing>) {
    && (forall i | 0 <= i < |handed| ::
          && Backed(rows, handed[i].jobId, handed[i].controlId)
          && RequestedFor(rows[handed[i].jobId].record.events, handed[i].controlId, handed[i].attempt))
    && (forall i, j | 0 <= i < j < |handed| ::
         handed[i].jobId != handed[j].jobId || handed[i].controlId != handed[j].controlId)
  }

  ghost predicate TokensOk(rows: Rows, sessions: map<nat, Session>, handed: seq<Handing>) {
    forall sid | sid in sessions && Token(sessions[sid]).Some? ::
      && Backed(rows, sessions[sid].job.id, Token(sessions[sid]).value)
      && Free(sessions, handed, sid, sessions[sid].job.id, Token(sessions[sid]).value)
  }

  ghost predicate Safe(sys: Sys) {
    && Inv.ValidDb(sys.db)
    && RowsOk(sys.db.rows)
    && SessionsOk(sys.db.rows, sys.sessions)
    && HandedOk(sys.db.rows, sys.handed)
    && TokensOk(sys.db.rows, sys.sessions, sys.handed)
  }

  // ---- Rows over time ------------------------------------------------------

  lemma {:induction false} BackedStays(a: Rows, b: Rows, id: Id, controlId: string)
    requires Inv.RowsLater(a, b) && Backed(a, id, controlId)
    ensures Backed(b, id, controlId)
  {
    hide RequestedIds, SettledIds;
    IdsGrow(a[id].record.events, b[id].record.events);
  }

  lemma {:induction false} HandingStays(a: Rows, b: Rows, h: Handing)
    requires Inv.RowsLater(a, b) && Backed(a, h.jobId, h.controlId)
    requires RequestedFor(a[h.jobId].record.events, h.controlId, h.attempt)
    ensures Backed(b, h.jobId, h.controlId) && RequestedFor(b[h.jobId].record.events, h.controlId, h.attempt)
  {
    hide RequestedIds, RequestedFor;
    BackedStays(a, b, h.jobId, h.controlId);
    RequestedForStays(a[h.jobId].record.events, b[h.jobId].record.events, h.controlId, h.attempt);
  }

  lemma {:induction false} SessionsElapse(a: Rows, b: Rows, sessions: map<nat, Session>)
    requires Inv.RowsLater(a, b) && SessionsOk(a, sessions)
    ensures SessionsOk(b, sessions)
  {
    hide MemoryOk;
    forall sid | sid in sessions
      ensures SessionOk(b, sessions[sid])
    {
      assert SessionOk(a, sessions[sid]);
      assert sessions[sid].job.events <= a[sessions[sid].job.id].record.events <= b[sessions[sid].job.id].record.events;
    }
  }

  lemma {:induction false} TokensElapse(a: Rows, b: Rows, sessions: map<nat, Session>, handed: seq<Handing>)
    requires Inv.RowsLater(a, b) && TokensOk(a, sessions, handed) && HandedOk(a, handed)
    ensures TokensOk(b, sessions, handed) && HandedOk(b, handed)
  {
    hide RequestedIds, RequestedFor, Free, Token, Inv.RowsLater;
    forall sid | sid in sessions && Token(sessions[sid]).Some?
      ensures Backed(b, sessions[sid].job.id, Token(sessions[sid]).value)
    {
      BackedStays(a, b, sessions[sid].job.id, Token(sessions[sid]).value);
    }
    forall i | 0 <= i < |handed|
      ensures Backed(b, handed[i].jobId, handed[i].controlId)
        && RequestedFor(b[handed[i].jobId].record.events, handed[i].controlId, handed[i].attempt)
    {
      HandingStays(a, b, handed[i]);
    }
  }

  lemma {:induction false} StoreMoves(sys: Sys, db: Store.Db)
    requires Safe(sys) && Inv.ValidDb(db) && Inv.RowsLater(sys.db.rows, db.rows) && RowsOk(db.rows)
    ensures Safe(sys.(db := db))
  {
    SessionsElapse(sys.db.rows, db.rows, sys.sessions);
    TokensElapse(sys.db.rows, db.rows, sys.sessions, sys.handed);
    hide RowsOk, SessionsOk, HandedOk, TokensOk, Inv.ValidDb, Inv.RowsLater;
  }

  // ---- One session ---------------------------------------------------------

  lemma {:induction false} SessionMoves(sys: Sys, sid: nat, next: Session)
    requires Safe(sys) && SessionOk(sys.db.rows, next)
    requires Token(next).Some? ==>
      && Backed(sys.db.rows, next.job.id, Token(next).value)
      && Free(sys.sessions, sys.handed, sid, next.job.id, Token(next).value)
    ensures Safe(Stay(sys, sid, next))
  {
    hide Inv.ValidDb, RowsOk, HandedOk, SessionOk, Backed, Token;
    var after := sys.sessions[sid := next];
    forall other | other in after && Token(after[other]).Some?
      ensures Free(after, sys.handed, other, after[other].job.id, Token(after[other]).value)
    {
      if other != sid {
        assert Free(sys.sessions, sys.handed, other, after[other].job.id, Token(after[other]).value);
      }
    }
  }

  lemma {:induction false} Memory(sys: Sys, sid: nat)
    requires Safe(sys) && sid in sys.sessions
    ensures MemoryOk(sys.sessions[sid]) && SessionOk(sys.db.rows, sys.sessions[sid])
  {
    hide Inv.ValidDb, RowsOk, HandedOk, TokensOk, MemoryOk;
  }

  lemma {:induction false} TokenIsFree(sys: Sys, sid: nat)
    requires Safe(sys) && sid in sys.sessions && Token(sys.sessions[sid]).Some?
    ensures Backed(sys.db.rows, sys.sessions[sid].job.id, Token(sys.sessions[sid]).value)
    ensures Free(sys.sessions, sys.handed, sid, sys.sessions[sid].job.id, Token(sys.sessions[sid]).value)
  {
    hide Inv.ValidDb, RowsOk, SessionsOk, HandedOk, Token, Backed, Free;
  }

  /** A change of queue, stage or life in memory alone; it may keep the session's token. */
  lemma {:induction false} MemoryMoves(sys: Sys, sid: nat, next: Session)
    requires Safe(sys) && sid in sys.sessions
    requires next.job == sys.sessions[sid].job && next.revision == sys.sessions[sid].revision
    requires MemoryOk(next)
    requires Token(next) == None || Token(next) == Token(sys.sessions[sid])
    ensures Safe(Stay(sys, sid, next))
  {
    hide Safe, MemoryOk, Token, Backed, Free;
    Memory(sys, sid);
    if Token(next).Some? {
      TokenIsFree(sys, sid);
    }
    SessionMoves(sys, sid, next);
  }

  // ---- Saving --------------------------------------------------------------

  ghost predicate CommitsTo(sys: Sys, s: Session, job: Record, db: Store.Db) {
    && Inv.ValidDb(db)
    && Fresh(sys.db.rows, s) && s.job.id == job.id
    && db.rows == sys.db.rows[job.id := Store.Row(s.revision + 1, |job.events|, job)]
    && Inv.RowsLater(sys.db.rows, db.rows)
  }

  lemma {:induction false} SaveWrites(sys: Sys, s: Session, job: Record, lease: Option<Lease>, now: Time)
    requires Inv.ValidDb(sys.db) && job.id == s.job.id
    requires Store.Save(sys.db, job, Some(s.revision), lease, now).Ok?
    ensures CommitsTo(sys, s, job, Store.Save(sys.db, job, Some(s.revision), lease, now).value)
  {
    hide Store.LeaseCurrent, Store.InsertEvents, Inv.ValidDb;
    Inv.SaveKeeps(sys.db, job, Some(s.revision), lease, now);
  }

  /** The new memory of a session whose save commits: it holds what it wrote. */
  predicate Saved(s: Session, job: Record, next: Session) {
    && job.id == s.job.id && next.job == job && next.revision == s.revision + 1
    && MemoryOk(next)
    && (Token(next).None? || (Token(next).value !in RequestedIds(s.job.events)
         && Token(next).value in RequestedIds(job.events))
        || Token(next) == Token(s))
  }

  lemma {:induction false} CommitMovesStore(sys: Sys, sid: nat, job: Record, db: Store.Db)
    requires Safe(sys) && sid in sys.sessions && CommitsTo(sys, sys.sessions[sid], job, db) && LogOk(job.events)
    ensures Safe(sys.(db := db))
  {
    hide Inv.ValidDb, HandedOk, TokensOk, SessionsOk, LogOk, Inv.RowsLater;
    StoreMoves(sys, db);
  }

  /** A control id that the persisted history does not request is held and handed by nobody. */
  lemma {:induction false} UnrequestedIsFree(sys: Sys, sid: nat, id: Id, controlId: string)
    requires Safe(sys) && id in sys.db.rows && controlId !in RequestedIds(sys.db.rows[id].record.events)
    ensures Free(sys.sessions, sys.handed, sid, id, controlId)
  {
    hide Inv.ValidDb, RowsOk, SessionsOk, RequestedIds, Token;
  }

  lemma {:induction false} SavedToken(sys: Sys, sid: nat, job: Record, next: Session, db: Store.Db)
    requires Safe(sys) && sid in sys.sessions && Saved(sys.sessions[sid], job, next)
    requires CommitsTo(sys, sys.sessions[sid], job, db) && Token(next).Some?
    ensures Backed(db.rows, job.id, Token(next).value)
    ensures Free(sys.sessions, sys.handed, sid, job.id, Token(next).value)
  {
    hide Safe, MemoryOk, Inv.ValidDb, RequestedIds, Token, Inv.RowsLater, Free;
    var s := sys.sessions[sid];
    Memory(sys, sid);
    if Token(next) == Token(s) {
      TokenIsFree(sys, sid);
      BackedStays(sys.db.rows, db.rows, job.id, Token(next).value);
    } else {
      UnrequestedIsFree(sys, sid, job.id, Token(next).value);
    }
  }

  lemma {:induction false} CommitSafe(sys: Sys, sid: nat, job: Record, next: Session, db: Store.Db)
    requires Safe(sys) && sid in sys.sessions && Saved(sys.sessions[sid], job, next)
    requires CommitsTo(sys, sys.sessions[sid], job, db)
    ensures Safe(Sys(db, sys.sessions[sid := next], sys.handed))
  {
    hide Safe, QueueOk, NonePending, LogOk, Inv.ValidDb, RequestedIds, Token, Inv.RowsLater, Free, Backed;
    CommitMovesStore(sys, sid, job, db);
    if Token(next).Some? {
      SavedToken(sys, sid, job, next, db);
    }
    SessionMoves(sys.(db := db), sid, next);
  }

  lemma {:induction false} EmitSafe(
      sys: Sys, sid: nat, job: Record, lease: Option<Lease>, now: Time, saved: Session, failed: Session)
    requires Safe(sys) && sid in sys.sessions && Saved(sys.sessions[sid], job, saved)
    requires Safe(Stay(sys, sid, failed))
    ensures Safe(Emit(sys, sid, job, lease, now, saved, failed))
  {
    hide Store.Save, Inv.ValidDb, RowsOk, SessionsOk, HandedOk, TokensOk, MemoryOk, Token, RequestedIds, CommitsTo;
    var result := Store.Save(sys.db, job, Some(sys.sessions[sid].revision), lease, now);
    if result.Ok? {
      SaveWrites(sys, sys.sessions[sid], job, lease, now);
      CommitSafe(sys, sid, job, saved, result.value);
    }
  }

  // ---- Queues --------------------------------------------------------------

  lemma {:induction false} SettledWereRequested(events: seq<Event>)
    requires LogOk(events)
    ensures SettledIds(events) <= RequestedIds(events)
  {
    if events != [] {
      SettledWereRequested(events[..|events| - 1]);
    }
  }

  lemma {:induction false} DequeuedOk(events: seq<Event>, queue: seq<Work>, stage: Stage)
    requires QueueOk(events, queue, stage) && queue != []
    ensures QueueOk(events, queue[1..], Begin)
  {
    hide RequestedIds, SettledIds;
    forall i | 0 <= i < |queue| - 1
      ensures EntryOk(events, queue[1..][i], false)
    {
      assert EntryOk(events, queue[i + 1], false);
    }
  }

  lemma {:induction false} EnqueuedOk(events: seq<Event>, queue: seq<Work>, stage: Stage, work: Work)
    requires QueueOk(events, queue, stage) && EntryOk(events, work, false)
    requires !InFlight(queue, work.request.controlId)
    ensures QueueOk(events, queue + [work], stage)
  {
    hide RequestedIds, SettledIds, EntryOk;
    forall i | 0 <= i < |queue|
      ensures EntryOk(events, (queue + [work])[i], i == 0 && stage != Begin)
    {
      assert EntryOk(events, queue[i], i == 0 && stage != Begin);
    }
  }

  /** An event about the first entry's control id leaves the other entries as they are. */
  lemma {:induction false} OthersStay(events: seq<Event>, e: Event, queue: seq<Work>, stage: Stage, i: nat)
    requires QueueOk(events, queue, stage) && 1 <= i < |queue|
    requires e.body.ControlRequested? ==> e.body.controlId == queue[0].request.controlId
    requires e.body.ControlSettled? ==> e.body.settledId == queue[0].request.controlId
    ensures EntryOk(events + [e], queue[i], false)
  {
    hide RequestedIds, SettledIds, LogOk;
    Appended(events, e);
    assert EntryOk(events, queue[i], false);
  }

  // ---- Moves ---------------------------------------------------------------

  lemma {:induction false} OthersSafe(sys: Sys, op: Store.Op)
    requires Safe(sys)
    ensures Safe(DoOthers(sys, Store.Step(sys.db, op).0))
  {
    hide Store.Step, LogOk, Inv.EventTableValid, SessionsOk, HandedOk, TokensOk;
    var db := Store.Step(sys.db, op).0;
    Inv.StepKeeps(sys.db, op);
    if WritesNoControl(sys.db.rows, db.rows) {
      forall id | id in db.rows
        ensures LogOk(db.rows[id].record.events)
      {
        if id in sys.db.rows {
          Extended(sys.db.rows[id].record.events, db.rows[id].record.events);
        } else {
          Extended([], db.rows[id].record.events);
          assert LogOk([]) by { EmptyLog(); }
        }
      }
      StoreMoves(sys, db);
    }
  }

  lemma {:induction false} EmptyLog()
    ensures LogOk([])
  {
  }

  lemma {:induction false} OpenSafe(sys: Sys, sid: nat, jobId: Id, attempt: nat)
    requires Safe(sys)
    ensures Safe(DoOpen(sys, sid, jobId, attempt)) && Safe(DoRecover(sys, sid, jobId))
  {
    hide Safe, LogOk;
    if sid !in sys.sessions && jobId in sys.db.rows {
      RowInOrder(sys, jobId);
      var row := sys.db.rows[jobId];
      SessionMoves(sys, sid, Session(row.record, row.revision, attempt, Open, [], Begin));
      if row.record.body.JobBody? {
        SessionMoves(sys, sid, Session(row.record, row.revision, row.record.body.attempt, Closing, [], Begin));
      }
    }
  }

  lemma {:induction false} RowInOrder(sys: Sys, id: Id)
    requires Safe(sys) && id in sys.db.rows
    ensures LogOk(sys.db.rows[id].record.events) && sys.db.rows[id].record.id == id
  {
    hide SessionsOk, HandedOk, TokensOk, LogOk, Inv.EventTableValid;
  }

  lemma {:induction false} CallSafe(sys: Sys, sid: nat, request: Request)
    requires Safe(sys)
    ensures Safe(DoCall(sys, sid, request))
  {
    hide Safe, SessionOk, LogOk, QueueOk, InFlight, RequestedAs, RequestedIds, SettledIds, NonePending;
    if sid in sys.sessions && sys.sessions[sid].life == Open && !InFlight(sys.sessions[sid].queue, request.controlId) {
      var s := sys.sessions[sid];
      Memory(sys, sid);
      var work := if request.controlId in RequestedIds(s.job.events) then SettleUntracked(request)
          else Deliver(request);
      if EntryOk(s.job.events, work, false) {
        EnqueuedOk(s.job.events, s.queue, s.stage, work);
        StartedQueue(s.job.events, s.queue, s.stage);
        MemoryMoves(sys, sid, s.(queue := s.queue + [work]));
      }
    }
  }

  lemma {:induction false} StartedQueue(events: seq<Event>, queue: seq<Work>, stage: Stage)
    requires QueueOk(events, queue, stage)
    ensures queue == [] ==> stage == Begin
    ensures stage != Begin ==> queue != [] && EntryOk(events, queue[0], true)
    ensures stage == Begin && queue != [] ==> EntryOk(events, queue[0], false)
  {
    hide EntryOk;
  }

  lemma {:induction false} RequestSafe(sys: Sys, sid: nat, lease: Option<Lease>, now: Time)
    requires Safe(sys)
    ensures Safe(DoPersistRequest(sys, sid, lease, now))
  {
    hide Safe, SessionOk, LogOk, RequestedIds, SettledIds, NonePending, Emit;
    if sid in sys.sessions && sys.sessions[sid].queue != [] && sys.sessions[sid].stage == Begin
        && sys.sessions[sid].queue[0].Deliver? {
      var s := sys.sessions[sid];
      Memory(sys, sid);
      var r := s.queue[0].request;
      var e := Event(|s.job.events| + 1, now, ControlRequested(r.controlId, r.attempt, r.content));
      Appended(s.job.events, e);
      SettledWereRequested(s.job.events);
      forall i | 1 <= i < |s.queue|
        ensures EntryOk(s.job.events + [e], s.queue[i], false)
      {
        OthersStay(s.job.events, e, s.queue, s.stage, i);
      }
      DequeuedOk(s.job.events, s.queue, s.stage);
      MemoryMoves(sys, sid, Dequeue(s));
      var job := Append(s.job, e.body, now);
      assert job.events[|s.job.events|] == e;
      EmitSafe(sys, sid, job, lease, now, s.(job := job, revision := s.revision + 1, stage := AfterRequest),
          Dequeue(s));
    }
  }

  /** A control that nobody else may hand over is added to the log of handler calls. */
  lemma {:induction false} HandedAdded(sys: Sys, h: Handing)
    requires Safe(sys) && Backed(sys.db.rows, h.jobId, h.controlId) && Unhanded(sys.handed, h.jobId, h.controlId)
    requires RequestedFor(sys.db.rows[h.jobId].record.events, h.controlId, h.attempt)
    requires forall sid | sid in sys.sessions && sys.sessions[sid].job.id == h.jobId ::
      Token(sys.sessions[sid]) != Some(h.controlId)
    ensures Safe(sys.(handed := sys.handed + [h]))
  {
    hide Inv.ValidDb, RowsOk, SessionsOk, RequestedIds, RequestedFor, Token;
    var handed := sys.handed + [h];
    forall other | other in sys.sessions && Token(sys.sessions[other]).Some?
      ensures Free(sys.sessions, handed, other, sys.sessions[other].job.id, Token(sys.sessions[other]).value)
    {
      assert Free(sys.sessions, sys.handed, other, sys.sessions[other].job.id, Token(sys.sessions[other]).value);
    }
  }

  lemma {:induction false} DecideSafe(sys: Sys, sid: nat, supported: bool, ready: bool)
    requires Safe(sys)
    ensures Safe(DoDecide(sys, sid, supported, ready))
  {
    hide Safe, LogOk, RequestedIds, SettledIds, NonePending, RequestedFor, QueueOk, Unhanded;
    if sid in sys.sessions && sys.sessions[sid].queue != [] && sys.sessions[sid].stage == AfterRequest {
      var s := sys.sessions[sid];
      var r := s.queue[0].request;
      Memory(sys, sid);
      StageMoves(s.job.events, s.queue, s.stage);
      MemoryMoves(sys, sid, s.(stage := BeforeSettlement(Rejected, false)));
      MemoryMoves(sys, sid, s.(stage := AwaitHandler));
      TokenIsFree(sys, sid);
      RequestedForStays(s.job.events, sys.db.rows[s.job.id].record.events, r.controlId, r.attempt);
      HandedAdded(Stay(sys, sid, s.(stage := AwaitHandler)), Handing(s.job.id, r.controlId, r.attempt));
    }
  }

  /** A begun first entry stays in order through its stages. */
  lemma {:induction false} StageMoves(events: seq<Event>, queue: seq<Work>, stage: Stage)
    requires QueueOk(events, queue, stage) && stage != Begin
    ensures forall later: Stage | later != Begin :: QueueOk(events, queue, later)
  {
    hide RequestedIds, SettledIds, EntryOk;
  }

  lemma {:induction false} HandlerReturnsSafe(sys: Sys, sid: nat, result: ControlOutcome)
    requires Safe(sys)
    ensures Safe(DoHandlerReturns(sys, sid, result))
  {
    hide Safe, SessionOk, LogOk, RequestedIds, SettledIds, NonePending;
    if sid in sys.sessions && sys.sessions[sid].stage == AwaitHandler {
      Memory(sys, sid);
      MemoryMoves(sys, sid, sys.sessions[sid].(stage := BeforeSettlement(result, true)));
    }
  }

  /** Persisting the settlement of the first entry, and leaving the queue. */
  lemma {:induction false} SettledFirst(s: Session, outcome: ControlOutcome, now: Time)
    requires MemoryOk(s) && s.queue != [] && s.life != Swept
    requires s.stage != Begin || s.queue[0].SettleUntracked?
    ensures Saved(s, SettleFirst(s, outcome, now),
                  Dequeue(s).(job := SettleFirst(s, outcome, now), revision := s.revision + 1))
    ensures MemoryOk(Dequeue(s))
  {
    hide LogOk, RequestedIds, SettledIds, NonePending;
    var e := Event(|s.job.events| + 1, now, ControlSettled(s.queue[0].request.controlId, outcome));
    Appended(s.job.events, e);
    assert EntryOk(s.job.events, s.queue[0], s.stage != Begin);
    forall i | 0 <= i < |s.queue| - 1
      ensures EntryOk(s.job.events + [e], s.queue[1..][i], false)
    {
      OthersStay(s.job.events, e, s.queue, s.stage, i + 1);
    }
    DequeuedOk(s.job.events, s.queue, s.stage);
  }

  lemma {:induction false} SettlementSafe(sys: Sys, sid: nat, lease: Option<Lease>, now: Time)
    requires Safe(sys)
    ensures Safe(DoPersistSettlement(sys, sid, lease, now))
  {
    hide Safe, SessionOk, LogOk, RequestedIds, SettledIds, NonePending, Emit, Saved;
    if sid in sys.sessions && sys.sessions[sid].queue != [] && sys.sessions[sid].stage.BeforeSettlement? {
      var s := sys.sessions[sid];
      Memory(sys, sid);
      SettledFirst(s, s.stage.outcome, now);
      MemoryMoves(sys, sid, s.(stage := AfterFailure));
      MemoryMoves(sys, sid, Dequeue(s));
      var job := SettleFirst(s, s.stage.outcome, now);
      EmitSafe(sys, sid, job, lease, now, Dequeue(s).(job := job, revision := s.revision + 1),
               if s.stage.delivered then s.(stage := AfterFailure) else Dequeue(s));
    }
  }

  lemma {:induction false} LostSafe(sys: Sys, sid: nat, lease: Option<Lease>, now: Time)
    requires Safe(sys)
    ensures Safe(DoPersistLost(sys, sid, lease, now))
  {
    hide Safe, SessionOk, LogOk, RequestedIds, SettledIds, NonePending, Emit, Saved;
    if sid in sys.sessions && sys.sessions[sid].queue != [] {
      var s := sys.sessions[sid];
      if s.stage == AfterFailure || (s.stage == Begin && s.queue[0].SettleUntracked?) {
        Memory(sys, sid);
        SettledFirst(s, Lost, now);
        MemoryMoves(sys, sid, Dequeue(s));
        var job := SettleFirst(s, Lost, now);
        EmitSafe(sys, sid, job, lease, now, Dequeue(s).(job := job, revision := s.revision + 1), Dequeue(s));
      }
    }
  }

  lemma {:induction false} CloseSafe(sys: Sys, sid: nat)
    requires Safe(sys)
    ensures Safe(DoClose(sys, sid)) && Safe(DoFinishSweep(sys, sid))
  {
    hide Safe, SessionOk, LogOk, QueueOk, PendingAt;
    if sid in sys.sessions {
      var s := sys.sessions[sid];
      Memory(sys, sid);
      MemoryMoves(sys, sid, s.(life := Closing));
      if s.queue == [] && NonePending(s.job.events, s.attempt) {
        MemoryMoves(sys, sid, s.(life := Swept));
      }
    }
  }

  lemma {:induction false} SweepSafe(sys: Sys, sid: nat, index: nat, lease: Option<Lease>, now: Time)
    requires Safe(sys)
    ensures Safe(DoSweep(sys, sid, index, lease, now))
  {
    hide Safe, SessionOk, LogOk, RequestedIds, SettledIds, NonePending, Emit;
    if sid in sys.sessions && sys.sessions[sid].life == Closing && sys.sessions[sid].queue == []
       && index < |sys.sessions[sid].job.events|
            && PendingAt(sys.sessions[sid].job.events, sys.sessions[sid].attempt, index) {
      var s := sys.sessions[sid];
      Memory(sys, sid);
      var e := Event(|s.job.events| + 1, now, ControlSettled(s.job.events[index].body.controlId, Lost));
      RequestedAt(s.job.events, index);
      Appended(s.job.events, e);
      MemoryMoves(sys, sid, s.(life := SweepFailed));
      var job := Append(s.job, e.body, now);
      EmitSafe(sys, sid, job, lease, now, s.(job := job, revision := s.revision + 1), s.(life := SweepFailed));
    }
  }

  lemma {:induction false} NextAttemptSafe(sys: Sys, sid: nat, attempt: nat)
    requires Safe(sys)
    ensures Safe(DoNextAttempt(sys, sid, attempt))
  {
    hide Safe, SessionOk, LogOk, QueueOk, NonePending;
    if sid in sys.sessions && sys.sessions[sid].life == Swept {
      Memory(sys, sid);
      MemoryMoves(sys, sid, sys.sessions[sid].(attempt := attempt, life := Open));
    }
  }

  lemma {:induction false} WrittenMemory(s: Session, job: Record)
    requires MemoryOk(s) && s.job.events <= job.events && NoControl(job.events, |s.job.events|)
    ensures MemoryOk(s.(job := job, revision := s.revision + 1))
  {
    hide LogOk, RequestedIds, SettledIds;
    Extended(s.job.events, job.events);
    assert forall i | 0 <= i < |s.queue| :: EntryOk(s.job.events, s.queue[i], i == 0 && s.stage != Begin);
    if s.life == Swept {
      forall i: nat | i < |job.events|
        ensures !PendingAt(job.events, s.attempt, i)
      {
        if i < |s.job.events| {
          assert !PendingAt(s.job.events, s.attempt, i);
        }
      }
    }
  }

  lemma {:induction false} WriteSafe(sys: Sys, sid: nat, job: Record, lease: Option<Lease>, now: Time)
    requires Safe(sys)
    ensures Safe(DoWrite(sys, sid, job, lease, now))
  {
    hide Safe, SessionOk, MemoryOk, NoControl, Emit;
    if sid in sys.sessions && job.id == sys.sessions[sid].job.id && sys.sessions[sid].job.events <= job.events
       && NoControl(job.events, |sys.sessions[sid].job.events|) {
      var s := sys.sessions[sid];
      Memory(sys, sid);
      WrittenMemory(s, job);
      MemoryMoves(sys, sid, s);
      EmitSafe(sys, sid, job, lease, now, s.(job := job, revision := s.revision + 1), s);
    }
  }

  lemma {:induction false} CrashSafe(sys: Sys, sid: nat)
    requires Safe(sys)
    ensures Safe(sys.(sessions := sys.sessions - {sid}))
  {
    hide Inv.ValidDb, RowsOk, HandedOk, SessionOk, Backed, Token;
    var after := sys.sessions - {sid};
    forall other | other in after && Token(after[other]).Some?
      ensures Free(after, sys.handed, other, after[other].job.id, Token(after[other]).value)
    {
      assert Free(sys.sessions, sys.handed, other, after[other].job.id, Token(after[other]).value);
    }
  }

  lemma {:induction false} MoveSafe(sys: Sys, move: Move)
    requires Safe(sys)
    ensures Safe(Do(sys, move))
  {
    hide Safe, Store.Step, DoOthers, DoOpen, DoRecover, DoCall, DoPersistRequest, DoDecide, DoHandlerReturns;
    hide DoPersistSettlement, DoPersistLost, DoClose, DoSweep, DoFinishSweep, DoNextAttempt, DoWrite;
    match move
    case Others(op) => OthersSafe(sys, op);
    case OpenAttempt(sid, jobId, attempt) => OpenSafe(sys, sid, jobId, attempt);
    case RecoverAttempt(sid, jobId) => OpenSafe(sys, sid, jobId, 0);
    case Call(sid, request) => CallSafe(sys, sid, request);
    case PersistRequest(sid, lease, now) => RequestSafe(sys, sid, lease, now);
    case Decide(sid, supported, ready) => DecideSafe(sys, sid, supported, ready);
    case HandlerReturns(sid, result) => HandlerReturnsSafe(sys, sid, result);
    case PersistSettlement(sid, lease, now) => SettlementSafe(sys, sid, lease, now);
    case PersistLost(sid, lease, now) => LostSafe(sys, sid, lease, now);
    case Close(sid) => CloseSafe(sys, sid);
    case Sweep(sid, index, lease, now) => SweepSafe(sys, sid, index, lease, now);
    case FinishSweep(sid) => CloseSafe(sys, sid);
    case NextAttempt(sid, attempt) => NextAttemptSafe(sys, sid, attempt);
    case Write(sid, job, lease, now) => WriteSafe(sys, sid, job, lease, now);
    case Crash(sid) => CrashSafe(sys, sid);
  }
}
