/** What holds of worker controls over every run of moves, with crashes, retries, takeovers and failed saves. */
module ControlGuarantees {
  import opened Prelude
  import opened Records
  import opened ControlProtocol
  import opened ControlSafety
  import Store = DurableStore
  import Inv = StoreInvariant

  function Init(): Sys {
    Sys(Store.Empty(JobKind), map[], [])
  }

  lemma {:induction false} InitSafe()
    ensures Safe(Init())
  {
    Inv.EmptyValid(JobKind);
  }

  lemma {:induction false} ReachableSafe(moves: seq<Move>)
    ensures Safe(After(Init(), moves))
  {
    hide Safe, Do;
    if moves == [] {
      InitSafe();
    } else {
      ReachableSafe(moves[..|moves| - 1]);
      MoveSafe(After(Init(), moves[..|moves| - 1]), moves[|moves| - 1]);
    }
  }

  // ---- The handler ---------------------------------------------------------

  /** No control id of a Job reaches a handler twice. */
  lemma {:induction false} HandedAtMostOnce(moves: seq<Move>, i: nat, j: nat)
    requires i < j < |After(Init(), moves).handed|
    ensures var first, second := After(Init(), moves).handed[i], After(Init(), moves).handed[j];
      first.jobId == second.jobId ==> first.controlId != second.controlId
  {
    hide After, Inv.ValidDb, RowsOk, SessionsOk, TokensOk, Backed, RequestedFor;
    ReachableSafe(moves);
  }

  /** A move hands over at most one control, one whose request was persisted before. */
  lemma {:induction false} HandedOnlyAfterRequest(moves: seq<Move>, move: Move)
    ensures var before, after := After(Init(), moves), Do(After(Init(), moves), move);
      after.handed == before.handed
      || (&& |after.handed| == |before.handed| + 1
          && after.handed[..|before.handed|] == before.handed
          && var h := after.handed[|before.handed|];
          && h.jobId in before.db.rows && RequestedFor(before.db.rows[h.jobId].record.events, h.controlId, h.attempt)
          && after.db == before.db)
  {
    hide After, Safe, LogOk, QueueOk, NonePending, RequestedFor, RequestedIds, Store.Step, Emit;
    ReachableSafe(moves);
    var before := After(Init(), moves);
    if !move.Decide? {
      HandedUnchanged(before, move);
    } else if move.sid in before.sessions && Token(before.sessions[move.sid]).Some? {
      var s := before.sessions[move.sid];
      Memory(before, move.sid);
      RequestedForStays(s.job.events, before.db.rows[s.job.id].record.events, s.queue[0].request.controlId,
          s.queue[0].request.attempt);
    }
  }

  /** Only a decision hands a control over. */
  lemma {:induction false} HandedUnchanged(sys: Sys, move: Move)
    requires !move.Decide?
    ensures Do(sys, move).handed == sys.handed
  {
    hide Store.Step, Store.Save, WritesNoControl, InFlight, RequestedAs, RequestedIds, SettledIds, PendingAt, NoControl,
        Append;
  }

  // ---- Settlements ---------------------------------------------------------

  /** In a persisted history, no id is requested twice or settled twice, and no settlement precedes its request. */
  lemma {:induction false} LogMeans(events: seq<Event>, i: nat, j: nat)
    requires LogOk(events) && i < j < |events|
    ensures events[i].body.ControlRequested? && events[j].body.ControlRequested? ==>
      events[i].body.controlId != events[j].body.controlId
    ensures events[i].body.ControlSettled? && events[j].body.ControlSettled? ==>
      events[i].body.settledId != events[j].body.settledId
    ensures events[i].body.ControlSettled? && events[j].body.ControlRequested? ==>
      events[i].body.settledId != events[j].body.controlId
  {
    var rest := events[..|events| - 1];
    if j < |events| - 1 {
      LogMeans(rest, i, j);
    } else {
      SettledWereRequested(rest);
      if events[i].body.ControlRequested? {
        RequestedAt(rest, i);
      }
      if events[i].body.ControlSettled? {
        SettledAt(rest, i);
      }
    }
  }

  lemma {:induction false} SettledAt(events: seq<Event>, i: nat)
    requires i < |events| && events[i].body.ControlSettled?
    ensures events[i].body.settledId in SettledIds(events)
  {
    if i < |events| - 1 {
      SettledAt(events[..|events| - 1], i);
    }
  }

  lemma {:induction false} SettledSomewhere(events: seq<Event>, controlId: string) returns (i: nat)
    requires controlId in SettledIds(events)
    ensures i < |events| && events[i].body.ControlSettled? && events[i].body.settledId == controlId
  {
    var last := events[|events| - 1].body;
    if last.ControlSettled? && last.settledId == controlId {
      i := |events| - 1;
    } else {
      i := SettledSomewhere(events[..|events| - 1], controlId);
    }
  }

  /** At most one request and at most one settlement per control id, in every history the store ever holds. */
  lemma {:induction false} SettledAtMostOnce(moves: seq<Move>, id: Id, i: nat, j: nat)
    requires id in After(Init(), moves).db.rows
    requires i < j < |After(Init(), moves).db.rows[id].record.events|
    ensures var events := After(Init(), moves).db.rows[id].record.events;
      && (events[i].body.ControlRequested? && events[j].body.ControlRequested? ==>
            events[i].body.controlId != events[j].body.controlId)
      && (events[i].body.ControlSettled? && events[j].body.ControlSettled? ==>
            events[i].body.settledId != events[j].body.settledId)
  {
    hide After, Safe, LogOk;
    ReachableSafe(moves);
    RowInOrder(After(Init(), moves), id);
    LogMeans(After(Init(), moves).db.rows[id].record.events, i, j);
  }

  /** The position settles the request at position i. */
  predicate SettlesAt(events: seq<Event>, i: nat, j: nat)
    requires i < |events| && events[i].body.ControlRequested?
  {
    i < j < |events| && events[j].body.ControlSettled? && events[j].body.settledId == events[i].body.controlId
  }

  lemma {:induction false} SettledExactlyOnce(events: seq<Event>, i: nat) returns (at: nat)
    requires LogOk(events) && i < |events| && events[i].body.ControlRequested?
    requires events[i].body.controlId in SettledIds(events)
    ensures SettlesAt(events, i, at)
    ensures forall j: nat | SettlesAt(events, i, j) :: j == at
  {
    hide LogOk, SettledIds;
    at := SettledSomewhere(events, events[i].body.controlId);
    if at < i {
      LogMeans(events, at, i);
    }
    forall j: nat | SettlesAt(events, i, j)
      ensures j == at
    {
      if j < at {
        LogMeans(events, j, at);
      } else if at < j {
        LogMeans(events, at, j);
      }
    }
  }

  lemma {:induction false} EmitLater(
      sys: Sys, sid: nat, job: Record, lease: Option<Lease>, now: Time, saved: Session, failed: Session)
    requires Inv.ValidDb(sys.db) && sid in sys.sessions
    ensures Inv.RowsLater(sys.db.rows, Emit(sys, sid, job, lease, now, saved, failed).db.rows)
  {
    hide Inv.ValidDb, Inv.RowsLater, Store.Save;
    Inv.LaterReflexive(sys.db);
    if Store.Save(sys.db, job, Some(sys.sessions[sid].revision), lease, now).Ok? {
      Inv.SaveKeeps(sys.db, job, Some(sys.sessions[sid].revision), lease, now);
    }
  }

  lemma {:induction false} QueueMoveLater(sys: Sys, move: Move)
    requires Inv.ValidDb(sys.db) && (move.PersistRequest? || move.PersistSettlement? || move.PersistLost?)
    ensures Inv.RowsLater(sys.db.rows, Do(sys, move).db.rows)
  {
    hide Inv.ValidDb, Inv.RowsLater, Emit;
    Inv.LaterReflexive(sys.db);
    if move.sid in sys.sessions && sys.sessions[move.sid].queue != [] {
      var s := sys.sessions[move.sid];
      match move
      case PersistRequest(sid, lease, now) =>
        var r := s.queue[0].request;
        var job := Append(s.job, ControlRequested(r.controlId, r.attempt, r.content), now);
        var saved := s.(job := job, revision := s.revision + 1, stage := AfterRequest);
        EmitLater(sys, sid, job, lease, now, saved, Dequeue(s));
      case PersistSettlement(sid, lease, now) =>
        if s.stage.BeforeSettlement? {
          var job := SettleFirst(s, s.stage.outcome, now);
          EmitLater(sys, sid, job, lease, now, Dequeue(s).(job := job, revision := s.revision + 1),
                    if s.stage.delivered then s.(stage := AfterFailure) else Dequeue(s));
        }
      case PersistLost(sid, lease, now) =>
        var job := SettleFirst(s, Lost, now);
        EmitLater(sys, sid, job, lease, now, Dequeue(s).(job := job, revision := s.revision + 1), Dequeue(s));
    }
  }

  lemma {:induction false} MoveLater(sys: Sys, move: Move)
    requires Inv.ValidDb(sys.db)
    ensures Inv.RowsLater(sys.db.rows, Do(sys, move).db.rows)
  {
    hide Inv.ValidDb, Inv.RowsLater, Emit, Store.Step, WritesNoControl, SettledIds, NoControl;
    Inv.LaterReflexive(sys.db);
    match move
    case Others(op) => Inv.StepKeeps(sys.db, op);
    case PersistRequest(_, _, _) => QueueMoveLater(sys, move);
    case PersistSettlement(_, _, _) => QueueMoveLater(sys, move);
    case PersistLost(_, _, _) => QueueMoveLater(sys, move);
    case Sweep(sid, index, lease, now) =>
      if sid in sys.sessions && index < |sys.sessions[sid].job.events|
         && sys.sessions[sid].job.events[index].body.ControlRequested? {
        var s := sys.sessions[sid];
        var job := Append(s.job, ControlSettled(s.job.events[index].body.controlId, Lost), now);
        EmitLater(sys, sid, job, lease, now, s.(job := job, revision := s.revision + 1), s.(life := SweepFailed));
      }
    case Write(sid, job, lease, now) =>
      if sid in sys.sessions {
        var s := sys.sessions[sid];
        EmitLater(sys, sid, job, lease, now, s.(job := job, revision := s.revision + 1), s);
      }
    case _ =>
  }

  lemma {:induction false} SafeDb(sys: Sys)
    requires Safe(sys)
    ensures Inv.ValidDb(sys.db)
  {
    hide Inv.ValidDb, RowsOk, SessionsOk, HandedOk, TokensOk;
  }

  lemma {:induction false} RowsLaterTransitive(a: Rows, b: Rows, c: Rows)
    requires Inv.RowsLater(a, b) && Inv.RowsLater(b, c)
    ensures Inv.RowsLater(a, c)
  {
    forall id | id in a
      ensures a[id].record.events <= c[id].record.events
    {
      assert a[id].record.events <= b[id].record.events <= c[id].record.events;
    }
  }

  /** Any two moments of a run are ordered. */
  lemma {:induction false} RunLater(moves: seq<Move>, n: nat, m: nat)
    requires n <= m <= |moves|
    ensures Inv.RowsLater(After(Init(), moves[..n]).db.rows, After(Init(), moves[..m]).db.rows)
    decreases m
  {
    hide Do, Safe, Inv.ValidDb, Inv.RowsLater;
    var a := After(Init(), moves[..n]);
    if n == m {
      Inv.LaterReflexive(a.db);
    } else {
      RunLater(moves, n, m - 1);
      var b := After(Init(), moves[..m - 1]);
      ReachableSafe(moves[..m - 1]);
      SafeDb(b);
      MoveLater(b, moves[m - 1]);
      assert moves[..m][..m - 1] == moves[..m - 1];
      RowsLaterTransitive(a.db.rows, b.db.rows, Do(b, moves[m - 1]).db.rows);
    }
  }

  /** The one settlement of a request is at the same position in every longer history. */
  lemma {:induction false} SettlementStays(events: seq<Event>, later: seq<Event>, i: nat, at: nat)
    requires events <= later && LogOk(later)
    requires i < |events| && events[i].body.ControlRequested? && SettlesAt(events, i, at)
    ensures SettlesAt(later, i, at) && forall j: nat | SettlesAt(later, i, j) :: j == at
  {
    hide LogOk;
    forall j: nat | SettlesAt(later, i, j)
      ensures j == at
    {
      if j < at {
        LogMeans(later, j, at);
      } else if at < j {
        LogMeans(later, at, j);
      }
    }
  }

  /**
   * Once an activation has finished closing an attempt, every control it saw requested for that
   * attempt, handed over or not, has exactly one settlement in the stored history, at that moment n and
   * at every later moment m, whatever becomes of the activation.
   */
  lemma {:induction false} SweptAttemptIsSettled(moves: seq<Move>, n: nat, m: nat, sid: nat, i: nat) returns (at: nat)
    requires n <= m <= |moves|
    requires var sys := After(Init(), moves[..n]);
      && sid in sys.sessions && sys.sessions[sid].life == Swept
      && var s := sys.sessions[sid];
      && i < |s.job.events|
      && s.job.events[i].body.ControlRequested? && s.job.events[i].body.controlAttempt == s.attempt
    ensures var s, rows := After(Init(), moves[..n]).sessions[sid], After(Init(), moves[..m]).db.rows;
      && s.job.id in rows
      && var events := rows[s.job.id].record.events;
      && s.job.events <= events
      && SettlesAt(events, i, at)
      && forall j: nat | SettlesAt(events, i, j) :: j == at
  {
    hide After, Safe, LogOk, QueueOk, SettledIds;
    ReachableSafe(moves[..n]);
    ReachableSafe(moves[..m]);
    var sys, now := After(Init(), moves[..n]), After(Init(), moves[..m]);
    var s := sys.sessions[sid];
    Memory(sys, sid);
    RowInOrder(sys, s.job.id);
    RunLater(moves, n, m);
    RowInOrder(now, s.job.id);
    assert !PendingAt(s.job.events, s.attempt, i);
    at := SettledExactlyOnce(s.job.events, i);
    assert s.job.events <= sys.db.rows[s.job.id].record.events <= now.db.rows[s.job.id].record.events;
    SettlementStays(s.job.events, now.db.rows[s.job.id].record.events, i, at);
  }

  /** Every control that reached a handler is requested in the stored history, for the attempt that handed it over. */
  lemma {:induction false} HandedIsRequested(moves: seq<Move>, k: nat) returns (i: nat)
    requires k < |After(Init(), moves).handed|
    ensures var h := After(Init(), moves).handed[k];
      && h.jobId in After(Init(), moves).db.rows
      && var events := After(Init(), moves).db.rows[h.jobId].record.events;
      && i < |events| && events[i].body.ControlRequested?
      && events[i].body.controlId == h.controlId && events[i].body.controlAttempt == h.attempt
  {
    hide After, Inv.ValidDb, RowsOk, SessionsOk, TokensOk, RequestedIds;
    ReachableSafe(moves);
    var h := After(Init(), moves).handed[k];
    var events := After(Init(), moves).db.rows[h.jobId].record.events;
    assert RequestedFor(events, h.controlId, h.attempt);
    i :| 0 <= i < |events| && events[i].body.ControlRequested?
         && events[i].body.controlId == h.controlId && events[i].body.controlAttempt == h.attempt;
  }

  /**
   * Every control that was handed over during an attempt has exactly one settlement in the stored
   * history from the moment n at which an activation whose copy holds the request has finished closing
   * that attempt, at every later moment m; a copy that is current at n holds every request.
   */
  lemma {:induction false} HandedControlIsSettled(moves: seq<Move>, n: nat, m: nat, k: nat, sid: nat)
    returns (i: nat, at: nat)
    requires n <= m <= |moves|
    requires k < |After(Init(), moves[..n]).handed| && sid in After(Init(), moves[..n]).sessions
    requires var h, s := After(Init(), moves[..n]).handed[k], After(Init(), moves[..n]).sessions[sid];
      && s.job.id == h.jobId && s.attempt == h.attempt && s.life == Swept
      && (h.controlId in RequestedIds(s.job.events) || Fresh(After(Init(), moves[..n]).db.rows, s))
    ensures var h, rows := After(Init(), moves[..n]).handed[k], After(Init(), moves[..m]).db.rows;
      && h.jobId in rows
      && var events := rows[h.jobId].record.events;
      && i < |events| && events[i].body.ControlRequested?
      && events[i].body.controlId == h.controlId && events[i].body.controlAttempt == h.attempt
      && SettlesAt(events, i, at)
      && forall j: nat | SettlesAt(events, i, j) :: j == at
  {
    hide After, Safe, LogOk, QueueOk, RequestedIds, NonePending, FirstRequested;
    var sys := After(Init(), moves[..n]);
    var h, s := sys.handed[k], sys.sessions[sid];
    ReachableSafe(moves[..n]);
    Memory(sys, sid);
    RowInOrder(sys, s.job.id);
    i := HandedIsRequested(moves[..n], k);
    var events := sys.db.rows[h.jobId].record.events;
    if i >= |s.job.events| {
      var other := RequestedSomewhere(s.job.events, h.controlId);
      LogMeans(events, other, i);
      assert false;
    }
    at := SweptAttemptIsSettled(moves, n, m, sid, i);
  }

  lemma {:induction false} RequestedSomewhere(events: seq<Event>, controlId: string) returns (i: nat)
    requires controlId in RequestedIds(events)
    ensures i < |events| && events[i].body.ControlRequested? && events[i].body.controlId == controlId
  {
    var last := events[|events| - 1].body;
    if last.ControlRequested? && last.controlId == controlId {
      i := |events| - 1;
    } else {
      i := RequestedSomewhere(events[..|events| - 1], controlId);
    }
  }

  // ---- Undisturbed progress ------------------------------------------------

  /** Session `sid` holds the current copy of its Job, in a store of Jobs. */
  ghost predicate Current(sys: Sys, sid: nat) {
    Safe(sys) && sys.db.kind == JobKind && sid in sys.sessions && Fresh(sys.db.rows, sys.sessions[sid])
  }

  /** A current activation's save of one more control event goes through and leaves it current. */
  lemma {:induction false} EmitGoesThrough(
      sys: Sys, sid: nat, body: EventBody, now: Time, saved: Session, failed: Session)
    requires Current(sys, sid) && sys.sessions[sid].job.status == Running
    requires var job := Append(sys.sessions[sid].job, body, now);
      saved.job == job && saved.revision == sys.sessions[sid].revision + 1
    ensures var after := Emit(sys, sid, saved.job, None, now, saved, failed);
      && after.sessions == sys.sessions[sid := saved] && after.handed == sys.handed && after.db.kind == sys.db.kind
      && Fresh(after.db.rows, saved) && after.db.rows[saved.job.id].record == saved.job
  {
    hide MemoryOk, RowsOk, HandedOk, TokensOk, Inv.EventTableValid, Inv.CapacityValid, Store.InsertEvents;
    Memory(sys, sid);
    assert Inv.RowsValid(sys.db.rows);
  }

  lemma {:induction false} RequestGoesThrough(sys: Sys, sid: nat, request: Request, t: Time)
    requires Current(sys, sid) && sys.sessions[sid].job.status == Running
    requires sys.sessions[sid].queue == [Deliver(request)] && sys.sessions[sid].stage == Begin
    ensures var s, after := sys.sessions[sid], Do(sys, PersistRequest(sid, None, t));
      && Current(after, sid) && after.handed == sys.handed
      && var job := Append(s.job, ControlRequested(request.controlId, request.attempt, request.content), t);
      after.sessions[sid] == s.(job := job, revision := s.revision + 1, stage := AfterRequest)
  {
    hide Safe, MemoryOk, Emit;
    var s := sys.sessions[sid];
    RequestSafe(sys, sid, None, t);
    var body := ControlRequested(request.controlId, request.attempt, request.content);
    var job := Append(s.job, body, t);
    EmitGoesThrough(sys, sid, body, t, s.(job := job, revision := s.revision + 1, stage := AfterRequest), Dequeue(s));
  }

  lemma {:induction false} SettlementGoesThrough(
      sys: Sys, sid: nat, request: Request, outcome: ControlOutcome, delivered: bool, t: Time)
    requires Current(sys, sid) && sys.sessions[sid].job.status == Running
    requires sys.sessions[sid].queue == [Deliver(request)]
    requires sys.sessions[sid].stage == BeforeSettlement(outcome, delivered)
    ensures var s, after := sys.sessions[sid], Do(sys, PersistSettlement(sid, None, t));
      && Current(after, sid) && after.handed == sys.handed
      && after.sessions[sid].queue == []
      && s.job.id in after.db.rows
      && after.db.rows[s.job.id].record == Append(s.job, ControlSettled(request.controlId, outcome), t)
  {
    hide Safe, MemoryOk, Emit;
    var s := sys.sessions[sid];
    SettlementSafe(sys, sid, None, t);
    var body := ControlSettled(request.controlId, outcome);
    var job := Append(s.job, body, t);
    EmitGoesThrough(sys, sid, body, t, Dequeue(s).(job := job, revision := s.revision + 1),
        if delivered then s.(stage := AfterFailure) else Dequeue(s));
  }

  /** The state in which a new request is persisted and the attempt then went on, or ended. */
  function Asked(sys: Sys, sid: nat, request: Request, closes: bool, t: Time): Sys {
    var requested := Do(Do(sys, Call(sid, request)), PersistRequest(sid, None, t));
    if closes then Do(requested, Close(sid)) else requested
  }

  lemma {:induction false} AskedSession(sys: Sys, sid: nat, request: Request, closes: bool, t: Time)
    requires Current(sys, sid) && sys.sessions[sid].job.status == Running
    requires sys.sessions[sid].life == Open && sys.sessions[sid].queue == []
    requires request.controlId !in RequestedIds(sys.sessions[sid].job.events)
    ensures var s, after := sys.sessions[sid], Asked(sys, sid, request, closes, t);
      var job := Append(s.job, ControlRequested(request.controlId, request.attempt, request.content), t);
      && Current(after, sid) && after.handed == sys.handed
      && after.sessions[sid] == s.(job := job, revision := s.revision + 1, queue := [Deliver(request)],
           stage := AfterRequest, life := if closes then Closing else Open)
  {
    hide Safe, MemoryOk, RequestedIds, SettledIds, Emit, DoPersistRequest;
    var s := sys.sessions[sid];
    IdleBegins(sys, sid);
    CallSafe(sys, sid, request);
    var called := Do(sys, Call(sid, request));
    assert called.sessions[sid] == s.(queue := [Deliver(request)]) && called.db == sys.db
        && called.handed == sys.handed;
    RequestGoesThrough(called, sid, request, t);
    CloseSafe(Do(called, PersistRequest(sid, None, t)), sid);
  }

  /**
   * An undisturbed new request is persisted, and it reaches the handler, once, exactly when it is for
   * the attempt that runs, the attempt is not closing, and the adapter supports it and is ready; its
   * settlement in the stored history is then the handler's result, and a rejection otherwise.
   */
  lemma {:induction false} UndisturbedControlIsSettled(
      sys: Sys, sid: nat, request: Request, closes: bool, supported: bool, ready: bool, result: ControlOutcome,
      t: Time, u: Time)
    requires Current(sys, sid) && sys.sessions[sid].job.status == Running
    requires sys.sessions[sid].life == Open && sys.sessions[sid].queue == []
    requires request.controlId !in RequestedIds(sys.sessions[sid].job.events)
    ensures var job := sys.sessions[sid].job;
      var reaches := request.attempt == sys.sessions[sid].attempt && !closes && supported && ready;
      var decided := Do(Asked(sys, sid, request, closes, t), Decide(sid, supported, ready));
      var after := Do(Do(decided, HandlerReturns(sid, result)), PersistSettlement(sid, None, u));
      && after.handed ==
           sys.handed + (if reaches then [Handing(job.id, request.controlId, request.attempt)] else [])
      && job.id in after.db.rows
      && after.db.rows[job.id].record
           == Append(Append(job, ControlRequested(request.controlId, request.attempt, request.content), t),
                     ControlSettled(request.controlId, if reaches then result else Rejected), u)
  {
    hide Safe, MemoryOk, Asked, DoPersistSettlement, Append;
    var s := sys.sessions[sid];
    var reaches := request.attempt == s.attempt && !closes && supported && ready;
    AskedSession(sys, sid, request, closes, t);
    var asked := Asked(sys, sid, request, closes, t);
    DecideSafe(asked, sid, supported, ready);
    var decided := Do(asked, Decide(sid, supported, ready));
    HandlerReturnsSafe(decided, sid, result);
    var handed := Do(decided, HandlerReturns(sid, result));
    var outcome := if reaches then result else Rejected;
    assert handed.sessions[sid] == asked.sessions[sid].(stage := BeforeSettlement(outcome, reaches))
        && handed.db == asked.db;
    AppendStatus(s.job, ControlRequested(request.controlId, request.attempt, request.content), t);
    SettlementGoesThrough(handed, sid, request, outcome, reaches, u);
  }

  lemma {:induction false} AppendStatus(job: Record, body: EventBody, at: Time)
    ensures Append(job, body, at).status == job.status && Append(job, body, at).id == job.id
  {
  }

  lemma {:induction false} IdleBegins(sys: Sys, sid: nat)
    requires Safe(sys) && sid in sys.sessions && sys.sessions[sid].queue == []
    ensures sys.sessions[sid].stage == Begin
  {
    hide Safe, LogOk, EntryOk, NonePending;
    Memory(sys, sid);
  }

  /** A repeated request whose settlement is missing is settled as lost, and reaches no handler again. */
  lemma {:induction false} RepeatedControlIsLost(sys: Sys, sid: nat, request: Request, t: Time)
    requires Current(sys, sid) && sys.sessions[sid].job.status == Running
    requires sys.sessions[sid].life == Open && sys.sessions[sid].queue == []
    requires sys.sessions[sid].attempt == request.attempt
    requires RequestedAs(sys.sessions[sid].job.events, request)
    requires request.controlId !in SettledIds(sys.sessions[sid].job.events)
    ensures var job := sys.sessions[sid].job;
      var after := Do(Do(sys, Call(sid, request)), PersistLost(sid, None, t));
      && after.handed == sys.handed && job.id in after.db.rows
      && after.db.rows[job.id].record == Append(job, ControlSettled(request.controlId, Lost), t)
  {
    hide Safe, MemoryOk, Emit, SettledIds;
    var s := sys.sessions[sid];
    IdleBegins(sys, sid);
    RequestIsKnown(s.job.events, request);
    CallSafe(sys, sid, request);
    var called := Do(sys, Call(sid, request));
    var body := ControlSettled(request.controlId, Lost);
    var entry := called.sessions[sid];
    EmitGoesThrough(called, sid, body, t,
        Dequeue(entry).(job := Append(s.job, body, t), revision := s.revision + 1), Dequeue(entry));
  }

  lemma {:induction false} RequestIsKnown(events: seq<Event>, request: Request)
    requires RequestedAs(events, request)
    ensures request.controlId in RequestedIds(events)
  {
    var last := |events| - 1;
    var i :| 0 <= i < |events|
             && events[i].body == ControlRequested(request.controlId, request.attempt, request.content);
    if i < last {
      assert events[..last][i] == events[i];
      RequestIsKnown(events[..last], request);
    }
  }

  /** The sweep of an attempt that closes settles its first pending control as lost, and is done when none is left. */
  lemma {:induction false} UndisturbedSweepSettles(sys: Sys, sid: nat, index: nat, t: Time)
    requires Current(sys, sid) && sys.sessions[sid].job.status == Running
    requires sys.sessions[sid].life == Closing && sys.sessions[sid].queue == []
    ensures Do(sys, FinishSweep(sid)).sessions[sid].life ==
      if NonePending(sys.sessions[sid].job.events, sys.sessions[sid].attempt) then Swept else Closing
    ensures var s := sys.sessions[sid];
      index < |s.job.events| && PendingAt(s.job.events, s.attempt, index)
      && (forall i: nat | i < index :: !PendingAt(s.job.events, s.attempt, i)) ==>
        var after := Do(sys, Sweep(sid, index, None, t));
        && s.job.id in after.db.rows && after.handed == sys.handed
        && after.db.rows[s.job.id].record
             == Append(s.job, ControlSettled(s.job.events[index].body.controlId, Lost), t)
        && sid in after.sessions && after.sessions[sid].life == Closing
  {
    hide Safe, MemoryOk, Emit, SettledIds, NonePending;
    var s := sys.sessions[sid];
    if index < |s.job.events| && PendingAt(s.job.events, s.attempt, index)
       && forall i: nat | i < index :: !PendingAt(s.job.events, s.attempt, i)
    {
      var body := ControlSettled(s.job.events[index].body.controlId, Lost);
      EmitGoesThrough(sys, sid, body, t, s.(job := Append(s.job, body, t), revision := s.revision + 1),
          s.(life := SweepFailed));
    }
  }

  /**
   * An activation opens an attempt on the stored Job; one that recovers it starts by closing the attempt
   * it finds; and an activation that has swept an attempt goes on to the next one.
   */
  lemma {:induction false} AttemptsOpen(sys: Sys, sid: nat, jobId: Id, attempt: nat)
    requires Safe(sys) && sys.db.kind == JobKind
    ensures sid !in sys.sessions && jobId in sys.db.rows ==>
      var row, after := sys.db.rows[jobId], Do(sys, OpenAttempt(sid, jobId, attempt));
      && Current(after, sid) && after.db == sys.db
      && after.sessions[sid] == Session(row.record, row.revision, attempt, Open, [], Begin)
    ensures sid !in sys.sessions && jobId in sys.db.rows && sys.db.rows[jobId].record.body.JobBody? ==>
      var row, after := sys.db.rows[jobId], Do(sys, RecoverAttempt(sid, jobId));
      && Current(after, sid) && after.db == sys.db
      && after.sessions[sid] == Session(row.record, row.revision, row.record.body.attempt, Closing, [], Begin)
    ensures sid in sys.sessions && sys.sessions[sid].life == Swept ==>
      var after := Do(sys, NextAttempt(sid, attempt));
      after == sys.(sessions := sys.sessions[sid := sys.sessions[sid].(attempt := attempt, life := Open)])
  {
    hide Safe;
    if sid !in sys.sessions && jobId in sys.db.rows {
      OpenSafe(sys, sid, jobId, attempt);
      StoredId(sys, jobId);
    }
  }

  lemma {:induction false} StoredId(sys: Sys, id: Id)
    requires Safe(sys) && id in sys.db.rows
    ensures sys.db.rows[id].record.id == id
  {
    hide RowsOk, SessionsOk, HandedOk, TokensOk, Inv.EventTableValid, Inv.CapacityValid;
  }

  /**
   * A refused settlement of a request that the handler got is followed by one as lost; a refused
   * settlement of a rejected request, and a refused request, leave the stored history and the handler alone.
   */
  lemma {:induction false} RefusedSettlementIsLost(
      sys: Sys, sid: nat, request: Request, outcome: ControlOutcome, delivered: bool, lease: Option<Lease>, t: Time,
      u: Time)
    requires Current(sys, sid) && sys.sessions[sid].job.status == Running
    requires sys.sessions[sid].queue == [Deliver(request)]
    requires sys.sessions[sid].stage == BeforeSettlement(outcome, delivered)
    requires Store.Save(sys.db, Append(sys.sessions[sid].job, ControlSettled(request.controlId, outcome), t),
        Some(sys.sessions[sid].revision), lease, t).Err?
    ensures var job := sys.sessions[sid].job;
      var refused := Do(sys, PersistSettlement(sid, lease, t));
      var after := Do(refused, PersistLost(sid, None, u));
      && refused.db == sys.db && refused.handed == after.handed == sys.handed
      && sid in after.sessions && after.sessions[sid].queue == []
      && job.id in after.db.rows
      && (delivered ==> after.db.rows[job.id].record == Append(job, ControlSettled(request.controlId, Lost), u))
      && (!delivered ==> after.db == sys.db)
  {
    hide Safe, MemoryOk, Store.Save;
    SettlementSafe(sys, sid, lease, t);
    var refused := Do(sys, PersistSettlement(sid, lease, t));
    hide Emit;
    if delivered {
      var entry := refused.sessions[sid];
      var body := ControlSettled(request.controlId, Lost);
      EmitGoesThrough(refused, sid, body, u,
          Dequeue(entry).(job := Append(entry.job, body, u), revision := entry.revision + 1), Dequeue(entry));
    }
  }

  /**
   * A call changes nothing when its control id is in flight, was used for a different request, is
   * settled, or names an attempt that is over; any other call is queued, for delivery exactly if its id
   * is new.
   */
  lemma {:induction false} CallsQueuedExactlyWhen(sys: Sys, sid: nat, request: Request)
    requires Safe(sys) && sid in sys.sessions
    ensures var s, after := sys.sessions[sid], Do(sys, Call(sid, request));
      var flying := exists i :: 0 <= i < |s.queue| && s.queue[i].request.controlId == request.controlId;
      var used := exists e :: e in s.job.events && e.body.ControlRequested? && e.body.controlId == request.controlId;
      var settled := exists e :: e in s.job.events && e.body.ControlSettled? && e.body.settledId == request.controlId;
      var same := exists e ::
        e in s.job.events && e.body == ControlRequested(request.controlId, request.attempt, request.content);
      if flying || s.life != Open || (used && (!same || settled || s.attempt != request.attempt)) then after == sys
      else
        after == sys.(sessions := sys.sessions[sid :=
          s.(queue := s.queue + [if used then SettleUntracked(request) else Deliver(request)])])
  {
    hide Safe, RequestedIds, SettledIds;
    IdsAre(sys.sessions[sid].job.events, request.controlId);
  }

  /** The sets of a history's control ids are those that its events name. */
  lemma {:induction false} IdsAre(events: seq<Event>, id: string)
    ensures id in RequestedIds(events) <==> exists e ::
      e in events && e.body.ControlRequested? && e.body.controlId == id
    ensures id in SettledIds(events) <==> exists e :: e in events && e.body.ControlSettled? && e.body.settledId == id
  {
    if events != [] {
      var rest, last := events[..|events| - 1], events[|events| - 1];
      IdsAre(rest, id);
      assert events == rest + [last];
      assert last in events && forall e | e in rest :: e in events;
    }
  }
}
