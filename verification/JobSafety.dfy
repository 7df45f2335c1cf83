/**
 * What every interleaving of the Job protocol keeps: each attempt number reaches the worker at most
 * once and only after a persisted reservation, and a Job's history ends at most once.
 */
module JobSafety {
  import opened Prelude
  import opened Records
  import opened JobProtocol
  import Store = DurableStore
  import Inv = StoreInvariant

  type Rows = map<Id, Store.Row>

  // ---- Histories -----------------------------------------------------------

  /** The highest attempt number that a history reserves. */
  function HighWater(events: seq<Event>): nat {
    if events == [] then 0
    else
      var rest, reserved := HighWater(events[..|events| - 1]), Reserves(events[|events| - 1].body);
      if reserved.Some? && reserved.value > rest then reserved.value else rest
  }

  /** Every reservation in a history is of a higher number than all reservations before it. */
  predicate Ascending(events: seq<Event>) {
    events == [] ||
    (var rest, reserved := events[..|events| - 1], Reserves(events[|events| - 1].body);
     Ascending(rest) && (reserved.Some? ==> reserved.value > HighWater(rest)))
  }

  /** The terminal events of a history, in order. */
  function Outcomes(events: seq<Event>): seq<EventBody> {
    if events == [] then []
    else
      var last := events[|events| - 1].body;
      Outcomes(events[..|events| - 1]) + if IsTerminalEvent(last) then [last] else []
  }

  ghost predicate ReservedIn(events: seq<Event>, attempt: nat) {
    exists e :: e in events && Reserves(e.body) == Some(attempt)
  }

  /** The history holds a job.recovery.started. */
  ghost predicate Recovered(events: seq<Event>) {
    exists e :: e in events && e.body.RecoveryStarted?
  }

  lemma {:induction false} RecoveredAppended(events: seq<Event>, e: Event)
    ensures Recovered(events + [e]) <==> Recovered(events) || e.body.RecoveryStarted?
  {
    if Recovered(events) {
      var r :| r in events && r.body.RecoveryStarted?;
      assert r in events + [e];
    }
    assert e in events + [e];
  }

  lemma {:induction false} Appended(events: seq<Event>, e: Event)
    ensures HighWater(events + [e]) ==
      if Reserves(e.body).Some? && Reserves(e.body).value > HighWater(events) then Reserves(e.body).value
          else HighWater(events)
    ensures Outcomes(events + [e]) == Outcomes(events) + if IsTerminalEvent(e.body) then [e.body] else []
    ensures Ascending(events + [e]) <==>
      Ascending(events) && (Reserves(e.body).Some? ==> Reserves(e.body).value > HighWater(events))
  {
    assert (events + [e])[..|events|] == events;
  }

  lemma {:induction false} ReservedIsBelowHighWater(events: seq<Event>, attempt: nat)
    requires ReservedIn(events, attempt)
    ensures attempt <= HighWater(events)
  {
    var last := events[|events| - 1];
    if Reserves(last.body) != Some(attempt) {
      var e :| e in events && Reserves(e.body) == Some(attempt);
      assert e in events[..|events| - 1];
      ReservedIsBelowHighWater(events[..|events| - 1], attempt);
    }
  }

  lemma {:induction false} OutcomesGrow(events: seq<Event>, later: seq<Event>)
    requires events <= later
    ensures Outcomes(events) <= Outcomes(later)
  {
    if events != later {
      OutcomesGrow(events, later[..|later| - 1]);
    }
  }

  // ---- The invariant -------------------------------------------------------

  /** A Job, in the store or in an activation's memory, that persisted `outcomes` so far. */
  ghost predicate RecordOk(job: Record) {
    && job.body.JobBody?
    && Ascending(job.events)
    && HighWater(job.events) <= job.body.attempt
    && (job.status == Queued ==> HighWater(job.events) == 0 && (job.body.attempt == 0 <==> !Recovered(job.events)))
    && (Outcomes(job.events) == [] || (IsTerminal(job.status) && Outcomes(job.events) == [TerminalEvent(job.status)]))
  }

  /** The attempt an activation may run without persisting anything more. */
  function Token(s: Session): Option<nat> {
    match s.phase
    case Reserved(attempt) => Some(attempt)
    case Waiting(start) => if s.job.status == Queued then None else Some(start)
    case _ => None
  }

  /** What an activation's memory looks like in each phase. */
  predicate PhaseOk(s: Session) {
    && (s.phase.Closed? || Outcomes(s.job.events) == [])
    && match s.phase
       case Waiting(start) =>
         start >= 1 && if s.job.status == Queued then start == 1 else s.job.status == Running && Attempt(s.job) == start
       case Reserved(attempt) => s.job.status == Running && Attempt(s.job) == attempt && attempt >= 1
       case Working(attempt) => s.job.status == Running && Attempt(s.job) == attempt
       case Backoff(attempt) =>
           s.job.status == Running && Attempt(s.job) == attempt + 1 && HighWater(s.job.events) <= attempt
       case Settling(outcome) => s.job.status == outcome && IsTerminal(outcome)
       case RecoverRead => s.job.status in {Queued, Running}
       case RecoverLost(lost) => s.job.status == Running && Attempt(s.job) == lost
       case RecoverReady(previous, next) =>
         || (previous == Running && s.job.status == Running && next == Attempt(s.job) + 1)
         || (previous == Queued && s.job.status == Queued && next == 1)
       case Closed => true
  }

  /** The activation's next save passes the revision check. */
  predicate Fresh(rows: Rows, s: Session) {
    s.job.id in rows && s.revision == rows[s.job.id].revision
  }

  ghost predicate SessionOk(rows: Rows, s: Session) {
    && s.job.id in rows
    && s.revision <= rows[s.job.id].revision
    && MaxAttempts(s.job) == MaxAttempts(rows[s.job.id].record)
    && RecordOk(s.job) && PhaseOk(s)
    && (Fresh(rows, s) ==>
         s.job.events == rows[s.job.id].record.events && Artifacts(s.job) == Artifacts(rows[s.job.id].record))
  }

  /** The reservation of the attempt is persisted. */
  ghost predicate Backed(rows: Rows, id: Id, attempt: nat) {
    id in rows && ReservedIn(rows[id].record.events, attempt) && attempt >= 1
  }

  /** Nobody has run this attempt, and no activation other than `sid` holds the token for it. */
  ghost predicate Free(sessions: map<nat, Session>, runs: seq<Run>, sid: nat, id: Id, attempt: nat) {
    && Run(id, attempt) !in runs
    && forall other | other in sessions && other != sid && sessions[other].job.id == id ::
         Token(sessions[other]) != Some(attempt)
  }

  ghost predicate RowsOk(rows: Rows) {
    forall id | id in rows :: RecordOk(rows[id].record)
  }

  ghost predicate SessionsOk(rows: Rows, sessions: map<nat, Session>) {
    forall sid | sid in sessions :: SessionOk(rows, sessions[sid])
  }

  ghost predicate RunsOk(rows: Rows, runs: seq<Run>) {
    && (forall i | 0 <= i < |runs| ::
          Backed(rows, runs[i].jobId, runs[i].attempt) && runs[i].attempt <= MaxAttempts(rows[runs[i].jobId].record))
    && (forall i, j | 0 <= i < j < |runs| :: runs[i] != runs[j])
  }

  ghost predicate TokensOk(rows: Rows, sessions: map<nat, Session>, runs: seq<Run>) {
    forall sid | sid in sessions && Token(sessions[sid]).Some? ::
      && Backed(rows, sessions[sid].job.id, Token(sessions[sid]).value)
      && Free(sessions, runs, sid, sessions[sid].job.id, Token(sessions[sid]).value)
  }

  ghost predicate Safe(sys: Sys) {
    && sys.db.kind == JobKind
    && Inv.ValidDb(sys.db)
    && RowsOk(sys.db.rows)
    && SessionsOk(sys.db.rows, sys.sessions)
    && RunsOk(sys.db.rows, sys.runs)
    && TokensOk(sys.db.rows, sys.sessions, sys.runs)
  }

  // ---- Rows over time ------------------------------------------------------

  /** A Job's attempt limit never changes, and its recorded artifacts are never taken back. */
  predicate Extends(before: Record, after: Record) {
    MaxAttempts(before) == MaxAttempts(after) && Artifacts(before) <= Artifacts(after)
  }

  /** Rows are only committed over and inserted, and what their Jobs keep is kept. */
  ghost predicate Onward(a: Rows, b: Rows) {
    Inv.RowsLater(a, b) && forall id | id in a && id in b :: Extends(a[id].record, b[id].record)
  }

  lemma {:induction false} BackedStays(a: Rows, b: Rows, id: Id, attempt: nat)
    requires Inv.RowsLater(a, b) && Backed(a, id, attempt)
    ensures Backed(b, id, attempt)
  {
    var e :| e in a[id].record.events && Reserves(e.body) == Some(attempt);
    assert e in b[id].record.events;
  }

  lemma {:induction false} SessionsElapse(a: Rows, b: Rows, sessions: map<nat, Session>)
    requires Onward(a, b) && SessionsOk(a, sessions)
    ensures SessionsOk(b, sessions)
  {
    hide RecordOk, PhaseOk;
    forall sid | sid in sessions
      ensures SessionOk(b, sessions[sid])
    {
      assert SessionOk(a, sessions[sid]);
    }
  }

  lemma {:induction false} RunsElapse(a: Rows, b: Rows, runs: seq<Run>)
    requires Onward(a, b) && RunsOk(a, runs)
    ensures RunsOk(b, runs)
  {
    hide ReservedIn;
    forall i | 0 <= i < |runs|
      ensures Backed(b, runs[i].jobId, runs[i].attempt) && runs[i].attempt <= MaxAttempts(b[runs[i].jobId].record)
    {
      BackedStays(a, b, runs[i].jobId, runs[i].attempt);
    }
  }

  lemma {:induction false} TokensElapse(a: Rows, b: Rows, sessions: map<nat, Session>, runs: seq<Run>)
    requires Inv.RowsLater(a, b) && TokensOk(a, sessions, runs)
    ensures TokensOk(b, sessions, runs)
  {
    hide Backed, Free, Token, Inv.RowsLater;
    forall sid | sid in sessions && Token(sessions[sid]).Some?
      ensures Backed(b, sessions[sid].job.id, Token(sessions[sid]).value)
    {
      BackedStays(a, b, sessions[sid].job.id, Token(sessions[sid]).value);
    }
  }

  /** The store moved on: every activation, run and token is as good as before. */
  lemma {:induction false} StoreMoves(sys: Sys, db: Store.Db)
    requires Safe(sys) && Inv.ValidDb(db) && db.kind == JobKind
    requires Onward(sys.db.rows, db.rows) && RowsOk(db.rows)
    ensures Safe(sys.(db := db))
  {
    SessionsElapse(sys.db.rows, db.rows, sys.sessions);
    RunsElapse(sys.db.rows, db.rows, sys.runs);
    TokensElapse(sys.db.rows, db.rows, sys.sessions, sys.runs);
    hide RowsOk, SessionsOk, RunsOk, TokensOk, Inv.ValidDb, Onward;
  }

  /** An attempt above everything a Job's history reserves has neither run nor been handed out. */
  lemma {:induction false} UnreservedIsFree(
      rows: Rows, sessions: map<nat, Session>, runs: seq<Run>, sid: nat, id: Id, attempt: nat)
    requires RunsOk(rows, runs) && TokensOk(rows, sessions, runs) && id in rows
    requires attempt > HighWater(rows[id].record.events)
    ensures Free(sessions, runs, sid, id, attempt)
  {
    hide HighWater, ReservedIn, Token, MaxAttempts;
    if ReservedIn(rows[id].record.events, attempt) {
      ReservedIsBelowHighWater(rows[id].record.events, attempt);
    }
  }

  /** A session enters a new phase, with no token or one that is backed and free. */
  lemma {:induction false} SessionMoves(sys: Sys, sid: nat, next: Session)
    requires Safe(sys) && SessionOk(sys.db.rows, next)
    requires Token(next).Some? ==>
      && Backed(sys.db.rows, next.job.id, Token(next).value)
      && Free(sys.sessions, sys.runs, sid, next.job.id, Token(next).value)
    ensures Safe(Stay(sys, sid, next))
  {
    hide Inv.ValidDb, RowsOk, RunsOk, SessionOk, Backed, Token;
    var after := sys.sessions[sid := next];
    forall other | other in after && Token(after[other]).Some?
      ensures Free(after, sys.runs, other, after[other].job.id, Token(after[other]).value)
    {
      if other != sid {
        assert Free(sys.sessions, sys.runs, other, after[other].job.id, Token(after[other]).value);
      }
    }
  }

  /** A change of phase in memory alone; it may keep the session's token. */
  lemma {:induction false} MemoryMoves(sys: Sys, sid: nat, next: Session)
    requires Safe(sys) && sid in sys.sessions
    requires next.job.id == sys.sessions[sid].job.id && next.revision == sys.sessions[sid].revision
    requires next.job.events == sys.sessions[sid].job.events
      && MaxAttempts(next.job) == MaxAttempts(sys.sessions[sid].job)
    requires Artifacts(next.job) == Artifacts(sys.sessions[sid].job)
    requires RecordOk(next.job) && PhaseOk(next)
    requires Token(next) == None || Token(next) == Token(sys.sessions[sid])
    ensures Safe(Stay(sys, sid, next))
  {
    assert SessionOk(sys.db.rows, sys.sessions[sid]);
    hide Inv.ValidDb, RowsOk, RunsOk, RecordOk, PhaseOk, Backed, Token, Free;
    SessionMoves(sys, sid, next);
  }

  // ---- Saving --------------------------------------------------------------

  /** A save that commits writes exactly the presented copy, over the revision it was based on. */
  lemma {:induction false} SaveWrites(db: Store.Db, job: Record, revision: nat, lease: Option<Lease>, now: Time)
    requires Inv.ValidDb(db) && Store.Save(db, job, Some(revision), lease, now).Ok?
    ensures job.id in db.rows && db.rows[job.id].revision == revision
    ensures var after := Store.Save(db, job, Some(revision), lease, now).value;
      && Inv.ValidDb(after) && Inv.RowsLater(db.rows, after.rows) && after.kind == db.kind
      && after.rows == db.rows[job.id := Store.Row(revision + 1, |job.events|, job)]
  {
    hide Store.LeaseCurrent, Store.InsertEvents, Inv.ValidDb;
    Inv.SaveKeeps(db, job, Some(revision), lease, now);
  }

  /** What a save may persist for session `sid`: its memory, with at most one more event. */
  ghost predicate Persistable(s: Session, job: Record, next: Phase) {
    && job.id == s.job.id
    && Extends(s.job, job)
    && RecordOk(job) && PhaseOk(Session(job, s.revision + 1, next))
  }

  /** The next phase holds no token, the old one, or one whose reservation this very save persists. */
  ghost predicate Earned(s: Session, job: Record, next: Phase) {
    var token := Token(Session(job, s.revision + 1, next));
    && (token.None? || token == Token(s)
         || (token.value > HighWater(s.job.events) && ReservedIn(job.events, token.value)))
    && (token.Some? ==> token.value >= 1)
  }

  lemma {:induction false} EarnedToken(sys: Sys, sid: nat, job: Record, next: Phase, rows: Rows)
    requires Safe(sys) && sid in sys.sessions && Fresh(sys.db.rows, sys.sessions[sid])
    requires job.id == sys.sessions[sid].job.id && Earned(sys.sessions[sid], job, next)
    requires Inv.RowsLater(sys.db.rows, rows) && job.id in rows && rows[job.id].record == job
    ensures var token := Token(Session(job, sys.sessions[sid].revision + 1, next));
      token.Some? ==> Backed(rows, job.id, token.value) && Free(sys.sessions, sys.runs, sid, job.id, token.value)
  {
    var s := sys.sessions[sid];
    assert SessionOk(sys.db.rows, s);
    var token := Token(Session(job, s.revision + 1, next));
    if token.Some? {
      hide Inv.ValidDb, RowsOk, RecordOk, PhaseOk, Token, HighWater, ReservedIn, Inv.RowsLater, Free;
      if token == Token(s) {
        BackedStays(sys.db.rows, rows, job.id, token.value);
      } else {
        UnreservedIsFree(sys.db.rows, sys.sessions, sys.runs, sid, job.id, token.value);
      }
    }
  }

  /** The row a commit writes is a Job in order, and no limit changes. */
  lemma {:induction false} RowWritten(rows: Rows, job: Record, row: Store.Row)
    requires RowsOk(rows) && RecordOk(job) && row.record == job && job.id in rows
    requires Extends(rows[job.id].record, job)
    requires Inv.RowsLater(rows, rows[job.id := row])
    ensures RowsOk(rows[job.id := row]) && Onward(rows, rows[job.id := row])
  {
    hide RecordOk;
  }

  /** The database that session `sid` leaves after committing `job`. */
  ghost predicate CommitsTo(sys: Sys, s: Session, job: Record, db: Store.Db) {
    && Inv.ValidDb(db) && db.kind == JobKind
    && Fresh(sys.db.rows, s) && s.job.id == job.id
    && db.rows == sys.db.rows[job.id := Store.Row(s.revision + 1, |job.events|, job)]
    && Inv.RowsLater(sys.db.rows, db.rows)
  }

  lemma {:induction false} CommitMovesStore(sys: Sys, sid: nat, job: Record, db: Store.Db)
    requires Safe(sys) && sid in sys.sessions && CommitsTo(sys, sys.sessions[sid], job, db)
    requires RecordOk(job) && Extends(sys.sessions[sid].job, job)
    ensures Safe(sys.(db := db))
  {
    assert SessionOk(sys.db.rows, sys.sessions[sid]);
    hide Inv.ValidDb, RowsOk, RunsOk, TokensOk, SessionsOk, Onward, RecordOk, Inv.RowsLater;
    RowWritten(sys.db.rows, job, db.rows[job.id]);
    StoreMoves(sys, db);
  }

  lemma {:induction false} CommittedSession(rows: Rows, job: Record, next: Session)
    requires RecordOk(job) && PhaseOk(next) && next.job == job
    requires job.id in rows && rows[job.id].record == job && rows[job.id].revision == next.revision
    ensures SessionOk(rows, next)
  {
    hide RecordOk, PhaseOk;
  }

  lemma {:induction false} CommitSafe(sys: Sys, sid: nat, job: Record, next: Phase, db: Store.Db)
    requires Safe(sys) && sid in sys.sessions
    requires Persistable(sys.sessions[sid], job, next) && Earned(sys.sessions[sid], job, next)
    requires CommitsTo(sys, sys.sessions[sid], job, db)
    ensures Safe(Sys(db, sys.sessions[sid := Session(job, sys.sessions[sid].revision + 1, next)], sys.runs))
  {
    var s := sys.sessions[sid];
    var after := Session(job, s.revision + 1, next);
    hide Safe, SessionOk, Inv.ValidDb, RecordOk, PhaseOk, Token, Earned, Backed, Free, Inv.RowsLater, MaxAttempts;
    CommitMovesStore(sys, sid, job, db);
    EarnedToken(sys, sid, job, next, db.rows);
    CommittedSession(db.rows, job, after);
    SessionMoves(sys.(db := db), sid, after);
  }

  /** A save that only adds no token, and whose failure is handled in memory. */
  lemma {:induction false} PersistSafe(
      sys: Sys, sid: nat, job: Record, lease: Option<Lease>, now: Time, next: Phase, failed: Session)
    requires Safe(sys) && sid in sys.sessions
    requires Persistable(sys.sessions[sid], job, next) && Earned(sys.sessions[sid], job, next)
    requires Store.Save(sys.db, job, Some(sys.sessions[sid].revision), lease, now).Err? ==> Safe(Stay(sys, sid, failed))
    ensures Safe(Persist(sys, sid, job, lease, now, next, failed))
  {
    hide RecordOk, PhaseOk, Earned, Store.Save, Inv.ValidDb, RowsOk, SessionsOk, RunsOk, TokensOk, Inv.RowsLater;
    var saved := Store.Save(sys.db, job, Some(sys.sessions[sid].revision), lease, now);
    if saved.Ok? {
      SaveWrites(sys.db, job, sys.sessions[sid].revision, lease, now);
      CommitSafe(sys, sid, job, next, saved.value);
    }
  }

  // ---- Moves of one activation ---------------------------------------------

  lemma {:induction false} Memory(sys: Sys, sid: nat)
    requires Safe(sys) && sid in sys.sessions
    ensures RecordOk(sys.sessions[sid].job) && PhaseOk(sys.sessions[sid])
    ensures SessionOk(sys.db.rows, sys.sessions[sid])
  {
    hide Inv.ValidDb, RowsOk, RunsOk, TokensOk, RecordOk, PhaseOk;
  }

  /** An activation's memory with one more event that neither reserves nor ends anything. */
  lemma {:induction false} PlainAppend(job: Record, body: EventBody, at: Time)
    requires RecordOk(job) && Reserves(body) == None && !IsTerminalEvent(body) && !body.RecoveryStarted?
    ensures RecordOk(Append(job, body, at))
    ensures HighWater(Append(job, body, at).events) == HighWater(job.events)
    ensures Outcomes(Append(job, body, at).events) == Outcomes(job.events)
  {
    hide HighWater, Outcomes, Ascending, Recovered;
    Appended(job.events, Event(|job.events| + 1, at, body));
    RecoveredAppended(job.events, Event(|job.events| + 1, at, body));
  }

  /** A queued Job's recovery is what its attempt number 1 stands for. */
  lemma {:induction false} QueuedRecoveryAppend(job: Record, at: Time)
    requires RecordOk(job) && job.status == Queued
    ensures var after := Append(WithAttempt(job, 1), RecoveryStarted(Queued, 1), at);
      RecordOk(after) && Outcomes(after.events) == Outcomes(job.events)
  {
    hide HighWater, Outcomes, Ascending, Recovered;
    var e := Event(|job.events| + 1, at, RecoveryStarted(Queued, 1));
    Appended(job.events, e);
    RecoveredAppended(job.events, e);
  }

  /** An append that reserves the attempt the Job is now on. */
  lemma {:induction false} ReservingAppend(job: Record, body: EventBody, at: Time)
    requires job.body.JobBody? && Ascending(job.events) && Outcomes(job.events) == [] && job.status != Queued
    requires !IsTerminalEvent(body) && Reserves(body) == Some(Attempt(job)) && Attempt(job) > HighWater(job.events)
    ensures RecordOk(Append(job, body, at))
    ensures Outcomes(Append(job, body, at).events) == []
    ensures ReservedIn(Append(job, body, at).events, Attempt(job))
  {
    var e := Event(|job.events| + 1, at, body);
    Appended(job.events, e);
    assert e in Append(job, body, at).events;
    hide HighWater, Outcomes, Ascending;
  }

  lemma {:induction false} NoteSafe(sys: Sys, sid: nat, body: Option<EventBody>, lease: Option<Lease>, now: Time)
    requires Safe(sys)
    ensures Safe(DoNote(sys, sid, body, lease, now))
  {
    hide Safe, SessionOk, RecordOk, HighWater, Outcomes, Persist;
    if sid in sys.sessions && (body.Some? ==> IsNote(body.value)) {
      var s := sys.sessions[sid];
      Memory(sys, sid);
      if body.Some? {
        PlainAppend(s.job, body.value, now);
      }
      MemoryMoves(sys, sid, s);
      PersistSafe(sys, sid, if body.Some? then Append(s.job, body.value, now) else s.job, lease, now, s.phase, s);
    }
  }

  lemma {:induction false} StartSafe(sys: Sys, sid: nat, lease: Option<Lease>, now: Time)
    requires Safe(sys)
    ensures Safe(DoStart(sys, sid, lease, now))
  {
    hide Safe, SessionOk, HighWater, Outcomes, Ascending, Persist, ReservedIn;
    if sid in sys.sessions && sys.sessions[sid].phase.Waiting? && sys.sessions[sid].job.status == Queued {
      var s := sys.sessions[sid];
      Memory(sys, sid);
      var failed := Session(s.job.(status := Running), s.revision, Closed);
      var running := WithAttempt(s.job, s.phase.start).(status := Running);
      ReservingAppend(running, JobStarted, now);
      MemoryMoves(sys, sid, failed);
      PersistSafe(sys, sid, Append(running, JobStarted, now), lease, now, Reserved(s.phase.start), failed);
    }
  }

  lemma {:induction false} ResumeSafe(sys: Sys, sid: nat)
    requires Safe(sys)
    ensures Safe(DoResume(sys, sid))
  {
    hide Safe, RecordOk, SessionOk;
    if sid in sys.sessions && sys.sessions[sid].phase.Waiting? && sys.sessions[sid].job.status != Queued {
      var s := sys.sessions[sid];
      Memory(sys, sid);
      MemoryMoves(sys, sid, s.(phase := Reserved(s.phase.start)));
    }
  }

  /** A token nobody else holds may be spent by a run. */
  lemma {:induction false} RunAdded(sys: Sys, id: Id, attempt: nat)
    requires Safe(sys) && Backed(sys.db.rows, id, attempt) && attempt <= MaxAttempts(sys.db.rows[id].record)
    requires Run(id, attempt) !in sys.runs
    requires forall sid | sid in sys.sessions && sys.sessions[sid].job.id == id ::
      Token(sys.sessions[sid]) != Some(attempt)
    ensures Safe(sys.(runs := sys.runs + [Run(id, attempt)]))
  {
    hide Inv.ValidDb, RowsOk, SessionsOk, ReservedIn, MaxAttempts, Token;
    var runs := sys.runs + [Run(id, attempt)];
    forall other | other in sys.sessions && Token(sys.sessions[other]).Some?
      ensures Free(sys.sessions, runs, other, sys.sessions[other].job.id, Token(sys.sessions[other]).value)
    {
      assert Free(sys.sessions, sys.runs, other, sys.sessions[other].job.id, Token(sys.sessions[other]).value);
    }
  }

  lemma {:induction false} TokenIsFree(sys: Sys, sid: nat)
    requires Safe(sys) && sid in sys.sessions && Token(sys.sessions[sid]).Some?
    ensures Backed(sys.db.rows, sys.sessions[sid].job.id, Token(sys.sessions[sid]).value)
    ensures Free(sys.sessions, sys.runs, sid, sys.sessions[sid].job.id, Token(sys.sessions[sid]).value)
  {
    hide Inv.ValidDb, RowsOk, SessionsOk, RunsOk, Token, Backed, Free;
  }

  /** Running spends the token: no other activation holds it and it never ran before. */
  lemma {:induction false} RunsOnce(sys: Sys, sid: nat)
    requires Safe(sys) && sid in sys.sessions && sys.sessions[sid].phase.Reserved?
    requires sys.sessions[sid].phase.attempt <= MaxAttempts(sys.sessions[sid].job)
    ensures var s := sys.sessions[sid];
      && Safe(Stay(sys, sid, s.(phase := Working(s.phase.attempt))).(runs := sys.runs
           + [Run(s.job.id, s.phase.attempt)]))
      && Backed(sys.db.rows, s.job.id, s.phase.attempt) && Run(s.job.id, s.phase.attempt) !in sys.runs
  {
    hide Safe, RecordOk, ReservedIn;
    var s := sys.sessions[sid];
    Memory(sys, sid);
    TokenIsFree(sys, sid);
    MemoryMoves(sys, sid, s.(phase := Working(s.phase.attempt)));
    RunAdded(Stay(sys, sid, s.(phase := Working(s.phase.attempt))), s.job.id, s.phase.attempt);
  }

  lemma {:induction false} LaunchSafe(sys: Sys, sid: nat, reached: bool)
    requires Safe(sys)
    ensures Safe(DoLaunch(sys, sid, reached))
  {
    hide Safe, RecordOk, SessionOk;
    if sid in sys.sessions && sys.sessions[sid].phase.Reserved? {
      var s := sys.sessions[sid];
      var attempt := s.phase.attempt;
      Memory(sys, sid);
      MemoryMoves(sys, sid, s.(phase := Closed));
      MemoryMoves(sys, sid, s.(phase := Working(attempt)));
      if attempt <= MaxAttempts(s.job) && reached {
        RunsOnce(sys, sid);
      }
    }
  }

  lemma {:induction false} CaptureSafe(sys: Sys, sid: nat, artifact: Artifact, lease: Option<Lease>, now: Time)
    requires Safe(sys)
    ensures Safe(DoCapture(sys, sid, artifact, lease, now))
  {
    hide Safe, SessionOk, HighWater, Outcomes, Ascending, Recovered, Persist;
    if sid in sys.sessions && sys.sessions[sid].phase.Working? {
      var s := sys.sessions[sid];
      Memory(sys, sid);
      var job := WithArtifact(s.job, artifact);
      PlainAppend(job, Other("job.artifact"), now);
      MemoryMoves(sys, sid, s);
      PersistSafe(sys, sid, Append(job, Other("job.artifact"), now), lease, now, s.phase, s);
    }
  }

  lemma {:induction false} RetrySafe(sys: Sys, sid: nat)
    requires Safe(sys)
    ensures Safe(DoRetry(sys, sid))
  {
    hide Safe, HighWater, Outcomes, Ascending, SessionOk;
    if sid in sys.sessions && sys.sessions[sid].phase.Working? {
      var s := sys.sessions[sid];
      Memory(sys, sid);
      MemoryMoves(sys, sid, Session(WithAttempt(s.job, s.phase.attempt + 1), s.revision, Backoff(s.phase.attempt)));
    }
  }

  lemma {:induction false} PersistRetrySafe(sys: Sys, sid: nat, lease: Option<Lease>, now: Time)
    requires Safe(sys)
    ensures Safe(DoPersistRetry(sys, sid, lease, now))
  {
    hide Safe, SessionOk, HighWater, Outcomes, Ascending, Persist, ReservedIn;
    if sid in sys.sessions && sys.sessions[sid].phase.Backoff? {
      var s := sys.sessions[sid];
      var attempt := s.phase.attempt;
      Memory(sys, sid);
      var failed := Session(WithAttempt(s.job, attempt), s.revision, Closed);
      ReservingAppend(s.job, JobRetrying(attempt, attempt + 1), now);
      MemoryMoves(sys, sid, failed);
      PersistSafe(sys, sid, Append(s.job, JobRetrying(attempt, attempt + 1), now), lease, now, Reserved(attempt + 1),
          failed);
    }
  }

  lemma {:induction false} SettleSafe(sys: Sys, sid: nat, outcome: Status)
    requires Safe(sys)
    ensures Safe(DoSettle(sys, sid, outcome))
  {
    hide Safe, HighWater, Outcomes, Ascending, SessionOk;
    if sid in sys.sessions {
      var s := sys.sessions[sid];
      Memory(sys, sid);
      if outcome in {Succeeded, Failed, Cancelled} && !s.phase.Closed? {
        MemoryMoves(sys, sid, Session(s.job.(status := outcome), s.revision, Settling(outcome)));
      }
    }
  }

  lemma {:induction false} PersistSettledSafe(sys: Sys, sid: nat, lease: Option<Lease>, now: Time)
    requires Safe(sys)
    ensures Safe(DoPersistSettled(sys, sid, lease, now))
  {
    hide HighWater, Outcomes, Ascending, Safe, Persist, Store.Save, SessionOk;
    if sid in sys.sessions && sys.sessions[sid].phase.Settling? {
      var s := sys.sessions[sid];
      Memory(sys, sid);
      var job := Append(s.job, TerminalEvent(s.phase.outcome), now);
      Appended(s.job.events, Event(|s.job.events| + 1, now, TerminalEvent(s.phase.outcome)));
      MemoryMoves(sys, sid, s.(phase := Closed));
      MemoryMoves(sys, sid, Session(s.job.(status := Cancelled), s.revision, Settling(Cancelled)));
      var saved := Store.Save(sys.db, job, Some(s.revision), lease, now);
      var failed :=
        if saved.Err? && saved.error.CancellationRequested?
        then Session(s.job.(status := Cancelled), s.revision, Settling(Cancelled))
        else s.(phase := Closed);
      PersistSafe(sys, sid, job, lease, now, Closed, failed);
    }
  }

  lemma {:induction false} RecoveredRow(sys: Sys, id: Id)
    requires Safe(sys) && id in sys.db.rows
    ensures RecordOk(sys.db.rows[id].record) && sys.db.rows[id].record.id == id
  {
    hide SessionsOk, RunsOk, TokensOk, RecordOk, Inv.EventTableValid;
  }

  lemma {:induction false} RecoverSafe(sys: Sys, sid: nat, jobId: Id)
    requires Safe(sys)
    ensures Safe(DoRecover(sys, sid, jobId))
  {
    hide Safe, HighWater, Outcomes, Ascending;
    if sid !in sys.sessions && jobId in sys.db.rows {
      var row := sys.db.rows[jobId];
      RecoveredRow(sys, jobId);
      if row.record.status in {Queued, Running} {
        SessionMoves(sys, sid, Session(row.record, row.revision, RecoverRead));
      }
    }
  }

  lemma {:induction false} DecideSafe(sys: Sys, sid: nat)
    requires Safe(sys)
    ensures Safe(DoDecide(sys, sid))
  {
    hide Safe, HighWater, Outcomes, Ascending, SessionOk, Recovered;
    if sid in sys.sessions && sys.sessions[sid].phase.RecoverRead? {
      var s := sys.sessions[sid];
      Memory(sys, sid);
      MemoryMoves(sys, sid, DoDecide(sys, sid).sessions[sid]);
    }
  }

  lemma {:induction false} FailLost(sys: Sys, sid: nat)
    requires Safe(sys) && sid in sys.sessions && sys.sessions[sid].phase.RecoverReady?
    ensures var s := sys.sessions[sid];
      Safe(Stay(sys, sid, Session(s.job.(status := Failed), s.revision, Settling(Failed))))
  {
    hide Safe, SessionOk, HighWater, Outcomes, Ascending;
    var s := sys.sessions[sid];
    Memory(sys, sid);
    MemoryMoves(sys, sid, Session(s.job.(status := Failed), s.revision, Settling(Failed)));
  }

  lemma {:induction false} PersistLostSafe(sys: Sys, sid: nat, lease: Option<Lease>, now: Time)
    requires Safe(sys)
    ensures Safe(DoPersistLost(sys, sid, lease, now))
  {
    hide Safe, SessionOk, RecordOk, HighWater, Outcomes, Store.Save;
    if sid in sys.sessions && sys.sessions[sid].phase.RecoverLost? {
      var s := sys.sessions[sid];
      var lost := s.phase.lost;
      Memory(sys, sid);
      PlainAppend(s.job, AttemptLost(lost), now);
      MemoryMoves(sys, sid, s.(phase := Closed));
      PersistSafe(sys, sid, Append(s.job, AttemptLost(lost), now), lease, now, RecoverReady(Running, lost + 1),
          s.(phase := Closed));
      var after := Persist(sys, sid, Append(s.job, AttemptLost(lost), now), lease, now,
                           RecoverReady(Running, lost + 1), s.(phase := Closed));
      if after.sessions[sid].phase.RecoverReady? {
        FailLost(after, sid);
      }
    }
  }

  lemma {:induction false} PersistRecoverySafe(sys: Sys, sid: nat, lease: Option<Lease>, now: Time)
    requires Safe(sys)
    ensures Safe(DoPersistRecovery(sys, sid, lease, now))
  {
    hide Safe, SessionOk, HighWater, Outcomes, Ascending, Persist, ReservedIn;
    if sid in sys.sessions && sys.sessions[sid].phase.RecoverReady? {
      var s := sys.sessions[sid];
      var (previous, next) := (s.phase.previous, s.phase.next);
      Memory(sys, sid);
      var job := WithAttempt(s.job, next);
      if previous == Running {
        ReservingAppend(job, RecoveryStarted(previous, next), now);
      } else {
        QueuedRecoveryAppend(s.job, now);
      }
      MemoryMoves(sys, sid, s.(phase := Closed));
      PersistSafe(sys, sid, Append(job, RecoveryStarted(previous, next), now), lease, now, Waiting(next),
          s.(phase := Closed));
    }
  }

  lemma {:induction false} CrashSafe(sys: Sys, sid: nat)
    requires Safe(sys)
    ensures Safe(sys.(sessions := sys.sessions - {sid}))
  {
    hide Inv.ValidDb, RowsOk, RunsOk, SessionOk, Backed, Token;
    var after := sys.sessions - {sid};
    forall other | other in after && Token(after[other]).Some?
      ensures Free(after, sys.runs, other, after[other].job.id, Token(after[other]).value)
    {
      assert Free(sys.sessions, sys.runs, other, after[other].job.id, Token(after[other]).value);
    }
  }

  // ---- Admission and other calls -------------------------------------------

  /** An admission that creates its record writes that one row. */
  lemma {:induction false} AdmittedRow(db: Store.Db, record: Record, options: Store.Admission)
    requires var reply := Store.Step(db, Store.OpAdmit(record, options)).1;
      reply.AdmissionReply? && reply.outcome.Created?
    ensures record.id !in db.rows
    ensures Store.Step(db, Store.OpAdmit(record, options)).0.rows
      == db.rows[record.id := Store.Row(1, |record.events|, record)]
  {
    hide Store.Enroll, Store.InsertEvents;
    Inv.EnrollEffect(db, record, options);
  }

  lemma {:induction false} PoolAdmittedRow(
      db: Store.Db, key: string, members: seq<(string, Record)>, options: Store.Admission)
    requires var reply := Store.Step(db, Store.OpAdmitRoutePool(key, members, options)).1;
      reply.AdmissionReply? && reply.outcome.Created?
    ensures var chosen := Store.ChosenMember(db, key, Store.Names(members), options.now);
      && 0 <= chosen < |members|
      && var record := members[chosen].1;
      && record.id !in db.rows
      && Store.Step(db, Store.OpAdmitRoutePool(key, members, options)).0.rows
           == db.rows[record.id := Store.Row(1, |record.events|, record)]
  {
    hide Store.Enroll, Store.InsertEvents, Store.ActiveCounts;
    var chosen := Store.ChosenMember(db, key, Store.Names(members), options.now);
    Inv.EnrollEffect(db, members[chosen].1, options);
  }

  lemma {:induction false} QueuedJobOk(record: Record)
    requires IsQueuedJob(record)
    ensures RecordOk(record) && Outcomes(record.events) == []
  {
    assert record.events == [] + [record.events[0]];
    Appended([], record.events[0]);
    RecoveredAppended([], record.events[0]);
  }

  /** A new Job and the activation that its admission starts. */
  lemma {:induction false} ActivatedSafe(sys: Sys, sid: nat, record: Record, db: Store.Db)
    requires Safe(sys) && IsQueuedJob(record) && record.id !in sys.db.rows
    requires Inv.ValidDb(db) && db.kind == JobKind && Inv.RowsLater(sys.db.rows, db.rows)
    requires db.rows == sys.db.rows[record.id := Store.Row(1, |record.events|, record)]
    ensures Safe(sys.(db := db, sessions := sys.sessions[sid := Session(record, 1, Waiting(1))]))
  {
    hide HighWater, Outcomes, Ascending, Inv.ValidDb, Inv.RowsLater, RunsOk, TokensOk, SessionsOk;
    QueuedJobOk(record);
    StoreMoves(sys, db);
    SessionMoves(sys.(db := db), sid, Session(record, 1, Waiting(1)));
  }

  lemma {:induction false} AdmitSafe(sys: Sys, sid: nat, record: Record, options: Store.Admission)
    requires Safe(sys)
    ensures Safe(DoAdmit(sys, sid, record, Store.Step(sys.db, Store.OpAdmit(record, options))))
  {
    hide Store.Step, RowsOk, SessionsOk, RunsOk, TokensOk, Inv.ValidDb, Inv.RowsLater;
    var (db, reply) := Store.Step(sys.db, Store.OpAdmit(record, options));
    Inv.StepKeeps(sys.db, Store.OpAdmit(record, options));
    if reply.AdmissionReply? && reply.outcome.Created? && IsQueuedJob(record) {
      AdmittedRow(sys.db, record, options);
      ActivatedSafe(sys, sid, record, db);
    }
  }

  lemma {:induction false} AdmitPoolSafe(
      sys: Sys, sid: nat, key: string, members: seq<(string, Record)>, options: Store.Admission)
    requires Safe(sys)
    ensures Safe(DoAdmitPool(sys, sid, key, members, options))
  {
    hide Store.Step, RowsOk, SessionsOk, RunsOk, TokensOk, Inv.ValidDb, Inv.RowsLater, IsQueuedJob, Store.ChosenMember;
    var (db, reply) := Store.Step(sys.db, Store.OpAdmitRoutePool(key, members, options));
    Inv.StepKeeps(sys.db, Store.OpAdmitRoutePool(key, members, options));
    if members != [] && reply.AdmissionReply? && reply.outcome.Created? {
      PoolAdmittedRow(sys.db, key, members, options);
      var chosen := Store.ChosenMember(sys.db, key, Store.Names(members), options.now);
      if IsQueuedJob(members[chosen].1) {
        ActivatedSafe(sys, sid, members[chosen].1, db);
      }
    }
  }

  lemma {:induction false} WritesNoRow(db: Store.Db, op: Store.Op)
    requires WritesNoRecord(op)
    ensures Store.Step(db, op).0.rows == db.rows
  {
    hide Store.TryAcquire, Store.ClaimRow, Store.MoveCapacity, Store.LeaseCurrent;
    if op.OpTryAcquire? && Store.TryAcquire(db, op.acquirer, op.limit, op.triedAt).Ok? {
      Inv.TryAcquireFrame(db, op.acquirer, op.limit, op.triedAt);
    }
  }

  lemma {:induction false} StoreCallSafe(sys: Sys, op: Store.Op)
    requires Safe(sys) && WritesNoRecord(op)
    ensures Safe(sys.(db := Store.Step(sys.db, op).0))
  {
    hide Store.Step, RowsOk, SessionsOk, RunsOk, TokensOk, Inv.ValidDb, Inv.RowsLater, WritesNoRecord;
    Inv.StepKeeps(sys.db, op);
    WritesNoRow(sys.db, op);
    StoreMoves(sys, Store.Step(sys.db, op).0);
  }

  // ---- Every run -----------------------------------------------------------

  lemma {:induction false} MoveSafe(sys: Sys, move: Move)
    requires Safe(sys)
    ensures Safe(Do(sys, move))
  {
    hide Safe, DoAdmit, DoAdmitPool, DoNote, DoStart, DoResume, DoLaunch, DoCapture, DoRetry, DoPersistRetry, DoSettle,
        DoPersistSettled;
    hide DoRecover, DoDecide, DoPersistLost, DoPersistRecovery, Store.Step, WritesNoRecord;
    match move
    case StoreCall(op) => if WritesNoRecord(op) { StoreCallSafe(sys, op); }
    case Admit(sid, record, options) => AdmitSafe(sys, sid, record, options);
    case AdmitPool(sid, key, members, options) => AdmitPoolSafe(sys, sid, key, members, options);
    case Note(sid, body, lease, now) => NoteSafe(sys, sid, body, lease, now);
    case Start(sid, lease, now) => StartSafe(sys, sid, lease, now);
    case Resume(sid) => ResumeSafe(sys, sid);
    case Launch(sid, reached) => LaunchSafe(sys, sid, reached);
    case Capture(sid, artifact, lease, now) => CaptureSafe(sys, sid, artifact, lease, now);
    case Retry(sid) => RetrySafe(sys, sid);
    case PersistRetry(sid, lease, now) => PersistRetrySafe(sys, sid, lease, now);
    case Settle(sid, outcome) => SettleSafe(sys, sid, outcome);
    case PersistSettled(sid, lease, now) => PersistSettledSafe(sys, sid, lease, now);
    case Recover(sid, jobId) => RecoverSafe(sys, sid, jobId);
    case Decide(sid) => DecideSafe(sys, sid);
    case PersistLost(sid, lease, now) => PersistLostSafe(sys, sid, lease, now);
    case PersistRecovery(sid, lease, now) => PersistRecoverySafe(sys, sid, lease, now);
    case Crash(sid) => CrashSafe(sys, sid);
  }
}
