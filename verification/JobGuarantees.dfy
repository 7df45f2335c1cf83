/** What the Job protocol guarantees over every run of moves, for any number of processes and crashes. */
module JobGuarantees {
  import opened Prelude
  import opened Records
  import opened JobProtocol
  import opened JobSafety
  import Store = DurableStore
  import Inv = StoreInvariant

  lemma {:induction false} InitSafe()
    ensures Safe(Init())
  {
    Inv.EmptyValid(JobKind);
  }

  lemma {:induction false} ReachableSafe(moves: seq<Move>)
    ensures Safe(After(Init(), moves))
  {
    hide Safe, Do;
    if moves == [] {
      InitSafe();
    } else {
      ReachableSafe(moves[..|moves| - 1]);
      MoveSafe(After(Init(), moves[..|moves| - 1]), moves[|moves| - 1]);
    }
  }

  // ---- Worker runs ---------------------------------------------------------

  /** No attempt of a Job reaches the worker twice. */
  lemma {:induction false} AtMostOnce(moves: seq<Move>, i: nat, j: nat)
    requires i < j < |After(Init(), moves).runs|
    ensures After(Init(), moves).runs[i] != After(Init(), moves).runs[j]
  {
    hide After, Inv.ValidDb, RowsOk, SessionsOk, TokensOk, Backed, MaxAttempts;
    ReachableSafe(moves);
  }

  /** A move adds at most one run, and only of an attempt whose reservation was persisted before. */
  lemma {:induction false} RunOnlyAfterReservation(moves: seq<Move>, move: Move)
    ensures var before, after := After(Init(), moves), Do(After(Init(), moves), move);
      after.runs == before.runs
      || (&& |after.runs| == |before.runs| + 1
          && after.runs[..|before.runs|] == before.runs
          && var run := after.runs[|before.runs|];
          && run.jobId in before.db.rows
          && ReservedIn(before.db.rows[run.jobId].record.events, run.attempt)
          && after.db == before.db)
  {
    hide After, Safe, ReservedIn, Store.Step, Persist, RecordOk, PhaseOk;
    ReachableSafe(moves);
    var before := After(Init(), moves);
    if !move.Launch? {
      RunsUnchanged(before, move);
    } else if move.sid in before.sessions && before.sessions[move.sid].phase.Reserved? {
      TokenIsFree(before, move.sid);
    }
  }

  /** Only a launch runs a worker. */
  lemma {:induction false} RunsUnchanged(sys: Sys, move: Move)
    requires !move.Launch?
    ensures Do(sys, move).runs == sys.runs
  {
    hide Store.Step, Store.Save, Store.ChosenMember, IsQueuedJob, IsNote, WritesNoRecord, Append, WithAttempt;
  }

  /** The attempts of one Job that reached the worker, in the order they did. */
  function AttemptsRun(runs: seq<Run>, id: Id): seq<nat> {
    if runs == [] then []
    else
      var last := runs[|runs| - 1];
      AttemptsRun(runs[..|runs| - 1], id) + if last.jobId == id then [last.attempt] else []
  }

  lemma {:induction false} AttemptsRunAre(runs: seq<Run>, id: Id, attempt: nat)
    ensures attempt in AttemptsRun(runs, id) <==> Run(id, attempt) in runs
  {
    if runs != [] {
      AttemptsRunAre(runs[..|runs| - 1], id, attempt);
      assert runs == runs[..|runs| - 1] + [runs[|runs| - 1]];
    }
  }

  lemma {:induction false} AttemptsRunDistinct(runs: seq<Run>, id: Id)
    requires forall i, j | 0 <= i < j < |runs| :: runs[i] != runs[j]
    ensures forall i, j | 0 <= i < j < |AttemptsRun(runs, id)| :: AttemptsRun(runs, id)[i] != AttemptsRun(runs, id)[j]
  {
    if runs != [] {
      var rest := runs[..|runs| - 1];
      AttemptsRunDistinct(rest, id);
      AttemptsRunAre(rest, id, runs[|runs| - 1].attempt);
    }
  }

  /** Distinct numbers between 1 and n are at most n. */
  lemma {:induction false} DistinctAreFew(numbers: seq<nat>, n: nat)
    requires forall i | 0 <= i < |numbers| :: 1 <= numbers[i] <= n
    requires forall i, j | 0 <= i < j < |numbers| :: numbers[i] != numbers[j]
    ensures |numbers| <= n
  {
    if numbers != [] {
      assert 1 <= numbers[0] <= n;
      if i :| 0 <= i < |numbers| && numbers[i] == n {
        DistinctAreFew(numbers[..i] + numbers[i + 1..], n - 1);
      } else {
        DistinctAreFew(numbers, n - 1);
      }
    }
  }

  /** The worker runs of a Job never exceed its route's attempt limit. */
  lemma {:induction false} RunsWithinLimit(moves: seq<Move>, id: Id)
    requires id in After(Init(), moves).db.rows
    ensures |AttemptsRun(After(Init(), moves).runs, id)| <= MaxAttempts(After(Init(), moves).db.rows[id].record)
  {
    hide After, Inv.ValidDb, RowsOk, SessionsOk, TokensOk, ReservedIn, MaxAttempts;
    ReachableSafe(moves);
    var sys := After(Init(), moves);
    var attempts := AttemptsRun(sys.runs, id);
    AttemptsRunDistinct(sys.runs, id);
    forall i | 0 <= i < |attempts|
      ensures 1 <= attempts[i] <= MaxAttempts(sys.db.rows[id].record)
    {
      AttemptsRunAre(sys.runs, id, attempts[i]);
    }
    hide AttemptsRun;
    DistinctAreFew(attempts, MaxAttempts(sys.db.rows[id].record));
  }

  /** The attempt loop's reservation check can never fail. */
  lemma {:induction false} ReservationMatches(moves: seq<Move>, sid: nat)
    requires sid in After(Init(), moves).sessions && After(Init(), moves).sessions[sid].phase.Reserved?
    ensures Attempt(After(Init(), moves).sessions[sid].job) == After(Init(), moves).sessions[sid].phase.attempt
  {
    hide After, Safe, SessionOk, RecordOk;
    ReachableSafe(moves);
    Memory(After(Init(), moves), sid);
  }

  // ---- Histories -----------------------------------------------------------

  lemma {:induction false} PersistIsOneCall(
      sys: Sys, sid: nat, job: Record, lease: Option<Lease>, now: Time, next: Phase, failed: Session)
    requires sid in sys.sessions
    ensures Persist(sys, sid, job, lease, now, next, failed).db
      == Store.Step(sys.db, Store.OpSave(job, Some(sys.sessions[sid].revision), lease, now)).0
  {
    hide Store.Save;
  }

  /** The database that a move leaves is the one before it, or one store call later. */
  ghost predicate OneCall(before: Store.Db, after: Store.Db) {
    after == before || exists op :: after == Store.Step(before, op).0
  }

  predicate IsSaving(move: Move) {
    || move.Note? || move.Start? || move.Capture? || move.PersistRetry? || move.PersistSettled?
    || move.PersistLost? || move.PersistRecovery?
  }

  /** The other persisting moves save one copy of their activation's Job, which keeps what it must. */
  lemma {:induction false} SavesOneCopy(sys: Sys, move: Move) returns (job: Record)
    requires IsSaving(move)
    ensures Do(sys, move).db == sys.db
      || (&& move.sid in sys.sessions
          && var s := sys.sessions[move.sid];
          && job.id == s.job.id && Extends(s.job, job)
          && Do(sys, move).db == Store.Step(sys.db, Store.OpSave(job, Some(s.revision), move.lease, move.now)).0)
  {
    hide Store.Step, Store.Save, Persist, IsNote;
    job := Record(Id(""), NoStatus, [], OrchestrationBody);
    if move.sid in sys.sessions {
      var s := sys.sessions[move.sid];
      match move
      case Note(sid, body, lease, now) =>
        job := if body.Some? then Append(s.job, body.value, now) else s.job;
        PersistIsOneCall(sys, sid, job, lease, now, s.phase, s);
      case Start(sid, lease, now) =>
        if s.phase.Waiting? {
          job := Append(WithAttempt(s.job, s.phase.start).(status := Running), JobStarted, now);
          PersistIsOneCall(sys, sid, job, lease, now, Reserved(s.phase.start),
              Session(s.job.(status := Running), s.revision, Closed));
        }
      case Capture(sid, artifact, lease, now) =>
        job := Append(WithArtifact(s.job, artifact), Other("job.artifact"), now);
        PersistIsOneCall(sys, sid, job, lease, now, s.phase, s);
      case PersistRetry(sid, lease, now) =>
        if s.phase.Backoff? {
          var attempt := s.phase.attempt;
          job := Append(s.job, JobRetrying(attempt, attempt + 1), now);
          PersistIsOneCall(sys, sid, job, lease, now, Reserved(attempt + 1),
              Session(WithAttempt(s.job, attempt), s.revision, Closed));
        }
      case PersistSettled(sid, lease, now) =>
        if s.phase.Settling? {
          job := Append(s.job, TerminalEvent(s.phase.outcome), now);
          var saved := Store.Save(sys.db, job, Some(s.revision), lease, now);
          PersistIsOneCall(sys, sid, job, lease, now, Closed,
                           if saved.Err? && saved.error.CancellationRequested?
                           then Session(s.job.(status := Cancelled), s.revision, Settling(Cancelled))
                           else s.(phase := Closed));
        }
      case PersistLost(sid, lease, now) =>
        if s.phase.RecoverLost? {
          job := Append(s.job, AttemptLost(s.phase.lost), now);
          PersistIsOneCall(sys, sid, job, lease, now, RecoverReady(Running, s.phase.lost + 1), s.(phase := Closed));
        }
      case PersistRecovery(sid, lease, now) =>
        if s.phase.RecoverReady? {
          job := Append(WithAttempt(s.job, s.phase.next), RecoveryStarted(s.phase.previous, s.phase.next), now);
          PersistIsOneCall(sys, sid, job, lease, now, Waiting(s.phase.next), s.(phase := Closed));
        }
    }
  }

  lemma {:induction false} MoveIsOneCall(sys: Sys, move: Move)
    ensures OneCall(sys.db, Do(sys, move).db)
  {
    hide Store.Step, Store.ChosenMember, IsQueuedJob, WritesNoRecord, Persist, Store.Save, IsNote, Append, WithAttempt;
    if IsSaving(move) {
      var _ := SavesOneCopy(sys, move);
    } else {
      match move
      case StoreCall(op) => CallIsOneCall(sys.db, op);
      case Admit(_, record, options) => CallIsOneCall(sys.db, Store.OpAdmit(record, options));
      case AdmitPool(_, key, members, options) => CallIsOneCall(sys.db, Store.OpAdmitRoutePool(key, members, options));
      case _ =>
    }
  }

  lemma {:induction false} CallIsOneCall(db: Store.Db, op: Store.Op)
    ensures OneCall(db, Store.Step(db, op).0)
  {
    hide Store.Step;
  }

  /** Every database the protocol reaches is reached by a run of store calls, so all that is proved of those holds. */
  lemma {:induction false} ProtocolIsAStoreRun(moves: seq<Move>) returns (ops: seq<Store.Op>)
    ensures After(Init(), moves).db == Store.After(Store.Empty(JobKind), ops)
  {
    hide Do, Store.Step;
    if moves == [] {
      ops := [];
    } else {
      var before := After(Init(), moves[..|moves| - 1]);
      var rest := ProtocolIsAStoreRun(moves[..|moves| - 1]);
      MoveIsOneCall(before, moves[|moves| - 1]);
      if After(Init(), moves).db == before.db {
        ops := rest;
      } else {
        var op :| After(Init(), moves).db == Store.Step(before.db, op).0;
        ops := rest + [op];
        assert ops[..|ops| - 1] == rest;
      }
    }
  }

  lemma {:induction false} MoveLater(sys: Sys, move: Move)
    requires Inv.ValidDb(sys.db)
    ensures Inv.Later(sys.db, Do(sys, move).db)
  {
    hide Do, Store.Step, Inv.ValidDb, Inv.Later;
    MoveIsOneCall(sys, move);
    Inv.LaterReflexive(sys.db);
    if Do(sys, move).db != sys.db {
      var op :| Do(sys, move).db == Store.Step(sys.db, op).0;
      Inv.StepKeeps(sys.db, op);
    }
  }

  /** Any two moments of a run are ordered. */
  lemma {:induction false} RunLater(moves: seq<Move>, i: nat, j: nat)
    requires i <= j <= |moves|
    ensures Inv.Later(After(Init(), moves[..i]).db, After(Init(), moves[..j]).db)
    decreases j
  {
    hide Do, Safe, Inv.ValidDb, Inv.Later;
    var a := After(Init(), moves[..i]);
    if i == j {
      Inv.LaterReflexive(a.db);
    } else {
      RunLater(moves, i, j - 1);
      var b := After(Init(), moves[..j - 1]);
      ReachableSafe(moves[..j - 1]);
      SafeDb(b);
      MoveLater(b, moves[j - 1]);
      assert moves[..j][..j - 1] == moves[..j - 1];
      Inv.LaterTransitive(a.db, b.db, Do(b, moves[j - 1]).db);
    }
  }

  lemma {:induction false} SafeDb(sys: Sys)
    requires Safe(sys)
    ensures Inv.ValidDb(sys.db) && RowsOk(sys.db.rows)
  {
    hide Inv.ValidDb, RowsOk, SessionsOk, RunsOk, TokensOk;
  }

  /** A persisted history reserves ever higher attempts and holds one terminal event at most, the one of its status. */
  lemma {:induction false} HistoryEndsOnce(moves: seq<Move>, id: Id)
    requires id in After(Init(), moves).db.rows
    ensures var job := After(Init(), moves).db.rows[id].record;
      && Ascending(job.events)
      && |Outcomes(job.events)| <= 1
      && (Outcomes(job.events) != [] ==> IsTerminal(job.status) && Outcomes(job.events) == [TerminalEvent(job.status)])
  {
    hide After, Safe, Outcomes, Ascending, HighWater, Inv.ValidDb;
    ReachableSafe(moves);
    SafeDb(After(Init(), moves));
  }

  /** Once a terminal event is persisted, the Job's status and its one outcome stay. */
  lemma {:induction false} OutcomeStays(moves: seq<Move>, i: nat, j: nat, id: Id)
    requires i <= j <= |moves|
    requires id in After(Init(), moves[..i]).db.rows
    requires Outcomes(After(Init(), moves[..i]).db.rows[id].record.events) != []
    ensures id in After(Init(), moves[..j]).db.rows
    ensures var before, after := After(Init(), moves[..i]).db.rows[id].record,
      After(Init(), moves[..j]).db.rows[id].record;
      after.status == before.status && Outcomes(after.events) == Outcomes(before.events)
  {
    hide After, Outcomes, Ascending, HighWater, Inv.LeasesLater;
    RunLater(moves, i, j);
    HistoryEndsOnce(moves[..i], id);
    HistoryEndsOnce(moves[..j], id);
    var before, after := After(Init(), moves[..i]).db.rows[id].record, After(Init(), moves[..j]).db.rows[id].record;
    OutcomesGrow(before.events, after.events);
    assert Outcomes(before.events)[0] == TerminalEvent(before.status)
        && Outcomes(after.events)[0] == TerminalEvent(after.status);
  }

  /** From the moment a cancellation is accepted, the Job's history never holds job.succeeded. */
  lemma {:induction false} CancellationExcludesSuccess(moves: seq<Move>, i: nat, j: nat, id: Id)
    requires i <= j <= |moves|
    requires id in After(Init(), moves[..i]).db.cancellations
    ensures id in After(Init(), moves[..j]).db.rows
    ensures id in After(Init(), moves[..j]).db.cancellations
    ensures After(Init(), moves[..j]).db.cancellations[id] == After(Init(), moves[..i]).db.cancellations[id]
    ensures JobSucceeded !in Outcomes(After(Init(), moves[..j]).db.rows[id].record.events)
  {
    hide After, Safe, Outcomes, Ascending, HighWater, Inv.RowsValid, Inv.EventTableValid, Inv.RowsLater,
        Inv.LeasesLater;
    RunLater(moves, i, j);
    ReachableSafe(moves[..j]);
    SafeDb(After(Init(), moves[..j]));
    HistoryEndsOnce(moves[..j], id);
  }

  // ---- Artifacts -----------------------------------------------------------

  /** No Job of a goes away in b, changes its attempt limit or loses an artifact. */
  ghost predicate Kept(a: Rows, b: Rows) {
    forall id | id in a :: id in b && Extends(a[id].record, b[id].record)
  }

  lemma {:induction false} SaveKeeps(sys: Sys, sid: nat, job: Record, lease: Option<Lease>, now: Time)
    requires Safe(sys) && sid in sys.sessions
    requires job.id == sys.sessions[sid].job.id && Extends(sys.sessions[sid].job, job)
    ensures Kept(sys.db.rows,
      Store.Step(sys.db, Store.OpSave(job, Some(sys.sessions[sid].revision), lease, now)).0.rows)
  {
    hide RecordOk, PhaseOk, RunsOk, TokensOk, RowsOk, Store.Save, Inv.ValidDb;
    var s := sys.sessions[sid];
    assert SessionOk(sys.db.rows, s);
    if Store.Save(sys.db, job, Some(s.revision), lease, now).Ok? {
      SaveWrites(sys.db, job, s.revision, lease, now);
    }
  }

  lemma {:induction false} AdmissionKeeps(sys: Sys, move: Move)
    requires Safe(sys) && (move.Admit? || move.AdmitPool?)
    ensures Kept(sys.db.rows, Do(sys, move).db.rows)
  {
    hide Safe, Store.Step, Store.ChosenMember, IsQueuedJob;
    match move
    case Admit(_, record, options) =>
      var reply := Store.Step(sys.db, Store.OpAdmit(record, options)).1;
      if reply.AdmissionReply? && reply.outcome.Created? {
        AdmittedRow(sys.db, record, options);
      }
    case AdmitPool(_, key, members, options) =>
      var reply := Store.Step(sys.db, Store.OpAdmitRoutePool(key, members, options)).1;
      if reply.AdmissionReply? && reply.outcome.Created? {
        PoolAdmittedRow(sys.db, key, members, options);
      }
  }

  /** A step of the protocol takes no artifact back. */
  lemma {:induction false} MoveKeeps(sys: Sys, move: Move)
    requires Safe(sys)
    ensures Kept(sys.db.rows, Do(sys, move).db.rows)
  {
    hide Safe, Store.Step, WritesNoRecord, DoAdmit, DoAdmitPool, DoNote, DoStart, DoCapture, DoPersistRetry,
        DoPersistSettled;
    hide DoPersistLost, DoPersistRecovery;
    if IsSaving(move) {
      var job := SavesOneCopy(sys, move);
      if Do(sys, move).db != sys.db {
        SaveKeeps(sys, move.sid, job, move.lease, move.now);
      }
    } else if move.Admit? || move.AdmitPool? {
      AdmissionKeeps(sys, move);
    } else if move.StoreCall? && WritesNoRecord(move.op) {
      WritesNoRow(sys.db, move.op);
    }
  }

  /** What a Job has recorded as its artifacts stays at the head of its list, over every run. */
  lemma {:induction false} ArtifactsStay(moves: seq<Move>, i: nat, j: nat)
    requires i <= j <= |moves|
    ensures Kept(After(Init(), moves[..i]).db.rows, After(Init(), moves[..j]).db.rows)
    decreases j
  {
    hide Do, Safe;
    if i < j {
      ArtifactsStay(moves, i, j - 1);
      ReachableSafe(moves[..j - 1]);
      MoveKeeps(After(Init(), moves[..j - 1]), moves[j - 1]);
      assert moves[..j][..j - 1] == moves[..j - 1];
    }
  }
}
