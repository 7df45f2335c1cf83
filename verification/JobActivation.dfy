/**
 * One activation of a Job as the source runs it: it changes its in-memory record, saves it, takes
 * changes back when a save fails, and loops over attempts, while others may use the store.
 */
module JobActivation {
  import opened Prelude
  import opened Records
  import opened DurableRecordStore
  import opened DurableExecution
  import Store = DurableStore
  import Inv = StoreInvariant
  import Protocol = JobProtocol
  import Safety = JobSafety
  import Controls = ControlGuarantees

  /** How an attempt ended for its worker. */
  datatype AttemptResult = Finished | Blocked | Failure(retryable: bool) | PersistenceFailure

  /** How the adapter's `run` came back. */
  datatype WorkerEnd = Returned | Threw(retryable: bool)

  /**
   * What the environment decides about one attempt: whether the isolated workspace can be made, an
   * abort before the run, what the worker emits and how it ends (`propagates`: with the error of a
   * refused event), the patch and the clean-up of the workspace, what the worker's report says, and
   * whether the Job's signal has fired when a failure is judged and during the retry delay.
   */
  datatype AttemptWorld = AttemptWorld(
    created: bool, stopped: bool, notes: seq<EventBody>, worker: WorkerEnd, propagates: bool,
    captured: Option<Artifact>, captureRetryable: bool, cleaned: bool,
    violated: bool, blocked: bool, aborted: bool, interrupted: bool)

  predicate IsWorld(w: AttemptWorld) {
    forall i | 0 <= i < |w.notes| :: Protocol.IsNote(w.notes[i])
  }

  /** The attempt reaches the worker. */
  predicate Runs(w: AttemptWorld, inspected: bool) {
    (inspected ==> w.created) && !w.stopped
  }

  /** How an attempt ends that persists all its events. */
  function Ended(w: AttemptWorld, inspected: bool): AttemptResult {
    if !Runs(w, inspected) then Failure(true)
    else if w.worker.Threw? then Failure(w.worker.retryable)
    else if inspected && w.captured == None then Failure(w.captureRetryable)
    else if inspected && !w.cleaned then Failure(true)
    else if w.violated then Failure(false)
    else if w.blocked then Blocked
    else Finished
  }

  /** How the wait for a capacity slot ends. */
  datatype SlotWait = Admitted | WaitCancelled | WaitFailed

  /** How a recovery goes on: the attempt to execute, a settled Job, or an error. */
  datatype Recovery = Ready(startAttempt: nat) | RecoveredAs(end: End) | NotRecoverable

  /** How `#execute` ends; `Unsettled` is the loop running out without a return. */
  datatype End = Settled(outcome: Status) | PersistenceFailed | Unsettled

  /** Every request made for the attempt is followed by its settlement. */
  predicate NonePending(events: seq<Event>, attempt: nat) {
    forall i: nat | i < |events| && RequestFor(events, i, attempt) :: SettledAfter(events, i)
  }

  predicate RequestFor(events: seq<Event>, i: nat, attempt: nat)
    requires i < |events|
  {
    events[i].body.ControlRequested? && events[i].body.controlAttempt == attempt
  }

  predicate SettledAfter(events: seq<Event>, i: nat)
    requires i < |events| && events[i].body.ControlRequested?
  {
    exists j: nat | j < |events| :: Controls.SettlesAt(events, i, j)
  }

  /** From position `from` on, the history only holds notes and settled controls. */
  predicate Plain(events: seq<Event>, from: nat) {
    forall i | from <= i < |events| :: events[i].body.Other? || events[i].body.ControlSettled?
  }

  /** From position `from` on, the history only holds notes, controls requested and settled among them. */
  predicate OnlyNotes(events: seq<Event>, from: nat) {
    forall i | from <= i < |events| :: Protocol.IsNote(events[i].body)
  }

  /** The protocol's system with this one activation in it. */
  function Alone(db: Store.Db, job: Record, revision: nat, phase: Protocol.Phase): Protocol.Sys {
    Protocol.Sys(db, map[0 := Protocol.Session(job, revision, phase)], [])
  }

  class JobActivation {
    const store: SqliteRecordStore
    const lease: Option<Lease>
    var job: Record
    var revision: nat
    /** The attempts this activation handed to `adapter.run`, in order. */
    var runs: seq<nat>
    /** How many saves of this activation the store refused. */
    ghost var failures: nat
    /** How the attempts of this activation ended, in order. */
    ghost var results: seq<AttemptResult>

    constructor (store: SqliteRecordStore, lease: Option<Lease>, job: Record, revision: nat)
      ensures this.store == store && this.lease == lease && this.job == job && this.revision == revision
      ensures runs == [] && results == [] && failures == 0
    {
      this.store, this.lease, this.job, this.revision, runs := store, lease, job, revision, [];
      failures, results := 0, [];
    }

    /** `#appendEvent`: pushes the next event and saves; a failed save pops the event again. */
    method AppendEvent(body: EventBody, now: Time) returns (error: Option<Store.StoreError>)
      requires store.Valid()
      modifies this`job, this`revision, this`failures, store
      ensures store.cancellations == old(store.cancellations)
      ensures store.Valid()
      ensures match Store.Save(old(store.Contents()), Protocol.Append(old(job), body, now), Some(old(revision)), lease,
        now)
              case Ok(after) =>
                error == None && job == Protocol.Append(old(job), body, now) && revision == old(revision) + 1
                    && store.Contents() == after
              case Err(e) =>
                  error == Some(e) && job == old(job) && revision == old(revision)
                  && store.Contents() == old(store.Contents())
      ensures failures == old(failures) + (if error.Some? then 1 else 0)
    {
      hide Inv.ValidDb, Store.Save;
      var event := Event(|job.events| + 1, now, body);
      CancellationsStay(store.Contents(), Protocol.Append(job, body, now), revision, lease, now);
      job := job.(events := job.events + [event]);
      var saved := store.Save(job, Some(revision), lease, now);
      if saved.Err? {
        job := job.(events := job.events[..|job.events| - 1]);
        failures := failures + 1;
        return Some(saved.error);
      }
      revision := saved.value;
      return None;
    }

    static lemma {:induction false} CancellationsStay(
        db: Store.Db, job: Record, revision: nat, lease: Option<Lease>, now: Time)
      ensures var saved := Store.Save(db, job, Some(revision), lease, now);
        saved.Ok? ==> saved.value.cancellations == db.cancellations
    {
      hide Store.LeaseCurrent, Store.InsertEvents;
    }

    /** The pair of steps that set a terminal status and persist its event. */
    method Settle(outcome: Status, now: Time) returns (error: Option<Store.StoreError>)
      requires store.Valid() && IsTerminal(outcome)
      modifies this`job, this`revision, this`failures, store
      ensures store.cancellations == old(store.cancellations)
      ensures store.Valid() && job.status == outcome && job.body == old(job.body) && job.id == old(job.id)
      ensures job.events == if error == None then old(job.events)
        + [Event(|old(job.events)| + 1, now, Protocol.TerminalEvent(outcome))] else old(job.events)
      ensures var saved := Store.Save(old(store.Contents()),
        Protocol.Append(old(job).(status := outcome), Protocol.TerminalEvent(outcome), now),
                                      Some(old(revision)), lease, now);
        error == (if saved.Err? then Some(saved.error) else None)
            && (saved.Err? ==> store.Contents() == old(store.Contents()))
      ensures var cancelled := error.Some? && error.value.CancellationRequested?;
        Protocol.DoPersistSettled(Alone(old(store.Contents()), old(job).(status := outcome), old(revision),
            Protocol.Settling(outcome)), 0, lease, now)
        == Alone(store.Contents(), if cancelled then job.(status := Cancelled) else job, revision,
                 if cancelled then Protocol.Settling(Cancelled) else Protocol.Closed)
      ensures failures == old(failures) + (if error.Some? then 1 else 0)
    {
      hide Inv.ValidDb, Store.Save;
      job := job.(status := outcome);
      ghost var before := Protocol.Session(job, revision, Protocol.Settling(outcome));
      error := AppendEvent(Protocol.TerminalEvent(outcome), now);
      AloneStays(store.Contents(), before, Protocol.Session(job, revision, Protocol.Closed));
      AloneStays(store.Contents(), before,
          Protocol.Session(job.(status := Cancelled), revision, Protocol.Settling(Cancelled)));
    }

    /** The end that a settlement under an outcome has: the outcome, or the refused save. */
    static function SettledAs(
        db: Store.Db, job: Record, revision: nat, lease: Option<Lease>, outcome: Status, now: Time): End
      requires IsTerminal(outcome)
    {
      var settled := Protocol.Append(job.(status := outcome), Protocol.TerminalEvent(outcome), now);
      if Store.Save(db, settled, Some(revision), lease, now).Ok? then Settled(outcome) else PersistenceFailed
    }

    /** A success that the store refuses because of a cancellation request settles as cancelled. */
    method SettleSuccess(now: Time) returns (end: End)
      requires store.Valid()
      modifies this`job, this`revision, this`failures, store
      ensures store.Valid() && job.body == old(job.body) && job.id == old(job.id)
      ensures end == SettledAs(old(store.Contents()), old(job), old(revision), lease,
          if job.id in old(store.cancellations) then Cancelled else Succeeded, now)
      ensures end.Settled? ==> job.status == end.outcome
      ensures job.events == if end.Settled? then old(job.events)
        + [Event(|old(job.events)| + 1, now, Protocol.TerminalEvent(end.outcome))] else old(job.events)
      ensures store.cancellations == old(store.cancellations)
      ensures failures >= old(failures) && (end == PersistenceFailed ==> failures > old(failures))
    {
      hide Inv.ValidDb, Store.Save;
      SuccessRefused(store.Contents(), job, revision, lease, now);
      var error := Settle(Succeeded, now);
      if error == None {
        return Settled(Succeeded);
      }
      if error.value.CancellationRequested? {
        error := Settle(Cancelled, now);
        if error == None {
          return Settled(Cancelled);
        }
      }
      return PersistenceFailed;
    }

    /** A success is refused for a cancellation only where one is on file; else as the cancelled Job would be. */
    static lemma {:induction false} SuccessRefused(
        db: Store.Db, job: Record, revision: nat, lease: Option<Lease>, now: Time)
      ensures var saved := Store.Save(db, Protocol.Append(job.(status := Succeeded), JobSucceeded, now), Some(revision),
          lease, now);
        if job.id !in db.cancellations then saved.Err? ==> !saved.error.CancellationRequested?
        else
          && saved.Err?
          && (!saved.error.CancellationRequested? ==>
                Store.Save(db, Protocol.Append(job.(status := Cancelled), JobCancelled, now), Some(revision), lease,
                    now).Err?)
    {
      hide Store.LeaseCurrent, Store.InsertEvents;
      var n := |job.events|;
      SameNumbers(job.events, Event(n + 1, now, JobSucceeded), Event(n + 1, now, JobCancelled));
      SameNumbers(job.events, Event(n + 1, now, JobCancelled), Event(n + 1, now, JobSucceeded));
    }

    static lemma {:induction false} SameNumbers(events: seq<Event>, a: Event, b: Event)
      requires a.sequence == b.sequence
      ensures Numbered(events + [a]) ==> Numbered(events + [b])
    {
      if Numbered(events + [a]) {
        forall i | 0 <= i <= |events|
          ensures (events + [b])[i].sequence == i + 1
        {
          assert (events + [a])[i].sequence == i + 1;
        }
      }
    }

    /** The bodies of the events from a position on begin with these. */
    static predicate Emitted(events: seq<Event>, from: nat, bodies: seq<EventBody>) {
      |events| >= from + |bodies| && forall i | 0 <= i < |bodies| :: events[from + i].body == bodies[i]
    }

    /** Worker events, controls and other notes are persisted one by one, while others use the store too. */
    method EmitNotes(notes: seq<EventBody>, now: Time) returns (ok: bool)
      requires store.Valid() && forall i | 0 <= i < |notes| :: Protocol.IsNote(notes[i])
      modifies this`job, this`revision, this`failures, store
      ensures store.Valid() && job.body == old(job.body) && job.status == old(job.status) && job.id == old(job.id)
      ensures old(job.events) <= job.events && OnlyNotes(job.events, |old(job.events)|)
      ensures failures >= old(failures) && (ok <==> failures == old(failures))
      ensures ok ==> Emitted(job.events, |old(job.events)|, notes) && |job.events| == |old(job.events)| + |notes|
    {
      hide Inv.ValidDb, Store.Save, Inv.Later, Protocol.IsNote;
      ok := true;
      for i := 0 to |notes|
        invariant store.Valid() && job.body == old(job.body) && job.status == old(job.status) && job.id == old(job.id)
        invariant old(job.events) <= job.events && OnlyNotes(job.events, |old(job.events)|)
        invariant failures >= old(failures) && (ok <==> failures == old(failures))
        invariant ok ==> Emitted(job.events, |old(job.events)|, notes[..i]) && |job.events| == |old(job.events)| + i
      {
        Elapse(store);
        var error := AppendEvent(notes[i], now);
        ok := ok && error == None;
      }
      assert notes[..|notes|] == notes;
    }

    /** Event j settles, as lost, a request for the attempt that nothing before it settled. */
    static predicate LosesPending(events: seq<Event>, requests: nat, j: nat, attempt: nat)
      requires requests <= j < |events|
    {
      exists k: nat | k < requests ::
        && RequestFor(events, k, attempt) && !SettledAfter(events[..j], k)
        && events[j].body == ControlSettled(events[k].body.controlId, Lost)
    }

    /** All events from position `requests` on are such settlements. */
    static predicate Sweeps(events: seq<Event>, requests: nat, attempt: nat) {
      forall j: nat | requests <= j < |events| :: LosesPending(events, requests, j, attempt)
    }

    static lemma {:induction false} SweepsOn(events: seq<Event>, e: Event, requests: nat, attempt: nat, k: nat)
      requires k < requests <= |events| && Sweeps(events, requests, attempt)
      requires RequestFor(events, k, attempt) && !SettledAfter(events, k)
      requires e.body == ControlSettled(events[k].body.controlId, Lost)
      ensures Sweeps(events + [e], requests, attempt)
    {
      var after := events + [e];
      forall j: nat | requests <= j < |after|
        ensures LosesPending(after, requests, j, attempt)
      {
        if j < |events| {
          assert LosesPending(events, requests, j, attempt);
          var m: nat :| m < requests && RequestFor(events, m, attempt) && !SettledAfter(events[..j], m)
                        && events[j].body == ControlSettled(events[m].body.controlId, Lost);
          assert after[..j] == events[..j];
          assert RequestFor(after, m, attempt);
        } else {
          assert after[..j] == events;
          assert RequestFor(after, k, attempt);
        }
      }
    }

    /**
     * `#markPendingControlsLost`: settles, as lost, every request for the attempt that is not settled,
     * and nothing else; false if a save failed before it came to the end.
     */
    method MarkPendingControlsLost(attempt: nat, now: Time) returns (ok: bool)
      requires store.Valid()
      modifies this`job, this`revision, this`failures, store
      ensures store.Valid() && job.body == old(job.body) && job.status == old(job.status) && job.id == old(job.id)
      ensures Inv.Later(old(store.Contents()), store.Contents())
      ensures old(job.events) <= job.events && Plain(job.events, |old(job.events)|)
      ensures Sweeps(job.events, |old(job.events)|, attempt)
      ensures ok ==> NonePending(job.events, attempt)
      ensures failures == old(failures) + (if ok then 0 else 1)
    {
      hide Inv.ValidDb, Store.Save, Inv.Later, Sweeps;
      var requested := job.events;
      NoSweepYet(requested, attempt);
      Inv.LaterReflexive(store.Contents());
      for i := 0 to |requested|
        invariant store.Valid() && job.body == old(job.body) && job.status == old(job.status) && job.id == old(job.id)
        invariant Inv.Later(old(store.Contents()), store.Contents())
        invariant requested <= job.events && Plain(job.events, |requested|) && failures == old(failures)
        invariant Sweeps(job.events, |requested|, attempt)
        invariant forall k: nat | k < i && RequestFor(job.events, k, attempt) :: SettledAfter(job.events, k)
      {
        ghost var earlier := store.Contents();
        Elapse(store);
        Inv.LaterTransitive(old(store.Contents()), earlier, store.Contents());
        if RequestFor(requested, i, attempt) && !SettledAfter(job.events, i) {
          ghost var before, db := job.events, store.Contents();
          var error := AppendEvent(ControlSettled(requested[i].body.controlId, Lost), now);
          if error.Some? {
            return false;
          }
          SavedLater(db, job, revision - 1, lease, now);
          Inv.LaterTransitive(old(store.Contents()), db, store.Contents());
          SweepsOn(before, job.events[|before|], |requested|, attempt, i);
          assert Controls.SettlesAt(job.events, i, |before|);
          StillSettled(before, job.events, i, attempt);
        }
      }
      return true;
    }

    static lemma {:induction false} NoSweepYet(events: seq<Event>, attempt: nat)
      ensures Sweeps(events, |events|, attempt)
    {
    }

    static lemma {:induction false} SavedLater(
        db: Store.Db, job: Record, revision: nat, lease: Option<Lease>, now: Time)
      requires Inv.ValidDb(db) && Store.Save(db, job, Some(revision), lease, now).Ok?
      ensures Inv.Later(db, Store.Save(db, job, Some(revision), lease, now).value)
    {
      hide Inv.ValidDb, Inv.Later, Store.Save;
      Inv.SaveKeeps(db, job, Some(revision), lease, now);
    }

    /** A longer history keeps what was settled. */
    static lemma {:induction false} StillSettled(before: seq<Event>, after: seq<Event>, n: nat, attempt: nat)
      requires before <= after && n <= |before|
      requires forall k: nat | k < n && RequestFor(before, k, attempt) :: SettledAfter(before, k)
      ensures forall k: nat | k < n && RequestFor(after, k, attempt) :: SettledAfter(after, k)
    {
      forall k: nat | k < n && RequestFor(after, k, attempt)
        ensures SettledAfter(after, k)
      {
        assert RequestFor(before, k, attempt);
        var j: nat :| j < |before| && Controls.SettlesAt(before, k, j);
        assert Controls.SettlesAt(after, k, j);
      }
    }

    static lemma {:induction false} ReservedStays(before: seq<Event>, after: seq<Event>, attempt: nat)
      requires before <= after && Safety.ReservedIn(before, attempt)
      ensures Safety.ReservedIn(after, attempt)
    {
      var e :| e in before && Protocol.Reserves(e.body) == Some(attempt);
      assert e in after;
    }

    /** All attempts from `start` to `last` are reserved in the history. */
    static ghost predicate RangeReserved(events: seq<Event>, start: nat, last: nat) {
      forall a: nat | start <= a <= last :: Safety.ReservedIn(events, a)
    }

    static lemma {:induction false} RangeStays(before: seq<Event>, after: seq<Event>, start: nat, last: nat)
      requires before <= after && RangeReserved(before, start, last)
      ensures RangeReserved(after, start, last)
    {
      hide Safety.ReservedIn;
      forall a: nat | start <= a <= last
        ensures Safety.ReservedIn(after, a)
      {
        ReservedStays(before, after, a);
      }
    }

    static lemma {:induction false} RangeGrows(events: seq<Event>, start: nat, last: nat)
      requires last >= 1 && RangeReserved(events, start, last - 1) && Safety.ReservedIn(events, last)
      ensures RangeReserved(events, start, last)
    {
      hide Safety.ReservedIn;
    }

    /** All runs were of reserved attempts. */
    static lemma {:induction false} RunsReserved(events: seq<Event>, runs: seq<nat>, from: nat, start: nat, last: nat)
      requires RangeReserved(events, start, last) && Rising(runs, from, start, last)
      ensures forall i | from <= i < |runs| :: Safety.ReservedIn(events, runs[i])
    {
      hide Safety.ReservedIn;
    }

    static lemma {:induction false} RunsRise(runs: seq<nat>, after: seq<nat>, from: nat, start: nat, attempt: nat)
      requires from <= |runs| && start <= attempt && Rising(runs, from, start, attempt - 1)
      requires after == runs || after == runs + [attempt]
      ensures Rising(after, from, start, attempt)
    {
    }

    static lemma {:induction false} RisingWider(runs: seq<nat>, from: nat, low: nat, high: int, higher: int)
      requires Rising(runs, from, low, high) && high <= higher
      ensures Rising(runs, from, low, higher)
    {
    }

    static lemma {:induction false} AloneStays(db: Store.Db, a: Protocol.Session, b: Protocol.Session)
      ensures Protocol.Sys(db, (map[0 := a])[0 := b], []) == Alone(db, b.job, b.revision, b.phase)
    {
    }

    /** A queued Job is marked running; a failed save restores its attempt number. */
    method StartRunning(startAttempt: nat, now: Time) returns (ok: bool)
      requires store.Valid() && job.body.JobBody? && job.status == Queued && startAttempt == 1
      modifies this`job, this`revision, this`failures, store
      ensures store.Valid() && job.body.JobBody? && job.id == old(job.id)
      ensures Protocol.MaxAttempts(job) == Protocol.MaxAttempts(old(job))
      ensures job.events == if ok then old(job.events) + [Event(|old(job.events)| + 1, now, JobStarted)]
        else old(job.events)
      ensures job.status == Running && Protocol.Attempt(job) == if ok then startAttempt else Protocol.Attempt(old(job))
      ensures Protocol.DoStart(Alone(old(store.Contents()), old(job), old(revision), Protocol.Waiting(startAttempt)), 0,
        lease, now)
        == Alone(store.Contents(), job, revision, if ok then Protocol.Reserved(startAttempt) else Protocol.Closed)
      ensures failures == old(failures) + (if ok then 0 else 1)
    {
      hide Inv.ValidDb, Store.Save;
      ghost var before := Protocol.Session(job, revision, Protocol.Waiting(startAttempt));
      var previous := Protocol.Attempt(job);
      job := Protocol.WithAttempt(job, startAttempt).(status := Running);
      var error := AppendEvent(JobStarted, now);
      if error.Some? {
        job := Protocol.WithAttempt(job, previous);
      }
      AloneStays(store.Contents(), before,
          Protocol.Session(job, revision, if error == None then Protocol.Reserved(startAttempt) else Protocol.Closed));
      return error == None;
    }

    /** With a slot in hand, starts a queued Job; a recovered one is running already. */
    method Begin(startAttempt: nat, now: Time) returns (ok: bool)
      requires store.Valid() && job.body.JobBody?
      requires if job.status == Queued then startAttempt == 1
               else
                 job.status == Running && Protocol.Attempt(job) == startAttempt
                 && Safety.ReservedIn(job.events, startAttempt)
      modifies this`job, this`revision, this`failures, store
      ensures store.Valid() && job.body.JobBody? && old(job.events) <= job.events && job.id == old(job.id)
      ensures Protocol.MaxAttempts(job) == Protocol.MaxAttempts(old(job))
      ensures ok ==>
        job.status == Running && Protocol.Attempt(job) == startAttempt && Safety.ReservedIn(job.events, startAttempt)
      ensures failures >= old(failures) && (!ok ==> failures > old(failures))
    {
      hide Inv.ValidDb, Inv.Later, Safety.ReservedIn;
      Elapse(store);
      ok := true;
      if job.status == Queued {
        ok := StartRunning(startAttempt, now);
        if ok {
          Reserved(job.events, JobStarted, startAttempt);
        }
      }
    }

    /** The next attempt is reserved; a failed save restores the attempt number. */
    method ReserveRetry(attempt: nat, now: Time) returns (ok: bool)
      requires store.Valid() && job.body.JobBody? && Protocol.Attempt(job) == attempt
      modifies this`job, this`revision, this`failures, store
      ensures store.Valid() && job.body == old(job.body).(attempt := if ok then attempt + 1 else attempt)
      ensures job.status == old(job.status) && job.id == old(job.id)
      ensures job.events == if ok then old(job.events)
        + [Event(|old(job.events)| + 1, now, JobRetrying(attempt, attempt + 1))] else old(job.events)
      ensures Protocol.DoPersistRetry(
          Alone(old(store.Contents()), Protocol.WithAttempt(old(job), attempt + 1), old(revision),
              Protocol.Backoff(attempt)), 0, lease, now)
        == Alone(store.Contents(), job, revision, if ok then Protocol.Reserved(attempt + 1) else Protocol.Closed)
      ensures failures == old(failures) + (if ok then 0 else 1)
    {
      hide Inv.ValidDb, Store.Save;
      job := Protocol.WithAttempt(job, attempt + 1);
      ghost var before := Protocol.Session(job, revision, Protocol.Backoff(attempt));
      var error := AppendEvent(JobRetrying(attempt, attempt + 1), now);
      if error.Some? {
        job := Protocol.WithAttempt(job, attempt);
      }
      AloneStays(store.Contents(), before,
          Protocol.Session(job, revision, if error == None then Protocol.Reserved(attempt + 1) else Protocol.Closed));
      return error == None;
    }

    /**
     * One turn of the loop up to its result: the workspace, the run itself with its events, and the
     * close of the attempt. `inspected` says whether the Job runs in an isolated workspace.
     */
    method RunAttempt(attempt: nat, inspected: bool, w: AttemptWorld, now: Time) returns (result: AttemptResult)
      requires store.Valid() && job.body.JobBody? && Protocol.Attempt(job) == attempt && IsWorld(w)
      modifies this`job, this`revision, this`failures, this`runs, this`results, store
      ensures store.Valid() && job.status == old(job.status) && job.id == old(job.id)
      ensures job.body.JobBody? && job.body == old(job.body).(artifacts := job.body.artifacts)
      ensures Protocol.Artifacts(job) == old(Protocol.Artifacts(job)) || Recorded(old(job), job, inspected, w)
      ensures old(job.events) <= job.events
      ensures OnlyNotes(job.events, |old(job.events)|)
      ensures runs == if Runs(w, inspected) then old(runs) + [attempt] else old(runs)
      ensures results == old(results) + [result]
      ensures result.Finished? || result.Blocked? ==> Runs(w, inspected)
      ensures !result.PersistenceFailure? ==> NonePending(job.events, attempt)
      ensures failures >= old(failures) && (result.PersistenceFailure? ==> failures > old(failures))
      ensures failures == old(failures) ==>
        && result == Ended(w, inspected)
        && (Runs(w, inspected) ==> Emitted(job.events, |old(job.events)|, w.notes))
        && (inspected && w.created && w.captured.Some? ==> Recorded(old(job), job, inspected, w))
    {
      hide Inv.ValidDb, Inv.Later, NonePending, OnlyNotes, Emitted;
      NoneYet(job.events);
      var isolated := inspected && w.created;
      var worker := Failure(true);
      if isolated == inspected && !w.stopped {
        runs := runs + [attempt];
        var persisted := EmitNotes(w.notes, now);
        worker :=
          if !persisted && w.propagates then PersistenceFailure
          else if w.worker.Threw? then Failure(w.worker.retryable)
          else Finished;
      }
      ghost var ended := job.events;
      var _, closed := CloseAttempt(worker, attempt, isolated, w, now);
      EmittedStays(ended, job.events, |old(job.events)|, w.notes);
      NotesJoin(old(job.events), ended, job.events);
      result := closed;
      // A read-only task that changed files, and a task that the worker reports as blocked.
      if result.Finished? && w.violated {
        result := Failure(false);
      } else if result.Finished? && w.blocked {
        result := Blocked;
      }
      results := results + [result];
    }

    static lemma {:induction false} EmittedStays(
        before: seq<Event>, after: seq<Event>, from: nat, bodies: seq<EventBody>)
      requires before <= after
      ensures Emitted(before, from, bodies) ==> Emitted(after, from, bodies)
    {
    }

    /** The patch of the attempt joined the artifacts of the Job; that needs an isolated workspace. */
    static predicate Recorded(before: Record, after: Record, inspected: bool, w: AttemptWorld) {
      && inspected && w.created && w.captured.Some?
      && Protocol.Artifacts(after) == Protocol.Artifacts(before) + [w.captured.value]
    }

    /**
     * The end of an attempt, however its worker ended: pending controls are settled as lost, the patch
     * of an isolated workspace is recorded, and the workspace is removed. What went wrong first is
     * kept, except that controls which could not be settled always end the activation.
     */
    method CloseAttempt(worker: AttemptResult, attempt: nat, isolated: bool, w: AttemptWorld, now: Time)
      returns (swept: bool, result: AttemptResult)
      requires store.Valid() && job.body.JobBody?
      modifies this`job, this`revision, this`failures, store
      ensures store.Valid() && job.status == old(job.status) && job.id == old(job.id)
      ensures job.body.JobBody? && job.body == old(job.body).(artifacts := job.body.artifacts)
      ensures Protocol.Artifacts(job) == old(Protocol.Artifacts(job))
        || (isolated && w.captured.Some?
             && Protocol.Artifacts(job) == old(Protocol.Artifacts(job)) + [w.captured.value])
      ensures old(job.events) <= job.events && OnlyNotes(job.events, |old(job.events)|)
      ensures swept ==> NonePending(job.events, attempt)
      ensures !swept ==> result == PersistenceFailure
      ensures swept && (!worker.Finished? || !isolated) ==> result == worker
      ensures result.Finished? ==> worker.Finished? && (isolated ==> w.captured.Some? && w.cleaned)
      ensures result.Blocked? ==> worker.Blocked?
      ensures failures >= old(failures)
        && (result.PersistenceFailure? && !worker.PersistenceFailure? ==> failures > old(failures))
      ensures failures == old(failures) ==>
        && (isolated && w.captured.Some? ==>
              Protocol.Artifacts(job) == old(Protocol.Artifacts(job)) + [w.captured.value])
        && (worker.Finished? && isolated ==>
              result == if w.captured == None then Failure(w.captureRetryable)
                        else if !w.cleaned then Failure(true)
                        else Finished)
        && (!worker.Finished? || !isolated ==> result == worker)
    {
      hide Inv.ValidDb, Inv.Later, NonePending, OnlyNotes, Plain, Sweeps;
      swept := MarkPendingControlsLost(attempt, now);
      PlainIsNotes(job.events, |old(job.events)|);
      result := worker;
      if isolated {
        ghost var before := job.events;
        var trouble := if w.captured.Some? then Finished else Failure(w.captureRetryable);
        if w.captured.Some? {
          var recorded := RecordArtifact(w.captured.value, attempt, now);
          trouble := if recorded then Finished else PersistenceFailure;
          NotesJoin(old(job.events), before, job.events);
        }
        if result.Finished? {
          result := trouble;
        }
        if result.Finished? && !w.cleaned {
          result := Failure(true);
        }
      }
      if !swept {
        result := PersistenceFailure;
      }
    }

    static lemma {:induction false} NoneYet(events: seq<Event>)
      ensures OnlyNotes(events, |events|)
    {
    }

    static lemma {:induction false} PlainIsNotes(events: seq<Event>, from: nat)
      requires Plain(events, from)
      ensures OnlyNotes(events, from)
    {
    }

    static lemma {:induction false} NotesJoin(a: seq<Event>, b: seq<Event>, c: seq<Event>)
      requires a <= b <= c && OnlyNotes(b, |a|) && OnlyNotes(c, |b|)
      ensures OnlyNotes(c, |a|)
    {
      hide Protocol.IsNote;
      forall i | |a| <= i < |c|
        ensures Protocol.IsNote(c[i].body)
      {
        assert i < |b| ==> c[i] == b[i];
      }
    }

    /** A patch artifact joins the Job together with its event; a failed save takes both back. */
    method RecordArtifact(artifact: Artifact, attempt: nat, now: Time) returns (ok: bool)
      requires store.Valid() && job.body.JobBody?
      modifies this`job, this`revision, this`failures, store
      ensures store.Valid() && job.status == old(job.status) && job.id == old(job.id)
      ensures job.body == if ok then old(job.body).(artifacts := old(job.body).artifacts + [artifact])
        else old(job.body)
      ensures old(job.events) <= job.events && OnlyNotes(job.events, |old(job.events)|)
      ensures old(NonePending(job.events, attempt)) ==> NonePending(job.events, attempt)
      ensures Protocol.DoCapture(Alone(old(store.Contents()), old(job), old(revision), Protocol.Working(attempt)), 0,
        artifact, lease, now)
        == Alone(store.Contents(), job, revision, Protocol.Working(attempt))
      ensures failures == old(failures) + (if ok then 0 else 1)
    {
      hide Inv.ValidDb, Store.Save, SettledAfter, NonePending;
      ghost var s := Protocol.Session(job, revision, Protocol.Working(attempt));
      var previous := job;
      job := Protocol.WithArtifact(job, artifact);
      var error := AppendEvent(Other("job.artifact"), now);
      if error.Some? {
        job := previous;
      } else {
        NoneMore(previous.events, job.events, attempt);
      }
      AloneStays(store.Contents(), s, Protocol.Session(job, revision, Protocol.Working(attempt)));
      return error == None;
    }

    /** From position `from` on, the history holds no request of a control. */
    static predicate RequestsNothing(events: seq<Event>, from: nat) {
      forall i | from <= i < |events| :: !events[i].body.ControlRequested?
    }

    /** What asks for nothing leaves nothing pending. */
    static lemma {:induction false} NoneMore(before: seq<Event>, after: seq<Event>, attempt: nat)
      requires before <= after && RequestsNothing(after, |before|)
      ensures NonePending(before, attempt) ==> NonePending(after, attempt)
    {
      hide SettledAfter;
      if NonePending(before, attempt) {
        StillSettled(before, after, |before|, attempt);
      }
    }

    /** The runs from position `from` on are ascending attempt numbers between `low` and `high`. */
    static predicate Rising(runs: seq<nat>, from: nat, low: nat, high: int) {
      && (forall i | from <= i < |runs| :: low <= runs[i] <= high)
      && (forall i, j | from <= i < j < |runs| :: runs[i] < runs[j])
    }

    /**
     * `#execute`. Each attempt is run at most once and in order, never beyond the limit, and only when
     * its reservation is in the persisted history; the loop ends with one persisted terminal event, with
     * a failed save, or, only if it started beyond the limit, with nothing at all. All attempts but the
     * last failed and may be retried; the outcome is that of the last attempt, or of the wait for a slot.
     */
    method Execute(startAttempt: nat, inspected: bool, wait: SlotWait, world: nat -> AttemptWorld, now: Time)
      returns (end: End)
      requires store.Valid() && job.body.JobBody? && startAttempt >= 1 && forall a: nat :: IsWorld(world(a))
      requires if job.status == Queued then startAttempt == 1
               else
                 job.status == Running && Protocol.Attempt(job) == startAttempt
                 && Safety.ReservedIn(job.events, startAttempt)
      modifies this`job, this`revision, this`failures, this`runs, this`results, store
      ensures store.Valid() && old(job.events) <= job.events && job.id == old(job.id)
      ensures old(runs) <= runs && Rising(runs, |old(runs)|, startAttempt, Protocol.MaxAttempts(old(job)))
      ensures forall i | |old(runs)| <= i < |runs| :: Safety.ReservedIn(job.events, runs[i])
      ensures end.Settled? ==> EndsWith(job, end.outcome)
      ensures end == Unsettled ==> startAttempt > Protocol.MaxAttempts(old(job)) && runs == old(runs)
      ensures end == Settled(Succeeded) ==> |runs| > |old(runs)|
      ensures end == PersistenceFailed ==> failures > old(failures)
      ensures old(results) <= results
      ensures wait != Admitted ==> results == old(results) && end != Unsettled
      ensures end.Settled? && results == old(results) ==>
        wait != Admitted && end.outcome == (if wait == WaitCancelled then Cancelled else Failed)
      ensures AllRetried(results, |old(results)|)
      ensures RunsAre(runs, |old(runs)|, startAttempt, |results| - |old(results)|, inspected, world)
      ensures failures == old(failures) ==> ResultsAre(results, |old(results)|, startAttempt, inspected, world)
      ensures end.Settled? && |results| > |old(results)| ==>
        var last := startAttempt + |results| - |old(results)| - 1;
        Decides(results[|results| - 1], world(last), last, Protocol.MaxAttempts(old(job)),
            job.id in store.cancellations,
            end.outcome)
    {
      hide Inv.ValidDb, Inv.Later, Safety.ReservedIn, Rising, AllRetried, RunsAre, ResultsAre, IsWorld, Decides;
      NoRuns(runs, startAttempt, Protocol.MaxAttempts(job));
      NoResults(results, runs, startAttempt, inspected, world);
      if wait != Admitted {
        end := SettleFailure(if wait == WaitCancelled then Cancelled else Failed, now);
        return end;
      }
      var begun := Begin(startAttempt, now);
      if !begun {
        return PersistenceFailed;
      }
      end := Attempts(startAttempt, inspected, world, now);
    }

    /** The loop over the attempts, from the one that is reserved. */
    method Attempts(startAttempt: nat, inspected: bool, world: nat -> AttemptWorld, now: Time) returns (end: End)
      requires store.Valid() && job.body.JobBody? && startAttempt >= 1 && forall a: nat :: IsWorld(world(a))
      requires job.status == Running && Protocol.Attempt(job) == startAttempt
      requires Safety.ReservedIn(job.events, startAttempt)
      modifies this`job, this`revision, this`failures, this`runs, this`results, store
      ensures store.Valid() && old(job.events) <= job.events && job.id == old(job.id)
      ensures old(runs) <= runs && Rising(runs, |old(runs)|, startAttempt, Protocol.MaxAttempts(old(job)))
      ensures forall i | |old(runs)| <= i < |runs| :: Safety.ReservedIn(job.events, runs[i])
      ensures end.Settled? ==> EndsWith(job, end.outcome)
      ensures end == Unsettled <==> startAttempt > Protocol.MaxAttempts(old(job))
      ensures end == Unsettled <==> results == old(results)
      ensures end == Unsettled ==> runs == old(runs)
      ensures end == Settled(Succeeded) ==> |runs| > |old(runs)|
      ensures failures >= old(failures) && (end == PersistenceFailed ==> failures > old(failures))
      ensures old(results) <= results && AllRetried(results, |old(results)|)
      ensures RunsAre(runs, |old(runs)|, startAttempt, |results| - |old(results)|, inspected, world)
      ensures failures == old(failures) ==> ResultsAre(results, |old(results)|, startAttempt, inspected, world)
      ensures end.Settled? ==>
        var last := startAttempt + |results| - |old(results)| - 1;
        |results| > |old(results)|
            && Decides(results[|results| - 1], world(last), last, Protocol.MaxAttempts(old(job)),
                job.id in store.cancellations, end.outcome)
    {
      hide Inv.ValidDb, Inv.Later, Safety.ReservedIn, Rising, RangeReserved;
      hide AllRetried, RunsAre, ResultsAre, Ended, Runs, IsWorld, Decides, EndsWith;
      ghost var before, from, first := job.events, |runs|, |results|;
      var limit := Protocol.MaxAttempts(job);
      NoRuns(runs, startAttempt, startAttempt as int - 1);
      NoRuns(runs, startAttempt, limit);
      NoResults(results, runs, startAttempt, inspected, world);
      var attempt := startAttempt;
      RangeStarts(job.events, startAttempt);
      while attempt <= limit
        invariant store.Valid() && job.body.JobBody? && job.status == Running && Protocol.MaxAttempts(job) == limit
        invariant startAttempt <= attempt && Protocol.Attempt(job) == attempt && job.id == old(job.id)
        invariant attempt <= limit || (attempt == startAttempt && runs == old(runs))
        invariant before <= job.events && RangeReserved(job.events, startAttempt, attempt)
        invariant old(runs) <= runs && Rising(runs, from, startAttempt, attempt as int - 1)
        invariant failures >= old(failures)
        invariant old(results) <= results && |results| - first == attempt - startAttempt
        invariant forall i | first <= i < |results| :: results[i] == Failure(true)
        invariant RunsAre(runs, from, startAttempt, attempt - startAttempt, inspected, world)
        invariant failures == old(failures) ==> ResultsAre(results, first, startAttempt, inspected, world)
        decreases limit as int - attempt
      {
        // The reservation check of the loop: it cannot fail.
        assert Protocol.Attempt(job) == attempt;
        ghost var history, earlier, done := job.events, runs, results;
        var concluded := Turn(attempt, limit, inspected, world(attempt), now);
        RunsRise(earlier, runs, from, startAttempt, attempt);
        RangeStays(history, job.events, startAttempt, attempt);
        RunsOn(earlier, runs, from, startAttempt, attempt, inspected, world);
        ResultsOn(done, results, first, startAttempt, attempt, inspected, world);
        if concluded.Some? {
          RunsReserved(job.events, runs, from, startAttempt, attempt);
          RisingWider(runs, from, startAttempt, attempt, limit);
          return concluded.value;
        }
        attempt := attempt + 1;
        RangeGrows(job.events, startAttempt, attempt);
      }
      RunsReserved(job.events, runs, from, startAttempt, attempt) by {
        RisingWider(runs, from, startAttempt, attempt as int - 1, attempt);
      }
      return Unsettled;
    }

    /** The Job carries its outcome and the event of that outcome ends its history. */
    static predicate EndsWith(job: Record, outcome: Status) {
      && IsTerminal(outcome) && job.status == outcome
      && job.events != [] && job.events[|job.events| - 1].body == Protocol.TerminalEvent(outcome)
    }

    /** All results from a position on, except perhaps the last one, are failures that may be retried. */
    static predicate AllRetried(results: seq<AttemptResult>, from: nat) {
      forall i | from <= i < |results| - 1 :: results[i] == Failure(true)
    }

    /** Of `count` attempts, exactly those whose world lets them run are among the runs. */
    static predicate RunsAre(
        runs: seq<nat>, from: nat, start: nat, count: int, inspected: bool, world: nat -> AttemptWorld)
      requires from <= |runs|
    {
      forall a: nat | start <= a < start + count :: a in runs[from..] <==> Runs(world(a), inspected)
    }

    /** The results are those of the attempts' worlds. */
    static predicate ResultsAre(
        results: seq<AttemptResult>, from: nat, start: nat, inspected: bool, world: nat -> AttemptWorld) {
      forall i | from <= i < |results| :: results[i] == Ended(world(start + i - from), inspected)
    }

    static lemma {:induction false} NoResults(
        results: seq<AttemptResult>, runs: seq<nat>, start: nat, inspected: bool, world: nat -> AttemptWorld)
      ensures AllRetried(results, |results|) && ResultsAre(results, |results|, start, inspected, world)
      ensures RunsAre(runs, |runs|, start, 0, inspected, world)
    {
    }

    static lemma {:induction false} RunsOn(
        runs: seq<nat>, after: seq<nat>, from: nat, start: nat, attempt: nat, inspected: bool,
            world: nat -> AttemptWorld)
      requires from <= |runs| && start <= attempt && RunsAre(runs, from, start, attempt - start, inspected, world)
      requires Rising(runs, from, start, attempt - 1)
      requires after == if Runs(world(attempt), inspected) then runs + [attempt] else runs
      ensures RunsAre(after, from, start, attempt + 1 - start, inspected, world)
    {
      hide Runs;
      assert after[from..] == if Runs(world(attempt), inspected) then runs[from..] + [attempt] else runs[from..];
      assert attempt !in runs[from..];
    }

    static lemma {:induction false} ResultsOn(
        results: seq<AttemptResult>, after: seq<AttemptResult>, from: nat, start: nat, attempt: nat, inspected: bool,
        world: nat -> AttemptWorld)
      requires from <= |results| && attempt == start + |results| - from && |after| == |results| + 1 && results <= after
      requires forall i | from <= i < |results| :: results[i] == Failure(true)
      ensures AllRetried(after, from)
      ensures after[|results|] == Ended(world(attempt), inspected) ==>
        ResultsAre(results, from, start, inspected, world) ==> ResultsAre(after, from, start, inspected, world)
    {
      hide Ended;
    }

    /** The outcome that the last attempt's result calls for. */
    static predicate Decides(
        result: AttemptResult, w: AttemptWorld, attempt: nat, limit: nat, cancelled: bool, outcome: Status) {
      match result
      case Finished => outcome == if cancelled then Cancelled else Succeeded
      case Blocked => outcome == Failed
      case Failure(retryable) =>
        if w.aborted then outcome == Cancelled
        else if !retryable || attempt >= limit then outcome == Failed
        else w.interrupted && outcome == Cancelled
      case PersistenceFailure => false
    }

    /** One turn of the attempt loop: None is the next turn, under a reserved attempt. */
    method Turn(attempt: nat, limit: nat, inspected: bool, w: AttemptWorld, now: Time) returns (end: Option<End>)
      requires store.Valid() && job.body.JobBody? && job.status == Running && Protocol.Attempt(job) == attempt
        && IsWorld(w)
      modifies this`job, this`revision, this`failures, this`runs, this`results, store
      ensures store.Valid() && old(job.events) <= job.events && job.id == old(job.id)
      ensures runs == if Runs(w, inspected) then old(runs) + [attempt] else old(runs)
      ensures |results| == |old(results)| + 1 && old(results) <= results
      ensures failures == old(failures) ==> results[|old(results)|] == Ended(w, inspected)
      ensures end == None ==>
        && attempt < limit && job.status == Running && job.body.JobBody? && Protocol.Attempt(job) == attempt + 1
        && Protocol.MaxAttempts(job) == Protocol.MaxAttempts(old(job)) && Safety.ReservedIn(job.events, attempt + 1)
        && results[|old(results)|] == Failure(true)
      ensures end.Some? ==> end.value != Unsettled
      ensures end.Some? && end.value.Settled? ==> EndsWith(job, end.value.outcome)
      ensures end == Some(Settled(Succeeded)) ==> runs == old(runs) + [attempt]
      ensures failures >= old(failures) && (end == Some(PersistenceFailed) ==> failures > old(failures))
      ensures end.Some? && end.value.Settled? ==>
        Decides(results[|old(results)|], w, attempt, limit, job.id in store.cancellations, end.value.outcome)
    {
      hide Inv.ValidDb, Inv.Later, Safety.ReservedIn, NonePending, OnlyNotes, IsWorld;
      var result := RunAttempt(attempt, inspected, w, now);
      hide Ended, Runs;
      end := Conclude(attempt, limit, result, w.aborted, w.interrupted, now);
    }

    static lemma {:induction false} NoRuns(runs: seq<nat>, low: nat, high: int)
      ensures Rising(runs, |runs|, low, high)
    {
    }

    static lemma {:induction false} RangeStarts(events: seq<Event>, start: nat)
      requires Safety.ReservedIn(events, start)
      ensures RangeReserved(events, start, start)
    {
      hide Safety.ReservedIn;
    }

    /**
     * The rest of a turn: settle, or reserve the next attempt and go on (None). `aborted` is the Job's
     * signal when a failure is judged, `interrupted` the same during the retry delay.
     */
    method Conclude(
        attempt: nat, limit: nat, result: AttemptResult, aborted: bool, interrupted: bool, now: Time)
      returns (end: Option<End>)
      requires store.Valid() && job.body.JobBody? && job.status == Running && Protocol.Attempt(job) == attempt
      modifies this`job, this`revision, this`failures, store
      ensures store.Valid() && old(job.events) <= job.events && job.id == old(job.id)
      ensures end == None ==>
        && attempt < limit && job.status == Running && job.body == old(job.body).(attempt := attempt + 1)
        && Safety.ReservedIn(job.events, attempt + 1)
      ensures end.Some? ==> end.value != Unsettled
      ensures end.Some? && end.value.Settled? ==> EndsWith(job, end.value.outcome)
      ensures failures >= old(failures)
      ensures end == Some(PersistenceFailed) ==> failures > old(failures) || result.PersistenceFailure?
      ensures result.PersistenceFailure? ==> end == Some(PersistenceFailed)
      ensures result.Finished? ==> store.cancellations == old(store.cancellations)
      ensures result.Finished? || result.Blocked? ==>
        end == Some(SettledAs(old(store.Contents()), old(job), old(revision), lease,
            if result.Blocked? then Failed else if job.id in old(store.cancellations) then Cancelled
                else Succeeded, now))
      ensures result.Failure? && end != Some(PersistenceFailed) ==>
        end ==
          if aborted then Some(Settled(Cancelled))
          else if !result.retryable || attempt >= limit then Some(Settled(Failed))
          else if interrupted then Some(Settled(Cancelled))
          else None
    {
      hide Inv.ValidDb, Inv.Later, Safety.ReservedIn;
      match result
      case PersistenceFailure =>
        return Some(PersistenceFailed);
      case Finished =>
        var settled := SettleSuccess(now);
        return Some(settled);
      case Blocked =>
        var settled := SettleFailure(Failed, now);
        return Some(settled);
      case Failure(retryable) =>
        if !retryable || aborted || attempt >= limit {
          var settled := SettleFailure(if aborted then Cancelled else Failed, now);
          return Some(settled);
        }
        end := GoOn(attempt, interrupted, now);
    }

    /** The next attempt is reserved, unless the save fails or the Job is cancelled during the delay. */
    method GoOn(attempt: nat, interrupted: bool, now: Time) returns (end: Option<End>)
      requires store.Valid() && job.body.JobBody? && job.status == Running && Protocol.Attempt(job) == attempt
      modifies this`job, this`revision, this`failures, store
      ensures store.Valid() && old(job.events) <= job.events && job.id == old(job.id)
      ensures end == None ==>
        && job.status == Running && job.body == old(job.body).(attempt := attempt + 1)
        && Safety.ReservedIn(job.events, attempt + 1)
      ensures end != Some(PersistenceFailed) ==> end == if interrupted then Some(Settled(Cancelled)) else None
      ensures end == Some(Settled(Cancelled)) ==>
        job.status == Cancelled && job.events != [] && job.events[|job.events| - 1].body == JobCancelled
      ensures failures >= old(failures) && (end == Some(PersistenceFailed) ==> failures > old(failures))
    {
      hide Inv.ValidDb, Inv.Later, Safety.ReservedIn, Protocol.DoPersistRetry, Alone;
      var ok := ReserveRetry(attempt, now);
      if !ok {
        return Some(PersistenceFailed);
      }
      Reserved(job.events, JobRetrying(attempt, attempt + 1), attempt + 1);
      Elapse(store);
      if interrupted {
        var settled := SettleFailure(Cancelled, now);
        return Some(settled);
      }
      return None;
    }

    /** The last event of a history reserves. */
    static lemma {:induction false} Reserved(events: seq<Event>, body: EventBody, attempt: nat)
      requires events != [] && events[|events| - 1].body == body && Protocol.Reserves(body) == Some(attempt)
      ensures Safety.ReservedIn(events, attempt)
    {
      assert events[|events| - 1] in events;
    }

    method SettleFailure(outcome: Status, now: Time) returns (end: End)
      requires store.Valid() && (outcome == Failed || outcome == Cancelled)
      modifies this`job, this`revision, this`failures, store
      ensures store.cancellations == old(store.cancellations)
      ensures store.Valid() && job.body == old(job.body) && job.id == old(job.id)
      ensures end == SettledAs(old(store.Contents()), old(job), old(revision), lease, outcome, now)
      ensures job.status == outcome && end in {Settled(outcome), PersistenceFailed}
      ensures job.events == if end.Settled? then old(job.events)
        + [Event(|old(job.events)| + 1, now, Protocol.TerminalEvent(outcome))] else old(job.events)
      ensures failures == old(failures) + (if end.Settled? then 0 else 1)
    {
      hide Inv.ValidDb, Store.Save;
      var error := Settle(outcome, now);
      return if error == None then Settled(outcome) else PersistenceFailed;
    }

    /** The lost attempt is recorded; without a further attempt the protocol goes on to settle the Job as failed. */
    method LoseAttempt(attempt: nat, now: Time) returns (ok: bool)
      requires store.Valid()
      modifies this`job, this`revision, this`failures, store
      ensures store.cancellations == old(store.cancellations)
      ensures store.Valid() && job.body == old(job.body) && job.status == old(job.status) && job.id == old(job.id)
      ensures job.events == if ok then old(job.events) + [Event(|old(job.events)| + 1, now, AttemptLost(attempt))]
        else old(job.events)
      ensures var exhausted := ok && attempt >= Protocol.MaxAttempts(job);
        Protocol.DoPersistLost(Alone(old(store.Contents()), old(job), old(revision), Protocol.RecoverLost(attempt)), 0,
            lease, now)
        == Alone(store.Contents(), if exhausted then job.(status := Failed) else job, revision,
                 if exhausted then Protocol.Settling(Failed)
                 else if ok then Protocol.RecoverReady(Running, attempt + 1) else Protocol.Closed)
      ensures failures == old(failures) + (if ok then 0 else 1)
    {
      hide Inv.ValidDb, Store.Save;
      LostAlone(store.Contents(), job, revision, attempt, lease, now);
      var error := AppendEvent(AttemptLost(attempt), now);
      return error == None;
    }

    /** The move of the protocol, by the outcome of its save. */
    static lemma {:induction false} LostAlone(
        db: Store.Db, job: Record, revision: nat, attempt: nat, lease: Option<Lease>, now: Time)
      ensures var lost := Protocol.Append(job, AttemptLost(attempt), now);
        Protocol.DoPersistLost(Alone(db, job, revision, Protocol.RecoverLost(attempt)), 0, lease, now)
        == match Store.Save(db, lost, Some(revision), lease, now)
           case Ok(after) =>
             if attempt >= Protocol.MaxAttempts(job)
             then Alone(after, lost.(status := Failed), revision + 1, Protocol.Settling(Failed))
             else Alone(after, lost, revision + 1, Protocol.RecoverReady(Running, attempt + 1))
           case Err(_) => Alone(db, job, revision, Protocol.Closed)
    {
      hide Store.Save, Protocol.Append, Protocol.MaxAttempts;
    }

    method StartRecovery(previous: Status, next: nat, now: Time) returns (ok: bool)
      requires store.Valid() && job.body.JobBody?
      modifies this`job, this`revision, this`failures, store
      ensures store.cancellations == old(store.cancellations)
      ensures store.Valid() && job.body == old(job.body).(attempt := next) && job.status == old(job.status)
        && job.id == old(job.id)
      ensures job.events == if ok then old(job.events)
        + [Event(|old(job.events)| + 1, now, RecoveryStarted(previous, next))] else old(job.events)
      ensures ok ==>
        Protocol.DoPersistRecovery(Alone(old(store.Contents()), old(job), old(revision),
            Protocol.RecoverReady(previous, next)), 0, lease, now)
        == Alone(store.Contents(), job, revision, Protocol.Waiting(next))
      ensures failures == old(failures) + (if ok then 0 else 1)
    {
      hide Inv.ValidDb, Store.Save;
      ghost var before := Protocol.Session(job, revision, Protocol.RecoverReady(previous, next));
      job := Protocol.WithAttempt(job, next);
      var error := AppendEvent(RecoveryStarted(previous, next), now);
      AloneStays(store.Contents(), before, Protocol.Session(job, revision, Protocol.Waiting(next)));
      return error == None;
    }

    /** How the recovery of a stored Job goes on when no save is refused and no cancellation is on file. */
    static function Reopened(stored: Record, available: bool): Recovery
      requires stored.body.JobBody?
    {
      var lost := stored.status == Running;
      var attempt := Protocol.Attempt(stored);
      if (if lost then attempt >= Protocol.MaxAttempts(stored) else attempt != 0) || !available
      then RecoveredAs(Settled(Failed))
      else Ready(if lost then attempt + 1 else 1)
    }

    /** The recovered Job with its next attempt reserved after the lost one, or still queued for its first. */
    static ghost predicate IsReopened(stored: Record, job: Record, startAttempt: nat) {
      && job.body.JobBody? && stored.body.JobBody? && Protocol.Attempt(job) == startAttempt >= 1
      && job.status == stored.status && stored.events <= job.events
      && |job.events| >= |stored.events| + (if stored.status == Running then 2 else 1)
      && job.events[|job.events| - 1].body == RecoveryStarted(stored.status, startAttempt)
      && (stored.status == Queued ==> startAttempt == 1)
      && (stored.status == Running ==>
            && job.events[|job.events| - 2].body == AttemptLost(stored.body.attempt)
            && Safety.ReservedIn(job.events, startAttempt)
            && startAttempt <= Protocol.MaxAttempts(job))
    }

    static lemma {:induction false} LongerHistory(stored: Record, swept: Record, job: Record, startAttempt: nat)
      requires stored.body == swept.body && stored.status == swept.status && stored.events <= swept.events
      requires IsReopened(swept, job, startAttempt)
      ensures IsReopened(stored, job, startAttempt)
    {
      hide Safety.ReservedIn;
    }

    /** The rest of a recovery, with the controls of the lost attempt settled and no cancellation on file. */
    method Reopen(available: bool, now: Time) returns (r: Recovery)
      requires store.Valid() && job.body.JobBody? && job.status in {Queued, Running}
      modifies this`job, this`revision, this`failures, store
      ensures store.cancellations == old(store.cancellations)
      ensures store.Valid()
      ensures failures >= old(failures)
      ensures r ==
        if failures > old(failures) then RecoveredAs(PersistenceFailed) else Reopened(old(job), available)
      ensures r.Ready? ==> IsReopened(old(job), job, r.startAttempt)
      ensures old(job.events) <= job.events && RequestsNothing(job.events, |old(job.events)|)
      ensures r.RecoveredAs? && r.end.Settled? ==> EndsWith(job, r.end.outcome)
    {
      hide Inv.ValidDb, Store.Save, Safety.ReservedIn, Alone, Protocol.DoPersistLost, Protocol.DoPersistRecovery,
          SettledAs;
      var startAttempt, previous := 1, job.status;
      if previous == Running {
        var attempt := Protocol.Attempt(job);
        var lost := LoseAttempt(attempt, now);
        if !lost {
          return RecoveredAs(PersistenceFailed);
        }
        if attempt >= Protocol.MaxAttempts(job) {
          var end := SettleFailure(Failed, now);
          return RecoveredAs(end);
        }
        startAttempt := attempt + 1;
      } else if Protocol.Attempt(job) != 0 {
        var end := SettleFailure(Failed, now);
        return RecoveredAs(end);
      }
      if !available {
        var end := SettleFailure(Failed, now);
        return RecoveredAs(end);
      }
      var ready := StartRecovery(previous, startAttempt, now);
      if !ready {
        return RecoveredAs(PersistenceFailed);
      }
      if previous == Running {
        Reserved(job.events, RecoveryStarted(previous, startAttempt), startAttempt);
      }
      return Ready(startAttempt);
    }

    /** The look-up of a cancellation, and the rest of the recovery. */
    method Resume(id: Id, available: bool, now: Time) returns (r: Recovery)
      requires store.Valid() && job.body.JobBody? && job.status in {Queued, Running}
      modifies this`job, this`revision, this`failures, store
      ensures store.Valid() && store.cancellations == old(store.cancellations)
      ensures failures >= old(failures)
      ensures r ==
        if failures > old(failures) then RecoveredAs(PersistenceFailed)
        else if id in old(store.cancellations) then RecoveredAs(Settled(Cancelled))
        else Reopened(old(job), available)
      ensures r.Ready? ==> IsReopened(old(job), job, r.startAttempt)
      ensures old(job.events) <= job.events && RequestsNothing(job.events, |old(job.events)|)
      ensures r.RecoveredAs? && r.end.Settled? ==> EndsWith(job, r.end.outcome)
    {
      hide Inv.ValidDb, IsReopened, Reopened;
      if id in store.cancellations {
        var end := SettleFailure(Cancelled, now);
        return RecoveredAs(end);
      }
      r := Reopen(available, now);
    }

    /**
     * `#recoverInterruptedJob`, once the lease is claimed: it works on the stored record, settles the
     * controls of the lost attempt, and reserves the next attempt (or leaves a queued Job queued), so
     * that `Execute` may go on from there; `available` is the adapter and the workspace snapshot, and
     * `found` are the Jobs with a cancellation on file when it looks for one.
     */
    method Recover(id: Id, available: bool, now: Time) returns (r: Recovery, ghost found: set<Id>)
      requires store.Valid() && id in store.rows && store.rows[id].record.body.JobBody?
      modifies this`job, this`revision, this`failures, store
      ensures store.Valid() && old(store.cancellations).Keys <= found <= store.cancellations.Keys
      ensures old(store.rows)[id].record.status !in {Queued, Running} <==> r == NotRecoverable
      ensures old(store.rows)[id].record.status == Queued ==> found == old(store.cancellations).Keys
      ensures failures >= old(failures)
      ensures old(store.rows)[id].record.status in {Queued, Running} ==>
        r ==
          if failures > old(failures) then RecoveredAs(PersistenceFailed)
          else if id in found then RecoveredAs(Settled(Cancelled))
          else Reopened(old(store.rows)[id].record, available)
      ensures r.Ready? ==> IsReopened(old(store.rows)[id].record, job, r.startAttempt)
      ensures old(store.rows)[id].record.status == Running && failures == old(failures) ==>
        NonePending(job.events, old(store.rows)[id].record.body.attempt)
      ensures r.RecoveredAs? && r.end.Settled? ==> EndsWith(job, r.end.outcome)
    {
      hide Inv.ValidDb, NonePending, Plain, Sweeps, Inv.RowsLater, Inv.LeasesLater, IsReopened, EndsWith,
          RequestsNothing;
      job, revision := store.rows[id].record, store.rows[id].revision;
      found := store.cancellations.Keys;
      ghost var stored := job;
      var previous := job.status;
      if previous != Queued && previous != Running {
        return NotRecoverable, found;
      }
      if previous == Running {
        var settled := MarkPendingControlsLost(Protocol.Attempt(job), now);
        if !settled {
          return RecoveredAs(PersistenceFailed), found;
        }
      }
      found := store.cancellations.Keys;
      ghost var swept := job;
      r := Resume(id, available, now);
      NoneMore(swept.events, job.events, Protocol.Attempt(stored));
      if r.Ready? {
        LongerHistory(stored, swept, job, r.startAttempt);
      }
    }
  }
}
