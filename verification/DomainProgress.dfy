/**
 * What a call of the domain services achieves when nobody disturbs it: it goes through exactly when
 * the records it names are there, and it says exactly why it does not.
 */
module DomainProgress {
  import opened Prelude
  import opened Records
  import opened DomainChain
  import Store = DurableStore
  import Inv = StoreInvariant
  import Calls = StoreCalls
  import Safety = JobSafety

  /** In a store in order, `get` returns exactly the rows there are. */
  lemma {:induction false} GetIsRow(db: Store.Db, id: Id)
    requires Inv.ValidDb(db)
    ensures Store.Get(db, id) == Ok(if id in db.rows then Some(db.rows[id].record) else None)
  {
    assert Inv.RowsValid(db.rows);
    hide Inv.ValidDb;
  }

  /** A record with one event can be created exactly when its identity is free. */
  lemma {:induction false} InsertsWhenFree(db: Store.Db, record: Record)
    requires |record.events| == 1 && record.events[0].sequence == 1
    ensures Store.InsertNew(db, record).Ok? <==> record.id !in db.rows
    ensures record.id !in db.rows ==>
      Store.InsertNew(db, record).value.rows == db.rows[record.id := Store.Row(1, 1, record)]
  {
    hide Store.InsertEvents;
  }

  /** The source states' stores are in order. */
  lemma {:induction false} InOrder(sys: Sys)
    requires Linked(sys)
    ensures Inv.ValidDb(sys.workOrders) && Inv.ValidDb(sys.jobs.db)
    ensures Inv.ValidDb(sys.candidates) && Inv.ValidDb(sys.reviews) && Inv.ValidDb(sys.dispositions)
  {
    hide Inv.ValidDb, CandidatesOk, ReviewsOk, DispositionsOk, CallsOk;
  }

  lemma {:induction false} AdvanceIs(sys: Sys, cid: nat, id: Id, at: Time)
    requires Linked(sys) && cid in sys.calls
    ensures var after := Do(sys, Advance(cid, id, at, false));
      after == DoAdvance(sys, cid, sys.calls[cid], id, at, false) && Linked(after)
  {
    hide Linked, Onward, DoAdvance;
    MoveLinked(sys, Advance(cid, id, at, false));
  }

  // ---- Candidates ----------------------------------------------------------

  function NewCandidate(r: CandidateRequest, id: Id, at: Time): Store.Row {
    Store.Row(1, 1, Record(id, NoStatus, [Event(1, at, Other("candidate.created"))],
        CandidateBody(r.workOrderId, r.jobId, r.artifact)))
  }

  /** One step of an undisturbed candidate call, by the rows that are there. */
  lemma {:induction false} CandidateStep(sys: Sys, cid: nat, r: CandidateRequest, id: Id, at: Time)
    requires Linked(sys) && cid in sys.calls
    requires sys.calls[cid] in {CandidateStart(r), CandidateBound(r), CandidateReady(r), Abandoned}
    ensures var after := Do(sys, Advance(cid, id, at, false));
      && Linked(after)
      && after.calls == sys.calls[cid :=
           match sys.calls[cid]
           case CandidateStart(_) =>
             if IsBound(sys.workOrders.rows, r.workOrderId, r.jobId) then CandidateBound(r) else Abandoned
           case CandidateBound(_) =>
             if HoldsArtifact(sys.jobs.db.rows, r.jobId, r.artifact) then CandidateReady(r) else Abandoned
           case CandidateReady(_) => if id in sys.candidates.rows then Abandoned else Created
           case _ => Abandoned]
      && after.workOrders == sys.workOrders && after.jobs == sys.jobs
      && after.candidates.rows ==
           if sys.calls[cid].CandidateReady? && id !in sys.candidates.rows
           then sys.candidates.rows[id := NewCandidate(r, id, at)] else sys.candidates.rows
  {
    hide Linked, Do, Store.Get, Store.InsertNew, Inv.ValidDb;
    AdvanceIs(sys, cid, id, at);
    InOrder(sys);
    GetIsRow(sys.workOrders, r.workOrderId);
    GetIsRow(sys.jobs.db, r.jobId);
    InsertsWhenFree(sys.candidates, NewCandidate(r, id, at).record);
  }

  lemma {:induction false} Begun(sys: Sys, cid: nat, call: Call)
    requires Linked(sys) && cid !in sys.calls && IsStart(call)
    ensures Do(sys, Begin(cid, call)) == sys.(calls := sys.calls[cid := call]) && Linked(Do(sys, Begin(cid, call)))
  {
    hide Linked, Onward;
    MoveLinked(sys, Begin(cid, call));
  }

  /**
   * An undisturbed candidate call creates its Candidate exactly when the WorkOrder is bound to the named
   * Job, the Job records the artifact, and the identity it draws is free; otherwise it creates nothing.
   */
  lemma {:induction false} CandidateCreatedExactlyWhen(sys: Sys, cid: nat, r: CandidateRequest, id: Id, at: Time)
    requires Linked(sys) && cid !in sys.calls
    ensures var move := Advance(cid, id, at, false);
      var after := Do(Do(Do(Do(sys, Begin(cid, CandidateStart(r))), move), move), move);
      var creates := IsBound(sys.workOrders.rows, r.workOrderId, r.jobId)
        && HoldsArtifact(sys.jobs.db.rows, r.jobId, r.artifact) && id !in sys.candidates.rows;
      && cid in after.calls && after.calls[cid] == (if creates then Created else Abandoned)
      && after.candidates.rows ==
           if creates then sys.candidates.rows[id := NewCandidate(r, id, at)] else sys.candidates.rows
  {
    hide Linked, Do, IsBound, HoldsArtifact, NewCandidate;
    var move := Advance(cid, id, at, false);
    Begun(sys, cid, CandidateStart(r));
    var begun := Do(sys, Begin(cid, CandidateStart(r)));
    CandidateStep(begun, cid, r, id, at);
    CandidateStep(Do(begun, move), cid, r, id, at);
    CandidateStep(Do(Do(begun, move), move), cid, r, id, at);
  }

  // ---- Reviews -------------------------------------------------------------

  function NewReview(candidateId: Id, id: Id, at: Time): Store.Row {
    Store.Row(1, 1, Record(id, NoStatus, [Event(1, at, Other("review.created"))], ReviewBody(candidateId)))
  }

  lemma {:induction false} ReviewStep(sys: Sys, cid: nat, candidateId: Id, id: Id, at: Time)
    requires Linked(sys) && cid in sys.calls
    requires sys.calls[cid] in {ReviewStart(candidateId), ReviewReady(candidateId), Abandoned}
    ensures var after := Do(sys, Advance(cid, id, at, false));
      && Linked(after)
      && after.calls == sys.calls[cid :=
           match sys.calls[cid]
           case ReviewStart(_) => if candidateId in sys.candidates.rows then ReviewReady(candidateId) else Abandoned
           case ReviewReady(_) => if id in sys.reviews.rows then Abandoned else Created
           case _ => Abandoned]
      && after.reviews.rows ==
           if sys.calls[cid].ReviewReady? && id !in sys.reviews.rows
           then sys.reviews.rows[id := NewReview(candidateId, id, at)] else sys.reviews.rows
  {
    hide Linked, Do, Store.Get, Store.InsertNew, Inv.ValidDb;
    AdvanceIs(sys, cid, id, at);
    InOrder(sys);
    GetIsRow(sys.candidates, candidateId);
    InsertsWhenFree(sys.reviews, NewReview(candidateId, id, at).record);
  }

  /** An undisturbed review call creates its Review exactly when the Candidate exists and the identity is free. */
  lemma {:induction false} ReviewCreatedExactlyWhen(sys: Sys, cid: nat, candidateId: Id, id: Id, at: Time)
    requires Linked(sys) && cid !in sys.calls
    ensures var move := Advance(cid, id, at, false);
      var after := Do(Do(Do(sys, Begin(cid, ReviewStart(candidateId))), move), move);
      var creates := candidateId in sys.candidates.rows && id !in sys.reviews.rows;
      && cid in after.calls && after.calls[cid] == (if creates then Created else Abandoned)
      && after.reviews.rows ==
           if creates then sys.reviews.rows[id := NewReview(candidateId, id, at)] else sys.reviews.rows
  {
    hide Linked, Do, NewReview;
    Begun(sys, cid, ReviewStart(candidateId));
    var begun := Do(sys, Begin(cid, ReviewStart(candidateId)));
    ReviewStep(begun, cid, candidateId, id, at);
    ReviewStep(Do(begun, Advance(cid, id, at, false)), cid, candidateId, id, at);
  }

  // ---- Dispositions --------------------------------------------------------

  /** What the second read of a `record` call makes of the stored Disposition. */
  function Reread(stored: Record, r: DispositionRequest): Call {
    if stored.body == DispositionBody(r.candidateId, r.reviewId, r.decision) then DispositionReturned(r, stored)
    else Conflicted(r)
  }

  lemma {:induction false} DispositionStep(sys: Sys, cid: nat, r: DispositionRequest, id: Id, at: Time)
    requires Linked(sys) && cid in sys.calls
    requires var call := sys.calls[cid];
      || call in {DispositionStart(r), DispositionKnown(r), DispositionReady(r), Abandoned}
      || call.DispositionReturned?
      || (call == DispositionReread(r) && DispositionId(r.candidateId) in sys.dispositions.rows)
    ensures var after, key := Do(sys, Advance(cid, id, at, false)), DispositionId(r.candidateId);
      && Linked(after)
      && after.calls == sys.calls[cid :=
           match sys.calls[cid]
           case DispositionStart(_) => if r.candidateId in sys.candidates.rows then DispositionKnown(r) else Abandoned
           case DispositionKnown(_) =>
             if IsReviewOf(sys.reviews.rows, r.reviewId, r.candidateId) then DispositionReady(r) else Abandoned
           case DispositionReady(_) =>
             if key in sys.dispositions.rows then DispositionReread(r)
             else DispositionReturned(r, DispositionRecord(r, at))
           case DispositionReread(_) => Reread(sys.dispositions.rows[key].record, r)
           case call => call]
      && after.candidates == sys.candidates && after.reviews == sys.reviews
      && after.dispositions.rows ==
           if sys.calls[cid].DispositionReady? && key !in sys.dispositions.rows
           then sys.dispositions.rows[key := Store.Row(1, 1, DispositionRecord(r, at))] else sys.dispositions.rows
  {
    hide Linked, Do, Store.Get, Store.InsertNew, DispositionId, Inv.ValidDb;
    AdvanceIs(sys, cid, id, at);
    InOrder(sys);
    GetIsRow(sys.candidates, r.candidateId);
    GetIsRow(sys.reviews, r.reviewId);
    GetIsRow(sys.dispositions, DispositionId(r.candidateId));
    InsertsWhenFree(sys.dispositions, DispositionRecord(r, at));
  }

  /**
   * An undisturbed `record` call for an existing Candidate and a Review of it records its Disposition
   * if the Candidate has none, returns the one it has if that was decided on the same input, and
   * reports a conflict if it was not; without them it records nothing.
   */
  lemma {:induction false} DispositionRecordedExactlyWhen(sys: Sys, cid: nat, r: DispositionRequest, id: Id, at: Time)
    requires Linked(sys) && cid !in sys.calls
    ensures var move, key := Advance(cid, id, at, false), DispositionId(r.candidateId);
      var after := Do(Do(Do(Do(Do(sys, Begin(cid, DispositionStart(r))), move), move), move), move);
      var known := r.candidateId in sys.candidates.rows && IsReviewOf(sys.reviews.rows, r.reviewId, r.candidateId);
      && cid in after.calls
      && after.calls[cid] ==
           (if !known then Abandoned
            else if key in sys.dispositions.rows then Reread(sys.dispositions.rows[key].record, r)
            else DispositionReturned(r, DispositionRecord(r, at)))
      && after.dispositions.rows ==
           if known && key !in sys.dispositions.rows
           then sys.dispositions.rows[key := Store.Row(1, 1, DispositionRecord(r, at))]
           else sys.dispositions.rows
  {
    hide Linked, Do, DispositionId, DispositionRecord, IsReviewOf, Reread;
    var move := Advance(cid, id, at, false);
    Begun(sys, cid, DispositionStart(r));
    var begun := Do(sys, Begin(cid, DispositionStart(r)));
    DispositionStep(begun, cid, r, id, at);
    DispositionStep(Do(begun, move), cid, r, id, at);
    DispositionStep(Do(Do(begun, move), move), cid, r, id, at);
    DispositionStep(Do(Do(Do(begun, move), move), move), cid, r, id, at);
  }

  // ---- WorkOrders ----------------------------------------------------------

  /** Issuing adds the WorkOrder exactly when its identity is free and its events are numbered. */
  lemma {:induction false} IssuedExactlyWhen(sys: Sys, record: Record)
    requires IsIssued(record)
    ensures Do(sys, Issue(record)).workOrders.rows ==
      if record.id !in sys.workOrders.rows && Numbered(record.events)
      then sys.workOrders.rows[record.id := Store.Row(1, |record.events|, record)]
      else sys.workOrders.rows
  {
    hide Store.InsertEvents, Numbered, IsIssued;
  }

  /**
   * After a binding call the WorkOrder is bound to the named Job exactly when it was already, or when it
   * was issued, unbound and at the sequence the caller expected.
   */
  lemma {:induction false} BoundExactlyWhen(sys: Sys, id: Id, expected: int, jobId: Id, at: Time)
    requires Linked(sys) && id in sys.workOrders.rows
    ensures var record := sys.workOrders.rows[id].record;
      IsBound(Do(sys, Bind(id, expected, jobId, at)).workOrders.rows, id, jobId) <==>
        || record.body == WorkOrderBody(Some(jobId))
        || (&& record.status == Issued && record.body == WorkOrderBody(None) && |record.events| == expected
            && expected >= 1 && 1 <= |id.text| <= 256 && 1 <= |jobId.text| <= 256)
  {
    hide Linked, Store.Step;
    InOrder(sys);
    OfWorkOrders(sys);
    hide Inv.ValidDb;
    Calls.BindsExactlyWhen(sys.workOrders, id, expected, jobId, at);
  }

  lemma {:induction false} OfWorkOrders(sys: Sys)
    requires Linked(sys)
    ensures sys.workOrders.kind == WorkOrderKind
  {
    hide Inv.ValidDb, CandidatesOk, ReviewsOk, DispositionsOk, CallsOk, Safety.Safe;
  }
}
