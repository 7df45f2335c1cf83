/**
 * The domain services as methods over their stores: each reads its sources, writes one record, and
 * says exactly when it succeeds. `DomainChain` is about their interleavings.
 */
module DomainServices {
  import opened Prelude
  import opened Records
  import opened DurableRecordStore
  import opened DomainChain
  import Store = DurableStore
  import Inv = StoreInvariant
  import Calls = StoreCalls

  datatype ServiceError =
    | NotFound
    | WrongStatus
    | BoundElsewhere
    | NotBound
    | ArtifactNotRecorded
    | ReviewOfAnother
    | DispositionConflict
    | StoreRefused

  /** `get` of a store. */
  method Read(store: SqliteRecordStore, id: Id) returns (found: Result<Option<Record>, Store.StoreError>)
    ensures found == Store.Get(store.Contents(), id)
  {
    if id !in store.rows {
      return Ok(None);
    }
    var parsed := Store.Parse(store.rows[id]);
    if parsed.Err? {
      return Err(parsed.error);
    }
    return Ok(Some(parsed.value));
  }

  /** `WorkOrderService.issue`, with the identity it drew. */
  method Issue(workOrders: SqliteRecordStore, id: Id, at: Time) returns (r: Result<Record, ServiceError>)
    requires workOrders.Valid()
    modifies workOrders
    ensures workOrders.Valid()
    ensures r.Ok? <==> id !in old(workOrders.rows)
    ensures r.Ok? ==> id in workOrders.rows && workOrders.rows[id].record == r.value && IsIssued(r.value)
    ensures forall other | other in old(workOrders.rows) ::
      other in workOrders.rows && workOrders.rows[other] == old(workOrders.rows)[other]
  {
    hide Inv.ValidDb, Store.InsertEvents;
    var record := Record(id, Issued, [Event(1, at, Other("work-order.issued"))], WorkOrderBody(None));
    var outcome := workOrders.Create(record);
    return if outcome.Ok? then Ok(record) else Err(StoreRefused);
  }

  /** `WorkOrderService.bindExecutorJob`: a bound WorkOrder is returned as it is, or refused for another Job. */
  method BindExecutorJob(workOrders: SqliteRecordStore, id: Id, expected: int, jobId: Id, at: Time)
    returns (r: Result<Record, ServiceError>)
    requires workOrders.Valid() && workOrders.kind == WorkOrderKind
    modifies workOrders
    ensures workOrders.Valid()
    ensures r.Ok? <==>
      && 1 <= |id.text| <= 256 && 1 <= |jobId.text| <= 256 && expected >= 1
      && id in old(workOrders.rows) && old(workOrders.rows)[id].record.status == Issued
      && old(workOrders.rows)[id].record.body.WorkOrderBody?
      && (var bound := old(workOrders.rows)[id].record.body.executorJobId;
          bound == Some(jobId) || (bound == None && |old(workOrders.rows)[id].record.events| == expected))
    ensures r.Ok? ==> IsBound(workOrders.rows, id, jobId) && workOrders.rows[id].record == r.value
    ensures r.Err? ==> workOrders.Contents() == old(workOrders.Contents())
    ensures forall other, bound | IsBound(old(workOrders.rows), other, bound) :: IsBound(workOrders.rows, other, bound)
    ensures forall bound | IsBound(old(workOrders.rows), id, bound) && bound != jobId :: r.Err?
  {
    hide Inv.ValidDb, Store.InsertEvents, Store.Bind;
    var found := Read(workOrders, id);
    RowReads(workOrders.Contents(), id);
    RowsOf(workOrders.Contents());
    if found.Err? || found.value == None {
      return Err(NotFound);
    }
    var workOrder := found.value.value;
    if workOrder.status != Issued || !workOrder.body.WorkOrderBody? {
      return Err(WrongStatus);
    }
    if workOrder.body.executorJobId.Some? && workOrder.body.executorJobId.value != jobId {
      return Err(BoundElsewhere);
    }
    ghost var before := workOrders.Contents();
    Calls.BindsExactlyWhen(before, id, expected, jobId, at);
    Inv.StepKeeps(before, Store.OpBind(id, expected, jobId, at));
    WorkOrderStepStays(before, Store.OpBind(id, expected, jobId, at));
    RowsOf(before);
    var bound := workOrders.BindWorkOrderExecutorJob(id, expected, jobId, at);
    if bound.Err? {
      return Err(StoreRefused);
    }
    BoundRow(before, id, expected, jobId, at);
    return Ok(bound.value);
  }

  lemma {:induction false} RowsOf(db: Store.Db)
    requires Inv.ValidDb(db)
    ensures Inv.RowsValid(db.rows)
  {
    hide Inv.RowsValid;
  }

  /** A successful binding returns the row it leaves, and that row is bound. */
  lemma {:induction false} BoundRow(db: Store.Db, id: Id, expected: int, jobId: Id, at: Time)
    requires Inv.RowsValid(db.rows) && Store.Bind(db, id, expected, jobId, at).Ok?
    ensures var (after, record) := Store.Bind(db, id, expected, jobId, at).value;
      IsBound(after.rows, id, jobId) && after.rows[id].record == record
  {
    hide Store.InsertEvents, Numbered;
  }

  /** `CandidateService.create`. */
  method CreateCandidate(
      candidates: SqliteRecordStore, workOrders: SqliteRecordStore, jobs: SqliteRecordStore, request: CandidateRequest,
          id: Id, at: Time)
    returns (r: Result<Record, ServiceError>)
    requires candidates.Valid() && candidates != workOrders && candidates != jobs
    modifies candidates
    ensures candidates.Valid()
    ensures r.Ok? <==>
      && BoundTo(Store.Get(workOrders.Contents(), request.workOrderId), request.jobId)
      && HasRecordedArtifact(Store.Get(jobs.Contents(), request.jobId), request.artifact)
      && id !in old(candidates.rows)
    ensures r.Ok? ==> id in candidates.rows && candidates.rows[id].record == r.value
    ensures r.Ok? ==> r.value.body == CandidateBody(request.workOrderId, request.jobId, request.artifact)
    ensures r.Err? ==> candidates.Contents() == old(candidates.Contents())
  {
    hide Inv.ValidDb, Store.InsertEvents, Store.Get;
    var workOrder := Read(workOrders, request.workOrderId);
    if !Exists(workOrder) || !workOrder.value.value.body.WorkOrderBody? {
      return Err(NotFound);
    }
    if workOrder.value.value.body.executorJobId == None {
      return Err(NotBound);
    }
    if workOrder.value.value.body.executorJobId.value != request.jobId {
      return Err(BoundElsewhere);
    }
    var job := Read(jobs, request.jobId);
    if !Exists(job) {
      return Err(NotFound);
    }
    if !HasRecordedArtifact(job, request.artifact) {
      return Err(ArtifactNotRecorded);
    }
    var record := Record(id, NoStatus, [Event(1, at, Other("candidate.created"))],
        CandidateBody(request.workOrderId, request.jobId, request.artifact));
    var outcome := candidates.Create(record);
    return if outcome.Ok? then Ok(record) else Err(StoreRefused);
  }

  /** `ReviewService.create`. */
  method CreateReview(reviews: SqliteRecordStore, candidates: SqliteRecordStore, candidateId: Id, id: Id, at: Time)
    returns (r: Result<Record, ServiceError>)
    requires reviews.Valid() && reviews != candidates
    modifies reviews
    ensures reviews.Valid()
    ensures r.Ok? <==> Exists(Store.Get(candidates.Contents(), candidateId)) && id !in old(reviews.rows)
    ensures r.Ok? ==> IsReviewOf(reviews.rows, id, candidateId) && reviews.rows[id].record == r.value
    ensures r.Err? ==> reviews.Contents() == old(reviews.Contents())
  {
    hide Inv.ValidDb, Store.InsertEvents, Store.Get;
    var candidate := Read(candidates, candidateId);
    if !Exists(candidate) {
      return Err(NotFound);
    }
    var record := Record(id, NoStatus, [Event(1, at, Other("review.created"))], ReviewBody(candidateId));
    var outcome := reviews.Create(record);
    return if outcome.Ok? then Ok(record) else Err(StoreRefused);
  }

  /**
   * `DispositionService.record`: creates the Candidate's one Disposition, or, when that fails, re-reads
   * it and returns it if it was decided on the same input. `fails` and `lost` are I/O errors of the
   * write and of the second read.
   */
  method RecordDisposition(
      dispositions: SqliteRecordStore, candidates: SqliteRecordStore, reviews: SqliteRecordStore,
      request: DispositionRequest,
      at: Time, fails: bool, lost: bool)
    returns (r: Result<Record, ServiceError>)
    requires dispositions.Valid() && dispositions != candidates && dispositions != reviews
    modifies dispositions
    ensures dispositions.Valid()
    ensures r.Ok? ==>
      && Exists(Store.Get(candidates.Contents(), request.candidateId))
      && ReviewOf(Store.Get(reviews.Contents(), request.reviewId), request.candidateId)
      && DispositionId(request.candidateId) in dispositions.rows
      && dispositions.rows[DispositionId(request.candidateId)].record == r.value && SameInput(r.value, request)
    ensures r == Err(DispositionConflict) ==>
      DispositionId(request.candidateId) in dispositions.rows
          && !SameInput(dispositions.rows[DispositionId(request.candidateId)].record, request)
    ensures DispositionId(request.candidateId) in old(dispositions.rows) ==>
      dispositions.Contents() == old(dispositions.Contents())
    ensures r.Err? ==> dispositions.Contents() == old(dispositions.Contents())
    ensures !fails && !lost && Exists(Store.Get(candidates.Contents(), request.candidateId))
            && ReviewOf(Store.Get(reviews.Contents(), request.reviewId), request.candidateId)
            && Inv.RowsValid(old(dispositions.rows)) ==>
      r.Ok? || r == Err(DispositionConflict)
  {
    hide Inv.ValidDb, Store.InsertEvents, Store.Get, DispositionId;
    var candidate := Read(candidates, request.candidateId);
    if !Exists(candidate) {
      return Err(NotFound);
    }
    var review := Read(reviews, request.reviewId);
    if !Exists(review) {
      return Err(NotFound);
    }
    if !ReviewOf(review, request.candidateId) {
      return Err(ReviewOfAnother);
    }
    var record := DispositionRecord(request, at);
    if !fails {
      var outcome := dispositions.Create(record);
      if outcome.Ok? {
        return Ok(record);
      }
    }
    if lost {
      return Err(StoreRefused);
    }
    var existing := Read(dispositions, DispositionId(request.candidateId));
    RowReads(dispositions.Contents(), DispositionId(request.candidateId));
    if !Exists(existing) {
      return Err(StoreRefused);
    }
    return if SameInput(existing.value.value, request) then Ok(existing.value.value) else Err(DispositionConflict);
  }

  /** What `get` returns is the stored row, and a row in order is returned. */
  lemma {:induction false} RowReads(db: Store.Db, id: Id)
    ensures Exists(Store.Get(db, id)) ==> id in db.rows && Store.Get(db, id).value.value == db.rows[id].record
    ensures Inv.RowsValid(db.rows) && id in db.rows ==> Exists(Store.Get(db, id))
  {
    hide Numbered;
  }
}
