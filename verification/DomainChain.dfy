/**
 * WorkOrders, Jobs, Candidates, Reviews and Dispositions in five stores that share no transaction.
 * Service calls read one store after another and write the last one; any interleaving of calls,
 * also with failing writes, is a sequence of moves.
 */
module DomainChain {
  import opened Prelude
  import opened Records
  import Store = DurableStore
  import Inv = StoreInvariant
  import Jobs = JobProtocol
  import Safety = JobSafety
  import Guarantees = JobGuarantees

  type Rows = map<Id, Store.Row>

  datatype CandidateRequest = CandidateRequest(workOrderId: Id, jobId: Id, artifact: Artifact)

  /** `decision` stands for the decision, its author and its rationale. */
  datatype DispositionRequest = DispositionRequest(candidateId: Id, reviewId: Id, decision: string)

  /** How far a service call got. */
  datatype Call =
    | CandidateStart(candidate: CandidateRequest)
    | CandidateBound(candidate: CandidateRequest)       // the WorkOrder is bound to the named Job
    | CandidateReady(candidate: CandidateRequest)       // the Job records the artifact
    | ReviewStart(candidateId: Id)
    | ReviewReady(candidateId: Id)                      // the Candidate exists
    | DispositionStart(request: DispositionRequest)
    | DispositionKnown(request: DispositionRequest)     // the Candidate exists
    | DispositionReady(request: DispositionRequest)     // the Review exists and belongs to it
    | DispositionReread(request: DispositionRequest)    // the create failed
    | DispositionReturned(request: DispositionRequest, record: Record)
    | Conflicted(request: DispositionRequest)
    | Created
    | Abandoned

  datatype Sys = Sys(
    workOrders: Store.Db, jobs: Jobs.Sys, candidates: Store.Db, reviews: Store.Db, dispositions: Store.Db,
    calls: map<nat, Call>)

  function Init(): Sys {
    Sys(Store.Empty(WorkOrderKind), Jobs.Init(), Store.Empty(CandidateKind), Store.Empty(ReviewKind),
        Store.Empty(DispositionKind), map[])
  }

  /** Stands for SHA-256 in hexadecimal, taken as injective. */
  function Digest(text: string): string {
    text
  }

  function DispositionId(candidateId: Id): Id {
    Id("disposition_" + Digest(candidateId.text))
  }

  // ---- Moves ---------------------------------------------------------------

  datatype Move =
    | Issue(workOrder: Record)
    | Bind(workOrderId: Id, expected: int, jobId: Id, at: Time)
    | JobMove(jobMove: Jobs.Move)
    | Begin(cid: nat, call: Call)
    | Advance(cid: nat, id: Id, at: Time, fails: bool)

  /** What `issue` builds, under any id. */
  predicate IsIssued(record: Record) {
    record.status == Issued && record.body == WorkOrderBody(None)
  }

  predicate IsStart(call: Call) {
    call.CandidateStart? || call.ReviewStart? || call.DispositionStart?
  }

  function Do(sys: Sys, move: Move): Sys {
    match move
    case Issue(record) =>
      if IsIssued(record) then sys.(workOrders := Store.Step(sys.workOrders, Store.OpCreate(record)).0) else sys
    case Bind(id, expected, jobId, at) =>
      sys.(workOrders := Store.Step(sys.workOrders, Store.OpBind(id, expected, jobId, at)).0)
    case JobMove(jobMove) => sys.(jobs := Jobs.Do(sys.jobs, jobMove))
    case Begin(cid, call) =>
      if cid in sys.calls || !IsStart(call) then sys else sys.(calls := sys.calls[cid := call])
    case Advance(cid, id, at, fails) =>
      if cid !in sys.calls then sys else DoAdvance(sys, cid, sys.calls[cid], id, at, fails)
  }

  function Stay(sys: Sys, cid: nat, call: Call): Sys {
    sys.(calls := sys.calls[cid := call])
  }

  /** One await of a service call; `id` is the random identity it draws, `fails` an I/O error. */
  function DoAdvance(sys: Sys, cid: nat, call: Call, id: Id, at: Time, fails: bool): Sys {
    if fails && !call.DispositionReady? then Stay(sys, cid, Abandoned)
    else
      match call
      case CandidateStart(r) =>
        var found := Store.Get(sys.workOrders, r.workOrderId);
        Stay(sys, cid, if BoundTo(found, r.jobId) then CandidateBound(r) else Abandoned)
      case CandidateBound(r) =>
        var found := Store.Get(sys.jobs.db, r.jobId);
        Stay(sys, cid, if HasRecordedArtifact(found, r.artifact) then CandidateReady(r) else Abandoned)
      case CandidateReady(r) =>
        var record := Record(id, NoStatus, [Event(1, at, Other("candidate.created"))],
            CandidateBody(r.workOrderId, r.jobId, r.artifact));
        (match Store.InsertNew(sys.candidates, record)
         case Ok(db) => Stay(sys, cid, Created).(candidates := db)
         case Err(_) => Stay(sys, cid, Abandoned))
      case ReviewStart(candidateId) =>
        Stay(sys, cid, if Exists(Store.Get(sys.candidates, candidateId)) then ReviewReady(candidateId) else Abandoned)
      case ReviewReady(candidateId) =>
        var record := Record(id, NoStatus, [Event(1, at, Other("review.created"))], ReviewBody(candidateId));
        (match Store.InsertNew(sys.reviews, record)
         case Ok(db) => Stay(sys, cid, Created).(reviews := db)
         case Err(_) => Stay(sys, cid, Abandoned))
      case DispositionStart(r) =>
        Stay(sys, cid, if Exists(Store.Get(sys.candidates, r.candidateId)) then DispositionKnown(r) else Abandoned)
      case DispositionKnown(r) =>
        Stay(sys, cid, if ReviewOf(Store.Get(sys.reviews, r.reviewId), r.candidateId) then DispositionReady(r)
            else Abandoned)
      case DispositionReady(r) =>
        var record := DispositionRecord(r, at);
        (match Store.InsertNew(sys.dispositions, record)
         case Ok(db) =>
             if fails then Stay(sys, cid, DispositionReread(r))
             else Stay(sys, cid, DispositionReturned(r, record)).(dispositions := db)
         case Err(_) => Stay(sys, cid, DispositionReread(r)))
      case DispositionReread(r) =>
          Stay(sys, cid, Classify(Store.Get(sys.dispositions, DispositionId(r.candidateId)), r))
      case _ => sys
  }

  predicate BoundTo(found: Result<Option<Record>, Store.StoreError>, jobId: Id) {
    found.Ok? && found.value.Some? && found.value.value.body.WorkOrderBody?
    && found.value.value.body.executorJobId == Some(jobId)
  }

  predicate HasRecordedArtifact(found: Result<Option<Record>, Store.StoreError>, artifact: Artifact) {
    found.Ok? && found.value.Some? && found.value.value.body.JobBody? && artifact in found.value.value.body.artifacts
  }

  predicate Exists(found: Result<Option<Record>, Store.StoreError>) {
    found.Ok? && found.value.Some?
  }

  predicate ReviewOf(found: Result<Option<Record>, Store.StoreError>, candidateId: Id) {
    found.Ok? && found.value.Some? && found.value.value.body == ReviewBody(candidateId)
  }

  function DispositionRecord(r: DispositionRequest, at: Time): Record {
    Record(DispositionId(r.candidateId), NoStatus, [Event(1, at, Other("disposition.recorded"))],
           DispositionBody(r.candidateId, r.reviewId, r.decision))
  }

  /** `hasSameSemanticInput`. */
  predicate SameInput(record: Record, r: DispositionRequest) {
    record.body == DispositionBody(r.candidateId, r.reviewId, r.decision)
  }

  /** After a failed create: the committed record if it has the same input, a conflict if it has another one. */
  function Classify(found: Result<Option<Record>, Store.StoreError>, r: DispositionRequest): Call {
    if !Exists(found) then Abandoned
    else if SameInput(found.value.value, r) then DispositionReturned(r, found.value.value)
    else Conflicted(r)
  }

  function After(sys: Sys, moves: seq<Move>): Sys {
    if moves == [] then sys else Do(After(sys, moves[..|moves| - 1]), moves[|moves| - 1])
  }

  // ---- The invariant -------------------------------------------------------

  /** The WorkOrder exists and is bound to the Job. */
  predicate IsBound(workOrders: Rows, workOrderId: Id, jobId: Id) {
    workOrderId in workOrders && workOrders[workOrderId].record.body == WorkOrderBody(Some(jobId))
  }

  predicate HoldsArtifact(jobs: Rows, jobId: Id, artifact: Artifact) {
    jobId in jobs && artifact in Jobs.Artifacts(jobs[jobId].record)
  }

  predicate IsReviewOf(reviews: Rows, reviewId: Id, candidateId: Id) {
    reviewId in reviews && reviews[reviewId].record.body == ReviewBody(candidateId)
  }

  ghost predicate CandidatesOk(workOrders: Rows, jobs: Rows, candidates: Rows) {
    forall id | id in candidates ::
      && candidates[id].record.body.CandidateBody?
      && IsBound(workOrders, candidates[id].record.body.workOrderId, candidates[id].record.body.jobId)
      && HoldsArtifact(jobs, candidates[id].record.body.jobId, candidates[id].record.body.artifact)
  }

  ghost predicate ReviewsOk(candidates: Rows, reviews: Rows) {
    forall id | id in reviews ::
        reviews[id].record.body.ReviewBody? && reviews[id].record.body.candidateId in candidates
  }

  ghost predicate DispositionsOk(candidates: Rows, reviews: Rows, dispositions: Rows) {
    forall id | id in dispositions ::
      && dispositions[id].record.body.DispositionBody?
      && id == DispositionId(dispositions[id].record.body.decidedCandidateId)
      && dispositions[id].record.body.decidedCandidateId in candidates
      && IsReviewOf(reviews, dispositions[id].record.body.reviewId, dispositions[id].record.body.decidedCandidateId)
  }

  /** What a call has seen is still so: bindings, records and artifacts never go away. */
  predicate CallOk(workOrders: Rows, jobs: Rows, candidates: Rows, reviews: Rows, dispositions: Rows, call: Call) {
    match call
    case CandidateBound(r) => IsBound(workOrders, r.workOrderId, r.jobId)
    case CandidateReady(r) => IsBound(workOrders, r.workOrderId, r.jobId) && HoldsArtifact(jobs, r.jobId, r.artifact)
    case ReviewReady(candidateId) => candidateId in candidates
    case DispositionKnown(r) => r.candidateId in candidates
    case DispositionReady(r) => r.candidateId in candidates && IsReviewOf(reviews, r.reviewId, r.candidateId)
    case DispositionReturned(r, record) =>
      && SameInput(record, r)
      && DispositionId(r.candidateId) in dispositions && dispositions[DispositionId(r.candidateId)].record == record
    case Conflicted(r) =>
      DispositionId(r.candidateId) in dispositions && !SameInput(dispositions[DispositionId(r.candidateId)].record, r)
    case _ => true
  }

  ghost predicate CallsOk(sys: Sys) {
    forall cid | cid in sys.calls ::
      CallOk(sys.workOrders.rows, sys.jobs.db.rows, sys.candidates.rows, sys.reviews.rows, sys.dispositions.rows,
          sys.calls[cid])
  }

  ghost predicate StoresOk(sys: Sys) {
    && Inv.ValidDb(sys.workOrders) && sys.workOrders.kind == WorkOrderKind
    && Safety.Safe(sys.jobs)
    && Inv.ValidDb(sys.candidates) && Inv.ValidDb(sys.reviews) && Inv.ValidDb(sys.dispositions)
  }

  ghost predicate Linked(sys: Sys) {
    && StoresOk(sys)
    && CandidatesOk(sys.workOrders.rows, sys.jobs.db.rows, sys.candidates.rows)
    && ReviewsOk(sys.candidates.rows, sys.reviews.rows)
    && DispositionsOk(sys.candidates.rows, sys.reviews.rows, sys.dispositions.rows)
    && CallsOk(sys)
  }

  // ---- Facts that only grow ------------------------------------------------

  /** Every row of a is a row of b, unchanged. */
  ghost predicate Immutable(a: Rows, b: Rows) {
    forall id | id in a :: id in b && b[id] == a[id]
  }

  /** A binding, once made, is in every later state. */
  ghost predicate BindingsStay(a: Rows, b: Rows) {
    forall id, jobId | IsBound(a, id, jobId) :: IsBound(b, id, jobId)
  }

  lemma {:induction false} BindStays(db: Store.Db, id: Id, expected: int, jobId: Id, at: Time)
    requires Inv.RowsValid(db.rows) && Store.Bind(db, id, expected, jobId, at).Ok?
    ensures BindingsStay(db.rows, Store.Bind(db, id, expected, jobId, at).value.0.rows)
  {
    hide Store.InsertEvents, Numbered;
  }

  lemma {:induction false} InsertStays(db: Store.Db, record: Record)
    requires Store.InsertNew(db, record).Ok?
    ensures BindingsStay(db.rows, Store.InsertNew(db, record).value.rows)
  {
    hide Store.InsertEvents, Numbered;
  }

  lemma {:induction false} WorkOrderStepStays(db: Store.Db, op: Store.Op)
    requires Inv.ValidDb(db) && db.kind == WorkOrderKind && (op.OpCreate? || op.OpBind?)
    ensures Inv.ValidDb(Store.Step(db, op).0) && Store.Step(db, op).0.kind == WorkOrderKind
    ensures BindingsStay(db.rows, Store.Step(db, op).0.rows)
  {
    hide Store.Bind, Store.InsertNew, Inv.RowsValid, Inv.EventTableValid, Inv.CancellationsValid, Inv.CapacityValid,
        Inv.RowsLater, IsBound;
    Inv.StepKeeps(db, op);
    if op.OpBind? && Store.Bind(db, op.workOrderId, op.expected, op.jobId, op.boundAt).Ok? {
      BindStays(db, op.workOrderId, op.expected, op.jobId, op.boundAt);
    } else if op.OpCreate? && Store.InsertNew(db, op.created).Ok? {
      InsertStays(db, op.created);
    }
  }

  lemma {:induction false} CreatedStays(db: Store.Db, record: Record)
    requires Inv.ValidDb(db) && Store.InsertNew(db, record).Ok?
    ensures var after := Store.InsertNew(db, record).value;
      && Inv.ValidDb(after) && record.id !in db.rows
      && after.rows == db.rows[record.id := Store.Row(1, |record.events|, record)]
      && Immutable(db.rows, after.rows)
  {
    hide Store.InsertEvents, Inv.ValidDb;
    Inv.InsertNewKeeps(db, record);
  }

  lemma {:induction false} CallStays(a: Sys, b: Sys, call: Call)
    requires BindingsStay(a.workOrders.rows, b.workOrders.rows) && Guarantees.Kept(a.jobs.db.rows, b.jobs.db.rows)
    requires Immutable(a.candidates.rows, b.candidates.rows) && Immutable(a.reviews.rows, b.reviews.rows)
    requires Immutable(a.dispositions.rows, b.dispositions.rows)
    requires CallOk(a.workOrders.rows, a.jobs.db.rows, a.candidates.rows, a.reviews.rows, a.dispositions.rows, call)
    ensures CallOk(b.workOrders.rows, b.jobs.db.rows, b.candidates.rows, b.reviews.rows, b.dispositions.rows, call)
  {
  }

  /** Facts established in a hold in every later state b. */
  ghost predicate Onward(a: Sys, b: Sys) {
    && BindingsStay(a.workOrders.rows, b.workOrders.rows) && Guarantees.Kept(a.jobs.db.rows, b.jobs.db.rows)
    && Immutable(a.candidates.rows, b.candidates.rows) && Immutable(a.reviews.rows, b.reviews.rows)
    && Immutable(a.dispositions.rows, b.dispositions.rows)
  }

  lemma {:induction false} OnwardReflexive(a: Sys)
    ensures Onward(a, a)
  {
  }

  lemma {:induction false} OnwardTransitive(a: Sys, b: Sys, c: Sys)
    requires Onward(a, b) && Onward(b, c)
    ensures Onward(a, c)
  {
    hide IsBound;
  }

  lemma {:induction false} CallsStay(a: Sys, b: Sys)
    requires Onward(a, b) && CallsOk(a) && b.calls == a.calls
    ensures CallsOk(b)
  {
    hide CallOk, Onward;
    forall cid | cid in b.calls
      ensures CallOk(b.workOrders.rows, b.jobs.db.rows, b.candidates.rows, b.reviews.rows, b.dispositions.rows,
        b.calls[cid])
    {
      OnwardCall(a, b, b.calls[cid]);
    }
  }

  lemma {:induction false} OnwardCall(a: Sys, b: Sys, call: Call)
    requires Onward(a, b)
    requires CallOk(a.workOrders.rows, a.jobs.db.rows, a.candidates.rows, a.reviews.rows, a.dispositions.rows, call)
    ensures CallOk(b.workOrders.rows, b.jobs.db.rows, b.candidates.rows, b.reviews.rows, b.dispositions.rows, call)
  {
    hide CallOk, BindingsStay, Guarantees.Kept, Immutable;
    CallStays(a, b, call);
  }

  // ---- Each move -----------------------------------------------------------

  lemma {:induction false} CandidatesStay(a: Sys, b: Sys)
    requires Onward(a, b) && CandidatesOk(a.workOrders.rows, a.jobs.db.rows, a.candidates.rows)
    ensures CandidatesOk(b.workOrders.rows, b.jobs.db.rows, a.candidates.rows)
  {
    forall id | id in a.candidates.rows
      ensures var body := a.candidates.rows[id].record.body;
        body.CandidateBody? && IsBound(b.workOrders.rows, body.workOrderId, body.jobId)
            && HoldsArtifact(b.jobs.db.rows, body.jobId, body.artifact)
    {
      var body := a.candidates.rows[id].record.body;
      assert IsBound(a.workOrders.rows, body.workOrderId, body.jobId);
    }
  }

  lemma {:induction false} ReferencesStay(a: Sys, b: Sys)
    requires Onward(a, b) && ReviewsOk(a.candidates.rows, a.reviews.rows)
    requires DispositionsOk(a.candidates.rows, a.reviews.rows, a.dispositions.rows)
    ensures ReviewsOk(b.candidates.rows, a.reviews.rows)
    ensures DispositionsOk(b.candidates.rows, b.reviews.rows, a.dispositions.rows)
  {
    hide BindingsStay, Guarantees.Kept;
  }

  /** The stores moved on and no call did. */
  lemma {:induction false} SourcesMove(a: Sys, b: Sys)
    requires Linked(a) && StoresOk(b) && Onward(a, b) && b.calls == a.calls
    requires b.candidates == a.candidates && b.reviews == a.reviews && b.dispositions == a.dispositions
    ensures Linked(b)
  {
    hide CandidatesOk, ReviewsOk, DispositionsOk, CallsOk, Onward, StoresOk;
    CandidatesStay(a, b);
    CallsStay(a, b);
  }

  lemma {:induction false} IssueLinked(sys: Sys, op: Store.Op)
    requires Linked(sys) && (op.OpCreate? || op.OpBind?)
    ensures Linked(sys.(workOrders := Store.Step(sys.workOrders, op).0))
    ensures Onward(sys, sys.(workOrders := Store.Step(sys.workOrders, op).0))
  {
    hide CandidatesOk, ReviewsOk, DispositionsOk, CallsOk, Inv.ValidDb, Store.Step, BindingsStay;
    var after := sys.(workOrders := Store.Step(sys.workOrders, op).0);
    WorkOrderStepStays(sys.workOrders, op);
    SourcesMove(sys, after);
  }

  /** A step of the Job protocol keeps every artifact that a call has seen. */
  lemma {:induction false} JobMoveLinked(sys: Sys, move: Jobs.Move)
    requires Linked(sys)
    ensures Linked(sys.(jobs := Jobs.Do(sys.jobs, move)))
    ensures Onward(sys, sys.(jobs := Jobs.Do(sys.jobs, move)))
  {
    hide CandidatesOk, ReviewsOk, DispositionsOk, CallsOk, Inv.ValidDb, Jobs.Do, Safety.Safe, Guarantees.Kept;
    var after := sys.(jobs := Jobs.Do(sys.jobs, move));
    Safety.MoveSafe(sys.jobs, move);
    Guarantees.MoveKeeps(sys.jobs, move);
    SourcesMove(sys, after);
  }

  /** A call enters a stage that what the stores hold justifies. */
  lemma {:induction false} CallMoves(sys: Sys, cid: nat, call: Call)
    requires Linked(sys)
    requires CallOk(sys.workOrders.rows, sys.jobs.db.rows, sys.candidates.rows, sys.reviews.rows, sys.dispositions.rows,
      call)
    ensures Linked(Stay(sys, cid, call)) && Onward(sys, Stay(sys, cid, call))
  {
    hide CandidatesOk, ReviewsOk, DispositionsOk, CallOk, Inv.ValidDb, BindingsStay, Guarantees.Kept, Immutable;
    OnwardReflexive(sys);
  }

  lemma {:induction false} CandidateCreated(sys: Sys, record: Record)
    requires Linked(sys) && Store.InsertNew(sys.candidates, record).Ok?
    requires record.body.CandidateBody? && IsBound(sys.workOrders.rows, record.body.workOrderId, record.body.jobId)
    requires HoldsArtifact(sys.jobs.db.rows, record.body.jobId, record.body.artifact)
    ensures var after := sys.(candidates := Store.InsertNew(sys.candidates, record).value);
      Linked(after) && Onward(sys, after)
  {
    hide Store.InsertNew, CallsOk, Inv.ValidDb, HoldsArtifact, IsBound, IsReviewOf, Guarantees.Kept, BindingsStay;
    var after := sys.(candidates := Store.InsertNew(sys.candidates, record).value);
    OnwardReflexive(sys);
    CreatedStays(sys.candidates, record);
    CallsStay(sys, after);
  }

  lemma {:induction false} ReviewCreated(sys: Sys, record: Record)
    requires Linked(sys) && Store.InsertNew(sys.reviews, record).Ok?
    requires record.body.ReviewBody? && record.body.candidateId in sys.candidates.rows
    ensures var after := sys.(reviews := Store.InsertNew(sys.reviews, record).value);
      Linked(after) && Onward(sys, after)
  {
    hide Store.InsertNew, CallsOk, Inv.ValidDb, CandidatesOk, IsBound, Guarantees.Kept, BindingsStay;
    var after := sys.(reviews := Store.InsertNew(sys.reviews, record).value);
    OnwardReflexive(sys);
    CreatedStays(sys.reviews, record);
    CallsStay(sys, after);
    ReferencesStay(sys, after);
  }

  lemma {:induction false} DispositionCreated(sys: Sys, r: DispositionRequest, at: Time)
    requires Linked(sys) && Store.InsertNew(sys.dispositions, DispositionRecord(r, at)).Ok?
    requires r.candidateId in sys.candidates.rows && IsReviewOf(sys.reviews.rows, r.reviewId, r.candidateId)
    ensures var after := sys.(dispositions := Store.InsertNew(sys.dispositions, DispositionRecord(r, at)).value);
      && Linked(after) && Onward(sys, after)
      && DispositionId(r.candidateId) in after.dispositions.rows
      && after.dispositions.rows[DispositionId(r.candidateId)].record == DispositionRecord(r, at)
  {
    hide Store.InsertNew, CallsOk, Inv.ValidDb, CandidatesOk, IsBound, ReviewsOk, DispositionId, Guarantees.Kept,
        BindingsStay;
    var after := sys.(dispositions := Store.InsertNew(sys.dispositions, DispositionRecord(r, at)).value);
    OnwardReflexive(sys);
    CreatedStays(sys.dispositions, DispositionRecord(r, at));
    CallsStay(sys, after);
  }

  /** A row that `get` returns is in the store as it is. */
  lemma {:induction false} GetReads(db: Store.Db, id: Id)
    ensures Exists(Store.Get(db, id)) ==> id in db.rows && Store.Get(db, id).value.value == db.rows[id].record
  {
    hide Numbered;
  }

  lemma {:induction false} CandidateAdvances(sys: Sys, cid: nat, call: Call, id: Id, at: Time)
    requires Linked(sys) && cid in sys.calls && sys.calls[cid] == call
    requires call.CandidateStart? || call.CandidateBound? || call.CandidateReady?
    ensures var after := DoAdvance(sys, cid, call, id, at, false); Linked(after) && Onward(sys, after)
  {
    hide Store.Get, Store.InsertNew, Linked, Onward;
    InStage(sys, cid);
    GetReads(sys.workOrders, call.candidate.workOrderId);
    GetReads(sys.jobs.db, call.candidate.jobId);
    CallMoves(sys, cid, Abandoned);
    if call.CandidateReady? {
      var r := call.candidate;
      var record := Record(id, NoStatus, [Event(1, at, Other("candidate.created"))],
          CandidateBody(r.workOrderId, r.jobId, r.artifact));
      if Store.InsertNew(sys.candidates, record).Ok? {
        CandidateCreated(sys, record);
        var after := sys.(candidates := Store.InsertNew(sys.candidates, record).value);
        CallMoves(after, cid, Created);
        OnwardTransitive(sys, after, Stay(after, cid, Created));
      }
    } else {
      var next := DoAdvance(sys, cid, call, id, at, false).calls[cid];
      CallMoves(sys, cid, next);
    }
  }

  lemma {:induction false} InStage(sys: Sys, cid: nat)
    requires Linked(sys) && cid in sys.calls
    ensures CallOk(sys.workOrders.rows, sys.jobs.db.rows, sys.candidates.rows, sys.reviews.rows, sys.dispositions.rows,
      sys.calls[cid])
  {
    hide StoresOk, CandidatesOk, ReviewsOk, DispositionsOk, CallOk;
  }

  lemma {:induction false} ReviewAdvances(sys: Sys, cid: nat, call: Call, id: Id, at: Time)
    requires Linked(sys) && cid in sys.calls && sys.calls[cid] == call
    requires call.ReviewStart? || call.ReviewReady?
    ensures var after := DoAdvance(sys, cid, call, id, at, false); Linked(after) && Onward(sys, after)
  {
    hide Store.Get, Store.InsertNew, Linked, Onward;
    InStage(sys, cid);
    GetReads(sys.candidates, call.candidateId);
    CallMoves(sys, cid, Abandoned);
    if call.ReviewReady? {
      var record := Record(id, NoStatus, [Event(1, at, Other("review.created"))], ReviewBody(call.candidateId));
      if Store.InsertNew(sys.reviews, record).Ok? {
        ReviewCreated(sys, record);
        var after := sys.(reviews := Store.InsertNew(sys.reviews, record).value);
        CallMoves(after, cid, Created);
        OnwardTransitive(sys, after, Stay(after, cid, Created));
      }
    } else {
      var next := DoAdvance(sys, cid, call, id, at, false).calls[cid];
      CallMoves(sys, cid, next);
    }
  }

  lemma {:induction false} DispositionAdvances(sys: Sys, cid: nat, call: Call, id: Id, at: Time, fails: bool)
    requires Linked(sys) && cid in sys.calls && sys.calls[cid] == call
    requires call.DispositionStart? || call.DispositionKnown? || call.DispositionReady? || call.DispositionReread?
    requires fails ==> call.DispositionReady?
    ensures var after := DoAdvance(sys, cid, call, id, at, fails); Linked(after) && Onward(sys, after)
  {
    hide Store.Get, Store.InsertNew, Linked, Onward;
    InStage(sys, cid);
    var r := call.request;
    GetReads(sys.candidates, r.candidateId);
    GetReads(sys.reviews, r.reviewId);
    GetReads(sys.dispositions, DispositionId(r.candidateId));
    if call.DispositionReady? && !fails && Store.InsertNew(sys.dispositions, DispositionRecord(r, at)).Ok? {
      DispositionCreated(sys, r, at);
      var after := sys.(dispositions := Store.InsertNew(sys.dispositions, DispositionRecord(r, at)).value);
      CallMoves(after, cid, DispositionReturned(r, DispositionRecord(r, at)));
      OnwardTransitive(sys, after, Stay(after, cid, DispositionReturned(r, DispositionRecord(r, at))));
    } else {
      CallMoves(sys, cid, DispositionReread(r));
      var next := DoAdvance(sys, cid, call, id, at, fails).calls[cid];
      CallMoves(sys, cid, next);
    }
  }

  lemma {:induction false} MoveLinked(sys: Sys, move: Move)
    requires Linked(sys)
    ensures Linked(Do(sys, move)) && Onward(sys, Do(sys, move))
  {
    hide Linked, Onward, Store.Step, DoAdvance, Guarantees.Kept, IsIssued;
    OnwardReflexive(sys);
    match move
    case Issue(record) => IssueLinked(sys, Store.OpCreate(record));
    case Bind(id, expected, jobId, at) => IssueLinked(sys, Store.OpBind(id, expected, jobId, at));
    case JobMove(jobMove) => JobMoveLinked(sys, jobMove);
    case Begin(cid, call) => if IsStart(call) { CallMoves(sys, cid, call); }
    case Advance(cid, id, at, fails) =>
      if cid in sys.calls { AdvanceLinked(sys, cid, sys.calls[cid], id, at, fails); }
  }

  lemma {:induction false} AdvanceLinked(sys: Sys, cid: nat, call: Call, id: Id, at: Time, fails: bool)
    requires Linked(sys) && cid in sys.calls && sys.calls[cid] == call
    ensures var after := DoAdvance(sys, cid, call, id, at, fails); Linked(after) && Onward(sys, after)
  {
    hide Linked, Onward, Store.Get, Store.InsertNew, DispositionRecord;
    OnwardReflexive(sys);
    CallMoves(sys, cid, Abandoned);
    if fails && !call.DispositionReady? {
    } else if call.CandidateStart? || call.CandidateBound? || call.CandidateReady? {
      CandidateAdvances(sys, cid, call, id, at);
    } else if call.ReviewStart? || call.ReviewReady? {
      ReviewAdvances(sys, cid, call, id, at);
    } else if call.DispositionStart? || call.DispositionKnown? || call.DispositionReady? || call.DispositionReread? {
      DispositionAdvances(sys, cid, call, id, at, fails);
    }
  }

  // ---- Every run -----------------------------------------------------------

  lemma {:induction false} InitLinked()
    ensures Linked(Init())
  {
    Inv.EmptyValid(WorkOrderKind);
    Guarantees.InitSafe();
    Inv.EmptyValid(CandidateKind);
    Inv.EmptyValid(ReviewKind);
    Inv.EmptyValid(DispositionKind);
    hide Inv.ValidDb, Safety.Safe;
  }

  lemma {:induction false} ReachableLinked(moves: seq<Move>)
    ensures Linked(After(Init(), moves))
  {
    hide Linked, Do, Onward;
    if moves == [] {
      InitLinked();
    } else {
      ReachableLinked(moves[..|moves| - 1]);
      MoveLinked(After(Init(), moves[..|moves| - 1]), moves[|moves| - 1]);
    }
  }

  lemma {:induction false} RunOnward(moves: seq<Move>, i: nat, j: nat)
    requires i <= j <= |moves|
    ensures Onward(After(Init(), moves[..i]), After(Init(), moves[..j]))
    decreases j
  {
    hide Linked, Do, Onward;
    var a := After(Init(), moves[..i]);
    if i == j {
      OnwardReflexive(a);
    } else {
      RunOnward(moves, i, j - 1);
      var b := After(Init(), moves[..j - 1]);
      ReachableLinked(moves[..j - 1]);
      MoveLinked(b, moves[j - 1]);
      assert moves[..j][..j - 1] == moves[..j - 1];
      OnwardTransitive(a, b, Do(b, moves[j - 1]));
    }
  }

  /** A WorkOrder's executor Job, once bound, is bound for good. */
  lemma {:induction false} BindingIsWriteOnce(moves: seq<Move>, i: nat, j: nat, workOrderId: Id, jobId: Id)
    requires i <= j <= |moves|
    requires IsBound(After(Init(), moves[..i]).workOrders.rows, workOrderId, jobId)
    ensures IsBound(After(Init(), moves[..j]).workOrders.rows, workOrderId, jobId)
  {
    hide After, IsBound, Guarantees.Kept, Immutable;
    RunOnward(moves, i, j);
  }

  /** Every Candidate names the Job its WorkOrder is bound to, and an artifact that this Job records. */
  lemma {:induction false} CandidateNamesBoundJob(moves: seq<Move>, id: Id)
    requires id in After(Init(), moves).candidates.rows
    ensures var sys := After(Init(), moves);
      var body := sys.candidates.rows[id].record.body;
      && body.CandidateBody?
      && IsBound(sys.workOrders.rows, body.workOrderId, body.jobId)
      && HoldsArtifact(sys.jobs.db.rows, body.jobId, body.artifact)
  {
    hide After, StoresOk, ReviewsOk, DispositionsOk, CallsOk, IsBound, HoldsArtifact;
    ReachableLinked(moves);
  }

  /** Every Review names an existing Candidate. */
  lemma {:induction false} ReviewNamesCandidate(moves: seq<Move>, id: Id)
    requires id in After(Init(), moves).reviews.rows
    ensures After(Init(), moves).reviews.rows[id].record.body.ReviewBody?
    ensures After(Init(), moves).reviews.rows[id].record.body.candidateId in After(Init(), moves).candidates.rows
  {
    hide After, StoresOk, CandidatesOk, DispositionsOk, CallsOk;
    ReachableLinked(moves);
  }

  /** A Candidate has at most one Disposition, and the Review it names is one of this Candidate. */
  lemma {:induction false} OneDispositionPerCandidate(moves: seq<Move>, a: Id, b: Id)
    requires a in After(Init(), moves).dispositions.rows && b in After(Init(), moves).dispositions.rows
    ensures var sys := After(Init(), moves);
      var x, y := sys.dispositions.rows[a].record.body, sys.dispositions.rows[b].record.body;
      && x.DispositionBody? && y.DispositionBody?
      && x.decidedCandidateId in sys.candidates.rows && IsReviewOf(sys.reviews.rows, x.reviewId, x.decidedCandidateId)
      && (x.decidedCandidateId == y.decidedCandidateId <==> a == b)
  {
    hide After, StoresOk, CandidatesOk, ReviewsOk, CallsOk, IsReviewOf;
    ReachableLinked(moves);
    var sys := After(Init(), moves);
    DigestInjective(sys.dispositions.rows[a].record.body.decidedCandidateId,
        sys.dispositions.rows[b].record.body.decidedCandidateId);
  }

  lemma {:induction false} DigestInjective(a: Id, b: Id)
    ensures DispositionId(a) == DispositionId(b) <==> a == b
  {
    assert DispositionId(a).text[12..] == a.text && DispositionId(b).text[12..] == b.text;
  }

  /** All successful `record` calls for one Candidate return one and the same record, now and later. */
  lemma {:induction false} RecordCallsAgree(moves: seq<Move>, i: nat, j: nat, c: nat, d: nat)
    requires i <= j <= |moves|
    requires c in After(Init(), moves[..i]).calls && After(Init(), moves[..i]).calls[c].DispositionReturned?
    requires d in After(Init(), moves[..j]).calls && After(Init(), moves[..j]).calls[d].DispositionReturned?
    requires After(Init(), moves[..i]).calls[c].request.candidateId
      == After(Init(), moves[..j]).calls[d].request.candidateId
    ensures After(Init(), moves[..i]).calls[c].record == After(Init(), moves[..j]).calls[d].record
    ensures After(Init(), moves[..i]).calls[c].request == After(Init(), moves[..j]).calls[d].request
  {
    hide After, Linked, BindingsStay, Guarantees.Kept, DispositionId;
    RunOnward(moves, i, j);
    ReachableLinked(moves[..i]);
    ReachableLinked(moves[..j]);
    InStage(After(Init(), moves[..i]), c);
    InStage(After(Init(), moves[..j]), d);
  }

  /** A call reports a conflict only when the one Disposition of its Candidate was decided on other input. */
  lemma {:induction false} ConflictMeansOtherInput(moves: seq<Move>, c: nat)
    requires c in After(Init(), moves).calls && After(Init(), moves).calls[c].Conflicted?
    ensures var sys, r := After(Init(), moves), After(Init(), moves).calls[c].request;
      var id := DispositionId(r.candidateId);
      && id in sys.dispositions.rows
      && sys.dispositions.rows[id].record.body.DispositionBody?
      && sys.dispositions.rows[id].record.body.decidedCandidateId == r.candidateId
      && sys.dispositions.rows[id].record.body != DispositionBody(r.candidateId, r.reviewId, r.decision)
  {
    hide After, StoresOk, CandidatesOk, ReviewsOk, DispositionId, IsReviewOf;
    ReachableLinked(moves);
    var sys, r := After(Init(), moves), After(Init(), moves).calls[c].request;
    DigestInjective(sys.dispositions.rows[DispositionId(r.candidateId)].record.body.decidedCandidateId, r.candidateId);
  }
}
