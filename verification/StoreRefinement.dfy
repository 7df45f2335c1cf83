/**
 * The transactional store as a refinement of the in-memory one, over every run: both are given the
 * same admissions, the in-memory store also the saves that commit, and anybody's lease, capacity and
 * cancellation calls come in between.
 */
module StoreRefinement {
  import opened Prelude
  import opened Records
  import opened DurableStore
  import opened StoreInvariant
  import opened StoreAdmission
  import Mem = MemoryJobStore

  /** The record that a creating call would write, and its key, if its arguments are accepted. */
  function Offered(db: Db, op: Op): Option<(Record, Option<Idempotency>)> {
    match op
    case OpCreate(record) => if Numbered(record.events) then Some((record, None)) else None
    case OpAdmit(record, options) =>
      if ValidAdmission(db.kind, options) && Numbered(record.events) then Some((record, options.idempotency)) else None
    case OpAdmitRoutePool(key, members, options) =>
      if !ValidAdmission(db.kind, options) || !ValidPool(key, Names(members)) then None
      else
        var chosen := ChosenMember(db, key, Names(members), options.now);
        if 0 <= chosen < |members| && IsMember(members[chosen]) then Some((members[chosen].1, options.idempotency))
            else None
    case _ => None
  }

  /** What the caller's `createRecord` builds for a member of the pool. */
  predicate IsMember(member: (string, Record)) {
    Numbered(member.1.events) && member.1.body.JobBody? && member.1.body.route == member.0
  }

  /** The scope under which a call is keyed, if it is keyed, holds no NUL. */
  predicate PlainScope(op: Op) {
    KeyOf(op).Some? ==> NulFree(KeyOf(op).value.scope)
  }

  /** The in-memory store's answer to the same call. */
  function MemoryReply(m: Mem.Memory, offered: (Record, Option<Idempotency>))
      : (Mem.Memory, Result<Mem.Creation, Mem.MemoryError>)
  {
    if offered.1.Some? then
      Mem.CreateOnce(m, offered.1.value.scope, offered.1.value.key, offered.1.value.requestHash, offered.0)
    else Mem.CreateNew(m, offered.0)
  }

  /** One call, on the in-memory side; `db` is the transactional store before it. */
  function MemoryStep(m: Mem.Memory, db: Db, op: Op): Mem.Memory {
    var offered := Offered(db, op);
    if offered.Some? then MemoryReply(m, offered.value).0
    else if op.OpSave? && Step(db, op).1.Committed? then Mem.SaveOver(m, op.saved)
    else m
  }

  function MemoryAfter(ops: seq<Op>): Mem.Memory {
    if ops == [] then Mem.Memory(map[], map[])
    else
      var rest := ops[..|ops| - 1];
      MemoryStep(MemoryAfter(rest), After(Empty(JobKind), rest), ops[|ops| - 1])
  }

  /** The two stores' answers to a creating call, side by side. */
  predicate SameReply(db: Db, reply: Reply, memory: Result<Mem.Creation, Mem.MemoryError>, job: Record) {
    match reply
    case Committed => memory == Ok(Mem.Creation(true, job))
    case AdmissionReply(Created(_)) => memory == Ok(Mem.Creation(true, job))
    case AdmissionReply(Replayed(id)) => id in db.rows && memory == Ok(Mem.Creation(false, db.rows[id].record))
    case Refused(error) =>
      || (error.IdempotencyConflict? && memory == Err(Mem.IdempotencyConflict))
      || (error.AlreadyExists? && memory == Err(Mem.AlreadyExists))
    case _ => false
  }

  // ---- One call ------------------------------------------------------------

  /** A new record without a key. */
  lemma {:induction false} RefinedInsert(db: Db, m: Mem.Memory, after: Db, job: Record)
    requires Refines(db, m)
    requires after.rows == db.rows[job.id := Row(1, |job.events|, job)] && after.idempotency == db.idempotency
    ensures Refines(after, m.(records := m.records[job.id := job]))
  {
  }

  lemma {:induction false} RefinedUnchanged(db: Db, m: Mem.Memory, after: Db)
    requires Refines(db, m) && after.rows == db.rows && after.idempotency == db.idempotency
    ensures Refines(after, m)
  {
  }

  lemma {:induction false} CreateRefines(db: Db, m: Mem.Memory, record: Record)
    requires Refines(db, m) && Numbered(record.events)
    ensures var (m', memory) := Mem.CreateNew(m, record);
      var (after, reply) := Step(db, OpCreate(record));
      SameReply(db, reply, memory, record) && Refines(after, m')
  {
    hide Refines, InsertEvents, Numbered;
    SameRecords(db, m, record.id);
    if record.id !in db.rows {
      RefinedInsert(db, m, Step(db, OpCreate(record)).0, record);
    }
  }

  lemma {:induction false} SameRecords(db: Db, m: Mem.Memory, id: Id)
    requires Refines(db, m)
    ensures id in db.rows <==> id in m.records
  {
  }

  /** An admission without a key. */
  lemma {:induction false} UnkeyedRefines(db: Db, m: Mem.Memory, job: Record, options: Admission)
    requires ValidDb(db) && Refines(db, m)
    requires ValidAdmission(db.kind, options) && Numbered(job.events) && options.idempotency == None
    ensures var (m', memory) := Mem.CreateNew(m, job);
      var durable := Admit(db, job, options);
      && SameOutcome(db, durable, memory, job)
      && Refines(if durable.Ok? then durable.value.0 else db, m')
  {
    hide Refines, TryAcquire, InsertEvents, MoveCapacity, ValidDb;
    SameRecords(db, m, job.id);
    if job.id !in db.rows {
      FirstClaim(db, job, options);
      EnrollEffect(db, job, options);
      RefinedInsert(db, m, Enroll(db, job, options).value.0, job);
    }
  }

  lemma {:induction false} AdmissionRefines(db: Db, m: Mem.Memory, job: Record, options: Admission)
    requires ValidDb(db) && Refines(db, m)
    requires ValidAdmission(db.kind, options) && Numbered(job.events)
    requires options.idempotency.Some? ==> NulFree(options.idempotency.value.scope)
    ensures var (m', memory) := MemoryReply(m, (job, options.idempotency));
      var durable := Admit(db, job, options);
      && SameOutcome(db, durable, memory, job)
      && Refines(if durable.Ok? then durable.value.0 else db, m')
  {
    hide Refines, Admit, ValidDb, SameOutcome, ValidAdmission, Numbered, NulFree;
    if options.idempotency.Some? {
      AdmitRefinesMemory(db, m, job, options);
    } else {
      UnkeyedRefines(db, m, job, options);
    }
  }

  /** A pool admission is the admission of the chosen member, and moves the cursor. */
  lemma {:induction false} PoolIsAdmission(db: Db, key: string, members: seq<(string, Record)>, options: Admission)
    requires db.kind == JobKind && ValidAdmission(db.kind, options) && ValidPool(key, Names(members))
    requires var chosen := ChosenMember(db, key, Names(members), options.now);
      0 <= chosen < |members| && IsMember(members[chosen])
    ensures var job := members[ChosenMember(db, key, Names(members), options.now)].1;
      var pool, admitted := AdmitRoutePool(db, key, Names(members), MemberRecords(members), options),
          Admit(db, job, options);
      && pool.Ok? == admitted.Ok?
      && (pool.Ok? ==>
            && pool.value.1 == admitted.value.1
            && pool.value.0.rows == admitted.value.0.rows && pool.value.0.idempotency == admitted.value.0.idempotency)
      && (pool.Err? ==> pool.error == admitted.error)
  {
    hide Enroll, ChosenMember, ValidAdmission, ValidPool, Numbered, FindReplay;
  }

  lemma {:induction false} OfferRefines(db: Db, m: Mem.Memory, op: Op)
    requires ValidDb(db) && db.kind == JobKind && Refines(db, m) && PlainScope(op) && Offered(db, op).Some?
    ensures var (m', memory) := MemoryReply(m, Offered(db, op).value);
      SameReply(db, Step(db, op).1, memory, Offered(db, op).value.0) && Refines(Step(db, op).0, m')
  {
    hide Refines, Admit, ValidDb, ValidAdmission, Numbered, NulFree, ValidPool, ChosenMember, InsertNew, AdmitRoutePool,
        MemoryReply, IsMember;
    match op
    case OpCreate(record) => PlainReply(m, record); CreateRefines(db, m, record);
    case OpAdmit(record, options) => AdmissionRefines(db, m, record, options);
    case OpAdmitRoutePool(key, members, options) =>
      var job := members[ChosenMember(db, key, Names(members), options.now)].1;
      MemberIsNumbered(members[ChosenMember(db, key, Names(members), options.now)]);
      AdmissionRefines(db, m, job, options);
      PoolIsAdmission(db, key, members, options);
      var pool := AdmitRoutePool(db, key, Names(members), MemberRecords(members), options);
      if pool.Ok? {
        RefinedUnchanged(Admit(db, job, options).value.0, MemoryReply(m, (job, options.idempotency)).0, pool.value.0);
      }
  }

  lemma {:induction false} PlainReply(m: Mem.Memory, record: Record)
    ensures MemoryReply(m, (record, None)) == Mem.CreateNew(m, record)
  {
  }

  lemma {:induction false} MemberIsNumbered(member: (string, Record))
    requires IsMember(member)
    ensures Numbered(member.1.events)
  {
  }

  /** A creating call that is not accepted changes nothing. */
  lemma {:induction false} NotOffered(db: Db, op: Op)
    requires db.kind == JobKind && Offered(db, op).None?
    requires op.OpCreate? || op.OpAdmit? || op.OpAdmitRoutePool?
    ensures Step(db, op).0 == db
  {
    hide FindReplay, ChosenMember, ValidAdmission, ValidPool, Numbered, Claim, TryAcquire, Remember;
  }

  lemma {:induction false} SaveRefines(db: Db, m: Mem.Memory, op: Op)
    requires Refines(db, m) && op.OpSave?
    ensures Refines(Step(db, op).0, if Step(db, op).1.Committed? then Mem.SaveOver(m, op.saved) else m)
  {
    hide InsertEvents, NulFree, Mem.Identity, LeaseCurrent, Numbered;
  }

  lemma {:induction false} LeaseCallRefines(db: Db, m: Mem.Memory, op: Op)
    requires Refines(db, m) && (op.OpClaim? || op.OpRenew? || op.OpReleaseLease?)
    ensures Refines(Step(db, op).0, m)
  {
    hide Refines, ClaimRow, MoveCapacity, LeaseCurrent, Admit, AdmitRoutePool, Save, Bind, InsertNew,
        TryAcquireCapacity, RequestCancellation;
    RefinedUnchanged(db, m, Step(db, op).0);
  }

  lemma {:induction false} OtherRefines(db: Db, m: Mem.Memory, op: Op)
    requires Refines(db, m) && db.kind == JobKind
    requires op.OpTryAcquire? || op.OpReleaseCapacity? || op.OpCancel? || op.OpBind?
    ensures Refines(Step(db, op).0, m)
  {
    hide Refines, Step;
    SideCallFrame(db, op);
    RefinedUnchanged(db, m, Step(db, op).0);
  }

  lemma {:induction false} StepRefines(db: Db, m: Mem.Memory, op: Op)
    requires ValidDb(db) && db.kind == JobKind && Refines(db, m) && PlainScope(op)
    ensures Refines(Step(db, op).0, MemoryStep(m, db, op))
  {
    hide Refines, ValidDb, Step, PlainScope, MemoryReply;
    if Offered(db, op).Some? {
      OfferRefines(db, m, op);
    } else if op.OpSave? {
      SaveRefines(db, m, op);
    } else if op.OpCreate? || op.OpAdmit? || op.OpAdmitRoutePool? {
      NotOffered(db, op);
    } else if op.OpClaim? || op.OpRenew? || op.OpReleaseLease? {
      LeaseCallRefines(db, m, op);
    } else {
      OtherRefines(db, m, op);
    }
  }

  // ---- Every run -----------------------------------------------------------

  /** After every run from the two empty stores, they hold the same records and the same keys. */
  lemma {:induction false} RunRefines(ops: seq<Op>)
    requires forall i | 0 <= i < |ops| :: PlainScope(ops[i])
    ensures Refines(After(Empty(JobKind), ops), MemoryAfter(ops))
    ensures ValidDb(After(Empty(JobKind), ops)) && After(Empty(JobKind), ops).kind == JobKind
  {
    hide Refines, ValidDb, Step, PlainScope, MemoryStep, RowsLater, LeasesLater, Kept;
    EmptyValid(JobKind);
    RunKeeps(Empty(JobKind), ops);
    if ops == [] {
      EmptyRefines();
    } else {
      var rest := ops[..|ops| - 1];
      RunRefines(rest);
      StepRefines(After(Empty(JobKind), rest), MemoryAfter(rest), ops[|ops| - 1]);
    }
  }

  lemma {:induction false} EmptyRefines()
    ensures Refines(Empty(JobKind), Mem.Memory(map[], map[]))
  {
  }

  /**
   * In every run, each creating call gets from the transactional store the answer that the in-memory
   * store gives to the same call at the same point.
   */
  lemma {:induction false} RunGivesSameReplies(ops: seq<Op>, i: nat)
    requires i < |ops| && forall k | 0 <= k < |ops| :: PlainScope(ops[k])
    requires Offered(After(Empty(JobKind), ops[..i]), ops[i]).Some?
    ensures var db := After(Empty(JobKind), ops[..i]);
      var offered := Offered(db, ops[i]).value;
      SameReply(db, ReplyAt(Empty(JobKind), ops, i), MemoryReply(MemoryAfter(ops[..i]), offered).1, offered.0)
  {
    hide Refines, ValidDb, Step, PlainScope, MemoryReply, SameReply, Offered, After, MemoryAfter;
    RunRefines(ops[..i]);
    OfferRefines(After(Empty(JobKind), ops[..i]), MemoryAfter(ops[..i]), ops[i]);
  }

  /** `findIdempotent` of the transactional store: the key's record, by a second read. */
  function FindIdempotent(db: Db, scope: string, key: string): Option<Record> {
    if (scope, key) in db.idempotency && db.idempotency[(scope, key)].recordId in db.rows
    then Some(db.rows[db.idempotency[(scope, key)].recordId].record) else None
  }

  /** After every run, the two stores find the same record under a key, and a key never lacks its record. */
  lemma {:induction false} FindIdempotentAgrees(ops: seq<Op>, scope: string, key: string)
    requires forall i | 0 <= i < |ops| :: PlainScope(ops[i])
    requires NulFree(scope)
    ensures var db := After(Empty(JobKind), ops);
      && FindIdempotent(db, scope, key) == Mem.FindIdempotent(MemoryAfter(ops), scope, key)
      && (FindIdempotent(db, scope, key).Some? <==> (scope, key) in db.idempotency)
  {
    hide After, MemoryAfter, PlainScope, NulFree, Mem.Identity, RowsValid, EventTableValid;
    RunRefines(ops);
    var db, m := After(Empty(JobKind), ops), MemoryAfter(ops);
    var identity := Mem.Identity(scope, key);
    if identity in m.idempotency {
      var scope', key' :| (scope', key') in db.idempotency && Mem.Identity(scope', key') == identity;
      IdentityInjective(scope, key, scope', key');
    }
  }
}
