/**
 * The transactional record store as a state and one function per transaction. A function returns
 * `Err` when the source throws inside the transaction; `Step` then keeps the state (ROLLBACK).
 */
module DurableStore {
  import opened Prelude
  import opened Records
  import RoutePool

  datatype Row = Row(revision: nat, eventSequence: nat, record: Record)

  datatype IdempotencyRow = IdempotencyRow(requestHash: string, recordId: Id)

  datatype LeaseRow = LeaseRow(owner: Owner, fence: nat, acquiredAt: Time, heartbeatAt: Time, expiresAt: Time)

  datatype Cancellation = Cancellation(recordId: Id, requestedAt: Time, source: string)

  datatype CapacityRow = CapacityRow(sequence: nat, owner: Owner, fence: nat, acquiredAt: Option<Time>)

  /** The tables. `lastSequence` is the AUTOINCREMENT counter of the capacity table. */
  datatype Db = Db(
    kind: RecordKind,
    rows: map<Id, Row>,
    events: map<(Id, int), Event>,
    idempotency: map<(string, string), IdempotencyRow>,
    leases: map<Id, LeaseRow>,
    cancellations: map<Id, Cancellation>,
    capacity: map<Id, CapacityRow>,
    lastSequence: nat,
    cursors: map<string, nat>)

  function Empty(kind: RecordKind): Db {
    Db(kind, map[], map[], map[], map[], map[], map[], 0, map[])
  }

  datatype StoreError =
    | InvalidArgument
    | Unsupported
    | MalformedEvents
    | ProjectionMismatch
    | AlreadyExists
    | DoesNotExist
    | StaleRevision
    | LeaseLost
    | CancellationRequested(request: Cancellation)
    | RewroteHistory
    | IdempotencyConflict
    | BindingConflict
    | NotIssued
    | RouteMismatch

  datatype Idempotency = Idempotency(scope: string, key: string, requestHash: string)

  /** `DurableAdmissionOptions`. */
  datatype Admission = Admission(
    owner: Owner, ttl: int, capacityLimit: Option<int>, now: Time, idempotency: Option<Idempotency>)

  datatype Admitted = Created(lease: Lease) | Replayed(recordId: Id)

  predicate IsDigest(hash: string) {
    && |hash| == 64
    && forall i | 0 <= i < |hash| ::
      '0' <= hash[i] <= '9' || 'a' <= hash[i] <= 'f' || 'A' <= hash[i] <= 'F'
  }

  predicate ValidAdmission(kind: RecordKind, options: Admission) {
    && IsOwner(options.owner)
    && IsTtl(options.ttl)
    && (options.capacityLimit.Some? ==> kind == JobKind && options.capacityLimit.value >= 1)
    && (options.idempotency.Some? ==>
          && IsIdentifier(options.idempotency.value.scope)
          && IsIdentifier(options.idempotency.value.key)
          && IsDigest(options.idempotency.value.requestHash))
  }

  // ---- Reading -------------------------------------------------------------

  /** `#parse`: the snapshot of a row, refused when it disagrees with its event sequence. */
  function Parse(row: Row): Result<Record, StoreError> {
    if !Numbered(row.record.events) then Err(MalformedEvents)
    else if |row.record.events| != row.eventSequence then Err(ProjectionMismatch)
    else Ok(row.record)
  }

  function Get(db: Db, id: Id): Result<Option<Record>, StoreError> {
    if id !in db.rows then Ok(None)
    else
      var record :- Parse(db.rows[id]);
      Ok(Some(record))
  }

  ghost function Least(numbers: set<int>): (n: int)
    requires numbers != {}
    ensures n in numbers && forall m | m in numbers :: n <= m
  {
    assert (forall x :: x !in numbers) ==> numbers == {};
    var x :| x in numbers;
    if numbers == {x} then x
    else
      var rest := Least(numbers - {x});
      assert forall m | m in numbers :: m == x || m in numbers - {x};
      if x < rest then x else rest
  }

  /** The rows of one record with the given sequence numbers, ORDER BY sequence. */
  ghost function Ordered(events: map<(Id, int), Event>, id: Id, numbers: set<int>): seq<Event>
    requires forall n | n in numbers :: (id, n) in events
    decreases |numbers|
  {
    if numbers == {} then []
    else
      var n := Least(numbers);
      [events[(id, n)]] + Ordered(events, id, numbers - {n})
  }

  function NumbersAfter(events: map<(Id, int), Event>, id: Id, after: int): set<int> {
    set key | key in events && key.0 == id && key.1 > after :: key.1
  }

  /** `eventsAfter`: SELECT ... WHERE record_id = ? AND sequence > ? ORDER BY sequence. */
  ghost function EventsAfter(db: Db, id: Id, after: int): seq<Event> {
    Ordered(db.events, id, NumbersAfter(db.events, id, after))
  }

  // ---- Writing records -----------------------------------------------------

  /** One INSERT per event, keyed by the event's own sequence number. */
  function InsertEvents(table: map<(Id, int), Event>, id: Id, events: seq<Event>): map<(Id, int), Event> {
    if events == [] then table
    else
      var last := events[|events| - 1];
      InsertEvents(table, id, events[..|events| - 1])[(id, last.sequence) := last]
  }

  /** `#insertNew`, after the record passed `#materialize`. */
  function InsertNew(db: Db, record: Record): Result<Db, StoreError> {
    if !Numbered(record.events) then Err(MalformedEvents)
    else if record.id in db.rows then Err(AlreadyExists)
    else Ok(db.(
      rows := db.rows[record.id := Row(1, |record.events|, record)],
      events := InsertEvents(db.events, record.id, record.events)))
  }

  predicate SupportsSave(kind: RecordKind) {
    kind == JobKind || kind == OrchestrationKind
  }

  predicate LeaseCurrent(db: Db, id: Id, owner: Owner, fence: nat, now: Time) {
    && id in db.leases
    && db.leases[id].owner == owner
    && db.leases[id].fence == fence
    && db.leases[id].expiresAt > now
  }

  /** The row update shared by `save` and `bindWorkOrderExecutorJob`. */
  function Commit(db: Db, row: Row, record: Record): Db
    requires row.record.events <= record.events
  {
    db.(
      rows := db.rows[record.id := Row(row.revision + 1, |record.events|, record)],
      events := InsertEvents(db.events, record.id, record.events[|row.record.events|..]))
  }

  /** `save`; `revision` is the one attached to the caller's copy, `lease` the one it presents. */
  function Save(db: Db, record: Record, revision: Option<nat>, lease: Option<Lease>, now: Time)
      : Result<Db, StoreError>
  {
    if !SupportsSave(db.kind) then Err(Unsupported)
    else if revision == None then Err(StaleRevision)
    else if !Numbered(record.events) then Err(MalformedEvents)
    else if record.id !in db.rows then Err(DoesNotExist)
    else
      var row := db.rows[record.id];
      if row.revision != revision.value then Err(StaleRevision)
      else if lease.Some? && !LeaseCurrent(db, record.id, lease.value.owner, lease.value.fence, now) then Err(LeaseLost)
      else if record.status == Succeeded && record.id in db.cancellations then
        Err(CancellationRequested(db.cancellations[record.id]))
      else
        var previous :- Parse(row);
        if !(previous.events <= record.events) then Err(RewroteHistory)
        else Ok(Commit(db, row, record))
  }

  /** `bindWorkOrderExecutorJob`; `expected` is a public event sequence, not a CAS revision. */
  function Bind(db: Db, id: Id, expected: int, jobId: Id, at: Time): Result<(Db, Record), StoreError> {
    if db.kind != WorkOrderKind then Err(Unsupported)
    else if !IsIdentifier(id.text) || !IsIdentifier(jobId.text) || expected < 1 then Err(InvalidArgument)
    else if id !in db.rows then Err(DoesNotExist)
    else
      var row := db.rows[id];
      var current :- Parse(row);
      if current.status != Issued || !current.body.WorkOrderBody? then Err(NotIssued)
      else if current.body.executorJobId.Some? then
        if current.body.executorJobId.value == jobId then Ok((db, current)) else Err(BindingConflict)
      else if row.eventSequence != expected then Err(StaleRevision)
      else
        var event := Event(row.eventSequence + 1, at, ExecutorJobBound(jobId));
        var updated := current.(body := WorkOrderBody(Some(jobId)), events := current.events + [event]);
        Ok((Commit(db, row, updated), updated))
  }

  // ---- Leases --------------------------------------------------------------

  /** The lease row a claim writes: a first lease, one's own renewed, or an expired one taken over. */
  function ClaimRow(leases: map<Id, LeaseRow>, id: Id, owner: Owner, ttl: int, now: Time): Option<LeaseRow> {
    if id !in leases then Some(LeaseRow(owner, 1, now, now, now + ttl))
    else if leases[id].owner == owner && leases[id].expiresAt > now then
      Some(leases[id].(heartbeatAt := now, expiresAt := now + ttl))
    else if leases[id].expiresAt > now then None
    else Some(LeaseRow(owner, leases[id].fence + 1, now, now, now + ttl))
  }

  /** A capacity row held under the superseded fence follows the claim. */
  function MoveCapacity(capacity: map<Id, CapacityRow>, id: Id, superseded: LeaseRow, claimed: LeaseRow)
      : map<Id, CapacityRow>
  {
    if id in capacity && capacity[id].owner == superseded.owner && capacity[id].fence == superseded.fence then
      capacity[id := capacity[id].(owner := claimed.owner, fence := claimed.fence)]
    else capacity
  }

  /** `#claimLeaseInTransaction`. */
  function Claim(db: Db, id: Id, owner: Owner, ttl: int, now: Time): (Db, Option<Lease>) {
    var row := ClaimRow(db.leases, id, owner, ttl, now);
    if row == None then (db, None)
    else
      var takenOver := db.kind == JobKind && id in db.leases && db.leases[id].fence != row.value.fence;
      (db.(leases := db.leases[id := row.value],
           capacity := if takenOver then MoveCapacity(db.capacity, id, db.leases[id], row.value) else db.capacity),
       Some(Lease(id, owner, row.value.fence)))
  }

  function ClaimLease(db: Db, id: Id, owner: Owner, ttl: int, now: Time): Result<(Db, Option<Lease>), StoreError> {
    if !IsOwner(owner) || !IsTtl(ttl) then Err(InvalidArgument)
    else if id !in db.rows then Err(DoesNotExist)
    else Ok(Claim(db, id, owner, ttl, now))
  }

  function RenewLease(db: Db, lease: Lease, ttl: int, now: Time): Result<(Db, bool), StoreError> {
    if !IsTtl(ttl) then Err(InvalidArgument)
    else if LeaseCurrent(db, lease.recordId, lease.owner, lease.fence, now) then
      var row := db.leases[lease.recordId].(heartbeatAt := now, expiresAt := now + ttl);
      Ok((db.(leases := db.leases[lease.recordId := row]), true))
    else Ok((db, false))
  }

  predicate LeaseMatches(db: Db, lease: Lease) {
    && lease.recordId in db.leases
    && db.leases[lease.recordId].owner == lease.owner
    && db.leases[lease.recordId].fence == lease.fence
  }

  /** Releasing keeps the row and its fence, so that the next claim gets a larger fence. */
  function ReleaseLease(db: Db, lease: Lease): (Db, bool) {
    if LeaseMatches(db, lease) then
      var row := LeaseRow(Nobody, lease.fence, 0, 0, 0);
      (db.(leases := db.leases[lease.recordId := row]), true)
    else (db, false)
  }

  // ---- Capacity ------------------------------------------------------------

  /** The caller's row: its own one under the lease at hand, or a new waiting one. */
  function CallerRow(db: Db, lease: Lease): CapacityRow {
    if lease.recordId in db.capacity then db.capacity[lease.recordId].(owner := lease.owner, fence := lease.fence)
    else CapacityRow(db.lastSequence + 1, lease.owner, lease.fence, None)
  }

  /** INSERT ... ON CONFLICT(record_id) DO UPDATE SET owner_id, fence. */
  function UpsertCapacity(db: Db, lease: Lease): Db {
    db.(capacity := db.capacity[lease.recordId := CallerRow(db, lease)],
        lastSequence := if lease.recordId in db.capacity then db.lastSequence else db.lastSequence + 1)
  }

  /** The row's lease is current and unexpired. */
  predicate Live(db: Db, id: Id, now: Time) {
    id in db.capacity && LeaseCurrent(db, id, db.capacity[id].owner, db.capacity[id].fence, now)
  }

  /** DELETE FROM execution_capacity WHERE NOT EXISTS (a current lease). */
  function Purge(db: Db, now: Time): Db {
    db.(capacity := map id | id in db.capacity && Live(db, id, now) :: db.capacity[id])
  }

  function AcquiredIds(db: Db): set<Id> {
    set id | id in db.capacity && db.capacity[id].acquiredAt.Some?
  }

  function WaitingIds(db: Db): set<Id> {
    set id | id in db.capacity && db.capacity[id].acquiredAt.None?
  }

  /** The record holds the waiting row with the lowest sequence. */
  predicate FirstWaiting(db: Db, id: Id) {
    && id in WaitingIds(db)
    && forall other | other in WaitingIds(db) :: db.capacity[id].sequence <= db.capacity[other].sequence
  }

  function Grant(db: Db, id: Id, now: Time): Db
    requires id in db.capacity
  {
    db.(capacity := db.capacity[id := db.capacity[id].(acquiredAt := Some(now))])
  }

  /** `#tryAcquireCapacityInTransaction`; true is 'acquired', false is 'waiting'. */
  function TryAcquire(db: Db, lease: Lease, limit: int, now: Time): Result<(Db, bool), StoreError> {
    var id := lease.recordId;
    if !LeaseCurrent(db, id, lease.owner, lease.fence, now) then Err(LeaseLost)
    else
      var purged := Purge(UpsertCapacity(db, lease), now);
      if id in AcquiredIds(purged) then Ok((purged, true))
      else if |AcquiredIds(purged)| >= limit || !FirstWaiting(purged, id) then Ok((purged, false))
      else Ok((Grant(purged, id, now), true))
  }

  function TryAcquireCapacity(db: Db, lease: Lease, limit: int, now: Time): Result<(Db, bool), StoreError> {
    if db.kind != JobKind then Err(Unsupported)
    else if limit < 1 then Err(InvalidArgument)
    else TryAcquire(db, lease, limit, now)
  }

  predicate HoldsCapacityRow(db: Db, lease: Lease) {
    && lease.recordId in db.capacity
    && db.capacity[lease.recordId].owner == lease.owner
    && db.capacity[lease.recordId].fence == lease.fence
  }

  function ReleaseCapacity(db: Db, lease: Lease): Result<(Db, bool), StoreError> {
    if db.kind != JobKind then Err(Unsupported)
    else if HoldsCapacityRow(db, lease) then
      Ok((db.(capacity := db.capacity - {lease.recordId}), true))
    else Ok((db, false))
  }

  // ---- Cancellation --------------------------------------------------------

  /** INSERT ... ON CONFLICT DO NOTHING, refused (None) once the record is terminal. */
  function RequestCancellation(db: Db, id: Id, source: string, now: Time)
      : Result<(Db, Option<Cancellation>), StoreError>
  {
    if !IsIdentifier(source) then Err(InvalidArgument)
    else if id !in db.rows then Err(DoesNotExist)
    else if IsTerminal(db.rows[id].record.status) then Ok((db, None))
    else if id in db.cancellations then Ok((db, Some(db.cancellations[id])))
    else
      var request := Cancellation(id, now, source);
      Ok((db.(cancellations := db.cancellations[id := request]), Some(request)))
  }

  // ---- Admission -----------------------------------------------------------

  /** The idempotency look-up: Some is the record to replay, Err is a conflicting request. */
  function FindReplay(db: Db, idempotency: Option<Idempotency>): Result<Option<Id>, StoreError> {
    if idempotency == None then Ok(None)
    else
      var i := idempotency.value;
      if (i.scope, i.key) !in db.idempotency then Ok(None)
      else
        var existing := db.idempotency[(i.scope, i.key)];
        if existing.requestHash != i.requestHash then Err(IdempotencyConflict) else Ok(Some(existing.recordId))
  }

  function Remember(db: Db, idempotency: Option<Idempotency>, id: Id): Db {
    if idempotency == None then db
    else
      var i := idempotency.value;
      db.(idempotency := db.idempotency[(i.scope, i.key) := IdempotencyRow(i.requestHash, id)])
  }

  /** Inserts the record, its key, its first lease and its capacity row. */
  function Enroll(db: Db, record: Record, options: Admission): Result<(Db, Lease), StoreError> {
    var inserted :- InsertNew(db, record);
    var (claimed, lease) := Claim(Remember(inserted, options.idempotency, record.id),
                                  record.id, options.owner, options.ttl, options.now);
    if lease == None then Err(LeaseLost)
    else if options.capacityLimit == None then Ok((claimed, lease.value))
    else
      var (queued, _) :- TryAcquire(claimed, lease.value, options.capacityLimit.value, options.now);
      Ok((queued, lease.value))
  }

  function Admit(db: Db, record: Record, options: Admission): Result<(Db, Admitted), StoreError> {
    if !ValidAdmission(db.kind, options) then Err(InvalidArgument)
    else if !Numbered(record.events) then Err(MalformedEvents)
    else
      var replay :- FindReplay(db, options.idempotency);
      if replay.Some? then Ok((db, Replayed(replay.value)))
      else
        var (after, lease) :- Enroll(db, record, options);
        Ok((after, Created(lease)))
  }

  /** The records of one route whose lease has not expired. */
  function ActiveIds(db: Db, route: string, now: Time): set<Id> {
    set id | id in db.leases && id in db.rows && db.leases[id].expiresAt > now
             && db.rows[id].record.body.JobBody? && db.rows[id].record.body.route == route
  }

  function ActiveCounts(db: Db, candidates: seq<string>, now: Time): seq<nat> {
    seq(|candidates|, i requires 0 <= i < |candidates| => |ActiveIds(db, candidates[i], now)|)
  }

  function Cursor(db: Db, key: string): nat {
    if key in db.cursors then db.cursors[key] else 0
  }

  predicate ValidPool(key: string, candidates: seq<string>) {
    && IsIdentifier(key)
    && 2 <= |candidates| <= 20
    && (forall i, j | 0 <= i < j < |candidates| :: candidates[i] != candidates[j])
    && (forall i | 0 <= i < |candidates| :: IsIdentifier(candidates[i]))
  }

  function ChosenMember(db: Db, key: string, candidates: seq<string>, now: Time): int
    requires candidates != []
  {
    RoutePool.Choose(ActiveCounts(db, candidates, now), Cursor(db, key) % |candidates|)
  }

  /** `admitRoutePool`; `records[i]` is what the caller's `createRecord` builds for member i. */
  function AdmitRoutePool(db: Db, key: string, candidates: seq<string>, records: seq<Record>, options: Admission)
    : Result<(Db, Admitted), StoreError>
    requires |records| == |candidates|
  {
    if db.kind != JobKind then Err(Unsupported)
    else if !ValidAdmission(db.kind, options) || !ValidPool(key, candidates) then Err(InvalidArgument)
    else
      var replay :- FindReplay(db, options.idempotency);
      if replay.Some? then Ok((db, Replayed(replay.value)))
      else
        var selected := ChosenMember(db, key, candidates, options.now);
        if selected < 0 || selected >= |records| then Err(InvalidArgument)
        else
          var record := records[selected];
          if !Numbered(record.events) then Err(MalformedEvents)
          else if !(record.body.JobBody? && record.body.route == candidates[selected]) then Err(RouteMismatch)
          else
            var (after, lease) :- Enroll(db, record, options);
            Ok((after.(cursors := after.cursors[key := (selected + 1) % |candidates|]), Created(lease)))
  }

  // ---- Runs ----------------------------------------------------------------

  datatype Op =
    | OpCreate(created: Record)
    | OpAdmit(admitted: Record, options: Admission)
    | OpAdmitRoutePool(key: string, members: seq<(string, Record)>, poolOptions: Admission)
    | OpSave(saved: Record, revision: Option<nat>, presented: Option<Lease>, savedAt: Time)
    | OpBind(workOrderId: Id, expected: int, jobId: Id, boundAt: Time)
    | OpClaim(claimedId: Id, owner: Owner, claimTtl: int, claimedAt: Time)
    | OpRenew(renewed: Lease, renewTtl: int, renewedAt: Time)
    | OpReleaseLease(released: Lease)
    | OpTryAcquire(acquirer: Lease, limit: int, triedAt: Time)
    | OpReleaseCapacity(returned: Lease)
    | OpCancel(cancelledId: Id, source: string, requestedAt: Time)

  datatype Reply =
    | Refused(error: StoreError)
    | Committed
    | AdmissionReply(outcome: Admitted)
    | Bound(record: Record)
    | Claimed(lease: Option<Lease>)
    | Changed(ok: bool)
    | CancellationReply(request: Option<Cancellation>)

  function Names(members: seq<(string, Record)>): seq<string> {
    seq(|members|, i requires 0 <= i < |members| => members[i].0)
  }

  function MemberRecords(members: seq<(string, Record)>): seq<Record> {
    seq(|members|, i requires 0 <= i < |members| => members[i].1)
  }

  /** One call of the store: COMMIT on Ok, ROLLBACK on Err. */
  function Step(db: Db, op: Op): (Db, Reply) {
    match op
    case OpCreate(record) =>
      (match InsertNew(db, record) case Ok(after) => (after, Committed) case Err(e) => (db, Refused(e)))
    case OpAdmit(record, options) =>
      (match Admit(db, record, options) case Ok(p) => (p.0, AdmissionReply(p.1)) case Err(e) => (db, Refused(e)))
    case OpAdmitRoutePool(key, members, options) =>
      (match AdmitRoutePool(db, key, Names(members), MemberRecords(members), options)
       case Ok(p) => (p.0, AdmissionReply(p.1)) case Err(e) => (db, Refused(e)))
    case OpSave(record, revision, lease, now) =>
      (match Save(db, record, revision, lease, now)
       case Ok(after) => (after, Committed)
       case Err(e) => (db, Refused(e)))
    case OpBind(id, expected, jobId, at) =>
      (match Bind(db, id, expected, jobId, at) case Ok(p) => (p.0, Bound(p.1)) case Err(e) => (db, Refused(e)))
    case OpClaim(id, owner, ttl, now) =>
      (match ClaimLease(db, id, owner, ttl, now) case Ok(p) => (p.0, Claimed(p.1)) case Err(e) => (db, Refused(e)))
    case OpRenew(lease, ttl, now) =>
      (match RenewLease(db, lease, ttl, now) case Ok(p) => (p.0, Changed(p.1)) case Err(e) => (db, Refused(e)))
    case OpReleaseLease(lease) =>
      (var p := ReleaseLease(db, lease); (p.0, Changed(p.1)))
    case OpTryAcquire(lease, limit, now) =>
      (match TryAcquireCapacity(db, lease, limit, now)
       case Ok(p) => (p.0, Changed(p.1))
       case Err(e) => (db, Refused(e)))
    case OpReleaseCapacity(lease) =>
      (match ReleaseCapacity(db, lease) case Ok(p) => (p.0, Changed(p.1)) case Err(e) => (db, Refused(e)))
    case OpCancel(id, source, now) =>
      (match RequestCancellation(db, id, source, now)
       case Ok(p) => (p.0, CancellationReply(p.1)) case Err(e) => (db, Refused(e)))
  }

  /** The state after a run of calls, in the order the transactions serialize. */
  function After(db: Db, ops: seq<Op>): Db {
    if ops == [] then db else Step(After(db, ops[..|ops| - 1]), ops[|ops| - 1]).0
  }

  /** The reply to call number i of a run. */
  function ReplyAt(db: Db, ops: seq<Op>, i: nat): Reply
    requires i < |ops|
  {
    Step(After(db, ops[..i]), ops[i]).1
  }
}
