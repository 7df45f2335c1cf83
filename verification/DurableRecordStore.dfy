/**
 * The record store as the source has it: one object whose tables the transactions update in place.
 * Every method is proved against its transaction in `DurableStore`, for the new tables and the reply.
 */
module DurableRecordStore {
  import opened Prelude
  import opened Records
  import opened DurableStore
  import opened StoreInvariant
  import opened RoutePool

  class SqliteRecordStore {
    const kind: RecordKind
    var rows: map<Id, Row>
    var events: map<(Id, int), Event>
    var idempotency: map<(string, string), IdempotencyRow>
    var leases: map<Id, LeaseRow>
    var cancellations: map<Id, Cancellation>
    var capacity: map<Id, CapacityRow>
    var lastSequence: nat
    var cursors: map<string, nat>

    constructor (kind: RecordKind)
      ensures Contents() == Empty(kind) && Valid()
    {
      this.kind := kind;
      rows, events, idempotency, leases := map[], map[], map[], map[];
      cancellations, capacity, lastSequence, cursors := map[], map[], 0, map[];
    }

    ghost function Contents(): Db
      reads this
    {
      Db(kind, rows, events, idempotency, leases, cancellations, capacity, lastSequence, cursors)
    }

    ghost predicate Valid()
      reads this
    {
      ValidDb(Contents())
    }

    // ---- Statements --------------------------------------------------------

    /** INSERT INTO events; the precondition is the primary key of the table. */
    method InsertEvent(id: Id, event: Event)
      requires (id, event.sequence) !in events
      modifies this`events
      ensures events == old(events)[(id, event.sequence) := event]
    {
      events := events[(id, event.sequence) := event];
    }

    /** The event loop of `#insertNew` and `save`: no insert ever violates the primary key. */
    method InsertEventRows(id: Id, suffix: seq<Event>, first: nat)
      requires forall i | 0 <= i < |suffix| :: suffix[i].sequence == first + i + 1
      requires forall n: int | first < n <= first + |suffix| :: (id, n) !in events
      modifies this`events
      ensures events == InsertEvents(old(events), id, suffix)
    {
      for i := 0 to |suffix|
        invariant events == InsertEvents(old(events), id, suffix[..i])
        invariant forall n: int | first + i < n <= first + |suffix| :: (id, n) !in events
      {
        InsertEvent(id, suffix[i]);
        assert suffix[..i + 1][..i] == suffix[..i];
      }
      assert suffix[..|suffix|] == suffix;
    }

    /** UPDATE records ... WHERE id = ? AND revision = ?; the number of changed rows. */
    method UpdateRecord(record: Record, expectedRevision: nat) returns (changes: nat)
      modifies this`rows
      ensures changes == if record.id in old(rows) && old(rows)[record.id].revision == expectedRevision then 1 else 0
      ensures rows == if changes == 1 then old(rows)[record.id := Row(expectedRevision + 1, |record.events|, record)]
        else old(rows)
    {
      if record.id in rows && rows[record.id].revision == expectedRevision {
        rows := rows[record.id := Row(expectedRevision + 1, |record.events|, record)];
        return 1;
      }
      return 0;
    }

    /** `#insertNew`, for a record whose identity is free. */
    method InsertNewRecord(record: Record)
      requires Valid() && Numbered(record.events) && record.id !in rows
      modifies this`rows, this`events
      ensures Ok(Contents()) == InsertNew(old(Contents()), record)
    {
      hide CapacityValid, ReferencesValid, LeasesValid, CancellationsValid;
      rows := rows[record.id := Row(1, |record.events|, record)];
      InsertEventRows(record.id, record.events, 0);
    }

    // ---- Records -----------------------------------------------------------

    method Create(record: Record) returns (outcome: Result<(), StoreError>)
      requires Valid()
      modifies this
      ensures Valid()
      ensures match InsertNew(old(Contents()), record)
              case Ok(after) => outcome == Ok(()) && Contents() == after
              case Err(error) => outcome == Err(error) && Contents() == old(Contents())
    {
      hide ValidDb;
      if !Numbered(record.events) {
        return Err(MalformedEvents);
      }
      if record.id in rows {
        return Err(AlreadyExists);
      }
      InsertNewKeeps(Contents(), record);
      InsertNewRecord(record);
      return Ok(());
    }

    /** On success the caller's copy carries the next revision. */
    method Save(record: Record, revision: Option<nat>, lease: Option<Lease>, now: Time)
      returns (outcome: Result<nat, StoreError>)
      requires Valid()
      modifies this
      ensures Valid()
      ensures match DurableStore.Save(old(Contents()), record, revision, lease, now)
              case Ok(after) => outcome == Ok(revision.value + 1) && Contents() == after
              case Err(error) => outcome == Err(error) && Contents() == old(Contents())
    {
      hide ValidDb, LeaseCurrent, InsertEvents;
      if kind != JobKind && kind != OrchestrationKind {
        return Err(Unsupported);
      }
      if revision == None {
        return Err(StaleRevision);
      }
      if !Numbered(record.events) {
        return Err(MalformedEvents);
      }
      if record.id !in rows {
        return Err(DoesNotExist);
      }
      var row := rows[record.id];
      if row.revision != revision.value {
        return Err(StaleRevision);
      }
      if lease.Some? && !Current(record.id, lease.value, now) {
        return Err(LeaseLost);
      }
      if record.status == Succeeded && record.id in cancellations {
        return Err(CancellationRequested(cancellations[record.id]));
      }
      var previous := Parse(row);
      if previous.Err? {
        return Err(previous.error);
      }
      if !(previous.value.events <= record.events) {
        return Err(RewroteHistory);
      }
      CommitKeeps(Contents(), record);
      FreeKeys(Contents(), record);
      var suffix := record.events[|row.record.events|..];
      InsertEventRows(record.id, suffix, |row.record.events|);
      var changes := UpdateRecord(record, revision.value);
      assert changes == 1;
      return Ok(revision.value + 1);
    }

    method BindWorkOrderExecutorJob(id: Id, expected: int, jobId: Id, at: Time)
      returns (outcome: Result<Record, StoreError>)
      requires Valid()
      modifies this
      ensures Valid()
      ensures match Bind(old(Contents()), id, expected, jobId, at)
              case Ok((after, bound)) => outcome == Ok(bound) && Contents() == after
              case Err(error) => outcome == Err(error) && Contents() == old(Contents())
    {
      hide ValidDb, InsertEvents;
      if kind != WorkOrderKind {
        return Err(Unsupported);
      }
      if !IsIdentifier(id.text) || !IsIdentifier(jobId.text) || expected < 1 {
        return Err(InvalidArgument);
      }
      if id !in rows {
        return Err(DoesNotExist);
      }
      var row := rows[id];
      var parsed := Parse(row);
      if parsed.Err? {
        return Err(parsed.error);
      }
      var current := parsed.value;
      if current.status != Issued || !current.body.WorkOrderBody? {
        return Err(NotIssued);
      }
      if current.body.executorJobId.Some? {
        if current.body.executorJobId.value == jobId {
          return Ok(current);
        }
        return Err(BindingConflict);
      }
      if row.eventSequence != expected {
        return Err(StaleRevision);
      }
      var event := Event(row.eventSequence + 1, at, ExecutorJobBound(jobId));
      var updated := current.(body := WorkOrderBody(Some(jobId)), events := current.events + [event]);
      assert updated.id == id by {
        RowOf(Contents(), id);
      }
      CommitKeeps(Contents(), updated);
      FreeKeys(Contents(), updated);
      assert updated.events[|current.events|..] == [event];
      InsertEventRows(id, [event], |current.events|);
      var changes := UpdateRecord(updated, row.revision);
      assert changes == 1;
      return Ok(updated);
    }

    // ---- Leases ------------------------------------------------------------

    predicate Current(id: Id, lease: Lease, now: Time)
      reads this`leases
      ensures Current(id, lease, now) == LeaseCurrent(Contents(), id, lease.owner, lease.fence, now)
    {
      && id in leases
      && leases[id].owner == lease.owner
      && leases[id].fence == lease.fence
      && leases[id].expiresAt > now
    }

    /** `#claimLeaseInTransaction`. */
    method ClaimInTransaction(id: Id, owner: Owner, ttl: int, now: Time) returns (lease: Option<Lease>)
      modifies this`leases, this`capacity
      ensures (Contents(), lease) == Claim(old(Contents()), id, owner, ttl, now)
    {
      var expiresAt := now + ttl;
      if id !in leases {
        leases := leases[id := LeaseRow(owner, 1, now, now, expiresAt)];
        return Some(Lease(id, owner, 1));
      }
      var existing := leases[id];
      if existing.owner == owner && existing.expiresAt > now {
        leases := leases[id := existing.(heartbeatAt := now, expiresAt := expiresAt)];
        return Some(Lease(id, owner, existing.fence));
      }
      if existing.expiresAt > now {
        return None;
      }
      var fence := existing.fence + 1;
      leases := leases[id := LeaseRow(owner, fence, now, now, expiresAt)];
      if kind == JobKind {
        if id in capacity && capacity[id].owner == existing.owner && capacity[id].fence == existing.fence {
          capacity := capacity[id := capacity[id].(owner := owner, fence := fence)];
        }
      }
      return Some(Lease(id, owner, fence));
    }

    method ClaimLease(id: Id, owner: Owner, ttl: int, now: Time) returns (outcome: Result<Option<Lease>, StoreError>)
      requires Valid()
      modifies this
      ensures Valid()
      ensures match DurableStore.ClaimLease(old(Contents()), id, owner, ttl, now)
              case Ok((after, lease)) => outcome == Ok(lease) && Contents() == after
              case Err(error) => outcome == Err(error) && Contents() == old(Contents())
    {
      hide ValidDb, Claim;
      if !IsOwner(owner) || !IsTtl(ttl) {
        return Err(InvalidArgument);
      }
      if id !in rows {
        return Err(DoesNotExist);
      }
      ClaimKeeps(Contents(), id, owner, ttl, now);
      var lease := ClaimInTransaction(id, owner, ttl, now);
      return Ok(lease);
    }

    method RenewLease(lease: Lease, ttl: int, now: Time) returns (outcome: Result<bool, StoreError>)
      requires Valid()
      modifies this`leases
      ensures Valid()
      ensures match DurableStore.RenewLease(old(Contents()), lease, ttl, now)
              case Ok((after, renewed)) => outcome == Ok(renewed) && Contents() == after
              case Err(error) => outcome == Err(error) && Contents() == old(Contents())
    {
      hide ValidDb;
      if !IsTtl(ttl) {
        return Err(InvalidArgument);
      }
      RenewKeeps(Contents(), lease, ttl, now);
      if Current(lease.recordId, lease, now) {
        var row := leases[lease.recordId];
        leases := leases[lease.recordId := row.(heartbeatAt := now, expiresAt := now + ttl)];
        return Ok(true);
      }
      return Ok(false);
    }

    method ReleaseLease(lease: Lease) returns (released: bool)
      requires Valid()
      modifies this`leases
      ensures Valid()
      ensures (Contents(), released) == DurableStore.ReleaseLease(old(Contents()), lease)
    {
      hide ValidDb;
      ReleaseLeaseKeeps(Contents(), lease);
      var id := lease.recordId;
      if id in leases && leases[id].owner == lease.owner && leases[id].fence == lease.fence {
        leases := leases[id := LeaseRow(Nobody, leases[id].fence, 0, 0, 0)];
        return true;
      }
      return false;
    }

    // ---- Capacity ----------------------------------------------------------

    /** The row's lease is joined with it: same owner, same fence, not expired. */
    predicate Joined(id: Id, now: Time)
      requires id in capacity
      reads this
    {
      && id in leases
      && leases[id].owner == capacity[id].owner
      && leases[id].fence == capacity[id].fence
      && leases[id].expiresAt > now
    }

    /** INSERT ... ON CONFLICT DO UPDATE: the caller's row names the lease at hand. */
    method EnqueueCaller(lease: Lease)
      modifies this`capacity, this`lastSequence
      ensures Contents() == UpsertCapacity(old(Contents()), lease)
    {
      var id := lease.recordId;
      if id in capacity {
        capacity := capacity[id := capacity[id].(owner := lease.owner, fence := lease.fence)];
      } else {
        lastSequence := lastSequence + 1;
        capacity := capacity[id := CapacityRow(lastSequence, lease.owner, lease.fence, None)];
      }
    }

    /** DELETE of the rows without a current lease. */
    method PurgeRows(now: Time)
      modifies this`capacity
      ensures Contents() == Purge(old(Contents()), now)
      ensures forall r | r in capacity :: Joined(r, now)
    {
      capacity := map r | r in capacity && Joined(r, now) :: capacity[r];
      assert Contents().capacity == Purge(old(Contents()), now).capacity;
    }

    /** `#tryAcquireCapacityInTransaction`. */
    method TryAcquireInTransaction(lease: Lease, limit: int, now: Time) returns (outcome: Result<bool, StoreError>)
      modifies this`capacity, this`lastSequence
      ensures match TryAcquire(old(Contents()), lease, limit, now)
              case Ok((after, acquired)) => outcome == Ok(acquired) && Contents() == after
              case Err(error) => outcome == Err(error) && Contents() == old(Contents())
    {
      hide UpsertCapacity, Purge;
      var id := lease.recordId;
      if !Current(id, lease, now) {
        return Err(LeaseLost);
      }
      ghost var purged := Purge(UpsertCapacity(Contents(), lease), now);
      OwnRowStays(Contents(), lease, now);
      EnqueueCaller(lease);
      PurgeRows(now);
      assert Contents() == purged && id in capacity;
      if capacity[id].acquiredAt.Some? {
        return Ok(true);
      }
      var active := set r | r in capacity && capacity[r].acquiredAt.Some? && Joined(r, now);
      var isNext := forall r | r in capacity && capacity[r].acquiredAt.None? && Joined(r, now) ::
        capacity[id].sequence <= capacity[r].sequence;
      assert active == AcquiredIds(purged);
      assert isNext == FirstWaiting(purged, id);
      if |active| >= limit || !isNext {
        return Ok(false);
      }
      capacity := capacity[id := capacity[id].(acquiredAt := Some(now))];
      return Ok(true);
    }

    method TryAcquireCapacity(lease: Lease, limit: int, now: Time) returns (outcome: Result<bool, StoreError>)
      requires Valid()
      modifies this
      ensures Valid()
      ensures match DurableStore.TryAcquireCapacity(old(Contents()), lease, limit, now)
              case Ok((after, acquired)) => outcome == Ok(acquired) && Contents() == after
              case Err(error) => outcome == Err(error) && Contents() == old(Contents())
    {
      hide ValidDb, TryAcquire;
      if kind != JobKind {
        return Err(Unsupported);
      }
      if limit < 1 {
        return Err(InvalidArgument);
      }
      if TryAcquire(Contents(), lease, limit, now).Ok? {
        TryAcquireKeeps(Contents(), lease, limit, now);
      }
      outcome := TryAcquireInTransaction(lease, limit, now);
    }

    method ReleaseCapacity(lease: Lease) returns (outcome: Result<bool, StoreError>)
      requires Valid()
      modifies this`capacity
      ensures Valid()
      ensures match DurableStore.ReleaseCapacity(old(Contents()), lease)
              case Ok((after, released)) => outcome == Ok(released) && Contents() == after
              case Err(error) => outcome == Err(error) && Contents() == old(Contents())
    {
      hide ValidDb;
      if kind != JobKind {
        return Err(Unsupported);
      }
      ReleaseCapacityKeeps(Contents(), lease);
      var id := lease.recordId;
      if id in capacity && capacity[id].owner == lease.owner && capacity[id].fence == lease.fence {
        capacity := capacity - {id};
        return Ok(true);
      }
      return Ok(false);
    }

    // ---- Cancellation ------------------------------------------------------

    method RequestCancellation(id: Id, source: string, now: Time)
      returns (outcome: Result<Option<Cancellation>, StoreError>)
      requires Valid()
      modifies this`cancellations
      ensures Valid()
      ensures match DurableStore.RequestCancellation(old(Contents()), id, source, now)
              case Ok((after, request)) => outcome == Ok(request) && Contents() == after
              case Err(error) => outcome == Err(error) && Contents() == old(Contents())
    {
      hide ValidDb;
      if !IsIdentifier(source) {
        return Err(InvalidArgument);
      }
      if id !in rows {
        return Err(DoesNotExist);
      }
      CancelKeeps(Contents(), id, source, now);
      if IsTerminal(rows[id].record.status) {
        return Ok(None);
      }
      if id !in cancellations {
        cancellations := cancellations[id := Cancellation(id, now, source)];
      }
      return Ok(Some(cancellations[id]));
    }

    // ---- Admission ---------------------------------------------------------

    method InsertIdempotency(request: Option<Idempotency>, id: Id)
      modifies this`idempotency
      ensures Contents() == Remember(old(Contents()), request, id)
    {
      if request.Some? {
        var i := request.value;
        idempotency := idempotency[(i.scope, i.key) := IdempotencyRow(i.requestHash, id)];
      }
    }

    /** The writes of a first admission. */
    method EnrollRecord(record: Record, options: Admission) returns (outcome: Result<Lease, StoreError>)
      requires Valid() && ValidAdmission(kind, options) && Numbered(record.events)
      requires FindReplay(Contents(), options.idempotency) == Ok(None)
      modifies this`rows, this`events, this`idempotency, this`leases, this`capacity, this`lastSequence
      ensures Valid()
      ensures match Enroll(old(Contents()), record, options)
              case Ok((after, lease)) => outcome == Ok(lease) && Contents() == after
              case Err(error) => outcome == Err(error) && Contents() == old(Contents())
    {
      hide ValidDb, Claim, TryAcquire, InsertEvents;
      if record.id in rows {
        return Err(AlreadyExists);
      }
      ghost var before := Contents();
      FirstClaim(before, record, options);
      if Enroll(before, record, options).Ok? {
        EnrollKeeps(before, record, options);
      }
      InsertNewRecord(record);
      InsertIdempotency(options.idempotency, record.id);
      var lease := ClaimInTransaction(record.id, options.owner, options.ttl, options.now);
      if options.capacityLimit.Some? {
        var acquired := TryAcquireInTransaction(lease.value, options.capacityLimit.value, options.now);
        assert acquired.Ok?;
      }
      return Ok(lease.value);
    }

    method Admit(record: Record, options: Admission) returns (outcome: Result<Admitted, StoreError>)
      requires Valid()
      modifies this
      ensures Valid()
      ensures match DurableStore.Admit(old(Contents()), record, options)
              case Ok((after, admitted)) => outcome == Ok(admitted) && Contents() == after
              case Err(error) => outcome == Err(error) && Contents() == old(Contents())
    {
      hide ValidDb, Enroll, ValidAdmission;
      if !ValidAdmission(kind, options) {
        return Err(InvalidArgument);
      }
      if !Numbered(record.events) {
        return Err(MalformedEvents);
      }
      var replay := Replay(options.idempotency);
      if replay.Err? {
        return Err(replay.error);
      }
      if replay.value.Some? {
        return Ok(Replayed(replay.value.value));
      }
      var enrolled := EnrollRecord(record, options);
      if enrolled.Err? {
        return Err(enrolled.error);
      }
      return Ok(Created(enrolled.value));
    }

    function Replay(request: Option<Idempotency>): Result<Option<Id>, StoreError>
      reads this
      ensures Replay(request) == FindReplay(Contents(), request)
    {
      if request == None then Ok(None)
      else if (request.value.scope, request.value.key) !in idempotency then Ok(None)
      else if idempotency[(request.value.scope, request.value.key)].requestHash != request.value.requestHash then
        Err(IdempotencyConflict)
      else Ok(Some(idempotency[(request.value.scope, request.value.key)].recordId))
    }

    /** COUNT(*) of the unexpired leases joined with records of one route. */
    function ActiveCount(route: string, now: Time): nat
      reads this
      ensures ActiveCount(route, now) == |ActiveIds(Contents(), route, now)|
    {
      var active := set id | id in leases && id in rows && leases[id].expiresAt > now
                            && rows[id].record.body.JobBody? && rows[id].record.body.route == route;
      assert active == ActiveIds(Contents(), route, now);
      |active|
    }

    method AdmitRoutePool(key: string, candidates: seq<string>, records: seq<Record>, options: Admission)
      returns (outcome: Result<Admitted, StoreError>)
      requires Valid() && |records| == |candidates|
      modifies this
      ensures Valid()
      ensures match DurableStore.AdmitRoutePool(old(Contents()), key, candidates, records, options)
              case Ok((after, admitted)) => outcome == Ok(admitted) && Contents() == after
              case Err(error) => outcome == Err(error) && Contents() == old(Contents())
    {
      hide ValidDb, Enroll, ValidAdmission, ActiveIds, InsertNew;
      if kind != JobKind {
        return Err(Unsupported);
      }
      if !ValidAdmission(kind, options) || !ValidPool(key, candidates) {
        return Err(InvalidArgument);
      }
      var replay := Replay(options.idempotency);
      if replay.Err? {
        return Err(replay.error);
      }
      if replay.value.Some? {
        return Ok(Replayed(replay.value.value));
      }
      var activeBefore := seq(|candidates|,
          i requires 0 <= i < |candidates| reads this => ActiveCount(candidates[i], options.now));
      assert activeBefore == ActiveCounts(Contents(), candidates, options.now);
      var cursorBefore := (if key in cursors then cursors[key] else 0) % |candidates|;
      var selected := ChooseMember(activeBefore, cursorBefore);
      if selected < 0 || selected >= |records| {
        return Err(InvalidArgument);
      }
      var record := records[selected];
      if !Numbered(record.events) {
        return Err(MalformedEvents);
      }
      if !(record.body.JobBody? && record.body.route == candidates[selected]) {
        return Err(RouteMismatch);
      }
      var enrolled := EnrollRecord(record, options);
      if enrolled.Err? {
        return Err(enrolled.error);
      }
      label enrolledState:
      cursors := cursors[key := (selected + 1) % |candidates|];
      assert Valid() by {
        CursorsAreFree(old@enrolledState(Contents()), Contents());
      }
      return Ok(Created(enrolled.value));
    }
  }

  // ---- Facts about the tables ----------------------------------------------

  /** The keys of a record's new events are free in the event table. */
  lemma {:induction false} FreeKeys(db: Db, record: Record)
    requires ValidDb(db) && record.id in db.rows
    ensures forall n: int | |db.rows[record.id].record.events| < n :: (record.id, n) !in db.events
  {
    hide CapacityValid, ReferencesValid, LeasesValid, CancellationsValid, RowsValid;
  }

  /** The caller's own row survives the purge. */
  lemma {:induction false} OwnRowStays(db: Db, lease: Lease, now: Time)
    requires LeaseCurrent(db, lease.recordId, lease.owner, lease.fence, now)
    ensures lease.recordId in Purge(UpsertCapacity(db, lease), now).capacity
  {
  }

  lemma {:induction false} RowOf(db: Db, id: Id)
    requires ValidDb(db) && id in db.rows
    ensures db.rows[id].record.id == id
  {
  }

  lemma {:induction false} CursorsAreFree(a: Db, b: Db)
    requires ValidDb(a) && b == a.(cursors := b.cursors)
    ensures ValidDb(b)
  {
  }
}
