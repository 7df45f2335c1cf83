/**
 * What every call of the store keeps, and what a later state never takes back: the event table is
 * the snapshots' event lists, revisions and fences only grow, and history is only extended.
 */
module StoreInvariant {
  import opened Prelude
  import opened Records
  import opened DurableStore

  // ---- The invariant -------------------------------------------------------

  ghost predicate RowsValid(rows: map<Id, Row>) {
    forall id | id in rows ::
      && rows[id].record.id == id
      && rows[id].revision >= 1
      && Numbered(rows[id].record.events)
      && rows[id].eventSequence == |rows[id].record.events|
  }

  ghost predicate Holds(table: map<(Id, int), Event>, id: Id, events: seq<Event>) {
    forall n: int | 1 <= n <= |events| :: (id, n) in table && table[(id, n)] == events[n - 1]
  }

  /** The event table holds exactly the events of the snapshots, under their numbers 1..n. */
  ghost predicate EventTableValid(rows: map<Id, Row>, table: map<(Id, int), Event>) {
    && (forall key | key in table :: key.0 in rows && 1 <= key.1 <= |rows[key.0].record.events|)
    && (forall id | id in rows :: Holds(table, id, rows[id].record.events))
  }

  ghost predicate ReferencesValid(rows: map<Id, Row>, idempotency: map<(string, string), IdempotencyRow>) {
    forall key | key in idempotency :: idempotency[key].recordId in rows
  }

  ghost predicate LeasesValid(rows: map<Id, Row>, leases: map<Id, LeaseRow>) {
    forall id | id in leases :: id in rows && leases[id].fence >= 1
  }

  /** No record is both succeeded and asked to stop. */
  ghost predicate CancellationsValid(rows: map<Id, Row>, cancellations: map<Id, Cancellation>) {
    forall id | id in cancellations ::
      id in rows && rows[id].record.status != Succeeded && cancellations[id].recordId == id
  }

  ghost predicate CapacityValid(capacity: map<Id, CapacityRow>, lastSequence: nat) {
    && (forall id | id in capacity :: 1 <= capacity[id].sequence <= lastSequence)
    && (forall a, b | a in capacity && b in capacity && a != b :: capacity[a].sequence != capacity[b].sequence)
  }

  ghost predicate ValidDb(db: Db) {
    && RowsValid(db.rows)
    && EventTableValid(db.rows, db.events)
    && ReferencesValid(db.rows, db.idempotency)
    && LeasesValid(db.rows, db.leases)
    && CancellationsValid(db.rows, db.cancellations)
    && CapacityValid(db.capacity, db.lastSequence)
    && db.capacity.Keys <= db.rows.Keys
    && (db.kind != JobKind ==> db.capacity == map[])
  }

  // ---- The order of time ---------------------------------------------------

  /** A row never disappears, its revision counts its commits, and its events are only extended. */
  ghost predicate RowsLater(a: map<Id, Row>, b: map<Id, Row>) {
    forall id | id in a ::
      && id in b
      && a[id].revision <= b[id].revision
      && a[id].record.events <= b[id].record.events
      && (a[id].revision == b[id].revision ==> a[id] == b[id])
  }

  /** A fence never goes down, and under one fence the owner only ever becomes nobody. */
  ghost predicate LeasesLater(a: map<Id, LeaseRow>, b: map<Id, LeaseRow>) {
    forall id | id in a ::
      && id in b
      && a[id].fence <= b[id].fence
      && (a[id].fence == b[id].fence ==> b[id].owner == a[id].owner || b[id].owner == Nobody)
  }

  /** Cancellation requests and idempotency keys are written once. */
  ghost predicate Kept<K(!new), V(!new)>(a: map<K, V>, b: map<K, V>) {
    forall key | key in a :: key in b && b[key] == a[key]
  }

  ghost predicate Later(a: Db, b: Db) {
    && a.kind == b.kind
    && RowsLater(a.rows, b.rows)
    && LeasesLater(a.leases, b.leases)
    && Kept(a.cancellations, b.cancellations)
    && Kept(a.idempotency, b.idempotency)
    && a.lastSequence <= b.lastSequence
  }

  lemma {:induction false} LaterReflexive(a: Db)
    ensures Later(a, a)
  {
  }

  lemma {:induction false} LaterTransitive(a: Db, b: Db, c: Db)
    requires Later(a, b) && Later(b, c)
    ensures Later(a, c)
  {
    forall id | id in a.rows
      ensures a.rows[id].record.events <= c.rows[id].record.events
    {
      assert a.rows[id].record.events <= b.rows[id].record.events <= c.rows[id].record.events;
    }
  }

  // ---- Each call -----------------------------------------------------------

  lemma {:induction false} InsertedEvents(table: map<(Id, int), Event>, id: Id, first: nat, events: seq<Event>)
    requires forall i | 0 <= i < |events| :: events[i].sequence == first + i + 1
    ensures var after := InsertEvents(table, id, events);
      && (forall key | key in table :: key in after)
      && (forall key | key in after && !(key.0 == id && first < key.1 <= first + |events|) ::
            key in table && after[key] == table[key])
      && (forall n: int | first < n <= first + |events| :: (id, n) in after && after[(id, n)] == events[n - first - 1])
  {
    if events != [] {
      InsertedEvents(table, id, first, events[..|events| - 1]);
    }
  }

  /** Inserting the suffix of a record's events completes that record's part of the table. */
  lemma {:induction false} SuffixInserted(
      table: map<(Id, int), Event>, id: Id, previous: seq<Event>, events: seq<Event>)
    requires Numbered(events) && previous <= events && Holds(table, id, previous)
    ensures Holds(InsertEvents(table, id, events[|previous|..]), id, events)
  {
    var suffix := events[|previous|..];
    InsertedEvents(table, id, |previous|, suffix);
    forall n: int | 1 <= n <= |events|
      ensures var after := InsertEvents(table, id, suffix); (id, n) in after && after[(id, n)] == events[n - 1]
    {
      if n <= |previous| {
        assert events[n - 1] == previous[n - 1];
      } else {
        assert events[n - 1] == suffix[n - |previous| - 1];
      }
    }
  }

  /** Writing a row and its new events keeps the table equal to the snapshots. */
  lemma {:induction false} WrittenTable(
      rows: map<Id, Row>, table: map<(Id, int), Event>, id: Id, row: Row, previous: seq<Event>)
    requires EventTableValid(rows, table) && Numbered(row.record.events) && previous <= row.record.events
    requires previous == if id in rows then rows[id].record.events else []
    ensures EventTableValid(rows[id := row], InsertEvents(table, id, row.record.events[|previous|..]))
  {
    hide InsertEvents;
    var after := InsertEvents(table, id, row.record.events[|previous|..]);
    InsertedEvents(table, id, |previous|, row.record.events[|previous|..]);
    SuffixInserted(table, id, previous, row.record.events);
    forall other | other in rows && other != id
      ensures Holds(after, other, rows[other].record.events)
    {
      assert Holds(table, other, rows[other].record.events);
    }
  }

  lemma {:induction false} InsertNewKeeps(db: Db, record: Record)
    requires ValidDb(db) && InsertNew(db, record).Ok?
    ensures ValidDb(InsertNew(db, record).value) && Later(db, InsertNew(db, record).value)
  {
    hide CapacityValid, EventTableValid, InsertEvents;
    assert record.events[0..] == record.events;
    WrittenTable(db.rows, db.events, record.id, Row(1, |record.events|, record), []);
  }

  lemma {:induction false} CommitKeeps(db: Db, record: Record)
    requires ValidDb(db) && record.id in db.rows
    requires Numbered(record.events) && db.rows[record.id].record.events <= record.events
    requires record.status == Succeeded ==> record.id !in db.cancellations
    ensures ValidDb(Commit(db, db.rows[record.id], record)) && Later(db, Commit(db, db.rows[record.id], record))
  {
    hide CapacityValid, EventTableValid, InsertEvents;
    var row := db.rows[record.id];
    WrittenTable(db.rows, db.events, record.id, Row(row.revision + 1, |record.events|, record), row.record.events);
  }

  lemma {:induction false} SaveKeeps(db: Db, record: Record, revision: Option<nat>, lease: Option<Lease>, now: Time)
    requires ValidDb(db) && Save(db, record, revision, lease, now).Ok?
    ensures ValidDb(Save(db, record, revision, lease, now).value)
    ensures Later(db, Save(db, record, revision, lease, now).value)
  {
    CommitKeeps(db, record);
  }

  lemma {:induction false} BindKeeps(db: Db, id: Id, expected: int, jobId: Id, at: Time)
    requires ValidDb(db) && Bind(db, id, expected, jobId, at).Ok?
    ensures ValidDb(Bind(db, id, expected, jobId, at).value.0)
    ensures Later(db, Bind(db, id, expected, jobId, at).value.0)
  {
    var (after, updated) := Bind(db, id, expected, jobId, at).value;
    if after != db {
      CommitKeeps(db, updated);
    }
  }

  lemma {:induction false} ClaimRowLater(leases: map<Id, LeaseRow>, id: Id, owner: Owner, ttl: int, now: Time)
    requires ClaimRow(leases, id, owner, ttl, now).Some?
    ensures LeasesLater(leases, leases[id := ClaimRow(leases, id, owner, ttl, now).value])
    ensures ClaimRow(leases, id, owner, ttl, now).value.owner == owner
  {
  }

  /** A capacity row rewritten under its own sequence. */
  lemma {:induction false} SlotRewritten(capacity: map<Id, CapacityRow>, last: nat, id: Id, row: CapacityRow)
    requires CapacityValid(capacity, last) && id in capacity && row.sequence == capacity[id].sequence
    ensures CapacityValid(capacity[id := row], last)
  {
  }

  /** A capacity row queued under the next sequence. */
  lemma {:induction false} SlotQueued(capacity: map<Id, CapacityRow>, last: nat, id: Id, row: CapacityRow)
    requires CapacityValid(capacity, last) && row.sequence == last + 1
    ensures CapacityValid(capacity[id := row], last + 1)
  {
  }

  lemma {:induction false} SlotsRemoved(capacity: map<Id, CapacityRow>, last: nat, fewer: map<Id, CapacityRow>)
    requires CapacityValid(capacity, last) && Kept(fewer, capacity)
    ensures CapacityValid(fewer, last) && fewer.Keys <= capacity.Keys
  {
  }

  lemma {:induction false} MoveKeepsCapacity(
      capacity: map<Id, CapacityRow>, id: Id, superseded: LeaseRow, claimed: LeaseRow, last: nat)
    requires CapacityValid(capacity, last)
    ensures CapacityValid(MoveCapacity(capacity, id, superseded, claimed), last)
    ensures MoveCapacity(capacity, id, superseded, claimed).Keys == capacity.Keys
  {
    hide CapacityValid;
    if id in capacity {
      SlotRewritten(capacity, last, id, capacity[id].(owner := claimed.owner, fence := claimed.fence));
    }
  }

  lemma {:induction false} LeasesReplaced(a: Db, leases: map<Id, LeaseRow>)
    requires ValidDb(a) && LeasesValid(a.rows, leases) && LeasesLater(a.leases, leases)
    ensures ValidDb(a.(leases := leases)) && Later(a, a.(leases := leases))
  {
    LaterReflexive(a);
    hide RowsValid, EventTableValid, ReferencesValid, LeasesValid, CancellationsValid, CapacityValid, RowsLater,
        LeasesLater, Kept;
  }

  lemma {:induction false} ClaimedLease(
      rows: map<Id, Row>, leases: map<Id, LeaseRow>, id: Id, owner: Owner, ttl: int, now: Time)
    requires LeasesValid(rows, leases) && id in rows && ClaimRow(leases, id, owner, ttl, now).Some?
    ensures LeasesValid(rows, leases[id := ClaimRow(leases, id, owner, ttl, now).value])
  {
  }

  lemma {:induction false} ClaimKeeps(db: Db, id: Id, owner: Owner, ttl: int, now: Time)
    requires ValidDb(db) && id in db.rows
    ensures ValidDb(Claim(db, id, owner, ttl, now).0) && Later(db, Claim(db, id, owner, ttl, now).0)
  {
    hide RowsValid, EventTableValid, ReferencesValid, CancellationsValid, CapacityValid, MoveCapacity, RowsLater,
        LeasesLater, Kept, LeasesValid;
    LaterReflexive(db);
    var row := ClaimRow(db.leases, id, owner, ttl, now);
    if row.Some? {
      ClaimRowLater(db.leases, id, owner, ttl, now);
      ClaimedLease(db.rows, db.leases, id, owner, ttl, now);
      var leased := db.(leases := db.leases[id := row.value]);
      LeasesReplaced(db, leased.leases);
      var claimed := Claim(db, id, owner, ttl, now).0;
      if claimed != leased {
        MoveKeepsCapacity(db.capacity, id, db.leases[id], row.value, db.lastSequence);
        CapacityReplaced(leased, claimed);
        LaterTransitive(db, leased, claimed);
      }
    }
  }

  lemma {:induction false} UpsertKeepsCapacity(db: Db, lease: Lease)
    requires CapacityValid(db.capacity, db.lastSequence)
    ensures var after := UpsertCapacity(db, lease);
      && CapacityValid(after.capacity, after.lastSequence)
      && db.lastSequence <= after.lastSequence
      && after.capacity.Keys == db.capacity.Keys + {lease.recordId}
  {
    hide CapacityValid;
    var id := lease.recordId;
    if id in db.capacity {
      SlotRewritten(db.capacity, db.lastSequence, id, db.capacity[id].(owner := lease.owner, fence := lease.fence));
    } else {
      SlotQueued(db.capacity, db.lastSequence, id, CapacityRow(db.lastSequence + 1, lease.owner, lease.fence, None));
    }
  }

  lemma {:induction false} PurgeKeepsCapacity(db: Db, now: Time)
    requires CapacityValid(db.capacity, db.lastSequence)
    ensures CapacityValid(Purge(db, now).capacity, db.lastSequence)
    ensures Purge(db, now).capacity.Keys <= db.capacity.Keys
  {
    hide CapacityValid, Live;
    SlotsRemoved(db.capacity, db.lastSequence, Purge(db, now).capacity);
  }

  lemma {:induction false} GrantKeepsCapacity(db: Db, id: Id, now: Time)
    requires CapacityValid(db.capacity, db.lastSequence) && id in db.capacity
    ensures CapacityValid(Grant(db, id, now).capacity, db.lastSequence)
    ensures Grant(db, id, now).capacity.Keys == db.capacity.Keys
  {
    hide CapacityValid;
    SlotRewritten(db.capacity, db.lastSequence, id, db.capacity[id].(acquiredAt := Some(now)));
  }

  /** A capacity step touches the capacity table and its counter only. */
  lemma {:induction false} TryAcquireFrame(db: Db, lease: Lease, limit: int, now: Time)
    requires TryAcquire(db, lease, limit, now).Ok?
    ensures var after := TryAcquire(db, lease, limit, now).value.0;
      after == db.(capacity := after.capacity, lastSequence := after.lastSequence)
  {
    hide Live, FirstWaiting, AcquiredIds, LeaseCurrent;
  }

  /** Capacity and cancellation calls, and a binding that no Job store supports, touch their own tables only. */
  lemma {:induction false} SideCallFrame(db: Db, op: Op)
    requires db.kind == JobKind && (op.OpTryAcquire? || op.OpReleaseCapacity? || op.OpCancel? || op.OpBind?)
    ensures var after := Step(db, op).0;
      after == db.(capacity := after.capacity, lastSequence := after.lastSequence, cancellations := after.cancellations)
  {
    hide TryAcquire, Admit, AdmitRoutePool, Save, InsertNew, ClaimLease, RenewLease, ReleaseLease;
    if op.OpTryAcquire? && TryAcquire(db, op.acquirer, op.limit, op.triedAt).Ok? {
      TryAcquireFrame(db, op.acquirer, op.limit, op.triedAt);
    }
  }

  lemma {:induction false} TryAcquireCapacityKept(db: Db, lease: Lease, limit: int, now: Time)
    requires CapacityValid(db.capacity, db.lastSequence) && TryAcquire(db, lease, limit, now).Ok?
    ensures var after := TryAcquire(db, lease, limit, now).value.0;
      && CapacityValid(after.capacity, after.lastSequence)
      && db.lastSequence <= after.lastSequence
      && after.capacity.Keys <= db.capacity.Keys + {lease.recordId}
  {
    var upserted := UpsertCapacity(db, lease);
    var purged := Purge(upserted, now);
    UpsertKeepsCapacity(db, lease);
    PurgeKeepsCapacity(upserted, now);
    if lease.recordId in AcquiredIds(purged) || FirstWaiting(purged, lease.recordId) {
      GrantKeepsCapacity(purged, lease.recordId, now);
    }
    assert purged.lastSequence == upserted.lastSequence;
    hide CapacityValid, UpsertCapacity, Purge, LeaseCurrent;
  }

  lemma {:induction false} TryAcquireKeeps(db: Db, lease: Lease, limit: int, now: Time)
    requires ValidDb(db) && db.kind == JobKind && TryAcquire(db, lease, limit, now).Ok?
    ensures ValidDb(TryAcquire(db, lease, limit, now).value.0)
    ensures Later(db, TryAcquire(db, lease, limit, now).value.0)
  {
    assert lease.recordId in db.rows by {
      AcquirerExists(db, lease, limit, now);
    }
    TryAcquireCapacityKept(db, lease, limit, now);
    TryAcquireFrame(db, lease, limit, now);
    hide TryAcquire;
    LaterReflexive(db);
    CapacityReplaced(db, TryAcquire(db, lease, limit, now).value.0);
  }

  lemma {:induction false} AcquirerExists(db: Db, lease: Lease, limit: int, now: Time)
    requires LeasesValid(db.rows, db.leases) && TryAcquire(db, lease, limit, now).Ok?
    ensures lease.recordId in db.rows
  {
    hide UpsertCapacity, Purge, FirstWaiting, AcquiredIds, Grant;
  }

  lemma {:induction false} CapacityReplaced(a: Db, b: Db)
    requires ValidDb(a) && b == a.(capacity := b.capacity, lastSequence := b.lastSequence)
    requires CapacityValid(b.capacity, b.lastSequence) && a.lastSequence <= b.lastSequence
    requires b.capacity.Keys <= b.rows.Keys && (a.kind != JobKind ==> b.capacity == map[])
    ensures ValidDb(b) && Later(a, b)
  {
    LaterReflexive(a);
    hide RowsValid, EventTableValid, ReferencesValid, LeasesValid, CancellationsValid, CapacityValid, RowsLater,
        LeasesLater, Kept;
  }

  lemma {:induction false} RememberKeeps(db: Db, idempotency: Option<Idempotency>, id: Id)
    requires ValidDb(db) && id in db.rows && FindReplay(db, idempotency) == Ok(None)
    ensures ValidDb(Remember(db, idempotency, id)) && Later(db, Remember(db, idempotency, id))
  {
    hide CapacityValid, EventTableValid, CancellationsValid, LeasesValid, RowsValid;
  }

  lemma {:induction false} EnrollKeeps(db: Db, record: Record, options: Admission)
    requires ValidDb(db) && ValidAdmission(db.kind, options)
    requires FindReplay(db, options.idempotency) == Ok(None)
    requires Enroll(db, record, options).Ok?
    ensures ValidDb(Enroll(db, record, options).value.0) && Later(db, Enroll(db, record, options).value.0)
  {
    hide ValidDb, Later, Claim, TryAcquire, InsertEvents;
    var inserted := InsertNew(db, record).value;
    InsertNewKeeps(db, record);
    var remembered := Remember(inserted, options.idempotency, record.id);
    RememberKeeps(inserted, options.idempotency, record.id);
    LaterTransitive(db, inserted, remembered);
    var (claimed, lease) := Claim(remembered, record.id, options.owner, options.ttl, options.now);
    ClaimKeeps(remembered, record.id, options.owner, options.ttl, options.now);
    LaterTransitive(db, remembered, claimed);
    if options.capacityLimit.Some? {
      ClaimEffect(remembered, record.id, options.owner, options.ttl, options.now);
      TryAcquireKeeps(claimed, lease.value, options.capacityLimit.value, options.now);
      LaterTransitive(db, claimed, Enroll(db, record, options).value.0);
    }
  }

  /** A new record has no lease, so its first claim and its slot request always go through. */
  lemma {:induction false} FirstClaim(db: Db, record: Record, options: Admission)
    requires ValidDb(db) && ValidAdmission(db.kind, options) && Numbered(record.events) && record.id !in db.rows
    ensures Enroll(db, record, options).Ok?
    ensures var remembered := Remember(InsertNew(db, record).value, options.idempotency, record.id);
      var (claimed, lease) := Claim(remembered, record.id, options.owner, options.ttl, options.now);
      lease.Some? && (options.capacityLimit.Some? ==>
        TryAcquire(claimed, lease.value, options.capacityLimit.value, options.now).Ok?)
  {
    hide InsertEvents, MoveCapacity, Purge, UpsertCapacity, FirstWaiting, AcquiredIds, Grant;
    assert record.id !in db.leases;
  }

  /** Everything an enrolment writes, apart from the capacity queue. */
  lemma {:induction false} EnrollEffect(db: Db, record: Record, options: Admission)
    requires Enroll(db, record, options).Ok?
    ensures record.id !in db.rows && Numbered(record.events)
    ensures var (after, lease) := Enroll(db, record, options).value;
      && after == InsertNew(db, record).value.(
           idempotency := Remember(db, options.idempotency, record.id).idempotency,
           leases := after.leases, capacity := after.capacity, lastSequence := after.lastSequence)
      && lease.recordId == record.id && lease.owner == options.owner && LeaseMatches(after, lease)
    ensures record.id !in db.leases ==>
      var now := options.now;
      Enroll(db, record, options).value.0.leases
        == db.leases[record.id := LeaseRow(options.owner, 1, now, now, now + options.ttl)]
  {
    hide InsertEvents, TryAcquire, MoveCapacity, Numbered;
    var inserted := InsertNew(db, record).value;
    var remembered := Remember(inserted, options.idempotency, record.id);
    var (claimed, lease) := Claim(remembered, record.id, options.owner, options.ttl, options.now);
    ClaimEffect(remembered, record.id, options.owner, options.ttl, options.now);
    hide Claim;
    if options.capacityLimit.Some? {
      TryAcquireFrame(claimed, lease.value, options.capacityLimit.value, options.now);
    }
  }

  lemma {:induction false} ClaimEffect(db: Db, id: Id, owner: Owner, ttl: int, now: Time)
    ensures var (after, lease) := Claim(db, id, owner, ttl, now);
      && after == db.(leases := after.leases, capacity := after.capacity)
      && (lease.Some? ==> lease.value.recordId == id && lease.value.owner == owner && LeaseMatches(after, lease.value))
      && (id !in db.leases ==>
            && lease.Some? && after.capacity == db.capacity
            && after.leases == db.leases[id := LeaseRow(owner, 1, now, now, now + ttl)])
  {
    hide MoveCapacity;
  }

  lemma {:induction false} AdmitKeeps(db: Db, record: Record, options: Admission)
    requires ValidDb(db) && Admit(db, record, options).Ok?
    ensures ValidDb(Admit(db, record, options).value.0) && Later(db, Admit(db, record, options).value.0)
  {
    if Admit(db, record, options).value.1.Created? {
      EnrollKeeps(db, record, options);
    }
  }

  lemma {:induction false} AdmitRoutePoolKeeps(
      db: Db, key: string, candidates: seq<string>, records: seq<Record>, options: Admission)
    requires ValidDb(db) && |records| == |candidates| && AdmitRoutePool(db, key, candidates, records, options).Ok?
    ensures ValidDb(AdmitRoutePool(db, key, candidates, records, options).value.0)
    ensures Later(db, AdmitRoutePool(db, key, candidates, records, options).value.0)
  {
    if AdmitRoutePool(db, key, candidates, records, options).value.1.Created? {
      var selected := ChosenMember(db, key, candidates, options.now);
      EnrollKeeps(db, records[selected], options);
    }
  }

  lemma {:induction false} OwnLeaseLater(leases: map<Id, LeaseRow>, id: Id, row: LeaseRow)
    requires id in leases && row.fence == leases[id].fence && (row.owner == leases[id].owner || row.owner == Nobody)
    ensures LeasesLater(leases, leases[id := row])
  {
  }

  lemma {:induction false} RenewKeeps(db: Db, lease: Lease, ttl: int, now: Time)
    requires ValidDb(db) && RenewLease(db, lease, ttl, now).Ok?
    ensures ValidDb(RenewLease(db, lease, ttl, now).value.0) && Later(db, RenewLease(db, lease, ttl, now).value.0)
  {
    if RenewLease(db, lease, ttl, now).value.1 {
      OwnLeaseLater(db.leases, lease.recordId, RenewLease(db, lease, ttl, now).value.0.leases[lease.recordId]);
    }
  }

  lemma {:induction false} ReleaseLeaseKeeps(db: Db, lease: Lease)
    requires ValidDb(db)
    ensures ValidDb(ReleaseLease(db, lease).0) && Later(db, ReleaseLease(db, lease).0)
  {
    if ReleaseLease(db, lease).1 {
      OwnLeaseLater(db.leases, lease.recordId, ReleaseLease(db, lease).0.leases[lease.recordId]);
    }
  }

  lemma {:induction false} ReleaseCapacityKeeps(db: Db, lease: Lease)
    requires ValidDb(db) && ReleaseCapacity(db, lease).Ok?
    ensures ValidDb(ReleaseCapacity(db, lease).value.0) && Later(db, ReleaseCapacity(db, lease).value.0)
  {
    hide RowsValid, EventTableValid, ReferencesValid, LeasesValid, CancellationsValid, RowsLater, LeasesLater;
    var after := ReleaseCapacity(db, lease).value.0;
    SlotsRemoved(db.capacity, db.lastSequence, after.capacity);
    CapacityReplaced(db, after);
  }

  lemma {:induction false} RequestAdded(rows: map<Id, Row>, cancellations: map<Id, Cancellation>, request: Cancellation)
    requires CancellationsValid(rows, cancellations) && request.recordId !in cancellations
    requires request.recordId in rows && rows[request.recordId].record.status != Succeeded
    ensures CancellationsValid(rows, cancellations[request.recordId := request])
    ensures Kept(cancellations, cancellations[request.recordId := request])
  {
  }

  lemma {:induction false} CancelKeeps(db: Db, id: Id, source: string, now: Time)
    requires ValidDb(db) && RequestCancellation(db, id, source, now).Ok?
    ensures ValidDb(RequestCancellation(db, id, source, now).value.0)
    ensures Later(db, RequestCancellation(db, id, source, now).value.0)
  {
    LaterReflexive(db);
    if RequestCancellation(db, id, source, now).value.0 != db {
      RequestAdded(db.rows, db.cancellations, Cancellation(id, now, source));
    }
    hide CapacityValid, EventTableValid, ReferencesValid, LeasesValid, RowsValid, CancellationsValid;
    hide RowsLater, LeasesLater, Kept;
  }

  /** Every call keeps the invariant and moves forward in time. */
  lemma {:induction false} StepKeeps(db: Db, op: Op)
    requires ValidDb(db)
    ensures ValidDb(Step(db, op).0) && Later(db, Step(db, op).0)
  {
    hide ValidDb, Later, Admit, AdmitRoutePool, Save, Bind, InsertNew, Claim, RenewLease, ReleaseLease;
    hide TryAcquire, ReleaseCapacity, RequestCancellation;
    LaterReflexive(db);
    match op
    case OpCreate(record) => if InsertNew(db, record).Ok? { InsertNewKeeps(db, record); }
    case OpAdmit(record, options) => if Admit(db, record, options).Ok? { AdmitKeeps(db, record, options); }
    case OpAdmitRoutePool(key, members, options) =>
      if AdmitRoutePool(db, key, Names(members), MemberRecords(members), options).Ok? {
        AdmitRoutePoolKeeps(db, key, Names(members), MemberRecords(members), options);
      }
    case OpSave(record, revision, lease, now) =>
      if Save(db, record, revision, lease, now).Ok? { SaveKeeps(db, record, revision, lease, now); }
    case OpBind(id, expected, jobId, at) =>
      if Bind(db, id, expected, jobId, at).Ok? { BindKeeps(db, id, expected, jobId, at); }
    case OpClaim(id, owner, ttl, now) => if id in db.rows { ClaimKeeps(db, id, owner, ttl, now); }
    case OpRenew(lease, ttl, now) => if RenewLease(db, lease, ttl, now).Ok? { RenewKeeps(db, lease, ttl, now); }
    case OpReleaseLease(lease) => ReleaseLeaseKeeps(db, lease);
    case OpTryAcquire(lease, limit, now) =>
      if TryAcquireCapacity(db, lease, limit, now).Ok? { TryAcquireKeeps(db, lease, limit, now); }
    case OpReleaseCapacity(lease) => if ReleaseCapacity(db, lease).Ok? { ReleaseCapacityKeeps(db, lease); }
    case OpCancel(id, source, now) =>
      if RequestCancellation(db, id, source, now).Ok? { CancelKeeps(db, id, source, now); }
  }

  // ---- Whole runs ----------------------------------------------------------

  lemma {:induction false} RunKeeps(db: Db, ops: seq<Op>)
    requires ValidDb(db)
    ensures ValidDb(After(db, ops)) && Later(db, After(db, ops))
  {
    hide Step, ValidDb, Later;
    if ops == [] {
      LaterReflexive(db);
    } else {
      var before := After(db, ops[..|ops| - 1]);
      RunKeeps(db, ops[..|ops| - 1]);
      StepKeeps(before, ops[|ops| - 1]);
      LaterTransitive(db, before, After(db, ops));
    }
  }

  lemma {:induction false} NextMoment(db: Db, ops: seq<Op>, i: nat)
    requires i < |ops|
    ensures After(db, ops[..i + 1]) == Step(After(db, ops[..i]), ops[i]).0
  {
    hide Step;
    assert ops[..i + 1][..i] == ops[..i];
  }

  /** Any two moments of a run are ordered. */
  lemma {:induction false} MomentsOrdered(db: Db, ops: seq<Op>, i: nat, j: nat)
    requires ValidDb(db) && i <= j <= |ops|
    ensures ValidDb(After(db, ops[..i])) && ValidDb(After(db, ops[..j]))
    ensures Later(After(db, ops[..i]), After(db, ops[..j]))
    decreases j
  {
    hide *;
    RunKeeps(db, ops[..i]);
    if i == j {
      LaterReflexive(After(db, ops[..i]));
    } else {
      MomentsOrdered(db, ops, i, j - 1);
      NextMoment(db, ops, j - 1);
      StepKeeps(After(db, ops[..j - 1]), ops[j - 1]);
      LaterTransitive(After(db, ops[..i]), After(db, ops[..j - 1]), After(db, ops[..j]));
    }
  }

  lemma {:induction false} EmptyValid(kind: RecordKind)
    ensures ValidDb(Empty(kind))
  {
  }
}
