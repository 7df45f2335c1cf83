/**
 * Durable execution capacity: how many slots are taken, who is granted one, and why a waiting
 * record is never overtaken. Nothing here assumes anything about the callers' clocks.
 */
module StoreCapacity {
  import opened Prelude
  import opened Records
  import opened DurableStore
  import opened StoreInvariant

  // ---- The queue over time -------------------------------------------------

  /** Rows are new (a fresh sequence) or keep their sequence, and no row goes back to waiting. */
  ghost predicate QueueLater(a: map<Id, CapacityRow>, last: nat, b: map<Id, CapacityRow>) {
    forall id | id in b ::
      || b[id].sequence > last
      || (id in a && b[id].sequence == a[id].sequence && (b[id].acquiredAt.None? ==> a[id].acquiredAt.None?))
  }

  function Acquired(capacity: map<Id, CapacityRow>): set<Id> {
    set id | id in capacity && capacity[id].acquiredAt.Some?
  }

  /** Slots are only given up, or one was taken while fewer than `limit` were in use. */
  predicate Bounded(a: map<Id, CapacityRow>, b: map<Id, CapacityRow>, limit: int) {
    Acquired(b) <= Acquired(a) || |Acquired(b)| <= limit
  }

  lemma {:induction false} RewrittenQueue(capacity: map<Id, CapacityRow>, last: nat, id: Id, row: CapacityRow)
    requires id in capacity && row.sequence == capacity[id].sequence && row.acquiredAt == capacity[id].acquiredAt
    ensures QueueLater(capacity, last, capacity[id := row]) && Acquired(capacity[id := row]) == Acquired(capacity)
  {
  }

  lemma {:induction false} LengthenedQueue(capacity: map<Id, CapacityRow>, last: nat, id: Id, row: CapacityRow)
    requires id !in capacity && row.sequence > last && row.acquiredAt.None?
    ensures QueueLater(capacity, last, capacity[id := row]) && Acquired(capacity[id := row]) == Acquired(capacity)
  {
  }

  lemma {:induction false} ShortenedQueue(capacity: map<Id, CapacityRow>, last: nat, fewer: map<Id, CapacityRow>)
    requires Kept(fewer, capacity)
    ensures QueueLater(capacity, last, fewer) && Acquired(fewer) <= Acquired(capacity)
  {
  }

  lemma {:induction false} GrantedQueue(capacity: map<Id, CapacityRow>, last: nat, id: Id, now: Time)
    requires id in capacity
    ensures var after := capacity[id := capacity[id].(acquiredAt := Some(now))];
      QueueLater(capacity, last, after) && Acquired(after) == Acquired(capacity) + {id}
  {
  }

  lemma {:induction false} UpsertQueue(db: Db, lease: Lease)
    ensures var after := UpsertCapacity(db, lease);
      && QueueLater(db.capacity, db.lastSequence, after.capacity)
      && Acquired(after.capacity) == Acquired(db.capacity)
      && db.lastSequence <= after.lastSequence
  {
    hide QueueLater, Acquired;
    var id := lease.recordId;
    if id in db.capacity {
      RewrittenQueue(db.capacity, db.lastSequence, id, db.capacity[id].(owner := lease.owner, fence := lease.fence));
    } else {
      LengthenedQueue(db.capacity, db.lastSequence, id,
          CapacityRow(db.lastSequence + 1, lease.owner, lease.fence, None));
    }
  }

  lemma {:induction false} PurgeQueue(db: Db, now: Time)
    ensures var after := Purge(db, now);
      && after.lastSequence == db.lastSequence
      && QueueLater(db.capacity, db.lastSequence, after.capacity)
      && Acquired(after.capacity) <= Acquired(db.capacity)
  {
    hide Live, QueueLater, Acquired;
    ShortenedQueue(db.capacity, db.lastSequence, Purge(db, now).capacity);
  }

  lemma {:induction false} QueueTransitive(
      a: map<Id, CapacityRow>, last: nat, b: map<Id, CapacityRow>, last': nat, c: map<Id, CapacityRow>)
    requires QueueLater(a, last, b) && last <= last' && QueueLater(b, last', c)
    ensures QueueLater(a, last, c)
  {
  }

  lemma {:induction false} TryAcquireQueue(db: Db, lease: Lease, limit: int, now: Time)
    requires TryAcquire(db, lease, limit, now).Ok?
    ensures var after := TryAcquire(db, lease, limit, now).value.0;
      QueueLater(db.capacity, db.lastSequence, after.capacity) && Bounded(db.capacity, after.capacity, limit)
  {
    var id := lease.recordId;
    var upserted := UpsertCapacity(db, lease);
    var purged := Purge(upserted, now);
    UpsertQueue(db, lease);
    PurgeQueue(upserted, now);
    assert id in AcquiredIds(purged) || FirstWaiting(purged, id) ==> id in purged.capacity;
    assert AcquiredIds(purged) == Acquired(purged.capacity);
    hide UpsertCapacity, Purge, LeaseCurrent, FirstWaiting, AcquiredIds, QueueLater, Acquired;
    var after := TryAcquire(db, lease, limit, now).value.0;
    QueueTransitive(db.capacity, db.lastSequence, upserted.capacity, upserted.lastSequence, purged.capacity);
    if after != purged {
      GrantedQueue(purged.capacity, purged.lastSequence, id, now);
      QueueTransitive(db.capacity, db.lastSequence, purged.capacity, purged.lastSequence, after.capacity);
      assert |Acquired(after.capacity)| <= limit;
    }
  }

  lemma {:induction false} MoveQueue(
      capacity: map<Id, CapacityRow>, last: nat, id: Id, superseded: LeaseRow, claimed: LeaseRow)
    ensures var after := MoveCapacity(capacity, id, superseded, claimed);
      QueueLater(capacity, last, after) && Acquired(after) == Acquired(capacity)
  {
    QueueReflexive(capacity, last);
    hide QueueLater, Acquired;
    if id in capacity {
      RewrittenQueue(capacity, last, id, capacity[id].(owner := claimed.owner, fence := claimed.fence));
    }
  }

  lemma {:induction false} ClaimQueue(db: Db, id: Id, owner: Owner, ttl: int, now: Time, last: nat)
    ensures var after := Claim(db, id, owner, ttl, now).0;
      QueueLater(db.capacity, last, after.capacity) && Acquired(after.capacity) == Acquired(db.capacity)
  {
    hide MoveCapacity;
    var row := ClaimRow(db.leases, id, owner, ttl, now);
    if row.Some? && id in db.leases {
      MoveQueue(db.capacity, last, id, db.leases[id], row.value);
    }
  }

  lemma {:induction false} EnrollQueue(db: Db, record: Record, options: Admission)
    requires ValidDb(db) && Enroll(db, record, options).Ok?
    ensures var after := Enroll(db, record, options).value.0;
      && QueueLater(db.capacity, db.lastSequence, after.capacity)
      && Bounded(db.capacity, after.capacity, if options.capacityLimit.Some? then options.capacityLimit.value else 0)
  {
    hide ValidDb, TryAcquire, InsertEvents, MoveCapacity, QueueLater, Acquired;
    assert record.id !in db.leases && CapacityValid(db.capacity, db.lastSequence) by {
      FreshInQueue(db, record.id);
    }
    var remembered := Remember(InsertNew(db, record).value, options.idempotency, record.id);
    var (claimed, lease) := Claim(remembered, record.id, options.owner, options.ttl, options.now);
    assert claimed.capacity == db.capacity && claimed.lastSequence == db.lastSequence;
    if options.capacityLimit.Some? {
      TryAcquireQueue(claimed, lease.value, options.capacityLimit.value, options.now);
    } else {
      QueueReflexive(db.capacity, db.lastSequence);
    }
  }

  lemma {:induction false} FreshInQueue(db: Db, id: Id)
    requires ValidDb(db)
    ensures id !in db.rows ==> id !in db.leases
    ensures CapacityValid(db.capacity, db.lastSequence)
  {
  }

  lemma {:induction false} QueueReflexive(capacity: map<Id, CapacityRow>, last: nat)
    ensures QueueLater(capacity, last, capacity)
  {
  }

  // ---- Each call, and runs -------------------------------------------------

  /** The capacity limit a call brings along; 0 when it brings none. */
  function LimitOf(op: Op): int {
    match op
    case OpAdmit(_, options) => if options.capacityLimit.Some? then options.capacityLimit.value else 0
    case OpAdmitRoutePool(_, _, options) => if options.capacityLimit.Some? then options.capacityLimit.value else 0
    case OpTryAcquire(_, limit, _) => limit
    case _ => 0
  }

  lemma {:induction false} StepQueue(db: Db, op: Op)
    requires ValidDb(db)
    ensures var after := Step(db, op).0;
      QueueLater(db.capacity, db.lastSequence, after.capacity) && Bounded(db.capacity, after.capacity, LimitOf(op))
  {
    hide ValidDb, QueueLater, Acquired, Enroll, TryAcquire, Claim, ChosenMember, FindReplay, InsertNew, Save, Bind;
    FreshInQueue(db, Id(""));
    QueueReflexive(db.capacity, db.lastSequence);
    match op
    case OpAdmit(record, options) => if Enroll(db, record, options).Ok? { EnrollQueue(db, record, options); }
    case OpAdmitRoutePool(key, members, options) =>
      if members != [] {
        var selected := ChosenMember(db, key, Names(members), options.now);
        if 0 <= selected < |members| && Enroll(db, MemberRecords(members)[selected], options).Ok? {
          EnrollQueue(db, MemberRecords(members)[selected], options);
        }
      }
    case OpClaim(id, owner, ttl, now) => ClaimQueue(db, id, owner, ttl, now, db.lastSequence);
    case OpTryAcquire(lease, limit, now) =>
      if TryAcquireCapacity(db, lease, limit, now).Ok? { TryAcquireQueue(db, lease, limit, now); }
    case OpReleaseCapacity(lease) => if ReleaseCapacity(db, lease).Ok? { ReleaseQueue(db, lease); }
    case OpSave(record, revision, lease, now) => WritesLeaveCapacity(db, op);
    case OpBind(_, _, _, _) => WritesLeaveCapacity(db, op);
    case OpCreate(record) => WritesLeaveCapacity(db, op);
    case _ =>
  }

  lemma {:induction false} ReleaseQueue(db: Db, lease: Lease)
    requires ReleaseCapacity(db, lease).Ok?
    ensures var after := ReleaseCapacity(db, lease).value.0;
      QueueLater(db.capacity, db.lastSequence, after.capacity) && Acquired(after.capacity) <= Acquired(db.capacity)
  {
  }

  lemma {:induction false} WritesLeaveCapacity(db: Db, op: Op)
    requires op.OpSave? || op.OpBind? || op.OpCreate?
    ensures Step(db, op).0.capacity == db.capacity
  {
  }

  /** Whatever the clocks say, a run whose calls all use a limit of at most `limit` never exceeds it. */
  lemma {:induction false} CapacityNeverExceeded(kind: RecordKind, ops: seq<Op>, limit: nat)
    requires forall i | 0 <= i < |ops| :: LimitOf(ops[i]) <= limit
    ensures |AcquiredIds(After(Empty(kind), ops))| <= limit
  {
    hide Step, ValidDb, LimitOf;
    var db := After(Empty(kind), ops);
    assert AcquiredIds(db) == Acquired(db.capacity);
    if ops != [] {
      var before := After(Empty(kind), ops[..|ops| - 1]);
      CapacityNeverExceeded(kind, ops[..|ops| - 1], limit);
      assert AcquiredIds(before) == Acquired(before.capacity);
      EmptyValid(kind);
      RunKeeps(Empty(kind), ops[..|ops| - 1]);
      StepQueue(before, ops[|ops| - 1]);
      if Acquired(db.capacity) <= Acquired(before.capacity) {
        SubsetSize(Acquired(db.capacity), Acquired(before.capacity));
      }
    }
  }

  lemma {:induction false} SubsetSize(a: set<Id>, b: set<Id>)
    requires a <= b
    ensures |a| <= |b|
  {
    if a != {} {
      var x :| x in a;
      SubsetSize(a - {x}, b - {x});
    }
  }

  // ---- Who is granted a slot -----------------------------------------------

  /** The other records with a live capacity row. */
  function Rivals(db: Db, id: Id, now: Time): set<Id> {
    set r | r in db.capacity && r != id && Live(db, r, now)
  }

  /**
   * A current lease holder leaves with a slot exactly when it already had one, or when a slot is
   * free among the live rows and no live waiting row was queued before its own.
   */
  lemma {:induction false} GrantedExactlyWhen(db: Db, lease: Lease, limit: int, now: Time)
    requires ValidDb(db) && LeaseCurrent(db, lease.recordId, lease.owner, lease.fence, now)
    ensures TryAcquire(db, lease, limit, now).Ok?
    ensures var rivals := Rivals(db, lease.recordId, now);
      TryAcquire(db, lease, limit, now).value.1 <==>
        || lease.recordId in AcquiredIds(db)
        || (&& |rivals * AcquiredIds(db)| < limit
            && forall r | r in rivals * WaitingIds(db) ::
                 lease.recordId in db.capacity && db.capacity[lease.recordId].sequence < db.capacity[r].sequence)
  {
    var id := lease.recordId;
    var purged := Purge(UpsertCapacity(db, lease), now);
    assert CapacityValid(db.capacity, db.lastSequence);
    QueueEnds(db.capacity, db.lastSequence);
    PurgedRows(db, lease, now);
    hide UpsertCapacity, Purge, LeaseCurrent, ValidDb, Rivals, CapacityValid;
    PurgedSets(db, purged, id, Rivals(db, id, now));
    hide AcquiredIds, WaitingIds;
    if id !in AcquiredIds(db) {
      FirstOfRivals(db, purged, id, Rivals(db, id, now));
    }
  }

  lemma {:induction false} FirstOfRivals(db: Db, purged: Db, id: Id, rivals: set<Id>)
    requires purged.capacity.Keys == {id} + rivals && id !in rivals
    requires forall r | r in rivals :: r in db.capacity && purged.capacity[r] == db.capacity[r]
    requires WaitingIds(purged) == {id} + rivals * WaitingIds(db)
    requires if id in db.capacity then purged.capacity[id].sequence == db.capacity[id].sequence
             else forall r | r in db.capacity :: db.capacity[r].sequence < purged.capacity[id].sequence
    requires CapacityValid(db.capacity, db.lastSequence)
    ensures FirstWaiting(purged, id) <==>
      forall r | r in rivals * WaitingIds(db) :: id in db.capacity && db.capacity[id].sequence < db.capacity[r].sequence
  {
    hide WaitingIds;
    assert forall r | r in rivals * WaitingIds(db) :: r in WaitingIds(purged);
  }

  /** The same in terms of sets: who holds a slot and who waits after the purge. */
  lemma {:induction false} PurgedSets(db: Db, purged: Db, id: Id, rivals: set<Id>)
    requires purged.capacity.Keys == {id} + rivals && id !in rivals
    requires forall r | r in rivals :: r in db.capacity && purged.capacity[r] == db.capacity[r]
    requires purged.capacity[id].acquiredAt.Some? <==> id in db.capacity && db.capacity[id].acquiredAt.Some?
    ensures id in AcquiredIds(purged) <==> id in AcquiredIds(db)
    ensures id !in AcquiredIds(db) ==>
      && AcquiredIds(purged) == rivals * AcquiredIds(db)
      && WaitingIds(purged) == {id} + rivals * WaitingIds(db)
  {
  }

  lemma {:induction false} QueueEnds(capacity: map<Id, CapacityRow>, last: nat)
    requires CapacityValid(capacity, last)
    ensures forall r | r in capacity :: capacity[r].sequence < last + 1
  {
  }

  lemma {:induction false} PurgeKeepsLive(upserted: Db, db: Db, id: Id, now: Time)
    requires upserted.leases == db.leases && id in upserted.capacity
    requires upserted.capacity == db.capacity[id := upserted.capacity[id]]
    requires LeaseCurrent(db, id, upserted.capacity[id].owner, upserted.capacity[id].fence, now)
    ensures Purge(upserted, now).capacity.Keys == {id} + Rivals(db, id, now)
  {
  }

  /** After upsert and purge the table holds the caller's row and the live rivals, unchanged. */
  lemma {:induction false} PurgedRows(db: Db, lease: Lease, now: Time)
    requires LeaseCurrent(db, lease.recordId, lease.owner, lease.fence, now)
    ensures var purged := Purge(UpsertCapacity(db, lease), now);
      && purged.capacity.Keys == {lease.recordId} + Rivals(db, lease.recordId, now)
      && (forall r | r in Rivals(db, lease.recordId, now) :: r in db.capacity && purged.capacity[r] == db.capacity[r])
      && lease.recordId !in Rivals(db, lease.recordId, now)
      && purged.capacity[lease.recordId] == CallerRow(db, lease)
  {
    var upserted := UpsertCapacity(db, lease);
    PurgeKeepsLive(upserted, db, lease.recordId, now);
    hide LeaseCurrent, Live;
  }

  // ---- Nobody is overtaken -------------------------------------------------

  /** The waiting records queued before `id`. */
  function Ahead(capacity: map<Id, CapacityRow>, id: Id): set<Id>
    requires id in capacity
  {
    set r | r in capacity && capacity[r].acquiredAt.None? && capacity[r].sequence < capacity[id].sequence
  }

  lemma {:induction false} QueueInRun(db: Db, ops: seq<Op>, i: nat, j: nat)
    requires ValidDb(db) && i <= j <= |ops|
    ensures QueueLater(After(db, ops[..i]).capacity, After(db, ops[..i]).lastSequence, After(db, ops[..j]).capacity)
    decreases j
  {
    hide Step, ValidDb, QueueLater, RowsLater, LeasesLater, After;
    var early, late := After(db, ops[..i]), After(db, ops[..j]);
    if i == j {
      QueueReflexive(early.capacity, early.lastSequence);
    } else {
      var before := After(db, ops[..j - 1]);
      QueueInRun(db, ops, i, j - 1);
      MomentsOrdered(db, ops, i, j - 1);
      NextMoment(db, ops, j - 1);
      StepQueue(before, ops[j - 1]);
      QueueTransitive(early.capacity, early.lastSequence, before.capacity, before.lastSequence, late.capacity);
    }
  }

  /**
   * A capacity row keeps its sequence for as long as it exists, and sequences are never reused. For
   * a row found waiting at two moments of a run, it was waiting at the first as well, and the
   * records waiting ahead of it at the second were ahead of it at the first.
   */
  lemma {:induction false} NeverOvertaken(db: Db, ops: seq<Op>, i: nat, j: nat, id: Id)
    requires ValidDb(db) && i <= j <= |ops|
    requires id in After(db, ops[..i]).capacity && id in After(db, ops[..j]).capacity
    requires After(db, ops[..i]).capacity[id].sequence == After(db, ops[..j]).capacity[id].sequence
    requires After(db, ops[..j]).capacity[id].acquiredAt.None?
    ensures After(db, ops[..i]).capacity[id].acquiredAt.None?
    ensures Ahead(After(db, ops[..j]).capacity, id) <= Ahead(After(db, ops[..i]).capacity, id)
    ensures |Ahead(After(db, ops[..j]).capacity, id)| <= |Ahead(After(db, ops[..i]).capacity, id)|
  {
    hide Step, After;
    RunKeeps(db, ops[..i]);
    QueueInRun(db, ops, i, j);
    var early, late := After(db, ops[..i]), After(db, ops[..j]);
    assert CapacityValid(early.capacity, early.lastSequence);
    hide ValidDb;
    SubsetSize(Ahead(late.capacity, id), Ahead(early.capacity, id));
  }
}
