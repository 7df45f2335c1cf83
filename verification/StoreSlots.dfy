/**
 * Capacity rows against leases, over every run: a takeover moves the row along, so the only lease
 * that can be over and still remove its row is one that was released while the row stood.
 */
module StoreSlots {
  import opened Records
  import opened DurableStore
  import opened StoreInvariant
  import opened StoreFences

  /** The lease that a capacity row names. */
  function Named(id: Id, row: CapacityRow): Lease {
    Lease(id, row.owner, row.fence)
  }

  /** A row names a lease that was issued: an earlier one, or the current one unless that was released. */
  ghost predicate SlotsOwned(db: Db) {
    forall id | id in db.capacity ::
      && id in db.leases
      && db.capacity[id].fence <= db.leases[id].fence
      && (db.capacity[id].fence == db.leases[id].fence ==>
            db.capacity[id].owner == db.leases[id].owner || db.leases[id].owner == Nobody)
  }

  /** Every row names the lease it named before, or the current one. */
  ghost predicate Follows(before: map<Id, CapacityRow>, db: Db) {
    forall id | id in db.capacity ::
      || (id in before && Named(id, before[id]) == Named(id, db.capacity[id]))
      || LeaseMatches(db, Named(id, db.capacity[id]))
  }

  // ---- Each call -----------------------------------------------------------

  lemma {:induction false} UpsertFollows(db: Db, lease: Lease, now: Time)
    requires LeaseCurrent(db, lease.recordId, lease.owner, lease.fence, now)
    ensures Follows(db.capacity, UpsertCapacity(db, lease)) && UpsertCapacity(db, lease).leases == db.leases
  {
  }

  /** Purging and granting leave the names of the rows that stay. */
  lemma {:induction false} QueueKeepsNames(db: Db, lease: Lease, limit: int, now: Time)
    requires TryAcquire(db, lease, limit, now).Ok?
    ensures var upserted, after := UpsertCapacity(db, lease), TryAcquire(db, lease, limit, now).value.0;
      forall id | id in after.capacity ::
          id in upserted.capacity && Named(id, after.capacity[id]) == Named(id, upserted.capacity[id])
  {
    hide UpsertCapacity, LeaseCurrent, Live, AcquiredIds;
  }

  lemma {:induction false} TryAcquireFollows(db: Db, lease: Lease, limit: int, now: Time)
    requires TryAcquire(db, lease, limit, now).Ok?
    ensures Follows(db.capacity, TryAcquire(db, lease, limit, now).value.0)
  {
    hide UpsertCapacity, Purge, AcquiredIds, FirstWaiting, Grant, LeaseMatches;
    UpsertFollows(db, lease, now);
    QueueKeepsNames(db, lease, limit, now);
    TryAcquireFrame(db, lease, limit, now);
    hide TryAcquire, LeaseCurrent;
    NamesFollow(db.capacity, UpsertCapacity(db, lease), TryAcquire(db, lease, limit, now).value.0);
  }

  lemma {:induction false} NamesFollow(before: map<Id, CapacityRow>, a: Db, b: Db)
    requires Follows(before, a) && b.leases == a.leases
    requires forall id | id in b.capacity :: id in a.capacity && Named(id, b.capacity[id]) == Named(id, a.capacity[id])
    ensures Follows(before, b)
  {
  }

  lemma {:induction false} ClaimFollows(db: Db, id: Id, owner: Owner, ttl: int, now: Time)
    ensures Follows(db.capacity, Claim(db, id, owner, ttl, now).0)
  {
  }

  lemma {:induction false} EnrollFollows(db: Db, record: Record, options: Admission)
    requires Enroll(db, record, options).Ok?
    ensures Follows(db.capacity, Enroll(db, record, options).value.0)
  {
    hide InsertEvents, TryAcquire, Claim, Numbered;
    var remembered := Remember(InsertNew(db, record).value, options.idempotency, record.id);
    var (claimed, lease) := Claim(remembered, record.id, options.owner, options.ttl, options.now);
    ClaimFollows(remembered, record.id, options.owner, options.ttl, options.now);
    if options.capacityLimit.Some? {
      TryAcquireFollows(claimed, lease.value, options.capacityLimit.value, options.now);
      TryAcquireFrame(claimed, lease.value, options.capacityLimit.value, options.now);
    }
  }

  lemma {:induction false} StepFollows(db: Db, op: Op)
    ensures Follows(db.capacity, Step(db, op).0)
  {
    hide Follows, Enroll, TryAcquire, Claim, ChosenMember, FindReplay, InsertNew, Save, Bind;
    CapacityStays(db, db);
    match op
    case OpAdmit(record, options) => if Enroll(db, record, options).Ok? { EnrollFollows(db, record, options); }
    case OpAdmitRoutePool(key, members, options) =>
      if members != [] {
        var selected := ChosenMember(db, key, Names(members), options.now);
        if 0 <= selected < |members| && Enroll(db, MemberRecords(members)[selected], options).Ok? {
          EnrollFollows(db, MemberRecords(members)[selected], options);
          if Step(db, op).0 != db {
            CursorsAside(db.capacity, Enroll(db, MemberRecords(members)[selected], options).value.0, Step(db, op).0);
          }
        }
      }
    case OpClaim(id, owner, ttl, now) => ClaimFollows(db, id, owner, ttl, now);
    case OpTryAcquire(lease, limit, now) =>
      if TryAcquireCapacity(db, lease, limit, now).Ok? { TryAcquireFollows(db, lease, limit, now); }
    case OpReleaseCapacity(_) => CapacityStays(db, Step(db, op).0);
    case _ =>
      WriteKeepsSlots(db, op);
      CapacityStays(db, Step(db, op).0);
  }

  lemma {:induction false} WriteKeepsSlots(db: Db, op: Op)
    requires op.OpSave? || op.OpBind? || op.OpCreate? || op.OpRenew? || op.OpReleaseLease? || op.OpCancel?
    ensures Step(db, op).0.capacity == db.capacity
  {
    hide InsertEvents, LeaseCurrent, Numbered;
  }

  lemma {:induction false} CapacityStays(db: Db, after: Db)
    requires Kept(after.capacity, db.capacity)
    ensures Follows(db.capacity, after)
  {
  }

  lemma {:induction false} CursorsAside(before: map<Id, CapacityRow>, a: Db, b: Db)
    requires Follows(before, a) && b.capacity == a.capacity && b.leases == a.leases
    ensures Follows(before, b)
  {
  }

  lemma {:induction false} OwnedStays(db: Db, after: Db)
    requires SlotsOwned(db) && LeasesLater(db.leases, after.leases) && Follows(db.capacity, after)
    ensures SlotsOwned(after)
  {
  }

  /** Taking over a lease takes over its row. */
  lemma {:induction false} TakeoverMovesRow(db: Db, op: Op, lease: Lease)
    requires db.kind == JobKind && op.OpClaim? && op.claimedId == lease.recordId
    requires lease.owner.Runtime? && LeaseMatches(db, lease) && Over(Step(db, op).0, lease)
    ensures !HoldsCapacityRow(Step(db, op).0, lease)
  {
  }

  /** The row of a lease that is over was there before, and the lease was over before or is released now. */
  lemma {:induction false} RowOutlivesLease(db: Db, op: Op, lease: Lease)
    requires ValidDb(db) && SlotsOwned(db) && Over(Step(db, op).0, lease) && HoldsCapacityRow(Step(db, op).0, lease)
    ensures HoldsCapacityRow(db, lease)
    ensures Over(db, lease) || (op == OpReleaseLease(lease) && LeaseMatches(db, lease))
  {
    hide Step;
    StepFollows(db, op);
    SlotsAreOfJobs(db);
    hide ValidDb;
    assert HoldsCapacityRow(db, lease);
    if !Over(db, lease) {
      assert LeaseMatches(db, lease);
      WhatEndsALease(db, op, lease);
      if op != OpReleaseLease(lease) {
        TakeoverMovesRow(db, op, lease);
      }
    }
  }

  lemma {:induction false} SlotsAreOfJobs(db: Db)
    requires ValidDb(db)
    ensures db.capacity != map[] ==> db.kind == JobKind
  {
    hide RowsValid, EventTableValid, ReferencesValid, LeasesValid, CancellationsValid, CapacityValid;
  }

  // ---- Every run -----------------------------------------------------------

  lemma {:induction false} RunOwned(kind: RecordKind, ops: seq<Op>)
    ensures SlotsOwned(After(Empty(kind), ops)) && ValidDb(After(Empty(kind), ops))
  {
    hide Step, ValidDb, RowsLater, LeasesLater, Kept;
    EmptyValid(kind);
    if ops != [] {
      RunOwned(kind, ops[..|ops| - 1]);
      var before := After(Empty(kind), ops[..|ops| - 1]);
      StepKeeps(before, ops[|ops| - 1]);
      StepFollows(before, ops[|ops| - 1]);
      OwnedStays(before, After(Empty(kind), ops));
    }
  }

  /** Call number i released the lease, whose row stood then and at every moment up to now. */
  ghost predicate ReleasedOverRow(kind: RecordKind, ops: seq<Op>, lease: Lease, i: nat)
    requires i < |ops|
  {
    && ops[i] == OpReleaseLease(lease) && LeaseMatches(After(Empty(kind), ops[..i]), lease)
    && forall k | i <= k <= |ops| :: HoldsCapacityRow(After(Empty(kind), ops[..k]), lease)
  }

  /** The row of a lease that is over stands exactly when the lease was released over it. */
  lemma {:induction false} RowOfOverLeaseExactlyWhen(kind: RecordKind, ops: seq<Op>, lease: Lease)
    requires Over(After(Empty(kind), ops), lease)
    ensures HoldsCapacityRow(After(Empty(kind), ops), lease)
      <==> exists i: nat :: i < |ops| && ReleasedOverRow(kind, ops, lease, i)
  {
    hide Step, Over, LeaseMatches, HoldsCapacityRow, SlotsOwned, ValidDb;
    assert ops[..|ops|] == ops;
    if HoldsCapacityRow(After(Empty(kind), ops), lease) {
      if ops == [] {
        NothingOver(kind, lease);
      } else {
        var n := |ops| - 1;
        var before := After(Empty(kind), ops[..n]);
        RunOwned(kind, ops[..n]);
        RowOutlivesLease(before, ops[n], lease);
        if Over(before, lease) {
          RowOfOverLeaseExactlyWhen(kind, ops[..n], lease);
          var i: nat :| i < n && ReleasedOverRow(kind, ops[..n], lease, i);
          ReleaseStands(kind, ops, lease, i);
        } else {
          assert ReleasedOverRow(kind, ops, lease, n);
        }
      }
    }
  }

  lemma {:induction false} NothingOver(kind: RecordKind, lease: Lease)
    ensures !Over(Empty(kind), lease)
  {
  }

  /** One more call, and the row still stands. */
  lemma {:induction false} ReleaseStands(kind: RecordKind, ops: seq<Op>, lease: Lease, i: nat)
    requires i < |ops| - 1 && ReleasedOverRow(kind, ops[..|ops| - 1], lease, i)
    requires HoldsCapacityRow(After(Empty(kind), ops), lease)
    ensures ReleasedOverRow(kind, ops, lease, i)
  {
    hide After, LeaseMatches, HoldsCapacityRow;
    var rest := ops[..|ops| - 1];
    assert rest[..i] == ops[..i] && ops[..|ops|] == ops;
    forall k | i <= k <= |ops|
      ensures HoldsCapacityRow(After(Empty(kind), ops[..k]), lease)
    {
      if k <= |rest| {
        assert rest[..k] == ops[..k];
      }
    }
  }

  /**
   * In every run, a lease that is over still gets a capacity row removed exactly when it was released
   * while that row stood, and the row has stood ever since.
   */
  lemma {:induction false} OverReleasesSlotExactlyWhen(kind: RecordKind, ops: seq<Op>, lease: Lease)
    requires Over(After(Empty(kind), ops), lease)
    ensures Step(After(Empty(kind), ops), OpReleaseCapacity(lease)).1 == Changed(true)
      <==> exists i: nat :: i < |ops| && ReleasedOverRow(kind, ops, lease, i)
  {
    hide After, Over, ReleasedOverRow, ValidDb;
    RowOfOverLeaseExactlyWhen(kind, ops, lease);
    RunOwned(kind, ops);
    SlotsAreOfJobs(After(Empty(kind), ops));
  }

  /** A lease that a claim took over is never released before or after, so it never again removes a slot. */
  lemma {:induction false} TakenOverNeverReleasesSlot(kind: RecordKind, ops: seq<Op>, i: nat, j: nat, lease: Lease)
    requires i < j < |ops| && lease.owner.Runtime?
    requires LeaseMatches(After(Empty(kind), ops[..i]), lease) && ops[i].OpClaim?
      && Over(After(Empty(kind), ops[..i + 1]), lease)
    requires ops[j] == OpReleaseCapacity(lease)
    ensures After(Empty(kind), ops[..j + 1]) == After(Empty(kind), ops[..j])
      && RefusedOrUnchanged(ReplyAt(Empty(kind), ops, j))
  {
    hide After, Step, ValidDb, Later, LeaseMatches, Over;
    EmptyValid(kind);
    MomentsOrdered(Empty(kind), ops, i + 1, j);
    OverForever(After(Empty(kind), ops[..i + 1]), After(Empty(kind), ops[..j]), lease);
    RowOfOverLeaseExactlyWhen(kind, ops[..j], lease);
    if r: nat :| r < j && ReleasedOverRow(kind, ops[..j], lease, r) {
      assert ops[..j][..r] == ops[..r] && ops[..j][r] == ops[r];
      MatchesBeforeOver(kind, ops, i, r, lease);
      assert false;
    }
    NextMoment(Empty(kind), ops, j);
    NoRowNoRelease(After(Empty(kind), ops[..j]), lease);
  }

  lemma {:induction false} NoRowNoRelease(db: Db, lease: Lease)
    requires !HoldsCapacityRow(db, lease)
    ensures Step(db, OpReleaseCapacity(lease)).0 == db && RefusedOrUnchanged(Step(db, OpReleaseCapacity(lease)).1)
  {
  }

  /** A lease that call number i ended by a claim was released by no other call. */
  lemma {:induction false} MatchesBeforeOver(kind: RecordKind, ops: seq<Op>, i: nat, r: nat, lease: Lease)
    requires i < |ops| && r < |ops| && lease.owner.Runtime?
    requires LeaseMatches(After(Empty(kind), ops[..i]), lease) && ops[i].OpClaim?
      && Over(After(Empty(kind), ops[..i + 1]), lease)
    ensures !(ops[r] == OpReleaseLease(lease) && LeaseMatches(After(Empty(kind), ops[..r]), lease))
  {
    hide After, Step, ValidDb, Later;
    EmptyValid(kind);
    if ops[r] == OpReleaseLease(lease) && LeaseMatches(After(Empty(kind), ops[..r]), lease) {
      if r < i {
        MomentsOrdered(Empty(kind), ops, r, i);
        MomentsOrdered(Empty(kind), ops, r + 1, i);
        NextMoment(Empty(kind), ops, r);
        WhatEndsALease(After(Empty(kind), ops[..r]), ops[r], lease);
        OverForever(After(Empty(kind), ops[..r + 1]), After(Empty(kind), ops[..i]), lease);
      } else {
        MomentsOrdered(Empty(kind), ops, i + 1, r);
        OverForever(After(Empty(kind), ops[..i + 1]), After(Empty(kind), ops[..r]), lease);
      }
      assert false;
    }
  }
}
