/**
 * Why an owner that keeps its heartbeat keeps its record: with a lease of `ttl` milliseconds,
 * renewed so that no clock reading is ever more than two heartbeats after the latest renewal, and
 * ttl > 2 * heartbeat, the fence stays, competing claims get nothing, and the slot is not purged.
 */
module StoreHeartbeat {
  import opened Prelude
  import opened Records
  import opened DurableStore
  import opened StoreInvariant
  import opened StoreFences
  import opened StoreCapacity

  /** The clock reading a call carries; releases, creations and bindings carry none. */
  function ClockOf(op: Op): Option<Time> {
    match op
    case OpAdmit(_, options) => Some(options.now)
    case OpAdmitRoutePool(_, _, options) => Some(options.now)
    case OpSave(_, _, _, now) => Some(now)
    case OpClaim(_, _, _, now) => Some(now)
    case OpRenew(_, _, now) => Some(now)
    case OpTryAcquire(_, _, now) => Some(now)
    case _ => None
  }

  /** The owner's own heartbeat, or its own claim of the record it still holds. */
  predicate Renews(op: Op, lease: Lease) {
    || (op.OpRenew? && op.renewed == lease)
    || (op.OpClaim? && op.claimedId == lease.recordId && op.owner == lease.owner)
  }

  function TtlOf(op: Op): int
    requires op.OpRenew? || op.OpClaim?
  {
    if op.OpRenew? then op.renewTtl else op.claimTtl
  }

  predicate GivesUp(op: Op, lease: Lease) {
    op == OpReleaseLease(lease) || op == OpReleaseCapacity(lease)
  }

  /** The reading of the latest renewal in a run that starts with a lease renewed at `start`. */
  function LatestRenewal(ops: seq<Op>, lease: Lease, start: Time): Time {
    if ops == [] then start
    else if Renews(ops[|ops| - 1], lease) then ClockOf(ops[|ops| - 1]).value
    else LatestRenewal(ops[..|ops| - 1], lease, start)
  }

  /** One call of a run that respects the heartbeat of `lease`. */
  predicate OnTime(op: Op, lease: Lease, ttl: int, heartbeat: int, latest: Time) {
    && !GivesUp(op, lease)
    && (ClockOf(op).Some? ==> ClockOf(op).value <= latest + 2 * heartbeat)
    && (Renews(op, lease) ==> TtlOf(op) == ttl)
  }

  predicate HeartbeatKept(ops: seq<Op>, lease: Lease, ttl: int, heartbeat: int, start: Time) {
    forall i | 0 <= i < |ops| :: OnTime(ops[i], lease, ttl, heartbeat, LatestRenewal(ops[..i], lease, start))
  }

  /** The lease is the current one and lasts at least until `until`. */
  predicate Held(db: Db, lease: Lease, until: Time) {
    LeaseMatches(db, lease) && db.leases[lease.recordId].expiresAt >= until
  }

  predicate HoldsSlot(db: Db, lease: Lease) {
    HoldsCapacityRow(db, lease) && db.capacity[lease.recordId].acquiredAt.Some?
  }

  predicate Competes(op: Op, lease: Lease) {
    op.OpClaim? && op.claimedId == lease.recordId && op.owner != lease.owner
  }

  // ---- One call ------------------------------------------------------------

  lemma {:induction false} HeldThroughLeaseCall(db: Db, op: Op, lease: Lease, ttl: int, heartbeat: int, latest: Time)
    requires ttl > 2 * heartbeat && IsTtl(ttl) && Held(db, lease, latest + ttl) && IsOwner(lease.owner)
    requires OnTime(op, lease, ttl, heartbeat, latest) && TouchesLease(op, lease.recordId) && lease.recordId in db.rows
    ensures Held(Step(db, op).0, lease, (if Renews(op, lease) then ClockOf(op).value else latest) + ttl)
  {
  }

  lemma {:induction false} HeldThrough(db: Db, op: Op, lease: Lease, ttl: int, heartbeat: int, latest: Time)
    requires ValidDb(db) && ttl > 2 * heartbeat && IsTtl(ttl) && Held(db, lease, latest + ttl) && IsOwner(lease.owner)
    requires OnTime(op, lease, ttl, heartbeat, latest)
    ensures Held(Step(db, op).0, lease, (if Renews(op, lease) then ClockOf(op).value else latest) + ttl)
  {
    LeasesOf(db);
    if TouchesLease(op, lease.recordId) {
      HeldThroughLeaseCall(db, op, lease, ttl, heartbeat, latest);
    } else {
      hide Step, ValidDb;
      LeaseRowStays(db, op, lease.recordId);
    }
  }

  lemma {:induction false} CompetitorRefused(db: Db, op: Op, lease: Lease, until: Time)
    requires lease.recordId in db.rows && Held(db, lease, until) && Competes(op, lease) && op.claimedAt < until
    ensures Step(db, op).0 == db
    ensures Step(db, op).1 in {Claimed(None), Refused(InvalidArgument)}
  {
  }

  lemma {:induction false} SlotSurvivesPurge(db: Db, now: Time, lease: Lease, until: Time)
    requires Held(db, lease, until) && now < until && HoldsSlot(db, lease)
    ensures HoldsSlot(Purge(db, now), lease)
  {
    assert Live(db, lease.recordId, now);
  }

  lemma {:induction false} SlotSurvivesUpsert(db: Db, other: Lease, lease: Lease)
    requires HoldsSlot(db, lease)
    requires other.recordId == lease.recordId ==> other.owner == lease.owner && other.fence == lease.fence
    ensures HoldsSlot(UpsertCapacity(db, other), lease) && UpsertCapacity(db, other).leases == db.leases
  {
  }

  lemma {:induction false} SlotSurvivesTryAcquire(
      db: Db, other: Lease, limit: int, now: Time, lease: Lease, until: Time)
    requires Held(db, lease, until) && now < until && HoldsSlot(db, lease)
    requires TryAcquire(db, other, limit, now).Ok?
    ensures HoldsSlot(TryAcquire(db, other, limit, now).value.0, lease)
  {
    var upserted := UpsertCapacity(db, other);
    SlotSurvivesUpsert(db, other, lease);
    SlotSurvivesPurge(upserted, now, lease, until);
    hide UpsertCapacity, Purge, AcquiredIds;
  }

  lemma {:induction false} SlotSurvivesClaim(db: Db, op: Op, lease: Lease, until: Time)
    requires op.OpClaim? && Held(db, lease, until) && op.claimedAt < until && HoldsSlot(db, lease)
    ensures HoldsSlot(Step(db, op).0, lease)
  {
  }

  lemma {:induction false} SlotSurvivesEnroll(db: Db, record: Record, options: Admission, lease: Lease, until: Time)
    requires ValidDb(db) && Enroll(db, record, options).Ok?
    requires Held(db, lease, until) && options.now < until && HoldsSlot(db, lease)
    ensures HoldsSlot(Enroll(db, record, options).value.0, lease)
  {
    hide ValidDb, TryAcquire, InsertEvents, MoveCapacity;
    FreshInQueue(db, record.id);
    var remembered := Remember(InsertNew(db, record).value, options.idempotency, record.id);
    var (claimed, own) := Claim(remembered, record.id, options.owner, options.ttl, options.now);
    assert claimed.capacity == db.capacity && Held(claimed, lease, until) && HoldsSlot(claimed, lease);
    if options.capacityLimit.Some? {
      SlotSurvivesTryAcquire(claimed, own.value, options.capacityLimit.value, options.now, lease, until);
    }
  }

  lemma {:induction false} SlotSurvivesAdmission(db: Db, op: Op, lease: Lease, until: Time)
    requires ValidDb(db) && (op.OpAdmit? || op.OpAdmitRoutePool?)
    requires Held(db, lease, until) && ClockOf(op).value < until && HoldsSlot(db, lease)
    ensures HoldsSlot(Step(db, op).0, lease)
  {
    hide ValidDb, Enroll, ChosenMember, FindReplay;
    match op
    case OpAdmit(record, options) =>
      if Enroll(db, record, options).Ok? { SlotSurvivesEnroll(db, record, options, lease, until); }
    case OpAdmitRoutePool(key, members, options) =>
      if members != [] {
        var selected := ChosenMember(db, key, Names(members), options.now);
        if 0 <= selected < |members| && Enroll(db, MemberRecords(members)[selected], options).Ok? {
          SlotSurvivesEnroll(db, MemberRecords(members)[selected], options, lease, until);
        }
      }
  }

  lemma {:induction false} SlotSurvives(db: Db, op: Op, lease: Lease, until: Time)
    requires ValidDb(db) && Held(db, lease, until) && HoldsSlot(db, lease)
    requires (ClockOf(op).Some? ==> ClockOf(op).value < until) && !GivesUp(op, lease)
    ensures HoldsSlot(Step(db, op).0, lease)
  {
    hide ValidDb, Admit, AdmitRoutePool, TryAcquire, Claim, Save, Bind, InsertNew;
    match op
    case OpAdmit(_, _) => SlotSurvivesAdmission(db, op, lease, until);
    case OpAdmitRoutePool(_, _, _) => SlotSurvivesAdmission(db, op, lease, until);
    case OpClaim(_, _, _, _) => SlotSurvivesClaim(db, op, lease, until);
    case OpTryAcquire(other, limit, now) =>
      if TryAcquireCapacity(db, other, limit, now).Ok? { SlotSurvivesTryAcquire(db, other, limit, now, lease, until); }
    case OpCreate(_) => WritesLeaveCapacity(db, op);
    case OpSave(_, _, _, _) => WritesLeaveCapacity(db, op);
    case OpBind(_, _, _, _) => WritesLeaveCapacity(db, op);
    case _ =>
  }

  // ---- The whole run -------------------------------------------------------

  lemma {:induction false} HeartbeatKeptBefore(
      ops: seq<Op>, lease: Lease, ttl: int, heartbeat: int, start: Time, n: nat)
    requires HeartbeatKept(ops, lease, ttl, heartbeat, start) && n <= |ops|
    ensures HeartbeatKept(ops[..n], lease, ttl, heartbeat, start)
  {
    hide OnTime, LatestRenewal;
    forall i | 0 <= i < n
      ensures OnTime(ops[..n][i], lease, ttl, heartbeat, LatestRenewal(ops[..n][..i], lease, start))
    {
      assert ops[..n][..i] == ops[..i];
      assert OnTime(ops[i], lease, ttl, heartbeat, LatestRenewal(ops[..i], lease, start));
    }
  }

  lemma {:induction false} HeldInRun(db: Db, ops: seq<Op>, lease: Lease, ttl: int, heartbeat: int, start: Time)
    requires ValidDb(db) && ttl > 2 * heartbeat >= 2 && IsTtl(ttl) && IsOwner(lease.owner)
    requires Held(db, lease, start + ttl) && HeartbeatKept(ops, lease, ttl, heartbeat, start)
    ensures Held(After(db, ops), lease, LatestRenewal(ops, lease, start) + ttl)
    ensures forall k: nat | k <= |ops| :: HoldsSlot(After(db, ops[..k]), lease) ==> HoldsSlot(After(db, ops), lease)
  {
    hide Step, ValidDb, Held, HoldsSlot, GivesUp, Renews, ClockOf, TtlOf;
    assert ops[..|ops|] == ops;
    if ops != [] {
      var n := |ops| - 1;
      var before, latest := After(db, ops[..n]), LatestRenewal(ops[..n], lease, start);
      assert OnTime(ops[n], lease, ttl, heartbeat, latest);
      HeartbeatKeptBefore(ops, lease, ttl, heartbeat, start, n);
      HeldInRun(db, ops[..n], lease, ttl, heartbeat, start);
      RunKeeps(db, ops[..n]);
      HeldThrough(before, ops[n], lease, ttl, heartbeat, latest);
      if HoldsSlot(before, lease) {
        SlotSurvives(before, ops[n], lease, latest + ttl);
      }
      forall k: nat | k <= n
        ensures HoldsSlot(After(db, ops[..k]), lease) ==> HoldsSlot(After(db, ops), lease)
      {
        assert ops[..n][..k] == ops[..k];
      }
    }
  }

  /**
   * In every run that keeps the heartbeat, at every moment: the lease is current under the same
   * fence, a slot held at any moment before is still held, and a competing claim is refused.
   */
  lemma {:induction false} HeartbeatKeepsTheRecord(
      db: Db, ops: seq<Op>, lease: Lease, ttl: int, heartbeat: int, start: Time, i: nat)
    requires ValidDb(db) && ttl > 2 * heartbeat >= 2 && IsTtl(ttl) && IsOwner(lease.owner)
    requires Held(db, lease, start + ttl) && HeartbeatKept(ops, lease, ttl, heartbeat, start) && i < |ops|
    ensures LeaseMatches(After(db, ops[..i]), lease)
    ensures forall k: nat | k <= i :: HoldsSlot(After(db, ops[..k]), lease) ==> HoldsSlot(After(db, ops[..i]), lease)
    ensures Competes(ops[i], lease) ==> ReplyAt(db, ops, i) in {Claimed(None), Refused(InvalidArgument)}
  {
    hide Step, ValidDb, HoldsSlot, GivesUp, TtlOf;
    HeartbeatKeptBefore(ops, lease, ttl, heartbeat, start, i);
    HeldInRun(db, ops[..i], lease, ttl, heartbeat, start);
    assert forall k: nat | k <= i :: ops[..i][..k] == ops[..k];
    var now, latest := After(db, ops[..i]), LatestRenewal(ops[..i], lease, start);
    assert OnTime(ops[i], lease, ttl, heartbeat, latest);
    if Competes(ops[i], lease) {
      RunKeeps(db, ops[..i]);
      assert lease.recordId in now.rows by {
        LeasesOf(now);
      }
      CompetitorRefused(now, ops[i], lease, latest + ttl);
    }
  }
}
