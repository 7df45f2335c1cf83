/**
 * Fencing: a fence number of a record belongs to one owner in the whole history, and a lease that
 * was superseded or released never authorizes anything again, whatever clocks the callers use.
 */
module StoreFences {
  import opened Prelude
  import opened Records
  import opened DurableStore
  import opened StoreInvariant

  /** The lease a call hands out, if it hands one out. */
  function IssuedLease(reply: Reply): Option<Lease> {
    match reply
    case AdmissionReply(Created(lease)) => Some(lease)
    case Claimed(lease) => lease
    case _ => None
  }

  /** Right after it is issued, a lease is the current one, and its owner is somebody. */
  lemma {:induction false} IssuedIsCurrent(db: Db, op: Op)
    requires IssuedLease(Step(db, op).1).Some?
    ensures var lease := IssuedLease(Step(db, op).1).value;
      lease.owner.Runtime? && LeaseMatches(Step(db, op).0, lease)
  {
    hide Enroll, Claim, Save, Bind, TryAcquire, ChosenMember;
    match op
    case OpClaim(id, owner, ttl, now) => ClaimEffect(db, id, owner, ttl, now);
    case OpAdmit(record, options) => EnrollEffect(db, record, options);
    case OpAdmitRoutePool(key, members, options) =>
      var selected := ChosenMember(db, key, Names(members), options.now);
      EnrollEffect(db, MemberRecords(members)[selected], options);
    case _ =>
  }

  /** In a whole run fences of a record are handed out in order, and one fence has one owner. */
  lemma {:induction false} OneOwnerPerFence(db: Db, ops: seq<Op>, i: nat, j: nat)
    requires ValidDb(db) && i < j < |ops|
    requires IssuedLease(ReplyAt(db, ops, i)).Some? && IssuedLease(ReplyAt(db, ops, j)).Some?
    requires IssuedLease(ReplyAt(db, ops, i)).value.recordId == IssuedLease(ReplyAt(db, ops, j)).value.recordId
    ensures var first, second := IssuedLease(ReplyAt(db, ops, i)).value, IssuedLease(ReplyAt(db, ops, j)).value;
      first.fence <= second.fence && (first.fence == second.fence ==> first.owner == second.owner)
  {
    hide Step, ValidDb, RowsLater, IssuedLease;
    NextMoment(db, ops, i);
    NextMoment(db, ops, j);
    IssuedIsCurrent(After(db, ops[..i]), ops[i]);
    IssuedIsCurrent(After(db, ops[..j]), ops[j]);
    MomentsOrdered(db, ops, i + 1, j + 1);
  }

  // ---- Leases that are over ------------------------------------------------

  /** The record has moved to a larger fence, or this lease was released. */
  predicate Over(db: Db, lease: Lease) {
    && lease.owner.Runtime?
    && lease.recordId in db.leases
    && (db.leases[lease.recordId].fence > lease.fence
        || (db.leases[lease.recordId].fence == lease.fence && db.leases[lease.recordId].owner != lease.owner))
  }

  lemma {:induction false} OverForever(a: Db, b: Db, lease: Lease)
    requires Later(a, b) && Over(a, lease)
    ensures Over(b, lease)
  {
    assert lease.recordId in a.leases;
  }

  /** The calls of one record that present a lease of it. */
  predicate Presents(op: Op, lease: Lease) {
    match op
    case OpSave(record, _, presented, _) => presented == Some(lease) && record.id == lease.recordId
    case OpRenew(renewed, _, _) => renewed == lease
    case OpReleaseLease(released) => released == lease
    case OpTryAcquire(acquirer, _, _) => acquirer == lease
    case _ => false
  }

  predicate RefusedOrUnchanged(reply: Reply) {
    reply.Refused? || reply == Changed(false)
  }

  lemma {:induction false} OverIsRefused(db: Db, op: Op, lease: Lease)
    requires Over(db, lease) && Presents(op, lease)
    ensures Step(db, op).0 == db && RefusedOrUnchanged(Step(db, op).1)
  {
    hide Purge, UpsertCapacity, Commit;
  }

  /**
   * A lease that is over at some moment of a run changes nothing at any later moment: every leased
   * save, renewal, release and capacity request that presents it is refused.
   */
  lemma {:induction false} OverNeverAuthorizes(db: Db, ops: seq<Op>, i: nat, j: nat, lease: Lease)
    requires ValidDb(db) && i <= j < |ops|
    requires Over(After(db, ops[..i]), lease) && Presents(ops[j], lease)
    ensures After(db, ops[..j + 1]) == After(db, ops[..j]) && RefusedOrUnchanged(ReplyAt(db, ops, j))
  {
    hide Step, Later, ValidDb, Over, Presents, RefusedOrUnchanged;
    MomentsOrdered(db, ops, i, j);
    OverForever(After(db, ops[..i]), After(db, ops[..j]), lease);
    OverIsRefused(After(db, ops[..j]), ops[j], lease);
    NextMoment(db, ops, j);
  }

  // ---- What touches a lease row --------------------------------------------

  predicate TouchesLease(op: Op, id: Id) {
    match op
    case OpClaim(claimedId, _, _, _) => claimedId == id
    case OpRenew(renewed, _, _) => renewed.recordId == id
    case OpReleaseLease(released) => released.recordId == id
    case _ => false
  }

  /** Admissions write the lease of their own, new record only. */
  lemma {:induction false} AdmissionLeasesStay(db: Db, op: Op, id: Id)
    requires LeasesValid(db.rows, db.leases) && id in db.leases && (op.OpAdmit? || op.OpAdmitRoutePool?)
    ensures id in Step(db, op).0.leases && Step(db, op).0.leases[id] == db.leases[id]
  {
    hide Enroll, ChosenMember, FindReplay, InsertEvents;
    match op
    case OpAdmit(record, options) =>
      if Enroll(db, record, options).Ok? { EnrollEffect(db, record, options); }
    case OpAdmitRoutePool(key, members, options) =>
      if members != [] {
        var selected := ChosenMember(db, key, Names(members), options.now);
        if 0 <= selected < |members| && Enroll(db, MemberRecords(members)[selected], options).Ok? {
          EnrollEffect(db, MemberRecords(members)[selected], options);
        }
      }
  }

  /** An existing lease row is changed by a claim, renewal or release of its record, and by nothing else. */
  lemma {:induction false} LeaseRowStays(db: Db, op: Op, id: Id)
    requires ValidDb(db) && id in db.leases && !TouchesLease(op, id)
    ensures id in Step(db, op).0.leases && Step(db, op).0.leases[id] == db.leases[id]
  {
    hide ValidDb, Admit, AdmitRoutePool, TryAcquire, InsertEvents, MoveCapacity;
    LeasesOf(db);
    match op
    case OpAdmit(_, _) => AdmissionLeasesStay(db, op, id);
    case OpAdmitRoutePool(_, _, _) => AdmissionLeasesStay(db, op, id);
    case OpTryAcquire(lease, limit, now) =>
      if TryAcquireCapacity(db, lease, limit, now).Ok? { TryAcquireFrame(db, lease, limit, now); }
    case _ =>
  }

  lemma {:induction false} LeasesOf(db: Db)
    requires ValidDb(db)
    ensures LeasesValid(db.rows, db.leases)
  {
  }

  /** Exactly two things end a lease that was current: its release, or a claim after its expiry. */
  lemma {:induction false} WhatEndsALease(db: Db, op: Op, lease: Lease)
    requires ValidDb(db) && lease.owner.Runtime? && LeaseMatches(db, lease)
    ensures Over(Step(db, op).0, lease) <==>
      || op == OpReleaseLease(lease)
      || (op.OpClaim? && op.claimedId == lease.recordId && db.leases[lease.recordId].expiresAt <= op.claimedAt
          && IsOwner(op.owner) && IsTtl(op.claimTtl))
  {
    if TouchesLease(op, lease.recordId) {
      LeaseCallEnds(db, op, lease);
    } else {
      hide Step, ValidDb;
      LeaseRowStays(db, op, lease.recordId);
    }
  }

  lemma {:induction false} LeaseCallEnds(db: Db, op: Op, lease: Lease)
    requires LeasesValid(db.rows, db.leases) && lease.owner.Runtime? && LeaseMatches(db, lease)
    requires TouchesLease(op, lease.recordId)
    ensures Over(Step(db, op).0, lease) <==>
      || op == OpReleaseLease(lease)
      || (op.OpClaim? && db.leases[lease.recordId].expiresAt <= op.claimedAt && IsOwner(op.owner) && IsTtl(op.claimTtl))
  {
  }

  /** Releasing a lease that still holds a slot leaves such a row: the lease is over, the row is its own. */
  lemma {:induction false} ReleasedLeaseKeepsItsRow(db: Db, lease: Lease)
    requires db.kind == JobKind && lease.owner.Runtime? && LeaseMatches(db, lease) && HoldsCapacityRow(db, lease)
    ensures var after := Step(db, OpReleaseLease(lease)).0;
      && Over(after, lease) && HoldsCapacityRow(after, lease)
      && lease.recordId !in Step(after, OpReleaseCapacity(lease)).0.capacity
  {
  }
}
