/**
 * What each call of the store answers and leaves, told by the columns of its tables: when it goes
 * through, what it is refused with, and what it writes.
 */
module StoreCalls {
  import opened Prelude
  import opened Records
  import opened DurableStore
  import opened StoreInvariant
  import opened StoreCapacity
  import opened RoutePool

  // ---- Records -------------------------------------------------------------

  /** A save commits exactly from the latest revision, on the stored history, and under an unexpired lease if any. */
  lemma {:induction false} SaveCommitsExactlyWhen(
      db: Db, record: Record, revision: Option<nat>, lease: Option<Lease>, now: Time)
    requires ValidDb(db)
    ensures var (after, reply) := Step(db, OpSave(record, revision, lease, now));
      && (reply == Committed <==>
            && (db.kind == JobKind || db.kind == OrchestrationKind)
            && record.id in db.rows && revision == Some(db.rows[record.id].revision)
            && Numbered(record.events) && db.rows[record.id].record.events <= record.events
            && (lease.Some? ==>
                  && record.id in db.leases
                  && db.leases[record.id].owner == lease.value.owner && db.leases[record.id].fence == lease.value.fence
                  && db.leases[record.id].expiresAt > now)
            && (record.status == Succeeded ==> record.id !in db.cancellations))
      && (reply == Committed ==>
            && after.rows ==
                 db.rows[record.id := Row(db.rows[record.id].revision + 1, |record.events|, record)]
            && after == db.(rows := after.rows, events := after.events))
      && (reply != Committed ==> after == db && reply.Refused?)
  {
    assert RowsValid(db.rows);
    hide ValidDb, InsertEvents;
  }

  /**
   * A leased save from the latest revision is refused as lost exactly when the lease is not the
   * row's or has expired.
   */
  lemma {:induction false} LeasedSaveLostExactlyWhen(db: Db, record: Record, lease: Lease, now: Time)
    requires db.kind == JobKind || db.kind == OrchestrationKind
    requires record.id in db.rows && Numbered(record.events)
    ensures Step(db, OpSave(record, Some(db.rows[record.id].revision), Some(lease), now)).1 == Refused(LeaseLost) <==>
      || record.id !in db.leases
      || db.leases[record.id].owner != lease.owner || db.leases[record.id].fence != lease.fence
      || db.leases[record.id].expiresAt <= now
  {
    hide InsertEvents;
  }

  /** A save from another revision than the stored one is refused as stale, whatever else it presents. */
  lemma {:induction false} StaleSaveIsRefused(
      db: Db, record: Record, revision: Option<nat>, lease: Option<Lease>, now: Time)
    requires db.kind == JobKind || db.kind == OrchestrationKind
    requires record.id in db.rows && Numbered(record.events) && revision != Some(db.rows[record.id].revision)
    ensures Step(db, OpSave(record, revision, lease, now)) == (db, Refused(StaleRevision))
  {
    hide InsertEvents, LeaseCurrent;
  }

  /** Binding goes through exactly on an issued WorkOrder that is unbound at the sequence, or bound to the same Job. */
  lemma {:induction false} BindsExactlyWhen(db: Db, id: Id, expected: int, jobId: Id, at: Time)
    requires ValidDb(db)
    ensures var (after, reply) := Step(db, OpBind(id, expected, jobId, at));
      && (reply.Bound? <==>
            && db.kind == WorkOrderKind && 1 <= |id.text| <= 256 && 1 <= |jobId.text| <= 256 && expected >= 1
            && id in db.rows && db.rows[id].record.status == Issued && db.rows[id].record.body.WorkOrderBody?
            && (db.rows[id].record.body.executorJobId == Some(jobId)
                || (db.rows[id].record.body.executorJobId == None && |db.rows[id].record.events| == expected)))
      && (reply.Bound? ==>
            && id in after.rows && after.rows[id].record == reply.record
            && reply.record.body == WorkOrderBody(Some(jobId)) && reply.record.status == Issued
            && (if db.rows[id].record.body.executorJobId.Some? then after == db
                else
                  && after == db.(rows := after.rows, events := after.events)
                  && after.rows == db.rows[id := Row(db.rows[id].revision + 1, expected + 1, reply.record)]
                  && reply.record.id == id
                  && reply.record.events ==
                       db.rows[id].record.events + [Event(expected + 1, at, ExecutorJobBound(jobId))]))
      && (!reply.Bound? ==> after == db && reply.Refused?)
  {
    assert RowsValid(db.rows);
    hide ValidDb, InsertEvents;
  }

  // ---- Leases --------------------------------------------------------------

  /**
   * A claim is granted exactly when the record has no lease, one that is over at the caller's clock,
   * or one of the caller's own; the first lease has fence 1, a takeover the next fence, and an owner
   * that still holds its lease keeps the fence. Of all rows only the record's own ones change.
   */
  lemma {:induction false} ClaimGrantedExactlyWhen(db: Db, id: Id, owner: Owner, ttl: int, now: Time)
    ensures var (after, reply) := Step(db, OpClaim(id, owner, ttl, now));
      && (reply.Claimed? <==>
            owner.Runtime? && 1 <= |owner.text| <= 256 && 1 <= ttl <= 86_400_000 && id in db.rows)
      && (reply.Claimed? ==>
            (reply.lease.Some? <==>
               id !in db.leases || db.leases[id].expiresAt <= now || db.leases[id].owner == owner))
      && (reply.Claimed? && reply.lease.Some? ==>
            var fence :=
              if id !in db.leases then 1
              else if db.leases[id].expiresAt > now then db.leases[id].fence
              else db.leases[id].fence + 1;
            && reply.lease.value == Lease(id, owner, fence)
            && id in after.leases && after.leases[id].owner == owner && after.leases[id].fence == fence
            && after.leases[id].heartbeatAt == now && after.leases[id].expiresAt == now + ttl
            && after.leases[id].acquiredAt ==
                 (if id in db.leases && db.leases[id].expiresAt > now then db.leases[id].acquiredAt else now)
            && after.leases - {id} == db.leases - {id})
      && (!reply.Claimed? || reply.lease == None ==> after == db)
  {
    hide MoveCapacity;
  }

  /** The capacity row of a record passes to its new owner exactly when it belonged to the lease taken over. */
  lemma {:induction false} ClaimMovesSlotExactlyWhen(db: Db, id: Id, owner: Owner, ttl: int, now: Time)
    requires ValidDb(db)
    ensures var (after, reply) := Step(db, OpClaim(id, owner, ttl, now));
      && after.capacity.Keys == db.capacity.Keys
      && (forall r | r in db.capacity && r != id :: after.capacity[r] == db.capacity[r])
      && (id in db.capacity ==>
            after.capacity[id] ==
              if reply.Claimed? && reply.lease.Some? && id in db.leases
                 && db.capacity[id].owner == db.leases[id].owner && db.capacity[id].fence == db.leases[id].fence
              then db.capacity[id].(owner := owner, fence := reply.lease.value.fence)
              else db.capacity[id])
      && after == db.(leases := after.leases, capacity := after.capacity)
  {
    hide ValidDb, Claim;
    ClaimedSlot(db, id, owner, ttl, now);
  }

  lemma {:induction false} ClaimedSlot(db: Db, id: Id, owner: Owner, ttl: int, now: Time)
    requires ValidDb(db)
    ensures var (after, lease) := Claim(db, id, owner, ttl, now);
      && after.capacity.Keys == db.capacity.Keys
      && (forall r | r in db.capacity && r != id :: after.capacity[r] == db.capacity[r])
      && (id in db.capacity ==>
            after.capacity[id] ==
              if lease.Some? && id in db.leases
                 && db.capacity[id].owner == db.leases[id].owner && db.capacity[id].fence == db.leases[id].fence
              then db.capacity[id].(owner := owner, fence := lease.value.fence)
              else db.capacity[id])
      && after == db.(leases := after.leases, capacity := after.capacity)
  {
    OnlyJobsQueue(db, id);
    ClaimedRow(db.leases, id, owner, ttl, now);
    hide ValidDb, MoveCapacity, ClaimRow;
    var row := ClaimRow(db.leases, id, owner, ttl, now);
    if row == None {
    } else if db.kind == JobKind && id in db.leases && db.leases[id].fence != row.value.fence {
      MovedRow(db.capacity, id, db.leases[id], row.value);
      assert Claim(db, id, owner, ttl, now).0.capacity == MoveCapacity(db.capacity, id, db.leases[id], row.value);
    } else {
      assert Claim(db, id, owner, ttl, now).0.capacity == db.capacity;
    }
  }

  lemma {:induction false} ClaimedRow(leases: map<Id, LeaseRow>, id: Id, owner: Owner, ttl: int, now: Time)
    ensures var row := ClaimRow(leases, id, owner, ttl, now);
      row.Some? ==>
        && row.value.owner == owner
        && (id in leases && row.value.fence == leases[id].fence ==> leases[id].owner == owner)
  {
  }

  lemma {:induction false} OnlyJobsQueue(db: Db, id: Id)
    requires ValidDb(db)
    ensures id in db.capacity ==> db.kind == JobKind
  {
  }

  /** Only the record's own row moves, and only if it belonged to the superseded lease. */
  lemma {:induction false} MovedRow(
      capacity: map<Id, CapacityRow>, id: Id, superseded: LeaseRow, claimed: LeaseRow)
    ensures var after := MoveCapacity(capacity, id, superseded, claimed);
      && after.Keys == capacity.Keys
      && (forall r | r in capacity && r != id :: after[r] == capacity[r])
      && (id in capacity ==>
            after[id] ==
              if capacity[id].owner == superseded.owner && capacity[id].fence == superseded.fence
              then capacity[id].(owner := claimed.owner, fence := claimed.fence)
              else capacity[id])
  {
  }

  /**
   * A renewal goes through exactly under the row's own owner and fence before the expiry, and only
   * extends that row.
   */
  lemma {:induction false} RenewedExactlyWhen(db: Db, lease: Lease, ttl: int, now: Time)
    ensures var (after, reply) := Step(db, OpRenew(lease, ttl, now));
      var id := lease.recordId;
      && (reply == Changed(true) <==>
            && 1 <= ttl <= 86_400_000 && id in db.leases
            && db.leases[id].owner == lease.owner && db.leases[id].fence == lease.fence
            && db.leases[id].expiresAt > now)
      && after ==
           if reply == Changed(true)
           then db.(leases := db.leases[id := db.leases[id].(heartbeatAt := now, expiresAt := now + ttl)])
           else db
  {
  }

  /**
   * Once a lease is released, every runtime gets the record at once, under the next fence, at any
   * clock reading that is not negative; and so does the owner that released it.
   */
  lemma {:induction false} ReleasedLeaseIsClaimable(db: Db, lease: Lease, owner: Owner, ttl: int, now: Time)
    requires ValidDb(db) && lease.recordId in db.leases
    requires db.leases[lease.recordId].owner == lease.owner && db.leases[lease.recordId].fence == lease.fence
    requires IsOwner(owner) && IsTtl(ttl) && now >= 0
    ensures var (released, reply) := Step(db, OpReleaseLease(lease));
      && reply == Changed(true)
      && Step(released, OpClaim(lease.recordId, owner, ttl, now)).1
           == Claimed(Some(Lease(lease.recordId, owner, lease.fence + 1)))
  {
    assert lease.recordId in db.rows;
    hide ValidDb, MoveCapacity;
  }

  /** A release by anybody else is a change of nothing. */
  lemma {:induction false} OnlyTheHolderReleases(db: Db, lease: Lease)
    requires lease.recordId in db.leases ==>
      db.leases[lease.recordId].owner != lease.owner || db.leases[lease.recordId].fence != lease.fence
    ensures Step(db, OpReleaseLease(lease)) == (db, Changed(false))
  {
  }

  // ---- Capacity ------------------------------------------------------------

  /** A capacity request for a Job is refused as lost exactly when the lease is not the row's or has expired. */
  lemma {:induction false} CapacityLostExactlyWhen(db: Db, lease: Lease, limit: int, now: Time)
    requires db.kind == JobKind && limit >= 1
    ensures var (after, reply) := Step(db, OpTryAcquire(lease, limit, now));
      var id := lease.recordId;
      && (reply == Refused(LeaseLost) <==>
            || id !in db.leases
            || db.leases[id].owner != lease.owner || db.leases[id].fence != lease.fence
            || db.leases[id].expiresAt <= now)
      && (reply != Refused(LeaseLost) ==> reply.Changed?)
      && (reply == Refused(LeaseLost) ==> after == db)
  {
    hide Purge, UpsertCapacity, AcquiredIds, FirstWaiting, Grant;
  }

  /**
   * The table after a capacity request: a row other than the caller's is in it exactly when it was
   * there and the lease of its record has the same owner and fence and has not expired, and it is
   * unchanged; the caller's row names the caller's lease and keeps its place in the queue, a new one
   * comes after all rows there ever were, and it has a slot exactly when the answer is yes.
   */
  lemma {:induction false} RowsAfterRequest(db: Db, lease: Lease, limit: int, now: Time)
    requires Step(db, OpTryAcquire(lease, limit, now)).1.Changed?
    ensures var (after, reply) := Step(db, OpTryAcquire(lease, limit, now));
      var id := lease.recordId;
      && (forall r | r != id ::
            r in after.capacity <==>
              && r in db.capacity && r in db.leases
              && db.leases[r].owner == db.capacity[r].owner && db.leases[r].fence == db.capacity[r].fence
              && db.leases[r].expiresAt > now)
      && (forall r | r != id && r in after.capacity :: after.capacity[r] == db.capacity[r])
      && id in after.capacity
      && after.capacity[id].owner == lease.owner && after.capacity[id].fence == lease.fence
      && after.capacity[id].sequence ==
           (if id in db.capacity then db.capacity[id].sequence else db.lastSequence + 1)
      && after.capacity[id].acquiredAt ==
           (if id in db.capacity && db.capacity[id].acquiredAt.Some? then db.capacity[id].acquiredAt
            else if reply.ok then Some(now)
            else None)
      && after.lastSequence == (if id in db.capacity then db.lastSequence else db.lastSequence + 1)
      && after == db.(capacity := after.capacity, lastSequence := after.lastSequence)
  {
    assert LeaseCurrent(db, lease.recordId, lease.owner, lease.fence, now) by {
      hide Purge, UpsertCapacity;
    }
    PurgedTable(db, lease, now);
    hide Purge, Step, LeaseCurrent;
    AnswerWrites(db, lease, limit, now);
  }

  /** The answer's effect on what the purge left: the caller's slot at most. */
  lemma {:induction false} AnswerWrites(db: Db, lease: Lease, limit: int, now: Time)
    requires Step(db, OpTryAcquire(lease, limit, now)).1.Changed?
    requires lease.recordId in Purge(UpsertCapacity(db, lease), now).capacity
    ensures var (after, reply) := Step(db, OpTryAcquire(lease, limit, now));
      var purged := Purge(UpsertCapacity(db, lease), now);
      var own := purged.capacity[lease.recordId];
      && after.capacity == purged.capacity[lease.recordId := own.(acquiredAt :=
             if own.acquiredAt.None? && reply.ok then Some(now) else own.acquiredAt)]
      && after == purged.(capacity := after.capacity)
  {
    hide Purge, UpsertCapacity, FirstWaiting, LeaseCurrent;
  }

  /** Upsert and purge, by the columns. */
  lemma {:induction false} PurgedTable(db: Db, lease: Lease, now: Time)
    requires LeaseCurrent(db, lease.recordId, lease.owner, lease.fence, now)
    ensures var purged := Purge(UpsertCapacity(db, lease), now);
      var id := lease.recordId;
      && (forall r | r != id ::
            r in purged.capacity <==>
              && r in db.capacity && r in db.leases
              && db.leases[r].owner == db.capacity[r].owner && db.leases[r].fence == db.capacity[r].fence
              && db.leases[r].expiresAt > now)
      && (forall r | r != id && r in purged.capacity :: purged.capacity[r] == db.capacity[r])
      && id in purged.capacity && purged.capacity[id] == CallerRow(db, lease)
      && purged == UpsertCapacity(db, lease).(capacity := purged.capacity)
  {
  }

  /**
   * A capacity request under a lease that is the row's and has not expired is answered yes exactly
   * when the record already has a slot, or when fewer than `limit` records with an unexpired lease
   * have one and none of those that wait was queued before it.
   */
  lemma {:induction false} SlotGrantedExactlyWhen(db: Db, lease: Lease, limit: int, now: Time)
    requires ValidDb(db) && db.kind == JobKind && limit >= 1 && lease.recordId in db.leases
    requires db.leases[lease.recordId].owner == lease.owner && db.leases[lease.recordId].fence == lease.fence
    requires db.leases[lease.recordId].expiresAt > now
    ensures var id := lease.recordId;
      var holders := set r | r in db.capacity && r in db.leases && r != id && db.capacity[r].acquiredAt.Some?
          && db.leases[r].owner == db.capacity[r].owner && db.leases[r].fence == db.capacity[r].fence
          && db.leases[r].expiresAt > now;
      Step(db, OpTryAcquire(lease, limit, now)).1 == Changed(
        || (id in db.capacity && db.capacity[id].acquiredAt.Some?)
        || (&& |holders| < limit
            && forall r | r in db.capacity && r in db.leases && r != id && db.capacity[r].acquiredAt.None?
                 && db.leases[r].owner == db.capacity[r].owner && db.leases[r].fence == db.capacity[r].fence
                 && db.leases[r].expiresAt > now ::
                 id in db.capacity && db.capacity[id].sequence < db.capacity[r].sequence))
  {
    hide ValidDb, TryAcquire;
    GrantedExactlyWhen(db, lease, limit, now);
    var id := lease.recordId;
    var holders := set r | r in db.capacity && r in db.leases && r != id && db.capacity[r].acquiredAt.Some?
        && db.leases[r].owner == db.capacity[r].owner && db.leases[r].fence == db.capacity[r].fence
        && db.leases[r].expiresAt > now;
    assert holders == Rivals(db, id, now) * AcquiredIds(db);
    assert forall r | r in db.capacity && r in db.leases && r != id && db.capacity[r].acquiredAt.None?
        && db.leases[r].owner == db.capacity[r].owner && db.leases[r].fence == db.capacity[r].fence
        && db.leases[r].expiresAt > now :: r in Rivals(db, id, now) * WaitingIds(db);
    assert forall r | r in Rivals(db, id, now) * WaitingIds(db) :: r in db.leases && db.leases[r].expiresAt > now;
  }

  /** A slot is given back exactly under the owner and fence of its row. */
  lemma {:induction false} SlotReleasedExactlyWhen(db: Db, lease: Lease)
    requires db.kind == JobKind
    ensures var (after, reply) := Step(db, OpReleaseCapacity(lease));
      var id := lease.recordId;
      && reply.Changed?
      && (reply.ok <==>
            id in db.capacity && db.capacity[id].owner == lease.owner && db.capacity[id].fence == lease.fence)
      && after == if reply.ok then db.(capacity := db.capacity - {id}) else db
  {
  }

  // ---- Cancellation --------------------------------------------------------

  /** A request is on file afterwards exactly when the record is not terminal, and the first one stays. */
  lemma {:induction false} CancellationAcceptedExactlyWhen(db: Db, id: Id, source: string, now: Time)
    requires id in db.rows && 1 <= |source| <= 256
    ensures var (after, reply) := Step(db, OpCancel(id, source, now));
      && reply.CancellationReply?
      && (reply.request == None <==> db.rows[id].record.status in {Succeeded, Failed, Cancelled})
      && (reply.request.Some? ==>
            && id in after.cancellations && after.cancellations[id] == reply.request.value
            && reply.request.value == (if id in db.cancellations then db.cancellations[id]
                 else Cancellation(id, now, source)))
      && after.cancellations - {id} == db.cancellations - {id}
      && after == db.(cancellations := after.cancellations)
      && (reply.request == None ==> after == db)
  {
  }

  // ---- Admission -----------------------------------------------------------

  /**
   * An admission with valid options replays the record of its key, is refused when that record was
   * admitted under another request hash, and otherwise creates its record, unless the identity is
   * taken or the events are malformed.
   */
  lemma {:induction false} AdmitsExactlyWhen(db: Db, record: Record, options: Admission)
    requires ValidDb(db) && ValidAdmission(db.kind, options) && Numbered(record.events)
    ensures var reply := Step(db, OpAdmit(record, options)).1;
      var key := options.idempotency;
      if key.Some? && (key.value.scope, key.value.key) in db.idempotency then
        var row := db.idempotency[(key.value.scope, key.value.key)];
        reply ==
          if row.requestHash == key.value.requestHash then AdmissionReply(Replayed(row.recordId))
          else Refused(IdempotencyConflict)
      else
        reply ==
          if record.id in db.rows then Refused(AlreadyExists)
          else AdmissionReply(Created(Lease(record.id, options.owner, 1)))
  {
    hide ValidDb, ValidAdmission, InsertEvents, Claim, TryAcquire;
    var key := options.idempotency;
    if record.id !in db.rows && !(key.Some? && (key.value.scope, key.value.key) in db.idempotency) {
      FirstClaim(db, record, options);
      EnrollEffect(db, record, options);
      FreshInQueue(db, record.id);
    }
  }

  /** What a creating admission writes: the record at revision 1, its key and its first lease. */
  lemma {:induction false} AdmissionWrites(db: Db, record: Record, options: Admission)
    requires ValidDb(db)
    requires Step(db, OpAdmit(record, options)).1.AdmissionReply?
    requires Step(db, OpAdmit(record, options)).1.outcome.Created?
    ensures var after, now, id := Step(db, OpAdmit(record, options)).0, options.now, record.id;
      && after.rows == db.rows[id := Row(1, |record.events|, record)]
      && after.leases == db.leases[id := LeaseRow(options.owner, 1, now, now, now + options.ttl)]
      && after.idempotency ==
           (if options.idempotency == None then db.idempotency
            else
              var key := options.idempotency.value;
              db.idempotency[(key.scope, key.key) := IdempotencyRow(key.requestHash, id)])
      && after.cancellations == db.cancellations && after.cursors == db.cursors && after.kind == db.kind
  {
    hide ValidDb, ValidAdmission, InsertEvents, Enroll;
    EnrollEffect(db, record, options);
    FreshInQueue(db, record.id);
  }

  /**
   * A creating admission with a capacity limit puts its record at the end of the queue, with a slot
   * exactly when fewer than `limit` records with an unexpired lease have one and none of them waits.
   */
  lemma {:induction false} AdmissionQueuesExactly(db: Db, record: Record, options: Admission)
    requires ValidDb(db) && options.capacityLimit.Some?
    requires Step(db, OpAdmit(record, options)).1.AdmissionReply?
    requires Step(db, OpAdmit(record, options)).1.outcome.Created?
    ensures var after, now, id := Step(db, OpAdmit(record, options)).0, options.now, record.id;
      var holders := set r | r in db.capacity && r in db.leases && db.capacity[r].acquiredAt.Some?
          && db.leases[r].owner == db.capacity[r].owner && db.leases[r].fence == db.capacity[r].fence
          && db.leases[r].expiresAt > now;
      var free := |holders| < options.capacityLimit.value
        && forall r | r in db.capacity && r in db.leases
             && db.leases[r].owner == db.capacity[r].owner && db.leases[r].fence == db.capacity[r].fence
             && db.leases[r].expiresAt > now :: db.capacity[r].acquiredAt.Some?;
      && id in after.capacity
      && after.capacity[id] ==
           CapacityRow(db.lastSequence + 1, options.owner, 1, if free then Some(now) else None)
  {
    hide ValidDb, Claim, TryAcquire, TryAcquireCapacity, Remember, InsertNew;
    EnrolledClaim(db, record, options);
    var remembered := Remember(InsertNew(db, record).value, options.idempotency, record.id);
    var (claimed, lease) := Claim(remembered, record.id, options.owner, options.ttl, options.now);
    var (limit, now, id) := (options.capacityLimit.value, options.now, record.id);
    TryAcquireIsCall(claimed, lease.value, limit, now);
    hide Step, Enroll;
    RowsAfterRequest(claimed, lease.value, limit, now);
    SlotGrantedExactlyWhen(claimed, lease.value, limit, now);
    var holders := set r | r in db.capacity && r in db.leases && db.capacity[r].acquiredAt.Some?
        && db.leases[r].owner == db.capacity[r].owner && db.leases[r].fence == db.capacity[r].fence
        && db.leases[r].expiresAt > now;
    var others := set r | r in claimed.capacity && r in claimed.leases && r != id
        && claimed.capacity[r].acquiredAt.Some?
        && claimed.leases[r].owner == claimed.capacity[r].owner && claimed.leases[r].fence == claimed.capacity[r].fence
        && claimed.leases[r].expiresAt > now;
    assert holders == others;
  }

  lemma {:induction false} TryAcquireIsCall(db: Db, lease: Lease, limit: int, now: Time)
    requires db.kind == JobKind && limit >= 1
    requires TryAcquire(db, lease, limit, now).Ok?
    ensures Step(db, OpTryAcquire(lease, limit, now))
      == (TryAcquire(db, lease, limit, now).value.0, Changed(TryAcquire(db, lease, limit, now).value.1))
  {
    hide TryAcquire;
  }

  /** The store between the first claim of a new record and its request for a slot. */
  lemma {:induction false} EnrolledClaim(db: Db, record: Record, options: Admission)
    requires ValidDb(db) && options.capacityLimit.Some?
    requires Step(db, OpAdmit(record, options)).1.AdmissionReply?
    requires Step(db, OpAdmit(record, options)).1.outcome.Created?
    ensures InsertNew(db, record).Ok? && record.id !in db.capacity
    ensures var remembered := Remember(InsertNew(db, record).value, options.idempotency, record.id);
      var (claimed, lease) := Claim(remembered, record.id, options.owner, options.ttl, options.now);
      && ValidDb(claimed) && claimed.kind == db.kind == JobKind && options.capacityLimit.value >= 1
      && claimed.capacity == db.capacity && claimed.lastSequence == db.lastSequence
      && claimed.leases ==
           db.leases[record.id := LeaseRow(options.owner, 1, options.now, options.now, options.now + options.ttl)]
      && options.ttl >= 1
      && lease == Some(Lease(record.id, options.owner, 1))
      && var tried := TryAcquire(claimed, lease.value, options.capacityLimit.value, options.now);
      tried.Ok? && tried.value.0 == Step(db, OpAdmit(record, options)).0
  {
    hide ValidDb, InsertEvents, Claim, TryAcquire, Remember;
    var remembered := Remember(InsertNew(db, record).value, options.idempotency, record.id);
    NewlyRemembered(db, record, options.idempotency);
    hide FindReplay, InsertNew;
    ClaimKeeps(remembered, record.id, options.owner, options.ttl, options.now);
    ClaimEffect(remembered, record.id, options.owner, options.ttl, options.now);
  }

  lemma {:induction false} NewlyRemembered(db: Db, record: Record, key: Option<Idempotency>)
    requires ValidDb(db) && FindReplay(db, key) == Ok(None) && InsertNew(db, record).Ok?
    ensures record.id !in db.capacity && record.id !in db.leases
    ensures var after := Remember(InsertNew(db, record).value, key, record.id);
      && ValidDb(after) && record.id in after.rows && after.kind == db.kind && after.leases == db.leases
      && after.capacity == db.capacity && after.lastSequence == db.lastSequence
  {
    hide ValidDb, InsertEvents;
    FreshInQueue(db, record.id);
    CapacityHasRows(db);
    InsertNewKeeps(db, record);
    RememberKeeps(InsertNew(db, record).value, key, record.id);
  }

  lemma {:induction false} CapacityHasRows(db: Db)
    requires ValidDb(db)
    ensures db.capacity.Keys <= db.rows.Keys
  {
  }

  /** An admission is refused for its options exactly when one of them is out of its range. */
  lemma {:induction false} OptionsRefusedExactlyWhen(db: Db, record: Record, options: Admission)
    ensures Step(db, OpAdmit(record, options)).1 != Refused(InvalidArgument) <==>
      && options.owner.Runtime? && 1 <= |options.owner.text| <= 256
      && 1 <= options.ttl <= 86_400_000
      && (options.capacityLimit.Some? ==> db.kind == JobKind && options.capacityLimit.value >= 1)
      && (options.idempotency.Some? ==>
            && 1 <= |options.idempotency.value.scope| <= 256 && 1 <= |options.idempotency.value.key| <= 256
            && |options.idempotency.value.requestHash| == 64
            && forall c | c in options.idempotency.value.requestHash ::
                 '0' <= c <= '9' || 'a' <= c <= 'f' || 'A' <= c <= 'F')
  {
    hide Numbered, InsertNew, Remember, Claim, TryAcquire;
    if options.idempotency.Some? {
      var hash := options.idempotency.value.requestHash;
      assert forall i | 0 <= i < |hash| :: hash[i] in hash;
    }
    assert Enroll(db, record, options).Err? ==> Enroll(db, record, options).error != InvalidArgument by {
      EnrollRefusals(db, record, options);
    }
  }

  lemma {:induction false} EnrollRefusals(db: Db, record: Record, options: Admission)
    ensures Enroll(db, record, options).Err? ==>
      Enroll(db, record, options).error in {MalformedEvents, AlreadyExists, LeaseLost}
  {
    hide InsertEvents, Purge, UpsertCapacity, FirstWaiting, AcquiredIds, Grant, MoveCapacity;
  }

  /**
   * A pool admission with valid options and members, each on its own route, replays or refuses like
   * any other admission, and otherwise creates the chosen member's record.
   */
  lemma {:induction false} PoolAdmitsExactlyWhen(
      db: Db, key: string, members: seq<(string, Record)>, options: Admission)
    requires ValidDb(db) && db.kind == JobKind && ValidAdmission(db.kind, options) && ValidPool(key, Names(members))
    requires forall i | 0 <= i < |members| ::
      Numbered(members[i].1.events) && members[i].1.body.JobBody? && members[i].1.body.route == members[i].0
    ensures var reply := Step(db, OpAdmitRoutePool(key, members, options)).1;
      var selected := ChosenMember(db, key, Names(members), options.now);
      var idempotency := options.idempotency;
      && 0 <= selected < |members|
      && if idempotency.Some? && (idempotency.value.scope, idempotency.value.key) in db.idempotency then
           var row := db.idempotency[(idempotency.value.scope, idempotency.value.key)];
           reply ==
             if row.requestHash == idempotency.value.requestHash then AdmissionReply(Replayed(row.recordId))
             else Refused(IdempotencyConflict)
         else
           reply ==
             if members[selected].1.id in db.rows then Refused(AlreadyExists)
             else AdmissionReply(Created(Lease(members[selected].1.id, options.owner, 1)))
  {
    hide ValidDb, ValidAdmission, InsertEvents, Claim, TryAcquire, ActiveIds, Choose;
    var selected := ChosenMember(db, key, Names(members), options.now);
    ChoosesFirstLeastActive(ActiveCounts(db, Names(members), options.now), Cursor(db, key) % |members|);
    var record := MemberRecords(members)[selected];
    assert record == members[selected].1 && Names(members)[selected] == members[selected].0;
    var known := options.idempotency.Some?
      && (options.idempotency.value.scope, options.idempotency.value.key) in db.idempotency;
    if record.id !in db.rows && !known {
      FirstClaim(db, record, options);
      EnrollEffect(db, record, options);
      FreshInQueue(db, record.id);
    }
  }

  /** The load of a pool member: the Jobs on its route whose lease has not expired. */
  lemma {:induction false} LoadIsUnexpired(db: Db, candidates: seq<string>, now: Time, i: nat)
    requires i < |candidates|
    ensures |ActiveCounts(db, candidates, now)| == |candidates|
    ensures ActiveCounts(db, candidates, now)[i] ==
      |set id | id in db.rows && id in db.leases && db.leases[id].expiresAt > now
         && db.rows[id].record.body.JobBody? && db.rows[id].record.body.route == candidates[i]|
  {
    assert ActiveIds(db, candidates[i], now) ==
      set id | id in db.rows && id in db.leases && db.leases[id].expiresAt > now
        && db.rows[id].record.body.JobBody? && db.rows[id].record.body.route == candidates[i];
  }
}
