/**
 * One process's coordinator over the shared store: it remembers the leases this process holds,
 * presents them to saves, polls for capacity, renews on every heartbeat, and releases at the end.
 * Between two of its steps any other process may call the store.
 */
module DurableExecution {
  import opened Prelude
  import opened Records
  import Store = DurableStore
  import Inv = StoreInvariant
  import Heartbeat = StoreHeartbeat
  import opened DurableRecordStore

  datatype ConfigurationError = InvalidLeaseTimes | InvalidCapacityLimit | InvalidPollInterval

  datatype Settings = Settings(leaseTtlMs: int, leaseHeartbeatMs: int, capacityLimit: Option<int>, capacityPollMs: int)

  predicate ValidSettings(settings: Settings) {
    && settings.leaseHeartbeatMs >= 1 && settings.leaseTtlMs > settings.leaseHeartbeatMs * 2
    && (settings.capacityLimit.Some? ==> settings.capacityLimit.value >= 1)
    && 1 <= settings.capacityPollMs <= 60_000
  }

  /** How a wait for capacity ends. */
  datatype Waited = NotLimited | Acquired | NoLease | Aborted | StoreFailed(error: Store.StoreError) | ReportFailed

  /** What a heartbeat does to the lease; `BeatFailed` and `LostLease` abort the execution. */
  datatype Beat = Stopped | Renewed | LostLease | BeatFailed

  /** What a heartbeat found: a cancellation request to hand on, and how the renewal went. */
  datatype Ticked = Ticked(cancellation: Option<Store.Cancellation>, beat: Beat)

  /** Any number of calls by other processes: admissions, saves, leases, capacity and cancellations. */
  method Elapse(store: SqliteRecordStore)
    requires store.Valid()
    modifies store
    ensures store.Valid() && Inv.Later(old(store.Contents()), store.Contents())
  {
    hide Inv.ValidDb, Inv.Later, Store.ClaimLease, Store.TryAcquireCapacity, Store.RequestCancellation,
        Store.RenewLease, Store.ReleaseCapacity;
    var calls: nat :| true;
    Inv.LaterReflexive(store.Contents());
    for i: nat := 0 to calls
      invariant store.Valid() && Inv.Later(old(store.Contents()), store.Contents())
    {
      ghost var before := store.Contents();
      ghost var op := OneCall(store);
      Inv.LaterTransitive(old(store.Contents()), before, store.Contents());
    }
  }

  /** One call by another process, whatever its arguments. */
  method OneCall(store: SqliteRecordStore) returns (ghost op: Store.Op)
    requires store.Valid()
    modifies store
    ensures store.Valid() && store.Contents() == Store.Step(old(store.Contents()), op).0
    ensures Inv.Later(old(store.Contents()), store.Contents())
  {
    hide Inv.ValidDb, Inv.Later, Store.Step;
    ghost var before := store.Contents();
    if * {
      op := LeaseCall(store);
    } else {
      op := RecordCall(store);
    }
    Inv.StepKeeps(before, op);
  }

  method LeaseCall(store: SqliteRecordStore) returns (ghost op: Store.Op)
    requires store.Valid()
    modifies store
    ensures store.Valid() && store.Contents() == Store.Step(old(store.Contents()), op).0
  {
    hide Inv.ValidDb, Store.ClaimLease, Store.TryAcquireCapacity, Store.RenewLease, Store.ReleaseCapacity,
        Store.ReleaseLease;
    var id: Id, owner: Owner, number: int, now: Time, lease: Lease := *, *, *, *, *;
    if * {
      op := Store.OpClaim(id, owner, number, now);
      var outcome := store.ClaimLease(id, owner, number, now);
    } else if * {
      op := Store.OpRenew(lease, number, now);
      var outcome := store.RenewLease(lease, number, now);
    } else if * {
      op := Store.OpReleaseLease(lease);
      var outcome := store.ReleaseLease(lease);
    } else if * {
      op := Store.OpTryAcquire(lease, number, now);
      var outcome := store.TryAcquireCapacity(lease, number, now);
    } else {
      op := Store.OpReleaseCapacity(lease);
      var outcome := store.ReleaseCapacity(lease);
    }
  }

  method RecordCall(store: SqliteRecordStore) returns (ghost op: Store.Op)
    requires store.Valid()
    modifies store
    ensures store.Valid() && store.Contents() == Store.Step(old(store.Contents()), op).0
  {
    hide Inv.ValidDb, Store.Save, Store.Admit, Store.RequestCancellation;
    var id: Id, record: Record, now: Time := *, *, *;
    if * {
      var source: string := *;
      op := Store.OpCancel(id, source, now);
      var outcome := store.RequestCancellation(id, source, now);
    } else if * {
      var options: Store.Admission := *;
      op := Store.OpAdmit(record, options);
      var outcome := store.Admit(record, options);
    } else {
      var revision: Option<nat>, presented: Option<Lease> := *, *;
      op := Store.OpSave(record, revision, presented, now);
      var outcome := store.Save(record, revision, presented, now);
    }
  }

  class DurableExecutionCoordinator {
    const store: SqliteRecordStore
    const settings: Settings
    var leases: map<Id, Lease>

    /** Each lease is filed under its own record and belongs to a process. */
    ghost predicate Valid()
      reads this, store
    {
      && store.Valid() && ValidSettings(settings)
      && forall id | id in leases :: leases[id].recordId == id && leases[id].owner.Runtime?
    }

    constructor (store: SqliteRecordStore, settings: Settings)
      requires store.Valid() && ValidSettings(settings)
      ensures Valid() && this.store == store && this.settings == settings && leases == map[]
    {
      this.store, this.settings, leases := store, settings, map[];
    }

    /** The checks of the source's constructor, in its order. */
    static method Open(store: SqliteRecordStore, settings: Settings)
      returns (r: Result<DurableExecutionCoordinator, ConfigurationError>)
      requires store.Valid()
      ensures r.Ok? <==> ValidSettings(settings)
      ensures r.Ok? ==> fresh(r.value) && r.value.Valid() && r.value.store == store && r.value.leases == map[]
    {
      if settings.leaseHeartbeatMs < 1 || settings.leaseTtlMs <= settings.leaseHeartbeatMs * 2 {
        return Err(InvalidLeaseTimes);
      }
      if settings.capacityLimit.Some? && settings.capacityLimit.value < 1 {
        return Err(InvalidCapacityLimit);
      }
      if settings.capacityPollMs < 1 || settings.capacityPollMs > 60_000 {
        return Err(InvalidPollInterval);
      }
      var coordinator := new DurableExecutionCoordinator(store, settings);
      return Ok(coordinator);
    }

    function Filed(id: Id): Option<Lease>
      reads this`leases
    {
      if id in leases then Some(leases[id]) else None
    }

    /** Presents the lease held for the record, if any. */
    method Save(record: Record, revision: Option<nat>, now: Time) returns (outcome: Result<nat, Store.StoreError>)
      requires Valid()
      modifies store
      ensures Valid()
      ensures match Store.Save(old(store.Contents()), record, revision, Filed(record.id), now)
              case Ok(after) => outcome == Ok(revision.value + 1) && store.Contents() == after
              case Err(error) => outcome == Err(error) && store.Contents() == old(store.Contents())
    {
      hide Store.Save, Inv.ValidDb;
      outcome := store.Save(record, revision, Filed(record.id), now);
    }

    /** What an admission adds to its caller's options: this process's ttl and capacity limit. */
    function OwnOptions(owner: Owner, idempotency: Option<Store.Idempotency>, now: Time): Store.Admission {
      Store.Admission(owner, settings.leaseTtlMs, settings.capacityLimit, now, idempotency)
    }

    /** A first admission files the new record's lease; a replay files none. */
    method Admit(record: Record, owner: Owner, idempotency: Option<Store.Idempotency>, now: Time)
      returns (outcome: Result<Store.Admitted, Store.StoreError>)
      requires Valid()
      modifies this`leases, store
      ensures Valid()
      ensures match Store.Admit(old(store.Contents()), record, OwnOptions(owner, idempotency, now))
              case Ok((after, admitted)) =>
                && outcome == Ok(admitted) && store.Contents() == after
                && leases == (if admitted.Created? then old(leases)[record.id := admitted.lease] else old(leases))
              case Err(error) =>
                  outcome == Err(error) && store.Contents() == old(store.Contents()) && leases == old(leases)
      ensures outcome.Ok? && outcome.value.Created? && record.id !in old(store.leases) ==>
        Heartbeat.Held(store.Contents(), leases[record.id], now + settings.leaseTtlMs)
    {
      hide Inv.ValidDb, Store.Enroll, Numbered;
      outcome := store.Admit(record, OwnOptions(owner, idempotency, now));
      if outcome.Ok? && outcome.value.Created? {
        Inv.EnrollEffect(old(store.Contents()), record, OwnOptions(owner, idempotency, now));
        leases := leases[record.id := outcome.value.lease];
      }
    }

    method Claim(id: Id, owner: Owner, now: Time) returns (outcome: Result<Option<Lease>, Store.StoreError>)
      requires Valid()
      modifies this`leases, store
      ensures Valid()
      ensures match Store.ClaimLease(old(store.Contents()), id, owner, settings.leaseTtlMs, now)
              case Ok((after, lease)) =>
                && outcome == Ok(lease) && store.Contents() == after
                && leases == (if lease.Some? then old(leases)[id := lease.value] else old(leases))
              case Err(error) =>
                  outcome == Err(error) && store.Contents() == old(store.Contents()) && leases == old(leases)
    {
      hide Inv.ValidDb, Store.ClaimRow, Store.MoveCapacity;
      outcome := store.ClaimLease(id, owner, settings.leaseTtlMs, now);
      if outcome.Ok? && outcome.value.Some? {
        leases := leases[id := outcome.value.value];
      }
    }

    /** What the store answers a poll that finds it as `db`. */
    ghost function Answer(db: Store.Db, id: Id, now: Time): Result<bool, Store.StoreError>
      requires id in leases && settings.capacityLimit.Some?
      reads this
    {
      match Store.TryAcquireCapacity(db, leases[id], settings.capacityLimit.value, now)
      case Ok(answer) => Ok(answer.1)
      case Err(error) => Err(error)
    }

    /**
     * `waitForCapacity`: polls until the store grants a slot; the caller aborts after `polls` polls.
     * When it returns Acquired, the record's row is acquired under this process's lease. That it waits
     * is reported once at most, and only after a poll found no free slot. `found` are the stores that
     * the polls found; the wait goes on exactly while they answer no, and ends as the last one answers.
     */
    method WaitForCapacity(id: Id, clock: nat -> Time, polls: nat, reportFails: bool)
      returns (waited: Waited, reports: nat, ghost found: seq<Store.Db>)
      requires Valid()
      modifies store
      ensures Valid() && Inv.Later(old(store.Contents()), store.Contents())
      ensures waited == NotLimited <==> settings.capacityLimit == None
      ensures waited == NoLease <==> settings.capacityLimit.Some? && id !in leases
      ensures waited in {NotLimited, NoLease} ==> found == []
      ensures |found| <= polls && (found != [] ==> found[0] == old(store.Contents()))
      ensures reports <= 1 && (waited == ReportFailed ==> reports == 1)
        && (waited in {NotLimited, NoLease} ==> reports == 0)
      ensures waited == Acquired ==> id in leases && Heartbeat.HoldsSlot(store.Contents(), leases[id])
      ensures settings.capacityLimit.Some? && id in leases ==>
        && (forall i: nat | i < |found| - 1 :: Answer(found[i], id, clock(i)) == Ok(false))
        && (reports == 1 <==> found != [] && Answer(found[0], id, clock(0)) == Ok(false))
        && (polls > 0 ==>
              && found != []
              && waited ==
                   match Answer(found[|found| - 1], id, clock(|found| - 1))
                   case Ok(granted) => if granted then Acquired else if reportFails then ReportFailed else Aborted
                   case Err(error) => StoreFailed(error))
        && (polls == 0 ==> waited == Aborted)
        && (waited == Aborted ==> |found| == polls)
        && (waited == ReportFailed ==> |found| == 1)
    {
      hide Inv.ValidDb, Inv.Later, Store.TryAcquireCapacity, Heartbeat.HoldsSlot, Answer;
      Inv.LaterReflexive(store.Contents());
      found := [];
      if settings.capacityLimit == None {
        return NotLimited, 0, [];
      }
      if id !in leases {
        return NoLease, 0, [];
      }
      reports := 0;
      for poll := 0 to polls
        invariant reports == if poll == 0 then 0 else 1
        invariant Valid() && Inv.Later(old(store.Contents()), store.Contents())
        invariant |found| == poll && (poll == 0 ==> store.Contents() == old(store.Contents()))
        invariant poll > 0 ==> !reportFails && found[0] == old(store.Contents())
        invariant forall i: nat | i < poll :: Answer(found[i], id, clock(i)) == Ok(false)
      {
        ghost var before := store.Contents();
        found := found + [before];
        var status := Poll(id, clock(poll));
        Inv.LaterTransitive(old(store.Contents()), before, store.Contents());
        if status.Err? {
          return StoreFailed(status.error), reports, found;
        }
        if status.value {
          return Acquired, reports, found;
        }
        if reports == 0 {
          reports := 1;
          if reportFails {
            return ReportFailed, reports, found;
          }
        }
        ghost var waiting := store.Contents();
        Elapse(store);
        Inv.LaterTransitive(old(store.Contents()), waiting, store.Contents());
      }
      return Aborted, reports, found;
    }

    /** One poll for a slot. */
    method Poll(id: Id, now: Time) returns (status: Result<bool, Store.StoreError>)
      requires Valid() && id in leases && settings.capacityLimit.Some?
      modifies store
      ensures Valid() && Inv.Later(old(store.Contents()), store.Contents())
      ensures status == Answer(old(store.Contents()), id, now)
      ensures status == Ok(true) ==> Heartbeat.HoldsSlot(store.Contents(), leases[id])
    {
      hide Inv.ValidDb, Inv.Later, Store.TryAcquire;
      ghost var before := store.Contents();
      status := store.TryAcquireCapacity(leases[id], settings.capacityLimit.value, now);
      Inv.StepKeeps(before, Store.OpTryAcquire(leases[id], settings.capacityLimit.value, now));
      if status == Ok(true) {
        GrantedSlot(before, leases[id], settings.capacityLimit.value, now);
      }
    }

    static lemma {:induction false} GrantedSlot(db: Store.Db, lease: Lease, limit: int, now: Time)
      requires Store.TryAcquire(db, lease, limit, now).Ok? && Store.TryAcquire(db, lease, limit, now).value.1
      ensures Heartbeat.HoldsSlot(Store.TryAcquire(db, lease, limit, now).value.0, lease)
    {
    }

    /**
     * One tick of `monitor`: a cancellation request is handed on, and unless its handler throws
     * (`handlerFails`) the lease is renewed. Others may use the store between the look-up and the
     * renewal; `seen` is the store that the renewal finds. After a renewal the lease is held for
     * another `leaseTtlMs`, more than two heartbeats; if it was no longer current, the execution is told.
     */
    method Tick(id: Id, now: Time, handlerFails: bool) returns (ticked: Ticked, ghost seen: Store.Db)
      requires Valid()
      modifies store
      ensures Valid() && Inv.Later(old(store.Contents()), seen)
      ensures ticked.beat == Stopped <==> id !in leases
      ensures ticked.cancellation ==
        if id in leases && id in old(store.cancellations) then Some(old(store.cancellations)[id]) else None
      ensures ticked.beat == Renewed <==>
        && id in leases && !(handlerFails && ticked.cancellation.Some?)
        && Store.LeaseCurrent(seen, id, leases[id].owner, leases[id].fence, now) && IsTtl(settings.leaseTtlMs)
      ensures ticked.beat == Renewed ==>
        && Heartbeat.Held(store.Contents(), leases[id], now + settings.leaseTtlMs)
        && store.Contents() == seen.(leases := store.leases)
      ensures ticked.beat == LostLease ==> !Store.LeaseCurrent(seen, id, leases[id].owner, leases[id].fence, now)
      ensures ticked.beat != Renewed ==> store.Contents() == seen
      ensures ticked.beat == Stopped ==> seen == old(store.Contents())
    {
      hide Inv.ValidDb, Inv.Later;
      seen := store.Contents();
      Inv.LaterReflexive(seen);
      if id !in leases {
        return Ticked(None, Stopped), seen;
      }
      var cancellation := if id in store.cancellations then Some(store.cancellations[id]) else None;
      Elapse(store);
      seen := store.Contents();
      if cancellation.Some? && handlerFails {
        return Ticked(cancellation, BeatFailed), seen;
      }
      var renewed := store.RenewLease(leases[id], settings.leaseTtlMs, now);
      if renewed.Err? {
        return Ticked(cancellation, BeatFailed), seen;
      }
      return Ticked(cancellation, if renewed.value then Renewed else LostLease), seen;
    }

    /**
     * `release`: the slot goes first, then the lease, also when giving up the slot throws; the lease is
     * forgotten whatever happens. `slotFails` and `leaseFails` are errors of the two store calls; a
     * store of another kind refuses the first one by itself.
     */
    method Release(id: Id, slotFails: bool, leaseFails: bool) returns (ok: bool)
      requires Valid()
      modifies this`leases, store
      ensures Valid() && leases == old(leases) - {id}
      ensures id !in old(leases) ==> ok && store.Contents() == old(store.Contents())
      ensures id in old(leases) ==>
        && (ok <==> !leaseFails && (settings.capacityLimit.Some? ==> !slotFails && store.kind == JobKind))
        && (!leaseFails ==> !Store.LeaseMatches(store.Contents(), old(leases)[id]))
        && (!slotFails && store.kind == JobKind && settings.capacityLimit.Some? ==>
              !Store.HoldsCapacityRow(store.Contents(), old(leases)[id]))
      ensures store.leases - {id} == old(store.leases) - {id} && store.capacity - {id} == old(store.capacity) - {id}
      ensures store.Contents() == old(store.Contents()).(leases := store.leases, capacity := store.capacity)
    {
      hide Inv.ValidDb;
      ok := true;
      if id in leases {
        var lease := leases[id];
        if settings.capacityLimit.Some? {
          if slotFails {
            ok := false;
          } else {
            var returned := store.ReleaseCapacity(lease);
            ok := returned.Ok?;
          }
        }
        if leaseFails {
          ok := false;
        } else {
          var released := store.ReleaseLease(lease);
        }
      }
      leases := leases - {id};
    }
  }
}
