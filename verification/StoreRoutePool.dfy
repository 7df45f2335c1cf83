/**
 * Route pools: the durable admission balances the pool by the rotating least-active rule, and the
 * in-memory reservation follows the same rule.
 */
module StoreRoutePool {
  import opened Records
  import opened DurableStore
  import opened StoreInvariant
  import opened RoutePool

  // ---- The durable admission -----------------------------------------------

  predicate OnRoute(record: Record, route: string) {
    record.body.JobBody? && record.body.route == route
  }

  lemma {:induction false} EnrollAddsActive(db: Db, record: Record, options: Admission, route: string)
    requires ValidDb(db) && IsTtl(options.ttl) && Enroll(db, record, options).Ok?
    ensures var after := Enroll(db, record, options).value.0;
      ActiveIds(after, route, options.now)
        == ActiveIds(db, route, options.now) + (if OnRoute(record, route) then {record.id} else {})
    ensures record.id !in ActiveIds(db, route, options.now)
  {
    assert LeasesValid(db.rows, db.leases);
    hide Enroll, ValidDb, InsertEvents;
    EnrollEffect(db, record, options);
  }

  lemma {:induction false} EnrollCounts(
      db: Db, record: Record, options: Admission, candidates: seq<string>, selected: nat)
    requires ValidDb(db) && ValidAdmission(db.kind, options) && Enroll(db, record, options).Ok?
    requires selected < |candidates| && OnRoute(record, candidates[selected])
    requires forall i, j | 0 <= i < j < |candidates| :: candidates[i] != candidates[j]
    ensures var before := ActiveCounts(db, candidates, options.now);
      ActiveCounts(Enroll(db, record, options).value.0, candidates, options.now)
        == before[selected := before[selected] + 1]
  {
    hide Enroll, ValidDb, ActiveIds;
    var before := ActiveCounts(db, candidates, options.now);
    var after := ActiveCounts(Enroll(db, record, options).value.0, candidates, options.now);
    forall i | 0 <= i < |candidates|
      ensures after[i] == before[selected := before[selected] + 1][i]
    {
      EnrollAddsActive(db, record, options, candidates[i]);
      assert OnRoute(record, candidates[i]) <==> i == selected;
    }
  }

  predicate CreatedBy(db: Db, op: Op) {
    op.OpAdmitRoutePool? && Step(db, op).1.AdmissionReply? && Step(db, op).1.outcome.Created?
  }

  /** The load and the cursor that a pool admission finds. */
  function LoadOf(db: Db, op: Op, now: Time): seq<nat>
    requires op.OpAdmitRoutePool?
  {
    ActiveCounts(db, Names(op.members), now)
  }

  function CursorOf(db: Db, op: Op): nat
    requires op.OpAdmitRoutePool? && op.members != []
  {
    Cursor(db, op.key) % |op.members|
  }

  lemma {:induction false} CursorMoved(db: Db, after: Db, op: Op, selected: nat)
    requires op.OpAdmitRoutePool? && op.members != []
    requires after.cursors == db.cursors[op.key := (selected + 1) % |op.members|]
    ensures CursorOf(after, op) == (selected + 1) % |op.members|
  {
    var n := |op.members|;
    assert ((selected + 1) % n) % n == (selected + 1) % n;
  }

  lemma {:induction false} LoadMoved(db: Db, enrolled: Db, after: Db, op: Op, selected: nat)
    requires ValidDb(db) && op.OpAdmitRoutePool? && selected < |op.members|
    requires ValidAdmission(db.kind, op.poolOptions) && ValidPool(op.key, Names(op.members))
    requires OnRoute(MemberRecords(op.members)[selected], op.members[selected].0)
    requires Enroll(db, MemberRecords(op.members)[selected], op.poolOptions).Ok?
    requires Enroll(db, MemberRecords(op.members)[selected], op.poolOptions).value.0 == enrolled
    requires after.rows == enrolled.rows && after.leases == enrolled.leases
    ensures var load := LoadOf(db, op, op.poolOptions.now);
      && |load| == |op.members|
      && LoadOf(after, op, op.poolOptions.now) == load[selected := load[selected] + 1]
  {
    hide ValidDb, Enroll, ValidAdmission, ActiveCounts;
    CountsLength(db, Names(op.members), op.poolOptions.now);
    EnrollCounts(db, MemberRecords(op.members)[selected], op.poolOptions, Names(op.members), selected);
    SameCounts(enrolled, after, Names(op.members), op.poolOptions.now);
  }

  /**
   * A pool admission that creates a record gives it to the first least-active member from the
   * cursor, adds exactly one active record to that member, and moves the cursor just past it.
   */
  lemma {:induction false} PoolAdmissionTakesFirstLeastActive(db: Db, op: Op)
    requires ValidDb(db) && CreatedBy(db, op)
    ensures op.OpAdmitRoutePool? && op.members != []
    ensures var (load, cursor, after) := (LoadOf(db, op, op.poolOptions.now), CursorOf(db, op), Step(db, op).0);
      && 0 <= Choose(load, cursor) < |op.members|
      && Step(db, op).1.outcome.lease.recordId == op.members[Choose(load, cursor)].1.id
      && OnRoute(op.members[Choose(load, cursor)].1, op.members[Choose(load, cursor)].0)
      && LoadOf(after, op, op.poolOptions.now) == Loaded(load, cursor)
      && CursorOf(after, op) == Advanced(load, cursor)
  {
    PoolAdmissionEnrolls(db, op);
    hide ValidDb, Step, Enroll, ValidAdmission, ValidPool, LoadOf, CursorOf, Choose, CreatedBy;
    var selected := Choose(LoadOf(db, op, op.poolOptions.now), CursorOf(db, op));
    var enrolled := Enroll(db, MemberRecords(op.members)[selected], op.poolOptions).value.0;
    LoadMoved(db, enrolled, Step(db, op).0, op, selected);
    EnrollEffect(db, MemberRecords(op.members)[selected], op.poolOptions);
    CursorMoved(db, Step(db, op).0, op, selected);
  }

  /** The shape of a creating pool admission: the chosen member's record is enrolled, the cursor moved. */
  lemma {:induction false} PoolAdmissionEnrolls(db: Db, op: Op)
    requires CreatedBy(db, op)
    ensures op.OpAdmitRoutePool? && op.members != [] && ValidAdmission(db.kind, op.poolOptions)
      && ValidPool(op.key, Names(op.members))
    ensures var selected := Choose(LoadOf(db, op, op.poolOptions.now), CursorOf(db, op));
      && 0 <= selected < |op.members|
      && OnRoute(MemberRecords(op.members)[selected], op.members[selected].0)
      && Enroll(db, MemberRecords(op.members)[selected], op.poolOptions).Ok?
      && var enrolled := Enroll(db, MemberRecords(op.members)[selected], op.poolOptions).value.0;
      && Step(db, op).0 == enrolled.(cursors := enrolled.cursors[op.key := (selected + 1) % |op.members|])
      && Step(db, op).1.outcome.lease.recordId == op.members[selected].1.id
  {
    hide ActiveIds, Choose, Enroll, FindReplay, ActiveCounts;
    var candidates, records := Names(op.members), MemberRecords(op.members);
    var selected := ChosenMember(db, op.key, candidates, op.poolOptions.now);
    assert Enroll(db, records[selected], op.poolOptions).Ok?;
    EnrollEffect(db, records[selected], op.poolOptions);
  }

  lemma {:induction false} CountsLength(db: Db, candidates: seq<string>, now: Time)
    ensures |ActiveCounts(db, candidates, now)| == |candidates|
  {
  }

  lemma {:induction false} SameCounts(a: Db, b: Db, candidates: seq<string>, now: Time)
    requires a.rows == b.rows && a.leases == b.leases
    ensures ActiveCounts(a, candidates, now) == ActiveCounts(b, candidates, now)
  {
    assert forall i | 0 <= i < |candidates| :: ActiveIds(a, candidates[i], now) == ActiveIds(b, candidates[i], now);
  }

  // ---- Rounds among other calls --------------------------------------------

  /** The record runs on no member of the pool. */
  predicate OffPool(record: Record, names: seq<string>) {
    forall i | 0 <= i < |names| :: !OnRoute(record, names[i])
  }

  predicate SameRoute(before: Record, after: Record) {
    before.body.JobBody? == after.body.JobBody? && (before.body.JobBody? ==> before.body.route == after.body.route)
  }

  /** A live lease of the record is renewed or defended at `now`, or the record is not in the pool. */
  predicate ClaimAside(db: Db, id: Id, names: seq<string>, claimedAt: Time, now: Time) {
    id in db.rows ==>
      OffPool(db.rows[id].record, names) || (claimedAt == now && id in db.leases && db.leases[id].expiresAt > now)
  }

  /**
   * A call made at `now` that neither brings a record into the pool nor takes one out: renewals, saves
   * that keep the route, capacity and cancellation calls, and calls for records of other routes.
   */
  predicate Untouched(db: Db, op: Op, key: string, names: seq<string>, now: Time) {
    match op
    case OpRenew(_, _, renewedAt) => renewedAt == now
    case OpSave(record, _, _, _) => record.id in db.rows ==> SameRoute(db.rows[record.id].record, record)
    case OpReleaseLease(lease) => lease.recordId in db.rows ==> OffPool(db.rows[lease.recordId].record, names)
    case OpClaim(id, _, _, claimedAt) => ClaimAside(db, id, names, claimedAt, now)
    case OpAdmit(record, options) => Step(db, op).0 == db || (OffPool(record, names) && options.now == now)
    case OpAdmitRoutePool(other, members, options) =>
      Step(db, op).0 == db
      || (other != key && options.now == now && forall i | 0 <= i < |members| :: OffPool(members[i].1, names))
    case _ => true
  }

  lemma {:induction false} EnrollUntouched(db: Db, record: Record, options: Admission, names: seq<string>, i: nat)
    requires ValidDb(db) && ValidAdmission(db.kind, options) && Enroll(db, record, options).Ok?
    requires OffPool(record, names) && i < |names|
    ensures ActiveIds(Enroll(db, record, options).value.0, names[i], options.now)
      == ActiveIds(db, names[i], options.now)
  {
    hide ValidDb, Enroll, ActiveIds, OnRoute;
    EnrollAddsActive(db, record, options, names[i]);
  }

  lemma {:induction false} AdmissionUntouched(db: Db, op: Op, key: string, names: seq<string>, now: Time, i: nat)
    requires ValidDb(db) && (op.OpAdmit? || op.OpAdmitRoutePool?) && i < |names| && Untouched(db, op, key, names, now)
    ensures ActiveIds(Step(db, op).0, names[i], now) == ActiveIds(db, names[i], now)
    ensures Cursor(Step(db, op).0, key) == Cursor(db, key)
  {
    hide ValidDb, Enroll, FindReplay, ChosenMember, OffPool;
    if Step(db, op).0 != db {
      match op
      case OpAdmit(record, options) =>
        EnrollUntouched(db, record, options, names, i);
        EnrollEffect(db, record, options);
      case OpAdmitRoutePool(_, members, options) =>
        var record := MemberRecords(members)[ChosenMember(db, op.key, Names(members), options.now)];
        EnrollUntouched(db, record, options, names, i);
        EnrollEffect(db, record, options);
    }
  }

  /** One lease row changes, of a record off the pool or without becoming live or dead. */
  lemma {:induction false} LeaseAside(
      db: Db, leases: map<Id, LeaseRow>, id: Id, row: LeaseRow, names: seq<string>, now: Time, i: nat)
    requires leases == db.leases[id := row] && i < |names|
    requires id in db.rows ==>
      OffPool(db.rows[id].record, names) || (id in db.leases && db.leases[id].expiresAt > now && row.expiresAt > now)
    ensures ActiveIds(db.(leases := leases), names[i], now) == ActiveIds(db, names[i], now)
  {
    assert id in db.rows && OffPool(db.rows[id].record, names) ==> !OnRoute(db.rows[id].record, names[i]);
  }

  lemma {:induction false} ClaimUntouched(db: Db, op: Op, key: string, names: seq<string>, now: Time, i: nat)
    requires i < |names| && op.OpClaim? && Untouched(db, op, key, names, now)
    ensures ActiveIds(Step(db, op).0, names[i], now) == ActiveIds(db, names[i], now)
    ensures Cursor(Step(db, op).0, key) == Cursor(db, key)
  {
    hide MoveCapacity, OffPool, ActiveIds;
    var row := ClaimRow(db.leases, op.claimedId, op.owner, op.claimTtl, op.claimedAt);
    var after := Step(db, op).0;
    if after != db {
      LeaseAside(db, after.leases, op.claimedId, row.value, names, now, i);
      SameActive(db.(leases := after.leases), after, names[i], now);
    }
  }

  lemma {:induction false} RenewUntouched(db: Db, op: Op, key: string, names: seq<string>, now: Time, i: nat)
    requires i < |names| && (op.OpRenew? || op.OpReleaseLease?) && Untouched(db, op, key, names, now)
    ensures ActiveIds(Step(db, op).0, names[i], now) == ActiveIds(db, names[i], now)
    ensures Cursor(Step(db, op).0, key) == Cursor(db, key)
  {
    hide OffPool, ActiveIds;
    var after := Step(db, op).0;
    if after != db {
      var id := if op.OpRenew? then op.renewed.recordId else op.released.recordId;
      LeaseAside(db, after.leases, id, after.leases[id], names, now, i);
      SameActive(db.(leases := after.leases), after, names[i], now);
    }
  }

  lemma {:induction false} WriteUntouched(db: Db, op: Op, key: string, names: seq<string>, now: Time, i: nat)
    requires LeasesValid(db.rows, db.leases) && i < |names| && Untouched(db, op, key, names, now)
    requires op.OpSave? || op.OpCreate?
    ensures ActiveIds(Step(db, op).0, names[i], now) == ActiveIds(db, names[i], now)
    ensures Cursor(Step(db, op).0, key) == Cursor(db, key)
  {
    hide InsertEvents, LeaseCurrent, Numbered, Admit, AdmitRoutePool, Bind, ClaimLease, TryAcquireCapacity,
        RequestCancellation;
  }

  lemma {:induction false} OtherUntouched(db: Db, op: Op, key: string, names: seq<string>, now: Time, i: nat)
    requires db.kind == JobKind && i < |names|
    requires op.OpTryAcquire? || op.OpReleaseCapacity? || op.OpCancel? || op.OpBind?
    ensures ActiveIds(Step(db, op).0, names[i], now) == ActiveIds(db, names[i], now)
    ensures Cursor(Step(db, op).0, key) == Cursor(db, key)
  {
    hide Step, ActiveIds;
    SideCallFrame(db, op);
    SameActive(db, Step(db, op).0, names[i], now);
  }

  lemma {:induction false} CallUntouched(db: Db, op: Op, key: string, names: seq<string>, now: Time, i: nat)
    requires ValidDb(db) && db.kind == JobKind && i < |names| && Untouched(db, op, key, names, now)
    ensures ActiveIds(Step(db, op).0, names[i], now) == ActiveIds(db, names[i], now)
    ensures Cursor(Step(db, op).0, key) == Cursor(db, key)
  {
    hide Untouched, ActiveIds, Step, ValidDb, Cursor;
    if op.OpAdmit? || op.OpAdmitRoutePool? {
      AdmissionUntouched(db, op, key, names, now, i);
    } else if op.OpRenew? || op.OpReleaseLease? {
      RenewUntouched(db, op, key, names, now, i);
    } else if op.OpClaim? {
      ClaimUntouched(db, op, key, names, now, i);
    } else if op.OpSave? || op.OpCreate? {
      LeasesInOrder(db);
      WriteUntouched(db, op, key, names, now, i);
    } else {
      OtherUntouched(db, op, key, names, now, i);
    }
  }

  lemma {:induction false} LeasesInOrder(db: Db)
    requires ValidDb(db)
    ensures LeasesValid(db.rows, db.leases)
  {
  }

  lemma {:induction false} SameActive(a: Db, b: Db, route: string, now: Time)
    requires a.rows == b.rows && a.leases == b.leases
    ensures ActiveIds(a, route, now) == ActiveIds(b, route, now)
  {
  }

  lemma {:induction false} UntouchedKeeps(db: Db, op: Op, key: string, names: seq<string>, now: Time)
    requires ValidDb(db) && db.kind == JobKind && Untouched(db, op, key, names, now)
    ensures ActiveCounts(Step(db, op).0, names, now) == ActiveCounts(db, names, now)
    ensures names != [] ==> Cursor(Step(db, op).0, key) == Cursor(db, key)
  {
    hide Step, Untouched, ActiveIds, Cursor, ValidDb;
    forall i | 0 <= i < |names|
      ensures |ActiveIds(Step(db, op).0, names[i], now)| == |ActiveIds(db, names[i], now)|
    {
      CallUntouched(db, op, key, names, now, i);
    }
    if names != [] {
      CallUntouched(db, op, key, names, now, 0);
    }
  }

  /** The call admits a new record to the pool. */
  predicate Admits(db: Db, op: Op, key: string, names: seq<string>) {
    CreatedBy(db, op) && op.key == key && Names(op.members) == names
  }

  /** How many calls of a run admit to the pool. */
  function Admissions(db: Db, ops: seq<Op>, key: string, names: seq<string>): nat {
    if ops == [] then 0
    else
      var rest := ops[..|ops| - 1];
      Admissions(db, rest, key, names) + if Admits(After(db, rest), ops[|ops| - 1], key, names) then 1 else 0
  }

  /**
   * Call i admits to the pool at its moment or leaves the pool alone, and no member's lease expires
   * up to the next moment.
   */
  predicate SteadyAt(db: Db, ops: seq<Op>, key: string, names: seq<string>, clock: seq<Time>, i: nat)
    requires i < |ops| && |clock| == |ops| + 1
  {
    var before, after := After(db, ops[..i]), After(db, ops[..i + 1]);
    && (if Admits(before, ops[i], key, names) then ops[i].poolOptions.now == clock[i]
        else Untouched(before, ops[i], key, names, clock[i]))
    && ActiveCounts(after, names, clock[i + 1]) == ActiveCounts(after, names, clock[i])
  }

  /** A run in which no record leaves the pool; `clock[i]` is the time at call i. */
  predicate Steady(db: Db, ops: seq<Op>, key: string, names: seq<string>, clock: seq<Time>) {
    |clock| == |ops| + 1 && forall i: nat | i < |ops| :: SteadyAt(db, ops, key, names, clock, i)
  }

  lemma {:induction false} SteadyPrefix(db: Db, ops: seq<Op>, key: string, names: seq<string>, clock: seq<Time>)
    requires ops != [] && Steady(db, ops, key, names, clock)
    ensures Steady(db, ops[..|ops| - 1], key, names, clock[..|ops|])
  {
    hide After, Admits, Untouched, ActiveCounts;
    var rest := ops[..|ops| - 1];
    forall i: nat | i < |rest|
      ensures SteadyAt(db, rest, key, names, clock[..|ops|], i)
    {
      assert SteadyAt(db, ops, key, names, clock, i);
      assert rest[..i] == ops[..i] && rest[..i + 1] == ops[..i + 1];
    }
  }

  /** An admission to the pool takes one turn of the rotation. */
  lemma {:induction false} AdmitsOneTurn(db: Db, op: Op, key: string, names: seq<string>)
    requires ValidDb(db) && Admits(db, op, key, names)
    ensures names != []
    ensures var load, cursor := ActiveCounts(db, names, op.poolOptions.now), Cursor(db, key) % |names|;
      && load != []
      && ActiveCounts(Step(db, op).0, names, op.poolOptions.now) == Loaded(load, cursor)
      && Cursor(Step(db, op).0, key) % |names| == Advanced(load, cursor)
  {
    hide ValidDb, Step, CreatedBy, ActiveCounts, Loaded, Advanced, Cursor;
    PoolAdmissionTakesFirstLeastActive(db, op);
    assert |Names(op.members)| == |op.members|;
    CountsLength(db, names, op.poolOptions.now);
  }

  /** Whatever comes in between, the admissions of a steady run are turns of one rotation. */
  lemma {:induction false} SteadyRounds(db: Db, ops: seq<Op>, key: string, names: seq<string>, clock: seq<Time>)
    requires ValidDb(db) && db.kind == JobKind && names != [] && Steady(db, ops, key, names, clock)
    ensures var load := ActiveCounts(db, names, clock[0]);
      && load != []
      && Rounds(load, Cursor(db, key) % |names|, Admissions(db, ops, key, names))
         == (ActiveCounts(After(db, ops), names, clock[|ops|]), Cursor(After(db, ops), key) % |names|)
    decreases |ops|
  {
    hide Step, ValidDb, Admits, Untouched, ActiveCounts, Loaded, Advanced, Cursor;
    CountsLength(db, names, clock[0]);
    if ops != [] {
      var n := |ops| - 1;
      var before := After(db, ops[..n]);
      SteadyPrefix(db, ops, key, names, clock);
      SteadyRounds(db, ops[..n], key, names, clock[..n + 1]);
      assert SteadyAt(db, ops, key, names, clock, n);
      assert ops[..n + 1] == ops;
      RunInOrder(db, ops[..n]);
      if Admits(before, ops[n], key, names) {
        AdmitsOneTurn(before, ops[n], key, names);
      } else {
        UntouchedKeeps(before, ops[n], key, names, clock[n]);
      }
    }
  }

  lemma {:induction false} RunInOrder(db: Db, ops: seq<Op>)
    requires ValidDb(db)
    ensures ValidDb(After(db, ops)) && After(db, ops).kind == db.kind
  {
    hide ValidDb, After, RowsLater, LeasesLater, Kept;
    RunKeeps(db, ops);
  }

  /**
   * As many admissions as the pool has members, among any other calls that bring no record into the
   * pool and take none out, from an equal load: every member gets exactly one more record, and the
   * cursor is where it started.
   */
  lemma {:induction false} DurableFullRound(
      db: Db, ops: seq<Op>, key: string, names: seq<string>, clock: seq<Time>, level: nat)
    requires ValidDb(db) && db.kind == JobKind && names != [] && Steady(db, ops, key, names, clock)
    requires Admissions(db, ops, key, names) == |names|
    requires forall i | 0 <= i < |names| :: |ActiveIds(db, names[i], clock[0])| == level
    ensures forall i | 0 <= i < |names| :: |ActiveIds(After(db, ops), names[i], clock[|ops|])| == level + 1
    ensures Cursor(After(db, ops), key) % |names| == Cursor(db, key) % |names|
  {
    hide Step, ValidDb, SteadyAt, Rounds, ActiveIds, Admissions, After, Cursor;
    var load, after := ActiveCounts(db, names, clock[0]), ActiveCounts(After(db, ops), names, clock[|ops|]);
    SteadyRounds(db, ops, key, names, clock);
    FullRound(load, level, Cursor(db, key) % |names|);
    forall i | 0 <= i < |names|
      ensures |ActiveIds(After(db, ops), names[i], clock[|ops|])| == level + 1
    {
      assert after[i] == |ActiveIds(After(db, ops), names[i], clock[|ops|])|;
    }
  }

  // ---- The in-memory reservation -------------------------------------------

  /** `#routeActivity` and `#routePoolCursor` of one orchestrator. */
  class RouteActivity {
    var activity: map<string, nat>
    var cursors: map<string, nat>

    constructor ()
      ensures activity == map[] && cursors == map[]
    {
      activity, cursors := map[], map[];
    }

    function Active(route: string): nat
      reads this
    {
      if route in activity then activity[route] else 0
    }

    function Load(routes: seq<string>): seq<nat>
      reads this
    {
      seq(|routes|, i requires 0 <= i < |routes| reads this => Active(routes[i]))
    }

    function PoolCursor(target: string): nat
      reads this
    {
      if target in cursors then cursors[target] else 0
    }

    /** `#reserveRoute` of a pool, with `#trackRoute`: the same choice over the local counts. */
    method Reserve(target: string, routes: seq<string>) returns (selected: nat)
      requires routes != [] && forall i, j | 0 <= i < j < |routes| :: routes[i] != routes[j]
      modifies this
      ensures selected == Choose(old(Load(routes)), old(PoolCursor(target)) % |routes|) && selected < |routes|
      ensures Load(routes) == Loaded(old(Load(routes)), old(PoolCursor(target)))
      ensures PoolCursor(target) == Advanced(old(Load(routes)), old(PoolCursor(target)))
      ensures forall route | route != routes[selected] :: Active(route) == old(Active(route))
    {
      ghost var before := Load(routes);
      var cursor := PoolCursor(target);
      var chosen := ChooseMember(Load(routes), cursor);
      ChoosesFirstLeastActive(before, cursor);
      CursorModuloAgrees(before, cursor);
      selected := chosen;
      cursors := cursors[target := (selected + 1) % |routes|];
      activity := activity[routes[selected] := Active(routes[selected]) + 1];
      assert Load(routes) == Loaded(before, cursor);
    }

    /** The release handle, called once: one record fewer on its route. */
    method Release(route: string)
      modifies this`activity
      ensures Active(route) == if old(Active(route)) <= 1 then 0 else old(Active(route)) - 1
      ensures forall other | other != route :: Active(other) == old(Active(other))
    {
      var active := Active(route);
      if active <= 1 {
        activity := activity - {route};
      } else {
        activity := activity[route := active - 1];
      }
    }
  }
}
