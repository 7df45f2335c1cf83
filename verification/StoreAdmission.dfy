/**
 * Idempotent admission: one record per key, replays that change nothing, and the transactional
 * store as a refinement of the in-memory map.
 */
module StoreAdmission {
  import opened Prelude
  import opened Records
  import opened DurableStore
  import opened StoreInvariant
  import opened StoreFences
  import Mem = MemoryJobStore

  // ---- One record per key --------------------------------------------------

  function KeyOf(op: Op): Option<Idempotency> {
    match op
    case OpAdmit(_, options) => options.idempotency
    case OpAdmitRoutePool(_, _, options) => options.idempotency
    case _ => None
  }

  /** A creating admission remembers its key, for a record that is new and whose lease it returns. */
  lemma {:induction false} CreationRemembers(db: Db, op: Op)
    requires KeyOf(op).Some? && IssuedLease(Step(db, op).1).Some?
    ensures var i := KeyOf(op).value;
      var lease := IssuedLease(Step(db, op).1).value;
      var after := Step(db, op).0;
      && (i.scope, i.key) in after.idempotency
      && after.idempotency[(i.scope, i.key)] == IdempotencyRow(i.requestHash, lease.recordId)
      && lease.recordId !in db.rows && lease.recordId in after.rows && after.rows[lease.recordId].revision == 1
      && LeaseMatches(after, lease)
  {
    hide Enroll, TryAcquire, ChosenMember, FindReplay;
    IssuedIsCurrent(db, op);
    match op
    case OpAdmit(record, options) => EnrollEffect(db, record, options);
    case OpAdmitRoutePool(key, members, options) =>
      var selected := ChosenMember(db, key, Names(members), options.now);
      EnrollEffect(db, MemberRecords(members)[selected], options);
  }

  lemma {:induction false} KnownKey(db: Db, op: Op, row: IdempotencyRow)
    requires KeyOf(op).Some?
    requires (KeyOf(op).value.scope, KeyOf(op).value.key) in db.idempotency
    requires db.idempotency[(KeyOf(op).value.scope, KeyOf(op).value.key)] == row
    ensures Step(db, op).0 == db
    ensures Step(db, op).1.Refused? || Step(db, op).1 == AdmissionReply(Replayed(row.recordId))
    ensures Step(db, op).1.AdmissionReply? ==> KeyOf(op).value.requestHash == row.requestHash
    ensures KeyOf(op).value.requestHash != row.requestHash ==> Step(db, op).1.Refused?
  {
    hide Enroll, ChosenMember;
  }

  /**
   * Once an admission with a key has created a record, every later admission with that key, by any
   * caller and over either admission path, leaves the whole store unchanged; it replays that record
   * if it presents the same request hash, and is refused if it presents another.
   */
  lemma {:induction false} OneRecordPerKey(db: Db, ops: seq<Op>, i: nat, j: nat)
    requires ValidDb(db) && i < j < |ops|
    requires KeyOf(ops[i]).Some? && IssuedLease(ReplyAt(db, ops, i)).Some?
    requires KeyOf(ops[j]).Some?
    requires KeyOf(ops[j]).value.scope == KeyOf(ops[i]).value.scope
      && KeyOf(ops[j]).value.key == KeyOf(ops[i]).value.key
    ensures After(db, ops[..j + 1]) == After(db, ops[..j])
    ensures ReplyAt(db, ops, j).Refused?
      || ReplyAt(db, ops, j) == AdmissionReply(Replayed(IssuedLease(ReplyAt(db, ops, i)).value.recordId))
    ensures KeyOf(ops[j]).value.requestHash != KeyOf(ops[i]).value.requestHash ==> ReplyAt(db, ops, j).Refused?
  {
    hide Step, ValidDb, IssuedLease, KeyOf, RowsLater, LeasesLater;
    CreationRemembers(After(db, ops[..i]), ops[i]);
    NextMoment(db, ops, i);
    NextMoment(db, ops, j);
    MomentsOrdered(db, ops, i + 1, j);
    var first, now := After(db, ops[..i + 1]), After(db, ops[..j]);
    var key := (KeyOf(ops[i]).value.scope, KeyOf(ops[i]).value.key);
    assert key in first.idempotency;
    KnownKey(now, ops[j], now.idempotency[key]);
  }

  // ---- The in-memory map is the specification ------------------------------

  /** `m` is what the in-memory store would hold: same records, same keys. */
  ghost predicate Refines(db: Db, m: Mem.Memory) {
    && (forall id :: id in db.rows <==> id in m.records)
    && (forall id | id in db.rows :: db.rows[id].record == m.records[id])
    && (forall scope, key | (scope, key) in db.idempotency ::
          && NulFree(scope)
          && Mem.Identity(scope, key) in m.idempotency
          && m.idempotency[Mem.Identity(scope, key)]
             == Mem.Entry(db.idempotency[(scope, key)].requestHash, db.idempotency[(scope, key)].recordId))
    && (forall identity | identity in m.idempotency ::
          exists scope, key :: (scope, key) in db.idempotency && Mem.Identity(scope, key) == identity)
  }

  predicate NulFree(s: string) {
    '\0' !in s
  }

  lemma {:induction false} FirstNul(scope: string, key: string)
    requires NulFree(scope)
    ensures Mem.Identity(scope, key)[|scope|] == '\0'
    ensures forall i | 0 <= i < |scope| :: Mem.Identity(scope, key)[i] != '\0'
  {
    assert forall i | 0 <= i < |scope| :: Mem.Identity(scope, key)[i] == scope[i] && scope[i] in scope;
  }

  /** Two keys under scopes without a NUL share an identity only if they are the same key. */
  lemma {:induction false} IdentityInjective(scope: string, key: string, scope': string, key': string)
    requires NulFree(scope) && NulFree(scope') && Mem.Identity(scope, key) == Mem.Identity(scope', key')
    ensures scope == scope' && key == key'
  {
    var a, b := Mem.Identity(scope, key), Mem.Identity(scope', key');
    FirstNul(scope, key);
    FirstNul(scope', key');
    assert |scope| == |scope'|;
    assert a[..|scope|] == scope && b[..|scope'|] == scope';
    assert a[|scope| + 1..] == key && b[|scope'| + 1..] == key';
  }

  /** The outcomes of the two stores, side by side. */
  predicate SameOutcome(
      db: Db, durable: Result<(Db, Admitted), StoreError>, memory: Result<Mem.Creation, Mem.MemoryError>, job: Record) {
    match durable
    case Ok((_, Created(_))) => memory == Ok(Mem.Creation(true, job))
    case Ok((_, Replayed(id))) => id in db.rows && memory == Ok(Mem.Creation(false, db.rows[id].record))
    case Err(IdempotencyConflict) => memory == Err(Mem.IdempotencyConflict)
    case Err(AlreadyExists) => memory == Err(Mem.AlreadyExists)
    case Err(_) => false
  }

  /**
   * A valid keyed admission by a scope without NUL does in the durable store what the in-memory
   * store does, outcome for outcome, and leaves the two in agreement again.
   */
  lemma {:induction false} AdmitRefinesMemory(db: Db, m: Mem.Memory, job: Record, options: Admission)
    requires ValidDb(db) && Refines(db, m)
    requires ValidAdmission(db.kind, options) && Numbered(job.events)
    requires options.idempotency.Some? && NulFree(options.idempotency.value.scope)
    ensures var i := options.idempotency.value;
      var (m', memory) := Mem.CreateOnce(m, i.scope, i.key, i.requestHash, job);
      var durable := Admit(db, job, options);
      && SameOutcome(db, durable, memory, job)
      && Refines(if durable.Ok? then durable.value.0 else db, m')
  {
    hide TryAcquire, InsertEvents, MoveCapacity, Step;
    var i := options.idempotency.value;
    var identity := Mem.Identity(i.scope, i.key);
    assert (i.scope, i.key) in db.idempotency <==> identity in m.idempotency by {
      if identity in m.idempotency {
        var scope, key :| (scope, key) in db.idempotency && Mem.Identity(scope, key) == identity;
        IdentityInjective(scope, key, i.scope, i.key);
      }
    }
    if (i.scope, i.key) !in db.idempotency && job.id !in db.rows {
      FirstClaim(db, job, options);
      RefinedEnroll(db, m, job, options);
    }
  }

  lemma {:induction false} RefinedEnroll(db: Db, m: Mem.Memory, job: Record, options: Admission)
    requires Refines(db, m) && Enroll(db, job, options).Ok?
    requires options.idempotency.Some? && NulFree(options.idempotency.value.scope)
    requires (options.idempotency.value.scope, options.idempotency.value.key) !in db.idempotency
    ensures var i := options.idempotency.value;
      Refines(Enroll(db, job, options).value.0,
              Mem.Memory(m.records[job.id := job],
                         m.idempotency[Mem.Identity(i.scope, i.key) := Mem.Entry(i.requestHash, job.id)]))
  {
    EnrollEffect(db, job, options);
    var after := Enroll(db, job, options).value.0;
    hide Enroll, NulFree, Mem.Identity;
    var i := options.idempotency.value;
    var identity := Mem.Identity(i.scope, i.key);
    var m' := Mem.Memory(m.records[job.id := job], m.idempotency[identity := Mem.Entry(i.requestHash, job.id)]);
    forall scope, key | (scope, key) in after.idempotency
      ensures && NulFree(scope)
              && Mem.Identity(scope, key) in m'.idempotency
              && m'.idempotency[Mem.Identity(scope, key)]
                 == Mem.Entry(after.idempotency[(scope, key)].requestHash, after.idempotency[(scope, key)].recordId)
    {
      if (scope, key) != (i.scope, i.key) {
        assert (scope, key) in db.idempotency;
        if Mem.Identity(scope, key) == identity {
          IdentityInjective(scope, key, i.scope, i.key);
        }
      }
    }
    forall known | known in m'.idempotency
      ensures exists scope, key :: (scope, key) in after.idempotency && Mem.Identity(scope, key) == known
    {
      if known == identity {
        assert (i.scope, i.key) in after.idempotency;
      } else {
        var scope, key :| (scope, key) in db.idempotency && Mem.Identity(scope, key) == known;
        assert (scope, key) in after.idempotency;
      }
    }
  }

  // ---- Where the joined key is ambiguous -----------------------------------

  /** One scope followed by NUL starts the other. */
  predicate Overlap(scope: string, scope': string) {
    scope + "\0" <= scope' || scope' + "\0" <= scope
  }

  /**
   * The joined identity keeps two different scopes apart, for all keys, exactly when neither scope
   * followed by NUL is a prefix of the other. The admission scope in use contains no NUL.
   */
  lemma {:induction false} ScopesApartExactlyWhen(scope: string, scope': string)
    requires scope != scope'
    ensures (forall key, key' :: Mem.Identity(scope, key) != Mem.Identity(scope', key')) <==> !Overlap(scope, scope')
  {
    if scope + "\0" <= scope' {
      CollidingKeys(scope, scope');
    }
    if scope' + "\0" <= scope {
      CollidingKeys(scope', scope);
    }
    forall key, key' | Mem.Identity(scope, key) == Mem.Identity(scope', key')
      ensures Overlap(scope, scope')
    {
      var joined := Mem.Identity(scope, key);
      assert joined[..|scope|] == scope && joined[..|scope'|] == scope';
      if |scope| < |scope'| {
        assert joined[..|scope| + 1] == scope + "\0";
      } else if |scope'| < |scope| {
        assert joined[..|scope'| + 1] == scope' + "\0";
      }
    }
  }

  lemma {:induction false} CollidingKeys(scope: string, scope': string)
    requires scope + "\0" <= scope'
    ensures exists key, key' :: Mem.Identity(scope, key) == Mem.Identity(scope', key')
  {
    var rest := scope'[|scope| + 1..];
    assert scope' == scope + "\0" + rest;
    var key := rest + "\0" + "k";
    assert Mem.Identity(scope, key) == Mem.Identity(scope', "k");
  }
}
