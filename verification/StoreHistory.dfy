/**
 * Event history, optimistic revisions and cancellation over whole runs of the store, for any
 * clock values and any interleaving of callers.
 */
module StoreHistory {
  import opened Prelude
  import opened Records
  import opened DurableStore
  import opened StoreInvariant

  // ---- Reading back --------------------------------------------------------

  lemma {:induction false} LeastIsUnique(numbers: set<int>, n: int)
    requires n in numbers && forall m | m in numbers :: n <= m
    ensures Least(numbers) == n
  {
  }

  /** ORDER BY sequence over the numbers from + 1 .. |events| lists the suffix from `from`. */
  lemma {:induction false} OrderedSuffix(
      table: map<(Id, int), Event>, id: Id, events: seq<Event>, from: nat, numbers: set<int>)
    requires Holds(table, id, events) && from <= |events|
    requires forall n :: n in numbers <==> from < n <= |events|
    requires forall n | n in numbers :: (id, n) in table
    ensures Ordered(table, id, numbers) == events[from..]
    decreases |events| - from
  {
    if from == |events| {
      assert forall n :: n !in numbers;
    } else {
      var n := from + 1;
      LeastIsUnique(numbers, n);
      OrderedSuffix(table, id, events, n, numbers - {n});
      assert events[from..] == [events[from]] + events[n..];
    }
  }

  /** `eventsAfter(id, k)` is the suffix from k of the snapshot's own event list. */
  lemma {:induction false} EventsAfterIsSuffix(db: Db, id: Id, after: nat)
    requires ValidDb(db)
    ensures EventsAfter(db, id, after) ==
      if id in db.rows && after <= |db.rows[id].record.events| then db.rows[id].record.events[after..] else []
  {
    var numbers := NumbersAfter(db.events, id, after);
    if id in db.rows && after <= |db.rows[id].record.events| {
      var events := db.rows[id].record.events;
      assert Holds(db.events, id, events);
      forall n: int | after < n <= |events|
        ensures n in numbers
      {
        assert (id, n) in db.events;
      }
      OrderedSuffix(db.events, id, events, after, numbers);
    } else {
      assert numbers == {};
    }
  }

  /** The projection-mismatch refusal of `#parse` cannot be reached: every stored row reads back. */
  lemma {:induction false} EveryRowReadsBack(kind: RecordKind, ops: seq<Op>, id: Id)
    ensures var db := After(Empty(kind), ops);
      Get(db, id) == Ok(if id in db.rows then Some(db.rows[id].record) else None)
  {
    hide Step;
    EmptyValid(kind);
    RunKeeps(Empty(kind), ops);
  }

  // ---- Optimistic revisions ------------------------------------------------

  predicate Commits(db: Db, ops: seq<Op>, i: nat, id: Id, revision: nat)
    requires i < |ops|
  {
    ops[i].OpSave? && ops[i].saved.id == id && ops[i].revision == Some(revision) && ReplyAt(db, ops, i) == Committed
  }

  lemma {:induction false} CommitRaisesRevision(
      db: Db, record: Record, revision: Option<nat>, lease: Option<Lease>, now: Time)
    requires Save(db, record, revision, lease, now).Ok?
    ensures record.id in db.rows && revision == Some(db.rows[record.id].revision)
    ensures var after := Save(db, record, revision, lease, now).value;
      record.id in after.rows && after.rows[record.id].revision == revision.value + 1
  {
  }

  /** Of all the saves of a run that present one revision of a record, at most one commits. */
  lemma {:induction false} OneCommitPerRevision(db: Db, ops: seq<Op>, i: nat, j: nat, id: Id, revision: nat)
    requires ValidDb(db) && i < j < |ops|
    requires Commits(db, ops, i, id, revision)
    ensures !Commits(db, ops, j, id, revision)
  {
    hide ValidDb, Save;
    NextMoment(db, ops, i);
    MomentsOrdered(db, ops, i + 1, j);
    var before := After(db, ops[..i]);
    CommitRaisesRevision(before, ops[i].saved, ops[i].revision, ops[i].presented, ops[i].savedAt);
    if Commits(db, ops, j, id, revision) {
      CommitRaisesRevision(After(db, ops[..j]), ops[j].saved, ops[j].revision, ops[j].presented, ops[j].savedAt);
    }
  }

  /** A reader's event list is a prefix of what any later reader sees. */
  lemma {:induction false} HistoryOnlyGrows(db: Db, ops: seq<Op>, i: nat, j: nat, id: Id, after: nat)
    requires ValidDb(db) && i <= j <= |ops|
    requires id in After(db, ops[..i]).rows && after <= |After(db, ops[..i]).rows[id].record.events|
    ensures EventsAfter(After(db, ops[..i]), id, after) <= EventsAfter(After(db, ops[..j]), id, after)
  {
    hide Step, After, EventsAfter, ValidDb;
    MomentsOrdered(db, ops, i, j);
    EventsAfterIsSuffix(After(db, ops[..i]), id, after);
    EventsAfterIsSuffix(After(db, ops[..j]), id, after);
    var early := After(db, ops[..i]).rows[id].record.events;
    var late := After(db, ops[..j]).rows[id].record.events;
    assert early <= late;
    assert late[..|early|] == early;
    assert late[after..][..|early| - after] == early[after..];
  }

  // ---- Cancellation --------------------------------------------------------

  /** No moment of a run holds a record that is succeeded and asked to stop. */
  lemma {:induction false} NeverSucceededAndCancelled(kind: RecordKind, ops: seq<Op>, id: Id)
    ensures var db := After(Empty(kind), ops);
      !(id in db.cancellations && id in db.rows && db.rows[id].record.status == Succeeded)
  {
    hide Step;
    EmptyValid(kind);
    RunKeeps(Empty(kind), ops);
  }

  /** An accepted request is what every later look-up and every later request returns. */
  lemma {:induction false} FirstRequestStays(db: Db, ops: seq<Op>, i: nat, j: nat, id: Id)
    requires ValidDb(db) && i < j < |ops|
    requires ops[i].OpCancel? && ops[i].cancelledId == id
    requires ReplyAt(db, ops, i).CancellationReply? && ReplyAt(db, ops, i).request.Some?
    ensures var request := ReplyAt(db, ops, i).request;
      && id in After(db, ops[..j]).cancellations
      && Some(After(db, ops[..j]).cancellations[id]) == request
      && (ops[j].OpCancel? && ops[j].cancelledId == id && ReplyAt(db, ops, j).CancellationReply? ==>
            ReplyAt(db, ops, j).request in {None, request})
  {
    hide ValidDb, RowsLater, LeasesLater;
    NextMoment(db, ops, i);
    MomentsOrdered(db, ops, i + 1, j);
  }

  /** Once a request is accepted, no later save records success. */
  lemma {:induction false} CancelledNeverSucceeds(db: Db, ops: seq<Op>, i: nat, j: nat)
    requires ValidDb(db) && i < j < |ops|
    requires ops[i].OpCancel? && ReplyAt(db, ops, i).CancellationReply? && ReplyAt(db, ops, i).request.Some?
    requires ops[j].OpSave? && ops[j].saved.id == ops[i].cancelledId && ops[j].saved.status == Succeeded
    ensures ReplyAt(db, ops, j).Refused?
  {
    hide ValidDb, RowsLater, LeasesLater;
    NextMoment(db, ops, i);
    MomentsOrdered(db, ops, i + 1, j);
    assert ops[j].saved.id in After(db, ops[..j]).cancellations;
  }
}
