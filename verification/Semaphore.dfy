/**
 * The abort-aware semaphore, updated in place as its callbacks run, proved against `SemaphoreSpec`.
 * A ticket stands for the identity of a waiter object and of the release handle it may receive.
 */
module Semaphore {
  import opened SemaphoreSpec

  /** How `acquire` goes on: it throws, resolves at once, or waits. */
  datatype Acquisition = Thrown | Acquired | Pending

  class Semaphore {
    ghost const capacity: nat
    var available: nat
    var waiters: seq<Entry>
    var issued: nat
    /** The `settled` flags of waiters and the `released` flags (negated) of handles. */
    var finished: set<nat>
    var unreleased: set<nat>
    /** The promises settled so far, as the callers see them. */
    ghost var outcomes: seq<Outcome>

    ghost function Contents(): State
      reads this
    {
      State(available, waiters, unreleased, outcomes, issued)
    }

    /** The flags say which promises are settled. */
    ghost predicate FlagsAgree()
      reads this
    {
      forall t: nat :: t in finished <==> Settled(outcomes, t)
    }

    ghost predicate Valid()
      reads this
    {
      FlagsAgree() && SemaphoreSpec.Valid(Contents(), capacity)
    }

    constructor (capacity: nat)
      ensures Valid() && this.capacity == capacity && Contents() == Start(capacity)
    {
      this.capacity := capacity;
      available, waiters, issued := capacity, [], 0;
      finished, unreleased, outcomes := {}, {}, [];
      new;
      RunKeeps(capacity, []);
    }

    method Acquire(aborted: bool) returns (r: Acquisition)
      requires Valid()
      modifies this
      ensures Valid() && Contents() == SemaphoreSpec.Acquire(old(Contents()), aborted)
      ensures r == if aborted then Thrown else if old(available) > 0 then Acquired else Pending
    {
      hide SemaphoreSpec.Valid, Settled;
      AcquireKeeps(Contents(), aborted, capacity);
      var ticket := issued;
      issued := issued + 1;
      if aborted {
        SettledMore(outcomes, Rejected(ticket));
        finished, outcomes := finished + {ticket}, outcomes + [Rejected(ticket)];
        return Thrown;
      }
      if available > 0 {
        SettledMore(outcomes, Granted(ticket, false));
        available := available - 1;
        finished, unreleased, outcomes := finished + {ticket}, unreleased + {ticket},
            outcomes + [Granted(ticket, false)];
        return Acquired;
      }
      waiters := waiters + [Entry(ticket, false)];
      return Pending;
    }

    /** `#drain`: the head of the queue gets a permit while it is ready and one is free. */
    method Drain()
      requires FlagsAgree() && Ledger(Contents(), capacity)
      modifies this
      ensures Valid() && Contents() == SemaphoreSpec.Drain(old(Contents()))
    {
      hide Ledger, Settled, SemaphoreSpec.Valid;
      ghost var start := Contents();
      DrainKeeps(start, capacity);
      while available > 0
        invariant FlagsAgree() && Ledger(Contents(), capacity)
        invariant SemaphoreSpec.Drain(Contents()) == SemaphoreSpec.Drain(start)
        decreases |waiters|
      {
        if |waiters| == 0 || !waiters[0].ready {
          return;
        }
        GrantKeeps(Contents(), capacity);
        HeadIsUnsettled(Contents(), capacity);
        var ticket := waiters[0].ticket;
        waiters := waiters[1..];
        if ticket !in finished {
          SettledMore(outcomes, Granted(ticket, true));
          finished, available := finished + {ticket}, available - 1;
          unreleased, outcomes := unreleased + {ticket}, outcomes + [Granted(ticket, true)];
        }
      }
    }

    static lemma {:induction false} HeadIsUnsettled(s: State, capacity: nat)
      requires Ledger(s, capacity) && s.queue != []
      ensures !Settled(s.settled, s.queue[0].ticket)
    {
      hide Settled, InOrder, Distinct, Ascending, NoneOvertaken, HeldOk, Queued;
      QueuedAt(s.queue, 0);
    }

    /** A ticket's promise is pending exactly while the ticket is in the queue. */
    static lemma {:induction false} PendingIsQueued(s: State, ticket: nat, capacity: nat)
      requires Ledger(s, capacity) && ticket < s.issued
      ensures Settled(s.settled, ticket) <==> Position(s.queue, ticket) == |s.queue|
    {
      hide Settled, InOrder, Distinct, Ascending, NoneOvertaken, HeldOk;
      if Queued(s.queue, ticket) {
        var i :| 0 <= i < |s.queue| && s.queue[i].ticket == ticket;
      }
    }

    /** `onWaiting` resolved. */
    method OnReady(ticket: nat)
      requires Valid() && ticket < issued
      modifies this
      ensures Valid() && Contents() == MakeReady(old(Contents()), ticket)
    {
      hide Ledger, Settled;
      PendingIsQueued(Contents(), ticket, capacity);
      if ticket in finished {
        return;
      }
      var i := Position(waiters, ticket);
      MarkedLedger(Contents(), i, capacity);
      waiters := waiters[i := Entry(ticket, true)];
      Drain();
    }

    /** An abort while waiting, or a failed `onWaiting`: the waiter leaves the queue. */
    method OnRejected(ticket: nat)
      requires Valid() && ticket < issued
      modifies this
      ensures Valid() && Contents() == Reject(old(Contents()), ticket)
    {
      hide Ledger, Settled;
      PendingIsQueued(Contents(), ticket, capacity);
      if ticket in finished {
        return;
      }
      finished := finished + {ticket};
      var i := Position(waiters, ticket);
      RemovedLedger(Contents(), i, capacity);
      SettledMore(outcomes, Rejected(ticket));
      waiters := waiters[..i] + waiters[i + 1..];
      outcomes := outcomes + [Rejected(ticket)];
      Drain();
    }

    /** A release handle; the second call does nothing. */
    method Release(ticket: nat)
      requires Valid()
      modifies this
      ensures Valid() && Contents() == SemaphoreSpec.Release(old(Contents()), ticket)
    {
      hide Settled, InOrder, Distinct, Ascending, NoneOvertaken, Queued;
      if ticket !in unreleased {
        return;
      }
      unreleased := unreleased - {ticket};
      available := available + 1;
      Drain();
    }
  }
}
