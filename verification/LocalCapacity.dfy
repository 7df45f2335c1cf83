/**
 * The capacity of a process whose store has no leases: the local semaphore, and the release handles
 * that its records hold. Other acquisitions of the process go on between any two of its steps.
 */
module LocalCapacity {
  import opened Records
  import Spec = SemaphoreSpec
  import Sem = Semaphore
  import Execution = DurableExecution

  lemma {:induction false} DrainKeepsHeld(s: Spec.State)
    ensures s.held <= Spec.Drain(s).held
    decreases |s.queue|
  {
    if s.available > 0 && s.queue != [] && s.queue[0].ready {
      var ticket := s.queue[0].ticket;
      DrainKeepsHeld(s.(available := s.available - 1, queue := s.queue[1..], held := s.held + {ticket},
                        settled := s.settled + [Spec.Granted(ticket, true)]));
    }
  }

  /** No call takes a permit away from a handle, except the call of that handle. */
  lemma {:induction false} StepKeepsHeld(s: Spec.State, call: Spec.Call)
    ensures s.held - (if call.CallRelease? then {call.ticket} else {}) <= Spec.Step(s, call).held
    ensures s.issued <= Spec.Step(s, call).issued
  {
    hide Spec.Drain;
    match call
    case CallAcquire(_) =>
    case CallReady(ticket) =>
      var i := Spec.Position(s.queue, ticket);
      if i < |s.queue| {
        DrainKeepsHeld(s.(queue := s.queue[i := Spec.Entry(ticket, true)]));
        DrainKeepsIssued(s.(queue := s.queue[i := Spec.Entry(ticket, true)]));
      }
    case CallReject(ticket) =>
      var i := Spec.Position(s.queue, ticket);
      if i < |s.queue| {
        var rejected := s.(queue := s.queue[..i] + s.queue[i + 1..], settled := s.settled + [Spec.Rejected(ticket)]);
        DrainKeepsHeld(rejected);
        DrainKeepsIssued(rejected);
      }
    case CallRelease(ticket) =>
      if ticket in s.held {
        DrainKeepsHeld(s.(available := s.available + 1, held := s.held - {ticket}));
        DrainKeepsIssued(s.(available := s.available + 1, held := s.held - {ticket}));
      }
  }

  lemma {:induction false} DrainKeepsIssued(s: Spec.State)
    ensures Spec.Drain(s).issued == s.issued
    decreases |s.queue|
  {
    if s.available > 0 && s.queue != [] && s.queue[0].ready {
      var ticket := s.queue[0].ticket;
      DrainKeepsIssued(s.(available := s.available - 1, queue := s.queue[1..], held := s.held + {ticket},
                          settled := s.settled + [Spec.Granted(ticket, true)]));
    }
  }

  /** Handles that hold a permit belong to tickets that were drawn, and there are at most as many as permits. */
  lemma {:induction false} HeldTickets(s: Spec.State, capacity: nat)
    requires Spec.Valid(s, capacity)
    ensures |s.held| <= capacity && forall t | t in s.held :: t < s.issued
  {
    hide Spec.InOrder, Spec.Distinct, Spec.Ascending, Spec.NoneOvertaken, Spec.Queued;
    forall t | t in s.held
      ensures t < s.issued
    {
      var waited := Spec.Granted(t, true) in s.settled;
      var i :| 0 <= i < |s.settled| && s.settled[i] == Spec.Granted(t, waited);
      assert Spec.Settled(s.settled, t);
    }
  }

  /** A handle that was called has no permit. */
  lemma {:induction false} ReleasedIsGone(s: Spec.State, ticket: nat, capacity: nat)
    requires Spec.Valid(s, capacity)
    ensures ticket !in Spec.Release(s, ticket).held
  {
    hide Spec.InOrder, Spec.Distinct, Spec.Ascending, Spec.NoneOvertaken;
    if ticket in s.held {
      var waited := Spec.Granted(ticket, true) in s.settled;
      var i :| 0 <= i < |s.settled| && s.settled[i] == Spec.Granted(ticket, waited);
      assert Spec.Settled(s.settled, ticket);
      DrainGrantsQueued(s.(available := s.available + 1, held := s.held - {ticket}), ticket);
    }
  }

  /** A waiter that gives up neither waits nor holds a permit. */
  lemma {:induction false} RejectedIsGone(s: Spec.State, ticket: nat, capacity: nat)
    requires Spec.Valid(s, capacity) && ticket < s.issued && ticket !in s.held
    ensures ticket !in Spec.Reject(s, ticket).held && !Spec.Queued(Spec.Reject(s, ticket).queue, ticket)
  {
    hide Spec.Distinct, Spec.Ascending, Spec.NoneOvertaken, Spec.HeldOk, Spec.Settled, Spec.Drain;
    var i := Spec.Position(s.queue, ticket);
    if i < |s.queue| {
      Spec.EntryRemoved(s.queue, i);
      var removed := s.(queue := s.queue[..i] + s.queue[i + 1..], settled := s.settled + [Spec.Rejected(ticket)]);
      DrainGrantsQueued(removed, ticket);
      DrainQueuesNobody(removed, ticket);
    }
  }

  lemma {:induction false} DrainQueuesNobody(s: Spec.State, ticket: nat)
    requires !Spec.Queued(s.queue, ticket)
    ensures !Spec.Queued(Spec.Drain(s).queue, ticket)
    decreases |s.queue|
  {
    if s.available > 0 && s.queue != [] && s.queue[0].ready {
      assert !Spec.Queued(s.queue[1..], ticket) by {
        assert forall i | 0 <= i < |s.queue| - 1 :: s.queue[1..][i] == s.queue[i + 1];
      }
      DrainQueuesNobody(s.(available := s.available - 1, queue := s.queue[1..], held := s.held + {s.queue[0].ticket},
                           settled := s.settled + [Spec.Granted(s.queue[0].ticket, true)]), ticket);
    }
  }

  /** A call that was aborted beforehand neither waits nor holds a permit. */
  lemma {:induction false} AbortedIsGone(s: Spec.State, capacity: nat)
    requires Spec.Valid(s, capacity)
    ensures s.issued !in Spec.Acquire(s, true).held && !Spec.Queued(Spec.Acquire(s, true).queue, s.issued)
  {
    hide Spec.Queued;
    HeldTickets(s, capacity);
  }

  lemma {:induction false} DrainGrantsQueued(s: Spec.State, ticket: nat)
    requires !Spec.Queued(s.queue, ticket) && ticket !in s.held
    ensures ticket !in Spec.Drain(s).held
    decreases |s.queue|
  {
    if s.available > 0 && s.queue != [] && s.queue[0].ready {
      var head := s.queue[0].ticket;
      assert !Spec.Queued(s.queue[1..], ticket) by {
        assert forall i | 0 <= i < |s.queue| - 1 :: s.queue[1..][i] == s.queue[i + 1];
      }
      DrainGrantsQueued(s.(available := s.available - 1, queue := s.queue[1..], held := s.held + {head},
                           settled := s.settled + [Spec.Granted(head, true)]), ticket);
    }
  }

  class LocalCoordinator {
    const semaphore: Sem.Semaphore
    /** `#localCapacityReleases`, each handle by its ticket. */
    var releases: map<Id, nat>

    /** Each record has a handle of its own, and each handle has a permit. */
    ghost predicate Valid()
      reads this, semaphore
    {
      && semaphore.Valid()
      && (forall id | id in releases :: releases[id] in semaphore.unreleased)
      && (forall a, b | a in releases && b in releases && releases[a] == releases[b] :: a == b)
    }

    constructor (capacityLimit: nat)
      ensures Valid() && fresh(semaphore) && semaphore.capacity == capacityLimit && releases == map[]
    {
      semaphore := new Sem.Semaphore(capacityLimit);
      releases := map[];
    }

    /** At most as many records hold a handle as the limit allows. */
    lemma {:induction false} WithinLimit()
      requires Valid()
      ensures |releases| <= semaphore.capacity
    {
      HeldTickets(semaphore.Contents(), semaphore.capacity);
      Injected(releases, semaphore.unreleased);
    }

    static lemma {:induction false} Injected(releases: map<Id, nat>, tickets: set<nat>)
      requires forall id | id in releases :: releases[id] in tickets
      requires forall a, b | a in releases && b in releases && releases[a] == releases[b] :: a == b
      ensures |releases| <= |tickets|
      decreases |releases|
    {
      if releases != map[] {
        var id :| id in releases;
        var rest := releases - {id};
        assert |rest| == |releases| - 1;
        Injected(rest, tickets - {releases[id]});
      }
    }

    /** One call by anyone else; nobody calls the handles in `kept`. */
    method OneCall(kept: set<nat>)
      requires semaphore.Valid()
      modifies semaphore
      ensures semaphore.Valid()
      ensures kept * old(semaphore.unreleased) <= semaphore.unreleased && old(semaphore.issued) <= semaphore.issued
    {
      hide Spec.Valid, Spec.Drain;
      var ticket: nat, aborted: bool := *, *;
      ghost var before := semaphore.Contents();
      if * {
        var acquisition := semaphore.Acquire(aborted);
        StepKeepsHeld(before, Spec.CallAcquire(aborted));
      } else if * {
        if ticket < semaphore.issued {
          semaphore.OnReady(ticket);
          StepKeepsHeld(before, Spec.CallReady(ticket));
        }
      } else if * {
        if ticket < semaphore.issued {
          semaphore.OnRejected(ticket);
          StepKeepsHeld(before, Spec.CallReject(ticket));
        }
      } else if ticket !in kept {
        semaphore.Release(ticket);
        StepKeepsHeld(before, Spec.CallRelease(ticket));
      }
    }

    /**
     * `waitForCapacity` over the semaphore: a record waits in the queue while others come and go, at
     * most for `turns` of their calls, and then its signal aborts. `Acquired` files its release handle.
     */
    method WaitForCapacity(id: Id, aborted: bool, turns: nat) returns (waited: Execution.Waited)
      requires Valid()
      modifies this`releases, semaphore
      ensures Valid() && waited in {Execution.Acquired, Execution.Aborted}
      ensures aborted ==> waited == Execution.Aborted
      ensures waited == Execution.Acquired ==> id in releases && releases == old(releases)[id := releases[id]]
      ensures waited == Execution.Aborted ==> releases == old(releases)
      ensures waited == Execution.Aborted ==>
        old(semaphore.issued) !in semaphore.unreleased && !Spec.Queued(semaphore.waiters, old(semaphore.issued))
      ensures !aborted && old(semaphore.available) > 0 ==> waited == Execution.Acquired
    {
      hide Spec.Valid, Spec.Drain, Spec.Reject, Spec.Release, Spec.MakeReady;
      var ticket := semaphore.issued;
      ghost var before := semaphore.Contents();
      HeldTickets(before, semaphore.capacity);
      var acquisition := semaphore.Acquire(aborted);
      StepKeepsHeld(before, Spec.CallAcquire(aborted));
      if acquisition == Sem.Thrown {
        AbortedIsGone(before, semaphore.capacity);
        return Execution.Aborted;
      }
      if acquisition == Sem.Pending {
        var kept := set other | other in releases :: releases[other];
        var turn := 0;
        while turn < turns && ticket !in semaphore.finished
          invariant Valid() && ticket < semaphore.issued && releases == old(releases)
          modifies semaphore
        {
          turn := turn + 1;
          OneCall(kept + {ticket});
        }
        if ticket !in semaphore.unreleased {
          ghost var pending := semaphore.Contents();
          semaphore.OnRejected(ticket);
          RejectedIsGone(pending, ticket, semaphore.capacity);
          StepKeepsHeld(pending, Spec.CallReject(ticket));
          return Execution.Aborted;
        }
      }
      releases := releases[id := ticket];
      return Execution.Acquired;
    }

    /** `release`: the record's handle is called, and forgotten. */
    method Release(id: Id)
      requires Valid()
      modifies this`releases, semaphore
      ensures Valid() && releases == old(releases) - {id}
      ensures id in old(releases) ==> old(releases)[id] !in semaphore.unreleased
    {
      hide Spec.Valid, Spec.Drain;
      if id in releases {
        ghost var before := semaphore.Contents();
        semaphore.Release(releases[id]);
        StepKeepsHeld(before, Spec.CallRelease(releases[id]));
        ReleasedIsGone(before, releases[id], semaphore.capacity);
      }
      releases := releases - {id};
    }
  }
}
