/**
 * Runs of the semaphore told by their calls alone: which waiters may be granted, who holds a permit
 * and who was rejected follows from the calls that came, and a resolved waiter is not kept waiting.
 */
module SemaphoreRuns {
  import opened SemaphoreSpec

  /** How many tickets the calls draw; call number i of a run draws ticket `Drawn(calls[..i])`. */
  function Drawn(calls: seq<Call>): nat {
    if calls == [] then 0
    else Drawn(calls[..|calls| - 1]) + if calls[|calls| - 1].CallAcquire? then 1 else 0
  }

  /** The callback of the ticket resolved after the ticket was drawn. */
  predicate Resolved(calls: seq<Call>, ticket: nat) {
    exists i | 0 <= i < |calls| :: calls[i] == CallReady(ticket) && ticket < Drawn(calls[..i])
  }

  predicate IsGranted(settled: seq<Outcome>, ticket: nat) {
    Granted(ticket, true) in settled || Granted(ticket, false) in settled
  }

  /** The ticket's release handle was called, which exists from the grant on. */
  predicate HandleCalled(capacity: nat, calls: seq<Call>, ticket: nat) {
    exists i | 0 <= i < |calls| ::
      calls[i] == CallRelease(ticket) && IsGranted(After(Start(capacity), calls[..i]).settled, ticket)
  }

  /** The ticket was drawn with an aborted signal, or its waiter was aborted or failed while it was queued. */
  predicate GivenUp(capacity: nat, calls: seq<Call>, ticket: nat) {
    exists i | 0 <= i < |calls| :: GivesUp(capacity, calls, i, ticket)
  }

  predicate GivesUp(capacity: nat, calls: seq<Call>, i: nat, ticket: nat)
    requires i < |calls|
  {
    || (calls[i] == CallAcquire(true) && ticket == Drawn(calls[..i]))
    || (calls[i] == CallReject(ticket) && Queued(After(Start(capacity), calls[..i]).queue, ticket))
  }

  // ---- One more call -------------------------------------------------------

  lemma {:induction false} ResolvedMore(calls: seq<Call>, call: Call, ticket: nat)
    ensures Resolved(calls + [call], ticket) <==>
      Resolved(calls, ticket) || (call == CallReady(ticket) && ticket < Drawn(calls))
  {
    hide Drawn;
    var more := calls + [call];
    assert forall i | 0 <= i <= |calls| :: more[..i] == calls[..i];
    assert calls[..|calls|] == calls && more[|calls|] == call;
    if Resolved(calls, ticket) {
      var i :| 0 <= i < |calls| && calls[i] == CallReady(ticket) && ticket < Drawn(calls[..i]);
      assert more[i] == calls[i];
    }
  }

  lemma {:induction false} HandleCalledMore(capacity: nat, calls: seq<Call>, call: Call, ticket: nat)
    ensures HandleCalled(capacity, calls + [call], ticket) <==>
      || HandleCalled(capacity, calls, ticket)
      || (call == CallRelease(ticket) && IsGranted(After(Start(capacity), calls).settled, ticket))
  {
    hide After, IsGranted;
    var more := calls + [call];
    assert forall i | 0 <= i <= |calls| :: more[..i] == calls[..i];
    assert calls[..|calls|] == calls && more[|calls|] == call;
    if HandleCalled(capacity, calls, ticket) {
      var i :| 0 <= i < |calls| && calls[i] == CallRelease(ticket)
               && IsGranted(After(Start(capacity), calls[..i]).settled, ticket);
      assert more[i] == calls[i];
    }
  }

  lemma {:induction false} GivenUpMore(capacity: nat, calls: seq<Call>, call: Call, ticket: nat)
    ensures GivenUp(capacity, calls + [call], ticket) <==>
      || GivenUp(capacity, calls, ticket)
      || (call == CallAcquire(true) && ticket == Drawn(calls))
      || (call == CallReject(ticket) && Queued(After(Start(capacity), calls).queue, ticket))
  {
    hide After, Queued, Drawn;
    var more := calls + [call];
    assert forall i | 0 <= i <= |calls| :: more[..i] == calls[..i];
    assert calls[..|calls|] == calls && more[|calls|] == call;
    assert GivesUp(capacity, more, |calls|, ticket) ==> GivenUp(capacity, more, ticket);
    if GivenUp(capacity, calls, ticket) {
      var i :| 0 <= i < |calls| && GivesUp(capacity, calls, i, ticket);
      assert GivesUp(capacity, more, i, ticket);
    }
    if GivenUp(capacity, more, ticket) {
      var i :| 0 <= i < |more| && GivesUp(capacity, more, i, ticket);
      assert i < |calls| ==> GivesUp(capacity, calls, i, ticket);
    }
  }

  // ---- Draining ------------------------------------------------------------

  /** A drain grants, and does nothing else. */
  lemma {:induction false} DrainOnlyGrants(s: State, capacity: nat)
    requires Ledger(s, capacity)
    ensures var after := Drain(s);
      && after.issued == s.issued
      && (forall e | e in after.queue :: e in s.queue)
      && (forall t: nat :: t in after.held <==>
            t in s.held || (IsGranted(after.settled, t) && !IsGranted(s.settled, t)))
      && (forall t: nat :: IsGranted(s.settled, t) ==> IsGranted(after.settled, t))
      && (forall t: nat :: Rejected(t) in after.settled <==> Rejected(t) in s.settled)
    decreases |s.queue|
  {
    hide Ledger;
    if s.available > 0 && s.queue != [] && s.queue[0].ready {
      var ticket := s.queue[0].ticket;
      HeadUnsettled(s, capacity);
      GrantKeeps(s, capacity);
      DrainOnlyGrants(s.(available := s.available - 1, queue := s.queue[1..], held := s.held + {ticket},
                         settled := s.settled + [Granted(ticket, true)]), capacity);
    }
  }

  lemma {:induction false} HeadUnsettled(s: State, capacity: nat)
    requires Ledger(s, capacity) && s.queue != []
    ensures !IsGranted(s.settled, s.queue[0].ticket)
  {
    hide InOrder, Distinct, Ascending, NoneOvertaken, HeldOk, Queued, Settled;
    QueuedAt(s.queue, 0);
    var ticket := s.queue[0].ticket;
    if waited :| Granted(ticket, waited) in s.settled {
      SettledTicket(s.settled, Granted(ticket, waited));
    }
  }

  // ---- Every run -----------------------------------------------------------

  /** What a state says that the calls before it say too. */
  ghost predicate Told(capacity: nat, calls: seq<Call>, s: State) {
    && s.issued == Drawn(calls)
    && (forall e | e in s.queue :: e.ready <==> Resolved(calls, e.ticket))
    && (forall t: nat :: t in s.held <==> IsGranted(s.settled, t) && !HandleCalled(capacity, calls, t))
    && (forall t: nat :: Rejected(t) in s.settled <==> GivenUp(capacity, calls, t))
  }

  /** What a drain starts from is told by the calls; then so is what it leaves. */
  lemma {:induction false} DrainTold(capacity: nat, calls: seq<Call>, s: State)
    requires Ledger(s, capacity) && Told(capacity, calls, s)
    requires forall t: nat :: HandleCalled(capacity, calls, t) ==> IsGranted(s.settled, t)
    ensures Told(capacity, calls, Drain(s))
  {
    hide Ledger, Drain, IsGranted, HandleCalled, GivenUp, Resolved;
    DrainOnlyGrants(s, capacity);
  }

  lemma {:induction false} CalledIsGranted(capacity: nat, calls: seq<Call>, ticket: nat)
    requires HandleCalled(capacity, calls, ticket)
    ensures IsGranted(After(Start(capacity), calls).settled, ticket)
  {
    hide After;
    var i :| 0 <= i < |calls| && calls[i] == CallRelease(ticket)
             && IsGranted(After(Start(capacity), calls[..i]).settled, ticket);
    SettledGrows(capacity, calls, i, |calls|);
    assert calls[..|calls|] == calls;
  }

  /** What one more call adds to what the calls tell. */
  lemma {:induction false} ToldMore(capacity: nat, calls: seq<Call>, call: Call)
    ensures var more, s := calls + [call], After(Start(capacity), calls);
      && Drawn(more) == Drawn(calls) + (if call.CallAcquire? then 1 else 0)
      && (forall t: nat ::
            Resolved(more, t) <==> Resolved(calls, t) || (call == CallReady(t) && t < Drawn(calls)))
      && (forall t: nat ::
            HandleCalled(capacity, more, t) <==>
            HandleCalled(capacity, calls, t) || (call == CallRelease(t) && IsGranted(s.settled, t)))
      && (forall t: nat ::
            GivenUp(capacity, more, t) <==>
              || GivenUp(capacity, calls, t)
              || (call == CallAcquire(true) && t == Drawn(calls))
              || (call == CallReject(t) && Queued(s.queue, t)))
      && (forall t: nat :: HandleCalled(capacity, calls, t) ==> IsGranted(s.settled, t))
  {
    hide After, Resolved, HandleCalled, GivenUp, Queued, IsGranted;
    assert (calls + [call])[..|calls|] == calls;
    forall t: nat
      ensures Resolved(calls + [call], t) <==> Resolved(calls, t) || (call == CallReady(t) && t < Drawn(calls))
    {
      ResolvedMore(calls, call, t);
    }
    forall t: nat
      ensures HandleCalled(capacity, calls + [call], t) <==>
        || HandleCalled(capacity, calls, t)
        || (call == CallRelease(t) && IsGranted(After(Start(capacity), calls).settled, t))
      ensures HandleCalled(capacity, calls, t) ==> IsGranted(After(Start(capacity), calls).settled, t)
    {
      HandleCalledMore(capacity, calls, call, t);
      if HandleCalled(capacity, calls, t) {
        CalledIsGranted(capacity, calls, t);
      }
    }
    forall t: nat
      ensures GivenUp(capacity, calls + [call], t) <==>
        || GivenUp(capacity, calls, t)
        || (call == CallAcquire(true) && t == Drawn(calls))
        || (call == CallReject(t) && Queued(After(Start(capacity), calls).queue, t))
    {
      GivenUpMore(capacity, calls, call, t);
    }
  }

  /** No ticket that is not drawn yet is granted, rejected, queued or resolved. */
  lemma {:induction false} Undrawn(s: State, capacity: nat)
    requires Valid(s, capacity)
    ensures !IsGranted(s.settled, s.issued) && Rejected(s.issued) !in s.settled && s.issued !in s.held
    ensures forall e | e in s.queue :: e.ticket < s.issued && !IsGranted(s.settled, e.ticket)
    ensures forall i, j | 0 <= i < |s.queue| && 0 <= j < |s.queue| && s.queue[i].ticket == s.queue[j].ticket :: i == j
  {
    hide Distinct, Ascending, NoneOvertaken, Queued, Settled;
    forall o | o in s.settled
      ensures o.ticket < s.issued && !Queued(s.queue, o.ticket)
    {
      SettledTicket(s.settled, o);
    }
    forall e | e in s.queue
      ensures Queued(s.queue, e.ticket)
    {
      var k :| 0 <= k < |s.queue| && s.queue[k] == e;
      QueuedAt(s.queue, k);
    }
  }

  /** A call tells what the state it leaves says. */
  lemma {:induction false} StepTold(capacity: nat, calls: seq<Call>, call: Call)
    requires Told(capacity, calls, After(Start(capacity), calls))
    ensures Told(capacity, calls + [call], Step(After(Start(capacity), calls), call))
  {
    hide After, Valid, Resolved, HandleCalled, GivenUp, Drawn, IsGranted, Queued, Drain;
    var s := After(Start(capacity), calls);
    RunKeeps(capacity, calls);
    ToldMore(capacity, calls, call);
    Undrawn(s, capacity);
    match call
    case CallAcquire(aborted) => AcquireTold(capacity, calls, aborted, s);
    case CallReady(ticket) => ReadyTold(capacity, calls, ticket, s);
    case CallReject(ticket) => RejectTold(capacity, calls, ticket, s);
    case CallRelease(ticket) => ReleaseTold(capacity, calls, ticket, s);
  }

  lemma {:induction false} AcquireTold(capacity: nat, calls: seq<Call>, aborted: bool, s: State)
    requires s == After(Start(capacity), calls) && Valid(s, capacity) && Told(capacity, calls, s)
    ensures Told(capacity, calls + [CallAcquire(aborted)], Acquire(s, aborted))
  {
    hide After, Valid, Resolved, HandleCalled, GivenUp, Drawn, Queued;
    ToldMore(capacity, calls, CallAcquire(aborted));
    Undrawn(s, capacity);
    NotResolvedYet(calls, s.issued);
  }

  /** The callback of a ticket resolves only once the ticket is drawn. */
  lemma {:induction false} NotResolvedYet(calls: seq<Call>, ticket: nat)
    requires Drawn(calls) <= ticket
    ensures !Resolved(calls, ticket)
  {
    forall i | 0 <= i < |calls|
      ensures Drawn(calls[..i]) <= Drawn(calls)
    {
      DrawnGrows(calls, i);
    }
  }

  lemma {:induction false} DrawnGrows(calls: seq<Call>, i: nat)
    requires i <= |calls|
    ensures Drawn(calls[..i]) <= Drawn(calls)
  {
    if i < |calls| {
      DrawnGrows(calls[..|calls| - 1], i);
      assert calls[..|calls| - 1][..i] == calls[..i];
    } else {
      assert calls[..i] == calls;
    }
  }

  lemma {:induction false} ReadyTold(capacity: nat, calls: seq<Call>, ticket: nat, s: State)
    requires s == After(Start(capacity), calls) && Valid(s, capacity) && Told(capacity, calls, s)
    ensures Told(capacity, calls + [CallReady(ticket)], MakeReady(s, ticket))
  {
    hide After, Ledger, Resolved, HandleCalled, GivenUp, Drawn, Queued, IsGranted, Drain;
    ToldMore(capacity, calls, CallReady(ticket));
    Undrawn(s, capacity);
    var more, i := calls + [CallReady(ticket)], Position(s.queue, ticket);
    if i < |s.queue| {
      var marked := s.(queue := s.queue[i := Entry(ticket, true)]);
      MarkedLedger(s, i, capacity);
      assert Told(capacity, more, marked);
      DrainTold(capacity, more, marked);
    }
  }

  lemma {:induction false} RejectionGrantsNothing(settled: seq<Outcome>, ticket: nat)
    ensures forall t: nat :: IsGranted(settled + [Rejected(ticket)], t) <==> IsGranted(settled, t)
  {
  }

  lemma {:induction false} RejectTold(capacity: nat, calls: seq<Call>, ticket: nat, s: State)
    requires s == After(Start(capacity), calls) && Valid(s, capacity) && Told(capacity, calls, s)
    ensures Told(capacity, calls + [CallReject(ticket)], Reject(s, ticket))
  {
    hide After, Ledger, Resolved, HandleCalled, GivenUp, Drawn, IsGranted, Drain;
    ToldMore(capacity, calls, CallReject(ticket));
    Undrawn(s, capacity);
    var more, i := calls + [CallReject(ticket)], Position(s.queue, ticket);
    if i < |s.queue| {
      var removed := s.(queue := s.queue[..i] + s.queue[i + 1..], settled := s.settled + [Rejected(ticket)]);
      RemovedLedger(s, i, capacity);
      RejectionGrantsNothing(s.settled, ticket);
      assert Told(capacity, more, removed);
      DrainTold(capacity, more, removed);
    }
  }

  lemma {:induction false} ReleaseTold(capacity: nat, calls: seq<Call>, ticket: nat, s: State)
    requires s == After(Start(capacity), calls) && Valid(s, capacity) && Told(capacity, calls, s)
    ensures Told(capacity, calls + [CallRelease(ticket)], Release(s, ticket))
  {
    hide After, Resolved, HandleCalled, GivenUp, Drawn, Queued, IsGranted, Drain;
    ToldMore(capacity, calls, CallRelease(ticket));
    var more := calls + [CallRelease(ticket)];
    if ticket in s.held {
      var released := s.(available := s.available + 1, held := s.held - {ticket});
      assert Told(capacity, more, released);
      DrainTold(capacity, more, released);
    }
  }

  lemma {:induction false} RunTold(capacity: nat, calls: seq<Call>)
    ensures Told(capacity, calls, After(Start(capacity), calls))
  {
    hide Step;
    if calls != [] {
      hide Told;
      var before := calls[..|calls| - 1];
      RunTold(capacity, before);
      StepTold(capacity, before, calls[|calls| - 1]);
      assert before + [calls[|calls| - 1]] == calls;
    }
  }

  // ---- What the calls tell -------------------------------------------------

  /** A waiter may be granted exactly when its callback has resolved since it queued. */
  lemma {:induction false} ReadyExactlyWhen(capacity: nat, calls: seq<Call>, k: nat)
    requires k < |After(Start(capacity), calls).queue|
    ensures var waiter := After(Start(capacity), calls).queue[k];
      waiter.ready <==> Resolved(calls, waiter.ticket)
  {
    hide After, Resolved, HandleCalled, GivenUp, IsGranted;
    RunTold(capacity, calls);
    assert After(Start(capacity), calls).queue[k] in After(Start(capacity), calls).queue;
  }

  /** A ticket holds a permit exactly from its grant until the call of its handle. */
  lemma {:induction false} HeldExactlyWhen(capacity: nat, calls: seq<Call>, ticket: nat)
    ensures var s := After(Start(capacity), calls);
      ticket in s.held <==> IsGranted(s.settled, ticket) && !HandleCalled(capacity, calls, ticket)
  {
    hide After, Resolved, HandleCalled, GivenUp, IsGranted;
    RunTold(capacity, calls);
  }

  /** A call of acquire is rejected exactly when its signal was aborted, or its waiter gave up in the queue. */
  lemma {:induction false} RejectedExactlyWhen(capacity: nat, calls: seq<Call>, ticket: nat)
    ensures Rejected(ticket) in After(Start(capacity), calls).settled <==> GivenUp(capacity, calls, ticket)
  {
    hide After, Resolved, HandleCalled, GivenUp, IsGranted;
    RunTold(capacity, calls);
  }

  lemma {:induction false} SmallestIsHead(queue: seq<Entry>, ticket: nat)
    requires InOrder(queue) && Queued(queue, ticket) && forall e | e in queue :: ticket <= e.ticket
    ensures queue != [] && queue[0].ticket == ticket
  {
    assert queue[0] in queue;
  }

  /**
   * No permit lies idle in front of a waiter whose callback resolved: a ticket that was drawn,
   * resolved and did not give up, with no waiter queued before it, is granted as soon as a permit is free.
   */
  lemma {:induction false} ResolvedWaiterIsGranted(capacity: nat, calls: seq<Call>, ticket: nat)
    requires ticket < Drawn(calls) && Resolved(calls, ticket) && !GivenUp(capacity, calls, ticket)
    requires After(Start(capacity), calls).available > 0
    requires forall e | e in After(Start(capacity), calls).queue :: ticket <= e.ticket
    ensures IsGranted(After(Start(capacity), calls).settled, ticket)
  {
    hide After, Step, Resolved, HandleCalled, GivenUp, Distinct, Ascending, NoneOvertaken, HeldOk;
    var s := After(Start(capacity), calls);
    RunTold(capacity, calls);
    RunKeeps(capacity, calls);
    assert s.queue != [] ==> s.queue[0] in s.queue;
    if Queued(s.queue, ticket) {
      SmallestIsHead(s.queue, ticket);
    } else {
      var i :| 0 <= i < |s.settled| && s.settled[i].ticket == ticket;
      assert s.settled[i] in s.settled;
    }
  }
}
