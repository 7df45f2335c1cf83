/**
 * The process-local semaphore as a state and one function per callback. Every call of `acquire`
 * draws the next ticket; `settled` is the list of promises resolved or rejected so far.
 */
module SemaphoreSpec {
  datatype Entry = Entry(ticket: nat, ready: bool)

  /** `waited` tells a grant from the queue from one at the call itself. */
  datatype Outcome = Granted(ticket: nat, waited: bool) | Rejected(ticket: nat)

  /** `held` are the tickets whose release handle has not been called. */
  datatype State = State(available: nat, queue: seq<Entry>, held: set<nat>, settled: seq<Outcome>, issued: nat)

  function Start(capacity: nat): State {
    State(capacity, [], {}, [], 0)
  }

  function Position(queue: seq<Entry>, ticket: nat): (i: nat)
    ensures i <= |queue|
    ensures i < |queue| ==> queue[i].ticket == ticket
    ensures forall j | 0 <= j < i :: queue[j].ticket != ticket
  {
    if queue == [] then 0
    else if queue[0].ticket == ticket then 0
    else Position(queue[1..], ticket) + 1
  }

  /** `#drain`: permits go to the head of the queue while it is ready. */
  function Drain(s: State): State
    decreases |s.queue|
  {
    if s.available == 0 || s.queue == [] || !s.queue[0].ready then s
    else
      var ticket := s.queue[0].ticket;
      Drain(s.(available := s.available - 1, queue := s.queue[1..], held := s.held + {ticket},
               settled := s.settled + [Granted(ticket, true)]))
  }

  function Acquire(s: State, aborted: bool): State {
    var ticket := s.issued;
    var drawn := s.(issued := s.issued + 1);
    if aborted then drawn.(settled := s.settled + [Rejected(ticket)])
    else if s.available > 0 then
      drawn.(available := s.available - 1, held := s.held + {ticket}, settled := s.settled + [Granted(ticket, false)])
    else drawn.(queue := s.queue + [Entry(ticket, false)])
  }

  /** `onWaiting` finished: the waiter may be granted from now on. */
  function MakeReady(s: State, ticket: nat): State {
    var i := Position(s.queue, ticket);
    if i == |s.queue| then s else Drain(s.(queue := s.queue[i := Entry(ticket, true)]))
  }

  /** An abort, or a failed `onWaiting`: the waiter leaves the queue and its promise is rejected. */
  function Reject(s: State, ticket: nat): State {
    var i := Position(s.queue, ticket);
    if i == |s.queue| then s
    else Drain(s.(queue := s.queue[..i] + s.queue[i + 1..], settled := s.settled + [Rejected(ticket)]))
  }

  /** The release handle of a ticket; calling it again does nothing. */
  function Release(s: State, ticket: nat): State {
    if ticket !in s.held then s else Drain(s.(available := s.available + 1, held := s.held - {ticket}))
  }

  datatype Call =
    | CallAcquire(aborted: bool)
    | CallReady(ticket: nat)
    | CallReject(ticket: nat)
    | CallRelease(ticket: nat)

  function Step(s: State, call: Call): State {
    match call
    case CallAcquire(aborted) => Acquire(s, aborted)
    case CallReady(ticket) => MakeReady(s, ticket)
    case CallReject(ticket) => Reject(s, ticket)
    case CallRelease(ticket) => Release(s, ticket)
  }

  function After(s: State, calls: seq<Call>): State {
    if calls == [] then s else Step(After(s, calls[..|calls| - 1]), calls[|calls| - 1])
  }

  // ---- The invariant -------------------------------------------------------

  predicate Queued(queue: seq<Entry>, ticket: nat) {
    exists i | 0 <= i < |queue| :: queue[i].ticket == ticket
  }

  predicate Settled(settled: seq<Outcome>, ticket: nat) {
    exists i | 0 <= i < |settled| :: settled[i].ticket == ticket
  }

  /** Tickets stand in the queue in the order they were drawn. */
  predicate InOrder(queue: seq<Entry>) {
    forall i, j | 0 <= i < j < |queue| :: queue[i].ticket < queue[j].ticket
  }

  predicate Distinct(settled: seq<Outcome>) {
    forall i, j | 0 <= i < j < |settled| :: settled[i].ticket != settled[j].ticket
  }

  /** Grants from the queue happen in the order the tickets were drawn. */
  predicate Ascending(settled: seq<Outcome>) {
    forall i, j | 0 <= i < j < |settled| && settled[i].Granted? && settled[j].Granted? && settled[i].waited
        && settled[j].waited ::
      settled[i].ticket < settled[j].ticket
  }

  /** No ticket that was granted from the queue comes after one still waiting in it. */
  predicate NoneOvertaken(queue: seq<Entry>, settled: seq<Outcome>) {
    forall i, k | 0 <= i < |settled| && settled[i].Granted? && settled[i].waited && 0 <= k < |queue| ::
      settled[i].ticket < queue[k].ticket
  }

  /** The tickets drawn so far are those in the queue and those settled, and no ticket is both. */
  ghost predicate TicketsOk(s: State) {
    forall t: nat ::
        (t < s.issued <==> Queued(s.queue, t) || Settled(s.settled, t))
        && !(Queued(s.queue, t) && Settled(s.settled, t))
  }

  /** Every unreleased handle belongs to a granted ticket. */
  predicate HeldOk(held: set<nat>, settled: seq<Outcome>) {
    forall t | t in held :: Granted(t, true) in settled || Granted(t, false) in settled
  }

  /** A free permit means that nobody waits or that the first waiter is not ready. */
  predicate Drained(s: State) {
    s.available > 0 ==> s.queue == [] || !s.queue[0].ready
  }

  ghost predicate Ledger(s: State, capacity: nat) {
    && s.available + |s.held| == capacity
    && InOrder(s.queue)
    && Distinct(s.settled)
    && Ascending(s.settled)
    && NoneOvertaken(s.queue, s.settled)
    && TicketsOk(s)
    && HeldOk(s.held, s.settled)
  }

  ghost predicate Valid(s: State, capacity: nat) {
    Ledger(s, capacity) && Drained(s)
  }

  // ---- Each call -----------------------------------------------------------

  lemma {:induction false} SettledMore(settled: seq<Outcome>, outcome: Outcome)
    ensures forall t :: Settled(settled + [outcome], t) <==> Settled(settled, t) || t == outcome.ticket
  {
    forall t
      ensures Settled(settled + [outcome], t) <==> Settled(settled, t) || t == outcome.ticket
    {
      if Settled(settled, t) {
        var i :| 0 <= i < |settled| && settled[i].ticket == t;
        assert (settled + [outcome])[i].ticket == t;
      }
      assert (settled + [outcome])[|settled|] == outcome;
    }
  }

  /** One more promise is settled, for a ticket that was not. */
  lemma {:induction false} OutcomeAdded(settled: seq<Outcome>, outcome: Outcome)
    requires Distinct(settled) && Ascending(settled) && !Settled(settled, outcome.ticket)
    requires outcome.Granted? && outcome.waited ==>
      forall i | 0 <= i < |settled| && settled[i].Granted? && settled[i].waited :: settled[i].ticket < outcome.ticket
    ensures Distinct(settled + [outcome]) && Ascending(settled + [outcome])
  {
  }

  lemma {:induction false} EntryRemoved(queue: seq<Entry>, i: nat)
    requires InOrder(queue) && i < |queue|
    ensures InOrder(queue[..i] + queue[i + 1..])
    ensures forall t :: Queued(queue[..i] + queue[i + 1..], t) <==> Queued(queue, t) && t != queue[i].ticket
  {
    var left := queue[..i] + queue[i + 1..];
    forall k | 0 <= k < |left|
      ensures left[k] == queue[if k < i then k else k + 1]
    {
    }
    forall t
      ensures Queued(left, t) <==> Queued(queue, t) && t != queue[i].ticket
    {
      if Queued(queue, t) && t != queue[i].ticket {
        var k :| 0 <= k < |queue| && queue[k].ticket == t;
        assert left[if k < i then k else k - 1].ticket == t;
      }
    }
  }

  lemma {:induction false} EntryAdded(queue: seq<Entry>, entry: Entry)
    requires InOrder(queue) && forall k | 0 <= k < |queue| :: queue[k].ticket < entry.ticket
    ensures InOrder(queue + [entry])
    ensures forall t :: Queued(queue + [entry], t) <==> Queued(queue, t) || t == entry.ticket
  {
    forall t
      ensures Queued(queue + [entry], t) <==> Queued(queue, t) || t == entry.ticket
    {
      if Queued(queue, t) {
        var k :| 0 <= k < |queue| && queue[k].ticket == t;
        assert (queue + [entry])[k].ticket == t;
      }
      assert (queue + [entry])[|queue|] == entry;
    }
  }

  lemma {:induction false} EntryMarked(queue: seq<Entry>, i: nat)
    requires i < |queue|
    ensures var marked := queue[i := Entry(queue[i].ticket, true)];
      (InOrder(queue) ==> InOrder(marked)) && forall t :: Queued(marked, t) <==> Queued(queue, t)
  {
    var marked := queue[i := Entry(queue[i].ticket, true)];
    forall t
      ensures Queued(marked, t) <==> Queued(queue, t)
    {
      if Queued(queue, t) {
        var k :| 0 <= k < |queue| && queue[k].ticket == t;
        assert marked[k].ticket == t;
      }
    }
  }

  lemma {:induction false} NoneOvertakenAfter(
      queue: seq<Entry>, settled: seq<Outcome>, fewer: seq<Entry>, outcome: Outcome)
    requires NoneOvertaken(queue, settled)
    requires forall k | 0 <= k < |fewer| :: Queued(queue, fewer[k].ticket)
    requires outcome.Granted? && outcome.waited ==> forall k | 0 <= k < |fewer| :: outcome.ticket < fewer[k].ticket
    ensures NoneOvertaken(fewer, settled + [outcome]) && NoneOvertaken(fewer, settled)
  {
    forall i, k | 0 <= i < |settled| && settled[i].Granted? && settled[i].waited && 0 <= k < |fewer|
      ensures settled[i].ticket < fewer[k].ticket
    {
      var m :| 0 <= m < |queue| && queue[m].ticket == fewer[k].ticket;
    }
  }

  lemma {:induction false} HeldSettled(s: State, ticket: nat)
    requires HeldOk(s.held, s.settled) && ticket in s.held
    ensures Settled(s.settled, ticket)
  {
  }

  lemma {:induction false} HeldMore(held: set<nat>, settled: seq<Outcome>, outcome: Outcome)
    requires HeldOk(held, settled)
    ensures HeldOk(held, settled + [outcome])
    ensures outcome == Granted(outcome.ticket, true) || outcome == Granted(outcome.ticket, false) ==>
      HeldOk(held + {outcome.ticket}, settled + [outcome])
  {
    assert (settled + [outcome])[|settled|] == outcome;
  }

  lemma {:induction false} QueuedAt(queue: seq<Entry>, k: nat)
    requires k < |queue|
    ensures Queued(queue, queue[k].ticket)
  {
  }

  /** The head of the queue comes after every waiter already granted and before the rest. */
  lemma {:induction false} HeadNext(queue: seq<Entry>, settled: seq<Outcome>)
    requires InOrder(queue) && NoneOvertaken(queue, settled) && queue != []
    ensures forall k | 0 <= k < |queue[1..]| ::
      queue[0].ticket < queue[1..][k].ticket && Queued(queue, queue[1..][k].ticket)
    ensures forall i | 0 <= i < |settled| && settled[i].Granted? && settled[i].waited ::
      settled[i].ticket < queue[0].ticket
    ensures queue[..0] + queue[1..] == queue[1..]
  {
    forall k | 0 <= k < |queue| - 1
      ensures Queued(queue, queue[1..][k].ticket)
    {
      QueuedAt(queue, k + 1);
    }
  }

  /** A ticket is settled as it leaves the queue. */
  lemma {:induction false} TicketMoved(s: State, after: State, ticket: nat)
    requires TicketsOk(s) && Queued(s.queue, ticket) && after.issued == s.issued
    requires forall t :: Queued(after.queue, t) <==> Queued(s.queue, t) && t != ticket
    requires forall t :: Settled(after.settled, t) <==> Settled(s.settled, t) || t == ticket
    ensures TicketsOk(after) && !Settled(s.settled, ticket)
  {
    hide Queued, Settled;
  }

  /** One grant from the queue. */
  lemma {:induction false} GrantKeeps(s: State, capacity: nat)
    requires Ledger(s, capacity) && s.available > 0 && s.queue != []
    ensures var ticket := s.queue[0].ticket;
      Ledger(s.(available := s.available - 1, queue := s.queue[1..], held := s.held + {ticket},
                settled := s.settled + [Granted(ticket, true)]), capacity)
  {
    hide Queued, Settled, Distinct, Ascending, InOrder, NoneOvertaken, HeldOk, TicketsOk;
    var outcome := Granted(s.queue[0].ticket, true);
    var after := s.(available := s.available - 1, queue := s.queue[1..], held := s.held + {outcome.ticket},
                    settled := s.settled + [outcome]);
    QueuedAt(s.queue, 0);
    HeadNext(s.queue, s.settled);
    EntryRemoved(s.queue, 0);
    SettledMore(s.settled, outcome);
    TicketMoved(s, after, outcome.ticket);
    HeldMore(s.held, s.settled, outcome);
    if outcome.ticket in s.held {
      HeldSettled(s, outcome.ticket);
    }
    OutcomeAdded(s.settled, outcome);
    NoneOvertakenAfter(s.queue, s.settled, s.queue[1..], outcome);
  }

  lemma {:induction false} DrainKeeps(s: State, capacity: nat)
    requires Ledger(s, capacity)
    ensures Valid(Drain(s), capacity)
    ensures s.settled <= Drain(s).settled && Drain(s).issued == s.issued
    decreases |s.queue|
  {
    hide Ledger;
    if s.available > 0 && s.queue != [] && s.queue[0].ready {
      var ticket := s.queue[0].ticket;
      GrantKeeps(s, capacity);
      DrainKeeps(s.(available := s.available - 1, queue := s.queue[1..], held := s.held + {ticket},
                    settled := s.settled + [Granted(ticket, true)]), capacity);
    }
  }

  /** A permit granted at the call itself, or a call that was aborted beforehand. */
  lemma {:induction false} SettledAtOnce(s: State, aborted: bool, capacity: nat)
    requires Valid(s, capacity) && (aborted || s.available > 0)
    ensures Valid(Acquire(s, aborted), capacity)
  {
    hide Queued, Settled, Distinct, Ascending, InOrder;
    var outcome := if aborted then Rejected(s.issued) else Granted(s.issued, false);
    if s.issued in s.held {
      HeldSettled(s, s.issued);
    }
    SettledMore(s.settled, outcome);
    OutcomeAdded(s.settled, outcome);
    forall k | 0 <= k < |s.queue|
      ensures Queued(s.queue, s.queue[k].ticket)
    {
      QueuedAt(s.queue, k);
    }
    NoneOvertakenAfter(s.queue, s.settled, s.queue, outcome);
  }

  lemma {:induction false} JoinedQueue(s: State, capacity: nat)
    requires Valid(s, capacity) && s.available == 0
    ensures Valid(Acquire(s, false), capacity)
  {
    hide Queued, Settled, Distinct, Ascending, HeldOk, InOrder;
    forall k | 0 <= k < |s.queue|
      ensures s.queue[k].ticket < s.issued
    {
      QueuedAt(s.queue, k);
    }
    EntryAdded(s.queue, Entry(s.issued, false));
    forall i | 0 <= i < |s.settled|
      ensures s.settled[i].ticket < s.issued
    {
      SettledIndex(s.settled, i);
    }
  }

  lemma {:induction false} SettledIndex(settled: seq<Outcome>, i: nat)
    requires i < |settled|
    ensures Settled(settled, settled[i].ticket)
  {
  }

  lemma {:induction false} AcquireKeeps(s: State, aborted: bool, capacity: nat)
    requires Valid(s, capacity)
    ensures Valid(Acquire(s, aborted), capacity)
  {
    hide Ledger, Drained;
    if aborted || s.available > 0 {
      SettledAtOnce(s, aborted, capacity);
    } else {
      JoinedQueue(s, capacity);
    }
  }

  lemma {:induction false} MarkedLedger(s: State, i: nat, capacity: nat)
    requires Ledger(s, capacity) && i < |s.queue|
    ensures Ledger(s.(queue := s.queue[i := Entry(s.queue[i].ticket, true)]), capacity)
  {
    hide Queued, Settled, Distinct, Ascending, HeldOk, InOrder;
    EntryMarked(s.queue, i);
  }

  lemma {:induction false} RemovedLedger(s: State, i: nat, capacity: nat)
    requires Ledger(s, capacity) && i < |s.queue|
    ensures Ledger(s.(queue := s.queue[..i] + s.queue[i + 1..],
                      settled := s.settled + [Rejected(s.queue[i].ticket)]), capacity)
  {
    hide Queued, Settled, Distinct, Ascending, InOrder, NoneOvertaken;
    var queue := s.queue[..i] + s.queue[i + 1..];
    var outcome := Rejected(s.queue[i].ticket);
    QueuedAt(s.queue, i);
    EntryRemoved(s.queue, i);
    SettledMore(s.settled, outcome);
    OutcomeAdded(s.settled, outcome);
    forall k | 0 <= k < |queue|
      ensures Queued(s.queue, queue[k].ticket)
    {
      QueuedAt(queue, k);
    }
    NoneOvertakenAfter(s.queue, s.settled, queue, outcome);
  }

  lemma {:induction false} ReadyKeeps(s: State, ticket: nat, capacity: nat)
    requires Valid(s, capacity)
    ensures Valid(MakeReady(s, ticket), capacity)
  {
    hide Ledger, Drain;
    var i := Position(s.queue, ticket);
    if i < |s.queue| {
      MarkedLedger(s, i, capacity);
      DrainKeeps(s.(queue := s.queue[i := Entry(ticket, true)]), capacity);
    }
  }

  lemma {:induction false} RejectKeeps(s: State, ticket: nat, capacity: nat)
    requires Valid(s, capacity)
    ensures Valid(Reject(s, ticket), capacity)
  {
    hide Ledger, Drain;
    var i := Position(s.queue, ticket);
    if i < |s.queue| {
      RemovedLedger(s, i, capacity);
      DrainKeeps(s.(queue := s.queue[..i] + s.queue[i + 1..], settled := s.settled + [Rejected(ticket)]), capacity);
    }
  }

  lemma {:induction false} ReleaseKeeps(s: State, ticket: nat, capacity: nat)
    requires Valid(s, capacity)
    ensures Valid(Release(s, ticket), capacity)
  {
    hide Queued, Settled, Distinct, Ascending, InOrder, Drain, NoneOvertaken;
    if ticket in s.held {
      DrainKeeps(s.(available := s.available + 1, held := s.held - {ticket}), capacity);
    }
  }

  lemma {:induction false} StepKeeps(s: State, call: Call, capacity: nat)
    requires Valid(s, capacity)
    ensures Valid(Step(s, call), capacity)
    ensures s.settled <= Step(s, call).settled
  {
    hide Valid, Position, Drain;
    match call
    case CallAcquire(aborted) => AcquireKeeps(s, aborted, capacity);
    case CallReady(ticket) =>
      ReadyKeeps(s, ticket, capacity);
      var i := Position(s.queue, ticket);
      if i < |s.queue| { DrainSettles(s.(queue := s.queue[i := Entry(ticket, true)])); }
    case CallReject(ticket) =>
      RejectKeeps(s, ticket, capacity);
      var i := Position(s.queue, ticket);
      if i < |s.queue| {
        DrainSettles(s.(queue := s.queue[..i] + s.queue[i + 1..], settled := s.settled + [Rejected(ticket)]));
      }
    case CallRelease(ticket) =>
      ReleaseKeeps(s, ticket, capacity);
      DrainSettles(s.(available := s.available + 1, held := s.held - {ticket}));
  }

  lemma {:induction false} DrainSettles(s: State)
    ensures s.settled <= Drain(s).settled
    decreases |s.queue|
  {
    if s.available > 0 && s.queue != [] && s.queue[0].ready {
      var ticket := s.queue[0].ticket;
      DrainSettles(s.(available := s.available - 1, queue := s.queue[1..], held := s.held + {ticket},
                      settled := s.settled + [Granted(ticket, true)]));
    }
  }

  // ---- Every run -----------------------------------------------------------

  lemma {:induction false} RunKeeps(capacity: nat, calls: seq<Call>)
    ensures Valid(After(Start(capacity), calls), capacity)
  {
    hide Step;
    if calls != [] {
      hide Valid;
      RunKeeps(capacity, calls[..|calls| - 1]);
      StepKeeps(After(Start(capacity), calls[..|calls| - 1]), calls[|calls| - 1], capacity);
    }
  }

  lemma {:induction false} SettledGrows(capacity: nat, calls: seq<Call>, i: nat, j: nat)
    requires i <= j <= |calls|
    ensures After(Start(capacity), calls[..i]).settled <= After(Start(capacity), calls[..j]).settled
    decreases j
  {
    hide Step, Valid;
    if i < j {
      SettledGrows(capacity, calls, i, j - 1);
      RunKeeps(capacity, calls[..j - 1]);
      StepKeeps(After(Start(capacity), calls[..j - 1]), calls[j - 1], capacity);
      assert calls[..j][..j - 1] == calls[..j - 1];
    }
  }

  /** Permits are conserved: free ones plus unreleased handles always make the capacity. */
  lemma {:induction false} PermitsConserved(capacity: nat, calls: seq<Call>)
    ensures var s := After(Start(capacity), calls);
      s.available + |s.held| == capacity && |s.held| <= capacity
  {
    hide After, Step, InOrder, Distinct, Ascending, NoneOvertaken, TicketsOk, HeldOk, Drained;
    RunKeeps(capacity, calls);
  }

  /** Each call of acquire is either still queued or settled, never both, and settles once. */
  lemma {:induction false} SettlesOnce(capacity: nat, calls: seq<Call>, ticket: nat)
    requires ticket < After(Start(capacity), calls).issued
    ensures var s := After(Start(capacity), calls);
      && (Queued(s.queue, ticket) <==> !Settled(s.settled, ticket))
      && forall i, j | 0 <= i < |s.settled| && 0 <= j < |s.settled| && s.settled[i].ticket == ticket
           && s.settled[j].ticket == ticket :: i == j
  {
    hide After, Step, InOrder, Ascending, NoneOvertaken, HeldOk, Drained;
    RunKeeps(capacity, calls);
    var s := After(Start(capacity), calls);
  }

  /** A waiter that was rejected (aborted) never gets a permit, then or later. */
  lemma {:induction false} RejectedNeverGranted(capacity: nat, calls: seq<Call>, i: nat, j: nat, ticket: nat)
    requires i <= j <= |calls|
    requires Rejected(ticket) in After(Start(capacity), calls[..i]).settled
    ensures var s := After(Start(capacity), calls[..j]);
      Granted(ticket, true) !in s.settled && Granted(ticket, false) !in s.settled && ticket !in s.held
  {
    hide After, Step, InOrder, Ascending, NoneOvertaken, TicketsOk, Drained;
    SettledGrows(capacity, calls, i, j);
    RunKeeps(capacity, calls[..j]);
    var before, s := After(Start(capacity), calls[..i]), After(Start(capacity), calls[..j]);
    var k :| 0 <= k < |before.settled| && before.settled[k] == Rejected(ticket);
    assert s.settled[k] == Rejected(ticket);
  }

  /** Waiters are granted in the order they queued, and none still queued was overtaken by another waiter. */
  lemma {:induction false} GrantedInOrder(capacity: nat, calls: seq<Call>)
    ensures var s := After(Start(capacity), calls);
      Ascending(s.settled) && InOrder(s.queue) && NoneOvertaken(s.queue, s.settled)
  {
    hide After, Step, Distinct, InOrder, Ascending, NoneOvertaken, TicketsOk, HeldOk, Drained;
    RunKeeps(capacity, calls);
  }

  /** No permit lies idle in front of a ready waiter. */
  lemma {:induction false} NoIdlePermit(capacity: nat, calls: seq<Call>)
    ensures Drained(After(Start(capacity), calls))
  {
    hide After, Step, Ledger, Drained;
    RunKeeps(capacity, calls);
  }

  /**
   * First come, first served is not promised to newcomers: a call is granted at once, ahead of
   * waiters, exactly when a permit is free, and then the first waiter is one that is not ready.
   */
  lemma {:induction false} NewcomerOvertakesExactlyWhen(capacity: nat, calls: seq<Call>)
    ensures var s := After(Start(capacity), calls);
      (Granted(s.issued, false) in Acquire(s, false).settled && s.queue != [])
      <==> (s.available > 0 && s.queue != [] && !s.queue[0].ready)
  {
    hide After, Step, InOrder, Distinct, Ascending, NoneOvertaken, HeldOk;
    RunKeeps(capacity, calls);
    var s := After(Start(capacity), calls);
    if Granted(s.issued, false) in s.settled {
      SettledTicket(s.settled, Granted(s.issued, false));
    }
  }

  lemma {:induction false} SettledTicket(settled: seq<Outcome>, outcome: Outcome)
    requires outcome in settled
    ensures Settled(settled, outcome.ticket)
  {
  }

  /** Such a run: one permit, released while the only waiter is still running its callback. */
  lemma {:induction false} NewcomerOvertakes()
    ensures var s := After(Start(1), [CallAcquire(false), CallAcquire(false), CallRelease(0), CallAcquire(false)]);
      s.queue == [Entry(1, false)] && s.held == {2}
  {
    var calls := [CallAcquire(false), CallAcquire(false), CallRelease(0), CallAcquire(false)];
    assert calls[..3] == [CallAcquire(false), CallAcquire(false), CallRelease(0)];
    assert calls[..3][..2] == [CallAcquire(false), CallAcquire(false)];
    assert calls[..3][..2][..1] == [CallAcquire(false)];
    assert calls[..3][..2][..1][..0] == [];
    assert After(Start(1), calls[..3][..2][..1]) == State(0, [], {0}, [Granted(0, false)], 1);
    assert After(Start(1), calls[..3][..2]) == State(0, [Entry(1, false)], {0}, [Granted(0, false)], 2);
    assert After(Start(1), calls[..3]) == State(1, [Entry(1, false)], {}, [Granted(0, false)], 2);
  }
}
