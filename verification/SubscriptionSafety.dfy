/** A subscriber yields every event after its cursor once and in order, and sleeps through no notification. */
module SubscriptionSafety {
  import opened Prelude
  import opened Records
  import opened SubscriptionProtocol

  // ---- The invariant -------------------------------------------------------

  function Active(subscribers: map<nat, Subscriber>): set<nat> {
    set sid | sid in subscribers && !subscribers[sid].phase.Finished?
  }

  /** What has been yielded is the history between the start and the cursor. */
  predicate Yielded(events: seq<Event>, s: Subscriber) {
    && s.start <= s.cursor
    && (if s.cursor == s.start then s.yielded == []
        else s.cursor <= |events| && s.yielded == events[s.start..s.cursor])
  }

  /** What has been read but not yielded follows the cursor. */
  predicate Pending(events: seq<Event>, cursor: nat, pending: seq<Event>) {
    pending != [] ==> cursor + |pending| <= |events| && pending == events[cursor..cursor + |pending|]
  }

  /** A subscriber that would find its version unchanged has reached every notified event. */
  predicate PhaseOk(events: seq<Event>, notified: nat, version: nat, s: Subscriber) {
    match s.phase
    case Top => true
    case Reading(observed) => observed <= version
    case Yielding(observed, pending) =>
      observed <= version && Pending(events, s.cursor, pending)
          && (version == observed ==> notified <= s.cursor + |pending|)
    case Checking(observed) => observed <= version && (version == observed ==> notified <= s.cursor)
    case Deciding(observed, seen) =>
      && observed <= version && (version == observed ==> notified <= s.cursor)
      && (seen.Some? ==> seen.value.last <= |events| && (s.cursor > s.start ==> s.cursor <= seen.value.last))
    case Waiting(observed) => version == observed && notified <= s.cursor
    case Finished(ended) =>
      ended.Some? ==>
          ended.value.last <= |events| && ended.value.last <= s.cursor
          && (s.cursor > s.start ==> s.cursor == ended.value.last)
  }

  /** The signal object of every active subscriber is the one in the map. */
  predicate Retained(current: Option<nat>, subscribers: map<nat, Subscriber>) {
    forall sid | sid in Active(subscribers) :: current == Some(subscribers[sid].retained)
  }

  ghost predicate ObjectsOk(current: Option<nat>, objects: map<nat, Signal>) {
    && (forall signalId: nat :: signalId in objects <==> signalId < |objects|)
    && (current.Some? ==> current.value in objects)
  }

  /** The object in the map counts its active subscribers and lists those that wait. */
  predicate CountsOk(sys: Sys) {
    sys.current.Some? ==>
      var signal := SignalOf(sys, sys.current.value);
      && signal.observers == |Active(sys.subscribers)|
      && (forall sid | sid in sys.subscribers :: sid in signal.waiters <==> sys.subscribers[sid].phase.Waiting?)
      && (forall sid | sid in signal.waiters :: sid in sys.subscribers)
  }

  function Version(sys: Sys): nat {
    if sys.current.Some? then SignalOf(sys, sys.current.value).version else 0
  }

  predicate SourceOk(record: Option<Seen>, events: seq<Event>, notified: nat) {
    && Numbered(events)
    && notified <= |events|
    && (if record.Some? then record.value.last == |events| else events == [])
  }

  ghost predicate SubscribersOk(events: seq<Event>, notified: nat, version: nat, subscribers: map<nat, Subscriber>) {
    forall sid | sid in subscribers ::
        Yielded(events, subscribers[sid]) && PhaseOk(events, notified, version, subscribers[sid])
  }

  ghost predicate Safe(sys: Sys) {
    && SourceOk(sys.record, sys.events, sys.notified)
    && ObjectsOk(sys.current, sys.objects)
    && Retained(sys.current, sys.subscribers)
    && CountsOk(sys)
    && SubscribersOk(sys.events, sys.notified, Version(sys), sys.subscribers)
  }

  // ---- Writers -------------------------------------------------------------

  lemma {:induction false} SubscriberElapses(
      events: seq<Event>, later: seq<Event>, notified: nat, version: nat, s: Subscriber)
    requires events <= later && Yielded(events, s) && PhaseOk(events, notified, version, s)
    ensures Yielded(later, s) && PhaseOk(later, notified, version, s)
  {
  }

  lemma {:induction false} CommitSafe(sys: Sys, added: seq<Event>, terminal: bool)
    requires Safe(sys)
    ensures Safe(DoCommit(sys, added, terminal))
  {
    hide Retained, Active, Yielded, PhaseOk;
    var events := sys.events + added;
    forall sid | sid in sys.subscribers
      ensures Yielded(events, sys.subscribers[sid]) && PhaseOk(events, sys.notified, Version(sys), sys.subscribers[sid])
    {
      SubscriberElapses(sys.events, events, sys.notified, Version(sys), sys.subscribers[sid]);
    }
  }

  lemma {:induction false} SubscriberNotified(events: seq<Event>, notified: nat, version: nat, s: Subscriber)
    requires Yielded(events, s) && PhaseOk(events, notified, version, s)
    ensures Yielded(events, Wake(s)) && PhaseOk(events, |events|, version + 1, Wake(s))
  {
  }

  /** With no signal object there is no active subscriber to tell. */
  lemma {:induction false} UnheardSafe(sys: Sys)
    requires Safe(sys) && sys.current == None
    ensures Safe(sys.(notified := |sys.events|))
  {
    hide Yielded;
    forall sid | sid in sys.subscribers
      ensures PhaseOk(sys.events, |sys.events|, 0, sys.subscribers[sid])
    {
      assert sid !in Active(sys.subscribers);
    }
  }

  lemma {:induction false} NotifySafe(sys: Sys)
    requires Safe(sys)
    ensures Safe(DoNotify(sys))
  {
    hide Yielded, PhaseOk;
    if sys.current == None {
      UnheardSafe(sys);
    } else {
      var signalId := sys.current.value;
      var signal := SignalOf(sys, signalId);
      var after := DoNotify(sys);
      forall sid | sid in sys.subscribers
        ensures after.subscribers[sid] == Wake(sys.subscribers[sid])
      {
        if sys.subscribers[sid].phase.Waiting? {
          assert sid in Active(sys.subscribers);
        }
      }
      assert Active(after.subscribers) == Active(sys.subscribers);
      forall sid | sid in sys.subscribers
        ensures Yielded(sys.events, after.subscribers[sid])
          && PhaseOk(sys.events, |sys.events|, signal.version + 1, after.subscribers[sid])
      {
        SubscriberNotified(sys.events, sys.notified, signal.version, sys.subscribers[sid]);
      }
    }
  }

  // ---- One subscriber ------------------------------------------------------

  /** A change of one active subscriber's own variables; nobody starts or ends to wait. */
  lemma {:induction false} SubscriberMoves(sys: Sys, sid: nat, next: Subscriber)
    requires Safe(sys) && sid in Active(sys.subscribers)
    requires next.retained == sys.subscribers[sid].retained
    requires !next.phase.Finished? && !next.phase.Waiting? && !sys.subscribers[sid].phase.Waiting?
    requires Yielded(sys.events, next) && PhaseOk(sys.events, sys.notified, Version(sys), next)
    ensures Safe(Stay(sys, sid, next))
  {
    hide Yielded, PhaseOk, SourceOk;
    assert Active(sys.subscribers[sid := next]) == Active(sys.subscribers);
  }

  lemma {:induction false} Standing(sys: Sys, sid: nat)
    requires Safe(sys) && sid in sys.subscribers && !sys.subscribers[sid].phase.Finished?
    ensures sid in Active(sys.subscribers) && sys.current == Some(sys.subscribers[sid].retained)
    ensures SignalOf(sys, sys.subscribers[sid].retained).version == Version(sys)
    ensures Yielded(sys.events, sys.subscribers[sid])
      && PhaseOk(sys.events, sys.notified, Version(sys), sys.subscribers[sid])
    ensures SourceOk(sys.record, sys.events, sys.notified)
  {
    hide Yielded, PhaseOk, SourceOk;
  }

  lemma {:induction false} ReadVersionSafe(sys: Sys, sid: nat)
    requires Safe(sys)
    ensures Safe(DoReadVersion(sys, sid))
  {
    hide Safe, Yielded, Active;
    if sid in sys.subscribers && sys.subscribers[sid].phase == Top {
      Standing(sys, sid);
      YieldedSame(sys.events, sys.subscribers[sid], Reading(Version(sys)));
      SubscriberMoves(sys, sid, sys.subscribers[sid].(phase := Reading(Version(sys))));
    }
  }

  lemma {:induction false} YieldedSame(events: seq<Event>, s: Subscriber, phase: Phase)
    requires Yielded(events, s)
    ensures Yielded(events, s.(phase := phase))
  {
  }

  lemma {:induction false} ReadEventsSafe(sys: Sys, sid: nat)
    requires Safe(sys)
    ensures Safe(DoReadEvents(sys, sid))
  {
    hide Safe, Yielded, Active;
    if sid in sys.subscribers && sys.subscribers[sid].phase.Reading? {
      Standing(sys, sid);
      var s := sys.subscribers[sid];
      var phase := Yielding(s.phase.observed, After(sys.events, s.cursor));
      YieldedSame(sys.events, s, phase);
      SubscriberMoves(sys, sid, s.(phase := phase));
    }
  }

  lemma {:induction false} YieldedOneMore(events: seq<Event>, s: Subscriber)
    requires Numbered(events) && Yielded(events, s) && s.phase.Yielding? && s.phase.pending != []
    requires Pending(events, s.cursor, s.phase.pending)
    ensures s.phase.pending[0].sequence == s.cursor + 1
    ensures Yielded(events, s.(cursor := s.cursor + 1, yielded := s.yielded + [s.phase.pending[0]]))
    ensures Pending(events, s.cursor + 1, s.phase.pending[1..])
  {
    assert s.phase.pending[0] == events[s.cursor];
    assert events[s.start..s.cursor + 1] == events[s.start..s.cursor] + [events[s.cursor]];
  }

  lemma {:induction false} YieldNextSafe(sys: Sys, sid: nat)
    requires Safe(sys)
    ensures Safe(DoYieldNext(sys, sid))
  {
    hide Safe, Yielded, Active, Pending;
    if sid in sys.subscribers && sys.subscribers[sid].phase.Yielding? {
      Standing(sys, sid);
      var s := sys.subscribers[sid];
      var pending := s.phase.pending;
      if pending == [] {
        YieldedSame(sys.events, s, Checking(s.phase.observed));
        SubscriberMoves(sys, sid, s.(phase := Checking(s.phase.observed)));
      } else {
        YieldedOneMore(sys.events, s);
        var next := s.(cursor := s.cursor + 1, yielded := s.yielded + [pending[0]]);
        YieldedSame(sys.events, next, Yielding(s.phase.observed, pending[1..]));
        SubscriberMoves(sys, sid, next.(phase := Yielding(s.phase.observed, pending[1..])));
      }
    }
  }

  lemma {:induction false} ReadRecordSafe(sys: Sys, sid: nat)
    requires Safe(sys)
    ensures Safe(DoReadRecord(sys, sid))
  {
    hide Safe, Active;
    if sid in sys.subscribers && sys.subscribers[sid].phase.Checking? {
      Standing(sys, sid);
      var s := sys.subscribers[sid];
      SubscriberMoves(sys, sid, s.(phase := Deciding(s.phase.observed, sys.record)));
    }
  }

  // ---- Coming, waiting and leaving -----------------------------------------

  /** Without a signal object nobody is subscribed. */
  lemma {:induction false} NobodyActive(sys: Sys)
    requires Retained(sys.current, sys.subscribers) && sys.current == None
    ensures Active(sys.subscribers) == {}
    ensures forall sid | sid in sys.subscribers :: sys.subscribers[sid].phase.Finished?
  {
    assert Active(sys.subscribers) == {};
    AllFinished(sys.subscribers);
  }

  ghost predicate SignalsOk(sys: Sys) {
    ObjectsOk(sys.current, sys.objects) && CountsOk(sys) && Retained(sys.current, sys.subscribers)
  }

  lemma {:induction false} FoundSignal(sys: Sys)
    requires SignalsOk(sys)
    ensures var (found, signalId) := State(sys);
      SignalsOk(found) && found.current == Some(signalId) && found.subscribers == sys.subscribers
  {
    hide Active;
    if sys.current == None {
      NobodyActive(sys);
    }
  }

  lemma {:induction false} JoinedSignal(sys: Sys, signalId: nat, sid: nat, s: Subscriber)
    requires SignalsOk(sys) && sys.current == Some(signalId) && sid !in sys.subscribers
    requires s.retained == signalId && s.phase == Top
    ensures var signal := SignalOf(sys, signalId);
      SignalsOk(WithSignal(sys, signalId,
          signal.(observers := signal.observers + 1)).(subscribers := sys.subscribers[sid := s]))
  {
    assert Active(sys.subscribers[sid := s]) == Active(sys.subscribers) + {sid};
  }

  lemma {:induction false} JoinedCounts(sys: Sys, sid: nat, after: nat)
    requires Safe(sys) && sid !in sys.subscribers
    ensures SignalsOk(DoSubscribe(sys, sid, after))
  {
    hide SubscribersOk, SourceOk, ObjectsOk, CountsOk, Retained;
    FoundSignal(sys);
    var (found, signalId) := State(sys);
    JoinedSignal(found, signalId, sid, Subscriber(after, after, [], signalId, Top));
  }

  lemma {:induction false} JoinedOk(sys: Sys, sid: nat, after: nat)
    requires Safe(sys) && sid !in sys.subscribers
    ensures var s := DoSubscribe(sys, sid, after);
      SubscribersOk(s.events, s.notified, Version(s), s.subscribers)
  {
    hide Yielded, SourceOk, Active;
    YieldedNothing(sys.events,
        Subscriber(after, after, [], DoSubscribe(sys, sid, after).subscribers[sid].retained, Top));
    if sys.current == None {
      NobodyActive(sys);
    }
  }

  lemma {:induction false} SubscribeSafe(sys: Sys, sid: nat, after: nat)
    requires Safe(sys)
    ensures Safe(DoSubscribe(sys, sid, after))
  {
    hide SubscribersOk, SourceOk, ObjectsOk, CountsOk, Retained;
    if sid !in sys.subscribers {
      JoinedCounts(sys, sid, after);
      JoinedOk(sys, sid, after);
    }
  }

  lemma {:induction false} YieldedNothing(events: seq<Event>, s: Subscriber)
    requires s.start == s.cursor && s.yielded == []
    ensures Yielded(events, s)
  {
  }

  /** A waiter is registered with the object in the map, which is the one the subscriber retained. */
  lemma {:induction false} WaiterAdded(sys: Sys, sid: nat)
    requires Safe(sys) && sid in sys.subscribers && sys.subscribers[sid].phase.Deciding?
    requires sys.subscribers[sid].phase.observed == Version(sys)
    ensures var s := sys.subscribers[sid];
      var signal := SignalOf(sys, s.retained);
      Safe(Stay(WithSignal(sys, s.retained, signal.(waiters := signal.waiters + {sid})), sid,
          s.(phase := Waiting(s.phase.observed))))
  {
    hide Yielded, SourceOk;
    var s := sys.subscribers[sid];
    Standing(sys, sid);
    YieldedSame(sys.events, s, Waiting(s.phase.observed));
    assert Active(sys.subscribers[sid := s.(phase := Waiting(s.phase.observed))]) == Active(sys.subscribers);
  }

  lemma {:induction false} WaiterRemoved(sys: Sys, sid: nat)
    requires Safe(sys)
    ensures Safe(DoTimeout(sys, sid))
  {
    hide Yielded, SourceOk;
    if sid in sys.subscribers && sys.subscribers[sid].phase.Waiting? {
      var s := sys.subscribers[sid];
      Standing(sys, sid);
      YieldedSame(sys.events, s, Top);
      assert Active(sys.subscribers[sid := s.(phase := Top)]) == Active(sys.subscribers);
    }
  }

  /** A finished subscriber keeps what it yielded; the rest see the map's object go only when they are gone. */
  lemma {:induction false} FinishSafe(sys: Sys, sid: nat, ended: Option<Seen>)
    requires Safe(sys) && sid in sys.subscribers && !sys.subscribers[sid].phase.Finished?
      && !sys.subscribers[sid].phase.Waiting?
    requires PhaseOk(sys.events, sys.notified, Version(sys), sys.subscribers[sid].(phase := Finished(ended)))
    ensures Safe(Finish(sys, sid, ended))
  {
    hide Yielded, SourceOk, PhaseOk;
    var s := sys.subscribers[sid];
    Standing(sys, sid);
    YieldedSame(sys.events, s, Finished(ended));
    var after := Finish(sys, sid, ended);
    assert Active(after.subscribers) == Active(sys.subscribers) - {sid};
    if after.current == None {
      assert |Active(after.subscribers)| == 0;
      AllFinished(after.subscribers);
      forall other | other in after.subscribers
        ensures PhaseOk(sys.events, sys.notified, 0, after.subscribers[other])
      {
        FinishedAnyVersion(sys.events, sys.notified, Version(sys), after.subscribers[other]);
      }
    }
  }

  lemma {:induction false} AllFinished(subscribers: map<nat, Subscriber>)
    requires |Active(subscribers)| == 0
    ensures forall sid | sid in subscribers :: subscribers[sid].phase.Finished?
  {
    forall sid | sid in subscribers
      ensures subscribers[sid].phase.Finished?
    {
      assert sid !in Active(subscribers);
    }
  }

  lemma {:induction false} FinishedAnyVersion(events: seq<Event>, notified: nat, version: nat, s: Subscriber)
    requires s.phase.Finished? && PhaseOk(events, notified, version, s)
    ensures PhaseOk(events, notified, 0, s)
  {
  }

  lemma {:induction false} StopSafe(sys: Sys, sid: nat)
    requires Safe(sys)
    ensures Safe(DoStop(sys, sid))
  {
    hide Safe, Yielded;
    if sid in sys.subscribers && !sys.subscribers[sid].phase.Finished? {
      WaiterRemoved(sys, sid);
      FinishSafe(DoTimeout(sys, sid), sid, None);
    }
  }

  lemma {:induction false} DecideSafe(sys: Sys, sid: nat)
    requires Safe(sys)
    ensures Safe(DoDecide(sys, sid))
  {
    hide Safe, Active, Finish;
    if sid in sys.subscribers && sys.subscribers[sid].phase.Deciding? {
      var s := sys.subscribers[sid];
      var seen := s.phase.seen;
      Standing(sys, sid);
      if seen == None {
        FinishSafe(sys, sid, None);
      } else if seen.value.terminal && seen.value.last <= s.cursor {
        FinishSafe(sys, sid, seen);
      } else if seen.value.last > s.cursor || Version(sys) != s.phase.observed {
        SubscriberMoves(sys, sid, s.(phase := Top));
      } else {
        WaiterAdded(sys, sid);
      }
    }
  }

  lemma {:induction false} MoveSafe(sys: Sys, move: Move)
    requires Safe(sys)
    ensures Safe(Do(sys, move))
  {
    hide Safe, DoCommit, DoNotify, DoSubscribe, DoReadVersion, DoReadEvents, DoYieldNext, DoReadRecord, DoDecide,
        DoTimeout, DoStop;
    match move
    case Commit(added, terminal) => CommitSafe(sys, added, terminal);
    case Notify => NotifySafe(sys);
    case Subscribe(sid, after) => SubscribeSafe(sys, sid, after);
    case ReadVersion(sid) => ReadVersionSafe(sys, sid);
    case ReadEvents(sid) => ReadEventsSafe(sys, sid);
    case YieldNext(sid) => YieldNextSafe(sys, sid);
    case ReadRecord(sid) => ReadRecordSafe(sys, sid);
    case Decide(sid) => DecideSafe(sys, sid);
    case Timeout(sid) => WaiterRemoved(sys, sid);
    case Stop(sid) => StopSafe(sys, sid);
  }

  lemma {:induction false} ReachableSafe(moves: seq<Move>)
    ensures Safe(Run(Init(), moves))
  {
    hide Do;
    if moves != [] {
      hide Safe;
      ReachableSafe(moves[..|moves| - 1]);
      MoveSafe(Run(Init(), moves[..|moves| - 1]), moves[|moves| - 1]);
    }
  }

  // ---- What subscribers may rely on ----------------------------------------

  /**
   * Whatever the interleaving, a subscriber has yielded the history from its start to its cursor:
   * no gap, no duplicate.
   */
  lemma {:induction false} NoGapNoDuplicate(moves: seq<Move>, sid: nat)
    requires sid in Run(Init(), moves).subscribers
    ensures Yielded(Run(Init(), moves).events, Run(Init(), moves).subscribers[sid])
  {
    hide Run, SourceOk, ObjectsOk, Retained, CountsOk, PhaseOk, Yielded;
    ReachableSafe(moves);
  }

  /** A subscription that returned because of a terminal record had yielded all events of the record it read. */
  lemma {:induction false} TerminalReturnIsComplete(moves: seq<Move>, sid: nat)
    requires sid in Run(Init(), moves).subscribers
    requires Run(Init(), moves).subscribers[sid].phase.Finished?
      && Run(Init(), moves).subscribers[sid].phase.ended.Some?
    ensures var s, events := Run(Init(), moves).subscribers[sid], Run(Init(), moves).events;
      var last := s.phase.ended.value.last;
      && last <= |events|
      && s.yielded == if s.start >= last then [] else events[s.start..last]
  {
    hide Run, SourceOk, ObjectsOk, Retained, CountsOk;
    ReachableSafe(moves);
  }

  /** No lost wake-up: a subscriber that sleeps has yielded every event that was ever notified. */
  lemma {:induction false} SleepersAreUpToDate(moves: seq<Move>, sid: nat)
    requires sid in Run(Init(), moves).subscribers && Run(Init(), moves).subscribers[sid].phase.Waiting?
    ensures var sys := Run(Init(), moves);
      && sys.notified <= sys.subscribers[sid].cursor
      && sys.current == Some(sys.subscribers[sid].retained)
      && sid in SignalOf(sys, sys.subscribers[sid].retained).waiters
  {
    hide Run, SourceOk, Yielded;
    ReachableSafe(moves);
    Standing(Run(Init(), moves), sid);
  }

  /** A notification leaves nobody asleep. */
  lemma {:induction false} NotifyWakesAll(moves: seq<Move>, sid: nat)
    requires sid in Run(Init(), moves).subscribers
    ensures !DoNotify(Run(Init(), moves)).subscribers[sid].phase.Waiting?
  {
    hide Run, SourceOk, Yielded, PhaseOk;
    ReachableSafe(moves);
    if Run(Init(), moves).subscribers[sid].phase.Waiting? {
      Standing(Run(Init(), moves), sid);
    }
  }

  /** The signal object an active subscriber retained is never replaced or dropped. */
  lemma {:induction false} RetainedStays(moves: seq<Move>, sid: nat)
    requires sid in Active(Run(Init(), moves).subscribers)
    ensures Run(Init(), moves).current == Some(Run(Init(), moves).subscribers[sid].retained)
  {
    hide Run, SourceOk, Yielded, PhaseOk, Active;
    ReachableSafe(moves);
  }

  // ---- Undisturbed progress ------------------------------------------------

  function YieldTimes(sys: Sys, sid: nat, n: nat): Sys
    decreases n
  {
    if n == 0 then sys else YieldTimes(DoYieldNext(sys, sid), sid, n - 1)
  }

  /** Yielding everything that was read brings the cursor to its end. */
  lemma {:induction false} YieldsPending(sys: Sys, sid: nat)
    requires Numbered(sys.events) && sid in sys.subscribers && sys.subscribers[sid].phase.Yielding?
    requires Pending(sys.events, sys.subscribers[sid].cursor, sys.subscribers[sid].phase.pending)
    ensures var s := sys.subscribers[sid];
      var pending := s.phase.pending;
      YieldTimes(sys, sid, |pending| + 1)
      == Stay(sys, sid, s.(cursor := s.cursor + |pending|, yielded := s.yielded + pending,
          phase := Checking(s.phase.observed)))
    decreases |sys.subscribers[sid].phase.pending|
  {
    var s := sys.subscribers[sid];
    var pending := s.phase.pending;
    if pending == [] {
      assert s.yielded + pending == s.yielded;
    } else {
      var next := DoYieldNext(sys, sid);
      assert pending[0] == sys.events[s.cursor];
      assert next == Stay(sys, sid,
          Subscriber(s.start, s.cursor + 1, s.yielded + [pending[0]], s.retained,
          Yielding(s.phase.observed, pending[1..])));
      YieldsPending(next, sid);
      assert s.yielded + [pending[0]] + pending[1..] == s.yielded + pending;
      assert sys.subscribers[sid := next.subscribers[sid]][sid := YieldTimes(next, sid, |pending|).subscribers[sid]]
        == sys.subscribers[sid := YieldTimes(next, sid, |pending|).subscribers[sid]];
    }
  }

  /**
   * One undisturbed turn of a subscriber at the top of its loop yields all events it had not seen; it
   * then returns if the record is terminal or missing, and sleeps otherwise.
   */
  lemma {:induction false} UndisturbedTurnCatchesUp(sys: Sys, sid: nat)
    requires Safe(sys) && sid in sys.subscribers && sys.subscribers[sid].phase == Top
    ensures var s := sys.subscribers[sid];
      var read := Do(Do(sys, ReadVersion(sid)), ReadEvents(sid));
      var yielded := YieldTimes(read, sid, |After(sys.events, s.cursor)| + 1);
      var after := Do(Do(yielded, ReadRecord(sid)), Decide(sid));
      && sid in after.subscribers
      && after.subscribers[sid].cursor == (if s.cursor <= |sys.events| then |sys.events| else s.cursor)
      && after.subscribers[sid].yielded == s.yielded + After(sys.events, s.cursor)
      && (if sys.record == None || sys.record.value.terminal then after.subscribers[sid].phase == Finished(sys.record)
          else after.subscribers[sid].phase.Waiting?)
  {
    hide Safe, Yielded, Active, PhaseOk, Release;
    var s := sys.subscribers[sid];
    Standing(sys, sid);
    var read := Do(Do(sys, ReadVersion(sid)), ReadEvents(sid));
    assert read.subscribers[sid] == s.(phase := Yielding(Version(sys), After(sys.events, s.cursor)));
    YieldsPending(read, sid);
    hide YieldTimes, Numbered;
  }

  /** Nobody notifies of the commits of other processes: a sleeper finds them by itself when it times out. */
  lemma {:induction false} TimeoutFindsAllCommits(moves: seq<Move>, sid: nat)
    requires sid in Run(Init(), moves).subscribers && Run(Init(), moves).subscribers[sid].phase.Waiting?
    ensures var sys := Run(Init(), moves);
      var s := sys.subscribers[sid];
      var read := Do(Do(Do(sys, Timeout(sid)), ReadVersion(sid)), ReadEvents(sid));
      var after := YieldTimes(read, sid, |After(sys.events, s.cursor)| + 1);
      && sid in after.subscribers
      && after.subscribers[sid].yielded == s.yielded + After(sys.events, s.cursor)
      && after.subscribers[sid].phase.Checking?
  {
    hide Run, Safe, Yielded, Active, PhaseOk;
    ReachableSafe(moves);
    var sys := Run(Init(), moves);
    var s := sys.subscribers[sid];
    MoveSafe(sys, Timeout(sid));
    var top := Do(sys, Timeout(sid));
    Standing(top, sid);
    var read := Do(Do(top, ReadVersion(sid)), ReadEvents(sid));
    YieldsPending(read, sid);
    hide YieldTimes;
  }

  /** A subscriber starts behind its cursor, and a commit that numbers its events on extends the history. */
  lemma {:induction false} SubscriptionStarts(sys: Sys, sid: nat, after: nat)
    requires Safe(sys) && sid !in sys.subscribers
    ensures var begun := Do(sys, Subscribe(sid, after));
      && Safe(begun) && sid in begun.subscribers
      && begun.subscribers[sid].phase == Top && begun.subscribers[sid].yielded == []
      && begun.subscribers[sid].start == begun.subscribers[sid].cursor == after
      && begun.events == sys.events && begun.record == sys.record
  {
    hide Safe;
    SubscribeSafe(sys, sid, after);
  }

  lemma {:induction false} CommitExtends(sys: Sys, added: seq<Event>, terminal: bool)
    requires Safe(sys) && forall i | 0 <= i < |added| :: added[i].sequence == |sys.events| + i + 1
    ensures var after := Do(sys, Commit(added, terminal));
      && after.events == sys.events + added
      && after.record == Some(Seen(|sys.events| + |added|, terminal))
      && after.subscribers == sys.subscribers
  {
    hide ObjectsOk, Retained, CountsOk, Yielded, PhaseOk;
  }
}
