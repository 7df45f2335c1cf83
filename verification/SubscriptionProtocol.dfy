/**
 * Subscribers of one record's persisted events, interleaved with any writers. Commits by other
 * processes notify nobody here; a commit of this process is followed by `notifyPersisted`, with
 * anything in between. Each move is what runs between two awaits.
 */
module SubscriptionProtocol {
  import opened Prelude
  import opened Records

  /** `RecordSignal`; a waiter is known by its subscriber. */
  datatype Signal = Signal(version: nat, observers: nat, waiters: set<nat>)

  /** What a subscriber read of the record: its last sequence number and whether it is terminal. */
  datatype Seen = Seen(last: nat, terminal: bool)

  datatype Phase =
    | Top                                            // start of the loop body
    | Reading(observed: nat)                         // the version is read, the events are not
    | Yielding(observed: nat, pending: seq<Event>)
    | Checking(observed: nat)                        // the record is not read yet
    | Deciding(observed: nat, seen: Option<Seen>)
    | Waiting(observed: nat)                         // registered for a wake-up
    | Finished(ended: Option<Seen>)                  // returned (with the terminal record it saw) or stopped

  /** `retained` is the identity of the signal object the subscriber keeps a reference to. */
  datatype Subscriber = Subscriber(start: nat, cursor: nat, yielded: seq<Event>, retained: nat, phase: Phase)

  /**
   * `current` is the signal object in the map, `objects` all that were ever created, `notified` how
   * many events the record had when it was last notified.
   */
  datatype Sys = Sys(
    record: Option<Seen>, events: seq<Event>, notified: nat,
    current: Option<nat>, objects: map<nat, Signal>, subscribers: map<nat, Subscriber>)

  function Init(): Sys {
    Sys(None, [], 0, None, map[], map[])
  }

  // ---- Signals -------------------------------------------------------------

  /** `#state`: the object in the map, or a new one. */
  function State(sys: Sys): (Sys, nat) {
    if sys.current.Some? then (sys, sys.current.value)
    else
      var made := |sys.objects|;
      (sys.(current := Some(made), objects := sys.objects[made := Signal(0, 0, {})]), made)
  }

  function SignalOf(sys: Sys, signalId: nat): Signal {
    if signalId in sys.objects then sys.objects[signalId] else Signal(0, 0, {})
  }

  function WithSignal(sys: Sys, signalId: nat, signal: Signal): Sys {
    sys.(objects := sys.objects[signalId := signal])
  }

  /** `#retain`. */
  function Retain(sys: Sys): (Sys, nat) {
    var (after, signalId) := State(sys);
    (WithSignal(after, signalId, SignalOf(after, signalId).(observers := SignalOf(after, signalId).observers + 1)),
        signalId)
  }

  /** `#release`: the last observer takes the object out of the map, if it is still there. */
  function Release(sys: Sys, signalId: nat): Sys {
    var signal := SignalOf(sys, signalId);
    var left := signal.(observers := if signal.observers == 0 then 0 else signal.observers - 1);
    var after := WithSignal(sys, signalId, left);
    if left.observers == 0 && left.waiters == {} && sys.current == Some(signalId) then after.(current := None)
        else after
  }

  // ---- Moves ---------------------------------------------------------------

  datatype Move =
    | Commit(added: seq<Event>, terminal: bool)
    | Notify
    | Subscribe(sid: nat, after: nat)
    | ReadVersion(sid: nat)
    | ReadEvents(sid: nat)
    | YieldNext(sid: nat)
    | ReadRecord(sid: nat)
    | Decide(sid: nat)
    | Timeout(sid: nat)
    | Stop(sid: nat)

  function Do(sys: Sys, move: Move): Sys {
    match move
    case Commit(added, terminal) => DoCommit(sys, added, terminal)
    case Notify => DoNotify(sys)
    case Subscribe(sid, after) => DoSubscribe(sys, sid, after)
    case ReadVersion(sid) => DoReadVersion(sys, sid)
    case ReadEvents(sid) => DoReadEvents(sys, sid)
    case YieldNext(sid) => DoYieldNext(sys, sid)
    case ReadRecord(sid) => DoReadRecord(sys, sid)
    case Decide(sid) => DoDecide(sys, sid)
    case Timeout(sid) => DoTimeout(sys, sid)
    case Stop(sid) => DoStop(sys, sid)
  }

  /** A commit of any process extends the numbered history. */
  function DoCommit(sys: Sys, added: seq<Event>, terminal: bool): Sys {
    var events := sys.events + added;
    if Numbered(events) then sys.(record := Some(Seen(|events|, terminal)), events := events) else sys
  }

  function Wake(s: Subscriber): Subscriber {
    if s.phase.Waiting? then s.(phase := Top) else s
  }

  /** The subscribers after the waiters of a signal object are woken. */
  function WakeAll(subscribers: map<nat, Subscriber>, signalId: nat, waiters: set<nat>): map<nat, Subscriber> {
    map sid | sid in subscribers ::
      if sid in waiters && subscribers[sid].retained == signalId then Wake(subscribers[sid]) else subscribers[sid]
  }

  function DoNotify(sys: Sys): Sys {
    var told := sys.(notified := |sys.events|);
    if sys.current == None then told
    else
      var signalId := sys.current.value;
      var signal := SignalOf(sys, signalId);
      WithSignal(told, signalId, signal.(version := signal.version + 1, waiters := {}))
        .(subscribers := WakeAll(sys.subscribers, signalId, signal.waiters))
  }

  function DoSubscribe(sys: Sys, sid: nat, after: nat): Sys {
    if sid in sys.subscribers then sys
    else
      var (retained, signalId) := Retain(sys);
      retained.(subscribers := sys.subscribers[sid := Subscriber(after, after, [], signalId, Top)])
  }

  function Stay(sys: Sys, sid: nat, s: Subscriber): Sys {
    sys.(subscribers := sys.subscribers[sid := s])
  }

  function DoReadVersion(sys: Sys, sid: nat): Sys {
    if sid !in sys.subscribers || sys.subscribers[sid].phase != Top then sys
    else
      var s := sys.subscribers[sid];
      Stay(sys, sid, s.(phase := Reading(SignalOf(sys, s.retained).version)))
  }

  /** The events of a numbered history after a cursor. */
  function After(events: seq<Event>, cursor: nat): seq<Event> {
    if cursor >= |events| then [] else events[cursor..]
  }

  function DoReadEvents(sys: Sys, sid: nat): Sys {
    if sid !in sys.subscribers || !sys.subscribers[sid].phase.Reading? then sys
    else
      var s := sys.subscribers[sid];
      Stay(sys, sid, s.(phase := Yielding(s.phase.observed, After(sys.events, s.cursor))))
  }

  function DoYieldNext(sys: Sys, sid: nat): Sys {
    if sid !in sys.subscribers || !sys.subscribers[sid].phase.Yielding? then sys
    else
      var s := sys.subscribers[sid];
      var pending := s.phase.pending;
      if pending == [] then Stay(sys, sid, s.(phase := Checking(s.phase.observed)))
      else
        var rest := s.(phase := Yielding(s.phase.observed, pending[1..]));
        if pending[0].sequence <= s.cursor then Stay(sys, sid, rest)
        else Stay(sys, sid, rest.(cursor := pending[0].sequence, yielded := s.yielded + [pending[0]]))
  }

  function DoReadRecord(sys: Sys, sid: nat): Sys {
    if sid !in sys.subscribers || !sys.subscribers[sid].phase.Checking? then sys
    else
      var s := sys.subscribers[sid];
      Stay(sys, sid, s.(phase := Deciding(s.phase.observed, sys.record)))
  }

  function Finish(sys: Sys, sid: nat, ended: Option<Seen>): Sys
    requires sid in sys.subscribers
  {
    var s := sys.subscribers[sid];
    Stay(Release(sys, s.retained), sid, s.(phase := Finished(ended)))
  }

  /** Return, read again, or `#waitForChange`, which looks the signal up in the map anew. */
  function DoDecide(sys: Sys, sid: nat): Sys {
    if sid !in sys.subscribers || !sys.subscribers[sid].phase.Deciding? then sys
    else
      var s := sys.subscribers[sid];
      var seen := s.phase.seen;
      if seen == None then Finish(sys, sid, None)
      else if seen.value.terminal && seen.value.last <= s.cursor then Finish(sys, sid, seen)
      else if seen.value.last > s.cursor then Stay(sys, sid, s.(phase := Top))
      else
        var (found, signalId) := State(sys);
        var signal := SignalOf(found, signalId);
        if signal.version != s.phase.observed then Stay(found, sid, s.(phase := Top))
        else
          Stay(WithSignal(found, signalId, signal.(waiters := signal.waiters + {sid})), sid,
              s.(phase := Waiting(s.phase.observed)))
  }

  /** The refresh interval ran out. */
  function DoTimeout(sys: Sys, sid: nat): Sys {
    if sid !in sys.subscribers || !sys.subscribers[sid].phase.Waiting? then sys
    else
      var s := sys.subscribers[sid];
      var signal := SignalOf(sys, s.retained);
      Stay(WithSignal(sys, s.retained, signal.(waiters := signal.waiters - {sid})), sid, s.(phase := Top))
  }

  /** The consumer leaves, or the abort signal fires; a waiter is unregistered first. */
  function DoStop(sys: Sys, sid: nat): Sys {
    if sid !in sys.subscribers || sys.subscribers[sid].phase.Finished? then sys
        else Finish(DoTimeout(sys, sid), sid, None)
  }

  function Run(sys: Sys, moves: seq<Move>): Sys {
    if moves == [] then sys else Do(Run(sys, moves[..|moves| - 1]), moves[|moves| - 1])
  }
}
