/** The subscription kernel with its signal objects, and the cursor loop over a source that others extend. */
module DurableSubscription {
  import opened Records
  import Protocol = SubscriptionProtocol

  class RecordSignal {
    var version: nat
    var observers: nat
    var waiters: set<nat>

    constructor ()
      ensures version == 0 && observers == 0 && waiters == {}
    {
      version, observers, waiters := 0, 0, {};
    }

    /** The fields as a value of the protocol. */
    function Contents(): Protocol.Signal
      reads this
    {
      Protocol.Signal(version, observers, waiters)
    }
  }

  /** How a subscription ends: by its record, without one, by its abort signal, or by its consumer. */
  datatype SubscriptionEnd = Terminal | Missing | Aborted | Stopped

  /** The persisted events of a record, once it is present; other writers may extend them between any two statements. */
  class EventSource {
    var present: bool
    var events: seq<Event>
    var terminal: bool

    constructor ()
      ensures events == [] && !terminal && !present
    {
      present, events, terminal := false, [], false;
    }

    ghost predicate Valid()
      reads this
    {
      Numbered(events) && (!present ==> events == [])
    }

    /** Any number of commits by anyone. */
    method Elapse()
      requires Valid()
      modifies this
      ensures Valid() && old(events) <= events && (old(present) ==> present)
    {
      var created: bool := *;
      present := present || created;
      if present {
        var commits: nat :| true;
        for i: nat := 0 to commits
          invariant Valid() && old(events) <= events && present
        {
          var at: Time, name: string := *, *;
          events := events + [Event(|events| + 1, at, Other(name))];
        }
      }
      terminal := *;
    }

    method EventsAfter(cursor: nat) returns (after: seq<Event>)
      ensures after == Protocol.After(events, cursor)
    {
      return if cursor >= |events| then [] else events[cursor..];
    }
  }

  class DurableEventSubscription {
    var signals: map<string, RecordSignal>

    /** Each record has a signal object of its own. */
    ghost predicate Valid()
      reads this
    {
      forall a, b | a in signals && b in signals && signals[a] == signals[b] :: a == b
    }

    constructor ()
      ensures Valid() && signals == map[]
    {
      signals := map[];
    }

    /** Bumps the version and wakes (forgets) all waiters of the record, and touches no other signal. */
    method NotifyPersisted(id: string)
      requires Valid()
      modifies if id in signals then {signals[id]} else {}
      ensures id in signals ==>
        signals[id].Contents() == Protocol.Signal(old(signals[id].version) + 1, old(signals[id].observers), {})
    {
      if id !in signals {
        return;
      }
      var state := signals[id];
      state.version := state.version + 1;
      while state.waiters != {}
        invariant state.version == old(state.version) + 1 && state.observers == old(state.observers)
        decreases |state.waiters|
      {
        var wake :| wake in state.waiters;
        state.waiters := state.waiters - {wake};
      }
    }

    /** `#state`. */
    method State(id: string) returns (state: RecordSignal)
      requires Valid()
      requires forall other | other in signals :: allocated(signals[other])
      modifies this
      ensures Valid() && id in signals && signals[id] == state
      ensures if id in old(signals) then signals == old(signals)
              else fresh(state) && signals == old(signals)[id := state] && state.Contents() == Protocol.Signal(0, 0, {})
    {
      if id in signals {
        return signals[id];
      }
      state := new RecordSignal();
      signals := signals[id := state];
    }

    /** `#retain`: the object in the map stays the same one if there was one. */
    method Retain(id: string) returns (state: RecordSignal)
      requires Valid()
      modifies this, if id in signals then {signals[id]} else {}
      ensures Valid() && id in signals && signals[id] == state
      ensures id in old(signals) ==> state == old(signals[id]) && signals == old(signals)
      ensures id in old(signals) ==>
        state.Contents() == old(signals[id].Contents()).(observers := old(signals[id].observers) + 1)
      ensures id !in old(signals) ==> fresh(state) && signals == old(signals)[id := state]
      ensures id !in old(signals) ==> state.Contents() == Protocol.Signal(0, 1, {})
    {
      state := State(id);
      state.observers := state.observers + 1;
    }

    /** `#release`: only the last observer of the object in the map removes it. */
    method Release(id: string, state: RecordSignal)
      requires Valid() && state.observers > 0
      modifies this, state
      ensures Valid()
      ensures state.Contents() == old(state.Contents()).(observers := old(state.observers) - 1)
      ensures signals == if old(state.observers) == 1 && old(state.waiters) == {} && id in old(signals)
        && old(signals)[id] == state
                         then old(signals) - {id} else old(signals)
    {
      state.observers := state.observers - 1;
      if state.observers == 0 && state.waiters == {} && id in signals && signals[id] == state {
        signals := signals - {id};
      }
    }

    /**
     * `subscribe`, stopped by its consumer after at most `rounds` turns of the loop: what it yields is
     * the history between its start and its cursor, whatever others commit meanwhile, and already after
     * its first turn all events there were when it began; it ends with a terminal record exactly when it
     * has yielded every event of it, and without a record it yields nothing at all. The abort signal
     * fires at the top of turn `r` if `fires(r)`.
     */
    method Subscribe(source: EventSource, id: string, after: nat, rounds: nat, fires: nat -> bool)
      returns (yielded: seq<Event>, end: SubscriptionEnd)
      requires Valid() && source.Valid()
      modifies this, source, if id in signals then {signals[id]} else {}
      ensures source.Valid() && old(source.events) <= source.events
      ensures yielded == [] || (after + |yielded| <= |source.events|
        && yielded == source.events[after..after + |yielded|])
      ensures rounds > 0 && !fires(0) ==> |old(source.events)| <= after + |yielded|
      ensures end == Aborted ==> exists r: nat :: r < rounds && fires(r)
      ensures rounds > 0 && end != Aborted ==> end == EndOf(source, after + |yielded|)
      ensures end == Missing ==> yielded == []
      ensures signals == old(signals) || signals == old(signals) - {id}
      ensures id in old(signals) ==> old(signals[id]).Contents() == old(signals[id].Contents())
    {
      var retained := Retain(id);
      var cursor := after;
      yielded, end := [], Stopped;
      var round: nat := 0;
      while round < rounds && end == Stopped
        invariant source.Valid() && old(source.events) <= source.events && round <= rounds
        invariant cursor == after + |yielded|
        invariant yielded == [] || (cursor <= |source.events| && yielded == source.events[after..cursor])
        invariant round > 0 && !fires(0) ==> |old(source.events)| <= cursor
        invariant end == Aborted ==> round > 0 && fires(round - 1)
        invariant round > 0 && end != Aborted ==> end == EndOf(source, cursor)
        invariant round == 0 ==> end == Stopped
        invariant end == Missing ==> yielded == []
        modifies source
        decreases rounds - round, end == Stopped
      {
        cursor, yielded, end := Turn(source, after, cursor, yielded, fires(round));
        round := round + 1;
      }
      Release(id, retained);
    }

    /** What a turn decides when its cursor has come to `cursor`. */
    static function EndOf(source: EventSource, cursor: nat): SubscriptionEnd
      reads source
    {
      if !source.present then Missing
      else if source.terminal && |source.events| <= cursor then Terminal
      else Stopped
    }

    /** One turn of the loop; `Stopped` goes on to the next one. */
    static method Turn(source: EventSource, after: nat, from: nat, sofar: seq<Event>, fired: bool)
      returns (cursor: nat, yielded: seq<Event>, end: SubscriptionEnd)
      requires source.Valid() && from == after + |sofar|
      requires sofar == [] || (from <= |source.events| && sofar == source.events[after..from])
      modifies source
      ensures source.Valid() && old(source.events) <= source.events
      ensures cursor == after + |yielded| && from <= cursor
      ensures yielded == [] || (cursor <= |source.events| && yielded == source.events[after..cursor])
      ensures fired ==> yielded == sofar
      ensures !fired ==> |old(source.events)| <= cursor
      ensures end == if fired then Aborted else EndOf(source, cursor)
      ensures end == Missing ==> yielded == []
    {
      if fired {
        return from, sofar, Aborted;
      }
      source.Elapse();
      var events := source.EventsAfter(from);
      cursor, yielded := YieldAll(source, events, after, from, sofar);
      source.Elapse();
      end := if !source.present then Missing
          else if source.terminal && |source.events| <= cursor then Terminal
          else Stopped;
    }

    /** The inner loop: the consumer may take any time between two events. */
    static method YieldAll(source: EventSource, events: seq<Event>, after: nat, from: nat, sofar: seq<Event>)
      returns (cursor: nat, yielded: seq<Event>)
      requires source.Valid() && events == Protocol.After(source.events, from)
      requires from == after + |sofar|
      requires sofar == [] || (from <= |source.events| && sofar == source.events[after..from])
      modifies source
      ensures source.Valid() && old(source.events) <= source.events
      ensures cursor == after + |yielded|
      ensures yielded == [] || (cursor <= |source.events| && yielded == source.events[after..cursor])
      ensures |old(source.events)| <= cursor && from <= cursor
    {
      ghost var seen := source.events;
      cursor, yielded := from, sofar;
      for i := 0 to |events|
        invariant source.Valid() && seen <= source.events
        invariant cursor == from + i && cursor == after + |yielded|
        invariant yielded == [] || (cursor <= |seen| && yielded == seen[after..cursor])
      {
        assert events[i] == seen[cursor];
        if events[i].sequence > cursor {
          cursor := events[i].sequence;
          yielded := yielded + [events[i]];
        }
        source.Elapse();
      }
    }
  }
}
