/**
 * Route-pool member choice: the first least-active member in rotating order. The durable store
 * and the in-memory orchestrator run the same scan over their own active counts.
 */
module RoutePool {

  function Minimum(active: seq<nat>): nat
    requires active != []
  {
    if |active| == 1 then active[0]
    else
      var rest := Minimum(active[1..]);
      if active[0] < rest then active[0] else rest
  }

  /** The member at an offset from the cursor, going round. */
  function At(cursor: nat, offset: nat, n: nat): (index: nat)
    requires n > 0
    ensures index < n
  {
    (cursor + offset) % n
  }

  /** The scan from `offset` on, as the loop with `break` runs it; -1 when nothing matches. */
  function FirstLeast(active: seq<nat>, cursor: nat, minimum: nat, offset: nat): int
    requires active != []
    decreases |active| - offset
  {
    if offset >= |active| then -1
    else
      var index := At(cursor, offset, |active|);
      if active[index] == minimum then index else FirstLeast(active, cursor, minimum, offset + 1)
  }

  function Choose(active: seq<nat>, cursor: nat): int
    requires active != []
  {
    FirstLeast(active, cursor, Minimum(active), 0)
  }

  /** The selection loop of `#reserveRoute` and `admitRoutePool`. */
  method ChooseMember(active: seq<nat>, cursor: nat) returns (selected: int)
    requires active != []
    ensures selected == Choose(active, cursor)
  {
    var minimum := Minimum(active);
    selected := -1;
    for offset := 0 to |active|
      invariant selected == -1
      invariant FirstLeast(active, cursor, minimum, 0) == FirstLeast(active, cursor, minimum, offset)
    {
      var index := At(cursor, offset, |active|);
      if active[index] == minimum {
        return index;
      }
    }
  }

  // ---- Going round ---------------------------------------------------------

  /** How far the scan walks from the cursor to a member. */
  function Walk(cursor: nat, index: nat, n: nat): (offset: nat)
    requires n > 0
    ensures offset < n
  {
    (index - cursor) % n
  }

  /** A multiple of n strictly between -n and n is zero. */
  lemma {:induction false} SmallMultiple(factor: int, n: nat, product: int)
    requires product == factor * n && product < n && 0 < product + n
    ensures product == 0
  {
    assert factor >= 1 ==> factor * n >= n;
    assert factor <= -1 ==> factor * n + n <= 0;
  }

  lemma {:induction false} RemainderIsUnique(total: nat, quotient: int, remainder: nat, n: nat)
    requires remainder < n && total == quotient * n + remainder
    ensures total % n == remainder
  {
    var q := total / n;
    assert total == q * n + total % n;
    assert (q - quotient) * n == remainder - total % n;
    SmallMultiple(q - quotient, n, remainder - total % n);
  }

  lemma {:induction false} WalkReaches(cursor: nat, index: nat, n: nat)
    requires index < n
    ensures At(cursor, Walk(cursor, index, n), n) == index
  {
    var quotient := (index - cursor) / n;
    assert index - cursor == quotient * n + Walk(cursor, index, n);
    RemainderIsUnique(cursor + Walk(cursor, index, n), -quotient, index, n);
  }

  lemma {:induction false} WalkInverts(cursor: nat, offset: nat, n: nat)
    requires offset < n
    ensures Walk(cursor, At(cursor, offset, n), n) == offset
  {
    var index := At(cursor, offset, n);
    var q := (cursor + offset) / n;
    assert cursor + offset == q * n + index;
    var w := Walk(cursor, index, n);
    var p := (index - cursor) / n;
    assert index - cursor == p * n + w;
    assert offset - w == (q + p) * n;
    SmallMultiple(q + p, n, offset - w);
  }

  lemma {:induction false} AtReduced(cursor: nat, offset: nat, n: nat)
    requires n > 0
    ensures At(cursor % n, offset, n) == At(cursor, offset, n)
  {
    var q, p := cursor / n, (cursor % n + offset) / n;
    assert cursor == q * n + cursor % n;
    assert cursor % n + offset == p * n + At(cursor % n, offset, n);
    assert cursor + offset == (q + p) * n + At(cursor % n, offset, n);
    RemainderIsUnique(cursor + offset, q + p, At(cursor % n, offset, n), n);
  }

  lemma {:induction false} NextAt(cursor: nat, offset: nat, n: nat)
    requires n > 0
    ensures (At(cursor, offset, n) + 1) % n == At(cursor, offset + 1, n)
  {
    AtReduced(cursor + offset, 1, n);
  }

  // ---- What is chosen ------------------------------------------------------

  lemma {:induction false} MinimumIsLeast(active: seq<nat>)
    requires active != []
    ensures Minimum(active) in active && forall i | 0 <= i < |active| :: Minimum(active) <= active[i]
  {
    if |active| > 1 {
      MinimumIsLeast(active[1..]);
      forall i | 0 <= i < |active|
        ensures Minimum(active) <= active[i]
      {
        assert i > 0 ==> active[i] == active[1..][i - 1];
      }
    }
  }

  /** The scan stops no later than at any member that matches, and where it stops is a match. */
  lemma {:induction false} ScanStops(active: seq<nat>, cursor: nat, minimum: nat, offset: nat, bound: nat)
    returns (stop: nat)
    requires active != [] && offset <= bound < |active| && active[At(cursor, bound, |active|)] == minimum
    ensures offset <= stop <= bound
    ensures FirstLeast(active, cursor, minimum, offset) == At(cursor, stop, |active|)
    ensures active[At(cursor, stop, |active|)] == minimum
    ensures forall k: nat | offset <= k < stop :: active[At(cursor, k, |active|)] != minimum
    decreases bound - offset
  {
    hide At;
    if active[At(cursor, offset, |active|)] == minimum {
      stop := offset;
    } else {
      stop := ScanStops(active, cursor, minimum, offset + 1, bound);
    }
  }

  /** The choice is a least-active member, and every least-active member lies further along. */
  lemma {:induction false} ChoosesFirstLeastActive(active: seq<nat>, cursor: nat)
    requires active != []
    ensures var chosen := Choose(active, cursor);
      && 0 <= chosen < |active|
      && (forall i | 0 <= i < |active| :: active[chosen] <= active[i])
      && (forall i | 0 <= i < |active| && active[i] == active[chosen] ::
            Walk(cursor, chosen, |active|) <= Walk(cursor, i, |active|))
  {
    hide At, Walk;
    MinimumIsLeast(active);
    var member :| 0 <= member < |active| && active[member] == Minimum(active);
    WalkReaches(cursor, member, |active|);
    var stop := ScanStops(active, cursor, Minimum(active), 0, Walk(cursor, member, |active|));
    WalkInverts(cursor, stop, |active|);
    forall i | 0 <= i < |active| && active[i] == Minimum(active)
      ensures stop <= Walk(cursor, i, |active|)
    {
      WalkReaches(cursor, i, |active|);
    }
  }

  /** Only one member fits that description, so any two selectors that meet it agree. */
  lemma {:induction false} ChoiceIsUnique(active: seq<nat>, cursor: nat, chosen: nat)
    requires active != [] && chosen < |active|
    requires forall i | 0 <= i < |active| :: active[chosen] <= active[i]
    requires forall i | 0 <= i < |active| && active[i] == active[chosen] ::
      Walk(cursor, chosen, |active|) <= Walk(cursor, i, |active|)
    ensures Choose(active, cursor) == chosen
  {
    hide At, Walk;
    ChoosesFirstLeastActive(active, cursor);
    WalkReaches(cursor, chosen, |active|);
    WalkReaches(cursor, Choose(active, cursor), |active|);
  }

  lemma {:induction false} ScanReduced(active: seq<nat>, cursor: nat, minimum: nat, offset: nat)
    requires active != []
    ensures FirstLeast(active, cursor, minimum, offset) == FirstLeast(active, cursor % |active|, minimum, offset)
    decreases |active| - offset
  {
    hide At;
    AtReduced(cursor, offset, |active|);
    if offset < |active| {
      ScanReduced(active, cursor, minimum, offset + 1);
    }
  }

  /** The in-memory pool uses its cursor as it stands, the durable one reduces it first: no difference. */
  lemma {:induction false} CursorModuloAgrees(active: seq<nat>, cursor: nat)
    requires active != []
    ensures Choose(active, cursor) == Choose(active, cursor % |active|)
  {
    ScanReduced(active, cursor, Minimum(active), 0);
  }

  // ---- What admissions do to the load --------------------------------------

  /** The load after the chosen member takes one more record. */
  function Loaded(active: seq<nat>, cursor: nat): seq<nat>
    requires active != []
  {
    var chosen := Choose(active, cursor);
    if 0 <= chosen < |active| then active[chosen := active[chosen] + 1] else active
  }

  function Advanced(active: seq<nat>, cursor: nat): nat
    requires active != []
  {
    var chosen := Choose(active, cursor);
    if 0 <= chosen then (chosen + 1) % |active| else 0
  }

  /** No two members differ by more than `spread`. */
  predicate SpreadAtMost(active: seq<nat>, spread: nat) {
    forall i, j | 0 <= i < |active| && 0 <= j < |active| :: active[i] <= active[j] + spread
  }

  /** One admission leaves the spread at most max(1, what it was). */
  lemma {:induction false} SpreadStays(active: seq<nat>, cursor: nat, spread: nat)
    requires active != [] && SpreadAtMost(active, spread)
    ensures SpreadAtMost(Loaded(active, cursor), if spread < 1 then 1 else spread)
  {
    ChoosesFirstLeastActive(active, cursor);
  }

  /** The members within `count` of the cursor have taken one record, the others none. */
  predicate OneRound(active: seq<nat>, level: nat, cursor: nat, count: nat)
    requires active != []
  {
    forall i: nat | i < |active| :: active[i] == if Walk(cursor, i, |active|) < count then level + 1 else level
  }

  lemma {:induction false} RoundStep(active: seq<nat>, level: nat, cursor: nat, count: nat)
    requires active != [] && count < |active| && OneRound(active, level, cursor, count)
    ensures var at := At(cursor, count, |active|);
      && Choose(active, at) == at
      && OneRound(Loaded(active, at), level, cursor, count + 1)
      && Advanced(active, at) == At(cursor, count + 1, |active|)
  {
    var n := |active|;
    var at := At(cursor, count, n);
    WalkInverts(cursor, count, n);
    assert Walk(at, at, n) == 0;
    NextAt(cursor, count, n);
    hide At, Walk;
    ChoiceIsUnique(active, at, at);
    forall i: nat | i < n
      ensures Walk(cursor, i, n) == count ==> i == at
    {
      WalkReaches(cursor, i, n);
    }
  }

  /** `count` admissions in a row, with no departures. */
  function Rounds(active: seq<nat>, cursor: nat, count: nat): (result: (seq<nat>, nat))
    requires active != []
    ensures |result.0| == |active|
  {
    if count == 0 then (active, cursor)
    else
      var (load, at) := Rounds(active, cursor, count - 1);
      (Loaded(load, at), Advanced(load, at))
  }

  lemma {:induction false} NoRoundYet(active: seq<nat>, level: nat, cursor: nat)
    requires active != [] && cursor < |active|
    requires forall i | 0 <= i < |active| :: active[i] == level
    ensures OneRound(active, level, cursor, 0) && At(cursor, 0, |active|) == cursor
  {
  }

  lemma {:induction false} RoundSoFar(active: seq<nat>, level: nat, cursor: nat, count: nat)
    requires active != [] && cursor < |active| && count <= |active|
    requires forall i | 0 <= i < |active| :: active[i] == level
    ensures var (load, at) := Rounds(active, cursor, count);
      OneRound(load, level, cursor, count) && at == At(cursor, count, |active|)
  {
    hide Loaded, Advanced, OneRound, At, Walk;
    if count == 0 {
      NoRoundYet(active, level, cursor);
    } else {
      RoundSoFar(active, level, cursor, count - 1);
      var (load, at) := Rounds(active, cursor, count - 1);
      RoundStep(load, level, cursor, count - 1);
    }
  }

  /** n admissions from an equal load: each of the n members takes one, and the cursor is back. */
  lemma {:induction false} FullRound(active: seq<nat>, level: nat, cursor: nat)
    requires active != [] && cursor < |active|
    requires forall i | 0 <= i < |active| :: active[i] == level
    ensures var (load, at) := Rounds(active, cursor, |active|);
      at == cursor && |load| == |active| && forall i | 0 <= i < |load| :: load[i] == level + 1
  {
    var n := |active|;
    RoundSoFar(active, level, cursor, n);
    RemainderIsUnique(cursor + n, 1, cursor, n);
  }
}
