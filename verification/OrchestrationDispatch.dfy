/**
 * The parent's dispatch loop: a bounded pool of child Jobs that settle in any order, restarted from
 * whatever children an earlier run persisted. Every await may let the abort signal fire, and every
 * call of another component may fail.
 */
module OrchestrationDispatch {
  import opened Prelude
  import opened Records

  /** `OrchestrationChild`; `plan` stands for its plan hash and policy version. */
  datatype Child = Child(subtaskId: string, jobId: Id, plan: string, status: Status)

  datatype ParentEvent =
    | ChildStarted(subtaskId: string)
    | ChildCompleted(subtaskId: string, status: Status)
    | HandoffAccepted
    | DispatchStarted
    | EvidenceRecorded(name: string)
    | ParentSucceeded(delegated: bool)
    | ParentFailed

  /** How a child's completion resolves: a terminal Job, a persistence error, or any other error. */
  datatype Settlement = JobSettled(status: Status) | PersistenceFailed | OtherFailure

  /** What the environment decides about one settlement: how the completion resolves, and whether its event is saved. */
  datatype Fate = Fate(settlement: Settlement, saved: bool)

  predicate IsFate(fate: Fate) {
    fate.settlement.JobSettled? ==> IsTerminal(fate.settlement.status)
  }

  /** The settlement does not throw. */
  predicate Passes(fate: Fate) {
    fate.settlement != PersistenceFailed && fate.saved
  }

  /**
   * What the environment decides about one launch: whether a terminal child still agrees with its Job,
   * whether a look-up or the start of a Job throws, the Job that is found, the identifier of a Job that
   * is started, whether the child's event is saved (and if not, what the cancelled Job ends with), and
   * whether the recovery of an unfinished Job goes through.
   */
  datatype LaunchWorld = LaunchWorld(
    consistent: bool, thrown: bool, found: Option<(Id, Status)>, newId: Id, saved: bool, ended: Option<Status>,
    recovered: bool)

  /** Nothing fails in the launch of a subtask whose child, if it has one, is known. */
  predicate Smooth(w: LaunchWorld, known: Option<Child>) {
    && w.consistent && !w.thrown && w.saved && w.recovered
    && (known.Some? ==> w.found.Some? && w.found.value.0 == known.value.jobId)
  }

  /** The status that a child has once its Job's completion has resolved. */
  predicate Carried(status: Status, settlement: Settlement) {
    match settlement
    case JobSettled(outcome) => status == outcome && IsTerminal(outcome)
    case OtherFailure => status in {Failed, Cancelled}
    case PersistenceFailed => true
  }

  datatype Launched = Skipped | Attached(position: nat) | LaunchFailed

  /**
   * `Completed` is a normal return, also after an abort; `Threw(true)` says that a settlement
   * failed while draining.
   */
  datatype Exit = Completed | Inconsistent | Threw(drainFailed: bool)

  // ---- Children ------------------------------------------------------------

  /** The position of a subtask's child, or the length (`childrenBySubtask.get`). */
  function Find(children: seq<Child>, subtaskId: string): (p: nat)
    ensures p <= |children|
    ensures p < |children| ==> children[p].subtaskId == subtaskId
    ensures forall q | 0 <= q < p :: children[q].subtaskId != subtaskId
  {
    if children == [] then 0
    else if children[0].subtaskId == subtaskId then 0
    else Find(children[1..], subtaskId) + 1
  }

  predicate OneEach(children: seq<Child>) {
    forall p, q | 0 <= p < q < |children| :: children[p].subtaskId != children[q].subtaskId
  }

  predicate Planned(children: seq<Child>, subtasks: seq<string>) {
    forall p | 0 <= p < |children| :: children[p].subtaskId in subtasks
  }

  /** The child is being waited for, was awaited, or was settled when the loop started. */
  predicate Accounted(persisted: seq<Child>, active: seq<nat>, given: map<nat, Settlement>, p: nat) {
    || p in active
    || if p in given then given[p] != PersistenceFailed else p < |persisted| && IsTerminal(persisted[p].status)
  }

  /** The subtask has a child, and that child is accounted for. */
  predicate Handled(
      persisted: seq<Child>, children: seq<Child>, active: seq<nat>, given: map<nat, Settlement>, subtaskId: string) {
    Find(children, subtaskId) < |children| && Accounted(persisted, active, given, Find(children, subtaskId))
  }

  predicate Increasing(numbers: seq<nat>, bound: nat) {
    && (forall i, j | 0 <= i < j < |numbers| :: numbers[i] < numbers[j])
    && (forall i | 0 <= i < |numbers| :: numbers[i] < bound)
  }

  /** The children whose completions resolved carry what their Jobs settled with, and are in the pool no more. */
  ghost predicate CarriedAll(children: seq<Child>, active: seq<nat>, given: map<nat, Settlement>) {
    && (forall p | p in given :: p < |children| && Carried(children[p].status, given[p]))
    && forall k | 0 <= k < |active| :: active[k] !in given
  }

  /**
   * What the loop knows of children, pool and progress; `persisted` are the children it started from,
   * and `given` holds the settlement of each awaited child.
   */
  ghost predicate PoolOk(
      persisted: seq<Child>, children: seq<Child>, active: seq<nat>, given: map<nat, Settlement>, next: nat,
      subtasks: seq<string>) {
    && CarriedAll(children, active, given)
    && (forall p | p in given && p < |persisted| :: !IsTerminal(persisted[p].status))
    && OneEach(children)
    && Planned(children, subtasks)
    && |persisted| <= |children|
    && (forall p | 0 <= p < |persisted| ::
         children[p].subtaskId == persisted[p].subtaskId && children[p].jobId == persisted[p].jobId)
    && (forall p | 0 <= p < |persisted| && p !in given :: children[p] == persisted[p])
    && (forall k | 0 <= k < |active| :: active[k] < |children|)
    && (forall k | 0 <= k < |active| && active[k] < |persisted| :: !IsTerminal(persisted[active[k]].status))
    && (forall j, k | 0 <= j < k < |active| :: active[j] != active[k])
    && (forall i | 0 <= i < next && i < |subtasks| :: Handled(persisted, children, active, given, subtasks[i]))
  }

  /** The children that joined since the loop started are all awaited. */
  ghost predicate NewAwaited(
      persisted: seq<Child>, children: seq<Child>, active: seq<nat>, given: map<nat, Settlement>) {
    forall p | |persisted| <= p < |children| :: p in active || p in given
  }

  /** The child of a subtask that had none: under the Job found for it, or the one started for it. */
  function NewChild(plan: string, subtaskId: string, w: LaunchWorld): Child {
    var (jobId, status) := if w.found.Some? then w.found.value else (w.newId, Queued);
    Child(subtaskId, jobId, plan, if !w.saved && w.ended.Some? then w.ended.value else status)
  }

  lemma {:induction false} FindIs(children: seq<Child>, p: nat)
    requires OneEach(children) && p < |children|
    ensures Find(children, children[p].subtaskId) == p
  {
  }

  lemma {:induction false} FindAppended(children: seq<Child>, child: Child, subtaskId: string)
    ensures Find(children, subtaskId) < |children| ==> Find(children + [child], subtaskId) == Find(children, subtaskId)
    ensures Find(children, subtaskId) == |children| && child.subtaskId == subtaskId ==>
      Find(children + [child], subtaskId) == |children|
  {
    var p, q := Find(children, subtaskId), Find(children + [child], subtaskId);
    assert forall r | 0 <= r < |children| :: (children + [child])[r] == children[r];
    assert (children + [child])[|children|] == child;
  }

  /** A child of the next subtask joins the record. */
  lemma {:induction false} ChildAdded(
      persisted: seq<Child>, children: seq<Child>, active: seq<nat>, given: map<nat, Settlement>, next: nat,
      subtasks: seq<string>, child: Child)
    requires PoolOk(persisted, children, active, given, next, subtasks) && next < |subtasks|
    requires child.subtaskId == subtasks[next] && Find(children, child.subtaskId) == |children|
    ensures PoolOk(persisted, children + [child], active, given, next, subtasks)
    ensures Find(children + [child], subtasks[next]) == |children|
  {
    hide Find;
    var after := children + [child];
    FindAppended(children, child, subtasks[next]);
    forall i | 0 <= i < next
      ensures Handled(persisted, after, active, given, subtasks[i])
    {
      FindAppended(children, child, subtasks[i]);
      assert Handled(persisted, children, active, given, subtasks[i]);
    }
    assert forall p | 0 <= p < |children| :: after[p] == children[p];
  }

  /** The next subtask is handled: skipped as terminal, or put into the pool. */
  lemma {:induction false} SubtaskHandled(
      persisted: seq<Child>, children: seq<Child>, active: seq<nat>, given: map<nat, Settlement>, next: nat,
      subtasks: seq<string>, pool: seq<nat>)
    requires PoolOk(persisted, children, active, given, next, subtasks) && next < |subtasks|
    requires pool == active || (pool == active + [Find(children, subtasks[next])]
      && Find(children, subtasks[next]) !in active && Find(children, subtasks[next]) !in given)
    requires Handled(persisted, children, pool, given, subtasks[next])
    requires pool != active ==> var p := Find(children, subtasks[next]);
      p < |children| && (p < |persisted| ==> !IsTerminal(persisted[p].status))
    ensures PoolOk(persisted, children, pool, given, next + 1, subtasks)
  {
    hide Find, Carried;
    forall i | 0 <= i < next
      ensures Handled(persisted, children, pool, given, subtasks[i])
    {
      assert Handled(persisted, children, active, given, subtasks[i]);
    }
  }

  /** A subtask stays handled when a child leaves the pool with a settlement. */
  lemma {:induction false} StaysHandled(
      persisted: seq<Child>, children: seq<Child>, active: seq<nat>, given: map<nat, Settlement>, subtaskId: string,
      k: nat, child: Child, settlement: Settlement)
    requires OneEach(children) && Handled(persisted, children, active, given, subtaskId)
    requires k < |active| && active[k] < |children| && child.subtaskId == children[active[k]].subtaskId
    requires settlement != PersistenceFailed
    ensures Handled(persisted, children[active[k] := child], active[..k] + active[k + 1..],
        given[active[k] := settlement], subtaskId)
  {
    hide Find;
    var p, q := active[k], Find(children, subtaskId);
    var after, pool := children[p := child], active[..k] + active[k + 1..];
    assert forall m | 0 <= m < |children| :: after[m].subtaskId == children[m].subtaskId;
    FindIs(after, q);
    if q in active && q != p {
      var m :| 0 <= m < |active| && active[m] == q;
      assert pool[if m < k then m else m - 1] == q;
    }
  }

  /** A child leaves the pool with what its Job settled with; a persistence error is on the way to the end. */
  lemma {:induction false} ChildSettled(
      persisted: seq<Child>, children: seq<Child>, active: seq<nat>, given: map<nat, Settlement>, next: nat,
      subtasks: seq<string>, k: nat, status: Status, settlement: Settlement)
    requires PoolOk(persisted, children, active, given, next, subtasks) && k < |active| && Carried(status, settlement)
    ensures active[k] < |children|
    ensures PoolOk(persisted, children[active[k] := children[active[k]].(status := status)],
      active[..k] + active[k + 1..], given[active[k] := settlement],
      if settlement == PersistenceFailed then 0 else next, subtasks)
  {
    hide Find, Carried, Accounted, Handled;
    var p := active[k];
    var child := children[p].(status := status);
    var after, pool, gave := children[p := child], active[..k] + active[k + 1..], given[p := settlement];
    assert forall m | 0 <= m < |pool| :: pool[m] == active[if m < k then m else m + 1];
    assert forall m | 0 <= m < |children| :: after[m].subtaskId == children[m].subtaskId;
    forall i | 0 <= i < next && i < |subtasks| && settlement != PersistenceFailed
      ensures Handled(persisted, after, pool, gave, subtasks[i])
    {
      StaysHandled(persisted, children, active, given, subtasks[i], k, child, settlement);
    }
  }

  /** Exactly one child of the subtask is on record, and it is terminal. */
  predicate SettledOnce(children: seq<Child>, subtaskId: string) {
    exists p :: 0 <= p < |children| && children[p].subtaskId == subtaskId && IsTerminal(children[p].status)
      && forall q | 0 <= q < |children| && children[q].subtaskId == subtaskId :: q == p
  }

  predicate SettledAll(children: seq<Child>, subtasks: seq<string>) {
    forall i | 0 <= i < |subtasks| :: SettledOnce(children, subtasks[i])
  }

  /** Every awaited child is that of a subtask that was put into the pool. */
  ghost predicate Pooled(
      children: seq<Child>, active: seq<nat>, given: map<nat, Settlement>, subtasks: seq<string>, attached: seq<nat>) {
    forall p: nat | p in active || p in given :: p < |children| && Entered(children[p].subtaskId, subtasks, attached)
  }

  predicate Entered(subtaskId: string, subtasks: seq<string>, attached: seq<nat>) {
    exists a :: 0 <= a < |attached| && attached[a] < |subtasks| && subtasks[attached[a]] == subtaskId
  }

  /** The subtasks that got a new Job had no child before. */
  predicate StartsOk(persisted: seq<Child>, started: seq<nat>, subtasks: seq<string>) {
    && Increasing(started, |subtasks|)
    && forall k | 0 <= k < |started| :: started[k] < |subtasks| && Find(persisted, subtasks[started[k]]) == |persisted|
  }

  /** The same subtasks at the same positions, perhaps followed by more. */
  predicate SameSubtasks(children: seq<Child>, later: seq<Child>) {
    |children| <= |later| && forall p | 0 <= p < |children| :: later[p].subtaskId == children[p].subtaskId
  }

  lemma {:induction false} PooledSame(
      children: seq<Child>, later: seq<Child>, active: seq<nat>, given: map<nat, Settlement>, subtasks: seq<string>,
      attached: seq<nat>)
    requires Pooled(children, active, given, subtasks, attached) && SameSubtasks(children, later)
    ensures Pooled(later, active, given, subtasks, attached)
  {
    hide Entered;
  }

  lemma {:induction false} PooledRest(
      children: seq<Child>, active: seq<nat>, given: map<nat, Settlement>, subtasks: seq<string>, attached: seq<nat>,
      k: nat, settlement: Settlement)
    requires Pooled(children, active, given, subtasks, attached) && k < |active|
    ensures Pooled(children, active[..k] + active[k + 1..], given[active[k] := settlement], subtasks, attached)
  {
    hide Pooled;
    var pool := active[..k] + active[k + 1..];
    assert active[k] in active;
    assert forall p | p in pool :: p in active;
    PooledFewer(children, active, given, subtasks, attached, pool, given[active[k] := settlement]);
  }

  lemma {:induction false} PooledFewer(
      children: seq<Child>, active: seq<nat>, given: map<nat, Settlement>, subtasks: seq<string>, attached: seq<nat>,
      pool: seq<nat>, gave: map<nat, Settlement>)
    requires Pooled(children, active, given, subtasks, attached)
    requires (forall p | p in pool :: p in active) && forall p | p in gave :: p in active || p in given
    ensures Pooled(children, pool, gave, subtasks, attached)
  {
    hide Entered;
  }

  lemma {:induction false} PooledMore(
      children: seq<Child>, active: seq<nat>, given: map<nat, Settlement>, subtasks: seq<string>, attached: seq<nat>,
      p: nat, i: nat)
    requires Pooled(children, active, given, subtasks, attached)
    requires p < |children| && i < |subtasks| && subtasks[i] == children[p].subtaskId
    ensures Pooled(children, active + [p], given, subtasks, attached + [i])
  {
    var more := attached + [i];
    assert more[|attached|] == i;
    forall q: nat | q in active + [p] || q in given
      ensures q < |children| && Entered(children[q].subtaskId, subtasks, more)
    {
      if q in active || q in given {
        var a :| 0 <= a < |attached| && attached[a] < |subtasks| && subtasks[attached[a]] == children[q].subtaskId;
        assert more[a] == attached[a];
      }
    }
  }

  // ---- Draining after an error ---------------------------------------------

  /** How many of the children in the pool a drain leaves unawaited, by the fates of their settlements in order. */
  function Unawaited(fates: seq<Fate>): nat {
    if fates == [] then 0
    else if Passes(fates[0]) then Unawaited(fates[1..])
    else |fates| - 1
  }

  /** A drain whose first failing settlement is number k leaves all children after it. */
  lemma {:induction false} UnawaitedAfterFirstFailure(fates: seq<Fate>, k: nat)
    requires k < |fates| && !Passes(fates[k]) && forall i | 0 <= i < k :: Passes(fates[i])
    ensures Unawaited(fates) == |fates| - 1 - k
  {
    if k > 0 {
      assert !Passes(fates[1..][k - 1]);
      UnawaitedAfterFirstFailure(fates[1..], k - 1);
    }
  }

  lemma {:induction false} UnawaitedNone(fates: seq<Fate>)
    requires forall i | 0 <= i < |fates| :: Passes(fates[i])
    ensures Unawaited(fates) == 0
  {
    if fates != [] {
      UnawaitedNone(fates[1..]);
    }
  }

  /** Children stay unawaited exactly when a settlement other than the drain's last one fails. */
  lemma {:induction false} DrainLeavesExactlyWhen(fates: seq<Fate>)
    ensures Unawaited(fates) > 0 <==> exists k :: 0 <= k < |fates| - 1 && !Passes(fates[k])
  {
    if k: nat :| k < |fates| && !Passes(fates[k]) && forall i | 0 <= i < k :: Passes(fates[i]) {
      UnawaitedAfterFirstFailure(fates, k);
    } else {
      AllPass(fates, |fates|);
      UnawaitedNone(fates);
    }
  }

  /** Without a first failure there is none. */
  lemma {:induction false} AllPass(fates: seq<Fate>, n: nat)
    requires n <= |fates|
    requires !exists k: nat :: k < |fates| && !Passes(fates[k]) && forall i | 0 <= i < k :: Passes(fates[i])
    ensures forall i | 0 <= i < n :: Passes(fates[i])
  {
    if n > 0 {
      AllPass(fates, n - 1);
    }
  }

  /** With two children in the pool, a failing first settlement leaves one, and a failing last one leaves none. */
  lemma {:induction false} SecondFailureMayLeaveAChild(status: Status)
    requires IsTerminal(status)
    ensures Unawaited([Fate(JobSettled(status), false), Fate(JobSettled(status), true)]) == 1
    ensures Unawaited([Fate(JobSettled(status), true), Fate(JobSettled(status), false)]) == 0
  {
    UnawaitedAfterFirstFailure([Fate(JobSettled(status), false), Fate(JobSettled(status), true)], 0);
    UnawaitedAfterFirstFailure([Fate(JobSettled(status), true), Fate(JobSettled(status), false)], 1);
  }

  class Orchestration {
    const plan: string
    const subtasks: seq<string>
    /** No save and no call of another component fails; only then is a normal end promised. */
    const reliable: bool
    var children: seq<Child>
    var events: seq<ParentEvent>
    /** `qualityReview` and `artifactValidation`, as far as there is any. */
    var evidence: map<string, string>
    var status: Status
    var aborted: bool
    /** `active` and `nextIndex` of the loop. */
    var active: seq<nat>
    var nextIndex: nat
    /** Which subtasks entered the pool, which got a new Job, and how full the pool ever was. */
    ghost var attached: seq<nat>
    ghost var started: seq<nat>
    ghost var peak: nat
    /** The settlement of each awaited child's Job, by the child's position. */
    ghost var given: map<nat, Settlement>
    /** The fates that the drain after an error met, one for each child then in the pool. */
    ghost var drain: seq<Fate>

    constructor (plan: string, subtasks: seq<string>, children: seq<Child>, reliable: bool)
      ensures this.plan == plan && this.subtasks == subtasks && this.children == children && this.reliable == reliable
      ensures status == Queued && given == map[]
    {
      this.plan, this.subtasks, this.children, this.reliable := plan, subtasks, children, reliable;
      events, evidence, status, aborted, active, nextIndex := [], map[], Queued, false, [], 0;
      attached, started, peak, drain, given := [], [], 0, [], map[];
    }

    // ---- Persistence -------------------------------------------------------

    /** An await: meanwhile the signal may fire, for good. */
    method Await()
      modifies this`aborted
      ensures old(aborted) ==> aborted
    {
      var fired: bool := *;
      aborted := aborted || fired;
    }

    /** `#appendEvent`: pushes the event and saves; a save that fails (`saved` is false) pops it again. */
    method AppendEvent(event: ParentEvent, saved: bool) returns (ok: bool)
      modifies this`events, this`aborted
      ensures ok == saved
      ensures events == if ok then old(events) + [event] else old(events)
      ensures old(aborted) ==> aborted
    {
      events := events + [event];
      Await();
      if !saved {
        events := events[..|events| - 1];
      }
      return saved;
    }

    /** Whether the next save goes through. */
    method NextSave() returns (saved: bool)
      ensures reliable ==> saved
    {
      saved := *;
      saved := saved || reliable;
    }

    /** `#setEvidenceAndAppend`: the evidence and its event are persisted together or not at all. */
    method SetEvidenceAndAppend(field: string, value: string, event: ParentEvent, saved: bool) returns (ok: bool)
      modifies this`events, this`evidence, this`aborted
      ensures ok == saved
      ensures evidence == if ok then old(evidence)[field := value] else old(evidence)
      ensures events == if ok then old(events) + [event] else old(events)
      ensures old(aborted) ==> aborted
    {
      var previous := if field in evidence then Some(evidence[field]) else None;
      evidence := evidence[field := value];
      ok := AppendEvent(event, saved);
      if !ok {
        evidence := if previous.Some? then evidence[field := previous.value] else evidence - {field};
        assert evidence == old(evidence);
      }
    }

    /** A quality review or artifact validation: any number of steps, each recorded with its evidence. */
    method RecordEvidence(field: string) returns (ok: bool)
      modifies this`events, this`evidence, this`aborted
      ensures old(events) <= events && (old(aborted) ==> aborted)
      ensures forall other | other != field :: other in evidence <==> other in old(evidence)
      ensures forall other | other != field && other in evidence :: evidence[other] == old(evidence)[other]
      ensures reliable ==> ok
    {
      ok := true;
      var steps: nat :| true;
      for i: nat := 0 to steps
        invariant old(events) <= events && (old(aborted) ==> aborted)
        invariant forall other | other != field :: other in evidence <==> other in old(evidence)
        invariant forall other | other != field && other in evidence :: evidence[other] == old(evidence)[other]
        invariant ok
      {
        var value: string := *;
        var saved := NextSave();
        var recorded := SetEvidenceAndAppend(field, value, EvidenceRecorded(field), saved);
        if !recorded {
          return false;
        }
      }
    }

    /** An event that is recorded once in the life of the parent. */
    method AppendOnce(event: ParentEvent) returns (ok: bool)
      modifies this`events, this`aborted
      ensures ok ==> event in events
      ensures events == old(events) || events == old(events) + [event]
      ensures old(aborted) ==> aborted
      ensures reliable ==> ok
    {
      if event in events {
        return true;
      }
      var saved := NextSave();
      ok := AppendEvent(event, saved);
      assert ok ==> events[|events| - 1] == event;
    }

    // ---- The loop ----------------------------------------------------------

    /** `launch`, for the next subtask: skip it, wait for its Job, or fail. */
    method Launch(ghost persisted: seq<Child>, w: LaunchWorld) returns (r: Launched)
      requires nextIndex < |subtasks| && PoolOk(persisted, children, active, given, nextIndex, subtasks)
      requires Find(children, subtasks[nextIndex]) !in active && Find(children, subtasks[nextIndex]) !in given
      requires NewAwaited(persisted, children, active, given)
      requires Increasing(started, nextIndex) && StartsOk(persisted, started, subtasks)
      modifies this`children, this`events, this`aborted, this`started
      ensures PoolOk(persisted, children, active, given, nextIndex, subtasks)
      ensures SameSubtasks(old(children), children)
      ensures old(aborted) ==> aborted
      ensures r == Skipped ==> Handled(persisted, children, active, given, subtasks[nextIndex])
      ensures r.Attached? ==>
        && r.position == Find(children, subtasks[nextIndex]) < |children|
        && (r.position < |persisted| ==> !IsTerminal(persisted[r.position].status))
        && NewAwaited(persisted, children, active + [r.position], given)
      ensures Increasing(started, nextIndex + 1) && StartsOk(persisted, started, subtasks)
      ensures var p := Find(old(children), subtasks[nextIndex]);
        if p < |old(children)| then
          && children == old(children) && started == old(started)
          && (r == Skipped <==> IsTerminal(children[p].status) && w.consistent)
          && (r.Attached? <==>
                && !IsTerminal(children[p].status) && !w.thrown
                && w.found.Some? && w.found.value.0 == children[p].jobId
                && (IsTerminal(w.found.value.1) || w.recovered))
        else
          && started == old(started) + (if !w.thrown && w.found == None then [nextIndex] else [])
          && children == old(children) + (if w.thrown then [] else [NewChild(plan, subtasks[nextIndex], w)])
          && (r.Attached? <==>
                !w.thrown && w.saved && (w.found.Some? ==> IsTerminal(w.found.value.1) || w.recovered))
          && !r.Skipped?
    {
      hide Find, PoolOk, StartsOk, Increasing, NewAwaited, Handled;
      var position := Find(children, subtasks[nextIndex]);
      PersistedFirst(persisted, children, active, given, nextIndex, subtasks);
      IncreasingWider(started, nextIndex);
      Await();
      if position == |children| {
        r := LaunchNew(persisted, w);
        return r;
      }
      if IsTerminal(children[position].status) {
        SettledBefore(persisted, children, active, given, nextIndex, subtasks, position);
        return if w.consistent then Skipped else LaunchFailed;
      }
      // The child's Job must be there, and its recovery may fail when it is unfinished.
      if w.thrown || w.found == None || w.found.value.0 != children[position].jobId {
        return LaunchFailed;
      }
      if !IsTerminal(w.found.value.1) && !w.recovered {
        return LaunchFailed;
      }
      UnsettledPersisted(persisted, children, active, given, nextIndex, subtasks, position);
      AwaitedMore(persisted, children, active, given, position);
      return Attached(position);
    }

    /** The launch of a subtask without a child: its Job is found by its idempotency key, or started. */
    method LaunchNew(ghost persisted: seq<Child>, w: LaunchWorld) returns (r: Launched)
      requires nextIndex < |subtasks| && PoolOk(persisted, children, active, given, nextIndex, subtasks)
      requires Find(children, subtasks[nextIndex]) == |children| && NewAwaited(persisted, children, active, given)
      requires Increasing(started, nextIndex) && StartsOk(persisted, started, subtasks)
      modifies this`children, this`events, this`aborted, this`started
      ensures PoolOk(persisted, children, active, given, nextIndex, subtasks)
      ensures old(aborted) ==> aborted
      ensures Increasing(started, nextIndex + 1) && StartsOk(persisted, started, subtasks)
      ensures started == old(started) + (if !w.thrown && w.found == None then [nextIndex] else [])
      ensures children == old(children) + (if w.thrown then [] else [NewChild(plan, subtasks[nextIndex], w)])
      ensures r.Attached? <==> !w.thrown && w.saved && (w.found.Some? ==> IsTerminal(w.found.value.1) || w.recovered)
      ensures r.Attached? ==>
        && r.position == Find(children, subtasks[nextIndex]) == |old(children)| >= |persisted|
        && NewAwaited(persisted, children, active + [r.position], given)
      ensures !r.Skipped?
    {
      hide Find, PoolOk, StartsOk, Increasing, NewAwaited;
      var subtask, position := subtasks[nextIndex], |children|;
      IncreasingWider(started, nextIndex);
      // findIdempotent and start: any of them may fail.
      if w.thrown {
        return LaunchFailed;
      }
      var job := if w.found.Some? then w.found.value else (w.newId, Queued);
      if w.found == None {
        NotPersisted(persisted, children, active, given, nextIndex, subtasks, subtask);
        OneMoreStart(persisted, started, subtasks, nextIndex);
        started := started + [nextIndex];
      }
      PersistedFirst(persisted, children, active, given, nextIndex, subtasks);
      ChildAdded(persisted, children, active, given, nextIndex, subtasks, NewChild(plan, subtask, w));
      AwaitedOneMore(persisted, children, active, given, NewChild(plan, subtask, w));
      children := children + [Child(subtask, job.0, plan, job.1)];
      var ok := AppendEvent(ChildStarted(subtask), w.saved);
      if !ok {
        if w.ended.Some? {
          children := children[position := children[position].(status := w.ended.value)];
        }
        assert children == old(children) + [NewChild(plan, subtask, w)];
        return LaunchFailed;
      }
      // recoverInterruptedJob of an unfinished Job that was not started here may fail.
      if w.found.Some? && !IsTerminal(job.1) && !w.recovered {
        return LaunchFailed;
      }
      return Attached(position);
    }

    static lemma {:induction false} IncreasingWider(numbers: seq<nat>, bound: nat)
      requires Increasing(numbers, bound)
      ensures Increasing(numbers, bound + 1)
    {
    }

    static lemma {:induction false} IncreasingMore(numbers: seq<nat>, i: nat)
      requires Increasing(numbers, i)
      ensures Increasing(numbers + [i], i + 1)
    {
    }

    static lemma {:induction false} OneMoreStart(
        persisted: seq<Child>, started: seq<nat>, subtasks: seq<string>, i: nat)
      requires Increasing(started, i) && StartsOk(persisted, started, subtasks)
      requires i < |subtasks| && Find(persisted, subtasks[i]) == |persisted|
      ensures Increasing(started + [i], i + 1) && StartsOk(persisted, started + [i], subtasks)
    {
      hide Find;
    }

    static lemma {:induction false} AwaitedMore(
        persisted: seq<Child>, children: seq<Child>, active: seq<nat>, given: map<nat, Settlement>, p: nat)
      requires NewAwaited(persisted, children, active, given)
      ensures NewAwaited(persisted, children, active + [p], given)
    {
    }

    static lemma {:induction false} AwaitedOneMore(
        persisted: seq<Child>, children: seq<Child>, active: seq<nat>, given: map<nat, Settlement>, child: Child)
      requires NewAwaited(persisted, children, active, given) && |persisted| <= |children|
      ensures NewAwaited(persisted, children + [child], active + [|children|], given)
    {
    }

    /** A child that is terminal and was not awaited was terminal when the loop started. */
    static lemma {:induction false} SettledBefore(
        persisted: seq<Child>, children: seq<Child>, active: seq<nat>, given: map<nat, Settlement>, next: nat,
        subtasks: seq<string>, p: nat)
      requires PoolOk(persisted, children, active, given, next, subtasks) && next < |subtasks|
      requires p == Find(children, subtasks[next]) < |children| && IsTerminal(children[p].status)
      requires p !in active && p !in given && NewAwaited(persisted, children, active, given)
      ensures Handled(persisted, children, active, given, subtasks[next])
    {
      hide Planned, OneEach, Carried;
    }

    static lemma {:induction false} UnsettledPersisted(
        persisted: seq<Child>, children: seq<Child>, active: seq<nat>, given: map<nat, Settlement>, next: nat,
      subtasks: seq<string>, p: nat)
      requires PoolOk(persisted, children, active, given, next, subtasks) && p < |children|
      ensures p < |persisted| && !IsTerminal(children[p].status) ==> !IsTerminal(persisted[p].status)
    {
      hide Handled, Planned, OneEach;
    }

    static lemma {:induction false} NotPersisted(
        persisted: seq<Child>, children: seq<Child>, active: seq<nat>, given: map<nat, Settlement>, next: nat,
      subtasks: seq<string>,
        subtaskId: string)
      requires PoolOk(persisted, children, active, given, next, subtasks) && Find(children, subtaskId) == |children|
      ensures Find(persisted, subtaskId) == |persisted|
    {
      hide Handled, Planned, OneEach;
      forall p | 0 <= p < |persisted|
        ensures persisted[p].subtaskId != subtaskId
      {
        assert children[p].subtaskId == persisted[p].subtaskId;
      }
    }

    static lemma {:induction false} PersistedFirst(
        persisted: seq<Child>, children: seq<Child>, active: seq<nat>, given: map<nat, Settlement>, next: nat,
      subtasks: seq<string>)
      requires PoolOk(persisted, children, active, given, next, subtasks)
      ensures |persisted| <= |children|
    {
      hide Handled, Planned, OneEach;
    }

    /** `settleNext`: whichever completion comes first leaves the pool; false is a thrown error. */
    method SettleNext(ghost persisted: seq<Child>, ghost next: nat, fate: Fate) returns (ok: bool, ghost left: nat)
      requires active != [] && PoolOk(persisted, children, active, given, next, subtasks)
      requires Pooled(children, active, given, subtasks, attached) && IsFate(fate)
      modifies this`children, this`active, this`given, this`events, this`aborted
      ensures left in old(active) && left < |old(children)| == |children| && |active| == |old(active)| - 1
      ensures given == old(given)[left := fate.settlement]
      ensures forall p | p in old(active) :: p == left || p in active
      ensures forall p | 0 <= p < |children| && p != left :: children[p] == old(children)[p]
      ensures children[left] == old(children)[left].(status := children[left].status)
      ensures match fate.settlement
              case JobSettled(outcome) => children[left].status == outcome
              case OtherFailure =>
                && children[left].status in {Cancelled, Failed}
                && (old(aborted) ==> children[left].status == Cancelled)
                && (children[left].status == Cancelled ==> aborted)
              case PersistenceFailed => children == old(children)
      ensures events == old(events)
        + if ok then [ChildCompleted(children[left].subtaskId, children[left].status)] else []
      ensures Rest(old(children), old(active), children, active)
      ensures Pooled(children, active, given, subtasks, attached)
      ensures PoolOk(persisted, children, active, given, if ok then next else 0, subtasks)
      ensures old(NewAwaited(persisted, children, active, given)) ==>
        NewAwaited(persisted, children, active, given)
      ensures old(aborted) ==> aborted
      ensures ok <==> Passes(fate)
    {
      hide PoolOk, Find, Pooled, Rest, NewAwaited;
      Await();
      var k: nat :| k < |active|;
      var p := active[k];
      left := p;
      ActiveInRange(persisted, children, active, given, next, subtasks, k);
      var status :=
        match fate.settlement
        case JobSettled(outcome) => outcome
        case OtherFailure => if aborted then Cancelled else Failed
        case PersistenceFailed => children[p].status;
      LeavesPool(persisted, children, active, given, next, subtasks, attached, k, status, fate);
      active, given := active[..k] + active[k + 1..], given[p := fate.settlement];
      if fate.settlement == PersistenceFailed {
        assert children[p := children[p].(status := status)] == children;
        return false, left;
      }
      children := children[p := children[p].(status := status)];
      ok := AppendEvent(ChildCompleted(children[p].subtaskId, status), fate.saved);
    }

    /** A child leaves the pool: what the loop knows of the others stays. */
    static lemma {:induction false} LeavesPool(
        persisted: seq<Child>, children: seq<Child>, active: seq<nat>, given: map<nat, Settlement>, next: nat,
        subtasks: seq<string>, attached: seq<nat>, k: nat, status: Status, fate: Fate)
      requires PoolOk(persisted, children, active, given, next, subtasks) && k < |active|
      requires Pooled(children, active, given, subtasks, attached) && Carried(status, fate.settlement)
      ensures active[k] < |children|
      ensures var p := active[k];
        var after, pool := children[p := children[p].(status := status)], active[..k] + active[k + 1..];
        var gave := given[p := fate.settlement];
        && PoolOk(persisted, after, pool, gave, if Passes(fate) then next else 0, subtasks)
        && Pooled(after, pool, gave, subtasks, attached)
        && Rest(children, active, after, pool)
        && (NewAwaited(persisted, children, active, given) ==> NewAwaited(persisted, after, pool, gave))
        && forall q | q in active :: q == p || q in pool
    {
      hide PoolOk, Pooled, Rest, NewAwaited, Carried;
      ActiveInRange(persisted, children, active, given, next, subtasks, k);
      var p := active[k];
      var child := children[p].(status := status);
      PooledRest(children, active, given, subtasks, attached, k, fate.settlement);
      ChildSettled(persisted, children, active, given, next, subtasks, k, status, fate.settlement);
      RestOf(persisted, children, active, given, next, subtasks, k, child);
      PooledSame(children, children[p := child], active[..k] + active[k + 1..], given[p := fate.settlement],
          subtasks, attached);
      StillActive(active, k);
      AwaitedStays(persisted, children, active, given, k, child, fate.settlement);
      if !Passes(fate) && fate.settlement != PersistenceFailed {
        LessHandled(persisted, children[p := child], active[..k] + active[k + 1..], given[p := fate.settlement], next,
            subtasks);
      }
    }

    static lemma {:induction false} AwaitedStays(
        persisted: seq<Child>, children: seq<Child>, active: seq<nat>, given: map<nat, Settlement>, k: nat,
        child: Child, settlement: Settlement)
      requires k < |active| && active[k] < |children|
      ensures NewAwaited(persisted, children, active, given) ==>
        NewAwaited(persisted, children[active[k] := child], active[..k] + active[k + 1..],
          given[active[k] := settlement])
    {
      StillActive(active, k);
    }

    static lemma {:induction false} StillActive(active: seq<nat>, k: nat)
      requires k < |active|
      ensures forall p | p in active :: p == active[k] || p in active[..k] + active[k + 1..]
    {
      assert active == active[..k] + [active[k]] + active[k + 1..];
    }

    /** What is left in the pool was there before, and its children are as they were. */
    static ghost predicate Rest(before: seq<Child>, pool: seq<nat>, children: seq<Child>, active: seq<nat>) {
      && |before| <= |children|
      && forall k | 0 <= k < |active| ::
           active[k] in pool && active[k] < |before| && children[active[k]] == before[active[k]]
    }

    static lemma {:induction false} RestOf(
        persisted: seq<Child>, children: seq<Child>, active: seq<nat>, given: map<nat, Settlement>, next: nat,
        subtasks: seq<string>, k: nat, child: Child)
      requires PoolOk(persisted, children, active, given, next, subtasks) && k < |active|
      ensures active[k] < |children|
        && Rest(children, active, children[active[k] := child], active[..k] + active[k + 1..])
    {
      hide Handled, Planned, OneEach, CarriedAll;
      var pool := active[..k] + active[k + 1..];
      assert forall m | 0 <= m < |pool| :: pool[m] == active[if m < k then m else m + 1];
    }

    static lemma {:induction false} RestTransitive(
        a: seq<Child>, p: seq<nat>, b: seq<Child>, q: seq<nat>, c: seq<Child>, r: seq<nat>)
      requires Rest(a, p, b, q) && Rest(b, q, c, r)
      ensures Rest(a, p, c, r)
    {
    }

    /**
     * The drain after an error: the remaining children are awaited one by one until a settlement throws,
     * and then the others stay in the pool as they are.
     */
    method Drain(ghost persisted: seq<Child>, fates: seq<Fate>) returns (ok: bool)
      requires PoolOk(persisted, children, active, given, 0, subtasks)
      requires Pooled(children, active, given, subtasks, attached)
      requires |fates| == |active| && forall k | 0 <= k < |fates| :: IsFate(fates[k])
      modifies this`children, this`active, this`given, this`events, this`aborted
      ensures PoolOk(persisted, children, active, given, 0, subtasks)
      ensures |active| == Unawaited(fates)
      ensures ok <==> forall k | 0 <= k < |fates| :: Passes(fates[k])
      ensures Rest(old(children), old(active), children, active)
    {
      hide PoolOk, Find, Pooled, Rest, Passes;
      var i := 0;
      RestReflexive(persisted, children, active, given, subtasks);
      assert fates[0..] == fates;
      while active != []
        invariant i <= |fates| && |active| == |fates| - i
        invariant forall k | 0 <= k < i :: Passes(fates[k])
        invariant Unawaited(fates) == Unawaited(fates[i..])
        invariant PoolOk(persisted, children, active, given, 0, subtasks)
        invariant Pooled(children, active, given, subtasks, attached)
        invariant Rest(old(children), old(active), children, active)
        decreases |active|
      {
        ghost var before, pool := children, active;
        var settled, _ := SettleNext(persisted, 0, fates[i]);
        RestTransitive(old(children), old(active), before, pool, children, active);
        assert fates[i..][1..] == fates[i + 1..];
        if !settled {
          return false;
        }
        i := i + 1;
      }
      return true;
    }

    static lemma {:induction false} RestReflexive(
        persisted: seq<Child>, children: seq<Child>, active: seq<nat>, given: map<nat, Settlement>,
        subtasks: seq<string>)
      requires PoolOk(persisted, children, active, given, 0, subtasks)
      ensures Rest(children, active, children, active)
    {
      hide Handled, Planned, OneEach;
    }

    static lemma {:induction false} ActiveInRange(
        persisted: seq<Child>, children: seq<Child>, active: seq<nat>, given: map<nat, Settlement>, next: nat,
      subtasks: seq<string>, k: nat)
      requires PoolOk(persisted, children, active, given, next, subtasks) && k < |active|
      ensures active[k] < |children|
    {
      hide Handled, Planned, OneEach;
    }

    static lemma {:induction false} LessHandled(
        persisted: seq<Child>, children: seq<Child>, active: seq<nat>, given: map<nat, Settlement>, next: nat,
      subtasks: seq<string>)
      requires PoolOk(persisted, children, active, given, next, subtasks)
      ensures PoolOk(persisted, children, active, given, 0, subtasks)
    {
    }

    /** The persisted children name distinct subtasks of the plan, under the same plan. */
    predicate Consistent()
      reads this
    {
      && OneEach(children)
      && (forall p | 0 <= p < |children| :: children[p].subtaskId in subtasks && children[p].plan == plan)
    }

    /** When the loop has gone through the subtasks, each has its one child, which was awaited or settled before. */
    static lemma {:induction false} AllSettled(
        persisted: seq<Child>, children: seq<Child>, given: map<nat, Settlement>, subtasks: seq<string>)
      requires PoolOk(persisted, children, [], given, |subtasks|, subtasks)
      ensures SettledAll(children, subtasks)
      ensures forall p: nat | p < |children| :: Accounted(persisted, [], given, p)
    {
      hide Find;
      forall i | 0 <= i < |subtasks|
        ensures SettledOnce(children, subtasks[i])
      {
        assert Handled(persisted, children, [], given, subtasks[i]);
        var p := Find(children, subtasks[i]);
        assert children[p].subtaskId == subtasks[i];
      }
      forall p: nat | p < |children|
        ensures Accounted(persisted, [], given, p)
      {
        var i :| 0 <= i < |subtasks| && subtasks[i] == children[p].subtaskId;
        FindIs(children, p);
        assert Handled(persisted, children, [], given, subtasks[i]);
      }
    }

    /** The children of earlier subtasks are awaited, never the next one's. */
    static lemma {:induction false} NextIsNotAwaited(
        persisted: seq<Child>, children: seq<Child>, active: seq<nat>, given: map<nat, Settlement>, next: nat,
        subtasks: seq<string>, attached: seq<nat>)
      requires PoolOk(persisted, children, active, given, next, subtasks) && next < |subtasks|
      requires Pooled(children, active, given, subtasks, attached) && Increasing(attached, next)
      requires forall i, j | 0 <= i < j < |subtasks| :: subtasks[i] != subtasks[j]
      ensures Find(children, subtasks[next]) !in active && Find(children, subtasks[next]) !in given
    {
      hide Find, Handled, Planned, CarriedAll;
      assert forall a | 0 <= a < |attached| :: attached[a] < next && subtasks[attached[a]] != subtasks[next];
    }

    static lemma {:induction false} PersistedStay(
        persisted: seq<Child>, children: seq<Child>, active: seq<nat>, given: map<nat, Settlement>, next: nat,
        subtasks: seq<string>)
      requires PoolOk(persisted, children, active, given, next, subtasks)
      ensures |persisted| <= |children|
      ensures forall p | 0 <= p < |persisted| && IsTerminal(persisted[p].status) :: children[p] == persisted[p]
      ensures CarriedAll(children, active, given)
    {
      hide Handled, Planned, OneEach, CarriedAll;
    }

    static lemma {:induction false} EmptyPool(children: seq<Child>, subtasks: seq<string>)
      requires OneEach(children) && forall p | 0 <= p < |children| :: children[p].subtaskId in subtasks
      ensures PoolOk(children, children, [], map[], 0, subtasks) && NewAwaited(children, children, [], map[])
      ensures Pooled(children, [], map[], subtasks, []) && StartsOk(children, [], subtasks)
    {
    }

    static lemma {:induction false} NoStarts(children: seq<Child>, subtasks: seq<string>)
      ensures StartsOk(children, [], subtasks)
    {
    }

    /** The inner loop: launches subtasks while there is room; true is a thrown error. */
    method Fill(ghost persisted: seq<Child>, maxConcurrency: nat) returns (failed: bool)
      requires nextIndex <= |subtasks| && |active| <= maxConcurrency && peak <= maxConcurrency
      requires PoolOk(persisted, children, active, given, nextIndex, subtasks)
      requires NewAwaited(persisted, children, active, given)
      requires Pooled(children, active, given, subtasks, attached)
      requires Increasing(attached, nextIndex) && Increasing(started, nextIndex)
        && StartsOk(persisted, started, subtasks)
      requires forall i, j | 0 <= i < j < |subtasks| :: subtasks[i] != subtasks[j]
      modifies this`children, this`events, this`aborted, this`active, this`nextIndex, this`attached, this`started,
        this`peak
      ensures old(nextIndex) <= nextIndex <= |subtasks| && |active| <= maxConcurrency && peak <= maxConcurrency
      ensures |active| - |old(active)| <= nextIndex - old(nextIndex)
      ensures PoolOk(persisted, children, active, given, nextIndex, subtasks)
      ensures !failed ==> NewAwaited(persisted, children, active, given)
      ensures Pooled(children, active, given, subtasks, attached)
      ensures Increasing(attached, nextIndex) && StartsOk(persisted, started, subtasks)
      ensures !failed ==> Increasing(started, nextIndex)
      ensures reliable ==> !failed
      ensures !failed ==> aborted || nextIndex == |subtasks| || |active| == maxConcurrency
      ensures old(aborted) ==> aborted && !failed && nextIndex == old(nextIndex) && children == old(children)
    {
      hide PoolOk, Find, Pooled, StartsOk, SameSubtasks, Handled, NewAwaited, Increasing, NewChild;
      while !aborted && nextIndex < |subtasks| && |active| < maxConcurrency
        invariant old(nextIndex) <= nextIndex <= |subtasks| && |active| <= maxConcurrency && peak <= maxConcurrency
        invariant |active| - |old(active)| <= nextIndex - old(nextIndex)
        invariant PoolOk(persisted, children, active, given, nextIndex, subtasks)
        invariant NewAwaited(persisted, children, active, given)
        invariant Pooled(children, active, given, subtasks, attached)
        invariant Increasing(attached, nextIndex) && Increasing(started, nextIndex)
          && StartsOk(persisted, started, subtasks)
        invariant old(aborted) ==> aborted && nextIndex == old(nextIndex) && children == old(children)
        decreases |subtasks| - nextIndex
      {
        NextIsNotAwaited(persisted, children, active, given, nextIndex, subtasks, attached);
        ghost var before := children;
        var p := Find(children, subtasks[nextIndex]);
        var known := if p < |children| then Some(children[p]) else None;
        var w := NextLaunch(known);
        var launched := Launch(persisted, w);
        PooledSame(before, children, active, given, subtasks, attached);
        if launched == LaunchFailed {
          return true;
        }
        if launched.Attached? {
          SubtaskInPool(persisted, children, active, given, subtasks[nextIndex]);
          SubtaskHandled(persisted, children, active, given, nextIndex, subtasks, active + [launched.position]);
          PooledMore(children, active, given, subtasks, attached, launched.position, nextIndex);
          IncreasingMore(attached, nextIndex);
          active, attached := active + [launched.position], attached + [nextIndex];
          if |active| > peak {
            peak := |active|;
          }
        } else {
          IncreasingWider(attached, nextIndex);
          SubtaskHandled(persisted, children, active, given, nextIndex, subtasks, active);
        }
        nextIndex := nextIndex + 1;
      }
      return false;
    }

    /** How the next launch will turn out. */
    method NextLaunch(known: Option<Child>) returns (w: LaunchWorld)
      ensures reliable ==> Smooth(w, known)
    {
      ghost var found := if known.Some? then Some((known.value.jobId, Queued)) else None;
      assert Smooth(LaunchWorld(true, false, found, Id(""), true, None, true), known);
      w :| reliable ==> Smooth(w, known);
    }

    static lemma {:induction false} SubtaskInPool(
        persisted: seq<Child>, children: seq<Child>, active: seq<nat>, given: map<nat, Settlement>, subtaskId: string)
      requires Find(children, subtaskId) < |children|
      ensures Handled(persisted, children, active + [Find(children, subtaskId)], given, subtaskId)
    {
    }

    /**
     * `#dispatch`. At most `maxConcurrency` children are ever active, every subtask enters the pool at
     * most once and gets a new Job at most once, and only if it had no child; a normal return without
     * an abort leaves exactly one, terminal, child for each subtask; settled children stay as they were.
     * After an error the pool is drained, and children stay in it exactly as `Unawaited` says.
     */
    method Dispatch(maxConcurrency: nat) returns (exit: Exit)
      requires maxConcurrency >= 1
      requires forall i, j | 0 <= i < j < |subtasks| :: subtasks[i] != subtasks[j]
      requires active == [] && nextIndex == 0 && attached == [] && started == [] && peak == 0 && given == map[]
      modifies this`children, this`events, this`aborted, this`active, this`nextIndex, this`attached, this`started,
        this`peak, this`drain, this`given
      ensures exit == Inconsistent <==> !old(Consistent())
      ensures exit == Inconsistent ==> children == old(children) && started == [] && attached == []
      ensures peak <= maxConcurrency
      ensures Increasing(attached, |subtasks|)
      ensures StartsOk(old(children), started, subtasks)
      ensures |old(children)| <= |children|
      ensures forall p | 0 <= p < |old(children)| && IsTerminal(old(children)[p].status) ::
        children[p] == old(children)[p]
      ensures exit == Completed ==> active == [] && (aborted || SettledAll(children, subtasks))
      ensures exit == Completed && !aborted ==> !old(aborted)
      ensures CarriedAll(children, active, given)
      ensures exit == Completed && !aborted ==>
        forall p: nat | p < |children| :: Accounted(old(children), [], given, p)
      ensures exit.Threw? ==> |active| == Unawaited(drain) && |drain| <= maxConcurrency
      ensures exit.Threw? ==> (exit.drainFailed <==> exists k :: 0 <= k < |drain| && !Passes(drain[k]))
      ensures exit.Threw? ==> (active != [] <==> exists k :: 0 <= k < |drain| - 1 && !Passes(drain[k]))
      ensures reliable ==> exit == Completed || exit == Inconsistent
    {
      hide PoolOk, Find, SettledAll, Pooled, StartsOk, Handled, NewAwaited, CarriedAll, Accounted;
      if !Consistent() {
        NoStarts(children, subtasks);
        NoneGiven(children);
        return Inconsistent;
      }
      ghost var persisted := children;
      EmptyPool(children, subtasks);
      var failed := false;
      while (nextIndex < |subtasks| || active != []) && !failed
        invariant nextIndex <= |subtasks| && |active| <= maxConcurrency && peak <= maxConcurrency
        invariant PoolOk(persisted, children, active, given, if failed then 0 else nextIndex, subtasks)
        invariant Increasing(attached, nextIndex) && StartsOk(persisted, started, subtasks)
        invariant !failed ==> Increasing(started, nextIndex) && NewAwaited(persisted, children, active, given)
        invariant Pooled(children, active, given, subtasks, attached)
        invariant old(aborted) ==> aborted
        invariant reliable ==> !failed
        decreases 2 * (|subtasks| - nextIndex) + |active|
      {
        failed := Fill(persisted, maxConcurrency);
        if failed {
          LessHandled(persisted, children, active, given, nextIndex, subtasks);
        }
        if failed || active == [] {
          break;
        }
        assert IsFate(Fate(OtherFailure, true)) && Passes(Fate(OtherFailure, true));
        var fate: Fate :| IsFate(fate) && (reliable ==> Passes(fate));
        var ok, _ := SettleNext(persisted, nextIndex, fate);
        failed := !ok;
      }
      PersistedStay(persisted, children, active, given, if failed then 0 else nextIndex, subtasks);
      if !failed {
        if nextIndex == |subtasks| {
          AllSettled(persisted, children, given, subtasks);
        }
        return Completed;
      }
      Await();
      var fates := NextFates(|active|);
      drain := fates;
      var drained := Drain(persisted, fates);
      DrainLeavesExactlyWhen(fates);
      PersistedStay(persisted, children, active, given, 0, subtasks);
      return Threw(!drained);
    }

    static lemma {:induction false} NoneGiven(children: seq<Child>)
      ensures CarriedAll(children, [], map[])
    {
    }

    /** How the next settlements will turn out. */
    method NextFates(n: nat) returns (fates: seq<Fate>)
      ensures |fates| == n && forall k | 0 <= k < n :: IsFate(fates[k])
    {
      fates := [];
      while |fates| < n
        invariant |fates| <= n && forall k | 0 <= k < |fates| :: IsFate(fates[k])
      {
        assert IsFate(Fate(OtherFailure, true));
        var fate: Fate :| IsFate(fate);
        fates := fates + [fate];
      }
    }

    /**
     * `#execute`: a plan without dispatch succeeds at once and touches no child; otherwise the parent is
     * recorded as succeeded only when no abort came in between and every subtask has exactly one child
     * and that child succeeded, and as failed when some child did not.
     */
    method Execute(willDispatch: bool, maxConcurrency: nat) returns (recorded: bool)
      requires maxConcurrency >= 1 && status in {Queued, Dispatching}
      requires forall i, j | 0 <= i < j < |subtasks| :: subtasks[i] != subtasks[j]
      requires active == [] && nextIndex == 0 && attached == [] && started == [] && peak == 0 && given == map[]
      modifies this
      ensures status in {Queued, Dispatching, Succeeded, Failed}
      ensures recorded ==> status in {Succeeded, Failed} && events != []
      ensures var delegates := willDispatch && subtasks != [];
        && (!delegates ==> children == old(children) && started == [] && status != Failed)
        && (delegates && status == Succeeded ==> SettledAll(children, subtasks))
        && (delegates && status == Succeeded ==> forall p | 0 <= p < |children| :: children[p].status == Succeeded)
        && (delegates && status == Succeeded ==>
              AllSucceededAs(old(children), |children|, given))
        && (recorded ==>
              events[|events| - 1] == (if status == Succeeded then ParentSucceeded(delegates) else ParentFailed))
      ensures status == Failed ==> exists child :: child in children && child.status != Succeeded
      ensures status == Failed ==> exists p: nat :: p < |children| && FailedAs(old(children), given, p)
      ensures reliable && old(Consistent()) && !aborted ==> recorded
    {
      hide SettledAll, OneEach, StartsOk, Find, Increasing, Handled;
      Await();
      if aborted {
        return false;
      }
      var accepted := AppendOnce(HandoffAccepted);
      if !accepted || aborted {
        return false;
      }
      if !willDispatch || subtasks == [] {
        recorded := SucceedAtOnce();
        return recorded;
      }
      status := Dispatching;
      var announced := AppendOnce(DispatchStarted);
      if !announced {
        return false;
      }
      recorded := Delegate(maxConcurrency);
    }

    /** `#execute` from the dispatch on. */
    method Delegate(maxConcurrency: nat) returns (recorded: bool)
      requires maxConcurrency >= 1 && status == Dispatching
      requires forall i, j | 0 <= i < j < |subtasks| :: subtasks[i] != subtasks[j]
      requires active == [] && nextIndex == 0 && attached == [] && started == [] && peak == 0 && given == map[]
      modifies this
      ensures status in {Dispatching, Succeeded, Failed}
      ensures recorded ==> status != Dispatching && events != []
      ensures recorded ==> events[|events| - 1] == (if status == Succeeded then ParentSucceeded(true) else ParentFailed)
      ensures status == Succeeded ==> SettledAll(children, subtasks)
      ensures status == Succeeded ==> forall p | 0 <= p < |children| :: children[p].status == Succeeded
      ensures status == Succeeded ==> AllSucceededAs(old(children), |children|, given)
      ensures status == Failed ==> exists child :: child in children && child.status != Succeeded
      ensures status == Failed ==> exists p: nat :: p < |children| && FailedAs(old(children), given, p)
      ensures reliable && old(Consistent()) && !aborted ==> recorded
    {
      hide SettledAll, OneEach, StartsOk, Find, Increasing, Handled, Unawaited, Passes, CarriedAll, Accounted,
          SucceededAs, FailedAs;
      ghost var persisted := children;
      var exit := Dispatch(maxConcurrency);
      if exit != Completed || aborted {
        return false;
      }
      var reviewed := RecordEvidence("qualityReview");
      var validated := RecordEvidence("artifactValidation");
      if !reviewed || !validated || aborted {
        return false;
      }
      OutcomesFollow(persisted, children, given);
      recorded := Conclude();
      if status == Failed {
        var p: nat :| p < |children| && children[p].status != Succeeded;
        assert FailedAs(persisted, given, p);
      }
    }

    /** The child's Job settled as succeeded, in this run or before it. */
    static predicate SucceededAs(persisted: seq<Child>, given: map<nat, Settlement>, p: nat) {
      if p in given then given[p] == JobSettled(Succeeded)
      else p < |persisted| && persisted[p].status == Succeeded
    }

    static predicate AllSucceededAs(persisted: seq<Child>, count: nat, given: map<nat, Settlement>) {
      forall p: nat | p < count :: SucceededAs(persisted, given, p)
    }

    /** The child's Job settled otherwise, or its completion was an error. */
    static predicate FailedAs(persisted: seq<Child>, given: map<nat, Settlement>, p: nat) {
      if p in given then given[p] == OtherFailure || (given[p].JobSettled? && given[p].status in {Failed, Cancelled})
      else p < |persisted| && persisted[p].status in {Failed, Cancelled}
    }

    /** The children's statuses are those of their Jobs. */
    static lemma {:induction false} OutcomesFollow(
        persisted: seq<Child>, children: seq<Child>, given: map<nat, Settlement>)
      requires CarriedAll(children, [], given) && |persisted| <= |children|
      requires forall p: nat | p < |children| :: Accounted(persisted, [], given, p)
      requires forall p | 0 <= p < |persisted| && IsTerminal(persisted[p].status) :: children[p] == persisted[p]
      ensures forall p: nat | p < |children| ::
        if children[p].status == Succeeded then SucceededAs(persisted, given, p) else FailedAs(persisted, given, p)
    {
      forall p: nat | p < |children|
        ensures if children[p].status == Succeeded then SucceededAs(persisted, given, p)
                else FailedAs(persisted, given, p)
      {
        assert Accounted(persisted, [], given, p);
        assert p in given ==> Carried(children[p].status, given[p]);
      }
    }

    /** A plan that is not dispatched: what was to be reviewed is skipped, and the parent succeeds. */
    method SucceedAtOnce() returns (recorded: bool)
      modifies this`events, this`evidence, this`aborted, this`status
      ensures status == old(status) || status == Succeeded
      ensures recorded ==> status == Succeeded && events != [] && events[|events| - 1] == ParentSucceeded(false)
      ensures old(aborted) ==> aborted
      ensures reliable ==> recorded
    {
      var reviewed := RecordEvidence("qualityReview");
      if !reviewed {
        return false;
      }
      var validated := RecordEvidence("artifactValidation");
      if !validated {
        return false;
      }
      status := Succeeded;
      var saved := NextSave();
      recorded := AppendEvent(ParentSucceeded(false), saved);
    }

    /** The outcome of a dispatched plan by its children. */
    method Conclude() returns (recorded: bool)
      modifies this`events, this`aborted, this`status
      ensures status == if forall p | 0 <= p < |children| :: children[p].status == Succeeded then Succeeded else Failed
      ensures recorded ==>
        events != [] && events[|events| - 1] == (if status == Succeeded then ParentSucceeded(true) else ParentFailed)
      ensures status == Failed ==> exists child :: child in children && child.status != Succeeded
      ensures reliable ==> recorded
    {
      var failedChildren: seq<nat> := [];
      for p := 0 to |children|
        invariant failedChildren == [] ==> forall q | 0 <= q < p :: children[q].status == Succeeded
        invariant failedChildren != [] ==>
          failedChildren[0] < |children| && children[failedChildren[0]].status != Succeeded
      {
        if children[p].status != Succeeded {
          failedChildren := failedChildren + [p];
        }
      }
      assert failedChildren != [] ==> children[failedChildren[0]] in children;
      status := if failedChildren == [] then Succeeded else Failed;
      var saved := NextSave();
      recorded := AppendEvent(if failedChildren == [] then ParentSucceeded(true) else ParentFailed, saved);
    }
  }
}
