/** The records, events and leases that the durable stores hold. */
module Records {
  import opened Prelude

  /** A record identity: 1 to 256 characters where the source checks one. */
  datatype Id = Id(text: string)

  /** The owner of a lease row. `Nobody` is the empty string a released lease keeps. */
  datatype Owner = Nobody | Runtime(text: string)

  /** Milliseconds since the epoch, as `Date.getTime` returns them; callers may pass any value. */
  type Time = int

  datatype RecordKind =
    JobKind | OrchestrationKind | WorkOrderKind | CandidateKind | ReviewKind | DispositionKind

  /** `NoStatus` is an immutable domain record, which carries no status field. */
  datatype Status =
    NoStatus | Queued | Running | Dispatching | Succeeded | Failed | Cancelled | Issued

  predicate IsTerminal(status: Status) {
    status in {Succeeded, Failed, Cancelled}
  }

  datatype Artifact = Artifact(path: string, sha256: string, baseCommit: string)

  /** The part of a record that depends on its kind. */
  datatype Body =
    | JobBody(attempt: nat, maxAttempts: nat, route: string, artifacts: seq<Artifact>)
    | OrchestrationBody
    | WorkOrderBody(executorJobId: Option<Id>)
    | CandidateBody(workOrderId: Id, jobId: Id, artifact: Artifact)
    | ReviewBody(candidateId: Id)
    | DispositionBody(decidedCandidateId: Id, reviewId: Id, decision: string)

  /** What became of a worker control: job.control.accepted, job.control.rejected or job.control.lost. */
  datatype ControlOutcome = Accepted | Rejected | Lost

  datatype EventBody =
    | JobQueued
    | CapacityWaiting
    | JobStarted
    | JobRetrying(attempt: nat, nextAttempt: nat)
    | AttemptLost(attempt: nat)
    | RecoveryStarted(previous: Status, nextAttempt: nat)
    | JobSucceeded
    | JobFailed
    | JobCancelled
    | ExecutorJobBound(jobId: Id)
    | ControlRequested(controlId: string, controlAttempt: nat, content: string)
    | ControlSettled(settledId: string, outcome: ControlOutcome)
    | Other(name: string)

  datatype Event = Event(sequence: int, at: Time, body: EventBody)

  datatype Record = Record(id: Id, status: Status, events: seq<Event>, body: Body)

  /** Events carry the sequence numbers 1, 2, ..., n. */
  predicate Numbered(events: seq<Event>) {
    forall i | 0 <= i < |events| :: events[i].sequence == i + 1
  }

  /** What a caller holds of an execution lease; only these three fields are ever compared. */
  datatype Lease = Lease(recordId: Id, owner: Owner, fence: nat)

  predicate IsIdentifier(s: string) {
    1 <= |s| <= 256
  }

  predicate IsOwner(owner: Owner) {
    owner.Runtime? && IsIdentifier(owner.text)
  }

  predicate IsTtl(ttl: int) {
    1 <= ttl <= 86_400_000
  }
}
