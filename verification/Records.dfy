/** The vocabulary shared by the ledger, the transaction and the change lifecycle.

    A SHA-256 digest is modelled by the value it was computed from, which makes it
    injective by construction; only record and evidence identities stay opaque
    strings, so that the duplicate checks of the source keep their meaning. */
module Records {
  datatype Option<+T> = None | Some(value: T)
  {
    function GetOr(default: T): T {
      match this case None => default case Some(v) => v
    }
  }

  datatype Result<+T, +E> = Ok(value: T) | Err(error: E)

  type Id = string
  type TaskId = string
  type ChangeId = string

  /** One authored row of tasks.md; `contract` stands for its remaining columns. */
  datatype Task = Task(id: TaskId, dependsOn: seq<TaskId>, contract: string)

  /** The planning artifacts an approval covers. */
  datatype Plan = Plan(tasks: seq<Task>, documents: string)

  datatype Stage = Planning | Approved | Executing | Reconciling | Archived

  datatype Activity = Pending | InProgress | Completed | Failed | Blocked

  datatype Approval = Approval(
    id: string, approver: string, artifacts: Plan, registry: string, policy: string,
    before: nat, after: nat)

  /** Everything an attempt's state guard hash covers: the state without its revision,
      its last transition and the attempted task. */
  datatype Guard = Guard(
    stage: Stage, approvals: seq<Approval>, tasks: map<TaskId, Activity>,
    attempts: map<TaskId, Attempt>, completions: map<TaskId, Binding>)

  datatype Attempt = Attempt(
    task: TaskId, head: string, before: nat, after: nat, contract: Task, approved: Plan,
    guard: Guard, actor: string)

  /** The proof a completed task keeps: the attempt, the evidence and the history record. */
  datatype Binding = Binding(attempt: Attempt, evidence: Id, history: Id)

  datatype Kind =
    | CreatedKind | ApprovedKind | TransitionKind | AttemptKind | CompletionKind
    | ObservedKind | SyncedKind | ArchivedKind | FrictionKind | ReopenedKind

  datatype Payload =
    | CreatedPayload
    | ApprovedPayload(approval: Approval)
    | TransitionPayload(task: TaskId, from: Activity, to: Activity)
    | AttemptPayload(attempt: Attempt)
    | CompletionPayload(task: TaskId, attemptOf: Attempt, evidence: Id, before: nat, after: nat)
    | SyncedPayload(approver: string, approvalHash: Plan, evidenceSet: map<TaskId, Id>, before: nat, after: nat)
    | ArchivedPayload(approver: string, syncRecord: Id, before: nat, after: nat)
    | ReopenedPayload(approvalId: string, revoked: Option<Attempt>, reason: string, head: string, before: nat,
                      after: nat)
    | FrictionPayload(task: TaskId, observed: nat)
    | ObservedPayload(run: TestRun)
    | ClassPayload(readable: bool)  // evidence of another class than a run, if it can be read

  /** One verification run recorded in the evidence ledger. */
  datatype TestRun = TestRun(subject: Subject, passed: bool)

  /** The eight fields a run must match before a completion may consume it. */
  datatype Subject = Subject(
    change: ChangeId, task: TaskId, attempt: Attempt, head: string, taskHash: Task,
    command: string, approvalHash: Plan, revision: nat)

  datatype Family = History | Evidence

  datatype Record = Record(
    id: Id, family: Family, kind: Kind, change: ChangeId,
    expected: Option<nat>, resulting: Option<nat>, actor: string, payload: Payload)
  {
    /** A transition moves its change from one revision to the next. */
    predicate Transition() {
      expected.Some?
    }

    /** The revision shape each family and kind demands (validateFamilyKind). */
    predicate ShapeValid() {
      match (family, kind)
      case (History, CreatedKind) => expected == Some(0) && resulting == Some(1)
      case (History, FrictionKind) => expected.None? && resulting.None?
      case (History, ObservedKind) => false
      case (History, _) =>
        expected.Some? && resulting.Some? && resulting.value == expected.value + 1
      case (Evidence, ObservedKind) => expected.None? && resulting.None?
      case (Evidence, _) => false
    }

    /** The payload names the kind and repeats the envelope it is filed under. */
    predicate PayloadValid()
      requires ShapeValid()
    {
      match kind
      case CreatedKind => payload.CreatedPayload?
      case ApprovedKind => payload.ApprovedPayload?
      case TransitionKind => payload.TransitionPayload?
      case AttemptKind =>
        && payload.AttemptPayload?
        && payload.attempt.actor == actor
        && 0 < payload.attempt.before == expected.value && payload.attempt.after == resulting.value
      case CompletionKind =>
        && payload.CompletionPayload?
        && 0 < payload.before == expected.value && payload.after == resulting.value
      case SyncedKind =>
        && payload.SyncedPayload? && payload.approver == actor
        && 0 < payload.before == expected.value && payload.after == resulting.value
      case ArchivedKind =>
        && payload.ArchivedPayload?
        && 0 < payload.before == expected.value && payload.after == resulting.value
      case ReopenedKind =>
        && payload.ReopenedPayload?
        && 0 < payload.before == expected.value && payload.after == resulting.value
      case FrictionKind => payload.FrictionPayload?
      case ObservedKind => payload.ObservedPayload? || payload.ClassPayload?
    }

    predicate Valid() {
      && id != "" && change != "" && actor != ""
      && ShapeValid()
      && PayloadValid()
    }
  }
}
