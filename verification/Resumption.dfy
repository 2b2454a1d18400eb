/** With a record waiting from an interrupted run: exactly the request that left it is admitted, and
    finishes it (attempt.go, approve.go, reopen.go, complete.go). */
module Resumption {
  import opened Records
  import opened Lifecycle
  import opened Approvals
  import opened Roots
  import opened Authority
  import opened Operations
  import opened Admission
  import Ledger

  /** What waits was legal when it was appended. */
  lemma Waited(root: Root, c: ChangeId, w: Record)
    requires Inv(root) && root.journal.None? && c in root.states && Waiting(root, c) == Some(w)
    ensures Legal(root.states[c], w) && w.Valid() && w.family == History && w.change == c
    ensures Consistent(root.states[c])
  {
    StatesAreConsistent(root, c);
    WaitingIsLegal(root, c);
  }

  /** A start finishes a waiting record only if that is a start by the same actor, of the same task
      with the same row, at the same HEAD and under the same plan; then nothing else is asked but
      that the approval still stands. */
  lemma StartResumption(root: Root, c: ChangeId, task: TaskId, expected: nat, actor: string, id: Id, world: World,
                        diagnosed: bool, w: Record)
    requires Inv(root) && root.journal.None? && c in root.states && Waiting(root, c) == Some(w)
    ensures MayStart(root, c, task, expected, actor, id, world, diagnosed) <==>
            && expected == root.states[c].revision && !diagnosed
            && (exists i :: i < expected && GrantedAt(Ledger.Transitions(root.history, c), i, world))
            && w.kind == AttemptKind && w.payload.AttemptPayload? && w.actor == actor
            && var a := w.payload.attempt;
               && a.task == task && a.actor == actor && world.head == Some(a.head) && a.approved == world.authored
               && a.contract in world.authored.tasks && a.contract.id == task
  {
    var s := root.states[c];
    Waited(root, c, w);
    AuthorizedExactly(root, c, world);
    StartMeets(root, c, task, expected, actor, id, world, diagnosed, w);
    SameStartRequest(s, c, task, actor, id, world, w);
    hide *;
    if Authorizes(root, c, world) {
      AuthorizedPlan(root, c, world);
      RowIsFound(world.authored, task);
      if w.kind == AttemptKind { LegalStart(s, w); }
      if ReadyTask(s, task, world.authored) { ReadyHasRow(s, task, world.authored); }
    }
    ActorNamed(w);
  }

  lemma ActorNamed(r: Record)
    requires r.Valid()
    ensures r.actor != ""
  {
  }

  lemma StartMeets(root: Root, c: ChangeId, task: TaskId, expected: nat, actor: string, id: Id, world: World,
                   diagnosed: bool, w: Record)
    requires c in root.states && Waiting(root, c) == Some(w)
    ensures var s := root.states[c];
            MayStart(root, c, task, expected, actor, id, world, diagnosed) <==>
            && actor != "" && s.revision == expected && s.attempts == map[] && !diagnosed && Authorizes(root, c, world)
            && ReadyTask(s, task, world.authored) && world.head.Some?
            && SameRequest(w, StartRecord(s, c, task, actor, id, world))
  {
    hide Authorizes, ReadyTask, SameRequest;
  }

  lemma SameStartRequest(s: ChangeState, c: ChangeId, task: TaskId, actor: string, id: Id, world: World, w: Record)
    requires Legal(s, w) && w.family == History && w.change == c
    ensures SameRequest(w, StartRecord(s, c, task, actor, id, world)) <==>
            && w.kind == AttemptKind && w.payload.AttemptPayload? && w.actor == actor
            && var a := w.payload.attempt;
               && a.task == task && a.actor == actor && a.head == world.head.GetOr("") && a.approved == world.authored
               && a.contract == FindTask(world.authored.tasks, task).GetOr(Task("", [], ""))
  {
    hide Dependencies, FindTask, ChangeState.GuardOf;
  }

  lemma LegalStart(s: ChangeState, w: Record)
    requires Legal(s, w) && w.kind == AttemptKind
    ensures w.payload.AttemptPayload? && s.attempts == map[] && s.approvals != []
    ensures w.payload.attempt.approved == s.Approved()
    ensures ReadyTask(s, w.payload.attempt.task, w.payload.attempt.approved)
  {
  }

  lemma ReadyHasRow(s: ChangeState, task: TaskId, plan: Plan)
    requires ReadyTask(s, task, plan) && Sound(plan)
    ensures FindTask(plan.tasks, task).Some?
  {
    CanonicalTask(plan, task);
  }

  /** An approval finishes a waiting record only if that is an approval by the same approver of the
      same artifacts, registry and policy. */
  lemma ApprovalResumption(root: Root, c: ChangeId, approver: string, id: Id, approvalId: string, world: World,
                           diagnosed: bool, gates: bool, w: Record)
    requires Inv(root) && root.journal.None? && c in root.states && Waiting(root, c) == Some(w)
    ensures MayApprove(root, c, approver, id, approvalId, world, diagnosed, gates) <==>
            && gates && !diagnosed && w.kind == ApprovedKind && w.payload.ApprovedPayload? && w.actor == approver
            && var a := w.payload.approval;
               && a.approver == approver && a.artifacts == world.authored && a.registry == world.registry
               && a.policy == world.policy
  {
    Waited(root, c, w);
    ActorNamed(w);
    hide Inv, Consistent, Ledger.Transitions, Sound;
  }

  /** A reopen finishes a waiting record only if that is a reopen by the same actor, for the same
      reason, at the same HEAD; it then revokes the same approval and the same attempt. */
  lemma ReopenResumption(root: Root, c: ChangeId, expected: nat, actor: string, reason: string, id: Id, world: World,
                         w: Record)
    requires Inv(root) && root.journal.None? && c in root.states && Waiting(root, c) == Some(w)
    ensures MayReopen(root, c, expected, actor, reason, id, world) <==>
            && expected == root.states[c].revision && reason != ""
            && w.kind == ReopenedKind && w.payload.ReopenedPayload? && w.actor == actor
            && w.payload.reason == reason && world.head == Some(w.payload.head)
    ensures w.kind == ReopenedKind ==>
              var s := root.states[c];
              && s.approvals != [] && w.payload.ReopenedPayload?
              && w.payload.approvalId == s.approvals[|s.approvals| - 1].id && w.payload.revoked == Active(s)
  {
    var s := root.states[c];
    Waited(root, c, w);
    ActorNamed(w);
    if w.kind == ReopenedKind { RevokesActive(s, w); }
    hide Inv, Consistent, Ledger.Transitions, Sound, Active;
  }

  lemma RevokesActive(s: ChangeState, w: Record)
    requires Legal(s, w) && w.kind == ReopenedKind && Consistent(s)
    ensures w.payload.ReopenedPayload? && w.payload.revoked == Active(s)
  {
    hide Sound, ClosedCompletions;
  }

  /** A completion finishes any waiting completion of its task, whoever left it. */
  lemma CompletionResumption(root: Root, c: ChangeId, task: TaskId, expected: nat, actor: string, id: Id, world: World,
                             diagnosed: bool, inScope: bool, w: Record)
    requires Inv(root) && root.journal.None? && c in root.states && Waiting(root, c) == Some(w)
    ensures MayComplete(root, c, task, expected, actor, id, world, diagnosed, inScope) <==>
            && actor != "" && expected == root.states[c].revision
            && w.kind == CompletionKind && w.payload.CompletionPayload? && w.payload.task == task
  {
    hide AttemptHolds, Misfiling, Consumed;
  }
}
