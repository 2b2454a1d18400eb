/** One change's life as a fold of its transition records: what each record does to the state
    file, which record may come next, and what that keeps (attempt.go, complete.go, approve.go,
    reopen.go, sync.go, archive.go). */
module Lifecycle {
  import opened Records
  import opened TaskGraphs
  import Graphs
  import Readiness

  /** The state file of one change. */
  datatype ChangeState = ChangeState(
    stage: Stage, revision: nat, approvals: seq<Approval>, tasks: map<TaskId, Activity>,
    attempts: map<TaskId, Attempt>, completions: map<TaskId, Binding>, last: Id)
  {
    function Advanced(id: Id): ChangeState {
      this.(revision := revision + 1, last := id)
    }

    /** attemptStateGuardHash: the state without its revision, its last transition and one task. */
    function GuardOf(task: TaskId): Guard {
      Guard(stage, approvals, tasks - {task}, attempts - {task}, completions)
    }

    /** The plan the latest approval covers. */
    function Approved(): Plan
      requires approvals != []
    {
      approvals[|approvals| - 1].artifacts
    }

    /** evidenceSetHash: which evidence each completed task consumed. */
    function EvidenceSet(): map<TaskId, Id> {
      map t | t in completions :: completions[t].evidence
    }
  }

  const Uncreated := ChangeState(Planning, 0, [], map[], map[], map[], "")

  /** The effect of one transition record. */
  function Apply(s: ChangeState, r: Record): ChangeState {
    match r.payload
    case CreatedPayload => ChangeState(Planning, 1, [], map[], map[], map[], r.id)
    case ApprovedPayload(approval) => s.(stage := Approved, approvals := s.approvals + [approval]).Advanced(r.id)
    case TransitionPayload(task, _, to) => s.(tasks := s.tasks[task := to]).Advanced(r.id)
    case AttemptPayload(attempt) =>
      s.(attempts := s.attempts[attempt.task := attempt], tasks := s.tasks[attempt.task := InProgress]).Advanced(r.id)
    case CompletionPayload(task, attempt, evidence, _, _) =>
      s.(completions := s.completions[task := Binding(attempt, evidence, r.id)],
         attempts := s.attempts - {task}, tasks := s.tasks[task := Completed]).Advanced(r.id)
    case SyncedPayload(_, _, _, _, _) => s.(stage := Reconciling).Advanced(r.id)
    case ArchivedPayload(_, _, _, _) => s.(stage := Archived).Advanced(r.id)
    case ReopenedPayload(_, _, _, _, _, _) =>
      s.(stage := Planning, tasks := map[], attempts := map[], completions := map[]).Advanced(r.id)
    case FrictionPayload(_, _) => s
    case ObservedPayload(_) => s
    case ClassPayload(_) => s
  }

  /** The state a run of transitions leads to. */
  function Fold(ts: seq<Record>): ChangeState {
    if ts == [] then Uncreated else Apply(Fold(ts[..|ts| - 1]), ts[|ts| - 1])
  }

  function Rows(plan: Plan): (rows: seq<Row>)
    ensures |rows| == |plan.tasks|
  {
    seq(|plan.tasks|, k requires 0 <= k < |plan.tasks| => Row(plan.tasks[k], true))
  }

  function Dependencies(plan: Plan): map<TaskId, seq<TaskId>> {
    DependencyMap(Rows(plan))
  }

  /** A plan whose task graph can be built. */
  ghost predicate Sound(plan: Plan) {
    Declared(Rows(plan)) && !Graphs.Cyclic(Dependencies(plan))
  }

  // ---------------------------------------------------------------------------------
  // Which record may come next
  // ---------------------------------------------------------------------------------

  ghost predicate LegalApproval(s: ChangeState, r: Record) {
    && r.payload.ApprovedPayload? && s.stage == Planning
    && var a := r.payload.approval;
       a.before == s.revision && a.after == s.revision + 1 && a.approver == r.actor && Sound(a.artifacts)
  }

  ghost predicate LegalAttempt(s: ChangeState, r: Record) {
    && r.payload.AttemptPayload? && s.stage == Approved && s.approvals != [] && s.attempts == map[]
    && var a := r.payload.attempt;
       && a.before == s.revision && a.after == s.revision + 1 && a.actor == r.actor
       && a.approved == s.Approved() && a.guard == s.GuardOf(a.task)
       && a.task in Dependencies(a.approved) && Readiness.ActivityOf(s.tasks, a.task) == Pending
       && Readiness.DependenciesDone(s.tasks, Dependencies(a.approved)[a.task])
  }

  ghost predicate LegalCompletion(s: ChangeState, r: Record) {
    && r.payload.CompletionPayload? && s.stage == Approved
    && var p := r.payload;
       && p.before == s.revision && p.after == s.revision + 1
       && p.task in s.attempts && s.attempts[p.task] == p.attemptOf
  }

  ghost predicate LegalReopen(s: ChangeState, r: Record) {
    && r.payload.ReopenedPayload? && s.stage == Approved && s.approvals != []
    && r.payload.approvalId == s.approvals[|s.approvals| - 1].id
    && (r.payload.revoked.None? ==> s.attempts == map[])
    && (r.payload.revoked.Some? ==> r.payload.revoked.value in s.attempts.Values)
  }

  /** Every task of the approved plan is completed. */
  ghost predicate Finished(s: ChangeState)
    requires s.approvals != []
  {
    forall t :: t in Dependencies(s.Approved()) ==> t in s.tasks && s.tasks[t] == Completed
  }

  ghost predicate LegalSync(s: ChangeState, r: Record) {
    && r.payload.SyncedPayload? && s.stage == Approved && s.approvals != []
    && r.payload.approvalHash == s.Approved() && r.payload.evidenceSet == s.EvidenceSet()
    && Finished(s)
  }

  ghost predicate LegalArchive(s: ChangeState, r: Record) {
    r.payload.ArchivedPayload? && s.stage == Reconciling
  }

  ghost predicate Legal(s: ChangeState, r: Record) {
    && 0 < s.revision && r.expected == Some(s.revision) && r.resulting == Some(s.revision + 1)
    && match r.kind
       case ApprovedKind => LegalApproval(s, r)
       case AttemptKind => LegalAttempt(s, r)
       case CompletionKind => LegalCompletion(s, r)
       case ReopenedKind => LegalReopen(s, r)
       case SyncedKind => LegalSync(s, r)
       case ArchivedKind => LegalArchive(s, r)
       case _ => false
  }

  ghost predicate LegalRun(ts: seq<Record>) {
    if |ts| == 0 then false
    else if |ts| == 1 then
      ts[0].payload.CreatedPayload? && ts[0].expected == Some(0) && ts[0].resulting == Some(1)
      && ts[0].kind == CreatedKind
    else
      LegalRun(ts[..|ts| - 1]) && Legal(Fold(ts[..|ts| - 1]), ts[|ts| - 1])
  }

  // ---------------------------------------------------------------------------------
  // What every reachable state satisfies
  // ---------------------------------------------------------------------------------

  /** At most one attempt, bound to the current revision, the approved plan and the rest of the
      state; in-progress tasks are exactly the attempted ones. */
  ghost predicate OneAttempt(s: ChangeState) {
    && (forall t, u :: t in s.attempts && u in s.attempts ==> t == u)
    && (forall t :: t in s.attempts <==> t in s.tasks && s.tasks[t] == InProgress)
    && (forall t :: t in s.attempts ==>
          var a := s.attempts[t];
          && s.stage == Approved && s.approvals != []
          && a.task == t && a.after == s.revision && a.approved == s.Approved() && a.guard == s.GuardOf(t))
  }

  /** Completed tasks are exactly the bound ones, and closed under the dependencies of the
      approved plan. */
  ghost predicate ClosedCompletions(s: ChangeState) {
    && (forall t :: t in s.tasks ==> s.tasks[t] == InProgress || s.tasks[t] == Completed)
    && (forall t :: t in s.completions <==> t in s.tasks && s.tasks[t] == Completed)
    && (s.tasks != map[] ==> s.approvals != [])
    && (forall t :: t in s.tasks ==>
          && t in Dependencies(s.Approved())
          && Readiness.DependenciesDone(s.tasks, Dependencies(s.Approved())[t]))
  }

  ghost predicate Consistent(s: ChangeState) {
    && (s.stage == Planning ==> s.tasks == map[])
    && s.stage != Executing
    && (s.stage != Planning ==> s.approvals != [] && Sound(s.Approved()))
    && (s.stage == Reconciling || s.stage == Archived ==> s.attempts == map[] && Finished(s))
    && OneAttempt(s)
    && ClosedCompletions(s)
  }

  lemma ApprovalKeeps(s: ChangeState, r: Record)
    requires Consistent(s) && LegalApproval(s, r)
    ensures Consistent(Apply(s, r))
  {
    forall t ensures t !in s.attempts {}
    assert s.attempts == map[];
  }

  lemma AttemptKeeps(s: ChangeState, r: Record)
    requires Consistent(s) && LegalAttempt(s, r)
    ensures Consistent(Apply(s, r))
  {
    var a, after := r.payload.attempt, Apply(s, r);
    assert a.task !in s.tasks;
    assert after.tasks - {a.task} == s.tasks - {a.task};
    assert after.attempts - {a.task} == s.attempts - {a.task};
    assert after.GuardOf(a.task) == s.GuardOf(a.task);
    forall t | t in after.tasks
      ensures t in Dependencies(s.Approved()) && Readiness.DependenciesDone(after.tasks, Dependencies(s.Approved())[t])
    {
      forall d | d in Dependencies(s.Approved())[t] ensures Readiness.ActivityOf(after.tasks, d) == Completed {
        assert Readiness.ActivityOf(s.tasks, d) == Completed;
      }
    }
  }

  lemma CompletionKeeps(s: ChangeState, r: Record)
    requires Consistent(s) && LegalCompletion(s, r)
    ensures Consistent(Apply(s, r))
  {
    var p, after := r.payload, Apply(s, r);
    assert p.task in s.tasks && s.tasks[p.task] == InProgress;
    assert after.attempts == map[];
    forall t | t in after.tasks
      ensures t in Dependencies(s.Approved()) && Readiness.DependenciesDone(after.tasks, Dependencies(s.Approved())[t])
    {
      forall d | d in Dependencies(s.Approved())[t] ensures Readiness.ActivityOf(after.tasks, d) == Completed {
        assert Readiness.ActivityOf(s.tasks, d) == Completed;
      }
    }
  }

  lemma SyncKeeps(s: ChangeState, r: Record)
    requires Consistent(s) && LegalSync(s, r)
    ensures Consistent(Apply(s, r))
  {
    forall t ensures t !in s.attempts {
      if t in s.tasks {
        assert t in Dependencies(s.Approved());
      }
    }
    assert s.attempts == map[];
  }

  /** A legal record leads from a consistent state to a consistent state. */
  lemma LegalKeepsConsistent(s: ChangeState, r: Record)
    requires Consistent(s) && Legal(s, r)
    ensures Consistent(Apply(s, r))
    ensures Apply(s, r).revision == s.revision + 1 && Apply(s, r).last == r.id
  {
    match r.kind
    case ApprovedKind => ApprovalKeeps(s, r);
    case AttemptKind => AttemptKeeps(s, r);
    case CompletionKind => CompletionKeeps(s, r);
    case ReopenedKind =>
    case SyncedKind => SyncKeeps(s, r);
    case ArchivedKind =>
  }

  /** In every reachable state, after every prefix of its history: at most one attempt, exactly
      the attempted tasks in progress, exactly the bound tasks completed, and the completed set
      closed under the approved plan, across any number of reopens and new approvals. */
  lemma {:induction false} RunsAreConsistent(ts: seq<Record>)
    requires LegalRun(ts)
    ensures Consistent(Fold(ts)) && Fold(ts).revision == |ts| && Fold(ts).last == ts[|ts| - 1].id
  {
    if |ts| == 1 {
      assert Fold(ts) == Apply(Fold(ts[..0]), ts[0]);
    } else {
      RunsAreConsistent(ts[..|ts| - 1]);
      LegalKeepsConsistent(Fold(ts[..|ts| - 1]), ts[|ts| - 1]);
    }
  }

  lemma {:induction false} LegalPrefix(ts: seq<Record>, k: nat)
    requires LegalRun(ts) && 0 < k <= |ts|
    ensures LegalRun(ts[..k])
    ensures k < |ts| ==> Legal(Fold(ts[..k]), ts[k])
    decreases |ts|
  {
    if k == |ts| {
      assert ts[..k] == ts;
    } else {
      var before := ts[..|ts| - 1];
      LegalPrefix(before, k);
      assert before[..k] == ts[..k];
    }
  }

  /** The record at position k moves the change from revision k to k + 1. */
  lemma Numbered(ts: seq<Record>, k: nat)
    requires LegalRun(ts) && k < |ts|
    ensures ts[k].expected == Some(k) && ts[k].resulting == Some(k + 1)
    ensures k > 0 ==> Legal(Fold(ts[..k]), ts[k]) && Fold(ts[..k]).revision == k
  {
    if k == 0 {
      LegalPrefix(ts, 1);
      assert ts[..1][0] == ts[0];
    } else {
      LegalPrefix(ts, k);
      RunsAreConsistent(ts[..k]);
    }
  }

  lemma FoldNext(ts: seq<Record>, k: nat)
    requires k < |ts|
    ensures Fold(ts[..k + 1]) == Apply(Fold(ts[..k]), ts[k])
  {
    assert ts[..k + 1][..k] == ts[..k];
  }

  // ---------------------------------------------------------------------------------
  // The latest approval of a run
  // ---------------------------------------------------------------------------------

  predicate Working(kind: Kind) {
    kind == TransitionKind || kind == AttemptKind || kind == CompletionKind
  }

  /** ts[i] is the latest approval and only task work follows it. */
  ghost predicate ApprovedAt(ts: seq<Record>, i: nat) {
    && i < |ts| && ts[i].kind == ApprovedKind && ts[i].payload.ApprovedPayload?
    && forall k :: i < k < |ts| ==> Working(ts[k].kind)
  }

  lemma StaysApproved(s: ChangeState, r: Record)
    requires Legal(s, r) && Apply(s, r).stage == Approved
    ensures if r.kind == ApprovedKind then LegalApproval(s, r)
            && Apply(s, r).approvals == s.approvals + [r.payload.approval]
            else s.stage == Approved && Apply(s, r).approvals == s.approvals && Working(r.kind)
  {
  }

  lemma FirstIsPlanning(ts: seq<Record>)
    requires LegalRun(ts) && |ts| == 1
    ensures Fold(ts).stage == Planning && Fold(ts).completions == map[] && Fold(ts).attempts == map[]
  {
    assert Fold(ts) == Apply(Fold(ts[..0]), ts[0]);
  }

  /** An approved change has a latest approval, nothing but task work since, and that approval
      is the one its state ends with. */
  lemma {:induction false} ApprovedSince(ts: seq<Record>) returns (i: nat)
    requires LegalRun(ts) && Fold(ts).stage == Approved
    ensures ApprovedAt(ts, i)
    ensures Fold(ts).approvals != [] && Fold(ts).approvals[|Fold(ts).approvals| - 1] == ts[i].payload.approval
    ensures i > 0 && LegalApproval(Fold(ts[..i]), ts[i])
  {
    hide Apply, Legal;
    if |ts| == 1 { FirstIsPlanning(ts); }
    i := |ts| - 1;
    StaysApproved(Fold(ts[..i]), ts[i]);
    if ts[i].kind != ApprovedKind {
      var before := ts[..i];
      i := ApprovedSince(before);
      assert before[..i] == ts[..i];
    }
  }
}
