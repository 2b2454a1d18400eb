/** A change's state file read off its history: what every field holds, in terms of the records
    alone (approve.go, attempt.go, complete.go, reopen.go, sync.go, archive.go). */
module Chronicle {
  import opened Records
  import opened Lifecycle
  import opened Roots
  import opened Authority
  import opened TaskGraphs
  import Graphs
  import Ledger

  // ---------------------------------------------------------------------------------
  // Reading a run of transitions
  // ---------------------------------------------------------------------------------

  /** The approvals granted, in order. */
  function ApprovalsOf(ts: seq<Record>): seq<Approval> {
    if ts == [] then []
    else
      var last := ts[|ts| - 1];
      ApprovalsOf(ts[..|ts| - 1]) +
      (if last.kind == ApprovedKind && last.payload.ApprovedPayload? then [last.payload.approval] else [])
  }

  /** The stage that the latest record other than task work leads to. */
  function StageOf(ts: seq<Record>): Stage {
    if ts == [] then Planning
    else
      match ts[|ts| - 1].kind
      case ApprovedKind => Approved
      case SyncedKind => Reconciling
      case ArchivedKind => Archived
      case CreatedKind => Planning
      case ReopenedKind => Planning
      case _ => StageOf(ts[..|ts| - 1])
  }

  /** ts[k] completes the task, and no reopen has set it back since. */
  ghost predicate CompletedAt(ts: seq<Record>, t: TaskId, k: int) {
    && 0 <= k < |ts| && ts[k].kind == CompletionKind && ts[k].payload.CompletionPayload? && ts[k].payload.task == t
    && NotReopenedSince(ts, k)
  }

  ghost predicate NotReopenedSince(ts: seq<Record>, k: int)
    requires 0 <= k
  {
    forall m :: k < m < |ts| ==> ts[m].kind != ReopenedKind
  }

  /** The last record starts the task. */
  predicate StartedLast(ts: seq<Record>, t: TaskId) {
    && ts != [] && ts[|ts| - 1].kind == AttemptKind && ts[|ts| - 1].payload.AttemptPayload?
    && ts[|ts| - 1].payload.attempt.task == t
  }

  /** The proof that a completion record gives its task. */
  predicate ProvesAt(ts: seq<Record>, k: int, binding: Binding) {
    && 0 <= k < |ts| && ts[k].payload.CompletionPayload?
    && binding == Binding(ts[k].payload.attemptOf, ts[k].payload.evidence, ts[k].id)
  }

  /** The last record starts this attempt. */
  predicate StartsWith(ts: seq<Record>, attempt: Attempt) {
    ts != [] && ts[|ts| - 1].payload == AttemptPayload(attempt)
  }

  // ---------------------------------------------------------------------------------
  // One record at a time
  // ---------------------------------------------------------------------------------

  lemma LegalEffect(s: ChangeState, r: Record)
    requires Legal(s, r)
    ensures r.kind == CompletionKind ==> r.payload.CompletionPayload?
    ensures Apply(s, r).approvals ==
            s.approvals + (if r.kind == ApprovedKind && r.payload.ApprovedPayload? then [r.payload.approval] else [])
    ensures Apply(s, r).stage ==
            match r.kind
            case ApprovedKind => Approved
            case SyncedKind => Reconciling
            case ArchivedKind => Archived
            case CreatedKind => Planning
            case ReopenedKind => Planning
            case _ => s.stage
    ensures Apply(s, r).completions ==
            match r.kind
            case CompletionKind =>
              s.completions[r.payload.task := Binding(r.payload.attemptOf, r.payload.evidence, r.id)]
            case ReopenedKind => map[]
            case _ => s.completions
  {
  }

  lemma {:induction false} ApprovalsAreRead(ts: seq<Record>)
    requires LegalRun(ts)
    ensures Fold(ts).approvals == ApprovalsOf(ts)
  {
    hide Legal, Apply;
    if |ts| == 1 {
      FirstEffect(ts);
      assert ApprovalsOf(ts[..0]) == [];
    } else {
      ApprovalsAreRead(ts[..|ts| - 1]);
      LegalEffect(Fold(ts[..|ts| - 1]), ts[|ts| - 1]);
    }
  }

  lemma FirstEffect(ts: seq<Record>)
    requires LegalRun(ts) && |ts| == 1
    ensures ts[0].kind == CreatedKind
    ensures Fold(ts).approvals == [] && Fold(ts).stage == Planning && Fold(ts).completions == map[]
  {
    assert Fold(ts) == Apply(Fold(ts[..0]), ts[0]);
  }

  lemma {:induction false} StageIsRead(ts: seq<Record>)
    requires LegalRun(ts)
    ensures Fold(ts).stage == StageOf(ts)
  {
    hide Legal, Apply;
    if |ts| == 1 {
      FirstEffect(ts);
    } else {
      StageIsRead(ts[..|ts| - 1]);
      LegalEffect(Fold(ts[..|ts| - 1]), ts[|ts| - 1]);
    }
  }

  /** One more record: which completions stand. */
  lemma CompletedNext(ts: seq<Record>, r: Record, t: TaskId, k: int)
    ensures CompletedAt(ts + [r], t, k) <==>
            if k == |ts| then r.kind == CompletionKind && r.payload.CompletionPayload? && r.payload.task == t
            else CompletedAt(ts, t, k) && r.kind != ReopenedKind
  {
    var all := ts + [r];
    if 0 <= k < |ts| {
      assert all[k] == ts[k] && all[|ts|] == r;
      if NotReopenedSince(ts, k) && r.kind != ReopenedKind {
        forall m | k < m < |all| ensures all[m].kind != ReopenedKind {
          if m < |ts| { assert all[m] == ts[m]; }
        }
      }
      if NotReopenedSince(all, k) {
        forall m | k < m < |ts| ensures ts[m].kind != ReopenedKind {
          assert all[m] == ts[m];
        }
      }
    }
  }

  /** A task is completed once between reopens. */
  lemma NotYetCompleted(s: ChangeState, r: Record)
    requires Consistent(s) && Legal(s, r) && r.kind == CompletionKind
    ensures r.payload.CompletionPayload? && r.payload.task !in s.completions
  {
  }

  lemma {:induction false} CompletionsAreRead(ts: seq<Record>, t: TaskId)
    requires LegalRun(ts)
    ensures t in Fold(ts).completions <==> exists k :: CompletedAt(ts, t, k)
    ensures forall k :: CompletedAt(ts, t, k) ==>
                          t in Fold(ts).completions && ProvesAt(ts, k, Fold(ts).completions[t])
    ensures forall k, m :: CompletedAt(ts, t, k) && CompletedAt(ts, t, m) ==> k == m
  {
    hide Legal, Apply, Consistent, CompletedAt;
    if |ts| == 1 {
      FirstEffect(ts);
      NoneAtFirst(ts, t);
    } else {
      var before, r := ts[..|ts| - 1], ts[|ts| - 1];
      assert ts == before + [r];
      CompletionsAreRead(before, t);
      RunsAreConsistent(before);
      LegalEffect(Fold(before), r);
      if r.kind == CompletionKind { NotYetCompleted(Fold(before), r); }
      forall k ensures CompletedAt(ts, t, k) <==>
                       if k == |before| then r.kind == CompletionKind && r.payload.task == t
                       else CompletedAt(before, t, k) && r.kind != ReopenedKind
      {
        CompletedNext(before, r, t, k);
      }
      forall k | CompletedAt(before, t, k) ensures 0 <= k < |before| { WithinRun(before, t, k); }
      if t in Fold(ts).completions {
        if r.kind == CompletionKind && r.payload.task == t {
          assert CompletedAt(ts, t, |before|);
        } else {
          var k :| CompletedAt(before, t, k);
          assert CompletedAt(ts, t, k);
        }
      }
    }
  }

  lemma WithinRun(ts: seq<Record>, t: TaskId, k: int)
    requires CompletedAt(ts, t, k)
    ensures 0 <= k < |ts| && ts[k].payload.CompletionPayload? && ts[k].kind == CompletionKind
  {
  }

  lemma NoneAtFirst(ts: seq<Record>, t: TaskId)
    requires |ts| == 1 && ts[0].kind == CreatedKind
    ensures forall k :: !CompletedAt(ts, t, k)
  {
  }

  lemma AttemptsAreRead(ts: seq<Record>, t: TaskId)
    requires LegalRun(ts)
    ensures t in Fold(ts).attempts <==> StartedLast(ts, t)
    ensures t in Fold(ts).attempts ==> StartsWith(ts, Fold(ts).attempts[t])
  {
    hide Legal, Consistent;
    RunsAreConsistent(ts);
    if t in Fold(ts).attempts {
      AttemptIsLast(ts, t);
      NamedAttempt(Fold(ts), t);
    }
    if StartedLast(ts, t) {
      assert Fold(ts) == Apply(Fold(ts[..|ts| - 1]), ts[|ts| - 1]);
    }
  }

  lemma NamedAttempt(s: ChangeState, t: TaskId)
    requires Consistent(s) && t in s.attempts
    ensures s.attempts[t].task == t
  {
  }

  // ---------------------------------------------------------------------------------
  // The whole file
  // ---------------------------------------------------------------------------------

  /** The state that the records of a change describe. */
  ghost predicate ReadOff(s: ChangeState, ts: seq<Record>) {
    && s.revision == |ts| && ts != [] && s.last == ts[|ts| - 1].id
    && s.approvals == ApprovalsOf(ts) && s.stage == StageOf(ts)
    && (forall t :: t in s.attempts <==> StartedLast(ts, t))
    && (forall t :: t in s.attempts ==> StartsWith(ts, s.attempts[t]))
    && (forall t :: t in s.completions <==> exists k :: CompletedAt(ts, t, k))
    && (forall t, k :: CompletedAt(ts, t, k) ==> t in s.completions && ProvesAt(ts, k, s.completions[t]))
    && (forall t :: t in s.tasks <==> t in s.attempts || t in s.completions)
    && (forall t :: t in s.attempts ==> t in s.tasks && s.tasks[t] == InProgress)
    && (forall t :: t in s.completions ==> t in s.tasks && s.tasks[t] == Completed)
  }

  /** Every field of every reachable state, from the records of its run alone: all approvals ever
      granted, the stage of the latest record that is not task work, the attempt that the last
      record starts, and the completions no reopen has set back. */
  lemma FoldIsRead(ts: seq<Record>)
    requires LegalRun(ts)
    ensures ReadOff(Fold(ts), ts)
  {
    hide LegalRun, Fold, Consistent, ApprovalsOf, StageOf, NotReopenedSince, CompletedAt, StartedLast;
    RunsAreConsistent(ts);
    ApprovalsAreRead(ts);
    StageIsRead(ts);
    TasksAreRead(Fold(ts));
    NotEmpty(ts);
    forall t
      ensures t in Fold(ts).attempts <==> StartedLast(ts, t)
      ensures t in Fold(ts).attempts ==> StartsWith(ts, Fold(ts).attempts[t])
      ensures t in Fold(ts).completions <==> exists k :: CompletedAt(ts, t, k)
      ensures forall k :: CompletedAt(ts, t, k) ==>
                            t in Fold(ts).completions && ProvesAt(ts, k, Fold(ts).completions[t])
    {
      AttemptsAreRead(ts, t);
      CompletionsAreRead(ts, t);
    }
  }

  lemma NotEmpty(ts: seq<Record>)
    requires LegalRun(ts)
    ensures ts != []
  {
  }

  /** The tasks on record are the one in progress and the completed ones. */
  lemma TasksAreRead(s: ChangeState)
    requires Consistent(s)
    ensures forall t :: t in s.tasks <==> t in s.attempts || t in s.completions
    ensures forall t :: t in s.attempts ==> t in s.tasks && s.tasks[t] == InProgress
    ensures forall t :: t in s.completions ==> t in s.tasks && s.tasks[t] == Completed
  {
    hide Sound, Dependencies;
  }

  /** The same of every state file of every reachable root. */
  lemma StateFileIsRead(root: Root, c: ChangeId)
    requires Inv(root) && c in root.states
    ensures root.states[c].revision <= |Timeline(root, c)|
    ensures ReadOff(root.states[c], Timeline(root, c)[..root.states[c].revision])
  {
    hide ReadOff, ApprovalsOf, StageOf;
    var ts, s := Timeline(root, c), root.states[c];
    assert Tracked(root, c);
    LegalPrefix(ts, s.revision);
    FoldIsRead(ts[..s.revision]);
  }

  // ---------------------------------------------------------------------------------
  // What a sync record names
  // ---------------------------------------------------------------------------------

  predicate TaskOf(plan: Plan, t: TaskId) {
    exists i :: 0 <= i < |plan.tasks| && plan.tasks[i].id == t
  }

  /** The sync record after these ones: it names the latest approved plan, exactly the tasks of
      that plan, and for each of them the evidence of the completion that stands. */
  ghost predicate NamesTheWork(before: seq<Record>, plan: Plan, named: map<TaskId, Id>) {
    && ApprovalsOf(before) != [] && plan == ApprovalsOf(before)[|ApprovalsOf(before)| - 1].artifacts
    && (forall t :: t in named <==> TaskOf(plan, t))
    && (forall t :: t in named <==> exists k :: CompletedAt(before, t, k))
    && (forall t, k :: CompletedAt(before, t, k) ==> t in named && before[k].payload.evidence == named[t])
  }

  lemma TasksOfPlan(plan: Plan)
    requires Sound(plan)
    ensures forall t :: t in Dependencies(plan) <==> TaskOf(plan, t)
  {
    DependencyMapAt(Rows(plan));
    forall t ensures t in Dependencies(plan) <==> TaskOf(plan, t) {
      if i :| 0 <= i < |plan.tasks| && plan.tasks[i].id == t { assert Ids(Rows(plan))[i] == t; }
      assert t in Ids(Rows(plan)) ==> exists i :: 0 <= i < |Rows(plan)| && Ids(Rows(plan))[i] == t;
    }
  }

  /** What a legal sync record takes from the state. */
  lemma SyncTakes(s: ChangeState, r: Record)
    requires Consistent(s) && Legal(s, r) && r.kind == SyncedKind
    ensures r.payload.SyncedPayload? && s.approvals != []
    ensures r.payload.approvalHash == s.approvals[|s.approvals| - 1].artifacts && Sound(r.payload.approvalHash)
    ensures forall t :: t in r.payload.evidenceSet <==> t in s.completions
    ensures forall t :: t in s.completions ==> r.payload.evidenceSet[t] == s.completions[t].evidence
    ensures forall t :: t in s.completions <==> t in Dependencies(r.payload.approvalHash)
  {
    hide Graphs.Cyclic, Dependencies;
  }

  lemma {:induction false} SyncNamesTheWork(ts: seq<Record>, k: nat)
    requires LegalRun(ts) && k < |ts| && ts[k].kind == SyncedKind
    ensures ts[k].payload.SyncedPayload?
    ensures NamesTheWork(ts[..k], ts[k].payload.approvalHash, ts[k].payload.evidenceSet)
  {
    hide LegalRun, Fold, Consistent, Legal, Apply, ApprovalsOf, StageOf, TaskOf, StartedLast, Sound, Dependencies;
    FirstIsCreated(ts);
    Numbered(ts, k);
    LegalPrefix(ts, k);
    RunsAreConsistent(ts[..k]);
    SyncTakes(Fold(ts[..k]), ts[k]);
    FoldIsRead(ts[..k]);
    TasksOfPlan(ts[k].payload.approvalHash);
  }

  /** A recorded, passing run of the task. */
  predicate PassedRun(e: Record, c: ChangeId, t: TaskId) {
    && e.payload.ObservedPayload? && e.payload.run.passed
    && e.payload.run.subject.change == c && e.payload.run.subject.task == t
  }

  /** Each named evidence is a recorded, passing run of its task, made at the HEAD, for the contract
      and under the plan that the completed attempt fixed. */
  ghost predicate NamedIsProven(root: Root, c: ChangeId, named: map<TaskId, Id>) {
    forall t :: t in named ==>
                  exists e, done :: e in root.evidence && done in root.history && e.id == named[t] && PassedRun(e, c, t)
                                    && done.change == c && done.kind == CompletionKind && RanFor(done, e)
  }

  lemma NamesAreProven(root: Root, c: ChangeId, k: nat, plan: Plan, named: map<TaskId, Id>)
    requires Inv(root) && k <= |Timeline(root, c)| && NamesTheWork(Timeline(root, c)[..k], plan, named)
    ensures NamedIsProven(root, c, named)
  {
    var ts := Timeline(root, c);
    hide Inv, LegalRun, ApprovalsOf, TaskOf;
    forall t | t in named
      ensures exists e, done :: e in root.evidence && done in root.history && e.id == named[t] && PassedRun(e, c, t)
                                && done.change == c && done.kind == CompletionKind && RanFor(done, e)
    {
      var j :| CompletedAt(ts[..k], t, j);
      var e := CompletionWasProven(root, c, j);
    }
  }

  /** Every sync any change ever had names the plan approved last before it, exactly the tasks of that
      plan, and for each a run that was recorded and passed. */
  lemma SyncIsProven(root: Root, c: ChangeId, k: nat)
    requires Inv(root) && c in root.states && k < |Timeline(root, c)| && Timeline(root, c)[k].kind == SyncedKind
    ensures var r := Timeline(root, c)[k];
            && r.payload.SyncedPayload?
            && NamesTheWork(Timeline(root, c)[..k], r.payload.approvalHash, r.payload.evidenceSet)
            && NamedIsProven(root, c, r.payload.evidenceSet)
  {
    var ts := Timeline(root, c);
    assert Tracked(root, c);
    SyncNamesTheWork(ts, k);
    NamesAreProven(root, c, k, ts[k].payload.approvalHash, ts[k].payload.evidenceSet);
  }

  /** Every completion in a timeline is in the history, and proven. */
  lemma CompletionWasProven(root: Root, c: ChangeId, j: nat) returns (e: Record)
    requires Inv(root) && j < |Timeline(root, c)| && Timeline(root, c)[j].kind == CompletionKind
    ensures var done := Timeline(root, c)[j];
            && done in root.history && done.change == c && done.payload.CompletionPayload?
            && e in root.evidence && e.id == done.payload.evidence && PassedRun(e, c, done.payload.task)
            && RanFor(done, e)
  {
    var done, recorded := Timeline(root, c)[j], Ledger.Transitions(root.history, c);
    Ledger.LastRevisionIsLastTransition(root.history, c);
    if j < |recorded| { assert done == recorded[j]; }
    assert Proven(done, root.evidence);
    e :| e in root.evidence && ProvenBy(done, e) && RanFor(done, e);
  }
}
