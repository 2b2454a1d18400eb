/** When a request is admitted, and what it writes, told from the two ledgers alone: the state
    file is never needed to decide, nor any of the names the writers are specified with
    (attempt.go, complete.go, approve.go, reopen.go, sync.go, archive.go, friction.go). */
module Admission {
  import opened Records
  import opened TaskGraphs
  import opened Lifecycle
  import opened Approvals
  import opened Roots
  import opened Authority
  import opened Operations
  import opened Chronicle
  import Ledger
  import Proofs
  import Readiness

  // ---------------------------------------------------------------------------------
  // Reading the ledgers
  // ---------------------------------------------------------------------------------

  /** Completed, and not set back since. */
  ghost predicate Done(ts: seq<Record>, t: TaskId) {
    exists k :: CompletedAt(ts, t, k)
  }

  /** ts[i] approves exactly these inputs, and nothing but task work follows it. */
  ghost predicate GrantedAt(ts: seq<Record>, i: int, world: World) {
    && 0 <= i < |ts| && ts[i].kind == ApprovedKind && ts[i].payload.ApprovedPayload?
    && ts[i].payload.approval.artifacts == world.authored
    && ts[i].payload.approval.registry == world.registry && ts[i].payload.approval.policy == world.policy
    && TaskWorkSince(ts, i)
  }

  ghost predicate TaskWorkSince(ts: seq<Record>, i: int)
    requires 0 <= i
  {
    forall m :: i < m < |ts| ==> ts[m].kind == AttemptKind || ts[m].kind == CompletionKind
  }

  /** The plan has the task, it is not completed, and all it depends on is. */
  ghost predicate RowReady(ts: seq<Record>, plan: Plan, task: TaskId, row: Task) {
    && row in plan.tasks && row.id == task
    && !Done(ts, task) && forall d :: d in row.dependsOn ==> Done(ts, d)
  }

  /** With nothing waiting, state and ledger say the same. */
  lemma Level(root: Root, c: ChangeId)
    requires Inv(root) && root.journal.None? && c in root.states && Waiting(root, c).None?
    ensures var s, ts := root.states[c], Ledger.Transitions(root.history, c);
            LegalRun(ts) && ts != [] && |ts| == s.revision && s == Fold(ts) && ReadOff(s, ts) && Consistent(s)
  {
    hide ReadOff, Consistent;
    var s, ts := root.states[c], Ledger.Transitions(root.history, c);
    StatesAreConsistent(root, c);
    TimelineWithoutJournal(root, c);
    WaitingIsLegal(root, c);
    assert Tracked(root, c);
    assert ts[..s.revision] == ts;
    FoldIsRead(ts);
  }

  // ---------------------------------------------------------------------------------
  // Authority
  // ---------------------------------------------------------------------------------

  lemma {:induction false} SinceApproval(ts: seq<Record>, i: nat)
    requires i < |ts| && ts[i].kind == ApprovedKind && ts[i].payload.ApprovedPayload? && TaskWorkSince(ts, i)
    ensures StageOf(ts) == Approved
    ensures ApprovalsOf(ts) != [] && ApprovalsOf(ts)[|ApprovalsOf(ts)| - 1] == ts[i].payload.approval
  {
    if i < |ts| - 1 {
      SinceApproval(ts[..|ts| - 1], i);
    }
  }

  lemma OnlyLegalKinds(ts: seq<Record>, m: nat)
    requires LegalRun(ts) && m < |ts| && Working(ts[m].kind)
    ensures ts[m].kind == AttemptKind || ts[m].kind == CompletionKind
  {
    Numbered(ts, m);
    FirstIsCreated(ts);
    if m > 0 { LegalKinds(Fold(ts[..m]), ts[m]); }
  }

  lemma LegalKinds(s: ChangeState, r: Record)
    requires Legal(s, r)
    ensures r.kind != TransitionKind
  {
  }

  /** A change is authorized exactly when its latest persisted record that is not task work
      approves the very plan, registry and policy that are there, and all that follows it, a waiting
      record included, is starts and completions. */
  lemma AuthorizedExactly(root: Root, c: ChangeId, world: World)
    requires Inv(root) && root.journal.None? && c in root.states
    ensures var ts := Ledger.Transitions(root.history, c);
            Authorizes(root, c, world) <==> exists i :: i < root.states[c].revision && GrantedAt(ts, i, world)
  {
    var s, ts := root.states[c], Ledger.Transitions(root.history, c);
    TimelineWithoutJournal(root, c);
    assert Tracked(root, c);
    hide Inv, Tracked;
    if Authorizes(root, c, world) { AuthorizedMeans(ts, s, world); }
    if i :| i < s.revision && GrantedAt(ts, i, world) { GrantedMeans(ts, s, i, world); }
  }

  lemma AuthorizedMeans(ts: seq<Record>, s: ChangeState, world: World)
    requires LegalRun(ts) && 0 < s.revision <= |ts| <= s.revision + 1 && s == Fold(ts[..s.revision])
    requires s.stage == Approved && s.approvals != [] && SameInputs(s.approvals[|s.approvals| - 1], world)
    requires s.revision < |ts| ==> Working(ts[s.revision].kind)
    ensures exists i :: i < s.revision && GrantedAt(ts, i, world)
  {
    hide LegalRun, Fold;
    var i := RestsOnSome(ts, s);
    forall m | i < m < |ts| ensures ts[m].kind == AttemptKind || ts[m].kind == CompletionKind {
      OnlyLegalKinds(ts, m);
    }
    assert GrantedAt(ts, i, world);
  }

  lemma GrantedMeans(ts: seq<Record>, s: ChangeState, i: int, world: World)
    requires LegalRun(ts) && 0 < s.revision <= |ts| <= s.revision + 1 && s == Fold(ts[..s.revision])
    requires i < s.revision && GrantedAt(ts, i, world)
    ensures s.stage == Approved && s.approvals != [] && SameInputs(s.approvals[|s.approvals| - 1], world)
    ensures s.revision < |ts| ==> Working(ts[s.revision].kind)
  {
    hide LegalRun, Fold, ReadOff, StageOf, ApprovalsOf;
    var mine := ts[..s.revision];
    LegalPrefix(ts, s.revision);
    FoldIsRead(mine);
    LevelBasics(s, mine);
    assert forall m :: i < m < |mine| ==> mine[m] == ts[m];
    SinceApproval(mine, i);
  }

  // ---------------------------------------------------------------------------------
  // Start
  // ---------------------------------------------------------------------------------

  lemma {:induction false} FindAmong(tasks: seq<Task>, id: TaskId)
    ensures match FindTask(tasks, id)
            case Some(row) => row in tasks && row.id == id
            case None => forall row :: row in tasks ==> row.id != id
  {
    if tasks != [] { FindAmong(tasks[1..], id); }
  }

  lemma PlanRows(plan: Plan)
    requires Sound(plan)
    ensures forall row :: row in plan.tasks ==>
                            && row.id in Dependencies(plan) && Dependencies(plan)[row.id] == row.dependsOn
                            && FindTask(plan.tasks, row.id) == Some(row)
    ensures forall t :: t in Dependencies(plan) ==> exists row :: row in plan.tasks && row.id == t
  {
    var rows := Rows(plan);
    DependencyMapAt(rows);
    forall row | row in plan.tasks
      ensures row.id in Dependencies(plan) && Dependencies(plan)[row.id] == row.dependsOn
      ensures FindTask(plan.tasks, row.id) == Some(row)
    {
      var i :| 0 <= i < |plan.tasks| && plan.tasks[i] == row;
      assert rows[i].task == row;
      FindAmong(plan.tasks, row.id);
      var found := FindTask(plan.tasks, row.id).value;
      var j :| 0 <= j < |plan.tasks| && plan.tasks[j] == found;
      assert Ids(rows)[i] == Ids(rows)[j];
    }
    forall t | t in Dependencies(plan) ensures exists row :: row in plan.tasks && row.id == t {
      var i :| 0 <= i < |Ids(rows)| && Ids(rows)[i] == t;
      assert plan.tasks[i] in plan.tasks;
    }
  }

  /** The persisted activities, read off. */
  lemma ActivitiesAreRead(s: ChangeState, ts: seq<Record>, t: TaskId)
    requires ReadOff(s, ts)
    ensures Readiness.ActivityOf(s.tasks, t) == Completed <==> Done(ts, t)
    ensures Readiness.ActivityOf(s.tasks, t) == Pending <==> !StartedLast(ts, t) && !Done(ts, t)
    ensures Readiness.ActivityOf(s.tasks, t) == InProgress <==> StartedLast(ts, t)
  {
    hide CompletedAt, StartedLast, ApprovalsOf, StageOf;
  }

  lemma ReadyIsRead(s: ChangeState, ts: seq<Record>, plan: Plan, task: TaskId)
    requires ReadOff(s, ts) && Sound(plan) && s.attempts == map[]
    ensures ReadyTask(s, task, plan) <==> exists row :: RowReady(ts, plan, task, row)
  {
    hide ReadOff, Sound, Dependencies, Done;
    PlanRows(plan);
    forall t
      ensures Readiness.ActivityOf(s.tasks, t) == Completed <==> Done(ts, t)
      ensures Readiness.ActivityOf(s.tasks, t) == Pending <==> !Done(ts, t)
    {
      ActivitiesAreRead(s, ts, t);
      NobodyStarted(s, ts, t);
    }
    if ReadyTask(s, task, plan) {
      var row :| row in plan.tasks && row.id == task;
      assert RowReady(ts, plan, task, row);
    }
  }

  lemma NobodyStarted(s: ChangeState, ts: seq<Record>, t: TaskId)
    requires ReadOff(s, ts) && s.attempts == map[]
    ensures !StartedLast(ts, t)
  {
  }

  /** No attempt is open exactly when the last record is not one. */
  lemma AttemptsAreLast(s: ChangeState, ts: seq<Record>)
    requires ReadOff(s, ts) && LegalRun(ts)
    ensures s.attempts == map[] <==> ts[|ts| - 1].kind != AttemptKind
  {
    var r := ts[|ts| - 1];
    if r.kind == AttemptKind {
      Numbered(ts, |ts| - 1);
      FirstIsCreated(ts);
      assert StartedLast(ts, r.payload.attempt.task);
    } else {
      forall t ensures t !in s.attempts {}
    }
  }

  /** A start is admitted, nothing waiting, exactly when the ledger shows an approval of what is
      there now, no attempt at its end, and a row whose task is open and whose dependencies are all
      completed. */
  lemma StartAdmitted(root: Root, c: ChangeId, task: TaskId, expected: nat, actor: string, id: Id, world: World,
                      diagnosed: bool)
    requires Inv(root) && root.journal.None? && c in root.states && Waiting(root, c).None?
    ensures var ts := Ledger.Transitions(root.history, c);
            MayStart(root, c, task, expected, actor, id, world, diagnosed) <==>
            && actor != "" && !diagnosed && world.head.Some? && !Ledger.HasId(root.history, id)
            && ts != [] && expected == |ts| && ts[|ts| - 1].kind != AttemptKind
            && (exists i :: GrantedAt(ts, i, world))
            && (exists row :: RowReady(ts, world.authored, task, row))
  {
    hide Inv, ReadOff, LegalRun, Fold, Consistent, Authorizes, Sound, ReadyTask, RowReady, GrantedAt, Ledger.HasId;
    var s, ts := root.states[c], Ledger.Transitions(root.history, c);
    Level(root, c);
    AttemptsAreLast(s, ts);
    AuthorizedExactly(root, c, world);
    if Authorizes(root, c, world) { AuthorizedPlan(root, c, world); }
    if Authorizes(root, c, world) && s.attempts == map[] { ReadyIsRead(s, ts, world.authored, task); }
    InRange(ts, world);
  }

  lemma InRange(ts: seq<Record>, world: World)
    ensures forall i :: GrantedAt(ts, i, world) ==> i < |ts|
  {
  }

  /** The record it appends: the attempt fixes HEAD, the plan and the row as they are, and the rest
      of the state, which holds the approvals and the completions and nothing else. */
  lemma StartWrites(root: Root, c: ChangeId, task: TaskId, expected: nat, actor: string, id: Id, world: World,
                    diagnosed: bool)
    requires Inv(root) && root.journal.None? && c in root.states && Waiting(root, c).None?
    requires MayStart(root, c, task, expected, actor, id, world, diagnosed)
    ensures var ts := Ledger.Transitions(root.history, c);
            var r := StartRecord(root.states[c], c, task, actor, id, world);
            && r.payload.AttemptPayload?
            && var a := r.payload.attempt;
               && r == Record(id, History, AttemptKind, c, Some(expected), Some(expected + 1), actor, AttemptPayload(a))
               && a.task == task && a.actor == actor && a.before == expected && a.after == expected + 1
               && world.head == Some(a.head) && a.approved == world.authored
               && RowReady(ts, world.authored, task, a.contract)
               && a.guard.stage == Approved && a.guard.approvals == ApprovalsOf(ts) && a.guard.attempts == map[]
               && (forall t :: t in a.guard.tasks <==> Done(ts, t))
               && (forall t :: t in a.guard.completions <==> Done(ts, t))
               && (forall t :: t in a.guard.tasks ==> a.guard.tasks[t] == Completed)
               && (forall t, k :: CompletedAt(ts, t, k) ==>
                      t in a.guard.completions && ProvesAt(ts, k, a.guard.completions[t]))
  {
    var s, ts := root.states[c], Ledger.Transitions(root.history, c);
    Level(root, c);
    AuthorizedPlan(root, c, world);
    PlanRows(world.authored);
    ReadyIsRead(s, ts, world.authored, task);
    GuardIsRead(s, ts, task);
    hide Inv, ReadOff, LegalRun, Fold, Consistent, Authorizes, Sound, ReadyTask, ChangeState.GuardOf;
    ghost var row :| RowReady(ts, world.authored, task, row);
  }

  lemma GuardIsRead(s: ChangeState, ts: seq<Record>, task: TaskId)
    requires ReadOff(s, ts) && s.attempts == map[] && s.stage == Approved && !Done(ts, task)
    ensures var guard := s.GuardOf(task);
            && guard.stage == Approved && guard.approvals == ApprovalsOf(ts) && guard.attempts == map[]
            && (forall t :: t in guard.tasks <==> Done(ts, t))
            && (forall t :: t in guard.completions <==> Done(ts, t))
            && (forall t :: t in guard.tasks ==> guard.tasks[t] == Completed)
            && (forall t, k :: CompletedAt(ts, t, k) ==>
                   t in guard.completions && ProvesAt(ts, k, guard.completions[t]))
  {
    hide CompletedAt, StartedLast, ApprovalsOf, StageOf;
  }

  /** The guard holds all of a state but its revision, its last transition and one task. */
  lemma GuardCovers(s: ChangeState, t: ChangeState, task: TaskId)
    ensures s.GuardOf(task) == t.GuardOf(task) <==>
            && s.stage == t.stage && s.approvals == t.approvals && s.completions == t.completions
            && (forall u :: u != task ==>
                   && (u in s.tasks <==> u in t.tasks) && (u in s.tasks ==> s.tasks[u] == t.tasks[u])
                   && (u in s.attempts <==> u in t.attempts) && (u in s.attempts ==> s.attempts[u] == t.attempts[u]))
  {
    var left, right := s.GuardOf(task), t.GuardOf(task);
    if left == right {
      forall u | u != task
        ensures (u in s.tasks <==> u in t.tasks) && (u in s.tasks ==> s.tasks[u] == t.tasks[u])
        ensures (u in s.attempts <==> u in t.attempts) && (u in s.attempts ==> s.attempts[u] == t.attempts[u])
      {
        assert u in left.tasks <==> u in s.tasks;
        assert u in right.tasks <==> u in t.tasks;
        assert u in left.attempts <==> u in s.attempts;
        assert u in right.attempts <==> u in t.attempts;
      }
    }
  }

  // ---------------------------------------------------------------------------------
  // Completion
  // ---------------------------------------------------------------------------------

  /** A run of this task and attempt, made for all that the attempt fixed, at this revision. */
  predicate RunOf(e: Record, c: ChangeId, task: TaskId, a: Attempt, revision: nat) {
    && e.payload.ObservedPayload?
    && var run := e.payload.run.subject;
       && run.change == c && run.task == task && run.attempt == a && run.head == a.head
       && run.taskHash == a.contract && run.command == a.contract.contract && run.approvalHash == a.approved
       && run.revision == revision
  }

  /** evidence[i] is the newest such run, and it passed. */
  ghost predicate NewestPass(evidence: seq<Record>, i: int, c: ChangeId, task: TaskId, a: Attempt, revision: nat) {
    && 0 <= i < |evidence| && RunOf(evidence[i], c, task, a, revision) && evidence[i].payload.run.passed
    && forall k :: i < k < |evidence| ==> !RunOf(evidence[k], c, task, a, revision)
  }

  /** Every record can be read, and every run is filed under the change it names. */
  ghost predicate WellFiled(evidence: seq<Record>) {
    forall e :: e in evidence ==>
                  || e.payload == ClassPayload(true)
                  || (e.payload.ObservedPayload? && e.payload.run.subject.change == e.change)
  }

  ghost predicate Unconsumed(history: seq<Record>, id: Id) {
    forall r :: r in history && r.kind == CompletionKind && r.payload.CompletionPayload? ==> r.payload.evidence != id
  }

  /** history[p] starts this attempt, and no record of the change, of whatever kind, follows. */
  ghost predicate StartStands(history: seq<Record>, p: int, c: ChangeId, a: Attempt) {
    && 0 <= p < |history| && history[p].change == c && history[p].kind == AttemptKind
    && history[p].payload == AttemptPayload(a)
    && forall q :: p < q < |history| ==> history[q].change != c
  }

  lemma UsableIsNewest(evidence: seq<Record>, s: ChangeState, c: ChangeId, task: TaskId, a: Attempt)
    ensures var usable := Proofs.Usable(evidence, RunSubject(s, c, task, a));
            && (usable.Some? <==> exists i :: NewestPass(evidence, i, c, task, a, s.revision))
            && (forall i :: NewestPass(evidence, i, c, task, a, s.revision) ==> usable == Some(evidence[i]))
  {
    var subject := RunSubject(s, c, task, a);
    forall e ensures Proofs.Run(e, subject) <==> RunOf(e, c, task, a, s.revision) {}
    var i := Proofs.NewestRunIsLast(evidence, subject);
    hide RunSubject, RunOf, Proofs.Run, Proofs.NewestRun;
    if Proofs.Usable(evidence, subject).Some? {
      assert RunOf(evidence[i], c, task, a, s.revision);
      assert NewestPass(evidence, i, c, task, a, s.revision);
    }
    forall j | NewestPass(evidence, j, c, task, a, s.revision)
      ensures Proofs.Usable(evidence, subject) == Some(evidence[j])
    {
      assert RunOf(evidence[j], c, task, a, s.revision) && Proofs.Run(evidence[j], subject);
      RunsAreObserved(evidence[j], subject);
    }
  }

  lemma RunsAreObserved(e: Record, subject: Subject)
    requires Proofs.Run(e, subject)
    ensures e.payload.ObservedPayload?
  {
  }

  /** The attempt of a change is recorded in one place. */
  lemma StartsOnce(root: Root, c: ChangeId, a: Attempt, p: nat, q: nat)
    requires Inv(root) && root.journal.None? && c in root.states && p < q < |root.history|
    requires root.history[p].change == c && root.history[q].change == c
    requires root.history[p].kind == AttemptKind && root.history[p].payload == AttemptPayload(a)
    ensures root.history[q].payload == AttemptPayload(a) ==> root.history[q].kind != AttemptKind
  {
    if root.history[q].kind == AttemptKind && root.history[q].payload == AttemptPayload(a) {
      RunIsSequenced(root, c);
      assert root.history[p].Valid() && root.history[q].Valid();
      TransitionAt(root.history, c, p);
      TransitionAt(root.history, c, q);
      PrefixCount(root.history, c, p, q);
    }
  }

  lemma SameStart(root: Root, c: ChangeId, a: Attempt, p: nat, q: nat)
    requires Inv(root) && root.journal.None? && c in root.states && p < |root.history| && q < |root.history|
    requires root.history[p].change == c && root.history[p].kind == AttemptKind
    requires root.history[q].change == c && root.history[q].kind == AttemptKind
    requires root.history[p].payload == root.history[q].payload == AttemptPayload(a)
    ensures p == q
  {
    hide Inv;
    if p != q { StartsOnce(root, c, a, if p < q then p else q, if p < q then q else p); }
  }

  lemma QuietIsStanding(root: Root, c: ChangeId, task: TaskId)
    requires Inv(root) && root.journal.None? && c in root.states && task in root.states[c].attempts
    ensures QuietSince(root.history, c, root.states[c].last) <==>
            exists p :: StartStands(root.history, p, c, root.states[c].attempts[task])
  {
    var s := root.states[c];
    var p := AttemptIsRecorded(root, c, task);
    FiledInv(root);
    if QuietSince(root.history, c, s.last) {
      var q :| 0 <= q < |root.history| && root.history[q].id == s.last
               && forall k :: q < k < |root.history| ==> root.history[k].change != c;
      SameId(root.history, p, q);
      assert StartStands(root.history, p, c, s.attempts[task]);
    }
    if q :| StartStands(root.history, q, c, s.attempts[task]) {
      SameStart(root, c, s.attempts[task], p, q);
    }
  }

  lemma FilingIsRead(evidence: seq<Record>)
    ensures Misfiling(evidence) <==> !WellFiled(evidence)
  {
    forall e ensures Proofs.Misfiled(e) <==>
                     !(e.payload == ClassPayload(true)
                       || (e.payload.ObservedPayload? && e.payload.run.subject.change == e.change)) {
    }
    if !WellFiled(evidence) {
      var e :| e in evidence && !(e.payload == ClassPayload(true)
                                  || (e.payload.ObservedPayload? && e.payload.run.subject.change == e.change));
      assert Proofs.Misfiled(e);
    }
  }

  lemma ConsumptionIsRead(history: seq<Record>, id: Id)
    ensures Consumed(history, id) <==> !Unconsumed(history, id)
  {
    if !Unconsumed(history, id) {
      var r :| r in history && r.kind == CompletionKind && r.payload.CompletionPayload? && r.payload.evidence == id;
      assert Proofs.ConsumedBy(r, id);
    }
  }

  /** What AttemptHolds asks of the ledger. */
  lemma AttemptStands(root: Root, c: ChangeId, task: TaskId, inScope: bool, world: World, diagnosed: bool)
    requires Inv(root) && root.journal.None? && c in root.states && Waiting(root, c).None?
    ensures var ts := Ledger.Transitions(root.history, c);
            AttemptHolds(root, c, task, inScope, world, diagnosed) <==>
            && !diagnosed && inScope && (exists i :: GrantedAt(ts, i, world)) && StartedLast(ts, task)
            && var a := ts[|ts| - 1].payload.attempt;
               && world.head == Some(a.head) && a.contract in world.authored.tasks && a.contract.id == task
               && exists p :: StartStands(root.history, p, c, a)
  {
    hide *;
    var s, ts := root.states[c], Ledger.Transitions(root.history, c);
    Level(root, c);
    LastStarts(s, ts, task);
    AuthorizedExactly(root, c, world);
    InRange(ts, world);
    HoldsParts(root, c, task, inScope, world, diagnosed);
    if task in s.attempts { QuietIsStanding(root, c, task); }
    if Authorizes(root, c, world) { AuthorizedRow(root, c, world, task); }
    if StartedLast(ts, task) { StartedIsAttempt(ts, task); }
  }

  lemma AuthorizedRow(root: Root, c: ChangeId, world: World, task: TaskId)
    requires Inv(root) && root.journal.None? && c in root.states && Authorizes(root, c, world)
    ensures forall row :: FindTask(world.authored.tasks, task) == Some(row) <==>
                            row in world.authored.tasks && row.id == task
  {
    hide Inv, Authorizes, Sound;
    AuthorizedPlan(root, c, world);
    RowIsFound(world.authored, task);
  }

  lemma HoldsParts(root: Root, c: ChangeId, task: TaskId, inScope: bool, world: World, diagnosed: bool)
    requires c in root.states
    ensures var s := root.states[c];
            AttemptHolds(root, c, task, inScope, world, diagnosed) <==>
            && !diagnosed && Authorizes(root, c, world) && inScope && task in s.attempts
            && FindTask(world.authored.tasks, task) == Some(s.attempts[task].contract)
            && world.head == Some(s.attempts[task].head) && QuietSince(root.history, c, s.last)
  {
  }

  lemma StartedIsAttempt(ts: seq<Record>, task: TaskId)
    requires StartedLast(ts, task)
    ensures ts != [] && ts[|ts| - 1].payload.AttemptPayload?
  {
  }

  lemma RowIsFound(plan: Plan, task: TaskId)
    requires Sound(plan)
    ensures forall row :: FindTask(plan.tasks, task) == Some(row) <==> row in plan.tasks && row.id == task
  {
    PlanRows(plan);
    FindAmong(plan.tasks, task);
  }

  lemma LastStarts(s: ChangeState, ts: seq<Record>, task: TaskId)
    requires ReadOff(s, ts)
    ensures task in s.attempts <==> StartedLast(ts, task)
    ensures task in s.attempts ==> s.attempts[task] == ts[|ts| - 1].payload.attempt
  {
    hide CompletedAt, ApprovalsOf, StageOf;
  }

  /** A completion is admitted, nothing waiting, exactly when the last record of the change, friction
      included, starts this very task at the HEAD that is there now, under an approval of what is
      there now, and the newest run for all that this attempt fixed has passed and no completion of
      any change has consumed it. */
  lemma CompletionAdmitted(root: Root, c: ChangeId, task: TaskId, expected: nat, actor: string, id: Id, world: World,
                           diagnosed: bool, inScope: bool)
    requires Inv(root) && root.journal.None? && c in root.states && Waiting(root, c).None?
    ensures var ts := Ledger.Transitions(root.history, c);
            MayComplete(root, c, task, expected, actor, id, world, diagnosed, inScope) <==>
            && actor != "" && !diagnosed && inScope && !Ledger.HasId(root.history, id)
            && expected == |ts| && WellFiled(root.evidence)
            && (exists i :: GrantedAt(ts, i, world)) && StartedLast(ts, task)
            && var a := ts[|ts| - 1].payload.attempt;
               && world.head == Some(a.head) && a.contract in world.authored.tasks && a.contract.id == task
               && (exists p :: StartStands(root.history, p, c, a))
               && (exists i :: NewestPass(root.evidence, i, c, task, a, expected)
                               && Unconsumed(root.history, root.evidence[i].id))
  {
    hide Inv, ReadOff, LegalRun, Fold, Consistent, GrantedAt, StartStands, AttemptHolds, Misfiling, WellFiled;
    hide NewestPass, Consumed, Unconsumed, Proofs.Usable, RunSubject, Ledger.HasId;
    var s, ts := root.states[c], Ledger.Transitions(root.history, c);
    Level(root, c);
    LastStarts(s, ts, task);
    AttemptStands(root, c, task, inScope, world, diagnosed);
    FilingIsRead(root.evidence);
    if StartedLast(ts, task) {
      var a := ts[|ts| - 1].payload.attempt;
      UsableIsNewest(root.evidence, s, c, task, a);
      WithinEvidence(root.evidence, c, task, a, s.revision);
      forall id ensures Consumed(root.history, id) <==> !Unconsumed(root.history, id) {
        ConsumptionIsRead(root.history, id);
      }
    }
  }

  lemma WithinEvidence(evidence: seq<Record>, c: ChangeId, task: TaskId, a: Attempt, revision: nat)
    ensures forall i :: NewestPass(evidence, i, c, task, a, revision) ==> 0 <= i < |evidence|
  {
  }

  /** The record it appends names that run. */
  lemma CompletionWrites(root: Root, c: ChangeId, task: TaskId, expected: nat, actor: string, id: Id, world: World,
                         diagnosed: bool, inScope: bool) returns (i: int)
    requires Inv(root) && root.journal.None? && c in root.states && Waiting(root, c).None?
    requires MayComplete(root, c, task, expected, actor, id, world, diagnosed, inScope)
    ensures var ts := Ledger.Transitions(root.history, c);
            && StartedLast(ts, task)
            && var a := ts[|ts| - 1].payload.attempt;
               && NewestPass(root.evidence, i, c, task, a, expected)
               && Completes(root, c, task, actor, id) ==
                  Record(id, History, CompletionKind, c, Some(expected), Some(expected + 1), actor,
                         CompletionPayload(task, a, root.evidence[i].id, expected, expected + 1))
  {
    hide Inv, ReadOff, LegalRun, Fold, Consistent, GrantedAt, StartStands, AttemptHolds, Misfiling, WellFiled;
    hide Consumed, Unconsumed, Proofs.Usable, RunSubject, Ledger.HasId;
    var s, ts := root.states[c], Ledger.Transitions(root.history, c);
    Level(root, c);
    LastStarts(s, ts, task);
    CompletionAdmitted(root, c, task, expected, actor, id, world, diagnosed, inScope);
    var a := ts[|ts| - 1].payload.attempt;
    UsableIsNewest(root.evidence, s, c, task, a);
    i :| NewestPass(root.evidence, i, c, task, a, expected);
  }

  // ---------------------------------------------------------------------------------
  // Approval and reopen
  // ---------------------------------------------------------------------------------

  /** An approval is admitted, nothing waiting, exactly when the gates pass and the latest record
      that is not task work left the change planning. */
  lemma ApprovalAdmitted(root: Root, c: ChangeId, approver: string, id: Id, approvalId: string, world: World,
                         diagnosed: bool, gates: bool)
    requires Inv(root) && root.journal.None? && c in root.states && Waiting(root, c).None?
    ensures MayApprove(root, c, approver, id, approvalId, world, diagnosed, gates) <==>
            && approver != "" && gates && !diagnosed && Sound(world.authored) && !Ledger.HasId(root.history, id)
            && StageOf(Ledger.Transitions(root.history, c)) == Planning
  {
    Level(root, c);
  }

  /** The record it appends, and what it grants: from then on the change is authorized in exactly
      the worlds with the plan, registry and policy that were approved. */
  lemma ApprovalGrants(root: Root, c: ChangeId, approver: string, id: Id, approvalId: string, world: World,
                       diagnosed: bool, gates: bool)
    requires Inv(root) && root.journal.None? && c in root.states && Waiting(root, c).None?
    requires MayApprove(root, c, approver, id, approvalId, world, diagnosed, gates)
    ensures var n := |Ledger.Transitions(root.history, c)|;
            ApprovalRecord(root.states[c], c, approver, id, approvalId, world) ==
            Record(id, History, ApprovedKind, c, Some(n), Some(n + 1), approver,
                   ApprovedPayload(Approval(approvalId, approver, world.authored, world.registry, world.policy,
                                            n, n + 1)))
    ensures var next := Advanced(root, ApprovalRecord(root.states[c], c, approver, id, approvalId, world));
            forall seen :: Authorizes(next, c, seen) <==>
                             && seen.authored == world.authored && seen.registry == world.registry
                             && seen.policy == world.policy
  {
    Level(root, c);
    hide Inv, ReadOff, LegalRun, Fold, Consistent, Sound;
    Ledger.TransitionsAppend(root.history, ApprovalRecord(root.states[c], c, approver, id, approvalId, world), c);
  }

  /** A reopen is admitted, nothing waiting, exactly on an approved change. */
  lemma ReopenAdmitted(root: Root, c: ChangeId, expected: nat, actor: string, reason: string, id: Id, world: World)
    requires Inv(root) && root.journal.None? && c in root.states && Waiting(root, c).None?
    ensures var ts := Ledger.Transitions(root.history, c);
            MayReopen(root, c, expected, actor, reason, id, world) <==>
            && actor != "" && reason != "" && world.head.Some? && !Ledger.HasId(root.history, id)
            && expected == |ts| && StageOf(ts) == Approved
  {
    Level(root, c);
    ApprovedHasApproval(root.states[c]);
    hide Inv, LegalRun, Fold, Consistent, CompletedAt, StartedLast, StageOf, ApprovalsOf, Ledger.HasId;
  }

  lemma ApprovedHasApproval(s: ChangeState)
    requires Consistent(s)
    ensures s.stage == Approved ==> s.approvals != []
  {
  }

  /** The record it appends revokes the latest approval, and the attempt at the end of the ledger
      if there is one. */
  lemma ReopenWrites(root: Root, c: ChangeId, expected: nat, actor: string, reason: string, id: Id, world: World)
    requires Inv(root) && root.journal.None? && c in root.states && Waiting(root, c).None?
    requires MayReopen(root, c, expected, actor, reason, id, world)
    ensures var ts := Ledger.Transitions(root.history, c);
            && ts != [] && ApprovalsOf(ts) != [] && world.head.Some?
            && (ts[|ts| - 1].kind == AttemptKind ==> ts[|ts| - 1].payload.AttemptPayload?)
    ensures var ts := Ledger.Transitions(root.history, c);
            var last := ts[|ts| - 1];
            Revocation(root, c, actor, reason, id, world) ==
            Record(id, History, ReopenedKind, c, Some(expected), Some(expected + 1), actor,
                   ReopenedPayload(ApprovalsOf(ts)[|ApprovalsOf(ts)| - 1].id,
                                   if last.kind == AttemptKind then Some(last.payload.attempt) else None,
                                   reason, world.head.value, expected, expected + 1))
  {
    hide *;
    var s, ts := root.states[c], Ledger.Transitions(root.history, c);
    Level(root, c);
    ActiveIsLast(s, ts);
    LevelBasics(s, ts);
    ReopenParts(root, c, expected, actor, reason, id, world);
  }

  /** What ReadOff says first. */
  lemma LevelBasics(s: ChangeState, ts: seq<Record>)
    requires ReadOff(s, ts)
    ensures ts != [] && s.revision == |ts| && s.stage == StageOf(ts) && s.approvals == ApprovalsOf(ts)
  {
    hide CompletedAt, StageOf, ApprovalsOf, StartedLast;
  }

  lemma ReopenParts(root: Root, c: ChangeId, expected: nat, actor: string, reason: string, id: Id, world: World)
    requires MayReopen(root, c, expected, actor, reason, id, world)
    ensures c in root.states && root.states[c].revision == expected && root.states[c].approvals != []
    ensures world.head.Some?
    ensures var s := root.states[c];
            Revocation(root, c, actor, reason, id, world) ==
            Record(id, History, ReopenedKind, c, Some(s.revision), Some(s.revision + 1), actor,
                   ReopenedPayload(s.approvals[|s.approvals| - 1].id, Active(s), reason, world.head.value, s.revision,
                                   s.revision + 1))
  {
    hide Active;
  }

  /** The active attempt is the one at the end of the ledger. */
  lemma ActiveIsLast(s: ChangeState, ts: seq<Record>)
    requires ReadOff(s, ts) && LegalRun(ts)
    ensures ts[|ts| - 1].kind == AttemptKind ==> ts[|ts| - 1].payload.AttemptPayload?
    ensures Active(s) == if ts[|ts| - 1].kind == AttemptKind then Some(ts[|ts| - 1].payload.attempt) else None
  {
    AttemptsAreLast(s, ts);
    hide LegalRun, CompletedAt, StageOf, ApprovalsOf;
  }

  // ---------------------------------------------------------------------------------
  // Sync and archive
  // ---------------------------------------------------------------------------------

  /** Every task of the plan is completed. */
  ghost predicate AllDone(ts: seq<Record>, plan: Plan) {
    forall row :: row in plan.tasks ==> Done(ts, row.id)
  }

  lemma FinishedIsRead(s: ChangeState, ts: seq<Record>)
    requires ReadOff(s, ts) && s.approvals != [] && Sound(s.Approved())
    ensures Finished(s) <==> AllDone(ts, s.Approved())
  {
    hide ReadOff, Sound, Dependencies, Done;
    PlanRows(s.Approved());
    forall t ensures (t in s.tasks && s.tasks[t] == Completed) <==> Done(ts, t) {
      ActivitiesAreRead(s, ts, t);
    }
  }

  /** A sync is admitted exactly when nothing waits and the ledger shows, under an approval of what
      is there now, every task of the plan completed. */
  lemma SyncAdmitted(root: Root, c: ChangeId, approver: string, world: World, diagnosed: bool, applicable: bool)
    requires Inv(root) && root.journal.None? && c in root.states
    ensures var ts := Ledger.Transitions(root.history, c);
            MaySync(root, c, approver, world, diagnosed, applicable) <==>
            && approver != "" && !diagnosed && applicable && Waiting(root, c).None?
            && (exists i :: GrantedAt(ts, i, world)) && AllDone(ts, world.authored)
  {
    var s, ts := root.states[c], Ledger.Transitions(root.history, c);
    hide Finished, AllDone, GrantedAt, Inv;
    if Authorizes(root, c, world) && Finished(s) { NothingWaits(root, c, world); }
    if Waiting(root, c).None? {
      Level(root, c);
      AuthorizedExactly(root, c, world);
      InRange(ts, world);
      LevelBasics(s, ts);
      if Authorizes(root, c, world) {
        AuthorizedPlan(root, c, world);
        FinishedIsRead(s, ts);
      }
    }
  }

  /** The record it commits: the approver, the plan, and for exactly the tasks of the plan the run
      that each was completed with. */
  lemma SyncWrites(root: Root, c: ChangeId, approver: string, id: Id, world: World, diagnosed: bool, applicable: bool)
    returns (named: map<TaskId, Id>)
    requires Inv(root) && root.journal.None? && c in root.states && id != ""
    requires MaySync(root, c, approver, world, diagnosed, applicable)
    ensures var ts := Ledger.Transitions(root.history, c);
            && SyncRecord(root.states[c], c, approver, id, world) ==
               Record(id, History, SyncedKind, c, Some(|ts|), Some(|ts| + 1), approver,
                      SyncedPayload(approver, world.authored, named, |ts|, |ts| + 1))
            && NamesTheWork(ts, world.authored, named) && NamedIsProven(root, c, named)
  {
    var s, ts := root.states[c], Ledger.Transitions(root.history, c);
    var r := SyncRecord(s, c, approver, id, world);
    NothingWaits(root, c, world);
    Level(root, c);
    SyncIsNext(root, c, approver, id, world);
    ExtendRun(ts, r);
    SyncNamesTheWork(ts + [r], |ts|);
    assert (ts + [r])[..|ts|] == ts;
    TimelineWithoutJournal(root, c);
    assert ts[..|ts|] == ts;
    named := r.payload.evidenceSet;
    NamesAreProven(root, c, |ts|, world.authored, named);
  }

  /** An archive is admitted exactly when the ledger ends, for this change, with a sync of the plan
      that is there now. */
  lemma ArchiveAdmitted(root: Root, c: ChangeId, actor: string, world: World, undrifted: bool, vacant: bool)
    requires Inv(root) && root.journal.None? && c in root.states
    ensures var ts := Ledger.Transitions(root.history, c);
            MayArchive(root, c, actor, world, undrifted, vacant) <==>
            && actor != "" && undrifted && vacant && ts != []
            && ts[|ts| - 1].kind == SyncedKind && ts[|ts| - 1].payload.SyncedPayload?
            && world.authored == ts[|ts| - 1].payload.approvalHash
  {
    var s, ts := root.states[c], Ledger.Transitions(root.history, c);
    EndsWithSync(root, c, world);
    hide Inv;
  }

  /** Reconciling, said by the ledger. */
  lemma EndsWithSync(root: Root, c: ChangeId, world: World)
    requires Inv(root) && root.journal.None? && c in root.states
    ensures var s, ts := root.states[c], Ledger.Transitions(root.history, c);
            && (s.stage == Reconciling <==> ts != [] && ts[|ts| - 1].kind == SyncedKind)
            && (s.stage == Reconciling ==>
                  && |ts| == s.revision && s.approvals != [] && ts[|ts| - 1].payload.SyncedPayload?
                  && ts[|ts| - 1].payload.approvalHash == s.Approved())
  {
    var s, ts := root.states[c], Ledger.Transitions(root.history, c);
    hide *;
    TimelineWithoutJournal(root, c);
    if s.stage == Reconciling { NothingWaits(root, c, world); }
    if Waiting(root, c).None? {
      Level(root, c);
      LevelBasics(s, ts);
      SyncedLast(ts);
      if s.stage == Reconciling { ReconcilingEndsWithSync(ts); }
    } else {
      WaitingIsLast(root, c);
    }
  }

  lemma SyncedLast(ts: seq<Record>)
    ensures ts != [] && ts[|ts| - 1].kind == SyncedKind ==> StageOf(ts) == Reconciling
  {
  }

  lemma WaitingIsLast(root: Root, c: ChangeId)
    requires Inv(root) && root.journal.None? && c in root.states && Waiting(root, c).Some?
    ensures var ts := Ledger.Transitions(root.history, c);
            ts != [] && ts[|ts| - 1] == Waiting(root, c).value && ts[|ts| - 1].kind != SyncedKind
  {
    hide Inv, Legal;
    TimelineWithoutJournal(root, c);
    WaitingIsLegal(root, c);
  }

  /** The record it commits names that sync and its approver. */
  lemma ArchiveWrites(root: Root, c: ChangeId, actor: string, id: Id, world: World, undrifted: bool, vacant: bool)
    requires Inv(root) && root.journal.None? && c in root.states
    requires MayArchive(root, c, actor, world, undrifted, vacant)
    ensures var ts := Ledger.Transitions(root.history, c);
            && ts != [] && ts[|ts| - 1].payload.SyncedPayload? && SyncedBy(root, c).payload.SyncedPayload?
            && Archival(root, c, actor, id) ==
               Record(id, History, ArchivedKind, c, Some(|ts|), Some(|ts| + 1), actor,
                      ArchivedPayload(ts[|ts| - 1].payload.approver, ts[|ts| - 1].id, |ts|, |ts| + 1))
  {
    var ts := Ledger.Transitions(root.history, c);
    EndsWithSync(root, c, world);
    var p := LatestOfKind(root, c, SyncedKind, |ts| - 1);
    hide Inv, LegalRun, Fold;
  }

  // ---------------------------------------------------------------------------------
  // Friction
  // ---------------------------------------------------------------------------------

  /** Under current approval only an open dependency stops a task: none ever failed or is blocked. */
  ghost predicate RowStopped(ts: seq<Record>, plan: Plan, task: TaskId) {
    && !StartedLast(ts, task) && !Done(ts, task)
    && exists row, d :: row in plan.tasks && row.id == task && d in row.dependsOn && !Done(ts, d)
  }

  lemma StoppedIsRead(s: ChangeState, ts: seq<Record>, plan: Plan, task: TaskId)
    requires ReadOff(s, ts) && Sound(plan) && task in Dependencies(plan)
    ensures StoppedTask(s, task, plan) <==> RowStopped(ts, plan, task)
  {
    hide ReadOff, Sound, Dependencies, Done, StartedLast;
    PlanRows(plan);
    RowIsFound(plan, task);
    forall t
      ensures Readiness.ActivityOf(s.tasks, t) == Completed <==> Done(ts, t)
      ensures Readiness.ActivityOf(s.tasks, t) == Pending <==> !StartedLast(ts, t) && !Done(ts, t)
      ensures Readiness.ActivityOf(s.tasks, t) == InProgress <==> StartedLast(ts, t)
    {
      ActivitiesAreRead(s, ts, t);
    }
  }

  /** Friction is admitted, nothing waiting, exactly for a task of the authored plan that no current
      approval covers or whose dependencies are open, and its record names the task and the revision
      it was seen at. */
  lemma FrictionAdmitted(root: Root, c: ChangeId, task: TaskId, expected: nat, actor: string, id: Id, world: World,
                         diagnosed: bool)
    requires Inv(root) && root.journal.None? && c in root.states && Waiting(root, c).None?
    ensures var ts := Ledger.Transitions(root.history, c);
            MayObserve(root, c, task, expected, actor, id, world, diagnosed) <==>
            && actor != "" && !diagnosed && Sound(world.authored) && !Ledger.HasId(root.history, id)
            && expected == |ts| && TaskOf(world.authored, task)
            && (forall t :: StartedLast(ts, t) || Done(ts, t) ==> TaskOf(world.authored, t))
            && ((exists i :: GrantedAt(ts, i, world)) ==> RowStopped(ts, world.authored, task))
    ensures FrictionRecord(root.states[c], c, task, actor, id) ==
            Record(id, History, FrictionKind, c, None, None, actor,
                   FrictionPayload(task, |Ledger.Transitions(root.history, c)|))
  {
    var s, ts := root.states[c], Ledger.Transitions(root.history, c);
    Level(root, c);
    LevelBasics(s, ts);
    AuthorizedExactly(root, c, world);
    InRange(ts, world);
    hide Inv, ReadOff, LegalRun, Fold, Consistent, Authorizes, Sound, GrantedAt, StoppedTask, RowStopped, Ledger.HasId;
    hide Dependencies, TaskOf, Ids, Rows, StartedLast, Done;
    if Sound(world.authored) {
      TasksOfPlan(world.authored);
      KnownTasks(s, ts, world.authored);
      if task in Dependencies(world.authored) { StoppedIsRead(s, ts, world.authored, task); }
    }
  }

  lemma KnownTasks(s: ChangeState, ts: seq<Record>, plan: Plan)
    requires ReadOff(s, ts) && Sound(plan)
    ensures (forall t :: t in s.tasks ==> t in Ids(Rows(plan))) <==>
            forall t :: StartedLast(ts, t) || Done(ts, t) ==> TaskOf(plan, t)
  {
    hide ReadOff, Done, StartedLast;
    TasksOfPlan(plan);
    DependencyMapAt(Rows(plan));
    forall t ensures t in s.tasks <==> StartedLast(ts, t) || Done(ts, t) {
      OnRecord(s, ts, t);
    }
  }

  lemma OnRecord(s: ChangeState, ts: seq<Record>, t: TaskId)
    requires ReadOff(s, ts)
    ensures t in s.tasks <==> StartedLast(ts, t) || Done(ts, t)
  {
    hide CompletedAt, StageOf, ApprovalsOf;
  }
}
