/** When each writer of a change may run, the record it writes and the files it leaves
    (attempt.go, complete.go, approve.go, reopen.go, sync.go, archive.go). */
module Operations {
  import opened Records
  import opened TaskGraphs
  import opened Lifecycle
  import opened Approvals
  import opened Roots
  import opened Authority
  import Ledger
  import Proofs
  import Readiness

  datatype Outcome = Done | Refused(code: string) | Crashed

  // ---------------------------------------------------------------------------------
  // What an operation may leave behind
  // ---------------------------------------------------------------------------------

  /** The record appended and the state caught up with it. */
  function Advanced(root: Root, r: Record): Root
    requires r.change in root.states
  {
    root.(history := root.history + [r], states := root.states[r.change := Apply(root.states[r.change], r)])
  }

  /** The waiting record persisted. */
  function CaughtUp(root: Root, c: ChangeId): Root
    requires c in root.states && Waiting(root, c).Some?
  {
    root.(states := root.states[c := Apply(root.states[c], Waiting(root, c).value)])
  }

  /** What an append-first operation that meant to write `r` leaves: the record an interrupted
      run already appended is persisted, never appended a second time. */
  function Landed(root: Root, r: Record): Root
    requires r.change in root.states
  {
    if Waiting(root, r.change).Some? then CaughtUp(root, r.change) else Advanced(root, r)
  }

  /** A crash leaves an append-first operation undone, or its record waiting. */
  predicate HalfDone(root: Root, before: Root, r: Record) {
    root == before || root == before.(history := before.history + [r])
  }

  /** The ledgers are append-only and no change loses its state. */
  ghost predicate Grows(before: Root, after: Root) {
    && before.history <= after.history && before.evidence <= after.evidence
    && before.states.Keys == after.states.Keys
  }

  /** What a pending transaction settles to. */
  function Recovered(root: Root): Root {
    match root.journal
    case None => root
    case Some(j) =>
      root.(states := root.states[j.record.change := j.after],
            history := if Ledger.HasId(root.history, j.record.id) then root.history else root.history + [j.record],
            journal := None)
  }

  /** The same request as an interrupted run's record: its identity is not compared, nor is the
      identity of an approval inside it. */
  predicate SameRequest(w: Record, r: Record) {
    if w.payload.ApprovedPayload? && r.payload.ApprovedPayload?
    then w.(id := r.id, payload := ApprovedPayload(w.payload.approval.(id := r.payload.approval.id))) == r
    else w.(id := r.id) == r
  }

  /** Nothing waits, or exactly this request does. */
  predicate Resumable(root: Root, r: Record)
    requires r.change in root.states
  {
    match Waiting(root, r.change)
    case Some(w) => SameRequest(w, r)
    case None => !Ledger.HasId(root.history, r.id)
  }

  // ---------------------------------------------------------------------------------
  // The records
  // ---------------------------------------------------------------------------------

  function FindTask(tasks: seq<Task>, id: TaskId): Option<Task> {
    if tasks == [] then None
    else if tasks[0].id == id then Some(tasks[0])
    else FindTask(tasks[1..], id)
  }

  function StartRecord(s: ChangeState, c: ChangeId, task: TaskId, actor: string, id: Id, world: World): Record {
    var attempt := Attempt(
      task, world.head.GetOr(""), s.revision, s.revision + 1,
      FindTask(world.authored.tasks, task).GetOr(Task("", [], "")), world.authored, s.GuardOf(task), actor);
    Record(id, History, AttemptKind, c, Some(s.revision), Some(s.revision + 1), actor, AttemptPayload(attempt))
  }

  function RunSubject(s: ChangeState, c: ChangeId, task: TaskId, attempt: Attempt): Subject {
    Subject(c, task, attempt, attempt.head, attempt.contract, attempt.contract.contract, attempt.approved, s.revision)
  }

  function CompletionRecord(s: ChangeState, c: ChangeId, task: TaskId, actor: string, id: Id, attempt: Attempt,
                            evidence: Id): Record {
    Record(id, History, CompletionKind, c, Some(s.revision), Some(s.revision + 1), actor,
           CompletionPayload(task, attempt, evidence, s.revision, s.revision + 1))
  }

  function ApprovalRecord(s: ChangeState, c: ChangeId, approver: string, id: Id, approvalId: string,
                          world: World): Record {
    Record(id, History, ApprovedKind, c, Some(s.revision), Some(s.revision + 1), approver,
           ApprovedPayload(Approval(approvalId, approver, world.authored, world.registry, world.policy,
                                    s.revision, s.revision + 1)))
  }

  function ReopenRecord(s: ChangeState, c: ChangeId, actor: string, reason: string, id: Id, approvalId: string,
                        revoked: Option<Attempt>, head: string)
    : Record
  {
    Record(id, History, ReopenedKind, c, Some(s.revision), Some(s.revision + 1), actor,
           ReopenedPayload(approvalId, revoked, reason, head, s.revision, s.revision + 1))
  }

  function SyncRecord(s: ChangeState, c: ChangeId, approver: string, id: Id, world: World): Record {
    Record(id, History, SyncedKind, c, Some(s.revision), Some(s.revision + 1), approver,
           SyncedPayload(approver, world.authored, s.EvidenceSet(), s.revision, s.revision + 1))
  }

  function ArchiveRecord(s: ChangeState, c: ChangeId, actor: string, id: Id, approver: string, sync: Id): Record {
    Record(id, History, ArchivedKind, c, Some(s.revision), Some(s.revision + 1), actor,
           ArchivedPayload(approver, sync, s.revision, s.revision + 1))
  }

  function FrictionRecord(s: ChangeState, c: ChangeId, task: TaskId, actor: string, id: Id): Record {
    Record(id, History, FrictionKind, c, None, None, actor, FrictionPayload(task, s.revision))
  }

  /** The attempt a reopen revokes. */
  ghost function Active(s: ChangeState): (active: Option<Attempt>)
    ensures active.None? <==> s.attempts == map[]
    ensures active.Some? ==> active.value in s.attempts.Values
  {
    if s.attempts == map[] then None
    else
      var t :| t in s.attempts;
      Some(s.attempts[t])
  }

  // ---------------------------------------------------------------------------------
  // When an operation may run
  // ---------------------------------------------------------------------------------

  /** The task is in the frontier of the authored plan. */
  ghost predicate ReadyTask(s: ChangeState, task: TaskId, plan: Plan) {
    && task in Dependencies(plan) && Readiness.ActivityOf(s.tasks, task) == Pending
    && Readiness.DependenciesDone(s.tasks, Dependencies(plan)[task])
  }

  ghost predicate MayStart(root: Root, c: ChangeId, task: TaskId, expected: nat, actor: string, id: Id, world: World,
                           diagnosed: bool) {
    && actor != "" && c in root.states
    && var s := root.states[c];
       && s.revision == expected && s.attempts == map[]
       && !diagnosed && Authorizes(root, c, world) && ReadyTask(s, task, world.authored)
       && world.head.Some?
       && Resumable(root, StartRecord(s, c, task, actor, id, world))
  }

  /** No record of the change follows the one with the given identity. */
  ghost predicate QuietSince(history: seq<Record>, c: ChangeId, last: Id) {
    exists p :: 0 <= p < |history| && history[p].id == last && forall q :: p < q < |history| ==> history[q].change != c
  }

  ghost predicate Misfiling(evidence: seq<Record>) {
    exists e :: e in evidence && Proofs.Misfiled(e)
  }

  ghost predicate Consumed(history: seq<Record>, evidence: Id) {
    exists r :: r in history && Proofs.ConsumedBy(r, evidence)
  }

  /** A completion interrupted before its state was persisted is simply finished. */
  predicate CompletionWaits(root: Root, c: ChangeId, task: TaskId)
    requires c in root.states
  {
    var w := Waiting(root, c);
    w.Some? && w.value.kind == CompletionKind && w.value.payload.CompletionPayload? && w.value.payload.task == task
  }

  /** The attempt in progress still stands: current approval, the same contract and HEAD, and
      nothing of the change recorded since. */
  ghost predicate AttemptHolds(root: Root, c: ChangeId, task: TaskId, inScope: bool, world: World, diagnosed: bool)
    requires c in root.states
  {
    var s := root.states[c];
    && !diagnosed && Authorizes(root, c, world) && inScope
    && task in s.attempts
    && FindTask(world.authored.tasks, task) == Some(s.attempts[task].contract)
    && world.head == Some(s.attempts[task].head)
    && QuietSince(root.history, c, s.last)
  }

  ghost predicate MayCompleteFresh(root: Root, c: ChangeId, task: TaskId, id: Id, world: World, diagnosed: bool,
                                   inScope: bool)
    requires c in root.states
  {
    var s := root.states[c];
    && Waiting(root, c).None? && !Ledger.HasId(root.history, id)
    && AttemptHolds(root, c, task, inScope, world, diagnosed)
    && !Misfiling(root.evidence)
    && var proof := Proofs.Usable(root.evidence, RunSubject(s, c, task, s.attempts[task]));
       proof.Some? && !Consumed(root.history, proof.value.id)
  }

  ghost predicate MayComplete(
    root: Root, c: ChangeId, task: TaskId, expected: nat, actor: string, id: Id, world: World, diagnosed: bool,
    inScope: bool)
  {
    && actor != "" && c in root.states && root.states[c].revision == expected
    && (CompletionWaits(root, c, task) || MayCompleteFresh(root, c, task, id, world, diagnosed, inScope))
  }

  const NoAttempt := Attempt("", "", 0, 0, Task("", [], ""), Plan([], ""), Guard(Planning, [], map[], map[], map[]), "")

  /** The record a completion writes: the waiting one, or one that names the newest passing run. */
  function Completes(root: Root, c: ChangeId, task: TaskId, actor: string, id: Id): Record
    requires c in root.states
  {
    var s := root.states[c];
    match Waiting(root, c)
    case Some(w) => w
    case None =>
      var attempt := if task in s.attempts then s.attempts[task] else NoAttempt;
      match Proofs.Usable(root.evidence, RunSubject(s, c, task, attempt))
      case None => CompletionRecord(s, c, task, actor, id, attempt, "")
      case Some(proof) => CompletionRecord(s, c, task, actor, id, attempt, proof.id)
  }

  ghost predicate MayApprove(root: Root, c: ChangeId, approver: string, id: Id, approvalId: string, world: World,
                             diagnosed: bool, gates: bool) {
    && approver != "" && c in root.states
    && var s := root.states[c];
       && s.stage == Planning && gates && !diagnosed && Sound(world.authored)
       && Resumable(root, ApprovalRecord(s, c, approver, id, approvalId, world))
  }

  ghost predicate MayReopen(root: Root, c: ChangeId, expected: nat, actor: string, reason: string, id: Id,
                            world: World) {
    && actor != "" && reason != "" && c in root.states
    && var s := root.states[c];
       && s.revision == expected && s.stage == Approved && s.approvals != [] && world.head.Some?
       && Resumable(root, Revocation(root, c, actor, reason, id, world))
  }

  /** The reopen record a change's approved state calls for. */
  ghost function Revocation(root: Root, c: ChangeId, actor: string, reason: string, id: Id, world: World): Record
    requires c in root.states && root.states[c].approvals != []
  {
    var s := root.states[c];
    ReopenRecord(s, c, actor, reason, id, s.approvals[|s.approvals| - 1].id, Active(s), world.head.GetOr(""))
  }

  /** Its own activity or its dependencies stop the task. */
  ghost predicate StoppedTask(s: ChangeState, task: TaskId, plan: Plan)
    requires task in Dependencies(plan)
  {
    var activity := Readiness.ActivityOf(s.tasks, task);
    || activity == Failed || activity == Blocked
    || (activity == Pending && !Readiness.DependenciesDone(s.tasks, Dependencies(plan)[task]))
  }

  ghost predicate MayObserve(root: Root, c: ChangeId, task: TaskId, expected: nat, actor: string, id: Id, world: World,
                             diagnosed: bool) {
    && actor != "" && c in root.states
    && var s := root.states[c];
       && s.revision == expected && !diagnosed && Sound(world.authored)
       && (forall t :: t in s.tasks ==> t in Ids(Rows(world.authored)))
       && task in Dependencies(world.authored)
       && (Authorizes(root, c, world) ==> StoppedTask(s, task, world.authored))
       && !Ledger.HasId(root.history, id)
  }

  ghost predicate MaySync(root: Root, c: ChangeId, approver: string, world: World, diagnosed: bool, applicable: bool) {
    && approver != "" && c in root.states
    && root.states[c].stage == Approved
    && !diagnosed && Authorizes(root, c, world) && Finished(root.states[c]) && applicable
  }

  predicate MayRepeatSync(root: Root, c: ChangeId, approver: string, undrifted: bool) {
    approver != "" && c in root.states && root.states[c].stage == Reconciling && undrifted
  }

  /** A completed task's evidence is still in the ledger. */
  predicate Bound(root: Root, s: ChangeState, t: TaskId) {
    t in s.completions && Known(root.evidence, s.completions[t].evidence)
  }

  /** The sync a reconciling change ends with. */
  function SyncedBy(root: Root, c: ChangeId): Record {
    var found := FindLast(root.history, c, SyncedKind, None);
    if found.Some? then found.value else CompletionRecord(Uncreated, c, "", "", "", NoAttempt, "")
  }

  /** The archive record names the sync it inherits its authorization from. */
  function Archival(root: Root, c: ChangeId, actor: string, id: Id): Record
    requires c in root.states && SyncedBy(root, c).payload.SyncedPayload?
  {
    ArchiveRecord(root.states[c], c, actor, id, SyncedBy(root, c).payload.approver, SyncedBy(root, c).id)
  }

  ghost predicate MayArchive(root: Root, c: ChangeId, actor: string, world: World, synced: bool, vacant: bool) {
    && actor != "" && c in root.states
    && var s := root.states[c];
       && s.stage == Reconciling && s.approvals != [] && world.authored == s.Approved() && synced && vacant
  }

  // ---------------------------------------------------------------------------------
  // Facts the methods use
  // ---------------------------------------------------------------------------------

  lemma NamedChange(root: Root, c: ChangeId)
    requires Inv(root) && c in root.states && root.journal.None?
    ensures c != ""
  {
    var ts := Ledger.Transitions(root.history, c);
    RunIsSequenced(root, c);
    Ledger.LastRevisionIsLastTransition(root.history, c);
    assert ts[0] in root.history;
    assert ts[0].Valid();
  }

  /** A record for the current revision fits exactly when nothing waits and its identity is new. */
  lemma FitsExactly(root: Root, r: Record)
    requires Inv(root) && root.journal.None? && r.change in root.states
    requires r.expected == Some(root.states[r.change].revision)
    ensures Ledger.Fits(root.history, r) <==> Waiting(root, r.change).None? && !Ledger.HasId(root.history, r.id)
  {
    Tail(root, r.change);
    WaitingIsLegal(root, r.change);
  }

  lemma FrontierMeans(plan: Plan, diagnosed: bool, s: ChangeState, current: bool, present: bool, task: TaskId,
                      model: Readiness.Model, graph: TaskGraph)
    requires if !diagnosed && Sound(plan) && (forall t :: t in s.tasks ==> t in Ids(Rows(plan)))
             then
               && Readiness.Projects(model, graph, s.tasks,
                                     Readiness.ApprovalBlocker(s.stage, Readiness.ApprovalFact(current, present)))
               && graph.authored == Ids(Rows(plan)) && graph.dependencies == Dependencies(plan)
             else model == Readiness.InvalidModel
    ensures model.InFrontier(task) <==>
              && !diagnosed && Sound(plan) && (forall t :: t in s.tasks ==> t in Ids(Rows(plan)))
              && s.stage == Approved && current && ReadyTask(s, task, plan)
  {
    if !diagnosed && Sound(plan) && (forall t :: t in s.tasks ==> t in Ids(Rows(plan))) {
      Readiness.FrontierIs(model, graph, s.tasks,
                           Readiness.ApprovalBlocker(s.stage, Readiness.ApprovalFact(current, present)));
      DependencyMapAt(Rows(plan));
    }
  }

  /** An authorized change's authored plan is the sound plan its tasks belong to. */
  lemma AuthorizedPlan(root: Root, c: ChangeId, world: World)
    requires Inv(root) && c in root.states && !Journaled(root, c) && Authorizes(root, c, world)
    ensures var s := root.states[c];
            && Sound(world.authored) && world.authored == s.Approved()
            && forall t :: t in s.tasks ==> t in Ids(Rows(world.authored))
  {
    StatesAreConsistent(root, c);
    DependencyMapAt(Rows(world.authored));
  }

  lemma FoundTask(tasks: seq<Task>, id: TaskId)
    ensures FindTask(tasks, id).Some? <==> exists k :: 0 <= k < |tasks| && tasks[k].id == id
  {
  }

  lemma CanonicalTask(plan: Plan, id: TaskId)
    requires Sound(plan)
    ensures FindTask(plan.tasks, id).Some? <==> id in Dependencies(plan)
  {
    FoundTask(plan.tasks, id);
    DependencyMapAt(Rows(plan));
    if k :| 0 <= k < |plan.tasks| && plan.tasks[k].id == id {
      assert Ids(Rows(plan))[k] == id;
    }
  }

  /** The record a start appends is legal, valid and consumes nothing. */
  lemma StartIsNext(root: Root, c: ChangeId, task: TaskId, actor: string, id: Id, world: World)
    requires Inv(root) && root.journal.None? && c in root.states && actor != "" && id != ""
    requires Authorizes(root, c, world) && ReadyTask(root.states[c], task, world.authored)
    requires root.states[c].attempts == map[]
    ensures Next(root, StartRecord(root.states[c], c, task, actor, id, world))
  {
    NamedChange(root, c);
    StatesAreConsistent(root, c);
  }

  lemma ApprovalIsNext(root: Root, c: ChangeId, approver: string, id: Id, approvalId: string, world: World)
    requires Inv(root) && root.journal.None? && c in root.states && approver != "" && id != ""
    requires root.states[c].stage == Planning && Sound(world.authored)
    ensures Next(root, ApprovalRecord(root.states[c], c, approver, id, approvalId, world))
  {
    NamedChange(root, c);
    StatesAreConsistent(root, c);
  }

  lemma ReopenIsNext(root: Root, c: ChangeId, actor: string, reason: string, id: Id, revoked: Option<Attempt>,
                     head: string)
    requires Inv(root) && root.journal.None? && c in root.states && actor != "" && id != ""
    requires root.states[c].stage == Approved && revoked == Active(root.states[c])
    ensures root.states[c].approvals != []
    ensures var s := root.states[c];
            Next(root, ReopenRecord(s, c, actor, reason, id, s.approvals[|s.approvals| - 1].id, revoked, head))
  {
    NamedChange(root, c);
    StatesAreConsistent(root, c);
  }

  lemma SyncIsNext(root: Root, c: ChangeId, approver: string, id: Id, world: World)
    requires Inv(root) && root.journal.None? && c in root.states && approver != "" && id != ""
    requires Authorizes(root, c, world) && Finished(root.states[c])
    ensures Next(root, SyncRecord(root.states[c], c, approver, id, world))
    ensures |Timeline(root, c)| == root.states[c].revision
  {
    NamedChange(root, c);
    StatesAreConsistent(root, c);
    NothingWaits(root, c, world);
    WaitingIsLegal(root, c);
  }

  lemma ArchiveIsNext(root: Root, c: ChangeId, actor: string, id: Id, approver: string, sync: Id, world: World)
    requires Inv(root) && root.journal.None? && c in root.states && actor != "" && id != ""
    requires root.states[c].stage == Reconciling
    ensures Next(root, ArchiveRecord(root.states[c], c, actor, id, approver, sync))
    ensures |Timeline(root, c)| == root.states[c].revision
  {
    NamedChange(root, c);
    StatesAreConsistent(root, c);
    NothingWaits(root, c, world);
    WaitingIsLegal(root, c);
  }

  lemma CompletionIsNext(root: Root, c: ChangeId, task: TaskId, actor: string, id: Id, proof: Record)
    requires Inv(root) && root.journal.None? && c in root.states && actor != "" && id != ""
    requires root.states[c].stage == Approved && task in root.states[c].attempts
    requires Proofs.Usable(root.evidence, RunSubject(root.states[c], c, task, root.states[c].attempts[task])) ==
               Some(proof)
    requires !Consumed(root.history, proof.id)
    ensures Next(root, CompletionRecord(root.states[c], c, task, actor, id, root.states[c].attempts[task], proof.id))
  {
    NamedChange(root, c);
    StatesAreConsistent(root, c);
    var s := root.states[c];
    var subject := RunSubject(s, c, task, s.attempts[task]);
    var r := CompletionRecord(s, c, task, actor, id, s.attempts[task], proof.id);
    var i := Proofs.NewestRunIsLast(root.evidence, subject);
    assert root.evidence[i] == proof && proof.Valid() && proof.family == Evidence;
    assert ProvenBy(r, proof) && RanFor(r, proof);
    forall k | 0 <= k < |root.history| && root.history[k].kind == CompletionKind
      ensures Consumes(root.history[k]) != Consumes(r)
    {
      assert root.history[k].Valid();
      assert root.history[k] in root.history && !Proofs.ConsumedBy(root.history[k], proof.id);
    }
  }

  /** A waiting completion is proven, so its recovery never refuses. */
  lemma WaitingCompletionIsProven(root: Root, c: ChangeId)
    requires Inv(root) && root.journal.None? && c in root.states
    requires Waiting(root, c).Some? && Waiting(root, c).value.kind == CompletionKind
    ensures Waiting(root, c).value.payload.CompletionPayload?
    ensures exists e :: e in root.evidence && ProvenBy(Waiting(root, c).value, e) && RanFor(Waiting(root, c).value, e)
    ensures Waiting(root, c).value.payload.task !in root.states[c].completions
  {
    WaitingIsLegal(root, c);
    StatesAreConsistent(root, c);
    var w := Waiting(root, c).value;
    assert Proven(w, root.evidence);
    assert w.payload.task in root.states[c].attempts;
  }

  /** The record of the attempt in progress, as validateAttemptHistory looks for it. */
  predicate RecordsAttempt(r: Record, c: ChangeId, attempt: Attempt, last: Id) {
    && r.id == last && r.kind == AttemptKind && r.change == c && r.actor == attempt.actor
    && r.expected == Some(attempt.before) && r.resulting == Some(attempt.after)
    && r.payload == AttemptPayload(attempt)
  }

  lemma LastPersisted(root: Root, c: ChangeId) returns (p: nat)
    requires Inv(root) && root.journal.None? && c in root.states
    ensures var s, ts := root.states[c], Ledger.Transitions(root.history, c);
            && 0 < s.revision <= |ts| && LegalRun(ts[..s.revision]) && s == Fold(ts[..s.revision])
            && p < |root.history| && root.history[p] == ts[..s.revision][s.revision - 1] && root.history[p].change == c
            && root.history[p].id == s.last
  {
    var s, ts := root.states[c], Ledger.Transitions(root.history, c);
    RunIsSequenced(root, c);
    TimelineOther(root, c);
    assert Tracked(root, c);
    LegalPrefix(ts, s.revision);
    p := TransitionComesFrom(root.history, c, s.revision - 1);
  }

  lemma AttemptIsRecorded(root: Root, c: ChangeId, task: TaskId) returns (p: nat)
    requires Inv(root) && root.journal.None? && c in root.states && task in root.states[c].attempts
    ensures p < |root.history| && RecordsAttempt(root.history[p], c, root.states[c].attempts[task], root.states[c].last)
  {
    p := LastPersisted(root, c);
    AttemptIsLast(Ledger.Transitions(root.history, c)[..root.states[c].revision], task);
    assert root.history[p].Valid();
  }

  lemma RowMeans(plan: Plan, diagnosed: bool, s: ChangeState, current: bool, present: bool, task: TaskId,
                 model: Readiness.Model, graph: TaskGraph)
    requires if !diagnosed && Sound(plan) && (forall t :: t in s.tasks ==> t in Ids(Rows(plan)))
             then
               && Readiness.Projects(model, graph, s.tasks,
                                     Readiness.ApprovalBlocker(s.stage, Readiness.ApprovalFact(current, present)))
               && graph.authored == Ids(Rows(plan)) && graph.dependencies == Dependencies(plan)
             else model == Readiness.InvalidModel
    ensures var row := model.Task(task);
            (row.Some? && row.value.state !in {Readiness.Ready, Readiness.Active, Readiness.Terminal}
             && row.value.blocker.Some?) <==>
              && !diagnosed && Sound(plan) && (forall t :: t in s.tasks ==> t in Ids(Rows(plan)))
              && task in Dependencies(plan)
              && ((s.stage == Approved && current) ==> StoppedTask(s, task, plan))
  {
    if !diagnosed && Sound(plan) && (forall t :: t in s.tasks ==> t in Ids(Rows(plan))) {
      hide DependencyMap, Readiness.Projects, Readiness.Find, Readiness.RowFor, Readiness.ApprovalBlocker, StoppedTask;
      var global := Readiness.ApprovalBlocker(s.stage, Readiness.ApprovalFact(current, present));
      Readiness.TaskRowIs(model, graph, s.tasks, global, task);
      DependencyMapAt(Rows(plan));
      if task in graph.authored { RowStops(plan, s, current, present, task, graph); }
    }
  }

  lemma RowStops(plan: Plan, s: ChangeState, current: bool, present: bool, task: TaskId, graph: TaskGraph)
    requires task in graph.dependencies && task in graph.wave && graph.dependencies == Dependencies(plan)
    ensures var row := Readiness.RowFor(
              graph, s.tasks, Readiness.ApprovalBlocker(s.stage, Readiness.ApprovalFact(current, present)), task);
            (row.state !in {Readiness.Ready, Readiness.Active, Readiness.Terminal} && row.blocker.Some?) <==>
            ((s.stage == Approved && current) ==> StoppedTask(s, task, plan))
  {
    hide Dependencies;
  }

  /** In a reachable root the facts a sync weighs are exactly: is every task completed? */
  lemma FactsMean(root: Root, c: ChangeId, world: World, incomplete: seq<TaskId>, stale: seq<TaskId>)
    requires Inv(root) && root.journal.None? && c in root.states
    requires var s, order := root.states[c], Ids(Rows(world.authored));
             && (forall t :: t in incomplete <==> t in order && Readiness.ActivityOf(s.tasks, t) != Completed)
             && (forall t :: t in stale <==>
                   t in order && Readiness.ActivityOf(s.tasks, t) == Completed && !Bound(root, s, t))
    requires Sound(world.authored)
    ensures stale == []
    ensures Authorizes(root, c, world) ==> (incomplete == [] <==> Finished(root.states[c]))
  {
    assert stale != [] ==> stale[0] in stale;
    assert incomplete != [] ==> incomplete[0] in incomplete;
    StatesAreConsistent(root, c);
    BoundEvidenceIsKnown(root, c);
    DependencyMapAt(Rows(world.authored));
  }

  lemma SyncIsLatest(root: Root, c: ChangeId, world: World)
    requires Inv(root) && root.journal.None? && c in root.states && root.states[c].stage == Reconciling
    ensures var found := FindLast(root.history, c, SyncedKind, None);
            var s := root.states[c];
            && found.Some? && SyncedBy(root, c) == found.value && found.value.payload.SyncedPayload?
            && s.approvals != []
            && found.value.payload.approvalHash == s.Approved() && found.value.payload.evidenceSet == s.EvidenceSet()
  {
    var s, ts := root.states[c], Ledger.Transitions(root.history, c);
    NothingWaits(root, c, world);
    WaitingIsLegal(root, c);
    var p := LastPersisted(root, c);
    assert ts[..s.revision] == ts;
    ReconcilingEndsWithSync(ts);
    p := LatestOfKind(root, c, SyncedKind, s.revision - 1);
  }

  /** A reconciling change has no incomplete task. */
  lemma NothingIncomplete(s: ChangeState)
    requires Consistent(s) && s.stage == Reconciling
    ensures forall t :: t in s.tasks ==> s.tasks[t] == Completed
  {
  }

  // ---------------------------------------------------------------------------------
  // Friction stops a completion
  // ---------------------------------------------------------------------------------

  /** Once a record of the change follows the one named `last`, one always will. */
  lemma NeverQuietAgain(history: seq<Record>, more: seq<Record>, c: ChangeId, last: Id, p: nat, q: nat)
    requires Ledger.NoRepeats(history + more)
    requires p < q < |history| && history[p].id == last && history[q].change == c
    ensures !QuietSince(history + more, c, last)
  {
    var all := history + more;
    assert all[p] == history[p] && all[q] == history[q];
    forall k | 0 <= k < |all| && all[k].id == last ensures k == p {
      SameId(all, k, p);
    }
  }

  lemma SameId(rs: seq<Record>, i: nat, j: nat)
    requires Ledger.NoRepeats(rs) && i < |rs| && j < |rs| && rs[i].id == rs[j].id
    ensures i == j
  {
  }

  /** The record that friction appends during an attempt makes every completion of the change
      refuse, whoever asks for it and whatever has been proven; and whatever the ledger becomes,
      the attempt's record never is the tail again. */
  lemma FrictionStopsCompletion(root: Root, c: ChangeId, task: TaskId, expected: nat, actor: string, id: Id,
                                world: World, diagnosed: bool)
    requires Inv(root) && root.journal.None? && MayObserve(root, c, task, expected, actor, id, world, diagnosed)
    requires id != "" && Waiting(root, c).None?
    ensures var s := root.states[c];
            var next := root.(history := root.history + [FrictionRecord(s, c, task, actor, id)]);
            && Inv(next) && !QuietSince(next.history, c, s.last)
            && (forall more :: Ledger.NoRepeats(next.history + more) ==> !QuietSince(next.history + more, c, s.last))
            && (forall u, e, who, again, now, faulty, inScope ::
                  !MayComplete(next, c, u, e, who, again, now, faulty, inScope))
  {
    var s := root.states[c];
    var r := FrictionRecord(s, c, task, actor, id);
    var next := root.(history := root.history + [r]);
    var p := LastPersisted(root, c);
    NamedChange(root, c);
    assert Ledger.Fits(root.history, r);
    ObservationKeeps(root, r);
    hide Ledger.Fits, MayObserve, Inv, AttemptHolds;
    TimelineWithoutJournal(root, c);
    TimelineWithoutJournal(next, c);
    assert next.history[p] == root.history[p] && next.history[|root.history|] == r;
    forall more | Ledger.NoRepeats(next.history + more) ensures !QuietSince(next.history + more, c, s.last) {
      NeverQuietAgain(next.history, more, c, s.last, p, |root.history|);
    }
    assert next.history + [] == next.history;
    FiledInv(next);
    assert !QuietSince(next.history + [], c, s.last);
    forall u, e, who, again, now, faulty, inScope
      ensures !MayComplete(next, c, u, e, who, again, now, faulty, inScope) {
      Loud(next, c, u, inScope, now, faulty);
    }
  }

  lemma FiledInv(root: Root)
    requires Inv(root)
    ensures Ledger.NoRepeats(root.history)
  {
    hide Tracked, JournalSound, EvidenceSound, Ledger.Filed, Ledger.Contiguous;
  }

  lemma Loud(root: Root, c: ChangeId, u: TaskId, inScope: bool, now: World, faulty: bool)
    requires c in root.states && !QuietSince(root.history, c, root.states[c].last)
    ensures !AttemptHolds(root, c, u, inScope, now, faulty)
  {
    hide Authorizes, QuietSince;
  }

  /** So only a reopen ends such an attempt: while one is open, no other record than its completion
      or a reopen may come next. */
  lemma OnlyReopenIsLeft(s: ChangeState, r: Record)
    requires Consistent(s) && s.attempts != map[] && Legal(s, r)
    ensures r.kind == CompletionKind || r.kind == ReopenedKind
  {
    var t :| t in s.attempts;
    assert s.tasks[t] == InProgress && s.stage == Approved;
    assert t in Dependencies(s.Approved());
  }
}
