/** The writers of a change as they run: guards over the files, then one or more durable
    writes, on a machine that may stop before any of them (attempt.go, complete.go, approve.go,
    reopen.go, friction.go, sync.go, archive.go, and the recovery dispatch.go runs first). */
module Harness {
  import opened Records
  import opened TaskGraphs
  import opened Lifecycle
  import opened Approvals
  import opened Roots
  import opened Authority
  import opened Operations
  import Ledger
  import Proofs
  import Readiness

  datatype Command =
    | StartTask(task: TaskId, expected: nat, actor: string)
    | CompleteTask(task: TaskId, expected: nat, actor: string, inScope: bool)
    | ApprovePlan(approver: string, gates: bool)
    | ReopenPlan(expected: nat, actor: string, reason: string)
    | RecordFriction(task: TaskId, expected: nat, actor: string)
    | SyncSpecs(approver: string, applicable: bool, undrifted: bool)
    | ArchiveChange(actor: string, undrifted: bool, vacant: bool)
    | RecordRun(subject: Subject, passed: bool)

  datatype Request = Request(change: ChangeId, command: Command, id: Id, world: World, power: nat)

  class Writer {
    var root: Root

    /** The durable writes left before the machine stops. */
    var power: nat

    /** What parsing a plan reports besides its task graph. */
    const diagnosed: Plan -> bool

    /** An approval's identity, made of the approved hash and the revision. */
    const approvalId: (Plan, nat) -> string

    constructor (root: Root, diagnosed: Plan -> bool, approvalId: (Plan, nat) -> string)
      requires Inv(root)
      ensures this.root == root && this.diagnosed == diagnosed && this.approvalId == approvalId
    {
      this.root, this.power, this.diagnosed, this.approvalId := root, 0, diagnosed, approvalId;
    }

    /** One durable write, all or nothing. */
    method Write(next: Root) returns (ok: bool)
      modifies this
      ensures ok == (old(power) > 0)
      ensures root == if ok then next else old(root)
      ensures power == if ok then old(power) - 1 else 0
    {
      ok := power > 0;
      if ok {
        root, power := next, power - 1;
      }
    }

    // -------------------------------------------------------------------------------
    // Write-ahead: sync and archive
    // -------------------------------------------------------------------------------

    /** Recovery rolls a pending transaction forward: install the state, append the bound record,
        drop the manifest. It is never refused, and stopping it anywhere loses nothing. */
    method Recover() returns (o: Outcome)
      requires Inv(root)
      modifies this
      ensures Inv(root)
      ensures Grows(old(root), root)
      ensures !o.Refused?
      ensures Recovered(root) == old(Recovered(root))
      ensures o.Done? ==> root == old(Recovered(root)) && root.journal.None?
      ensures o.Crashed? ==> power == 0
      ensures old(power) <= power + 3
    {
      if root.journal.None? { return Done; }
      o := InstallState(root.journal.value);
      if !o.Done? { return; }
      o := AppendBoundRecord(root.journal.value);
      if !o.Done? { return; }
      ClearKeeps(root);
      RecoveredNow(root);
      var ok := Write(root.(journal := None));
      return if ok then Done else Crashed;
    }

    /** Replay, first step: the state output, unless it is already in place. */
    method InstallState(j: Journal) returns (o: Outcome)
      requires Inv(root) && root.journal == Some(j)
      modifies this
      ensures Inv(root) && root.journal == Some(j)
      ensures Grows(old(root), root)
      ensures !o.Refused?
      ensures Recovered(root) == old(Recovered(root))
      ensures o.Done? ==> root == old(root).(states := root.states) && root.states[j.record.change] == j.after
      ensures o.Crashed? ==> power == 0
      ensures old(power) <= power + 1
    {
      var c := j.record.change;
      if root.states[c] == j.after { return Done; }
      if root.states[c] != j.before { return Refused("transaction_ambiguous"); }
      InstallKeeps(root);
      var ok := Write(root.(states := root.states[c := j.after]));
      return if ok then Done else Crashed;
    }

    /** Replay, second step: the bound record, unless it is already appended. */
    method AppendBoundRecord(j: Journal) returns (o: Outcome)
      requires Inv(root) && root.journal == Some(j) && root.states[j.record.change] == j.after
      modifies this
      ensures Inv(root) && root.journal == Some(j) && root.states == old(root.states)
      ensures Grows(old(root), root)
      ensures !o.Refused?
      ensures Recovered(root) == old(Recovered(root))
      ensures o.Done? ==> Ledger.HasId(root.history, j.record.id)
      ensures o.Crashed? ==> power == 0
      ensures old(power) <= power + 1
    {
      if Ledger.HasId(root.history, j.record.id) { return Done; }
      BoundRecordFits(root);
      if !Ledger.Fits(root.history, j.record) { return Refused("record_chain"); }
      BindKeeps(root);
      Ledger.HasIdAppend(root.history, j.record);
      var ok := Write(root.(history := root.history + [j.record]));
      return if ok then Done else Crashed;
    }

    /** Commit a state and its bound record through a manifest. Past the manifest nothing is
        refused; before it nothing has happened. */
    method Commit(r: Record) returns (o: Outcome)
      requires Inv(root) && root.journal.None? && Next(root, r) && WriteAhead(r.kind)
      requires !Ledger.HasId(root.history, r.id) && |Timeline(root, r.change)| == root.states[r.change].revision
      modifies this
      ensures Inv(root)
      ensures Grows(old(root), root)
      ensures !o.Refused?
      ensures o.Done? ==> root == old(Advanced(root, r))
      ensures o.Crashed? ==> power == 0 && (root == old(root) || Recovered(root) == old(Advanced(root, r)))
      ensures old(power) <= power + 4
    {
      var current := root.states[r.change];
      JournalKeeps(root, r);
      var ok := Write(root.(journal := Some(Journal(r, current, Apply(current, r)))));
      if !ok { return Crashed; }
      o := Recover();
    }

    // -------------------------------------------------------------------------------
    // Append-first: approve, start, complete, reopen
    // -------------------------------------------------------------------------------

    /** The persist* functions: edit a copy of the state field by field. */
    method Edited(current: ChangeState, r: Record) returns (next: ChangeState)
      requires AppendFirst(r.kind) && r.Valid()
      ensures next == Apply(current, r)
    {
      var stage, approvals, tasks, attempts, completions :=
        current.stage, current.approvals, current.tasks, current.attempts, current.completions;
      match r.payload {
        case ApprovedPayload(approval) =>
          stage := Approved;
          approvals := approvals + [approval];
        case AttemptPayload(attempt) =>
          attempts := attempts[attempt.task := attempt];
          tasks := tasks[attempt.task := InProgress];
        case CompletionPayload(task, attempt, evidence, _, _) =>
          completions := completions[task := Binding(attempt, evidence, r.id)];
          attempts := attempts - {task};
          tasks := tasks[task := Completed];
        case ReopenedPayload(_, _, _, _, _, _) =>
          stage := Planning;
          tasks, attempts, completions := map[], map[], map[];
      }
      return ChangeState(stage, current.revision + 1, approvals, tasks, attempts, completions, r.id);
    }

    method Persist(c: ChangeId, waiting: Record) returns (o: Outcome)
      requires Inv(root) && root.journal.None? && c in root.states && Waiting(root, c) == Some(waiting)
      modifies this
      ensures Inv(root)
      ensures Grows(old(root), root)
      ensures !o.Refused?
      ensures o.Done? ==> root == old(CaughtUp(root, c))
      ensures o.Crashed? ==> root == old(root) && power == 0
      ensures old(power) <= power + 1
    {
      WaitingIsLegal(root, c);
      assert waiting.Valid();
      PersistKeeps(root, c);
      var next := Edited(root.states[c], waiting);
      var ok := Write(root.(states := root.states[c := next]));
      return if ok then Done else Crashed;
    }

    /** Append the record, then replace the state file. Refused exactly when a record already
        waits or the identity is taken. */
    method AppendAndPersist(r: Record) returns (o: Outcome)
      requires Inv(root) && root.journal.None? && Next(root, r) && AppendFirst(r.kind)
      modifies this
      ensures Inv(root)
      ensures Grows(old(root), root)
      ensures o.Refused? <==> !(old(Waiting(root, r.change)).None? && !Ledger.HasId(old(root.history), r.id))
      ensures o.Refused? ==> root == old(root)
      ensures o.Done? ==> root == old(Advanced(root, r))
      ensures o.Crashed? ==> power == 0 && HalfDone(root, old(root), r)
      ensures old(power) <= power + 2
    {
      FitsExactly(root, r);
      if !Ledger.Fits(root.history, r) { return Refused("record_chain"); }
      AppendKeeps(root, r);
      AppendedWaits(root, r);
      var ok := Write(root.(history := root.history + [r]));
      if !ok { return Crashed; }
      o := Persist(r.change, r);
    }

    /** How every append-first operation ends: finish the record an interrupted run left, if it
        is the same, or write a new one. */
    method Finish(r: Record, prior: Option<Record>) returns (o: Outcome)
      requires Inv(root) && root.journal.None? && Next(root, r) && AppendFirst(r.kind)
      requires prior == match Waiting(root, r.change)
                        case Some(w) => if w.kind == r.kind then Some(w) else None
                        case None => None
      modifies this
      ensures Inv(root)
      ensures Grows(old(root), root)
      ensures o.Refused? <==> !old(Resumable(root, r))
      ensures o.Refused? ==> root == old(root)
      ensures o.Done? ==> root == old(Landed(root, r))
      ensures o.Crashed? ==> power == 0 && HalfDone(root, old(root), r)
      ensures old(power) <= power + 2
    {
      if prior.Some? {
        if !SameRequest(prior.value, r) { return Refused("recovery"); }
        o := Persist(r.change, prior.value);
      } else {
        o := AppendAndPersist(r);
      }
    }

    // -------------------------------------------------------------------------------
    // Operations
    // -------------------------------------------------------------------------------

    /** StartAttempt. */
    method Start(c: ChangeId, task: TaskId, expected: nat, actor: string, id: Id, world: World) returns (o: Outcome)
      requires Inv(root) && root.journal.None? && id != ""
      modifies this
      ensures Inv(root)
      ensures Grows(old(root), root)
      ensures o.Refused? <==> !old(MayStart(root, c, task, expected, actor, id, world, diagnosed(world.authored)))
      ensures o.Refused? ==> root == old(root)
      ensures o.Done? ==> root == old(Landed(root, StartRecord(root.states[c], c, task, actor, id, world)))
      ensures o.Crashed? ==>
                power == 0 && HalfDone(root, old(root), old(StartRecord(root.states[c], c, task, actor, id, world)))
    {
      if actor == "" { return Refused("attempt_unauthorized"); }
      if c !in root.states { return Refused("check_state"); }
      var current := root.states[c];
      if current.revision != expected { return Refused("stale_revision"); }
      var open := OpenAttempt(current, task);
      StatesAreConsistent(root, c);
      NoOpenAttempt(current, task);
      if open { return Refused("attempt_exists"); }
      var refusal, row, approved := Admit(c, task, world);
      if refusal.Some? { return Refused(refusal.value); }
      ScanFindsWaiting(root, c, AttemptKind);
      var prior := Latest(root.history, c, AttemptKind, Some(current.revision));
      if world.head.None? { return Refused("attempt_git"); }
      var attempt := Attempt(
        task, world.head.value, current.revision, current.revision + 1, row, approved, current.GuardOf(task), actor);
      var r := Record(id, History, AttemptKind, c, Some(current.revision), Some(current.revision + 1), actor,
                      AttemptPayload(attempt));
      assert r == StartRecord(current, c, task, actor, id, world);
      StartIsNext(root, c, task, actor, id, world);
      o := Finish(r, prior);
    }

    /** The middle of StartAttempt: the canonical row, current approval and the frontier. */
    method Admit(c: ChangeId, task: TaskId, world: World) returns (refusal: Option<string>, row: Task, approved: Plan)
      requires Inv(root) && root.journal.None? && c in root.states
      ensures refusal.None? <==>
                !diagnosed(world.authored) && Authorizes(root, c, world)
                && ReadyTask(root.states[c], task, world.authored)
      ensures refusal.None? ==> FindTask(world.authored.tasks, task) == Some(row) && approved == world.authored
    {
      row, approved := Task("", [], ""), world.authored;
      var current := root.states[c];
      var built := BuildTaskGraph(Rows(world.authored), diagnosed(world.authored));
      CurrentExactly(root, c, world);
      if Authorizes(root, c, world) { AuthorizedPlan(root, c, world); }
      if built.Err? { return Some("plan_invalid"), row, approved; }
      CanonicalTask(world.authored, task);
      var found := Canonical(world.authored.tasks, task);
      if found.None? { return Some("task_unknown"), row, approved; }
      row := found.value;
      var approval := ProjectApproval(root.history, c, current, world);
      if approval.Err? { return Some("approval_history"), row, approved; }
      var ready := InFrontier(current, task, approval.value, world);
      if !ready { return Some("attempt_not_ready"), row, approved; }
      if approval.value.approval.None? || !approval.value.current { return Some("approval_stale"), row, approved; }
      if Readiness.ActivityOf(current.tasks, task) != Pending { return Some("attempt_transition"), row, approved; }
      return None, row, approval.value.approval.value.artifacts;
    }

    method InFrontier(current: ChangeState, task: TaskId, approval: ApprovalStatus, world: World) returns (ready: bool)
      ensures ready <==>
                && !diagnosed(world.authored) && Sound(world.authored)
                && (forall t :: t in current.tasks ==> t in Ids(Rows(world.authored)))
                && current.stage == Approved && approval.current && ReadyTask(current, task, world.authored)
    {
      var fact := Readiness.ApprovalFact(approval.current, approval.approval.Some?);
      var readiness, graph := Readiness.ProjectReadiness(
        Rows(world.authored), diagnosed(world.authored), current.tasks, current.stage, fact);
      FrontierMeans(world.authored, diagnosed(world.authored), current, fact.current, fact.present, task, readiness,
                    graph);
      ready := readiness.InFrontier(task);
    }

    /** Any bound attempt that is not yet completed stops a new one. */
    method OpenAttempt(current: ChangeState, task: TaskId) returns (open: bool)
      ensures open <==> HasOpenAttempt(current, task)
    {
      if task in current.attempts { return true; }
      var todo := current.attempts.Keys;
      while todo != {}
        invariant todo <= current.attempts.Keys
        invariant forall t :: t in current.attempts.Keys - todo ==> Readiness.ActivityOf(current.tasks, t) == Completed
        decreases todo
      {
        var t :| t in todo;
        if Readiness.ActivityOf(current.tasks, t) != Completed { return true; }
        todo := todo - {t};
      }
      return false;
    }

    /** canonicalTask */
    method Canonical(tasks: seq<Task>, id: TaskId) returns (found: Option<Task>)
      ensures found == FindTask(tasks, id)
    {
      assert tasks[0..] == tasks;
      for k := 0 to |tasks|
        invariant FindTask(tasks, id) == FindTask(tasks[k..], id)
      {
        assert tasks[k..][1..] == tasks[k + 1..];
        if tasks[k].id == id { return Some(tasks[k]); }
      }
      return None;
    }

    /** Approve. `gates` is the verdict of the planning gates outside this model. */
    method Approve(c: ChangeId, approver: string, gates: bool, id: Id, world: World) returns (o: Outcome)
      requires Inv(root) && root.journal.None? && id != ""
      modifies this
      ensures Inv(root)
      ensures Grows(old(root), root)
      ensures o.Refused? <==>
                !old(c in root.states &&
                     MayApprove(root, c, approver, id, approvalId(world.authored, root.states[c].revision), world,
                                diagnosed(world.authored), gates))
      ensures o.Refused? ==> root == old(root)
      ensures o.Done? ==>
                root == old(Landed(root,
                                   ApprovalRecord(root.states[c], c, approver, id,
                                                  approvalId(world.authored, root.states[c].revision), world)))
      ensures o.Crashed? ==>
                power == 0 &&
                HalfDone(root, old(root),
                         old(ApprovalRecord(root.states[c], c, approver, id,
                                            approvalId(world.authored, root.states[c].revision), world)))
    {
      if approver == "" { return Refused("approval_intent"); }
      if c !in root.states { return Refused("check_state"); }
      var current := root.states[c];
      if current.stage != Planning { return Refused("lifecycle_transition"); }
      var built := BuildTaskGraph(Rows(world.authored), diagnosed(world.authored));
      if !gates || built.Err? { return Refused("approval_gates"); }
      ScanFindsWaiting(root, c, ApprovedKind);
      var prior := Latest(root.history, c, ApprovedKind, Some(current.revision));
      var approval := Approval(
        approvalId(world.authored, current.revision), approver, world.authored, world.registry, world.policy,
        current.revision, current.revision + 1);
      var r := Record(id, History, ApprovedKind, c, Some(current.revision), Some(current.revision + 1), approver,
                      ApprovedPayload(approval));
      assert r == ApprovalRecord(current, c, approver, id, approvalId(world.authored, current.revision), world);
      ApprovalIsNext(root, c, approver, id, approvalId(world.authored, current.revision), world);
      o := Finish(r, prior);
    }

    /** Reopen. */
    method Reopen(c: ChangeId, expected: nat, actor: string, reason: string, id: Id, world: World) returns (o: Outcome)
      requires Inv(root) && root.journal.None? && id != ""
      modifies this
      ensures Inv(root)
      ensures Grows(old(root), root)
      ensures o.Refused? <==> !old(MayReopen(root, c, expected, actor, reason, id, world))
      ensures o.Refused? ==> root == old(root)
      ensures o.Done? ==> old(MayReopen(root, c, expected, actor, reason, id, world))
                          && root == old(Landed(root, Revocation(root, c, actor, reason, id, world)))
      ensures o.Crashed? ==> power == 0 && old(MayReopen(root, c, expected, actor, reason, id, world))
                             && HalfDone(root, old(root), old(Revocation(root, c, actor, reason, id, world)))
    {
      if actor == "" || reason == "" { return Refused("reopen_intent"); }
      if c !in root.states { return Refused("check_state"); }
      var current := root.states[c];
      if current.revision != expected { return Refused("stale_revision"); }
      if current.stage != Approved { return Refused("reopen_lifecycle"); }
      TailExactly(root, c);
      var found := Latest(root.history, c, ApprovedKind, None);
      if found.None? || !EnvelopeValid(found.value) { return Refused("reopen_history"); }
      var approval := found.value.payload.approval;
      if current.approvals == [] || current.approvals[|current.approvals| - 1].id != approval.id {
        return Refused("reopen_history");
      }
      var ok, revoked := RevokedAttempt(c);
      if !ok { return Refused("reopen_history"); }
      if world.head.None? { return Refused("attempt_git"); }
      var payload := ReopenedPayload(approval.id, revoked, reason, world.head.value, current.revision,
                                     current.revision + 1);
      var r := Record(id, History, ReopenedKind, c, Some(current.revision), Some(current.revision + 1), actor, payload);
      assert r == Revocation(root, c, actor, reason, id, world);
      ReopenIsNext(root, c, actor, reason, id, revoked, world.head.value);
      ScanFindsWaiting(root, c, ReopenedKind);
      WaitingIsLegal(root, c);
      var prior := Latest(root.history, c, ReopenedKind, Some(current.revision));
      if prior.None? {
        var tail := TailCurrent(root.history, c, found.value, approval, current);
        OnlyTaskWorkOrReopenWaits(root, c);
        if !tail { return Refused("reopen_history"); }
      }
      o := Finish(r, prior);
    }

    /** reopenAttemptID: the active attempt, if it is bound to the state's last transition. */
    method RevokedAttempt(c: ChangeId) returns (ok: bool, revoked: Option<Attempt>)
      requires Inv(root) && root.journal.None? && c in root.states
      ensures ok && revoked == Active(root.states[c])
    {
      var current := root.states[c];
      StatesAreConsistent(root, c);
      if current.attempts == map[] { return true, None; }
      var task :| task in current.attempts;
      assert current.attempts.Keys == {task};
      if |current.attempts| > 1 { return false, None; }
      var attempt := current.attempts[task];
      ghost var p := AttemptIsRecorded(root, c, task);
      for k := 0 to |root.history|
        invariant k <= p
      {
        var item := root.history[k];
        if item.id == current.last && item.kind == AttemptKind && item.payload == AttemptPayload(attempt) {
          return true, Some(attempt);
        }
      }
      return false, None;
    }

    /** CompleteTask: under the ledger lock, finish a waiting completion or prove a new one.
        `inScope` is the verdict on the working tree's changed paths. */
    method Complete(c: ChangeId, task: TaskId, expected: nat, actor: string, inScope: bool, id: Id, world: World)
      returns (o: Outcome)
      requires Inv(root) && root.journal.None? && id != ""
      modifies this
      ensures Inv(root)
      ensures Grows(old(root), root)
      ensures o.Refused? <==>
                !old(MayComplete(root, c, task, expected, actor, id, world, diagnosed(world.authored), inScope))
      ensures o.Refused? ==> root == old(root)
      ensures !o.Refused? ==> c in old(root.states) && old(Completes(root, c, task, actor, id)).change == c
      ensures o.Done? ==> root == old(Landed(root, Completes(root, c, task, actor, id)))
      ensures o.Crashed? ==> power == 0 && HalfDone(root, old(root), old(Completes(root, c, task, actor, id)))
    {
      if actor == "" { return Refused("complete_unauthorized"); }
      if c !in root.states { return Refused("complete_state"); }
      var current := root.states[c];
      if current.revision != expected { return Refused("stale_revision"); }
      ScanFindsWaiting(root, c, CompletionKind);
      WaitingIsLegal(root, c);
      var pending := Latest(root.history, c, CompletionKind, Some(current.revision));
      if pending.Some? {
        WaitingCompletionIsProven(root, c);
        if pending.value.payload.task != task { return Refused("complete_recovery"); }
        var bound := BoundToEvidence(pending.value);
        if !bound { return Refused("complete_recovery"); }
        o := Persist(c, pending.value);
        return;
      }
      var refusal, attempt := CheckAttempt(c, task, inScope, world);
      if refusal.Some? { return Refused(refusal.value); }
      var subject := RunSubject(current, c, task, attempt);
      var proof := Proofs.LatestCompletionEvidence(root.evidence, subject);
      if proof.Err? || proof.value.None? { return Refused("complete_evidence"); }
      var consumed := Proofs.AlreadyConsumed(root.history, proof.value.value.id);
      if consumed { return Refused("complete_replay"); }
      CompletionIsNext(root, c, task, actor, id, proof.value.value);
      var r := CompletionRecord(current, c, task, actor, id, attempt, proof.value.value.id);
      o := AppendAndPersist(r);
    }

    /** validatePendingCompletionEvidence: in a reachable root it always holds. */
    method BoundToEvidence(pending: Record) returns (bound: bool)
      requires Inv(root) && pending.kind == CompletionKind
      requires exists e :: e in root.evidence && ProvenBy(pending, e)
      ensures bound
    {
      ghost var proof :| proof in root.evidence && ProvenBy(pending, proof);
      ghost var p :| 0 <= p < |root.evidence| && root.evidence[p] == proof;
      for k := 0 to |root.evidence|
        invariant k <= p
      {
        var item := root.evidence[k];
        if item.id == pending.payload.evidence {
          return ProvenBy(pending, item);
        }
      }
      return false;
    }

    /** The middle of CompleteTask: the attempt still matches the state, the plan, the approval,
        HEAD, and the tail of the history. */
    method CheckAttempt(c: ChangeId, task: TaskId, inScope: bool, world: World)
      returns (refusal: Option<string>, attempt: Attempt)
      requires Inv(root) && root.journal.None? && c in root.states
      ensures refusal.None? <==> AttemptHolds(root, c, task, inScope, world, diagnosed(world.authored))
      ensures refusal.None? ==> attempt == root.states[c].attempts[task]
    {
      attempt := NoAttempt;
      var current := root.states[c];
      StatesAreConsistent(root, c);
      CurrentExactly(root, c, world);
      if Authorizes(root, c, world) { AuthorizedPlan(root, c, world); }
      var built := BuildTaskGraph(Rows(world.authored), diagnosed(world.authored));
      if built.Err? { return Some("plan_invalid"), attempt; }
      var row := Canonical(world.authored.tasks, task);
      if row.None? { return Some("complete_task"), attempt; }
      var known := Readiness.CheckActivities(built.value.authored, current.tasks);
      if !known { return Some("complete_activity"), attempt; }
      if Readiness.ActivityOf(current.tasks, task) != InProgress { return Some("complete_activity"), attempt; }
      CanonicalTask(world.authored, task);
      if !Readiness.DependenciesDone(current.tasks, built.value.dependencies[task]) {
        return Some("dependency_incomplete"), attempt;
      }
      if task !in current.attempts { return Some("complete_attempt"), attempt; }
      attempt := current.attempts[task];
      if attempt.task != task || attempt.after != current.revision || current.GuardOf(task) != attempt.guard
         || row.value != attempt.contract {
        return Some("complete_attempt"), attempt;
      }
      var tail := AttemptIsTail(c, task);
      if !tail { return Some("scope_history"), attempt; }
      var approval := ProjectApproval(root.history, c, current, world);
      if approval.Err? { return Some("approval_history"), attempt; }
      if !approval.value.current || approval.value.approval.None?
         || approval.value.approval.value.artifacts != attempt.approved {
        return Some("complete_approval"), attempt;
      }
      if world.head != Some(attempt.head) { return Some("complete_head"), attempt; }
      if !inScope { return Some("scope_outside"), attempt; }
      return None, attempt;
    }

    /** validateAttemptHistory: the attempt is recorded, and nothing of its change follows. */
    method AttemptIsTail(c: ChangeId, task: TaskId) returns (ok: bool)
      requires Inv(root) && root.journal.None? && c in root.states && task in root.states[c].attempts
      ensures ok <==> QuietSince(root.history, c, root.states[c].last)
    {
      var current := root.states[c];
      var attempt := current.attempts[task];
      ghost var p := AttemptIsRecorded(root, c, task);
      var found := false;
      for k := 0 to |root.history|
        invariant found <==> p < k
        invariant forall q :: p < q < k ==> root.history[q].change != c
      {
        var item := root.history[k];
        if found && item.change == c { return false; }
        if item.id != current.last { continue; }
        assert k == p;
        if !RecordsAttempt(item, c, attempt, current.last) { break; }
        found := true;
      }
      ok := found;
    }

    /** RecordFriction: an observation of a stopped task; no revision moves. */
    method Friction(c: ChangeId, task: TaskId, expected: nat, actor: string, id: Id, world: World) returns (o: Outcome)
      requires Inv(root) && root.journal.None? && id != ""
      modifies this
      ensures Inv(root)
      ensures Grows(old(root), root)
      ensures o.Refused? <==> !old(MayObserve(root, c, task, expected, actor, id, world, diagnosed(world.authored)))
      ensures o.Done? ==>
                root == old(root.(history := root.history + [FrictionRecord(root.states[c], c, task, actor, id)]))
      ensures !o.Done? ==> root == old(root)
    {
      if actor == "" { return Refused("friction_unauthorized"); }
      if c !in root.states { return Refused("check_state"); }
      var current := root.states[c];
      if current.revision != expected { return Refused("stale_revision"); }
      var row := Canonical(world.authored.tasks, task);
      if Sound(world.authored) { CanonicalTask(world.authored, task); }
      if row.None? { return Refused("friction_unknown"); }
      CurrentExactly(root, c, world);
      var approval := ProjectApproval(root.history, c, current, world);
      if approval.Err? { return Refused("approval_history"); }
      var stopped := Observable(current, task, approval.value, world);
      if !stopped { return Refused("friction_hypothetical"); }
      NamedChange(root, c);
      var r := FrictionRecord(current, c, task, actor, id);
      if !Ledger.Fits(root.history, r) { return Refused("record_duplicate"); }
      ObservationKeeps(root, r);
      var ok := Write(root.(history := root.history + [r]));
      return if ok then Done else Crashed;
    }

    /** frictionObservable: the task's row is a real stop. */
    method Observable(current: ChangeState, task: TaskId, approval: ApprovalStatus, world: World)
      returns (stopped: bool)
      ensures stopped <==>
                && !diagnosed(world.authored) && Sound(world.authored)
                && (forall t :: t in current.tasks ==> t in Ids(Rows(world.authored)))
                && task in Dependencies(world.authored)
                && ((current.stage == Approved && approval.current) ==> StoppedTask(current, task, world.authored))
    {
      var fact := Readiness.ApprovalFact(approval.current, approval.approval.Some?);
      var readiness, graph := Readiness.ProjectReadiness(
        Rows(world.authored), diagnosed(world.authored), current.tasks, current.stage, fact);
      RowMeans(world.authored, diagnosed(world.authored), current, fact.current, fact.present, task, readiness, graph);
      var row := readiness.Task(task);
      if row.None? { return false; }
      match row.value.state {
        case Ready => return false;
        case Active => return false;
        case Terminal => return false;
        case _ => return row.value.blocker.Some?;
      }
    }

    /** Sync. `applicable` is the verdict of the reconciliation, `undrifted` that the accepted
        documents still hold what an earlier sync wrote. */
    method Sync(c: ChangeId, approver: string, applicable: bool, undrifted: bool, id: Id, world: World)
      returns (o: Outcome)
      requires Inv(root) && root.journal.None? && id != "" && !Ledger.HasId(root.history, id)
      modifies this
      ensures Inv(root)
      ensures Grows(old(root), root)
      ensures o.Refused? <==>
                !old(|| MaySync(root, c, approver, world, diagnosed(world.authored), applicable)
                     || MayRepeatSync(root, c, approver, undrifted))
      ensures o.Refused? ==> root == old(root)
      ensures o.Done? ==>
                root == if old(root.states[c].stage) == Reconciling then old(root)
                        else old(Advanced(root, SyncRecord(root.states[c], c, approver, id, world)))
      ensures o.Crashed? ==>
                && power == 0 && old(root.states[c].stage) == Approved
                && (root == old(root)
                    || Recovered(root) == old(Advanced(root, SyncRecord(root.states[c], c, approver, id, world))))
    {
      if approver == "" { return Refused("approval_intent"); }
      if c !in root.states { return Refused("check_state"); }
      var current := root.states[c];
      if current.stage == Reconciling {
        SyncIsLatest(root, c, world);
        var prior := Latest(root.history, c, SyncedKind, None);
        if prior.None? { return Refused("sync_history"); }
        if !undrifted { return Refused("sync_drift"); }
        return Done;
      }
      if current.stage != Approved { return Refused("sync_lifecycle"); }
      CurrentExactly(root, c, world);
      if Authorizes(root, c, world) { AuthorizedPlan(root, c, world); }
      var approval := ProjectApproval(root.history, c, current, world);
      if approval.Err? { return Refused("approval_history"); }
      var built := BuildTaskGraph(Rows(world.authored), diagnosed(world.authored));
      if built.Err? { return Refused("sync_plan"); }
      var known := Readiness.CheckActivities(built.value.authored, current.tasks);
      if !known { return Refused("plan_invalid"); }
      var incomplete, stale := ProofFacts(built.value.authored, current);
      FactsMean(root, c, world, incomplete, stale);
      if !applicable || incomplete != [] || stale != [] || !approval.value.current { return Refused("sync_blocked"); }
      var payload := SyncedPayload(
        approver, approval.value.approval.value.artifacts, current.EvidenceSet(),
        current.revision, current.revision + 1);
      var r := Record(id, History, SyncedKind, c, Some(current.revision), Some(current.revision + 1), approver,
                      payload);
      assert r == SyncRecord(current, c, approver, id, world);
      SyncIsNext(root, c, approver, id, world);
      o := Commit(r);
    }

    /** syncProofFacts: the incomplete tasks, and the completed ones whose evidence is gone. */
    method ProofFacts(order: seq<TaskId>, current: ChangeState) returns (incomplete: seq<TaskId>, stale: seq<TaskId>)
      ensures forall t :: t in incomplete <==> t in order && Readiness.ActivityOf(current.tasks, t) != Completed
      ensures forall t :: t in stale <==>
                t in order && Readiness.ActivityOf(current.tasks, t) == Completed && !Bound(root, current, t)
    {
      incomplete, stale := [], [];
      for k := 0 to |order|
        invariant forall t :: t in incomplete <==>
                    t in order[..k] && Readiness.ActivityOf(current.tasks, t) != Completed
        invariant forall t :: t in stale <==>
                    t in order[..k] && Readiness.ActivityOf(current.tasks, t) == Completed && !Bound(root, current, t)
      {
        var t := order[k];
        assert order[..k + 1] == order[..k] + [t];
        if Readiness.ActivityOf(current.tasks, t) != Completed {
          incomplete := incomplete + [t];
        } else if !Bound(root, current, t) {
          stale := stale + [t];
        }
      }
      assert order[..|order|] == order;
    }

    /** Archive. `undrifted` is as for sync; `vacant` says that nothing is at the destination. */
    method Archive(c: ChangeId, actor: string, undrifted: bool, vacant: bool, id: Id, world: World) returns (o: Outcome)
      requires Inv(root) && root.journal.None? && id != "" && !Ledger.HasId(root.history, id)
      modifies this
      ensures Inv(root)
      ensures Grows(old(root), root)
      ensures o.Refused? <==> !old(MayArchive(root, c, actor, world, undrifted, vacant))
      ensures o.Refused? ==> root == old(root)
      ensures !o.Refused? ==> old(SyncedBy(root, c)).payload.SyncedPayload?
      ensures o.Done? ==> root == old(Advanced(root, Archival(root, c, actor, id)))
      ensures o.Crashed? ==>
                power == 0 && (root == old(root)
                               || Recovered(root) == old(Advanced(root, Archival(root, c, actor, id))))
    {
      if actor == "" { return Refused("archive_unauthorized"); }
      if c !in root.states { return Refused("check_state"); }
      var current := root.states[c];
      if current.stage != Reconciling { return Refused("archive_lifecycle"); }
      SyncIsLatest(root, c, world);
      StatesAreConsistent(root, c);
      var synced := Latest(root.history, c, SyncedKind, None);
      if synced.None? { return Refused("sync_history"); }
      var payload := synced.value.payload;
      if world.authored != payload.approvalHash { return Refused("archive_approval"); }
      if current.EvidenceSet() != payload.evidenceSet { return Refused("archive_evidence"); }
      var missing := MissingEvidence(c);
      if missing != {} { return Refused("archive_evidence"); }
      var incomplete := IncompleteTasks(current);
      NothingIncomplete(current);
      if incomplete != {} { return Refused("archive_incomplete"); }
      if !undrifted { return Refused("archive_unsynced"); }
      if !vacant { return Refused("archive_target_exists"); }
      var r := ArchiveRecord(current, c, actor, id, payload.approver, synced.value.id);
      ArchiveIsNext(root, c, actor, id, payload.approver, synced.value.id, world);
      o := Commit(r);
    }

    /** requireBoundEvidencePresent: in a reachable root nothing is missing. */
    method MissingEvidence(c: ChangeId) returns (missing: set<TaskId>)
      requires Inv(root) && root.journal.None? && c in root.states
      ensures missing == {}
    {
      BoundEvidenceIsKnown(root, c);
      missing := {};
      var bindings := root.states[c].completions;
      var todo := bindings.Keys;
      while todo != {}
        invariant todo <= bindings.Keys && missing == {}
        decreases todo
      {
        var t :| t in todo;
        if !Known(root.evidence, bindings[t].evidence) { missing := missing + {t}; }
        todo := todo - {t};
      }
    }

    /** requireEveryTaskCompleted */
    method IncompleteTasks(current: ChangeState) returns (incomplete: set<TaskId>)
      ensures forall t :: t in incomplete <==> t in current.tasks && current.tasks[t] != Completed
    {
      incomplete := {};
      var todo := current.tasks.Keys;
      while todo != {}
        invariant todo <= current.tasks.Keys
        invariant forall t :: t in incomplete <==> t in current.tasks.Keys - todo && current.tasks[t] != Completed
        decreases todo
      {
        var t :| t in todo;
        if current.tasks[t] != Completed { incomplete := incomplete + {t}; }
        todo := todo - {t};
      }
    }

    /** verify appends one observed run; it touches no state. */
    method Observe(e: Record) returns (o: Outcome)
      requires Inv(root)
      modifies this
      ensures Inv(root)
      ensures Grows(old(root), root)
      ensures o.Refused? <==> !(e.Valid() && e.family == Evidence && !Ledger.HasId(old(root.evidence), e.id))
      ensures o.Done? ==> root == old(root.(evidence := root.evidence + [e]))
      ensures !o.Done? ==> root == old(root)
    {
      if !e.Valid() || e.family != Evidence || !Ledger.Fits(root.evidence, e) { return Refused("record_invalid"); }
      EvidenceKeeps(root, e);
      var ok := Write(root.(evidence := root.evidence + [e]));
      return if ok then Done else Crashed;
    }

    // -------------------------------------------------------------------------------
    // Runs
    // -------------------------------------------------------------------------------

    /** One invocation: recover, then the operation, with the writes the machine makes before it
        stops and whatever plan, registry, policy and HEAD it finds. */
    method Serve(request: Request)
      requires Inv(root)
      modifies this
      ensures Inv(root)
      ensures Grows(old(root), root)
    {
      power := request.power;
      var o := Recover();
      if o.Done? && request.id != "" { Dispatch(request); }
    }

    /** The handler table, the record identities of sync and archive being new by their content. */
    method Dispatch(request: Request)
      requires Inv(root) && root.journal.None? && request.id != ""
      modifies this
      ensures Inv(root)
      ensures Grows(old(root), root)
    {
      var c, id, world := request.change, request.id, request.world;
      match request.command {
        case StartTask(task, expected, actor) => var o := Start(c, task, expected, actor, id, world);
        case CompleteTask(task, expected, actor, inScope) =>
          var o := Complete(c, task, expected, actor, inScope, id, world);
        case ApprovePlan(approver, gates) => var o := Approve(c, approver, gates, id, world);
        case ReopenPlan(expected, actor, reason) => var o := Reopen(c, expected, actor, reason, id, world);
        case RecordFriction(task, expected, actor) => var o := Friction(c, task, expected, actor, id, world);
        case SyncSpecs(approver, applicable, undrifted) =>
          if !Ledger.HasId(root.history, id) { var o := Sync(c, approver, applicable, undrifted, id, world); }
        case ArchiveChange(actor, undrifted, vacant) =>
          if !Ledger.HasId(root.history, id) { var o := Archive(c, actor, undrifted, vacant, id, world); }
        case RecordRun(run, passed) =>
          var o := Observe(Record(id, Evidence, ObservedKind, c, None, None, "harness",
                                  ObservedPayload(TestRun(run, passed))));
      }
    }

    /** Any run of invocations on any changes, each stopped after any number of writes, keeps
        every state file the fold of its history. */
    method Run(requests: seq<Request>)
      requires Inv(root)
      modifies this
      ensures Inv(root)
      ensures Grows(old(root), root)
    {
      for k := 0 to |requests|
        invariant Inv(root)
        invariant Grows(old(root), root)
      {
        Serve(requests[k]);
      }
    }
  }

  /** Besides task work only a reopen can wait in an approved change. */
  lemma OnlyTaskWorkOrReopenWaits(root: Root, c: ChangeId)
    requires Inv(root) && root.journal.None? && c in root.states && root.states[c].stage == Approved
    ensures Waiting(root, c).Some? ==>
              Working(Waiting(root, c).value.kind) || Waiting(root, c).value.kind == ReopenedKind
  {
    WaitingIsLegal(root, c);
    if Waiting(root, c).Some? { LegalApprovals(root.states[c], Waiting(root, c).value); }
  }

  ghost predicate HasOpenAttempt(s: ChangeState, task: TaskId) {
    task in s.attempts || exists t :: t in s.attempts && Readiness.ActivityOf(s.tasks, t) != Completed
  }

  /** In a consistent state an attempt is always open. */
  lemma NoOpenAttempt(s: ChangeState, task: TaskId)
    requires Consistent(s)
    ensures HasOpenAttempt(s, task) <==> s.attempts != map[]
  {
    if t :| t in s.attempts {
      assert s.tasks[t] == InProgress;
    }
  }

  lemma RecoveredNow(root: Root)
    requires root.journal.Some? && root.journal.value.record.change in root.states
    requires root.states[root.journal.value.record.change] == root.journal.value.after
    requires Ledger.HasId(root.history, root.journal.value.record.id)
    ensures Recovered(root) == root.(journal := None)
  {
    var j := root.journal.value;
    assert root.states[j.record.change := j.after] == root.states;
  }

  /** An appended record is the one that waits. */
  lemma AppendedWaits(root: Root, r: Record)
    requires Inv(root) && root.journal.None? && Next(root, r) && Ledger.Fits(root.history, r) && AppendFirst(r.kind)
    ensures var next := root.(history := root.history + [r]);
            Waiting(next, r.change) == Some(r) && CaughtUp(next, r.change) == Advanced(root, r)
  {
    var next := root.(history := root.history + [r]);
    FitsOnlyWhenSettled(root, r);
    AppendKeeps(root, r);
    TimelineWithoutJournal(root, r.change);
    TimelineWithoutJournal(next, r.change);
  }

  // ---------------------------------------------------------------------------------
  // Interrupted operations are finished by asking again
  // ---------------------------------------------------------------------------------

  /** The same start, asked again after a crash between its two writes, is admitted, appends
      nothing, and leaves exactly what the uninterrupted one would have left. */
  lemma StartResumes(root: Root, c: ChangeId, task: TaskId, expected: nat, actor: string, id: Id, again: Id,
                     world: World, diagnosed: bool)
    requires Inv(root) && root.journal.None? && id != ""
    requires MayStart(root, c, task, expected, actor, id, world, diagnosed) && Waiting(root, c).None?
    ensures var r := StartRecord(root.states[c], c, task, actor, id, world);
            var next := root.(history := root.history + [r]);
            && Inv(next) && MayStart(next, c, task, expected, actor, again, world, diagnosed)
            && Landed(next, StartRecord(next.states[c], c, task, actor, again, world)) == Advanced(root, r)
  {
    var r := StartRecord(root.states[c], c, task, actor, id, world);
    StartIsNext(root, c, task, actor, id, world);
    FitsExactly(root, r);
    AppendKeeps(root, r);
    AppendedWaits(root, r);
  }

  lemma ApprovalResumes(root: Root, c: ChangeId, approver: string, id: Id, again: Id, approvalId: string, world: World,
                        diagnosed: bool)
    requires Inv(root) && root.journal.None? && id != ""
    requires MayApprove(root, c, approver, id, approvalId, world, diagnosed, true) && Waiting(root, c).None?
    ensures var r := ApprovalRecord(root.states[c], c, approver, id, approvalId, world);
            var next := root.(history := root.history + [r]);
            && Inv(next) && MayApprove(next, c, approver, again, approvalId, world, diagnosed, true)
            && Landed(next, ApprovalRecord(next.states[c], c, approver, again, approvalId, world)) == Advanced(root, r)
            && (forall observed: World :: !Authorizes(next, c, observed))
  {
    var r := ApprovalRecord(root.states[c], c, approver, id, approvalId, world);
    ApprovalIsNext(root, c, approver, id, approvalId, world);
    FitsExactly(root, r);
    AppendKeeps(root, r);
    AppendedWaits(root, r);
  }

  /** A reopen revokes authority the moment it is appended, and asking again finishes it. */
  lemma ReopenResumes(root: Root, c: ChangeId, expected: nat, actor: string, reason: string, id: Id, again: Id,
                      world: World)
    requires Inv(root) && root.journal.None? && id != ""
    requires MayReopen(root, c, expected, actor, reason, id, world) && Waiting(root, c).None?
    ensures var r := Revocation(root, c, actor, reason, id, world);
            var next := root.(history := root.history + [r]);
            && Inv(next) && MayReopen(next, c, expected, actor, reason, again, world)
            && Landed(next, Revocation(next, c, actor, reason, again, world)) == Advanced(root, r)
            && (forall observed: World :: !Authorizes(next, c, observed))
  {
    hide Inv;
    var r := Revocation(root, c, actor, reason, id, world);
    ReopenIsNext(root, c, actor, reason, id, Active(root.states[c]), world.head.value);
    FitsExactly(root, r);
    AppendKeeps(root, r);
    AppendedWaits(root, r);
  }

  /** A waiting completion is finished by any later request for its task, whatever has become of
      the approval, HEAD or the working tree since. */
  lemma CompletionResumes(root: Root, c: ChangeId, task: TaskId, expected: nat, actor: string, id: Id, again: Id,
                          world: World, later: World,
                          diagnosed: bool, inScope: bool)
    requires Inv(root) && root.journal.None? && id != ""
    requires MayComplete(root, c, task, expected, actor, id, world, diagnosed, inScope) && Waiting(root, c).None?
    ensures var r := Completes(root, c, task, actor, id);
            var next := root.(history := root.history + [r]);
            && Inv(next) && MayComplete(next, c, task, expected, actor, again, later, true, false)
            && Completes(next, c, task, actor, again) == r && Landed(next, r) == Advanced(root, r)
  {
    var s := root.states[c];
    var r := Completes(root, c, task, actor, id);
    var proof := Proofs.Usable(root.evidence, RunSubject(s, c, task, s.attempts[task])).value;
    CompletionIsNext(root, c, task, actor, id, proof);
    FitsExactly(root, r);
    AppendKeeps(root, r);
    AppendedWaits(root, r);
  }
}
