/** Work on an approved change always comes to an end, and takes one completion for each task: the
    readiness of plans, seen over the records that the writers append (attempt.go, complete.go,
    readiness.go). */
module Progress {
  import opened Records
  import opened TaskGraphs
  import opened Lifecycle
  import opened Approvals
  import opened Roots
  import opened Authority
  import opened Operations
  import Graphs
  import Ledger
  import Proofs

  // ---------------------------------------------------------------------------------
  // One task: start it, record a passing run, complete it
  // ---------------------------------------------------------------------------------

  datatype Step = Step(task: TaskId, actor: string, start: Id, run: Id, finish: Id)

  function Started(root: Root, c: ChangeId, step: Step, world: World): Root
    requires c in root.states
  {
    Advanced(root, StartRecord(root.states[c], c, step.task, step.actor, step.start, world))
  }

  /** What verify records for the attempt in progress. */
  function PassingRun(s: ChangeState, c: ChangeId, step: Step): Record {
    var attempt := if step.task in s.attempts then s.attempts[step.task] else NoAttempt;
    Record(step.run, Evidence, ObservedKind, c, None, None, step.actor,
           ObservedPayload(TestRun(Subject(c, step.task, attempt, attempt.head, attempt.contract,
                                           attempt.contract.contract, attempt.approved, s.revision), true)))
  }

  function Verified(root: Root, c: ChangeId, step: Step): Root
    requires c in root.states
  {
    root.(evidence := root.evidence + [PassingRun(root.states[c], c, step)])
  }

  function Finish(root: Root, c: ChangeId, step: Step): Root
    requires c in root.states && Completes(root, c, step.task, step.actor, step.finish).change == c
  {
    Advanced(root, Completes(root, c, step.task, step.actor, step.finish))
  }

  /** From one root to another by working on one task, each of the three requests admitted. */
  ghost predicate Works(before: Root, after: Root, c: ChangeId, step: Step, world: World) {
    && c in before.states && step.start != "" && step.finish != ""
    && MayStart(before, c, step.task, before.states[c].revision, step.actor, step.start, world, false)
    && var started := Started(before, c, step, world);
       && c in started.states
       && PassingRun(started.states[c], c, step).Valid() && !Ledger.HasId(started.evidence, step.run)
       && var proven := Verified(started, c, step);
          && MayComplete(proven, c, step.task, proven.states[c].revision, step.actor, step.finish, world, false, true)
          && Completes(proven, c, step.task, step.actor, step.finish).change == c
          && after == Finish(proven, c, step)
  }

  /** An approved change that nobody is working on. */
  ghost predicate Idle(root: Root, c: ChangeId, world: World) {
    && Inv(root) && root.journal.None? && c in root.states
    && Authorizes(root, c, world) && Waiting(root, c).None? && root.states[c].attempts == map[]
    && world.head.Some? && !Misfiling(root.evidence)
  }

  // ---------------------------------------------------------------------------------
  // Each of the three steps
  // ---------------------------------------------------------------------------------

  /** Appended and persisted: the invariant holds, and nothing waits. */
  lemma AdvancedKeeps(root: Root, r: Record)
    requires Inv(root) && root.journal.None? && Next(root, r) && AppendFirst(r.kind)
    requires Waiting(root, r.change).None? && !Ledger.HasId(root.history, r.id)
    ensures Inv(Advanced(root, r)) && Waiting(Advanced(root, r), r.change).None?
  {
    var c, middle, next := r.change, root.(history := root.history + [r]), Advanced(root, r);
    NextExpects(root, r);
    FitsExactly(root, r);
    AppendKeeps(root, r);
    hide Inv, Next, Apply, Fold, LegalRun, Tracked, Ledger.Fits, Ledger.Transitions;
    TimelineWithoutJournal(root, c);
    TimelineWithoutJournal(middle, c);
    TimelineWithoutJournal(next, c);
    StatesAreConsistent(root, c);
    PersistKeeps(middle, c);
    StatesAreConsistent(next, c);
    AppliedRevision(root, r);
  }

  lemma NextExpects(root: Root, r: Record)
    requires Next(root, r)
    ensures r.expected == Some(root.states[r.change].revision)
  {
  }

  lemma AppliedRevision(root: Root, r: Record)
    requires Inv(root) && Next(root, r) && AppendFirst(r.kind)
    ensures Apply(root.states[r.change], r).revision == root.states[r.change].revision + 1
  {
    StatesAreConsistent(root, r.change);
    LegalKeepsConsistent(root.states[r.change], r);
  }

  /** The first step. */
  lemma StartStep(root: Root, c: ChangeId, step: Step, world: World)
    requires Idle(root, c, world) && step.actor != "" && step.start != "" && !Ledger.HasId(root.history, step.start)
    requires ReadyTask(root.states[c], step.task, world.authored)
    ensures MayStart(root, c, step.task, root.states[c].revision, step.actor, step.start, world, false)
    ensures var started := Started(root, c, step, world);
            && Inv(started) && started.journal.None? && c in started.states && Waiting(started, c).None?
            && AttemptHolds(started, c, step.task, true, world, false)
            && started.evidence == root.evidence
            && started.history ==
                 root.history + [StartRecord(root.states[c], c, step.task, step.actor, step.start, world)]
            && started.states[c] ==
                 Apply(root.states[c], StartRecord(root.states[c], c, step.task, step.actor, step.start, world))
  {
    var s := root.states[c];
    var r := StartRecord(s, c, step.task, step.actor, step.start, world);
    var started := Started(root, c, step, world);
    StartIsNext(root, c, step.task, step.actor, step.start, world);
    AdvancedKeeps(root, r);
    AuthorizedPlan(root, c, world);
    CanonicalTask(world.authored, step.task);
    FoundHasId(world.authored.tasks, step.task);
    assert started.history[|root.history|] == r;
    assert QuietSince(started.history, c, r.id);
  }

  lemma {:induction false} FoundHasId(tasks: seq<Task>, id: TaskId)
    ensures FindTask(tasks, id).Some? ==> FindTask(tasks, id).value.id == id
  {
    if tasks != [] { FoundHasId(tasks[1..], id); }
  }

  /** The other two: once the attempt stands, a passing run makes the completion admissible, and
      the completion leaves the change idle again, with one more task completed. */
  lemma FinishStep(root: Root, c: ChangeId, step: Step, world: World)
    requires Inv(root) && root.journal.None? && c in root.states && Waiting(root, c).None?
    requires AttemptHolds(root, c, step.task, true, world, false) && !Misfiling(root.evidence)
    requires step.actor != "" && step.finish != "" && !Ledger.HasId(root.history, step.finish)
    requires step.run != "" && !Ledger.HasId(root.evidence, step.run)
    ensures PassingRun(root.states[c], c, step).Valid()
    ensures var proven := Verified(root, c, step);
            && Inv(proven) && Waiting(proven, c).None? && !Misfiling(proven.evidence)
            && MayComplete(proven, c, step.task, proven.states[c].revision, step.actor, step.finish, world, false, true)
            && Completes(proven, c, step.task, step.actor, step.finish) ==
               CompletionRecord(root.states[c], c, step.task, step.actor, step.finish,
                                root.states[c].attempts[step.task], step.run)
            && Next(proven, Completes(proven, c, step.task, step.actor, step.finish))
  {
    var s := root.states[c];
    var subject := RunSubject(s, c, step.task, s.attempts[step.task]);
    var e, proven := PassingRun(s, c, step), Verified(root, c, step);
    NamedChange(root, c);
    EvidenceKeeps(root, e);
    NewestIsAppended(root.evidence, e, subject);
    FreshIsUnconsumed(root, step.run);
    StillFiled(root.evidence, e);
    CompletionIsNext(proven, c, step.task, step.actor, step.finish, e);
    hide Inv, Misfiling, Consumed, QuietSince, Authorizes;
    assert AttemptHolds(proven, c, step.task, true, world, false) by { SameAuthority(root, proven, c, world); }
  }

  lemma SameAuthority(root: Root, next: Root, c: ChangeId, world: World)
    requires c in root.states && c in next.states
    requires next.states[c] == root.states[c] && next.history == root.history
    ensures Authorizes(next, c, world) == Authorizes(root, c, world) && Waiting(next, c) == Waiting(root, c)
  {
  }

  lemma NewestIsAppended(evidence: seq<Record>, e: Record, subject: Subject)
    requires Proofs.Run(e, subject) && e.payload.run.passed
    ensures Proofs.Usable(evidence + [e], subject) == Some(e)
  {
    assert (evidence + [e])[|evidence|] == e;
  }

  lemma StillFiled(evidence: seq<Record>, e: Record)
    requires !Misfiling(evidence) && !Proofs.Misfiled(e)
    ensures !Misfiling(evidence + [e])
  {
  }

  /** Evidence nobody has recorded, nobody has consumed. */
  lemma FreshIsUnconsumed(root: Root, id: Id)
    requires Inv(root) && !Ledger.HasId(root.evidence, id)
    ensures !Consumed(root.history, id)
  {
    forall r | r in root.history ensures !Proofs.ConsumedBy(r, id) {
      if Proofs.ConsumedBy(r, id) { ConsumedIsRecorded(root, r, id); }
    }
  }

  lemma ConsumedIsRecorded(root: Root, r: Record, id: Id)
    requires Inv(root) && r in root.history && Proofs.ConsumedBy(r, id)
    ensures Ledger.HasId(root.evidence, id)
  {
    assert Proven(r, root.evidence);
    var e :| e in root.evidence && ProvenBy(r, e);
    var i :| 0 <= i < |root.evidence| && root.evidence[i] == e;
  }

  /** Working on a task leaves the change idle, and completes that task and no other. */
  lemma WorkCompletesOne(root: Root, after: Root, c: ChangeId, step: Step, world: World)
    requires Idle(root, c, world) && Works(root, after, c, step, world)
    ensures Idle(after, c, world)
    ensures var s, t := root.states[c], after.states[c];
            && t.approvals == s.approvals && step.task in Dependencies(world.authored)
            && step.task !in s.completions && t.completions.Keys == s.completions.Keys + {step.task}
  {
    var started := Started(root, c, step, world);
    var proven := Verified(started, c, step);
    var s := root.states[c];
    WorksParts(root, after, c, step, world);
    StartStep(root, c, step, world);
    FinishStep(started, c, step, world);
    var r := Completes(proven, c, step.task, step.actor, step.finish);
    AdvancedKeeps(proven, r);
    StatesAreConsistent(root, c);
    hide Inv, Works, Misfiling, AttemptHolds, MayComplete, MayStart, Next, Ledger.Transitions;
    StateAfter(s, c, step, world, r);
  }

  /** What the two records make of the state. */
  lemma StateAfter(s: ChangeState, c: ChangeId, step: Step, world: World, r: Record)
    requires Consistent(s) && s.attempts == map[] && ReadyTask(s, step.task, world.authored)
    requires var sr := StartRecord(s, c, step.task, step.actor, step.start, world);
             && step.task in Apply(s, sr).attempts
             && r == CompletionRecord(Apply(s, sr), c, step.task, step.actor, step.finish,
                                      Apply(s, sr).attempts[step.task], step.run)
    ensures var t := Apply(Apply(s, StartRecord(s, c, step.task, step.actor, step.start, world)), r);
            && t.stage == s.stage && t.approvals == s.approvals && t.attempts == map[]
            && step.task !in s.completions && t.completions.Keys == s.completions.Keys + {step.task}
  {
  }

  lemma WorksParts(root: Root, after: Root, c: ChangeId, step: Step, world: World)
    requires Idle(root, c, world) && Works(root, after, c, step, world)
    ensures step.actor != "" && step.start != "" && step.finish != "" && step.run != ""
    ensures !Ledger.HasId(root.history, step.start) && ReadyTask(root.states[c], step.task, world.authored)
    ensures var started := Started(root, c, step, world);
            && c in started.states && !Ledger.HasId(started.evidence, step.run)
            && (Waiting(started, c).None? ==> !Ledger.HasId(started.history, step.finish))
            && var proven := Verified(started, c, step);
               && Completes(proven, c, step.task, step.actor, step.finish).change == c
               && after == Finish(proven, c, step)
  {
    hide Inv, Misfiling, Consumed, QuietSince, Authorizes;
  }

  // ---------------------------------------------------------------------------------
  // Whole runs
  // ---------------------------------------------------------------------------------

  function Longest(rs: seq<Record>): nat {
    if rs == [] then 0
    else
      var before := Longest(rs[..|rs| - 1]);
      if |rs[|rs| - 1].id| > before then |rs[|rs| - 1].id| else before
  }

  lemma {:induction false} WithinLongest(rs: seq<Record>, i: nat)
    requires i < |rs|
    ensures |rs[i].id| <= Longest(rs)
  {
    if i < |rs| - 1 { WithinLongest(rs[..|rs| - 1], i); }
  }

  /** There is always an identity that no record has. */
  lemma FreshId(rs: seq<Record>) returns (id: Id)
    ensures id != "" && !Ledger.HasId(rs, id)
  {
    id := seq(Longest(rs) + 1, _ => 'x');
    forall i | 0 <= i < |rs| ensures rs[i].id != id {
      WithinLongest(rs, i);
    }
  }

  /** As long as a task is left, one of them can be worked on. */
  lemma WorkContinues(root: Root, c: ChangeId, world: World) returns (step: Step, after: Root)
    requires Idle(root, c, world) && !Finished(root.states[c])
    ensures Works(root, after, c, step, world)
  {
    var s := root.states[c];
    StatesAreConsistent(root, c);
    AuthorizedPlan(root, c, world);
    DeclaredIsClosed(Rows(world.authored));
    var g := Dependencies(world.authored);
    assert exists m :: m in g && m !in s.completions.Keys;
    var task := Graphs.SomethingReady(g, s.completions.Keys);
    var start := FreshId(root.history);
    var run := FreshId(root.evidence);
    var actor := "x";
    step := Step(task, actor, start, run, "");
    var finish := FreshId(Started(root, c, step, world).history);
    step := Step(task, actor, start, run, finish);
    after := WorkOn(root, c, step, world);
  }

  /** Any ready task will do, with identities not yet taken. */
  lemma WorkOn(root: Root, c: ChangeId, step: Step, world: World) returns (after: Root)
    requires Idle(root, c, world) && ReadyTask(root.states[c], step.task, world.authored)
    requires step.actor != "" && step.start != "" && step.run != "" && step.finish != ""
    requires !Ledger.HasId(root.history, step.start) && !Ledger.HasId(root.evidence, step.run)
    requires !Ledger.HasId(Started(root, c, step, world).history, step.finish)
    ensures Works(root, after, c, step, world)
  {
    var started := Started(root, c, step, world);
    StartStep(root, c, step, world);
    FinishStep(started, c, step, world);
    hide Inv, Misfiling, AttemptHolds, MayComplete, MayStart, Next;
    after := Finish(Verified(started, c, step), c, step);
  }

  /** A run of work on one change, task after task. */
  ghost predicate WorkRun(roots: seq<Root>, steps: seq<Step>, c: ChangeId, world: World) {
    && |roots| == |steps| + 1
    && (forall k :: 0 <= k < |steps| ==> Works(roots[k], roots[k + 1], c, steps[k], world))
  }

  /** The tasks of the approved plan that are not completed. */
  function Remaining(s: ChangeState): set<TaskId>
    requires s.approvals != []
  {
    Dependencies(s.Approved()).Keys - s.completions.Keys
  }

  lemma FinishedMeansNone(s: ChangeState)
    requires Consistent(s) && s.approvals != []
    ensures Finished(s) <==> Remaining(s) == {}
  {
    if Remaining(s) == {} {
      forall t | t in Dependencies(s.Approved()) ensures t in s.tasks && s.tasks[t] == Completed {
        assert t !in Remaining(s);
      }
    } else {
      var t :| t in Remaining(s);
      assert t in Dependencies(s.Approved()) && t !in s.completions;
    }
  }

  /** Along a run the change stays idle between tasks, and each one takes one task off. */
  lemma {:induction false} RunTakesOff(roots: seq<Root>, steps: seq<Step>, c: ChangeId, world: World)
    requires WorkRun(roots, steps, c, world) && Idle(roots[0], c, world)
    ensures var last := roots[|roots| - 1];
            && Idle(last, c, world) && roots[0].states[c].approvals == last.states[c].approvals != []
            && |Remaining(last.states[c])| + |steps| == |Remaining(roots[0].states[c])|
  {
    hide *;
    RunParts(roots, steps, c, world);
    IdleFacts(roots[0], c, world);
    if steps != [] {
      var k := |steps| - 1;
      RunTakesOff(roots[..k + 1], steps[..k], c, world);
      IdleFacts(roots[k], c, world);
      WorkCompletesOne(roots[k], roots[k + 1], c, steps[k], world);
      IdleFacts(roots[k + 1], c, world);
      OneFewer(roots[k].states[c], roots[k + 1].states[c], steps[k].task);
    }
  }

  lemma RunParts(roots: seq<Root>, steps: seq<Step>, c: ChangeId, world: World)
    requires WorkRun(roots, steps, c, world)
    ensures |roots| == |steps| + 1
    ensures steps != [] ==>
              var k := |steps| - 1;
              && WorkRun(roots[..k + 1], steps[..k], c, world)
              && Works(roots[k], roots[k + 1], c, steps[k], world)
  {
    hide Works;
  }

  lemma IdleFacts(root: Root, c: ChangeId, world: World)
    requires Idle(root, c, world)
    ensures c in root.states && root.states[c].approvals != [] && root.states[c].Approved() == world.authored
  {
  }

  lemma OneFewer(s: ChangeState, t: ChangeState, task: TaskId)
    requires s.approvals == t.approvals != []
    requires task in Dependencies(s.Approved()) && task !in s.completions
    requires t.completions.Keys == s.completions.Keys + {task}
    ensures |Remaining(t)| + 1 == |Remaining(s)|
  {
    assert Remaining(s) == Remaining(t) + {task};
  }

  /** Never stuck, over the writers' own records: on an approved change that nobody is working on,
      every run of starts and completions can be continued as long as a task remains, and it
      finishes the plan after exactly one completion for each task that remained. */
  lemma WorkFinishes(roots: seq<Root>, steps: seq<Step>, c: ChangeId, world: World)
    requires WorkRun(roots, steps, c, world) && Idle(roots[0], c, world)
    ensures var first, last := roots[0].states[c], roots[|roots| - 1].states;
            && c in last && first.approvals != [] && last[c].approvals != []
            && |steps| <= |Remaining(first)|
            && (Finished(last[c]) <==> |steps| == |Remaining(first)|)
            && (|steps| < |Remaining(first)| <==>
                  exists step, after :: WorkRun(roots + [after], steps + [step], c, world))
  {
    var last := roots[|roots| - 1];
    RunTakesOff(roots, steps, c, world);
    LastIsConsistent(last, c, world);
    FinishedMeansNone(last.states[c]);
    if !Finished(last.states[c]) {
      var step, after := WorkContinues(last, c, world);
      LongerRun(roots, steps, c, world, step, after);
    }
    forall step, after | WorkRun(roots + [after], steps + [step], c, world)
      ensures |steps| < |Remaining(roots[0].states[c])| {
      RunTakesOff(roots + [after], steps + [step], c, world);
    }
  }

  lemma LastIsConsistent(root: Root, c: ChangeId, world: World)
    requires Idle(root, c, world)
    ensures Consistent(root.states[c])
  {
    StatesAreConsistent(root, c);
  }

  lemma LongerRun(roots: seq<Root>, steps: seq<Step>, c: ChangeId, world: World, step: Step, after: Root)
    requires WorkRun(roots, steps, c, world) && Works(roots[|roots| - 1], after, c, step, world)
    ensures WorkRun(roots + [after], steps + [step], c, world)
  {
    hide Works;
  }

  // ---------------------------------------------------------------------------------
  // A completion that friction stops
  // ---------------------------------------------------------------------------------

  const First := Task("a", [], "run a")
  const Second := Task("b", ["a"], "run b")
  const Pair := Plan([First, Second], "")
  const Now := World(Pair, "registry", "policy", Some("head"))
  const Birth := Record("1", History, CreatedKind, "c", Some(0), Some(1), "x", CreatedPayload)

  lemma PairIsSound()
    ensures Sound(Pair) && Ids(Rows(Pair)) == ["a", "b"]
    ensures Dependencies(Pair) == map["a" := [], "b" := ["a"]]
  {
    var rows := Rows(Pair);
    assert rows == [Row(First, true), Row(Second, true)];
    assert rows[..1] == [Row(First, true)] && rows[..1][..0] == [];
    assert DependencyMap(rows[..1]) == map["a" := []];
    assert Ids(rows) == ["a", "b"];
    var g := Dependencies(Pair);
    assert g == map["a" := [], "b" := ["a"]];
    assert ["a", "b"][..1] == ["a"];
    assert Graphs.TopologicalOrder(g, ["a", "b"]);
    Graphs.OrderMeansAcyclic(g, ["a", "b"]);
  }

  /** A root with one approved change, of two tasks, that nobody is working on. */
  lemma ApprovedPair() returns (root: Root)
    ensures Idle(root, "c", Now) && root.states["c"].tasks == map[] && root.states["c"].revision == 2
    ensures root.evidence == [] && !Ledger.HasId(root.history, "3") && !Ledger.HasId(root.history, "4")
    ensures !Ledger.HasId(root.history, "5")
  {
    var created := CreatedOnly();
    var state := created.states["c"];
    PairIsSound();
    ApprovalIsNext(created, "c", "x", "2", "approval", Now);
    var r := ApprovalRecord(state, "c", "x", "2", "approval", Now);
    assert !Ledger.HasId(created.history, "2") by { assert created.history[0].id == "1"; }
    AdvancedKeeps(created, r);
    root := Advanced(created, r);
    assert root.history == [Birth, r];
    hide Inv, Sound, Dependencies;
    assert forall i :: 0 <= i < |root.history| ==> root.history[i].id == "1" || root.history[i].id == "2";
  }

  lemma CreatedOnly() returns (created: Root)
    ensures created == Root([Birth], [], map["c" := ChangeState(Planning, 1, [], map[], map[], map[], "1")], None)
    ensures Inv(created) && Waiting(created, "c").None?
  {
    var empty := Root([], [], map[], None);
    EmptyIsSound();
    CreateKeeps(empty, Birth);
    var state := Fold([Birth]);
    assert [Birth][..0] == [] && state == ChangeState(Planning, 1, [], map[], map[], map[], "1");
    created := Root([Birth], [], map["c" := state], None);
    assert [] + [Birth] == [Birth] && created == empty.(history := [] + [Birth], states := map[]["c" := state]);
    TimelineWithoutJournal(created, "c");
    hide Inv;
  }

  /** The case itself: task a is in progress and proven, and would be completed; b waits for it and
      so may be the subject of friction; and once that is recorded, a cannot be completed. */
  lemma FrictionWitness() returns (root: Root)
    ensures Inv(root) && root.journal.None? && "c" in root.states && Waiting(root, "c").None?
    ensures "a" in root.states["c"].attempts
    ensures MayComplete(root, "c", "a", 3, "x", "4", Now, false, true)
    ensures MayObserve(root, "c", "b", 3, "x", "5", Now, false)
    ensures var next := root.(history := root.history + [FrictionRecord(root.states["c"], "c", "b", "x", "5")]);
            Inv(next) && !MayComplete(next, "c", "a", 3, "x", "4", Now, false, true)
  {
    hide *;
    var idle := ApprovedPair();
    var step := Step("a", "x", "3", "run", "4");
    FirstIsReady(idle);
    StartStep(idle, "c", step, Now);
    var started := Started(idle, "c", step, Now);
    StartedIds(idle, "c", step, Now, "4");
    StartedIds(idle, "c", step, Now, "5");
    StartedState(idle, step);
    FinishStep(started, "c", step, Now);
    root := Verified(started, "c", step);
    VerifiedFacts(started, "c", step);
    SecondIsStopped(root);
    FrictionStopsCompletion(root, "c", "b", 3, "x", "5", Now, false);
  }

  lemma FirstIsReady(root: Root)
    requires Idle(root, "c", Now) && root.states["c"].tasks == map[] && root.evidence == []
    ensures "c" in root.states && ReadyTask(root.states["c"], "a", Now.authored)
    ensures !Ledger.HasId(root.evidence, "run") && !Misfiling(root.evidence)
  {
    PairIsSound();
  }

  lemma StartedState(root: Root, step: Step)
    requires "c" in root.states && step.task == "a" && root.states["c"].tasks == map[] && root.states["c"].revision == 2
    ensures var s := Apply(root.states["c"],
                           StartRecord(root.states["c"], "c", step.task, step.actor, step.start, Now));
            s.tasks == map["a" := InProgress] && s.revision == 3 && "a" in s.attempts
  {
  }

  lemma VerifiedFacts(root: Root, c: ChangeId, step: Step)
    requires c in root.states
    ensures var next := Verified(root, c, step);
            next.states == root.states && next.history == root.history && next.journal == root.journal
  {
  }

  lemma SecondIsStopped(root: Root)
    requires "c" in root.states && root.states["c"].revision == 3 && root.states["c"].tasks == map["a" := InProgress]
    requires !Ledger.HasId(root.history, "5")
    ensures MayObserve(root, "c", "b", 3, "x", "5", Now, false)
  {
    PairIsSound();
    hide Sound, Dependencies, Ids, Rows, Authorizes, Ledger.HasId;
    assert ["a"][0] == "a" && "a" in ["a"];
  }

  lemma StartedIds(root: Root, c: ChangeId, step: Step, world: World, id: Id)
    requires c in root.states && !Ledger.HasId(root.history, id) && id != step.start
    ensures !Ledger.HasId(Started(root, c, step, world).history, id)
  {
    Ledger.HasIdAppend(root.history, StartRecord(root.states[c], c, step.task, step.actor, step.start, world));
  }
}
