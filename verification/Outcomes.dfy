/** What the readiness projection reports, case by case: the state of every row, the primary blocker
    and the classification, for every stage and approval (readiness.go). */
module Outcomes {
  import opened Records
  import opened Graphs
  import opened TaskGraphs
  import opened Readiness

  /** A row says what its task waits for. */
  lemma RowExactly(model: Model, graph: TaskGraph, persisted: map<TaskId, Activity>, global: Option<Blocker>,
                   id: TaskId)
    requires Projects(model, graph, persisted, global) && id in graph.authored
    ensures id in graph.dependencies && id in graph.wave && model.Task(id).Some?
    ensures var row, activity := model.Task(id).value, ActivityOf(persisted, id);
            var done := DependenciesDone(persisted, graph.dependencies[id]);
            && row.id == id && row.activity == activity && row.wave == graph.wave[id]
            && row.dependencies == graph.dependencies[id]
            && (row.state == WaitingApproval <==> global.Some?)
            && (global.Some? ==> row.blocker == global)
            && (row.state == Ready <==> global.None? && activity == Pending && done && row.blocker.None?)
            && (row.state == WaitingDependency <==>
                  global.None? && activity == Pending && !done && row.blocker == Some(DependencyIncomplete))
            && (row.state == Active <==> global.None? && activity == InProgress && row.blocker == Some(TaskActive))
            && (row.state == Terminal <==> global.None? && activity == Completed && row.blocker == Some(TaskCompleted))
            && (row.state == Stopped <==>
                  global.None? && (activity == Failed || activity == Blocked) && row.blocker == Some(TaskBlocked))
  {
    TaskRowIs(model, graph, persisted, global, id);
  }

  /** Some task of the plan is in one of these activities. */
  ghost predicate SomeIn(graph: TaskGraph, persisted: map<TaskId, Activity>, activities: set<Activity>) {
    exists id :: id in graph.authored && ActivityOf(persisted, id) in activities
  }

  ghost predicate SomeReady(graph: TaskGraph, persisted: map<TaskId, Activity>) {
    exists id :: id in graph.authored && id in graph.dependencies && ActivityOf(persisted, id) == Pending
                 && DependenciesDone(persisted, graph.dependencies[id])
  }

  ghost predicate SomeWaiting(graph: TaskGraph, persisted: map<TaskId, Activity>) {
    exists id :: id in graph.authored && id in graph.dependencies && ActivityOf(persisted, id) == Pending
                 && !DependenciesDone(persisted, graph.dependencies[id])
  }

  /** A global blocker is on every row, and is the primary one. */
  lemma GlobalIsPrimary(model: Model, graph: TaskGraph, persisted: map<TaskId, Activity>, global: Option<Blocker>)
    requires Projects(model, graph, persisted, global) && global.Some?
    ensures model.primary == global && model.frontier == [] && !model.AllComplete()
  {
    forall row | row in model.tasks ensures row.blocker == global {
      RowsComeFromTasks(model, graph, persisted, global, row);
    }
    FrontierIs(model, graph, persisted, global);
    if model.frontier != [] { assert model.InFrontier(model.frontier[0]); }
  }

  lemma BlockersSeen(model: Model, graph: TaskGraph, persisted: map<TaskId, Activity>, b: Blocker)
    requires Projects(model, graph, persisted, None)
    ensures (exists row :: row in model.tasks && row.blocker == Some(b)) <==>
            match b
            case TaskBlocked => SomeIn(graph, persisted, {Failed, Blocked})
            case TaskActive => SomeIn(graph, persisted, {InProgress})
            case TaskCompleted => SomeIn(graph, persisted, {Completed})
            case DependencyIncomplete => SomeWaiting(graph, persisted)
            case _ => false
  {
    hide Projects;
    SeenOnRows(model, graph, persisted, b);
    forall id | id in graph.authored
      ensures id in graph.dependencies && id in graph.wave
      ensures BlockedBy(graph, persisted, id, b) <==>
              match b
              case TaskBlocked => ActivityOf(persisted, id) in {Failed, Blocked}
              case TaskActive => ActivityOf(persisted, id) == InProgress
              case TaskCompleted => ActivityOf(persisted, id) == Completed
              case DependencyIncomplete =>
                ActivityOf(persisted, id) == Pending && !DependenciesDone(persisted, graph.dependencies[id])
              case _ => false
    {
      RowOf(model, graph, persisted, None, id);
    }
    hide BlockedBy, DependenciesDone;
  }

  ghost predicate BlockedBy(graph: TaskGraph, persisted: map<TaskId, Activity>, id: TaskId, b: Blocker) {
    && id in graph.authored && id in graph.dependencies && id in graph.wave
    && RowFor(graph, persisted, None, id).blocker == Some(b)
  }

  lemma SeenOnRows(model: Model, graph: TaskGraph, persisted: map<TaskId, Activity>, b: Blocker)
    requires Projects(model, graph, persisted, None)
    ensures (exists row :: row in model.tasks && row.blocker == Some(b)) <==>
            exists id :: BlockedBy(graph, persisted, id, b)
  {
    hide Projects, RowFor;
    if row :| row in model.tasks && row.blocker == Some(b) {
      RowsComeFromTasks(model, graph, persisted, None, row);
      assert BlockedBy(graph, persisted, row.id, b);
    }
    if id :| BlockedBy(graph, persisted, id, b) {
      RowOf(model, graph, persisted, None, id);
    }
  }

  /** With the approval current, a stopped task comes first, then one in progress, then a completed
      one, and an open dependency last. */
  lemma PrimaryExactly(model: Model, graph: TaskGraph, persisted: map<TaskId, Activity>)
    requires Projects(model, graph, persisted, None)
    ensures model.primary ==
            if SomeIn(graph, persisted, {Failed, Blocked}) then Some(TaskBlocked)
            else if SomeIn(graph, persisted, {InProgress}) then Some(TaskActive)
            else if SomeIn(graph, persisted, {Completed}) then Some(TaskCompleted)
            else if SomeWaiting(graph, persisted) then Some(DependencyIncomplete)
            else None
  {
    hide SomeIn, SomeWaiting, RowsAre;
    forall b ensures (exists row :: row in model.tasks && row.blocker == Some(b)) <==>
                     match b
                     case TaskBlocked => SomeIn(graph, persisted, {Failed, Blocked})
                     case TaskActive => SomeIn(graph, persisted, {InProgress})
                     case TaskCompleted => SomeIn(graph, persisted, {Completed})
                     case DependencyIncomplete => SomeWaiting(graph, persisted)
                     case _ => false
    {
      BlockersSeen(model, graph, persisted, b);
    }
  }

  /** The classification, for every stage and approval: outside planning and approval the lifecycle
      blocks; a plan without current approval waits for it; and otherwise there is a ready task, or
      all are completed, or a task is in the way. */
  lemma OutcomeExactly(model: Model, graph: TaskGraph, persisted: map<TaskId, Activity>, stage: Stage,
                       fact: ApprovalFact)
    requires Projects(model, graph, persisted, ApprovalBlocker(stage, fact))
    requires TopologicalOrder(graph.dependencies, graph.order)
    requires forall id :: id in graph.authored <==> id in graph.dependencies
    ensures model.Outcome() ==
            match stage
            case Planning => WaitingOnApproval
            case Approved =>
              if !fact.current then WaitingOnApproval
              else if SomeReady(graph, persisted) then Frontier
              else if !SomeIn(graph, persisted, {Pending, InProgress, Failed, Blocked}) then AllDone
              else Blocked'
            case _ => Blocked'
    ensures stage == Planning || (stage == Approved && !fact.current) ==>
              model.primary == Some(if fact.present then ApprovalStale else NotApproved)
    ensures stage != Planning && stage != Approved ==> model.primary == Some(LifecycleUnsupported)
  {
    var global := ApprovalBlocker(stage, fact);
    if global.Some? {
      GlobalIsPrimary(model, graph, persisted, global);
    } else {
      CurrentOutcome(model, graph, persisted);
    }
  }

  lemma CurrentOutcome(model: Model, graph: TaskGraph, persisted: map<TaskId, Activity>)
    requires Projects(model, graph, persisted, None) && TopologicalOrder(graph.dependencies, graph.order)
    requires forall id :: id in graph.authored <==> id in graph.dependencies
    ensures model.Outcome() ==
            if SomeReady(graph, persisted) then Frontier
            else if !SomeIn(graph, persisted, {Pending, InProgress, Failed, Blocked}) then AllDone
            else Blocked'
  {
    hide Projects, TopologicalOrder, SomeReady, SomeIn, SomeWaiting, Model.AllComplete;
    FrontierIsReady(model, graph, persisted);
    NeverWaitingOnDependency(model, graph, persisted);
    PrimaryExactly(model, graph, persisted);
    if left :| left in graph.authored && ActivityOf(persisted, left) != Completed {
      SomethingIncomplete(model, graph, persisted, left);
    }
    AnyActivity(graph, persisted);
  }

  lemma AnyActivity(graph: TaskGraph, persisted: map<TaskId, Activity>)
    ensures SomeIn(graph, persisted, {Pending, InProgress, Failed, Blocked}) <==>
            !(forall id :: id in graph.authored ==> ActivityOf(persisted, id) == Completed)
  {
  }

  lemma FrontierIsReady(model: Model, graph: TaskGraph, persisted: map<TaskId, Activity>)
    requires Projects(model, graph, persisted, None)
    ensures model.frontier != [] <==> SomeReady(graph, persisted)
  {
    FrontierIs(model, graph, persisted, None);
    hide Projects, DependenciesDone;
    if model.frontier != [] { assert model.InFrontier(model.frontier[0]); }
  }

  /** An invalid plan is classified as such. */
  lemma InvalidOutcome()
    ensures InvalidModel.Outcome() == InvalidPlan && InvalidModel.primary == Some(PlanInvalid)
  {
  }
}
