/** The readiness projection (readiness.go, taskactivity.go) and why an approved, acyclic plan
    is never stuck. */
module Readiness {
  import opened Records
  import opened Graphs
  import opened TaskGraphs

  datatype State = Ready | WaitingDependency | WaitingApproval | Active | Terminal | Stopped

  datatype Blocker =
    | PlanInvalid | LifecycleUnsupported | ApprovalStale | NotApproved
    | TaskBlocked | TaskActive | TaskCompleted | DependencyIncomplete

  datatype TaskRow = TaskRow(
    id: TaskId, activity: Activity, state: State, wave: nat, dependencies: seq<TaskId>, blocker: Option<Blocker>)

  /** What readiness takes from the approval projection. */
  datatype ApprovalFact = ApprovalFact(current: bool, present: bool)

  datatype Classification = Frontier | AllDone | WaitingOnDependency | WaitingOnApproval | InvalidPlan | Blocked'

  datatype Model = Model(
    tasks: seq<TaskRow>, frontier: seq<TaskId>, planInvalid: bool, primary: Option<Blocker>, global: Option<Blocker>)
  {
    predicate InFrontier(id: TaskId) {
      id in frontier
    }

    function Task(id: TaskId): Option<TaskRow> {
      Find(tasks, id)
    }

    predicate AllComplete() {
      !planInvalid && global.None? && forall row :: row in tasks ==> row.activity == Completed
    }

    function Outcome(): Classification {
      if frontier != [] then Frontier
      else if AllComplete() then AllDone
      else
        match primary
        case None => InvalidPlan
        case Some(PlanInvalid) => InvalidPlan
        case Some(ApprovalStale) => WaitingOnApproval
        case Some(NotApproved) => WaitingOnApproval
        case Some(DependencyIncomplete) => WaitingOnDependency
        case Some(_) => Blocked'
    }
  }

  function Find(rows: seq<TaskRow>, id: TaskId): Option<TaskRow> {
    if rows == [] then None
    else if rows[0].id == id then Some(rows[0])
    else Find(rows[1..], id)
  }

  function Rank(b: Option<Blocker>): nat {
    match b
    case None => 99
    case Some(PlanInvalid) => 0
    case Some(LifecycleUnsupported) => 1
    case Some(ApprovalStale) => 2
    case Some(NotApproved) => 3
    case Some(TaskBlocked) => 4
    case Some(TaskActive) => 5
    case Some(TaskCompleted) => 6
    case Some(DependencyIncomplete) => 7
  }

  function ApprovalBlocker(stage: Stage, approval: ApprovalFact): Option<Blocker> {
    match stage
    case Approved =>
      if approval.current then None
      else if approval.present then Some(ApprovalStale) else Some(NotApproved)
    case Planning => if approval.present then Some(ApprovalStale) else Some(NotApproved)
    case _ => Some(LifecycleUnsupported)
  }

  /** Missing entries of the persisted activities read as pending. */
  function ActivityOf(persisted: map<TaskId, Activity>, id: TaskId): Activity {
    if id in persisted then persisted[id] else Pending
  }

  predicate DependenciesDone(persisted: map<TaskId, Activity>, dependencies: seq<TaskId>) {
    forall d :: d in dependencies ==> ActivityOf(persisted, d) == Completed
  }

  function Derive(persisted: map<TaskId, Activity>, id: TaskId, dependencies: seq<TaskId>, global: Option<Blocker>)
    : (State, Option<Blocker>)
  {
    if global.Some? then (WaitingApproval, global)
    else
      match ActivityOf(persisted, id)
      case Blocked => (Stopped, Some(TaskBlocked))
      case Failed => (Stopped, Some(TaskBlocked))
      case InProgress => (Active, Some(TaskActive))
      case Completed => (Terminal, Some(TaskCompleted))
      case Pending =>
        if DependenciesDone(persisted, dependencies) then (Ready, None)
        else (WaitingDependency, Some(DependencyIncomplete))
  }

  /** The rows a valid plan projects to. */
  function RowFor(graph: TaskGraph, persisted: map<TaskId, Activity>, global: Option<Blocker>, id: TaskId): TaskRow
    requires id in graph.dependencies && id in graph.wave
  {
    var (state, blocker) := Derive(persisted, id, graph.dependencies[id], global);
    TaskRow(id, ActivityOf(persisted, id), state, graph.wave[id], graph.dependencies[id], blocker)
  }

  const InvalidModel := Model([], [], true, Some(PlanInvalid), Some(PlanInvalid))

  /** The rows of the first tasks, in authored order. */
  ghost predicate RowsAre(tasks: seq<TaskRow>, graph: TaskGraph, persisted: map<TaskId, Activity>,
                          global: Option<Blocker>) {
    && |tasks| <= |graph.authored|
    && (forall k {:trigger tasks[k]} :: 0 <= k < |tasks| ==>
          var id := graph.authored[k];
          id in graph.dependencies && id in graph.wave && tasks[k] == RowFor(graph, persisted, global, id))
  }

  /** The best-ranked blocker, the global one winning ties. */
  ghost predicate MostSevere(primary: Option<Blocker>, tasks: seq<TaskRow>, global: Option<Blocker>) {
    && (primary == global || exists row :: row in tasks && row.blocker == primary)
    && Rank(primary) <= Rank(global)
    && (forall row :: row in tasks ==> Rank(primary) <= Rank(row.blocker))
  }

  /** A faithful projection: one row per task, the frontier its ready rows in authored order,
      and a primary blocker no row and no global blocker outranks. */
  ghost predicate Projects(model: Model, graph: TaskGraph, persisted: map<TaskId, Activity>, global: Option<Blocker>) {
    && !model.planInvalid && model.global == global
    && |model.tasks| == |graph.authored|
    && RowsAre(model.tasks, graph, persisted, global)
    && model.frontier == ReadyIds(model.tasks)
    && MostSevere(model.primary, model.tasks, global)
  }

  function ReadyIds(rows: seq<TaskRow>): seq<TaskId> {
    if rows == [] then []
    else
      var last := rows[|rows| - 1];
      ReadyIds(rows[..|rows| - 1]) + (if last.state == Ready then [last.id] else [])
  }

  lemma {:induction false} ReadyIdsMembers(rows: seq<TaskRow>)
    ensures forall id :: id in ReadyIds(rows) <==>
              exists k :: 0 <= k < |rows| && rows[k].id == id && rows[k].state == Ready
  {
    if rows != [] {
      var before := rows[..|rows| - 1];
      ReadyIdsMembers(before);
      forall id ensures id in ReadyIds(rows) <==>
        exists k :: 0 <= k < |rows| && rows[k].id == id && rows[k].state == Ready {
        if k :| 0 <= k < |before| && before[k].id == id && before[k].state == Ready {
          assert rows[k].id == id && rows[k].state == Ready;
        }
      }
    }
  }

  /** ProjectTaskActivities: persisted activities may only name known tasks. */
  method CheckActivities(authored: seq<TaskId>, persisted: map<TaskId, Activity>) returns (ok: bool)
    ensures ok <==> forall id :: id in persisted ==> id in authored
  {
    var todo := persisted.Keys;
    ok := true;
    while todo != {}
      invariant todo <= persisted.Keys
      invariant ok <==> forall id :: id in persisted.Keys - todo ==> id in authored
      decreases todo
    {
      var id :| id in todo;
      if id !in authored { ok := false; }
      todo := todo - {id};
    }
  }

  /** ProjectReadiness: an invalid plan projects to nothing; any other to a faithful model. */
  method ProjectReadiness(rows: seq<Row>, diagnosed: bool, persisted: map<TaskId, Activity>, stage: Stage,
                          approval: ApprovalFact)
    returns (model: Model, ghost graph: TaskGraph)
    ensures if !diagnosed && Declared(rows) && !Cyclic(DependencyMap(rows))
            && (forall id :: id in persisted ==> id in Ids(rows))
            then
              && Projects(model, graph, persisted, ApprovalBlocker(stage, approval))
              && graph.authored == Ids(rows) && graph.dependencies == DependencyMap(rows)
              && TopologicalOrder(graph.dependencies, graph.order) && Levelled(graph.dependencies, graph.wave)
            else model == InvalidModel
    ensures !model.planInvalid ==> forall id :: model.InFrontier(id) <==>
              && ApprovalBlocker(stage, approval).None? && id in DependencyMap(rows)
              && ActivityOf(persisted, id) == Pending && DependenciesDone(persisted, DependencyMap(rows)[id])
  {
    var built := BuildTaskGraph(rows, diagnosed);
    graph := TaskGraph([], [], [], map[], map[], map[]);
    if built.Err? { return InvalidModel, graph; }
    var known := CheckActivities(built.value.authored, persisted);
    if !known { return InvalidModel, graph; }
    DependencyMapAt(rows);
    graph := built.value;
    model := Assemble(built.value, persisted, ApprovalBlocker(stage, approval));
    FrontierIs(model, graph, persisted, ApprovalBlocker(stage, approval));
  }

  lemma RowsAppend(tasks: seq<TaskRow>, graph: TaskGraph, persisted: map<TaskId, Activity>, global: Option<Blocker>)
    requires RowsAre(tasks, graph, persisted, global) && |tasks| < |graph.authored|
    requires graph.authored[|tasks|] in graph.dependencies && graph.authored[|tasks|] in graph.wave
    ensures RowsAre(tasks + [RowFor(graph, persisted, global, graph.authored[|tasks|])], graph, persisted, global)
  {
    hide RowFor;
    var last := RowFor(graph, persisted, global, graph.authored[|tasks|]);
    var more := tasks + [last];
    forall k | 0 <= k < |more|
      ensures var id := graph.authored[k];
              id in graph.dependencies && id in graph.wave && more[k] == RowFor(graph, persisted, global, id)
    {
      assert more[k] == if k < |tasks| then tasks[k] else last;
    }
  }

  lemma SeverestAppend(primary: Option<Blocker>, tasks: seq<TaskRow>, global: Option<Blocker>, row: TaskRow)
    requires MostSevere(primary, tasks, global)
    ensures MostSevere(if Rank(row.blocker) < Rank(primary) then row.blocker else primary, tasks + [row], global)
  {
    var after := if Rank(row.blocker) < Rank(primary) then row.blocker else primary;
    assert row in tasks + [row];
    if primary != global && after == primary {
      var old' :| old' in tasks && old'.blocker == primary;
      assert old' in tasks + [row];
    }
  }

  ghost predicate Assembled(tasks: seq<TaskRow>, frontier: seq<TaskId>, primary: Option<Blocker>,
                            graph: TaskGraph, persisted: map<TaskId, Activity>, global: Option<Blocker>)
  {
    RowsAre(tasks, graph, persisted, global) && frontier == ReadyIds(tasks) && MostSevere(primary, tasks, global)
  }

  lemma AssembledNext(tasks: seq<TaskRow>, frontier: seq<TaskId>, primary: Option<Blocker>,
                      graph: TaskGraph, persisted: map<TaskId, Activity>, global: Option<Blocker>)
    requires Assembled(tasks, frontier, primary, graph, persisted, global) && |tasks| < |graph.authored|
    requires graph.authored[|tasks|] in graph.dependencies && graph.authored[|tasks|] in graph.wave
    ensures var row := RowFor(graph, persisted, global, graph.authored[|tasks|]);
            Assembled(tasks + [row], if row.state == Ready then frontier + [row.id] else frontier,
                      if row.state != Ready && Rank(row.blocker) < Rank(primary) then row.blocker else primary,
                      graph, persisted, global)
  {
    hide RowsAre, MostSevere;
    var row := RowFor(graph, persisted, global, graph.authored[|tasks|]);
    RowsAppend(tasks, graph, persisted, global);
    SeverestAppend(primary, tasks, global, row);
    assert (tasks + [row])[..|tasks|] == tasks;
    ReadyHasNoBlocker(graph, persisted, global, graph.authored[|tasks|], primary);
  }

  lemma ReadyHasNoBlocker(graph: TaskGraph, persisted: map<TaskId, Activity>, global: Option<Blocker>, id: TaskId,
                          primary: Option<Blocker>)
    requires id in graph.dependencies && id in graph.wave
    ensures var row := RowFor(graph, persisted, global, id);
            row.state == Ready ==> row.blocker.None? && !(Rank(row.blocker) < Rank(primary))
  {
  }

  method Assemble(graph: TaskGraph, persisted: map<TaskId, Activity>, global: Option<Blocker>) returns (model: Model)
    requires forall id :: id in graph.authored ==> id in graph.dependencies && id in graph.wave
    ensures Projects(model, graph, persisted, global)
  {
    var tasks: seq<TaskRow>, frontier: seq<TaskId>, primary := [], [], global;
    for k := 0 to |graph.authored|
      invariant |tasks| == k && Assembled(tasks, frontier, primary, graph, persisted, global)
    {
      hide *;
      var id := graph.authored[k];
      assert id in graph.authored;
      AssembledNext(tasks, frontier, primary, graph, persisted, global);
      var row := RowFor(graph, persisted, global, id);
      if row.state == Ready {
        frontier := frontier + [row.id];
      } else if Rank(row.blocker) < Rank(primary) {
        primary := row.blocker;
      }
      tasks := tasks + [row];
    }
    return Model(tasks, frontier, false, primary, global);
  }

  // ---------------------------------------------------------------------------------
  // Never stuck
  // ---------------------------------------------------------------------------------

  lemma RowOf(model: Model, graph: TaskGraph, persisted: map<TaskId, Activity>, global: Option<Blocker>, id: TaskId)
    requires Projects(model, graph, persisted, global) && id in graph.authored
    ensures id in graph.dependencies && id in graph.wave
    ensures RowFor(graph, persisted, global, id) in model.tasks
  {
    var k :| 0 <= k < |graph.authored| && graph.authored[k] == id;
    assert model.tasks[k] in model.tasks;
  }

  /** The frontier is exactly the pending tasks whose dependencies are completed. */
  lemma FrontierIs(model: Model, graph: TaskGraph, persisted: map<TaskId, Activity>, global: Option<Blocker>)
    requires Projects(model, graph, persisted, global)
    ensures forall id :: id in graph.authored ==> id in graph.dependencies
    ensures forall id :: model.InFrontier(id) <==>
              && global.None? && id in graph.authored && ActivityOf(persisted, id) == Pending
              && DependenciesDone(persisted, graph.dependencies[id])
  {
    ReadyIdsMembers(model.tasks);
    forall id | id in graph.authored ensures id in graph.dependencies {
      RowOf(model, graph, persisted, global, id);
    }
    forall id ensures model.InFrontier(id) <==>
              && global.None? && id in graph.authored && ActivityOf(persisted, id) == Pending
              && DependenciesDone(persisted, graph.dependencies[id])
    {
      if k :| 0 <= k < |graph.authored| && graph.authored[k] == id {
        RowOf(model, graph, persisted, global, id);
      }
      if k :| 0 <= k < |model.tasks| && model.tasks[k].id == id && model.tasks[k].state == Ready {
        assert graph.authored[k] == id;
      }
    }
  }

  lemma {:induction false} FindRow(rows: seq<TaskRow>, id: TaskId)
    ensures match Find(rows, id)
            case Some(row) => row in rows && row.id == id
            case None => forall row :: row in rows ==> row.id != id
  {
    if rows != [] {
      FindRow(rows[1..], id);
      assert rows == [rows[0]] + rows[1..];
    }
  }

  /** Looking a task up gives its row, and only declared tasks have one. */
  lemma TaskRowIs(model: Model, graph: TaskGraph, persisted: map<TaskId, Activity>, global: Option<Blocker>, id: TaskId)
    requires Projects(model, graph, persisted, global)
    ensures id in graph.authored ==> id in graph.dependencies && id in graph.wave
    ensures model.Task(id) == if id in graph.authored then Some(RowFor(graph, persisted, global, id)) else None
  {
    FindRow(model.tasks, id);
    if id in graph.authored { RowOf(model, graph, persisted, global, id); }
    if row :| row in model.tasks && row.id == id {
      RowsComeFromTasks(model, graph, persisted, global, row);
    }
    match model.Task(id)
    case Some(row) => RowsComeFromTasks(model, graph, persisted, global, row);
    case None =>
  }

  /** In dependency order, the first task that is not completed waits for nothing. */
  lemma {:induction false} FirstIncomplete(g: Graph<TaskId>, order: seq<TaskId>, persisted: map<TaskId, Activity>,
                                           k: nat)
    returns (id: TaskId)
    requires TopologicalOrder(g, order) && k < |order| && ActivityOf(persisted, order[k]) != Completed
    ensures id in g && ActivityOf(persisted, id) != Completed && DependenciesDone(persisted, g[id])
    decreases k
  {
    if j :| 0 <= j < k && ActivityOf(persisted, order[j]) != Completed {
      id := FirstIncomplete(g, order, persisted, j);
    } else {
      id := order[k];
      forall d | d in g[id] ensures ActivityOf(persisted, d) == Completed {
        assert d in order[..k];
      }
    }
  }

  lemma RowsComeFromTasks(model: Model, graph: TaskGraph, persisted: map<TaskId, Activity>, global: Option<Blocker>,
                          row: TaskRow)
    requires Projects(model, graph, persisted, global) && row in model.tasks
    ensures row.id in graph.authored && row.activity == ActivityOf(persisted, row.id)
    ensures row.id in graph.dependencies && row.id in graph.wave && row == RowFor(graph, persisted, global, row.id)
  {
    var k :| 0 <= k < |model.tasks| && model.tasks[k] == row;
    assert graph.authored[k] in graph.authored;
  }

  /** Some task incomplete: either one is ready or something stronger than a dependency is
      the primary blocker. */
  lemma SomethingIncomplete(model: Model, graph: TaskGraph, persisted: map<TaskId, Activity>, left: TaskId)
    requires Projects(model, graph, persisted, None) && TopologicalOrder(graph.dependencies, graph.order)
    requires forall id :: id in graph.authored <==> id in graph.dependencies
    requires left in graph.authored && ActivityOf(persisted, left) != Completed
    ensures exists id :: && id in graph.authored && ActivityOf(persisted, id) != Completed
                         && (ActivityOf(persisted, id) == Pending ==> model.InFrontier(id))
    ensures model.frontier != [] || Rank(model.primary) <= 5
    ensures !model.AllComplete()
  {
    assert left in graph.order;
    var k :| 0 <= k < |graph.order| && graph.order[k] == left;
    var id := FirstIncomplete(graph.dependencies, graph.order, persisted, k);
    RowOf(model, graph, persisted, None, id);
    RowOf(model, graph, persisted, None, left);
    FrontierIs(model, graph, persisted, None);
    var row := RowFor(graph, persisted, None, id);
    assert row in model.tasks;
  }

  /** A valid plan under current approval never waits on a dependency alone: some task is
      ready, everything is complete, or a task in progress, failed or blocked is in the way. */
  lemma NeverWaitingOnDependency(model: Model, graph: TaskGraph, persisted: map<TaskId, Activity>)
    requires Projects(model, graph, persisted, None) && TopologicalOrder(graph.dependencies, graph.order)
    requires forall id :: id in graph.authored <==> id in graph.dependencies
    ensures model.Outcome() != WaitingOnDependency
    ensures model.Outcome() == AllDone <==> forall id :: id in graph.authored ==> ActivityOf(persisted, id) == Completed
    ensures (forall id :: id in graph.authored ==> ActivityOf(persisted, id) in {Pending, Completed}) ==>
              model.Outcome() == Frontier || model.Outcome() == AllDone
  {
    if left :| left in graph.authored && ActivityOf(persisted, left) != Completed {
      SomethingIncomplete(model, graph, persisted, left);
    } else {
      FrontierIs(model, graph, persisted, None);
      forall row | row in model.tasks ensures row.activity == Completed {
        RowsComeFromTasks(model, graph, persisted, None, row);
      }
      if model.frontier != [] {
        assert model.InFrontier(model.frontier[0]);
      }
    }
  }

  /** A run of completions: each task is completed once its dependencies are. */
  ghost predicate CompletionRun(g: Graph<TaskId>, done: set<TaskId>, picks: seq<TaskId>) {
    forall k :: 0 <= k < |picks| ==>
      && picks[k] in g && picks[k] !in done && picks[k] !in picks[..k]
      && forall d :: d in g[picks[k]] ==> d in done || d in picks[..k]
  }

  /** From any set of completed tasks closed under dependencies, every run can be continued
      until the plan is complete, and then it has exactly one step per remaining task. */
  lemma RunsComplete(g: Graph<TaskId>, order: seq<TaskId>, done: set<TaskId>, picks: seq<TaskId>)
    requires TopologicalOrder(g, order) && done <= g.Keys && CompletionRun(g, done, picks)
    ensures |picks| <= |g.Keys - done|
    ensures |picks| < |g.Keys - done| <==> exists next :: CompletionRun(g, done, picks + [next])
    ensures |picks| == |g.Keys - done| ==> done + Elements(picks) == g.Keys
  {
    var left := g.Keys - done;
    assert Distinct(picks) by {
      forall i, j | 0 <= i < j < |picks| ensures picks[i] != picks[j] {
        assert picks[i] in picks[..j];
      }
    }
    DistinctCount(picks);
    assert Elements(picks) <= left;
    SubsetSize(Elements(picks), left);
    if |picks| < |left| {
      var more := RunExtends(g, order, done, picks);
    }
    if next :| CompletionRun(g, done, picks + [next]) {
      RunTooLong(g, done, picks, next);
    }
  }

  lemma RunTooLong(g: Graph<TaskId>, done: set<TaskId>, picks: seq<TaskId>, next: TaskId)
    requires CompletionRun(g, done, picks + [next]) && Distinct(picks)
    ensures |picks| < |g.Keys - done|
  {
    var more := picks + [next];
    assert more[|picks|] == next && more[..|picks|] == picks;
    assert Distinct(more);
    DistinctCount(more);
    forall id | id in Elements(more) ensures id in g.Keys - done {
      var k :| 0 <= k < |more| && more[k] == id;
    }
    SubsetSize(Elements(more), g.Keys - done);
  }

  lemma RunExtends(g: Graph<TaskId>, order: seq<TaskId>, done: set<TaskId>, picks: seq<TaskId>) returns (next: TaskId)
    requires TopologicalOrder(g, order) && done <= g.Keys && CompletionRun(g, done, picks)
    requires |Elements(picks)| < |g.Keys - done|
    ensures CompletionRun(g, done, picks + [next])
  {
    var left := g.Keys - done;
    if left <= Elements(picks) { SubsetSize(left, Elements(picks)); }
    var some :| some in left && some !in Elements(picks);
    var marks: map<TaskId, Activity> := map id | id in done + Elements(picks) :: Completed;
    assert some in order;
    var k :| 0 <= k < |order| && order[k] == some;
    next := FirstIncomplete(g, order, marks, k);
    var more := picks + [next];
    forall j | 0 <= j < |more|
      ensures more[j] in g && more[j] !in done && more[j] !in more[..j]
      ensures forall d :: d in g[more[j]] ==> d in done || d in more[..j]
    {
      if j < |picks| {
        assert more[..j] == picks[..j];
      } else {
        assert more[..j] == picks;
        forall d | d in g[next] ensures d in done || d in picks {
          assert ActivityOf(marks, d) == Completed;
        }
      }
    }
  }
}
