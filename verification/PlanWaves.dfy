/** projectTaskWaves (plan/tasks.go): the planner's own duplicate, dependency and cycle
    checks, the invalidation of everything that rests on a bad row, and the layers. */
module PlanWaves {
  import opened Records
  import opened Graphs
  import opened Search
  import opened TaskGraphs

  datatype Diagnostic =
    | DuplicateRow(row: nat) | SelfRow(row: nat) | UnknownRow(row: nat) | CycleRows(path: seq<nat>)

  // ---------------------------------------------------------------------------------
  // Declared rows
  // ---------------------------------------------------------------------------------

  /** The rows that declare `id`, in authored order. */
  function RowsOf(tasks: seq<Task>, id: TaskId): (at: seq<nat>)
    ensures forall i: nat :: i in at <==> i < |tasks| && tasks[i].id == id && id != ""
  {
    if tasks == [] || id == "" then []
    else
      var last := |tasks| - 1;
      var before := RowsOf(tasks[..last], id);
      if tasks[last].id == id then before + [last] else before
  }

  function At(declared: map<TaskId, seq<nat>>, id: TaskId): seq<nat> {
    if id in declared then declared[id] else []
  }

  ghost predicate Collected(declared: map<TaskId, seq<nat>>, tasks: seq<Task>) {
    forall id: TaskId :: At(declared, id) == RowsOf(tasks, id)
  }

  lemma CollectNext(declared: map<TaskId, seq<nat>>, tasks: seq<Task>, task: Task)
    requires Collected(declared, tasks)
    ensures Collected(if task.id == "" then declared
                      else declared[task.id := At(declared, task.id) + [|tasks|]], tasks + [task])
  {
    var more := tasks + [task];
    assert more[..|tasks|] == tasks;
    forall id: TaskId
      ensures RowsOf(more, id) == RowsOf(tasks, id) + (if id == task.id && id != "" then [|tasks|] else [])
    {
    }
  }

  method CollectDeclared(tasks: seq<Task>) returns (declared: map<TaskId, seq<nat>>)
    ensures Collected(declared, tasks)
  {
    declared := map[];
    for i := 0 to |tasks|
      invariant Collected(declared, tasks[..i])
    {
      CollectNext(declared, tasks[..i], tasks[i]);
      assert tasks[..i + 1] == tasks[..i] + [tasks[i]];
      var id := tasks[i].id;
      if id != "" {
        declared := declared[id := At(declared, id) + [i]];
      }
    }
    assert tasks[..|tasks|] == tasks;
  }

  // ---------------------------------------------------------------------------------
  // invalidateDependentTasks
  // ---------------------------------------------------------------------------------

  function Flagged(valid: seq<bool>): set<nat> {
    set i | 0 <= i < |valid| && valid[i]
  }

  /** Row `i` rests only on rows of `s`, each declared exactly once. */
  predicate RestsOn(tasks: seq<Task>, s: set<nat>, i: nat)
    requires i < |tasks|
  {
    forall d :: d in tasks[i].dependsOn ==> |RowsOf(tasks, d)| == 1 && RowsOf(tasks, d)[0] in s
  }

  ghost predicate Supported(tasks: seq<Task>, s: set<nat>) {
    forall i :: i in s ==> i < |tasks| && RestsOn(tasks, s, i)
  }

  /** `s` is the largest supported set among the rows of `from`. */
  ghost predicate GreatestSupported(tasks: seq<Task>, from: set<nat>, s: set<nat>) {
    && Supported(tasks, s) && s <= from
    && (forall t: set<nat> :: Supported(tasks, t) && t <= from ==> t <= s)
  }

  /** One row: does every dependency have one declaring row, still valid? */
  method RowStands(tasks: seq<Task>, declared: map<TaskId, seq<nat>>, valid: array<bool>, i: nat) returns (stands: bool)
    requires valid.Length == |tasks| && i < |tasks| && Collected(declared, tasks)
    ensures stands <==> RestsOn(tasks, Flagged(valid[..]), i)
  {
    var ds := tasks[i].dependsOn;
    for k := 0 to |ds|
      invariant forall j :: 0 <= j < k ==> |RowsOf(tasks, ds[j])| == 1 && RowsOf(tasks, ds[j])[0] in Flagged(valid[..])
    {
      var at := At(declared, ds[k]);
      assert at == RowsOf(tasks, ds[k]) && ds[k] in tasks[i].dependsOn;
      if |at| != 1 { return false; }
      assert at[0] in at;
      if !valid[at[0]] { return false; }
    }
    return true;
  }

  /** No supported set among `from` has been cut into. */
  ghost predicate Spares(tasks: seq<Task>, from: set<nat>, now: set<nat>) {
    forall t: set<nat> :: Supported(tasks, t) && t <= from ==> t <= now
  }

  lemma DropRow(tasks: seq<Task>, from: set<nat>, now: set<nat>, i: nat)
    requires i < |tasks| && Spares(tasks, from, now) && !RestsOn(tasks, now, i)
    ensures Spares(tasks, from, now - {i})
  {
    forall t: set<nat> | Supported(tasks, t) && t <= from ensures t <= now - {i} {
      assert t <= now;
      if RestsOn(tasks, t, i) {
        RestsOnMonotone(tasks, t, now, i);
      }
    }
  }

  /** One pass of the fixpoint loop. */
  method InvalidatePass(tasks: seq<Task>, declared: map<TaskId, seq<nat>>, valid: array<bool>, ghost from: set<nat>)
    returns (changed: bool)
    requires valid.Length == |tasks| && Collected(declared, tasks) && Spares(tasks, from, Flagged(valid[..]))
    modifies valid
    ensures Spares(tasks, from, Flagged(valid[..]))
    ensures if changed then Flagged(valid[..]) < old(Flagged(valid[..]))
            else Flagged(valid[..]) == old(Flagged(valid[..])) && Supported(tasks, Flagged(valid[..]))
  {
    changed := false;
    ghost var before := Flagged(valid[..]);
    for i := 0 to |tasks|
      invariant Spares(tasks, from, Flagged(valid[..]))
      invariant if changed then Flagged(valid[..]) < before else Flagged(valid[..]) == before
      invariant !changed ==> forall j :: 0 <= j < i && j in before ==> RestsOn(tasks, before, j)
    {
      var stands := true;
      if valid[i] {
        stands := RowStands(tasks, declared, valid, i);
      }
      if !stands {
        ghost var now := Flagged(valid[..]);
        assert i in now;
        DropRow(tasks, from, now, i);
        valid[i] := false;
        assert Flagged(valid[..]) == now - {i};
        changed := true;
      }
    }
  }

  /** The fixpoint loop: it stops, and what it leaves does not depend on the order of rows. */
  method InvalidateDependents(tasks: seq<Task>, declared: map<TaskId, seq<nat>>, valid: array<bool>)
    requires valid.Length == |tasks| && Collected(declared, tasks)
    modifies valid
    ensures GreatestSupported(tasks, old(Flagged(valid[..])), Flagged(valid[..]))
  {
    ghost var from := Flagged(valid[..]);
    var changed := true;
    while changed
      invariant Flagged(valid[..]) <= from && Spares(tasks, from, Flagged(valid[..]))
      invariant !changed ==> Supported(tasks, Flagged(valid[..]))
      decreases Flagged(valid[..]), changed
    {
      changed := InvalidatePass(tasks, declared, valid, from);
    }
  }

  lemma RestsOnMonotone(tasks: seq<Task>, s: set<nat>, t: set<nat>, i: nat)
    requires i < |tasks| && s <= t && RestsOn(tasks, s, i)
    ensures RestsOn(tasks, t, i)
  {
  }

  /** Taking rows away early or late leaves the same greatest set. */
  lemma GreatestWithout(tasks: seq<Task>, from: set<nat>, s: set<nat>, t: set<nat>, dropped: set<nat>)
    requires GreatestSupported(tasks, from, s) && GreatestSupported(tasks, s - dropped, t)
    ensures GreatestSupported(tasks, from - dropped, t)
  {
    hide Supported;
  }

  lemma GreatestUnique(tasks: seq<Task>, from: set<nat>, s: set<nat>, t: set<nat>)
    requires GreatestSupported(tasks, from, s) && GreatestSupported(tasks, from, t)
    ensures s == t
  {
  }

  // ---------------------------------------------------------------------------------
  // The planner's cycle search
  // ---------------------------------------------------------------------------------

  /** byID: the valid row of each id. */
  method ValidById(tasks: seq<Task>, valid: seq<bool>) returns (byId: map<TaskId, nat>)
    requires |valid| == |tasks|
    ensures forall id :: id in byId ==> byId[id] < |tasks| && valid[byId[id]] && tasks[byId[id]].id == id
    ensures forall i :: 0 <= i < |tasks| && valid[i] ==> tasks[i].id in byId
  {
    byId := map[];
    for i := 0 to |tasks|
      invariant forall id :: id in byId ==> byId[id] < |tasks| && valid[byId[id]] && tasks[byId[id]].id == id
      invariant forall j :: 0 <= j < i && valid[j] ==> tasks[j].id in byId
    {
      if valid[i] { byId := byId[tasks[i].id := i]; }
    }
  }

  /** The rows a row's dependencies resolve to; unresolved and self dependencies are skipped. */
  function Resolved(ds: seq<TaskId>, self: TaskId, byId: map<TaskId, nat>): (rows: seq<nat>)
    ensures forall r :: r in rows <==> exists d :: d in ds && d in byId && d != self && byId[d] == r
  {
    if ds == [] then []
    else
      var d := ds[|ds| - 1];
      assert ds == ds[..|ds| - 1] + [d];
      var before := Resolved(ds[..|ds| - 1], self, byId);
      if d in byId && d != self then before + [byId[d]] else before
  }

  /** The graph the planner's search walks: valid rows by index. */
  function RowGraph(tasks: seq<Task>, valid: seq<bool>, byId: map<TaskId, nat>): Graph<nat>
    requires |valid| == |tasks|
  {
    map i: nat | i < |tasks| && valid[i] :: Resolved(tasks[i].dependsOn, tasks[i].id, byId)
  }

  /** The rows still valid, in authored order. */
  function Usable(tasks: seq<Task>, valid: seq<bool>): seq<Row>
    requires |valid| == |tasks|
  {
    if tasks == [] then []
    else
      var last := |tasks| - 1;
      var before := Usable(tasks[..last], valid[..last]);
      if valid[last] then before + [Row(tasks[last], true)] else before
  }

  /** What the checks before the search establish about the valid rows. */
  ghost predicate Checked(tasks: seq<Task>, valid: seq<bool>) {
    && |valid| == |tasks|
    && (forall i :: 0 <= i < |tasks| && valid[i] ==> tasks[i].id != "" && tasks[i].id !in tasks[i].dependsOn)
    && (forall i, j :: 0 <= i < j < |tasks| && valid[i] && valid[j] ==> tasks[i].id != tasks[j].id)
    && Supported(tasks, Flagged(valid))
  }

  lemma {:induction false} UsableRows(tasks: seq<Task>, valid: seq<bool>)
    requires |valid| == |tasks|
    ensures forall r :: r in Usable(tasks, valid) <==>
              exists i :: 0 <= i < |tasks| && valid[i] && r == Row(tasks[i], true)
    ensures forall id :: id in Ids(Usable(tasks, valid)) <==>
              exists i :: 0 <= i < |tasks| && valid[i] && tasks[i].id == id
  {
    if tasks != [] {
      var last := |tasks| - 1;
      var fewer, flags := tasks[..last], valid[..last];
      UsableRows(fewer, flags);
      var before := Usable(fewer, flags);
      if valid[last] {
        assert Ids(Usable(tasks, valid)) == Ids(before) + [tasks[last].id];
      }
      forall r ensures r in Usable(tasks, valid) <==>
        exists i :: 0 <= i < |tasks| && valid[i] && r == Row(tasks[i], true) {
        if i :| 0 <= i < |fewer| && flags[i] && r == Row(fewer[i], true) {
          assert valid[i] && r == Row(tasks[i], true);
        }
      }
      forall id ensures id in Ids(Usable(tasks, valid)) <==>
        exists i :: 0 <= i < |tasks| && valid[i] && tasks[i].id == id {
        if i :| 0 <= i < |fewer| && flags[i] && fewer[i].id == id {
          assert valid[i] && tasks[i].id == id;
        }
      }
    }
  }

  lemma {:induction false} UsableDistinct(tasks: seq<Task>, valid: seq<bool>)
    requires |valid| == |tasks|
    requires forall i, j :: 0 <= i < j < |tasks| && valid[i] && valid[j] ==> tasks[i].id != tasks[j].id
    ensures Distinct(Ids(Usable(tasks, valid)))
  {
    if tasks != [] {
      var last := |tasks| - 1;
      UsableDistinct(tasks[..last], valid[..last]);
      UsableRows(tasks[..last], valid[..last]);
      var before := Usable(tasks[..last], valid[..last]);
      if valid[last] {
        assert Ids(Usable(tasks, valid)) == Ids(before) + [tasks[last].id];
        assert tasks[last].id !in Ids(before);
      }
    }
  }

  /** The checked rows form a declared plan. */
  lemma CheckedIsDeclared(tasks: seq<Task>, valid: seq<bool>)
    requires Checked(tasks, valid)
    ensures Declared(Usable(tasks, valid))
  {
    var rows := Usable(tasks, valid);
    UsableRows(tasks, valid);
    UsableDistinct(tasks, valid);
    forall k | 0 <= k < |rows|
      ensures rows[k].task.id != "" && rows[k].valid
      ensures forall d :: d in rows[k].task.dependsOn ==> d != rows[k].task.id && d in Ids(rows)
    {
      assert rows[k] in rows;
      var i :| 0 <= i < |tasks| && valid[i] && rows[k] == Row(tasks[i], true);
      assert i in Flagged(valid) && RestsOn(tasks, Flagged(valid), i);
      forall d | d in tasks[i].dependsOn ensures d in Ids(rows) {
        var r := RowsOf(tasks, d)[0];
        assert r in RowsOf(tasks, d) && r in Flagged(valid);
        assert valid[r] && tasks[r].id == d;
      }
    }
  }

  /** A walk over rows is a walk over ids and back. */
  ghost predicate SameGraph(g: Graph<TaskId>, rows: Graph<nat>, tasks: seq<Task>, byId: map<TaskId, nat>) {
    && (forall i: nat :: i in rows ==> i < |tasks| && tasks[i].id in g && byId.Keys == g.Keys && byId[tasks[i].id] == i)
    && (forall id :: id in g <==> id in byId)
    && (forall id :: id in g ==> byId[id] in rows && tasks[byId[id]].id == id)
    && (forall i, j :: i in rows && j in rows ==> (j in rows[i] <==> tasks[j].id in g[tasks[i].id]))
  }

  lemma CheckedSameGraph(tasks: seq<Task>, valid: seq<bool>, byId: map<TaskId, nat>)
    requires Checked(tasks, valid)
    requires forall id :: id in byId ==> byId[id] < |tasks| && valid[byId[id]] && tasks[byId[id]].id == id
    requires forall i :: 0 <= i < |tasks| && valid[i] ==> tasks[i].id in byId
    ensures SameGraph(DependencyMap(Usable(tasks, valid)), RowGraph(tasks, valid, byId), tasks, byId)
    ensures Closed(RowGraph(tasks, valid, byId))
  {
    var rows, g := RowGraph(tasks, valid, byId), DependencyMap(Usable(tasks, valid));
    CheckedIsDeclared(tasks, valid);
    UsableRows(tasks, valid);
    DependencyMapAt(Usable(tasks, valid));
    forall i | 0 <= i < |tasks| && valid[i]
      ensures tasks[i].id in g && g[tasks[i].id] == tasks[i].dependsOn && byId[tasks[i].id] == i
    {
      var r := Row(tasks[i], true);
      assert r in Usable(tasks, valid);
      var k :| 0 <= k < |Usable(tasks, valid)| && Usable(tasks, valid)[k] == r;
    }
    forall id ensures id in g <==> id in byId {
      if id in g {
        assert id in Ids(Usable(tasks, valid));
      }
    }
    assert byId.Keys == g.Keys;
  }

  lemma RowWalkIsWalk(g: Graph<TaskId>, rows: Graph<nat>, tasks: seq<Task>, byId: map<TaskId, nat>, p: seq<nat>)
    requires SameGraph(g, rows, tasks, byId) && ClosedWalk(rows, p)
    ensures Cyclic(g)
  {
    var q := seq(|p|, k requires 0 <= k < |p| => if p[k] < |tasks| then tasks[p[k]].id else "");
    forall k | 0 <= k < |q| - 1 ensures q[k + 1] in g[q[k]] {
      assert p[k + 1] in rows[p[k]];
      assert p[k] in rows && p[k + 1] in rows;
    }
    assert ClosedWalk(g, q);
  }

  lemma WalkIsRowWalk(g: Graph<TaskId>, rows: Graph<nat>, tasks: seq<Task>, byId: map<TaskId, nat>, p: seq<TaskId>)
    requires SameGraph(g, rows, tasks, byId) && ClosedWalk(g, p)
    ensures Cyclic(rows)
  {
    assert forall k :: 0 <= k < |p| ==> p[k] in byId;
    var q: seq<nat> := seq(|p|, k requires 0 <= k < |p| => byId[p[k]]);
    forall k | 0 <= k < |q| - 1 ensures q[k + 1] in rows[q[k]] {
      assert p[k + 1] in g[p[k]];
    }
    assert ClosedWalk(rows, q);
  }

  /** A closed walk over rows, each depending on the next by id. */
  ghost predicate RowCycle(tasks: seq<Task>, valid: seq<bool>, path: seq<nat>)
    requires |valid| == |tasks|
  {
    && |path| >= 2 && path[0] == path[|path| - 1]
    && (forall k :: 0 <= k < |path| ==> path[k] < |tasks| && valid[path[k]])
    && (forall k :: 0 <= k < |path| - 1 ==> tasks[path[k + 1]].id in tasks[path[k]].dependsOn)
  }

  lemma ClosedRowWalk(tasks: seq<Task>, valid: seq<bool>, byId: map<TaskId, nat>, path: seq<nat>)
    requires |valid| == |tasks| && ClosedWalk(RowGraph(tasks, valid, byId), path)
    requires forall id :: id in byId ==> byId[id] < |tasks| && tasks[byId[id]].id == id
    ensures RowCycle(tasks, valid, path)
  {
    var rows := RowGraph(tasks, valid, byId);
    assert forall k :: 0 <= k < |path| ==> path[k] in rows;
    forall k | 0 <= k < |path| - 1 ensures tasks[path[k + 1]].id in tasks[path[k]].dependsOn {
      assert path[k + 1] in rows[path[k]];
    }
  }

  lemma SearchDecides(g: Graph<TaskId>, rows: Graph<nat>, tasks: seq<Task>, byId: map<TaskId, nat>)
    requires SameGraph(g, rows, tasks, byId)
    ensures Cyclic(g) <==> Cyclic(rows)
  {
    if p: seq<nat> :| ClosedWalk(rows, p) {
      RowWalkIsWalk(g, rows, tasks, byId, p);
    }
    if q: seq<TaskId> :| ClosedWalk(g, q) {
      WalkIsRowWalk(g, rows, tasks, byId, q);
    }
  }

  /** The planner's search over rows reports a cycle exactly when the ids have one. */
  method FindCycle(tasks: seq<Task>, valid: seq<bool>) returns (found: bool, path: seq<nat>, ghost order: seq<TaskId>)
    requires Checked(tasks, valid)
    ensures found <==> Cyclic(DependencyMap(Usable(tasks, valid)))
    ensures found ==> RowCycle(tasks, valid, path)
    ensures !found ==> TopologicalOrder(DependencyMap(Usable(tasks, valid)), order)
  {
    ghost var g := DependencyMap(Usable(tasks, valid));
    var byId := ValidById(tasks, valid);
    var rows := RowGraph(tasks, valid, byId);
    CheckedSameGraph(tasks, valid, byId);
    SearchDecides(g, rows, tasks, byId);
    CheckedIsDeclared(tasks, valid);
    DeclaredIsClosed(Usable(tasks, valid));
    var search := new DepthFirst(rows);
    found := search.Run(ValidRows(tasks, valid));
    path, order := [], [];
    if found {
      path := search.cycle + [search.cycle[0]];
      ClosedRowWalk(tasks, valid, byId, path);
    } else {
      order := NamedOrder(g, rows, tasks, byId, search.finished);
    }
  }

  function ValidRows(tasks: seq<Task>, valid: seq<bool>): (rows: seq<nat>)
    requires |valid| == |tasks|
    ensures forall i: nat :: i in rows <==> i < |tasks| && valid[i]
  {
    if tasks == [] then []
    else
      var last := |tasks| - 1;
      var before := ValidRows(tasks[..last], valid[..last]);
      if valid[last] then before + [last] else before
  }

  lemma NamedOrder(g: Graph<TaskId>, rows: Graph<nat>, tasks: seq<Task>, byId: map<TaskId, nat>, finished: seq<nat>)
    returns (order: seq<TaskId>)
    requires SameGraph(g, rows, tasks, byId) && Closed(g) && TopologicalOrder(rows, finished)
    ensures TopologicalOrder(g, order)
  {
    hide SameGraph;
    SameNames(g, rows, tasks, byId);
    assert forall k :: 0 <= k < |finished| ==> finished[k] in rows;
    order := seq(|finished|, k requires 0 <= k < |finished| => tasks[finished[k]].id);
    forall id ensures id in order <==> id in g {
      if id in g {
        var k :| 0 <= k < |finished| && finished[k] == byId[id];
        assert order[k] == id;
      }
    }
    forall k, d | 0 <= k < |order| && order[k] in g && d in g[order[k]] ensures d in order[..k] {
      SameDependency(g, rows, tasks, byId, finished[k], d);
      var j :| 0 <= j < k && finished[j] == byId[d];
      assert order[..k][j] == d;
    }
  }

  lemma SameNames(g: Graph<TaskId>, rows: Graph<nat>, tasks: seq<Task>, byId: map<TaskId, nat>)
    requires SameGraph(g, rows, tasks, byId)
    ensures forall i: nat :: i in rows ==>
              i < |tasks| && tasks[i].id in g && tasks[i].id in byId && byId[tasks[i].id] == i
    ensures forall id :: id in g ==> id in byId && byId[id] in rows && byId[id] < |tasks| && tasks[byId[id]].id == id
  {
  }

  lemma SameDependency(g: Graph<TaskId>, rows: Graph<nat>, tasks: seq<Task>, byId: map<TaskId, nat>, i: nat, d: TaskId)
    requires SameGraph(g, rows, tasks, byId) && Closed(g) && i in rows && d in g[tasks[i].id]
    ensures d in byId && byId[d] in rows[i]
  {
    assert d in g;
  }

  // ---------------------------------------------------------------------------------
  // The checks before the search
  // ---------------------------------------------------------------------------------

  ghost predicate Shared(tasks: seq<Task>, valid: seq<bool>, i: nat)
    requires |valid| == |tasks| && i < |tasks|
  {
    exists j :: 0 <= j < |tasks| && j != i && valid[j] && tasks[j].id == tasks[i].id
  }

  /** One id: with more than one valid row, all of them are rejected. */
  method RejectId(tasks: seq<Task>, declared: map<TaskId, seq<nat>>, valid: array<bool>, id: TaskId)
    returns (diagnostics: seq<Diagnostic>)
    requires valid.Length == |tasks| && Collected(declared, tasks) && id != ""
    modifies valid
    ensures forall i :: 0 <= i < |tasks| ==>
              (valid[i] <==> old(valid[i]) && !(tasks[i].id == id && Shared(tasks, old(valid[..]), i)))
    ensures diagnostics == [] <==> valid[..] == old(valid[..])
    ensures forall d :: d in diagnostics ==> !d.CycleRows?
  {
    ghost var from := valid[..];
    var found := ValidAmong(tasks, declared, valid, id);
    ManyIsShared(tasks, from, id, found);
    if |found| <= 1 { return []; }
    for k := 0 to |found|
      invariant forall i :: 0 <= i < |tasks| ==> (valid[i] <==> from[i] && i !in found[..k])
    {
      assert found[..k + 1] == found[..k] + [found[k]];
      assert found[k] in found;
      valid[found[k]] := false;
    }
    assert found[..|found|] == found && found[0] in found;
    assert valid[..][found[0]] != from[found[0]];
    diagnostics := seq(|found| - 1, k requires 0 <= k < |found| - 1 => DuplicateRow(found[k + 1]));
  }

  lemma ManyIsShared(tasks: seq<Task>, valid: seq<bool>, id: TaskId, found: seq<nat>)
    requires |valid| == |tasks| && Distinct(found) && id != ""
    requires forall i: nat :: i in found <==> i < |tasks| && tasks[i].id == id && id != "" && valid[i]
    ensures forall i: nat :: i in found ==> (Shared(tasks, valid, i) <==> |found| > 1)
  {
    forall i: nat | i in found ensures Shared(tasks, valid, i) <==> |found| > 1 {
      if |found| > 1 {
        var other := if found[0] == i then found[1] else found[0];
        assert other in found && other != i;
      }
      if j :| 0 <= j < |tasks| && j != i && valid[j] && tasks[j].id == tasks[i].id {
        assert j in found;
      }
    }
  }

  /** Every id with more than one valid row loses all of them. */
  method RejectDuplicates(tasks: seq<Task>, declared: map<TaskId, seq<nat>>, valid: array<bool>)
    returns (diagnostics: seq<Diagnostic>)
    requires valid.Length == |tasks| && Collected(declared, tasks)
    requires forall i :: 0 <= i < |tasks| && valid[i] ==> tasks[i].id != ""
    modifies valid
    ensures forall i :: 0 <= i < |tasks| ==> (valid[i] <==> old(valid[i]) && !Shared(tasks, old(valid[..]), i))
    ensures diagnostics == [] <==> valid[..] == old(valid[..])
    ensures forall d :: d in diagnostics ==> !d.CycleRows?
  {
    diagnostics := [];
    ghost var from := valid[..];
    var todo := declared.Keys - {""};
    forall i | 0 <= i < |tasks| && valid[i] ensures tasks[i].id in todo {
      assert At(declared, tasks[i].id) == RowsOf(tasks, tasks[i].id);
      assert i in RowsOf(tasks, tasks[i].id);
    }
    while todo != {}
      invariant "" !in todo
      invariant forall i :: 0 <= i < |tasks| ==>
                  (valid[i] <==> from[i] && (tasks[i].id in todo || !Shared(tasks, from, i)))
      invariant diagnostics == [] <==> valid[..] == from
      invariant forall d :: d in diagnostics ==> !d.CycleRows?
      decreases todo
    {
      var id :| id in todo;
      ghost var now := valid[..];
      SameSharing(tasks, from, now, todo, id);
      var more := RejectId(tasks, declared, valid, id);
      StaysChanged(from, now, valid[..]);
      diagnostics := diagnostics + more;
      todo := todo - {id};
    }
  }

  lemma StaysChanged(from: seq<bool>, now: seq<bool>, next: seq<bool>)
    requires |from| == |now| == |next|
    requires forall i :: 0 <= i < |from| ==> (now[i] ==> from[i]) && (next[i] ==> now[i])
    ensures next == from <==> now == from && next == now
  {
  }

  lemma SameSharing(tasks: seq<Task>, from: seq<bool>, now: seq<bool>, todo: set<TaskId>, id: TaskId)
    requires |from| == |now| == |tasks| && id in todo
    requires forall i :: 0 <= i < |tasks| ==> (now[i] <==> from[i] && (tasks[i].id in todo || !Shared(tasks, from, i)))
    ensures forall i :: 0 <= i < |tasks| && tasks[i].id == id ==> (Shared(tasks, now, i) <==> Shared(tasks, from, i))
  {
  }

  method ValidAmong(tasks: seq<Task>, declared: map<TaskId, seq<nat>>, valid: array<bool>, id: TaskId)
    returns (found: seq<nat>)
    requires valid.Length == |tasks| && Collected(declared, tasks)
    ensures forall i: nat :: i in found <==> i < |tasks| && tasks[i].id == id && id != "" && valid[i]
    ensures Distinct(found)
  {
    found := [];
    var at := At(declared, id);
    assert at == RowsOf(tasks, id);
    RowsDistinct(tasks, id);
    for k := 0 to |at|
      invariant forall i: nat :: i in found <==> i in at[..k] && i < |tasks| && valid[i]
      invariant Distinct(found)
    {
      assert at[k] in at;
      assert at[..k + 1] == at[..k] + [at[k]];
      if valid[at[k]] {
        assert at[k] !in at[..k];
        found := found + [at[k]];
      }
    }
    assert at[..|at|] == at;
  }

  lemma {:induction false} RowsDistinct(tasks: seq<Task>, id: TaskId)
    ensures Distinct(RowsOf(tasks, id))
  {
    if tasks != [] && id != "" {
      RowsDistinct(tasks[..|tasks| - 1], id);
      assert |tasks| - 1 !in RowsOf(tasks[..|tasks| - 1], id);
    }
  }

  predicate Sound(tasks: seq<Task>, i: nat)
    requires i < |tasks|
  {
    forall d :: d in tasks[i].dependsOn ==> d != tasks[i].id && RowsOf(tasks, d) != []
  }

  /** Rows that depend on themselves or on an id nobody declares. */
  method RejectDependencies(tasks: seq<Task>, declared: map<TaskId, seq<nat>>, valid: array<bool>)
    returns (diagnostics: seq<Diagnostic>)
    requires valid.Length == |tasks| && Collected(declared, tasks)
    modifies valid
    ensures forall i :: 0 <= i < |tasks| ==> (valid[i] <==> old(valid[i]) && Sound(tasks, i))
    ensures diagnostics == [] <==> valid[..] == old(valid[..])
    ensures forall d :: d in diagnostics ==> !d.CycleRows?
  {
    diagnostics := [];
    ghost var from := valid[..];
    for i := 0 to |tasks|
      invariant forall j :: 0 <= j < |tasks| ==> (valid[j] <==> from[j] && (j < i ==> Sound(tasks, j)))
      invariant diagnostics == [] <==> valid[..] == from
      invariant forall d :: d in diagnostics ==> !d.CycleRows?
    {
      if valid[i] {
        var ds := tasks[i].dependsOn;
        var bad := BadDependencies(tasks, declared, i);
        if bad != [] {
          valid[i] := false;
          assert valid[..][i] != from[i];
          diagnostics := diagnostics + bad;
        }
      }
    }
  }

  method BadDependencies(tasks: seq<Task>, declared: map<TaskId, seq<nat>>, i: nat) returns (bad: seq<Diagnostic>)
    requires i < |tasks| && Collected(declared, tasks)
    ensures bad == [] <==> Sound(tasks, i)
    ensures forall d :: d in bad ==> !d.CycleRows?
  {
    bad := [];
    var ds := tasks[i].dependsOn;
    for k := 0 to |ds|
      invariant forall d :: d in bad ==> !d.CycleRows?
      invariant bad == [] <==> forall j :: 0 <= j < k ==> ds[j] != tasks[i].id && RowsOf(tasks, ds[j]) != []
    {
      assert At(declared, ds[k]) == RowsOf(tasks, ds[k]);
      if ds[k] == tasks[i].id {
        bad := bad + [SelfRow(i)];
      } else if At(declared, ds[k]) == [] {
        bad := bad + [UnknownRow(i)];
      }
    }
    assert forall j :: 0 <= j < |ds| ==> ds[j] in ds;
    assert Sound(tasks, i) <==> forall j :: 0 <= j < |ds| ==> ds[j] != tasks[i].id && RowsOf(tasks, ds[j]) != [];
  }

  // ---------------------------------------------------------------------------------
  // Layers
  // ---------------------------------------------------------------------------------

  /** The tasks of `remaining` whose dependencies are all placed, and the others. */
  function ReadyOf(remaining: seq<Task>, placed: set<TaskId>): seq<Task> {
    if remaining == [] then []
    else
      var task := remaining[|remaining| - 1];
      ReadyOf(remaining[..|remaining| - 1], placed) + (if AllPlaced(task.dependsOn, placed) then [task] else [])
  }

  function WaitingOf(remaining: seq<Task>, placed: set<TaskId>): (rest: seq<Task>)
    ensures |rest| <= |remaining|
  {
    if remaining == [] then []
    else
      var task := remaining[|remaining| - 1];
      WaitingOf(remaining[..|remaining| - 1], placed) + (if AllPlaced(task.dependsOn, placed) then [] else [task])
  }

  predicate AllPlaced(ds: seq<TaskId>, placed: set<TaskId>) {
    forall d :: d in ds ==> d in placed
  }

  /** One layer of the planner's loop. The rest is filtered in place, into the prefix of the
      very array being read; writes never catch up with reads. */
  method TakeLayer(remaining: array<Task>, n: nat, placed: set<TaskId>)
    returns (ready: seq<Task>, rest: nat)
    requires n <= remaining.Length
    modifies remaining
    ensures rest <= n
    ensures ready == ReadyOf(old(remaining[..n]), placed)
    ensures remaining[..rest] == WaitingOf(old(remaining[..n]), placed)
  {
    ready, rest := [], 0;
    ghost var from := remaining[..n];
    for i := 0 to n
      invariant rest <= i
      invariant ready == ReadyOf(from[..i], placed)
      invariant remaining[..rest] == WaitingOf(from[..i], placed)
      invariant forall k :: i <= k < n ==> remaining[k] == from[k]
    {
      var task := remaining[i];
      assert from[..i + 1][..i] == from[..i];
      var placedAll := true;
      for k := 0 to |task.dependsOn|
        invariant placedAll ==> forall j :: 0 <= j < k ==> task.dependsOn[j] in placed
        invariant !placedAll ==> !AllPlaced(task.dependsOn, placed)
      {
        if task.dependsOn[k] !in placed {
          assert task.dependsOn[k] in task.dependsOn;
          placedAll := false;
          break;
        }
      }
      if placedAll {
        ready := ready + [task];
      } else {
        remaining[rest] := task;
        rest := rest + 1;
      }
    }
    assert from[..n] == from;
  }

  /** The planner's numbering after `r` layers. */
  ghost predicate Layered(g: Graph<TaskId>, wave: map<TaskId, nat>, r: nat) {
    && (forall n :: n in wave ==> n in g && wave[n] < r)
    && (forall n {:trigger Level(g, wave, n)} :: n in wave ==> Level(g, wave, n))
    && (forall n {:trigger LateDependency(g, wave, r, n)} :: n in g && n !in wave && r > 0 ==>
          LateDependency(g, wave, r, n))
  }

  /** A dependency that was not placed before the last layer. */
  ghost predicate LateDependency(g: Graph<TaskId>, wave: map<TaskId, nat>, r: nat, n: TaskId)
    requires n in g
  {
    exists d :: d in g[n] && (d !in wave || wave[d] + 1 == r)
  }

  /** The tasks still to place. */
  function RestOf(tasks: seq<Task>, wave: map<TaskId, nat>): seq<Task> {
    if tasks == [] then []
    else
      var task := tasks[|tasks| - 1];
      RestOf(tasks[..|tasks| - 1], wave) + (if task.id in wave then [] else [task])
  }

  lemma {:induction false} RestMembers(tasks: seq<Task>, wave: map<TaskId, nat>)
    ensures forall t :: t in RestOf(tasks, wave) <==> t in tasks && t.id !in wave
  {
    if tasks != [] {
      RestMembers(tasks[..|tasks| - 1], wave);
      assert tasks == tasks[..|tasks| - 1] + [tasks[|tasks| - 1]];
    }
  }

  function TaskIds(tasks: seq<Task>): (ids: seq<TaskId>)
    ensures |ids| == |tasks| && forall i :: 0 <= i < |tasks| ==> ids[i] == tasks[i].id
  {
    seq(|tasks|, i requires 0 <= i < |tasks| => tasks[i].id)
  }

  lemma {:induction false} ReadyMembers(remaining: seq<Task>, placed: set<TaskId>)
    ensures forall t :: t in ReadyOf(remaining, placed) <==> t in remaining && AllPlaced(t.dependsOn, placed)
    ensures ReadyOf(remaining, placed) == [] ==> WaitingOf(remaining, placed) == remaining
    ensures |ReadyOf(remaining, placed)| + |WaitingOf(remaining, placed)| == |remaining|
  {
    if remaining != [] {
      ReadyMembers(remaining[..|remaining| - 1], placed);
      assert remaining == remaining[..|remaining| - 1] + [remaining[|remaining| - 1]];
    }
  }

  /** How one layer moves the numbering: exactly the unplaced, ready tasks get number `r`. */
  ghost predicate NextLayer(tasks: seq<Task>, wave: map<TaskId, nat>, more: map<TaskId, nat>, r: nat) {
    forall t :: t in tasks ==>
      if t.id in wave then t.id in more && more[t.id] == wave[t.id] && wave[t.id] < r
      else if AllPlaced(t.dependsOn, wave.Keys) then t.id in more && more[t.id] == r
      else t.id !in more
  }

  lemma NextLayerPrefix(tasks: seq<Task>, wave: map<TaskId, nat>, more: map<TaskId, nat>, r: nat)
    requires NextLayer(tasks, wave, more, r) && tasks != []
    ensures NextLayer(tasks[..|tasks| - 1], wave, more, r)
    ensures tasks[|tasks| - 1] in tasks
    ensures TaskIds(tasks)[..|tasks| - 1] == TaskIds(tasks[..|tasks| - 1])
  {
    assert tasks == tasks[..|tasks| - 1] + [tasks[|tasks| - 1]];
  }

  lemma FiltersAppend(remaining: seq<Task>, last: Task, placed: set<TaskId>)
    ensures ReadyOf(remaining + [last], placed) ==
            ReadyOf(remaining, placed) + (if AllPlaced(last.dependsOn, placed) then [last] else [])
    ensures WaitingOf(remaining + [last], placed) ==
            WaitingOf(remaining, placed) + (if AllPlaced(last.dependsOn, placed) then [] else [last])
  {
    assert (remaining + [last])[..|remaining|] == remaining;
  }

  lemma ListsAppend(tasks: seq<Task>, last: Task, wave: map<TaskId, nat>, w: nat)
    ensures RestOf(tasks + [last], wave) == RestOf(tasks, wave) + (if last.id in wave then [] else [last])
    ensures TaskIds(tasks + [last]) == TaskIds(tasks) + [last.id]
    ensures OfWave(TaskIds(tasks + [last]), wave, w) ==
            OfWave(TaskIds(tasks), wave, w) + (if last.id in wave && wave[last.id] == w then [last.id] else [])
  {
    assert (tasks + [last])[..|tasks|] == tasks;
    assert TaskIds(tasks + [last])[..|tasks|] == TaskIds(tasks);
  }

  /** A layer lists the ready tasks in authored order, and the loop keeps exactly the rest. */
  lemma {:induction false} LayerContents(tasks: seq<Task>, wave: map<TaskId, nat>, more: map<TaskId, nat>, r: nat)
    requires NextLayer(tasks, wave, more, r)
    ensures TaskIds(ReadyOf(RestOf(tasks, wave), wave.Keys)) == OfWave(TaskIds(tasks), more, r)
    ensures WaitingOf(RestOf(tasks, wave), wave.Keys) == RestOf(tasks, more)
  {
    hide NextLayer;
    if tasks != [] {
      var last, before := tasks[|tasks| - 1], tasks[..|tasks| - 1];
      NextLayerPrefix(tasks, wave, more, r);
      LayerContents(before, wave, more, r);
      LastPlaced(tasks, wave, more, r);
      LayerContentsAppend(before, last, wave, more, r);
      assert tasks == before + [last];
    }
  }

  lemma LastPlaced(tasks: seq<Task>, wave: map<TaskId, nat>, more: map<TaskId, nat>, r: nat)
    requires tasks != [] && NextLayer(tasks, wave, more, r)
    ensures var last := tasks[|tasks| - 1];
            if last.id in wave then last.id in more && more[last.id] < r
            else if AllPlaced(last.dependsOn, wave.Keys) then last.id in more && more[last.id] == r
            else last.id !in more
  {
  }

  lemma LayerContentsAppend(before: seq<Task>, last: Task, wave: map<TaskId, nat>, more: map<TaskId, nat>, r: nat)
    requires TaskIds(ReadyOf(RestOf(before, wave), wave.Keys)) == OfWave(TaskIds(before), more, r)
    requires WaitingOf(RestOf(before, wave), wave.Keys) == RestOf(before, more)
    requires if last.id in wave then last.id in more && more[last.id] < r
             else if AllPlaced(last.dependsOn, wave.Keys) then last.id in more && more[last.id] == r
             else last.id !in more
    ensures TaskIds(ReadyOf(RestOf(before + [last], wave), wave.Keys)) == OfWave(TaskIds(before + [last]), more, r)
    ensures WaitingOf(RestOf(before + [last], wave), wave.Keys) == RestOf(before + [last], more)
  {
    var rest := RestOf(before, wave);
    ListsAppend(before, last, wave, r);
    ListsAppend(before, last, more, r);
    FiltersAppend(rest, last, wave.Keys);
    ListsAppend(ReadyOf(rest, wave.Keys), last, more, r);
    if last.id in wave {
      assert rest + [] == rest;
    }
  }

  lemma {:induction false} OlderLayersStay(tasks: seq<Task>, wave: map<TaskId, nat>, more: map<TaskId, nat>, r: nat,
                                           w: nat)
    requires NextLayer(tasks, wave, more, r) && w < r
    ensures OfWave(TaskIds(tasks), more, w) == OfWave(TaskIds(tasks), wave, w)
  {
    if tasks != [] {
      NextLayerPrefix(tasks, wave, more, r);
      OlderLayersStay(tasks[..|tasks| - 1], wave, more, r, w);
    }
  }

  function Place(wave: map<TaskId, nat>, ready: seq<Task>, r: nat): (next: map<TaskId, nat>)
    ensures next.Keys == wave.Keys + set t | t in ready :: t.id
    ensures forall n :: n in next ==> next[n] == if exists t :: t in ready && t.id == n then r else wave[n]
  {
    if ready == [] then wave
    else
      var last := ready[|ready| - 1];
      assert ready == ready[..|ready| - 1] + [last];
      Place(wave, ready[..|ready| - 1], r)[last.id := r]
  }

  /** What the layering starts from: the graph of exactly these tasks. */
  ghost predicate GraphOf(g: Graph<TaskId>, tasks: seq<Task>) {
    && Closed(g)
    && (forall t :: t in tasks ==> t.id in g && g[t.id] == t.dependsOn)
    && (forall n :: n in g ==> exists t :: t in tasks && t.id == n)
  }

  lemma PlacedIsNextLayer(g: Graph<TaskId>, tasks: seq<Task>, wave: map<TaskId, nat>, r: nat)
    requires GraphOf(g, tasks) && Layered(g, wave, r)
    ensures NextLayer(tasks, wave, Place(wave, ReadyOf(RestOf(tasks, wave), wave.Keys), r), r)
  {
    var ready := ReadyOf(RestOf(tasks, wave), wave.Keys);
    ReadyMembers(RestOf(tasks, wave), wave.Keys);
    RestMembers(tasks, wave);
    var more := Place(wave, ready, r);
    forall t | t in tasks
      ensures if t.id in wave then t.id in more && more[t.id] == wave[t.id] && wave[t.id] < r
              else if AllPlaced(t.dependsOn, wave.Keys) then t.id in more && more[t.id] == r
              else t.id !in more
    {
      if t.id !in wave && t.id in more {
        var u :| u in ready && u.id == t.id;
        assert u.dependsOn == t.dependsOn;
      }
    }
  }

  /** NextLayer read off the graph. */
  ghost predicate NextNumbers(g: Graph<TaskId>, wave: map<TaskId, nat>, more: map<TaskId, nat>, r: nat) {
    && more.Keys <= g.Keys
    && (forall n :: n in g ==>
          if n in wave then n in more && more[n] == wave[n]
          else if AllPlaced(g[n], wave.Keys) then n in more && more[n] == r
          else n !in more)
  }

  lemma NumbersOf(g: Graph<TaskId>, tasks: seq<Task>, wave: map<TaskId, nat>, more: map<TaskId, nat>, r: nat)
    requires GraphOf(g, tasks) && NextLayer(tasks, wave, more, r) && more.Keys <= g.Keys
    ensures NextNumbers(g, wave, more, r)
  {
    forall n | n in g
      ensures if n in wave then n in more && more[n] == wave[n]
              else if AllPlaced(g[n], wave.Keys) then n in more && more[n] == r
              else n !in more
    {
      var t :| t in tasks && t.id == n;
    }
  }

  lemma StillLevel(g: Graph<TaskId>, wave: map<TaskId, nat>, more: map<TaskId, nat>, r: nat, n: TaskId)
    requires Closed(g) && Layered(g, wave, r) && NextNumbers(g, wave, more, r) && n in more
    ensures Level(g, more, n)
  {
    assert n in g;
    if n in wave {
      assert Level(g, wave, n);
      forall d | d in g[n] ensures d in more && more[d] == wave[d] {
        assert d in g;
      }
    } else {
      forall d | d in g[n] ensures d in more && more[d] == wave[d] < r {
        assert d in wave.Keys && d in g;
      }
      if r > 0 {
        assert LateDependency(g, wave, r, n);
        var d :| d in g[n] && (d !in wave || wave[d] + 1 == r);
        assert more[d] + 1 == more[n];
      }
    }
  }

  lemma StillLate(g: Graph<TaskId>, wave: map<TaskId, nat>, more: map<TaskId, nat>, r: nat, n: TaskId)
    requires Closed(g) && NextNumbers(g, wave, more, r) && n in g && n !in more
    ensures LateDependency(g, more, r + 1, n)
  {
    var d :| d in g[n] && d !in wave.Keys;
    assert d in g;
    assert d in more ==> more[d] == r;
  }

  lemma LayerStep(g: Graph<TaskId>, wave: map<TaskId, nat>, more: map<TaskId, nat>, r: nat)
    requires Closed(g) && Layered(g, wave, r) && NextNumbers(g, wave, more, r)
    ensures Layered(g, more, r + 1)
  {
    forall n | n in more ensures n in g && more[n] < r + 1 && Level(g, more, n) {
      StillLevel(g, wave, more, r, n);
    }
    forall n | n in g && n !in more ensures LateDependency(g, more, r + 1, n) {
      StillLate(g, wave, more, r, n);
    }
  }

  /** No layer can be empty while tasks remain, or they would be deadlocked. */
  lemma EmptyLayerIsDeadlock(g: Graph<TaskId>, tasks: seq<Task>, wave: map<TaskId, nat>) returns (waiting: set<TaskId>)
    requires GraphOf(g, tasks) && RestOf(tasks, wave) != [] && ReadyOf(RestOf(tasks, wave), wave.Keys) == []
    ensures Deadlock(g, waiting)
  {
    waiting := set n | n in g && n !in wave;
    RestMembers(tasks, wave);
    ReadyMembers(RestOf(tasks, wave), wave.Keys);
    assert RestOf(tasks, wave)[0].id in waiting;
    forall n | n in waiting ensures WaitsIn(g, waiting, n) {
      var t :| t in tasks && t.id == n;
      assert t in RestOf(tasks, wave);
      var d :| d in t.dependsOn && d !in wave.Keys;
      assert d in waiting;
    }
  }

  /** The layering state: the tasks still to place, and the layers already listed. */
  ghost predicate Listing(g: Graph<TaskId>, tasks: seq<Task>, wave: map<TaskId, nat>, waves: seq<seq<TaskId>>,
                          remaining: seq<Task>) {
    && remaining == RestOf(tasks, wave)
    && Layered(g, wave, |waves|)
    && (forall w :: 0 <= w < |waves| ==> waves[w] == OfWave(TaskIds(tasks), wave, w))
  }

  lemma ListNext(g: Graph<TaskId>, tasks: seq<Task>, wave: map<TaskId, nat>, waves: seq<seq<TaskId>>,
                 remaining: seq<Task>)
    requires GraphOf(g, tasks) && Listing(g, tasks, wave, waves, remaining)
    ensures var ready := ReadyOf(remaining, wave.Keys);
            Listing(g, tasks, Place(wave, ready, |waves|), waves + [TaskIds(ready)], WaitingOf(remaining, wave.Keys))
  {
    PlacedIsNextLayer(g, tasks, wave, |waves|);
    ReadyAreNodes(g, tasks, wave);
    var more := Place(wave, ReadyOf(remaining, wave.Keys), |waves|);
    assert more.Keys <= g.Keys;
    ListWith(g, tasks, wave, waves, more);
  }

  lemma ListWith(g: Graph<TaskId>, tasks: seq<Task>, wave: map<TaskId, nat>, waves: seq<seq<TaskId>>,
                 more: map<TaskId, nat>)
    requires GraphOf(g, tasks) && Listing(g, tasks, wave, waves, RestOf(tasks, wave))
    requires NextLayer(tasks, wave, more, |waves|) && more.Keys <= g.Keys
    ensures Listing(g, tasks, more, waves + [TaskIds(ReadyOf(RestOf(tasks, wave), wave.Keys))],
                    WaitingOf(RestOf(tasks, wave), wave.Keys))
  {
    NumbersOf(g, tasks, wave, more, |waves|);
    LayerStep(g, wave, more, |waves|);
    NextLists(tasks, wave, waves, more);
  }

  lemma NextLists(tasks: seq<Task>, wave: map<TaskId, nat>, waves: seq<seq<TaskId>>, more: map<TaskId, nat>)
    requires NextLayer(tasks, wave, more, |waves|)
    requires forall w :: 0 <= w < |waves| ==> waves[w] == OfWave(TaskIds(tasks), wave, w)
    ensures WaitingOf(RestOf(tasks, wave), wave.Keys) == RestOf(tasks, more)
    ensures var next := waves + [TaskIds(ReadyOf(RestOf(tasks, wave), wave.Keys))];
            forall w :: 0 <= w < |next| ==> next[w] == OfWave(TaskIds(tasks), more, w)
  {
    LayerContents(tasks, wave, more, |waves|);
    forall w | 0 <= w < |waves| ensures OfWave(TaskIds(tasks), more, w) == waves[w] {
      OlderLayersStay(tasks, wave, more, |waves|, w);
    }
  }

  /** The layering loop. On an acyclic plan every task is placed, in its longest-chain layer,
      and each layer lists its tasks in authored order. */
  method Layers(tasks: seq<Task>, ghost g: Graph<TaskId>, ghost order: seq<TaskId>)
    returns (wave: map<TaskId, nat>, waves: seq<seq<TaskId>>)
    requires GraphOf(g, tasks) && TopologicalOrder(g, order)
    ensures Levelled(g, wave)
    ensures forall w :: 0 <= w < |waves| ==> waves[w] == OfWave(TaskIds(tasks), wave, w)
    ensures forall n :: n in wave ==> wave[n] < |waves|
  {
    wave, waves := map[], [];
    var remaining := new Task[|tasks|](i requires 0 <= i < |tasks| => tasks[i]);
    var n: nat := |tasks|;
    NothingPlaced(tasks);
    assert remaining[..n] == tasks;
    while n > 0
      invariant n <= remaining.Length
      invariant Listing(g, tasks, wave, waves, remaining[..n])
      decreases n
    {
      ReadyMembers(remaining[..n], wave.Keys);
      ListNext(g, tasks, wave, waves, remaining[..n]);
      ghost var held := remaining[..n];
      var ready, rest := TakeLayer(remaining, n, wave.Keys);
      if ready == [] {
        ghost var waiting := EmptyLayerIsDeadlock(g, tasks, wave);
        DeadlockHasNoOrder(g, order, waiting);
        break;
      }
      assert rest == |WaitingOf(held, wave.Keys)| < n;
      wave, waves, n := Place(wave, ready, |waves|), waves + [TaskIds(ready)], rest;
    }
    AllPlacedIsLevelled(g, tasks, wave, |waves|);
  }

  lemma {:induction false} NothingPlaced(tasks: seq<Task>)
    ensures RestOf(tasks, map[]) == tasks
  {
    if tasks != [] {
      NothingPlaced(tasks[..|tasks| - 1]);
    }
  }

  lemma ReadyAreNodes(g: Graph<TaskId>, tasks: seq<Task>, wave: map<TaskId, nat>)
    requires GraphOf(g, tasks)
    ensures forall t :: t in ReadyOf(RestOf(tasks, wave), wave.Keys) ==> t.id in g
  {
    RestMembers(tasks, wave);
    ReadyMembers(RestOf(tasks, wave), wave.Keys);
  }

  lemma AllPlacedIsLevelled(g: Graph<TaskId>, tasks: seq<Task>, wave: map<TaskId, nat>, r: nat)
    requires GraphOf(g, tasks) && Layered(g, wave, r) && RestOf(tasks, wave) == []
    ensures Levelled(g, wave)
  {
    RestMembers(tasks, wave);
    forall n | n in g ensures n in wave {
      var t :| t in tasks && t.id == n;
      assert t !in RestOf(tasks, wave);
    }
    assert wave.Keys == g.Keys;
    assert forall n :: n in g ==> Level(g, wave, n);
  }

  // ---------------------------------------------------------------------------------
  // projectTaskWaves
  // ---------------------------------------------------------------------------------

  function TasksOf(rows: seq<Row>): (tasks: seq<Task>)
    ensures |tasks| == |rows| && forall i :: 0 <= i < |rows| ==> tasks[i] == rows[i].task
  {
    seq(|rows|, i requires 0 <= i < |rows| => rows[i].task)
  }

  lemma UsableGraph(rows: seq<Row>)
    requires Declared(rows)
    ensures GraphOf(DependencyMap(rows), TasksOf(rows)) && TaskIds(TasksOf(rows)) == Ids(rows)
  {
    DeclaredIsClosed(rows);
    DependencyMapAt(rows);
    var g, tasks := DependencyMap(rows), TasksOf(rows);
    forall t | t in tasks ensures t.id in g && g[t.id] == t.dependsOn {
      var i :| 0 <= i < |tasks| && tasks[i] == t;
    }
    forall n | n in g ensures exists t :: t in tasks && t.id == n {
      assert n in Ids(rows);
      var i :| 0 <= i < |rows| && Ids(rows)[i] == n;
      assert tasks[i] in tasks;
    }
  }

  lemma ChecksEstablish(tasks: seq<Task>, from: seq<bool>, alone: seq<bool>, sound: seq<bool>, valid: seq<bool>)
    requires |from| == |alone| == |sound| == |valid| == |tasks|
    requires forall i :: 0 <= i < |tasks| && from[i] ==> tasks[i].id != ""
    requires forall i :: 0 <= i < |tasks| ==> (alone[i] <==> from[i] && !Shared(tasks, from, i))
    requires forall i :: 0 <= i < |tasks| ==> (sound[i] <==> alone[i] && Sound(tasks, i))
    requires GreatestSupported(tasks, Flagged(sound), Flagged(valid))
    ensures Checked(tasks, valid)
  {
    forall i | 0 <= i < |tasks| && valid[i]
      ensures sound[i] && alone[i] && tasks[i].id != "" && tasks[i].id !in tasks[i].dependsOn
    {
      assert i in Flagged(valid) && i in Flagged(sound);
    }
  }

  /** On a declared plan with every row valid the earlier checks reject nothing. */
  lemma DeclaredPassesChecks(tasks: seq<Task>, valid: seq<bool>)
    requires |valid| == |tasks| && (forall i :: 0 <= i < |tasks| ==> valid[i])
    requires Declared(Usable(tasks, valid))
    ensures forall i :: 0 <= i < |tasks| ==> !Shared(tasks, valid, i) && Sound(tasks, i)
    ensures Supported(tasks, Flagged(valid))
  {
    AllUsable(tasks, valid);
    var rows := Usable(tasks, valid);
    forall i | 0 <= i < |tasks| ensures !Shared(tasks, valid, i) {
      forall j | 0 <= j < |tasks| && j != i ensures tasks[j].id != tasks[i].id {
        assert Ids(rows)[i] == tasks[i].id && Ids(rows)[j] == tasks[j].id;
      }
    }
    forall i | 0 <= i < |tasks| ensures Sound(tasks, i) && RestsOn(tasks, Flagged(valid), i) {
      assert rows[i].task == tasks[i];
      forall d | d in tasks[i].dependsOn
        ensures d != tasks[i].id && |RowsOf(tasks, d)| == 1 && RowsOf(tasks, d)[0] in Flagged(valid)
      {
        assert d in Ids(rows);
        var k :| 0 <= k < |rows| && Ids(rows)[k] == d;
        SingleRow(tasks, d, k);
      }
    }
  }

  lemma {:induction false} AllUsable(tasks: seq<Task>, valid: seq<bool>)
    requires |valid| == |tasks| && (forall i :: 0 <= i < |tasks| ==> valid[i])
    ensures |Usable(tasks, valid)| == |tasks|
    ensures forall i :: 0 <= i < |tasks| ==> Usable(tasks, valid)[i] == Row(tasks[i], true)
  {
    if tasks != [] {
      AllUsable(tasks[..|tasks| - 1], valid[..|tasks| - 1]);
    }
  }

  lemma SingleRow(tasks: seq<Task>, id: TaskId, k: nat)
    requires k < |tasks| && tasks[k].id == id && id != ""
    requires forall j :: 0 <= j < |tasks| && j != k ==> tasks[j].id != id
    ensures RowsOf(tasks, id) == [k]
  {
    var at := RowsOf(tasks, id);
    RowsDistinct(tasks, id);
    assert k in at;
    var x :| 0 <= x < |at| && at[x] == k;
    forall y | 0 <= y < |at| ensures at[y] == k && y == x {
      assert at[y] in at;
    }
    assert at[0] == k;
    assert at[|at| - 1] == k;
    assert at == [k];
  }

  lemma {:induction false} UsableDependsOnFlags(tasks: seq<Task>, valid: seq<bool>, path: seq<nat>, more: seq<bool>)
    requires |valid| == |more| == |tasks| && RowCycle(tasks, valid, path)
    requires forall i :: 0 <= i < |tasks| && valid[i] ==> more[i]
    ensures RowCycle(tasks, more, path)
  {
  }

  /** The checks that precede the search: duplicates, bad dependencies, what rests on them. */
  method CheckPlan(tasks: seq<Task>, declared: map<TaskId, seq<nat>>, valid: array<bool>)
    returns (diagnostics: seq<Diagnostic>)
    requires valid.Length == |tasks| && Collected(declared, tasks)
    requires forall i :: 0 <= i < |tasks| && valid[i] ==> tasks[i].id != ""
    modifies valid
    ensures Checked(tasks, valid[..])
    ensures forall i :: 0 <= i < |tasks| && valid[i] ==> old(valid[i])
    ensures diagnostics == [] ==> GreatestSupported(tasks, old(Flagged(valid[..])), Flagged(valid[..]))
    ensures (forall i :: 0 <= i < |tasks| ==> old(valid[i])) && Declared(Usable(tasks, old(valid[..]))) ==>
              diagnostics == [] && valid[..] == old(valid[..])
    ensures forall d :: d in diagnostics ==> !d.CycleRows?
  {
    ghost var from := valid[..];
    if (forall i :: 0 <= i < |tasks| ==> from[i]) && Declared(Usable(tasks, from)) {
      DeclaredPassesChecks(tasks, from);
    }
    diagnostics := RejectDuplicates(tasks, declared, valid);
    ghost var alone := valid[..];
    var more := RejectDependencies(tasks, declared, valid);
    diagnostics := diagnostics + more;
    ghost var sound := valid[..];
    InvalidateDependents(tasks, declared, valid);
    ChecksEstablish(tasks, from, alone, sound, valid[..]);
    forall i | 0 <= i < |tasks| && valid[i] ensures from[i] {
      assert i in Flagged(valid[..]) && i in Flagged(sound);
    }
    if Supported(tasks, Flagged(from)) && sound == from {
      assert Flagged(valid[..]) == Flagged(from);
      forall i | 0 <= i < |tasks| ensures valid[i] == from[i] {
        assert i in Flagged(valid[..]) <==> i in Flagged(from);
      }
    }
  }

  function RowSet(path: seq<nat>): set<nat> {
    set i | i in path
  }

  method DropRows(valid: array<bool>, path: seq<nat>)
    requires forall i :: i in path ==> i < valid.Length
    modifies valid
    ensures Flagged(valid[..]) == old(Flagged(valid[..])) - RowSet(path)
  {
    for k := 0 to |path|
      invariant forall i :: 0 <= i < valid.Length ==> (valid[i] <==> old(valid[i]) && i !in path[..k])
    {
      assert path[k] in path;
      valid[path[k]] := false;
      assert path[..k + 1] == path[..k] + [path[k]];
    }
    assert path[..|path|] == path;
  }

  /** projectTaskWaves. Without diagnostics the valid rows are the greatest set that stands on
      its own, they are acyclic, and the layers are their longest-chain waves; on a declared
      plan the one diagnostic possible is a cycle, reported exactly when there is one. */
  method ProjectTaskWaves(tasks: seq<Task>, valid: array<bool>)
    returns (diagnostics: seq<Diagnostic>, waves: seq<seq<TaskId>>, ghost wave: map<TaskId, nat>)
    requires valid.Length == |tasks|
    requires forall i :: 0 <= i < |tasks| && valid[i] ==> tasks[i].id != ""
    modifies valid
    ensures diagnostics == [] ==>
              var rows := Usable(tasks, valid[..]);
              && Declared(rows) && !Cyclic(DependencyMap(rows))
              && GreatestSupported(tasks, old(Flagged(valid[..])), Flagged(valid[..]))
              && Levelled(DependencyMap(rows), wave)
              && (forall w :: 0 <= w < |waves| ==> waves[w] == OfWave(Ids(rows), wave, w))
              && (forall n :: n in wave ==> wave[n] < |waves|)
    ensures (forall i :: 0 <= i < |tasks| ==> old(valid[i])) && Declared(Usable(tasks, old(valid[..]))) ==>
              if Cyclic(DependencyMap(Usable(tasks, old(valid[..]))))
              then |diagnostics| == 1 && diagnostics[0].CycleRows? && waves == []
              else diagnostics == [] && valid[..] == old(valid[..])
    ensures forall k :: 0 <= k < |diagnostics| && diagnostics[k].CycleRows? ==>
              RowCycle(tasks, old(valid[..]), diagnostics[k].path)
    ensures |diagnostics| == 1 && diagnostics[0].CycleRows? ==>
              GreatestSupported(tasks, old(Flagged(valid[..])) - RowSet(diagnostics[0].path), Flagged(valid[..]))
  {
    wave, waves := map[], [];
    ghost var from := valid[..];
    var declared := CollectDeclared(tasks);
    diagnostics := CheckPlan(tasks, declared, valid);
    var found, path, order := FindCycle(tasks, valid[..]);
    if found {
      UsableDependsOnFlags(tasks, valid[..], path, from);
      ghost var checked := Flagged(valid[..]);
      DropRows(valid, path);
      InvalidateDependents(tasks, declared, valid);
      if diagnostics == [] {
        GreatestWithout(tasks, Flagged(from), checked, Flagged(valid[..]), RowSet(path));
      }
      diagnostics := diagnostics + [CycleRows(path)];
      return;
    }
    if diagnostics != [] { return; }
    var rows := Usable(tasks, valid[..]);
    CheckedIsDeclared(tasks, valid[..]);
    UsableGraph(rows);
    OrderMeansAcyclic(DependencyMap(rows), order);
    var numbered: map<TaskId, nat>;
    numbered, waves := Layers(TasksOf(rows), DependencyMap(rows), order);
    wave := numbered;
  }

  /** The planner and the task graph put every task in the same wave, though the order inside
      a wave may differ: authored order here, emission order there. */
  lemma PlannerAgreesWithGraph(rows: seq<Row>, order: seq<TaskId>, planned: map<TaskId, nat>, built: map<TaskId, nat>,
                               w: nat)
    requires Declared(rows) && TopologicalOrder(DependencyMap(rows), order)
    requires Levelled(DependencyMap(rows), planned) && Levelled(DependencyMap(rows), built)
    ensures planned == built
    ensures forall id :: id in OfWave(Ids(rows), planned, w) <==> id in OfWave(order, built, w)
  {
    LevelsAgree(DependencyMap(rows), planned, built);
    DependencyMapAt(rows);
    OfWaveMembers(Ids(rows), planned, w);
    OfWaveMembers(order, built, w);
  }

  lemma {:induction false} OfWaveMembers(order: seq<TaskId>, wave: map<TaskId, nat>, w: nat)
    ensures forall id :: id in OfWave(order, wave, w) <==> id in order && id in wave && wave[id] == w
  {
    if order != [] {
      OfWaveMembers(order[..|order| - 1], wave, w);
      assert order == order[..|order| - 1] + [order[|order| - 1]];
    }
  }
}
