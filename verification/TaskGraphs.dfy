/** BuildTaskGraph (taskgraph.go): validation, Kahn's loop over an indegree table, and the
    longest-path wave numbers. */
module TaskGraphs {
  import opened Records
  import opened Graphs
  import opened Search

  /** One parsed row of tasks.md and the Valid flag the parser left on it. */
  datatype Row = Row(task: Task, valid: bool)

  datatype Refusal =
    | Diagnosed | EmptyId | InvalidRow | DuplicateId | SelfDependency | MissingDependency
    | DependencyCycle(path: seq<TaskId>)

  datatype TaskGraph = TaskGraph(
    authored: seq<TaskId>, order: seq<TaskId>, waves: seq<seq<TaskId>>,
    dependencies: Graph<TaskId>, dependents: map<TaskId, seq<TaskId>>, wave: map<TaskId, nat>)

  function Ids(rows: seq<Row>): (ids: seq<TaskId>)
    ensures |ids| == |rows| && forall i :: 0 <= i < |rows| ==> ids[i] == rows[i].task.id
  {
    seq(|rows|, i requires 0 <= i < |rows| => rows[i].task.id)
  }

  function DependencyMap(rows: seq<Row>): Graph<TaskId> {
    if rows == [] then map[]
    else
      var last := rows[|rows| - 1].task;
      DependencyMap(rows[..|rows| - 1])[last.id := last.dependsOn]
  }

  /** Nothing links a task to itself or to a task that does not exist. */
  ghost predicate Linkable(rows: seq<Row>, authored: seq<TaskId>, i: nat)
    requires i <= |rows|
  {
    forall j, d {:trigger d in rows[j].task.dependsOn} ::
      0 <= j < i && d in rows[j].task.dependsOn ==> d != rows[j].task.id && d in authored
  }

  /** Usable rows: unique non-empty ids, no self-dependency, every dependency declared. */
  ghost predicate Declared(rows: seq<Row>) {
    && (forall i :: 0 <= i < |rows| ==> rows[i].task.id != "" && rows[i].valid)
    && Distinct(Ids(rows))
    && Linkable(rows, Ids(rows), |rows|)
  }

  lemma {:induction false} DependencyMapAt(rows: seq<Row>)
    requires Distinct(Ids(rows))
    ensures forall n :: n in DependencyMap(rows) <==> n in Ids(rows)
    ensures forall i :: 0 <= i < |rows| ==>
              rows[i].task.id in DependencyMap(rows) && DependencyMap(rows)[rows[i].task.id] == rows[i].task.dependsOn
  {
    if rows != [] {
      var before := rows[..|rows| - 1];
      assert Ids(rows) == Ids(before) + [rows[|rows| - 1].task.id];
      assert Distinct(Ids(before)) by {
        forall i, j | 0 <= i < j < |before| ensures Ids(before)[i] != Ids(before)[j] {
          assert Ids(rows)[i] != Ids(rows)[j];
        }
      }
      DependencyMapAt(before);
      forall i | 0 <= i < |rows|
        ensures rows[i].task.id in DependencyMap(rows) && DependencyMap(rows)[rows[i].task.id] == rows[i].task.dependsOn
      {
        if i < |before| {
          assert Ids(rows)[i] != Ids(rows)[|before|];
          assert before[i] == rows[i];
        }
      }
    }
  }

  lemma DeclaredIsClosed(rows: seq<Row>)
    requires Declared(rows)
    ensures Closed(DependencyMap(rows))
    ensures forall n :: n in DependencyMap(rows) ==> n !in DependencyMap(rows)[n]
  {
    DependencyMapAt(rows);
    forall n | n in DependencyMap(rows)
      ensures n !in DependencyMap(rows)[n] && forall d :: d in DependencyMap(rows)[n] ==> d in DependencyMap(rows)
    {
      assert n in Ids(rows);
      var i :| 0 <= i < |rows| && Ids(rows)[i] == n;
    }
  }

  // ---------------------------------------------------------------------------------
  // Counting
  // ---------------------------------------------------------------------------------

  /** How often `x` occurs in `s`. */
  function Times<N(==)>(s: seq<N>, x: N): nat {
    if s == [] then 0 else Times(s[..|s| - 1], x) + (if s[|s| - 1] == x then 1 else 0)
  }

  lemma TimesAppend<N>(s: seq<N>, y: N, x: N)
    ensures Times(s + [y], x) == Times(s, x) + (if y == x then 1 else 0)
  {
    assert (s + [y])[..|s|] == s;
  }

  lemma {:induction false} TimesPositive<N>(s: seq<N>, x: N)
    ensures Times(s, x) > 0 <==> x in s
  {
    if s != [] {
      TimesPositive(s[..|s| - 1], x);
      assert s == s[..|s| - 1] + [s[|s| - 1]];
    }
  }

  /** How many entries of a dependency list are not done yet. */
  function Open(ds: seq<TaskId>, done: set<TaskId>): nat {
    if ds == [] then 0
    else Open(ds[..|ds| - 1], done) + (if ds[|ds| - 1] in done then 0 else 1)
  }

  lemma {:induction false} OpenAfter(ds: seq<TaskId>, done: set<TaskId>, next: TaskId)
    requires next !in done
    ensures Open(ds, done + {next}) == Open(ds, done) - Times(ds, next)
  {
    if ds != [] {
      OpenAfter(ds[..|ds| - 1], done, next);
    }
  }

  lemma {:induction false} OpenZero(ds: seq<TaskId>, done: set<TaskId>)
    ensures Open(ds, done) == 0 <==> forall d :: d in ds ==> d in done
    ensures Open(ds, {}) == |ds|
  {
    if ds != [] {
      OpenZero(ds[..|ds| - 1], done);
      assert ds == ds[..|ds| - 1] + [ds[|ds| - 1]];
    }
  }

  function Elements<N>(s: seq<N>): set<N> {
    set n | n in s
  }

  lemma {:induction false} DistinctCount<N(!new)>(s: seq<N>)
    requires Distinct(s)
    ensures |Elements(s)| == |s|
  {
    if s != [] {
      var last := |s| - 1;
      assert s == s[..last] + [s[last]];
      assert Distinct(s[..last]);
      DistinctCount(s[..last]);
      assert Elements(s) == Elements(s[..last]) + {s[last]};
      assert s[last] !in s[..last];
    }
  }

  lemma {:induction false} SubsetSize<N>(a: set<N>, b: set<N>)
    requires a <= b
    ensures |a| <= |b| && (|a| == |b| ==> a == b)
  {
    if a == {} {
      assert |b| == 0 ==> b == {};
    } else {
      var x :| x in a;
      SubsetSize(a - {x}, b - {x});
    }
  }

  // ---------------------------------------------------------------------------------
  // Reverse edges
  // ---------------------------------------------------------------------------------

  /** Reverse edges keep multiplicity: `id` occurs in dependents[d] as often as d in its dependencies. */
  ghost predicate Reversed(g: Graph<TaskId>, dependents: map<TaskId, seq<TaskId>>) {
    && dependents.Keys == g.Keys
    && (forall d :: d in g ==> forall id :: id in dependents[d] ==> id in g)
    && (forall d, id :: d in g && id in g ==> Times(dependents[d], id) == Times(g[id], d))
  }

  /** The reverse edges once the first `i` tasks and `k` dependencies of the next are linked. */
  function Linked(g: Graph<TaskId>, authored: seq<TaskId>, i: nat, k: nat, d: TaskId, id: TaskId): nat
    requires i <= |authored| && id in g && (i < |authored| ==> authored[i] in g && k <= |g[authored[i]]|)
  {
    if id in authored[..i] then Times(g[id], d)
    else if i < |authored| && id == authored[i] then Times(g[id][..k], d)
    else 0
  }

  ghost predicate ReversedUpTo(g: Graph<TaskId>, dependents: map<TaskId, seq<TaskId>>, authored: seq<TaskId>, i: nat,
                               k: nat)
    requires i <= |authored| && (i < |authored| ==> authored[i] in g && k <= |g[authored[i]]|)
  {
    && dependents.Keys == g.Keys
    && (forall d :: d in g ==> forall id :: id in dependents[d] ==> id in g)
    && (forall d, id :: d in g && id in g ==> Times(dependents[d], id) == Linked(g, authored, i, k, d, id))
  }

  lemma ReverseOne(g: Graph<TaskId>, dependents: map<TaskId, seq<TaskId>>, authored: seq<TaskId>, i: nat, k: nat)
    requires Distinct(authored) && i < |authored| && authored[i] in g && k < |g[authored[i]]|
    requires g[authored[i]][k] in g
    requires ReversedUpTo(g, dependents, authored, i, k)
    ensures var id, d := authored[i], g[authored[i]][k];
            d in dependents && ReversedUpTo(g, dependents[d := dependents[d] + [id]], authored, i, k + 1)
  {
    var id, d := authored[i], g[authored[i]][k];
    var more := dependents[d := dependents[d] + [id]];
    assert g[id][..k + 1] == g[id][..k] + [d];
    assert id !in authored[..i];
    forall e, x | e in g && x in g ensures Times(more[e], x) == Linked(g, authored, i, k + 1, e, x) {
      TimesAppend(dependents[d], id, x);
      TimesAppend(g[id][..k], d, e);
      assert Times(dependents[e], x) == Linked(g, authored, i, k, e, x);
    }
  }

  lemma ReverseRow(g: Graph<TaskId>, dependents: map<TaskId, seq<TaskId>>, authored: seq<TaskId>, i: nat)
    requires i < |authored| && forall n :: n in authored ==> n in g
    requires ReversedUpTo(g, dependents, authored, i, |g[authored[i]]|)
    ensures ReversedUpTo(g, dependents, authored, i + 1, 0)
  {
    assert authored[..i + 1] == authored[..i] + [authored[i]];
    assert g[authored[i]][..|g[authored[i]]|] == g[authored[i]];
    forall d, id | d in g && id in g
      ensures Linked(g, authored, i + 1, 0, d, id) == Linked(g, authored, i, |g[authored[i]]|, d, id)
    {
      if i + 1 < |authored| {
        assert g[authored[i + 1]][..0] == [];
      }
    }
  }

  /** The second validation loop, one row: reject self and missing dependencies, collect the
      reverse edges. */
  method LinkRow(rows: seq<Row>, authored: seq<TaskId>, g: Graph<TaskId>, linked: map<TaskId, seq<TaskId>>, i: nat)
    returns (refusal: Option<Refusal>, dependents: map<TaskId, seq<TaskId>>)
    requires i < |rows| && |authored| == |rows| && Distinct(authored) && (forall n :: n in authored <==> n in g)
    requires authored[i] == rows[i].task.id && g[authored[i]] == rows[i].task.dependsOn
    requires ReversedUpTo(g, linked, authored, i, 0)
    ensures refusal.None? <==> forall d :: d in rows[i].task.dependsOn ==> d != rows[i].task.id && d in authored
    ensures refusal.Some? ==> refusal.value.SelfDependency? || refusal.value.MissingDependency?
    ensures refusal.None? ==> ReversedUpTo(g, dependents, authored, i + 1, 0)
  {
    hide ReversedUpTo;
    dependents := linked;
    var task := rows[i].task;
    for k := 0 to |task.dependsOn|
      invariant ReversedUpTo(g, dependents, authored, i, k)
      invariant forall j :: 0 <= j < k ==> task.dependsOn[j] != task.id && task.dependsOn[j] in authored
    {
      var d := task.dependsOn[k];
      assert d in rows[i].task.dependsOn;
      if d == task.id { return Some(SelfDependency), dependents; }
      if d !in g { return Some(MissingDependency), dependents; }
      ReverseOne(g, dependents, authored, i, k);
      dependents := dependents[d := dependents[d] + [task.id]];
    }
    ReverseRow(g, dependents, authored, i);
    return None, dependents;
  }

  method LinkDependents(rows: seq<Row>, authored: seq<TaskId>, g: Graph<TaskId>)
    returns (refusal: Option<Refusal>, dependents: map<TaskId, seq<TaskId>>)
    requires authored == Ids(rows) && Distinct(authored) && g == DependencyMap(rows)
    ensures refusal.None? <==> Linkable(rows, authored, |rows|)
    ensures refusal.Some? ==> refusal.value.SelfDependency? || refusal.value.MissingDependency?
    ensures refusal.None? ==> Reversed(g, dependents)
  {
    DependencyMapAt(rows);
    dependents := map n | n in g :: [];
    StartReversed(g, dependents, authored);
    assert Linkable(rows, authored, 0);
    hide ReversedUpTo, DependencyMap, Linkable;
    for i := 0 to |rows|
      invariant ReversedUpTo(g, dependents, authored, i, 0)
      invariant Linkable(rows, authored, i)
    {
      LinkableNext(rows, authored, i);
      refusal, dependents := LinkRow(rows, authored, g, dependents, i);
      if refusal.Some? { return; }
    }
    assert authored[..|rows|] == authored;
    AllLinked(g, dependents, authored);
    return None, dependents;
  }

  lemma LinkableNext(rows: seq<Row>, authored: seq<TaskId>, i: nat)
    requires i < |rows| && Linkable(rows, authored, i)
    ensures Linkable(rows, authored, i + 1) <==> forall d :: d in rows[i].task.dependsOn ==>
              d != rows[i].task.id && d in authored
    ensures Linkable(rows, authored, |rows|) ==> Linkable(rows, authored, i + 1)
  {
  }

  lemma StartReversed(g: Graph<TaskId>, dependents: map<TaskId, seq<TaskId>>, authored: seq<TaskId>)
    requires dependents == (map n | n in g :: []) && forall n :: n in authored ==> n in g
    ensures ReversedUpTo(g, dependents, authored, 0, 0)
  {
    forall d, id | d in g && id in g ensures Linked(g, authored, 0, 0, d, id) == 0 {
      if |authored| > 0 {
        assert g[authored[0]][..0] == [];
      }
    }
  }

  lemma AllLinked(g: Graph<TaskId>, dependents: map<TaskId, seq<TaskId>>, authored: seq<TaskId>)
    requires (forall n :: n in authored <==> n in g) && ReversedUpTo(g, dependents, authored, |authored|, 0)
    ensures Reversed(g, dependents)
  {
    assert authored[..|authored|] == authored;
    forall d, id | d in g && id in g ensures Times(dependents[d], id) == Times(g[id], d) {
      assert Times(dependents[d], id) == Linked(g, authored, |authored|, 0, d, id);
    }
  }

  // ---------------------------------------------------------------------------------
  // Kahn's loop
  // ---------------------------------------------------------------------------------

  /** Kahn's table: -1 for a finished task, otherwise the number of unfinished dependencies. */
  ghost predicate Counted(g: Graph<TaskId>, indegree: map<TaskId, int>, order: seq<TaskId>) {
    && indegree.Keys == g.Keys
    && (forall n :: n in g ==> indegree[n] == if n in order then -1 else Open(g[n], Elements(order)))
  }

  /** A topological order of the part already emitted. */
  ghost predicate Emitted(g: Graph<TaskId>, order: seq<TaskId>) {
    && Distinct(order)
    && (forall n :: n in order ==> n in g)
    && (forall k, d :: 0 <= k < |order| && order[k] in g && d in g[order[k]] ==> d in order[..k])
  }

  ghost predicate Ready(g: Graph<TaskId>, order: seq<TaskId>, next: TaskId) {
    next in g && next !in order && forall d :: d in g[next] ==> d in order
  }

  lemma EmitNext(g: Graph<TaskId>, order: seq<TaskId>, next: TaskId)
    requires Emitted(g, order) && Ready(g, order, next)
    ensures Emitted(g, order + [next])
  {
    FinishedExtends(g, order, next);
  }

  /** A task already emitted, and the task just emitted, wait for nothing any more. */
  lemma NoLongerWaiting(g: Graph<TaskId>, dependents: map<TaskId, seq<TaskId>>, order: seq<TaskId>, next: TaskId,
                        id: TaskId)
    requires Reversed(g, dependents) && Emitted(g, order) && Ready(g, order, next)
    requires id in dependents[next]
    ensures id in g && id !in order && id != next
  {
    TimesPositive(dependents[next], id);
    TimesPositive(g[id], next);
    assert forall k :: 0 <= k < |order| && next in g[order[k]] ==> next in order[..k];
  }

  method Decrement(g: Graph<TaskId>, dependents: map<TaskId, seq<TaskId>>, table: map<TaskId, int>,
                   order: seq<TaskId>, next: TaskId)
    returns (indegree: map<TaskId, int>)
    requires Reversed(g, dependents) && Emitted(g, order) && Counted(g, table, order)
    requires Ready(g, order, next)
    ensures Counted(g, indegree, order + [next])
  {
    indegree := table[next := -1];
    assert next in g && dependents.Keys == g.Keys;
    var waiting := dependents[next];
    for j := 0 to |waiting|
      invariant Lowered(g, table, indegree, next, waiting[..j])
    {
      NoLongerWaiting(g, dependents, order, next, waiting[j]);
      LoweredNext(g, table, indegree, next, waiting, j);
      indegree := indegree[waiting[j] := indegree[waiting[j]] - 1];
    }
    assert waiting[..|waiting|] == waiting;
    LoweredIsCounted(g, dependents, table, indegree, order, next);
  }

  /** The table while the dependents of `next` are counted down. */
  ghost predicate Lowered(g: Graph<TaskId>, table: map<TaskId, int>, indegree: map<TaskId, int>, next: TaskId,
                          done: seq<TaskId>) {
    && indegree.Keys == g.Keys && table.Keys == g.Keys
    && forall n :: n in g ==> indegree[n] == if n == next then -1 else table[n] - Times(done, n)
  }

  lemma LoweredNext(g: Graph<TaskId>, table: map<TaskId, int>, indegree: map<TaskId, int>, next: TaskId,
                    waiting: seq<TaskId>, j: nat)
    requires j < |waiting| && Lowered(g, table, indegree, next, waiting[..j])
    requires waiting[j] in g && waiting[j] != next
    ensures Lowered(g, table, indegree[waiting[j] := indegree[waiting[j]] - 1], next, waiting[..j + 1])
  {
    var id := waiting[j];
    assert waiting[..j + 1] == waiting[..j] + [id];
    forall n ensures Times(waiting[..j + 1], n) == Times(waiting[..j], n) + (if id == n then 1 else 0) {
      TimesAppend(waiting[..j], id, n);
    }
  }

  lemma LoweredIsCounted(g: Graph<TaskId>, dependents: map<TaskId, seq<TaskId>>, table: map<TaskId, int>,
                         indegree: map<TaskId, int>,
                         order: seq<TaskId>, next: TaskId)
    requires Reversed(g, dependents) && Emitted(g, order) && Counted(g, table, order) && Ready(g, order, next)
    requires next in g && next in dependents && Lowered(g, table, indegree, next, dependents[next])
    ensures Counted(g, indegree, order + [next])
  {
    var waiting := dependents[next];
    assert Elements(order + [next]) == Elements(order) + {next};
    forall n | n in g
      ensures indegree[n] == if n in order + [next] then -1 else Open(g[n], Elements(order + [next]))
    {
      TimesPositive(waiting, n);
      if n in waiting { NoLongerWaiting(g, dependents, order, next, n); }
      OpenAfter(g[n], Elements(order), next);
    }
  }

  /** The first authored task with nothing left to wait for. */
  method FirstReady(authored: seq<TaskId>, g: Graph<TaskId>, indegree: map<TaskId, int>, ghost order: seq<TaskId>)
    returns (next: Option<TaskId>)
    requires (forall n :: n in authored <==> n in g) && Counted(g, indegree, order)
    ensures next.None? ==> forall n :: n in g ==> indegree[n] != 0
    ensures next.Some? ==> Ready(g, order, next.value)
  {
    for i := 0 to |authored|
      invariant forall j :: 0 <= j < i ==> indegree[authored[j]] != 0
    {
      if indegree[authored[i]] == 0 {
        OpenZero(g[authored[i]], Elements(order));
        return Some(authored[i]);
      }
    }
    return None;
  }

  /** The main loop. Either every task is emitted, or the ones left are deadlocked. */
  method Kahn(authored: seq<TaskId>, g: Graph<TaskId>, dependents: map<TaskId, seq<TaskId>>)
    returns (order: seq<TaskId>, stuck: bool, ghost waiting: set<TaskId>)
    requires Closed(g) && Distinct(authored) && (forall n :: n in authored <==> n in g)
    requires Reversed(g, dependents)
    ensures !stuck ==> TopologicalOrder(g, order)
    ensures stuck ==> Deadlock(g, waiting)
  {
    order, stuck, waiting := [], false, {};
    var indegree: map<TaskId, int> := map n | n in g :: |g[n]|;
    StartCounted(g, indegree);
    while |order| < |authored|
      invariant Emitted(g, order) && Counted(g, indegree, order) && |order| <= |authored|
      decreases |authored| - |order|
    {
      var next := FirstReady(authored, g, indegree, order);
      if next.None? {
        waiting := StuckIsDeadlock(authored, g, indegree, order);
        return order, true, waiting;
      }
      indegree := Decrement(g, dependents, indegree, order, next.value);
      EmitNext(g, order, next.value);
      order := order + [next.value];
    }
    EverythingEmitted(authored, g, order);
  }

  lemma StartCounted(g: Graph<TaskId>, indegree: map<TaskId, int>)
    requires indegree == map n | n in g :: |g[n]|
    ensures Counted(g, indegree, [])
  {
    assert Elements<TaskId>([]) == {};
    forall n | n in g ensures Open(g[n], {}) == |g[n]| {
      OpenZero(g[n], {});
    }
  }

  lemma EverythingEmitted(authored: seq<TaskId>, g: Graph<TaskId>, order: seq<TaskId>)
    requires Distinct(authored) && (forall n :: n in authored <==> n in g)
    requires Emitted(g, order) && |order| == |authored|
    ensures TopologicalOrder(g, order)
  {
    DistinctCount(order);
    DistinctCount(authored);
    assert Elements(order) <= Elements(authored);
    SubsetSize(Elements(order), Elements(authored));
    forall n ensures n in order <==> n in g {
      assert n in order <==> n in Elements(order);
      assert n in authored <==> n in Elements(authored);
    }
  }

  lemma StuckIsDeadlock(authored: seq<TaskId>, g: Graph<TaskId>, indegree: map<TaskId, int>, order: seq<TaskId>)
    returns (waiting: set<TaskId>)
    requires Closed(g) && Distinct(authored) && (forall n :: n in authored <==> n in g)
    requires Emitted(g, order) && Counted(g, indegree, order) && |order| < |authored|
    requires forall n :: n in g ==> indegree[n] != 0
    ensures Deadlock(g, waiting)
  {
    waiting := set n | n in g && n !in order;
    DistinctCount(authored);
    DistinctCount(order);
    if waiting == {} {
      forall n | n in Elements(authored) ensures n in Elements(order) {
        assert n !in waiting;
      }
      SubsetSize(Elements(authored), Elements(order));
    }
    forall n | n in waiting ensures WaitsIn(g, waiting, n) {
      OpenZero(g[n], Elements(order));
      var d :| d in g[n] && d !in Elements(order);
      assert d in waiting;
    }
  }

  // ---------------------------------------------------------------------------------
  // Waves
  // ---------------------------------------------------------------------------------

  /** The ids of `order` with wave `w`, in order. */
  function OfWave(order: seq<TaskId>, wave: map<TaskId, nat>, w: nat): seq<TaskId> {
    if order == [] then []
    else
      var id := order[|order| - 1];
      OfWave(order[..|order| - 1], wave, w) + (if id in wave && wave[id] == w then [id] else [])
  }

  lemma {:induction false} OfWaveSame(order: seq<TaskId>, a: map<TaskId, nat>, b: map<TaskId, nat>, w: nat)
    requires forall id :: id in order ==> id in a && id in b && a[id] == b[id]
    ensures OfWave(order, a, w) == OfWave(order, b, w)
  {
    if order != [] {
      assert order == order[..|order| - 1] + [order[|order| - 1]];
      OfWaveSame(order[..|order| - 1], a, b, w);
    }
  }

  /** The numbering of the tasks emitted so far, level by level. */
  ghost predicate LevelledUpTo(g: Graph<TaskId>, wave: map<TaskId, nat>, order: seq<TaskId>) {
    && (forall n :: n in wave <==> n in order)
    && (forall n {:trigger Level(g, wave, n)} :: n in wave ==> Level(g, wave, n))
  }

  /** One more than the largest wave among the dependencies, or 0. */
  method WaveOf(ds: seq<TaskId>, wave: map<TaskId, nat>) returns (w: nat)
    requires forall d :: d in ds ==> d in wave
    ensures forall d :: d in ds ==> wave[d] < w
    ensures w > 0 ==> exists d :: d in ds && wave[d] + 1 == w
  {
    w := 0;
    for k := 0 to |ds|
      invariant forall j :: 0 <= j < k ==> wave[ds[j]] < w
      invariant w > 0 ==> exists d :: d in ds && wave[d] + 1 == w
    {
      var candidate := wave[ds[k]] + 1;
      assert ds[k] in ds;
      if candidate > w { w := candidate; }
    }
  }

  /** The ids grouped by wave number, no wave empty. */
  ghost predicate Grouped(order: seq<TaskId>, wave: map<TaskId, nat>, waves: seq<seq<TaskId>>) {
    && (forall w :: 0 <= w < |waves| ==> waves[w] == OfWave(order, wave, w) && waves[w] != [])
    && (forall n :: n in order ==> n in wave && wave[n] < |waves|)
  }

  lemma {:induction false} OfWaveEmpty(order: seq<TaskId>, wave: map<TaskId, nat>, w: nat)
    requires forall n :: n in order ==> n in wave && wave[n] < w
    ensures OfWave(order, wave, w) == []
  {
    if order != [] {
      assert order == order[..|order| - 1] + [order[|order| - 1]];
      OfWaveEmpty(order[..|order| - 1], wave, w);
    }
  }

  method NumberWaves(g: Graph<TaskId>, order: seq<TaskId>)
    returns (wave: map<TaskId, nat>, waves: seq<seq<TaskId>>)
    requires TopologicalOrder(g, order)
    ensures Levelled(g, wave) && Grouped(order, wave, waves)
  {
    wave, waves := map[], [];
    for k := 0 to |order|
      invariant LevelledUpTo(g, wave, order[..k]) && Grouped(order[..k], wave, waves)
    {
      var id := order[k];
      DependenciesNumbered(g, order, k, wave);
      var w := WaveOf(g[id], wave);
      WaveNext(g, order, k, wave, waves, w);
      if |waves| <= w { waves := waves + [[]]; }
      wave := wave[id := w];
      waves := waves[w := waves[w] + [id]];
    }
    assert order[..|order|] == order;
    assert wave.Keys == g.Keys;
  }

  lemma DependenciesNumbered(g: Graph<TaskId>, order: seq<TaskId>, k: nat, wave: map<TaskId, nat>)
    requires TopologicalOrder(g, order) && k < |order| && LevelledUpTo(g, wave, order[..k])
    ensures order[k] in g && forall d :: d in g[order[k]] ==> d in wave
  {
    assert forall d :: d in g[order[k]] ==> d in order[..k];
  }

  lemma WaveNext(g: Graph<TaskId>, order: seq<TaskId>, k: nat, wave: map<TaskId, nat>, waves: seq<seq<TaskId>>, w: nat)
    requires TopologicalOrder(g, order) && k < |order|
    requires LevelledUpTo(g, wave, order[..k]) && Grouped(order[..k], wave, waves)
    requires forall d :: d in g[order[k]] ==> d in wave && wave[d] < w
    requires w > 0 ==> exists d :: d in g[order[k]] && d in wave && wave[d] + 1 == w
    ensures w <= |waves|
    ensures var room := if |waves| <= w then waves + [[]] else waves;
            && LevelledUpTo(g, wave[order[k] := w], order[..k + 1])
            && Grouped(order[..k + 1], wave[order[k] := w], room[w := room[w] + [order[k]]])
  {
    assert w <= |waves|;
    assert order[..k + 1] == order[..k] + [order[k]];
    LevelNext(g, order[..k], wave, order[k], w);
    GroupNext(order, k, wave, waves, w);
  }

  lemma LevelNext(g: Graph<TaskId>, before: seq<TaskId>, wave: map<TaskId, nat>, next: TaskId, w: nat)
    requires LevelledUpTo(g, wave, before) && next !in before && next in g
    requires forall d :: d in g[next] ==> d in wave && wave[d] < w
    requires w > 0 ==> exists d :: d in g[next] && d in wave && wave[d] + 1 == w
    ensures LevelledUpTo(g, wave[next := w], before + [next])
  {
    var more := wave[next := w];
    forall n | n in more ensures Level(g, more, n) {
      if n == next {
        if w > 0 {
          var d :| d in g[next] && d in wave && wave[d] + 1 == w;
          assert more[d] + 1 == w;
        }
      } else {
        assert Level(g, wave, n);
        if wave[n] > 0 {
          var d :| d in g[n] && d in wave && wave[d] + 1 == wave[n];
          assert more[d] + 1 == more[n];
        }
      }
    }
  }

  lemma GroupNext(order: seq<TaskId>, k: nat, wave: map<TaskId, nat>, waves: seq<seq<TaskId>>, w: nat)
    requires Distinct(order) && k < |order| && Grouped(order[..k], wave, waves) && w <= |waves|
    ensures var id := order[k];
            var room := if |waves| <= w then waves + [[]] else waves;
            Grouped(order[..k + 1], wave[id := w], room[w := room[w] + [id]])
  {
    var id := order[k];
    var more := wave[id := w];
    var before, after := order[..k], order[..k + 1];
    assert after == before + [id];
    assert id !in before;
    OfWaveEmpty(before, wave, |waves|);
    forall v: nat ensures OfWave(after, more, v) == OfWave(before, wave, v) + (if v == w then [id] else []) {
      assert after[..|after| - 1] == before;
      OfWaveSame(before, wave, more, v);
    }
  }

  // ---------------------------------------------------------------------------------
  // BuildTaskGraph
  // ---------------------------------------------------------------------------------

  /** The first validation loop: named, valid, unique. */
  method CheckRows(rows: seq<Row>) returns (refusal: Option<Refusal>)
    ensures refusal.None? <==>
              (forall i :: 0 <= i < |rows| ==> rows[i].task.id != "" && rows[i].valid) && Distinct(Ids(rows))
    ensures refusal.Some? ==> refusal.value.EmptyId? || refusal.value.InvalidRow? || refusal.value.DuplicateId?
  {
    var seen: set<TaskId> := {};
    for i := 0 to |rows|
      invariant forall j :: 0 <= j < i ==> rows[j].task.id != "" && rows[j].valid
      invariant forall id :: id in seen <==> id in Ids(rows)[..i]
      invariant Distinct(Ids(rows)[..i])
    {
      var task := rows[i].task;
      if task.id == "" { return Some(EmptyId); }
      if !rows[i].valid { return Some(InvalidRow); }
      if task.id in seen {
        var j :| 0 <= j < i && Ids(rows)[..i][j] == task.id;
        assert Ids(rows)[j] == Ids(rows)[i];
        return Some(DuplicateId);
      }
      assert Ids(rows)[..i + 1] == Ids(rows)[..i] + [task.id];
      seen := seen + {task.id};
    }
    assert Ids(rows)[..|rows|] == Ids(rows);
    return None;
  }

  /** A task graph is built exactly from an undiagnosed, declared, acyclic plan; the order
      respects every dependency and each wave number is a longest chain. */
  method BuildTaskGraph(rows: seq<Row>, diagnosed: bool) returns (result: Result<TaskGraph, Refusal>)
    ensures result.Ok? <==> !diagnosed && Declared(rows) && !Cyclic(DependencyMap(rows))
    ensures result.Ok? ==>
              var graph := result.value;
              && graph.authored == Ids(rows) && graph.dependencies == DependencyMap(rows)
              && TopologicalOrder(graph.dependencies, graph.order)
              && Reversed(graph.dependencies, graph.dependents)
              && Levelled(graph.dependencies, graph.wave)
              && Grouped(graph.order, graph.wave, graph.waves)
    ensures result.Err? && result.error.DependencyCycle? ==>
              var path := result.error.path;
              path != [] && ClosedWalk(DependencyMap(rows), path + [path[0]])
    ensures !diagnosed && Declared(rows) && result.Err? ==> result.error.DependencyCycle?
  {
    if diagnosed { return Err(Diagnosed); }
    var refusal := CheckRows(rows);
    if refusal.Some? { return Err(refusal.value); }
    var authored, g := Ids(rows), DependencyMap(rows);
    var dependents: map<TaskId, seq<TaskId>>;
    refusal, dependents := LinkDependents(rows, authored, g);
    if refusal.Some? { return Err(refusal.value); }
    DeclaredIsClosed(rows);
    DependencyMapAt(rows);
    var order, stuck, waiting := Kahn(authored, g, dependents);
    if stuck {
      var search := new DepthFirst(g);
      var found := search.Run(authored);
      DeadlockHasNoOrder(g, search.finished, waiting);
      return Err(DependencyCycle(search.cycle));
    }
    OrderMeansAcyclic(g, order);
    var wave, waves := NumberWaves(g, order);
    return Ok(TaskGraph(authored, order, waves, g, dependents, wave));
  }
}
