/** Dependency graphs: walks, cycles, topological orders and wave numbers, stated without
    reference to any of the algorithms that look for them. */
module Graphs {
  /** Each node's dependencies, repetitions allowed. */
  type Graph<!N> = map<N, seq<N>>

  ghost predicate Closed<N(!new)>(g: Graph<N>) {
    forall n, d :: n in g && d in g[n] ==> d in g
  }

  /** Each node of a walk depends on the next. */
  ghost predicate Walk<N>(g: Graph<N>, p: seq<N>) {
    && p != []
    && (forall k :: 0 <= k < |p| ==> p[k] in g)
    && (forall k :: 0 <= k < |p| - 1 ==> p[k + 1] in g[p[k]])
  }

  /** A walk that comes back to where it started. */
  ghost predicate ClosedWalk<N>(g: Graph<N>, p: seq<N>) {
    Walk(g, p) && |p| >= 2 && p[0] == p[|p| - 1]
  }

  ghost predicate Cyclic<N(!new)>(g: Graph<N>) {
    exists p: seq<N> :: ClosedWalk(g, p)
  }

  ghost predicate Distinct<N>(s: seq<N>) {
    forall i, j :: 0 <= i < j < |s| ==> s[i] != s[j]
  }

  /** Every node once, and after everything it depends on. */
  ghost predicate TopologicalOrder<N(!new)>(g: Graph<N>, order: seq<N>) {
    && Distinct(order)
    && (forall n :: n in order <==> n in g)
    && (forall k, d :: 0 <= k < |order| && order[k] in g && d in g[order[k]] ==> d in order[..k])
  }

  ghost predicate WaitsIn<N(!new)>(g: Graph<N>, s: set<N>, n: N) {
    n in g && exists d :: d in g[n] && d in s
  }

  /** Nodes that each wait for another of them. */
  ghost predicate Deadlock<N(!new)>(g: Graph<N>, s: set<N>) {
    && s != {}
    && (forall n {:trigger WaitsIn(g, s, n)} :: n in s ==> WaitsIn(g, s, n))
  }

  lemma {:induction false} WalkDescends<N(!new)>(g: Graph<N>, order: seq<N>, p: seq<N>, i: nat, j: nat)
    requires TopologicalOrder(g, order) && Walk(g, p) && |p| > 1
    requires i < |order| && j < |order| && order[i] == p[0] && order[j] == p[|p| - 1]
    ensures j < i
  {
    var d := p[1];
    assert d in order[..i];
    var k :| 0 <= k < i && order[k] == d;
    if |p| > 2 {
      assert Walk(g, p[1..]) by {
        forall m | 0 <= m < |p[1..]| - 1 ensures p[1..][m + 1] in g[p[1..][m]] {
          assert p[m + 1 + 1] in g[p[m + 1]];
        }
      }
      WalkDescends(g, order, p[1..], k, j);
    }
  }

  lemma OrderMeansAcyclic<N(!new)>(g: Graph<N>, order: seq<N>)
    requires TopologicalOrder(g, order)
    ensures !Cyclic(g)
  {
    forall p: seq<N> | ClosedWalk(g, p) ensures false {
      assert p[0] in order;
      var i :| 0 <= i < |order| && order[i] == p[0];
      WalkDescends(g, order, p, i, i);
    }
  }

  lemma {:induction false} OrderMeansNoDeadlock<N(!new)>(g: Graph<N>, order: seq<N>, s: set<N>, k: nat)
    requires TopologicalOrder(g, order) && Deadlock(g, s)
    requires k < |order| && order[k] in s
    ensures false
    decreases k
  {
    assert WaitsIn(g, s, order[k]);
    var d :| d in g[order[k]] && d in s;
    assert d in order[..k];
    var j :| 0 <= j < k && order[j] == d;
    OrderMeansNoDeadlock(g, order, s, j);
  }

  lemma DeadlockHasNoOrder<N(!new)>(g: Graph<N>, order: seq<N>, s: set<N>)
    requires Deadlock(g, s)
    ensures !TopologicalOrder(g, order)
  {
    if TopologicalOrder(g, order) {
      var n :| n in s;
      assert WaitsIn(g, s, n);
      assert n in order;
      var k :| 0 <= k < |order| && order[k] == n;
      OrderMeansNoDeadlock(g, order, s, k);
    }
  }

  // ---------------------------------------------------------------------------------
  // Waves
  // ---------------------------------------------------------------------------------

  /** `n` counts the edges of the longest walk down from `node`. */
  ghost predicate LongestChain<N(!new)>(g: Graph<N>, node: N, n: nat) {
    && (exists p: seq<N> :: Walk(g, p) && p[0] == node && |p| == n + 1)
    && (forall p: seq<N> :: Walk(g, p) && p[0] == node ==> |p| <= n + 1)
  }

  /** A node numbered above all its dependencies, and just above one. */
  ghost predicate Level<N(!new)>(g: Graph<N>, wave: map<N, nat>, n: N) {
    && n in g && n in wave
    && (forall d :: d in g[n] ==> d in wave && wave[d] < wave[n])
    && (wave[n] > 0 ==> exists d :: d in g[n] && d in wave && wave[d] + 1 == wave[n])
  }

  /** A numbering computed level by level. */
  ghost predicate Levelled<N(!new)>(g: Graph<N>, wave: map<N, nat>) {
    wave.Keys == g.Keys && forall n {:trigger Level(g, wave, n)} :: n in g ==> Level(g, wave, n)
  }

  lemma {:induction false} LevelBoundsWalk<N(!new)>(g: Graph<N>, wave: map<N, nat>, p: seq<N>)
    requires Levelled(g, wave) && Walk(g, p)
    ensures |p| <= wave[p[0]] + 1
  {
    if |p| > 1 {
      assert Walk(g, p[1..]) by {
        forall m | 0 <= m < |p[1..]| - 1 ensures p[1..][m + 1] in g[p[1..][m]] {
          assert p[m + 1 + 1] in g[p[m + 1]];
        }
      }
      LevelBoundsWalk(g, wave, p[1..]);
      assert Level(g, wave, p[0]) && p[0 + 1] in g[p[0]];
    }
  }

  lemma {:induction false} LevelHasWalk<N(!new)>(g: Graph<N>, wave: map<N, nat>, node: N) returns (p: seq<N>)
    requires Levelled(g, wave) && node in g
    ensures Walk(g, p) && p[0] == node && |p| == wave[node] + 1
    decreases wave[node]
  {
    assert Level(g, wave, node);
    if wave[node] == 0 {
      p := [node];
    } else {
      var d :| d in g[node] && d in wave && wave[d] + 1 == wave[node];
      var q := LevelHasWalk(g, wave, d);
      p := [node] + q;
      forall m | 0 <= m < |p| - 1 ensures p[m + 1] in g[p[m]] {
        if m > 0 {
          assert q[m - 1 + 1] in g[q[m - 1]];
        }
      }
    }
  }

  /** A levelled numbering is the longest-chain numbering. */
  lemma LevelIsLongestChain<N(!new)>(g: Graph<N>, wave: map<N, nat>, node: N)
    requires Levelled(g, wave) && node in g
    ensures LongestChain(g, node, wave[node])
  {
    var p := LevelHasWalk(g, wave, node);
    forall q: seq<N> | Walk(g, q) && q[0] == node ensures |q| <= wave[node] + 1 {
      LevelBoundsWalk(g, wave, q);
    }
  }

  lemma LongestChainUnique<N(!new)>(g: Graph<N>, node: N, a: nat, b: nat)
    requires LongestChain(g, node, a) && LongestChain(g, node, b)
    ensures a == b
  {
    var p: seq<N> :| Walk(g, p) && p[0] == node && |p| == a + 1;
    var q: seq<N> :| Walk(g, q) && q[0] == node && |q| == b + 1;
  }

  /** Any two levelled numberings of one graph agree on every node. */
  lemma LevelsAgree<N(!new)>(g: Graph<N>, a: map<N, nat>, b: map<N, nat>)
    requires Levelled(g, a) && Levelled(g, b)
    ensures a == b
  {
    forall n | n in g ensures a[n] == b[n] {
      LevelIsLongestChain(g, a, n);
      LevelIsLongestChain(g, b, n);
      LongestChainUnique(g, n, a[n], b[n]);
    }
    assert a.Keys == b.Keys;
  }

  // ---------------------------------------------------------------------------------
  // Something is always ready
  // ---------------------------------------------------------------------------------

  /** Following what each deadlocked node waits for ends in a cycle. */
  lemma {:induction false} DeadlockMeansCyclic<N(!new)>(g: Graph<N>, s: set<N>, p: seq<N>)
    requires Deadlock(g, s) && Walk(g, p) && forall n :: n in p ==> n in s
    ensures Cyclic(g)
    decreases s - set n | n in p
  {
    var last := p[|p| - 1];
    assert WaitsIn(g, s, last);
    var d :| d in g[last] && d in s;
    if d in p {
      var i :| 0 <= i < |p| && p[i] == d;
      var q := p[i..] + [d];
      forall k | 0 <= k < |q| - 1 ensures q[k + 1] in g[q[k]] {
        assert q[k] == p[i + k];
        if k + 1 < |p[i..]| { assert q[k + 1] == p[i + k + 1]; }
      }
      assert ClosedWalk(g, q);
    } else {
      assert WaitsIn(g, s, d);
      var q := p + [d];
      forall k | 0 <= k < |q| - 1 ensures q[k + 1] in g[q[k]] {
        if k + 1 < |p| { assert p[k + 1] in g[p[k]]; }
      }
      assert d in q && d in s - (set n | n in p) && d !in s - (set n | n in q);
      DeadlockMeansCyclic(g, s, q);
    }
  }

  /** In an acyclic graph, as long as something is left to do, something left waits for nothing
      that is left. */
  lemma SomethingReady<N(!new)>(g: Graph<N>, done: set<N>) returns (n: N)
    requires Closed(g) && !Cyclic(g) && exists m :: m in g && m !in done
    ensures n in g && n !in done && forall d :: d in g[n] ==> d in done
  {
    var left := g.Keys - done;
    var m :| m in g && m !in done;
    assert m in left;
    if forall k {:trigger WaitsIn(g, left, k)} :: k in left ==> WaitsIn(g, left, k) {
      assert WaitsIn(g, left, m);
      DeadlockMeansCyclic(g, left, [m]);
    }
    n :| n in left && !WaitsIn(g, left, n);
    forall d | d in g[n] ensures d in done {
      assert d in g;
    }
  }
}
