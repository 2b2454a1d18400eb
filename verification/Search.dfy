/** The three-colour depth-first search that both cycle reports run: on task ids in
    taskgraph.go (cyclicTaskIDs) and on row indices in plan/tasks.go (projectTaskWaves). */
module Search {
  import opened Graphs

  datatype Colour = White | Gray | Black

  /** The gray nodes are the stack, a chain of dependencies; the black ones are finished, each
      after everything it depends on. */
  ghost predicate Coloured<N(!new)>(g: Graph<N>, state: map<N, Colour>, stack: seq<N>, finished: seq<N>) {
    && Closed(g)
    && state.Keys == g.Keys
    && (forall n :: n in g ==> (state[n] == Gray <==> n in stack) && (state[n] == Black <==> n in finished))
    && (forall n :: n in stack || n in finished ==> n in g)
    && Distinct(stack) && Distinct(finished)
    && (forall k :: 0 <= k < |stack| - 1 ==> stack[k + 1] in g[stack[k]])
    && (forall k, d :: 0 <= k < |finished| && finished[k] in g && d in g[finished[k]] ==> d in finished[..k])
  }

  ghost function Whites<N(!new)>(state: map<N, Colour>): set<N> {
    set n | n in state && state[n] == White
  }

  lemma Enter<N(!new)>(g: Graph<N>, state: map<N, Colour>, stack: seq<N>, finished: seq<N>, node: N)
    requires Coloured(g, state, stack, finished) && node in g && state[node] == White
    requires stack != [] ==> node in g[stack[|stack| - 1]]
    ensures Coloured(g, state[node := Gray], stack + [node], finished)
    ensures Whites(state[node := Gray]) < Whites(state)
  {
    assert node in Whites(state) && node !in Whites(state[node := Gray]);
  }

  lemma Leave<N(!new)>(g: Graph<N>, state: map<N, Colour>, stack: seq<N>, finished: seq<N>, node: N)
    requires Coloured(g, state, stack + [node], finished)
    requires forall d :: d in g[node] ==> d in finished
    ensures Coloured(g, state[node := Black], stack, finished + [node])
    ensures Whites(state[node := Black]) == Whites(state)
  {
    var full := stack + [node];
    assert full[|stack|] == node && state[node] == Gray;
    forall k | 0 <= k < |stack| - 1 ensures stack[k + 1] in g[stack[k]] {
      assert full[k + 1] in g[full[k]];
    }
    forall k | 0 <= k < |stack| ensures stack[k] != node {
      assert full[k] == stack[k];
    }
    assert Distinct(stack) by {
      forall i, j | 0 <= i < j < |stack| ensures stack[i] != stack[j] {
        assert full[i] != full[j];
      }
    }
    forall n | n in g ensures n in full <==> n in stack || n == node {}
    FinishedExtends(g, finished, node);
  }

  lemma ColouredFacts<N(!new)>(g: Graph<N>, state: map<N, Colour>, stack: seq<N>, finished: seq<N>)
    requires Coloured(g, state, stack, finished)
    ensures state.Keys == g.Keys
    ensures forall n, d :: n in g && d in g[n] ==> d in g
    ensures forall n :: n in g ==> (state[n] == Gray <==> n in stack) && (state[n] == Black <==> n in finished)
  {
  }

  class DepthFirst<N(==, !new)> {
    const g: Graph<N>
    var state: map<N, Colour>
    var stack: seq<N>

    /** When a cycle is found: the part of the stack from the node met again. */
    var cycle: seq<N>

    /** The black nodes in the order in which they were finished. */
    ghost var finished: seq<N>

    ghost predicate Valid()
      reads this
    {
      Coloured(g, state, stack, finished)
    }

    constructor (g: Graph<N>)
      requires Closed(g)
      ensures this.g == g && Valid() && stack == [] && finished == []
    {
      this.g, stack, cycle, finished := g, [], [], [];
      state := map n | n in g :: White;
    }

    ghost function Unvisited(): set<N>
      reads this
    {
      Whites(state)
    }

    /** The `for stack[start] != node` search: always in bounds, because `node` is gray. */
    method FindOnStack(node: N) returns (start: nat)
      requires node in stack
      ensures start < |stack| && stack[start] == node && node !in stack[..start]
    {
      start := 0;
      while stack[start] != node
        invariant start < |stack| && node !in stack[..start] && node in stack[start..]
        decreases |stack| - start
      {
        assert stack[..start + 1] == stack[..start] + [stack[start]];
        assert stack[start..] == [stack[start]] + stack[start + 1..];
        start := start + 1;
      }
    }

    /** visit: either everything reachable from `node` is finished, or a closed walk is found. */
    method Visit(node: N) returns (found: bool)
      requires Valid() && node in g && state[node] == White
      requires stack != [] ==> node in g[stack[|stack| - 1]]
      modifies this`state, this`stack, this`cycle, this`finished
      ensures found ==> cycle != [] && ClosedWalk(g, cycle + [cycle[0]])
      ensures !found ==>
                && Valid() && stack == old(stack)
                && old(finished) <= finished && node in finished
                && Unvisited() < old(Unvisited())
      decreases Unvisited()
    {
      hide Coloured, Distinct, ClosedWalk, Walk;
      var deps := g[node];
      Enter(g, state, stack, finished, node);
      state := state[node := Gray];
      stack := stack + [node];
      for k := 0 to |deps|
        invariant Valid() && stack == old(stack) + [node]
        invariant old(finished) <= finished
        invariant forall j :: 0 <= j < k ==> deps[j] in finished
        invariant Unvisited() < old(Unvisited())
      {
        var d := deps[k];
        ColouredFacts(g, state, stack, finished);
        assert d in g[node] && d in g;
        if state[d] == Gray {
          var start := FindOnStack(d);
          cycle := stack[start..];
          GrayClosesWalk(g, state, stack, finished, start);
          return true;
        }
        if state[d] == White {
          found := Visit(d);
          if found { return; }
        }
        assert deps[k] in finished;
      }
      Leave(g, state, old(stack), finished, node);
      assert stack[..|stack| - 1] == old(stack);
      stack := stack[..|stack| - 1];
      state := state[node := Black];
      finished := finished + [node];
      return false;
    }

    /** The search from every node in turn: a cycle is reported exactly when there is one. */
    method Run(nodes: seq<N>) returns (found: bool)
      requires Valid() && stack == [] && finished == []
      requires forall n :: n in nodes <==> n in g
      modifies this`state, this`stack, this`cycle, this`finished
      ensures found <==> Cyclic(g)
      ensures found ==> cycle != [] && ClosedWalk(g, cycle + [cycle[0]])
      ensures !found ==> TopologicalOrder(g, finished)
    {
      for k := 0 to |nodes|
        invariant Valid() && stack == []
        invariant forall j :: 0 <= j < k ==> nodes[j] in finished
      {
        if state[nodes[k]] == White {
          found := Visit(nodes[k]);
          if found { return; }
        }
      }
      OrderMeansAcyclic(g, finished);
      return false;
    }
  }

  lemma GrayClosesWalk<N(!new)>(g: Graph<N>, state: map<N, Colour>, stack: seq<N>, finished: seq<N>, start: nat)
    requires Coloured(g, state, stack, finished) && start < |stack| && stack[|stack| - 1] in g
    requires stack[start] in g[stack[|stack| - 1]]
    ensures ClosedWalk(g, stack[start..] + [stack[start]])
    ensures (stack[start..] + [stack[start]])[|stack| - start] == stack[start..][0]
  {
    StackIsClosedWalk(g, stack, start);
  }

  lemma StackIsClosedWalk<N(!new)>(g: Graph<N>, stack: seq<N>, start: nat)
    requires start < |stack| && forall n :: n in stack ==> n in g
    requires forall k :: 0 <= k < |stack| - 1 ==> stack[k + 1] in g[stack[k]]
    requires stack[start] in g[stack[|stack| - 1]]
    ensures ClosedWalk(g, stack[start..] + [stack[start]])
  {
    var p := stack[start..] + [stack[start]];
    forall k | 0 <= k < |p| - 1 ensures p[k + 1] in g[p[k]] {
      if k < |p| - 2 {
        assert stack[start + k + 1] in g[stack[start + k]];
      }
    }
  }

  lemma FinishedExtends<N(!new)>(g: Graph<N>, done: seq<N>, node: N)
    requires node in g && forall d :: d in g[node] ==> d in done
    requires forall k, d :: 0 <= k < |done| && done[k] in g && d in g[done[k]] ==> d in done[..k]
    ensures var more := done + [node];
            forall k, d :: 0 <= k < |more| && more[k] in g && d in g[more[k]] ==> d in more[..k]
  {
    var more := done + [node];
    forall k, d | 0 <= k < |more| && more[k] in g && d in g[more[k]] ensures d in more[..k] {
      if k < |done| {
        assert more[..k] == done[..k];
      } else {
        assert more[..k] == done;
      }
    }
  }
}
