/** Finding a directed cycle in the import graph. */
module ImportCycles {
  import opened Wrappers

  /** The modules each module imports. */
  type Graph = seq<seq<nat>>

  ghost predicate ValidGraph(edges: Graph) {
    forall node, i :: 0 <= node < |edges| && 0 <= i < |edges[node]| ==> edges[node][i] < |edges|
  }

  ghost predicate IsPath(edges: Graph, path: seq<nat>) {
    && (forall i :: 0 <= i < |path| ==> path[i] < |edges|)
    && (forall i :: 0 <= i < |path| - 1 ==> path[i + 1] in edges[path[i]])
  }

  /** A path of at least one edge that ends where it starts. */
  ghost predicate IsCycle(edges: Graph, path: seq<nat>) {
    |path| >= 2 && path[0] == path[|path| - 1] && IsPath(edges, path)
  }

  const NEW: nat := 0
  const ACTIVE: nat := 1
  const DONE: nat := 2

  /** Every module imports modules that were finished before it only. */
  ghost predicate Ordered(edges: Graph, order: seq<nat>) {
    forall i, target {:trigger target in edges[order[i]]} ::
      0 <= i < |order| && order[i] < |edges| && target in edges[order[i]] ==> target in order[..i]
  }

  /** No path leads from a finished module back to it. */
  lemma {:induction false} PathGoesBack(edges: Graph, order: seq<nat>, path: seq<nat>, at: nat)
    requires Ordered(edges, order) && IsPath(edges, path) && |path| > 0
    requires at < |order| && order[at] == path[0]
    ensures |path| == 1 || path[|path| - 1] in order[..at]
    decreases |path|
  {
    if |path| > 1 {
      assert path[1] in edges[order[at]];
      var next :| 0 <= next < at && order[next] == path[1];
      PathGoesBack(edges, order, path[1..], next);
      if |path| > 2 {
        var last :| 0 <= last < next && order[last] == path[|path| - 1];
        assert order[..at][last] == path[|path| - 1];
      } else {
        assert order[..at][next] == path[1];
      }
    }
  }

  lemma NoCycles(edges: Graph, order: seq<nat>)
    requires Ordered(edges, order)
    requires forall i, j :: 0 <= i < j < |order| ==> order[i] != order[j]
    requires forall node: nat :: node < |edges| ==> node in order
    ensures forall path :: !IsCycle(edges, path)
  {
    forall path ensures !IsCycle(edges, path) {
      if IsCycle(edges, path) {
        assert path[0] in order;
        var at :| 0 <= at < |order| && order[at] == path[0];
        PathGoesBack(edges, order, path, at);
      }
    }
  }

  /** The modules not yet visited. */
  ghost function Unvisited(states: seq<nat>): set<nat> {
    set node: nat | node < |states| && states[node] == NEW
  }

  /** Modules visited before are as they were. */
  ghost predicate Kept(before: seq<nat>, after: seq<nat>) {
    |before| == |after| && forall node :: 0 <= node < |before| && before[node] != NEW ==> after[node] == before[node]
  }

  /** The first `count` targets are finished. */
  ghost predicate Finished(states: seq<nat>, targets: seq<nat>, count: nat) {
    count <= |targets| && forall j :: 0 <= j < count ==> targets[j] < |states| && states[targets[j]] == DONE
  }

  lemma StartsFinished(states: seq<nat>, targets: seq<nat>)
    ensures Finished(states, targets, 0)
  {}

  lemma StaysActive(before: seq<nat>, after: seq<nat>, node: nat)
    requires Kept(before, after) && node < |before| && before[node] == ACTIVE
    ensures after[node] == ACTIVE
  {}

  /** A module that was new may change once more. */
  lemma KeptBut(first: seq<nat>, second: seq<nat>, third: seq<nat>, node: nat)
    requires Kept(first, second) && node < |first| && first[node] == NEW && |third| == |second|
    requires forall other :: 0 <= other < |second| && other != node ==> third[other] == second[other]
    ensures Kept(first, third)
  {}

  lemma KeptTwice(first: seq<nat>, second: seq<nat>, third: seq<nat>)
    requires Kept(first, second) && Kept(second, third)
    ensures Kept(first, third)
  {}

  lemma FinishedStays(before: seq<nat>, after: seq<nat>, targets: seq<nat>, count: nat)
    requires Kept(before, after) && Finished(before, targets, count)
    ensures Finished(after, targets, count)
  {}

  lemma FinishedNext(states: seq<nat>, targets: seq<nat>, count: nat)
    requires Finished(states, targets, count) && count < |targets| && targets[count] < |states|
    requires states[targets[count]] == DONE
    ensures Finished(states, targets, count + 1)
  {}

  lemma Shrinks(before: seq<nat>, after: seq<nat>)
    requires Kept(before, after)
    ensures Unvisited(after) <= Unvisited(before)
    ensures forall node :: 0 <= node < |before| && before[node] == NEW && after[node] != NEW ==>
        Unvisited(after) < Unvisited(before)
  {
    forall node | 0 <= node < |before| && before[node] == NEW && after[node] != NEW
      ensures Unvisited(after) < Unvisited(before)
    {
      assert node in Unvisited(before) && node !in Unvisited(after);
    }
  }

  class Search {
    const edges: Graph
    const states: array<nat>
    /** The modules being visited, each importing the next. */
    var stack: seq<nat>
    /** The finished modules, in the order they were finished. */
    ghost var order: seq<nat>

    ghost predicate Valid()
      reads this, states
      ensures Valid() ==> states.Length == |edges|
    {
      && ValidGraph(edges) && states.Length == |edges|
      && IsPath(edges, stack) && Ordered(edges, order)
      && (forall i, j :: 0 <= i < j < |order| ==> order[i] != order[j])
      && (forall node: nat {:trigger states[node]} :: node < |edges| ==>
           && states[node] <= DONE
           && (states[node] == ACTIVE <==> node in stack)
           && (states[node] == DONE <==> node in order))
      && (forall node :: node in order ==> node < |edges|)
    }

    constructor (edges: Graph)
      requires ValidGraph(edges)
      ensures Valid() && this.edges == edges && stack == [] && order == [] && fresh(states)
      ensures forall node :: 0 <= node < |edges| ==> states[node] == NEW
    {
      this.edges := edges;
      states := new nat[|edges|](i => NEW);
      stack := [];
      order := [];
    }

    method Enter(node: nat)
      requires Valid() && node < |edges| && states[node] == NEW
      requires stack != [] ==> node in edges[stack[|stack| - 1]]
      modifies this`stack, states
      ensures Valid() && stack == old(stack) + [node]
      ensures states[node] == ACTIVE
      ensures Kept(old(states[..]), states[..])
    {
      states[node] := ACTIVE;
      stack := stack + [node];
    }

    method Leave(node: nat)
      requires Valid() && node < |edges| && stack != [] && stack[|stack| - 1] == node
      requires Finished(states[..], edges[node], |edges[node]|)
      requires forall i :: 0 <= i < |stack| - 1 ==> stack[i] != node
      modifies this`stack, this`order, states
      ensures Valid() && stack == old(stack[..|stack| - 1])
      ensures states[node] == DONE
      ensures forall other :: 0 <= other < |edges| && other != node ==> states[other] == old(states[other])
    {
      ghost var before := order;
      assert states[node] == ACTIVE && node in stack && node !in before;
      stack := stack[..|stack| - 1];
      states[node] := DONE;
      order := order + [node];
      assert forall i :: 0 <= i < |before| ==> order[..i] == before[..i];
      assert order[..|before|] == before;
      assert forall i :: 0 <= i < |before| ==> before[i] in before;
    }

    /** The part of the stack from `target` on, back to `target`. */
    method CycleFrom(target: nat) returns (cycle: Option<seq<nat>>)
      requires Valid() && target in stack && target in edges[stack[|stack| - 1]]
      ensures cycle.Some? && IsCycle(edges, cycle.value)
    {
      var start := 0;
      while stack[start] != target
        invariant start < |stack| && target !in stack[..start]
        decreases |stack| - start
      {
        assert stack[..start + 1] == stack[..start] + [stack[start]];
        start := start + 1;
        assert stack[..|stack|] == stack;
      }
      var path := stack[start..] + [target];
      assert forall i :: 0 <= i < |path| - 1 ==> path[i] == stack[start + i];
      return Some(path);
    }

    lemma Target(node: nat, i: nat)
      requires Valid() && node < |edges| && i < |edges[node]|
      ensures edges[node][i] < |edges| && edges[node][i] in edges[node]
      ensures states[edges[node][i]] <= DONE
      ensures states[edges[node][i]] == ACTIVE ==> edges[node][i] in stack
      ensures forall j :: 0 <= j < |stack| ==> stack[j] < |edges| && states[stack[j]] == ACTIVE
    {
      forall j | 0 <= j < |stack| ensures stack[j] < |edges| && states[stack[j]] == ACTIVE {
        assert stack[j] in stack;
      }
    }

    /** Visits a module and everything it leads to, until an edge closes a cycle. */
    method Visit(node: nat) returns (cycle: Option<seq<nat>>)
      requires Valid() && node < |edges| && states[node] == NEW
      requires stack != [] ==> node in edges[stack[|stack| - 1]]
      modifies this, states
      ensures cycle.Some? ==> IsCycle(edges, cycle.value)
      ensures cycle.None? ==> Valid() && stack == old(stack) && states[node] == DONE
      ensures cycle.None? ==> Kept(old(states[..]), states[..])
      decreases Unvisited(states[..])
    {
      hide Valid, IsCycle, Unvisited, Kept, Finished;
      ghost var before := states[..];
      Fresh(node);
      Enter(node);
      StartsFinished(states[..], edges[node]);
      var i: nat := 0;
      while i < |edges[node]|
        invariant i <= |edges[node]| && Valid()
        invariant stack == old(stack) + [node] && states[node] == ACTIVE
        invariant Finished(states[..], edges[node], i) && Kept(before, states[..])
      {
        var target := edges[node][i];
        ghost var now := states[..];
        Target(node, i);
        if states[target] == ACTIVE {
          cycle := CycleFrom(target);
          return;
        }
        if states[target] == NEW {
          Shrinks(before, now);
          assert before[node] == NEW && now[node] != NEW;
          cycle := Visit(target);
          if cycle.Some? {
            return;
          }
          StaysActive(now, states[..], node);
          KeptTwice(before, now, states[..]);
          FinishedStays(now, states[..], edges[node], i);
        }
        FinishedNext(states[..], edges[node], i);
        i := i + 1;
      }
      ghost var now := states[..];
      Leave(node);
      KeptBut(before, now, states[..], node);
      return None;
    }

    lemma Fresh(node: nat)
      requires Valid() && node < |edges| && states[node] == NEW
      ensures node !in stack && forall j :: 0 <= j < |stack| ==> stack[j] != node
      ensures forall j :: 0 <= j < |edges[node]| ==> edges[node][j] < |edges|
    {}
  }

  /** One directed cycle, exactly when there is one. */
  method FindCycle(edges: Graph) returns (cycle: Option<seq<nat>>)
    requires ValidGraph(edges)
    ensures cycle.Some? ==> IsCycle(edges, cycle.value)
    ensures cycle.None? ==> forall path :: !IsCycle(edges, path)
  {
    var search := new Search(edges);
    var node := 0;
    while node < |edges|
      invariant node <= |edges| && search.Valid() && search.stack == [] && fresh(search) && fresh(search.states)
      invariant search.edges == edges
      invariant forall other :: 0 <= other < node ==> search.states[other] == DONE
    {
      if search.states[node] == NEW {
        cycle := search.Visit(node);
        if cycle.Some? {
          return;
        }
      }
      node := node + 1;
    }
    assert forall other: nat {:trigger search.states[other]} :: other < |edges| ==> search.states[other] == DONE;
    forall other: nat | other < |edges| ensures other in search.order {
      assert search.states[other] == DONE;
    }
    NoCycles(edges, search.order);
    return None;
  }
}
