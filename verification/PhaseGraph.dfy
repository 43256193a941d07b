/**
 The dependency graph of the phases of a plan and its depth-first cycle check.
 The check colours nodes with two sets, `visiting` and `visited`, and walks the phases
 in whatever order the map is iterated; its answer does not depend on that order.
 */
module PhaseGraph {
  import opened Wrappers

  type Key = string

  type Graph = map<Key, seq<Key>>

  datatype PlanPhase = PlanPhase(key: Key, name: string, plannedStart: int, plannedFinish: int, datesValid: bool, dependsOn: seq<Key>)

  /** The map built from the phases: a later phase of the same key replaces an earlier one. */
  function GraphOf(phases: seq<PlanPhase>): Graph {
    if phases == [] then map[]
    else GraphOf(phases[..|phases| - 1])[phases[|phases| - 1].key := phases[|phases| - 1].dependsOn]
  }

  function Dependencies(g: Graph, k: Key): seq<Key> {
    if k in g then g[k] else []
  }

  predicate Walk(g: Graph, path: seq<Key>) {
    forall i | 0 <= i < |path| - 1 :: path[i + 1] in Dependencies(g, path[i])
  }

  /** A closed walk along at least one dependency. */
  predicate Cycle(g: Graph, path: seq<Key>) {
    |path| >= 2 && path[0] == path[|path| - 1] && Walk(g, path)
  }

  ghost predicate HasCycle(g: Graph) {
    exists path :: Cycle(g, path)
  }

  predicate Ready(g: Graph, k: Key, done: seq<Key>) {
    forall d | d in Dependencies(g, k) :: d in done
  }

  /** Every listed key comes after all its dependencies. */
  predicate DependenciesFirst(g: Graph, order: seq<Key>) {
    forall i | 0 <= i < |order| :: Ready(g, order[i], order[..i])
  }

  predicate TopologicalOrder(g: Graph, order: seq<Key>) {
    DependenciesFirst(g, order) && forall k | k in g :: k in order
  }

  ghost predicate Orderable(g: Graph) {
    exists order :: TopologicalOrder(g, order)
  }

  // ---------------------------------------------------------------- an order excludes cycles

  function FirstIndex(order: seq<Key>, k: Key): (i: nat)
    requires k in order
    ensures i < |order| && order[i] == k && forall j | 0 <= j < |order| && order[j] == k :: i <= j
  {
    if order[0] == k then 0 else 1 + FirstIndex(order[1..], k)
  }

  lemma DependencyIsEarlier(g: Graph, order: seq<Key>, k: Key, d: Key)
    requires DependenciesFirst(g, order) && k in order && d in Dependencies(g, k)
    ensures d in order && FirstIndex(order, d) < FirstIndex(order, k)
  {
    var i := FirstIndex(order, k);
    assert Ready(g, order[i], order[..i]);
    var j :| 0 <= j < i && order[..i][j] == d;
    assert order[j] == d;
  }

  lemma {:induction false} WalkDescends(g: Graph, order: seq<Key>, path: seq<Key>)
    requires TopologicalOrder(g, order) && Walk(g, path) && |path| >= 2
    ensures path[0] in order && path[|path| - 1] in order
    ensures FirstIndex(order, path[|path| - 1]) < FirstIndex(order, path[0])
  {
    assert path[1] in Dependencies(g, path[0]);
    DependencyIsEarlier(g, order, path[0], path[1]);
    if |path| > 2 {
      forall i | 0 <= i < |path[1..]| - 1 ensures path[1..][i + 1] in Dependencies(g, path[1..][i]) {
        assert path[1..][i] == path[i + 1] && path[1..][i + 1] == path[i + 2];
      }
      WalkDescends(g, order, path[1..]);
    }
  }

  lemma OrderExcludesCycles(g: Graph)
    requires Orderable(g)
    ensures !HasCycle(g)
  {
    var order :| TopologicalOrder(g, order);
    forall path ensures !Cycle(g, path) {
      if Cycle(g, path) { WalkDescends(g, order, path); }
    }
  }

  // ---------------------------------------------------------------- the depth-first check

  function Nodes(g: Graph): set<Key> {
    g.Keys + set k, d | k in g && d in g[k] :: d
  }

  lemma DependencyIsNode(g: Graph, k: Key, i: nat)
    requires i < |Dependencies(g, k)|
    ensures Dependencies(g, k)[i] in Nodes(g)
  {
    assert Dependencies(g, k)[i] in g[k];
  }

  function Elements(s: seq<Key>): (e: set<Key>)
    ensures forall x :: x in e <==> x in s
  {
    set x | x in s
  }

  lemma ElementsAppend(s: seq<Key>, k: Key)
    ensures Elements(s + [k]) == Elements(s) + {k}
  {
  }

  lemma FinishKey(g: Graph, order: seq<Key>, k: Key)
    requires DependenciesFirst(g, order) && Ready(g, k, order)
    ensures DependenciesFirst(g, order + [k])
  {
    forall i | 0 <= i < |order + [k]| ensures Ready(g, (order + [k])[i], (order + [k])[..i]) {
      if i < |order| { assert (order + [k])[..i] == order[..i]; } else { assert (order + [k])[..i] == order; }
    }
  }

  lemma WalkAppend(g: Graph, stack: seq<Key>, key: Key)
    requires Walk(g, stack) && (stack != [] ==> key in Dependencies(g, stack[|stack| - 1]))
    ensures Walk(g, stack + [key])
  {
  }

  lemma ClosesCycle(g: Graph, stack: seq<Key>, key: Key)
    requires Walk(g, stack) && key in stack && key in Dependencies(g, stack[|stack| - 1])
    ensures HasCycle(g)
  {
    var i :| 0 <= i < |stack| && stack[i] == key;
    var path := stack[i..] + [key];
    forall j | 0 <= j < |path| - 1 ensures path[j + 1] in Dependencies(g, path[j]) {
      if j + 1 < |stack[i..]| { assert path[j] == stack[i + j] && path[j + 1] == stack[i + j + 1]; }
    }
    assert Cycle(g, path);
  }

  lemma Without(visiting: set<Key>, key: Key)
    requires key !in visiting
    ensures visiting + {key} - {key} == visiting
  {
  }

  class CycleCheck {
    const graph: Graph
    var visiting: set<Key>
    var visited: set<Key>
    /** The visited keys in the order they were finished. */
    ghost var order: seq<Key>

    constructor (g: Graph)
      ensures graph == g && visiting == {} && visited == {} && order == []
    {
      graph := g;
      visiting, visited, order := {}, {}, [];
    }

    ghost predicate Finished()
      reads this
    {
      visited == Elements(order) && DependenciesFirst(graph, order)
    }

    /** `stack` is the walk from the start of the search to the caller of this visit. */
    method Visit(key: Key, ghost stack: seq<Key>) returns (cyclic: bool)
      requires Finished() && visiting == Elements(stack) && key in Nodes(graph)
      requires Walk(graph, stack) && (stack != [] ==> key in Dependencies(graph, stack[|stack| - 1]))
      modifies this
      ensures cyclic ==> HasCycle(graph)
      ensures !cyclic ==> Finished() && visiting == old(visiting) && old(visited) + {key} <= visited
      decreases |Nodes(graph) - visiting|, 1
    {
      if key in visiting {
        ClosesCycle(graph, stack, key);
        return true;
      }
      if key in visited {
        return false;
      }
      ElementsAppend(stack, key);
      WalkAppend(graph, stack, key);
      cyclic := Explore(key, stack + [key]);
    }

    /** Visits a key met for the first time, at the end of the walk. */
    method Explore(key: Key, ghost path: seq<Key>) returns (cyclic: bool)
      requires Finished() && visiting + {key} == Elements(path) && key in Nodes(graph) && key !in visiting
      requires Walk(graph, path) && path != [] && path[|path| - 1] == key
      modifies this
      ensures cyclic ==> HasCycle(graph)
      ensures !cyclic ==> Finished() && visiting == old(visiting) && old(visited) + {key} <= visited
      decreases |Nodes(graph) - visiting|, 0
    {
      visiting := visiting + {key};
      FewerLeft(Nodes(graph), old(visiting), key);
      cyclic := VisitDependencies(key, path);
      if !cyclic {
        Without(old(visiting), key);
        Finish(key);
      }
    }

    method Finish(key: Key)
      requires Finished() && Ready(graph, key, order)
      modifies this
      ensures Finished() && visiting == old(visiting) - {key} && visited == old(visited) + {key}
    {
      FinishKey(graph, order, key);
      ElementsAppend(order, key);
      visiting := visiting - {key};
      visited := visited + {key};
      order := order + [key];
    }

    /** Visits the dependencies of the key at the end of the walk. */
    method VisitDependencies(key: Key, ghost path: seq<Key>) returns (cyclic: bool)
      requires Finished() && visiting == Elements(path) && Walk(graph, path) && path != [] && path[|path| - 1] == key
      modifies this
      ensures cyclic ==> HasCycle(graph)
      ensures !cyclic ==> Finished() && visiting == old(visiting) && old(visited) <= visited && Ready(graph, key, order)
      decreases |Nodes(graph) - visiting|, 2
    {
      var dependencies := Dependencies(graph, key);
      for i := 0 to |dependencies|
        invariant Finished() && visiting == old(visiting) && old(visited) <= visited
        invariant forall j | 0 <= j < i :: dependencies[j] in visited
      {
        DependencyIsNode(graph, key, i);
        var found := Visit(dependencies[i], path);
        if found {
          return true;
        }
      }
      return false;
    }
  }

  /** True exactly when the dependencies have a cycle; otherwise the phases can be put in order. */
  method HasPhaseCycle(phases: seq<PlanPhase>) returns (cyclic: bool)
    ensures cyclic <==> HasCycle(GraphOf(phases))
    ensures cyclic <==> !Orderable(GraphOf(phases))
  {
    var graph: Graph := map[];
    for i := 0 to |phases|
      invariant graph == GraphOf(phases[..i])
    {
      assert phases[..i + 1][..i] == phases[..i];
      graph := graph[phases[i].key := phases[i].dependsOn];
    }
    assert phases[..|phases|] == phases;
    var check := new CycleCheck(graph);
    var remaining := graph.Keys;
    while remaining != {}
      invariant check.graph == graph && check.Finished() && check.visiting == {}
      invariant forall k | k in graph :: k in remaining || k in check.visited
      invariant remaining <= graph.Keys
      decreases |remaining|
    {
      var key :| key in remaining;
      var found := check.Visit(key, []);
      if found {
        if Orderable(graph) { OrderExcludesCycles(graph); }
        return true;
      }
      remaining := remaining - {key};
    }
    assert TopologicalOrder(graph, check.order);
    OrderExcludesCycles(graph);
    return false;
  }
}
