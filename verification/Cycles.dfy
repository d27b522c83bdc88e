/** Cycles in the dependency graph, found by a depth-first search over three shared collections. */
module Cycles {
  import opened Scopes

  type Graph = map<string, seq<string>>

  predicate Edge(g: Graph, a: string, b: string) {
    a in g && b in g[a]
  }

  /** Every edge leads to a node of the graph. */
  ghost predicate Closed(g: Graph) {
    forall a, b :: Edge(g, a, b) ==> b in g
  }

  predicate IsWalk(g: Graph, p: seq<string>) {
    forall i :: 0 <= i < |p| - 1 ==> Edge(g, p[i], p[i + 1])
  }

  /** A walk of at least one edge that ends where it began. */
  predicate ClosedWalk(g: Graph, p: seq<string>) {
    |p| >= 2 && p[0] == p[|p| - 1] && IsWalk(g, p)
  }

  ghost predicate Cyclic(g: Graph) {
    exists p :: ClosedWalk(g, p)
  }

  predicate NoRepeats(p: seq<string>) {
    forall i, j :: 0 <= i < j < |p| ==> p[i] != p[j]
  }

  // ----- orders in which every edge leads back -----

  predicate PointsBack(g: Graph, order: seq<string>, i: nat)
    requires i < |order|
  {
    order[i] in g && forall b :: b in g[order[i]] ==> b in order[..i]
  }

  predicate Topological(g: Graph, order: seq<string>) {
    forall i :: 0 <= i < |order| ==> PointsBack(g, order, i)
  }

  lemma {:induction false} OrderGrows(g: Graph, order: seq<string>, node: string)
    requires Topological(g, order) && node in g && forall b :: b in g[node] ==> b in order
    ensures Topological(g, order + [node])
  {
    var longer := order + [node];
    forall i | 0 <= i < |longer| ensures PointsBack(g, longer, i) {
      if i < |order| {
        assert PointsBack(g, order, i);
        assert longer[..i] == order[..i];
      } else {
        assert longer[..i] == order;
      }
    }
  }

  /** The first position of `node` in the order. */
  function Position(order: seq<string>, node: string): (i: nat)
    requires node in order
    ensures i < |order| && order[i] == node && node !in order[..i]
  {
    if order[0] == node then 0 else 1 + Position(order[1..], node)
  }

  /** Along a walk the positions fall, so it cannot come back to where it began. */
  lemma {:induction false} PositionsFall(g: Graph, order: seq<string>, p: seq<string>)
    requires Topological(g, order) && IsWalk(g, p) && |p| >= 1 && p[0] in order
    ensures p[|p| - 1] in order
    ensures |p| >= 2 ==> Position(order, p[|p| - 1]) < Position(order, p[0])
    decreases |p|
  {
    if |p| >= 2 {
      var i := Position(order, p[0]);
      assert PointsBack(g, order, i);
      assert Edge(g, p[0], p[1]);
      assert p[1] in order[..i];
      assert p[1] in order;
      var j :| 0 <= j < i && order[j] == p[1];
      assert Position(order, p[1]) <= j;
      assert IsWalk(g, p[1..]) by {
        forall k | 0 <= k < |p[1..]| - 1 ensures Edge(g, p[1..][k], p[1..][k + 1]) {
          assert Edge(g, p[k + 1], p[k + 2]);
        }
      }
      PositionsFall(g, order, p[1..]);
    }
  }

  lemma {:induction false} OrderedIsAcyclic(g: Graph, order: seq<string>)
    requires Topological(g, order) && forall a :: a in g ==> a in order
    ensures !Cyclic(g)
  {
    forall p | ClosedWalk(g, p) ensures false {
      assert Edge(g, p[0], p[1]);
      PositionsFall(g, order, p);
    }
  }

  // ----- the search -----

  class CycleFinder {
    const graph: Graph
    var visiting: set<string>
    var visited: set<string>
    var path: seq<string>
    ghost var finished: seq<string>

    ghost predicate Valid()
      reads this
    {
      && Closed(graph)
      && visiting == (set n | n in path) && NoRepeats(path) && IsWalk(graph, path)
      && (forall n :: n in path ==> n in graph)
      && visited == (set n | n in finished) && visiting !! visited
      && Topological(graph, finished)
    }

    constructor (graph: Graph)
      requires Closed(graph)
      ensures Valid() && this.graph == graph && path == [] && visited == {} && fresh(this)
    {
      this.graph := graph;
      visiting, visited, path, finished := {}, {}, [], [];
    }

    /** Follows every edge out of `node`; hands back the first cycle it runs into. */
    method Visit(node: string) returns (cycle: Option<seq<string>>)
      requires Valid() && node in graph && (|path| > 0 ==> Edge(graph, path[|path| - 1], node))
      modifies this
      ensures cycle.Some? ==> ClosedWalk(graph, cycle.value)
      ensures cycle.None? ==> Valid() && path == old(path) && old(visited) <= visited && node in visited
      decreases graph.Keys - visiting
    {
      hide IsWalk, Topological, ClosedWalk;
      if node in visiting {
        var start := FirstIndex(path, node);
        ClosingTheWalk(graph, path, start, node);
        return Some(path[start..] + [node]);
      }
      if node in visited {
        return None;
      }
      visiting := visiting + {node};
      path := path + [node];
      WalkGrows(graph, old(path), node);
      var targets := graph[node];
      for i := 0 to |targets|
        invariant Valid() && path == old(path) + [node] && old(visited) <= visited
        invariant forall j :: 0 <= j < i ==> targets[j] in visited
      {
        assert Edge(graph, path[|path| - 1], targets[i]);
        cycle := Visit(targets[i]);
        if cycle.Some? {
          return;
        }
      }
      path := path[..|path| - 1];
      assert path == old(path);
      visiting := visiting - {node};
      OrderGrows(graph, finished, node);
      finished := finished + [node];
      visited := visited + {node};
      cycle := None;
    }

    /** Searches from every node in turn: reports a cycle exactly when there is one. */
    method Search(nodes: seq<string>) returns (cycle: Option<seq<string>>)
      requires Valid() && path == [] && forall n :: n in nodes <==> n in graph
      modifies this
      ensures cycle.Some? ==> ClosedWalk(graph, cycle.value)
      ensures cycle.Some? <==> Cyclic(graph)
    {
      for i := 0 to |nodes|
        invariant Valid() && path == []
        invariant forall j :: 0 <= j < i ==> nodes[j] in visited
      {
        cycle := Visit(nodes[i]);
        if cycle.Some? {
          return;
        }
      }
      OrderedIsAcyclic(graph, finished);
      cycle := None;
    }
  }

  method FirstIndex(path: seq<string>, node: string) returns (start: nat)
    requires node in path
    ensures start < |path| && path[start] == node && node !in path[..start]
  {
    start := 0;
    while path[start] != node
      invariant start < |path| && node !in path[..start]
      decreases |path| - start
    {
      start := start + 1;
    }
  }

  lemma WalkGrows(g: Graph, p: seq<string>, node: string)
    requires IsWalk(g, p) && (|p| > 0 ==> Edge(g, p[|p| - 1], node))
    ensures IsWalk(g, p + [node])
  {
  }

  lemma {:induction false} ClosingTheWalk(g: Graph, p: seq<string>, start: nat, node: string)
    requires IsWalk(g, p) && start < |p| && p[start] == node && Edge(g, p[|p| - 1], node)
    ensures ClosedWalk(g, p[start..] + [node])
  {
    var c := p[start..] + [node];
    forall i | 0 <= i < |c| - 1 ensures Edge(g, c[i], c[i + 1]) {
      if i + 1 < |p| - start {
        assert Edge(g, p[start + i], p[start + i + 1]);
      }
    }
  }
}
