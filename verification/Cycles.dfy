/** The graph searches of internal/goalcompile/compile.go: `cyclic` and `reachable`, with their shared
    mutable sets and Go's arbitrary iteration order. */
module Cycles {
  import opened Graph

  /** Successors of a node; a node without entry has none. */
  function Successors(g: Edges, n: string): set<string> { if n in g then g[n] else {} }

  /** Edges stay inside the node set. */
  ghost predicate Closed(nodes: set<string>, g: Edges) {
    g.Keys <= nodes && forall n, m :: n in g && m in g[n] ==> m in nodes
  }

  /** The same edges with an entry for every node. */
  ghost function Full(nodes: set<string>, g: Edges): Edges { map n | n in nodes :: Successors(g, n) }

  lemma FullWalk(nodes: set<string>, g: Edges, p: seq<string>, a: string, b: string)
    requires Closed(nodes, g)
    ensures Walk(g, p, a, b) <==> Walk(Full(nodes, g), p, a, b)
  {
    var f := Full(nodes, g);
    if Walk(g, p, a, b) {
      forall i | 0 <= i < |p| - 1 ensures p[i] in f && p[i + 1] in f[p[i]] {}
    }
    if Walk(f, p, a, b) {
      forall i | 0 <= i < |p| - 1 ensures p[i] in g && p[i + 1] in g[p[i]] {
        assert p[i + 1] in f[p[i]];
      }
    }
  }

  lemma FullReach(nodes: set<string>, g: Edges, a: string, b: string)
    requires Closed(nodes, g)
    ensures ReachPlus(g, a, b) <==> ReachPlus(Full(nodes, g), a, b)
  {
    if p :| Walk(g, p, a, b) && |p| >= 2 { FullWalk(nodes, g, p, a, b); }
    if p :| Walk(Full(nodes, g), p, a, b) && |p| >= 2 { FullWalk(nodes, g, p, a, b); }
  }

  ghost predicate HasCycle(g: Edges) { exists n :: OnCycle(g, n) }

  ghost predicate LeadTo(g: Edges, stack: set<string>, node: string) {
    forall y :: y in stack ==> ReachPlus(g, y, node)
  }

  /** `cyclic`: `visiting` is the stack, `visited` the finished nodes, in the order `finished`. */
  class CycleFinder {
    const nodes: set<string>
    const adjacency: Edges
    var visiting: set<string>
    var visited: set<string>
    ghost var finished: seq<string>

    constructor (nodes: set<string>, adjacency: Edges)
      ensures this.nodes == nodes && this.adjacency == adjacency
      ensures visiting == {} && visited == {} && finished == []
    {
      this.nodes, this.adjacency := nodes, adjacency;
      visiting, visited, finished := {}, {}, [];
    }

    ghost predicate Valid()
      reads this
    {
      && Closed(nodes, adjacency) && visiting !! visited && visiting <= nodes
      && Topological(Full(nodes, adjacency), finished) && (forall n :: n in visited <==> n in finished)
    }

    method Visit(node: string) returns (found: bool)
      requires Valid() && node in nodes && LeadTo(Full(nodes, adjacency), visiting, node)
      modifies this
      ensures found ==> HasCycle(Full(nodes, adjacency))
      ensures !found ==> Valid() && visiting == old(visiting) && old(visited) <= visited && node in visited
      decreases nodes - visiting - visited
    {
      ghost var g := Full(nodes, adjacency);
      if node in visiting {
        assert OnCycle(g, node);
        return true;
      }
      if node in visited { return false; }
      visiting := visiting + {node};
      var todo := Successors(adjacency, node);
      while todo != {}
        invariant todo <= g[node] && Valid() && visiting == old(visiting) + {node} && old(visited) <= visited
        invariant forall d :: d in g[node] && d !in todo ==> d in visited
        decreases todo
      {
        var next :| next in todo;
        EdgeReach(g, node, next);
        forall y | y in visiting ensures ReachPlus(g, y, next) {
          if y != node { ReachPlusThen(g, y, node, next); }
        }
        assert node in old(nodes - visiting - visited) && node !in nodes - visiting - visited;
        found := Visit(next);
        if found { return true; }
        todo := todo - {next};
      }
      visiting := visiting - {node};
      visited := visited + {node};
      AppendTopological(g, finished, node);
      finished := finished + [node];
      return false;
    }

    method Cyclic() returns (found: bool)
      requires Valid() && visiting == {}
      modifies this
      ensures found <==> HasCycle(Full(nodes, adjacency))
    {
      ghost var g := Full(nodes, adjacency);
      var todo := nodes;
      while todo != {}
        invariant todo <= nodes && Valid() && visiting == {} && nodes - todo <= visited
        decreases todo
      {
        var node :| node in todo;
        found := Visit(node);
        if found { return true; }
        todo := todo - {node};
      }
      forall n ensures !OnCycle(g, n) {
        if OnCycle(g, n) {
          var p :| Walk(g, p, n, n) && |p| >= 2;
          assert n in nodes && n in finished;
          TopologicalClosed(g, finished, n, n);
        }
      }
      return false;
    }
  }

  /** `cyclic` returns true exactly when some node has a non-empty path to itself. */
  method IsCyclic(nodes: set<string>, adjacency: Edges) returns (found: bool)
    requires Closed(nodes, adjacency)
    ensures found <==> HasCycle(adjacency)
  {
    var finder := new CycleFinder(nodes, adjacency);
    found := finder.Cyclic();
    forall n ensures OnCycle(adjacency, n) <==> OnCycle(Full(nodes, adjacency), n) { FullReach(nodes, adjacency, n, n); }
    if HasCycle(Full(nodes, adjacency)) {
      var n :| OnCycle(Full(nodes, adjacency), n);
      assert OnCycle(adjacency, n);
    }
  }

  /** Nodes seen and off the stack have all their successors seen. */
  ghost predicate Explored(g: Edges, seen: set<string>, stack: set<string>) {
    forall x, y :: x in seen && x !in stack && x in g && y in g[x] ==> y in seen
  }

  /** `reachable` with its shared `seen` map. */
  class PathFinder {
    const nodes: set<string>
    const adjacency: Edges
    var seen: set<string>

    constructor (nodes: set<string>, adjacency: Edges)
      ensures this.nodes == nodes && this.adjacency == adjacency && seen == {}
    {
      this.nodes, this.adjacency, seen := nodes, adjacency, {};
    }

    method Search(from: string, to: string, ghost stack: set<string>) returns (found: bool)
      requires Closed(nodes, adjacency) && from in nodes
      requires Explored(adjacency, seen, stack) && to !in seen
      modifies this
      ensures found ==> Reach(adjacency, from, to)
      ensures !found ==> Explored(adjacency, seen, stack) && to !in seen && from in seen && old(seen) <= seen
      decreases nodes - seen
    {
      if from == to {
        ReachSelf(adjacency, from);
        return true;
      }
      if from in seen { return false; }
      seen := seen + {from};
      var todo := Successors(adjacency, from);
      while todo != {}
        invariant todo <= Successors(adjacency, from)
        invariant Explored(adjacency, seen, stack + {from}) && to !in seen && old(seen) + {from} <= seen
        invariant forall d :: d in Successors(adjacency, from) && d !in todo ==> d in seen
        decreases todo
      {
        var next :| next in todo;
        found := Search(next, to, stack + {from});
        if found {
          EdgeReach(adjacency, from, next);
          ReachTransitive(adjacency, from, next, to);
          return true;
        }
        todo := todo - {next};
      }
      return false;
    }
  }

  /** `reachable` with an empty `seen` returns true exactly when a path exists. */
  method IsReachable(nodes: set<string>, adjacency: Edges, from: string, to: string) returns (found: bool)
    requires Closed(nodes, adjacency) && from in nodes
    ensures found <==> Reach(adjacency, from, to)
  {
    var finder := new PathFinder(nodes, adjacency);
    found := finder.Search(from, to, {});
    if !found && Reach(adjacency, from, to) {
      ClosedUnderReach(adjacency, finder.seen, from, to);
    }
  }
}
