/** Directed graphs as maps from a node to its successors, walks in them and orders of their nodes. */
module Graph {

  type Edges = map<string, set<string>>

  /** `p` walks from `a` to `b` along edges; a single node is a walk of length zero. */
  ghost predicate Walk(g: Edges, p: seq<string>, a: string, b: string) {
    && |p| >= 1 && p[0] == a && p[|p| - 1] == b
    && (forall i :: 0 <= i < |p| - 1 ==> p[i] in g && p[i + 1] in g[p[i]])
  }

  ghost predicate Reach(g: Edges, a: string, b: string) {
    exists p :: Walk(g, p, a, b)
  }

  /** Reachable by at least one edge. */
  ghost predicate ReachPlus(g: Edges, a: string, b: string) {
    exists p :: Walk(g, p, a, b) && |p| >= 2
  }

  ghost predicate OnCycle(g: Edges, a: string) { ReachPlus(g, a, a) }

  lemma ReachSelf(g: Edges, a: string)
    ensures Reach(g, a, a)
  {
    assert Walk(g, [a], a, a);
  }

  lemma WalkConcat(g: Edges, p: seq<string>, q: seq<string>, a: string, b: string, c: string)
    requires Walk(g, p, a, b) && Walk(g, q, b, c)
    ensures Walk(g, p + q[1..], a, c) && |p + q[1..]| == |p| + |q| - 1
  {
    var r := p + q[1..];
    forall i | 0 <= i < |r| - 1 ensures r[i] in g && r[i + 1] in g[r[i]] {
      if i >= |p| - 1 {
        assert r[i] == q[i - (|p| - 1)] && r[i + 1] == q[i + 1 - (|p| - 1)];
      }
    }
  }

  lemma ReachTransitive(g: Edges, a: string, b: string, c: string)
    requires Reach(g, a, b) && Reach(g, b, c)
    ensures Reach(g, a, c)
  {
    var p :| Walk(g, p, a, b);
    var q :| Walk(g, q, b, c);
    WalkConcat(g, p, q, a, b, c);
  }

  lemma ReachPlusThen(g: Edges, a: string, b: string, c: string)
    requires ReachPlus(g, a, b) && Reach(g, b, c)
    ensures ReachPlus(g, a, c)
  {
    var p :| Walk(g, p, a, b) && |p| >= 2;
    var q :| Walk(g, q, b, c);
    WalkConcat(g, p, q, a, b, c);
  }

  lemma EdgeReach(g: Edges, a: string, b: string)
    requires a in g && b in g[a]
    ensures Reach(g, a, b) && ReachPlus(g, a, b)
  {
    assert Walk(g, [a, b], a, b);
  }

  /** A set holding `a` and closed under successors holds everything `a` reaches. */
  lemma ClosedUnderReach(g: Edges, s: set<string>, a: string, b: string)
    requires a in s && forall x, y :: x in s && x in g && y in g[x] ==> y in s
    requires Reach(g, a, b)
    ensures b in s
  {
    var p :| Walk(g, p, a, b);
    WalkStaysInside(g, s, p, |p| - 1);
  }

  lemma {:induction false} WalkStaysInside(g: Edges, s: set<string>, p: seq<string>, i: nat)
    requires i < |p| && p[0] in s && forall x, y :: x in s && x in g && y in g[x] ==> y in s
    requires forall j :: 0 <= j < |p| - 1 ==> p[j] in g && p[j + 1] in g[p[j]]
    ensures p[i] in s
  {
    if i > 0 { WalkStaysInside(g, s, p, i - 1); }
  }

  // ----- dependency orders -----

  ghost predicate Distinct(order: seq<string>) {
    forall i, j :: 0 <= i < j < |order| ==> order[i] != order[j]
  }

  /** Each node once, every successor before the node that names it. */
  ghost predicate Topological(g: Edges, order: seq<string>) {
    && Distinct(order)
    && (forall i :: 0 <= i < |order| ==> order[i] in g)
    && (forall i, d :: 0 <= i < |order| && d in g[order[i]] ==> d in order[..i])
  }

  /** Appending a node whose successors are all present keeps the order topological. */
  lemma AppendTopological(g: Edges, order: seq<string>, id: string)
    requires Topological(g, order) && id in g && id !in order && forall d :: d in g[id] ==> d in order
    ensures Topological(g, order + [id])
  {
    var o := order + [id];
    forall i, d | 0 <= i < |o| && d in g[o[i]] ensures d in o[..i] {
      if i < |order| { assert o[..i] == order[..i]; } else { assert o[..i] == order; }
    }
  }

  /** Walking from a node of a topological order goes strictly back in the order. */
  lemma {:induction false} WalkGoesBack(g: Edges, order: seq<string>, p: seq<string>, i: nat)
    requires Topological(g, order) && i < |order| && |p| >= 1 && Walk(g, p, order[i], p[|p| - 1])
    ensures exists j :: 0 <= j < |order| && order[j] == p[|p| - 1] && (|p| >= 2 ==> j < i) && j <= i
  {
    if |p| >= 2 {
      assert p[1] in g[p[0]] && p[1] in order[..i];
      var k :| 0 <= k < i && order[k] == p[1];
      var q := p[1..];
      forall m | 0 <= m < |q| - 1 ensures q[m] in g && q[m + 1] in g[q[m]] {
        assert q[m] == p[m + 1] && q[m + 1] == p[m + 2];
      }
      WalkGoesBack(g, order, q, k);
    }
  }

  /** What a node of a topological order reaches is in the order, and no such node lies on a cycle. */
  lemma TopologicalClosed(g: Edges, order: seq<string>, a: string, b: string)
    requires Topological(g, order) && a in order && Reach(g, a, b)
    ensures b in order && b in g && !OnCycle(g, b)
  {
    var i :| 0 <= i < |order| && order[i] == a;
    var p :| Walk(g, p, a, b);
    WalkGoesBack(g, order, p, i);
    var j :| 0 <= j < |order| && order[j] == b;
    if OnCycle(g, b) {
      var q :| Walk(g, q, b, b) && |q| >= 2;
      WalkGoesBack(g, order, q, j);
    }
  }
}
