/** Accepted work graphs: `compilePlan` of internal/goalcompile/compile.go and what acceptance means for
    work items that run at the same time. */
module Plan {
  import opened Graph
  import opened Cycles
  import opened Globs
  import opened Scopes
  import opened Overlaps

  /** A proposed work item; `bounded` stands for the checks on its own texts, validators and role. */
  datatype Item = Item(
    key: string, dependsOn: seq<string>, readScope: seq<string>, writeScope: seq<string>, criteria: seq<string>,
    required: bool, bounded: bool)

  function Keys(items: seq<Item>): set<string> { set i | i in items :: i.key }

  ghost predicate DistinctKeys(items: seq<Item>) {
    forall i, j :: 0 <= i < j < |items| ==> items[i].key != items[j].key
  }

  /** The checks on one item; `criteria` are the acceptance criteria of the contract. */
  predicate WellFormed(criteria: set<string>, item: Item) {
    item.bounded && item.readScope != [] && item.writeScope != [] && item.criteria != []
    && (forall c :: c in item.criteria ==> c in criteria)
    && (forall s :: s in item.readScope ==> ValidScope(s)) && (forall s :: s in item.writeScope ==> ValidScope(s))
  }

  /** Items that name the given prerequisite. */
  function Dependents(items: seq<Item>, prerequisite: string): set<string> {
    set i | i in items && prerequisite in i.dependsOn :: i.key
  }

  /** From each prerequisite to the items that depend on it. */
  function Adjacency(items: seq<Item>): Edges {
    map p | p in (set i, p | i in items && p in i.dependsOn :: p) :: Dependents(items, p)
  }

  predicate KnownDependencies(items: seq<Item>, item: Item) {
    forall p :: p in item.dependsOn ==> p in Keys(items) && p != item.key
  }

  ghost predicate Ordered(g: Edges, a: string, b: string) { Reach(g, a, b) || Reach(g, b, a) }

  /** The criteria some required item takes on. */
  function CoveredCriteria(items: seq<Item>): set<string> {
    set i, c | i in items && i.required && c in i.criteria :: c
  }

  /** What `compilePlan` accepts. */
  ghost predicate Accepts(criteria: set<string>, items: seq<Item>) {
    && 1 <= |items| <= 64 && (forall i :: i in items ==> WellFormed(criteria, i)) && DistinctKeys(items)
    && criteria <= CoveredCriteria(items)
    && (forall i :: i in items ==> KnownDependencies(items, i))
    && !HasCycle(Adjacency(items))
    && (forall i, j :: 0 <= i < j < |items| && !Ordered(Adjacency(items), items[i].key, items[j].key)
          ==> !MayOverlap(items[i].writeScope, items[j].writeScope))
  }

  // ----- compilePlan -----

  /** The first loop: bounds, duplicate keys, scopes and criteria. */
  method IndexItems(criteria: set<string>, items: seq<Item>) returns (ok: bool, keys: set<string>, covered: set<string>)
    ensures ok <==> DistinctKeys(items) && forall i :: i in items ==> WellFormed(criteria, i)
    ensures ok ==> keys == Keys(items) && covered == CoveredCriteria(items)
  {
    hide WellFormed;
    keys, covered := {}, {};
    for i := 0 to |items|
      invariant keys == Keys(items[..i]) && covered == CoveredCriteria(items[..i]) && DistinctKeys(items[..i])
      invariant forall x :: x in items[..i] ==> WellFormed(criteria, x)
    {
      assert items[..i + 1] == items[..i] + [items[i]];
      assert items[i] in items;
      if !WellFormed(criteria, items[i]) { return false, keys, covered; }
      if items[i].key in keys {
        ghost var x :| x in items[..i] && x.key == items[i].key;
        ghost var k :| 0 <= k < i && items[k] == x;
        return false, keys, covered;
      }
      CoverOneMore(items[..i], items[i]);
      keys := keys + {items[i].key};
      if items[i].required { covered := covered + (set c | c in items[i].criteria); }
    }
    assert items[..|items|] == items;
    return true, keys, covered;
  }

  lemma CoverOneMore(items: seq<Item>, last: Item)
    ensures CoveredCriteria(items + [last]) ==
      CoveredCriteria(items) + (if last.required then (set c | c in last.criteria) else {})
    ensures Keys(items + [last]) == Keys(items) + {last.key}
  {
    var all := items + [last];
    assert forall i :: i in all <==> i in items || i == last;
  }

  /** The second loop: known dependencies and the adjacency map. */
  method LinkItems(items: seq<Item>, keys: set<string>) returns (ok: bool, adjacency: Edges)
    requires keys == Keys(items)
    ensures ok <==> forall i :: i in items ==> KnownDependencies(items, i)
    ensures ok ==> adjacency == Adjacency(items)
  {
    adjacency := map[];
    for i := 0 to |items|
      invariant forall x :: x in items[..i] ==> KnownDependencies(items, x)
      invariant adjacency == Adjacency(items[..i])
    {
      var item := items[i];
      assert items[..i + 1] == items[..i] + [item];
      assert item in items;
      NoDependencies(items[..i], item);
      for j := 0 to |item.dependsOn|
        invariant forall p :: p in item.dependsOn[..j] ==> p in keys && p != item.key
        invariant adjacency == Adjacency(items[..i] + [item.(dependsOn := item.dependsOn[..j])])
      {
        var p := item.dependsOn[j];
        assert item.dependsOn[..j + 1] == item.dependsOn[..j] + [p];
        if p !in keys || p == item.key {
          assert p in item.dependsOn;
          return false, adjacency;
        }
        ghost var before := adjacency;
        adjacency := adjacency[p := (if p in adjacency then adjacency[p] else {}) + {item.key}];
        AdjacencyStep(items[..i], item, j);
      }
      assert item.dependsOn[..|item.dependsOn|] == item.dependsOn;
    }
    assert items[..|items|] == items;
    return true, adjacency;
  }

  /** Recording one more prerequisite of the last item. */
  lemma AdjacencyStep(items: seq<Item>, item: Item, j: nat)
    requires j < |item.dependsOn|
    ensures var g := Adjacency(items + [item.(dependsOn := item.dependsOn[..j])]);
            var p := item.dependsOn[j];
            Adjacency(items + [item.(dependsOn := item.dependsOn[..j + 1])])
            == g[p := (if p in g then g[p] else {}) + {item.key}]
  {
    var x, y := item.(dependsOn := item.dependsOn[..j]), item.(dependsOn := item.dependsOn[..j + 1]);
    var p := item.dependsOn[j];
    assert y.dependsOn == x.dependsOn + [p];
    forall q
      ensures Dependents(items + [y], q) == Dependents(items + [x], q) + (if q == p then {item.key} else {})
      ensures q in Adjacency(items + [y]) <==> q in Adjacency(items + [x]) || q == p
    {
      OneMoreDependency(items, x, y, p, q);
    }
    NotNamed(items + [x], p);
    var g, h := Adjacency(items + [x]), Adjacency(items + [y]);
    var r := g[p := (if p in g then g[p] else {}) + {item.key}];
    assert h.Keys == r.Keys;
    forall q | q in h ensures h[q] == r[q] {}
  }

  lemma OneMoreDependency(items: seq<Item>, x: Item, y: Item, p: string, q: string)
    requires y.key == x.key && y.dependsOn == x.dependsOn + [p]
    ensures Dependents(items + [y], q) == Dependents(items + [x], q) + (if q == p then {x.key} else {})
    ensures q in Adjacency(items + [y]) <==> q in Adjacency(items + [x]) || q == p
  {
    NamedByLast(items, x, q);
    NamedByLast(items, y, q);
    hide Adjacency;
    assert q in y.dependsOn <==> q in x.dependsOn || q == p;
    hide Dependents;
    forall k
      ensures k in Dependents(items + [y], q) <==> k in Dependents(items + [x], q) || (q == p && k == x.key)
    {
      DependentsOfLast(items, y, q, k);
      DependentsOfLast(items, x, q, k);
    }
  }

  lemma NotNamed(items: seq<Item>, p: string)
    ensures p !in Adjacency(items) ==> Dependents(items, p) == {}
  {
  }

  lemma NoDependencies(items: seq<Item>, item: Item)
    ensures Adjacency(items + [item.(dependsOn := item.dependsOn[..0])]) == Adjacency(items)
  {
    var x := item.(dependsOn := item.dependsOn[..0]);
    forall q ensures q in Adjacency(items + [x]) <==> q in Adjacency(items) { NamedByLast(items, x, q); }
    forall q ensures Dependents(items + [x], q) == Dependents(items, q) {
      forall k ensures k in Dependents(items + [x], q) <==> k in Dependents(items, q) { DependentsOfLast(items, x, q, k); }
    }
  }

  lemma DependentsOfLast(items: seq<Item>, last: Item, q: string, k: string)
    ensures k in Dependents(items + [last], q) <==> k in Dependents(items, q) || (q in last.dependsOn && k == last.key)
  {
    var all := items + [last];
    assert forall i :: i in all <==> i in items || i == last;
    if q in last.dependsOn && k == last.key { assert last in all; }
    if k in Dependents(items, q) { var i :| i in items && q in i.dependsOn && i.key == k; assert i in all; }
  }

  lemma NamedByLast(items: seq<Item>, last: Item, q: string)
    ensures q in Adjacency(items + [last]) <==> q in Adjacency(items) || q in last.dependsOn
  {
    var all := items + [last];
    assert forall i :: i in all <==> i in items || i == last;
    if q in last.dependsOn { assert last in all; }
    if q in Adjacency(items) { var i :| i in items && q in i.dependsOn; assert i in all; }
  }

  lemma AdjacencyClosed(items: seq<Item>)
    requires forall i :: i in items ==> KnownDependencies(items, i)
    ensures Closed(Keys(items), Adjacency(items))
  {
  }

  /** Whatever is accepted is bounded and complete, with different keys, known criteria and prerequisites, and every
      criterion taken on by a required item. */
  lemma AcceptedMeans(criteria: set<string>, items: seq<Item>)
    requires Accepts(criteria, items)
    ensures 1 <= |items| <= 64 && forall i, j :: 0 <= i < j < |items| ==> items[i].key != items[j].key
    ensures forall i :: i in items ==>
      i.bounded && i.readScope != [] && i.writeScope != [] && i.criteria != [] && forall s :: s in i.readScope + i.writeScope ==> ValidScope(s)
    ensures forall i, c :: i in items && c in i.criteria ==> c in criteria
    ensures forall i, p :: i in items && p in i.dependsOn ==> p != i.key && exists j :: j in items && j.key == p
    ensures forall c :: c in criteria ==> exists i :: i in items && i.required && c in i.criteria
  {
    hide ValidScope, Adjacency, HasCycle, MayOverlap;
    assert forall c :: c in criteria ==> c in CoveredCriteria(items);
    forall i, p | i in items && p in i.dependsOn ensures p != i.key && exists j :: j in items && j.key == p {
      assert KnownDependencies(items, i);
    }
  }

  /** `compilePlan`: the loops, the cycle test and the pairwise overlap test, in the source's order. */
  method CompilePlan(criteria: set<string>, items: seq<Item>) returns (accepted: bool)
    ensures accepted <==> Accepts(criteria, items)
  {
    hide WellFormed, CoveredCriteria, Adjacency, KnownDependencies, HasCycle, MayOverlap, Keys;
    if |items| == 0 || |items| > 64 { return false; }
    var ok, keys, covered := IndexItems(criteria, items);
    if !ok || !(criteria <= covered) { return false; }
    var adjacency: Edges;
    ok, adjacency := LinkItems(items, keys);
    if !ok { return false; }
    AdjacencyClosed(items);
    var cyclic := IsCyclic(keys, adjacency);
    if cyclic { return false; }
    for i := 0 to |items|
      invariant forall x, y :: 0 <= x < i && x < y < |items| && !Ordered(adjacency, items[x].key, items[y].key)
                  ==> !MayOverlap(items[x].writeScope, items[y].writeScope)
    {
      KeyOfItem(items, i);
      for j := i + 1 to |items|
        invariant forall y :: i < y < j && !Ordered(adjacency, items[i].key, items[y].key)
                    ==> !MayOverlap(items[i].writeScope, items[y].writeScope)
      {
        KeyOfItem(items, j);
        var forwards := IsReachable(keys, adjacency, items[i].key, items[j].key);
        var backwards := IsReachable(keys, adjacency, items[j].key, items[i].key);
        if !forwards && !backwards {
          var overlap := ScopesMayOverlap(items[i].writeScope, items[j].writeScope);
          if overlap { return false; }
        }
      }
    }
    return true;
  }

  lemma KeyOfItem(items: seq<Item>, i: nat)
    requires i < |items|
    ensures items[i].key in Keys(items)
  {
    assert items[i] in items;
  }

  // ----- isolation -----

  /** The write policy made from the item's scopes and the configured deny patterns lets the path through. */
  predicate MayWrite(norm: string -> string, deny: seq<string>, item: Item, path: seq<string>) {
    var policy := PolicyOf(norm, item.writeScope, deny);
    policy.Some? && Allows(policy.value, path)
  }

  predicate PlainScopes(norm: string -> string, item: Item) { forall s :: s in item.writeScope ==> Plain(norm, s) }

  predicate TrustedScopes(norm: string -> string, item: Item) { forall s :: s in item.writeScope ==> Trusted(norm, s) }

  /** Both policies compile and some of the scopes cover a common path; this can be computed. */
  predicate Collide(norm: string -> string, a: Item, b: Item) {
    AllCompile(norm, a.writeScope) && AllCompile(norm, b.writeScope) &&
    exists s, t :: s in a.writeScope && t in b.writeScope && Common(norm, s, t)
  }

  /** Whatever is denied, no path is open to both. */
  ghost predicate Isolated(norm: string -> string, a: Item, b: Item) {
    forall deny, path :: NormalPath(norm, path) && MayWrite(norm, deny, a, path) ==> !MayWrite(norm, deny, b, path)
  }

  /** `Collide` decides whether two items may write one path. */
  lemma IsolatedExactly(norm: string -> string, criteria: set<string>, a: Item, b: Item)
    requires Normalisation(norm) && WellFormed(criteria, a) && WellFormed(criteria, b)
    ensures Isolated(norm, a, b) <==> !Collide(norm, a, b)
  {
    hide Normalisation, ValidScope, Common, Covers, Allows, AllCompile, NormalPath;
    if Collide(norm, a, b) {
      var s, t :| s in a.writeScope && t in b.writeScope && Common(norm, s, t);
      CommonExactly(norm, s, t);
      var path :| NormalPath(norm, path) && Covers(norm, s, path) && Covers(norm, t, path);
      NothingDenied(norm);
      AllowsExactly(norm, a.writeScope, [], path);
      AllowsExactly(norm, b.writeScope, [], path);
      assert MayWrite(norm, [], a, path) && MayWrite(norm, [], b, path);
    } else {
      forall deny, path | NormalPath(norm, path) && MayWrite(norm, deny, a, path) ensures !MayWrite(norm, deny, b, path) {
        if MayWrite(norm, deny, b, path) {
          AllowsExactly(norm, a.writeScope, deny, path);
          AllowsExactly(norm, b.writeScope, deny, path);
          var s :| s in a.writeScope && Covers(norm, s, path);
          var t :| t in b.writeScope && Covers(norm, t, path);
          CommonExactly(norm, s, t);
          assert false;
        }
      }
    }
  }

  lemma NothingDenied(norm: string -> string)
    ensures AllCompile(norm, [])
  {
  }

  /** In an accepted plan two items without a dependency path between them cannot collide, if the
      overlap test can be trusted with the scopes of one and those of the other are plain. */
  lemma UnorderedItemsAreIsolated(norm: string -> string, criteria: set<string>, items: seq<Item>, a: Item, b: Item)
    requires Normalisation(norm) && Accepts(criteria, items)
    requires a in items && b in items && !Ordered(Adjacency(items), a.key, b.key)
    requires TrustedScopes(norm, a) && PlainScopes(norm, b)
    ensures !Collide(norm, a, b) && Isolated(norm, a, b)
  {
    var i :| 0 <= i < |items| && items[i] == a;
    var j :| 0 <= j < |items| && items[j] == b;
    ReachSelf(Adjacency(items), a.key);
    assert !MayOverlap(a.writeScope, b.writeScope) || !MayOverlap(b.writeScope, a.writeScope) by {
      hide MayOverlap, HasCycle, KnownDependencies, WellFormed, Adjacency, Reach, CoveredCriteria;
      assert i != j;
    }
    assert WellFormed(criteria, a) && WellFormed(criteria, b);
    hide Accepts, Ordered, Isolated, Collide;
    DisjointScopes(norm, criteria, a, b);
    IsolatedExactly(norm, criteria, a, b);
  }

  lemma DisjointScopes(norm: string -> string, criteria: set<string>, a: Item, b: Item)
    requires Normalisation(norm) && WellFormed(criteria, a) && WellFormed(criteria, b)
    requires TrustedScopes(norm, a) && PlainScopes(norm, b)
    requires !MayOverlap(a.writeScope, b.writeScope) || !MayOverlap(b.writeScope, a.writeScope)
    ensures !Collide(norm, a, b)
  {
    hide Normalisation, Trusted, Plain, Common, ValidScope, MayOverlapPair, NormalPath, Covers;
    forall s, t | s in a.writeScope && t in b.writeScope ensures !Common(norm, s, t) {
      OverlapSymmetric(s, t);
      CommonExactly(norm, s, t);
      forall path | NormalPath(norm, path) ensures !(Covers(norm, s, path) && Covers(norm, t, path)) {
        OverlapTestSound(norm, s, t, path);
      }
    }
  }

  lemma OverlapSymmetric(a: string, b: string)
    ensures MayOverlapPair(a, b) <==> MayOverlapPair(b, a)
  {
  }

  // ----- plans that are accepted and not isolated -----

  /** Two independent items, one scope each. */
  function TwoItems(a: string, b: string): seq<Item> {
    [Item("a", [], [a], [a], ["done"], true, true), Item("b", [], [b], [b], ["done"], true, true)]
  }

  /** Such a plan stands and falls with the overlap test. */
  lemma TwoItemsAccepted(a: string, b: string)
    requires ValidScope(a) && ValidScope(b)
    ensures Accepts({"done"}, TwoItems(a, b)) <==> !MayOverlapPair(a, b)
    ensures var plan := TwoItems(a, b); !Ordered(Adjacency(plan), plan[0].key, plan[1].key)
  {
    hide ValidScope, MayOverlapPair;
    var plan := TwoItems(a, b);
    assert plan[0] in plan && plan[1] in plan && "a"[0] != "b"[0];
    assert CoveredCriteria(plan) >= {"done"} by { assert "done" in plan[0].criteria; }
    NoEdges(plan);
    OnePair(a, b);
  }

  lemma OnePair(a: string, b: string)
    ensures MayOverlap([a], [b]) <==> MayOverlapPair(a, b)
  {
    assert a in [a] && b in [b];
  }

  lemma NoEdges(items: seq<Item>)
    requires forall i :: i in items ==> i.dependsOn == []
    ensures Adjacency(items) == map[] && !HasCycle(Adjacency(items))
    ensures forall x, y :: x != y ==> !Reach(Adjacency(items), x, y)
  {
    assert Adjacency(items).Keys == {};
  }

  /** Write isolation at full strength: a scope can be left to the overlap test, in every accepted plan of
      two independent items whose other scope is plain, exactly if it is trusted. */
  lemma IsolationExact(norm: string -> string, a: string)
    requires Normalisation(norm) && ValidScope(a)
    ensures Trusted(norm, a) <==>
      forall b :: ValidScope(b) && Plain(norm, b) && Accepts({"done"}, TwoItems(a, b))
        ==> Isolated(norm, TwoItems(a, b)[0], TwoItems(a, b)[1])
  {
    hide Normalisation, Trusted, ValidScope, Plain, MayOverlapPair, Accepts, Isolated;
    if Trusted(norm, a) {
      forall b | ValidScope(b) && Plain(norm, b) && Accepts({"done"}, TwoItems(a, b))
        ensures Isolated(norm, TwoItems(a, b)[0], TwoItems(a, b)[1])
      {
        var plan := TwoItems(a, b);
        TwoItemsAccepted(a, b);
        UnorderedItemsAreIsolated(norm, {"done"}, plan, plan[0], plan[1]);
      }
    } else {
      var b := UntrustedPlan(norm, a);
    }
  }

  /** For every scope that is not trusted there is an accepted plan whose items may write one path. */
  lemma UntrustedPlan(norm: string -> string, a: string) returns (b: string)
    requires Normalisation(norm) && ValidScope(a) && !Trusted(norm, a)
    ensures ValidScope(b) && Plain(norm, b)
    ensures var plan := TwoItems(a, b); Accepts({"done"}, plan) && !Isolated(norm, plan[0], plan[1])
  {
    hide Normalisation, Trusted, ValidScope, Plain, MayOverlapPair, NormalPath, Covers;
    var path;
    b, path := UntrustedOverlaps(norm, a);
    TwoItemsAccepted(a, b);
    CommonExactly(norm, a, b);
    var plan := TwoItems(a, b);
    OneCompile(norm, a, path);
    OneCompile(norm, b, path);
    hide Accepts, Common, AllCompile, Isolated;
    assert a in plan[0].writeScope && b in plan[1].writeScope;
    assert Collide(norm, plan[0], plan[1]);
    OneItem("a", a);
    OneItem("b", b);
    IsolatedExactly(norm, {"done"}, plan[0], plan[1]);
  }

  lemma OneCompile(norm: string -> string, a: string, path: seq<string>)
    requires Covers(norm, a, path)
    ensures AllCompile(norm, [a])
  {
  }

  lemma OneItem(key: string, a: string)
    requires ValidScope(a)
    ensures WellFormed({"done"}, Item(key, [], [a], [a], ["done"], true, true))
  {
    hide ValidScope;
  }
}
