/** Service start order of internal/config/services.go: a three-colour depth-first search. `Search` and
    `SearchAll` describe the search on values; class Walker is the search over mutable state. */
module Services {
  import opened Ordering
  import opened Graph

  datatype Outcome = Done(order: seq<string>) | Unknown(id: string) | Cycle(id: string)

  ghost function Sorted(s: set<string>): (r: seq<string>)
    ensures IsSortedListing(r, s, Codes)
  {
    forall x, y | x in s && y in s && Codes(x) == Codes(y) ensures x == y { CodesInjective(x, y); }
    Listing(s, Codes)
  }

  /** Nodes neither on the stack nor finished. */
  ghost function Fresh(g: Edges, grey: set<string>, order: seq<string>): set<string> {
    set k | k in g && k !in grey && k !in order
  }

  /** `visit`: `grey` holds the ids on the stack, `order` the finished ones. */
  ghost function Search(g: Edges, id: string, grey: set<string>, order: seq<string>): (r: Outcome)
    ensures r.Done? ==> order <= r.order && id in r.order
    decreases Fresh(g, grey, order), 0
  {
    if id in order then Done(order)
    else if id in grey then Cycle(id)
    else if id !in g then Unknown(id)
    else
      assert id in Fresh(g, grey, order) && id !in Fresh(g, grey + {id}, order);
      var r := SearchAll(g, Sorted(g[id]), grey + {id}, order);
      if r.Done? then Done(r.order + [id]) else r
  }

  ghost function SearchAll(g: Edges, ids: seq<string>, grey: set<string>, order: seq<string>): (r: Outcome)
    ensures r.Done? ==> order <= r.order
    decreases Fresh(g, grey, order), |ids|
  {
    if ids == [] then Done(order)
    else
      var r := Search(g, ids[0], grey, order);
      if r.Done? then
        assert Fresh(g, grey, r.order) <= Fresh(g, grey, order);
        SearchAll(g, ids[1..], grey, r.order)
      else r
  }

  /** The start order of a set of requested services. */
  ghost function StartOrder(g: Edges, requested: set<string>): Outcome {
    SearchAll(g, Sorted(requested), {}, [])
  }

  // ----- the search is right -----

  /** An id that cannot be started: unknown, or on a dependency cycle. */
  ghost predicate Bad(g: Edges, x: string) { x !in g || OnCycle(g, x) }

  ghost predicate BadBelow(g: Edges, id: string) { exists x :: Reach(g, id, x) && Bad(g, x) }

  /** The reported id is what the error says. */
  ghost predicate Culprit(g: Edges, r: Outcome) {
    match r case Done(_) => true case Unknown(id) => id !in g case Cycle(id) => OnCycle(g, id)
  }

  /** Every id on the stack leads to `id`. */
  ghost predicate StackLeadsTo(g: Edges, grey: set<string>, id: string) {
    forall y :: y in grey ==> ReachPlus(g, y, id)
  }

  lemma {:induction false} SearchSound(g: Edges, id: string, grey: set<string>, order: seq<string>)
    requires Topological(g, order) && StackLeadsTo(g, grey, id)
    ensures var r := Search(g, id, grey, order);
            && (r.Done? ==> Topological(g, r.order)
                            && forall x :: x in r.order && x !in order ==> x !in grey && Reach(g, id, x))
            && (!r.Done? ==> BadBelow(g, id) && Culprit(g, r) && Reach(g, id, r.id))
    decreases Fresh(g, grey, order), 0
  {
    ReachSelf(g, id);
    if id in order {
    } else if id in grey {
      assert OnCycle(g, id);
    } else if id in g {
      var deps := Sorted(g[id]);
      var stack := grey + {id};
      assert id in Fresh(g, grey, order) && id !in Fresh(g, stack, order);
      forall d | d in deps ensures StackLeadsTo(g, stack, d) && Reach(g, id, d) {
        EdgeReach(g, id, d);
        forall y | y in stack ensures ReachPlus(g, y, d) {
          if y != id { ReachPlusThen(g, y, id, d); }
        }
      }
      SearchAllSound(g, deps, stack, order);
      var r := SearchAll(g, deps, stack, order);
      if r.Done? {
        AppendTopological(g, r.order, id);
        forall x | x in r.order && x !in order ensures Reach(g, id, x) {
          var d :| d in deps && Reach(g, d, x);
          ReachTransitive(g, id, d, x);
        }
      } else {
        var d :| d in deps && BadBelow(g, d) && Reach(g, d, r.id);
        ReachTransitive(g, id, d, r.id);
      }
    }
  }

  lemma {:induction false} SearchAllSound(g: Edges, ids: seq<string>, grey: set<string>, order: seq<string>)
    requires Topological(g, order) && forall d :: d in ids ==> StackLeadsTo(g, grey, d)
    ensures var r := SearchAll(g, ids, grey, order);
            && (r.Done? ==> Topological(g, r.order) && (forall d :: d in ids ==> d in r.order)
                            && forall x :: x in r.order && x !in order ==> x !in grey && exists d :: d in ids && Reach(g, d, x))
            && (!r.Done? ==> Culprit(g, r) && exists d :: d in ids && BadBelow(g, d) && Reach(g, d, r.id))
    decreases Fresh(g, grey, order), |ids|
  {
    if ids != [] {
      assert ids[0] in ids;
      SearchSound(g, ids[0], grey, order);
      var r := Search(g, ids[0], grey, order);
      if r.Done? {
        assert Fresh(g, grey, r.order) <= Fresh(g, grey, order);
        assert ids == [ids[0]] + ids[1..];
        SearchAllSound(g, ids[1..], grey, r.order);
      }
    }
  }

  /** `ServiceOrder` succeeds exactly when no unknown id and no cycle is reachable from the request; then it
      lists exactly the dependency closure, each service once, dependencies first. */
  lemma StartOrderExact(g: Edges, requested: set<string>)
    ensures var r := StartOrder(g, requested);
            && (r.Done? <==> forall id :: id in requested ==> !BadBelow(g, id))
            && (r.Done? ==> Topological(g, r.order)
                            && forall x :: x in r.order <==> exists id :: id in requested && Reach(g, id, x))
            && (!r.Done? ==> Culprit(g, r) && exists id :: id in requested && Reach(g, id, r.id))
  {
    var ids := Sorted(requested);
    SearchAllSound(g, ids, {}, []);
    var r := StartOrder(g, requested);
    if r.Done? {
      forall id, x | id in requested && Reach(g, id, x) ensures x in r.order && !Bad(g, x) {
        assert id in ids;
        TopologicalClosed(g, r.order, id, x);
      }
    }
  }

  // ----- which of the dependency orders it is -----

  ghost predicate Before(order: seq<string>, x: string, y: string) {
    exists n :: 0 <= n <= |order| && x in order[..n] && y !in order[..n]
  }

  lemma {:induction false} SearchAllSplit(g: Edges, a: seq<string>, b: seq<string>, grey: set<string>, order: seq<string>)
    ensures var r := SearchAll(g, a, grey, order);
      SearchAll(g, a + b, grey, order) == if r.Done? then SearchAll(g, b, grey, r.order) else r
    decreases |a|
  {
    if a == [] {
      assert a + b == b;
    } else {
      assert (a + b)[0] == a[0] && (a + b)[1..] == a[1..] + b;
      var r := Search(g, a[0], grey, order);
      if r.Done? { SearchAllSplit(g, a[1..], b, grey, r.order); }
    }
  }

  /** What an earlier id needs comes before what only later ones need. */
  lemma EarlierFirst(g: Edges, ids: seq<string>, grey: set<string>, order: seq<string>, k: nat, x: string, y: string)
    requires Topological(g, order) && (forall d :: d in ids ==> StackLeadsTo(g, grey, d))
    requires SearchAll(g, ids, grey, order).Done? && k < |ids| && Reach(g, ids[k], x)
    requires y !in order && forall i :: 0 <= i <= k ==> !Reach(g, ids[i], y)
    ensures Before(SearchAll(g, ids, grey, order).order, x, y)
  {
    var first, rest := ids[..k + 1], ids[k + 1..];
    assert ids == first + rest && ids[k] in first;
    SearchAllSplit(g, first, rest, grey, order);
    SearchAllSound(g, first, grey, order);
    var middle, all := SearchAll(g, first, grey, order).order, SearchAll(g, ids, grey, order).order;
    TopologicalClosed(g, middle, ids[k], x);
    assert middle == all[..|middle|];
    forall d | d in first ensures !Reach(g, d, y) {
      var i :| 0 <= i < |first| && first[i] == d;
    }
  }

  /** The requested services are started in the order of their ids: what one of them needs comes before
      whatever no requested id up to it needs. */
  lemma RequestedInOrder(g: Edges, requested: set<string>, id: string, x: string, y: string)
    requires StartOrder(g, requested).Done? && id in requested && Reach(g, id, x)
    requires forall other :: other in requested && !LexLess(Codes(id), Codes(other)) ==> !Reach(g, other, y)
    ensures Before(StartOrder(g, requested).order, x, y)
  {
    var ids := Sorted(requested);
    var k :| 0 <= k < |ids| && ids[k] == id;
    forall i | 0 <= i <= k ensures !Reach(g, ids[i], y) {
      assert ids[i] in ids;
      if i < k { LexAsymmetric(Codes(ids[i]), Codes(id)); } else { LexIrreflexive(Codes(id)); }
    }
    EarlierFirst(g, ids, {}, [], k, x, y);
  }

  /** And so are the dependencies of one service. */
  lemma DependenciesInOrder(g: Edges, id: string, dependency: string, x: string, y: string)
    requires StartOrder(g, {id}).Done? && id in g && dependency in g[id] && Reach(g, dependency, x) && y != id
    requires forall other :: other in g[id] && !LexLess(Codes(dependency), Codes(other)) ==> !Reach(g, other, y)
    ensures Before(StartOrder(g, {id}).order, x, y)
  {
    OneRequested(id);
    var r := Search(g, id, {}, []);
    assert StartOrder(g, {id}) == SearchAll(g, [id], {}, []) && [id][1..] == [];
    var ids := Sorted(g[id]);
    assert {} + {id} == {id} && SearchAll(g, ids, {id}, []).Done?;
    var k :| 0 <= k < |ids| && ids[k] == dependency;
    forall i | 0 <= i <= k ensures !Reach(g, ids[i], y) {
      assert ids[i] in ids;
      if i < k { LexAsymmetric(Codes(ids[i]), Codes(dependency)); } else { LexIrreflexive(Codes(dependency)); }
    }
    forall d | d in ids ensures StackLeadsTo(g, {id}, d) { EdgeReach(g, id, d); }
    EarlierFirst(g, ids, {id}, [], k, x, y);
    var inner := SearchAll(g, ids, {id}, []).order;
    var n :| 0 <= n <= |inner| && x in inner[..n] && y !in inner[..n];
    assert r.order == inner + [id] && r.order[..n] == inner[..n];
  }

  lemma OneRequested(id: string)
    ensures Sorted({id}) == [id]
  {
    ListingUnique([id], Sorted({id}), {id}, Codes);
  }

  // ----- repeated ids do not matter -----

  ghost predicate SortedIds(ids: seq<string>) { SortedBy(ids, Codes) }

  /** A sorted list with repetitions is searched like the set of its ids. */
  lemma {:induction false} RepetitionsDoNotMatter(g: Edges, ids: seq<string>, grey: set<string>, order: seq<string>)
    requires SortedIds(ids)
    ensures SearchAll(g, ids, grey, order) == SearchAll(g, Sorted(set x | x in ids), grey, order)
    decreases |ids|
  {
    var s := set x | x in ids;
    if ids == [] {
      EmptyListing(s);
    } else {
      var first, rest := ids[0], ids[1..];
      var t := set x | x in rest;
      assert ids == [first] + rest;
      var r := Search(g, first, grey, order);
      if first in rest {
        FirstRepeats(ids);
        assert s == t;
        RepetitionsDoNotMatter(g, rest, grey, order);
        if r.Done? {
          assert Search(g, rest[0], grey, r.order) == Done(r.order);
          assert SearchAll(g, ids, grey, order) == SearchAll(g, rest, grey, r.order);
          assert SearchAll(g, rest, grey, r.order) == SearchAll(g, rest[1..], grey, r.order);
        }
      } else {
        SortedCons(ids);
        assert Sorted(s)[1..] == Sorted(t);
        if r.Done? { RepetitionsDoNotMatter(g, rest, grey, r.order); }
      }
    }
  }

  lemma EmptyListing(s: set<string>)
    requires s == {}
    ensures Sorted(s) == []
  {
    ListingUnique([], Sorted(s), s, Codes);
  }

  lemma FirstRepeats(ids: seq<string>)
    requires SortedIds(ids) && ids != [] && ids[0] in ids[1..]
    ensures |ids| >= 2 && ids[1] == ids[0]
  {
    var k :| 0 <= k < |ids[1..]| && ids[1..][k] == ids[0];
    LexTotal(Codes(ids[0]), Codes(ids[1]));
    if k > 0 { assert !LexLess(Codes(ids[k + 1]), Codes(ids[1])); }
    if Codes(ids[0]) == Codes(ids[1]) { CodesInjective(ids[0], ids[1]); }
  }

  lemma SortedCons(ids: seq<string>)
    requires SortedIds(ids) && ids != [] && ids[0] !in ids[1..]
    ensures Sorted(set x | x in ids) == [ids[0]] + Sorted(set x | x in ids[1..])
  {
    var s, t := set x | x in ids, set x | x in ids[1..];
    var l := [ids[0]] + Sorted(t);
    assert ids == [ids[0]] + ids[1..];
    forall x | x in Sorted(t) ensures LexLess(Codes(ids[0]), Codes(x)) {
      assert x in ids[1..];
      var k :| 0 <= k < |ids[1..]| && ids[1..][k] == x;
      LexTotal(Codes(ids[0]), Codes(x));
      if Codes(ids[0]) == Codes(x) { CodesInjective(ids[0], x); }
    }
    assert forall x :: x in l <==> x == ids[0] || x in Sorted(t);
    ListingUnique(l, Sorted(s), s, Codes);
  }

  // ----- ServiceOrder -----

  /** A configured service; `spec` stands for the fields the order does not depend on. */
  datatype Service = Service(id: string, dependsOn: seq<string>, spec: string)

  function Members(ids: seq<string>): set<string> { set x | x in ids }

  ghost predicate UniqueIds(services: seq<Service>) {
    forall i, j :: 0 <= i < j < |services| ==> services[i].id != services[j].id
  }

  /** `byID`. */
  ghost predicate Indexes(byID: map<string, Service>, services: seq<Service>) {
    && (forall s :: s in services ==> s.id in byID && byID[s.id] == s)
    && (forall id :: id in byID ==> byID[id].id == id && byID[id] in services)
  }

  function EdgesOf(byID: map<string, Service>): Edges { map id | id in byID :: Members(byID[id].dependsOn) }

  /** The dependency graph of a configuration with unique ids. */
  ghost function DependencyGraph(services: seq<Service>): Edges {
    map id | id in (set s | s in services :: s.id) :: Dependencies(services, id)
  }

  ghost function Dependencies(services: seq<Service>, id: string): set<string> {
    set s, d | s in services && s.id == id && d in s.dependsOn :: d
  }

  lemma EdgesOfIndex(byID: map<string, Service>, services: seq<Service>)
    requires Indexes(byID, services)
    ensures EdgesOf(byID) == DependencyGraph(services)
  {
    var e, g := EdgesOf(byID), DependencyGraph(services);
    assert e.Keys == g.Keys;
    forall id | id in e ensures e[id] == g[id] {
      assert byID[id] in services;
    }
  }

  function IdsOf(services: seq<Service>): (ids: seq<string>)
    ensures |ids| == |services| && forall i :: 0 <= i < |ids| ==> ids[i] == services[i].id
  {
    seq(|services|, i requires 0 <= i < |services| => services[i].id)
  }

  /** An id seen for the first time: search its sorted dependencies, then append it. */
  lemma SearchFresh(byID: map<string, Service>, id: string, grey: set<string>, order: seq<string>)
    requires id in byID && id !in grey && id !in order
    ensures var g := EdgesOf(byID);
            var r := SearchAll(g, SortBy(byID[id].dependsOn, Codes), grey + {id}, order);
            Search(g, id, grey, order) == if r.Done? then Done(r.order + [id]) else r
  {
    var ids := byID[id].dependsOn;
    SortBySorts(ids, Codes);
    SortedMembers(ids);
    RepetitionsDoNotMatter(EdgesOf(byID), SortBy(ids, Codes), grey + {id}, order);
  }

  /** The search of `ServiceOrder`: colours 1 (on the stack) and 2 (finished) by id, and the result. */
  class Walker {
    const byID: map<string, Service>
    var state: map<string, int>
    var result: seq<Service>

    constructor (byID: map<string, Service>)
      requires forall id :: id in byID ==> byID[id].id == id
      ensures this.byID == byID && Valid() && Grey() == {} && result == []
    {
      this.byID := byID;
      state, result := map[], [];
    }

    ghost function Grey(): set<string>
      reads this
    {
      set id | id in state && state[id] == 1
    }

    /** Colour 2 marks exactly the ids of the result, whose entries are the configured services. */
    ghost predicate Valid()
      reads this
    {
      && (forall id :: id in byID ==> byID[id].id == id)
      && (forall id :: id in state && state[id] == 2 <==> id in IdsOf(result))
      && (forall id :: id in state ==> state[id] == 1 || state[id] == 2)
      && (forall s :: s in result ==> s.id in byID && byID[s.id] == s)
    }

    /** Colour an id 1: it is on the stack. */
    method Enter(id: string)
      requires Valid() && id in byID && id !in Grey() && id !in IdsOf(result)
      modifies this`state
      ensures Valid() && Grey() == old(Grey()) + {id}
    {
      state := state[id := 1];
    }

    /** Colour an id 2 and append its service. */
    method Finish(id: string)
      requires Valid() && id in byID && id in Grey()
      modifies this
      ensures Valid() && Grey() == old(Grey()) - {id} && IdsOf(result) == old(IdsOf(result)) + [id]
    {
      state := state[id := 2];
      result := result + [byID[id]];
      assert IdsOf(result) == old(IdsOf(result)) + [id];
      forall x ensures x in IdsOf(result) <==> x in old(IdsOf(result)) || x == id {}
    }

    /** `visit`: succeeds exactly as the search on values does, and appends what it appends. */
    method Visit(id: string) returns (r: Outcome)
      requires Valid()
      modifies this
      ensures Search(EdgesOf(byID), id, old(Grey()), old(IdsOf(result)))
              == if r.Done? then Done(IdsOf(result)) else r
      ensures r.Done? ==> Valid() && Grey() == old(Grey())
      decreases Fresh(EdgesOf(byID), Grey(), IdsOf(result)), 0
    {
      ghost var g, grey, order := EdgesOf(byID), Grey(), IdsOf(result);
      if id in state && state[id] == 2 { return Done([]); }
      if id in state && state[id] == 1 { return Cycle(id); }
      if id !in byID { return Unknown(id); }
      assert id in Fresh(g, grey, order) && id !in Fresh(g, grey + {id}, order);
      SearchFresh(byID, id, grey, order);
      hide Search, SearchAll, EdgesOf, Fresh, Valid;
      Enter(id);
      r := VisitEach(SortBy(byID[id].dependsOn, Codes));
      if r.Done? { Finish(id); }
    }

    /** The loop over sorted ids, in `visit` and in `ServiceOrder`. */
    method VisitEach(ids: seq<string>) returns (r: Outcome)
      requires Valid()
      modifies this
      ensures SearchAll(EdgesOf(byID), ids, old(Grey()), old(IdsOf(result)))
              == if r.Done? then Done(IdsOf(result)) else r
      ensures r.Done? ==> Valid() && Grey() == old(Grey())
      decreases Fresh(EdgesOf(byID), Grey(), IdsOf(result)), |ids|
    {
      ghost var g := EdgesOf(byID);
      for i := 0 to |ids|
        invariant Valid() && Grey() == old(Grey())
        invariant SearchAll(g, ids, old(Grey()), old(IdsOf(result))) == SearchAll(g, ids[i..], Grey(), IdsOf(result))
        invariant Fresh(g, Grey(), IdsOf(result)) <= old(Fresh(g, Grey(), IdsOf(result)))
      {
        assert ids[i..][0] == ids[i] && ids[i..][1..] == ids[i + 1..];
        r := Visit(ids[i]);
        if !r.Done? { return; }
      }
      return Done([]);
    }
  }

  lemma SortedMembers(ids: seq<string>)
    ensures (set x | x in SortBy(ids, Codes)) == Members(ids)
  {
    forall x ensures x in SortBy(ids, Codes) <==> x in ids { SortMember(ids, Codes, x); }
  }

  datatype Answer = Order(services: seq<Service>) | Refused(reason: Outcome) | Duplicate(id: string)

  /** `ServiceOrder`: a function of the dependency graph and the set of requested ids alone. */
  method ServiceOrder(services: seq<Service>, requested: seq<string>) returns (answer: Answer)
    ensures answer.Duplicate? <==> !UniqueIds(services)
    ensures !answer.Duplicate? ==>
              StartOrder(DependencyGraph(services), Members(requested))
              == if answer.Order? then Done(IdsOf(answer.services)) else answer.reason
    ensures answer.Order? ==> forall s :: s in answer.services ==> s in services
  {
    var byID: map<string, Service> := map[];
    for i := 0 to |services|
      invariant UniqueIds(services[..i]) && Indexes(byID, services[..i])
    {
      assert services[..i + 1] == services[..i] + [services[i]];
      if services[i].id in byID {
        ghost var k :| 0 <= k < i && services[..i][k] == byID[services[i].id];
        assert services[k].id == services[i].id;
        return Duplicate(services[i].id);
      }
      byID := byID[services[i].id := services[i]];
    }
    assert services[..|services|] == services;
    EdgesOfIndex(byID, services);
    var walker := new Walker(byID);
    var ids := SortBy(requested, Codes);
    SortBySorts(requested, Codes);
    SortedMembers(requested);
    RepetitionsDoNotMatter(EdgesOf(byID), ids, {}, []);
    var r := walker.VisitEach(ids);
    if r.Done? { return Order(walker.result); }
    return Refused(r);
  }
}
