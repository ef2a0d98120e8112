/** Work items running side by side: schedules that respect dependencies
    (internal/store/sqlite/scheduler.go), and when none of them lets two running items write one path. */
module Schedules {
  import opened Graph
  import opened Cycles
  import opened Globs
  import opened Plan

  datatype Schedule = Schedule(running: set<string>, done: set<string>)

  datatype Move = Start(key: string) | Finish(key: string)

  /** A scheduler that starts an item only when everything it depends on is done; other moves do nothing. */
  function Advance(items: seq<Item>, s: Schedule, m: Move): Schedule {
    match m
    case Start(k) =>
      if k in Keys(items) && k !in s.running && k !in s.done
         && (forall i, p :: i in items && i.key == k && p in i.dependsOn ==> p in s.done)
      then s.(running := s.running + {k}) else s
    case Finish(k) =>
      if k in s.running then Schedule(s.running - {k}, s.done + {k}) else s
  }

  function RunSchedule(items: seq<Item>, moves: seq<Move>): Schedule {
    if moves == [] then Schedule({}, {})
    else Advance(items, RunSchedule(items, moves[..|moves| - 1]), moves[|moves| - 1])
  }

  /** Whatever has started depends only on finished items. */
  ghost predicate DependenciesDone(items: seq<Item>, s: Schedule) {
    && s.running !! s.done
    && (forall i, p :: i in items && i.key in s.running + s.done && p in i.dependsOn ==> p in s.done)
  }

  lemma {:induction false} ScheduleInvariant(items: seq<Item>, moves: seq<Move>)
    ensures DependenciesDone(items, RunSchedule(items, moves))
  {
    if moves != [] { ScheduleInvariant(items, moves[..|moves| - 1]); }
  }

  /** Everything on a dependency path to a started item is done, except the item itself. */
  lemma {:induction false} AncestorsDone(items: seq<Item>, s: Schedule, p: seq<string>, a: string, b: string)
    requires DependenciesDone(items, s) && Walk(Adjacency(items), p, a, b) && b in s.running + s.done
    requires a != b || |p| >= 2
    ensures a in s.done
  {
    var g := Adjacency(items);
    assert p[|p| - 2] in g && p[|p| - 1] in g[p[|p| - 2]];
    var i :| i in items && p[|p| - 2] in i.dependsOn && i.key == b;
    assert p[|p| - 2] in s.done;
    if |p| > 2 {
      var q := p[..|p| - 1];
      forall k | 0 <= k < |q| - 1 ensures q[k] in g && q[k + 1] in g[q[k]] { assert q[k] == p[k] && q[k + 1] == p[k + 1]; }
      AncestorsDone(items, s, q, a, p[|p| - 2]);
    }
  }

  /** Two items that run at the same time have no dependency path between them. */
  lemma RunningUnordered(criteria: set<string>, items: seq<Item>, moves: seq<Move>, a: Item, b: Item)
    requires Accepts(criteria, items) && a in items && b in items && a.key != b.key
    requires var s := RunSchedule(items, moves); a.key in s.running && b.key in s.running
    ensures !Ordered(Adjacency(items), a.key, b.key)
  {
    var s := RunSchedule(items, moves);
    ScheduleInvariant(items, moves);
    var g := Adjacency(items);
    if Reach(g, a.key, b.key) {
      var p :| Walk(g, p, a.key, b.key);
      AncestorsDone(items, s, p, a.key, b.key);
      assert false;
    }
    if Reach(g, b.key, a.key) {
      var p :| Walk(g, p, b.key, a.key);
      AncestorsDone(items, s, p, b.key, a.key);
      assert false;
    }
  }

  // ----- reaching a schedule -----

  /** Items whose prerequisites all belong to the set as well. */
  predicate DownwardClosed(items: seq<Item>, ids: set<string>) {
    ids <= Keys(items) && forall i, p :: i in items && i.key in ids && p in i.dependsOn ==> p in ids
  }

  /** Every downward closed set of items of an accepted plan can be finished, and nothing else started. */
  lemma {:induction false} FinishAll(criteria: set<string>, items: seq<Item>, ids: set<string>) returns (moves: seq<Move>)
    requires Accepts(criteria, items) && DownwardClosed(items, ids)
    ensures RunSchedule(items, moves) == Schedule({}, ids)
    decreases |ids|
  {
    if ids == {} {
      moves := [];
    } else {
      var id :| id in ids;
      var last := LastOf(items, ids, id, ids);
      var before := FinishAll(criteria, items, ids - {last});
      moves := StartItem(items, before, last);
      var all := moves + [Finish(last)];
      assert all[..|moves|] == moves;
      moves := all;
    }
  }

  /** Starting an item whose prerequisites are done. */
  lemma StartItem(items: seq<Item>, before: seq<Move>, key: string) returns (moves: seq<Move>)
    requires var s := RunSchedule(items, before);
      key in Keys(items) && key !in s.running && key !in s.done && forall i, p :: i in items && i.key == key && p in i.dependsOn ==> p in s.done
    ensures var s := RunSchedule(items, before); RunSchedule(items, moves) == Schedule(s.running + {key}, s.done)
  {
    moves := before + [Start(key)];
    assert moves[..|before|] == before;
  }

  /** An item of the set on which no other item of the set depends. `left` bounds what `id` leads to. */
  lemma {:induction false} LastOf(items: seq<Item>, ids: set<string>, id: string, left: set<string>) returns (last: string)
    requires !HasCycle(Adjacency(items)) && ids <= Keys(items) && id in ids
    requires forall x :: x in ids && ReachPlus(Adjacency(items), id, x) ==> x in left
    ensures last in ids && forall i, p :: i in items && i.key in ids && p in i.dependsOn ==> p != last
    decreases |left|
  {
    var g := Adjacency(items);
    if i :| i in items && i.key in ids && id in i.dependsOn {
      EdgeReach(g, id, i.key);
      forall x | x in ids && ReachPlus(g, i.key, x) ensures x in left - {i.key} {
        EdgeThen(g, id, i.key, x);
        if x == i.key { assert OnCycle(g, x); }
      }
      last := LastOf(items, ids, i.key, left - {i.key});
    } else {
      last := id;
    }
  }

  lemma EdgeThen(g: Edges, a: string, b: string, c: string)
    requires ReachPlus(g, a, b) && ReachPlus(g, b, c)
    ensures ReachPlus(g, a, c)
  {
    assert Reach(g, b, c);
    ReachPlusThen(g, a, b, c);
  }

  /** Two unordered items of an accepted plan can be brought to run at the same time. */
  lemma BothRunning(criteria: set<string>, items: seq<Item>, a: Item, b: Item) returns (moves: seq<Move>)
    requires Accepts(criteria, items) && a in items && b in items && !Ordered(Adjacency(items), a.key, b.key)
    ensures var s := RunSchedule(items, moves); a.key in s.running && b.key in s.running && a.key != b.key
  {
    var g := Adjacency(items);
    ReachSelf(g, a.key);
    ReachSelf(g, b.key);
    var ids := set k | k in Keys(items) && !Reach(g, a.key, k) && !Reach(g, b.key, k);
    forall i, p | i in items && p in i.dependsOn
      ensures (i.key in ids || i.key == a.key || i.key == b.key) ==> p in ids
    {
      PrerequisiteBefore(criteria, items, a, b, i, p);
    }
    moves := FinishAll(criteria, items, ids);
    hide Reach, HasCycle, Adjacency, Accepts;
    moves := StartItem(items, moves, a.key);
    moves := StartItem(items, moves, b.key);
  }

  lemma PrerequisiteBefore(criteria: set<string>, items: seq<Item>, a: Item, b: Item, i: Item, p: string)
    requires Accepts(criteria, items) && a in items && b in items && !Ordered(Adjacency(items), a.key, b.key)
    requires i in items && p in i.dependsOn
    ensures var g := Adjacency(items);
      ((!Reach(g, a.key, i.key) && !Reach(g, b.key, i.key)) || i.key == a.key || i.key == b.key)
        ==> p in Keys(items) && !Reach(g, a.key, p) && !Reach(g, b.key, p)
  {
    var g := Adjacency(items);
    assert KnownDependencies(items, i);
    EdgeReach(g, p, i.key);
    if Reach(g, a.key, p) {
      ReachTransitive(g, a.key, p, i.key);
      if i.key == a.key { BackAgain(g, p, a.key); }
    }
    if Reach(g, b.key, p) {
      ReachTransitive(g, b.key, p, i.key);
      if i.key == b.key { BackAgain(g, p, b.key); }
    }
  }

  lemma BackAgain(g: Edges, p: string, a: string)
    requires ReachPlus(g, p, a) && Reach(g, a, p)
    ensures HasCycle(g)
  {
    ReachPlusThen(g, p, a, p);
    assert OnCycle(g, p);
  }

  // ----- isolation along schedules -----

  /** Along every schedule of an accepted plan running items keep to different paths, exactly if no two
      unordered items collide: whether acceptance protects a plan can be computed from its scopes. */
  lemma RunningItemsAreIsolated(norm: string -> string, criteria: set<string>, items: seq<Item>)
    requires Normalisation(norm) && Accepts(criteria, items)
    ensures
      (forall moves, a, b :: a in items && b in items && a.key != b.key && Together(items, moves, a, b) ==> Isolated(norm, a, b))
      <==>
      (forall a, b :: a in items && b in items && !Ordered(Adjacency(items), a.key, b.key) ==> !Collide(norm, a, b))
  {
    hide Normalisation, Isolated, Collide;
    assert forall i :: i in items ==> WellFormed(criteria, i);
    hide WellFormed;
    forall a, b | a in items && b in items ensures Isolated(norm, a, b) <==> !Collide(norm, a, b) {
      IsolatedExactly(norm, criteria, a, b);
    }
    forall moves, a, b | a in items && b in items && a.key != b.key && Together(items, moves, a, b)
      ensures !Ordered(Adjacency(items), a.key, b.key)
    {
      RunningUnordered(criteria, items, moves, a, b);
    }
    forall a, b | a in items && b in items && !Ordered(Adjacency(items), a.key, b.key)
      ensures exists moves :: a.key != b.key && Together(items, moves, a, b)
    {
      var moves := BothRunning(criteria, items, a, b);
      assert Together(items, moves, a, b);
    }
  }

  /** The two items run at the same time after these moves. */
  predicate Together(items: seq<Item>, moves: seq<Move>, a: Item, b: Item) {
    var s := RunSchedule(items, moves);
    a.key in s.running && b.key in s.running
  }
}
