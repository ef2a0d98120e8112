/** Choosing an independent reviewer: `SelectProfile` of internal/config/profile.go and the fallback
    loop of internal/orchestrator/reviewer_profile.go. */
module Reviewer {
  import opened Ordering

  datatype Role = Planner | Implementer | Review | Acceptance

  datatype Agent = Agent(id: string, adapter: string, roles: seq<Role>)

  datatype Source = ExplicitBinding | DefaultSelection

  datatype Selection = Selected(agent: Agent, source: Source) | NoProfile

  /** What probing a profile's adapters says. */
  datatype Probe = Ready | CredentialsMissing | ProbeFailed | NoAdapter | Unconfirmed

  datatype Choice = Chosen(agent: Agent) | NoneAvailable | ExplicitUnavailable | ProcessUnconfirmed | ContextDone

  function WithRole(agents: seq<Agent>, role: Role): seq<Agent> {
    if agents == [] then []
    else (if role in agents[0].roles then [agents[0]] else []) + WithRole(agents[1..], role)
  }

  ghost predicate UniqueIds(agents: seq<Agent>) {
    forall i, j :: 0 <= i < j < |agents| ==> agents[i].id != agents[j].id
  }

  function ProviderOf(agents: seq<Agent>, id: string): string {
    if agents == [] then ""
    else if agents[|agents| - 1].id == id then agents[|agents| - 1].adapter
    else ProviderOf(agents[..|agents| - 1], id)
  }

  // ----- the order of preference -----

  /** The comparison the source sorts by. */
  predicate Preferred(left: Agent, right: Agent, prefer: bool, provider: string, implementer: string) {
    if prefer && (left.adapter != provider) != (right.adapter != provider) then left.adapter != provider
    else if (left.id != implementer) != (right.id != implementer) then left.id != implementer
    else LexLess(Codes(left.id), Codes(right.id))
  }

  function Rank(prefer: bool, provider: string, implementer: string): Agent -> seq<int> {
    (a: Agent) =>
      [if prefer && a.adapter == provider then 1 else 0, if a.id == implementer then 1 else 0] + Codes(a.id)
  }

  /** The comparison is the order of (different provider if preferred, not the implementer, id). */
  lemma PreferenceIsRank(left: Agent, right: Agent, prefer: bool, provider: string, implementer: string)
    ensures Preferred(left, right, prefer, provider, implementer) <==>
      LexLess(Rank(prefer, provider, implementer)(left), Rank(prefer, provider, implementer)(right))
  {
    var key := Rank(prefer, provider, implementer);
    var a, b := key(left), key(right);
    assert a[1..][1..] == Codes(left.id) && b[1..][1..] == Codes(right.id);
    assert LexLess(a, b) <==> a[0] < b[0] || (a[0] == b[0] && LexLess(a[1..], b[1..]));
    assert LexLess(a[1..], b[1..]) <==> a[1] < b[1] || (a[1] == b[1] && LexLess(Codes(left.id), Codes(right.id)));
  }

  class Config {
    const agents: array<Agent>
    const bindings: map<Role, string>
    const preferDifferentProvider: bool

    constructor (agents: array<Agent>, bindings: map<Role, string>, preferDifferentProvider: bool)
      ensures this.agents == agents && this.bindings == bindings
      ensures this.preferDifferentProvider == preferDifferentProvider
    {
      this.agents, this.bindings, this.preferDifferentProvider := agents, bindings, preferDifferentProvider;
    }

    /** The candidates for a role, best first. */
    function Ordered(role: Role, implementer: string): seq<Agent>
      reads this, agents
    {
      var candidates := WithRole(agents[..], role);
      if role != Review then candidates
      else SortBy(candidates, Rank(preferDifferentProvider, ProviderOf(agents[..], implementer), implementer))
    }

    /** `SelectProfile`: a bound role has no choice, any other takes the best candidate. */
    method SelectProfile(role: Role, implementer: string) returns (r: Selection)
      ensures role in bindings ==>
        if exists i :: 0 <= i < agents.Length && agents[i].id == bindings[role] && role in agents[i].roles
        then r.Selected? && r.source == ExplicitBinding && r.agent in agents[..] && r.agent.id == bindings[role] && role in r.agent.roles
        else r == NoProfile
      ensures role !in bindings ==>
        var ordered := Ordered(role, implementer);
        r == if ordered == [] then NoProfile else Selected(ordered[0], DefaultSelection)
      ensures role !in bindings ==> (r.NoProfile? <==> forall a :: a in agents[..] ==> role !in a.roles)
    {
      if role in bindings {
        for i := 0 to agents.Length
          invariant forall k :: 0 <= k < i ==> !(agents[k].id == bindings[role] && role in agents[k].roles)
        {
          if agents[i].id == bindings[role] && role in agents[i].roles {
            return Selected(agents[i], ExplicitBinding);
          }
        }
        return NoProfile;
      }
      var candidates, provider := [], "";
      for i := 0 to agents.Length
        invariant candidates == WithRole(agents[..i], role) && provider == ProviderOf(agents[..i], implementer)
      {
        assert agents[..i + 1] == agents[..i] + [agents[i]];
        WithRoleGrows(agents[..i], agents[i], role);
        if agents[i].id == implementer { provider := agents[i].adapter; }
        if role in agents[i].roles { candidates := candidates + [agents[i]]; }
      }
      assert agents[..agents.Length] == agents[..];
      forall a ensures a in candidates <==> a in agents[..] && role in a.roles { WithRoleMember(agents[..], role, a); }
      if |candidates| == 0 {
        return NoProfile;
      }
      assert candidates[0] in candidates;
      if role == Review {
        candidates := SortBy(candidates, Rank(preferDifferentProvider, provider, implementer));
      }
      r := Selected(candidates[0], DefaultSelection);
    }
  }

  lemma {:induction false} WithRoleGrows(agents: seq<Agent>, last: Agent, role: Role)
    ensures WithRole(agents + [last], role) == WithRole(agents, role) + (if role in last.roles then [last] else [])
  {
    if agents == [] {
      assert (agents + [last])[1..] == [];
    } else {
      WithRoleGrows(agents[1..], last, role);
      assert (agents + [last])[1..] == agents[1..] + [last];
    }
  }

  // ----- one sorted list, walked once -----

  /** The k-th candidate and those after it: the first that is ready, unless the walk has to stop.
      `done(n)`: the context is done at the n-th look at it. */
  function Walk(ordered: seq<Agent>, k: nat, probe: Agent -> Probe, done: nat -> bool): Choice
    requires k <= |ordered|
    decreases |ordered| - k
  {
    if done(2 * k) then ContextDone
    else if k == |ordered| then NoneAvailable
    else if probe(ordered[k]) == Unconfirmed then ProcessUnconfirmed
    else if done(2 * k + 1) then ContextDone
    else if probe(ordered[k]) == Ready then Chosen(ordered[k])
    else Walk(ordered, k + 1, probe, done)
  }

  /** Left alone, the walk chooses exactly the first ready candidate, and fails exactly without one. */
  lemma {:induction false} WalkIsFirstReady(ordered: seq<Agent>, k: nat, probe: Agent -> Probe, done: nat -> bool)
    requires k <= |ordered|
    requires forall n :: !done(n)
    requires forall i :: k <= i < |ordered| ==> probe(ordered[i]) != Unconfirmed
    ensures var r := Walk(ordered, k, probe, done);
      if exists i :: k <= i < |ordered| && probe(ordered[i]) == Ready
      then
        exists i :: k <= i < |ordered| && r == Chosen(ordered[i]) && probe(ordered[i]) == Ready &&
          (forall j :: k <= j < i ==> probe(ordered[j]) != Ready)
      else r == NoneAvailable
    decreases |ordered| - k
  {
    if k < |ordered| && probe(ordered[k]) != Ready {
      WalkIsFirstReady(ordered, k + 1, probe, done);
    }
  }

  /** The walk stops at the first candidate that is ready or unconfirmed, or where the context is found done; before
      and after each probe there is one look at it. */
  lemma {:induction false} WalkExact(ordered: seq<Agent>, k: nat, i: nat, probe: Agent -> Probe, done: nat -> bool)
    requires k <= i <= |ordered|
    requires forall j :: k <= j < i ==>
      !done(2 * j) && !done(2 * j + 1) && probe(ordered[j]) != Ready && probe(ordered[j]) != Unconfirmed
    ensures var r := Walk(ordered, k, probe, done);
      && (done(2 * i) ==> r == ContextDone)
      && (!done(2 * i) && i == |ordered| ==> r == NoneAvailable)
      && (!done(2 * i) && i < |ordered| && probe(ordered[i]) == Unconfirmed ==> r == ProcessUnconfirmed)
      && (!done(2 * i) && i < |ordered| && probe(ordered[i]) != Unconfirmed && done(2 * i + 1) ==> r == ContextDone)
      && (!done(2 * i) && i < |ordered| && !done(2 * i + 1) && probe(ordered[i]) == Ready ==> r == Chosen(ordered[i]))
    decreases i - k
  {
    if k < i { WalkExact(ordered, k + 1, i, probe, done); }
  }

  /** The implementer's provider is that of the last profile with its id. */
  lemma {:induction false} ProviderExactly(agents: seq<Agent>, id: string, i: nat)
    ensures i < |agents| && agents[i].id == id && (forall j :: i < j < |agents| ==> agents[j].id != id) ==>
      ProviderOf(agents, id) == agents[i].adapter
    ensures (forall j :: 0 <= j < |agents| ==> agents[j].id != id) ==> ProviderOf(agents, id) == ""
    decreases |agents|
  {
    if agents != [] { ProviderExactly(agents[..|agents| - 1], id, i); }
  }

  /** The candidates for a review are the profiles with the role, each preferred to all after it. */
  lemma OrderedByPreference(agents: seq<Agent>, prefer: bool, provider: string, implementer: string, i: nat, j: nat)
    requires UniqueIds(agents)
    ensures var ordered := SortBy(WithRole(agents, Review), Rank(prefer, provider, implementer));
      && (forall a :: a in ordered <==> a in agents && Review in a.roles)
      && (i < j < |ordered| ==> Preferred(ordered[i], ordered[j], prefer, provider, implementer))
  {
    OrderedListing(agents, prefer, provider, implementer);
    var ordered := SortBy(WithRole(agents, Review), Rank(prefer, provider, implementer));
    if i < j < |ordered| { PreferenceIsRank(ordered[i], ordered[j], prefer, provider, implementer); }
  }

  /** Whom the fallback chooses: a reviewer that is ready, while every reviewer preferred to it was probed and found
      unavailable. */
  lemma ChosenIsBest(
      agents: seq<Agent>, prefer: bool, provider: string, implementer: string, probe: Agent -> Probe, done: nat -> bool, other: Agent)
    requires UniqueIds(agents)
    requires var ordered := SortBy(WithRole(agents, Review), Rank(prefer, provider, implementer)); Walk(ordered, 0, probe, done).Chosen?
    ensures var ordered := SortBy(WithRole(agents, Review), Rank(prefer, provider, implementer));
      var a := Walk(ordered, 0, probe, done).agent;
      && a in agents && Review in a.roles && probe(a) == Ready
      && (other in agents && Review in other.roles && Preferred(other, a, prefer, provider, implementer) ==>
            probe(other) != Ready && probe(other) != Unconfirmed)
  {
    var ordered := SortBy(WithRole(agents, Review), Rank(prefer, provider, implementer));
    OrderedListing(agents, prefer, provider, implementer);
    hide SortBy, WithRole, UniqueIds;
    var i := ChosenAt(ordered, 0, probe, done);
    var a := ordered[i];
    assert a in ordered;
    if other in agents && Review in other.roles && Preferred(other, a, prefer, provider, implementer) {
      assert other in ordered;
      PreferenceIsRank(other, a, prefer, provider, implementer);
      hide Preferred, Rank;
      SmallerIsEarlier(ordered, Rank(prefer, provider, implementer), other, i);
    }
  }

  lemma SmallerIsEarlier(ordered: seq<Agent>, key: Agent -> seq<int>, other: Agent, i: nat)
    requires StrictlySortedBy(ordered, key) && other in ordered && i < |ordered| && LexLess(key(other), key(ordered[i]))
    ensures exists n :: 0 <= n < i && ordered[n] == other
  {
    hide LexLess;
    var n :| 0 <= n < |ordered| && ordered[n] == other;
    LexIrreflexive(key(other));
    if n > i { LexAsymmetric(key(ordered[i]), key(other)); }
  }

  lemma {:induction false} ChosenAt(ordered: seq<Agent>, k: nat, probe: Agent -> Probe, done: nat -> bool) returns (i: nat)
    requires k <= |ordered| && Walk(ordered, k, probe, done).Chosen?
    ensures k <= i < |ordered| && Walk(ordered, k, probe, done) == Chosen(ordered[i]) && probe(ordered[i]) == Ready
    ensures forall j :: k <= j < i ==> probe(ordered[j]) != Ready && probe(ordered[j]) != Unconfirmed
    decreases |ordered| - k
  {
    if probe(ordered[k]) == Ready { i := k; } else { i := ChosenAt(ordered, k + 1, probe, done); }
  }

  /** What the loop has made of the agents after k rounds. */
  function Stripped(roles: seq<Role>): seq<Role> {
    if roles == [] then [] else (if roles[0] == Review then [] else [roles[0]]) + Stripped(roles[1..])
  }

  /** Nothing but the reviewer role is taken away. */
  lemma {:induction false} StrippedExactly(roles: seq<Role>, role: Role)
    ensures multiset(Stripped(roles))[role] == if role == Review then 0 else multiset(roles)[role]
  {
    if roles != [] {
      StrippedExactly(roles[1..], role);
      assert roles == [roles[0]] + roles[1..];
    }
  }

  lemma {:induction false} StrippedIsNoReviewer(roles: seq<Role>)
    ensures Review !in Stripped(roles)
  {
    if roles != [] { StrippedIsNoReviewer(roles[1..]); }
  }

  function After(a: Agent, rejected: seq<Agent>): Agent {
    if a in rejected then a.(roles := Stripped(a.roles)) else a
  }

  /** A bound profile is the only one tried. */
  ghost predicate BoundChoice(agents: seq<Agent>, id: string, probe: Agent -> Probe, done: nat -> bool, r: Choice) {
    if done(0) then r == ContextDone
    else if forall a :: a in agents && a.id == id ==> Review !in a.roles then r == NoneAvailable
    else
      exists a :: a in agents && a.id == id && Review in a.roles &&
        r == if probe(a) == Unconfirmed then ProcessUnconfirmed
             else if done(1) then ContextDone
             else if probe(a) == Ready then Chosen(a)
             else ExplicitUnavailable
  }

  class Engine {
    const config: Config

    constructor (config: Config)
      ensures this.config == config
    {
      this.config := config;
    }

    /** `reviewerProfile`. Nothing of the engine is modified; without a binding the result is that of
        walking the candidates once in order of preference; a bound profile has no fallback. */
    method ReviewerProfile(implementer: Agent, probe: Agent -> Probe, done: nat -> bool) returns (r: Choice)
      requires UniqueIds(config.agents[..])
      ensures Review !in config.bindings ==> r == Walk(config.Ordered(Review, implementer.id), 0, probe, done)
      ensures Review in config.bindings ==> 
        BoundChoice(config.agents[..], config.bindings[Review], probe, done, r)
    {
      hide SortBy, WithRole, Rank, ProviderOf, After, UniqueIds, Stripped;
      var agents := CopyAgents(config.agents);
      StartUnstripped(agents[..]);
      var remaining := new Config(agents, config.bindings, config.preferDifferentProvider);
      ghost var ordered := config.Ordered(Review, implementer.id);
      ghost var original := config.agents[..];
      var k := 0;
      while true
        invariant k <= |ordered| && (Review in config.bindings ==> k == 0)
        invariant agents.Length == |original| && config.agents[..] == original
        invariant forall i :: 0 <= i < |original| ==> agents[i] == After(original[i], ordered[..k])
        invariant Review !in config.bindings ==>
          Walk(ordered, k, probe, done) == Walk(ordered, 0, probe, done)
        decreases |ordered| - k
      {
        if done(2 * k) {
          return ContextDone;
        }
        if Review !in config.bindings {
          RemainingOrdered(original, agents[..], config.preferDifferentProvider, implementer.id, ordered, k);
        } else {
          assert agents[..] == original;
        }
        var selection := remaining.SelectProfile(Review, implementer.id);
        if selection.NoProfile? {
          return NoneAvailable;
        }
        var selected := selection.agent;
        var outcome := probe(selected);
        if outcome == Unconfirmed {
          return ProcessUnconfirmed;
        }
        if done(2 * k + 1) {
          return ContextDone;
        }
        if outcome == Ready {
          return Chosen(selected);
        }
        if selection.source == ExplicitBinding {
          return ExplicitUnavailable;
        }
        Reject(agents, selected, original, ordered[..k]);
        assert ordered[..k + 1] == ordered[..k] + [selected];
        k := k + 1;
      }
    }
  }

  method CopyAgents(agents: array<Agent>) returns (copy: array<Agent>)
    ensures fresh(copy) && copy[..] == agents[..]
  {
    copy := new Agent[agents.Length](_ => Agent("", "", []));
    for i := 0 to agents.Length
      invariant copy[..i] == agents[..i]
    {
      copy[i] := agents[i];
      assert copy[..i + 1] == copy[..i] + [agents[i]] && agents[..i + 1] == agents[..i] + [agents[i]];
    }
    assert copy[..agents.Length] == copy[..] && agents[..agents.Length] == agents[..];
  }

  /** The rejected candidate loses its reviewer role, so that the next selection passes over it. */
  method Reject(agents: array<Agent>, selected: Agent, ghost original: seq<Agent>, ghost rejected: seq<Agent>)
    requires agents.Length == |original| && UniqueIds(original) && selected in original && selected !in rejected
    requires forall i :: 0 <= i < |original| ==> agents[i] == After(original[i], rejected)
    modifies agents
    ensures forall i :: 0 <= i < |original| ==> agents[i] == After(original[i], rejected + [selected])
  {
    for n := 0 to agents.Length
      invariant forall i :: 0 <= i < n ==> agents[i] == After(original[i], rejected + [selected])
      invariant forall i :: n <= i < |original| ==> agents[i] == After(original[i], rejected)
    {
      SameIdSameAgent(original, original[n], selected);
      if agents[n].id != selected.id { continue; }
      var before := agents[n].roles;
      var roles := [];
      for j := 0 to |before|
        invariant roles + Stripped(before[j..]) == Stripped(before)
      {
        assert before[j..][1..] == before[j + 1..];
        if before[j] != Review {
          roles := roles + [before[j]];
        }
      }
      assert before[|before|..] == [] && roles + [] == roles;
      agents[n] := agents[n].(roles := roles);
    }
  }

  lemma StartUnstripped(agents: seq<Agent>)
    ensures forall i :: 0 <= i < |agents| ==> agents[i] == After(agents[i], [])
  {
  }

  lemma SameIdSameAgent(agents: seq<Agent>, a: Agent, b: Agent)
    requires UniqueIds(agents) && a in agents && b in agents
    ensures a.id == b.id <==> a == b
  {
  }

  // ----- after k rejections the candidates are the rest of the sorted list -----

  lemma {:induction false} WithRoleMember(agents: seq<Agent>, role: Role, a: Agent)
    ensures a in WithRole(agents, role) <==> a in agents && role in a.roles
  {
    if agents != [] {
      WithRoleMember(agents[1..], role, a);
      assert agents == [agents[0]] + agents[1..];
    }
  }

  lemma {:induction false} WithRoleUnique(agents: seq<Agent>, role: Role)
    requires UniqueIds(agents)
    ensures UniqueIds(WithRole(agents, role))
  {
    if agents != [] {
      var rest := WithRole(agents[1..], role);
      WithRoleUnique(agents[1..], role);
      forall i | 0 <= i < |rest|
        ensures rest[i].id != agents[0].id
      {
        WithRoleMember(agents[1..], role, rest[i]);
      }
    }
  }

  lemma {:induction false} ProviderKept(a: seq<Agent>, b: seq<Agent>, id: string)
    requires |a| == |b| && forall i :: 0 <= i < |a| ==> a[i].id == b[i].id && a[i].adapter == b[i].adapter
    ensures ProviderOf(a, id) == ProviderOf(b, id)
  {
    if a != [] { ProviderKept(a[..|a| - 1], b[..|b| - 1], id); }
  }

  /** Ids make the order strict. */
  lemma RanksDiffer(agents: seq<Agent>, prefer: bool, provider: string, implementer: string)
    requires UniqueIds(agents)
    ensures var key := Rank(prefer, provider, implementer);
      forall i, j :: 0 <= i < j < |agents| ==> key(agents[i]) != key(agents[j])
  {
    var key := Rank(prefer, provider, implementer);
    forall i, j | 0 <= i < j < |agents|
      ensures key(agents[i]) != key(agents[j])
    {
      assert key(agents[i])[2..] == Codes(agents[i].id) && key(agents[j])[2..] == Codes(agents[j].id);
      if key(agents[i]) == key(agents[j]) { CodesInjective(agents[i].id, agents[j].id); }
    }
  }

  lemma OrderedListing(agents: seq<Agent>, prefer: bool, provider: string, implementer: string)
    requires UniqueIds(agents)
    ensures var ordered := SortBy(WithRole(agents, Review), Rank(prefer, provider, implementer));
      StrictlySortedBy(ordered, Rank(prefer, provider, implementer)) &&
      forall a :: a in ordered <==> a in agents && Review in a.roles
  {
    var key := Rank(prefer, provider, implementer);
    WithRoleUnique(agents, Review);
    RanksDiffer(WithRole(agents, Review), prefer, provider, implementer);
    SortStrict(WithRole(agents, Review), key);
    forall a
      ensures a in SortBy(WithRole(agents, Review), key) <==> a in agents && Review in a.roles
    {
      SortMember(WithRole(agents, Review), key, a);
      WithRoleMember(agents, Review, a);
    }
  }

  lemma RemainingOrdered(original: seq<Agent>, agents: seq<Agent>, prefer: bool, implementer: string, ordered: seq<Agent>, k: nat)
    requires UniqueIds(original) && |agents| == |original| && k <= |ordered|
    requires ordered == SortBy(WithRole(original, Review), Rank(prefer, ProviderOf(original, implementer), implementer))
    requires forall i :: 0 <= i < |original| ==> agents[i] == After(original[i], ordered[..k])
    ensures SortBy(WithRole(agents, Review), Rank(prefer, ProviderOf(agents, implementer), implementer)) == ordered[k..]
    ensures forall a :: a in ordered[k..] ==> a in original && a !in ordered[..k]
  {
    var provider := ProviderOf(original, implementer);
    var key := Rank(prefer, provider, implementer);
    ProviderKept(agents, original, implementer);
    OrderedListing(original, prefer, provider, implementer);
    OrderedListing(agents, prefer, provider, implementer);
    var sorted := SortBy(WithRole(agents, Review), key);
    var rest := set a | a in ordered[k..];
    forall a
      ensures a in sorted <==> a in rest
    {
      RestIsUnstripped(original, agents, ordered, k, a, key);
    }
    forall a | a in ordered[k..]
      ensures a in original && a !in ordered[..k]
    {
      RestIsUnstripped(original, agents, ordered, k, a, key);
    }
    ListingUnique(sorted, ordered[k..], rest, key);
  }

  lemma RestIsUnstripped(
      original: seq<Agent>, agents: seq<Agent>, ordered: seq<Agent>, k: nat, a: Agent, key: Agent -> seq<int>)
    requires |agents| == |original| && k <= |ordered| && StrictlySortedBy(ordered, key)
    requires forall x :: x in ordered <==> x in original && Review in x.roles
    requires forall i :: 0 <= i < |original| ==> agents[i] == After(original[i], ordered[..k])
    ensures (a in agents && Review in a.roles) <==> a in ordered[k..]
    ensures a in ordered[k..] ==> a in original && a !in ordered[..k]
  {
    if a in ordered[k..] {
      var j :| 0 <= j < |ordered[k..]| && ordered[k..][j] == a;
      assert a == ordered[k + j] && a in ordered;
      LexIrreflexive(key(a));
      forall i | 0 <= i < k
        ensures ordered[i] != a
      {
        assert LexLess(key(ordered[i]), key(ordered[k + j]));
      }
      var n :| 0 <= n < |original| && original[n] == a;
      assert agents[n] == a;
    }
    if a in agents && Review in a.roles {
      var n :| 0 <= n < |agents| && agents[n] == a;
      StrippedIsNoReviewer(original[n].roles);
      assert a == original[n] && a !in ordered[..k];
      assert a in ordered;
      assert ordered == ordered[..k] + ordered[k..];
    }
  }
}
