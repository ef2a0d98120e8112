/** Patch bundles: what a capture records (internal/patch/bundle.go), what replaying it does
    (internal/patch/replay.go) and when a bundle is well formed (internal/protocol/m2.go). */
module Patch {
  import opened Ordering
  import opened Text
  import opened Aliases
  import opened Scopes

  type Content = string

  /** A SHA-256 digest, free of collisions; `NoHash` is the empty field. */
  datatype Hash = NoHash | Sha256(content: Content)

  /** One file of a checkout or tree: its Git mode and its bytes. */
  datatype FileState = FileState(mode: string, content: Content)

  type Files = map<Path, FileState>

  datatype Kind = Added | Modified | Deleted | Renamed

  /** `objectRef` holds the hash its reference "objects/sha256/…" names. */
  datatype Entry = Entry(
    path: Path, pathBefore: Path, kind: Kind, modeBefore: string, modeAfter: string,
    hashBefore: Hash, hashAfter: Hash, objectRef: Hash)

  function ModifiedEntry(p: Path, before: FileState, after: FileState): Entry {
    Entry(p, "", Modified, before.mode, after.mode, Sha256(before.content), Sha256(after.content), Sha256(after.content))
  }

  function DeletedEntry(p: Path, before: FileState): Entry {
    Entry(p, "", Deleted, before.mode, "", Sha256(before.content), NoHash, NoHash)
  }

  function AddedEntry(p: Path, after: FileState): Entry {
    Entry(p, "", Added, "", after.mode, NoHash, Sha256(after.content), Sha256(after.content))
  }

  function RenamedEntry(from: Path, to: Path, before: FileState, after: FileState): Entry {
    Entry(to, from, Renamed, before.mode, after.mode, Sha256(before.content), Sha256(after.content), Sha256(after.content))
  }

  // ----- what a capture must say -----

  predicate Gone(base: Files, current: Files, p: Path) { p in base && p !in current }

  predicate Appeared(base: Files, current: Files, p: Path) { p in current && p !in base }

  /** `from` is the only vanished file and `to` the only new file with their common mode and bytes. */
  ghost predicate Pair(base: Files, current: Files, from: Path, to: Path) {
    && Gone(base, current, from) && Appeared(base, current, to) && base[from] == current[to]
    && (forall p :: Gone(base, current, p) && base[p] == base[from] ==> p == from)
    && (forall p :: Appeared(base, current, p) && current[p] == current[to] ==> p == to)
  }

  ghost predicate RenamedAway(base: Files, current: Files, p: Path) {
    exists to :: Pair(base, current, p, to)
  }

  ghost predicate RenamedHere(base: Files, current: Files, p: Path) {
    exists from :: Pair(base, current, from, p)
  }

  /** The meaning of an entry in the diff of `base` and `current`. */
  ghost predicate Describes(base: Files, current: Files, e: Entry) {
    match e.kind
    case Modified => e.path in base && e.path in current && base[e.path] != current[e.path]
                     && e == ModifiedEntry(e.path, base[e.path], current[e.path])
    case Deleted => Gone(base, current, e.path) && !RenamedAway(base, current, e.path)
                    && e == DeletedEntry(e.path, base[e.path])
    case Added => Appeared(base, current, e.path) && !RenamedHere(base, current, e.path)
                  && e == AddedEntry(e.path, current[e.path])
    case Renamed => Pair(base, current, e.pathBefore, e.path)
                    && e == RenamedEntry(e.pathBefore, e.path, base[e.pathBefore], current[e.path])
  }

  function EntryKey(e: Entry): seq<int> { Codes(e.path) }

  /** The entry list of a capture: strictly sorted by path and exactly the entries that describe the change. */
  ghost predicate IsDiff(base: Files, current: Files, entries: seq<Entry>) {
    StrictlySortedBy(entries, EntryKey) && (forall e :: e in entries <==> Describes(base, current, e))
  }

  /** Content by hash, for exactly the hashes the entries refer to. */
  ghost predicate IsObjectSet(entries: seq<Entry>, objects: map<Hash, Content>) {
    && (forall h :: h in objects ==> h.Sha256? && objects[h] == h.content)
    && (forall h :: h in objects <==> exists e :: e in entries && e.objectRef == h && h != NoHash)
  }

  /** Paths an entry touches. */
  function Touches(e: Entry): set<Path> {
    if e.kind == Renamed then {e.path, e.pathBefore} else {e.path}
  }

  lemma PairUnique(base: Files, current: Files, from: Path, to: Path, from': Path, to': Path)
    requires Pair(base, current, from, to) && Pair(base, current, from', to')
    requires from == from' || to == to'
    ensures from == from' && to == to'
  {
  }

  /** Every path of a diff lies in one entry only, rename sources included. */
  lemma OneEntryPerPath(base: Files, current: Files, e: Entry, f: Entry)
    requires Describes(base, current, e) && Describes(base, current, f)
    requires Touches(e) * Touches(f) != {}
    ensures e == f
  {
    var p :| p in Touches(e) && p in Touches(f);
    if e.kind == Renamed && f.kind == Renamed {
      PairUnique(base, current, e.pathBefore, e.path, f.pathBefore, f.path);
    }
  }

  /** The iteration order of Go's maps cannot show: a change has one entry list and one object set. */
  lemma DiffUnique(base: Files, current: Files, a: seq<Entry>, b: seq<Entry>, x: map<Hash, Content>, y: map<Hash, Content>)
    requires IsDiff(base, current, a) && IsDiff(base, current, b)
    requires IsObjectSet(a, x) && IsObjectSet(b, y)
    ensures a == b && x == y
  {
    var s := set e | e in a;
    ListingUnique(a, b, s, EntryKey);
    assert x.Keys == y.Keys;
  }

  /** Each file that vanished, appeared or changed is touched by an entry, and nothing else is. */
  lemma TouchedExactly(base: Files, current: Files, p: Path)
    ensures (exists e :: Describes(base, current, e) && p in Touches(e))
            <==> ((p in base <==> p !in current) || (p in base && p in current && base[p] != current[p]))
  {
    if p in base && p in current && base[p] != current[p] {
      assert Describes(base, current, ModifiedEntry(p, base[p], current[p]));
    } else if Gone(base, current, p) {
      if RenamedAway(base, current, p) {
        var to :| Pair(base, current, p, to);
        assert Describes(base, current, RenamedEntry(p, to, base[p], current[to]));
      } else {
        assert Describes(base, current, DeletedEntry(p, base[p]));
      }
    } else if Appeared(base, current, p) {
      if RenamedHere(base, current, p) {
        var from :| Pair(base, current, from, p);
        assert Describes(base, current, RenamedEntry(from, p, base[from], current[p]));
      } else {
        assert Describes(base, current, AddedEntry(p, current[p]));
      }
    }
  }

  /** A capture is empty exactly when nothing changed. */
  lemma EmptyIffUnchanged(base: Files, current: Files, entries: seq<Entry>)
    requires IsDiff(base, current, entries)
    ensures entries == [] <==> base == current
  {
    if entries == [] {
      forall p ensures p in base <==> p in current { TouchedExactly(base, current, p); }
      forall p | p in base ensures base[p] == current[p] { TouchedExactly(base, current, p); }
    } else {
      assert entries[0] in entries;
    }
  }

  // ----- replay -----

  /** Everything capture and replay consult besides files: file limit, case folding, valid paths, the
      write policy, the symlink rule. */
  datatype Rules = Rules(
    limit: nat, fold: string -> string, valid: Path -> bool, policy: Policy, safeLink: (Path, Content) -> bool)

  datatype Problem =
    | InvalidBundle | BadCheckout | Collision | PolicyViolation | TreeCollision | UnsafeTree | Stale(path: Path)
    | TooLarge | UnsafeLink(path: Path) | UnsafeReplay | NoChange | CheckoutChanged

  datatype Replayed = Rebuilt(tree: Files) | Failed(problem: Problem)

  /** `verifyBefore`: mode and hash of the current file, read under the limit. */
  predicate Unchanged(current: FileState, mode: string, hash: Hash, limit: nat) {
    current.mode == mode && |current.content| <= limit && Sha256(current.content) == hash
  }

  /** The stale-detection part of one loop round of `reconstructEntries`: the path in conflict. */
  function Conflict(e: Entry, tree: Files, limit: nat): Option<Path> {
    match e.kind
    case Added => if e.path in tree then Some(e.path) else None
    case Renamed =>
      if e.path in tree then Some(e.path)
      else if e.pathBefore !in tree || !Unchanged(tree[e.pathBefore], e.modeBefore, e.hashBefore, limit) then Some(e.pathBefore)
      else None
    case _ =>
      if e.path !in tree || !Unchanged(tree[e.path], e.modeBefore, e.hashBefore, limit) then Some(e.path) else None
  }

  function ContentOf(h: Hash, objects: map<Hash, Content>): Content {
    if h in objects then objects[h] else ""
  }

  /** The first reason an entry is refused. */
  function EntryProblem(e: Entry, objects: map<Hash, Content>, tree: Files, rules: Rules): Option<Problem> {
    var conflict := Conflict(e, tree, rules.limit);
    if conflict.Some? then Some(Stale(conflict.value))
    else if e.kind == Deleted then None
    else if |ContentOf(e.hashAfter, objects)| > rules.limit then Some(TooLarge)
    else if e.modeAfter == "120000" && !rules.safeLink(e.path, ContentOf(e.hashAfter, objects)) then Some(UnsafeLink(e.path))
    else None
  }

  function FirstProblem(entries: seq<Entry>, objects: map<Hash, Content>, tree: Files, rules: Rules): Option<Problem> {
    if entries == [] then None
    else
      var p := EntryProblem(entries[0], objects, tree, rules);
      if p.Some? then p else FirstProblem(entries[1..], objects, tree, rules)
  }

  /** The effect of one entry on the tree under construction. */
  function Apply(e: Entry, objects: map<Hash, Content>, after: Files): Files {
    match e.kind
    case Deleted => after - {e.path}
    case Renamed => (after - {e.pathBefore})[e.path := FileState(e.modeAfter, ContentOf(e.hashAfter, objects))]
    case _ => after[e.path := FileState(e.modeAfter, ContentOf(e.hashAfter, objects))]
  }

  function ApplyAll(entries: seq<Entry>, objects: map<Hash, Content>, after: Files): Files {
    if entries == [] then after
    else ApplyAll(entries[1..], objects, Apply(entries[0], objects, after))
  }

  /** The paths handed to the write policy. */
  function ChangedPaths(entries: seq<Entry>): seq<Path> {
    if entries == [] then []
    else [entries[0].path] + (if entries[0].pathBefore != "" then [entries[0].pathBefore] else []) + ChangedPaths(entries[1..])
  }

  /** Symlinks already in the tree: readable under the limit and safe. */
  predicate SafeTree(tree: Files, rules: Rules) {
    forall p :: p in tree && tree[p].mode == "120000" ==>
      |tree[p].content| <= rules.limit && rules.safeLink(p, tree[p].content)
  }

  predicate Fits(files: Files, limit: nat) {
    forall p :: p in files ==> |files[p].content| <= limit
  }

  /** The paths are valid and no aliases of each other. */
  predicate CanonicalSet(paths: set<Path>, rules: Rules) {
    (forall p :: p in paths ==> rules.valid(p)) && NoAliases(PrefixesOf(paths), rules.fold)
  }

  /** `BuildTree` accepts these paths. */
  predicate Buildable(paths: set<Path>, rules: Rules) { CanonicalSet(paths, rules) && NoConflicts(paths) }

  /** `SnapshotTree` of a checkout accepts its files, together with the paths of the tree it is based on. */
  predicate Snapshots(base: Files, checkout: Files, rules: Rules) {
    CanonicalSet(base.Keys + checkout.Keys, rules) && Fits(checkout, rules.limit) && SafeTree(checkout, rules)
    && Buildable(checkout.Keys, rules)
  }

  /** `readBaseFiles` accepts the base and `SnapshotTree` the checkout: then a change can be captured. */
  predicate Capturable(base: Files, current: Files, rules: Rules) {
    CanonicalSet(base.Keys, rules) && Fits(base, rules.limit) && SafeTree(base, rules) && Snapshots(base, current, rules)
  }

  predicate WritablePaths(paths: seq<Path>, rules: Rules) {
    forall p :: p in paths ==> Allows(rules.policy, Split(p, '/'))
  }

  /** `reconstructEntries`. */
  ghost function Reconstruct(entries: seq<Entry>, objects: map<Hash, Content>, tree: Files, rules: Rules): Replayed {
    if !Canonical(ChangedPaths(entries), rules.fold, rules.valid) then Failed(Collision)
    else if !WritablePaths(ChangedPaths(entries), rules) then Failed(PolicyViolation)
    else if !CanonicalSet(tree.Keys, rules) then Failed(TreeCollision)
    else if !SafeTree(tree, rules) then Failed(UnsafeTree)
    else
      var problem := FirstProblem(entries, objects, tree, rules);
      if problem.Some? then Failed(problem.value) else Rebuilt(ApplyAll(entries, objects, tree))
  }

  /** `Replay` of a valid bundle on a tree, next to a checkout that must already look like the result. */
  ghost function Replay(entries: seq<Entry>, objects: map<Hash, Content>, tree: Files, checkout: Files, rules: Rules): Replayed {
    if !Snapshots(tree, checkout, rules) then Failed(BadCheckout)
    else match Reconstruct(entries, objects, tree, rules)
      case Failed(problem) => Failed(problem)
      case Rebuilt(after) =>
        if !Buildable(after.Keys, rules) then Failed(UnsafeReplay)
        else if after == tree then Failed(NoChange)
        else if after != checkout then Failed(CheckoutChanged)
        else Rebuilt(after)
  }

  // ----- replaying a capture -----

  /** The tree agrees with the base on every path the bundle touches. */
  ghost predicate AgreesOn(entries: seq<Entry>, base: Files, tree: Files) {
    forall e, p :: e in entries && p in Touches(e) ==> SameAt(base, tree, p)
  }

  predicate SameAt(a: Files, b: Files, p: Path) {
    (p in a <==> p in b) && (p in a ==> a[p] == b[p])
  }

  /** One entry conflicts exactly when the tree left the base on a path it touches. */
  lemma ConflictExactly(base: Files, current: Files, e: Entry, tree: Files, limit: nat)
    requires Describes(base, current, e) && Fits(base, limit)
    ensures Conflict(e, tree, limit).None? <==> forall p :: p in Touches(e) ==> SameAt(base, tree, p)
  {
    if e.kind == Renamed {
      assert e.path in Touches(e) && e.pathBefore in Touches(e);
    } else {
      assert e.path in Touches(e);
    }
  }

  /** On the paths of its own entry, applying it yields `current`; elsewhere it changes nothing. */
  lemma ApplyDescribed(base: Files, current: Files, e: Entry, objects: map<Hash, Content>, after: Files)
    requires Describes(base, current, e)
    requires e.hashAfter != NoHash ==> e.hashAfter in objects && objects[e.hashAfter] == e.hashAfter.content
    ensures forall p :: p in Touches(e) ==> SameAt(current, Apply(e, objects, after), p)
    ensures forall p :: p !in Touches(e) ==> SameAt(after, Apply(e, objects, after), p)
  {
  }

  /** Whatever order the entries come in, the result is `current` on touched paths and `tree` elsewhere. */
  lemma {:induction false} ApplyAllPointwise(base: Files, current: Files, entries: seq<Entry>, objects: map<Hash, Content>, tree: Files, p: Path)
    requires forall e :: e in entries ==> Describes(base, current, e)
    requires forall e :: e in entries && e.hashAfter != NoHash ==> e.hashAfter in objects && objects[e.hashAfter] == e.hashAfter.content
    requires forall i, j :: 0 <= i < j < |entries| ==> entries[i] != entries[j]
    ensures (exists e :: e in entries && p in Touches(e)) ==> SameAt(current, ApplyAll(entries, objects, tree), p)
    ensures !(exists e :: e in entries && p in Touches(e)) ==> SameAt(tree, ApplyAll(entries, objects, tree), p)
  {
    if entries != [] {
      var e, rest := entries[0], entries[1..];
      var next := Apply(e, objects, tree);
      assert entries == [e] + rest;
      ApplyDescribed(base, current, e, objects, tree);
      ApplyAllPointwise(base, current, rest, objects, next, p);
      if p in Touches(e) {
        if f :| f in rest && p in Touches(f) {
          OneEntryPerPath(base, current, e, f);
          assert false;
        }
        assert SameAt(next, ApplyAll(rest, objects, next), p);
      }
    }
  }

  lemma {:induction false} FirstProblemNone(entries: seq<Entry>, objects: map<Hash, Content>, tree: Files, rules: Rules)
    ensures FirstProblem(entries, objects, tree, rules).None?
            <==> forall e :: e in entries ==> EntryProblem(e, objects, tree, rules).None?
  {
    if entries != [] {
      FirstProblemNone(entries[1..], objects, tree, rules);
      assert entries == [entries[0]] + entries[1..];
    }
  }

  /** The paths that vanished, appeared or changed. */
  function ChangedSet(base: Files, current: Files): set<Path> {
    set p | p in base.Keys + current.Keys && !SameAt(base, current, p)
  }

  lemma {:induction false} ChangedPathsAre(entries: seq<Entry>, p: Path)
    requires forall e :: e in entries ==> (e.kind == Renamed <==> e.pathBefore != "")
    ensures p in ChangedPaths(entries) <==> exists e :: e in entries && p in Touches(e)
  {
    if entries != [] {
      ChangedPathsAre(entries[1..], p);
      assert entries == [entries[0]] + entries[1..];
      var first := [entries[0].path] + (if entries[0].pathBefore != "" then [entries[0].pathBefore] else []);
      assert p in first <==> p in Touches(entries[0]);
      assert ChangedPaths(entries) == first + ChangedPaths(entries[1..]);
    }
  }

  /** The paths shown to the alias check and to the write policy: exactly the changed ones, each once. */
  lemma ChangedPathsExact(base: Files, current: Files, entries: seq<Entry>)
    requires IsDiff(base, current, entries) && "" !in base
    ensures Members(ChangedPaths(entries)) == ChangedSet(base, current) && Distinct(ChangedPaths(entries))
  {
    forall e | e in entries ensures e.kind == Renamed <==> e.pathBefore != "" { assert Describes(base, current, e); }
    forall p ensures p in ChangedPaths(entries) <==> p in ChangedSet(base, current) {
      ChangedPathsAre(entries, p);
      TouchedExactly(base, current, p);
    }
    StrictImpliesDistinct(entries, EntryKey);
    ChangedPathsDistinct(base, current, entries);
  }

  lemma {:induction false} ChangedPathsDistinct(base: Files, current: Files, entries: seq<Entry>)
    requires forall e :: e in entries ==> Describes(base, current, e) && (e.kind == Renamed <==> e.pathBefore != "")
    requires forall i, j :: 0 <= i < j < |entries| ==> entries[i] != entries[j]
    ensures Distinct(ChangedPaths(entries))
  {
    hide Describes;
    if entries != [] {
      var e, rest := entries[0], entries[1..];
      assert entries == [e] + rest;
      ChangedPathsDistinct(base, current, rest);
      var first := [e.path] + (if e.pathBefore != "" then [e.pathBefore] else []);
      assert ChangedPaths(entries) == first + ChangedPaths(rest);
      assert e.pathBefore != "" ==> e.path != e.pathBefore by { RenameMoves(base, current, e); }
      forall p | p in first
        ensures p !in ChangedPaths(rest)
      {
        assert p in Touches(e);
        ChangedPathsAre(rest, p);
        forall f | f in rest ensures p !in Touches(f) { TouchedOnce(base, current, e, f, p); }
      }
      ConcatDistinct(first, ChangedPaths(rest));
    }
  }

  lemma RenameMoves(base: Files, current: Files, e: Entry)
    requires Describes(base, current, e)
    ensures e.kind == Renamed ==> e.path != e.pathBefore
  {
  }

  lemma TouchedOnce(base: Files, current: Files, e: Entry, f: Entry, p: Path)
    requires Describes(base, current, e) && Describes(base, current, f) && e != f && p in Touches(e)
    ensures p !in Touches(f)
  {
    if p in Touches(f) { OneEntryPerPath(base, current, e, f); }
  }

  lemma {:induction false} ConcatDistinct<T>(a: seq<T>, b: seq<T>)
    requires forall i, j :: 0 <= i < j < |a| ==> a[i] != a[j]
    requires forall i, j :: 0 <= i < j < |b| ==> b[i] != b[j]
    requires forall x :: x in a ==> x !in b
    ensures forall i, j :: 0 <= i < j < |a + b| ==> (a + b)[i] != (a + b)[j]
  {
    forall i, j | 0 <= i < j < |a + b| ensures (a + b)[i] != (a + b)[j] {
      if i < |a| <= j { assert a[i] in a && b[j - |a|] in b; }
    }
  }

  /** The tree looks on every changed path as the base did. */
  predicate Unmoved(base: Files, current: Files, tree: Files) {
    forall p :: p in ChangedSet(base, current) ==> SameAt(base, tree, p)
  }

  /** The change laid over a tree: `current` on the changed paths, the tree elsewhere. */
  function Overlay(base: Files, current: Files, tree: Files): Files {
    map p | p in tree.Keys + current.Keys && p in (if SameAt(base, current, p) then tree else current)
      :: if SameAt(base, current, p) then tree[p] else current[p]
  }

  predicate MayChange(base: Files, current: Files, rules: Rules) {
    forall p :: p in ChangedSet(base, current) ==> Allows(rules.policy, Split(p, '/'))
  }

  lemma CapturedEntry(base: Files, current: Files, entries: seq<Entry>, objects: map<Hash, Content>, tree: Files, rules: Rules, e: Entry)
    requires IsDiff(base, current, entries) && IsObjectSet(entries, objects)
    requires Capturable(base, current, rules) && e in entries
    ensures e.hashAfter != NoHash ==> e.hashAfter in objects && objects[e.hashAfter] == e.hashAfter.content
    ensures EntryProblem(e, objects, tree, rules).None? <==> Conflict(e, tree, rules.limit).None?
  {
    hide CanonicalSet, Buildable;
    assert Describes(base, current, e);
    if e.kind != Deleted {
      assert e.objectRef == e.hashAfter && e.objectRef in objects;
      assert objects[e.hashAfter] == current[e.path].content;
    }
  }

  lemma FewerAliases(few: set<Path>, many: set<Path>, rules: Rules)
    requires few <= many && CanonicalSet(many, rules)
    ensures CanonicalSet(few, rules)
  {
    hide Prefix;
    assert PrefixesOf(few) <= PrefixesOf(many);
  }

  /** The changed paths of a capture pass the alias check and, if the policy allows, the policy. */
  lemma CapturedPaths(base: Files, current: Files, entries: seq<Entry>, rules: Rules)
    requires IsDiff(base, current, entries) && Capturable(base, current, rules) && !rules.valid("")
    ensures Canonical(ChangedPaths(entries), rules.fold, rules.valid)
    ensures WritablePaths(ChangedPaths(entries), rules) <==> MayChange(base, current, rules)
  {
    assert "" !in base;
    ChangedPathsExact(base, current, entries);
    FewerAliases(ChangedSet(base, current), base.Keys + current.Keys, rules);
    hide NoAliases, PrefixesOf, ChangedSet, Allows, ChangedPaths, IsDiff, Capturable;
    assert forall p :: p in ChangedPaths(entries) <==> p in Members(ChangedPaths(entries));
  }

  /** `reconstructEntries` on the entries of a capture, once the policy allows them, the tree is readable and
      its paths are canonical: it fails exactly, and then as stale, if the tree has left the base on a changed
      path; otherwise it lays the change over the tree. */
  lemma ReconstructExact(base: Files, current: Files, entries: seq<Entry>, objects: map<Hash, Content>, tree: Files, rules: Rules)
    requires IsDiff(base, current, entries) && IsObjectSet(entries, objects)
    requires Capturable(base, current, rules) && MayChange(base, current, rules) && !rules.valid("")
    requires CanonicalSet(tree.Keys, rules) && SafeTree(tree, rules)
    ensures var r := Reconstruct(entries, objects, tree, rules);
      if Unmoved(base, current, tree) then r == Rebuilt(Overlay(base, current, tree)) else r.Failed? && r.problem.Stale?
  {
    CapturedPaths(base, current, entries, rules);
    StaleExact(base, current, entries, objects, tree, rules);
    AgreesExactly(base, current, entries, tree);
    var after := ApplyAll(entries, objects, tree);
    forall p ensures SameAt(Overlay(base, current, tree), after, p) {
      ReplayAt(base, current, entries, objects, tree, rules, p);
      TouchedByEntries(base, current, entries, p);
    }
    SameEverywhere(Overlay(base, current, tree), after);
  }

  lemma SameEverywhere(a: Files, b: Files)
    requires forall p :: SameAt(a, b, p)
    ensures a == b
  {
    forall p ensures p in a <==> p in b ensures p in a ==> a[p] == b[p] { assert SameAt(a, b, p); }
  }

  lemma AgreesExactly(base: Files, current: Files, entries: seq<Entry>, tree: Files)
    requires IsDiff(base, current, entries)
    ensures AgreesOn(entries, base, tree) <==> Unmoved(base, current, tree)
  {
    forall p ensures (exists e :: e in entries && p in Touches(e)) <==> p in ChangedSet(base, current) {
      TouchedByEntries(base, current, entries, p);
    }
    hide IsDiff, ChangedSet, SameAt, Touches;
  }

  lemma TouchedByEntries(base: Files, current: Files, entries: seq<Entry>, p: Path)
    requires IsDiff(base, current, entries)
    ensures (exists e :: e in entries && p in Touches(e)) <==> !SameAt(base, current, p)
    ensures p in ChangedSet(base, current) <==> !SameAt(base, current, p)
  {
    TouchedExactly(base, current, p);
  }

  lemma ReplayAt(base: Files, current: Files, entries: seq<Entry>, objects: map<Hash, Content>, tree: Files, rules: Rules, p: Path)
    requires IsDiff(base, current, entries) && IsObjectSet(entries, objects) && Capturable(base, current, rules)
    ensures var after := ApplyAll(entries, objects, tree);
      ((exists e :: e in entries && p in Touches(e)) ==> SameAt(current, after, p)) &&
      (!(exists e :: e in entries && p in Touches(e)) ==> SameAt(tree, after, p))
  {
    forall e | e in entries
      ensures Describes(base, current, e)
      ensures e.hashAfter != NoHash ==> e.hashAfter in objects && objects[e.hashAfter] == e.hashAfter.content
    {
      CapturedEntry(base, current, entries, objects, tree, rules, e);
    }
    StrictImpliesDistinct(entries, EntryKey);
    hide IsDiff, Capturable, IsObjectSet, Describes;
    ApplyAllPointwise(base, current, entries, objects, tree, p);
  }

  /** Past the alias check and the policy, replay stops exactly at a touched path the tree has left. */
  lemma StaleExact(base: Files, current: Files, entries: seq<Entry>, objects: map<Hash, Content>, tree: Files, rules: Rules)
    requires IsDiff(base, current, entries) && IsObjectSet(entries, objects) && Capturable(base, current, rules)
    ensures var p := FirstProblem(entries, objects, tree, rules);
      (p.None? <==> AgreesOn(entries, base, tree)) && (p.Some? ==> p.value.Stale?)
  {
    forall e | e in entries
      ensures EntryProblem(e, objects, tree, rules).None? <==> forall p :: p in Touches(e) ==> SameAt(base, tree, p)
    {
      CapturedEntry(base, current, entries, objects, tree, rules, e);
      ConflictExactly(base, current, e, tree, rules.limit);
    }
    FirstProblemNone(entries, objects, tree, rules);
    StaleOnly(base, current, entries, objects, tree, rules, entries);
  }

  lemma {:induction false} StaleOnly(base: Files, current: Files, all: seq<Entry>, objects: map<Hash, Content>, tree: Files, rules: Rules, entries: seq<Entry>)
    requires IsDiff(base, current, all) && IsObjectSet(all, objects) && Capturable(base, current, rules)
    requires forall e :: e in entries ==> e in all
    ensures var p := FirstProblem(entries, objects, tree, rules); p.Some? ==> p.value.Stale?
  {
    if entries != [] {
      CapturedEntry(base, current, all, objects, tree, rules, entries[0]);
      StaleOnly(base, current, all, objects, tree, rules, entries[1..]);
    }
  }

  // ----- the rebuilt tree -----

  /** The paths of the tree that the change leaves alone, and those it puts there. */
  function KeptPaths(base: Files, current: Files, tree: Files): set<Path> { tree.Keys - ChangedSet(base, current) }

  function NewPaths(base: Files, current: Files): set<Path> { current.Keys * ChangedSet(base, current) }

  /** No new path, or directory on its way, is spelt like an untouched one, and none of the two stands
      where the other needs a directory. */
  predicate Compatible(base: Files, current: Files, tree: Files, fold: string -> string) {
    Unlike(PrefixesOf(KeptPaths(base, current, tree)), PrefixesOf(NewPaths(base, current)), fold)
    && NotAbove(KeptPaths(base, current, tree), NewPaths(base, current))
    && NotAbove(NewPaths(base, current), KeptPaths(base, current, tree))
  }

  predicate Unlike(a: set<string>, b: set<string>, fold: string -> string) {
    forall x, y :: x in a && y in b && fold(x) == fold(y) ==> x == y
  }

  predicate NotAbove(above: set<Path>, below: set<Path>) {
    forall p, i :: p in below && 0 <= i < |Split(p, '/')| - 1 ==> Prefix(p, i) !in above
  }

  lemma OverlayPaths(base: Files, current: Files, tree: Files)
    ensures Overlay(base, current, tree).Keys == KeptPaths(base, current, tree) + NewPaths(base, current)
  {
    forall p ensures p in Overlay(base, current, tree) <==> p in KeptPaths(base, current, tree) + NewPaths(base, current) {
      assert p in ChangedSet(base, current) <==> !SameAt(base, current, p);
    }
  }

  /** Two sets of paths that can be built separately can be built together exactly if they are compatible. */
  lemma BuildableTogether(a: set<Path>, b: set<Path>, rules: Rules)
    requires CanonicalSet(a, rules) && CanonicalSet(b, rules) && NoConflicts(a) && NoConflicts(b)
    ensures Buildable(a + b, rules) <==>
      Unlike(PrefixesOf(a), PrefixesOf(b), rules.fold) && NotAbove(a, b) && NotAbove(b, a)
  {
    hide Prefix, Split;
    assert PrefixesOf(a + b) == PrefixesOf(a) + PrefixesOf(b);
    hide PrefixesOf;
    var fold := rules.fold;
    forall x, y | x in PrefixesOf(a) && y in PrefixesOf(b) && NoAliases(PrefixesOf(a + b), fold) && fold(x) == fold(y)
      ensures x == y
    {
      assert x in PrefixesOf(a + b) && y in PrefixesOf(a + b);
    }
  }

  /** A captured change can be built on a tree exactly if it is compatible with what it leaves alone. */
  lemma BuildableExact(base: Files, current: Files, tree: Files, rules: Rules)
    requires Capturable(base, current, rules) && CanonicalSet(tree.Keys, rules) && NoConflicts(tree.Keys)
    ensures Buildable(Overlay(base, current, tree).Keys, rules) <==> Compatible(base, current, tree, rules.fold)
  {
    var kept, added := KeptPaths(base, current, tree), NewPaths(base, current);
    OverlayPaths(base, current, tree);
    FewerAliases(kept, tree.Keys, rules);
    FewerAliases(added, base.Keys + current.Keys, rules);
    assert NoConflicts(kept) && NoConflicts(added) by { hide ChangedSet, Prefix; }
    hide CanonicalSet, NoConflicts, ChangedSet;
    BuildableTogether(kept, added, rules);
  }

  /** Replaying a capture on any tree. Of a Git tree nothing is asked but that it can be listed: no path of
      it is a directory of another, links are safe and its paths and those of the checkout are canonical. The
      replay succeeds exactly if the tree has not left the base on a changed path, the change is
      compatible with the rest of the tree, and the checkout holds that very result. */
  lemma ReplayExact(
      base: Files, current: Files, entries: seq<Entry>, objects: map<Hash, Content>, tree: Files, checkout: Files, rules: Rules)
    requires IsDiff(base, current, entries) && IsObjectSet(entries, objects)
    requires Capturable(base, current, rules) && MayChange(base, current, rules) && !rules.valid("")
    requires Snapshots(tree, checkout, rules) && SafeTree(tree, rules) && NoConflicts(tree.Keys)
    ensures var r := Replay(entries, objects, tree, checkout, rules); var result := Overlay(base, current, tree);
      if !Unmoved(base, current, tree) then r.Failed? && r.problem.Stale?
      else if !Compatible(base, current, tree, rules.fold) then r == Failed(UnsafeReplay)
      else if base == current then r == Failed(NoChange)
      else if checkout != result then r == Failed(CheckoutChanged)
      else r == Rebuilt(result)
  {
    FewerAliases(tree.Keys, tree.Keys + checkout.Keys, rules);
    ReconstructExact(base, current, entries, objects, tree, rules);
    BuildableExact(base, current, tree, rules);
    hide Reconstruct, Capturable, Snapshots, SafeTree, IsDiff, IsObjectSet, CanonicalSet, NoConflicts, Buildable, Compatible,
      Overlay, MayChange, Unmoved;
    if Unmoved(base, current, tree) { OverlayChanges(base, current, tree); }
  }

  /** Laid over a tree that has not left the base, a change changes something. */
  lemma OverlayChanges(base: Files, current: Files, tree: Files)
    requires Unmoved(base, current, tree)
    ensures Overlay(base, current, tree) == tree <==> base == current
  {
    var after := Overlay(base, current, tree);
    forall p ensures SameAt(after, tree, p) <==> SameAt(base, current, p) {
      assert p in ChangedSet(base, current) <==> !SameAt(base, current, p);
    }
    if after == tree { SameEverywhere(base, current); }
    if base == current { SameEverywhere(after, tree); }
  }

  /** A change is always compatible with the rest of its own base: what the capture accepted, the checks on
      the rebuilt tree accept. */
  lemma CompatibleWithBase(base: Files, current: Files, rules: Rules)
    requires Capturable(base, current, rules)
    ensures Compatible(base, current, base, rules.fold) && Overlay(base, current, base) == current
  {
    var kept, added := KeptPaths(base, current, base), NewPaths(base, current);
    forall p ensures SameAt(Overlay(base, current, base), current, p) {
      assert p in ChangedSet(base, current) <==> !SameAt(base, current, p);
    }
    SameEverywhere(Overlay(base, current, base), current);
    OverlayPaths(base, current, base);
    assert kept + added == current.Keys;
    FewerAliases(kept, current.Keys, rules);
    FewerAliases(added, current.Keys, rules);
    assert NoConflicts(kept) && NoConflicts(added) by { hide ChangedSet, Prefix; }
    hide CanonicalSet, NoConflicts, ChangedSet;
    BuildableTogether(kept, added, rules);
  }

  /** Whatever can be captured and may be written is replayed on its base without loss: paths, modes and
      contents, with renames, mode changes and duplicated contents. */
  lemma CaptureReplayRoundTrip(base: Files, current: Files, entries: seq<Entry>, objects: map<Hash, Content>, rules: Rules)
    requires IsDiff(base, current, entries) && IsObjectSet(entries, objects)
    requires Capturable(base, current, rules) && base != current && !rules.valid("")
    ensures Replay(entries, objects, base, current, rules) ==
      if MayChange(base, current, rules) then Rebuilt(current) else Failed(PolicyViolation)
  {
    CapturedPaths(base, current, entries, rules);
    if MayChange(base, current, rules) {
      CompatibleWithBase(base, current, rules);
      ReconstructExact(base, current, entries, objects, base, rules);
    }
  }

  /** Renaming a file to another spelling that folds alike, "Foo" to "foo" say, cannot be captured. */
  lemma CaseOnlyRename(from: Path, to: Path, file: FileState, rules: Rules)
    requires from != to && rules.fold(from) == rules.fold(to)
    ensures !Capturable(map[from := file], map[to := file], rules)
  {
    var paths := map[from := file].Keys + map[to := file].Keys;
    LastPrefix(from);
    LastPrefix(to);
    assert from in paths && to in paths;
    assert from in PrefixesOf(paths) && to in PrefixesOf(paths);
  }

  // ----- what a rebuilt tree is, whatever bundle it comes from -----

  /** What an entry says of the tree it is applied to. */
  predicate FoundAsStated(e: Entry, tree: Files) {
    match e.kind
    case Added => e.path !in tree
    case Renamed =>
      e.path !in tree && e.pathBefore in tree && tree[e.pathBefore].mode == e.modeBefore &&
      Sha256(tree[e.pathBefore].content) == e.hashBefore
    case _ => e.path in tree && tree[e.path].mode == e.modeBefore && Sha256(tree[e.path].content) == e.hashBefore
  }

  /** What it says of the tree it yields, with its object. */
  predicate LeftAsStated(e: Entry, objects: map<Hash, Content>, after: Files) {
    match e.kind
    case Deleted => e.path !in after
    case Renamed => e.pathBefore !in after && e.path in after && after[e.path] == FileState(e.modeAfter, ContentOf(e.hashAfter, objects))
    case _ => e.path in after && after[e.path] == FileState(e.modeAfter, ContentOf(e.hashAfter, objects))
  }

  /** Only renames have a second path, and it is another one. */
  ghost predicate WellNamed(entries: seq<Entry>) {
    forall e :: e in entries ==> (e.kind == Renamed <==> e.pathBefore != "") && (e.kind == Renamed ==> e.path != e.pathBefore)
  }

  ghost predicate TouchedApart(entries: seq<Entry>) {
    forall i, j, p :: 0 <= i < j < |entries| && p in Touches(entries[i]) ==> p !in Touches(entries[j])
  }

  lemma DistinctParts(a: seq<Path>, b: seq<Path>)
    requires Distinct(a + b)
    ensures Distinct(b) && forall p :: p in a ==> p !in b
  {
    var all := a + b;
    forall i, j | 0 <= i < |a| && 0 <= j < |b| ensures a[i] != b[j] {
      assert all[i] == a[i] && all[|a| + j] == b[j];
    }
    forall i, j | 0 <= i < j < |b| ensures b[i] != b[j] {
      assert all[|a| + i] == b[i] && all[|a| + j] == b[j];
    }
  }

  lemma {:induction false} DistinctApart(entries: seq<Entry>)
    requires WellNamed(entries) && Distinct(ChangedPaths(entries))
    ensures TouchedApart(entries)
    decreases |entries|
  {
    if entries != [] {
      var e, rest := entries[0], entries[1..];
      var first := [e.path] + (if e.pathBefore != "" then [e.pathBefore] else []);
      assert ChangedPaths(entries) == first + ChangedPaths(rest) && e in entries;
      assert forall f :: f in rest ==> f in entries;
      DistinctParts(first, ChangedPaths(rest));
      DistinctApart(rest);
      forall j, p | 0 < j < |entries| && p in Touches(e) ensures p !in Touches(entries[j]) {
        assert p in first && entries[j] == rest[j - 1];
        ChangedPathsAre(rest, p);
      }
      forall i, j, p | 0 <= i < j < |entries| && p in Touches(entries[i]) ensures p !in Touches(entries[j]) {
        if i > 0 { assert entries[i] == rest[i - 1] && entries[j] == rest[j - 1]; }
      }
    }
  }

  /** Paths that no entry touches stay as they are. */
  lemma {:induction false} ApplyAllElsewhere(entries: seq<Entry>, objects: map<Hash, Content>, tree: Files, p: Path)
    requires forall e :: e in entries ==> p !in Touches(e)
    ensures SameAt(tree, ApplyAll(entries, objects, tree), p)
    decreases |entries|
  {
    if entries != [] {
      assert entries[0] in entries;
      assert forall f :: f in entries[1..] ==> f in entries;
      ApplyAllElsewhere(entries[1..], objects, Apply(entries[0], objects, tree), p);
    }
  }

  /** Each entry leaves behind what it states. */
  lemma {:induction false} ApplyAllLeaves(entries: seq<Entry>, objects: map<Hash, Content>, tree: Files, k: nat)
    requires TouchedApart(entries) && WellNamed(entries) && k < |entries|
    ensures LeftAsStated(entries[k], objects, ApplyAll(entries, objects, tree))
    decreases |entries|
  {
    var next, rest := Apply(entries[0], objects, tree), entries[1..];
    assert entries == [entries[0]] + rest;
    if k == 0 {
      var e := entries[0];
      forall p | p in Touches(e) ensures SameAt(next, ApplyAll(rest, objects, next), p) {
        forall f | f in rest ensures p !in Touches(f) {
          var j :| 0 <= j < |rest| && rest[j] == f;
          assert entries[j + 1] == f;
        }
        ApplyAllElsewhere(rest, objects, next, p);
      }
      assert e.path in Touches(e) && (e.kind == Renamed ==> e.pathBefore in Touches(e));
      assert e in entries && LeftAsStated(e, objects, next);
    } else {
      forall i, j, p | 0 <= i < j < |rest| && p in Touches(rest[i]) ensures p !in Touches(rest[j]) {
        assert rest[i] == entries[i + 1] && rest[j] == entries[j + 1];
      }
      ApplyAllLeaves(rest, objects, next, k - 1);
    }
  }

  lemma EntryFound(e: Entry, objects: map<Hash, Content>, tree: Files, rules: Rules)
    requires EntryProblem(e, objects, tree, rules).None?
    ensures FoundAsStated(e, tree)
    ensures e.kind == Renamed ==> |tree[e.pathBefore].content| <= rules.limit
    ensures e.kind == Modified || e.kind == Deleted ==> |tree[e.path].content| <= rules.limit
    ensures e.kind != Deleted ==>
      |ContentOf(e.hashAfter, objects)| <= rules.limit &&
      (e.modeAfter == "120000" ==> rules.safeLink(e.path, ContentOf(e.hashAfter, objects)))
  {
  }

  /** Whatever bundle is replayed: if a tree comes out, every entry was true of the tree that went in and is true of
      the one that came out, nothing else changed, and the policy allows each path that did. */
  lemma RebuiltAsStated(entries: seq<Entry>, objects: map<Hash, Content>, tree: Files, rules: Rules)
    requires WellNamed(entries) && Reconstruct(entries, objects, tree, rules).Rebuilt?
    ensures var after := Reconstruct(entries, objects, tree, rules).tree;
      && (forall e :: e in entries ==> FoundAsStated(e, tree) && LeftAsStated(e, objects, after))
      && (forall p :: !SameAt(tree, after, p) ==> exists e :: e in entries && p in Touches(e))
      && (forall e, p :: e in entries && p in Touches(e) ==> rules.valid(p) && Allows(rules.policy, Split(p, '/')))
      && (forall p :: p in tree ==> rules.valid(p)) && NoAliases(PrefixesOf(tree.Keys), rules.fold)
  {
    FirstProblemNone(entries, objects, tree, rules);
    DistinctApart(entries);
    var after := ApplyAll(entries, objects, tree);
    forall e | e in entries ensures FoundAsStated(e, tree) && LeftAsStated(e, objects, after) {
      EntryFound(e, objects, tree, rules);
      var k :| 0 <= k < |entries| && entries[k] == e;
      ApplyAllLeaves(entries, objects, tree, k);
    }
    forall p | !SameAt(tree, after, p) ensures exists e :: e in entries && p in Touches(e) {
      if forall e :: e in entries ==> p !in Touches(e) { ApplyAllElsewhere(entries, objects, tree, p); }
    }
    forall e, p | e in entries && p in Touches(e) ensures rules.valid(p) && Allows(rules.policy, Split(p, '/')) {
      hide Allows;
      ChangedPathsAre(entries, p);
    }
  }

  /** And what replay reports is the checkout, changed, of bounded files and safe links at valid paths without
      aliases or conflicts, and within the write policy. */
  lemma ReplayedIsSafe(entries: seq<Entry>, objects: map<Hash, Content>, tree: Files, checkout: Files, rules: Rules)
    requires WellNamed(entries) && Replay(entries, objects, tree, checkout, rules).Rebuilt?
    ensures var after := Replay(entries, objects, tree, checkout, rules).tree;
      && after == checkout && after != tree
      && (forall p :: p in after ==>
            rules.valid(p) && |after[p].content| <= rules.limit && (after[p].mode == "120000" ==> rules.safeLink(p, after[p].content)))
      && (forall p :: p in tree && tree[p].mode == "120000" ==> rules.safeLink(p, tree[p].content))
      && NoAliases(PrefixesOf(after.Keys), rules.fold) && NoConflicts(after.Keys)
      && (forall p :: !SameAt(tree, after, p) ==> Allows(rules.policy, Split(p, '/')))
  {
    RebuiltAsStated(entries, objects, tree, rules);
    hide FirstProblem, ApplyAll, ChangedPaths, Allows, NoAliases, NoConflicts, PrefixesOf;
  }

  /** The write check lets exactly those paths through that a write scope covers and no deny scope does. */
  lemma WritableExactly(norm: string -> string, write: seq<string>, deny: seq<string>, paths: seq<Path>, rules: Rules)
    requires PolicyOf(norm, write, deny) == Some(rules.policy)
    ensures WritablePaths(paths, rules) <==>
      forall p :: p in paths ==>
        (exists s :: s in write && Covers(norm, s, Split(p, '/'))) && !(exists d :: d in deny && Covers(norm, d, Split(p, '/')))
  {
    hide Covers, Allows, PolicyOf;
    forall p | p in paths
      ensures Allows(rules.policy, Split(p, '/')) <==>
        (exists s :: s in write && Covers(norm, s, Split(p, '/'))) && !(exists d :: d in deny && Covers(norm, d, Split(p, '/')))
    {
      AllowsExactly(norm, write, deny, Split(p, '/'));
    }
  }

  /** So nothing outside the write scope, and nothing under a deny pattern, is ever replayed. */
  lemma ReplayedWithinScope(
      norm: string -> string, write: seq<string>, deny: seq<string>,
      entries: seq<Entry>, objects: map<Hash, Content>, tree: Files, checkout: Files, rules: Rules, p: Path)
    requires PolicyOf(norm, write, deny) == Some(rules.policy) && WellNamed(entries)
    requires Replay(entries, objects, tree, checkout, rules).Rebuilt?
    requires !SameAt(tree, Replay(entries, objects, tree, checkout, rules).tree, p)
    ensures exists s :: s in write && Covers(norm, s, Split(p, '/'))
    ensures !exists d :: d in deny && Covers(norm, d, Split(p, '/'))
  {
    ReplayedIsSafe(entries, objects, tree, checkout, rules);
    hide Replay, Covers, Allows, PolicyOf;
    AllowsExactly(norm, write, deny, Split(p, '/'));
  }

  // ----- changes that meet something else in the tree -----

  /** A new path spelt like one the tree has gained meanwhile: nothing is stale, and the tree cannot be built. */
  lemma NewAlias(from: Path, to: Path, file: FileState, rules: Rules)
    requires from != to && rules.fold(from) == rules.fold(to)
    ensures Unmoved(map[], map[to := file], map[from := file])
    ensures !Compatible(map[], map[to := file], map[from := file], rules.fold)
  {
    var current, tree := map[to := file], map[from := file];
    LastPrefix(from);
    LastPrefix(to);
    assert KeptPaths(map[], current, tree) == {from} && NewPaths(map[], current) == {to};
    assert from in PrefixesOf({from}) && to in PrefixesOf({to});
  }

  /** A new file where the tree has gained a directory meanwhile. */
  lemma NewConflict(directory: Path, inside: Path, file: FileState, fold: string -> string)
    requires |Split(inside, '/')| >= 2 && Prefix(inside, 0) == directory && directory != inside
    ensures Unmoved(map[], map[directory := file], map[inside := file])
    ensures !Compatible(map[], map[directory := file], map[inside := file], fold)
  {
    var current, tree := map[directory := file], map[inside := file];
    assert KeptPaths(map[], current, tree) == {inside} && NewPaths(map[], current) == {directory};
  }
}
