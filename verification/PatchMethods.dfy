/** The loops of internal/patch: `compareFiles` and `Capture` (bundle.go), `reconstructEntries`,
    `verifyBefore` and `Replay` (replay.go), with the checks of `SnapshotTree` and `BuildTree` of internal/gitrepo, each proved against module Patch. Go's map iteration order is the
    arbitrary choice `:|`. */
module PatchMethods {
  import opened Ordering
  import opened GitCommit
  import opened Text
  import opened Aliases
  import opened Globs
  import opened Scopes
  import opened Patch
  import opened PatchBundle

  /** Paths by (mode, hash), as `deletesByIdentity` and `addsByIdentity` hold them. */
  ghost predicate Grouped(groups: map<FileState, seq<Path>>, paths: set<Path>, files: Files)
    requires forall p :: p in paths ==> p in files
  {
    && (forall k, p :: k in groups && p in groups[k] ==> p in paths && files[p] == k)
    && (forall p :: p in paths ==> files[p] in groups && p in groups[files[p]])
    && (forall k :: k in groups ==> groups[k] != [])
    && (forall k, i, j :: k in groups && 0 <= i < j < |groups[k]| ==> groups[k][i] != groups[k][j])
  }

  method GroupByIdentity(paths: set<Path>, files: Files) returns (groups: map<FileState, seq<Path>>)
    requires forall p :: p in paths ==> p in files
    ensures Grouped(groups, paths, files)
  {
    groups := map[];
    var todo := paths;
    while todo != {}
      invariant todo <= paths && Grouped(groups, paths - todo, files)
      decreases todo
    {
      hide Grouped;
      var p :| p in todo;
      var key := files[p];
      GroupStep(groups, paths - todo, files, p);
      assert paths - (todo - {p}) == (paths - todo) + {p};
      groups := groups[key := (if key in groups then groups[key] else []) + [p]];
      todo := todo - {p};
    }
    assert paths - todo == paths;
  }

  /** Putting one more path into its group. */
  lemma GroupStep(groups: map<FileState, seq<Path>>, paths: set<Path>, files: Files, p: Path)
    requires forall q :: q in paths + {p} ==> q in files
    requires Grouped(groups, paths, files) && p !in paths
    ensures var group := if files[p] in groups then groups[files[p]] else [];
      Grouped(groups[files[p] := group + [p]], paths + {p}, files)
  {
    var key := files[p];
    var group := if key in groups then groups[key] else [];
    var more := groups[key := group + [p]];
    forall k, q | k in more && q in more[k]
      ensures q in paths + {p} && files[q] == k
    {
      assert q in group + [p] <==> q in group || q == p;
    }
    forall q | q in paths + {p}
      ensures files[q] in more && q in more[files[q]]
    {
      assert q in group + [p] <==> q in group || q == p;
    }
    forall k, i, j | k in more && 0 <= i < j < |more[k]|
      ensures more[k][i] != more[k][j]
    {
      if k == key && j == |group| {
        assert group[i] in group && group[i] in paths;
      }
    }
  }

  lemma GroupMember(groups: map<FileState, seq<Path>>, paths: set<Path>, files: Files, k: FileState, i: nat)
    requires forall q :: q in paths ==> q in files
    requires Grouped(groups, paths, files) && k in groups && i < |groups[k]|
    ensures groups[k][i] in paths && files[groups[k][i]] == k
  {
    assert groups[k][i] in groups[k];
  }

  /** A group of one is a path whose mode and content no other path of the set shares. */
  lemma SingletonGroup(groups: map<FileState, seq<Path>>, paths: set<Path>, files: Files, k: FileState, p: Path)
    requires forall q :: q in paths ==> q in files
    requires Grouped(groups, paths, files) && p in paths && files[p] == k
    ensures |groups[k]| == 1 <==> forall q :: q in paths && files[q] == k ==> q == p
  {
    var g := groups[k];
    assert p in g;
    if |g| == 1 {
      assert g == [p];
    } else if forall q :: q in paths && files[q] == k ==> q == p {
      GroupMember(groups, paths, files, k, 0);
      GroupMember(groups, paths, files, k, 1);
    }
  }

  ghost function DeletedPaths(base: Files, current: Files): set<Path> { set p | p in base && p !in current }

  ghost function AddedPaths(base: Files, current: Files): set<Path> { set p | p in current && p !in base }

  /** The first loop: modified entries, and the deleted paths with their entries. */
  method CompareBase(base: Files, current: Files) returns (entries: seq<Entry>, deleted: map<Path, Entry>)
    ensures forall e :: e in entries <==> e.kind == Modified && Describes(base, current, e)
    ensures forall i, j :: 0 <= i < j < |entries| ==> entries[i] != entries[j]
    ensures deleted == map p | p in DeletedPaths(base, current) :: DeletedEntry(p, base[p])
  {
    entries, deleted := [], map[];
    var todo := base.Keys;
    while todo != {}
      invariant todo <= base.Keys
      invariant forall e :: e in entries <==> e.path !in todo && e.kind == Modified && Describes(base, current, e)
      invariant forall i, j :: 0 <= i < j < |entries| ==> entries[i] != entries[j]
      invariant deleted == map p | p in DeletedPaths(base, current) && p !in todo :: DeletedEntry(p, base[p])
      decreases todo
    {
      var p :| p in todo;
      ghost var before := entries;
      if p !in current {
        deleted := deleted[p := DeletedEntry(p, base[p])];
      } else if base[p].mode == current[p].mode && Sha256(base[p].content) == Sha256(current[p].content) {
      } else {
        var e := ModifiedEntry(p, base[p], current[p]);
        assert e !in entries;
        entries := entries + [e];
      }
      todo := todo - {p};
      assert forall e :: e in entries <==> e in before || (p in current && base[p] != current[p] && e == ModifiedEntry(p, base[p], current[p]));
    }
  }

  /** The second loop: entries for new paths. */
  method CompareCurrent(base: Files, current: Files) returns (added: map<Path, Entry>)
    ensures added == map p | p in AddedPaths(base, current) :: AddedEntry(p, current[p])
  {
    added := map[];
    var todo := current.Keys;
    while todo != {}
      invariant todo <= current.Keys
      invariant added == map p | p in AddedPaths(base, current) && p !in todo :: AddedEntry(p, current[p])
      decreases todo
    {
      var p :| p in todo;
      if p !in base { added := added[p := AddedEntry(p, current[p])]; }
      todo := todo - {p};
    }
  }

  /** The pairing loop: the renames. */
  method PairRenames(base: Files, current: Files, deletes: map<FileState, seq<Path>>, adds: map<FileState, seq<Path>>)
    returns (entries: seq<Entry>)
    requires Grouped(deletes, DeletedPaths(base, current), base)
    requires Grouped(adds, AddedPaths(base, current), current)
    ensures forall e :: e in entries <==> e.kind == Renamed && Describes(base, current, e)
    ensures forall i, j :: 0 <= i < j < |entries| ==> entries[i] != entries[j]
  {
    hide Grouped;
    entries := [];
    var todo := deletes.Keys;
    while todo != {}
      invariant todo <= deletes.Keys
      invariant forall e :: e in entries <==> IsRename(base, current, e) && base[e.pathBefore] in deletes.Keys - todo
      invariant forall i, j :: 0 <= i < j < |entries| ==> entries[i] != entries[j]
      decreases todo
    {
      var key :| key in todo;
      var deletedPaths := deletes[key];
      var addedPaths := if key in adds then adds[key] else [];
      PairOfKey(base, current, deletes, adds, key);
      hide Pair;
      ghost var before := entries;
      if |deletedPaths| == 1 && |addedPaths| == 1 {
        var from, to := deletedPaths[0], addedPaths[0];
        var e := RenamedEntry(from, to, base[from], current[to]);
        assert e !in entries;
        entries := entries + [e];
        forall f ensures f in entries <==> f in before || (IsRename(base, current, f) && base[f.pathBefore] == key) {
          assert f.kind == Renamed && Describes(base, current, f) ==> Pair(base, current, f.pathBefore, f.path);
        }
      } else {
        forall f ensures !(IsRename(base, current, f) && base[f.pathBefore] == key) {}
      }
      todo := todo - {key};
    }
    forall e | IsRename(base, current, e) ensures base[e.pathBefore] in deletes {
      RenameHasKey(base, current, deletes, e);
    }
  }

  ghost predicate IsRename(base: Files, current: Files, e: Entry) {
    e.kind == Renamed && e.pathBefore in base && Describes(base, current, e)
  }

  lemma RenameHasKey(base: Files, current: Files, deletes: map<FileState, seq<Path>>, e: Entry)
    requires Grouped(deletes, DeletedPaths(base, current), base) && IsRename(base, current, e)
    ensures base[e.pathBefore] in deletes
  {
    assert e.pathBefore in DeletedPaths(base, current);
  }

  /** With this key there is a rename exactly when both groups are singletons, and then it is that one. */
  lemma PairOfKey(base: Files, current: Files, deletes: map<FileState, seq<Path>>, adds: map<FileState, seq<Path>>, key: FileState)
    requires Grouped(deletes, DeletedPaths(base, current), base)
    requires Grouped(adds, AddedPaths(base, current), current)
    requires key in deletes
    ensures |deletes[key]| == 1 ==> deletes[key][0] in base
    ensures key in adds && |adds[key]| == 1 ==> adds[key][0] in current
    ensures forall from, to :: Pair(base, current, from, to) && base[from] == key
              <==> |deletes[key]| == 1 && key in adds && |adds[key]| == 1 && from == deletes[key][0] && to == adds[key][0]
  {
    GroupMember(deletes, DeletedPaths(base, current), base, key, 0);
    if key in adds { GroupMember(adds, AddedPaths(base, current), current, key, 0); }
    forall from, to | Pair(base, current, from, to) && base[from] == key
      ensures |deletes[key]| == 1 && key in adds && |adds[key]| == 1 && from == deletes[key][0] && to == adds[key][0]
    {
      assert from in DeletedPaths(base, current) && to in AddedPaths(base, current);
      SingletonGroup(deletes, DeletedPaths(base, current), base, key, from);
      SingletonGroup(adds, AddedPaths(base, current), current, key, to);
      assert from in deletes[key] && to in adds[key];
    }
    if |deletes[key]| == 1 && key in adds && |adds[key]| == 1 {
      var from, to := deletes[key][0], adds[key][0];
      assert from in deletes[key] && to in adds[key];
      SingletonGroup(deletes, DeletedPaths(base, current), base, key, from);
      SingletonGroup(adds, AddedPaths(base, current), current, key, to);
    }
  }

  /** The last two loops: the deletes and adds no rename has consumed, in any order. */
  method Rest(pending: map<Path, Entry>) returns (entries: seq<Entry>)
    requires forall p :: p in pending ==> pending[p].path == p
    ensures forall e :: e in entries <==> e.path in pending && pending[e.path] == e
    ensures forall i, j :: 0 <= i < j < |entries| ==> entries[i] != entries[j]
  {
    entries := [];
    var todo := pending.Keys;
    while todo != {}
      invariant todo <= pending.Keys
      invariant forall e :: e in entries <==> e.path in pending && e.path !in todo && pending[e.path] == e
      invariant forall i, j :: 0 <= i < j < |entries| ==> entries[i] != entries[j]
      decreases todo
    {
      var p :| p in todo;
      assert pending[p] !in entries;
      entries := entries + [pending[p]];
      todo := todo - {p};
    }
  }

  /** The contents the entries refer to. */
  method Objects(entries: seq<Entry>) returns (objects: map<Hash, Content>)
    requires forall e :: e in entries ==> e.objectRef == NoHash || e.objectRef.Sha256?
    ensures IsObjectSet(entries, objects)
  {
    objects := map[];
    for i := 0 to |entries|
      invariant IsObjectSet(entries[..i], objects)
    {
      var h := entries[i].objectRef;
      if h != NoHash { objects := objects[h := h.content]; }
      assert entries[..i + 1] == entries[..i] + [entries[i]];
      assert entries[i] in entries[..i + 1];
    }
    assert entries[..|entries|] == entries;
  }

  /** Sorting the collected entries by path gives the one entry list of the change. */
  lemma SortedIsDiff(base: Files, current: Files, collected: seq<Entry>)
    requires forall e :: e in collected <==> Describes(base, current, e)
    requires forall i, j :: 0 <= i < j < |collected| ==> collected[i] != collected[j]
    ensures IsDiff(base, current, SortBy(collected, EntryKey))
  {
    forall i, j | 0 <= i < j < |collected| ensures EntryKey(collected[i]) != EntryKey(collected[j]) {
      var e, f := collected[i], collected[j];
      assert e in collected && f in collected;
      if EntryKey(e) == EntryKey(f) {
        CodesInjective(e.path, f.path);
        assert e.path in Touches(e) * Touches(f);
        OneEntryPerPath(base, current, e, f);
      }
    }
    SortStrict(collected, EntryKey);
    forall e ensures e in SortBy(collected, EntryKey) <==> Describes(base, current, e) {
      SortMember(collected, EntryKey, e);
    }
  }

  /** `compareFiles`. */
  method CompareFiles(base: Files, current: Files) returns (entries: seq<Entry>, objects: map<Hash, Content>)
    ensures IsDiff(base, current, entries) && IsObjectSet(entries, objects)
  {
    hide Describes, IsDiff, StrictlySortedBy;
    entries := CollectEntries(base, current);
    SortedIsDiff(base, current, entries);
    entries := SortBy(entries, EntryKey);
    assert forall e :: e in entries ==> e.objectRef == NoHash || e.objectRef.Sha256? by {
      DiffReferences(base, current, entries);
    }
    objects := Objects(entries);
  }

  lemma DiffReferences(base: Files, current: Files, entries: seq<Entry>)
    requires IsDiff(base, current, entries)
    ensures forall e :: e in entries ==> e.objectRef == NoHash || e.objectRef.Sha256?
  {
  }

  /** Every entry of the change exactly once, in the order the loops find them. */
  method CollectEntries(base: Files, current: Files) returns (entries: seq<Entry>)
    ensures forall e :: e in entries <==> Describes(base, current, e)
    ensures forall i, j :: 0 <= i < j < |entries| ==> entries[i] != entries[j]
  {
    hide Describes, Grouped;
    var modified, deleted := CompareBase(base, current);
    var added := CompareCurrent(base, current);
    var deletes := GroupByIdentity(deleted.Keys, base);
    var adds := GroupByIdentity(added.Keys, current);
    assert deleted.Keys == DeletedPaths(base, current) && added.Keys == AddedPaths(base, current);
    var renamed := PairRenames(base, current, deletes, adds);
    deleted := deleted - (set e | e in renamed :: e.pathBefore);
    added := added - (set e | e in renamed :: e.path);
    DescribedRest(base, current, renamed, deleted, added);
    var deletions := Rest(deleted);
    var additions := Rest(added);
    KindsTogether(base, current, modified, renamed, deletions, additions);
    entries := modified + renamed + deletions + additions;
  }

  /** The four kinds of entry together are all entries, none twice. */
  lemma KindsTogether(base: Files, current: Files, modified: seq<Entry>, renamed: seq<Entry>, deletions: seq<Entry>, additions: seq<Entry>)
    requires EntriesOf(base, current, modified, Modified) && EntriesOf(base, current, renamed, Renamed)
    requires EntriesOf(base, current, deletions, Deleted) && EntriesOf(base, current, additions, Added)
    ensures var all := modified + renamed + deletions + additions;
      (forall e :: e in all <==> Describes(base, current, e)) &&
      forall i, j :: 0 <= i < j < |all| ==> all[i] != all[j]
  {
    hide Describes;
    ConcatDistinct(modified, renamed);
    ConcatDistinct(modified + renamed, deletions);
    ConcatDistinct(modified + renamed + deletions, additions);
    var all := modified + renamed + deletions + additions;
    forall e
      ensures e in all <==> Describes(base, current, e)
    {
      assert e.kind.Added? || e.kind.Modified? || e.kind.Deleted? || e.kind.Renamed?;
    }
  }

  /** A duplicate-free list of the entries of one kind. */
  ghost predicate EntriesOf(base: Files, current: Files, entries: seq<Entry>, kind: Kind) {
    (forall e :: e in entries <==> e.kind == kind && Describes(base, current, e)) &&
    forall i, j :: 0 <= i < j < |entries| ==> entries[i] != entries[j]
  }

  /** After removing the renamed paths the pending maps hold exactly the delete and add entries. */
  lemma DescribedRest(base: Files, current: Files, renamed: seq<Entry>, deleted: map<Path, Entry>, added: map<Path, Entry>)
    requires forall e :: e in renamed <==> e.kind == Renamed && Describes(base, current, e)
    requires deleted == (map p | p in DeletedPaths(base, current) :: DeletedEntry(p, base[p])) - (set e | e in renamed :: e.pathBefore)
    requires added == (map p | p in AddedPaths(base, current) :: AddedEntry(p, current[p])) - (set e | e in renamed :: e.path)
    ensures forall p :: p in deleted ==> deleted[p].path == p && deleted[p].kind == Deleted
    ensures forall p :: p in added ==> added[p].path == p && added[p].kind == Added
    ensures forall e: Entry :: e.path in deleted && deleted[e.path] == e <==> e.kind == Deleted && Describes(base, current, e)
    ensures forall e: Entry :: e.path in added && added[e.path] == e <==> e.kind == Added && Describes(base, current, e)
  {
    forall p ensures p in (set e | e in renamed :: e.pathBefore) <==> RenamedAway(base, current, p) {
      if to :| Pair(base, current, p, to) {
        var e := RenamedEntry(p, to, base[p], current[to]);
        assert Describes(base, current, e) && e in renamed;
      }
    }
    forall p ensures p in (set e | e in renamed :: e.path) <==> RenamedHere(base, current, p) {
      if from :| Pair(base, current, from, p) {
        var e := RenamedEntry(from, p, base[from], current[p]);
        assert Describes(base, current, e) && e in renamed;
      }
    }
  }

  /** The object records of a capture, collected in any order and sorted by reference. */
  method ObjectList(objects: map<Hash, Content>) returns (list: seq<PatchObject>)
    requires forall h :: h in objects ==> h.Sha256?
    ensures IsObjectList(list, objects)
  {
    list := [];
    var todo := objects.Keys;
    while todo != {}
      invariant todo <= objects.Keys
      invariant forall o :: o in list <==> o.ref in objects && o.ref !in todo && o == PatchObject(o.ref, o.ref, |objects[o.ref]|)
      invariant forall i, j :: 0 <= i < j < |list| ==> list[i] != list[j]
      decreases todo
    {
      var h :| h in todo;
      var o := PatchObject(h, h, |objects[h]|);
      assert o !in list;
      list := list + [o];
      todo := todo - {h};
    }
    forall i, j | 0 <= i < j < |list| ensures ObjectKey(list[i]) != ObjectKey(list[j]) {
      assert list[i] in list && list[j] in list;
      if ObjectKey(list[i]) == ObjectKey(list[j]) { HashKeyInjective(list[i].ref, list[j].ref); }
    }
    SortStrict(list, ObjectKey);
    forall o ensures o in SortBy(list, ObjectKey) <==> o in list { SortMember(list, ObjectKey, o); }
    list := SortBy(list, ObjectKey);
  }

  // ----- checkout.go and tree.go -----

  /** A set of paths in whatever order it is listed. */
  method ListPaths(paths: set<Path>) returns (list: seq<Path>)
    ensures Members(list) == paths && Distinct(list)
  {
    list := [];
    var todo := paths;
    while todo != {}
      invariant todo <= paths && Distinct(list)
      invariant forall p :: p in list <==> p in paths && p !in todo
      decreases todo
    {
      var p :| p in todo;
      assert p !in list;
      list := list + [p];
      todo := todo - {p};
    }
  }

  /** `CanonicalizePaths` on paths in normal form. */
  method CheckPaths(list: seq<Path>, rules: Rules) returns (ok: bool)
    ensures ok <==> Canonical(list, rules.fold, rules.valid)
  {
    var same := (p: Path) => p;
    NormalFormsApart(list, same, rules.fold, rules.valid);
    ok := CanonicalizePaths(list, same, rules.fold, rules.valid);
  }

  method CanonicalizeSet(paths: set<Path>, rules: Rules) returns (ok: bool)
    ensures ok <==> CanonicalSet(paths, rules)
  {
    var list := ListPaths(paths);
    assert forall p :: p in list <==> p in Members(list);
    ok := CheckPaths(list, rules);
  }

  /** The checks of `BuildTree`: aliases, and files where another path needs a directory. */
  method BuildTree(paths: set<Path>, rules: Rules) returns (ok: bool)
    ensures ok <==> Buildable(paths, rules)
  {
    hide CanonicalSet, Prefix, Split;
    ok := CanonicalizeSet(paths, rules);
    if !ok { return; }
    var list := ListPaths(paths);
    for n := 0 to |list|
      invariant forall p, i :: p in list[..n] && 0 <= i < |Split(p, '/')| - 1 ==> Prefix(p, i) !in paths
    {
      var p := list[n];
      assert list[..n + 1] == list[..n] + [p] && p in Members(list);
      var parent := |Split(p, '/')| - 1;
      while parent > 0
        invariant 0 <= parent <= |Split(p, '/')| - 1
        invariant forall i :: parent <= i < |Split(p, '/')| - 1 ==> Prefix(p, i) !in paths
      {
        parent := parent - 1;
        if Prefix(p, parent) in paths { return false; }
      }
    }
    assert list[..|list|] == list;
    assert forall p :: p in paths ==> p in Members(list);
  }

  /** `SnapshotTree`: the alias check over the base tree and the checkout together, then each file. */
  method SnapshotTree(base: Files, checkout: Files, rules: Rules) returns (ok: bool)
    ensures ok <==> Snapshots(base, checkout, rules)
    ensures ok <==> CanonicalSet(base.Keys + checkout.Keys, rules) && Buildable(checkout.Keys, rules) && forall p :: p in checkout ==>
      |checkout[p].content| <= rules.limit && (checkout[p].mode == "120000" ==> rules.safeLink(p, checkout[p].content))
  {
    hide CanonicalSet, NoConflicts;
    ok := CanonicalizeSet(base.Keys + checkout.Keys, rules);
    if !ok { return; }
    var names := ListPaths(base.Keys + checkout.Keys);
    for i := 0 to |names|
      invariant forall p :: p in names[..i] && p in checkout ==> FileAccepted(p, checkout[p], rules)
    {
      var name := names[i];
      assert names[..i + 1] == names[..i] + [name] && name in Members(names);
      if name in checkout && !FileAccepted(name, checkout[name], rules) { return false; }
    }
    assert names[..|names|] == names;
    assert forall p :: p in checkout ==> p in Members(names) && p in names && FileAccepted(p, checkout[p], rules);
    ok := BuildTree(checkout.Keys, rules);
  }

  predicate FileAccepted(p: Path, file: FileState, rules: Rules) {
    |file.content| <= rules.limit && (file.mode == "120000" ==> rules.safeLink(p, file.content))
  }

  // ----- bundle.go -----

  datatype Captured = Captured(bundle: Bundle, objects: map<Hash, Content>)

  datatype Capturing = Refused | NoChanges | Sealed(captured: Captured)

  ghost predicate GitModes(files: Files) { forall p :: p in files ==> ValidMode(files[p].mode) }

  /** `readBaseFiles`. */
  method ReadBaseFiles(base: Files, rules: Rules) returns (ok: bool)
    ensures ok <==> CanonicalSet(base.Keys, rules) && Fits(base, rules.limit) && SafeTree(base, rules)
    ensures ok <==> CanonicalSet(base.Keys, rules) && forall p :: p in base ==>
      |base[p].content| <= rules.limit && (base[p].mode == "120000" ==> rules.safeLink(p, base[p].content))
  {
    hide CanonicalSet;
    ok := CanonicalizeSet(base.Keys, rules);
    if !ok { return; }
    var names := ListPaths(base.Keys);
    for i := 0 to |names|
      invariant forall p :: p in names[..i] && p in base ==> FileAccepted(p, base[p], rules)
    {
      var name := names[i];
      assert names[..i + 1] == names[..i] + [name] && name in Members(names);
      if !FileAccepted(name, base[name], rules) { return false; }
    }
    assert names[..|names|] == names;
    assert forall p :: p in base ==> p in Members(names) && p in names && FileAccepted(p, base[p], rules);
  }

  /** `Capture`: refuses exactly what cannot be read or snapshot, has nothing to capture when base and
      checkout are equal, and otherwise seals one valid bundle that depends on the two file maps only. */
  method Capture(base: Files, current: Files, attempt: string, baseCommit: string, baseTree: string, rules: Rules)
    returns (result: Capturing)
    requires ValidLabel(attempt) && ValidLabel(baseCommit) && ValidLabel(baseTree) && !rules.valid("")
    requires GitModes(base) && GitModes(current)
    ensures result.Refused? <==> !Capturable(base, current, rules)
    ensures result.NoChanges? <==> Capturable(base, current, rules) && base == current
    ensures result.Sealed? ==>
              && Sealing(base, current, result.captured)
              && ValidStructure(result.captured.bundle, rules.valid)
  {
    hide IsDiff, ValidStructure, ValidFiles, ValidLabel, Snapshots, CanonicalSet, SafeTree, Sealing;
    var ok := ReadBaseFiles(base, rules);
    if !ok { return Refused; }
    ok := SnapshotTree(base, current, rules);
    if !ok { return Refused; }
    var entries, objects := CompareFiles(base, current);
    EmptyIffUnchanged(base, current, entries);
    if entries == [] { return NoChanges; }
    var list := ObjectList(objects);
    var bundle := Bundle(VERSION, attempt, baseCommit, baseTree, entries, list);
    result := Sealed(Captured(bundle, objects));
    FilesAreValid(base, current, rules);
    CaptureIsValid(base, current, entries, objects, bundle, rules.valid);
    assert Sealing(base, current, result.captured) by { CapturedIsSealing(base, current, bundle, objects); }
  }

  /** The bundle and objects of the change. */
  ghost predicate Sealing(base: Files, current: Files, c: Captured) {
    && IsDiff(base, current, c.bundle.entries) && IsObjectSet(c.bundle.entries, c.objects)
    && IsObjectList(c.bundle.objects, c.objects)
  }

  lemma CapturedIsSealing(base: Files, current: Files, bundle: Bundle, objects: map<Hash, Content>)
    requires IsDiff(base, current, bundle.entries) && IsObjectSet(bundle.entries, objects) && IsObjectList(bundle.objects, objects)
    ensures Sealing(base, current, Captured(bundle, objects))
  {
  }

  lemma FilesAreValid(base: Files, current: Files, rules: Rules)
    requires GitModes(base) && GitModes(current) && Capturable(base, current, rules)
    ensures ValidFiles(base, rules.valid) && ValidFiles(current, rules.valid)
  {
  }

  // ----- replay.go -----

  /** `verifyBefore` with its cache of content hashes by blob. */
  method VerifyBefore(current: FileState, mode: string, hash: Hash, limit: nat, cache: map<Content, Hash>)
    returns (ok: bool, cached: map<Content, Hash>)
    requires CacheSound(cache, limit)
    ensures ok == Unchanged(current, mode, hash, limit) && CacheSound(cached, limit)
  {
    cached := cache;
    if current.mode != mode { return false, cached; }
    if current.content !in cached {
      if |current.content| > limit { return false, cached; }
      cached := cached[current.content := Sha256(current.content)];
    }
    ok := cached[current.content] == hash;
  }

  /** Cached blobs were readable under the limit and are hashed right. */
  predicate CacheSound(cache: map<Content, Hash>, limit: nat) {
    forall c :: c in cache ==> cache[c] == Sha256(c) && |c| <= limit
  }

  /** One round of the loop of `reconstructEntries`. */
  method ReplayEntry(e: Entry, objects: map<Hash, Content>, tree: Files, rules: Rules, built: Files, cache: map<Content, Hash>)
    returns (problem: Option<Problem>, after: Files, cached: map<Content, Hash>)
    requires CacheSound(cache, rules.limit)
    ensures problem == EntryProblem(e, objects, tree, rules) && CacheSound(cached, rules.limit)
    ensures problem.None? ==> after == Apply(e, objects, built)
  {
    problem, after, cached := None, built, cache;
    var same: bool;
    match e.kind {
      case Added =>
        if e.path in tree { return Some(Stale(e.path)), after, cached; }
      case Renamed =>
        if e.path in tree { return Some(Stale(e.path)), after, cached; }
        if e.pathBefore !in tree { return Some(Stale(e.pathBefore)), after, cached; }
        same, cached := VerifyBefore(tree[e.pathBefore], e.modeBefore, e.hashBefore, rules.limit, cached);
        if !same { return Some(Stale(e.pathBefore)), after, cached; }
        after := after - {e.pathBefore};
      case _ =>
        if e.path !in tree { return Some(Stale(e.path)), after, cached; }
        same, cached := VerifyBefore(tree[e.path], e.modeBefore, e.hashBefore, rules.limit, cached);
        if !same { return Some(Stale(e.path)), after, cached; }
        if e.kind == Deleted { return None, after - {e.path}, cached; }
    }
    var content := ContentOf(e.hashAfter, objects);
    if |content| > rules.limit { return Some(TooLarge), after, cached; }
    if e.modeAfter == "120000" && !rules.safeLink(e.path, content) { return Some(UnsafeLink(e.path)), after, cached; }
    after := after[e.path := FileState(e.modeAfter, content)];
  }

  lemma ChangedStep(done: seq<Path>, entries: seq<Entry>, i: nat)
    requires i <= |entries|
    ensures done + ChangedPaths(entries[i..]) ==
      if i == |entries| then done
      else done + [entries[i].path] + (if entries[i].pathBefore != "" then [entries[i].pathBefore] else []) + ChangedPaths(entries[i + 1..])
  {
    var rest := entries[i..];
    if i < |entries| {
      assert rest[0] == entries[i] && rest[1..] == entries[i + 1..];
    } else {
      assert done + [] == done;
    }
  }

  /** The paths `reconstructEntries` shows to the write policy. */
  method ListChanged(entries: seq<Entry>) returns (changed: seq<Path>)
    ensures changed == ChangedPaths(entries)
  {
    hide ChangedPaths;
    changed := [];
    assert entries[0..] == entries && [] + ChangedPaths(entries) == ChangedPaths(entries);
    for i := 0 to |entries|
      invariant changed + ChangedPaths(entries[i..]) == ChangedPaths(entries)
    {
      ChangedStep(changed, entries, i);
      changed := changed + [entries[i].path];
      if entries[i].pathBefore != "" { changed := changed + [entries[i].pathBefore]; }
    }
    ChangedStep(changed, entries, |entries|);
  }

  /** `matchesAny`. */
  method Matched(patterns: seq<seq<string>>, path: seq<string>) returns (matched: bool)
    ensures matched == MatchesAny(patterns, path)
  {
    for i := 0 to |patterns|
      invariant !exists j :: 0 <= j < i && MatchPath(patterns[j], path)
    {
      if MatchPath(patterns[i], path) { return true; }
    }
    matched := false;
  }

  /** `CheckWrite`: every path matches a write pattern and no deny pattern. */
  method CheckWrite(paths: seq<Path>, rules: Rules) returns (refused: bool)
    ensures refused <==> !WritablePaths(paths, rules)
    ensures refused <==> exists p :: (p in paths &&
      (MatchesAny(rules.policy.deny, Split(p, '/')) || !MatchesAny(rules.policy.write, Split(p, '/'))))
  {
    for i := 0 to |paths|
      invariant forall p :: p in paths[..i] ==> Allows(rules.policy, Split(p, '/'))
    {
      assert paths[..i + 1] == paths[..i] + [paths[i]];
      var denied := Matched(rules.policy.deny, Split(paths[i], '/'));
      if denied { return true; }
      var inside := Matched(rules.policy.write, Split(paths[i], '/'));
      if !inside { return true; }
    }
    assert paths[..|paths|] == paths;
    refused := false;
  }

  /** `reconstructEntries`: the loop over the bundle, stopping at the first problem. */
  method ReconstructEntries(entries: seq<Entry>, objects: map<Hash, Content>, tree: Files, rules: Rules) returns (result: Replayed)
    ensures result == Reconstruct(entries, objects, tree, rules)
  {
    hide EntryProblem, Apply, SafeTree, ChangedPaths, CacheSound, Canonical, CanonicalSet, WritablePaths;
    var changed := ListChanged(entries);
    var canonical := CheckPaths(changed, rules);
    if !canonical { return Failed(Collision); }
    var problem := CheckWrite(changed, rules);
    if problem { return Failed(PolicyViolation); }
    canonical := CanonicalizeSet(tree.Keys, rules);
    if !canonical { return Failed(TreeCollision); }
    if !SafeTree(tree, rules) { return Failed(UnsafeTree); }
    var after := tree;
    var cache: map<Content, Hash> := map[];
    EmptyCacheSound(rules.limit);
    for i := 0 to |entries|
      invariant CacheSound(cache, rules.limit)
      invariant FirstProblem(entries, objects, tree, rules) == FirstProblem(entries[i..], objects, tree, rules)
      invariant ApplyAll(entries, objects, tree) == ApplyAll(entries[i..], objects, after)
    {
      assert entries[i..][0] == entries[i] && entries[i..][1..] == entries[i + 1..];
      var stale: Option<Problem>;
      stale, after, cache := ReplayEntry(entries[i], objects, tree, rules, after, cache);
      if stale.Some? { return Failed(stale.value); }
    }
    return Rebuilt(after);
  }

  lemma RebuiltFromBundle(c: Captured, tree: Files, checkout: Files, rules: Rules)
    requires ReplayOf(c, tree, checkout, rules).Rebuilt?
    ensures ValidStructure(c.bundle, rules.valid) && ObjectsMatch(c) && WellNamed(c.bundle.entries)
    ensures Replay(c.bundle.entries, c.objects, tree, checkout, rules) == ReplayOf(c, tree, checkout, rules)
    ensures Reconstruct(c.bundle.entries, c.objects, tree, rules) == ReplayOf(c, tree, checkout, rules)
  {
    hide Reconstruct;
  }

  /** What is replayed from a bundle is the checkout, and differs from the tree within the write scope only and
      under no deny pattern. */
  lemma BundleInScope(
      norm: string -> string, write: seq<string>, deny: seq<string>, c: Captured, tree: Files, checkout: Files, rules: Rules)
    requires PolicyOf(norm, write, deny) == Some(rules.policy) && ReplayOf(c, tree, checkout, rules).Rebuilt?
    ensures var after := ReplayOf(c, tree, checkout, rules).tree;
      && after == checkout && after != tree
      && (forall p :: !SameAt(tree, after, p) ==>
            (exists s :: s in write && Covers(norm, s, Split(p, '/'))) && !(exists d :: d in deny && Covers(norm, d, Split(p, '/'))))
  {
    var after := ReplayOf(c, tree, checkout, rules).tree;
    RebuiltFromBundle(c, tree, checkout, rules);
    hide ReplayOf, Replay, Reconstruct, PolicyOf, Covers, ValidStructure, ObjectsMatch, SameAt, NoAliases, NoConflicts, PrefixesOf, Allows;
    ReplayedIsSafe(c.bundle.entries, c.objects, tree, checkout, rules);
    forall p | !SameAt(tree, after, p)
      ensures exists s :: s in write && Covers(norm, s, Split(p, '/'))
      ensures !exists d :: d in deny && Covers(norm, d, Split(p, '/'))
    {
      ReplayedWithinScope(norm, write, deny, c.bundle.entries, c.objects, tree, checkout, rules, p);
    }
  }

  /** Every entry of it was true of the tree and left a regular mode and the content its hash names. */
  lemma BundleAsStated(c: Captured, tree: Files, checkout: Files, rules: Rules, e: Entry)
    requires ReplayOf(c, tree, checkout, rules).Rebuilt? && e in c.bundle.entries
    ensures var after := ReplayOf(c, tree, checkout, rules).tree;
      FoundAsStated(e, tree) &&
      if e.kind == Deleted then e.path !in after
      else
        e.path in after && after[e.path].mode == e.modeAfter && ValidMode(e.modeAfter) &&
        Sha256(after[e.path].content) == e.hashAfter && (e.kind == Renamed ==> e.pathBefore !in after)
  {
    RebuiltFromBundle(c, tree, checkout, rules);
    hide ReplayOf, Replay, Reconstruct, ValidStructure, ObjectsMatch;
    RebuiltAsStated(c.bundle.entries, c.objects, tree, rules);
    if e.kind != Deleted { ObjectOfEntry(c, e, rules); }
  }

  lemma ObjectOfEntry(c: Captured, e: Entry, rules: Rules)
    requires ValidStructure(c.bundle, rules.valid) && ObjectsMatch(c) && e in c.bundle.entries && e.kind != Deleted
    ensures ValidMode(e.modeAfter) && Sha256(ContentOf(e.hashAfter, c.objects)) == e.hashAfter
  {
    assert ValidEntry(e, rules.valid) && RefersTo(e, c.bundle.objects);
    var o :| o in c.bundle.objects && o.ref == e.objectRef && o.hash == e.hashAfter;
    assert ObjectMatches(o, c.objects);
  }

  lemma EmptyCacheSound(limit: nat)
    ensures CacheSound(map[], limit)
  {
  }

  /** `validateCapturedObjects`. */
  method ValidateCapturedObjects(c: Captured) returns (ok: bool)
    ensures ok <==> ObjectsMatch(c)
    ensures ok <==> |c.objects| == |c.bundle.objects| && forall o :: o in c.bundle.objects ==>
      o.hash in c.objects && |c.objects[o.hash]| == o.length && Sha256(c.objects[o.hash]) == o.hash
  {
    if |c.objects| != |c.bundle.objects| { return false; }
    for i := 0 to |c.bundle.objects|
      invariant forall o :: o in c.bundle.objects[..i] ==> ObjectMatches(o, c.objects)
    {
      var o := c.bundle.objects[i];
      assert c.bundle.objects[..i + 1] == c.bundle.objects[..i] + [o];
      if !ObjectMatches(o, c.objects) { return false; }
    }
    assert c.bundle.objects[..|c.bundle.objects|] == c.bundle.objects;
    ok := true;
  }

  predicate ObjectMatches(o: PatchObject, objects: map<Hash, Content>) {
    o.hash in objects && |objects[o.hash]| == o.length && Sha256(objects[o.hash]) == o.hash
  }

  predicate ObjectsMatch(c: Captured) {
    |c.objects| == |c.bundle.objects| && forall o :: o in c.bundle.objects ==> ObjectMatches(o, c.objects)
  }

  /** The objects of a capture match its bundle. */
  lemma SealedObjectsMatch(base: Files, current: Files, c: Captured)
    requires Sealing(base, current, c)
    ensures ObjectsMatch(c)
  {
    var list := c.bundle.objects;
    forall o ensures o in Refs(list) <==> o in c.objects {
      if o in c.objects { assert PatchObject(o, o, |c.objects[o]|) in list; }
    }
    assert Refs(list) == c.objects.Keys;
    hide IsDiff, StrictlySortedBy;
    RefsCount(list);
    assert |c.objects| == |c.objects.Keys|;
  }

  ghost function ReplayOf(c: Captured, tree: Files, checkout: Files, rules: Rules): Replayed {
    if ValidStructure(c.bundle, rules.valid) && ObjectsMatch(c) then Replay(c.bundle.entries, c.objects, tree, checkout, rules)
    else Failed(InvalidBundle)
  }

  /** What `Capture` seals, `Replay` gives back: on its base and next to the unchanged checkout it yields
      exactly that checkout, unless the write policy forbids a changed path. */
  lemma SealedReplays(base: Files, current: Files, c: Captured, rules: Rules)
    requires Capturable(base, current, rules) && base != current && !rules.valid("")
    requires Sealing(base, current, c) && ValidStructure(c.bundle, rules.valid)
    ensures ReplayOf(c, base, current, rules) ==
      if MayChange(base, current, rules) then Rebuilt(current) else Failed(PolicyViolation)
  {
    hide IsDiff, IsObjectSet, IsObjectList, Capturable, ValidStructure, MayChange, Replay;
    SealedObjectsMatch(base, current, c);
    CaptureReplayRoundTrip(base, current, c.bundle.entries, c.objects, rules);
  }

  /** `Replay`: validation, snapshot, reconstruction, the checks on the rebuilt tree, and the comparison with
      the checkout. */
  method ReplayBundle(c: Captured, tree: Files, checkout: Files, rules: Rules) returns (result: Replayed)
    requires !rules.valid("")
    ensures result == ReplayOf(c, tree, checkout, rules)
  {
    hide ValidStructure, ObjectsMatch, Snapshots, Reconstruct, Buildable;
    var ok := ValidateStructure(c.bundle, rules.valid);
    if !ok { return Failed(InvalidBundle); }
    ok := ValidateCapturedObjects(c);
    if !ok { return Failed(InvalidBundle); }
    ok := SnapshotTree(tree, checkout, rules);
    if !ok { return Failed(BadCheckout); }
    result := ReconstructEntries(c.bundle.entries, c.objects, tree, rules);
    if result.Failed? { return; }
    ok := BuildTree(result.tree.Keys, rules);
    if !ok { return Failed(UnsafeReplay); }
    if result.tree == tree { return Failed(NoChange); }
    if result.tree != checkout { return Failed(CheckoutChanged); }
  }
}
