/** Well-formedness of a bundle (internal/protocol/m2.go): the validating loops, what they decide, and
    why every capture passes them. */
module PatchBundle {
  import opened Ordering
  import opened Aliases
  import opened GitCommit
  import opened Patch

  const VERSION := "xgoal.patch-bundle/v1alpha1"

  datatype PatchObject = PatchObject(ref: Hash, hash: Hash, length: int)

  datatype Bundle = Bundle(
    version: string, attempt: string, baseCommit: string, baseTree: string,
    entries: seq<Entry>, objects: seq<PatchObject>)

  predicate ValidMode(mode: string) { mode == "100644" || mode == "100755" || mode == "120000" }

  /** `validatePatchEntry`. */
  predicate ValidEntry(e: Entry, safePath: Path -> bool) {
    && (e.pathBefore != "" ==> safePath(e.pathBefore))
    && (match e.kind
        case Added => e.pathBefore == "" && e.modeBefore == "" && e.hashBefore == NoHash
                      && ValidMode(e.modeAfter) && e.hashAfter != NoHash && e.objectRef != NoHash
        case Modified => e.pathBefore == "" && ValidMode(e.modeBefore) && ValidMode(e.modeAfter)
                         && e.hashBefore != NoHash && e.hashAfter != NoHash && e.objectRef != NoHash
        case Deleted => e.pathBefore == "" && ValidMode(e.modeBefore) && e.hashBefore != NoHash
                        && e.modeAfter == "" && e.hashAfter == NoHash && e.objectRef == NoHash
        case Renamed => e.pathBefore != "" && e.pathBefore != e.path && ValidMode(e.modeBefore) && ValidMode(e.modeAfter)
                        && e.hashBefore != NoHash && e.hashAfter != NoHash && e.objectRef != NoHash)
    && (e.objectRef != NoHash ==> e.objectRef == e.hashAfter)
  }

  /** Order of object references; the bytes of the content stand in for the hex digest. */
  function HashKey(h: Hash): seq<int> { if h == NoHash then [] else [0] + Codes(h.content) }

  function ObjectKey(o: PatchObject): seq<int> { HashKey(o.ref) }

  predicate ValidObject(o: PatchObject) { o.hash != NoHash && o.ref == o.hash && o.length >= 0 }

  ghost predicate ValidObjects(objects: seq<PatchObject>) {
    (forall o :: o in objects ==> ValidObject(o)) && StrictlySortedBy(objects, ObjectKey)
  }

  ghost predicate ValidEntries(entries: seq<Entry>, objects: seq<PatchObject>, safePath: Path -> bool) {
    && StrictlySortedBy(entries, EntryKey)
    && (forall e :: e in entries ==> safePath(e.path) && ValidEntry(e, safePath) && RefersTo(e, objects))
  }

  /** The object an entry refers to is present and carries its hash. */
  ghost predicate RefersTo(e: Entry, objects: seq<PatchObject>) {
    e.objectRef != NoHash ==> exists o :: o in objects && o.ref == e.objectRef && o.hash == e.hashAfter
  }

  /** Every object is referred to by an entry. */
  ghost predicate AllUsed(entries: seq<Entry>, objects: seq<PatchObject>) {
    forall o :: o in objects ==> exists e :: e in entries && e.objectRef == o.ref
  }

  predicate ValidHeader(b: Bundle) {
    b.version == VERSION && ValidLabel(b.attempt) && ValidLabel(b.baseCommit) && ValidLabel(b.baseTree) && b.entries != []
  }

  const GIT_MODES := {"100644", "100755", "120000"}

  /** A file as Git keeps it. */
  predicate GitFile(f: FileState) { f.mode in GIT_MODES }

  /** The validation accepts exactly the entries of the four forms a capture builds, at safe paths and with regular
      modes. It does not ask whether a modification modifies anything or a rename keeps the content. */
  lemma ValidEntryExactly(e: Entry, safePath: Path -> bool)
    requires !safePath("")
    ensures safePath(e.path) && ValidEntry(e, safePath) <==>
      safePath(e.path) &&
      match e.kind
      case Added => exists f: FileState :: GitFile(f) && e == AddedEntry(e.path, f)
      case Deleted => exists f: FileState :: GitFile(f) && e == DeletedEntry(e.path, f)
      case Modified => exists f: FileState, g: FileState :: GitFile(f) && GitFile(g) && e == ModifiedEntry(e.path, f, g)
      case Renamed =>
        safePath(e.pathBefore) && e.pathBefore != e.path &&
        exists f: FileState, g: FileState :: GitFile(f) && GitFile(g) && e == RenamedEntry(e.pathBefore, e.path, f, g)
  {
    if ValidEntry(e, safePath) {
      var before := FileState(e.modeBefore, if e.hashBefore.Sha256? then e.hashBefore.content else "");
      var after := FileState(e.modeAfter, if e.hashAfter.Sha256? then e.hashAfter.content else "");
      match e.kind {
        case Added => assert GitFile(after) && e == AddedEntry(e.path, after);
        case Deleted => assert GitFile(before) && e == DeletedEntry(e.path, before);
        case Modified => assert GitFile(before) && GitFile(after) && e == ModifiedEntry(e.path, before, after);
        case Renamed => assert GitFile(before) && GitFile(after) && e == RenamedEntry(e.pathBefore, e.path, before, after);
      }
    }
  }

  /** And exactly the object records that name a content by its hash twice, with a length. */
  lemma ValidObjectExactly(o: PatchObject)
    ensures ValidObject(o) <==> exists c: Content, n: nat :: o == PatchObject(Sha256(c), Sha256(c), n)
  {
    if ValidObject(o) { assert o == PatchObject(Sha256(o.hash.content), Sha256(o.hash.content), o.length); }
  }

  /** What a structurally valid bundle is. */
  ghost predicate ValidStructure(b: Bundle, safePath: Path -> bool) {
    && ValidHeader(b) && ValidObjects(b.objects)
    && ValidEntries(b.entries, b.objects, safePath) && AllUsed(b.entries, b.objects)
  }

  lemma {:induction false} ExtendStrict<T>(s: seq<T>, x: T, key: T -> seq<int>)
    requires StrictlySortedBy(s, key)
    requires s != [] ==> LexLess(key(s[|s| - 1]), key(x))
    ensures StrictlySortedBy(s + [x], key)
  {
    forall i | 0 <= i < |s| ensures LexLess(key(s[i]), key(x)) {
      if i < |s| - 1 { LexTransitive(key(s[i]), key(s[|s| - 1]), key(x)); }
    }
  }

  lemma {:induction false} HashKeyInjective(a: Hash, b: Hash)
    requires HashKey(a) == HashKey(b)
    ensures a == b
  {
    if a != NoHash && b != NoHash {
      assert HashKey(a)[1..] == Codes(a.content) && HashKey(b)[1..] == Codes(b.content);
      CodesInjective(a.content, b.content);
    }
  }

  function Refs(objects: seq<PatchObject>): set<Hash> { set o | o in objects :: o.ref }

  /** Distinct references are as many as the objects. */
  lemma {:induction false} RefsCount(objects: seq<PatchObject>)
    requires StrictlySortedBy(objects, ObjectKey)
    ensures |Refs(objects)| == |objects|
  {
    if objects != [] {
      var last, front := objects[|objects| - 1], objects[..|objects| - 1];
      RefsCount(front);
      StrictImpliesDistinct(objects, ObjectKey);
      assert last.ref !in Refs(front);
      assert objects == front + [last];
      assert Refs(objects) == Refs(front) + {last.ref};
    }
  }

  lemma SubsetCount(a: set<Hash>, b: set<Hash>)
    requires a <= b
    ensures |a| <= |b| && (|a| == |b| ==> a == b)
  {
    assert b == a + (b - a);
    assert |b| == |a| + |b - a|;
  }

  /** `validateStructure`: object loop, entry loop, and the counting check for unreferenced objects. */
  method ValidateStructure(b: Bundle, safePath: Path -> bool) returns (ok: bool)
    requires !safePath("")
    ensures ok <==> ValidStructure(b, safePath)
  {
    hide ValidHeader, ValidObjects, ValidEntries, AllUsed, ValidObject, Refs;
    if !ValidHeader(b) { return false; }
    var objectByRef: map<Hash, PatchObject>;
    ok, objectByRef := ValidateObjects(b.objects);
    if !ok { return false; }
    var used: set<Hash>;
    ok, used := ValidateEntries(b.entries, b.objects, objectByRef, safePath);
    if !ok { return false; }
    CountingCheck(b.entries, b.objects, used);
    return |used| == |b.objects|;
  }

  /** Comparing the number of used references with the number of objects detects unreferenced objects. */
  lemma CountingCheck(entries: seq<Entry>, objects: seq<PatchObject>, used: set<Hash>)
    requires ValidObjects(objects) && used <= Refs(objects)
    requires forall h :: h in used <==> h != NoHash && exists e :: e in entries && e.objectRef == h
    ensures |used| == |objects| <==> AllUsed(entries, objects)
  {
    RefsCount(objects);
    SubsetCount(used, Refs(objects));
    if used == Refs(objects) {
      forall o | o in objects ensures exists e :: e in entries && e.objectRef == o.ref {
        assert o.ref in Refs(objects);
      }
    }
    if AllUsed(entries, objects) {
      forall h | h in Refs(objects) ensures h in used {
        var o :| o in objects && o.ref == h;
        assert ValidObject(o);
      }
    }
  }

  method ValidateObjects(objects: seq<PatchObject>) returns (ok: bool, objectByRef: map<Hash, PatchObject>)
    ensures ok <==> ValidObjects(objects)
    ensures ok ==> forall h :: h in objectByRef <==> h in Refs(objects)
    ensures ok ==> forall h :: h in objectByRef ==> objectByRef[h] in objects && objectByRef[h].ref == h
  {
    objectByRef := map[];
    var previous := NoHash;
    for i := 0 to |objects|
      invariant ValidObjects(objects[..i])
      invariant previous == if i == 0 then NoHash else objects[i - 1].ref
      invariant forall h :: h in objectByRef <==> h in Refs(objects[..i])
      invariant forall h :: h in objectByRef ==> objectByRef[h] in objects && objectByRef[h].ref == h
    {
      var o := objects[i];
      assert objects[..i + 1] == objects[..i] + [o];
      if !ValidObject(o) { return false, objectByRef; }
      if previous != NoHash && !LexLess(HashKey(previous), HashKey(o.ref)) {
        assert !StrictlySortedBy(objects, ObjectKey) by { assert !LexLess(ObjectKey(objects[i - 1]), ObjectKey(objects[i])); }
        return false, objectByRef;
      }
      ExtendStrict(objects[..i], o, ObjectKey);
      previous := o.ref;
      objectByRef := objectByRef[o.ref := o];
      forall h ensures h in Refs(objects[..i + 1]) <==> h in Refs(objects[..i]) || h == o.ref {}
    }
    assert objects[..|objects|] == objects;
    return true, objectByRef;
  }

  method ValidateEntries(entries: seq<Entry>, objects: seq<PatchObject>, objectByRef: map<Hash, PatchObject>, safePath: Path -> bool)
    returns (ok: bool, used: set<Hash>)
    requires !safePath("") && ValidObjects(objects)
    requires forall h :: h in objectByRef <==> h in Refs(objects)
    requires forall h :: h in objectByRef ==> objectByRef[h] in objects && objectByRef[h].ref == h
    ensures ok <==> ValidEntries(entries, objects, safePath)
    ensures ok ==> used <= Refs(objects)
    ensures ok ==> forall h :: h in used <==> h != NoHash && exists e :: e in entries && e.objectRef == h
  {
    hide ValidEntry, StrictlySortedBy, RefersTo, ValidEntries;
    used := {};
    var previous := "";
    NoEntries(objects, safePath);
    assert entries[..0] == [];
    for i := 0 to |entries|
      invariant ValidEntries(entries[..i], objects, safePath)
      invariant previous == if i == 0 then "" else entries[i - 1].path
      invariant used <= Refs(objects)
      invariant forall h :: h in used <==> h != NoHash && exists e :: e in entries[..i] && e.objectRef == h
    {
      var e := entries[i];
      assert entries[..i + 1] == entries[..i] + [e];
      OneMoreEntry(entries, i, objects, safePath);
      ReferenceLookup(e, objects, objectByRef);
      if !safePath(e.path) { return false, used; }
      if previous != "" && !LexLess(Codes(previous), Codes(e.path)) { return false, used; }
      previous := e.path;
      if !ValidEntry(e, safePath) { return false, used; }
      if e.objectRef != NoHash {
        if e.objectRef !in objectByRef || objectByRef[e.objectRef].hash != e.hashAfter { return false, used; }
        used := used + {e.objectRef};
      }
    }
    assert entries[..|entries|] == entries;
    return true, used;
  }

  lemma NoEntries(objects: seq<PatchObject>, safePath: Path -> bool)
    ensures ValidEntries([], objects, safePath)
  {
  }

  /** The checks on one entry are what validity of the list asks of it beyond the entries before it. */
  lemma OneMoreEntry(entries: seq<Entry>, i: nat, objects: seq<PatchObject>, safePath: Path -> bool)
    requires i < |entries| && ValidEntries(entries[..i], objects, safePath) && !safePath("")
    ensures
      var e := entries[i];
      var inOrder := i == 0 || entries[i - 1].path == "" || LexLess(Codes(entries[i - 1].path), Codes(e.path));
      var ok := safePath(e.path) && inOrder && ValidEntry(e, safePath) && RefersTo(e, objects);
      (ok ==> ValidEntries(entries[..i] + [e], objects, safePath)) && (!ok ==> !ValidEntries(entries, objects, safePath))
  {
    hide ValidEntry, RefersTo;
    var e := entries[i];
    assert e in entries;
    if i > 0 {
      assert entries[i - 1] in entries[..i];
      assert StrictlySortedBy(entries, EntryKey) ==> LexLess(EntryKey(entries[i - 1]), EntryKey(e));
    }
    if i == 0 || LexLess(Codes(entries[i - 1].path), Codes(e.path)) {
      ExtendStrict(entries[..i], e, EntryKey);
    }
  }

  /** Looking the reference up in the map finds the object exactly when the list holds it. */
  lemma ReferenceLookup(e: Entry, objects: seq<PatchObject>, objectByRef: map<Hash, PatchObject>)
    requires ValidObjects(objects)
    requires forall h :: h in objectByRef <==> h in Refs(objects)
    requires forall h :: h in objectByRef ==> objectByRef[h] in objects && objectByRef[h].ref == h
    ensures RefersTo(e, objects) <==>
              (e.objectRef != NoHash ==> e.objectRef in objectByRef && objectByRef[e.objectRef].hash == e.hashAfter)
  {
    forall o | o in objects && o.ref == e.objectRef
      ensures e.objectRef in objectByRef && o.hash == objectByRef[e.objectRef].hash
    {
      assert o.ref in Refs(objects);
      assert ValidObject(objectByRef[e.objectRef]) && ValidObject(o);
    }
  }

  // ----- captures are well formed -----

  predicate ValidFiles(files: Files, safePath: Path -> bool) {
    forall p :: p in files ==> safePath(p) && ValidMode(files[p].mode)
  }

  /** The object list of a capture: one per object, sorted by reference. */
  ghost predicate IsObjectList(list: seq<PatchObject>, objects: map<Hash, Content>) {
    && StrictlySortedBy(list, ObjectKey)
    && (forall o :: o in list <==> o.ref in objects && o == PatchObject(o.ref, o.ref, |objects[o.ref]|))
  }

  /** For safe paths and known modes every non-empty capture passes `validateStructure`, the check for
      unreferenced objects included. */
  lemma CaptureIsValid(base: Files, current: Files, entries: seq<Entry>, objects: map<Hash, Content>, b: Bundle, safePath: Path -> bool)
    requires IsDiff(base, current, entries) && IsObjectSet(entries, objects)
    requires ValidFiles(base, safePath) && ValidFiles(current, safePath) && !safePath("")
    requires b.entries == entries && IsObjectList(b.objects, objects)
    requires b.version == VERSION && ValidLabel(b.attempt) && ValidLabel(b.baseCommit) && ValidLabel(b.baseTree)
    requires base != current
    ensures ValidStructure(b, safePath)
  {
    EmptyIffUnchanged(base, current, entries);
    forall e | e in entries
      ensures safePath(e.path) && ValidEntry(e, safePath)
      ensures RefersTo(e, b.objects)
    {
      DescribedIsValid(base, current, e, safePath);
      if e.objectRef != NoHash {
        assert e.objectRef in objects;
        var o := PatchObject(e.objectRef, e.objectRef, |objects[e.objectRef]|);
        assert o in b.objects;
      }
    }
    forall o | o in b.objects
      ensures ValidObject(o) && exists e :: e in b.entries && e.objectRef == o.ref
    {
      assert o.ref in objects;
    }
  }

  lemma DescribedIsValid(base: Files, current: Files, e: Entry, safePath: Path -> bool)
    requires Describes(base, current, e)
    requires ValidFiles(base, safePath) && ValidFiles(current, safePath) && !safePath("")
    ensures safePath(e.path) && ValidEntry(e, safePath)
    ensures e.objectRef != NoHash ==> e.objectRef == e.hashAfter
  {
  }
}
