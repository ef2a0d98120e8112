/** Repository paths that are spelt alike: `CanonicalizePaths` of internal/scope/scope.go. `norm` stands
    for Unicode's normalisation to NFC, `fold` for its case folding and `valid` for the paths
    `NormalizeRepositoryPath` admits. */
module Aliases {
  import opened Text

  type Path = string

  /** The directories on the way to a path, and the path itself: its first i + 1 segments. */
  function Prefix(p: Path, i: nat): string
    requires i < |Split(p, '/')|
  {
    Join(Split(p, '/')[..i + 1], '/')
  }

  function PrefixesOf(paths: set<Path>): set<string> {
    set p, i | p in paths && 0 <= i < |Split(p, '/')| :: Prefix(p, i)
  }

  /** No two different prefixes fold to the same spelling. */
  predicate NoAliases(prefixes: set<string>, fold: string -> string) {
    forall x, y :: x in prefixes && y in prefixes && fold(x) == fold(y) ==> x == y
  }

  ghost predicate Distinct(paths: seq<Path>) {
    forall i, j :: 0 <= i < j < |paths| ==> paths[i] != paths[j]
  }

  function Members(paths: seq<Path>): set<Path> { set p | p in paths }

  /** What `CanonicalizePaths` accepts among paths in normal form. */
  ghost predicate Canonical(paths: seq<Path>, fold: string -> string, valid: Path -> bool) {
    (forall p :: p in paths ==> valid(p)) && Distinct(paths) && NoAliases(PrefixesOf(Members(paths)), fold)
  }

  // ----- paths in any spelling -----

  /** Normalising joins or separates no segments. */
  ghost predicate KeepsSegments(norm: string -> string) {
    forall p :: |Split(norm(p), '/')| == |Split(p, '/')|
  }

  /** The prefixes of the paths, each in normal form and as it was spelt. */
  function Spellings(paths: set<Path>, norm: string -> string): set<(string, string)>
    requires KeepsSegments(norm)
  {
    set p, i | p in paths && 0 <= i < |Split(p, '/')| :: (Prefix(norm(p), i), Prefix(p, i))
  }

  /** No prefix is spelt in two ways, and no two prefixes in normal form fold alike. */
  predicate Apart(spellings: set<(string, string)>, fold: string -> string) {
    forall x, y :: x in spellings && y in spellings ==>
      (x.0 == y.0 ==> x.1 == y.1) && (fold(x.0) == fold(y.0) ==> x.0 == y.0)
  }

  /** What `CanonicalizePaths` accepts. */
  ghost predicate Unambiguous(paths: seq<Path>, norm: string -> string, fold: string -> string, valid: Path -> bool)
    requires KeepsSegments(norm)
  {
    (forall p :: p in paths ==> valid(p)) && (forall i, j :: 0 <= i < j < |paths| ==> norm(paths[i]) != norm(paths[j])) &&
    Apart(Spellings(Members(paths), norm), fold)
  }

  /** On paths in normal form only the case folding matters. */
  lemma NormalFormsApart(paths: seq<Path>, norm: string -> string, fold: string -> string, valid: Path -> bool)
    requires KeepsSegments(norm) && forall p :: p in paths ==> norm(p) == p
    ensures Unambiguous(paths, norm, fold, valid) <==> Canonical(paths, fold, valid)
  {
    var members := Members(paths);
    hide Prefix, KeepsSegments;
    assert forall p :: p in members ==> norm(p) == p;
    assert forall x :: x in Spellings(members, norm) ==> x.0 == x.1 && x.0 in PrefixesOf(members);
    forall x | x in PrefixesOf(members) ensures (x, x) in Spellings(members, norm) {
      var p, i :| p in members && 0 <= i < |Split(p, '/')| && Prefix(p, i) == x;
      assert (Prefix(norm(p), i), Prefix(p, i)) in Spellings(members, norm);
    }
  }

  /** The prefixes seen so far: the spelling of each, and by folded spelling the one that has it. */
  predicate Recorded(canonical: map<string, string>, folded: map<string, string>, spellings: set<(string, string)>, fold: string -> string) {
    (forall x :: x in spellings ==>
      x.0 in canonical && canonical[x.0] == x.1 && fold(x.0) in folded && folded[fold(x.0)] == x.0) &&
    (forall k :: k in canonical ==> (k, canonical[k]) in spellings) &&
    (forall f :: f in folded ==> folded[f] in canonical && fold(folded[f]) == f)
  }

  lemma RecordedApart(canonical: map<string, string>, folded: map<string, string>, spellings: set<(string, string)>, fold: string -> string)
    requires Recorded(canonical, folded, spellings, fold)
    ensures Apart(spellings, fold)
  {
  }

  /** `CanonicalizePaths`. */
  method CanonicalizePaths(values: seq<Path>, norm: string -> string, fold: string -> string, valid: Path -> bool)
    returns (ok: bool)
    requires KeepsSegments(norm)
    ensures ok <==> Unambiguous(values, norm, fold, valid)
  {
    hide Prefix, Apart, Recorded, KeepsSegments;
    var normal: set<Path> := {};
    var canonical: map<string, string>, folded: map<string, string> := map[], map[];
    ghost var done: set<Path> := {};
    NothingRecorded(norm, fold);
    for i := 0 to |values|
      invariant done == Members(values[..i]) && forall p :: p in values[..i] ==> valid(p)
      invariant forall p :: p in normal <==> exists j :: 0 <= j < i && norm(values[j]) == p
      invariant forall j, k :: 0 <= j < k < i ==> norm(values[j]) != norm(values[k])
      invariant Recorded(canonical, folded, Spellings(done, norm), fold)
    {
      var value := values[i];
      assert values[..i + 1] == values[..i] + [value] && value in values;
      if !valid(value) || norm(value) in normal { return false; }
      ok, canonical, folded := AddPrefixes(value, done, canonical, folded, norm, fold);
      if !ok {
        MoreSpellings(done + {value}, Members(values), norm, fold);
        return false;
      }
      normal := normal + {norm(value)};
      done := done + {value};
    }
    assert values[..|values|] == values;
    RecordedApart(canonical, folded, Spellings(done, norm), fold);
    ok := true;
  }

  lemma NothingRecorded(norm: string -> string, fold: string -> string)
    requires KeepsSegments(norm)
    ensures Recorded(map[], map[], Spellings({}, norm), fold)
  {
  }

  /** The inner loop: the prefixes of one path. */
  method AddPrefixes(
      value: Path, ghost done: set<Path>, canonicalBefore: map<string, string>, foldedBefore: map<string, string>,
      norm: string -> string, fold: string -> string)
    returns (ok: bool, canonical: map<string, string>, folded: map<string, string>)
    requires KeepsSegments(norm) && Recorded(canonicalBefore, foldedBefore, Spellings(done, norm), fold)
    ensures ok ==> Recorded(canonical, folded, Spellings(done + {value}, norm), fold)
    ensures !ok ==> !Apart(Spellings(done + {value}, norm), fold)
  {
    hide Prefix, Recorded, Apart, Spellings, FirstSpellings;
    canonical, folded := canonicalBefore, foldedBefore;
    ghost var all := Spellings(done + {value}, norm);
    ghost var seen := Spellings(done, norm);
    SpellingsWith(done, value, norm);
    var count := |Split(value, '/')|;
    assert |Split(norm(value), '/')| == count;
    hide KeepsSegments, Split;
    NoSpellings(value, norm);
    for k := 0 to count
      invariant Recorded(canonical, folded, seen, fold)
      invariant seen == Spellings(done, norm) + FirstSpellings(value, norm, k)
    {
      var raw, prefix := Prefix(value, k), Prefix(norm(value), k);
      OneMoreSpelling(value, norm, k);
      assert seen <= all && (prefix, raw) in all;
      if (prefix in canonical && canonical[prefix] != raw) || (fold(prefix) in folded && folded[fold(prefix)] != prefix) {
        Clash(canonical, folded, seen, all, prefix, raw, fold);
        return false, canonical, folded;
      }
      RecordOne(canonical, folded, seen, prefix, raw, fold);
      canonical, folded := canonical[prefix := raw], folded[fold(prefix) := prefix];
      seen := seen + {(prefix, raw)};
    }
    assert seen == all;
    ok := true;
  }

  lemma SpellingsWith(done: set<Path>, value: Path, norm: string -> string)
    requires KeepsSegments(norm)
    ensures Spellings(done + {value}, norm) ==
      Spellings(done, norm) + FirstSpellings(value, norm, |Split(value, '/')|)
  {
    hide Prefix, KeepsSegments;
  }

  /** Those of the first k prefixes of one path. */
  ghost function FirstSpellings(value: Path, norm: string -> string, k: nat): set<(string, string)>
    requires k <= |Split(value, '/')| == |Split(norm(value), '/')|
  {
    set i | 0 <= i < k :: (Prefix(norm(value), i), Prefix(value, i))
  }

  lemma NoSpellings(value: Path, norm: string -> string)
    requires |Split(value, '/')| == |Split(norm(value), '/')|
    ensures FirstSpellings(value, norm, 0) == {}
  {
  }

  lemma OneMoreSpelling(value: Path, norm: string -> string, k: nat)
    requires k < |Split(value, '/')| == |Split(norm(value), '/')|
    ensures FirstSpellings(value, norm, k + 1) ==
      FirstSpellings(value, norm, k) + {(Prefix(norm(value), k), Prefix(value, k))}
    ensures FirstSpellings(value, norm, k + 1) <= FirstSpellings(value, norm, |Split(value, '/')|)
  {
    hide Prefix;
  }

  lemma Clash(
      canonical: map<string, string>, folded: map<string, string>, seen: set<(string, string)>, all: set<(string, string)>,
      prefix: string, raw: string, fold: string -> string)
    requires Recorded(canonical, folded, seen, fold) && seen <= all && (prefix, raw) in all
    requires (prefix in canonical && canonical[prefix] != raw) || (fold(prefix) in folded && folded[fold(prefix)] != prefix)
    ensures !Apart(all, fold)
  {
    if prefix in canonical && canonical[prefix] != raw {
      assert (prefix, canonical[prefix]) in all;
    } else {
      var other := folded[fold(prefix)];
      assert (other, canonical[other]) in all && fold(other) == fold(prefix);
    }
  }

  lemma RecordOne(
      canonical: map<string, string>, folded: map<string, string>, seen: set<(string, string)>,
      prefix: string, raw: string, fold: string -> string)
    requires Recorded(canonical, folded, seen, fold)
    requires prefix in canonical ==> canonical[prefix] == raw
    requires fold(prefix) in folded ==> folded[fold(prefix)] == prefix
    ensures Recorded(canonical[prefix := raw], folded[fold(prefix) := prefix], seen + {(prefix, raw)}, fold)
  {
  }

  lemma MoreSpellings(few: set<Path>, many: set<Path>, norm: string -> string, fold: string -> string)
    requires KeepsSegments(norm) && few <= many && !Apart(Spellings(few, norm), fold)
    ensures !Apart(Spellings(many, norm), fold)
  {
    hide Prefix;
    assert Spellings(few, norm) <= Spellings(many, norm);
  }

  // ----- files and directories -----

  /** No path is a directory on the way to another one. */
  predicate NoConflicts(paths: set<Path>) {
    forall p, i :: p in paths && 0 <= i < |Split(p, '/')| - 1 ==> Prefix(p, i) !in paths
  }

  /** A path is its own last prefix. */
  lemma LastPrefix(p: Path)
    ensures |Split(p, '/')| >= 1 && Prefix(p, |Split(p, '/')| - 1) == p
  {
    JoinSplit(p, '/');
    var parts := Split(p, '/');
    assert parts[..|parts|] == parts;
  }
}
