/** Compiled write policies: patterns and what they allow (internal/scope/scope.go). `norm` stands for
    Unicode's normalisation to NFC. */
module Scopes {
  import opened Ordering
  import opened Text
  import opened Globs

  function TrimPrefix(s: string): string { if s != "" && s[0] == '/' then s[1..] else s }

  function Segments(scope: string): seq<string> { Split(TrimPrefix(scope), '/') }

  predicate DoubleStar(p: string) { exists i :: 0 <= i < |p| - 1 && p[i] == '*' && p[i + 1] == '*' }

  predicate CompilesSegment(p: string) {
    p != "" && p != "." && p != ".." && (p == "**" || (!DoubleStar(p) && Tokens(p).Some?))
  }

  /** `compilePattern`: the segments of the pattern in normal form. */
  function CompilePattern(norm: string -> string, value: string): Option<seq<string>> {
    if value == "" || value[0] != '/' || ContainsAny(value, "\\\r\n\0") then None
    else
      var canonical := norm(value);
      if canonical != "/" && HasSuffix(canonical, "/") then None
      else
        var segments := if canonical == "/" then [] else Segments(canonical);
        if AllSegmentsCompile(segments) then Some(segments) else None
  }

  predicate AllSegmentsCompile(segments: seq<string>) {
    forall i :: 0 <= i < |segments| ==> CompilesSegment(segments[i])
  }

  /** The path is covered by the one pattern. */
  predicate Covers(norm: string -> string, scope: string, path: seq<string>) {
    CompilePattern(norm, scope).Some? && MatchPath(CompilePattern(norm, scope).value, path)
  }

  /** A compiled policy; deny patterns win. */
  datatype Policy = Policy(write: seq<seq<string>>, deny: seq<seq<string>>)

  predicate MatchesAny(patterns: seq<seq<string>>, path: seq<string>) {
    exists i :: 0 <= i < |patterns| && MatchPath(patterns[i], path)
  }

  predicate Allows(policy: Policy, path: seq<string>) {
    !MatchesAny(policy.deny, path) && MatchesAny(policy.write, path)
  }

  /** All patterns compile, and no two to the same one. */
  predicate AllCompile(norm: string -> string, values: seq<string>) {
    (forall i :: 0 <= i < |values| ==> CompilePattern(norm, values[i]).Some?) &&
    (forall i, j :: 0 <= i < j < |values| ==> norm(values[i]) != norm(values[j]))
  }

  predicate Compiled(norm: string -> string, values: seq<string>, patterns: seq<seq<string>>) {
    |patterns| == |values| && forall i :: 0 <= i < |values| ==> CompilePattern(norm, values[i]) == Some(patterns[i])
  }

  function PatternsOf(norm: string -> string, values: seq<string>): (patterns: seq<seq<string>>)
    requires AllCompile(norm, values)
    ensures Compiled(norm, values, patterns)
  {
    seq(|values|, i requires 0 <= i < |values| => CompilePattern(norm, values[i]).value)
  }

  /** `compilePatterns`. */
  method CompilePatterns(norm: string -> string, values: seq<string>) returns (result: Option<seq<seq<string>>>)
    ensures result.Some? <==> AllCompile(norm, values)
    ensures result.Some? ==> result.value == PatternsOf(norm, values)
  {
    hide CompilePattern;
    var patterns: seq<seq<string>> := [];
    var seen: set<string> := {};
    for i := 0 to |values|
      invariant AllCompile(norm, values[..i]) && Compiled(norm, values[..i], patterns)
      invariant forall s :: s in seen <==> exists j :: 0 <= j < i && norm(values[j]) == s
    {
      var compiled := CompilePattern(norm, values[i]);
      if compiled.None? || norm(values[i]) in seen { return None; }
      seen := seen + {norm(values[i])};
      patterns := patterns + [compiled.value];
    }
    assert values[..|values|] == values;
    return Some(patterns);
  }

  function PolicyOf(norm: string -> string, write: seq<string>, deny: seq<string>): Option<Policy> {
    if write != [] && AllCompile(norm, write) && AllCompile(norm, deny)
    then Some(Policy(PatternsOf(norm, write), PatternsOf(norm, deny))) else None
  }

  /** `NewPolicy`. */
  method NewPolicy(norm: string -> string, write: seq<string>, deny: seq<string>) returns (policy: Option<Policy>)
    ensures policy == PolicyOf(norm, write, deny)
  {
    if write == [] { return None; }
    var compiled := CompilePatterns(norm, write);
    if compiled.None? { return None; }
    var denied := CompilePatterns(norm, deny);
    if denied.None? { return None; }
    return Some(Policy(compiled.value, denied.value));
  }

  lemma MatchesExactly(norm: string -> string, values: seq<string>, path: seq<string>)
    requires AllCompile(norm, values)
    ensures MatchesAny(PatternsOf(norm, values), path) <==> exists s :: s in values && Covers(norm, s, path)
  {
    var patterns := PatternsOf(norm, values);
    if MatchesAny(patterns, path) {
      var i :| 0 <= i < |patterns| && MatchPath(patterns[i], path);
      assert CompilePattern(norm, values[i]) == Some(patterns[i]);
      assert values[i] in values && Covers(norm, values[i], path);
    }
    if s :| s in values && Covers(norm, s, path) {
      var i :| 0 <= i < |values| && values[i] == s;
      assert CompilePattern(norm, values[i]) == Some(patterns[i]);
    }
  }

  /** A policy allows exactly the paths that one of its write scopes covers and none of its deny scopes. */
  lemma AllowsExactly(norm: string -> string, write: seq<string>, deny: seq<string>, path: seq<string>)
    requires PolicyOf(norm, write, deny).Some?
    ensures Allows(PolicyOf(norm, write, deny).value, path) <==>
      (exists s :: s in write && Covers(norm, s, path)) && !(exists d :: d in deny && Covers(norm, d, path))
  {
    hide AllCompile, Covers, MatchesAny;
    MatchesExactly(norm, write, path);
    MatchesExactly(norm, deny, path);
  }

  /** Nothing is denied without deny patterns; there is no policy without a write pattern. */
  lemma PolicyExists(norm: string -> string, write: seq<string>, deny: seq<string>)
    ensures PolicyOf(norm, write, deny).Some? <==>
      write != [] &&
      (forall s :: s in write + deny ==> CompilePattern(norm, s).Some?) &&
      (forall i, j :: 0 <= i < j < |write| ==> norm(write[i]) != norm(write[j])) &&
      (forall i, j :: 0 <= i < j < |deny| ==> norm(deny[i]) != norm(deny[j]))
  {
    hide CompilePattern;
    assert forall i :: 0 <= i < |write| ==> write[i] in write + deny;
    assert forall i :: 0 <= i < |deny| ==> deny[i] in write + deny;
  }
}
