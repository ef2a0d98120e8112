/** The overlap test of internal/goalcompile/compile.go and what it is worth: for which scopes it keeps
    the paths of different work items apart. */
module Overlaps {
  import opened Ordering
  import opened Text
  import opened Globs
  import opened Scopes

  // ----- the overlap test -----

  /** Leading segments without '*'. */
  function LiteralSegments(segments: seq<string>): (r: seq<string>)
    ensures r <= segments
  {
    if segments == [] || '*' in segments[0] then [] else [segments[0]] + LiteralSegments(segments[1..])
  }

  function LiteralPrefix(scope: string): string { Join(LiteralSegments(Segments(scope)), '/') }

  predicate MayOverlapPair(a: string, b: string) {
    var ap, bp := LiteralPrefix(a), LiteralPrefix(b);
    ap == "" || bp == "" || ap == bp || HasPrefix(ap, bp + "/") || HasPrefix(bp, ap + "/")
  }

  predicate MayOverlap(left: seq<string>, right: seq<string>) {
    exists a, b :: a in left && b in right && MayOverlapPair(a, b)
  }

  /** `literalPrefix`: the loop over segments. */
  method ComputeLiteralPrefix(scope: string) returns (prefix: string)
    ensures prefix == LiteralPrefix(scope)
  {
    hide Join, Segments, LiteralSegments;
    var segments := Segments(scope);
    var result: seq<string> := [];
    assert segments[0..] == segments && result + LiteralSegments(segments) == LiteralSegments(segments);
    for i := 0 to |segments|
      invariant LiteralSegments(segments) == result + LiteralSegments(segments[i..])
    {
      LiteralStep(segments, i);
      if '*' in segments[i] {
        assert result + [] == result;
        return Join(result, '/');
      }
      assert result + ([segments[i]] + LiteralSegments(segments[i + 1..]))
        == (result + [segments[i]]) + LiteralSegments(segments[i + 1..]);
      result := result + [segments[i]];
    }
    LiteralEnd(segments[|segments|..]);
    assert result + [] == result;
    prefix := Join(result, '/');
  }

  lemma LiteralStep(segments: seq<string>, i: nat)
    requires i < |segments|
    ensures LiteralSegments(segments[i..]) ==
      if '*' in segments[i] then [] else [segments[i]] + LiteralSegments(segments[i + 1..])
  {
    assert segments[i..][1..] == segments[i + 1..];
  }

  lemma LiteralEnd(segments: seq<string>)
    requires segments == []
    ensures LiteralSegments(segments) == []
  {
  }

  /** `scopesMayOverlap`: every pair of patterns. */
  method ScopesMayOverlap(left: seq<string>, right: seq<string>) returns (overlap: bool)
    ensures overlap == MayOverlap(left, right)
  {
    for i := 0 to |left|
      invariant forall a, b :: a in left[..i] && b in right ==> !MayOverlapPair(a, b)
    {
      for j := 0 to |right|
        invariant forall b :: b in right[..j] ==> !MayOverlapPair(left[i], b)
      {
        var ap := ComputeLiteralPrefix(left[i]);
        var bp := ComputeLiteralPrefix(right[j]);
        if ap == "" || bp == "" || ap == bp || HasPrefix(ap, bp + "/") || HasPrefix(bp, ap + "/") {
          assert left[i] in left && right[j] in right && MayOverlapPair(left[i], right[j]);
          return true;
        }
        assert right[..j + 1] == right[..j] + [right[j]];
      }
      assert right[..|right|] == right;
      assert left[..i + 1] == left[..i] + [left[i]];
    }
    assert left[..|left|] == left;
    return false;
  }

  // ----- literal prefixes -----

  /** No segment before the first '*' holds another wildcard. */
  predicate PlainPrefix(scope: string) {
    forall s :: s in LiteralSegments(Segments(scope)) ==> PlainSegment(s)
  }

  /** A scope in normal form, plain before its first '*'. */
  predicate Plain(norm: string -> string, scope: string) {
    norm(scope) == scope && PlainPrefix(scope)
  }

  lemma {:induction false} PlainTokens(s: string)
    requires PlainSegment(s)
    ensures Tokens(s).Some? && |Tokens(s).value| == |s| && forall i :: 0 <= i < |s| ==> Tokens(s).value[i] == Lit(s[i])
  {
    if s != "" { PlainTokens(s[1..]); }
  }

  lemma {:induction false} LiteralMatch(t: seq<Token>, s: string, name: string)
    requires |t| == |s| && forall i :: 0 <= i < |s| ==> t[i] == Lit(s[i])
    ensures MatchTokens(t, name) <==> name == s
  {
    if s == "" {
    } else if name != "" {
      LiteralMatch(t[1..], s[1..], name[1..]);
      assert s == [s[0]] + s[1..] && name == [name[0]] + name[1..];
    }
  }

  lemma PlainMatch(s: string, name: string)
    requires PlainSegment(s)
    ensures MatchSegment(s, name) <==> name == s
  {
    PlainTokens(s);
    LiteralMatch(Tokens(s).value, s, name);
  }

  /** A covered path starts with the plain segments the pattern starts with. */
  lemma {:induction false} PlainHead(pattern: seq<string>, path: seq<string>, k: nat)
    requires MatchPath(pattern, path) && k <= |pattern| && forall i :: 0 <= i < k ==> PlainSegment(pattern[i])
    ensures k <= |path| && forall i :: 0 <= i < k ==> path[i] == pattern[i]
  {
    hide PlainSegment, MatchSegment;
    if k > 0 {
      StarsNotPlain(pattern[0]);
      PlainMatch(pattern[0], path[0]);
      PlainHead(pattern[1..], path[1..], k - 1);
      forall i | 0 <= i < k ensures path[i] == pattern[i] {
        if i > 0 { assert path[i] == path[1..][i - 1] && pattern[i] == pattern[1..][i - 1]; }
      }
    }
  }

  lemma StarsNotPlain(s: string)
    requires PlainSegment(s)
    ensures s != "**"
  {
    assert "**"[0] == '*';
  }

  /** Joining a prefix of the segments gives a prefix of the joined string, cut at a slash. */
  lemma {:induction false} JoinPrefix(a: seq<string>, b: seq<string>)
    requires a <= b && a != []
    ensures Join(a, '/') == Join(b, '/') || HasPrefix(Join(b, '/'), Join(a, '/') + "/")
  {
    if |a| == |b| {
      assert a == b;
    } else if |a| == 1 {
      assert Join(b, '/') == (a[0] + "/") + Join(b[1..], '/');
    } else {
      JoinPrefix(a[1..], b[1..]);
      var x, y := Join(a[1..], '/'), Join(b[1..], '/');
      assert Join(a, '/') == a[0] + ['/'] + x && Join(b, '/') == a[0] + ['/'] + y;
      if HasPrefix(y, x + "/") {
        assert y == (x + "/") + y[|x| + 1..];
        assert Join(b, '/') == (Join(a, '/') + "/") + y[|x| + 1..];
      }
    }
  }

  /** Scopes one of which starts with the literal segments of the other are taken to overlap. */
  lemma NestedOverlap(a: string, b: string)
    requires LiteralSegments(Segments(a)) <= LiteralSegments(Segments(b))
    ensures MayOverlapPair(a, b) && MayOverlapPair(b, a)
  {
    if LiteralSegments(Segments(a)) != [] { JoinPrefix(LiteralSegments(Segments(a)), LiteralSegments(Segments(b))); }
  }

  lemma PlainLiterals(a: string)
    requires PlainPrefix(a)
    ensures var l := LiteralSegments(Segments(a)); l <= Segments(a) && forall i :: 0 <= i < |l| ==> PlainSegment(Segments(a)[i])
  {
    var l := LiteralSegments(Segments(a));
    forall i | 0 <= i < |l| ensures PlainSegment(Segments(a)[i]) { assert l[i] in l; }
  }

  /** `validScope`; a path of such segments is clean. */
  predicate ValidScope(s: string) {
    && s != "" && s[0] == '/' && s != "/" && '\\' !in s && '\0' !in s
    && (forall p :: p in Segments(s) ==> ValidSegment(p))
  }

  predicate ValidSegment(p: string) {
    p != "" && p != "." && p != ".." && p != ".git" && (p == "**" || !DoubleStar(p))
  }

  /** The number of leading segments without any wildcard. */
  function FirstWild(segments: seq<string>): (k: nat)
    ensures k <= |segments| && (forall i :: 0 <= i < k ==> PlainSegment(segments[i]))
    ensures k < |segments| ==> !PlainSegment(segments[k])
  {
    if segments == [] || !PlainSegment(segments[0]) then 0 else 1 + FirstWild(segments[1..])
  }

  lemma {:induction false} LiteralHasNoStar(segments: seq<string>)
    ensures forall i :: 0 <= i < |LiteralSegments(segments)| ==> '*' !in segments[i] && segments[i] != "**"
  {
    if segments != [] && '*' !in segments[0] {
      LiteralHasNoStar(segments[1..]);
      assert forall i :: 1 <= i < |LiteralSegments(segments)| ==> segments[i] == segments[1..][i - 1];
      assert "**"[0] == '*';
    }
  }

  lemma Regroup(a: string, b: string, c: string, d: string, e: string)
    ensures a + b + c + d + e == a + b + (c + d + e)
  {
  }

  lemma JoinOne(a: string)
    ensures Join([a], '/') == a
  {
  }

  /** Cutting a joined string at the slash after its parts. */
  lemma {:induction false} SplitJoined(w: seq<string>, rest: string)
    requires w != [] && forall i :: 0 <= i < |w| ==> '/' !in w[i]
    ensures Split(Join(w, '/') + ['/'] + rest, '/') == w + Split(rest, '/')
  {
    hide Join, Split;
    if |w| == 1 {
      assert w == [w[0]];
      JoinOne(w[0]);
      SplitFirst(w[0], rest, '/');
    } else {
      assert w == [w[0]] + w[1..];
      JoinCons(w[0], w[1..], '/');
      Regroup(w[0], ['/'], Join(w[1..], '/'), ['/'], rest);
      SplitFirst(w[0], Join(w[1..], '/') + ['/'] + rest, '/');
      SplitJoined(w[1..], rest);
    }
  }

  lemma AfterSlash(x: string, y: string) returns (rest: string)
    requires HasPrefix(y, x + "/")
    ensures y == x + ['/'] + rest
  {
    rest := y[|x| + 1..];
    assert y == y[..|x| + 1] + rest;
  }

  /** Joined segments determine the segments: prefixes cut at a slash are prefixes of the lists. */
  lemma JoinedPrefix(v: seq<string>, w: seq<string>)
    requires v != [] && w != []
    requires (forall i :: 0 <= i < |v| ==> '/' !in v[i]) && forall i :: 0 <= i < |w| ==> '/' !in w[i]
    requires Join(v, '/') == Join(w, '/') || HasPrefix(Join(w, '/'), Join(v, '/') + "/")
    ensures v <= w
  {
    SplitJoin(v, '/');
    SplitJoin(w, '/');
    var x, y := Join(v, '/'), Join(w, '/');
    hide Join, Split;
    if x != y {
      var rest := AfterSlash(x, y);
      SplitJoined(v, rest);
      hide *;
      assert v <= v + Split(rest, '/');
    }
  }

  /** Literal segments none of whose lists starts with the other are told apart by the test. */
  lemma ToldApart(a: string, b: string)
    requires var la, lb := LiteralSegments(Segments(a)), LiteralSegments(Segments(b));
      la != [] && lb != [] && la[0] != "" && lb[0] != "" && !(la <= lb) && !(lb <= la)
    ensures !MayOverlapPair(a, b)
  {
    var la, lb := LiteralSegments(Segments(a)), LiteralSegments(Segments(b));
    NoSlashes(a);
    NoSlashes(b);
    hide LiteralSegments, Segments, HasPrefix;
    if Join(la, '/') == Join(lb, '/') || HasPrefix(Join(lb, '/'), Join(la, '/') + "/") { JoinedPrefix(la, lb); }
    if HasPrefix(Join(la, '/'), Join(lb, '/') + "/") { JoinedPrefix(lb, la); }
    JoinedNotEmpty(la);
    JoinedNotEmpty(lb);
  }

  lemma JoinedNotEmpty(w: seq<string>)
    requires w != [] && w[0] != ""
    ensures Join(w, '/') != ""
  {
  }

  lemma NoSlashes(a: string)
    ensures forall i :: 0 <= i < |Segments(a)| ==> '/' !in Segments(a)[i]
    ensures forall i :: 0 <= i < |LiteralSegments(Segments(a))| ==> '/' !in LiteralSegments(Segments(a))[i]
  {
    JoinSplit(TrimPrefix(a), '/');
  }

  // ----- the segments of a scope in normal form -----

  function NormAll(norm: string -> string, parts: seq<string>): (r: seq<string>)
    ensures |r| == |parts| && forall i :: 0 <= i < |r| ==> r[i] == norm(parts[i])
  {
    seq(|parts|, i requires 0 <= i < |parts| => norm(parts[i]))
  }

  lemma NormChar(norm: string -> string, s: string, c: char)
    requires Normalisation(norm) && c in LONERS
    ensures c in norm(s) <==> c in s
  {
    if c in s {
      var i :| 0 <= i < |s| && s[i] == c;
      assert s[..i] + [c] + s[i + 1..] == s;
      assert Parts(norm, s[..i], c, s[i + 1..]);
    }
  }

  lemma {:induction false} NormJoin(norm: string -> string, parts: seq<string>)
    requires Normalisation(norm) && parts != []
    ensures norm(Join(parts, '/')) == Join(NormAll(norm, parts), '/')
    decreases |parts|
  {
    var all := NormAll(norm, parts);
    if |parts| > 1 {
      NormJoin(norm, parts[1..]);
      assert NormAll(norm, parts[1..]) == all[1..];
      assert Parts(norm, parts[0], '/', Join(parts[1..], '/'));
    }
  }

  /** Normalising a scope normalises its segments. */
  lemma NormSegments(norm: string -> string, a: string)
    requires Normalisation(norm) && a != "" && a[0] == '/'
    ensures Segments(norm(a)) == NormAll(norm, Segments(a))
  {
    var parts := Segments(a);
    JoinSplit(a[1..], '/');
    assert "" + ['/'] + a[1..] == a && Parts(norm, "", '/', a[1..]);
    NormJoin(norm, parts);
    assert norm(a)[1..] == norm(a[1..]);
    forall i | 0 <= i < |parts| ensures '/' !in NormAll(norm, parts)[i] { NormChar(norm, parts[i], '/'); }
    SplitJoin(NormAll(norm, parts), '/');
  }

  /** Stars stay where they are, and so do the other wildcards. */
  lemma {:induction false} NormLiterals(norm: string -> string, segments: seq<string>)
    requires Normalisation(norm)
    ensures LiteralSegments(NormAll(norm, segments)) == NormAll(norm, LiteralSegments(segments))
    decreases |segments|
  {
    hide Normalisation;
    if segments != [] {
      NormChar(norm, segments[0], '*');
      NormLiterals(norm, segments[1..]);
      assert NormAll(norm, segments)[1..] == NormAll(norm, segments[1..]);
    }
  }

  lemma NormPlain(norm: string -> string, s: string)
    requires Normalisation(norm)
    ensures PlainSegment(norm(s)) <==> PlainSegment(s)
  {
    NormChar(norm, s, '*');
    NormChar(norm, s, '?');
    NormChar(norm, s, '[');
  }

  /** A valid scope in normal form can be compiled into a policy, unless it holds a line break or a malformed
      character class; every scope that compiles and holds neither NUL nor ".git" is valid. */
  lemma NormalScopeCompiles(norm: string -> string, s: string)
    requires norm(s) == s && s != "/"
    ensures ValidScope(s) ==>
      (CompilePattern(norm, s).Some? <==>
        !ContainsAny(s, "\r\n") && forall i :: 0 <= i < |Segments(s)| ==> Segments(s)[i] == "**" || Tokens(Segments(s)[i]).Some?)
    ensures ValidScope(s) ==> '\0' !in s && ".git" !in Segments(s)
    ensures CompilePattern(norm, s).Some? && ".git" !in Segments(s) ==> ValidScope(s)
  {
    NoneOfFour(s);
    hide Tokens, DoubleStar, Split;
    var segments := Segments(s);
    assert CompilePattern(norm, s).Some? <==>
      s != "" && s[0] == '/' && !ContainsAny(s, "\\\r\n\0") && !HasSuffix(s, "/") && AllSegmentsCompile(segments);
    if ValidScope(s) {
      forall i | 0 <= i < |segments| ensures ValidSegment(segments[i]) { assert segments[i] in segments; }
      if s[|s| - 1] == '/' { EndsInSlash(s); }
    }
  }

  lemma NoneOfFour(s: string)
    ensures ContainsAny(s, "\\\r\n\0") <==> '\\' in s || '\0' in s || ContainsAny(s, "\r\n")
  {
    if '\\' in s { var i :| 0 <= i < |s| && s[i] == '\\'; assert s[i] in "\\\r\n\0"; }
    if '\0' in s { var i :| 0 <= i < |s| && s[i] == '\0'; assert s[i] in "\\\r\n\0"; }
    if i :| 0 <= i < |s| && s[i] in "\r\n" { assert s[i] in "\\\r\n\0"; }
  }

  /** A scope that ends in a slash has an empty last segment. */
  lemma EndsInSlash(s: string)
    requires |s| >= 2 && s[0] == '/' && s[|s| - 1] == '/'
    ensures "" in Segments(s)
  {
    SplitEnd(s[1..]);
  }

  lemma {:induction false} SplitEnd(s: string)
    requires s != "" && s[|s| - 1] == '/'
    ensures var parts := Split(s, '/'); |parts| >= 2 && parts[|parts| - 1] == ""
  {
    var rest := Split(s[1..], '/');
    if |s| == 1 {
      assert s[1..] == "" && rest == [""];
    } else {
      SplitEnd(s[1..]);
      assert rest[|rest| - 1] == "" && |rest| >= 2;
      assert |Split(s, '/')| == |rest| + (if s[0] == '/' then 1 else 0);
    }
  }

  /** What a valid scope covers is matched by the segments of its normal form. */
  lemma CoversSegments(norm: string -> string, a: string, path: seq<string>)
    requires NormalPath(norm, path) && CompilePattern(norm, a).Some?
    ensures Covers(norm, a, path) <==> MatchPath(Segments(norm(a)), path)
  {
    if norm(a) == "/" {
      assert Segments("/") == [""];
      assert path[0] != "";
      EmptySegment(Segments("/"), path);
    }
  }

  lemma EmptySegment(p: seq<string>, path: seq<string>)
    requires p == [""] && path != [] && path[0] != ""
    ensures !MatchPath(p, path)
  {
    assert Tokens("") == Some([]) && |"**"| == 2;
    assert !MatchSegment(p[0], path[0]);
  }

  /** The scope of everything below a directory. */
  function Below(w: seq<string>): string { "/" + Join(w + ["**"], '/') }

  /** A plain directory in normal form. */
  predicate PlainDirectory(norm: string -> string, w: seq<string>) {
    w != [] && forall i :: 0 <= i < |w| ==> NormalName(norm, w[i], true)
  }

  /** Such a directory gives a valid plain scope that covers all paths below it. */
  lemma BelowIsScope(norm: string -> string, w: seq<string>)
    requires Normalisation(norm) && PlainDirectory(norm, w)
    ensures ValidScope(Below(w)) && Segments(Below(w)) == w + ["**"]
    ensures LiteralSegments(Segments(Below(w))) == w && Plain(norm, Below(w))
    ensures forall path :: w <= path ==> Covers(norm, Below(w), path)
  {
    hide RepositoryName, ValidSegment, LiteralSegments, ValidScope, Segments, PlainSegment, MatchPath, Below, Normalisation, CompilePattern;
    SegmentsOfBelow(w);
    LiteralsOfBelow(w);
    BelowIsValid(w);
    BelowIsNormal(norm, w);
    BelowCompiles(norm, w);
    forall path | w <= path ensures Covers(norm, Below(w), path) { StarsCoverRest(w, path); }
  }

  lemma BelowIsNormal(norm: string -> string, w: seq<string>)
    requires Normalisation(norm) && PlainDirectory(norm, w)
    ensures norm(Below(w)) == Below(w)
  {
    hide RepositoryName, PlainSegment;
    var all := w + ["**"];
    assert Parts(norm, "", '*', "*") && Parts(norm, "", '*', "") && "" + ['*'] + "" == "*" && "" + ['*'] + "*" == "**";
    assert NormAll(norm, all) == all;
    NormJoin(norm, all);
    assert Parts(norm, "", '/', Join(all, '/')) && "" + ['/'] + Join(all, '/') == Below(w);
  }

  lemma BelowCompiles(norm: string -> string, w: seq<string>)
    requires PlainDirectory(norm, w) && norm(Below(w)) == Below(w) && Segments(Below(w)) == w + ["**"]
    ensures CompilePattern(norm, Below(w)) == Some(w + ["**"])
  {
    hide RepositoryName, PlainSegment, Segments;
    var all := w + ["**"];
    forall i | 0 <= i < |all| ensures CompilesSegment(all[i]) && NoneOf(all[i]) { BelowCompilesAt(norm, w, i); }
    NoCharJoined(all, '\\');
    NoCharJoined(all, '\0');
    NoCharJoined(all, '\r');
    NoCharJoined(all, '\n');
    hide Join;
    EndsInStars(w);
  }

  predicate NoneOf(p: string) { '\\' !in p && '\0' !in p && '\r' !in p && '\n' !in p }

  lemma BelowCompilesAt(norm: string -> string, w: seq<string>, i: nat)
    requires PlainDirectory(norm, w) && i <= |w|
    ensures var p := (w + ["**"])[i]; CompilesSegment(p) && NoneOf(p)
  {
    if i < |w| {
      NameChars(w[i]);
      PlainTokens(w[i]);
      assert NoneOf(w[i]);
    }
  }

  lemma {:induction false} EndsInStars(w: seq<string>)
    ensures var s := Join(w + ["**"], '/'); |s| >= 2 && s[|s| - 1] == '*'
  {
    if w != [] {
      assert (w + ["**"])[1..] == w[1..] + ["**"];
      EndsInStars(w[1..]);
    }
  }

  lemma BelowSegment(w: seq<string>, i: nat)
    requires i <= |w| && forall i :: 0 <= i < |w| ==> RepositoryName(w[i]) && PlainSegment(w[i])
    ensures var p := (w + ["**"])[i]; '/' !in p && '\\' !in p && '\0' !in p && ValidSegment(p) && p != ""
  {
    hide RepositoryName, ValidSegment;
    if i < |w| {
      NameChars(w[i]);
    } else {
      StarsAreValid();
    }
  }

  lemma SegmentsOfBelow(w: seq<string>)
    requires forall i :: 0 <= i < |w| ==> RepositoryName(w[i]) && PlainSegment(w[i])
    ensures Segments(Below(w)) == w + ["**"]
  {
    var all := w + ["**"];
    forall i | 0 <= i < |all| ensures '/' !in all[i] { BelowSegment(w, i); }
    hide RepositoryName, PlainSegment;
    assert Below(w)[1..] == Join(all, '/');
    SplitJoin(all, '/');
  }

  lemma BelowIsValid(w: seq<string>)
    requires forall i :: 0 <= i < |w| ==> RepositoryName(w[i]) && PlainSegment(w[i])
    ensures ValidScope(Below(w))
  {
    hide RepositoryName, PlainSegment, ValidSegment, Segments;
    var all := w + ["**"];
    forall i | 0 <= i < |all| ensures '\\' !in all[i] && '\0' !in all[i] && ValidSegment(all[i]) { BelowSegment(w, i); }
    SegmentsOfBelow(w);
    NoCharJoined(all, '\\');
    NoCharJoined(all, '\0');
    BelowSegment(w, 0);
    JoinedNotEmpty(all);
    hide Join;
    forall p | p in Segments(Below(w)) ensures ValidSegment(p) {
      var i :| 0 <= i < |all| && all[i] == p;
    }
  }

  lemma StarsAreValid()
    ensures ValidSegment("**") && '/' !in "**" && '\\' !in "**" && '\0' !in "**" && "**" != ""
  {
  }

  lemma NameChars(p: string)
    requires RepositoryName(p) && PlainSegment(p)
    ensures '/' !in p && '\\' !in p && '\0' !in p && ValidSegment(p) && p != ""
  {
    assert ".git"[0] == '.' && ".git"[1] == 'g' && ".git"[2] == 'i' && ".git"[3] == 't';
  }

  lemma {:induction false} NoCharJoined(parts: seq<string>, c: char)
    requires c != '/' && forall i :: 0 <= i < |parts| ==> c !in parts[i]
    ensures c !in Join(parts, '/')
  {
    if |parts| > 1 { NoCharJoined(parts[1..], c); }
  }

  lemma {:induction false} LiteralsOfBelow(w: seq<string>)
    requires forall i :: 0 <= i < |w| ==> PlainSegment(w[i])
    ensures LiteralSegments(w + ["**"]) == w
  {
    if w == [] {
      assert (w + ["**"])[0] == "**" && "**"[0] == '*';
    } else {
      assert (w + ["**"])[1..] == w[1..] + ["**"];
      LiteralsOfBelow(w[1..]);
    }
  }

  lemma {:induction false} StarsCoverRest(w: seq<string>, path: seq<string>)
    requires w <= path && forall i :: 0 <= i < |w| ==> PlainSegment(w[i])
    ensures MatchPath(w + ["**"], path)
  {
    if w == [] {
      StarsCoverAll(path);
      assert w + ["**"] == ["**"];
    } else {
      assert (w + ["**"])[1..] == w[1..] + ["**"] && (w + ["**"])[0] == w[0];
      PlainMatch(w[0], path[0]);
      StarsCoverRest(w[1..], path[1..]);
    }
  }

  // ----- which scopes the test can be trusted with -----

  /** The wildcards the test reads literally cannot match a plain name, and normalising leaves the plain
      segments before them alone, unless nothing is covered at all. All of this can be computed. */
  predicate Trusted(norm: string -> string, a: string) {
    var segments := Segments(norm(a));
    var literal := LiteralSegments(segments);
    var k := FirstWild(literal);
    CompilePattern(norm, a).Some? ==>
      (k < |literal| ==> !AdmitsPath(norm, segments, k)) &&
      (literal[..k] <= LiteralSegments(Segments(a)) || !AdmitsPath(norm, segments, -1))
  }

  /** A trusted scope and a plain one that pass the test cover no common path. */
  lemma OverlapTestSound(norm: string -> string, a: string, b: string, path: seq<string>)
    requires Normalisation(norm) && ValidScope(a) && ValidScope(b) && NormalPath(norm, path)
    requires Trusted(norm, a) && Plain(norm, b) && !MayOverlapPair(a, b)
    ensures !(Covers(norm, a, path) && Covers(norm, b, path))
  {
    if Covers(norm, a, path) && Covers(norm, b, path) {
      hide CompilePattern, MayOverlapPair, ValidScope, NormalName, Normalisation, AdmitsPath;
      var la, k := LiteralsOf(norm, a);
      CoversSegments(norm, a, path);
      CoversSegments(norm, b, path);
      PlainStart(b, path);
      TrustedStart(norm, a, path);
      BothStart(a, b, path, k);
    }
  }

  /** The literal segments before and after normalisation. */
  lemma LiteralsOf(norm: string -> string, a: string) returns (la: seq<string>, k: nat)
    requires Normalisation(norm) && ValidScope(a)
    ensures la == LiteralSegments(Segments(a)) && LiteralSegments(Segments(norm(a))) == NormAll(norm, la)
    ensures k == FirstWild(NormAll(norm, la))
  {
    la := LiteralSegments(Segments(a));
    NormSegments(norm, a);
    NormLiterals(norm, Segments(a));
    k := FirstWild(NormAll(norm, la));
  }

  /** A path covered by a trusted scope starts with the plain segments as they are written, and has no
      plain name where the first wildcard is read literally. */
  lemma TrustedStart(norm: string -> string, a: string, path: seq<string>)
    requires Normalisation(norm) && ValidScope(a) && NormalPath(norm, path) && CompilePattern(norm, a).Some?
    requires Trusted(norm, a) && MatchPath(Segments(norm(a)), path)
    ensures var la := LiteralSegments(Segments(a)); var k := FirstWild(NormAll(norm, la));
      k <= |path| && la[..k] == path[..k] && (k < |la| && k < |path| ==> !PlainSegment(path[k]))
  {
    hide CompilePattern, ValidScope, Normalisation, MatchPath, NormalName, Segments, LiteralSegments, FirstWild, AdmitsPath;
    var la, k := LiteralsOf(norm, a);
    var segments := Segments(norm(a));
    LiteralHasNoStar(segments);
    PlainHead(segments, path, k);
    MatchedAdmits(norm, segments, path, -1);
    assert la[..k] == NormAll(norm, la)[..k];
    if k < |la| && k < |path| && PlainSegment(path[k]) { MatchedAdmits(norm, segments, path, k); }
  }

  lemma BothStart(a: string, b: string, path: seq<string>, k: nat)
    requires var la, lb := LiteralSegments(Segments(a)), LiteralSegments(Segments(b));
      k <= |la| && k <= |path| && la[..k] == path[..k] && lb <= path &&
      (k < |la| ==> k >= |path| || !PlainSegment(path[k])) && forall i :: 0 <= i < |lb| ==> PlainSegment(path[i])
    ensures MayOverlapPair(a, b)
  {
    hide MayOverlapPair, LiteralSegments, Segments, PlainSegment;
    var la, lb := LiteralSegments(Segments(a)), LiteralSegments(Segments(b));
    if |lb| <= k {
      assert lb == la[..k][..|lb|];
      NestedOverlap(b, a);
    } else {
      assert la == la[..k] == lb[..k];
      NestedOverlap(a, b);
    }
  }

  /** A path covered by a scope with a plain prefix starts with that prefix. */
  lemma PlainStart(b: string, path: seq<string>)
    requires PlainPrefix(b) && MatchPath(Segments(b), path)
    ensures LiteralSegments(Segments(b)) <= path
    ensures forall i :: 0 <= i < |LiteralSegments(Segments(b))| ==> PlainSegment(path[i])
  {
    var lb := LiteralSegments(Segments(b));
    PlainLiterals(b);
    PlainHead(Segments(b), path, |lb|);
    assert lb == path[..|lb|];
  }

  /** A scope that is not trusted overlaps, unnoticed, with a valid plain scope. */
  lemma UntrustedOverlaps(norm: string -> string, a: string) returns (b: string, path: seq<string>)
    requires Normalisation(norm) && ValidScope(a) && !Trusted(norm, a)
    ensures ValidScope(b) && Plain(norm, b) && NormalPath(norm, path)
    ensures !MayOverlapPair(a, b) && Covers(norm, a, path) && Covers(norm, b, path)
  {
    hide CompilePattern, MayOverlapPair, ValidScope, Normalisation, AdmitsPath, MatchPath, Covers, Plain, LiteralSegments,
      Segments, FirstWild, Below, NormalName;
    var la, k := LiteralsOf(norm, a);
    var segments := Segments(norm(a));
    var wild := k < |la| && AdmitsPath(norm, segments, k);
    path := UntrustedPath(norm, a, wild);
    assert wild || !(NormAll(norm, la)[..k] <= la);
    hide Trusted, NormalPath;
    var w := path[..if wild then k + 1 else k];
    b := Below(w);
    BelowIsScope(norm, w);
    NotNested(norm, a, w, wild);
    FirstNotEmpty(a);
    var lb := LiteralSegments(Segments(b));
    assert lb == w && lb[0] != "" && la[0] != "" && !(la <= lb) && !(lb <= la) by { FirstName(norm, w); }
    hide *;
    ToldApart(a, b);
  }

  /** A path it covers, with a plain name where a wildcard is read literally if there is one. */
  lemma UntrustedPath(norm: string -> string, a: string, wild: bool) returns (path: seq<string>)
    requires Normalisation(norm) && ValidScope(a) && !Trusted(norm, a)
    requires var la := LiteralSegments(Segments(a)); var k := FirstWild(NormAll(norm, la));
      wild == (k < |la| && AdmitsPath(norm, Segments(norm(a)), k))
    ensures NormalPath(norm, path) && Covers(norm, a, path)
    ensures var la := LiteralSegments(Segments(a)); var k := FirstWild(NormAll(norm, la)); var n := if wild then k + 1 else k;
      n <= |path| && PlainDirectory(norm, path[..n]) && path[..k] == NormAll(norm, la)[..k]
  {
    hide CompilePattern, ValidScope, Normalisation, AdmitsPath, MatchPath, Segments, LiteralSegments, FirstWild;
    var la, k := LiteralsOf(norm, a);
    var segments, at := Segments(norm(a)), if wild then k else -1;
    assert CompilePattern(norm, a).Some? && AdmitsPath(norm, segments, at) && (wild || k > 0);
    hide Trusted;
    LiteralHasNoStar(segments);
    path := AdmittedPath(norm, segments, at);
    PlainHead(segments, path, k);
    hide Covers, PlainSegment, RepositoryName;
    CoversSegments(norm, a, path);
  }

  lemma NotNested(norm: string -> string, a: string, w: seq<string>, wild: bool)
    requires Normalisation(norm) && ValidScope(a)
    requires var la := LiteralSegments(Segments(a)); var lc := NormAll(norm, la); var k := FirstWild(lc);
      if wild then k < |la| && |w| == k + 1 && PlainDirectory(norm, w)
      else w == lc[..k] && !(w <= la)
    ensures var la := LiteralSegments(Segments(a)); la != [] && !(la <= w) && !(w <= la)
  {
    var la, k := LiteralsOf(norm, a);
    if wild { WildDiffers(norm, la[k], w[k]); }
    assert |w| <= |la|;
  }

  lemma WildDiffers(norm: string -> string, x: string, y: string)
    requires !PlainSegment(norm(x)) && NormalName(norm, y, true)
    ensures x != y
  {
  }

  lemma FirstName(norm: string -> string, w: seq<string>)
    requires PlainDirectory(norm, w)
    ensures w[0] != ""
  {
  }

  lemma FirstNotEmpty(a: string)
    requires ValidScope(a) && LiteralSegments(Segments(a)) != []
    ensures LiteralSegments(Segments(a))[0] != ""
  {
    assert LiteralSegments(Segments(a))[0] in Segments(a);
  }

  /** The overlap test is right about a scope, against every valid plain scope and on every path the
      policy can see, exactly if the scope is trusted. */
  lemma OverlapTestExact(norm: string -> string, a: string)
    requires Normalisation(norm) && ValidScope(a)
    ensures Trusted(norm, a) <==>
      forall b, path :: ValidScope(b) && Plain(norm, b) && NormalPath(norm, path) && !MayOverlapPair(a, b)
        ==> !(Covers(norm, a, path) && Covers(norm, b, path))
  {
    hide Trusted, ValidScope, Plain, NormalPath, MayOverlapPair, Covers, Normalisation;
    if Trusted(norm, a) {
      forall b, path | ValidScope(b) && Plain(norm, b) && NormalPath(norm, path) && !MayOverlapPair(a, b)
        ensures !(Covers(norm, a, path) && Covers(norm, b, path))
      {
        OverlapTestSound(norm, a, b, path);
      }
    } else {
      var b, path := UntrustedOverlaps(norm, a);
    }
  }

  // ----- any two scopes -----

  /** The two scopes cover a common path; this can be computed. */
  predicate Common(norm: string -> string, a: string, b: string) {
    CompilePattern(norm, a).Some? && CompilePattern(norm, b).Some? &&
    CommonPath(norm, Segments(norm(a)), Segments(norm(b)))
  }

  /** Whether two valid scopes share a path is decided by `Common`. */
  lemma CommonExactly(norm: string -> string, a: string, b: string)
    requires Normalisation(norm) && ValidScope(a) && ValidScope(b)
    ensures Common(norm, a, b) <==>
      exists path :: NormalPath(norm, path) && Covers(norm, a, path) && Covers(norm, b, path)
  {
    hide CompilePattern, ValidScope, Normalisation, CommonPath, MatchPath;
    CommonPathExactly(norm, Segments(norm(a)), Segments(norm(b)));
    forall path | NormalPath(norm, path) && CompilePattern(norm, a).Some? && CompilePattern(norm, b).Some?
      ensures Covers(norm, a, path) <==> MatchPath(Segments(norm(a)), path)
      ensures Covers(norm, b, path) <==> MatchPath(Segments(norm(b)), path)
    {
      CoversSegments(norm, a, path);
      CoversSegments(norm, b, path);
    }
  }

  /** How the test misses a shared path: the literal segments first differ where one of the two is
      no plain name, or where both are the same name spelt differently. */
  lemma MissedAt(norm: string -> string, a: string, b: string) returns (i: nat)
    requires Normalisation(norm) && ValidScope(a) && ValidScope(b) && Common(norm, a, b) && !MayOverlapPair(a, b)
    ensures var la, lb := LiteralSegments(Segments(a)), LiteralSegments(Segments(b));
      i < |la| && i < |lb| && la[..i] == lb[..i] && la[i] != lb[i] &&
      (PlainSegment(la[i]) && PlainSegment(lb[i]) ==> norm(la[i]) == norm(lb[i]))
  {
    hide CompilePattern, ValidScope, Normalisation, CommonPath, MatchPath, MayOverlapPair, PlainSegment, Common;
    CommonExactly(norm, a, b);
    var path :| NormalPath(norm, path) && Covers(norm, a, path) && Covers(norm, b, path);
    CoversSegments(norm, a, path);
    CoversSegments(norm, b, path);
    var la, lb := LiteralSegments(Segments(a)), LiteralSegments(Segments(b));
    if la <= lb { NestedOverlap(a, b); }
    if lb <= la { NestedOverlap(b, a); }
    i := FirstDifference(la, lb);
    if PlainSegment(la[i]) && PlainSegment(lb[i]) {
      PlainAt(norm, a, path, i);
      PlainAt(norm, b, path, i);
    }
  }

  lemma {:induction false} FirstDifference(v: seq<string>, w: seq<string>) returns (i: nat)
    requires !(v <= w) && !(w <= v)
    ensures i < |v| && i < |w| && v[..i] == w[..i] && v[i] != w[i]
  {
    i := 0;
    if v[0] == w[0] {
      assert v == [v[0]] + v[1..] && w == [w[0]] + w[1..];
      i := FirstDifference(v[1..], w[1..]);
      assert v[..i + 1] == [v[0]] + v[1..][..i] && w[..i + 1] == [w[0]] + w[1..][..i];
      i := i + 1;
    }
  }

  /** A plain literal segment is the name the path has there, up to spelling. */
  lemma PlainAt(norm: string -> string, a: string, path: seq<string>, i: nat)
    requires Normalisation(norm) && ValidScope(a) && MatchPath(Segments(norm(a)), path)
    requires i < |LiteralSegments(Segments(a))| && PlainSegment(LiteralSegments(Segments(a))[i])
    ensures i < |path| && path[i] == norm(LiteralSegments(Segments(a))[i])
  {
    var la, k := LiteralsOf(norm, a);
    var segments := Segments(norm(a));
    LiteralHasNoStar(segments);
    MatchedAt(segments, path, i);
    NormPlain(norm, la[i]);
    PlainMatch(segments[i], path[i]);
  }

  lemma {:induction false} MatchedAt(pattern: seq<string>, path: seq<string>, i: nat)
    requires MatchPath(pattern, path) && i < |pattern| && forall j :: 0 <= j <= i ==> pattern[j] != "**"
    ensures i < |path| && MatchSegment(pattern[i], path[i])
  {
    if i > 0 {
      forall j | 0 <= j <= i - 1 ensures pattern[1..][j] != "**" { assert pattern[1..][j] == pattern[j + 1]; }
      MatchedAt(pattern[1..], path[1..], i - 1);
    }
  }
}
