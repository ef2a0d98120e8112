/** Patterns of one path segment and of whole paths (Go's `path.Match` and `matchSegments` of
    internal/scope/scope.go), and whether two patterns match a common path in normal form. */
module Globs {
  import opened Ordering

  // ----- what a pattern matches -----

  /** Elements of a segment pattern. */
  datatype Token = Star | AnyChar | Class(negated: bool, ranges: seq<(char, char)>) | Lit(c: char)

  /** Ranges of a character class after '[' and an optional '^', up to ']', with the rest of the pattern. */
  function ClassRanges(s: string, first: bool): (r: Option<(seq<(char, char)>, string)>)
    ensures r.Some? ==> |r.value.1| < |s|
    decreases |s|
  {
    if s == "" then None
    else if s[0] == ']' && !first then Some(([], s[1..]))
    else if s[0] == '-' || s[0] == ']' || s[0] == '\\' then None
    else if |s| >= 2 && s[1] == '-' then
      if |s| < 3 || s[2] == '-' || s[2] == ']' || s[2] == '\\' then None
      else match ClassRanges(s[3..], false)
        case None => None
        case Some((ranges, rest)) => Some(([(s[0], s[2])] + ranges, rest))
    else match ClassRanges(s[1..], false)
      case None => None
      case Some((ranges, rest)) => Some(([(s[0], s[0])] + ranges, rest))
  }

  /** Tokens of a segment pattern; None is `ErrBadPattern`. Scopes hold no backslash, so there are no escapes. */
  function Tokens(s: string): Option<seq<Token>>
    decreases |s|
  {
    if s == "" then Some([])
    else if s[0] == '[' then
      var negated := |s| >= 2 && s[1] == '^';
      match ClassRanges(s[if negated then 2 else 1..], true)
      case None => None
      case Some((ranges, rest)) =>
        (match Tokens(rest) case None => None case Some(t) => Some([Class(negated, ranges)] + t))
    else match Tokens(s[1..])
      case None => None
      case Some(t) =>
        Some([if s[0] == '*' then Star else if s[0] == '?' then AnyChar else Lit(s[0])] + t)
  }

  predicate InRanges(c: char, ranges: seq<(char, char)>) {
    exists i :: 0 <= i < |ranges| && ranges[i].0 <= c <= ranges[i].1
  }

  /** A segment name against tokens. */
  predicate MatchTokens(t: seq<Token>, name: string)
    decreases |t|, |name|
  {
    if t == [] then name == ""
    else match t[0]
      case Star => MatchTokens(t[1..], name) || (name != "" && name[0] != '/' && MatchTokens(t, name[1..]))
      case AnyChar => name != "" && name[0] != '/' && MatchTokens(t[1..], name[1..])
      case Class(negated, ranges) => name != "" && InRanges(name[0], ranges) != negated && MatchTokens(t[1..], name[1..])
      case Lit(c) => name != "" && name[0] == c && MatchTokens(t[1..], name[1..])
  }

  /** `path.Match` of one segment. */
  predicate MatchSegment(pattern: string, name: string) {
    Tokens(pattern).Some? && MatchTokens(Tokens(pattern).value, name)
  }

  /** `matchSegments`: "**" stands for any number of segments. */
  predicate MatchPath(pattern: seq<string>, path: seq<string>)
    decreases |pattern| + |path|
  {
    if pattern == [] then path == []
    else if pattern[0] == "**" then MatchPath(pattern[1..], path) || (path != [] && MatchPath(pattern, path[1..]))
    else path != [] && MatchSegment(pattern[0], path[0]) && MatchPath(pattern[1..], path[1..])
  }

  // ----- repository names and their normal form -----

  /** A segment `path.Match` takes literally. */
  predicate PlainSegment(s: string) { '*' !in s && '?' !in s && '[' !in s }

  /** A character of a repository file name; a plain one is no wildcard. */
  predicate NameChar(c: char, plain: bool) {
    c !in ['/', '\\', '\r', '\n', '\0'] && (plain ==> c !in ['*', '?', '['])
  }

  /** ".git" in any letter case. */
  predicate GitName(p: string) {
    |p| == 4 && p[0] == '.' && p[1] in "gG" && p[2] in "iI" && p[3] in "tT"
  }

  /** A segment `NormalizeRepositoryPath` admits. */
  predicate RepositoryName(p: string) {
    p != "" && p != "." && p != ".." && !GitName(p) && forall i :: 0 <= i < |p| ==> NameChar(p[i], false)
  }

  /** A name as the write policy sees it: valid and in normal form. */
  predicate NormalName(norm: string -> string, p: string, plain: bool) {
    RepositoryName(p) && norm(p) == p && (plain ==> PlainSegment(p))
  }

  predicate NormalPath(norm: string -> string, path: seq<string>) {
    path != [] && forall i :: 0 <= i < |path| ==> NormalName(norm, path[i], false)
  }

  /** Characters that combine with no other character. */
  const LONERS := ['/', '*', '?', '[', '0']

  predicate Parts(norm: string -> string, u: string, c: char, v: string) {
    norm(u + [c] + v) == norm(u) + [c] + norm(v)
  }

  predicate Kept(norm: string -> string, u: string, v: string) {
    norm(u + v) == u + v ==> norm(u) == u && norm(v) == v
  }

  /** What is used of Unicode's normalisation to NFC: it works on both sides of such a character
      separately, creates none of them, and what it leaves alone it leaves alone in every part. */
  ghost predicate Normalisation(norm: string -> string) {
    && norm("") == ""
    && (forall u, c, v :: c in LONERS ==> Parts(norm, u, c, v))
    && (forall s, c :: c in LONERS && c in norm(s) ==> c in s)
    && (forall u, v :: Kept(norm, u, v))
  }

  // ----- names matched by two patterns -----

  predicate AcceptsChar(t: Token, c: char) {
    match t
    case Star => c != '/'
    case AnyChar => c != '/'
    case Class(negated, ranges) => InRanges(c, ranges) != negated
    case Lit(d) => c == d
  }

  function After(t: seq<Token>): seq<Token>
    requires t != []
  {
    if t[0] == Star then t else t[1..]
  }

  /** A name in normal form that starts with `done` and goes on as both token lists ask. The search is
      finite: what two stars match together may as well be the one character '0', or nothing. */
  predicate Joint(norm: string -> string, s: seq<Token>, t: seq<Token>, done: string, plain: bool)
    decreases |s| + |t|
  {
    if s == [] && t == [] then NormalName(norm, done, plain)
    else if s != [] && s[0] == Star && Joint(norm, s[1..], t, done, plain) then true
    else if t != [] && t[0] == Star && Joint(norm, s, t[1..], done, plain) then true
    else if s == [] || t == [] then false
    else if s[0] == Star && t[0] == Star then
      Joint(norm, s[1..], t, done + ['0'], plain) || Joint(norm, s, t[1..], done + ['0'], plain)
    else
      exists c: char :: NameChar(c, plain) && AcceptsChar(s[0], c) && AcceptsChar(t[0], c)
        && Joint(norm, After(s), After(t), done + [c], plain)
  }

  /** Both token lists match a continuation of `done` to a name in normal form. */
  predicate Continues(norm: string -> string, s: seq<Token>, t: seq<Token>, done: string, rest: string, plain: bool) {
    MatchTokens(s, rest) && MatchTokens(t, rest) && NormalName(norm, done + rest, plain)
  }

  lemma TakesOne(t: seq<Token>, c: char, rest: string)
    requires t != [] && c != '/' && AcceptsChar(t[0], c) && MatchTokens(After(t), rest)
    ensures MatchTokens(t, [c] + rest)
  {
    assert ([c] + rest)[1..] == rest;
  }

  lemma DropsStar(t: seq<Token>, rest: string)
    requires t != [] && t[0] == Star && MatchTokens(t[1..], rest)
    ensures MatchTokens(t, rest)
  {
  }

  lemma {:induction false} JointContinues(norm: string -> string, s: seq<Token>, t: seq<Token>, done: string, plain: bool)
    returns (rest: string)
    requires Joint(norm, s, t, done, plain)
    ensures Continues(norm, s, t, done, rest, plain)
    decreases |s| + |t|
  {
    hide NormalName, MatchTokens;
    if s == [] && t == [] {
      rest := "";
      assert done + "" == done;
      NothingMatches(s);
    } else if s != [] && s[0] == Star && Joint(norm, s[1..], t, done, plain) {
      rest := JointContinues(norm, s[1..], t, done, plain);
      DropsStar(s, rest);
    } else if t != [] && t[0] == Star && Joint(norm, s, t[1..], done, plain) {
      rest := JointContinues(norm, s, t[1..], done, plain);
      DropsStar(t, rest);
    } else if s[0] == Star && t[0] == Star {
      var tail;
      if Joint(norm, s[1..], t, done + ['0'], plain) {
        tail := JointContinues(norm, s[1..], t, done + ['0'], plain);
        DropsStar(s, tail);
      } else {
        tail := JointContinues(norm, s, t[1..], done + ['0'], plain);
        DropsStar(t, tail);
      }
      rest := OneMore(norm, s, t, done, '0', tail, plain);
    } else {
      var c: char :| NameChar(c, plain) && AcceptsChar(s[0], c) && AcceptsChar(t[0], c)
        && Joint(norm, After(s), After(t), done + [c], plain);
      var tail := JointContinues(norm, After(s), After(t), done + [c], plain);
      rest := OneMore(norm, s, t, done, c, tail, plain);
    }
  }

  lemma NothingMatches(t: seq<Token>)
    ensures t == [] ==> MatchTokens(t, "")
  {
  }

  lemma OneMore(norm: string -> string, s: seq<Token>, t: seq<Token>, done: string, c: char, tail: string, plain: bool)
    returns (rest: string)
    requires s != [] && t != [] && c != '/' && AcceptsChar(s[0], c) && AcceptsChar(t[0], c)
    requires Continues(norm, After(s), After(t), done + [c], tail, plain)
    ensures Continues(norm, s, t, done, rest, plain)
  {
    hide MatchTokens, NormalName;
    rest := [c] + tail;
    TakesOne(s, c, tail);
    TakesOne(t, c, tail);
    assert done + [c] + tail == done + rest;
  }

  lemma {:induction false} ContinuesJoint(norm: string -> string, s: seq<Token>, t: seq<Token>, done: string, rest: string, plain: bool)
    requires Normalisation(norm) && Continues(norm, s, t, done, rest, plain)
    ensures Joint(norm, s, t, done, plain)
    decreases |s| + |t| + |rest|
  {
    hide NormalName, Normalisation;
    if s == [] && t == [] {
      assert done + rest == done;
    } else if s != [] && s[0] == Star && MatchTokens(s[1..], rest) {
      ContinuesJoint(norm, s[1..], t, done, rest, plain);
    } else if t != [] && t[0] == Star && MatchTokens(t[1..], rest) {
      ContinuesJoint(norm, s, t[1..], done, rest, plain);
    } else if s[0] == Star && t[0] == Star {
      var run := SharedRun(s, t, rest);
      var tail := rest[|run|..];
      assert rest == run + tail;
      ShorterName(norm, done, run, tail, plain);
      if MatchTokens(s[1..], tail) && MatchTokens(t, tail) {
        ContinuesJoint(norm, s[1..], t, done + ['0'], tail, plain);
      } else {
        ContinuesJoint(norm, s, t[1..], done + ['0'], tail, plain);
      }
    } else {
      var c := rest[0];
      assert done + rest == done + [c] + rest[1..];
      NameCharAt(norm, done + rest, |done|, plain);
      ContinuesJoint(norm, After(s), After(t), done + [c], rest[1..], plain);
    }
  }

  lemma NameCharAt(norm: string -> string, name: string, i: nat, plain: bool)
    requires NormalName(norm, name, plain) && i < |name|
    ensures NameChar(name[i], plain)
  {
    assert name[i] in name;
  }

  /** Two stars match a stretch together until one of them has no more to match. */
  lemma {:induction false} SharedRun(s: seq<Token>, t: seq<Token>, rest: string) returns (run: string)
    requires s != [] && t != [] && s[0] == Star && t[0] == Star && MatchTokens(s, rest) && MatchTokens(t, rest)
    ensures |run| <= |rest| && run == rest[..|run|]
    ensures var tail := rest[|run|..];
      (MatchTokens(s[1..], tail) && MatchTokens(t, tail)) || (MatchTokens(s, tail) && MatchTokens(t[1..], tail))
    decreases |rest|
  {
    if MatchTokens(s[1..], rest) || MatchTokens(t[1..], rest) {
      run := "";
      assert rest[0..] == rest;
    } else {
      var more := SharedRun(s, t, rest[1..]);
      run := [rest[0]] + more;
      assert rest[|run|..] == rest[1..][|more|..];
    }
  }

  /** A stretch of a name in normal form may be replaced by '0'. */
  lemma ShorterName(norm: string -> string, done: string, run: string, tail: string, plain: bool)
    requires Normalisation(norm) && NormalName(norm, done + (run + tail), plain)
    ensures NormalName(norm, done + ['0'] + tail, plain)
  {
    assert Kept(norm, done, run + tail) && Kept(norm, run, tail) && Parts(norm, done, '0', tail);
    var long, name := done + (run + tail), done + ['0'] + tail;
    forall i | 0 <= i < |name| ensures NameChar(name[i], plain) {
      if i < |done| { assert name[i] == long[i]; NameCharAt(norm, long, i, plain); }
      if i > |done| { assert name[i] == long[i - 1 + |run|]; NameCharAt(norm, long, i - 1 + |run|, plain); }
    }
    assert name[|done|] == '0';
  }

  /** The two segment patterns match a common name in normal form, plain if asked for; this can be computed. */
  predicate CommonName(norm: string -> string, p: string, q: string, plain: bool) {
    Tokens(p).Some? && Tokens(q).Some? && Joint(norm, Tokens(p).value, Tokens(q).value, "", plain)
  }

  lemma CommonNameExactly(norm: string -> string, p: string, q: string, plain: bool)
    requires Normalisation(norm)
    ensures CommonName(norm, p, q, plain) <==>
      exists name :: MatchSegment(p, name) && MatchSegment(q, name) && NormalName(norm, name, plain)
  {
    hide NormalName, Normalisation;
    if CommonName(norm, p, q, plain) {
      var name := JointContinues(norm, Tokens(p).value, Tokens(q).value, "", plain);
      assert "" + name == name;
      assert MatchSegment(p, name) && MatchSegment(q, name);
    }
    if name :| MatchSegment(p, name) && MatchSegment(q, name) && NormalName(norm, name, plain) {
      assert "" + name == name;
      ContinuesJoint(norm, Tokens(p).value, Tokens(q).value, "", name, plain);
    }
  }

  /** Some name in normal form matches the segment pattern. */
  predicate AdmitsName(norm: string -> string, p: string, plain: bool) {
    CommonName(norm, p, "*", plain)
  }

  lemma AdmitsNameExactly(norm: string -> string, p: string, plain: bool)
    requires Normalisation(norm)
    ensures AdmitsName(norm, p, plain) <==> exists name :: MatchSegment(p, name) && NormalName(norm, name, plain)
  {
    CommonNameExactly(norm, p, "*", plain);
    forall name | NormalName(norm, name, plain) ensures MatchSegment("*", name) {
      forall i | 0 <= i < |name| ensures name[i] != '/' { NameCharAt(norm, name, i, plain); }
      StarMatches(name);
    }
  }

  lemma {:induction false} StarMatches(name: string)
    requires forall i :: 0 <= i < |name| ==> name[i] != '/'
    ensures Tokens("*") == Some([Star]) && MatchTokens([Star], name)
  {
    assert "*"[1..] == "" && Tokens("") == Some([]) && [Star] + [] == [Star] && [Star][1..] == [];
    if name != "" { StarMatches(name[1..]); }
  }

  // ----- paths matched by two patterns -----

  predicate StarsFirst(p: seq<string>) { p != [] && p[0] == "**" }

  /** The two patterns match a common path in normal form; this can be computed. */
  predicate CommonPath(norm: string -> string, p: seq<string>, q: seq<string>)
    decreases |p| + |q|
  {
    if p == [] && q == [] then true
    else if StarsFirst(p) && CommonPath(norm, p[1..], q) then true
    else if StarsFirst(q) && CommonPath(norm, p, q[1..]) then true
    else if p == [] || q == [] || (StarsFirst(p) && StarsFirst(q)) then false
    else if StarsFirst(p) then AdmitsName(norm, q[0], false) && CommonPath(norm, p, q[1..])
    else if StarsFirst(q) then AdmitsName(norm, p[0], false) && CommonPath(norm, p[1..], q)
    else CommonName(norm, p[0], q[0], false) && CommonPath(norm, p[1..], q[1..])
  }

  predicate NormalNames(norm: string -> string, path: seq<string>) {
    forall i :: 0 <= i < |path| ==> NormalName(norm, path[i], false)
  }

  lemma {:induction false} CommonPathMatched(norm: string -> string, p: seq<string>, q: seq<string>) returns (path: seq<string>)
    requires Normalisation(norm) && CommonPath(norm, p, q)
    ensures MatchPath(p, path) && MatchPath(q, path) && NormalNames(norm, path)
    decreases |p| + |q|
  {
    hide Normalisation, CommonName, NormalName, AdmitsName, MatchSegment;
    if p == [] && q == [] {
      path := [];
    } else if StarsFirst(p) && CommonPath(norm, p[1..], q) {
      path := CommonPathMatched(norm, p[1..], q);
    } else if StarsFirst(q) && CommonPath(norm, p, q[1..]) {
      path := CommonPathMatched(norm, p, q[1..]);
    } else if StarsFirst(p) {
      AdmitsNameExactly(norm, q[0], false);
      var name :| MatchSegment(q[0], name) && NormalName(norm, name, false);
      var tail := CommonPathMatched(norm, p, q[1..]);
      path := [name] + tail;
      assert path[1..] == tail;
    } else if StarsFirst(q) {
      AdmitsNameExactly(norm, p[0], false);
      var name :| MatchSegment(p[0], name) && NormalName(norm, name, false);
      var tail := CommonPathMatched(norm, p[1..], q);
      path := [name] + tail;
      assert path[1..] == tail;
    } else {
      CommonNameExactly(norm, p[0], q[0], false);
      var name :| MatchSegment(p[0], name) && MatchSegment(q[0], name) && NormalName(norm, name, false);
      var tail := CommonPathMatched(norm, p[1..], q[1..]);
      path := [name] + tail;
      assert path[1..] == tail;
    }
  }

  lemma {:induction false} MatchedCommonPath(norm: string -> string, p: seq<string>, q: seq<string>, path: seq<string>)
    requires Normalisation(norm) && MatchPath(p, path) && MatchPath(q, path) && NormalNames(norm, path)
    ensures CommonPath(norm, p, q)
    decreases |p| + |q| + |path|
  {
    hide Normalisation, CommonName, NormalName, AdmitsName, MatchSegment;
    if p == [] && q == [] {
    } else if StarsFirst(p) && MatchPath(p[1..], path) {
      MatchedCommonPath(norm, p[1..], q, path);
    } else if StarsFirst(q) && MatchPath(q[1..], path) {
      MatchedCommonPath(norm, p, q[1..], path);
    } else {
      var rest := path[1..];
      if StarsFirst(p) && StarsFirst(q) {
        MatchedCommonPath(norm, p, q, rest);
      } else if StarsFirst(p) {
        AdmitsNameExactly(norm, q[0], false);
        MatchedCommonPath(norm, p, q[1..], rest);
      } else if StarsFirst(q) {
        AdmitsNameExactly(norm, p[0], false);
        MatchedCommonPath(norm, p[1..], q, rest);
      } else {
        CommonNameExactly(norm, p[0], q[0], false);
        MatchedCommonPath(norm, p[1..], q[1..], rest);
      }
    }
  }

  /** Two patterns, neither of them empty, match a common path exactly if `CommonPath` says so. */
  lemma CommonPathExactly(norm: string -> string, p: seq<string>, q: seq<string>)
    requires Normalisation(norm) && p != [] && q != []
    ensures CommonPath(norm, p, q) <==> exists path :: NormalPath(norm, path) && MatchPath(p, path) && MatchPath(q, path)
  {
    if CommonPath(norm, p, q) {
      var path := CommonPathMatched(norm, p, q);
      if path == [] {
        path := ["0"];
        assert Parts(norm, "", '0', "") && "" + ['0'] + "" == "0";
        StarsOnly(p, path);
        StarsOnly(q, path);
      }
      assert NormalPath(norm, path);
    }
    if path :| NormalPath(norm, path) && MatchPath(p, path) && MatchPath(q, path) {
      MatchedCommonPath(norm, p, q, path);
    }
  }

  /** A pattern that matches the empty path matches every path. */
  lemma {:induction false} StarsOnly(p: seq<string>, path: seq<string>)
    requires p != [] && MatchPath(p, [])
    ensures MatchPath(p, path)
  {
    if |p| == 1 {
      assert p == ["**"];
      StarsCoverAll(path);
    } else {
      StarsOnly(p[1..], path);
    }
  }

  lemma {:induction false} StarsCoverAll(path: seq<string>)
    ensures MatchPath(["**"], path)
  {
    assert ["**"][1..] == [];
    if path != [] { StarsCoverAll(path[1..]); }
  }

  // ----- paths matched by one pattern -----

  /** Every segment matches some name in normal form, the k-th one a plain name. */
  predicate AdmitsPath(norm: string -> string, segments: seq<string>, k: int) {
    forall i :: 0 <= i < |segments| ==> segments[i] == "**" || AdmitsName(norm, segments[i], i == k)
  }

  lemma {:induction false} AdmittedPath(norm: string -> string, segments: seq<string>, k: int) returns (path: seq<string>)
    requires Normalisation(norm) && AdmitsPath(norm, segments, k)
    requires k < |segments| && forall i :: 0 <= i <= k ==> segments[i] != "**"
    ensures MatchPath(segments, path) && NormalNames(norm, path)
    ensures |path| > k && (k >= 0 ==> PlainSegment(path[k]))
  {
    hide AdmitsName, Normalisation;
    if segments == [] {
      path := [];
    } else {
      var rest := segments[1..];
      forall i | 0 <= i < |rest| ensures rest[i] == "**" || AdmitsName(norm, rest[i], i == k - 1) { assert rest[i] == segments[i + 1]; }
      forall i | 0 <= i <= k - 1 ensures rest[i] != "**" { assert rest[i] == segments[i + 1]; }
      var tail := AdmittedPath(norm, rest, k - 1);
      if segments[0] == "**" {
        path := tail;
      } else {
        AdmitsNameExactly(norm, segments[0], 0 == k);
        var name :| MatchSegment(segments[0], name) && NormalName(norm, name, 0 == k);
        path := [name] + tail;
        assert path[1..] == tail;
        hide MatchSegment, RepositoryName, PlainSegment;
      }
    }
  }

  /** A matched path shows that every segment admits a name. */
  lemma {:induction false} MatchedAdmits(norm: string -> string, segments: seq<string>, path: seq<string>, k: int)
    requires Normalisation(norm) && MatchPath(segments, path) && NormalNames(norm, path)
    requires k < |segments| && forall i :: 0 <= i <= k ==> segments[i] != "**"
    requires 0 <= k < |path| ==> PlainSegment(path[k])
    ensures AdmitsPath(norm, segments, k) && k < |path|
    decreases |segments| + |path|
  {
    hide AdmitsName, Normalisation;
    if segments == [] {
    } else if segments[0] == "**" {
      if MatchPath(segments[1..], path) {
        MatchedAdmits(norm, segments[1..], path, -1);
        AdmitsFromRest(norm, segments, k);
      } else {
        MatchedAdmits(norm, segments, path[1..], k);
      }
    } else {
      AdmitsNameExactly(norm, segments[0], 0 == k);
      MatchedAdmits(norm, segments[1..], path[1..], k - 1);
      AdmitsFromRest(norm, segments, k);
    }
  }

  lemma AdmitsFromRest(norm: string -> string, segments: seq<string>, k: int)
    requires segments != [] && AdmitsPath(norm, segments[1..], if k < 0 then -1 else k - 1)
    requires segments[0] == "**" || AdmitsName(norm, segments[0], 0 == k)
    ensures AdmitsPath(norm, segments, k)
  {
    hide AdmitsName;
    forall i | 0 <= i < |segments|
      ensures segments[i] == "**" || AdmitsName(norm, segments[i], i == k)
    {
      if i > 0 { assert segments[1..][i - 1] == segments[i]; }
    }
  }
}
