/** Three scopes: one the overlap test misreads, one it compares in the wrong spelling, and one whose
    early wildcard does no harm. */
module OverlapExamples {
  import opened Ordering
  import opened Text
  import opened Globs
  import opened Scopes
  import opened Overlaps

  lemma OneSegment(norm: string -> string, p: string)
    requires Normalisation(norm) && '/' !in p
    ensures Segments("/" + p) == [p] && Segments(norm("/" + p)) == [norm(p)]
    ensures '*' !in p ==> LiteralSegments([p]) == [p] && LiteralSegments([norm(p)]) == [norm(p)]
  {
    var a := "/" + p;
    assert a[1..] == p;
    SplitWhole(p, '/');
    NormSegments(norm, a);
    NormChar(norm, p, '*');
    assert NormAll(norm, [p]) == [norm(p)] && [p][1..] == [] && [norm(p)][1..] == [];
  }

  lemma OneCompiles(norm: string -> string, p: string)
    requires Normalisation(norm) && '/' !in p && NoneOf(p) && CompilesSegment(norm(p))
    ensures CompilePattern(norm, "/" + p) == Some([norm(p)])
  {
    var a := "/" + p;
    OneSegment(norm, p);
    assert "" + ['/'] + p == a && Parts(norm, "", '/', p);
    NormChar(norm, p, '/');
    var c := norm(p);
    assert c != "" && '/' !in c;
    hide Normalisation, CompilesSegment, Segments, LiteralSegments, NoneOf;
    assert norm(a) == "/" + c && norm(a)[|c|] == c[|c| - 1];
    assert forall i :: 0 <= i < 1 ==> CompilesSegment([c][i]);
    assert !ContainsAny(a, "\\\r\n\0") by { NoneInScope(p); }
  }

  lemma NoneInScope(p: string)
    requires NoneOf(p)
    ensures !ContainsAny("/" + p, "\\\r\n\0")
  {
    var a := "/" + p;
    forall i | 0 <= i < |a| ensures a[i] !in "\\\r\n\0" { assert i > 0 ==> a[i] == p[i - 1] && a[i] in p; }
  }

  /** Trust in a scope of one segment without '*'. */
  lemma OneTrusted(norm: string -> string, p: string)
    requires Normalisation(norm) && '/' !in p && '*' !in p && NoneOf(p) && CompilesSegment(norm(p))
    ensures Trusted(norm, "/" + p) <==>
      if PlainSegment(norm(p)) then norm(p) == p || !AdmitsName(norm, norm(p), false) else !AdmitsName(norm, norm(p), true)
  {
    var c := norm(p);
    OneSegment(norm, p);
    OneCompiles(norm, p);
    NormChar(norm, p, '*');
    assert "**"[0] == '*' && c != "**";
    hide Normalisation, CompilesSegment, Segments, LiteralSegments, CompilePattern, AdmitsName, PlainSegment;
    assert [c][..1] == [c] && [c][..0] == [] && FirstWild([c]) == if PlainSegment(c) then 1 else 0;
    assert forall k :: AdmitsPath(norm, [c], k) <==> AdmitsName(norm, [c][0], 0 == k);
  }

  /** A wildcard read literally: the scope "/?". */
  lemma QuestionMark(norm: string -> string)
    requires Normalisation(norm)
    ensures ValidScope("/?") && !Trusted(norm, "/?")
  {
    var p := "?";
    assert Parts(norm, "", '?', "") && "" + ['?'] + "" == p && norm(p) == p;
    AnyCharMatches(norm);
    OneSegment(norm, p);
    AdmitsNameExactly(norm, p, true);
    hide Normalisation, NormalName, CompilesSegment, MatchSegment, AdmitsName;
    OneTrusted(norm, p);
    hide Trusted, Segments;
    assert p[0] == '?' && "/" + p == "/?";
  }

  lemma AnyCharMatches(norm: string -> string)
    requires Normalisation(norm)
    ensures MatchSegment("?", "0") && CompilesSegment("?") && NormalName(norm, "0", true)
  {
    assert Parts(norm, "", '0', "") && "" + ['0'] + "" == "0";
    assert "?"[1..] == "" && Tokens("") == Some([]) && Tokens("?") == Some([AnyChar] + []);
    assert [AnyChar][1..] == [] && "0"[1..] == "" && MatchTokens([AnyChar], "0");
  }

  /** A name spelt otherwise than in normal form. */
  lemma Misspelt(norm: string -> string, name: string)
    requires Normalisation(norm) && RepositoryName(name) && PlainSegment(name)
    requires norm(name) != name && NormalName(norm, norm(name), true)
    ensures ValidScope("/" + name) && !Trusted(norm, "/" + name)
  {
    var c := norm(name);
    NameChars(name);
    NameChars(c);
    OneSegment(norm, name);
    PlainTokens(c);
    PlainMatch(c, c);
    assert NormalName(norm, c, false);
    AdmitsNameExactly(norm, c, false);
    assert CompilesSegment(c) && NoneOf(name);
    hide Normalisation, CompilesSegment, MatchSegment, AdmitsName, RepositoryName;
    OneTrusted(norm, name);
  }

  /** A wildcard read literally that does no harm: an accent after its letter is never in normal form. */
  lemma AccentClass(norm: string -> string)
    requires Normalisation(norm) && norm(['e', '\U{0301}']) != ['e', '\U{0301}'] && norm(ACCENT_CLASS) == ACCENT_CLASS
    ensures ValidScope("/" + ACCENT_CLASS) && !PlainPrefix("/" + ACCENT_CLASS) && Trusted(norm, "/" + ACCENT_CLASS)
  {
    var p := ACCENT_CLASS;
    OneSegment(norm, p);
    AccentIsScope();
    hide Tokens, MatchSegment, AdmitsName, Normalisation, CompilesSegment, ValidScope, Segments, LiteralSegments, NoneOf;
    assert "/" + p == ['/'] + p;
    forall name | MatchSegment(p, name) ensures name == ['e', '\U{0301}'] { AccentMatches(name); }
    AdmitsNameExactly(norm, p, true);
    OneTrusted(norm, p);
    hide PlainSegment, Trusted;
    assert p in LiteralSegments(Segments("/" + p));
  }

  lemma AccentIsScope()
    ensures ValidScope(['/'] + ACCENT_CLASS) && CompilesSegment(ACCENT_CLASS) && NoneOf(ACCENT_CLASS)
    ensures '/' !in ACCENT_CLASS && '*' !in ACCENT_CLASS && !PlainSegment(ACCENT_CLASS)
  {
    var p := ACCENT_CLASS;
    AccentTokens();
    hide Tokens;
    SplitWhole(p, '/');
    assert p[1] == '[' && (['/'] + p)[1..] == p;
  }

  lemma AccentMatches(name: string)
    requires MatchSegment(ACCENT_CLASS, name)
    ensures name == ['e', '\U{0301}']
  {
    AccentTokens();
    var t := [Lit('e'), Class(false, [('\U{0301}', '\U{0301}')])];
    hide Tokens;
    assert MatchTokens(t[1..], name[1..]) && t[1..][0] == t[1];
    assert MatchTokens(t[1..][1..], name[1..][1..]) && t[1..][1..] == [];
    assert name == [name[0]] + [name[1]];
  }

  const ACCENT_CLASS := ['e', '[', '\U{0301}', ']']

  lemma AccentTokens()
    ensures Tokens(ACCENT_CLASS) == Some([Lit('e'), Class(false, [('\U{0301}', '\U{0301}')])])
  {
    var c, all := '\U{0301}', ACCENT_CLASS;
    var rest := all[1..];
    var inner := rest[1..];
    assert |rest| == 3 && rest[0] == '[' && rest[1] == c && c != '^' && c != ']' && c != '-' && c != '\\' && inner == [c, ']'] && inner[1..] == [']'] && [']'][1..] == [];
    assert ClassRanges(inner[1..], false) == Some(([], []));
    assert ClassRanges(inner, true) == Some(([(c, c)] + [], []));
    assert [(c, c)] + [] == [(c, c)] && Tokens([]) == Some([]);
    assert Tokens(rest) == Some([Class(false, [(c, c)])] + []);
    assert Tokens(all) == Some([Lit('e')] + ([Class(false, [(c, c)])] + []));
    assert [Lit('e')] + ([Class(false, [(c, c)])] + []) == [Lit('e'), Class(false, [(c, c)])];
  }
}
