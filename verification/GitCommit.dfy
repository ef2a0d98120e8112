/** Commit messages and trailers: internal/promotion/manager.go builds them,
    internal/gitrepo/commit.go reads them back. */
module GitCommit {
  import opened Ordering
  import opened Text

  type Trailers = map<string, string>

  /** One message line as `ReadCommit` treats it. */
  datatype Line = Plain | Trailer(key: string, value: string)

  function Classify(line: string): Line {
    match CutColon(line)
    case None => Plain
    case Some((key, value)) => if HasPrefix(key, "XGoal-") then Trailer(key, value) else Plain
  }

  /** A repeated key, an empty value or a control character makes the commit unreadable. */
  predicate Refused(line: Line, seen: Trailers) {
    line.Trailer? && (line.key in seen || line.value == "" || ContainsAny(line.value, "\r\n\0"))
  }

  function CollectTrailers(lines: seq<string>, seen: Trailers): Option<Trailers> {
    if lines == [] then Some(seen)
    else
      var line := Classify(lines[0]);
      if Refused(line, seen) then None
      else CollectTrailers(lines[1..], if line.Trailer? then seen[line.key := line.value] else seen)
  }

  /** The trailers of a stored message; None when `ReadCommit` returns an error. */
  function MessageTrailers(message: string): Option<Trailers> {
    CollectTrailers(Split(TrimSuffix(message, "\n"), '\n'), map[])
  }

  /** A trailer line with a value of one clean line whose key no earlier line has; or no trailer at all. */
  predicate Acceptable(lines: seq<string>, i: nat)
    requires i < |lines|
  {
    var line := Classify(lines[i]);
    line.Trailer? ==>
      line.value != "" && '\r' !in line.value && '\n' !in line.value && '\0' !in line.value &&
      forall j :: 0 <= j < i && Classify(lines[j]).Trailer? ==> Classify(lines[j]).key != line.key
  }

  /** A message is readable exactly if every trailer line is acceptable; the trailers are then those lines. */
  lemma TrailersExactly(lines: seq<string>)
    ensures var r := CollectTrailers(lines, map[]);
      && (r.Some? <==> forall i :: 0 <= i < |lines| ==> Acceptable(lines, i))
      && (r.Some? ==> forall k, v :: (k in r.value && r.value[k] == v) <==>
            exists i :: 0 <= i < |lines| && Classify(lines[i]) == Trailer(k, v))
  {
    CollectExactly(lines, map[]);
    var r := CollectTrailers(lines, map[]);
    if r.Some? {
      forall k, v
        ensures (k in r.value && r.value[k] == v) <==> exists i :: 0 <= i < |lines| && Classify(lines[i]) == Trailer(k, v)
      {
        CollectContents(lines, map[], k, v);
      }
    }
    if forall i :: 0 <= i < |lines| ==> Acceptable(lines, i) {
      forall i, j | 0 <= j < i < |lines| && Classify(lines[i]).Trailer? && Classify(lines[j]).Trailer?
        ensures Classify(lines[j]).key != Classify(lines[i]).key
      {
        assert Acceptable(lines, i);
      }
    }
  }

  lemma {:induction false} CollectExactly(lines: seq<string>, seen: Trailers)
    ensures CollectTrailers(lines, seen).Some? <==>
      forall i :: 0 <= i < |lines| ==> Acceptable(lines, i) && (Classify(lines[i]).Trailer? ==> Classify(lines[i]).key !in seen)
    decreases |lines|
  {
    if lines != [] {
      var line, rest := Classify(lines[0]), lines[1..];
      CollectExactly(rest, if line.Trailer? then seen[line.key := line.value] else seen);
      hide Classify;
      CleanValue(line);
      forall i | 0 < i < |lines|
        ensures Acceptable(lines, i) <==> Acceptable(rest, i - 1) && (line.Trailer? && Classify(lines[i]).Trailer? ==> Classify(lines[i]).key != line.key)
      {
        AcceptableLater(lines, i);
      }
      assert forall i :: 0 < i < |lines| ==> lines[i] == rest[i - 1];
      assert forall i :: 0 <= i < |rest| ==> rest[i] == lines[i + 1];
    }
  }

  lemma {:induction false} CollectContents(lines: seq<string>, seen: Trailers, k: string, v: string)
    requires CollectTrailers(lines, seen).Some?
    ensures var r := CollectTrailers(lines, seen).value;
      (k in r && r[k] == v) <==> (k in seen && seen[k] == v) || exists i :: 0 <= i < |lines| && Classify(lines[i]) == Trailer(k, v)
    decreases |lines|
  {
    if lines != [] {
      var line := Classify(lines[0]);
      var next := if line.Trailer? then seen[line.key := line.value] else seen;
      CollectContents(lines[1..], next, k, v);
      SomeLine(lines, k, v);
      hide Classify;
      assert (k in next && next[k] == v) <==> (k in seen && seen[k] == v) || line == Trailer(k, v);
    }
  }

  lemma SomeLine(lines: seq<string>, k: string, v: string)
    requires lines != []
    ensures (exists i :: 0 <= i < |lines| && Classify(lines[i]) == Trailer(k, v)) <==>
      Classify(lines[0]) == Trailer(k, v) || exists i :: 0 <= i < |lines[1..]| && Classify(lines[1..][i]) == Trailer(k, v)
  {
    hide Classify;
    var rest := lines[1..];
    if i :| 0 <= i < |lines| && Classify(lines[i]) == Trailer(k, v) {
      if i > 0 { assert rest[i - 1] == lines[i]; }
    }
    if i :| 0 <= i < |rest| && Classify(rest[i]) == Trailer(k, v) { assert lines[i + 1] == rest[i]; }
  }

  lemma CleanValue(line: Line)
    ensures line.Trailer? ==>
      (ContainsAny(line.value, "\r\n\0") <==> '\r' in line.value || '\n' in line.value || '\0' in line.value)
  {
    if line.Trailer? {
      var v := line.value;
      if '\r' in v { var i :| 0 <= i < |v| && v[i] == '\r'; assert v[i] in "\r\n\0"; }
      if '\n' in v { var i :| 0 <= i < |v| && v[i] == '\n'; assert v[i] in "\r\n\0"; }
      if '\0' in v { var i :| 0 <= i < |v| && v[i] == '\0'; assert v[i] in "\r\n\0"; }
    }
  }

  lemma AcceptableLater(lines: seq<string>, i: nat)
    requires 0 < i < |lines|
    ensures Acceptable(lines, i) <==>
      Acceptable(lines[1..], i - 1) &&
      (Classify(lines[0]).Trailer? && Classify(lines[i]).Trailer? ==> Classify(lines[i]).key != Classify(lines[0]).key)
  {
    hide Classify;
    var rest := lines[1..];
    assert forall j :: 0 <= j < |rest| ==> rest[j] == lines[j + 1];
    assert forall j :: 0 < j < |lines| ==> lines[j] == rest[j - 1];
  }

  /** The trailer loop of `ReadCommit`. */
  method ReadTrailers(message: string) returns (result: Option<Trailers>)
    ensures result == MessageTrailers(message)
  {
    var lines := Split(TrimSuffix(message, "\n"), '\n');
    var trailers: Trailers := map[];
    for i := 0 to |lines|
      invariant CollectTrailers(lines, map[]) == CollectTrailers(lines[i..], trailers)
    {
      assert lines[i..][0] == lines[i] && lines[i..][1..] == lines[i + 1..];
      var line := Classify(lines[i]);
      if line.Trailer? {
        if line.key in trailers || line.value == "" || ContainsAny(line.value, "\r\n\0") {
          return None;
        }
        trailers := trailers[line.key := line.value];
      }
    }
    return Some(trailers);
  }

  /** The five facts a promotion commit is tagged with. */
  datatype Tags = Tags(goal: string, revision: int, work: string, attempt: string, evidence: string)

  /** The trailer keys in the order `commitMessage` prints them. */
  function Key(i: nat): string {
    match i
    case 0 => "XGoal-Goal"
    case 1 => "XGoal-Goal-Revision"
    case 2 => "XGoal-Work-Item"
    case 3 => "XGoal-Attempt"
    case _ => "XGoal-Evidence-Set"
  }

  function TagValue(t: Tags, i: nat): string {
    match i
    case 0 => t.goal
    case 1 => Decimal(t.revision)
    case 2 => t.work
    case 3 => t.attempt
    case _ => t.evidence
  }

  function PromotionTrailers(t: Tags): Trailers {
    map[Key(0) := t.goal, Key(1) := Decimal(t.revision), Key(2) := t.work, Key(3) := t.attempt, Key(4) := t.evidence]
  }

  function Pairs(t: Tags): (r: seq<(string, string)>)
    ensures |r| == 5 && forall i :: 0 <= i < 5 ==> r[i] == (Key(i), TagValue(t, i))
  {
    [(Key(0), t.goal), (Key(1), Decimal(t.revision)), (Key(2), t.work), (Key(3), t.attempt), (Key(4), t.evidence)]
  }

  function TrailerLines(pairs: seq<(string, string)>): (lines: seq<string>)
    ensures |lines| == |pairs|
    ensures forall i :: 0 <= i < |pairs| ==> lines[i] == pairs[i].0 + ": " + pairs[i].1
  {
    seq(|pairs|, i requires 0 <= i < |pairs| => pairs[i].0 + ": " + pairs[i].1)
  }

  /** Seven lines: the subject, a blank line and the five trailers. */
  function CommitMessage(t: Tags): string {
    Join(["xgoal: promote " + t.work, ""] + TrailerLines(Pairs(t)), '\n') + "\n"
  }

  /** `validLabel`; every Dafny string is valid UTF-8. */
  predicate ValidLabel(s: string) {
    s != "" && Trimmed(s) && !ContainsAny(s, "\r\n\0")
  }

  predicate ValidTags(t: Tags) {
    ValidLabel(t.goal) && t.revision > 0 && ValidLabel(t.work) && ValidLabel(t.attempt) && ValidLabel(t.evidence)
  }

  lemma DecimalIsLabel(n: int)
    requires n > 0
    ensures ValidLabel(Decimal(n))
  {
    var s := Decimal(n);
    forall i | 0 <= i < |s| ensures s[i] !in "\r\n\0" && !IsSpace(s[i]) { assert IsDigit(s[i]); }
  }

  lemma LabelHasNoBreak(s: string)
    requires ValidLabel(s)
    ensures '\n' !in s
  {
    assert forall i :: 0 <= i < |s| ==> s[i] !in "\r\n\0";
    assert '\n' in "\r\n\0";
  }

  lemma SubjectHasNoBreak(work: string)
    requires ValidLabel(work)
    ensures '\n' !in "xgoal: promote " + work
  {
    LabelHasNoBreak(work);
  }

  lemma PairHasNoBreak(p: (string, string))
    requires ValidLabel(p.1) && '\n' !in p.0
    ensures '\n' !in p.0 + ": " + p.1
  {
    LabelHasNoBreak(p.1);
  }

  lemma UnterminatedLines(lines: seq<string>)
    requires lines != [] && forall i :: 0 <= i < |lines| ==> '\n' !in lines[i]
    ensures Split(TrimSuffix(Join(lines, '\n') + "\n", "\n"), '\n') == lines
  {
    var joined := Join(lines, '\n');
    assert (joined + "\n")[..|joined|] == joined;
    SplitJoin(lines, '\n');
  }

  ghost predicate GoodPairs(pairs: seq<(string, string)>, seen: Trailers) {
    && (forall i :: 0 <= i < |pairs| ==>
          ':' !in pairs[i].0 && '\n' !in pairs[i].0 && HasPrefix(pairs[i].0, "XGoal-") && ValidLabel(pairs[i].1) && pairs[i].0 !in seen)
    && (forall i, j :: 0 <= i < j < |pairs| ==> pairs[i].0 != pairs[j].0)
  }

  function Assign(pairs: seq<(string, string)>, seen: Trailers): Trailers {
    if pairs == [] then seen else Assign(pairs[1..], seen[pairs[0].0 := pairs[0].1])
  }

  lemma {:induction false} CollectPairs(pairs: seq<(string, string)>, seen: Trailers)
    requires GoodPairs(pairs, seen)
    ensures CollectTrailers(TrailerLines(pairs), seen) == Some(Assign(pairs, seen))
  {
    if pairs != [] {
      CutColonAt(pairs[0].0, pairs[0].1);
      assert TrailerLines(pairs)[1..] == TrailerLines(pairs[1..]);
      CollectPairs(pairs[1..], seen[pairs[0].0 := pairs[0].1]);
    }
  }

  /** The subject and the blank line carry no trailer. */
  lemma SubjectIsPlain(rest: string, lines: seq<string>)
    ensures CollectTrailers(["xgoal: " + rest, ""] + lines, map[]) == CollectTrailers(lines, map[])
  {
    var l := ["xgoal: " + rest, ""] + lines;
    assert l[0] == "xgoal" + ": " + rest;
    CutColonAt("xgoal", rest);
    assert l[1..] == [""] + lines && l[1..][1..] == lines;
  }

  lemma KeyFacts(i: nat)
    requires i < 5
    ensures ':' !in Key(i) && '\n' !in Key(i) && HasPrefix(Key(i), "XGoal-")
    ensures |Key(i)| == [10, 19, 15, 13, 18][i]
  {
  }

  lemma PairsAreGood(t: Tags)
    requires ValidTags(t)
    ensures GoodPairs(Pairs(t), map[])
  {
    DecimalIsLabel(t.revision);
    forall i | 0 <= i < 5 ensures ':' !in Pairs(t)[i].0 && '\n' !in Pairs(t)[i].0 && HasPrefix(Pairs(t)[i].0, "XGoal-") { KeyFacts(i); }
    forall i, j | 0 <= i < j < 5 ensures Pairs(t)[i].0 != Pairs(t)[j].0 { KeyFacts(i); KeyFacts(j); }
  }

  lemma {:induction false} AssignAppend(p: seq<(string, string)>, last: (string, string), seen: Trailers)
    ensures Assign(p + [last], seen) == Assign(p, seen)[last.0 := last.1]
  {
    if p == [] {
      assert Assign((p + [last])[1..], seen[last.0 := last.1]) == seen[last.0 := last.1];
    } else {
      assert (p + [last])[1..] == p[1..] + [last];
      AssignAppend(p[1..], last, seen[p[0].0 := p[0].1]);
    }
  }

  lemma PairsAssign(t: Tags)
    ensures Assign(Pairs(t), map[]) == PromotionTrailers(t)
  {
    var p := Pairs(t);
    forall i: nat | i < 5 ensures Assign(p[..i + 1], map[]) == Assign(p[..i], map[])[p[i].0 := p[i].1] {
      assert p[..i + 1] == p[..i] + [p[i]];
      AssignAppend(p[..i], p[i], map[]);
    }
    assert p[..5] == p && Assign(p[..0], map[]) == map[];
  }

  lemma BodyHasNoBreak(t: Tags)
    requires ValidTags(t)
    ensures forall i :: 0 <= i < 5 ==> '\n' !in TrailerLines(Pairs(t))[i]
  {
    PairsAreGood(t);
    var p := Pairs(t);
    hide Pairs, ValidLabel, ValidTags;
    forall i | 0 <= i < |p| ensures '\n' !in TrailerLines(p)[i] { PairHasNoBreak(p[i]); }
  }

  /** What `ReadCommit` reads from the message `commitMessage` writes is exactly `promotionTrailers`,
      for every request whose labels pass validation. */
  lemma TrailersRoundTrip(t: Tags)
    requires ValidTags(t)
    ensures MessageTrailers(CommitMessage(t)) == Some(PromotionTrailers(t))
  {
    var body := TrailerLines(Pairs(t));
    var subject := "xgoal: promote " + t.work;
    SubjectHasNoBreak(t.work);
    BodyHasNoBreak(t);
    PairsAreGood(t);
    PairsAssign(t);
    assert subject == "xgoal: " + ("promote " + t.work);
    SubjectIsPlain("promote " + t.work, body);
    CollectPairs(Pairs(t), map[]);
    hide Pairs, PromotionTrailers, TrailerLines, ValidTags, ValidLabel;
    UnterminatedLines([subject, ""] + body);
  }
}
