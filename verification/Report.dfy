/** Two-file report publication: the data of internal/report/files.go and
    internal/store/sqlite/final_report.go, and what concurrent publishers may do to each other.
    A Goal is finalized by the execution loop or by a request handler, and a request handler that
    reads a report recovers it first, so several publishers run at once and any of them may be cut
    off between any two file or store operations. */
module Report {
  import opened Text

  type Bytes = seq<int>

  datatype Kind = Json | Markdown

  /** A name below `reports/<goal>/`. A temporary name carries the random number it was drawn with. */
  datatype Path =
    | Final(goal: string, report: string, kind: Kind)
    | Temp(goal: string, report: string, kind: Kind, nonce: nat)

  datatype File = Regular(content: Bytes) | Irregular

  /** SHA-256, free of collisions. */
  datatype Digest = Sha256(content: Bytes)

  datatype Artifact = Artifact(
    reportHash: string, json: Bytes, jsonHash: Digest, markdown: Bytes, markdownHash: Digest)

  datatype Item = Item(final: Path, temp: Path, hash: Digest, payload: Bytes)

  datatype Prepared = Prepared(goal: string, reportHash: string, json: Item, markdown: Item)

  datatype RecordState = PendingRename | Committed

  datatype Record = Record(files: Prepared, state: RecordState, version: nat)

  /** Everything durable. `drawn` counts the random numbers drawn so far: they never repeat. */
  datatype Disk = Disk(files: map<Path, File>, records: map<string, Record>, drawn: nat)

  // ----- validity -----

  predicate SafeName(value: string) {
    value != "" && Trimmed(value) && value != "." && value != ".." &&
    !ContainsAny(value, ['/', '\\', '\r', '\n', '\0'])
  }

  predicate HexDigit(c: char) {
    '0' <= c <= '9' || 'a' <= c <= 'f' || 'A' <= c <= 'F'
  }

  predicate ValidHash(value: string) {
    |value| == 64 && forall i :: 0 <= i < |value| ==> HexDigit(value[i])
  }

  predicate ValidArtifact(goal: string, a: Artifact) {
    SafeName(goal) && ValidHash(a.reportHash) && Sha256(a.json) == a.jsonHash && Sha256(a.markdown) == a.markdownHash
  }

  function ItemOf(p: Prepared, kind: Kind): Item {
    if kind == Json then p.json else p.markdown
  }

  predicate ItemOk(it: Item, goal: string, report: string, kind: Kind, drawn: nat) {
    it.final == Final(goal, report, kind) && it.hash == Sha256(it.payload) &&
    it.temp.Temp? && it.temp == Temp(goal, report, kind, it.temp.nonce) && it.temp.nonce < drawn
  }

  predicate PreparedOk(p: Prepared, goal: string, drawn: nat) {
    SafeName(goal) && ValidHash(p.reportHash) && p.goal == goal &&
    ItemOk(p.json, goal, p.reportHash, Json, drawn) && ItemOk(p.markdown, goal, p.reportHash, Markdown, drawn)
  }

  // ----- the invariant -----

  /** A final name only ever holds the payload of its Goal's record. */
  predicate PathOk(d: Disk, p: Path) {
    p in d.files ==>
      match p
      case Final(goal, report, kind) =>
        goal in d.records && ItemOf(d.records[goal].files, kind).final == p &&
        d.files[p] == Regular(ItemOf(d.records[goal].files, kind).payload)
      case Temp(_, _, _, nonce) => nonce < d.drawn
  }

  /** A committed record has both its files. */
  predicate RecordOk(d: Disk, goal: string) {
    goal in d.records ==>
      PreparedOk(d.records[goal].files, goal, d.drawn) &&
      (d.records[goal].state == Committed ==>
         d.records[goal].files.json.final in d.files && d.records[goal].files.markdown.final in d.files)
  }

  predicate Inv(d: Disk) {
    (forall p :: p in d.files ==> PathOk(d, p)) && (forall goal :: goal in d.records ==> RecordOk(d, goal))
  }

  // ----- what one publisher guarantees and relies on -----

  /** A temporary name that some record refers to. */
  predicate Recorded(d: Disk, p: Path) {
    p.Temp? && p.goal in d.records && ItemOf(d.records[p.goal].files, p.kind).temp == p
  }

  predicate SameFile(a: Disk, b: Disk, p: Path) {
    (p in a.files <==> p in b.files) && (p in a.files ==> a.files[p] == b.files[p])
  }

  /** A record is never withdrawn, changed or turned back to pending. */
  predicate RecordKept(a: Disk, b: Disk, goal: string) {
    goal in a.records ==>
      goal in b.records && b.records[goal].files == a.records[goal].files &&
      (a.records[goal].state == Committed ==> b.records[goal] == a.records[goal])
  }

  /** Records and published files last. */
  predicate Grew(a: Disk, b: Disk) {
    a.drawn <= b.drawn &&
    (forall goal :: goal in a.records ==> RecordKept(a, b, goal)) &&
    (forall p :: p in a.files && p.Final? ==> SameFile(a, b, p))
  }

  predicate IntactItem(d: Disk, it: Item) {
    it.temp in d.files ==> d.files[it.temp] == Regular(it.payload)
  }

  /** The temporary files a record refers to, where they still exist, hold the payload. */
  predicate IntactAt(d: Disk, goal: string) {
    goal in d.records ==> IntactItem(d, d.records[goal].files.json) && IntactItem(d, d.records[goal].files.markdown)
  }

  predicate Intact(d: Disk) {
    forall goal :: goal in d.records ==> IntactAt(d, goal)
  }

  /** What the other publishers may do to one that is working on the temporary files `own`: a
      temporary file that a record refers to may disappear (renamed or removed), never change. */
  predicate Rely(a: Disk, b: Disk, own: set<Path>) {
    (Inv(a) ==> Inv(b)) && Grew(a, b) &&
    (forall p :: p in own ==> SameFile(a, b, p) && (Recorded(b, p) ==> Recorded(a, p))) &&
    (forall p :: p in b.files && Recorded(a, p) ==> SameFile(a, b, p)) &&
    (forall goal :: goal in b.records && goal !in a.records ==> IntactAt(b, goal))
  }

  /** What one step of a publisher working on `own` does to the others. */
  predicate Guarantee(a: Disk, b: Disk, own: set<Path>) {
    (Inv(a) ==> Inv(b)) && Grew(a, b) &&
    (forall p :: p in a.files && p.Temp? ==> p in own || SameFile(a, b, p) || Recorded(a, p)) &&
    (forall p :: p in b.files && p.Temp? ==> p in own || SameFile(a, b, p)) &&
    (forall p :: p in b.files && Recorded(a, p) ==> SameFile(a, b, p)) &&
    (forall goal :: goal in b.records && goal !in a.records ==>
       b.records[goal].files.json.temp in own && b.records[goal].files.markdown.temp in own && IntactAt(b, goal))
  }

  /** Publishers with different temporary files are compatible: what one does is what the others
      rely on, as long as theirs are not recorded yet. */
  lemma GuaranteeIsRely(a: Disk, b: Disk, own: set<Path>, theirs: set<Path>)
    requires Guarantee(a, b, own) && own !! theirs
    requires forall p :: p in theirs ==> p.Temp? && !Recorded(a, p)
    ensures Rely(a, b, theirs)
  {
    hide Inv;
    forall p | p in theirs
      ensures SameFile(a, b, p) && !Recorded(b, p)
    {
      assert p.goal in a.records ==> RecordKept(a, b, p.goal);
    }
  }

  lemma RelyReflexive(a: Disk, own: set<Path>)
    ensures Rely(a, a, own)
  {
    GrewReflexive(a);
  }

  /** A record whose temporary files are intact stays so, and so does a state in which all are. */
  lemma IntactKeptAt(a: Disk, b: Disk, own: set<Path>, goal: string)
    requires Rely(a, b, own) && Inv(a) && goal in a.records && IntactAt(a, goal)
    ensures IntactAt(b, goal)
  {
    ItemShape(a, goal, Json);
    ItemShape(a, goal, Markdown);
    KeptRecord(a, b, goal);
    hide Inv, Grew, Recorded, ItemOk;
    assert Recorded(a, a.records[goal].files.json.temp) && Recorded(a, a.records[goal].files.markdown.temp);
  }

  lemma IntactKept(a: Disk, b: Disk, own: set<Path>)
    requires Rely(a, b, own) && Inv(a) && Intact(a)
    ensures Intact(b)
  {
    forall goal | goal in b.records
      ensures IntactAt(b, goal)
    {
      if goal in a.records { IntactKeptAt(a, b, own, goal); }
    }
  }

  lemma RelyTransitive(a: Disk, b: Disk, c: Disk, own: set<Path>)
    requires Rely(a, b, own) && Rely(b, c, own) && Inv(a)
    ensures Rely(a, c, own)
  {
    hide Inv, IntactAt;
    NewRecordsIntact(a, b, c, own);
    assert Grew(a, c) by {
      hide Recorded;
      GrewTransitive(a, b, c);
    }
    hide Grew;
    forall p | p in c.files && Recorded(a, p)
      ensures SameFile(a, c, p)
    {
      KeptRecord(a, b, p.goal);
      assert Recorded(b, p);
      assert SameFile(b, c, p) && SameFile(a, b, p);
    }
  }

  lemma NewRecordsIntact(a: Disk, b: Disk, c: Disk, own: set<Path>)
    requires Rely(a, b, own) && Rely(b, c, own) && Inv(a)
    ensures forall goal :: goal in c.records && goal !in a.records ==> IntactAt(c, goal)
  {
    hide Inv, IntactAt, Grew;
    forall goal | goal in c.records && goal !in a.records
      ensures IntactAt(c, goal)
    {
      if goal in b.records { IntactKeptAt(b, c, own, goal); }
    }
  }

  lemma GrewReflexive(d: Disk)
    ensures Grew(d, d)
  {
    assert forall goal :: goal in d.records ==> RecordKept(d, d, goal);
  }

  lemma GrewTransitive(a: Disk, b: Disk, c: Disk)
    requires Grew(a, b) && Grew(b, c)
    ensures Grew(a, c)
  {
    forall goal | goal in a.records
      ensures RecordKept(a, c, goal)
    {
      assert RecordKept(a, b, goal) && RecordKept(b, c, goal);
    }
    forall p | p in a.files && p.Final?
      ensures SameFile(a, c, p)
    {
      assert SameFile(a, b, p) && SameFile(b, c, p);
    }
  }

  // ----- the outcome of undisturbed publication -----

  /** One file published: its final name holds the payload and its temporary file is gone. */
  function Settled(files: map<Path, File>, it: Item): map<Path, File> {
    var rest := if it.temp in files && files[it.temp].Regular? then files - {it.temp} else files;
    rest[it.final := Regular(it.payload)]
  }

  /** When `publish` succeeds undisturbed: the file is already there, or its temporary file is
      intact, or that is missing and may be rebuilt from the record. */
  predicate Publishable(files: map<Path, File>, it: Item, rebuild: bool) {
    if it.final in files then files[it.final] == Regular(it.payload)
    else if it.temp in files then files[it.temp] == Regular(it.payload)
    else rebuild
  }

  /** Publishing one file leaves the other's files alone. */
  lemma SettledApart(files: map<Path, File>, it: Item, other: Item, rebuild: bool)
    requires it.final.Final? && it.temp.Temp? && other.final.Final? && other.temp.Temp?
    requires it.final != other.final && it.temp != other.temp
    ensures Publishable(Settled(files, it), other, rebuild) <==> Publishable(files, other, rebuild)
  {
  }

  /** What undisturbed recovery of one record leaves of the files. */
  function Recovered(files: map<Path, File>, p: Prepared, rebuild: bool): map<Path, File> {
    if !Publishable(files, p.json, rebuild) then files
    else
      var one := Settled(files, p.json);
      if !Publishable(one, p.markdown, rebuild) then one else Settled(one, p.markdown)
  }

  predicate PublishableBoth(files: map<Path, File>, p: Prepared, rebuild: bool) {
    Publishable(files, p.json, rebuild) && Publishable(files, p.markdown, rebuild)
  }

  /** Publishing writes the payload under the final name, removes a regular temporary file and touches nothing else. */
  lemma SettledExactly(files: map<Path, File>, it: Item, p: Path)
    requires it.final.Final? && it.temp.Temp?
    ensures var after := Settled(files, it);
      && it.final in after && after[it.final] == Regular(it.payload)
      && (it.temp in after <==> it.temp in files && files[it.temp] == Irregular)
      && (p != it.final && p != it.temp ==> (p in after <==> p in files) && (p in files ==> after[p] == files[p]))
  {
  }

  /** A published file stays published; otherwise an existing temporary file must hold the payload, and a missing one
      may be rebuilt where that is allowed. */
  lemma PublishableExactly(files: map<Path, File>, it: Item, rebuild: bool)
    ensures it.final in files ==> (Publishable(files, it, rebuild) <==> files[it.final] == Regular(it.payload))
    ensures it.final !in files && it.temp in files ==> (Publishable(files, it, rebuild) <==> files[it.temp] == Regular(it.payload))
    ensures it.final !in files && it.temp !in files ==> (Publishable(files, it, rebuild) <==> rebuild)
  {
  }

  /** Both files are published, the first one only, or none: publication stops at the first that cannot be. */
  lemma RecoveredExactly(files: map<Path, File>, p: Prepared, rebuild: bool)
    requires p.json.final.Final? && p.json.temp.Temp? && p.markdown.final.Final? && p.markdown.temp.Temp?
    requires p.json.final != p.markdown.final && p.json.temp != p.markdown.temp
    ensures var after := Recovered(files, p, rebuild);
      && (PublishableBoth(files, p, rebuild) ==>
            p.json.final in after && after[p.json.final] == Regular(p.json.payload) &&
            p.markdown.final in after && after[p.markdown.final] == Regular(p.markdown.payload))
      && (!Publishable(files, p.json, rebuild) ==> after == files)
      && (Publishable(files, p.json, rebuild) && !Publishable(files, p.markdown, rebuild) ==> after == Settled(files, p.json))
  {
    SettledApart(files, p.json, p.markdown, rebuild);
    SettledExactly(Settled(files, p.json), p.markdown, p.json.final);
  }

  /** What a report may be published under: one clean name, a hash of 64 hexadecimal digits, and payloads that have
      the hashes they are announced with. */
  lemma ArtifactExactly(goal: string, a: Artifact)
    ensures ValidArtifact(goal, a) ==>
      && goal != "" && goal != "." && goal != ".." && '/' !in goal && '\\' !in goal && '\r' !in goal && '\n' !in goal && '\0' !in goal
      && !IsSpace(goal[0]) && !IsSpace(goal[|goal| - 1])
      && |a.reportHash| == 64 && (forall c :: c in a.reportHash ==> c in "0123456789abcdefABCDEF")
      && a.jsonHash == Sha256(a.json) && a.markdownHash == Sha256(a.markdown)
    ensures ValidArtifact(goal, a) <== SafeName(goal) && |a.reportHash| == 64 &&
      (forall c :: c in a.reportHash ==> c in "0123456789abcdefABCDEF") && a.jsonHash == Sha256(a.json) && a.markdownHash == Sha256(a.markdown)
  {
    forall c: char ensures HexDigit(c) <==> c in "0123456789abcdefABCDEF" { HexDigits(c); }
    if ValidArtifact(goal, a) {
      NoSeparator(goal);
      forall c | c in a.reportHash ensures HexDigit(c) { var i :| 0 <= i < |a.reportHash| && a.reportHash[i] == c; }
    }
  }

  lemma HexDigits(c: char)
    ensures HexDigit(c) <==> c in "0123456789abcdefABCDEF"
  {
    var digits := "0123456789abcdefABCDEF";
    if '0' <= c <= '9' { assert digits[c as int - '0' as int] == c; }
    if 'a' <= c <= 'f' { assert digits[10 + (c as int - 'a' as int)] == c; }
    if 'A' <= c <= 'F' { assert digits[16 + (c as int - 'A' as int)] == c; }
  }

  lemma NoSeparator(goal: string)
    requires !ContainsAny(goal, ['/', '\\', '\r', '\n', '\0'])
    ensures '/' !in goal && '\\' !in goal && '\r' !in goal && '\n' !in goal && '\0' !in goal
  {
    forall c | c in goal ensures c !in ['/', '\\', '\r', '\n', '\0'] { var i :| 0 <= i < |goal| && goal[i] == c; }
  }

  // ----- consequences of the invariant and of growth -----

  lemma KeptRecord(a: Disk, b: Disk, goal: string)
    requires Grew(a, b) && goal in a.records
    ensures goal in b.records && b.records[goal].files == a.records[goal].files
    ensures a.records[goal].state == Committed ==> b.records[goal] == a.records[goal]
  {
    assert RecordKept(a, b, goal);
  }

  lemma KeptFinal(a: Disk, b: Disk, p: Path)
    requires Grew(a, b) && p in a.files && p.Final?
    ensures p in b.files && b.files[p] == a.files[p]
  {
    assert SameFile(a, b, p);
  }

  lemma FinalIs(d: Disk, goal: string, kind: Kind)
    requires Inv(d) && goal in d.records
    ensures var it := ItemOf(d.records[goal].files, kind);
      it.final in d.files ==> d.files[it.final] == Regular(it.payload)
  {
    var it := ItemOf(d.records[goal].files, kind);
    assert RecordOk(d, goal);
    assert it.final in d.files ==> PathOk(d, it.final);
  }

  lemma ItemShape(d: Disk, goal: string, kind: Kind)
    requires Inv(d) && goal in d.records
    ensures ItemOk(ItemOf(d.records[goal].files, kind), goal, d.records[goal].files.reportHash, kind, d.drawn)
    ensures SafeName(goal) && ValidHash(d.records[goal].files.reportHash) && d.records[goal].files.goal == goal
    ensures Recorded(d, ItemOf(d.records[goal].files, kind).temp)
  {
    assert RecordOk(d, goal);
  }

  lemma CommittedHasFiles(d: Disk, goal: string, kind: Kind)
    requires Inv(d) && goal in d.records && d.records[goal].state == Committed
    ensures ItemOf(d.records[goal].files, kind).final in d.files
  {
    assert RecordOk(d, goal);
  }

  /** With intact temporary files every record can be published, rebuilding what is missing. */
  lemma IntactPublishable(d: Disk, goal: string)
    requires Inv(d) && Intact(d) && goal in d.records
    ensures PublishableBoth(d.files, d.records[goal].files, true)
  {
    hide Inv;
    FinalIs(d, goal, Json);
    FinalIs(d, goal, Markdown);
    assert IntactAt(d, goal);
  }
}
