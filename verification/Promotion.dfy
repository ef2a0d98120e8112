/** Crash-safe promotion of a candidate tree onto a private ref: internal/promotion/manager.go,
    internal/promotion/promotion.go, the ref and commit operations of internal/gitrepo/commit.go and
    the journal of internal/store/sqlite/promotion.go. Every external interaction of `Promote` is
    one step of a machine; a crash, a foreign ref move or an ambiguous reply may fall anywhere. */
module Promotion {
  import opened Ordering
  import opened GitCommit

  type Tree = string

  /** A commit id determines tree, parent, message and time, as a Git object id does. */
  datatype CommitId = Root(tree: Tree, salt: int) | Child(tree: Tree, parent: CommitId, message: string, stamp: int)

  datatype Request = Request(
    id: string, tags: Tags, integrationRef: string, oldCommit: CommitId, candidateTree: Tree,
    commitAt: int, currentDirectory: bool)

  datatype State = Requested | CommitCreated | RefUpdated | Observed | Failed

  datatype Record = Record(request: Request, state: State, commit: Option<CommitId>)

  /** SHA-256 digests of canonical values, free of collisions. */
  datatype Digest = RequestDigest(request: Request) | TrailerDigest(trailers: Trailers) | MarkerDigest(body: MarkerBody)

  datatype MarkerBody = MarkerBody(
    promotion: string, requestHash: Digest, commit: CommitId, tree: Tree, parent: CommitId,
    trailers: Trailers, trailerHash: Digest)

  datatype Marker = Marker(body: MarkerBody, hash: Digest)

  datatype Observation = Observation(ref: string, commit: CommitId, tree: Tree, trailers: Trailers)

  // ----- durable state -----

  /** `moves` is the history of ref updates this request performed. */
  datatype Durable = Durable(
    record: Option<Record>, marker: Option<Marker>, ref: CommitId, commits: set<CommitId>,
    moves: seq<(CommitId, CommitId)>)

  // ----- values the protocol computes -----

  predicate ValidRequest(r: Request) {
    ValidLabel(r.id) && ValidTags(r.tags) && ValidLabel(r.integrationRef) && r.commitAt != 0
  }

  predicate ValidRecord(record: Record) {
    ValidRequest(record.request) &&
    match record.state
    case Requested => record.commit.None?
    case Failed => true
    case _ => record.commit.Some?
  }

  /** The only commit `CreateCommit` can produce for the request. */
  function PromotionCommit(r: Request): CommitId {
    Child(r.candidateTree, r.oldCommit, CommitMessage(r.tags), r.commitAt)
  }

  function NewMarker(r: Request, commit: CommitId, tree: Tree, parent: CommitId): Marker {
    var trailers := PromotionTrailers(r.tags);
    var body := MarkerBody(r.id, RequestDigest(r), commit, tree, parent, trailers, TrailerDigest(trailers));
    Marker(body, MarkerDigest(body))
  }

  /** `validateMarker`. */
  predicate ValidMarker(m: Marker, r: Request) {
    && m.body.promotion == r.id && m.body.requestHash == RequestDigest(r)
    && m.body.tree == r.candidateTree && m.body.parent == r.oldCommit
    && m.body.trailers == PromotionTrailers(r.tags)
    && m.body.trailerHash == TrailerDigest(m.body.trailers)
    && m.hash == MarkerDigest(m.body)
  }

  /** A request that is carried out has clean labels for all it names, a revision and a time. */
  lemma RequestExactly(r: Request)
    ensures ValidRequest(r) <==>
      (forall s :: s in [r.id, r.integrationRef, r.tags.goal, r.tags.work, r.tags.attempt, r.tags.evidence] ==> ValidLabel(s)) &&
      r.tags.revision > 0 && r.commitAt != 0
  {
    hide ValidLabel;
    var labels := [r.id, r.integrationRef, r.tags.goal, r.tags.work, r.tags.attempt, r.tags.evidence];
    assert labels[0] == r.id && labels[1] == r.integrationRef && labels[2] == r.tags.goal && labels[3] == r.tags.work;
    assert labels[4] == r.tags.attempt && labels[5] == r.tags.evidence;
  }

  /** A marker is accepted exactly if it is what would be written for the request and the commit it names. */
  lemma MarkerExactly(m: Marker, r: Request)
    ensures ValidMarker(m, r) <==> m == NewMarker(r, m.body.commit, r.candidateTree, r.oldCommit)
  {
    hide PromotionTrailers;
  }

  /** `readPromotionCommit`: the object exists and carries tree, parent and trailers of the request. */
  predicate CommitMatches(commit: CommitId, commits: set<CommitId>, m: Marker, r: Request) {
    && commit in commits && commit.Child?
    && commit.tree == r.candidateTree && commit.parent == r.oldCommit
    && MessageTrailers(commit.message) == Some(PromotionTrailers(r.tags))
    && m.body.trailers == PromotionTrailers(r.tags)
  }

  function Rank(s: State): int {
    match s case Requested => 1 case CommitCreated => 2 case RefUpdated => 3 case Observed => 4 case Failed => 0
  }

  /** `advancePromotion`: idempotent at or past the target, otherwise one rank at a time. */
  function AdvanceRecord(record: Option<Record>, target: State, commit: CommitId): Option<Record> {
    match record
    case None => None
    case Some(current) =>
      if current.commit.Some? && current.commit.value != commit then None
      else if Rank(current.state) >= Rank(target) && Rank(target) > 0 then Some(current)
      else if current.state != Failed && Rank(target) == Rank(current.state) + 1 then
        Some(current.(state := target, commit := Some(commit)))
      else None
  }

  /** The journal goes forward one state at a time, REQUESTED, COMMIT_CREATED, REF_UPDATED, OBSERVED, with one commit; it
      stands still where it is asked for less, and leads nowhere from FAILED. */
  lemma JournalAdvances(current: Record, target: State, commit: CommitId)
    requires target == CommitCreated || target == RefUpdated || target == Observed
    ensures var r := AdvanceRecord(Some(current), target, commit); var next := current.(state := target, commit := Some(commit));
      && AdvanceRecord(None, target, commit) == None
      && (current.commit.Some? && current.commit.value != commit ==> r == None)
      && (current.state == Failed ==> r == None)
      && (current.commit == Some(commit) && current.state == target ==> r == Some(current))
      && (current.commit == Some(commit) && current.state == Observed ==> r == Some(current))
      && (current.state == Requested ==>
            (r == Some(next) <==> target == CommitCreated && (current.commit == None || current.commit == Some(commit))) && (r == Some(next) || r == None))
      && (current.state == CommitCreated && current.commit == Some(commit) ==> r == if target == CommitCreated then Some(current) else if target == RefUpdated then Some(next) else None)
      && (current.state == RefUpdated && current.commit == Some(commit) ==> r == if target == Observed then Some(next) else Some(current))
  {
  }

  /** The store's `Fail`: refused once observed. */
  function FailRecord(record: Option<Record>): Option<Record> {
    match record
    case None => None
    case Some(current) => if current.state == Observed then Some(current) else Some(current.(state := Failed))
  }

  // ----- the step machine -----

  /** Reply of one interaction: done, refused without effect, or done with the reply lost. */
  datatype Fate = Done | Refused | Lost

  datatype Outcome = Promoted(observation: Observation) | Rejected

  datatype Pc =
    | Idle
    | VerifyEntry | Ensuring | ReadingMarker
    | PreflightNew | VerifyNew | Creating | Publishing(created: CommitId)
    | Checking(m: Marker) | RecordingCommit(m: Marker) | Resolving(m: Marker)
    | PreflightSwap(m: Marker) | VerifySwap(m: Marker) | Swapping(m: Marker)
    | RecordingRef(m: Marker)
    | ObservingRef(m: Marker) | ObservingCommit(m: Marker, seen: CommitId) | ObservingCheckout(m: Marker)
    | RecordingObservation(observation: Observation)
    | Failing
    | Finished(outcome: Outcome)

  datatype Config = Config(durable: Durable, pc: Pc)

  datatype Event = Begin | Reply(fate: Fate) | Crash | Foreign(to: CommitId)

  const REJECT := Finished(Rejected)

  /** A journal write towards `target`, with the next program counter on success. */
  function JournalStep(d: Durable, target: State, commit: CommitId, fate: Fate, next: Pc): Config {
    var advanced := AdvanceRecord(d.record, target, commit);
    if fate == Refused || advanced.None? then Config(d, REJECT)
    else Config(d.(record := advanced), if fate == Done then next else REJECT)
  }

  function Answer(r: Request, d: Durable, pc: Pc, fate: Fate): Config {
    match pc
    case Idle => Config(d, pc)
    case Finished(_) => Config(d, pc)
    case VerifyEntry => Config(d, if fate == Done then Ensuring else REJECT)
    case Ensuring =>
      if fate == Refused then Config(d, REJECT)
      else
        var record := if d.record.None? then Record(r, Requested, None) else d.record.value;
        var usable := ValidRecord(record) && record.request == r && record.state != Failed;
        Config(d.(record := Some(record)), if fate == Done && usable then ReadingMarker else REJECT)
    case ReadingMarker =>
      if fate != Done then Config(d, REJECT)
      else if d.marker.None? then Config(d, PreflightNew)
      else Config(d, if ValidMarker(d.marker.value, r) then Checking(d.marker.value) else REJECT)
    case PreflightNew => Config(d, if fate == Done then VerifyNew else Failing)
    case VerifyNew => Config(d, if fate == Done then Creating else Failing)
    case Creating =>
      var commit := PromotionCommit(r);
      if fate == Refused then Config(d, Failing)
      else Config(d.(commits := d.commits + {commit}), if fate == Done then Publishing(commit) else Failing)
    case Publishing(commit) =>
      if fate == Refused || d.marker.Some? || !commit.Child? then Config(d, REJECT)
      else
        var m := NewMarker(r, commit, commit.tree, commit.parent);
        Config(d.(marker := Some(m)), if fate == Done then Checking(m) else REJECT)
    case Checking(m) =>
      Config(d, if fate == Done && CommitMatches(m.body.commit, d.commits, m, r) then RecordingCommit(m) else REJECT)
    case RecordingCommit(m) => JournalStep(d, CommitCreated, m.body.commit, fate, Resolving(m))
    case Resolving(m) =>
      Config(d, if fate != Done then REJECT
                else if d.ref == r.oldCommit then PreflightSwap(m)
                else if d.ref == m.body.commit then RecordingRef(m)
                else REJECT)
    case PreflightSwap(m) => Config(d, if fate == Done then VerifySwap(m) else Failing)
    case VerifySwap(m) => Config(d, if fate == Done then Swapping(m) else Failing)
    case Swapping(m) =>
      if fate == Refused || d.ref != r.oldCommit then Config(d, REJECT)
      else Config(d.(ref := m.body.commit, moves := d.moves + [(d.ref, m.body.commit)]),
                  if fate == Done then RecordingRef(m) else REJECT)
    case RecordingRef(m) => JournalStep(d, RefUpdated, m.body.commit, fate, ObservingRef(m))
    case ObservingRef(m) => Config(d, if fate == Done then ObservingCommit(m, d.ref) else REJECT)
    case ObservingCommit(m, seen) =>
      Config(d, if fate == Done && CommitMatches(m.body.commit, d.commits, m, r)
                   && seen == m.body.commit && seen.tree == r.candidateTree
                then ObservingCheckout(m) else REJECT)
    case ObservingCheckout(m) =>
      Config(d, if fate == Done
                then RecordingObservation(Observation(r.integrationRef, m.body.commit, m.body.commit.tree, PromotionTrailers(r.tags)))
                else REJECT)
    case RecordingObservation(o) => JournalStep(d, Observed, o.commit, fate, Finished(Promoted(o)))
    case Failing => Config(if fate == Refused then d else d.(record := FailRecord(d.record)), REJECT)
  }

  function Step(r: Request, c: Config, e: Event): Config {
    match e
    case Begin =>
      if !c.pc.Idle? && !c.pc.Finished? then c
      else c.(pc := if ValidRequest(r) && r.currentDirectory then VerifyEntry else REJECT)
    case Reply(fate) => Answer(r, c.durable, c.pc, fate)
    case Crash => c.(pc := Idle)
    case Foreign(to) => c.(durable := c.durable.(ref := to))
  }

  function Exec(r: Request, c: Config, events: seq<Event>): Config {
    if events == [] then c
    else Step(r, Exec(r, c, events[..|events| - 1]), events[|events| - 1])
  }

  /** Before the first run: nothing durable, the ref anywhere but on the future commit. */
  predicate Initial(r: Request, c: Config) {
    c.pc.Idle? && c.durable.record.None? && c.durable.marker.None? && c.durable.moves == []
    && c.durable.ref != PromotionCommit(r)
  }

  /** Others never move the ref back to the old commit nor onto this request's commit. */
  predicate FairEvent(r: Request, e: Event) {
    e.Foreign? ==> e.to != r.oldCommit && e.to != PromotionCommit(r)
  }

  ghost predicate Fair(r: Request, events: seq<Event>) {
    forall i :: 0 <= i < |events| ==> FairEvent(r, events[i])
  }

  // ----- invariant -----

  function OfficialMarker(r: Request): Marker {
    NewMarker(r, PromotionCommit(r), r.candidateTree, r.oldCommit)
  }

  function Expected(r: Request): Observation {
    Observation(r.integrationRef, PromotionCommit(r), r.candidateTree, PromotionTrailers(r.tags))
  }

  predicate DurableInv(r: Request, d: Durable) {
    && (d.record.Some? ==>
          && d.record.value.request == r && ValidRecord(d.record.value)
          && (d.record.value.commit.Some? ==> d.record.value.commit.value == PromotionCommit(r))
          && (d.record.value.state in {CommitCreated, RefUpdated, Observed} ==> d.marker.Some?)
          && (d.record.value.state in {RefUpdated, Observed} ==> d.moves != []))
    && (d.marker.Some? ==> d.marker.value == OfficialMarker(r) && PromotionCommit(r) in d.commits && d.record.Some?)
    && (d.moves == [] || d.moves == [(r.oldCommit, PromotionCommit(r))])
    && (d.moves != [] ==> d.marker.Some? && d.ref != r.oldCommit
                          && d.record.Some? && Rank(d.record.value.state) >= 2)
    && (d.ref == PromotionCommit(r) ==> d.moves != [])
  }

  predicate RecordAtLeast(d: Durable, rank: int) {
    d.record.Some? && Rank(d.record.value.state) >= rank
  }

  predicate PcInv(r: Request, d: Durable, pc: Pc) {
    match pc
    case Idle => true
    case VerifyEntry => ValidRequest(r)
    case Ensuring => ValidRequest(r)
    case ReadingMarker => RecordAtLeast(d, 1)
    case PreflightNew => RecordAtLeast(d, 1) && d.marker.None?
    case VerifyNew => RecordAtLeast(d, 1) && d.marker.None?
    case Creating => RecordAtLeast(d, 1) && d.marker.None?
    case Publishing(c) => RecordAtLeast(d, 1) && d.marker.None? && c == PromotionCommit(r) && c in d.commits
    case Checking(m) => RecordAtLeast(d, 1) && d.marker == Some(m)
    case RecordingCommit(m) => RecordAtLeast(d, 1) && d.marker == Some(m)
    case Resolving(m) => RecordAtLeast(d, 2) && d.marker == Some(m)
    case PreflightSwap(m) => RecordAtLeast(d, 2) && d.marker == Some(m) && d.moves == []
    case VerifySwap(m) => RecordAtLeast(d, 2) && d.marker == Some(m) && d.moves == []
    case Swapping(m) => RecordAtLeast(d, 2) && d.marker == Some(m) && d.moves == []
    case RecordingRef(m) => RecordAtLeast(d, 2) && d.marker == Some(m) && d.moves != []
    case ObservingRef(m) => RecordAtLeast(d, 3) && d.marker == Some(m)
    case ObservingCommit(m, _) => RecordAtLeast(d, 3) && d.marker == Some(m)
    case ObservingCheckout(m) => RecordAtLeast(d, 3) && d.marker == Some(m)
    case RecordingObservation(o) => RecordAtLeast(d, 3) && o == Expected(r)
    case Failing => d.moves == []
    case Finished(o) => o.Promoted? ==> RecordAtLeast(d, 4) && o.observation == Expected(r)
  }

  predicate Inv(r: Request, c: Config) {
    DurableInv(r, c.durable) && PcInv(r, c.durable, c.pc)
  }

  lemma CommitIsNew(r: Request)
    ensures PromotionCommit(r) != r.oldCommit
  {
    assert PromotionCommit(r).parent == r.oldCommit;
  }

  lemma AdvanceKeepsInv(r: Request, d: Durable, target: State)
    requires DurableInv(r, d) && d.marker.Some? && d.record.Some?
    requires target in {CommitCreated, RefUpdated, Observed}
    requires Rank(target) >= 3 ==> d.moves != []
    ensures var after := AdvanceRecord(d.record, target, PromotionCommit(r));
            after.Some? ==> DurableInv(r, d.(record := after)) && Rank(after.value.state) >= Rank(target)
  {
    hide CommitMessage, PromotionTrailers;
  }

  lemma MarkerNamesCommit(r: Request, d: Durable)
    requires DurableInv(r, d) && d.marker.Some?
    ensures d.marker.value.body.commit == PromotionCommit(r) && d.record.Some?
  {
    hide CommitMessage, PromotionTrailers;
  }

  lemma RecordCommitKeepsInv(r: Request, d: Durable, m: Marker, fate: Fate)
    requires DurableInv(r, d) && PcInv(r, d, RecordingCommit(m))
    ensures Inv(r, Answer(r, d, RecordingCommit(m), fate))
  {
    MarkerNamesCommit(r, d);
    hide DurableInv, AdvanceRecord, CommitMessage, PromotionTrailers;
    AdvanceKeepsInv(r, d, CommitCreated);
  }

  lemma RecordRefKeepsInv(r: Request, d: Durable, m: Marker, fate: Fate)
    requires DurableInv(r, d) && PcInv(r, d, RecordingRef(m))
    ensures Inv(r, Answer(r, d, RecordingRef(m), fate))
  {
    MarkerNamesCommit(r, d);
    hide DurableInv, AdvanceRecord, CommitMessage, PromotionTrailers;
    AdvanceKeepsInv(r, d, RefUpdated);
  }

  lemma RecordObservationKeepsInv(r: Request, d: Durable, o: Observation, fate: Fate)
    requires DurableInv(r, d) && PcInv(r, d, RecordingObservation(o))
    ensures Inv(r, Answer(r, d, RecordingObservation(o), fate))
  {
    ObservedAfterMove(r, d);
    hide DurableInv, AdvanceRecord, CommitMessage, PromotionTrailers;
    AdvanceKeepsInv(r, d, Observed);
  }

  lemma ObservedAfterMove(r: Request, d: Durable)
    requires DurableInv(r, d) && RecordAtLeast(d, 3)
    ensures d.moves != [] && d.marker.Some?
  {
    hide CommitMessage, PromotionTrailers;
  }

  lemma EnsureKeepsInv(r: Request, d: Durable, fate: Fate)
    requires DurableInv(r, d) && PcInv(r, d, Ensuring)
    ensures Inv(r, Answer(r, d, Ensuring, fate))
  {
    hide CommitMessage, PromotionTrailers, ValidTags;
  }

  lemma CreateKeepsInv(r: Request, d: Durable, fate: Fate)
    requires DurableInv(r, d) && PcInv(r, d, Creating)
    ensures Inv(r, Answer(r, d, Creating, fate))
  {
    hide CommitMessage, PromotionTrailers, ValidRecord;
  }

  lemma PublishKeepsInv(r: Request, d: Durable, commit: CommitId, fate: Fate)
    requires DurableInv(r, d) && PcInv(r, d, Publishing(commit))
    ensures Inv(r, Answer(r, d, Publishing(commit), fate))
  {
    hide CommitMessage, PromotionTrailers, ValidRecord;
  }

  lemma SwapKeepsInv(r: Request, d: Durable, m: Marker, fate: Fate)
    requires DurableInv(r, d) && PcInv(r, d, Swapping(m))
    ensures Inv(r, Answer(r, d, Swapping(m), fate))
  {
    CommitIsNew(r);
    MarkerNamesCommit(r, d);
    hide CommitMessage, PromotionTrailers, ValidRecord;
  }

  lemma FailKeepsInv(r: Request, d: Durable, fate: Fate)
    requires DurableInv(r, d) && PcInv(r, d, Failing)
    ensures Inv(r, Answer(r, d, Failing, fate))
  {
    hide CommitMessage, PromotionTrailers, ValidRequest;
  }

  predicate Writes(pc: Pc) {
    pc.Ensuring? || pc.Creating? || pc.Publishing? || pc.RecordingCommit? || pc.Swapping?
    || pc.RecordingRef? || pc.RecordingObservation? || pc.Failing?
  }

  predicate Compares(pc: Pc) {
    pc.ReadingMarker? || pc.Checking? || pc.Resolving? || pc.ObservingCommit? || pc.ObservingCheckout?
  }

  /** Yes-or-no checks change the program counter alone. */
  lemma CheckKeepsInv(r: Request, d: Durable, pc: Pc, fate: Fate)
    requires DurableInv(r, d) && PcInv(r, d, pc) && !Compares(pc) && !Writes(pc)
    ensures Inv(r, Answer(r, d, pc, fate))
  {
    ReadFacts(r, d);
    hide DurableInv, PromotionCommit, PromotionTrailers, CommitMatches, ValidMarker, ValidRequest, ValidRecord;
  }

  /** So does reading the marker, the commit object and the ref. */
  lemma ReadMarkerKeepsInv(r: Request, d: Durable, fate: Fate)
    requires DurableInv(r, d) && PcInv(r, d, ReadingMarker)
    ensures Inv(r, Answer(r, d, ReadingMarker, fate))
  {
    hide DurableInv, PromotionCommit, PromotionTrailers, ValidMarker;
  }

  lemma CheckCommitKeepsInv(r: Request, d: Durable, m: Marker, fate: Fate)
    requires DurableInv(r, d) && PcInv(r, d, Checking(m))
    ensures Inv(r, Answer(r, d, Checking(m), fate))
  {
    hide DurableInv, PromotionCommit, PromotionTrailers, CommitMatches;
  }

  lemma ObserveCommitKeepsInv(r: Request, d: Durable, m: Marker, seen: CommitId, fate: Fate)
    requires DurableInv(r, d) && PcInv(r, d, ObservingCommit(m, seen))
    ensures Inv(r, Answer(r, d, ObservingCommit(m, seen), fate))
  {
    hide DurableInv, PromotionCommit, PromotionTrailers, CommitMatches;
  }

  lemma ResolveKeepsInv(r: Request, d: Durable, m: Marker, fate: Fate)
    requires DurableInv(r, d) && PcInv(r, d, Resolving(m))
    ensures Inv(r, Answer(r, d, Resolving(m), fate))
  {
    ReadFacts(r, d);
    hide DurableInv, PromotionCommit, PromotionTrailers;
  }

  lemma CheckoutKeepsInv(r: Request, d: Durable, m: Marker, fate: Fate)
    requires DurableInv(r, d) && PcInv(r, d, ObservingCheckout(m))
    ensures Inv(r, Answer(r, d, ObservingCheckout(m), fate))
  {
    ReadFacts(r, d);
    hide DurableInv, CommitMessage, PromotionTrailers;
  }

  lemma ReadFacts(r: Request, d: Durable)
    requires DurableInv(r, d)
    ensures d.marker.Some? ==> d.marker.value == OfficialMarker(r)
    ensures d.marker.None? ==> d.moves == []
    ensures d.ref == r.oldCommit ==> d.moves == []
    ensures d.ref == PromotionCommit(r) ==> d.moves != []
  {
    hide CommitMessage, PromotionTrailers, ValidRecord;
  }

  lemma AnswerKeepsInv(r: Request, d: Durable, pc: Pc, fate: Fate)
    requires DurableInv(r, d) && PcInv(r, d, pc)
    ensures Inv(r, Answer(r, d, pc, fate))
  {
    hide DurableInv, PcInv, Inv, Answer;
    if pc.ReadingMarker? { ReadMarkerKeepsInv(r, d, fate); }
    else if pc.Checking? { CheckCommitKeepsInv(r, d, pc.m, fate); }
    else if pc.ObservingCommit? { ObserveCommitKeepsInv(r, d, pc.m, pc.seen, fate); }
    else if pc.Resolving? { ResolveKeepsInv(r, d, pc.m, fate); }
    else if pc.ObservingCheckout? { CheckoutKeepsInv(r, d, pc.m, fate); }
    else if !Writes(pc) { CheckKeepsInv(r, d, pc, fate); }
    else if pc.Ensuring? { EnsureKeepsInv(r, d, fate); }
    else if pc.Creating? { CreateKeepsInv(r, d, fate); }
    else if pc.Publishing? { PublishKeepsInv(r, d, pc.created, fate); }
    else if pc.RecordingCommit? { RecordCommitKeepsInv(r, d, pc.m, fate); }
    else if pc.Swapping? { SwapKeepsInv(r, d, pc.m, fate); }
    else if pc.RecordingRef? { RecordRefKeepsInv(r, d, pc.m, fate); }
    else if pc.RecordingObservation? { RecordObservationKeepsInv(r, d, pc.observation, fate); }
    else { FailKeepsInv(r, d, fate); }
  }

  /** Another party moving the ref keeps the invariant: it never rolls back. */
  lemma ForeignKeepsInv(r: Request, c: Config, to: CommitId)
    requires Inv(r, c) && to != r.oldCommit && to != PromotionCommit(r)
    ensures Inv(r, c.(durable := c.durable.(ref := to)))
  {
    hide PromotionCommit, ValidRecord, OfficialMarker, Expected;
  }

  /** Every step of every run keeps the invariant. */
  lemma StepKeepsInv(r: Request, c: Config, e: Event)
    requires Inv(r, c) && FairEvent(r, e)
    ensures Inv(r, Step(r, c, e))
  {
    hide DurableInv, Answer, PromotionCommit, ValidRequest;
    match e
    case Reply(fate) => AnswerKeepsInv(r, c.durable, c.pc, fate);
    case Foreign(to) => ForeignKeepsInv(r, c, to);
    case _ =>
  }

  lemma {:induction false} ExecKeepsInv(r: Request, c: Config, events: seq<Event>)
    requires Inv(r, c) && Fair(r, events)
    ensures Inv(r, Exec(r, c, events))
  {
    if events != [] {
      var before := events[..|events| - 1];
      ExecKeepsInv(r, c, before);
      StepKeepsInv(r, Exec(r, c, before), events[|events| - 1]);
    }
  }

  // ----- safety over every run -----

  /** Only `Swapping` moves the ref, and it records what it did. */
  lemma MovesExplainRef(r: Request, c: Config, e: Event)
    ensures var after := Step(r, c, e).durable;
            || (after.moves == c.durable.moves && (!e.Foreign? ==> after.ref == c.durable.ref))
            || (c.pc.Swapping? && c.durable.ref == r.oldCommit && after.ref == c.pc.m.body.commit
                && after.moves == c.durable.moves + [(c.durable.ref, after.ref)])
  {
    hide AdvanceRecord, FailRecord, CommitMatches, ValidMarker, ValidRecord, ValidRequest, PromotionCommit, NewMarker, PromotionTrailers;
  }

  /** What holds in every state of every run of one request, however often it is cut by crashes. */
  lemma PromotionSafety(r: Request, c: Config, events: seq<Event>)
    requires Initial(r, c) && Fair(r, events)
    ensures var d := Exec(r, c, events).durable;
            && (d.moves == [] || d.moves == [(r.oldCommit, PromotionCommit(r))])
            && (d.ref == PromotionCommit(r) ==> d.marker == Some(OfficialMarker(r)))
            && (d.record.Some? && d.record.value.state == Failed ==> d.moves == [])
            && (d.record.Some? && d.record.value.state == Observed ==>
                  && d.moves != [] && d.record.value.commit == Some(PromotionCommit(r))
                  && CommitMatches(PromotionCommit(r), d.commits, OfficialMarker(r), r))
  {
    InitialInv(r, c);
    ExecKeepsInv(r, c, events);
    SafetyOfInv(r, Exec(r, c, events).durable);
  }

  lemma InitialInv(r: Request, c: Config)
    requires Initial(r, c)
    ensures Inv(r, c)
  {
    hide PromotionCommit, OfficialMarker;
  }

  lemma OfficialCommitMatches(r: Request, commits: set<CommitId>)
    requires ValidRequest(r) && PromotionCommit(r) in commits
    ensures CommitMatches(PromotionCommit(r), commits, OfficialMarker(r), r)
  {
    TrailersRoundTrip(r.tags);
    hide CommitMessage, PromotionTrailers, MessageTrailers;
  }

  lemma SafetyOfInv(r: Request, d: Durable)
    requires DurableInv(r, d)
    ensures d.ref == PromotionCommit(r) ==> d.marker == Some(OfficialMarker(r))
    ensures d.record.Some? && d.record.value.state == Failed ==> d.moves == []
    ensures d.record.Some? && d.record.value.state == Observed ==>
              && d.moves != [] && d.record.value.commit == Some(PromotionCommit(r))
              && CommitMatches(PromotionCommit(r), d.commits, OfficialMarker(r), r)
  {
    if d.record.Some? && d.record.value.state == Observed { OfficialCommitMatches(r, d.commits); }
    hide CommitMessage, PromotionTrailers, CommitMatches;
  }

  lemma {:induction false} MovesGrow(r: Request, c: Config, events: seq<Event>)
    ensures c.durable.moves != [] ==> Exec(r, c, events).durable.moves != []
  {
    if events != [] {
      MovesGrow(r, c, events[..|events| - 1]);
      MovesExplainRef(r, Exec(r, c, events[..|events| - 1]), events[|events| - 1]);
      hide Step;
    }
  }

  /** Once the ref has moved, no failing preflight, checkout drift or crash can make the effect FAILED. */
  lemma NeverFailedOnceMoved(r: Request, c: Config, events: seq<Event>)
    requires Inv(r, c) && c.durable.moves != [] && Fair(r, events)
    ensures var record := Exec(r, c, events).durable.record;
            record.Some? && Rank(record.value.state) >= 2
  {
    ExecKeepsInv(r, c, events);
    MovesGrow(r, c, events);
    hide PromotionCommit, OfficialMarker, ValidRecord;
  }

  // ----- convergence of one uninterrupted run -----

  function Remaining(pc: Pc): nat {
    match pc
    case VerifyEntry => 19 case Ensuring => 18 case ReadingMarker => 17 case PreflightNew => 16
    case VerifyNew => 15 case Creating => 14 case Publishing(_) => 13 case Checking(_) => 12
    case RecordingCommit(_) => 11 case Resolving(_) => 10 case PreflightSwap(_) => 9 case VerifySwap(_) => 8
    case Swapping(_) => 7 case RecordingRef(_) => 6 case ObservingRef(_) => 5 case ObservingCommit(_, _) => 4
    case ObservingCheckout(_) => 3 case RecordingObservation(_) => 2 case Failing => 1
    case _ => 0
  }

  lemma AnswerProgress(r: Request, d: Durable, pc: Pc, fate: Fate)
    requires Remaining(pc) > 0
    ensures Remaining(Answer(r, d, pc, fate).pc) < Remaining(pc)
  {
    hide AdvanceRecord, FailRecord, CommitMatches, ValidMarker, ValidRecord, PromotionCommit, NewMarker, PromotionTrailers;
  }

  // ----- what a run has asked before it acts -----

  /** An interaction that answered `Done`, and where the ref stood then. */
  datatype Success = Success(at: Pc, ref: CommitId)

  /** The successes of the present run, in order. */
  function Successes(r: Request, c: Config, events: seq<Event>): seq<Success> {
    if events == [] then []
    else
      var before := events[..|events| - 1];
      var now := Exec(r, c, before);
      match events[|events| - 1]
      case Begin => if now.pc.Idle? || now.pc.Finished? then [] else Successes(r, c, before)
      case Crash => []
      case Reply(fate) =>
        if fate == Done && Remaining(now.pc) > 0 then Successes(r, c, before) + [Success(now.pc, now.durable.ref)] else Successes(r, c, before)
      case Foreign(_) => Successes(r, c, before)
  }

  /** Places a run reaches by successes only. */
  predicate Earned(pc: Pc) {
    !pc.Idle? && !pc.Failing? && pc != REJECT
  }

  /** Only success leads on, and only one place further. */
  predicate Edge(r: Request, ref: CommitId, pc: Pc, next: Pc) {
    match next
    case Ensuring => pc == VerifyEntry
    case ReadingMarker => pc == Ensuring
    case PreflightNew => pc == ReadingMarker
    case VerifyNew => pc == PreflightNew
    case Creating => pc == VerifyNew
    case Publishing(_) => pc == Creating
    case Checking(_) => pc == ReadingMarker || pc.Publishing?
    case RecordingCommit(m) => pc == Checking(m)
    case Resolving(m) => pc == RecordingCommit(m)
    case PreflightSwap(m) => pc == Resolving(m) && ref == r.oldCommit
    case VerifySwap(m) => pc == PreflightSwap(m)
    case Swapping(m) => pc == VerifySwap(m)
    case RecordingRef(m) => (pc == Resolving(m) && ref == m.body.commit) || pc == Swapping(m)
    case ObservingRef(m) => pc == RecordingRef(m)
    case ObservingCommit(m, seen) => pc == ObservingRef(m) && seen == ref
    case ObservingCheckout(m) => pc == ObservingCommit(m, m.body.commit)
    case RecordingObservation(o) => pc.ObservingCheckout? && o.commit == pc.m.body.commit
    case Finished(Promoted(o)) => pc == RecordingObservation(o)
    case _ => false
  }

  /** Anything but success ends the run, at a check before an effect by journalling the failure. */
  lemma OnlySuccessGoesOn(r: Request, d: Durable, pc: Pc, fate: Fate)
    requires Remaining(pc) > 0
    ensures var next := Answer(r, d, pc, fate).pc;
      if Earned(next) then fate == Done && Edge(r, d.ref, pc, next)
      else next == (if fate != Done && (pc.PreflightNew? || pc.VerifyNew? || pc.Creating? || pc.PreflightSwap? || pc.VerifySwap?)
                    then Failing else REJECT)
  {
    hide CommitMatches, ValidMarker, ValidRecord, PromotionTrailers, PromotionCommit, AdvanceRecord;
  }

  /** Each success led to the place of the next one, and the last one to `pc`. */
  predicate Route(r: Request, successes: seq<Success>, pc: Pc) {
    if successes == [] then pc == VerifyEntry
    else
      var last := successes[|successes| - 1];
      Edge(r, last.ref, last.at, pc) && Route(r, successes[..|successes| - 1], last.at)
  }

  /** In every run of the machine, however it came about, a place is reached only by the successes of the
      same run that lead there. */
  lemma {:induction false} ReachedBySuccesses(r: Request, c: Config, events: seq<Event>)
    requires c.pc.Idle?
    ensures var now := Exec(r, c, events); Earned(now.pc) ==> Route(r, Successes(r, c, events), now.pc)
  {
    if events != [] {
      var before := events[..|events| - 1];
      ReachedBySuccesses(r, c, before);
      var now := Exec(r, c, before);
      hide Answer, Edge, ValidRequest;
      match events[|events| - 1]
      case Reply(fate) =>
        if Remaining(now.pc) == 0 {
          RestStays(r, now.durable, now.pc, fate);
        } else {
          OnlySuccessGoesOn(r, now.durable, now.pc, fate);
          var s := Successes(r, c, before);
          assert (s + [Success(now.pc, now.durable.ref)])[..|s|] == s;
        }
      case _ =>
    }
  }

  lemma RestStays(r: Request, d: Durable, pc: Pc, fate: Fate)
    requires Remaining(pc) == 0
    ensures Answer(r, d, pc, fate) == Config(d, pc)
  {
  }

  /** A route goes from the entry along the edges. */
  lemma {:induction false} RouteEdges(r: Request, s: seq<Success>, pc: Pc)
    requires Route(r, s, pc) && pc != VerifyEntry
    ensures s != [] && s[0].at == VerifyEntry
    ensures forall i :: 0 <= i < |s| ==> Edge(r, s[i].ref, s[i].at, if i + 1 < |s| then s[i + 1].at else pc)
  {
    hide Edge;
    var last, init := s[|s| - 1], s[..|s| - 1];
    if last.at != VerifyEntry {
      RouteEdges(r, init, last.at);
    } else if init != [] {
      NoEdgeToEntry(r, init[|init| - 1].ref, init[|init| - 1].at);
    }
  }

  lemma NoEdgeToEntry(r: Request, ref: CommitId, pc: Pc)
    ensures !Edge(r, ref, pc, VerifyEntry)
  {
  }

  /** The checks every run makes first. */
  predicate Entered(s: seq<Success>) {
    |s| >= 3 && s[0].at == VerifyEntry && s[1].at == Ensuring && s[2].at == ReadingMarker
  }

  /** The commit object is only created after the candidate was verified, the record ensured, no marker
      found, the preflight run and the candidate verified again, all of it successfully and in this run. */
  lemma CommitWasChecked(r: Request, s: seq<Success>)
    requires Route(r, s, Creating)
    ensures |s| == 5 && Entered(s) && s[3].at == PreflightNew && s[4].at == VerifyNew
  {
    RouteEdges(r, s, Creating);
    var n := |s|;
    assert s[n - 1].at == VerifyNew && s[n - 2].at == PreflightNew && s[n - 3].at == ReadingMarker;
    assert s[n - 4].at == Ensuring && s[n - 5].at == VerifyEntry;
    if n > 5 { NoEdgeToEntry(r, s[n - 6].ref, s[n - 6].at); }
  }

  /** The ref is only moved after the commit object was read and journalled, the ref seen at the old commit,
      the preflight run and the candidate verified, all of it successfully and in this run. */
  lemma MoveWasChecked(r: Request, s: seq<Success>, m: Marker)
    requires Route(r, s, Swapping(m))
    ensures |s| >= 8 && Entered(s)
    ensures var n := |s|;
      && s[n - 5].at == Checking(m) && s[n - 4].at == RecordingCommit(m) && s[n - 3] == Success(Resolving(m), r.oldCommit)
      && s[n - 2].at == PreflightSwap(m) && s[n - 1].at == VerifySwap(m)
  {
    RouteEdges(r, s, Swapping(m));
    var n := |s|;
    assert s[n - 1].at == VerifySwap(m) && s[n - 2].at == PreflightSwap(m) && s[n - 3].at == Resolving(m);
    assert s[n - 4].at == RecordingCommit(m) && s[n - 5].at == Checking(m);
    assert Edge(r, s[n - 6].ref, s[n - 6].at, s[n - 5].at) && Edge(r, s[0].ref, VerifyEntry, s[1].at);
    assert Edge(r, s[1].ref, s[1].at, s[2].at);
  }

  /** A promotion is only reported, and OBSERVED only journalled, after the same run has journalled the ref
      update, read the ref at the reported commit, read the commit object and verified the checkout. */
  lemma ObservationWasRead(r: Request, s: seq<Success>, o: Observation)
    requires Route(r, s, RecordingObservation(o))
    ensures |s| >= 4
    ensures var n := |s|; exists m: Marker :: (m.body.commit == o.commit &&
      s[n - 4].at == RecordingRef(m) && s[n - 3] == Success(ObservingRef(m), o.commit) &&
      s[n - 2].at == ObservingCommit(m, o.commit) && s[n - 1].at == ObservingCheckout(m))
  {
    RouteEdges(r, s, RecordingObservation(o));
    var n := |s|;
    var m := s[n - 1].at.m;
    assert s[n - 2].at == ObservingCommit(m, m.body.commit) && s[n - 3].at == ObservingRef(m) && s[n - 4].at == RecordingRef(m);
  }

  /** Where each durable thing changes, and what: nothing is touched anywhere else. */
  lemma EffectsHaveTheirPlace(r: Request, c: Config, e: Event)
    ensures var after := Step(r, c, e).durable;
      && (after.commits != c.durable.commits ==> c.pc.Creating? && after.commits == c.durable.commits + {PromotionCommit(r)})
      && (after.marker != c.durable.marker ==> c.pc.Publishing? && c.durable.marker.None?)
      && (after.moves != c.durable.moves ==> c.pc.Swapping? && c.durable.ref == r.oldCommit)
      && (after.record != c.durable.record ==>
            (c.pc.Ensuring? || c.pc.RecordingCommit? || c.pc.RecordingRef? || c.pc.RecordingObservation? || c.pc.Failing?))
  {
    hide CommitMatches, ValidMarker, ValidRecord, ValidRequest, PromotionTrailers, PromotionCommit;
  }

  /** Over all runs of a request: whenever the ref is moved, this very run has checked everything before. */
  lemma MovedOnlyWhenChecked(r: Request, c: Config, events: seq<Event>, e: Event)
    requires c.pc.Idle? && Step(r, Exec(r, c, events), e).durable.moves != Exec(r, c, events).durable.moves
    ensures var s := Successes(r, c, events); var n := |s|; var m := Exec(r, c, events).pc;
      && m.Swapping? && n >= 8 && Entered(s)
      && s[n - 5].at == Checking(m.m) && s[n - 4].at == RecordingCommit(m.m) && s[n - 3] == Success(Resolving(m.m), r.oldCommit)
      && s[n - 2].at == PreflightSwap(m.m) && s[n - 1].at == VerifySwap(m.m)
  {
    var now := Exec(r, c, events);
    ReachedBySuccesses(r, c, events);
    EffectsHaveTheirPlace(r, now, e);
    hide Exec, Step, Route, Edge;
    MoveWasChecked(r, Successes(r, c, events), now.pc.m);
  }

  /** And whenever a commit object is created. */
  lemma CreatedOnlyWhenChecked(r: Request, c: Config, events: seq<Event>, e: Event)
    requires c.pc.Idle? && Step(r, Exec(r, c, events), e).durable.commits != Exec(r, c, events).durable.commits
    ensures var s := Successes(r, c, events);
      |s| == 5 && Entered(s) && s[3].at == PreflightNew && s[4].at == VerifyNew
  {
    ReachedBySuccesses(r, c, events);
    EffectsHaveTheirPlace(r, Exec(r, c, events), e);
    hide Exec, Step, Route, Edge;
    CommitWasChecked(r, Successes(r, c, events));
  }

  /** A refusal changes nothing durable, and a lost reply changes what the reply would have confirmed. */
  lemma RefusedOrLost(r: Request, d: Durable, pc: Pc)
    ensures Answer(r, d, pc, Refused).durable == d
    ensures Answer(r, d, pc, Lost).durable == Answer(r, d, pc, Done).durable
  {
    hide CommitMatches, ValidMarker, ValidRecord, PromotionTrailers, PromotionCommit, AdvanceRecord, NewMarker;
  }

  /** A check before an effect that does not succeed leaves the record FAILED, unless that cannot be
      journalled either, and nothing else behind. */
  lemma RefusedCheckFails(r: Request, c: Config, fate: Fate, journal: Fate)
    requires Inv(r, c) && fate != Done && journal != Refused
    requires c.pc.PreflightNew? || c.pc.VerifyNew? || c.pc.Creating? || c.pc.PreflightSwap? || c.pc.VerifySwap?
    ensures var after := Step(r, Step(r, c, Reply(fate)), Reply(journal));
      && after.pc == REJECT && after.durable == Step(r, c, Reply(fate)).durable.(record := after.durable.record)
      && after.durable.record.Some? && after.durable.record.value.state == Failed
  {
    hide CommitMatches, ValidMarker, ValidRecord, PromotionTrailers, PromotionCommit, OfficialMarker;
  }

  /** A record that has failed, or belongs to another request, is never acted upon. */
  lemma UnusableRecordEndsRun(r: Request, d: Durable, fate: Fate)
    requires d.record.Some?
    requires d.record.value.state == Failed || d.record.value.request != r || !ValidRecord(d.record.value)
    ensures Answer(r, d, Ensuring, fate) == Config(d, REJECT)
  {
    hide ValidRequest;
  }

  /** Neither is a marker that was not written for this request, nor a commit object that does not match. */
  lemma UnmatchedEndsRun(r: Request, d: Durable, m: Marker, fate: Fate)
    ensures d.marker.Some? && !ValidMarker(d.marker.value, r) ==> Answer(r, d, ReadingMarker, fate) == Config(d, REJECT)
    ensures !CommitMatches(m.body.commit, d.commits, m, r) ==> Answer(r, d, Checking(m), fate) == Config(d, REJECT)
    ensures d.ref != r.oldCommit && d.ref != m.body.commit ==> Answer(r, d, Resolving(m), fate) == Config(d, REJECT)
  {
    hide CommitMatches, ValidMarker;
  }

  /** One run in which every interaction succeeds. */
  function Drive(r: Request, c: Config): Config
    decreases Remaining(c.pc)
  {
    if Remaining(c.pc) == 0 then c
    else
      AnswerProgress(r, c.durable, c.pc, Done);
      Drive(r, Answer(r, c.durable, c.pc, Done))
  }

  /** On the way to OBSERVED: nobody else has moved the ref and the effect has not failed. */
  predicate OnTrack(r: Request, d: Durable, pc: Pc) {
    && (d.ref == r.oldCommit || d.ref == PromotionCommit(r))
    && (d.record.Some? ==> d.record.value.state != Failed)
    && !pc.Idle? && !pc.Failing? && (pc.Finished? ==> pc.outcome.Promoted?)
    && (pc.ObservingCommit? ==> pc.seen == PromotionCommit(r))
  }

  predicate Converging(r: Request, c: Config) {
    ValidRequest(r) && Inv(r, c) && OnTrack(r, c.durable, c.pc)
  }

  /** The reply keeps the run on track and creates no other commit object. */
  predicate StaysOnTrack(r: Request, d: Durable, pc: Pc) {
    var next := Answer(r, d, pc, Done);
    OnTrack(r, next.durable, next.pc)
    && (next.durable.commits == d.commits || next.durable.commits == d.commits + {PromotionCommit(r)})
  }

  lemma MovedMeansThere(r: Request, d: Durable, pc: Pc)
    requires DurableInv(r, d) && OnTrack(r, d, pc) && d.moves != []
    ensures d.ref == PromotionCommit(r)
  {
    hide PromotionCommit, OfficialMarker, ValidRecord;
  }

  lemma AdvanceSucceeds(r: Request, d: Durable, target: State)
    requires DurableInv(r, d) && d.record.Some? && d.record.value.state != Failed
    requires 2 <= Rank(target) <= Rank(d.record.value.state) + 1
    ensures AdvanceRecord(d.record, target, PromotionCommit(r)).Some?
    ensures AdvanceRecord(d.record, target, PromotionCommit(r)).value.state != Failed
  {
    hide PromotionCommit, OfficialMarker, ValidRecord;
  }

  lemma RecordCommitOnTrack(r: Request, d: Durable, m: Marker)
    requires DurableInv(r, d) && PcInv(r, d, RecordingCommit(m)) && OnTrack(r, d, RecordingCommit(m))
    ensures StaysOnTrack(r, d, RecordingCommit(m))
  {
    MarkerNamesCommit(r, d);
    AdvanceSucceeds(r, d, CommitCreated);
    hide DurableInv, AdvanceRecord, PromotionCommit;
  }

  lemma RecordRefOnTrack(r: Request, d: Durable, m: Marker)
    requires DurableInv(r, d) && PcInv(r, d, RecordingRef(m)) && OnTrack(r, d, RecordingRef(m))
    ensures StaysOnTrack(r, d, RecordingRef(m))
  {
    MarkerNamesCommit(r, d);
    AdvanceSucceeds(r, d, RefUpdated);
    hide DurableInv, AdvanceRecord, PromotionCommit;
  }

  lemma RecordObservationOnTrack(r: Request, d: Durable, o: Observation)
    requires DurableInv(r, d) && PcInv(r, d, RecordingObservation(o)) && OnTrack(r, d, RecordingObservation(o))
    ensures StaysOnTrack(r, d, RecordingObservation(o))
  {
    AdvanceSucceeds(r, d, Observed);
    hide DurableInv, AdvanceRecord, PromotionCommit;
  }

  lemma CheckCommitOnTrack(r: Request, d: Durable, m: Marker)
    requires ValidRequest(r) && DurableInv(r, d) && PcInv(r, d, Checking(m)) && OnTrack(r, d, Checking(m))
    ensures StaysOnTrack(r, d, Checking(m))
  {
    OfficialMarkerThere(r, d);
    OfficialCommitMatches(r, d.commits);
    MarkerNamesCommit(r, d);
    hide DurableInv, PromotionCommit, OfficialMarker, CommitMatches, ValidRequest;
  }

  lemma ObserveRefOnTrack(r: Request, d: Durable, m: Marker)
    requires DurableInv(r, d) && PcInv(r, d, ObservingRef(m)) && OnTrack(r, d, ObservingRef(m))
    ensures StaysOnTrack(r, d, ObservingRef(m))
  {
    ObservedAfterMove(r, d);
    MovedMeansThere(r, d, ObservingRef(m));
    hide DurableInv, PromotionCommit;
  }

  lemma ObserveCommitOnTrack(r: Request, d: Durable, m: Marker, seen: CommitId)
    requires ValidRequest(r) && DurableInv(r, d)
    requires PcInv(r, d, ObservingCommit(m, seen)) && OnTrack(r, d, ObservingCommit(m, seen))
    ensures StaysOnTrack(r, d, ObservingCommit(m, seen))
  {
    OfficialMarkerThere(r, d);
    OfficialCommitMatches(r, d.commits);
    MarkerNamesCommit(r, d);
    assert PromotionCommit(r).tree == r.candidateTree;
    hide DurableInv, PromotionCommit, OfficialMarker, CommitMatches, ValidRequest;
  }

  lemma OfficialMarkerThere(r: Request, d: Durable)
    requires DurableInv(r, d) && d.marker.Some?
    ensures d.marker.value == OfficialMarker(r) && PromotionCommit(r) in d.commits
  {
    hide PromotionCommit, OfficialMarker, ValidRecord;
  }

  lemma ReadOnTrack(r: Request, d: Durable, pc: Pc)
    requires ValidRequest(r) && DurableInv(r, d) && PcInv(r, d, pc) && OnTrack(r, d, pc)
    requires pc.ReadingMarker? || pc.Resolving?
    ensures StaysOnTrack(r, d, pc)
  {
    if d.marker.Some? {
      OfficialMarkerThere(r, d);
      MarkerNamesCommit(r, d);
    }
    hide DurableInv, CommitMessage, PromotionTrailers, ValidRequest;
  }

  lemma WriteOnTrack(r: Request, d: Durable, pc: Pc)
    requires ValidRequest(r) && DurableInv(r, d) && PcInv(r, d, pc) && OnTrack(r, d, pc)
    requires pc.Creating? || pc.Publishing?
    ensures StaysOnTrack(r, d, pc)
  {
    hide DurableInv, CommitMessage, PromotionTrailers, ValidRequest;
  }

  lemma EnsureOnTrack(r: Request, d: Durable)
    requires ValidRequest(r) && DurableInv(r, d) && OnTrack(r, d, Ensuring)
    ensures StaysOnTrack(r, d, Ensuring)
  {
    hide CommitMessage, PromotionTrailers, ValidRequest;
  }

  lemma SwapOnTrack(r: Request, d: Durable, m: Marker)
    requires DurableInv(r, d) && PcInv(r, d, Swapping(m)) && OnTrack(r, d, Swapping(m))
    ensures StaysOnTrack(r, d, Swapping(m))
  {
    MarkerNamesCommit(r, d);
    ReadFacts(r, d);
    hide DurableInv, PromotionCommit;
  }

  lemma CheckOnTrack(r: Request, d: Durable, pc: Pc)
    requires OnTrack(r, d, pc) && (pc.VerifyEntry? || pc.PreflightNew? || pc.VerifyNew? || pc.PreflightSwap? || pc.VerifySwap? || pc.ObservingCheckout?)
    ensures StaysOnTrack(r, d, pc)
  {
    hide PromotionCommit, PromotionTrailers;
  }

  lemma ConvergeStep(r: Request, c: Config)
    requires Converging(r, c) && Remaining(c.pc) > 0
    ensures Converging(r, Answer(r, c.durable, c.pc, Done)) && StaysOnTrack(r, c.durable, c.pc)
  {
    var d, pc := c.durable, c.pc;
    AnswerKeepsInv(r, d, pc, Done);
    hide DurableInv, PcInv, Answer, PromotionCommit, ValidRequest;
    if pc.RecordingCommit? { RecordCommitOnTrack(r, d, pc.m); }
    else if pc.RecordingRef? { RecordRefOnTrack(r, d, pc.m); }
    else if pc.RecordingObservation? { RecordObservationOnTrack(r, d, pc.observation); }
    else if pc.Checking? { CheckCommitOnTrack(r, d, pc.m); }
    else if pc.ObservingRef? { ObserveRefOnTrack(r, d, pc.m); }
    else if pc.ObservingCommit? { ObserveCommitOnTrack(r, d, pc.m, pc.seen); }
    else if pc.ReadingMarker? || pc.Resolving? { ReadOnTrack(r, d, pc); }
    else if pc.Creating? || pc.Publishing? { WriteOnTrack(r, d, pc); }
    else if pc.Ensuring? { EnsureOnTrack(r, d); }
    else if pc.Swapping? { SwapOnTrack(r, d, pc.m); }
    else { CheckOnTrack(r, d, pc); }
  }

  /** The durable state of a completed promotion. */
  function Completed(r: Request, commits: set<CommitId>): Durable {
    Durable(Some(Record(r, Observed, Some(PromotionCommit(r)))), Some(OfficialMarker(r)), PromotionCommit(r),
            commits + {PromotionCommit(r)}, [(r.oldCommit, PromotionCommit(r))])
  }

  lemma PromotedIsCompleted(r: Request, c: Config, commits: set<CommitId>)
    requires Converging(r, c) && Remaining(c.pc) == 0
    requires c.durable.commits == commits || c.durable.commits == commits + {PromotionCommit(r)}
    ensures c == Config(Completed(r, commits), Finished(Promoted(Expected(r))))
  {
    var d := c.durable;
    assert c.pc.Finished? && RecordAtLeast(d, 4) && d.record.value.state == Observed by {
      hide DurableInv, PromotionCommit, Expected;
    }
    ObservedAfterMove(r, d);
    OfficialMarkerThere(r, d);
    MovedMeansThere(r, d, c.pc);
    hide PromotionCommit, OfficialMarker, Expected, ValidRequest;
    assert d.commits == commits + {PromotionCommit(r)};
  }

  lemma {:induction false} DriveCompletes(r: Request, c: Config, commits: set<CommitId>)
    requires Converging(r, c)
    requires c.durable.commits == commits || c.durable.commits == commits + {PromotionCommit(r)}
    ensures Drive(r, c) == Config(Completed(r, commits), Finished(Promoted(Expected(r))))
    decreases Remaining(c.pc)
  {
    if Remaining(c.pc) == 0 {
      PromotedIsCompleted(r, c, commits);
    } else {
      ConvergeStep(r, c);
      AnswerProgress(r, c.durable, c.pc, Done);
      hide Converging, Answer, PromotionCommit, Expected, Completed, OnTrack;
      var next := Answer(r, c.durable, c.pc, Done);
      assert next.durable.commits == commits || next.durable.commits == commits + {PromotionCommit(r)};
      DriveCompletes(r, next, commits);
    }
  }

  /** From every crash state that has not failed, one uninterrupted run with an unmoved or already
      promoted ref completes, with the observation and the durable state of a crash-free run. */
  lemma PromotionConverges(r: Request, start: Config, events: seq<Event>)
    requires Initial(r, start) && Fair(r, events) && ValidRequest(r) && r.currentDirectory
    requires var d := Exec(r, start, events).durable;
             && (d.ref == r.oldCommit || d.ref == PromotionCommit(r))
             && (d.record.Some? ==> d.record.value.state != Failed)
    ensures var crashed := Step(r, Exec(r, start, events), Crash);
            Drive(r, Step(r, crashed, Begin))
              == Config(Completed(r, crashed.durable.commits), Finished(Promoted(Expected(r))))
  {
    InitialInv(r, start);
    ExecKeepsInv(r, start, events);
    var d := Exec(r, start, events).durable;
    hide DurableInv, PromotionCommit, ValidRequest, Completed, Expected;
    DriveCompletes(r, Config(d, VerifyEntry), d.commits);
  }

  /** Running a completed promotion again changes nothing and observes the same. */
  lemma PromotionIdempotent(r: Request, commits: set<CommitId>)
    requires ValidRequest(r) && r.currentDirectory
    ensures Drive(r, Step(r, Config(Completed(r, commits), Idle), Begin))
              == Config(Completed(r, commits), Finished(Promoted(Expected(r))))
  {
    var d := Completed(r, commits);
    CompletedInv(r, commits);
    DriveCompletes(r, Config(d, VerifyEntry), d.commits);
    assert d.commits + {PromotionCommit(r)} == d.commits;
  }

  lemma CompletedInv(r: Request, commits: set<CommitId>)
    requires ValidRequest(r)
    ensures DurableInv(r, Completed(r, commits))
  {
    CommitIsNew(r);
    hide CommitMessage, PromotionTrailers;
  }
}
