/** The imperative `Promote` of internal/promotion/manager.go over mutable durable state, proved to
    follow the step machine of module Promotion: whatever the environment answers, the run it
    performs is a run of the machine, so the safety and convergence lemmas speak about it. */
module PromotionManager {
  import opened Ordering
  import opened GitCommit
  import opened Promotion

  /** What the environment does at one interaction: it may move the ref first, then the process dies
      or the interaction answers. */
  datatype Turn = Turn(moved: Option<CommitId>, dies: bool, fate: Fate)

  const CALM := Turn(None, false, Done)

  /** The i-th interaction is carried out and confirmed. */
  predicate Yes(env: nat -> Turn, i: nat) { !env(i).dies && env(i).fate == Done }

  // The phases of a promotion.

  /** Candidate verified, record ensured, marker read. */
  predicate Opened(env: nat -> Turn) { Yes(env, 0) && Yes(env, 1) && Yes(env, 2) }

  /** Without a marker: preflight and candidate. */
  predicate Checked(env: nat -> Turn) { Yes(env, 3) && Yes(env, 4) }

  /** Then the commit and the marker. */
  predicate Marked(env: nat -> Turn) { Checked(env) && Yes(env, 5) && Yes(env, 6) }

  /** Commit object read, commit journalled, ref read. */
  predicate Recorded(env: nat -> Turn) { Yes(env, 7) && Yes(env, 8) && Yes(env, 9) }

  /** Before the swap: preflight and candidate again. */
  predicate Rechecked(env: nat -> Turn) { Yes(env, 10) && Yes(env, 11) }

  /** Ref update journalled, ref, commit object and checkout read back. */
  predicate ReadBack(env: nat -> Turn) { Yes(env, 13) && Yes(env, 14) && Yes(env, 15) && Yes(env, 16) }

  /** A check does not succeed, and the failure can be journalled. */
  predicate Fails(env: nat -> Turn, i: nat) {
    !env(i).dies && env(i).fate != Done && !env(i + 1).dies && env(i + 1).fate != Refused
  }

  /** The journal's record allows the request to be promoted. */
  predicate Usable(record: Option<Record>, r: Request) {
    record.Some? ==> ValidRecord(record.value) && record.value.request == r && record.value.state != Failed
  }

  datatype Result = Returned(outcome: Outcome) | Died

  function Stopped(alive: bool): Result { if alive then Returned(Rejected) else Died }

  /** The log of a run in which every interaction succeeded. */
  ghost predicate CalmLog(log: seq<Event>) {
    log != [] && log[0] == Begin && forall i :: 1 <= i < |log| ==> log[i] == Reply(Done)
  }

  /** The environment keeps the promise `FairEvent` asks for. */
  predicate FairTurn(r: Request, turn: Turn) {
    turn.moved.Some? ==> FairEvent(r, Foreign(turn.moved.value))
  }

  /** A calm run that has come to an end is the run `Drive` describes. */
  lemma {:induction false} CalmIsDrive(r: Request, start: Config, log: seq<Event>)
    requires CalmLog(log) && (start.pc.Idle? || start.pc.Finished?)
    ensures Drive(r, Exec(r, start, log)) == Drive(r, Step(r, start, Begin))
  {
    hide Answer, ValidRequest;
    var before := log[..|log| - 1];
    if |log| == 1 {
      assert Exec(r, start, before) == start;
    } else {
      CalmIsDrive(r, start, before);
      var c := Exec(r, start, before);
      assert Exec(r, start, log) == Answer(r, c.durable, c.pc, Done);
      if Remaining(c.pc) == 0 { AnswerAtRest(r, c.durable, c.pc); }
    }
  }

  lemma AnswerAtRest(r: Request, d: Durable, pc: Pc)
    requires Remaining(pc) == 0
    ensures Answer(r, d, pc, Done) == Config(d, pc)
  {
  }

  lemma ReadsOnly(r: Request, d: Durable, pc: Pc, fate: Fate)
    requires !Writes(pc)
    ensures Answer(r, d, pc, fate).durable == d
  {
    hide CommitMatches, ValidMarker, PromotionTrailers;
  }

  /** The observation names the ref, the commit of the marker and the trailers of the request. */
  function Report(r: Request, m: Marker): Observation {
    Observation(r.integrationRef, m.body.commit, m.body.commit.tree, PromotionTrailers(r.tags))
  }

  /** The record, if there is one that is not yet observed, has become FAILED. */
  predicate JournalledFailure(before: Option<Record>, after: Option<Record>) {
    before.Some? && before.value.state != Observed ==> after == Some(before.value.(state := Failed))
  }

  /** A check that goes on to `next` if it succeeds and to `otherwise` if not. */
  ghost predicate GoesTo(r: Request, pc: Pc, next: Pc, otherwise: Pc) {
    forall d, fate :: Answer(r, d, pc, fate) == Config(d, if fate == Done then next else otherwise)
  }

  ghost predicate Journals(r: Request, pc: Pc, target: State, commit: CommitId, next: Pc) {
    forall d, fate :: Answer(r, d, pc, fate) == JournalStep(d, target, commit, fate, next)
  }

  /** Where the checks of a run lead. */
  lemma CheckEdges(r: Request)
    ensures GoesTo(r, VerifyEntry, Ensuring, REJECT)
    ensures GoesTo(r, PreflightNew, VerifyNew, Failing) && GoesTo(r, VerifyNew, Creating, Failing)
  {
  }

  lemma MarkedEdges(r: Request, m: Marker)
    ensures GoesTo(r, PreflightSwap(m), VerifySwap(m), Failing) && GoesTo(r, VerifySwap(m), Swapping(m), Failing)
    ensures Journals(r, RecordingCommit(m), CommitCreated, m.body.commit, Resolving(m))
    ensures Journals(r, RecordingRef(m), RefUpdated, m.body.commit, ObservingRef(m))
    ensures GoesTo(r, ObservingCheckout(m), RecordingObservation(Report(r, m)), REJECT)
    ensures Journals(r, RecordingObservation(Report(r, m)), Observed, m.body.commit, Finished(Promoted(Report(r, m))))
  {
    hide PromotionTrailers;
  }

  /** Where the readings lead. */
  lemma ReadEdges(r: Request, d: Durable, m: Marker, seen: CommitId, fate: Fate)
    ensures Answer(r, d, Checking(m), fate).pc ==
      if fate == Done && CommitMatches(m.body.commit, d.commits, m, r) then RecordingCommit(m) else REJECT
    ensures Answer(r, d, Resolving(m), fate).pc ==
      if fate != Done then REJECT else if d.ref == r.oldCommit then PreflightSwap(m)
      else if d.ref == m.body.commit then RecordingRef(m) else REJECT
    ensures Answer(r, d, ObservingCommit(m, seen), fate).pc ==
      if fate == Done && CommitMatches(m.body.commit, d.commits, m, r) && seen == m.body.commit && seen.tree == r.candidateTree
      then ObservingCheckout(m) else REJECT
  {
    hide CommitMatches, ValidMarker;
  }

  lemma ObservingEdge(r: Request, d: Durable, m: Marker, fate: Fate)
    ensures Answer(r, d, ObservingRef(m), fate).pc == if fate == Done then ObservingCommit(m, d.ref) else REJECT
  {
  }

  lemma ReadingEdge(r: Request, d: Durable, fate: Fate)
    ensures Answer(r, d, ReadingMarker, fate).pc ==
      if fate != Done then REJECT else if d.marker.None? then PreflightNew
      else if ValidMarker(d.marker.value, r) then Checking(d.marker.value) else REJECT
  {
    hide ValidMarker;
  }

  class Manager {
    var record: Option<Record>
    var marker: Option<Marker>
    var ref: CommitId
    var commits: set<CommitId>
    ghost var moves: seq<(CommitId, CommitId)>
    ghost var pc: Pc
    ghost var log: seq<Event>

    constructor (tip: CommitId, objects: set<CommitId>)
      ensures State() == Config(Durable(None, None, tip, objects, []), Idle) && log == []
    {
      record, marker, ref, commits := None, None, tip, objects;
      moves, pc, log := [], Idle, [];
    }

    ghost function State(): Config
      reads this
    {
      Config(Durable(record, marker, ref, commits, moves), pc)
    }

    /** `this` has executed `log` since configuration `start`. */
    ghost predicate Executed(r: Request, start: Config)
      reads this
    {
      State() == Exec(r, start, log)
    }

    /** The event just performed is the step the machine takes. */
    ghost method Note(r: Request, start: Config, e: Event, before: Config)
      requires before == Exec(r, start, log) && State() == Step(r, before, e)
      modifies this`log
      ensures log == old(log) + [e] && Executed(r, start)
      ensures e == Reply(Done) && CalmLog(old(log)) ==> CalmLog(log)
      ensures FairEvent(r, e) && Fair(r, old(log)) ==> Fair(r, log)
    {
      hide Step, FairEvent;
      log := log + [e];
      assert log[..|log| - 1] == old(log);
    }

    /** The environment's part of an interaction, before the reply. */
    method Await(r: Request, ghost start: Config, turn: Turn) returns (alive: bool)
      requires Executed(r, start)
      modifies this`ref, this`pc, this`log
      ensures Executed(r, start) && alive == !turn.dies
      ensures pc == if turn.dies then Idle else old(pc)
      ensures ref == if turn.moved.Some? then turn.moved.value else old(ref)
      ensures turn == CALM ==> log == old(log)
      ensures FairTurn(r, turn) && Fair(r, old(log)) ==> Fair(r, log)
    {
      ghost var before := State();
      if turn.moved.Some? {
        ref := turn.moved.value;
        Note(r, start, Foreign(turn.moved.value), before);
      }
      before := State();
      alive := !turn.dies;
      if turn.dies {
        pc := Idle;
        Note(r, start, Crash, before);
      }
    }

    /** An interaction that only reads: verification, preflight, reading the marker, a ref or a commit. */
    method Ask(r: Request, ghost start: Config, turn: Turn) returns (alive: bool, yes: bool)
      requires Executed(r, start) && !Writes(pc)
      modifies this`ref, this`pc, this`log
      ensures Executed(r, start) && alive == !turn.dies && yes == (turn.fate == Done)
      ensures pc == if alive then Answer(r, State().durable, old(pc), turn.fate).pc else Idle
      ensures turn == CALM && CalmLog(old(log)) ==> CalmLog(log)
      ensures FairTurn(r, turn) && Fair(r, old(log)) ==> Fair(r, log)
    {
      hide Answer, Fair, CalmLog;
      alive := Await(r, start, turn);
      yes := turn.fate == Done;
      if alive {
        ghost var before := State();
        ReadsOnly(r, before.durable, pc, turn.fate);
        pc := Answer(r, before.durable, pc, turn.fate).pc;
        Note(r, start, Reply(turn.fate), before);
      }
    }

    /** A check with two ways out. */
    method Gate(r: Request, ghost start: Config, turn: Turn, ghost next: Pc, ghost otherwise: Pc) returns (alive: bool, yes: bool)
      requires Executed(r, start) && !Writes(pc)
      requires GoesTo(r, pc, next, otherwise)
      modifies this`ref, this`pc, this`log
      ensures Executed(r, start) && alive == !turn.dies && yes == (turn.fate == Done)
      ensures pc == if !alive then Idle else if yes then next else otherwise
      ensures turn == CALM && CalmLog(old(log)) ==> CalmLog(log)
      ensures FairTurn(r, turn) && Fair(r, old(log)) ==> Fair(r, log)
    {
      hide Answer, Fair, CalmLog;
      alive, yes := Ask(r, start, turn);
      assert Answer(r, State().durable, old(pc), turn.fate) == Config(State().durable, if turn.fate == Done then next else otherwise);
    }

    /** `journal.Ensure` followed by the checks on the record it returns. */
    method EnsureRecord(r: Request, ghost start: Config, turn: Turn) returns (alive: bool, usable: bool)
      requires Executed(r, start) && pc == Ensuring
      modifies this`record, this`ref, this`pc, this`log
      ensures Executed(r, start) && alive == !turn.dies
      ensures pc == if !alive then Idle else if usable then ReadingMarker else REJECT
      ensures usable ==> turn.fate == Done && Usable(old(record), r)
      ensures record == if old(record).None? && alive && turn.fate != Refused then Some(Record(r, Requested, None)) else old(record)
      ensures alive && turn.fate == Done && ValidRequest(r) && Usable(old(record), r) ==> usable
      ensures turn == CALM && CalmLog(old(log)) ==> CalmLog(log)
      ensures FairTurn(r, turn) && Fair(r, old(log)) ==> Fair(r, log)
    {
      hide ValidRequest, Fair, CalmLog;
      alive := Await(r, start, turn);
      usable := false;
      if alive {
        ghost var before := State();
        if turn.fate != Refused {
          if record.None? {
            record := Some(Record(r, Requested, None));
          }
          var current := record.value;
          usable := turn.fate == Done && ValidRecord(current) && current.request == r && current.state != Failed;
        }
        pc := if usable then ReadingMarker else REJECT;
        Note(r, start, Reply(turn.fate), before);
      }
    }

    /** `repository.CreateCommit`. */
    method CreateCommit(r: Request, ghost start: Config, turn: Turn) returns (alive: bool, created: Option<CommitId>)
      requires Executed(r, start) && pc == Creating
      modifies this`commits, this`ref, this`pc, this`log
      ensures Executed(r, start) && alive == !turn.dies
      ensures created.Some? <==> alive && turn.fate == Done
      ensures created.Some? ==> created.value.Child? && created.value == PromotionCommit(r) && created.value in commits
      ensures commits == if alive && turn.fate != Refused then old(commits) + {PromotionCommit(r)} else old(commits)
      ensures pc == if !alive then Idle else if created.Some? then Publishing(created.value) else Failing
      ensures turn == CALM && CalmLog(old(log)) ==> CalmLog(log)
      ensures FairTurn(r, turn) && Fair(r, old(log)) ==> Fair(r, log)
    {
      hide CommitMessage, Fair, CalmLog;
      alive := Await(r, start, turn);
      created := None;
      if alive {
        ghost var before := State();
        var commit := Child(r.candidateTree, r.oldCommit, CommitMessage(r.tags), r.commitAt);
        if turn.fate != Refused { commits := commits + {commit}; }
        if turn.fate == Done { created := Some(commit); }
        pc := if turn.fate == Done then Publishing(commit) else Failing;
        Note(r, start, Reply(turn.fate), before);
      }
    }

    /** `writeMarker`: link without overwrite. */
    method WriteMarker(r: Request, ghost start: Config, turn: Turn, commit: CommitId) returns (alive: bool, written: Option<Marker>)
      requires Executed(r, start) && pc == Publishing(commit) && commit.Child?
      modifies this`marker, this`ref, this`pc, this`log
      ensures Executed(r, start) && alive == !turn.dies
      ensures pc == if !alive then Idle else if written.Some? then Checking(written.value) else REJECT
      ensures written.Some? <==> alive && turn.fate == Done && old(marker).None?
      ensures written.Some? ==> marker == written && written.value == NewMarker(r, commit, commit.tree, commit.parent)
      ensures marker != old(marker) ==> alive && turn.fate != Refused && old(marker).None?
      ensures turn == CALM && CalmLog(old(log)) ==> CalmLog(log)
      ensures FairTurn(r, turn) && Fair(r, old(log)) ==> Fair(r, log)
    {
      hide PromotionTrailers, Fair, CalmLog;
      alive := Await(r, start, turn);
      written := None;
      if alive {
        ghost var before := State();
        if turn.fate != Refused && marker.None? {
          var m := NewMarker(r, commit, commit.tree, commit.parent);
          marker := Some(m);
          if turn.fate == Done { written := Some(m); }
        }
        pc := if written.Some? then Checking(written.value) else REJECT;
        Note(r, start, Reply(turn.fate), before);
      }
    }

    /** A journal write: RecordCommit, RecordRefUpdate or Observe. */
    method Advance(r: Request, ghost start: Config, turn: Turn, target: State, commit: CommitId, ghost next: Pc)
      returns (alive: bool, ok: bool)
      requires Executed(r, start)
      requires Journals(r, pc, target, commit, next)
      requires Rank(target) > 0
      modifies this`record, this`ref, this`pc, this`log
      ensures Executed(r, start) && alive == !turn.dies
      ensures pc == if !alive then Idle else if ok then next else REJECT
      ensures ok ==> turn.fate == Done && record.Some? && Rank(record.value.state) >= Rank(target)
      ensures record != old(record) ==> turn.fate != Refused && alive && record.Some? && record.value.state == target
      ensures turn == CALM && CalmLog(old(log)) ==> CalmLog(log)
      ensures FairTurn(r, turn) && Fair(r, old(log)) ==> Fair(r, log)
    {
      hide Answer, Fair, CalmLog;
      alive := Await(r, start, turn);
      ok := false;
      if alive {
        ghost var before := State();
        var advanced := AdvanceRecord(record, target, commit);
        if turn.fate != Refused && advanced.Some? {
          record := advanced;
          ok := turn.fate == Done;
        }
        pc := if ok then next else REJECT;
        assert Step(r, before, Reply(turn.fate)) == JournalStep(before.durable, target, commit, turn.fate, next);
        Note(r, start, Reply(turn.fate), before);
      }
    }

    /** `repository.UpdateRefCAS`: compare-and-swap with read-back. */
    method SwapRef(r: Request, ghost start: Config, turn: Turn, m: Marker) returns (alive: bool, ok: bool)
      requires Executed(r, start) && pc == Swapping(m)
      modifies this`ref, this`moves, this`pc, this`log
      ensures Executed(r, start) && alive == !turn.dies
      ensures pc == if !alive then Idle else if ok then RecordingRef(m) else REJECT
      ensures ok ==> turn.fate == Done && ref == m.body.commit && moves == old(moves) + [(r.oldCommit, m.body.commit)]
      ensures moves != old(moves) ==> alive && turn.fate != Refused && moves == old(moves) + [(r.oldCommit, m.body.commit)]
      ensures turn == CALM && CalmLog(old(log)) ==> CalmLog(log)
      ensures FairTurn(r, turn) && Fair(r, old(log)) ==> Fair(r, log)
    {
      hide Fair, CalmLog;
      alive := Await(r, start, turn);
      ok := false;
      if alive {
        ghost var before := State();
        if turn.fate != Refused && ref == r.oldCommit {
          moves := moves + [(ref, m.body.commit)];
          ref := m.body.commit;
          ok := turn.fate == Done;
        }
        pc := if ok then RecordingRef(m) else REJECT;
        Note(r, start, Reply(turn.fate), before);
      }
    }

    /** `fail`: journal the failure; the original error is returned either way. */
    method Fail(r: Request, ghost start: Config, turn: Turn) returns (result: Result)
      requires Executed(r, start) && pc == Failing
      modifies this`record, this`ref, this`pc, this`log
      ensures Executed(r, start) && result == if turn.dies then Died else Returned(Rejected)
      ensures pc == if turn.dies then Idle else REJECT
      ensures !turn.dies && turn.fate != Refused && old(record).Some? && old(record).value.state != Observed
        ==> record == Some(old(record).value.(state := Failed))
      ensures old(record).Some? && old(record).value.state == Observed ==> record == old(record)
      ensures record != old(record) ==> record.Some? && record.value.state == Failed
      ensures FairTurn(r, turn) && Fair(r, old(log)) ==> Fair(r, log)
    {
      hide Fair, CalmLog;
      var alive := Await(r, start, turn);
      if !alive { return Died; }
      ghost var before := State();
      if turn.fate != Refused && record.Some? && record.value.state != Observed {
        record := Some(record.value.(state := Failed));
      }
      pc := REJECT;
      Note(r, start, Reply(turn.fate), before);
      return Returned(Rejected);
    }

    /** `readPromotionCommit`: read the object and compare tree, parent and trailers. */
    method ReadPromotionCommit(r: Request, m: Marker) returns (matches: bool)
      ensures matches == CommitMatches(m.body.commit, commits, m, r)
      ensures var commit := m.body.commit;
        matches <==>
          commit in commits && commit.Child? && commit.tree == r.candidateTree && commit.parent == r.oldCommit &&
          MessageTrailers(commit.message) == Some(PromotionTrailers(r.tags)) && m.body.trailers == PromotionTrailers(r.tags)
    {
      var commit := m.body.commit;
      if commit !in commits || !commit.Child? { return false; }
      var trailers := ReadTrailers(commit.message);
      hide PromotionTrailers, MessageTrailers;
      return trailers.Some? && commit.tree == r.candidateTree && commit.parent == r.oldCommit
          && trailers.value == PromotionTrailers(r.tags) && m.body.trailers == PromotionTrailers(r.tags);
    }

    method Enter(r: Request, ghost start: Config) returns (admitted: bool)
      requires State() == start && (pc.Idle? || pc.Finished?)
      modifies this`pc, this`log
      ensures Executed(r, start) && CalmLog(log) && Fair(r, log)
      ensures admitted == (ValidRequest(r) && r.currentDirectory)
      ensures pc == if admitted then VerifyEntry else REJECT
    {
      hide ValidRequest, Answer, CommitMessage;
      log := [];
      admitted := ValidRequest(r) && r.currentDirectory;
      pc := if admitted then VerifyEntry else REJECT;
      assert start == Exec(r, start, []) && Step(r, start, Begin) == State();
      Note(r, start, Begin, start);
      assert log == [Begin];
    }

    method Perform(r: Request, ghost start: Config, env: nat -> Turn) returns (result: Result)
      requires State() == start && (pc.Idle? || pc.Finished?)
      modifies this
      ensures Executed(r, start)
      ensures pc == if result.Died? then Idle else Finished(result.outcome)
      ensures (forall i :: env(i) == CALM) ==> CalmLog(log) && result.Returned?
      ensures (forall i :: FairTurn(r, env(i))) ==> Fair(r, log)
      ensures record != old(record) ==> Yes(env, 0)
      ensures commits != old(commits) ==> Opened(env) && Checked(env) && old(marker).None?
      ensures marker != old(marker) ==> Opened(env) && Checked(env) && Yes(env, 5) && old(marker).None?
      ensures moves != old(moves) ==> Opened(env) && Recorded(env) && Rechecked(env) && (old(marker).None? ==> Marked(env))
      ensures result.Returned? && result.outcome.Promoted? ==>
        Opened(env) && Recorded(env) && ReadBack(env) && Yes(env, 17) && (old(marker).None? ==> Marked(env))
      ensures !Usable(old(record), r) || !ValidRequest(r) || !r.currentDirectory || (old(marker).Some? && !ValidMarker(old(marker).value, r)) ==>
        (result.Returned? ==> result == Returned(Rejected)) && commits == old(commits) && marker == old(marker) && moves == old(moves)
      ensures !Usable(old(record), r) || !ValidRequest(r) || !r.currentDirectory ==> record == old(record)
      ensures (ValidRequest(r) && r.currentDirectory && Usable(old(record), r) && old(marker).None? && Opened(env) &&
        (Fails(env, 3) || (Yes(env, 3) && Fails(env, 4)) || (Checked(env) && Fails(env, 5)))) ==>
        result == Returned(Rejected) && moves == old(moves) && marker == old(marker) &&
        (old(record).None? || old(record).value.state != Observed ==> record.Some? && record.value.state == Failed)
    {
      hide CommitMatches, ValidMarker, ValidRequest, PromotionTrailers, PromotionCommit, NewMarker, AdvanceRecord, CalmLog, Fair, FairTurn, Exec, Executed, Answer, GoesTo, Journals, ReadBack, Rechecked, Recorded, Marked;
      var admitted := Enter(r, start);
      if !admitted { return Returned(Rejected); }
      CheckEdges(r);
      var alive, yes := Gate(r, start, env(0), Ensuring, REJECT);
      if !alive || !yes { return Stopped(alive); }
      alive, yes := EnsureRecord(r, start, env(1));
      if !alive || !yes { return Stopped(alive); }
      result := FindMarker(r, start, env);
    }

    /** The marker decides whether there is a commit already. */
    method FindMarker(r: Request, ghost start: Config, env: nat -> Turn) returns (result: Result)
      requires Executed(r, start) && pc == ReadingMarker
      modifies this
      ensures Executed(r, start)
      ensures pc == if result.Died? then Idle else Finished(result.outcome)
      ensures (forall i :: env(i) == CALM) && CalmLog(old(log)) ==> CalmLog(log) && result.Returned?
      ensures (forall i :: FairTurn(r, env(i))) && Fair(r, old(log)) ==> Fair(r, log)
      ensures commits != old(commits) ==> Yes(env, 2) && Checked(env) && old(marker).None?
      ensures marker != old(marker) ==> Yes(env, 2) && Checked(env) && Yes(env, 5) && old(marker).None?
      ensures moves != old(moves) ==> Yes(env, 2) && Recorded(env) && Rechecked(env) && (old(marker).None? ==> Marked(env))
      ensures result.Returned? && result.outcome.Promoted? ==>
        Yes(env, 2) && Recorded(env) && ReadBack(env) && Yes(env, 17) && (old(marker).None? ==> Marked(env))
      ensures old(marker).Some? && !ValidMarker(old(marker).value, r) ==>
        (result.Returned? ==> result == Returned(Rejected)) && commits == old(commits) && marker == old(marker) && moves == old(moves)
      ensures (old(marker).None? && Yes(env, 2) && (Fails(env, 3) || (Yes(env, 3) && Fails(env, 4)) || (Checked(env) && Fails(env, 5)))) ==>
        result == Returned(Rejected) && moves == old(moves) && marker == old(marker) && JournalledFailure(old(record), record)
    {
      hide CommitMatches, ValidMarker, ValidRequest, PromotionTrailers, PromotionCommit, NewMarker, AdvanceRecord, CalmLog, Fair, FairTurn, Exec, Executed, Answer, GoesTo, Journals, ReadBack, Rechecked, Recorded;
      var alive, yes := Ask(r, start, env(2));
      ReadingEdge(r, State().durable, env(2).fate);
      if !alive || !yes { return Stopped(alive); }
      if marker.None? {
        result := Establish(r, start, env);
      } else if !ValidMarker(marker.value, r) {
        result := Returned(Rejected);
      } else {
        result := Publish(r, start, env, marker.value);
      }
    }

    /** `Promote` when no marker exists yet: preflight, verify, create the commit, publish the marker. */
    method Establish(r: Request, ghost start: Config, env: nat -> Turn) returns (result: Result)
      requires Executed(r, start) && pc == PreflightNew
      modifies this
      ensures Executed(r, start)
      ensures pc == if result.Died? then Idle else Finished(result.outcome)
      ensures (forall i :: env(i) == CALM) && CalmLog(old(log)) ==> CalmLog(log) && result.Returned?
      ensures (forall i :: FairTurn(r, env(i))) && Fair(r, old(log)) ==> Fair(r, log)
      ensures commits != old(commits) ==> Checked(env)
      ensures marker != old(marker) ==> Checked(env) && Yes(env, 5)
      ensures moves != old(moves) ==> Marked(env) && Recorded(env) && Rechecked(env)
      ensures result.Returned? && result.outcome.Promoted? ==> Marked(env) && Recorded(env) && ReadBack(env) && Yes(env, 17)
      ensures Fails(env, 3) || (Yes(env, 3) && Fails(env, 4)) || (Checked(env) && Fails(env, 5)) ==>
        result == Returned(Rejected) && moves == old(moves) && marker == old(marker) && JournalledFailure(old(record), record)
    {
      hide CommitMatches, ValidMarker, ValidRequest, PromotionTrailers, PromotionCommit, NewMarker, AdvanceRecord, CalmLog, Fair, FairTurn, Exec, Executed, Answer, GoesTo, Journals, ReadBack, Rechecked, Recorded, CommitMessage, ValidRecord;
      CheckEdges(r);
      var alive, yes := Gate(r, start, env(3), VerifyNew, Failing);
      if !alive { return Died; }
      if !yes { result := Fail(r, start, env(4)); return; }
      alive, yes := Gate(r, start, env(4), Creating, Failing);
      if !alive { return Died; }
      if !yes { result := Fail(r, start, env(5)); return; }
      result := MakeCommit(r, start, env);
    }

    /** The commit object and the marker that names it. */
    method MakeCommit(r: Request, ghost start: Config, env: nat -> Turn) returns (result: Result)
      requires Executed(r, start) && pc == Creating
      modifies this
      ensures Executed(r, start)
      ensures pc == if result.Died? then Idle else Finished(result.outcome)
      ensures (forall i :: env(i) == CALM) && CalmLog(old(log)) ==> CalmLog(log) && result.Returned?
      ensures (forall i :: FairTurn(r, env(i))) && Fair(r, old(log)) ==> Fair(r, log)
      ensures marker != old(marker) ==> Yes(env, 5) && old(marker).None?
      ensures moves != old(moves) ==> Yes(env, 5) && Yes(env, 6) && Recorded(env) && Rechecked(env)
      ensures result.Returned? && result.outcome.Promoted? ==>
        Yes(env, 5) && Yes(env, 6) && Recorded(env) && ReadBack(env) && Yes(env, 17)
      ensures Fails(env, 5) ==>
        result == Returned(Rejected) && moves == old(moves) && marker == old(marker) && JournalledFailure(old(record), record)
    {
      hide CommitMatches, ValidMarker, ValidRequest, PromotionTrailers, PromotionCommit, NewMarker, AdvanceRecord, CalmLog, Fair, FairTurn, Exec, Executed, Answer, GoesTo, Journals, ReadBack, Rechecked, Recorded, CommitMessage, ValidRecord;
      var alive: bool, created: Option<CommitId>;
      alive, created := CreateCommit(r, start, env(5));
      if !alive { return Died; }
      if created.None? { result := Fail(r, start, env(6)); return; }
      var written: Option<Marker>;
      alive, written := WriteMarker(r, start, env(6), created.value);
      if written.None? { return Stopped(alive); }
      result := Publish(r, start, env, written.value);
    }

    /** `Promote` from the validated marker on. */
    method Publish(r: Request, ghost start: Config, env: nat -> Turn, stored: Marker) returns (result: Result)
      requires Executed(r, start) && pc == Checking(stored)
      modifies this
      ensures Executed(r, start)
      ensures pc == if result.Died? then Idle else Finished(result.outcome)
      ensures (forall i :: env(i) == CALM) && CalmLog(old(log)) ==> CalmLog(log) && result.Returned?
      ensures (forall i :: FairTurn(r, env(i))) && Fair(r, old(log)) ==> Fair(r, log)
      ensures moves != old(moves) ==> Recorded(env) && Rechecked(env) && moves == old(moves) + [(r.oldCommit, stored.body.commit)]
      ensures moves != old(moves) ==> CommitMatches(stored.body.commit, commits, stored, r)
      ensures result.Returned? && result.outcome.Promoted? ==> Recorded(env) && ReadBack(env) && Yes(env, 17)
      ensures result.Returned? && result.outcome.Promoted? ==>
        CommitMatches(stored.body.commit, commits, stored, r) && result.outcome.observation == Report(r, stored)
      ensures record.Some? && record != old(record) && record.value.state == Failed ==> Recorded(env) && !Rechecked(env)
      ensures marker == old(marker) && commits == old(commits)
    {
      hide CommitMatches, ValidMarker, ValidRequest, PromotionTrailers, PromotionCommit, NewMarker, AdvanceRecord, CalmLog, Fair, FairTurn, Exec, Executed, Answer, GoesTo, Journals, ReadBack, Rechecked;
      MarkedEdges(r, stored);
      var alive, yes := Ask(r, start, env(7));
      ReadEdges(r, State().durable, stored, stored.body.commit, env(7).fate);
      var matches := ReadPromotionCommit(r, stored);
      if !alive || !yes || !matches { return Stopped(alive); }
      alive, yes := Advance(r, start, env(8), CommitCreated, stored.body.commit, Resolving(stored));
      if !alive || !yes { return Stopped(alive); }
      result := Resolve(r, start, env, stored);
    }

    /** Where the ref stands decides how the promotion goes on. */
    method Resolve(r: Request, ghost start: Config, env: nat -> Turn, stored: Marker) returns (result: Result)
      requires Executed(r, start) && pc == Resolving(stored)
      modifies this
      ensures Executed(r, start)
      ensures pc == if result.Died? then Idle else Finished(result.outcome)
      ensures (forall i :: env(i) == CALM) && CalmLog(old(log)) ==> CalmLog(log) && result.Returned?
      ensures (forall i :: FairTurn(r, env(i))) && Fair(r, old(log)) ==> Fair(r, log)
      ensures moves != old(moves) ==> Yes(env, 9) && Rechecked(env) && moves == old(moves) + [(r.oldCommit, stored.body.commit)]
      ensures result.Returned? && result.outcome.Promoted? ==>
        Yes(env, 9) && ReadBack(env) && Yes(env, 17) && result.outcome.observation == Report(r, stored)
      ensures record.Some? && record != old(record) && record.value.state == Failed ==> Yes(env, 9) && !Rechecked(env)
      ensures marker == old(marker) && commits == old(commits)
    {
      hide CommitMatches, ValidMarker, ValidRequest, PromotionTrailers, PromotionCommit, NewMarker, AdvanceRecord, CalmLog, Fair, FairTurn, Exec, Executed, Answer, GoesTo, Journals, ReadBack;
      var alive, yes := Ask(r, start, env(9));
      ReadEdges(r, State().durable, stored, stored.body.commit, env(9).fate);
      if !alive || !yes { return Stopped(alive); }
      var current := ref;
      if current == r.oldCommit {
        result := MoveRef(r, start, env, stored);
      } else if current == stored.body.commit {
        result := Observe(r, start, env, stored);
      } else {
        result := Returned(Rejected);
      }
    }

    /** `Promote` when the ref still holds the old commit: check again, then compare-and-swap. */
    method MoveRef(r: Request, ghost start: Config, env: nat -> Turn, stored: Marker) returns (result: Result)
      requires Executed(r, start) && pc == PreflightSwap(stored)
      modifies this
      ensures Executed(r, start)
      ensures pc == if result.Died? then Idle else Finished(result.outcome)
      ensures (forall i :: env(i) == CALM) && CalmLog(old(log)) ==> CalmLog(log) && result.Returned?
      ensures (forall i :: FairTurn(r, env(i))) && Fair(r, old(log)) ==> Fair(r, log)
      ensures moves != old(moves) ==> Rechecked(env) && moves == old(moves) + [(r.oldCommit, stored.body.commit)]
      ensures result.Returned? && result.outcome.Promoted? ==> moves != old(moves) && Rechecked(env) && Yes(env, 12) && ReadBack(env) && Yes(env, 17)
      ensures result.Returned? && result.outcome.Promoted? ==> result.outcome.observation == Report(r, stored)
      ensures Fails(env, 10) || (Yes(env, 10) && Fails(env, 11)) ==>
        result == Returned(Rejected) && moves == old(moves) && JournalledFailure(old(record), record)
      ensures record.Some? && record != old(record) && record.value.state == Failed ==> moves == old(moves) && !Rechecked(env)
      ensures marker == old(marker) && commits == old(commits)
    {
      hide CommitMatches, ValidMarker, ValidRequest, PromotionTrailers, PromotionCommit, NewMarker, AdvanceRecord, CalmLog, Fair, FairTurn, Exec, Executed, Answer, GoesTo, Journals, ReadBack;
      MarkedEdges(r, stored);
      var alive, yes := Gate(r, start, env(10), VerifySwap(stored), Failing);
      if !alive { return Died; }
      if !yes { result := Fail(r, start, env(11)); return; }
      alive, yes := Gate(r, start, env(11), Swapping(stored), Failing);
      if !alive { return Died; }
      if !yes { result := Fail(r, start, env(12)); return; }
      alive, yes := SwapRef(r, start, env(12), stored);
      if !alive || !yes { return Stopped(alive); }
      result := Observe(r, start, env, stored);
    }

    /** `Promote` after the ref update: journal it, read everything back, journal the observation. */
    method Observe(r: Request, ghost start: Config, env: nat -> Turn, stored: Marker) returns (result: Result)
      requires Executed(r, start) && pc == RecordingRef(stored)
      modifies this
      ensures Executed(r, start)
      ensures pc == if result.Died? then Idle else Finished(result.outcome)
      ensures (forall i :: env(i) == CALM) && CalmLog(old(log)) ==> CalmLog(log) && result.Returned?
      ensures (forall i :: FairTurn(r, env(i))) && Fair(r, old(log)) ==> Fair(r, log)
      ensures result.Returned? && result.outcome.Promoted? ==>
        ReadBack(env) && Yes(env, 17) && CommitMatches(stored.body.commit, commits, stored, r) && result.outcome.observation == Report(r, stored)
      ensures record != old(record) ==> record.Some? && (record.value.state == RefUpdated || (record.value.state == Observed && ReadBack(env)))
      ensures moves == old(moves) && marker == old(marker) && commits == old(commits)
    {
      hide CommitMatches, ValidMarker, ValidRequest, PromotionTrailers, PromotionCommit, NewMarker, AdvanceRecord, CalmLog, Fair, FairTurn, Exec, Executed, Answer, GoesTo, Journals, ValidRecord;
      MarkedEdges(r, stored);
      var alive, yes := Advance(r, start, env(13), RefUpdated, stored.body.commit, ObservingRef(stored));
      if !alive || !yes { return Stopped(alive); }
      alive, yes := Ask(r, start, env(14));
      ObservingEdge(r, State().durable, stored, env(14).fate);
      if !alive || !yes { return Stopped(alive); }
      result := ReadCommitBack(r, start, env, stored, ref);
    }

    /** The commit object read back, against the ref that was seen. */
    method ReadCommitBack(r: Request, ghost start: Config, env: nat -> Turn, stored: Marker, seen: CommitId) returns (result: Result)
      requires Executed(r, start) && pc == ObservingCommit(stored, seen)
      modifies this
      ensures Executed(r, start)
      ensures pc == if result.Died? then Idle else Finished(result.outcome)
      ensures (forall i :: env(i) == CALM) && CalmLog(old(log)) ==> CalmLog(log) && result.Returned?
      ensures (forall i :: FairTurn(r, env(i))) && Fair(r, old(log)) ==> Fair(r, log)
      ensures result.Returned? && result.outcome.Promoted? ==>
        Yes(env, 15) && Yes(env, 16) && Yes(env, 17) && seen == stored.body.commit &&
        CommitMatches(stored.body.commit, commits, stored, r) && result.outcome.observation == Report(r, stored)
      ensures record != old(record) ==> record.Some? && record.value.state == Observed && Yes(env, 15) && Yes(env, 16) && seen == stored.body.commit
      ensures moves == old(moves) && marker == old(marker) && commits == old(commits)
    {
      hide CommitMatches, ValidMarker, ValidRequest, PromotionTrailers, PromotionCommit, NewMarker, AdvanceRecord, CalmLog, Fair, FairTurn, Exec, Executed, Answer, GoesTo, Journals;
      var alive, yes := Ask(r, start, env(15));
      ReadEdges(r, State().durable, stored, seen, env(15).fate);
      var matches := ReadPromotionCommit(r, stored);
      if !alive || !yes || !matches || seen != stored.body.commit || seen.tree != r.candidateTree { return Stopped(alive); }
      result := Conclude(r, start, env, stored);
    }

    /** The last look at the checkout and the journalled observation. */
    method Conclude(r: Request, ghost start: Config, env: nat -> Turn, stored: Marker) returns (result: Result)
      requires Executed(r, start) && pc == ObservingCheckout(stored)
      modifies this
      ensures Executed(r, start)
      ensures pc == if result.Died? then Idle else Finished(result.outcome)
      ensures (forall i :: env(i) == CALM) && CalmLog(old(log)) ==> CalmLog(log) && result.Returned?
      ensures (forall i :: FairTurn(r, env(i))) && Fair(r, old(log)) ==> Fair(r, log)
      ensures result.Returned? && result.outcome.Promoted? ==> Yes(env, 16) && Yes(env, 17) && result.outcome.observation == Report(r, stored)
      ensures record != old(record) ==> Yes(env, 16) && record.Some? && record.value.state == Observed
      ensures moves == old(moves) && marker == old(marker) && commits == old(commits)
    {
      hide CommitMatches, ValidMarker, ValidRequest, PromotionTrailers, PromotionCommit, NewMarker, AdvanceRecord, CalmLog, Fair, FairTurn, Exec, Executed, Answer, GoesTo, Journals;
      MarkedEdges(r, stored);
      var alive, yes := Gate(r, start, env(16), RecordingObservation(Report(r, stored)), REJECT);
      if !alive || !yes { return Stopped(alive); }
      var observation := Observation(r.integrationRef, stored.body.commit, stored.body.commit.tree, PromotionTrailers(r.tags));
      alive, yes := Advance(r, start, env(17), Observed, observation.commit, Finished(Promoted(observation)));
      if !alive || !yes { return Stopped(alive); }
      return Returned(Promoted(observation));
    }

    /** `Promote`: the run it performs, cut short or not, is a run of the machine from the state it
        found; when nothing interferes it is the run `Drive` describes. */
    method Promote(r: Request, env: nat -> Turn) returns (result: Result)
      requires pc.Idle? || pc.Finished?
      modifies this
      ensures Executed(r, old(State()))
      ensures pc == if result.Died? then Idle else Finished(result.outcome)
      ensures (forall i :: env(i) == CALM) ==> State() == Drive(r, Step(r, old(State()), Begin))
      ensures (forall i :: FairTurn(r, env(i))) && Inv(r, old(State())) ==> Inv(r, State())
      ensures record != old(record) ==> Yes(env, 0)
      ensures commits != old(commits) ==> Opened(env) && Checked(env) && old(marker).None?
      ensures marker != old(marker) ==> Opened(env) && Checked(env) && Yes(env, 5) && old(marker).None?
      ensures moves != old(moves) ==> Opened(env) && Recorded(env) && Rechecked(env) && (old(marker).None? ==> Marked(env))
      ensures result.Returned? && result.outcome.Promoted? ==>
        Opened(env) && Recorded(env) && ReadBack(env) && Yes(env, 17) && (old(marker).None? ==> Marked(env))
      ensures !Usable(old(record), r) || !ValidRequest(r) || !r.currentDirectory || (old(marker).Some? && !ValidMarker(old(marker).value, r)) ==>
        (result.Returned? ==> result == Returned(Rejected)) && commits == old(commits) && marker == old(marker) && moves == old(moves)
      ensures !Usable(old(record), r) || !ValidRequest(r) || !r.currentDirectory ==> record == old(record)
      ensures (ValidRequest(r) && r.currentDirectory && Usable(old(record), r) && old(marker).None? && Opened(env) &&
        (Fails(env, 3) || (Yes(env, 3) && Fails(env, 4)) || (Checked(env) && Fails(env, 5)))) ==>
        result == Returned(Rejected) && moves == old(moves) && marker == old(marker) &&
        (old(record).None? || old(record).value.state != Observed ==> record.Some? && record.value.state == Failed)
    {
      hide Answer, CommitMatches, ValidMarker, ValidRequest, PromotionTrailers, PromotionCommit, NewMarker, Fair, FairTurn, DurableInv, PcInv;
      ghost var start := State();
      result := Perform(r, start, env);
      if forall i :: env(i) == CALM {
        CalmIsDrive(r, start, log);
      }
      if Fair(r, log) && Inv(r, start) {
        ExecKeepsInv(r, start, log);
      }
    }
  }
}
