/** Finalizing a Goal and recovering its report: internal/finalize/finalize.go. */
module Finalize {
  import opened Report
  import opened ReportManager

  datatype Result =
    | Completed        // both files published and the record committed
    | NotComplete      // the completion check said no; nothing is kept
    | Rejected         // an error; whether the transaction committed may be unknown
    | RecoveryNeeded   // the Goal is completed, publication was interrupted by an error
    | Interrupted      // the process was cut off

  class Finalizer {
    const files: Manager

    constructor (files: Manager)
      ensures this.files == files
    {
      this.files := files;
    }

    /** `FinalizeGoal`: one transaction that completes the Goal and stores the report. A Goal with a
        record is completed already, so it is not completed again. The reply may be lost. */
    method Transact(prepared: Prepared, verdict: Verdict, calm: bool) returns (r: TxResult)
      requires Inv(files.disk) && PreparedOk(prepared, prepared.goal, files.disk.drawn)
      requires Unrecorded(files.disk, {prepared.json.temp, prepared.markdown.temp})
      requires IntactItem(files.disk, prepared.json) && IntactItem(files.disk, prepared.markdown)
      modifies files
      ensures Inv(files.disk) && Rely(old(files.disk), files.disk, {})
      ensures r == TxCompleted ==>
        verdict == Complete && prepared.goal in files.disk.records && files.disk.records[prepared.goal].files == prepared
      ensures calm ==>
        (r == TxError <==> verdict == Refused) &&
        (r == TxCompleted <==> verdict == Complete && prepared.goal !in old(files.disk).records) &&
        r != TxCrashed && files.disk.files == old(files.disk).files &&
        files.disk.records ==
          (if r != TxCompleted then old(files.disk).records
           else old(files.disk).records[prepared.goal := Record(prepared, PendingRename, 1)])
    {
      hide Inv, Grew, Recorded, PreparedOk;
      ghost var since := files.disk;
      RelyReflexive(since, {});
      var temps := {prepared.json.temp, prepared.markdown.temp};
      var o := files.Pause(temps, {}, since, calm);
      if o == Crashed { return TxCrashed; }
      if o == Failed || verdict == Refused { return TxError; }
      if verdict == Incomplete || prepared.goal in files.disk.records { return TxIncomplete; }
      ghost var before := files.disk;
      PreparedStays(since, before, prepared);
      files.Insert(prepared);
      StepChain(since, before, files.disk, {}, temps);
      ghost var inserted := files.disk;
      o := files.Pause({}, {}, since, calm);
      KeptRecord(inserted, files.disk, prepared.goal);
      r := if o == Done then TxCompleted else if o == Failed then TxError else TxCrashed;
    }

    /** `MarkFinalReportCommitted` once both files have been published. */
    method MarkCommitted(goal: string, version: nat, ghost since: Disk, calm: bool) returns (o: Outcome)
      requires Inv(files.disk) && Inv(since) && goal in files.disk.records && Rely(since, files.disk, {})
      requires HasFiles(files.disk, goal)
      modifies files
      ensures Inv(files.disk) && Rely(since, files.disk, {})
      ensures goal in files.disk.records && files.disk.records[goal].files == old(files.disk).records[goal].files
      ensures o == Done ==> files.disk.records[goal].state == Committed
      ensures calm ==>
        files.disk.files == old(files.disk).files &&
        (o == Done <==> old(files.disk).records[goal].state == Committed || old(files.disk).records[goal].version == version) &&
        files.disk.records ==
          if o == Done && old(files.disk).records[goal].state != Committed
          then old(files.disk).records[goal := Record(old(files.disk).records[goal].files, Committed, version + 1)]
          else old(files.disk).records
    {
      hide Inv, Grew, Recorded;
      ghost var entry := files.disk;
      o := files.Pause({}, {}, since, calm);
      KeptFiles(entry, files.disk, goal);
      if o != Done { return; }
      ghost var before := files.disk;
      var ok := files.Mark(goal, version);
      StepChain(since, before, files.disk, {}, {});
      if !ok { return Failed; }
      ghost var marked := files.disk;
      o := files.Pause({}, {}, since, calm);
      KeptRecord(marked, files.disk, goal);
    }

    /** `Finalize`. */
    method Finalize(goal: string, artifact: Artifact, verdict: Verdict, calm: bool) returns (r: Result)
      requires Inv(files.disk)
      modifies files
      ensures Inv(files.disk) && Rely(old(files.disk), files.disk, {})
      ensures r == Completed ==>
        verdict == Complete && goal in files.disk.records && files.disk.records[goal].state == Committed &&
        Published(files.disk, goal, artifact)
      // Undisturbed: either the report is published and nothing else is left behind,
      // or nothing at all has changed.
      ensures calm ==>
        (r == Completed <==>
          ValidArtifact(goal, artifact) && verdict == Complete && goal !in old(files.disk).records) &&
        (r != Completed ==> files.disk.files == old(files.disk).files && files.disk.records == old(files.disk).records)
      ensures calm && r == Completed ==>
        files.disk.files == old(files.disk).files
          [Final(goal, artifact.reportHash, Json) := Regular(artifact.json)]
          [Final(goal, artifact.reportHash, Markdown) := Regular(artifact.markdown)]
    {
      hide Inv, Grew, Recorded, PreparedOk;
      ghost var since := files.disk;
      ghost var absent := goal !in since.records;
      if absent { NoFinals(since, goal, artifact.reportHash); }
      var o, prepared := files.Prepare(goal, artifact, calm);
      if o != Done {
        return if o == Crashed then Interrupted else Rejected;
      }
      PreparedShape(prepared, goal, files.disk.drawn);
      ghost var prep := files.disk;
      var tx := Transact(prepared, verdict, calm);
      RelyTransitive(since, prep, files.disk, {});
      ghost var done := files.disk;
      if tx == TxCrashed { return Interrupted; }
      if tx != TxCompleted {
        o := files.Discard(prepared, calm);
        RelyTransitive(since, done, files.disk, {});
        if calm { DiscardUndoes(since.files, prepared, artifact); }
        return if o == Crashed then Interrupted else if tx == TxIncomplete && o == Done then NotComplete else Rejected;
      }
      var version := files.disk.records[goal].version;
      o := files.Commit(goal, calm);
      RelyTransitive(since, done, files.disk, {});
      ghost var committed := files.disk;
      KeptRecord(done, committed, goal);
      if calm { CommitPublishes(since.files, prepared, artifact); }
      if o != Done {
        return if o == Crashed then Interrupted else RecoveryNeeded;
      }
      o := MarkCommitted(goal, version, since, calm);
      if o != Done {
        return if o == Crashed then Interrupted else RecoveryNeeded;
      }
      PublishedNow(files.disk, goal, prepared, artifact);
      r := Completed;
    }

    /** One round of `Recover`: publish, rebuilding what is missing, then mark. */
    method RecoverOne(goal: string, version: nat, calm: bool) returns (o: Outcome)
      requires Inv(files.disk) && goal in files.disk.records
      modifies files
      ensures Inv(files.disk) && Rely(old(files.disk), files.disk, {})
      ensures o == Done ==> goal in files.disk.records && files.disk.records[goal].state == Committed
      ensures var record := old(files.disk).records[goal];
        calm && record.state == PendingRename && record.version == version ==>
          (o == Done <==> PublishableBoth(old(files.disk).files, record.files, true)) && o != Crashed &&
          files.disk.files == Recovered(old(files.disk).files, record.files, true) &&
          files.disk.records ==
            (if o != Done then old(files.disk).records
             else old(files.disk).records[goal := Record(record.files, Committed, version + 1)])
    {
      hide Inv, Grew, Recorded, Recovered, PublishableBoth;
      ghost var since := files.disk;
      ItemShape(since, goal, Json);
      ItemShape(since, goal, Markdown);
      o := files.Recover(goal, calm);
      if o != Done { return; }
      KeptRecord(since, files.disk, goal);
      o := MarkCommitted(goal, version, since, calm);
    }

    /** `Recover`: every pending record, going on after a failure. */
    method Recover(calm: bool) returns (o: Outcome)
      requires Inv(files.disk)
      modifies files
      ensures Inv(files.disk) && Rely(old(files.disk), files.disk, {})
      ensures o == Done ==>
        forall goal :: goal in old(files.disk).records ==>
          goal in files.disk.records && files.disk.records[goal].state == Committed
      // Undisturbed: exactly the records whose files can be published end up committed.
      ensures calm ==> o != Crashed && (o == Done <==> AllPublishable(old(files.disk)))
      ensures calm ==> files.disk.records.Keys == old(files.disk).records.Keys
      ensures calm ==> forall goal :: goal in old(files.disk).records ==> Settles(old(files.disk), files.disk, goal)
      ensures calm && AllCommitted(old(files.disk)) ==> files.disk == old(files.disk)
    {
      hide Inv, Grew, Recorded, Settles, Halfway, Solvable, AllPublishable;
      ghost var since := files.disk;
      RelyReflexive(since, {});
      o := files.Pause({}, {}, since, calm);
      if o != Done { return; }
      var listed := files.disk.records;
      var todo := set goal | goal in listed && listed[goal].state == PendingRename;
      ghost var start := files.disk;
      forall goal | goal in since.records && goal !in todo
        ensures goal in start.records && start.records[goal].state == Committed
      {
        KeptRecord(since, start, goal);
      }
      if calm { UntouchedAtStart(since, todo); }
      RelyReflexive(start, {});
      var failed := false;
      while todo != {}
        invariant forall goal :: goal in todo ==> goal in listed && listed[goal].state == PendingRename
        invariant Inv(files.disk) && Rely(since, files.disk, {}) && Rely(start, files.disk, {})
        invariant !failed ==>
          forall goal :: goal in since.records && goal !in todo ==>
            goal in files.disk.records && files.disk.records[goal].state == Committed
        invariant calm && AllCommitted(since) ==> todo == {} && files.disk == since
        invariant calm ==> start == since && Halfway(since, files.disk, todo)
        invariant calm ==> (failed <==> exists goal :: goal in since.records && goal !in todo && !Solvable(since, goal))
        decreases |todo|
      {
        var goal :| goal in todo;
        KeptRecord(start, files.disk, goal);
        ghost var before := files.disk;
        if calm { HalfwayPublishable(since, before, todo, goal); }
        var one := RecoverOne(goal, listed[goal].version, calm);
        RelyTransitive(since, before, files.disk, {});
        RelyTransitive(start, before, files.disk, {});
        if one == Crashed { return Crashed; }
        forall g | g in since.records && g in before.records && before.records[g].state == Committed
          ensures g in files.disk.records && files.disk.records[g].state == Committed
        {
          KeptRecord(before, files.disk, g);
        }
        if calm { HalfwayStep(since, before, files.disk, todo, goal); }
        failed := failed || one == Failed;
        todo := todo - {goal};
      }
      if calm { HalfwayDone(since, files.disk); }
      o := if failed then Failed else Done;
    }

    /** `Read`: recovers a pending report first, then returns both verified files. */
    method Read(goal: string, calm: bool) returns (o: Outcome, json: Bytes, markdown: Bytes)
      requires Inv(files.disk)
      modifies files
      ensures Inv(files.disk) && Rely(old(files.disk), files.disk, {})
      ensures o == Done ==>
        goal in files.disk.records && files.disk.records[goal].state == Committed &&
        json == files.disk.records[goal].files.json.payload && markdown == files.disk.records[goal].files.markdown.payload
      ensures calm ==>
        o != Crashed && (o == Done <==> goal in old(files.disk).records && Solvable(old(files.disk), goal))
    {
      hide Inv, Grew, Recorded, PublishableBoth, Recovered;
      ghost var since := files.disk;
      RelyReflexive(since, {});
      json, markdown := [], [];
      o := files.Pause({}, {}, since, calm);
      if o != Done { return; }
      if goal !in files.disk.records {
        return Failed, json, markdown;
      }
      var record := files.disk.records[goal];
      ghost var before := files.disk;
      if record.state != Committed {
        o := RecoverOne(goal, record.version, calm);
        RelyTransitive(since, before, files.disk, {});
        if o != Done { return; }
      }
      before := files.disk;
      CommittedHasFiles(before, goal, Json);
      CommittedHasFiles(before, goal, Markdown);
      o, json, markdown := files.Read(goal, calm);
      RelyTransitive(since, before, files.disk, {});
      KeptRecord(before, files.disk, goal);
    }

    /** Any history: finalizations, recoveries and reads, each disturbed by others, failing or cut
        off at any point, and, if `tampering`, foreign writes to temporary files between them. */
    method AnyHistory(rounds: nat, tampering: bool)
      requires Inv(files.disk)
      modifies files
      ensures Inv(files.disk) && Grew(old(files.disk), files.disk)
      ensures !tampering && Intact(old(files.disk)) ==> Intact(files.disk)
    {
      hide Inv, Intact;
      ghost var since := files.disk;
      GrewReflexive(since);
      for i := 0 to rounds
        invariant Inv(files.disk) && Grew(since, files.disk)
        invariant !tampering && Intact(since) ==> Intact(files.disk)
      {
        ghost var before := files.disk;
        AnyRound(tampering);
        GrewTransitive(since, before, files.disk);
      }
    }

    method AnyRound(tampering: bool)
      requires Inv(files.disk)
      modifies files
      ensures Inv(files.disk) && Grew(old(files.disk), files.disk)
      ensures !tampering && Intact(old(files.disk)) ==> Intact(files.disk)
    {
      hide Inv, Intact;
      ghost var before := files.disk;
      GrewReflexive(before);
      var goal: string, artifact: Artifact, verdict: Verdict := *, *, *;
      var choice: int := *;
      if choice == 0 {
        var r := Finalize(goal, artifact, verdict, false);
        if Intact(before) { IntactKept(before, files.disk, {}); }
      } else if choice == 1 {
        var o := Recover(false);
        if Intact(before) { IntactKept(before, files.disk, {}); }
      } else if choice == 2 {
        var o, json, markdown := Read(goal, false);
        if Intact(before) { IntactKept(before, files.disk, {}); }
      } else if tampering {
        var temp: Path, file: File := *, *;
        if temp.Temp? && temp.nonce < files.disk.drawn { files.Tamper(temp, file); }
      }
    }

    /** After any history without tampering, one uninterrupted recovery publishes every report of a
        completed Goal. */
    method RecoveryConverges(rounds: nat)
      requires Inv(files.disk) && Intact(files.disk)
      modifies files
      ensures Inv(files.disk) && AllCommitted(files.disk)
      ensures forall goal :: goal in old(files.disk).records ==>
        goal in files.disk.records && files.disk.records[goal].files == old(files.disk).records[goal].files
    {
      hide Inv, Intact, Solvable;
      ghost var since := files.disk;
      AnyHistory(rounds, false);
      ghost var crashed := files.disk;
      forall goal | goal in crashed.records
        ensures Solvable(crashed, goal)
      {
        IntactSolvable(crashed, goal);
      }
      var o := Recover(true);
      forall goal | goal in since.records
        ensures goal in files.disk.records && files.disk.records[goal].files == since.records[goal].files
      {
        KeptRecord(since, crashed, goal);
        KeptRecord(crashed, files.disk, goal);
      }
    }
  }

  // ----- recovery goal by goal -----

  /** Recovery can publish the Goal's report, or has already. */
  predicate Solvable(d: Disk, goal: string)
    requires goal in d.records
  {
    d.records[goal].state == Committed || PublishableBoth(d.files, d.records[goal].files, true)
  }

  lemma IntactSolvable(d: Disk, goal: string)
    requires Inv(d) && Intact(d) && goal in d.records
    ensures Solvable(d, goal)
  {
    IntactPublishable(d, goal);
  }

  predicate AllCommitted(d: Disk) {
    forall goal :: goal in d.records ==> d.records[goal].state == Committed
  }

  predicate AllPublishable(d: Disk) {
    forall goal :: goal in d.records ==> Solvable(d, goal)
  }

  /** Undisturbed recovery commits the record, with both files, exactly if it is solvable. */
  predicate Settles(a: Disk, b: Disk, goal: string)
    requires goal in a.records
  {
    goal in b.records && b.records[goal].files == a.records[goal].files &&
    (b.records[goal].state == Committed <==> Solvable(a, goal))
  }

  predicate Untouched(a: Disk, b: Disk, goal: string) {
    (goal in a.records ==> goal in b.records && b.records[goal] == a.records[goal]) &&
    (forall p :: p in a.files && p.goal == goal ==> SameFile(a, b, p)) &&
    (forall p :: p in b.files && p.goal == goal ==> SameFile(a, b, p))
  }

  predicate Halfway(a: Disk, b: Disk, todo: set<string>) {
    b.records.Keys == a.records.Keys &&
    (forall goal :: goal in todo ==> goal in a.records && a.records[goal].state == PendingRename && Untouched(a, b, goal)) &&
    (forall goal :: goal in a.records && goal !in todo ==> Settles(a, b, goal))
  }

  lemma UntouchedAtStart(a: Disk, todo: set<string>)
    requires todo == set goal | goal in a.records && a.records[goal].state == PendingRename
    ensures Halfway(a, a, todo)
    ensures forall goal :: goal in a.records && goal !in todo ==> Solvable(a, goal)
  {
  }

  lemma HalfwayPublishable(a: Disk, b: Disk, todo: set<string>, goal: string)
    requires Halfway(a, b, todo) && goal in todo && Inv(b)
    ensures goal in b.records && b.records[goal] == a.records[goal]
    ensures PublishableBoth(b.files, b.records[goal].files, true) <==> Solvable(a, goal)
  {
    hide Inv;
    ItemShape(b, goal, Json);
    ItemShape(b, goal, Markdown);
    assert Untouched(a, b, goal);
    var p := b.records[goal].files;
    forall q | q in {p.json.final, p.json.temp, p.markdown.final, p.markdown.temp}
      ensures SameFile(a, b, q)
    {
    }
  }

  lemma HalfwayStep(a: Disk, b: Disk, c: Disk, todo: set<string>, goal: string)
    requires Halfway(a, b, todo) && goal in todo && Inv(b) && goal in b.records && b.records[goal] == a.records[goal]
    requires PublishableBoth(b.files, b.records[goal].files, true) <==> Solvable(a, goal)
    requires c.files == Recovered(b.files, b.records[goal].files, true)
    requires c.records ==
      (if !Solvable(a, goal) then b.records
       else b.records[goal := Record(b.records[goal].files, Committed, b.records[goal].version + 1)])
    ensures Halfway(a, c, todo - {goal})
  {
    hide Inv, Solvable, Recovered, PublishableBoth;
    ItemShape(b, goal, Json);
    ItemShape(b, goal, Markdown);
    forall g | g in todo - {goal}
      ensures g in a.records && a.records[g].state == PendingRename && Untouched(a, c, g)
    {
      UntouchedStays(a, b, c, goal, g);
    }
    forall g | g in a.records && g !in todo - {goal}
      ensures Settles(a, c, g)
    {
      assert g != goal ==> Settles(a, b, g);
      assert g == goal ==> a.records[g].state == PendingRename;
    }
  }

  lemma UntouchedStays(a: Disk, b: Disk, c: Disk, goal: string, g: string)
    requires g != goal && Untouched(a, b, g) && goal in b.records
    requires c.files == Recovered(b.files, b.records[goal].files, true)
    requires ItemOk(b.records[goal].files.json, goal, b.records[goal].files.reportHash, Json, b.drawn)
    requires ItemOk(b.records[goal].files.markdown, goal, b.records[goal].files.reportHash, Markdown, b.drawn)
    requires g in b.records ==> g in c.records && c.records[g] == b.records[g]
    ensures Untouched(a, c, g)
  {
    hide Recovered;
    forall p: Path | p.goal == g
      ensures SameFile(b, c, p)
    {
      RecoveredApart(b.files, b.records[goal].files, p);
    }
  }

  /** Recovery of one record touches only that Goal's paths. */
  lemma RecoveredApart(files: map<Path, File>, r: Prepared, p: Path)
    requires p !in {r.json.final, r.json.temp, r.markdown.final, r.markdown.temp}
    ensures var after := Recovered(files, r, true);
      (p in after <==> p in files) && (p in files ==> after[p] == files[p])
  {
  }

  lemma HalfwayDone(a: Disk, b: Disk)
    requires Halfway(a, b, {})
    ensures b.records.Keys == a.records.Keys
    ensures AllPublishable(a) <==> !exists goal :: goal in a.records && !Solvable(a, goal)
    ensures forall goal :: goal in a.records ==> Settles(a, b, goal)
  {
  }

  // ----- facts about one Goal -----

  predicate HasFiles(d: Disk, goal: string) {
    goal in d.records && d.records[goal].files.json.final in d.files && d.records[goal].files.markdown.final in d.files &&
    d.records[goal].files.json.final.Final? && d.records[goal].files.markdown.final.Final?
  }

  /** Both final files of the Goal hold the artifact. */
  predicate Published(d: Disk, goal: string, a: Artifact) {
    var json := Final(goal, a.reportHash, Json);
    var markdown := Final(goal, a.reportHash, Markdown);
    json in d.files && d.files[json] == Regular(a.json) && markdown in d.files && d.files[markdown] == Regular(a.markdown)
  }

  lemma KeptFiles(a: Disk, b: Disk, goal: string)
    requires Grew(a, b) && HasFiles(a, goal)
    ensures HasFiles(b, goal) && b.records[goal].files == a.records[goal].files
    ensures a.records[goal].state == Committed ==> b.records[goal] == a.records[goal]
  {
    KeptRecord(a, b, goal);
    KeptFinal(a, b, a.records[goal].files.json.final);
    KeptFinal(a, b, a.records[goal].files.markdown.final);
  }

  lemma PreparedStays(a: Disk, b: Disk, p: Prepared)
    requires Grew(a, b) && PreparedOk(p, p.goal, a.drawn)
    ensures PreparedOk(p, p.goal, b.drawn)
  {
  }

  lemma PreparedShape(p: Prepared, goal: string, drawn: nat)
    requires PreparedOk(p, goal, drawn)
    ensures p.goal == goal
    ensures p.json.final == Final(goal, p.reportHash, Json) && p.markdown.final == Final(goal, p.reportHash, Markdown)
    ensures p.json.temp.Temp? && p.markdown.temp.Temp? && p.json.temp.kind == Json && p.markdown.temp.kind == Markdown
    ensures p.json.hash == Sha256(p.json.payload) && p.markdown.hash == Sha256(p.markdown.payload)
  {
  }

  /** Before the transaction no final file of the Goal exists. */
  lemma NoFinals(d: Disk, goal: string, report: string)
    requires Inv(d) && goal !in d.records
    ensures forall kind :: Final(goal, report, kind) !in d.files
  {
    forall kind
      ensures Final(goal, report, kind) !in d.files
    {
      assert Final(goal, report, kind) in d.files ==> PathOk(d, Final(goal, report, kind));
    }
  }

  lemma DiscardUndoes(files: map<Path, File>, p: Prepared, a: Artifact)
    requires p.json.temp !in files && p.markdown.temp !in files && p.json.temp != p.markdown.temp
    requires p.json.hash == Sha256(p.json.payload) && p.markdown.hash == Sha256(p.markdown.payload)
    requires p.json.payload == a.json && p.markdown.payload == a.markdown
    ensures var prepared := files[p.json.temp := Regular(a.json)][p.markdown.temp := Regular(a.markdown)];
      Dropped(Dropped(prepared, p.json), p.markdown) == files
  {
    var prepared := files[p.json.temp := Regular(a.json)][p.markdown.temp := Regular(a.markdown)];
    assert Dropped(prepared, p.json) == files[p.markdown.temp := Regular(a.markdown)];
  }

  lemma CommitPublishes(files: map<Path, File>, p: Prepared, a: Artifact)
    requires p.json.temp !in files && p.markdown.temp !in files && p.json.temp != p.markdown.temp
    requires p.json.final !in files && p.markdown.final !in files && p.json.final != p.markdown.final
    requires p.json.final.Final? && p.markdown.final.Final? && p.json.temp.Temp? && p.markdown.temp.Temp?
    requires p.json.payload == a.json && p.markdown.payload == a.markdown
    ensures var prepared := files[p.json.temp := Regular(a.json)][p.markdown.temp := Regular(a.markdown)];
      PublishableBoth(prepared, p, false) &&
      Recovered(prepared, p, false) == files[p.json.final := Regular(a.json)][p.markdown.final := Regular(a.markdown)]
  {
    var prepared := files[p.json.temp := Regular(a.json)][p.markdown.temp := Regular(a.markdown)];
    var one := Settled(prepared, p.json);
    assert one == files[p.json.final := Regular(a.json)][p.markdown.temp := Regular(a.markdown)];
  }

  lemma PublishedNow(d: Disk, goal: string, p: Prepared, a: Artifact)
    requires Inv(d) && goal in d.records && d.records[goal].state == Committed && d.records[goal].files == p
    requires p.json.payload == a.json && p.markdown.payload == a.markdown && p.reportHash == a.reportHash
    requires p.json.final == Final(goal, p.reportHash, Json) && p.markdown.final == Final(goal, p.reportHash, Markdown)
    ensures Published(d, goal, a)
  {
    FinalIs(d, goal, Json);
    FinalIs(d, goal, Markdown);
    CommittedHasFiles(d, goal, Json);
    CommittedHasFiles(d, goal, Markdown);
  }
}
