/** The report files and their recovery as the source runs them: `FileManager` of
    internal/report/files.go and `Manager` of internal/finalize/finalize.go over the store
    operations of internal/store/sqlite/final_report.go. Before every file or store operation the
    other publishers may run, the operation may fail, or the process may be cut off. */
module ReportManager {
  import opened Report

  datatype Outcome = Done | Failed | Crashed

  /** What the completion check of the Goal transaction decides. */
  datatype Verdict = Complete | Incomplete | Refused

  datatype TxResult = TxCompleted | TxIncomplete | TxError | TxCrashed

  class Manager {
    var disk: Disk

    constructor (disk: Disk)
      ensures this.disk == disk
    {
      this.disk := disk;
    }

    // ----- single operations on the file system and the store -----

    /** Between two operations: others run within what this publisher relies on while it works on
        `own`, and the next operation fails or never happens. Nothing of this when `calm`. */
    method Pause(own: set<Path>, ghost mine: set<Path>, ghost since: Disk, calm: bool) returns (o: Outcome)
      requires mine <= own && Rely(since, disk, mine) && Inv(since)
      modifies this
      ensures Rely(old(disk), disk, own) && Rely(since, disk, mine)
      ensures calm ==> o == Done && disk == old(disk)
    {
      o := Done;
      RelyReflexive(disk, own);
      if !calm {
        var next: Disk := *;
        if Rely(disk, next, own) {
          ghost var before := disk;
          disk := next;
          RelyWeaken(before, disk, own, mine);
          RelyTransitive(since, before, disk, mine);
        }
        o := *;
      }
    }

    /** `OpenFile` with O_CREATE and O_EXCL under a newly drawn random name. */
    method Create(goal: string, report: string, kind: Kind) returns (temp: Path)
      requires Inv(disk)
      modifies this
      ensures temp == Temp(goal, report, kind, old(disk).drawn) && temp !in old(disk).files
      ensures disk == old(disk).(files := old(disk).files[temp := Regular([])], drawn := old(disk).drawn + 1)
      ensures Guarantee(old(disk), disk, {temp}) && Inv(disk)
      ensures !Recorded(disk, temp) && !Recorded(old(disk), temp)
    {
      temp := Temp(goal, report, kind, disk.drawn);
      ghost var before := disk;
      assert temp in disk.files ==> PathOk(disk, temp);
      assert temp.goal in disk.records ==> RecordOk(disk, temp.goal);
      disk := disk.(files := disk.files[temp := Regular([])], drawn := disk.drawn + 1);
      CreateGuarantees(before, disk, temp);
    }

    method Write(temp: Path, content: Bytes)
      requires Inv(disk) && temp.Temp? && temp in disk.files && !Recorded(disk, temp)
      modifies this
      ensures disk == old(disk).(files := old(disk).files[temp := Regular(content)])
      ensures Guarantee(old(disk), disk, {temp}) && Inv(disk) && !Recorded(disk, temp)
    {
      ghost var before := disk;
      disk := disk.(files := disk.files[temp := Regular(content)]);
      WriteGuarantees(before, disk, temp, content);
    }

    method Remove(temp: Path)
      requires Inv(disk) && temp.Temp?
      modifies this
      ensures disk == old(disk).(files := old(disk).files - {temp})
      ensures Guarantee(old(disk), disk, {temp}) && Inv(disk)
    {
      ghost var before := disk;
      disk := disk.(files := disk.files - {temp});
      RemoveGuarantees(before, disk, temp);
    }

    method Rename(temp: Path, goal: string, kind: Kind)
      requires Inv(disk) && goal in disk.records && temp.Temp? && temp in disk.files
      requires disk.files[temp] == Regular(ItemOf(disk.records[goal].files, kind).payload)
      modifies this
      ensures var it := ItemOf(old(disk).records[goal].files, kind);
        disk == old(disk).(files := (old(disk).files - {temp})[it.final := Regular(it.payload)])
      ensures Guarantee(old(disk), disk, {temp}) && Inv(disk)
    {
      ghost var before := disk;
      var it := ItemOf(disk.records[goal].files, kind);
      disk := disk.(files := (disk.files - {temp})[it.final := disk.files[temp]]);
      RenameGuarantees(before, disk, temp, goal, kind);
    }

    /** Somebody else writes to the report directory while nothing is being published. */
    method Tamper(temp: Path, file: File)
      requires Inv(disk) && temp.Temp? && temp.nonce < disk.drawn
      modifies this
      ensures disk == old(disk).(files := old(disk).files[temp := file])
      ensures Inv(disk) && Grew(old(disk), disk)
    {
      ghost var before := disk;
      disk := disk.(files := disk.files[temp := file]);
      forall p | p in disk.files ensures PathOk(disk, p) { assert p in before.files ==> PathOk(before, p); }
      forall goal | goal in disk.records ensures RecordOk(disk, goal) { assert RecordOk(before, goal); }
      hide PathOk, RecordOk, IntactAt;
      forall goal | goal in before.records ensures RecordKept(before, disk, goal) {}
    }

    /** The Goal transaction inserting the record: the Goal completes at most once. */
    method Insert(prepared: Prepared)
      requires Inv(disk) && prepared.goal !in disk.records && PreparedOk(prepared, prepared.goal, disk.drawn)
      requires IntactItem(disk, prepared.json) && IntactItem(disk, prepared.markdown)
      modifies this
      ensures disk == old(disk).(records := old(disk).records[prepared.goal := Record(prepared, PendingRename, 1)])
      ensures Guarantee(old(disk), disk, {prepared.json.temp, prepared.markdown.temp}) && Inv(disk)
    {
      ghost var before := disk;
      disk := disk.(records := disk.records[prepared.goal := Record(prepared, PendingRename, 1)]);
      InsertGuarantees(before, disk, prepared);
    }

    /** `MarkFinalReportCommitted`: compare-and-swap on the record's version. */
    method Mark(goal: string, version: nat) returns (ok: bool)
      requires Inv(disk)
      requires goal in disk.records ==>
        disk.records[goal].files.json.final in disk.files && disk.records[goal].files.markdown.final in disk.files
      modifies this
      ensures ok <==> (goal in old(disk).records &&
        (old(disk).records[goal].state == Committed || old(disk).records[goal].version == version))
      ensures disk == if ok && old(disk).records[goal].state != Committed
        then old(disk).(records := old(disk).records[goal := Record(old(disk).records[goal].files, Committed, version + 1)])
        else old(disk)
      ensures Guarantee(old(disk), disk, {}) && Inv(disk)
    {
      ghost var before := disk;
      ok := false;
      if goal in disk.records {
        var current := disk.records[goal];
        if current.state == Committed {
          ok := true;
        } else if current.version == version {
          disk := disk.(records := disk.records[goal := current.(state := Committed, version := version + 1)]);
          ok := true;
        }
      }
      MarkGuarantees(before, disk, goal);
    }

    // ----- FileManager -----

    /** A complete private file under a fresh name; on an error it is removed again. */
    method WriteTemp(goal: string, report: string, kind: Kind, payload: Bytes, own: set<Path>, calm: bool)
      returns (o: Outcome, temp: Path)
      requires Inv(disk) && Unrecorded(disk, own) && own <= disk.files.Keys
      modifies this
      ensures Inv(disk) && Rely(old(disk), disk, own)
      ensures o == Done ==>
        temp !in own && temp.Temp? && temp == Temp(goal, report, kind, temp.nonce) && temp.nonce < disk.drawn &&
        !Recorded(disk, temp) && temp in disk.files && disk.files[temp] == Regular(payload)
      ensures calm ==>
        o == Done && temp !in old(disk).files &&
        disk == old(disk).(files := old(disk).files[temp := Regular(payload)], drawn := old(disk).drawn + 1)
    {
      hide Inv, Grew, Recorded;
      ghost var since := disk;
      RelyReflexive(disk, own);
      temp := Temp(goal, report, kind, 0);
      o := Pause(own, own, since, calm);
      if o == Done {
        ghost var before := disk;
        temp := Create(goal, report, kind);
        assert temp !in own;
        StepChain(since, before, disk, own, {temp});
        o := FillTemp(temp, payload, own, since, calm);
        if o == Done { NonceDrawn(disk, temp); }
      }
    }

    method FillTemp(temp: Path, payload: Bytes, own: set<Path>, ghost since: Disk, calm: bool) returns (o: Outcome)
      requires Inv(disk) && Inv(since) && Unrecorded(since, own) && Rely(since, disk, own)
      requires temp !in own && temp.Temp? && temp.nonce < disk.drawn && !Recorded(disk, temp) && temp in disk.files
      modifies this
      ensures Inv(disk) && Rely(since, disk, own)
      ensures o == Done ==>
        !Recorded(disk, temp) && temp in disk.files && disk.files[temp] == Regular(payload)
      ensures calm ==>
        o == Done && disk == old(disk).(files := old(disk).files[temp := Regular(payload)])
    {
      hide Inv, Grew, Recorded;
      o := Pause(own + {temp}, own, since, calm);
      if o == Done {
        var some: int := *;
        ghost var before := disk;
        Write(temp, if 0 <= some <= |payload| then payload[..some] else payload);
        StepChain(since, before, disk, own, {temp});
        o := Pause(own + {temp}, own, since, calm);
        if o == Done {
          before := disk;
          Write(temp, payload);
          StepChain(since, before, disk, own, {temp});
          o := Pause(own + {temp}, own, since, calm);
        }
      }
      if o == Failed {
        var removed := Pause(own + {temp}, own, since, calm);
        if removed == Done {
          ghost var before := disk;
          Remove(temp);
          StepChain(since, before, disk, own, {temp});
        }
        o := if removed == Crashed then Crashed else Failed;
      }
    }

    /** `publish`: afterwards the final name holds the payload, or the call has failed. */
    method Publish(goal: string, kind: Kind, rebuild: bool, calm: bool) returns (o: Outcome)
      requires Inv(disk) && goal in disk.records
      modifies this
      ensures Inv(disk) && Rely(old(disk), disk, {})
      ensures o == Done ==> ItemOf(old(disk).records[goal].files, kind).final in disk.files
      ensures var it := ItemOf(old(disk).records[goal].files, kind);
        calm ==>
          o != Crashed && disk.records == old(disk).records && (o == Done <==> Publishable(old(disk).files, it, rebuild)) &&
          disk.files == if o == Done then Settled(old(disk).files, it) else old(disk).files
    {
      hide Inv, Grew, Recorded;
      ghost var since := disk;
      RelyReflexive(disk, {});
      var it := ItemOf(disk.records[goal].files, kind);
      FinalIs(disk, goal, kind);
      ItemShape(disk, goal, kind);
      o := Pause({}, {}, since, calm);
      if o != Done { return; }
      KeptRecord(since, disk, goal);
      if it.final in disk.files {
        o := CleanUp(goal, kind, since, calm);
      } else {
        ghost var looked := disk;
        o := Pause({}, {}, since, calm);
        if o != Done { return; }
        KeptRecord(since, disk, goal);
        ItemShape(disk, goal, kind);
        var temp := it.temp;
        if temp in disk.files {
          o := PublishTemp(goal, kind, temp, {}, since, calm);
        } else if !rebuild {
          o := Failed;
        } else {
          ghost var before := disk;
          o, temp := WriteTemp(goal, it.final.report, kind, it.payload, {}, calm);
          RelyTransitive(since, before, disk, {});
          if o != Done { return; }
          KeptRecord(since, disk, goal);
          o := PublishTemp(goal, kind, temp, {temp}, since, calm);
        }
      }
    }

    /** The final name exists: it is verified and a left-over temporary file is removed. */
    method CleanUp(goal: string, kind: Kind, ghost since: Disk, calm: bool) returns (o: Outcome)
      requires Inv(disk) && Inv(since) && goal in disk.records && Rely(since, disk, {})
      requires ItemOf(disk.records[goal].files, kind).final in disk.files
      modifies this
      ensures Inv(disk) && Rely(since, disk, {})
      ensures ItemOf(old(disk).records[goal].files, kind).final in disk.files
      ensures calm ==>
        o == Done && disk.records == old(disk).records &&
        disk.files == Settled(old(disk).files, ItemOf(old(disk).records[goal].files, kind))
    {
      hide Inv, Grew, Recorded;
      var it := ItemOf(disk.records[goal].files, kind);
      ghost var entry := disk;
      RelyReflexive(disk, {});
      ItemShape(disk, goal, kind);
      FinalIs(disk, goal, kind);
      o := Pause({}, {}, since, calm);
      KeptFinal(entry, disk, it.final);
      if o != Done { return; }
      if disk.files[it.final] != Regular(it.payload) {
        assert false;
        return Failed;
      }
      ghost var verified := disk;
      var removed := Pause({}, {}, since, calm);
      KeptFinal(verified, disk, it.final);
      if removed == Done && it.temp in disk.files && disk.files[it.temp].Regular? {
        ghost var before := disk;
        Remove(it.temp);
        StepChain(since, before, disk, {}, {it.temp});
      }
      o := if removed == Crashed then Crashed else Done;
    }

    /** The final name is missing and `temp` is to become it, if its content is the payload. */
    method PublishTemp(goal: string, kind: Kind, temp: Path, own: set<Path>, ghost since: Disk, calm: bool)
      returns (o: Outcome)
      requires Inv(disk) && Inv(since) && goal in disk.records && Rely(since, disk, {}) && temp.Temp? && temp in disk.files
      requires own == {temp} || (own == {} && Recorded(disk, temp))
      modifies this
      ensures Inv(disk) && Rely(since, disk, {})
      ensures o == Done ==> ItemOf(old(disk).records[goal].files, kind).final in disk.files
      ensures var it := ItemOf(old(disk).records[goal].files, kind);
        calm ==>
          o != Crashed && disk.records == old(disk).records &&
          (o == Done <==> old(disk).files[temp] == Regular(it.payload)) &&
          disk.files == if o == Done then (old(disk).files - {temp})[it.final := Regular(it.payload)] else old(disk).files
    {
      hide Inv, Grew, Recorded;
      var it := ItemOf(disk.records[goal].files, kind);
      ghost var entry := disk;
      ItemShape(disk, goal, kind);
      o := Pause(own, {}, since, calm);
      if o != Done { return; }
      KeptRecord(entry, disk, goal);
      if temp !in disk.files || disk.files[temp] == Irregular || Sha256(disk.files[temp].content) != it.hash {
        return Failed;
      }
      ghost var verified := disk;
      if own == {} { RecordedStays(entry, disk, temp); }
      o := Pause(own, {}, since, calm);
      if o != Done { return; }
      KeptRecord(verified, disk, goal);
      if temp !in disk.files {
        return Failed;
      }
      ghost var before := disk;
      Rename(temp, goal, kind);
      StepChain(since, before, disk, {}, {temp});
      ghost var renamed := disk;
      o := Pause({}, {}, since, calm);
      KeptFinal(renamed, disk, it.final);
    }

    /** `Prepare`: both files written privately, or neither kept. */
    method Prepare(goal: string, artifact: Artifact, calm: bool) returns (o: Outcome, prepared: Prepared)
      requires Inv(disk)
      modifies this
      ensures Inv(disk) && Rely(old(disk), disk, {})
      ensures o == Done ==>
        PreparedOk(prepared, goal, disk.drawn) && prepared.reportHash == artifact.reportHash &&
        Holds(disk, prepared.json, artifact.json) && Holds(disk, prepared.markdown, artifact.markdown)
      ensures calm ==> (o == Done <==> ValidArtifact(goal, artifact)) && disk.records == old(disk).records
      ensures calm && o == Done ==>
        prepared.json.temp !in old(disk).files && prepared.markdown.temp !in old(disk).files &&
        disk.files == old(disk).files[prepared.json.temp := Regular(artifact.json)]
                                     [prepared.markdown.temp := Regular(artifact.markdown)]
      ensures calm && o != Done ==> o == Failed && disk == old(disk)
    {
      hide Inv, Grew, Recorded, SafeName, ValidHash;
      ghost var since := disk;
      RelyReflexive(disk, {});
      prepared := Prepared(goal, artifact.reportHash, NoItem(), NoItem());
      if !ValidArtifact(goal, artifact) {
        o := Failed;
        return;
      }
      o := Pause({}, {}, since, calm);
      if o != Done { return; }
      ghost var before := disk;
      var jsonTemp;
      o, jsonTemp := WriteTemp(goal, artifact.reportHash, Json, artifact.json, {}, calm);
      RelyTransitive(since, before, disk, {});
      if o != Done { return; }
      var markdownTemp;
      before := disk;
      o, markdownTemp := WriteTemp(goal, artifact.reportHash, Markdown, artifact.markdown, {jsonTemp}, calm);
      RelyWeaken(before, disk, {jsonTemp}, {});
      RelyTransitive(since, before, disk, {});
      if o == Failed {
        var removed := Pause({jsonTemp}, {}, since, calm);
        if removed == Done {
          before := disk;
          Remove(jsonTemp);
          StepChain(since, before, disk, {}, {jsonTemp});
        }
        o := if removed == Crashed then Crashed else Failed;
      }
      if o != Done { return; }
      o := Pause({jsonTemp, markdownTemp}, {}, since, calm);
      prepared := Prepared(goal, artifact.reportHash,
        Item(Final(goal, artifact.reportHash, Json), jsonTemp, artifact.jsonHash, artifact.json),
        Item(Final(goal, artifact.reportHash, Markdown), markdownTemp, artifact.markdownHash, artifact.markdown));
      NonceDrawn(disk, jsonTemp);
      NonceDrawn(disk, markdownTemp);
    }

    /** `Commit` and `Recover` differ in whether a missing temporary file is rebuilt. */
    method PublishBoth(goal: string, rebuild: bool, calm: bool) returns (o: Outcome)
      requires Inv(disk) && goal in disk.records
      modifies this
      ensures Inv(disk) && Rely(old(disk), disk, {})
      ensures var p := old(disk).records[goal].files;
        o == Done ==> p.json.final in disk.files && p.markdown.final in disk.files
      ensures var p := old(disk).records[goal].files;
        calm ==>
          o != Crashed && disk.records == old(disk).records && (o == Done <==> PublishableBoth(old(disk).files, p, rebuild)) &&
          disk.files == Recovered(old(disk).files, p, rebuild)
    {
      hide Inv, Grew, Recorded, Publishable, Settled;
      ghost var since := disk;
      var p := disk.records[goal].files;
      ItemShape(disk, goal, Json);
      ItemShape(disk, goal, Markdown);
      SettledApart(disk.files, p.json, p.markdown, rebuild);
      o := Publish(goal, Json, rebuild, calm);
      if o != Done { return; }
      ghost var one := disk;
      KeptRecord(since, disk, goal);
      o := Publish(goal, Markdown, rebuild, calm);
      RelyTransitive(since, one, disk, {});
      KeptFinal(one, disk, p.json.final);
    }

    method Commit(goal: string, calm: bool) returns (o: Outcome)
      requires Inv(disk) && goal in disk.records
      modifies this
      ensures Inv(disk) && Rely(old(disk), disk, {})
      ensures var p := old(disk).records[goal].files;
        o == Done ==> p.json.final in disk.files && p.markdown.final in disk.files
      ensures var p := old(disk).records[goal].files;
        calm ==>
          o != Crashed && disk.records == old(disk).records && (o == Done <==> PublishableBoth(old(disk).files, p, false)) &&
          disk.files == Recovered(old(disk).files, p, false)
    {
      o := PublishBoth(goal, false, calm);
      if o == Done {
        o := Reread(goal, old(disk), calm);
      }
    }

    method Recover(goal: string, calm: bool) returns (o: Outcome)
      requires Inv(disk) && goal in disk.records
      modifies this
      ensures Inv(disk) && Rely(old(disk), disk, {})
      ensures var p := old(disk).records[goal].files;
        o == Done ==> p.json.final in disk.files && p.markdown.final in disk.files
      ensures var p := old(disk).records[goal].files;
        calm ==>
          o != Crashed && disk.records == old(disk).records && (o == Done <==> PublishableBoth(old(disk).files, p, true)) &&
          disk.files == Recovered(old(disk).files, p, true)
    {
      o := PublishBoth(goal, true, calm);
      if o == Done {
        o := Reread(goal, old(disk), calm);
      }
    }

    /** The concluding `Read` of `Commit` and `Recover`. */
    method Reread(goal: string, ghost since: Disk, calm: bool) returns (o: Outcome)
      requires Inv(disk) && Inv(since) && goal in since.records && Rely(since, disk, {})
      requires since.records[goal].files.json.final in disk.files
      requires since.records[goal].files.markdown.final in disk.files
      requires since.records[goal].files.json.final.Final? && since.records[goal].files.markdown.final.Final?
      modifies this
      ensures Inv(disk) && Rely(since, disk, {})
      ensures since.records[goal].files.json.final in disk.files
      ensures since.records[goal].files.markdown.final in disk.files
      ensures calm ==> o == Done && disk == old(disk)
    {
      hide Inv, Grew, Recorded;
      ghost var p := since.records[goal].files;
      ghost var before := disk;
      RelyReflexive(disk, {});
      KeptRecord(since, disk, goal);
      var json, markdown;
      o, json, markdown := Read(goal, calm);
      RelyTransitive(since, before, disk, {});
      KeptFinal(before, disk, p.json.final);
      KeptFinal(before, disk, p.markdown.final);
    }

    /** `Read`: both files verified against the record's hashes. */
    method Read(goal: string, calm: bool) returns (o: Outcome, json: Bytes, markdown: Bytes)
      requires Inv(disk) && goal in disk.records
      modifies this
      ensures Inv(disk) && Rely(old(disk), disk, {})
      ensures o == Done ==>
        json == old(disk).records[goal].files.json.payload && markdown == old(disk).records[goal].files.markdown.payload
      ensures var p := old(disk).records[goal].files;
        calm ==>
          disk == old(disk) && o != Crashed &&
          (o == Done <==> p.json.final in disk.files && p.markdown.final in disk.files)
    {
      hide Inv, Grew, Recorded;
      ghost var since := disk;
      RelyReflexive(disk, {});
      json, markdown := [], [];
      var p := disk.records[goal].files;
      ItemShape(disk, goal, Json);
      ItemShape(disk, goal, Markdown);
      FinalIs(disk, goal, Json);
      FinalIs(disk, goal, Markdown);
      o := Pause({}, {}, since, calm);
      if o != Done { return; }
      if !Verified(disk.files, p.json) {
        return Failed, json, markdown;
      }
      json := disk.files[p.json.final].content;
      o := Pause({}, {}, since, calm);
      if o != Done { return; }
      if !Verified(disk.files, p.markdown) {
        return Failed, json, markdown;
      }
      markdown := disk.files[p.markdown.final].content;
    }

    /** `Discard`: removes the temporary files whose content is still what was prepared. */
    method Discard(prepared: Prepared, calm: bool) returns (o: Outcome)
      requires Inv(disk) && prepared.json.temp.Temp? && prepared.markdown.temp.Temp?
      requires prepared.json.temp != prepared.markdown.temp
      modifies this
      ensures Inv(disk) && Rely(old(disk), disk, {})
      ensures calm ==>
        o != Crashed && disk.records == old(disk).records &&
        disk.files == Dropped(Dropped(old(disk).files, prepared.json), prepared.markdown)
    {
      ghost var since := disk;
      o := DiscardOne(prepared.json, calm);
      if o == Crashed { return; }
      ghost var one := disk;
      var second := DiscardOne(prepared.markdown, calm);
      RelyTransitive(since, one, disk, {});
      o := if second == Done then o else second;
    }

    method DiscardOne(it: Item, calm: bool) returns (o: Outcome)
      requires Inv(disk) && it.temp.Temp?
      modifies this
      ensures Inv(disk) && Rely(old(disk), disk, {})
      ensures calm ==> o != Crashed && disk.records == old(disk).records && disk.files == Dropped(old(disk).files, it)
      // Only a file that still holds what was prepared is removed.
      ensures calm && it.temp in old(disk).files && old(disk).files[it.temp].Regular? && Sha256(old(disk).files[it.temp].content) == it.hash ==>
        o == Done && disk.files == old(disk).files - {it.temp}
      ensures (calm && it.temp in old(disk).files &&
        (old(disk).files[it.temp] == Irregular || Sha256(old(disk).files[it.temp].content) != it.hash)) ==> disk == old(disk) && o == Failed
    {
      hide Inv, Grew, Recorded;
      ghost var since := disk;
      RelyReflexive(disk, {});
      o := Pause({}, {}, since, calm);
      if o != Done { return; }
      if it.temp !in disk.files { return; }
      if disk.files[it.temp] == Irregular || Sha256(disk.files[it.temp].content) != it.hash {
        return Failed;
      }
      o := Pause({}, {}, since, calm);
      if o != Done || it.temp !in disk.files { return; }
      ghost var before := disk;
      Remove(it.temp);
      StepChain(since, before, disk, {}, {it.temp});
    }
  }

  function NoItem(): Item {
    var p := Final("", "", Json);
    Item(p, p, Sha256([]), [])
  }

  /** The prepared item carries the artifact's bytes and its temporary file holds them. */
  predicate Holds(d: Disk, it: Item, payload: Bytes) {
    it.payload == payload && !Recorded(d, it.temp) && it.temp in d.files && d.files[it.temp] == Regular(payload)
  }

  predicate Verified(files: map<Path, File>, it: Item) {
    it.final in files && files[it.final].Regular? && Sha256(files[it.final].content) == it.hash
  }

  function Dropped(files: map<Path, File>, it: Item): map<Path, File> {
    if it.temp in files && files[it.temp].Regular? && Sha256(files[it.temp].content) == it.hash then files - {it.temp}
    else files
  }

  predicate Unrecorded(d: Disk, own: set<Path>) {
    forall p :: p in own ==> p.Temp? && !Recorded(d, p)
  }

  lemma StepChain(since: Disk, a: Disk, b: Disk, mine: set<Path>, touched: set<Path>)
    requires Rely(since, a, mine) && Guarantee(a, b, touched) && mine !! touched && Unrecorded(since, mine) && Inv(since)
    ensures Rely(since, b, mine)
  {
    hide Inv, Grew, Recorded;
    GuaranteeIsRely(a, b, touched, mine);
    RelyTransitive(since, a, b, mine);
  }

  lemma NonceDrawn(d: Disk, temp: Path)
    requires Inv(d) && temp.Temp? && temp in d.files
    ensures temp.nonce < d.drawn
  {
    assert PathOk(d, temp);
  }

  lemma RecordedStays(a: Disk, b: Disk, p: Path)
    requires Grew(a, b) && Recorded(a, p)
    ensures Recorded(b, p)
  {
    KeptRecord(a, b, p.goal);
  }

  // ----- each operation keeps the invariant and disturbs nobody -----

  lemma RelyWeaken(a: Disk, b: Disk, own: set<Path>, mine: set<Path>)
    requires Rely(a, b, own) && mine <= own
    ensures Rely(a, b, mine)
  {
    hide Inv, Grew;
  }

  lemma CreateGuarantees(a: Disk, b: Disk, temp: Path)
    requires Inv(a) && temp.Temp? && temp.nonce == a.drawn
    requires b == a.(files := a.files[temp := Regular([])], drawn := a.drawn + 1)
    ensures Inv(b) && Guarantee(a, b, {temp})
  {
    CreateKeepsInv(a, b, temp);
    forall p | p in b.files && Recorded(a, p) ensures SameFile(a, b, p) { assert RecordOk(a, p.goal); }
    hide Inv, PathOk, RecordOk, IntactAt;
    forall goal | goal in a.records ensures RecordKept(a, b, goal) {}
  }

  lemma CreateKeepsInv(a: Disk, b: Disk, temp: Path)
    requires Inv(a) && temp.Temp? && temp.nonce == a.drawn
    requires b == a.(files := a.files[temp := Regular([])], drawn := a.drawn + 1)
    ensures Inv(b)
  {
    forall p | p in b.files ensures PathOk(b, p) { assert p in a.files ==> PathOk(a, p); }
    hide PathOk;
    forall goal | goal in b.records ensures RecordOk(b, goal) { assert RecordOk(a, goal); }
  }

  lemma WriteGuarantees(a: Disk, b: Disk, temp: Path, content: Bytes)
    requires Inv(a) && temp.Temp? && temp in a.files && !Recorded(a, temp)
    requires b == a.(files := a.files[temp := Regular(content)])
    ensures Inv(b) && Guarantee(a, b, {temp})
  {
    assert Inv(b) by {
      forall p | p in b.files ensures PathOk(b, p) { assert PathOk(a, p); }
      forall goal | goal in b.records ensures RecordOk(b, goal) { assert RecordOk(a, goal); }
    }
    hide PathOk, RecordOk, IntactAt;
    forall goal | goal in a.records ensures RecordKept(a, b, goal) {}
  }

  lemma RemoveGuarantees(a: Disk, b: Disk, temp: Path)
    requires Inv(a) && temp.Temp?
    requires b == a.(files := a.files - {temp})
    ensures Inv(b) && Guarantee(a, b, {temp})
  {
    assert Inv(b) by {
      forall p | p in b.files ensures PathOk(b, p) { assert PathOk(a, p); }
      forall goal | goal in b.records ensures RecordOk(b, goal) { assert RecordOk(a, goal); }
    }
    hide PathOk, RecordOk, IntactAt;
    forall goal | goal in a.records ensures RecordKept(a, b, goal) {}
  }

  lemma RenameGuarantees(a: Disk, b: Disk, temp: Path, goal: string, kind: Kind)
    requires Inv(a) && goal in a.records && temp.Temp? && temp in a.files
    requires a.files[temp] == Regular(ItemOf(a.records[goal].files, kind).payload)
    requires b == a.(files := (a.files - {temp})[ItemOf(a.records[goal].files, kind).final := a.files[temp]])
    ensures Inv(b) && Guarantee(a, b, {temp})
  {
    var final := ItemOf(a.records[goal].files, kind).final;
    ItemShape(a, goal, kind);
    FinalIs(a, goal, kind);
    RenameKeepsInv(a, b, temp, goal, kind);
    hide Inv, IntactAt, ItemOk;
    assert Grew(a, b) by {
      forall g | g in a.records ensures RecordKept(a, b, g) {}
    }
    hide Grew, RecordKept;
  }

  lemma RenameKeepsInv(a: Disk, b: Disk, temp: Path, goal: string, kind: Kind)
    requires Inv(a) && goal in a.records && temp.Temp? && temp in a.files
    requires a.files[temp] == Regular(ItemOf(a.records[goal].files, kind).payload)
    requires b == a.(files := (a.files - {temp})[ItemOf(a.records[goal].files, kind).final := a.files[temp]])
    ensures Inv(b)
  {
    assert RecordOk(a, goal);
    forall p | p in b.files ensures PathOk(b, p) { assert p in a.files ==> PathOk(a, p); }
    hide PathOk;
    forall g | g in b.records ensures RecordOk(b, g) { assert RecordOk(a, g); }
  }

  lemma InsertGuarantees(a: Disk, b: Disk, prepared: Prepared)
    requires Inv(a) && prepared.goal !in a.records && PreparedOk(prepared, prepared.goal, a.drawn)
    requires IntactItem(a, prepared.json) && IntactItem(a, prepared.markdown)
    requires b == a.(records := a.records[prepared.goal := Record(prepared, PendingRename, 1)])
    ensures Inv(b) && Guarantee(a, b, {prepared.json.temp, prepared.markdown.temp})
  {
    hide PreparedOk;
    assert Inv(b) by {
      forall p | p in b.files ensures PathOk(b, p) { assert PathOk(a, p); }
      forall g | g in b.records ensures RecordOk(b, g) { assert g in a.records ==> RecordOk(a, g); }
    }
    hide PathOk, RecordOk;
    forall g | g in a.records ensures RecordKept(a, b, g) {}
  }

  lemma MarkGuarantees(a: Disk, b: Disk, goal: string)
    requires Inv(a)
    requires b == a || (goal in a.records && a.records[goal].state != Committed &&
      a.records[goal].files.json.final in a.files && a.records[goal].files.markdown.final in a.files &&
      b == a.(records := a.records[goal := Record(a.records[goal].files, Committed, a.records[goal].version + 1)]))
    ensures Inv(b) && Guarantee(a, b, {})
  {
    hide PreparedOk;
    assert Inv(b) by {
      forall p | p in b.files ensures PathOk(b, p) { assert PathOk(a, p); }
      forall g | g in b.records ensures RecordOk(b, g) { assert RecordOk(a, g); }
    }
    hide PathOk, RecordOk, IntactAt;
    forall g | g in a.records ensures RecordKept(a, b, g) {}
  }
}
