/** `serveWrite` of internal/api/api.go as one request runs it, while all other requests of the daemon
    run between its steps and the daemon may crash. What they do together is a run of the machine of
    module Idempotency. */
module WriteHandler {
  import opened Ordering
  import opened Idempotency

  /** What this request's resolver, store and backend will say. */
  datatype Outside = Outside(resolves: bool, storeReads: bool, begins: Fate, response: Response, completes: Fate)

  datatype Result = Sent(answer: Answer) | Died

  /** Steps of other requests, and crashes. */
  predicate NotBy(run: seq<Event>, id: nat) {
    forall i :: 0 <= i < |run| ==> run[i].Crash? || Mover(run[i]) != id
  }

  /** The steps of one request in a run. */
  function By(run: seq<Event>, id: nat): seq<Event>
    decreases |run|
  {
    if run == [] then [] else (if !run[0].Crash? && Mover(run[0]) == id then [run[0]] else []) + By(run[1..], id)
  }

  lemma {:induction false} ByJoin(a: seq<Event>, b: seq<Event>, id: nat)
    ensures By(a + b, id) == By(a, id) + By(b, id)
    decreases |a|
  {
    if a == [] {
      assert a + b == b;
    } else {
      assert (a + b)[0] == a[0] && (a + b)[1..] == a[1..] + b;
      ByJoin(a[1..], b, id);
    }
  }

  lemma {:induction false} ByNobody(run: seq<Event>, id: nat)
    requires NotBy(run, id)
    ensures By(run, id) == []
    decreases |run|
  {
    if run != [] {
      assert NotBy(run[1..], id);
      ByNobody(run[1..], id);
    }
  }

  /** The steps of a write that is not cut off. */
  function WriteSteps(id: nat, request: Request, o: Outside, created: bool): seq<Event> {
    [Arrive(id, request), Resolve(id, o.resolves)] +
    (if !o.resolves then [Lookup(id, o.storeReads)] else ResolvedSteps(id, o, created))
  }

  function ResolvedSteps(id: nat, o: Outside, created: bool): seq<Event> {
    if !created then [Begin(id, o.begins)]
    else [Begin(id, o.begins), Execute(id, o.response), Complete(id, o.completes)]
  }

  /** A request keeps its place while others run, unless the daemon crashes. */
  lemma {:induction false} OthersLeave(s: State, run: seq<Event>, id: nat)
    requires IsRun(s, run) && NotBy(run, id)
    ensures var t := After(s, run);
      (id in t.processes ==> id in s.processes && t.processes[id] == s.processes[id])
    ensures |s.replies| <= |After(s, run).replies|
    decreases |run|
  {
    if run != [] {
      var t := Step(s, run[0]);
      assert NotBy(run[1..], id);
      OthersLeave(t, run[1..], id);
    }
  }

  lemma {:induction false} RunsJoin(s: State, a: seq<Event>, b: seq<Event>)
    requires IsRun(s, a) && IsRun(After(s, a), b)
    ensures IsRun(s, a + b) && After(s, a + b) == After(After(s, a), b)
    decreases |a|
  {
    hide Enabled, Step;
    if a == [] {
      assert a + b == b;
    } else {
      assert (a + b)[0] == a[0] && (a + b)[1..] == a[1..] + b;
      RunsJoin(Step(s, a[0]), a[1..], b);
    }
  }

  lemma NothingHappened(s: State)
    ensures IsRun(s, []) && After(s, []) == s
  {
  }

  class Handler {
    var records: map<Slot, Record>
    var processes: map<nat, Process>
    var executions: seq<Execution>
    var replies: seq<Reply>
    ghost var log: seq<Event>

    constructor ()
      ensures St() == Start() && log == []
    {
      records, processes, executions, replies, log := map[], map[], [], [], [];
    }

    function St(): State
      reads this
    {
      State(records, processes, executions, replies)
    }

    /** Since `start` exactly the logged events have happened. */
    ghost predicate Ran(start: State)
      reads this
    {
      IsRun(start, log) && After(start, log) == St()
    }

    ghost method Note(start: State, before: State, e: Event)
      requires IsRun(start, log) && After(start, log) == before && Enabled(before, e) && St() == Step(before, e)
      modifies this`log
      ensures Ran(start) && log == old(log) + [e]
      ensures !e.Crash? ==> By(log, Mover(e)) == By(old(log), Mover(e)) + [e]
    {
      hide Enabled, Step;
      ByJoin(log, [e], Mover(e));
      assert [e][1..] == [];
      assert IsRun(before, [e]) && After(before, [e]) == Step(before, e);
      RunsJoin(start, log, [e]);
      log := log + [e];
    }

    /** Everybody else runs; `alive` unless the daemon has crashed meanwhile. */
    method Others(id: nat, ghost start: State) returns (alive: bool)
      requires Ran(start) && id in processes
      modifies this
      ensures Ran(start) && alive == (id in processes) && By(log, id) == By(old(log), id)
      ensures alive ==> processes[id] == old(processes)[id]
      ensures forall slot :: slot in old(records) && old(records)[slot].Completed? ==> slot in records && records[slot] == old(records)[slot]
      ensures old(records).Keys <= records.Keys
      ensures |log| >= |old(log)| && (|log| == |old(log)| ==> St() == old(St()))
    {
      hide IsRun, After, Step, Enabled, By;
      var run: seq<Event> := *;
      ghost var before := St();
      if IsRun(St(), run) && NotBy(run, id) {
        OthersLeave(before, run, id);
        RecordsGrow(before, run);
        NothingHappened(before);
        forall slot | slot in records && records[slot].Completed?
          ensures slot in After(before, run).records && After(before, run).records[slot] == records[slot]
        {
          CompletedStays(before, run, slot);
        }
        RunsJoin(start, log, run);
        ByJoin(log, run, id);
        ByNobody(run, id);
        var next := After(St(), run);
        records, processes, executions, replies := next.records, next.processes, next.executions, next.replies;
        log := log + run;
      }
      alive := id in processes;
    }

    /** Answers the request and returns. */
    method Answer(id: nat, answer: Answer)
      requires id in processes
      modifies this`processes, this`replies
      ensures St() == Answered(old(St()), id, answer)
    {
      replies := replies + [Reply(processes[id].request, answer)];
      processes := processes - {id};
    }

    method Accept(id: nat, request: Request, ghost start: State)
      requires Ran(start) && id !in processes
      modifies this
      ensures Ran(start) && id in processes && processes[id] == Process(request, Arrived)
      ensures records == old(records) && executions == old(executions) && replies == old(replies)
      ensures By(log, id) == By(old(log), id) + [Arrive(id, request)]
      ensures |log| == |old(log)| + 1
    {
      hide IsRun, After, By;
      ghost var before := St();
      processes := processes[id := Process(request, Arrived)];
      Note(start, before, Arrive(id, request));
    }

    /** `ResolveResource`. */
    method ResolveResource(id: nat, ok: bool, ghost start: State)
      requires Ran(start) && At(St(), id, Arrived)
      modifies this
      ensures Ran(start) && id in processes && records == old(records)
      ensures processes[id] == old(processes)[id].(at := if ok then Resolved else Unresolved)
      ensures By(log, id) == By(old(log), id) + [Resolve(id, ok)]
      ensures |log| == |old(log)| + 1
    {
      hide IsRun, After, By;
      ghost var before := St();
      processes := processes[id := processes[id].(at := if ok then Resolved else Unresolved)];
      Note(start, before, Resolve(id, ok));
    }

    /** The resource did not resolve: replay a completed request, otherwise report why; reserve nothing. */
    method Replay(id: nat, available: bool, ghost start: State) returns (answer: Answer)
      requires Ran(start) && At(St(), id, Unresolved)
      modifies this
      ensures Ran(start) && records == old(records) && executions == old(executions)
      ensures replies == old(replies) + [Reply(old(processes)[id].request, answer)]
      ensures var r := old(processes)[id].request;
        answer == if !available then Unavailable
                  else if r.slot !in records then NotResolved
                  else if records[r.slot].hash != r.hash then Conflict
                  else if records[r.slot].Completed? then Replied(records[r.slot].response, true)
                  else NotResolved
      ensures By(log, id) == By(old(log), id) + [Lookup(id, available)]
      ensures |log| == |old(log)| + 1
    {
      hide IsRun, After, By;
      ghost var before := St();
      var r := processes[id].request;
      if !available {
        answer := Unavailable;
      } else if r.slot in records && records[r.slot].hash != r.hash {
        answer := Conflict;
      } else if r.slot in records && records[r.slot].Completed? {
        answer := Replied(records[r.slot].response, true);
      } else {
        answer := NotResolved;
      }
      Answer(id, answer);
      Note(start, before, Lookup(id, available));
    }

    /** `BeginIdempotentRequest`: `None` if this request now owns the record. */
    method BeginRequest(id: nat, fate: Fate, ghost start: State) returns (answer: Option<Answer>)
      requires Ran(start) && At(St(), id, Resolved)
      modifies this
      ensures Ran(start) && executions == old(executions)
      ensures answer.None? <==> fate == Done && old(processes)[id].request.slot !in old(records)
      ensures answer.None? ==> id in processes && processes[id] == old(processes)[id].(at := Created) && replies == old(replies)
      ensures var r := old(processes)[id].request;
        records == if fate != Refused && r.slot !in old(records) then old(records)[r.slot := InProgress(r.hash)] else old(records)
      ensures fate != Done ==> answer == Some(Unavailable)
      ensures var r := old(processes)[id].request;
        fate == Done && r.slot in old(records) ==>
          var found := old(records)[r.slot];
          answer == Some(if found.hash != r.hash then Conflict else if found.Completed? then Replied(found.response, true) else Busy)
      ensures answer.Some? ==>
        replies == old(replies) + [Reply(old(processes)[id].request, answer.value)]
      ensures By(log, id) == By(old(log), id) + [Begin(id, fate)]
      ensures |log| == |old(log)| + 1
    {
      hide IsRun, After, By;
      ghost var before := St();
      var r := processes[id].request;
      var found := if r.slot in records then Some(records[r.slot]) else None;
      if fate != Refused && found.None? {
        records := records[r.slot := InProgress(r.hash)];
      }
      answer := None;
      if fate != Done {
        answer := Some(Unavailable);
      } else if found.None? {
        processes := processes[id := processes[id].(at := Created)];
      } else if found.value.hash != r.hash {
        answer := Some(Conflict);
      } else if found.value.Completed? {
        answer := Some(Replied(found.value.response, true));
      } else {
        answer := Some(Busy);
      }
      if answer.Some? { Answer(id, answer.value); }
      Note(start, before, Begin(id, fate));
    }

    /** The backend call: its effect happens here. */
    method ExecuteBackend(id: nat, response: Response, ghost start: State)
      requires Ran(start) && At(St(), id, Created)
      modifies this
      ensures Ran(start) && id in processes && processes[id] == old(processes)[id].(at := Executed(response))
      ensures executions == old(executions) + [Execution(old(processes)[id].request, response)]
      ensures By(log, id) == By(old(log), id) + [Execute(id, response)]
      ensures |log| == |old(log)| + 1
    {
      hide IsRun, After, By;
      ghost var before := St();
      executions := executions + [Execution(processes[id].request, response)];
      processes := processes[id := processes[id].(at := Executed(response))];
      Note(start, before, Execute(id, response));
    }

    /** `CompleteIdempotentRequest`. */
    method CompleteRequest(id: nat, fate: Fate, ghost start: State) returns (answer: Answer)
      requires Ran(start) && id in processes && processes[id].at.Executed?
      modifies this
      ensures Ran(start) && executions == old(executions)
      ensures replies == old(replies) + [Reply(old(processes)[id].request, answer)]
      ensures var p := old(processes)[id]; var r := p.request; var response := p.at.response;
        var accepted := fate != Refused && 100 <= response.status <= 599 && r.slot in old(records) &&
          (old(records)[r.slot] == InProgress(r.hash) || old(records)[r.slot] == Completed(r.hash, response));
        records == (if accepted then old(records)[r.slot := Completed(r.hash, response)] else old(records)) &&
        answer == if accepted && fate == Done then Replied(response, false) else Unavailable
      ensures By(log, id) == By(old(log), id) + [Complete(id, fate)]
      ensures |log| == |old(log)| + 1
    {
      hide IsRun, After, By;
      ghost var before := St();
      var r := processes[id].request;
      var response := processes[id].at.response;
      answer := Unavailable;
      if fate != Refused && Completable(St(), r, response) {
        records := records[r.slot := Completed(r.hash, response)];
        if fate == Done { answer := Replied(response, false); }
      }
      Answer(id, answer);
      Note(start, before, Complete(id, fate));
    }

    /** `serveWrite`. */
    method ServeWrite(id: nat, request: Request, outside: Outside, ghost start: State)
      returns (result: Result, ghost created: bool)
      requires Ran(start) && id !in processes
      modifies this
      ensures Ran(start)
      ensures result.Sent? ==> replies != [] && replies[|replies| - 1] == Reply(request, result.answer)
      ensures result.Sent? && Inv(start) ==> ReplyOk(St(), Reply(request, result.answer))
      ensures result.Sent? ==> By(log, id) == By(old(log), id) + WriteSteps(id, request, outside, created)
      // A retry of a completed request gets the recorded response, whoever else is served meanwhile.
      ensures request.slot in old(records) && old(records)[request.slot].Completed? && result.Sent? ==>
        var found := old(records)[request.slot];
        !created && result.answer ==
          if (if outside.resolves then outside.begins != Done else !outside.storeReads) then Unavailable
          else if found.hash == request.hash then Replied(found.response, true) else Conflict
      // Undisturbed, a new request whose resource resolves and whose reservation is confirmed owns the record.
      ensures result.Sent? && |log| - |old(log)| == |By(log, id)| - |By(old(log), id)| ==>
        (created <==> outside.resolves && outside.begins == Done && request.slot !in old(records))
      // A request that owned the record executed once and answers with its own response, if that is
      // recorded and confirmed.
      ensures result.Sent? && created ==> outside.resolves && outside.begins == Done && request.slot !in old(records)
      ensures result.Sent? && created && Inv(start) ==>
        result.answer == if outside.completes == Done && 100 <= outside.response.status <= 599
                         then Replied(outside.response, false) else Unavailable
    {
      hide IsRun, After, Step, Enabled, Inv, ReplyOk, By;
      created := false;
      Accept(id, request, start);
      var alive := Others(id, start);
      if !alive { return Died, created; }
      ResolveResource(id, outside.resolves, start);
      alive := Others(id, start);
      if !alive { return Died, created; }
      if !outside.resolves {
        var answer := Replay(id, outside.storeReads, start);
        result := Sent(answer);
      } else {
        result, created := WriteResolved(id, outside, start);
      }
      if result.Sent? && Inv(start) { LastReplyOk(start, log); }
    }

    /** `serveWrite` once the resource has resolved. */
    method WriteResolved(id: nat, outside: Outside, ghost start: State) returns (result: Result, ghost created: bool)
      requires Ran(start) && At(St(), id, Resolved)
      modifies this
      ensures Ran(start)
      ensures result.Sent? ==>
        replies != [] && replies[|replies| - 1] == Reply(old(processes)[id].request, result.answer)
      ensures result.Sent? ==> By(log, id) == By(old(log), id) + ResolvedSteps(id, outside, created)
      ensures var r := old(processes)[id].request;
        r.slot in old(records) && old(records)[r.slot].Completed? ==>
          var found := old(records)[r.slot];
          !created && result == Sent(
            if outside.begins != Done then Unavailable
            else if found.hash == r.hash then Replied(found.response, true) else Conflict)
      ensures result.Sent? && created ==> outside.begins == Done && old(processes)[id].request.slot !in old(records)
      ensures result.Sent? && !created ==> !(outside.begins == Done && old(processes)[id].request.slot !in old(records))
      ensures result.Sent? ==> |log| - |old(log)| >= |ResolvedSteps(id, outside, created)|
      ensures result.Sent? && created && Inv(start) ==>
        result.answer == if outside.completes == Done && 100 <= outside.response.status <= 599
                         then Replied(outside.response, false) else Unavailable
    {
      hide IsRun, After, Step, Enabled, By, Inv;
      created := false;
      var begun := BeginRequest(id, outside.begins, start);
      if begun.Some? { return Sent(begun.value), created; }
      created := true;
      var alive := Others(id, start);
      if !alive { return Died, created; }
      ExecuteBackend(id, outside.response, start);
      alive := Others(id, start);
      if !alive { return Died, created; }
      if Inv(start) { OwnRecord(start, log, id); }
      var answer := CompleteRequest(id, outside.completes, start);
      result := Sent(answer);
    }
  }

  lemma OwnRecord(start: State, run: seq<Event>, id: nat)
    requires Inv(start) && IsRun(start, run) && id in After(start, run).processes && After(start, run).processes[id].at.Executed?
    ensures var s := After(start, run); var r := s.processes[id].request;
      r.slot in s.records && s.records[r.slot] == InProgress(r.hash)
  {
    RunKeepsInv(start, run);
    assert OwnerOk(After(start, run), id);
  }

  lemma LastReplyOk(start: State, run: seq<Event>)
    requires Inv(start) && IsRun(start, run) && After(start, run).replies != []
    ensures var s := After(start, run); ReplyOk(s, s.replies[|s.replies| - 1])
  {
    RunKeepsInv(start, run);
  }
}
