/** At-most-once writes: `serveWrite` of internal/api/api.go over the record store of
    internal/store/sqlite/idempotency.go. Every store transaction, resource resolution and backend
    call of a request is one step; requests interleave, and the daemon may crash between any two
    steps, which ends all requests and keeps the records. */
module Idempotency {

  /** Method, path and Idempotency-Key of a request. */
  datatype Slot = Slot(scope: string, key: string)

  datatype Request = Request(slot: Slot, hash: string)

  datatype Response = Response(status: int, body: string)

  datatype Record = InProgress(hash: string) | Completed(hash: string, response: Response)

  datatype Progress =
    | Arrived
    | Unresolved                    // the resource prefix did not resolve
    | Resolved
    | Created                       // owns the record it has just inserted
    | Executed(response: Response)  // the backend has answered

  datatype Process = Process(request: Request, at: Progress)

  datatype Answer = Replied(response: Response, replay: bool) | Busy | Conflict | NotResolved | Unavailable

  datatype Reply = Reply(request: Request, answer: Answer)

  datatype Execution = Execution(request: Request, response: Response)

  datatype State = State(
    records: map<Slot, Record>,
    processes: map<nat, Process>,
    executions: seq<Execution>,
    replies: seq<Reply>
  )

  /** A store transaction commits and reports it, commits and reports an error, or does nothing. */
  datatype Fate = Done | ReplyLost | Refused

  datatype Event =
    | Arrive(id: nat, request: Request)
    | Resolve(id: nat, ok: bool)
    | Lookup(id: nat, available: bool)
    | Begin(id: nat, fate: Fate)
    | Execute(id: nat, response: Response)
    | Complete(id: nat, fate: Fate)
    | Crash

  function Start(): State {
    State(map[], map[], [], [])
  }

  predicate At(s: State, id: nat, at: Progress) {
    id in s.processes && s.processes[id].at == at
  }

  predicate Enabled(s: State, e: Event) {
    match e
    case Arrive(id, _) => id !in s.processes
    case Resolve(id, _) => At(s, id, Arrived)
    case Lookup(id, _) => At(s, id, Unresolved)
    case Begin(id, _) => At(s, id, Resolved)
    case Execute(id, _) => At(s, id, Created)
    case Complete(id, _) => id in s.processes && s.processes[id].at.Executed?
    case Crash => true
  }

  function Move(s: State, id: nat, at: Progress): State
    requires id in s.processes
  {
    s.(processes := s.processes[id := s.processes[id].(at := at)])
  }

  /** The request is answered and its handler returns. */
  function Answered(s: State, id: nat, answer: Answer): State
    requires id in s.processes
  {
    s.(processes := s.processes - {id}, replies := s.replies + [Reply(s.processes[id].request, answer)])
  }

  /** `LookupIdempotentRequest`, only used when the resource did not resolve: a completed request is
      still replayed, anything else gets the resolution error; nothing is reserved. */
  function LookedUp(s: State, r: Request): Answer {
    if r.slot !in s.records then NotResolved
    else if s.records[r.slot].hash != r.hash then Conflict
    else if s.records[r.slot].Completed? then Replied(s.records[r.slot].response, true)
    else NotResolved
  }

  /** The insert of `BeginIdempotentRequest`, if there is no record yet. */
  function Reserved(s: State, r: Request): State {
    if r.slot !in s.records then s.(records := s.records[r.slot := InProgress(r.hash)]) else s
  }

  /** `BeginIdempotentRequest`: whoever inserts the record owns it, provided the reply arrives. */
  function Begun(s: State, id: nat, fate: Fate): State
    requires id in s.processes
  {
    var r := s.processes[id].request;
    match fate
    case Refused => Answered(s, id, Unavailable)
    case ReplyLost => Answered(Reserved(s, r), id, Unavailable)
    case Done =>
      if r.slot !in s.records then Move(Reserved(s, r), id, Created)
      else if s.records[r.slot].hash != r.hash then Answered(s, id, Conflict)
      else if s.records[r.slot].Completed? then Answered(s, id, Replied(s.records[r.slot].response, true))
      else Answered(s, id, Busy)
  }

  /** Whether `CompleteIdempotentRequest` accepts the response for the request's record. */
  predicate Completable(s: State, r: Request, response: Response) {
    100 <= response.status <= 599 && r.slot in s.records && s.records[r.slot].hash == r.hash &&
    (s.records[r.slot].Completed? ==> s.records[r.slot].response == response)
  }

  /** `CompleteIdempotentRequest` with the handler's own request hash. */
  function Finished(s: State, id: nat, response: Response, fate: Fate): State
    requires id in s.processes
  {
    var r := s.processes[id].request;
    if fate == Refused || !Completable(s, r, response) then Answered(s, id, Unavailable)
    else
      var t := s.(records := s.records[r.slot := Completed(r.hash, response)]);
      Answered(t, id, if fate == Done then Replied(response, false) else Unavailable)
  }

  function Step(s: State, e: Event): State
    requires Enabled(s, e)
  {
    match e
    case Arrive(id, request) => s.(processes := s.processes[id := Process(request, Arrived)])
    case Resolve(id, ok) => Move(s, id, if ok then Resolved else Unresolved)
    case Lookup(id, available) =>
      Answered(s, id, if available then LookedUp(s, s.processes[id].request) else Unavailable)
    case Begin(id, fate) => Begun(s, id, fate)
    case Execute(id, response) =>
      Move(s.(executions := s.executions + [Execution(s.processes[id].request, response)]), id, Executed(response))
    case Complete(id, fate) => Finished(s, id, s.processes[id].at.response, fate)
    case Crash => s.(processes := map[])
  }

  predicate IsRun(s: State, run: seq<Event>)
    decreases |run|
  {
    run == [] || (Enabled(s, run[0]) && IsRun(Step(s, run[0]), run[1..]))
  }

  function After(s: State, run: seq<Event>): State
    requires IsRun(s, run)
    decreases |run|
  {
    if run == [] then s else After(Step(s, run[0]), run[1..])
  }

  // ----- what every interleaving keeps -----

  predicate Owns(p: Process) {
    p.at.Created? || p.at.Executed?
  }

  /** An owner's record is in progress; it has executed exactly if it says so. */
  predicate OwnerOk(s: State, id: nat) {
    id in s.processes && Owns(s.processes[id]) ==>
      var r := s.processes[id].request;
      r.slot in s.records && s.records[r.slot] == InProgress(r.hash) &&
      match s.processes[id].at
      case Executed(response) => Execution(r, response) in s.executions
      case _ => forall i :: 0 <= i < |s.executions| ==> s.executions[i].request.slot != r.slot
  }

  predicate AloneOk(s: State, a: nat, b: nat) {
    (a in s.processes && b in s.processes && Owns(s.processes[a]) && Owns(s.processes[b]) &&
     s.processes[a].request.slot == s.processes[b].request.slot) ==> a == b
  }

  predicate RecordOk(s: State, slot: Slot) {
    slot in s.records && s.records[slot].Completed? ==>
      Execution(Request(slot, s.records[slot].hash), s.records[slot].response) in s.executions
  }

  predicate ExecutionOk(s: State, i: nat) {
    i < |s.executions| ==>
      var r := s.executions[i].request;
      r.slot in s.records && s.records[r.slot].hash == r.hash &&
      (s.records[r.slot].Completed? ==> s.records[r.slot].response == s.executions[i].response) &&
      forall j :: 0 <= j < i ==> s.executions[j].request.slot != r.slot
  }

  predicate ReplyOk(s: State, reply: Reply) {
    reply.answer.Replied? ==>
      reply.request.slot in s.records &&
      s.records[reply.request.slot] == Completed(reply.request.hash, reply.answer.response)
  }

  ghost predicate Inv(s: State) {
    (forall id :: OwnerOk(s, id)) && (forall a, b :: AloneOk(s, a, b)) && (forall slot :: RecordOk(s, slot)) &&
    (forall i :: ExecutionOk(s, i)) && (forall i :: 0 <= i < |s.replies| ==> ReplyOk(s, s.replies[i]))
  }

  lemma StepKeepsInv(s: State, e: Event)
    requires Inv(s) && Enabled(s, e)
    ensures Inv(Step(s, e))
  {
    hide OwnerOk, AloneOk, RecordOk, ExecutionOk, ReplyOk, Step;
    var t := Step(s, e);
    forall id ensures OwnerOk(t, id) { OwnerKept(s, e, id); }
    forall a, b ensures AloneOk(t, a, b) { AloneKept(s, e, a, b); }
    forall slot ensures RecordOk(t, slot) { RecordKept(s, e, slot); }
    forall i ensures ExecutionOk(t, i) { ExecutionKept(s, e, i); }
    forall i | 0 <= i < |t.replies| ensures ReplyOk(t, t.replies[i]) { ReplyKept(s, e, i); }
  }

  function Mover(e: Event): nat {
    match e
    case Arrive(id, _) => id
    case Resolve(id, _) => id
    case Lookup(id, _) => id
    case Begin(id, _) => id
    case Execute(id, _) => id
    case Complete(id, _) => id
    case Crash => 0
  }

  lemma OwnerKept(s: State, e: Event, id: nat)
    requires Inv(s) && Enabled(s, e)
    ensures OwnerOk(Step(s, e), id)
  {
    assert OwnerOk(s, id) && OwnerOk(s, Mover(e)) && AloneOk(s, id, Mover(e));
    if e.Begin? && e.id == id {
      var r := s.processes[id].request;
      forall i | 0 <= i < |s.executions| && r.slot !in s.records
        ensures s.executions[i].request.slot != r.slot
      {
        assert ExecutionOk(s, i);
      }
    }
  }

  lemma AloneKept(s: State, e: Event, a: nat, b: nat)
    requires Inv(s) && Enabled(s, e)
    ensures AloneOk(Step(s, e), a, b)
  {
    assert AloneOk(s, a, b) && OwnerOk(s, a) && OwnerOk(s, b);
  }

  lemma RecordKept(s: State, e: Event, slot: Slot)
    requires Inv(s) && Enabled(s, e)
    ensures RecordOk(Step(s, e), slot)
  {
    assert RecordOk(s, slot) && OwnerOk(s, Mover(e));
  }

  lemma ExecutionKept(s: State, e: Event, i: nat)
    requires Inv(s) && Enabled(s, e)
    ensures ExecutionOk(Step(s, e), i)
  {
    assert ExecutionOk(s, i) && OwnerOk(s, Mover(e));
    if e.Complete? {
      var p := s.processes[e.id];
      var j :| 0 <= j < |s.executions| && s.executions[j] == Execution(p.request, p.at.response);
      assert ExecutionOk(s, j);
    }
  }

  lemma ReplyKept(s: State, e: Event, i: nat)
    requires Inv(s) && Enabled(s, e) && i < |Step(s, e).replies|
    ensures ReplyOk(Step(s, e), Step(s, e).replies[i])
  {
    assert i < |s.replies| ==> ReplyOk(s, s.replies[i]);
    assert OwnerOk(s, Mover(e));
  }

  lemma {:induction false} RunKeepsInv(s: State, run: seq<Event>)
    requires Inv(s) && IsRun(s, run)
    ensures Inv(After(s, run))
    decreases |run|
  {
    if run != [] {
      StepKeepsInv(s, run[0]);
      RunKeepsInv(Step(s, run[0]), run[1..]);
    }
  }

  // ----- main results -----

  /** Over every interleaving and any crashes, the backend executes at most once for a slot. */
  lemma AtMostOnce(run: seq<Event>, i: nat, j: nat)
    requires IsRun(Start(), run) && i < j < |After(Start(), run).executions|
    ensures After(Start(), run).executions[i].request.slot != After(Start(), run).executions[j].request.slot
  {
    RunKeepsInv(Start(), run);
    assert ExecutionOk(After(Start(), run), j);
  }

  /** All completed replies for a slot are to the same request and carry the response of its one execution. */
  lemma RepliesAgree(run: seq<Event>, i: nat, j: nat)
    requires IsRun(Start(), run)
    requires i < |After(Start(), run).replies| && j < |After(Start(), run).replies|
    requires After(Start(), run).replies[i].answer.Replied? && After(Start(), run).replies[j].answer.Replied?
    requires After(Start(), run).replies[i].request.slot == After(Start(), run).replies[j].request.slot
    ensures var s := After(Start(), run);
      s.replies[i].request == s.replies[j].request &&
      s.replies[i].answer.response == s.replies[j].answer.response &&
      Execution(s.replies[i].request, s.replies[i].answer.response) in s.executions
  {
    RunKeepsInv(Start(), run);
    var s := After(Start(), run);
    assert ReplyOk(s, s.replies[i]) && ReplyOk(s, s.replies[j]) && RecordOk(s, s.replies[i].request.slot);
  }

  /** The record of a request that nobody is working on any more. */
  predicate Orphaned(s: State, slot: Slot) {
    slot in s.records && s.records[slot].InProgress? &&
    forall id :: id in s.processes && Owns(s.processes[id]) ==> s.processes[id].request.slot != slot
  }

  predicate SlotReply(s: State, i: nat, slot: Slot) {
    i < |s.replies| && s.replies[i].request.slot == slot && s.replies[i].answer.Replied?
  }

  /** A begin whose reply is lost leaves a record that nobody owns. */
  lemma LostBeginOrphans(s: State, id: nat)
    requires Inv(s) && Enabled(s, Begin(id, ReplyLost)) && s.processes[id].request.slot !in s.records
    ensures Orphaned(Step(s, Begin(id, ReplyLost)), s.processes[id].request.slot)
  {
    forall other | other in s.processes && Owns(s.processes[other])
      ensures s.processes[other].request.slot != s.processes[id].request.slot
    {
      assert OwnerOk(s, other);
    }
  }

  /** A crash orphans every record in progress. */
  lemma CrashOrphans(s: State, slot: Slot)
    requires slot in s.records && s.records[slot].InProgress?
    ensures Orphaned(Step(s, Crash), slot)
  {
  }

  lemma OrphanStep(s: State, e: Event, slot: Slot)
    requires Enabled(s, e) && Orphaned(s, slot)
    ensures var t := Step(s, e);
      Orphaned(t, slot) && t.records[slot] == s.records[slot] &&
      |s.executions| <= |t.executions| && |s.replies| <= |t.replies| &&
      (forall i :: |s.executions| <= i < |t.executions| ==> t.executions[i].request.slot != slot) &&
      (forall i :: |s.replies| <= i < |t.replies| ==> !SlotReply(t, i, slot))
  {
  }

  /** A record nobody works on any more, because of a crash, an error or a lost reply, stays in progress:
      it is never executed again and no later request for it is answered as completed. */
  lemma {:induction false} NeverReexecuted(s: State, run: seq<Event>, slot: Slot, i: nat)
    requires Orphaned(s, slot) && IsRun(s, run)
    ensures After(s, run).records.Keys >= {slot} && After(s, run).records[slot] == s.records[slot]
    ensures |s.executions| <= |After(s, run).executions| && |s.replies| <= |After(s, run).replies|
    ensures |s.executions| <= i < |After(s, run).executions| ==> After(s, run).executions[i].request.slot != slot
    ensures |s.replies| <= i ==> !SlotReply(After(s, run), i, slot)
    decreases |run|
  {
    if run != [] {
      var t := Step(s, run[0]);
      OrphanStep(s, run[0], slot);
      NeverReexecuted(t, run[1..], slot, i);
      if i < |t.executions| { ExecutionsLast(t, run[1..], i); }
      if i < |t.replies| { RepliesLast(t, run[1..], i); }
    }
  }

  lemma {:induction false} ExecutionsLast(s: State, run: seq<Event>, i: nat)
    requires IsRun(s, run) && i < |s.executions|
    ensures i < |After(s, run).executions| && After(s, run).executions[i] == s.executions[i]
    decreases |run|
  {
    if run != [] { ExecutionsLast(Step(s, run[0]), run[1..], i); }
  }

  lemma {:induction false} RepliesLast(s: State, run: seq<Event>, i: nat)
    requires IsRun(s, run) && i < |s.replies|
    ensures i < |After(s, run).replies| && After(s, run).replies[i] == s.replies[i]
    decreases |run|
  {
    if run != [] { RepliesLast(Step(s, run[0]), run[1..], i); }
  }

  /** A completed record stays as it is, whatever happens. */
  lemma {:induction false} CompletedStays(s: State, run: seq<Event>, slot: Slot)
    requires IsRun(s, run) && slot in s.records && s.records[slot].Completed?
    ensures slot in After(s, run).records && After(s, run).records[slot] == s.records[slot]
    decreases |run|
  {
    if run != [] { CompletedStays(Step(s, run[0]), run[1..], slot); }
  }

  lemma {:induction false} RecordsGrow(s: State, run: seq<Event>)
    requires IsRun(s, run)
    ensures s.records.Keys <= After(s, run).records.Keys
    decreases |run|
  {
    if run != [] { RecordsGrow(Step(s, run[0]), run[1..]); }
  }

  /** What a request is told when the store answers it and its slot has a record: the recorded response if the
      request is the recorded one and completed, a conflict if it is another one. */
  lemma RecordedAnswer(s: State, e: Event)
    requires Enabled(s, e) && (e.Begin? || e.Lookup?) && (e.Begin? ==> e.fate == Done) && (e.Lookup? ==> e.available)
    requires s.processes[e.id].request.slot in s.records
    ensures var t := Step(s, e); var r := s.processes[e.id].request; var found := s.records[r.slot];
      && t.records == s.records && t.executions == s.executions && |t.replies| == |s.replies| + 1
      && t.replies[|s.replies|].request == r && e.id !in t.processes
      && t.replies[|s.replies|].answer ==
           (if found.hash != r.hash then Conflict
            else if found.Completed? then Replied(found.response, true)
            else if e.Begin? then Busy else NotResolved)
  {
  }

  /** Over every run: once a request is completed, every later one for the slot that the store answers gets
      the recorded response, or a conflict if it is another request; none executes. */
  lemma CompletedIsReplayed(s: State, run: seq<Event>, e: Event, slot: Slot)
    requires IsRun(s, run) && slot in s.records && s.records[slot].Completed?
    requires var t := After(s, run);
      Enabled(t, e) && ((e.Begin? && e.fate == Done) || (e.Lookup? && e.available)) && t.processes[e.id].request.slot == slot
    ensures var t := After(s, run); var r := t.processes[e.id].request; var u := Step(t, e);
      && u.executions == t.executions && |u.replies| == |t.replies| + 1
      && u.replies[|t.replies|] ==
           Reply(r, if r.hash == s.records[slot].hash then Replied(s.records[slot].response, true) else Conflict)
  {
    CompletedStays(s, run, slot);
    RecordedAnswer(After(s, run), e);
  }

  /** The owner's response is recorded and sent, if it can be and the store confirms it. */
  lemma OwnerCompletes(s: State, id: nat, fate: Fate)
    requires Inv(s) && Enabled(s, Complete(id, fate))
    ensures var p := s.processes[id]; var t := Step(s, Complete(id, fate)); var valid := 100 <= p.at.response.status <= 599;
      && t.records == (if valid && fate != Refused then s.records[p.request.slot := Completed(p.request.hash, p.at.response)] else s.records)
      && t.replies == s.replies + [Reply(p.request, if valid && fate == Done then Replied(p.at.response, false) else Unavailable)]
  {
    assert OwnerOk(s, id);
  }

  /** The reservation of a slot by a request whose resource resolved. */
  predicate Reserves(s: State, e: Event, slot: Slot) {
    e.Begin? && e.id in s.processes && s.processes[e.id].request.slot == slot && s.processes[e.id].at == Resolved
  }

  /** A record is only ever made by a request whose resource resolved: without such a step the slot
      stays free, so a request that failed to resolve has reserved nothing. */
  lemma {:induction false} OnlyResolvedReserve(s: State, run: seq<Event>, slot: Slot)
    requires IsRun(s, run) && slot !in s.records && slot in After(s, run).records
    ensures exists k :: 0 <= k < |run| && IsRun(s, run[..k]) && Reserves(After(s, run[..k]), run[k], slot)
    decreases |run|
  {
    var t := Step(s, run[0]);
    if slot in t.records {
      assert run[..0] == [];
      assert Reserves(After(s, run[..0]), run[0], slot);
    } else {
      OnlyResolvedReserve(t, run[1..], slot);
      var k :| 0 <= k < |run[1..]| && IsRun(t, run[1..][..k]) && Reserves(After(t, run[1..][..k]), run[1..][k], slot);
      assert run[..k + 1][1..] == run[1..][..k] && run[..k + 1][0] == run[0];
      assert Reserves(After(s, run[..k + 1]), run[k + 1], slot);
    }
  }
}
