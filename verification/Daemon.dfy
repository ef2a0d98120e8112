// The goroutines of a shutting-down daemon as they run: TryProjectExecution and
// drainExecutions of internal/orchestrator/project_slot.go, Engine.Run, the
// request path of internal/daemon/daemon.go and app.Serve. They share mutable
// state; between any two of a goroutine's sections all the others may run.
// Everything they do together is a run of the machine of module Shutdown.

module Daemon {
  import opened Shutdown

  datatype Goroutine = HandlerOf(id: nat) | EngineLoop | ServeLoop | Outside

  function Actor(e: Event): Goroutine {
    match e
    case CancelRuntime => Outside
    case Dispatch(id) => HandlerOf(id)
    case RequestStopFrom(id) => HandlerOf(id)
    case TryProbe(id) => HandlerOf(id)
    case TryLock(id) => HandlerOf(id)
    case Recheck(id) => HandlerOf(id)
    case Enter(id, _) => HandlerOf(id)
    case FinishProbe(id) => HandlerOf(id)
    case AwaitEngine(id) => HandlerOf(id)
    case Resume(id) => HandlerOf(id)
    case Respond(id) => HandlerOf(id)
    case TakeGoal | AcquireSlot | FinishGoal | LeaveLoop | SetEngineStopping | DrainLock | DrainUnlock => EngineLoop
    case BeginStop | RequestStop | JoinHandlers | JoinEngine | CloseServer | CloseStore | ReleaseOwnership => ServeLoop
  }

  predicate NotBy(run: seq<Event>, me: Goroutine) {
    forall i :: 0 <= i < |run| ==> Actor(run[i]) != me
  }

  // The steps of one goroutine in a run.
  function By(run: seq<Event>, me: Goroutine): seq<Event>
    decreases |run|
  {
    if run == [] then [] else (if Actor(run[0]) == me then [run[0]] else []) + By(run[1..], me)
  }

  lemma {:induction false} ByJoin(a: seq<Event>, b: seq<Event>, me: Goroutine)
    ensures By(a + b, me) == By(a, me) + By(b, me)
    decreases |a|
  {
    if a == [] {
      assert a + b == b;
    } else {
      assert (a + b)[0] == a[0] && (a + b)[1..] == a[1..] + b;
      ByJoin(a[1..], b, me);
    }
  }

  lemma {:induction false} ByNobody(run: seq<Event>, me: Goroutine)
    requires NotBy(run, me)
    ensures By(run, me) == []
    decreases |run|
  {
    if run != [] {
      assert NotBy(run[1..], me);
      ByNobody(run[1..], me);
    }
  }

  lemma ByOne(run: seq<Event>, e: Event, me: Goroutine)
    ensures By(run + [e], me) == By(run, me) + (if Actor(e) == me then [e] else [])
  {
    ByJoin(run, [e], me);
    assert [e][1..] == [];
  }

  // What a goroutine may rely on while the others run: its own position.
  predicate SamePlace(a: State, b: State, me: Goroutine) {
    match me
    case HandlerOf(id) => (id in a.handlers <==> id in b.handlers) && (id in a.handlers ==> b.handlers[id] == a.handlers[id])
    case EngineLoop => b.engine == a.engine
    case ServeLoop => b.main == a.main && (a.stopping ==> b.stopping)
    case Outside => true
  }

  // Stopping and cancellation are never taken back, and no engine comes or goes.
  predicate Monotone(a: State, b: State) {
    (a.stopping ==> b.stopping) && (a.cancelled ==> b.cancelled) && (a.engineStopping ==> b.engineStopping) &&
    (a.engine == Absent <==> b.engine == Absent)
  }

  lemma StepElsewhere(s: State, e: Event, me: Goroutine)
    requires Enabled(s, e)
    ensures Monotone(s, Step(s, e))
    ensures Actor(e) != me ==> SamePlace(s, Step(s, e), me)
  {
    StepMonotone(s, e);
  }

  lemma StepMonotone(s: State, e: Event)
    requires Enabled(s, e)
    ensures Monotone(s, Step(s, e))
  {
  }

  lemma {:induction false} RunElsewhere(s: State, run: seq<Event>, me: Goroutine)
    requires IsRun(s, run) && NotBy(run, me)
    ensures Monotone(s, After(s, run)) && SamePlace(s, After(s, run), me)
    decreases |run|
  {
    if run != [] {
      hide Enabled, Step;
      StepElsewhere(s, run[0], me);
      assert NotBy(run[1..], me);
      RunElsewhere(Step(s, run[0]), run[1..], me);
    }
  }

  lemma {:induction false} RunsJoin(s: State, a: seq<Event>, b: seq<Event>)
    requires IsRun(s, a) && IsRun(After(s, a), b)
    ensures IsRun(s, a + b) && After(s, a + b) == After(After(s, a), b)
    decreases |a|
  {
    hide Enabled, Step;
    if a == [] {
      assert a + b == b;
    } else {
      assert (a + b)[0] == a[0] && (a + b)[1..] == a[1..] + b;
      RunsJoin(Step(s, a[0]), a[1..], b);
    }
  }

  lemma NothingHappened(s: State)
    ensures IsRun(s, []) && After(s, []) == s
  {
  }

  // Only the one goroutine has moved meanwhile.
  ghost predicate Alone(before: seq<Event>, after: seq<Event>, me: Goroutine) {
    |after| - |before| == |By(after, me)| - |By(before, me)|
  }

  function ProbeSteps(id: nat, available: bool): seq<Event> {
    [TryProbe(id), TryLock(id), Recheck(id), Enter(id, available), FinishProbe(id)]
  }

  // What a request is for: a call that needs no slot, an active probe, or stopping the daemon.
  datatype Work = Plain | Probe | Stop

  predicate WorkSteps(work: Work, id: nat, available: bool, steps: seq<Event>) {
    match work
    case Plain => steps == []
    case Probe => |steps| > 0 && steps <= ProbeSteps(id, available)
    case Stop => steps == [RequestStopFrom(id)]
  }

  const GOAL_STEPS: seq<Event> := [TakeGoal, AcquireSlot, FinishGoal]

  const DRAIN_STEPS: seq<Event> := [SetEngineStopping, DrainLock, DrainUnlock]

  const CLOSING_STEPS: seq<Event> :=
    [BeginStop, RequestStop, JoinHandlers, JoinEngine, CloseServer, CloseStore, ReleaseOwnership]

  predicate EndsWith(run: seq<Event>, last: seq<Event>) {
    |run| >= |last| && run[|run| - |last|..] == last
  }

  lemma EndsLonger(run: seq<Event>, last: seq<Event>, more: seq<Event>)
    requires EndsWith(run, last)
    ensures EndsWith(run + more, last + more)
  {
    var all := run + more;
    assert all[|all| - |last + more|..] == last + more;
  }

  // Where the sections of a probe lead.
  lemma ProbeMoves(s: State, id: nat, available: bool)
    ensures At(s, id, Admitted) ==> Enabled(s, TryProbe(id))
    ensures At(s, id, Admitted) ==>
      Leads(s, Step(s, TryProbe(id)), id, Checked, s.engine != Absent && !s.engineStopping && !s.cancelled)
    ensures At(s, id, Checked) ==> Enabled(s, TryLock(id)) && Leads(s, Step(s, TryLock(id)), id, Locked, s.serial == Free)
    ensures At(s, id, Locked) ==> Enabled(s, Recheck(id)) && Leads(s, Step(s, Recheck(id)), id, Rechecked, !s.engineStopping)
    ensures At(s, id, Rechecked) ==> Enabled(s, Enter(id, available))
    ensures At(s, id, Rechecked) ==>
      Leads(s, Step(s, Enter(id, available)), id, Running, available && !s.cancelled)
    ensures At(s, id, Running) ==> Enabled(s, FinishProbe(id)) && At(Step(s, FinishProbe(id)), id, Admitted)
  {
  }

  // One place further if the condition holds, out of the slot otherwise; all else but the slot stays.
  predicate Leads(s: State, t: State, id: nat, pc: Handler, condition: bool) {
    At(t, id, if condition then pc else Admitted) && t.engine == s.engine && t.cancelled == s.cancelled &&
    t.engineStopping == s.engineStopping && (pc == Checked ==> t.serial == s.serial)
  }

  // Where the sections of the execution loop lead.
  lemma LoopMoves(s: State)
    ensures s.engine == Looping ==> Enabled(s, TakeGoal) && Step(s, TakeGoal) == s.(engine := Queued)
    ensures s.engine == Queued && s.serial == Free ==>
      Enabled(s, AcquireSlot) && Step(s, AcquireSlot) == s.(engine := RunningGoal, serial := HeldByEngine)
    ensures s.engine == RunningGoal ==> Enabled(s, FinishGoal) && Step(s, FinishGoal) == s.(engine := Looping, serial := Free)
    ensures s.engine == Leaving ==>
      Enabled(s, SetEngineStopping) && Step(s, SetEngineStopping) == s.(engine := Draining, engineStopping := true)
    ensures s.engine == Draining && s.serial == Free ==>
      Enabled(s, DrainLock) && Step(s, DrainLock) == s.(engine := Drained, serial := HeldByEngine)
    ensures s.engine == Drained ==> Enabled(s, DrainUnlock) && Step(s, DrainUnlock) == s.(engine := Finished, serial := Free)
  {
  }

  // Where the sections of the stop lead.
  lemma StopMoves(s: State)
    ensures s.main == Serving ==> Enabled(s, BeginStop) && Step(s, BeginStop).main == Stopping && Step(s, BeginStop).stopping
    ensures s.main == Stopping ==> Enabled(s, RequestStop) && Step(s, RequestStop) == s.(main := Cancelled, cancelled := true)
    ensures s.main == Cancelled && s.handlers == map[] ==> Enabled(s, JoinHandlers) && Step(s, JoinHandlers) == s.(main := Served)
    ensures s.main == Served && EngineDone(s) ==> Enabled(s, JoinEngine) && Step(s, JoinEngine) == s.(main := Joined)
    ensures s.main == Joined ==> Enabled(s, CloseServer) && Step(s, CloseServer) == s.(main := ServerClosed, stopping := true)
    ensures s.main == ServerClosed ==> Enabled(s, CloseStore) && Step(s, CloseStore) == s.(main := StoreClosed, storeOpen := false)
    ensures s.main == StoreClosed ==> Enabled(s, ReleaseOwnership) && Step(s, ReleaseOwnership) == s.(main := Released, owned := false)
  {
  }

  class System {
    var stopping: bool
    var handlers: map<nat, Handler>
    var serial: Owner
    var cancelled: bool
    var engineStopping: bool
    var engine: Engine
    var main: Main
    var storeOpen: bool
    var owned: bool
    ghost var log: seq<Event>

    constructor (executable: bool)
      ensures St() == Start(executable) && log == []
    {
      stopping, handlers, serial, cancelled, engineStopping := false, map[], Free, false, false;
      engine, main, storeOpen, owned := if executable then Looping else Absent, Serving, true, true;
      log := [];
    }

    function St(): State
      reads this
    {
      State(stopping, handlers, serial, cancelled, engineStopping, engine, main, storeOpen, owned)
    }

    // Since `start` exactly the logged events have happened.
    ghost predicate Ran(start: State)
      reads this
    {
      IsRun(start, log) && After(start, log) == St()
    }

    ghost method Note(start: State, before: State, e: Event)
      requires IsRun(start, log) && After(start, log) == before && Enabled(before, e) && St() == Step(before, e)
      modifies this`log
      ensures Ran(start) && log == old(log) + [e]
      ensures By(log, Actor(e)) == By(old(log), Actor(e)) + [e]
    {
      hide Enabled, Step;
      ByOne(log, e, Actor(e));
      assert [e][1..] == [];
      assert IsRun(before, [e]) && After(before, [e]) == Step(before, e);
      RunsJoin(start, log, [e]);
      log := log + [e];
    }

    // All other goroutines run for as long as they like.
    method Others(me: Goroutine, ghost start: State)
      requires Ran(start)
      modifies this
      ensures Ran(start) && By(log, me) == By(old(log), me)
      ensures Monotone(old(St()), St()) && SamePlace(old(St()), St(), me)
      ensures |log| >= |old(log)| && (|log| == |old(log)| ==> St() == old(St()))
    {
      hide IsRun, After, Step, Enabled, By;
      var run: seq<Event> := *;
      ghost var before := St();
      if IsRun(St(), run) && NotBy(run, me) {
        RunElsewhere(before, run, me);
        NothingHappened(before);
        RunsJoin(start, log, run);
        ByJoin(log, run, me);
        ByNobody(run, me);
        var next := After(St(), run);
        stopping, handlers, serial, cancelled := next.stopping, next.handlers, next.serial, next.cancelled;
        engineStopping, engine, main := next.engineStopping, next.engine, next.main;
        storeOpen, owned := next.storeOpen, next.owned;
        log := log + run;
      }
    }

    // One section of one goroutine: what it assigns while it holds its mutex.
    method Take(e: Event, ghost start: State)
      requires Ran(start) && Enabled(St(), e)
      modifies this
      ensures Ran(start) && St() == Step(old(St()), e)
      ensures By(log, Actor(e)) == By(old(log), Actor(e)) + [e] && |log| == |old(log)| + 1
    {
      hide IsRun, After, By, Step, Enabled;
      ghost var before := St();
      match Actor(e) {
        case HandlerOf(_) => HandlerSection(e);
        case EngineLoop => LoopSection(e);
        case ServeLoop => ServingSection(e);
        case Outside => Cancel(e);
      }
      Note(start, before, e);
    }

    method Cancel(e: Event)
      requires Actor(e) == Outside
      modifies this
      ensures St() == Step(old(St()), e) && log == old(log)
    {
      cancelled := true;
    }

    method HandlerSection(e: Event)
      requires Actor(e).HandlerOf? && Enabled(St(), e)
      modifies this
      ensures St() == Step(old(St()), e) && log == old(log)
    {
      match e
      case Dispatch(id) => if !stopping { handlers := handlers[id := Admitted]; }
      case RequestStopFrom(_) => cancelled := true;
      case TryProbe(id) => if engine != Absent && !engineStopping && !cancelled { handlers := handlers[id := Checked]; }
      case TryLock(id) =>
        if serial == Free {
          handlers, serial := handlers[id := Locked], HeldBy(id);
        } else {
          handlers := handlers[id := Admitted];
        }
      case Recheck(id) => if engineStopping { LeaveSlot(id); } else { handlers := handlers[id := Rechecked]; }
      case Enter(id, available) => if cancelled || !available { LeaveSlot(id); } else { handlers := handlers[id := Running]; }
      case FinishProbe(id) => LeaveSlot(id);
      case AwaitEngine(id) => handlers := handlers[id := AwaitingEngine];
      case Resume(id) => handlers := handlers[id := Admitted];
      case Respond(id) => handlers := handlers - {id};
    }

    method LoopSection(e: Event)
      requires Actor(e) == EngineLoop && Enabled(St(), e)
      modifies this
      ensures St() == Step(old(St()), e) && log == old(log)
    {
      match e
      case TakeGoal => engine := Queued;
      case AcquireSlot => engine, serial := RunningGoal, HeldByEngine;
      case FinishGoal => engine, serial := Looping, Free;
      case LeaveLoop => engine := Leaving;
      case SetEngineStopping => engineStopping, engine := true, Draining;
      case DrainLock => engine, serial := Drained, HeldByEngine;
      case DrainUnlock => engine, serial := Finished, Free;
    }

    method ServingSection(e: Event)
      requires Actor(e) == ServeLoop && Enabled(St(), e)
      modifies this
      ensures St() == Step(old(St()), e) && log == old(log)
    {
      match e
      case BeginStop => stopping, main := true, Stopping;
      case RequestStop => cancelled, main := true, Cancelled;
      case JoinHandlers => main := Served;
      case JoinEngine => main := Joined;
      case CloseServer => stopping, main := true, ServerClosed;
      case CloseStore => storeOpen, main := false, StoreClosed;
      case ReleaseOwnership => owned, main := false, Released;
    }

    // The deferred serial.Unlock.
    method LeaveSlot(id: nat)
      modifies this`handlers, this`serial
      ensures handlers == old(handlers)[id := Admitted] && serial == Free
    {
      handlers, serial := handlers[id := Admitted], Free;
    }

    // TryProjectExecution: the first steps of a probe up to the one that refuses it; true exactly
    // if all of them were taken, the callback and the unlock included.
    method TryProjectExecution(id: nat, available: bool, ghost start: State) returns (ran: bool, ghost steps: seq<Event>)
      requires Ran(start) && At(St(), id, Admitted)
      modifies this
      ensures Ran(start) && At(St(), id, Admitted)
      ensures By(log, HandlerOf(id)) == By(old(log), HandlerOf(id)) + steps
      ensures |steps| > 0 && steps <= ProbeSteps(id, available)
      ensures ran <==> |steps| == 5
      // Nothing runs unless execution is available, on a live engine and before cancellation; undisturbed and
      // with a free slot it does run then.
      ensures ran ==> available && !old(cancelled) && !old(engineStopping) && old(engine) != Absent
      ensures Alone(old(log), log, HandlerOf(id)) ==>
        (ran <==> available && !old(cancelled) && !old(engineStopping) && old(engine) != Absent && old(serial) == Free)
    {
      hide IsRun, After, By, Step, Enabled;
      steps := [TryProbe(id)];
      Others(HandlerOf(id), start);
      ProbeMoves(St(), id, available);
      Take(TryProbe(id), start);
      if handlers[id] != Checked { return false, steps; }
      Others(HandlerOf(id), start);
      ProbeMoves(St(), id, available);
      Take(TryLock(id), start);
      steps := [TryProbe(id), TryLock(id)];
      if handlers[id] != Locked { return false, steps; }
      ghost var rest;
      ran, rest := RunInSlot(id, available, start);
      steps := steps + rest;
    }

    // The part that holds the slot: the second look at the flag, CheckExecutionAvailable, the callback.
    method RunInSlot(id: nat, available: bool, ghost start: State) returns (ran: bool, ghost steps: seq<Event>)
      requires Ran(start) && At(St(), id, Locked)
      modifies this
      ensures Ran(start) && At(St(), id, Admitted)
      ensures By(log, HandlerOf(id)) == By(old(log), HandlerOf(id)) + steps
      ensures |steps| > 0 && steps <= [Recheck(id), Enter(id, available), FinishProbe(id)]
      ensures ran <==> |steps| == 3
      ensures ran ==> available && !old(cancelled) && !old(engineStopping)
      ensures |log| >= |old(log)| + |steps|
      ensures |log| == |old(log)| + |steps| ==> (ran <==> available && !old(cancelled) && !old(engineStopping))
    {
      hide IsRun, After, By, Step, Enabled;
      steps := [Recheck(id)];
      Others(HandlerOf(id), start);
      ProbeMoves(St(), id, available);
      Take(Recheck(id), start);
      if handlers[id] != Rechecked { return false, steps; }
      Others(HandlerOf(id), start);
      ProbeMoves(St(), id, available);
      Take(Enter(id, available), start);
      steps := [Recheck(id), Enter(id, available)];
      if handlers[id] != Running { return false, steps; }
      Others(HandlerOf(id), start);
      ProbeMoves(St(), id, available);
      Take(FinishProbe(id), start);
      steps := [Recheck(id), Enter(id, available), FinishProbe(id)];
      ran := true;
    }

    // A request from admission to its last byte; admitted exactly if the daemon is not stopping.
    method ServeRequest(id: nat, work: Work, available: bool, ghost start: State) returns (ghost steps: seq<Event>)
      requires Ran(start) && id !in handlers
      modifies this
      ensures Ran(start) && id !in handlers
      ensures By(log, HandlerOf(id)) ==
        By(old(log), HandlerOf(id)) + (if old(stopping) then [Dispatch(id)] else [Dispatch(id)] + steps + [Respond(id)])
      ensures !old(stopping) ==> WorkSteps(work, id, available, steps)
      ensures !old(stopping) && work == Stop ==> cancelled
    {
      hide IsRun, After, By;
      steps := [];
      Take(Dispatch(id), start);
      if id !in handlers { return; }
      steps := DoWork(id, work, available, start);
      Others(HandlerOf(id), start);
      Take(Respond(id), start);
    }

    method DoWork(id: nat, work: Work, available: bool, ghost start: State) returns (ghost steps: seq<Event>)
      requires Ran(start) && At(St(), id, Admitted)
      modifies this
      ensures Ran(start) && At(St(), id, Admitted)
      ensures By(log, HandlerOf(id)) == By(old(log), HandlerOf(id)) + steps
      ensures WorkSteps(work, id, available, steps)
      ensures work == Stop ==> cancelled
    {
      hide IsRun, After, By;
      steps := [];
      Others(HandlerOf(id), start);
      match work
      case Plain =>
      case Probe =>
        var ran;
        ran, steps := TryProjectExecution(id, available, start);
      case Stop =>
        Take(RequestStopFrom(id), start);
        steps := [RequestStopFrom(id)];
    }

    // ---- the execution loop ----

    // serial.Lock: blocked while somebody else holds the slot.
    method LockSlot(patience: nat, ghost start: State) returns (free: bool)
      requires Ran(start)
      modifies this
      ensures Ran(start) && engine == old(engine) && free == (serial == Free)
      ensures By(log, EngineLoop) == By(old(log), EngineLoop)
      ensures old(engineStopping) ==> engineStopping
    {
      hide IsRun, After, Step, Enabled, By;
      var left := patience;
      Others(EngineLoop, start);
      while serial != Free && left > 0
        invariant Ran(start) && engine == old(engine) && (old(engineStopping) ==> engineStopping)
        invariant By(log, EngineLoop) == By(old(log), EngineLoop)
        decreases left
      {
        Others(EngineLoop, start);
        left := left - 1;
      }
      free := serial == Free;
    }

    // Engine.Run: takes Goals until it chooses ctx.Done, then drains. Not finished: still at work or blocked.
    method RunEngine(rounds: nat, patience: nat, ghost start: State) returns (finished: bool)
      requires Ran(start) && engine == Looping
      modifies this
      ensures Ran(start) && (finished ==> engine == Finished)
      ensures finished ==> EndsWith(By(log, EngineLoop), [LeaveLoop] + DRAIN_STEPS)
    {
      hide IsRun, After, By;
      var done := false;
      var i := 0;
      while i < rounds && !done
        invariant Ran(start) && engine == (if done then Leaving else Looping) && i <= rounds
        invariant done ==> EndsWith(By(log, EngineLoop), [LeaveLoop])
      {
        Others(EngineLoop, start);
        var goal: bool := *;
        if goal {
          var ok := RunGoal(patience, start);
          if !ok { return false; }
        } else if cancelled {
          Take(LeaveLoop, start);
          done := true;
        }
        i := i + 1;
      }
      finished := false;
      if done {
        ghost var before := By(log, EngineLoop);
        finished := DrainExecutions(patience, start);
        EndsLonger(before, [LeaveLoop], DRAIN_STEPS);
      }
    }

    // RunGoal: the whole run holds the slot.
    method RunGoal(patience: nat, ghost start: State) returns (ok: bool)
      requires Ran(start) && engine == Looping
      modifies this
      ensures Ran(start) && (ok ==> engine == Looping)
      ensures By(log, EngineLoop) == By(old(log), EngineLoop) + (if ok then GOAL_STEPS else [TakeGoal])
    {
      hide IsRun, After, By, Step, Enabled;
      LoopMoves(St());
      Take(TakeGoal, start);
      ok := LockSlot(patience, start);
      if !ok { return; }
      LoopMoves(St());
      Take(AcquireSlot, start);
      Others(EngineLoop, start);
      LoopMoves(St());
      Take(FinishGoal, start);
      assert GOAL_STEPS == [TakeGoal] + [AcquireSlot] + [FinishGoal];
    }

    // drainExecutions: sets the flag, then passes through the slot once.
    method DrainExecutions(patience: nat, ghost start: State) returns (finished: bool)
      requires Ran(start) && engine == Leaving
      modifies this
      ensures Ran(start) && engineStopping && (finished ==> engine == Finished)
      ensures By(log, EngineLoop) == By(old(log), EngineLoop) + (if finished then DRAIN_STEPS else DRAIN_STEPS[..1])
    {
      hide IsRun, After, By, Step, Enabled;
      Others(EngineLoop, start);
      LoopMoves(St());
      Take(SetEngineStopping, start);
      finished := LockSlot(patience, start);
      if !finished { return; }
      LoopMoves(St());
      Take(DrainLock, start);
      Others(EngineLoop, start);
      LoopMoves(St());
      Take(DrainUnlock, start);
      assert DRAIN_STEPS == [SetEngineStopping] + [DrainLock] + [DrainUnlock];
    }

    // ---- the serving goroutine ----

    // requests.Wait.
    method AwaitHandlers(patience: nat, ghost start: State) returns (none: bool)
      requires Ran(start) && stopping && cancelled
      modifies this
      ensures Ran(start) && main == old(main) && stopping && cancelled && none == (handlers == map[])
      ensures By(log, ServeLoop) == By(old(log), ServeLoop)
    {
      hide IsRun, After, Step, Enabled, By;
      var left := patience;
      Others(ServeLoop, start);
      while handlers != map[] && left > 0
        invariant Ran(start) && main == old(main) && stopping && cancelled
        invariant By(log, ServeLoop) == By(old(log), ServeLoop)
        decreases left
      {
        Others(ServeLoop, start);
        left := left - 1;
      }
      none := handlers == map[];
    }

    // <-engineDone.
    method AwaitLoop(patience: nat, ghost start: State) returns (done: bool)
      requires Ran(start) && stopping && cancelled
      modifies this
      ensures Ran(start) && main == old(main) && stopping && cancelled && done == EngineDone(St())
      ensures By(log, ServeLoop) == By(old(log), ServeLoop)
    {
      hide IsRun, After, Step, Enabled, By;
      var left := patience;
      Others(ServeLoop, start);
      while !EngineDone(St()) && left > 0
        invariant Ran(start) && main == old(main) && stopping && cancelled
        invariant By(log, ServeLoop) == By(old(log), ServeLoop)
        decreases left
      {
        Others(ServeLoop, start);
        left := left - 1;
      }
      done := EngineDone(St());
    }

    // Server.Serve from its select on, and the deferred calls of app.Serve in their order.
    // Not released: still waiting for handlers or for the execution loop.
    method StopServing(patience: nat, ghost start: State) returns (released: bool)
      requires Ran(start) && main == Serving
      modifies this
      ensures Ran(start) && stopping && cancelled && (released ==> main == Released)
      ensures released && Inv(start) ==> !Writing(St()) && !storeOpen && !owned
      ensures released ==> By(log, ServeLoop) == By(old(log), ServeLoop) + CLOSING_STEPS
    {
      hide IsRun, After, Step, Enabled, Inv, By;
      released := JoinAll(patience, start);
      if !released { return; }
      CloseAll(start);
      if Inv(start) { ReleasedIsQuiet(start, log); }
    }

    method JoinAll(patience: nat, ghost start: State) returns (joined: bool)
      requires Ran(start) && main == Serving
      modifies this
      ensures Ran(start) && stopping && cancelled && (joined ==> main == Joined)
      ensures joined ==> By(log, ServeLoop) == By(old(log), ServeLoop) + CLOSING_STEPS[..4]
    {
      hide IsRun, After, By, Step, Enabled;
      AnnounceStop(start);
      joined := AwaitHandlers(patience, start);
      if !joined { return; }
      StopMoves(St());
      Take(JoinHandlers, start);
      joined := AwaitLoop(patience, start);
      if !joined { return; }
      StopMoves(St());
      Take(JoinEngine, start);
      assert CLOSING_STEPS[..4] == [BeginStop, RequestStop] + [JoinHandlers] + [JoinEngine];
    }

    method AnnounceStop(ghost start: State)
      requires Ran(start) && main == Serving
      modifies this
      ensures Ran(start) && stopping && cancelled && main == Cancelled
      ensures By(log, ServeLoop) == By(old(log), ServeLoop) + [BeginStop, RequestStop]
    {
      hide IsRun, After, By, Step, Enabled;
      Others(ServeLoop, start);
      StopMoves(St());
      Take(BeginStop, start);
      Others(ServeLoop, start);
      StopMoves(St());
      Take(RequestStop, start);
      assert [BeginStop, RequestStop] == [BeginStop] + [RequestStop];
    }

    method CloseAll(ghost start: State)
      requires Ran(start) && main == Joined && stopping && cancelled
      modifies this
      ensures Ran(start) && main == Released && stopping && cancelled
      ensures By(log, ServeLoop) == By(old(log), ServeLoop) + CLOSING_STEPS[4..]
    {
      hide IsRun, After, By, Step, Enabled;
      Others(ServeLoop, start);
      StopMoves(St());
      Take(CloseServer, start);
      Others(ServeLoop, start);
      StopMoves(St());
      Take(CloseStore, start);
      Others(ServeLoop, start);
      StopMoves(St());
      Take(ReleaseOwnership, start);
      assert CLOSING_STEPS[4..] == [CloseServer] + [CloseStore] + [ReleaseOwnership];
    }
  }

  lemma ReleasedIsQuiet(start: State, run: seq<Event>)
    requires Inv(start) && IsRun(start, run) && After(start, run).main == Released
    ensures var s := After(start, run); !Writing(s) && !s.storeOpen && !s.owned
  {
    RunKeepsInv(start, run);
  }
}
