// The daemon's shutdown: request admission, the project execution slot, the
// drain of the execution loop, and the order in which the store is closed and
// project ownership is released. Every step below is one section of the source
// that runs under a mutex, or one blocking operation at the moment it returns;
// any interleaving of the steps of any number of request handlers, the
// execution loop and the serving goroutine is a run.

module Shutdown {
  import opened Ordering

  // Where an admitted request handler stands in TryProjectExecution.
  datatype Handler =
    | Admitted        // past dispatch, outside the slot
    | Checked         // saw that the engine was not stopping
    | Locked          // took the slot with TryLock
    | Rechecked       // saw again, holding the slot, that it was not stopping
    | Running         // executing the probe
    | AwaitingEngine  // blocked until the execution loop has finished

  // Where the goroutine of Engine.Run stands.
  datatype Engine =
    | Absent          // no execution configuration
    | Looping
    | Queued          // RunGoal before the slot is acquired
    | RunningGoal
    | Leaving         // saw ctx.Done
    | Draining        // set the engine's stopping flag
    | Drained         // acquired the slot in drainExecutions
    | Finished

  // Where the goroutine of app.Serve stands.
  datatype Main =
    | Serving
    | Stopping        // set the server's stopping flag
    | Cancelled       // called RequestStop
    | Served          // requests.Wait returned
    | Joined          // <-engineDone returned
    | ServerClosed
    | StoreClosed
    | Released

  datatype Owner = Free | HeldByEngine | HeldBy(id: nat)

  datatype State = State(
    stopping: bool,
    handlers: map<nat, Handler>,
    serial: Owner,
    cancelled: bool,
    engineStopping: bool,
    engine: Engine,
    main: Main,
    storeOpen: bool,
    owned: bool
  )

  datatype Event =
    // the outside world
    | CancelRuntime
    | Dispatch(id: nat)
    // a request handler
    | RequestStopFrom(id: nat)
    | TryProbe(id: nat)
    | TryLock(id: nat)
    | Recheck(id: nat)
    | Enter(id: nat, available: bool)
    | FinishProbe(id: nat)
    | AwaitEngine(id: nat)
    | Resume(id: nat)
    | Respond(id: nat)
    // the execution loop
    | TakeGoal
    | AcquireSlot
    | FinishGoal
    | LeaveLoop
    | SetEngineStopping
    | DrainLock
    | DrainUnlock
    // the serving goroutine
    | BeginStop
    | RequestStop
    | JoinHandlers
    | JoinEngine
    | CloseServer
    | CloseStore
    | ReleaseOwnership

  function Start(executable: bool): State {
    State(false, map[], Free, false, false, if executable then Looping else Absent, Serving, true, true)
  }

  predicate EngineDone(s: State) {
    s.engine == Absent || s.engine == Finished
  }

  predicate At(s: State, id: nat, pc: Handler) {
    id in s.handlers && s.handlers[id] == pc
  }

  predicate Enabled(s: State, e: Event) {
    match e
    case CancelRuntime => true
    case Dispatch(id) => id !in s.handlers
    case RequestStopFrom(id) => At(s, id, Admitted)
    case TryProbe(id) => At(s, id, Admitted)
    case TryLock(id) => At(s, id, Checked)
    case Recheck(id) => At(s, id, Locked)
    case Enter(id, _) => At(s, id, Rechecked)
    case FinishProbe(id) => At(s, id, Running)
    case AwaitEngine(id) => At(s, id, Admitted)
    case Resume(id) => At(s, id, AwaitingEngine) && EngineDone(s)
    case Respond(id) => At(s, id, Admitted)
    case TakeGoal => s.engine == Looping
    case AcquireSlot => s.engine == Queued && s.serial == Free
    case FinishGoal => s.engine == RunningGoal
    case LeaveLoop => s.engine == Looping && s.cancelled
    case SetEngineStopping => s.engine == Leaving
    case DrainLock => s.engine == Draining && s.serial == Free
    case DrainUnlock => s.engine == Drained
    case BeginStop => s.main == Serving
    case RequestStop => s.main == Stopping
    case JoinHandlers => s.main == Cancelled && s.handlers == map[]
    case JoinEngine => s.main == Served && EngineDone(s)
    case CloseServer => s.main == Joined
    case CloseStore => s.main == ServerClosed
    case ReleaseOwnership => s.main == StoreClosed
  }

  function Move(s: State, id: nat, pc: Handler): State {
    s.(handlers := s.handlers[id := pc])
  }

  // Leaves the slot: the deferred serial.Unlock of TryProjectExecution.
  function Leave(s: State, id: nat): State {
    Move(s, id, Admitted).(serial := Free)
  }

  function Step(s: State, e: Event): State
    requires Enabled(s, e)
  {
    match e
    case CancelRuntime => s.(cancelled := true)
    case Dispatch(id) => if s.stopping then s else Move(s, id, Admitted)
    case RequestStopFrom(id) => s.(cancelled := true)
    case TryProbe(id) =>
      if s.engine == Absent || s.engineStopping || s.cancelled then s else Move(s, id, Checked)
    case TryLock(id) =>
      if s.serial != Free then Move(s, id, Admitted) else Move(s, id, Locked).(serial := HeldBy(id))
    case Recheck(id) => if s.engineStopping then Leave(s, id) else Move(s, id, Rechecked)
    case Enter(id, available) =>
      if s.cancelled || !available then Leave(s, id) else Move(s, id, Running)
    case FinishProbe(id) => Leave(s, id)
    case AwaitEngine(id) => Move(s, id, AwaitingEngine)
    case Resume(id) => Move(s, id, Admitted)
    case Respond(id) => s.(handlers := s.handlers - {id})
    case TakeGoal => s.(engine := Queued)
    case AcquireSlot => s.(engine := RunningGoal, serial := HeldByEngine)
    case FinishGoal => s.(engine := Looping, serial := Free)
    case LeaveLoop => s.(engine := Leaving)
    case SetEngineStopping => s.(engine := Draining, engineStopping := true)
    case DrainLock => s.(engine := Drained, serial := HeldByEngine)
    case DrainUnlock => s.(engine := Finished, serial := Free)
    case BeginStop => s.(main := Stopping, stopping := true)
    case RequestStop => s.(main := Cancelled, cancelled := true)
    case JoinHandlers => s.(main := Served)
    case JoinEngine => s.(main := Joined)
    case CloseServer => s.(main := ServerClosed, stopping := true)
    case CloseStore => s.(main := StoreClosed, storeOpen := false)
    case ReleaseOwnership => s.(main := Released, owned := false)
  }

  // A run: every event is enabled where it happens.
  predicate IsRun(s: State, run: seq<Event>)
    decreases |run|
  {
    run == [] || (Enabled(s, run[0]) && IsRun(Step(s, run[0]), run[1..]))
  }

  function After(s: State, run: seq<Event>): State
    requires IsRun(s, run)
    decreases |run|
  {
    if run == [] then s else After(Step(s, run[0]), run[1..])
  }

  // ---- What every interleaving keeps ----

  predicate HoldsSlot(pc: Handler) {
    pc == Locked || pc == Rechecked || pc == Running
  }

  predicate SlotAt(s: State, id: nat) {
    id in s.handlers ==> (HoldsSlot(s.handlers[id]) <==> s.serial == HeldBy(id))
  }

  predicate OwnerInv(s: State) {
    && (s.serial.HeldBy? ==> s.serial.id in s.handlers && HoldsSlot(s.handlers[s.serial.id]))
    && (s.serial == HeldByEngine <==> s.engine == RunningGoal || s.engine == Drained)
  }

  ghost predicate SlotInv(s: State) {
    (forall id :: SlotAt(s, id)) && OwnerInv(s)
  }

  predicate StopInv(s: State) {
    && (s.engineStopping <==> s.engine in {Draining, Drained, Finished})
    && (s.engine in {Leaving, Draining, Drained, Finished} ==> s.cancelled)
  }

  predicate UnusedAt(s: State, id: nat) {
    s.engine == Absent && id in s.handlers ==> s.handlers[id] == Admitted || s.handlers[id] == AwaitingEngine
  }

  predicate DrainedAt(s: State, id: nat) {
    s.engine == Finished && id in s.handlers ==> s.handlers[id] != Rechecked && s.handlers[id] != Running
  }

  predicate QuietAt(s: State, id: nat) {
    UnusedAt(s, id) && DrainedAt(s, id)
  }

  ghost predicate DrainInv(s: State) {
    (forall id :: QuietAt(s, id)) && StopInv(s)
  }

  predicate OrderInv(s: State) {
    && (s.main != Serving ==> s.stopping)
    && (s.main != Serving && s.main != Stopping ==> s.cancelled)
    && (s.main in {Served, Joined, ServerClosed, StoreClosed, Released} ==> s.handlers == map[])
    && (s.main in {Joined, ServerClosed, StoreClosed, Released} ==> EngineDone(s))
    && (s.storeOpen <==> s.main !in {StoreClosed, Released})
    && (s.owned <==> s.main != Released)
  }

  ghost predicate Inv(s: State) {
    SlotInv(s) && DrainInv(s) && OrderInv(s)
  }

  lemma StartInv(executable: bool)
    ensures Inv(Start(executable))
  {
  }

  lemma StepKeepsInv(s: State, e: Event)
    requires Inv(s) && Enabled(s, e)
    ensures Inv(Step(s, e))
  {
    SlotKept(s, e);
    DrainKept(s, e);
    OrderKept(s, e);
  }

  lemma SlotKept(s: State, e: Event)
    requires SlotInv(s) && Enabled(s, e)
    ensures SlotInv(Step(s, e))
  {
    hide SlotAt, Enabled, Step;
    assert Mover(e).Some? ==> SlotAt(s, Mover(e).value);
    OwnerKept(s, e);
    forall id
      ensures SlotAt(Step(s, e), id)
    {
      SlotKeptAt(s, e, id);
    }
  }

  // The handler an event moves, if any.
  function Mover(e: Event): Option<nat> {
    match e
    case RequestStopFrom(id) => Some(id)
    case TryProbe(id) => Some(id)
    case TryLock(id) => Some(id)
    case Recheck(id) => Some(id)
    case Enter(id, _) => Some(id)
    case FinishProbe(id) => Some(id)
    case AwaitEngine(id) => Some(id)
    case Resume(id) => Some(id)
    case Respond(id) => Some(id)
    case _ => None
  }

  lemma SlotKeptAt(s: State, e: Event, id: nat)
    requires SlotAt(s, id) && OwnerInv(s) && Enabled(s, e)
    requires Mover(e).Some? ==> SlotAt(s, Mover(e).value)
    ensures SlotAt(Step(s, e), id)
  {
  }

  lemma OwnerKept(s: State, e: Event)
    requires OwnerInv(s) && Enabled(s, e)
    requires Mover(e).Some? ==> SlotAt(s, Mover(e).value)
    ensures OwnerInv(Step(s, e))
  {
  }

  lemma DrainKept(s: State, e: Event)
    requires SlotInv(s) && DrainInv(s) && Enabled(s, e)
    ensures DrainInv(Step(s, e))
  {
    StopKept(s, e);
    hide Enabled, Step;
    forall id
      ensures QuietAt(Step(s, e), id)
    {
      hide SlotAt, QuietAt;
      assert SlotAt(s, id) && QuietAt(s, id);
      QuietKeptAt(s, e, id);
    }
  }

  lemma StopKept(s: State, e: Event)
    requires StopInv(s) && Enabled(s, e)
    ensures StopInv(Step(s, e))
  {
  }

  lemma QuietKeptAt(s: State, e: Event, id: nat)
    requires SlotAt(s, id) && QuietAt(s, id) && OwnerInv(s) && StopInv(s) && Enabled(s, e)
    ensures QuietAt(Step(s, e), id)
  {
    UnusedKeptAt(s, e, id);
    DrainedKeptAt(s, e, id);
  }

  lemma UnusedKeptAt(s: State, e: Event, id: nat)
    requires UnusedAt(s, id) && Enabled(s, e)
    ensures UnusedAt(Step(s, e), id)
  {
  }

  // The second look at the engine's stopping flag, made while holding the slot,
  // is what keeps a handler out that the drain has overtaken.
  lemma DrainedKeptAt(s: State, e: Event, id: nat)
    requires SlotAt(s, id) && DrainedAt(s, id) && OwnerInv(s) && StopInv(s) && Enabled(s, e)
    ensures DrainedAt(Step(s, e), id)
  {
  }

  lemma OrderKept(s: State, e: Event)
    requires OrderInv(s) && Enabled(s, e)
    ensures OrderInv(Step(s, e))
  {
  }

  lemma {:induction false} RunKeepsInv(s: State, run: seq<Event>)
    requires Inv(s) && IsRun(s, run)
    ensures Inv(After(s, run))
    decreases |run|
  {
    if run != [] {
      StepKeepsInv(s, run[0]);
      RunKeepsInv(Step(s, run[0]), run[1..]);
    }
  }

  // Something that may still write project state: an admitted handler or the execution loop.
  predicate Writing(s: State) {
    s.handlers != map[] || !EngineDone(s)
  }

  // A provider invocation: a probe or a Goal run.
  predicate Executing(s: State, who: Owner) {
    match who
    case Free => false
    case HeldByEngine => s.engine == RunningGoal
    case HeldBy(id) => At(s, id, Running)
  }

  // Over every run from either start: whoever may write has an open store and
  // an owned project, the store is closed before ownership is released, and
  // there is never more than one execution in the project.
  lemma ShutdownSafety(executable: bool, run: seq<Event>, a: Owner, b: Owner)
    requires IsRun(Start(executable), run)
    ensures var s := After(Start(executable), run);
      && (Writing(s) ==> s.storeOpen && s.owned)
      && (s.storeOpen ==> s.owned)
      && (Executing(s, a) && Executing(s, b) ==> a == b)
  {
    StartInv(executable);
    RunKeepsInv(Start(executable), run);
    var s := After(Start(executable), run);
    assert a.HeldBy? ==> SlotAt(s, a.id);
    assert b.HeldBy? ==> SlotAt(s, b.id);
  }

  // Once stopping is set no handler is admitted, so the set of handlers that
  // requests.Wait joins can only shrink.
  lemma {:induction false} StoppedAdmitsNobody(s: State, run: seq<Event>)
    requires s.stopping && IsRun(s, run)
    ensures After(s, run).stopping && After(s, run).handlers.Keys <= s.handlers.Keys
    decreases |run|
  {
    if run != [] {
      StoppedStepAdmitsNobody(s, run[0]);
      StoppedAdmitsNobody(Step(s, run[0]), run[1..]);
    }
  }

  lemma StoppedStepAdmitsNobody(s: State, e: Event)
    requires s.stopping && Enabled(s, e)
    ensures Step(s, e).stopping && Step(s, e).handlers.Keys <= s.handlers.Keys
  {
    forall id | id in Step(s, e).handlers.Keys
      ensures id in s.handlers.Keys
    {
    }
  }

  // After drainExecutions has returned, no probe and no Goal run is active or
  // ever becomes active, whatever the handlers that are still alive do.
  lemma {:induction false} DrainedForever(s: State, run: seq<Event>, who: Owner)
    requires Inv(s) && s.engine == Finished && IsRun(s, run)
    ensures After(s, run).engine == Finished && !Executing(After(s, run), who)
    decreases |run|
  {
    if run != [] {
      StepKeepsInv(s, run[0]);
      DrainedForever(Step(s, run[0]), run[1..], who);
    } else if who.HeldBy? {
      assert QuietAt(s, who.id);
    }
  }

  // Closing the store is final: from then on nobody may write.
  lemma {:induction false} NoWriterAfterClose(s: State, run: seq<Event>)
    requires Inv(s) && !s.storeOpen && IsRun(s, run)
    ensures !After(s, run).storeOpen && !Writing(After(s, run))
    decreases |run|
  {
    if run != [] {
      StepKeepsInv(s, run[0]);
      NoWriterAfterClose(Step(s, run[0]), run[1..]);
    }
  }

  // ---- Shutdown completes ----

  // Steps that happen without help from outside: no new work is started, and a
  // probe or a Goal run is only relied upon to end once its context is cancelled.
  predicate Unaided(s: State, e: Event) {
    match e
    case CancelRuntime | Dispatch(_) | RequestStopFrom(_) | TryProbe(_) | AwaitEngine(_) | TakeGoal | BeginStop => false
    case FinishProbe(_) | FinishGoal => s.cancelled
    case _ => true
  }

  predicate IsUnaided(s: State, run: seq<Event>)
    requires IsRun(s, run)
    decreases |run|
  {
    run == [] || (Unaided(s, run[0]) && IsUnaided(Step(s, run[0]), run[1..]))
  }

  function Pending(s: State): set<nat> {
    set id | id in s.handlers && s.handlers[id] in {Checked, AwaitingEngine}
  }

  function SlotRank(s: State): nat {
    if !(s.serial.HeldBy? && s.serial.id in s.handlers) then 0
    else
      match s.handlers[s.serial.id]
      case Locked => 3
      case Rechecked => 2
      case Running => 1
      case _ => 0
  }

  function EngineRank(s: State): nat {
    match s.engine
    case Queued => 6
    case RunningGoal => 5
    case Looping => 4
    case Leaving => 3
    case Draining => 2
    case Drained => 1
    case _ => 0
  }

  function MainRank(s: State): nat {
    match s.main
    case Serving => 7
    case Stopping => 6
    case Cancelled => 5
    case Served => 4
    case Joined => 3
    case ServerClosed => 2
    case StoreClosed => 1
    case Released => 0
  }

  function HolderEvent(s: State): Event
    requires s.serial.HeldBy? && s.serial.id in s.handlers
  {
    match s.handlers[s.serial.id]
    case Locked => Recheck(s.serial.id)
    case Rechecked => Enter(s.serial.id, true)
    case _ => FinishProbe(s.serial.id)
  }

  function EngineEvent(s: State): Event {
    match s.engine
    case Queued => AcquireSlot
    case RunningGoal => FinishGoal
    case Looping => LeaveLoop
    case Leaving => SetEngineStopping
    case Draining => DrainLock
    case _ => DrainUnlock
  }

  function HandlerEvent(s: State, id: nat): Event
    requires id in s.handlers
  {
    match s.handlers[id]
    case Checked => TryLock(id)
    case AwaitingEngine => Resume(id)
    case _ => Respond(id)
  }

  function MainEvent(s: State): Event {
    match s.main
    case Stopping => RequestStop
    case Cancelled => JoinHandlers
    case Served => JoinEngine
    case Joined => CloseServer
    case ServerClosed => CloseStore
    case _ => ReleaseOwnership
  }

  // No interleaving can deadlock the shutdown: wherever it stands, some step is
  // enabled that needs no help, and taking such steps ends with the project
  // released. RequestStop before requests.Wait is what frees a handler that
  // waits for the execution loop; the slot is never held across a wait.
  lemma {:induction false} ShutdownCompletes(s: State) returns (run: seq<Event>)
    requires Inv(s) && s.main != Serving
    ensures IsRun(s, run) && IsUnaided(s, run)
    ensures After(s, run).main == Released
    decreases MainRank(s), |s.handlers|, |Pending(s)|, SlotRank(s), EngineRank(s)
  {
    if s.main == Released {
      run := [];
    } else {
      var e := NextUnaided(s);
      StepKeepsInv(s, e);
      var rest := ShutdownCompletes(Step(s, e));
      run := [e] + rest;
      assert run[1..] == rest;
    }
  }

  lemma NextUnaided(s: State) returns (e: Event)
    requires Inv(s) && s.main != Serving && s.main != Released
    ensures Enabled(s, e) && Unaided(s, e)
    ensures var t := Step(s, e);
      && t.main != Serving
      && (MainRank(t) < MainRank(s)
          || (t.main == s.main
              && (|t.handlers| < |s.handlers|
                  || (|t.handlers| == |s.handlers|
                      && (|Pending(t)| < |Pending(s)|
                          || (Pending(t) == Pending(s)
                              && (SlotRank(t) < SlotRank(s)
                                  || (SlotRank(t) == SlotRank(s) && EngineRank(t) < EngineRank(s)))))))))
  {
    hide HolderEvent, EngineEvent, HandlerEvent, SlotAt, DrainInv;
    if s.main == Stopping {
      e := RequestStop;
    } else if s.serial.HeldBy? {
      e := HolderEvent(s);
      HolderProgress(s);
    } else if !EngineDone(s) {
      e := EngineEvent(s);
      EngineProgress(s);
    } else if s.handlers != map[] {
      var id :| id in s.handlers;
      e := HandlerEvent(s, id);
      HandlerProgress(s, id);
    } else {
      e := MainEvent(s);
    }
  }

  lemma HolderProgress(s: State)
    requires Inv(s) && s.cancelled && s.serial.HeldBy?
    ensures var e := HolderEvent(s);
      && Enabled(s, e) && Unaided(s, e)
      && Step(s, e).main == s.main
      && |Step(s, e).handlers| == |s.handlers|
      && Pending(Step(s, e)) == Pending(s)
      && SlotRank(Step(s, e)) < SlotRank(s)
  {
    assert SlotAt(s, s.serial.id);
    var t := Step(s, HolderEvent(s));
    assert t.handlers.Keys == s.handlers.Keys;
    assert |t.handlers| == |t.handlers.Keys|;
  }

  lemma EngineProgress(s: State)
    requires Inv(s) && s.cancelled && !s.serial.HeldBy? && !EngineDone(s)
    ensures var e := EngineEvent(s);
      && Enabled(s, e) && Unaided(s, e)
      && Step(s, e).main == s.main
      && Step(s, e).handlers == s.handlers
      && SlotRank(Step(s, e)) == SlotRank(s)
      && EngineRank(Step(s, e)) < EngineRank(s)
  {
  }

  lemma HandlerProgress(s: State, id: nat)
    requires Inv(s) && s.serial == Free && EngineDone(s) && id in s.handlers
    ensures var e := HandlerEvent(s, id);
      && Enabled(s, e) && Unaided(s, e) && Step(s, e).main == s.main
      && (|Step(s, e).handlers| < |s.handlers|
          || (|Step(s, e).handlers| == |s.handlers| && |Pending(Step(s, e))| < |Pending(s)|))
  {
    assert SlotAt(s, id);
    var t := Step(s, HandlerEvent(s, id));
    assert |s.handlers| == |s.handlers.Keys| && |t.handlers| == |t.handlers.Keys|;
    if s.handlers[id] == Admitted {
      assert t.handlers.Keys == s.handlers.Keys - {id};
    } else {
      assert t.handlers.Keys == s.handlers.Keys;
      assert Pending(t) == Pending(s) - {id};
    }
  }

  // ---- Who may execute ----

  // A handler gets one place further only through its own section, and only if what it looks at allows it.
  lemma CheckedEarned(s: State, e: Event, id: nat)
    requires Enabled(s, e)
    ensures var t := Step(s, e);
      At(t, id, Checked) && !At(s, id, Checked) ==>
        e == TryProbe(id) && At(s, id, Admitted) && s.engine != Absent && !s.engineStopping && !s.cancelled
  {
  }

  lemma LockedEarned(s: State, e: Event, id: nat)
    requires Enabled(s, e)
    ensures var t := Step(s, e);
      At(t, id, Locked) && !At(s, id, Locked) ==> e == TryLock(id) && At(s, id, Checked) && s.serial == Free
  {
  }

  lemma RecheckedEarned(s: State, e: Event, id: nat)
    requires Enabled(s, e)
    ensures var t := Step(s, e);
      At(t, id, Rechecked) && !At(s, id, Rechecked) ==> e == Recheck(id) && At(s, id, Locked) && !s.engineStopping
  {
  }

  lemma RunningEarned(s: State, e: Event, id: nat)
    requires Enabled(s, e)
    ensures var t := Step(s, e);
      At(t, id, Running) && !At(s, id, Running) ==> e == Enter(id, true) && At(s, id, Rechecked) && !s.cancelled
  {
  }

  lemma AdmissionEarned(s: State, e: Event, id: nat)
    requires Enabled(s, e)
    ensures var t := Step(s, e);
      (id in t.handlers && id !in s.handlers ==> e == Dispatch(id) && !s.stopping && At(t, id, Admitted)) &&
      (id in s.handlers && id !in t.handlers ==> e == Respond(id) && At(s, id, Admitted))
  {
  }

  lemma ResumptionEarned(s: State, e: Event, id: nat)
    requires Enabled(s, e)
    ensures var t := Step(s, e);
      (At(s, id, AwaitingEngine) && !At(t, id, AwaitingEngine) ==> e == Resume(id) && EngineDone(s) && At(t, id, Admitted)) &&
      (At(t, id, AwaitingEngine) && !At(s, id, AwaitingEngine) ==> e == AwaitEngine(id) && At(s, id, Admitted))
  {
  }

  // Conversely, what allows it leads there.
  lemma PlacesAreReached(s: State, id: nat)
    ensures At(s, id, Admitted) && s.engine != Absent && !s.engineStopping && !s.cancelled ==> At(Step(s, TryProbe(id)), id, Checked)
    ensures At(s, id, Checked) && s.serial == Free ==> At(Step(s, TryLock(id)), id, Locked) && Step(s, TryLock(id)).serial == HeldBy(id)
    ensures At(s, id, Locked) && !s.engineStopping ==> At(Step(s, Recheck(id)), id, Rechecked)
    ensures At(s, id, Rechecked) && !s.cancelled ==> At(Step(s, Enter(id, true)), id, Running)
    ensures id !in s.handlers && !s.stopping ==> At(Step(s, Dispatch(id)), id, Admitted)
  {
  }

  // The state before the i-th step of a run.
  function StateAt(s: State, run: seq<Event>, i: nat): State
    requires IsRun(s, run) && i <= |run|
    decreases i
  {
    if i == 0 then s else StateAt(Step(s, run[0]), run[1..], i - 1)
  }

  lemma {:induction false} StateAtNext(s: State, run: seq<Event>, i: nat)
    requires IsRun(s, run) && i < |run|
    ensures Enabled(StateAt(s, run, i), run[i]) && StateAt(s, run, i + 1) == Step(StateAt(s, run, i), run[i])
    decreases i
  {
    hide Enabled, Step;
    if i > 0 { StateAtNext(Step(s, run[0]), run[1..], i - 1); }
  }

  lemma {:induction false} StateAtEnd(s: State, run: seq<Event>)
    requires IsRun(s, run)
    ensures StateAt(s, run, |run|) == After(s, run)
    decreases |run|
  {
    hide Enabled, Step;
    if run != [] { StateAtEnd(Step(s, run[0]), run[1..]); }
  }

  predicate LookedAt(s: State, run: seq<Event>, id: nat, a: nat)
    requires IsRun(s, run)
  {
    a < |run| && run[a] == TryProbe(id) &&
    StateAt(s, run, a).engine != Absent && !StateAt(s, run, a).engineStopping && !StateAt(s, run, a).cancelled
  }

  predicate TookSlot(s: State, run: seq<Event>, id: nat, b: nat)
    requires IsRun(s, run)
  {
    b < |run| && run[b] == TryLock(id) && StateAt(s, run, b).serial == Free
  }

  predicate LookedAgain(s: State, run: seq<Event>, id: nat, c: nat)
    requires IsRun(s, run)
  {
    c < |run| && run[c] == Recheck(id) && !StateAt(s, run, c).engineStopping
  }

  predicate Allowed(s: State, run: seq<Event>, id: nat, d: nat)
    requires IsRun(s, run)
  {
    d < |run| && run[d] == Enter(id, true) && !StateAt(s, run, d).cancelled
  }

  // Whoever executes at the end of a run has been allowed to in that run.
  lemma ExecutionAtEnd(s: State, run: seq<Event>, id: nat) returns (a: nat, b: nat, c: nat, d: nat)
    requires IsRun(s, run) && id !in s.handlers && At(After(s, run), id, Running)
    ensures a < b < c < d && LookedAt(s, run, id, a) && TookSlot(s, run, id, b) && LookedAgain(s, run, id, c) && Allowed(s, run, id, d)
  {
    StateAtEnd(s, run);
    a, b, c, d := ExecutionWasAllowed(s, run, id, |run|);
  }

  // In every run, a handler that holds the slot has looked at the flags, taken the free slot, looked again and,
  // if it is executing, was told that execution is available while nothing was cancelled, in this order.
  lemma {:induction false} ExecutionWasAllowed(s: State, run: seq<Event>, id: nat, n: nat) returns (a: nat, b: nat, c: nat, d: nat)
    requires IsRun(s, run) && n <= |run| && id !in s.handlers
    ensures var t := StateAt(s, run, n);
      && (At(t, id, Checked) ==> a < n && LookedAt(s, run, id, a))
      && (At(t, id, Locked) ==> a < b < n && LookedAt(s, run, id, a) && TookSlot(s, run, id, b))
      && (At(t, id, Rechecked) ==> a < b < c < n && LookedAt(s, run, id, a) && TookSlot(s, run, id, b) && LookedAgain(s, run, id, c))
      && (At(t, id, Running) ==>
            a < b < c < d < n && LookedAt(s, run, id, a) && TookSlot(s, run, id, b) && LookedAgain(s, run, id, c) && Allowed(s, run, id, d))
  {
    a, b, c, d := 0, 0, 0, 0;
    if n > 0 {
      a, b, c, d := ExecutionWasAllowed(s, run, id, n - 1);
      StateAtNext(s, run, n - 1);
      var t, e := StateAt(s, run, n - 1), run[n - 1];
      hide Step, Enabled, IsRun, After, StateAt;
      CheckedEarned(t, e, id);
      LockedEarned(t, e, id);
      RecheckedEarned(t, e, id);
      RunningEarned(t, e, id);
      if run[n - 1] == TryProbe(id) { a := n - 1; }
      else if run[n - 1] == TryLock(id) { b := n - 1; }
      else if run[n - 1] == Recheck(id) { c := n - 1; }
      else if run[n - 1] == Enter(id, true) { d := n - 1; }
    }
  }
}
