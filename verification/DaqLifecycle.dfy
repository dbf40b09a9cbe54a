/** The start, stop and reset handlers of the DAQ, racing with the DAQ threads they create. */
module DaqLifecycle {
  import opened Wrappers

  datatype Owner = Free | Dispatcher | Daq(thread: nat)
  datatype Command = StartDaq | StopDaq | ResetDaq | Destroy

  /** Where the dispatcher is. `stopped` tells whether the destructor found the DAQ running. */
  datatype DispatcherPc =
    | Idle
    | StartLock | StartCheck | StartJoin | StartInitialize | StartMark | StartSpawn
    | StopLock | StopCheck | StopFlag | StopJoin | StopRelock | StopClear
    | ResetLock | ResetClear | ResetFlag | ResetJoin | ResetInitialize | ResetRelock | ResetMark | ResetSpawn
    | DestroyCheck | DestroyFlag | DestroyJoin | DestroyMembers(stopped: bool) | Gone(stopped: bool)

  /** Where a DAQ thread is: before run() clears the stop flag, polling the socket, before the final critical
      section, in it, behind it, and finished. */
  datatype ThreadPc = Fresh | Polling | Ending | Locked | Leaving | Done

  /** handle is the joinable std::thread, if there is one; crashed tells that std::terminate was called. */
  datatype State = State(
    daqRunning: bool, stopFlag: bool, mutex: Owner, handle: Option<nat>,
    dispatcher: DispatcherPc, threads: seq<ThreadPc>, crashed: bool)

  /** ok is the outcome of initialize() or of creating a thread. ThreadFails: run() returns on an error or throws.
      Signal: a signal handler sets the stop flag. */
  datatype Step = Accept(command: Command) | Dispatch(ok: bool) | ThreadStep(i: nat) | ThreadFails(i: nat) | Signal

  const INIT := State(false, false, Free, None, Idle, [], false)

  predicate Joins(pc: DispatcherPc) { pc.StartJoin? || pc.StopJoin? || pc.ResetJoin? || pc.DestroyJoin? }

  predicate WantsMutex(pc: DispatcherPc) {
    pc.StartLock? || pc.StopLock? || pc.StopRelock? || pc.ResetLock? || pc.ResetRelock?
  }

  predicate HoldsMutex(pc: DispatcherPc) {
    || pc.StartCheck? || pc.StartJoin? || pc.StartInitialize? || pc.StartMark? || pc.StartSpawn?
    || pc.StopCheck? || pc.StopClear? || pc.ResetClear? || pc.ResetMark? || pc.ResetSpawn?
  }

  predicate Enabled(s: State, step: Step) {
    !s.crashed &&
    match step
    case Accept(_) => s.dispatcher.Idle?
    case Dispatch(_) =>
      if s.dispatcher.Idle? || s.dispatcher.Gone? then false
      else if WantsMutex(s.dispatcher) then s.mutex == Free
      else if Joins(s.dispatcher) then s.handle.Some? && s.handle.value < |s.threads| && s.threads[s.handle.value].Done?
      else true
    case ThreadStep(i) =>
      i < |s.threads| && !s.threads[i].Done?
      && (s.threads[i].Polling? ==> s.stopFlag) && (s.threads[i].Ending? ==> s.mutex == Free)
    case ThreadFails(i) => i < |s.threads| && (s.threads[i].Fresh? || s.threads[i].Polling?)
    case Signal => true
  }

  /** Assigning to a joinable std::thread calls std::terminate. */
  function Spawn(s: State): State {
    s.(threads := s.threads + [Fresh], handle := Some(|s.threads|), crashed := s.crashed || s.handle.Some?,
       mutex := Free, dispatcher := Idle)
  }

  function DispatcherStep(s: State, ok: bool): State {
    match s.dispatcher
    case Idle => s
    case StartLock => s.(mutex := Dispatcher, dispatcher := StartCheck)
    case StartCheck =>
      if s.daqRunning then s.(mutex := Free, dispatcher := Idle)
      else s.(dispatcher := if s.handle.Some? then StartJoin else StartInitialize)
    case StartJoin => s.(handle := None, dispatcher := StartInitialize)
    case StartInitialize => if ok then s.(dispatcher := StartMark) else s.(mutex := Free, dispatcher := Idle)
    case StartMark => s.(daqRunning := true, dispatcher := StartSpawn)
    case StartSpawn => if ok then Spawn(s) else s.(mutex := Free, dispatcher := Idle)
    case StopLock => s.(mutex := Dispatcher, dispatcher := StopCheck)
    case StopCheck => s.(mutex := Free, dispatcher := if s.daqRunning then StopFlag else Idle)
    case StopFlag => s.(stopFlag := true, dispatcher := if s.handle.Some? then StopJoin else StopRelock)
    case StopJoin => s.(handle := None, dispatcher := StopRelock)
    case StopRelock => s.(mutex := Dispatcher, dispatcher := StopClear)
    case StopClear => s.(daqRunning := false, mutex := Free, dispatcher := Idle)
    case ResetLock => s.(mutex := Dispatcher, dispatcher := ResetClear)
    case ResetClear => s.(daqRunning := false, mutex := Free, dispatcher := ResetFlag)
    case ResetFlag => s.(stopFlag := true, dispatcher := if s.handle.Some? then ResetJoin else ResetInitialize)
    case ResetJoin => s.(handle := None, dispatcher := ResetInitialize)
    case ResetInitialize => s.(dispatcher := if ok then ResetRelock else Idle)
    case ResetRelock => s.(mutex := Dispatcher, dispatcher := ResetMark)
    case ResetMark => s.(daqRunning := true, dispatcher := ResetSpawn)
    case ResetSpawn => if ok then Spawn(s) else s.(mutex := Free, dispatcher := Idle)
    case DestroyCheck => s.(dispatcher := if s.daqRunning then DestroyFlag else DestroyMembers(false))
    case DestroyFlag => s.(stopFlag := true, dispatcher := if s.handle.Some? then DestroyJoin else DestroyMembers(true))
    case DestroyJoin => s.(handle := None, dispatcher := DestroyMembers(true))
    case DestroyMembers(stopped) => s.(crashed := s.handle.Some?, dispatcher := Gone(stopped))
    case Gone(_) => s
  }

  function DaqStep(s: State, i: nat): State
    requires i < |s.threads|
  {
    match s.threads[i]
    case Fresh => s.(stopFlag := false, threads := s.threads[i := Polling])
    case Polling => s.(threads := s.threads[i := Ending])
    case Ending => s.(mutex := Daq(i), threads := s.threads[i := Locked])
    case Locked => s.(daqRunning := false, mutex := Free, threads := s.threads[i := Leaving])
    case Leaving => s.(threads := s.threads[i := Done])
    case Done => s
  }

  function Apply(s: State, step: Step): State
    requires Enabled(s, step)
  {
    match step
    case Accept(command) =>
      s.(dispatcher := match command
                       case StartDaq => StartLock
                       case StopDaq => StopLock
                       case ResetDaq => ResetLock
                       case Destroy => DestroyCheck)
    case Dispatch(ok) => DispatcherStep(s, ok)
    case ThreadStep(i) => DaqStep(s, i)
    case ThreadFails(i) => s.(threads := s.threads[i := Ending])
    case Signal => s.(stopFlag := true)
  }

  predicate IsRun(s: State, steps: seq<Step>)
    decreases |steps|
  {
    steps == [] || (Enabled(s, steps[0]) && IsRun(Apply(s, steps[0]), steps[1..]))
  }

  function Follow(s: State, steps: seq<Step>): State
    requires IsRun(s, steps)
    decreases |steps|
  {
    if steps == [] then s else Follow(Apply(s, steps[0]), steps[1..])
  }

  ghost predicate Reachable(s: State) {
    exists steps :: IsRun(INIT, steps) && Follow(INIT, steps) == s
  }

  // ---------- The invariant ----------

  predicate NoThreadLeft(pc: DispatcherPc) {
    || pc.StartInitialize? || pc.StartMark? || pc.StartSpawn? || pc.StopRelock? || pc.StopClear?
    || pc.ResetInitialize? || pc.ResetRelock? || pc.ResetMark? || pc.ResetSpawn?
    || (pc.DestroyMembers? && pc.stopped) || (pc.Gone? && pc.stopped)
  }

  /** Between finding or switching the DAQ off and switching it on. */
  predicate FindsOff(pc: DispatcherPc) {
    || pc.StartJoin? || pc.StartInitialize? || pc.StartMark?
    || pc.ResetFlag? || pc.ResetJoin? || pc.ResetInitialize? || pc.ResetRelock? || pc.ResetMark?
  }

  /** Only the thread behind the handle may still be alive, and it holds the mutex exactly in its critical section. */
  predicate ThreadOk(s: State, i: nat)
    requires i < |s.threads|
  {
    (!s.threads[i].Done? ==> s.handle == Some(i)) && (s.threads[i].Locked? <==> s.mutex == Daq(i))
  }

  predicate PastCriticalSection(s: State)
    requires s.handle.Some? && s.handle.value < |s.threads|
  {
    var pc := s.threads[s.handle.value];
    pc.Leaving? || pc.Done?
  }

  ghost predicate Inv(s: State) {
    && (forall i :: 0 <= i < |s.threads| ==> ThreadOk(s, i))
    && (HoldsMutex(s.dispatcher) <==> s.mutex == Dispatcher)
    && (s.mutex.Daq? ==> s.mutex.thread < |s.threads|)
    && (s.handle.Some? ==> s.handle.value < |s.threads|)
    && (s.handle.Some? && !s.daqRunning ==>
          PastCriticalSection(s) || s.dispatcher.ResetFlag? || s.dispatcher.ResetJoin?)
    && (s.handle.Some? && PastCriticalSection(s) ==> !s.daqRunning)
    && (Joins(s.dispatcher) ==> s.handle.Some?)
    && (NoThreadLeft(s.dispatcher) ==> s.handle == None)
    && (FindsOff(s.dispatcher) ==> !s.daqRunning)
    && (s.dispatcher.StartSpawn? || s.dispatcher.ResetSpawn? ==> s.daqRunning)
    && (s.crashed <==> s.dispatcher.Gone? && s.handle.Some?)
  }

  lemma ThreadStepKeepsInv(s: State, i: nat, step: Step)
    requires Inv(s) && Enabled(s, step) && (step == ThreadStep(i) || step == ThreadFails(i))
    ensures Inv(Apply(s, step))
  {
    var t := Apply(s, step);
    assert ThreadOk(s, i);
    forall j | 0 <= j < |t.threads| ensures ThreadOk(t, j) { assert ThreadOk(s, j); }
  }

  predicate Starts(pc: DispatcherPc) {
    pc.StartLock? || pc.StartCheck? || pc.StartJoin? || pc.StartInitialize? || pc.StartMark? || pc.StartSpawn?
  }

  predicate Stops(pc: DispatcherPc) {
    pc.StopLock? || pc.StopCheck? || pc.StopFlag? || pc.StopJoin? || pc.StopRelock? || pc.StopClear?
  }

  predicate ResetsNew(pc: DispatcherPc) { pc.ResetInitialize? || pc.ResetRelock? || pc.ResetMark? || pc.ResetSpawn? }

  predicate Destroys(pc: DispatcherPc) {
    pc.Idle? || pc.DestroyCheck? || pc.DestroyFlag? || pc.DestroyJoin? || pc.DestroyMembers? || pc.Gone?
  }

  lemma StartKeepsInv(s: State, ok: bool)
    requires Inv(s) && Enabled(s, Dispatch(ok)) && Starts(s.dispatcher)
    ensures Inv(DispatcherStep(s, ok))
  {
    if s.dispatcher.StartMark? || s.dispatcher.StartSpawn? { StartNewKeepsInv(s, ok); }
    else { StartOldKeepsInv(s, ok); }
    hide Inv;
  }

  lemma StartOldKeepsInv(s: State, ok: bool)
    requires Inv(s) && Enabled(s, Dispatch(ok)) && Starts(s.dispatcher)
    requires !s.dispatcher.StartMark? && !s.dispatcher.StartSpawn?
    ensures Inv(DispatcherStep(s, ok))
  {
    var t := DispatcherStep(s, ok);
    forall j | 0 <= j < |t.threads| ensures ThreadOk(t, j) { assert ThreadOk(s, j); }
  }

  lemma StartNewKeepsInv(s: State, ok: bool)
    requires Inv(s) && Enabled(s, Dispatch(ok)) && (s.dispatcher.StartMark? || s.dispatcher.StartSpawn?)
    ensures Inv(DispatcherStep(s, ok))
  {
    var t := DispatcherStep(s, ok);
    forall j | 0 <= j < |t.threads| ensures ThreadOk(t, j) {
      if j < |s.threads| { assert ThreadOk(s, j); }
    }
  }

  lemma StopKeepsInv(s: State, ok: bool)
    requires Inv(s) && Enabled(s, Dispatch(ok)) && Stops(s.dispatcher)
    ensures Inv(DispatcherStep(s, ok))
  {
    if s.dispatcher.StopLock? || s.dispatcher.StopCheck? || s.dispatcher.StopFlag? { StopFlagKeepsInv(s, ok); }
    else { StopJoinKeepsInv(s, ok); }
    hide Inv;
  }

  lemma StopFlagKeepsInv(s: State, ok: bool)
    requires Inv(s) && Enabled(s, Dispatch(ok))
    requires s.dispatcher.StopLock? || s.dispatcher.StopCheck? || s.dispatcher.StopFlag?
    ensures Inv(DispatcherStep(s, ok))
  {
    var t := DispatcherStep(s, ok);
    forall j | 0 <= j < |t.threads| ensures ThreadOk(t, j) { assert ThreadOk(s, j); }
  }

  lemma StopJoinKeepsInv(s: State, ok: bool)
    requires Inv(s) && Enabled(s, Dispatch(ok))
    requires s.dispatcher.StopJoin? || s.dispatcher.StopRelock? || s.dispatcher.StopClear?
    ensures Inv(DispatcherStep(s, ok))
  {
    var t := DispatcherStep(s, ok);
    forall j | 0 <= j < |t.threads| ensures ThreadOk(t, j) { assert ThreadOk(s, j); }
  }

  lemma ResetClearKeepsInv(s: State, ok: bool)
    requires Inv(s) && Enabled(s, Dispatch(ok)) && (s.dispatcher.ResetLock? || s.dispatcher.ResetClear?)
    ensures Inv(DispatcherStep(s, ok))
  {
    var t := DispatcherStep(s, ok);
    forall j | 0 <= j < |t.threads| ensures ThreadOk(t, j) {
      assert ThreadOk(s, j);
    }
  }

  lemma ResetJoinKeepsInv(s: State, ok: bool)
    requires Inv(s) && Enabled(s, Dispatch(ok)) && (s.dispatcher.ResetFlag? || s.dispatcher.ResetJoin?)
    ensures Inv(DispatcherStep(s, ok))
  {
    var t := DispatcherStep(s, ok);
    forall j | 0 <= j < |t.threads| ensures ThreadOk(t, j) {
      assert ThreadOk(s, j);
    }
  }

  lemma ResetNewKeepsInv(s: State, ok: bool)
    requires Inv(s) && Enabled(s, Dispatch(ok)) && ResetsNew(s.dispatcher)
    ensures Inv(DispatcherStep(s, ok))
  {
    var t := DispatcherStep(s, ok);
    forall j | 0 <= j < |t.threads| ensures ThreadOk(t, j) {
      if j < |s.threads| { assert ThreadOk(s, j); }
    }
  }

  lemma DestroyKeepsInv(s: State, ok: bool)
    requires Inv(s) && Enabled(s, Dispatch(ok)) && Destroys(s.dispatcher) && !s.dispatcher.DestroyJoin?
    ensures Inv(DispatcherStep(s, ok))
  {
    var t := DispatcherStep(s, ok);
    forall j | 0 <= j < |t.threads| ensures ThreadOk(t, j) {
      assert ThreadOk(s, j);
    }
  }

  lemma DestroyJoinKeepsInv(s: State, ok: bool)
    requires Inv(s) && Enabled(s, Dispatch(ok)) && s.dispatcher.DestroyJoin?
    ensures Inv(DispatcherStep(s, ok))
  {
    var t := DispatcherStep(s, ok);
    forall j | 0 <= j < |t.threads| ensures ThreadOk(t, j) {
      assert ThreadOk(s, j);
    }
  }

  lemma StepKeepsInv(s: State, step: Step)
    requires Inv(s) && Enabled(s, step)
    ensures Inv(Apply(s, step))
  {
    match step
    case Dispatch(ok) =>
      if Starts(s.dispatcher) { StartKeepsInv(s, ok); }
      else if Stops(s.dispatcher) { StopKeepsInv(s, ok); }
      else if s.dispatcher.ResetLock? || s.dispatcher.ResetClear? { ResetClearKeepsInv(s, ok); }
      else if s.dispatcher.ResetFlag? || s.dispatcher.ResetJoin? { ResetJoinKeepsInv(s, ok); }
      else if ResetsNew(s.dispatcher) { ResetNewKeepsInv(s, ok); }
      else if s.dispatcher.DestroyJoin? { DestroyJoinKeepsInv(s, ok); }
      else { DestroyKeepsInv(s, ok); }
    case ThreadStep(i) => ThreadStepKeepsInv(s, i, step);
    case ThreadFails(i) => ThreadStepKeepsInv(s, i, step);
    case _ =>
      var t := Apply(s, step);
      forall j | 0 <= j < |t.threads| ensures ThreadOk(t, j) { assert ThreadOk(s, j); }
  }

  lemma {:induction false} RunKeepsInv(s: State, steps: seq<Step>)
    requires Inv(s) && IsRun(s, steps)
    ensures Inv(Follow(s, steps))
    decreases |steps|
  {
    if steps != [] {
      StepKeepsInv(s, steps[0]);
      RunKeepsInv(Apply(s, steps[0]), steps[1..]);
    }
  }

  lemma ReachableInv(s: State)
    requires Reachable(s)
    ensures Inv(s)
  {
    var steps :| IsRun(INIT, steps) && Follow(INIT, steps) == s;
    RunKeepsInv(INIT, steps);
  }
}
