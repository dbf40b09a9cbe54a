/** What holds in every reachable state of the DAQ, and of its handlers' runs. */
module DaqLifecycleTheorems {
  import opened Wrappers
  import opened DaqLifecycle

  // ---------- Safety ----------

  /** At most one DAQ thread is alive, it is the one behind the handle, and nothing but the destructor can meet a
      joinable thread: no handler overwrites one. */
  lemma OneLiveThread(s: State)
    requires Reachable(s)
    ensures forall i, j :: 0 <= i < j < |s.threads| ==> s.threads[i].Done? || s.threads[j].Done?
    ensures forall i :: 0 <= i < |s.threads| && !s.threads[i].Done? ==> s.handle == Some(i)
    ensures s.dispatcher.StartSpawn? || s.dispatcher.ResetSpawn? ==> s.handle == None
    ensures s.crashed ==> s.dispatcher.Gone?
  {
    ReachableInv(s);
    forall i | 0 <= i < |s.threads| && !s.threads[i].Done? ensures s.handle == Some(i) { assert ThreadOk(s, i); }
  }

  /** The DAQ manager is cleaned up and initialized only while no DAQ thread is alive to use it. */
  lemma InitializesAlone(s: State)
    requires Reachable(s) && (s.dispatcher.StartInitialize? || s.dispatcher.ResetInitialize?)
    ensures forall i :: 0 <= i < |s.threads| ==> s.threads[i].Done?
  {
    ReachableInv(s);
    forall i | 0 <= i < |s.threads| ensures s.threads[i].Done? { assert ThreadOk(s, i); }
  }

  /** When START joins while it holds the mutex, the thread has left its critical section for good, and the next
      step of that thread at the latest lets the join return. */
  lemma StartJoinsWithoutDeadlock(s: State)
    requires Reachable(s) && s.dispatcher.StartJoin?
    ensures s.mutex == Dispatcher && s.handle.Some? && s.handle.value < |s.threads|
    ensures var h := s.handle.value;
      Enabled(s, Dispatch(true)) || (Enabled(s, ThreadStep(h)) && Enabled(Apply(s, ThreadStep(h)), Dispatch(true)))
  {
    ReachableInv(s);
  }

  // ---------- Getting stuck ----------

  /** A step of the program itself, that needs no new command, no signal and no error. */
  ghost predicate CanMove(s: State) {
    Enabled(s, Dispatch(true)) || exists i: nat :: Enabled(s, ThreadStep(i))
  }

  /** The dispatcher waits for a thread that polls with the stop flag cleared. */
  predicate Hung(s: State) {
    && (s.dispatcher.StopJoin? || s.dispatcher.ResetJoin? || s.dispatcher.DestroyJoin?)
    && s.handle.Some? && s.handle.value < |s.threads| && s.threads[s.handle.value].Polling? && !s.stopFlag
  }

  /** In the middle of a command nothing can move exactly when the dispatcher joins a polling thread whose stop flag
      was cleared behind its back. */
  lemma StuckExactlyWhenHung(s: State)
    requires Reachable(s) && !s.dispatcher.Idle? && !s.dispatcher.Gone?
    ensures !CanMove(s) <==> Hung(s)
  {
    ReachableInv(s);
    assert forall i :: 0 <= i < |s.threads| ==> ThreadOk(s, i);
    if Hung(s) {
      forall i: nat ensures !Enabled(s, ThreadStep(i)) {
        if i < |s.threads| && i != s.handle.value { assert ThreadOk(s, i); }
      }
    } else if s.mutex.Daq? {
      assert ThreadOk(s, s.mutex.thread);
      assert Enabled(s, ThreadStep(s.mutex.thread));
    } else if !Enabled(s, Dispatch(true)) {
      MoverAtJoin(s);
    }
  }

  lemma MoverAtJoin(s: State)
    requires Inv(s) && !s.dispatcher.Idle? && !s.dispatcher.Gone? && !s.mutex.Daq? && !Hung(s)
    requires !Enabled(s, Dispatch(true))
    ensures Joins(s.dispatcher) && Enabled(s, ThreadStep(s.handle.value))
  {
    assert WantsMutex(s.dispatcher) ==> !HoldsMutex(s.dispatcher);
    assert Joins(s.dispatcher);
    assert s.dispatcher.StartJoin? ==> HoldsMutex(s.dispatcher);
    assert !s.dispatcher.StartJoin? ==> !HoldsMutex(s.dispatcher);
  }

  ghost predicate LeadsTo(steps: seq<Step>, s: State) { IsRun(INIT, steps) && Follow(INIT, steps) == s }

  lemma OneMore(steps: seq<Step>, s: State, step: Step, t: State) returns (longer: seq<Step>)
    requires LeadsTo(steps, s) && Enabled(s, step) && t == Apply(s, step)
    ensures LeadsTo(longer, t)
  {
    longer := steps + [step];
    Chain(INIT, steps, [step]);
  }

  lemma StartInitializes() returns (steps: seq<Step>)
    ensures LeadsTo(steps, INIT.(mutex := Dispatcher, dispatcher := StartInitialize))
  {
    hide LeadsTo;
    steps := Nothing();
    steps := OneMore(steps, INIT, Accept(StartDaq), INIT.(dispatcher := StartLock));
    var held := INIT.(mutex := Dispatcher);
    steps := OneMore(steps, INIT.(dispatcher := StartLock), Dispatch(true), held.(dispatcher := StartCheck));
    steps := OneMore(steps, held.(dispatcher := StartCheck), Dispatch(true), held.(dispatcher := StartInitialize));
  }

  lemma StartRuns() returns (steps: seq<Step>)
    ensures LeadsTo(steps, State(true, false, Free, Some(0), Idle, [Fresh], false))
  {
    steps := StartInitializes();
    hide LeadsTo;
    var held := INIT.(mutex := Dispatcher);
    steps := OneMore(steps, held.(dispatcher := StartInitialize), Dispatch(true), held.(dispatcher := StartMark));
    var marked := held.(dispatcher := StartSpawn, daqRunning := true);
    steps := OneMore(steps, held.(dispatcher := StartMark), Dispatch(true), marked);
    steps := OneMore(steps, marked, Dispatch(true), State(true, false, Free, Some(0), Idle, [Fresh], false));
  }

  lemma Nothing() returns (steps: seq<Step>)
    ensures LeadsTo(steps, INIT)
  {
    steps := [];
  }

  lemma StopFollowsStart() returns (steps: seq<Step>)
    ensures LeadsTo(steps, State(true, false, Free, Some(0), StopFlag, [Fresh], false))
  {
    steps := StartRuns();
    hide LeadsTo;
    var idle := State(true, false, Free, Some(0), Idle, [Fresh], false);
    var held := idle.(mutex := Dispatcher, dispatcher := StopCheck);
    steps := OneMore(steps, idle, Accept(StopDaq), idle.(dispatcher := StopLock));
    steps := OneMore(steps, idle.(dispatcher := StopLock), Dispatch(true), held);
    steps := OneMore(steps, held, Dispatch(true), idle.(dispatcher := StopFlag));
  }

  /** Such a state is reached by stopping the DAQ before its thread has begun to run: run() clears the flag that
      STOP has set. */
  lemma StopCanHang() returns (s: State)
    ensures Reachable(s) && Hung(s) && s.dispatcher.StopJoin?
  {
    var steps := StopFollowsStart();
    hide LeadsTo;
    var joining := State(true, true, Free, Some(0), StopJoin, [Fresh], false);
    steps := OneMore(steps, joining.(stopFlag := false, dispatcher := StopFlag), Dispatch(true), joining);
    s := joining.(stopFlag := false, threads := [Polling]);
    steps := OneMore(steps, joining, ThreadStep(0), s);
    Reached(steps, s);
  }

  lemma Reached(steps: seq<Step>, s: State)
    requires LeadsTo(steps, s)
    ensures Reachable(s)
  {
  }

  lemma {:induction false} Chain(s: State, a: seq<Step>, b: seq<Step>)
    requires IsRun(s, a) && IsRun(Follow(s, a), b)
    ensures IsRun(s, a + b) && Follow(s, a + b) == Follow(Follow(s, a), b)
    decreases |a|
  {
    if a == [] {
      assert a + b == b;
    } else {
      assert (a + b)[0] == a[0] && (a + b)[1..] == a[1..] + b;
      Chain(Apply(s, a[0]), a[1..], b);
    }
  }

  predicate NoDispatch(steps: seq<Step>) { forall i :: 0 <= i < |steps| ==> !steps[i].Dispatch? }

  /** The thread to be joined has cleared the flag already, and the flag is set. */
  predicate WillEnd(s: State) {
    && Joins(s.dispatcher) && s.handle.Some? && s.handle.value < |s.threads|
    && !s.threads[s.handle.value].Fresh? && (s.threads[s.handle.value].Polling? ==> s.stopFlag)
  }

  /** That is the only way to hang: once the thread has passed the clearing, every step up to the return of the join
      leaves it bound to end. */
  lemma JoinIsSafeOnceRunning(s: State, steps: seq<Step>)
    requires Reachable(s) && WillEnd(s) && IsRun(s, steps)
    requires NoDispatch(steps)
    ensures WillEnd(Follow(s, steps)) && !Hung(Follow(s, steps))
  {
    ReachableInv(s);
    WillEndIsKept(s, steps);
  }

  lemma {:induction false} WillEndIsKept(s: State, steps: seq<Step>)
    requires Inv(s) && WillEnd(s) && IsRun(s, steps)
    requires NoDispatch(steps)
    ensures WillEnd(Follow(s, steps))
    decreases |steps|
  {
    if steps != [] {
      var t := Apply(s, steps[0]);
      StepKeepsInv(s, steps[0]);
      assert WillEnd(t) by {
        if steps[0].ThreadStep? || steps[0].ThreadFails? { assert ThreadOk(s, steps[0].i); }
      }
      WillEndIsKept(t, steps[1..]);
    }
  }

  ghost predicate CanHang(s: State) {
    exists steps :: IsRun(s, steps) && NoDispatch(steps) && Hung(Follow(s, steps))
  }

  /** A join of STOP, RESET or the destructor can hang if and only if its thread has yet to clear the flag, or has done
      so after the flag was set. */
  lemma JoinHangsExactly(s: State)
    requires Reachable(s) && (s.dispatcher.StopJoin? || s.dispatcher.ResetJoin? || s.dispatcher.DestroyJoin?)
    ensures CanHang(s) <==> !WillEnd(s)
  {
    ReachableInv(s);
    if WillEnd(s) {
      forall steps | IsRun(s, steps) && NoDispatch(steps) ensures !Hung(Follow(s, steps)) {
        JoinIsSafeOnceRunning(s, steps);
      }
    } else {
      var clear := ThreadStep(s.handle.value);
      var steps := if Hung(s) then [] else [clear];
      if !Hung(s) { assert IsRun(Apply(s, clear), steps[1..]); }
      assert IsRun(s, steps) && NoDispatch(steps) && Hung(Follow(s, steps));
    }
  }

  // ---------- Which commands can hang ----------

  predicate NoCommand(steps: seq<Step>) { forall i :: 0 <= i < |steps| ==> !steps[i].Accept? }

  /** Some run that takes in no further command hangs. */
  ghost predicate MayHang(s: State) {
    exists steps :: IsRun(s, steps) && NoCommand(steps) && Hung(Follow(s, steps))
  }

  /** The thread behind the handle has yet to clear the stop flag. */
  predicate FreshThread(s: State) {
    s.handle.Some? && s.handle.value < |s.threads| && s.threads[s.handle.value].Fresh?
  }

  lemma MayHangEarlier(s: State, step: Step)
    requires Enabled(s, step) && !step.Accept? && MayHang(Apply(s, step))
    ensures MayHang(s)
  {
    var rest :| IsRun(Apply(s, step), rest) && NoCommand(rest) && Hung(Follow(Apply(s, step), rest));
    var steps := [step] + rest;
    assert steps[1..] == rest;
    assert IsRun(s, steps) && NoCommand(steps) && Hung(Follow(s, steps));
  }

  /** The thread clears the flag that was set for it. */
  lemma FreshThreadHangsJoin(s: State)
    requires Inv(s) && FreshThread(s)
    requires (s.dispatcher.StopJoin? || s.dispatcher.ResetJoin? || s.dispatcher.DestroyJoin?)
    ensures MayHang(s)
  {
    var clear := ThreadStep(s.handle.value);
    var t := Apply(s, clear);
    assert IsRun(t, []) && NoCommand([]) && Hung(Follow(t, []));
    MayHangEarlier(s, clear);
  }

  predicate SetsFlag(pc: DispatcherPc) { pc.StopFlag? || pc.ResetFlag? || pc.DestroyFlag? }

  lemma FreshThreadHangsFlag(s: State)
    requires Inv(s) && FreshThread(s) && SetsFlag(s.dispatcher)
    ensures MayHang(s)
  {
    StepKeepsInv(s, Dispatch(true));
    FreshThreadHangsJoin(Apply(s, Dispatch(true)));
    MayHangEarlier(s, Dispatch(true));
  }

  lemma FreshThreadHangsCheck(s: State)
    requires Inv(s) && FreshThread(s)
    requires (s.dispatcher.StopCheck? || s.dispatcher.ResetClear? || s.dispatcher.DestroyCheck?)
    ensures MayHang(s)
  {
    StepKeepsInv(s, Dispatch(true));
    FreshThreadHangsFlag(Apply(s, Dispatch(true)));
    MayHangEarlier(s, Dispatch(true));
  }

  lemma FreshThreadHangsLock(s: State)
    requires Inv(s) && FreshThread(s) && (s.dispatcher.StopLock? || s.dispatcher.ResetLock?)
    ensures MayHang(s)
  {
    assert s.mutex.Daq? ==> ThreadOk(s, s.mutex.thread);
    StepKeepsInv(s, Dispatch(true));
    FreshThreadHangsCheck(Apply(s, Dispatch(true)));
    MayHangEarlier(s, Dispatch(true));
  }

  predicate BeforeJoin(pc: DispatcherPc) {
    || pc.StopLock? || pc.StopCheck? || pc.ResetLock? || pc.ResetClear? || pc.DestroyCheck? || SetsFlag(pc)
  }

  /** Up to the join the thread is past the clearing, and at the join the flag is set besides. */
  predicate Cleared(s: State) {
    && (BeforeJoin(s.dispatcher) ==> !FreshThread(s))
    && (s.dispatcher.StopJoin? || s.dispatcher.ResetJoin? || s.dispatcher.DestroyJoin? ==> WillEnd(s))
  }

  ghost predicate StaysClear(s: State) { Inv(s) && Cleared(s) }

  lemma ThreadStaysClear(s: State, step: Step)
    requires Inv(s) && Cleared(s) && Enabled(s, step) && (step.ThreadStep? || step.ThreadFails?)
    ensures Cleared(Apply(s, step))
  {
    assert ThreadOk(s, step.i);
    hide Inv;
  }

  lemma DispatchStaysClear(s: State, ok: bool)
    requires Inv(s) && Cleared(s) && Enabled(s, Dispatch(ok))
    ensures Cleared(DispatcherStep(s, ok))
  {
    hide Inv;
    if BeforeJoin(s.dispatcher) { TowardsJoin(s, ok); } else { AwayFromJoin(s, ok); }
    hide DispatcherStep, FreshThread, WillEnd;
  }

  lemma TowardsJoin(s: State, ok: bool)
    requires Inv(s) && BeforeJoin(s.dispatcher) && Cleared(s)
    ensures Cleared(DispatcherStep(s, ok))
  {
  }

  predicate NearJoin(pc: DispatcherPc) { BeforeJoin(pc) || pc.StopJoin? || pc.ResetJoin? || pc.DestroyJoin? }

  lemma AwayFromJoin(s: State, ok: bool)
    requires !BeforeJoin(s.dispatcher)
    ensures !NearJoin(DispatcherStep(s, ok).dispatcher) || DispatcherStep(s, ok).dispatcher == s.dispatcher
  {
    if Starts(s.dispatcher) { StartStaysAway(s, ok); }
    else if Stops(s.dispatcher) { StopGoesAway(s, ok); }
    else if ResetsNew(s.dispatcher) { ResetStaysAway(s, ok); }
  }

  lemma StartStaysAway(s: State, ok: bool)
    requires Starts(s.dispatcher)
    ensures !NearJoin(DispatcherStep(s, ok).dispatcher)
  {
  }

  lemma StopGoesAway(s: State, ok: bool)
    requires s.dispatcher.StopJoin? || s.dispatcher.StopRelock? || s.dispatcher.StopClear?
    ensures !NearJoin(DispatcherStep(s, ok).dispatcher)
  {
  }

  lemma ResetStaysAway(s: State, ok: bool)
    requires ResetsNew(s.dispatcher)
    ensures !NearJoin(DispatcherStep(s, ok).dispatcher)
  {
  }

  lemma StepStaysClear(s: State, step: Step)
    requires StaysClear(s) && Enabled(s, step) && !step.Accept?
    ensures StaysClear(Apply(s, step))
  {
    StepKeepsInv(s, step);
    hide Inv, DispatcherStep, DaqStep;
    match step
    case Dispatch(ok) => DispatchStaysClear(s, ok);
    case ThreadStep(_) => ThreadStaysClear(s, step);
    case ThreadFails(_) => ThreadStaysClear(s, step);
    case Signal =>
  }

  lemma {:induction false} RunStaysClear(s: State, steps: seq<Step>)
    requires StaysClear(s) && IsRun(s, steps) && NoCommand(steps)
    ensures StaysClear(Follow(s, steps))
    decreases |steps|
  {
    hide StaysClear;
    if steps != [] {
      StepStaysClear(s, steps[0]);
      RunStaysClear(Apply(s, steps[0]), steps[1..]);
    }
  }

  /** A STOP, a RESET or the destructor, as it begins, can come to hang if and only if the thread behind the handle has
      yet to clear the stop flag. */
  lemma CommandHangsExactly(s: State)
    requires Reachable(s) && (s.dispatcher.StopLock? || s.dispatcher.ResetLock? || s.dispatcher.DestroyCheck?)
    ensures MayHang(s) <==> FreshThread(s)
  {
    ReachableInv(s);
    if FreshThread(s) {
      if s.dispatcher.DestroyCheck? { FreshThreadHangsCheck(s); } else { FreshThreadHangsLock(s); }
    } else {
      forall steps | IsRun(s, steps) && NoCommand(steps) ensures !Hung(Follow(s, steps)) {
        RunStaysClear(s, steps);
      }
    }
  }

  // ---------- Every command ends, or hangs ----------

  function DispatcherRank(pc: DispatcherPc): nat {
    match pc
    case Idle => 0
    case StartLock => 6 case StartCheck => 5 case StartJoin => 4 case StartInitialize => 3 case StartMark => 2
    case StartSpawn => 1
    case StopLock => 6 case StopCheck => 5 case StopFlag => 4 case StopJoin => 3 case StopRelock => 2
    case StopClear => 1
    case ResetLock => 8 case ResetClear => 7 case ResetFlag => 6 case ResetJoin => 5 case ResetInitialize => 4
    case ResetRelock => 3 case ResetMark => 2 case ResetSpawn => 1
    case DestroyCheck => 4 case DestroyFlag => 3 case DestroyJoin => 2 case DestroyMembers(_) => 1 case Gone(_) => 0
  }

  function ThreadRank(pc: ThreadPc): (r: nat)
    ensures r <= 5
  {
    match pc case Fresh => 5 case Polling => 4 case Ending => 3 case Locked => 2 case Leaving => 1 case Done => 0
  }

  function Rank(s: State): nat {
    6 * DispatcherRank(s.dispatcher) +
    if s.handle.Some? && s.handle.value < |s.threads| then ThreadRank(s.threads[s.handle.value]) else 0
  }

  lemma MoveLowersRank(s: State, step: Step)
    requires Inv(s) && Enabled(s, step) && !step.Accept? && !step.Signal?
    ensures Rank(Apply(s, step)) < Rank(s)
  {
    if step.Dispatch? {
      DispatchLowersRank(s, step.ok);
    } else {
      assert ThreadOk(s, step.i);
    }
  }

  lemma DispatchLowersRank(s: State, ok: bool)
    requires Inv(s) && Enabled(s, Dispatch(ok))
    ensures Rank(DispatcherStep(s, ok)) < Rank(s)
  {
    hide Inv;
    DispatcherMovesOn(s, ok);
    DispatcherAndThreads(s, ok);
    hide DispatcherRank, DispatcherStep, ThreadRank;
  }

  lemma DispatcherMovesOn(s: State, ok: bool)
    requires Enabled(s, Dispatch(ok))
    ensures DispatcherRank(DispatcherStep(s, ok).dispatcher) < DispatcherRank(s.dispatcher)
  {
    if Starts(s.dispatcher) { StartMovesOn(s, ok); }
    else if Stops(s.dispatcher) { StopMovesOn(s, ok); }
    else { OtherMovesOn(s, ok); }
    hide DispatcherRank, DispatcherStep;
  }

  lemma StartMovesOn(s: State, ok: bool)
    requires Starts(s.dispatcher)
    ensures DispatcherRank(DispatcherStep(s, ok).dispatcher) < DispatcherRank(s.dispatcher)
  {
  }

  lemma StopMovesOn(s: State, ok: bool)
    requires Stops(s.dispatcher)
    ensures DispatcherRank(DispatcherStep(s, ok).dispatcher) < DispatcherRank(s.dispatcher)
  {
  }

  lemma OtherMovesOn(s: State, ok: bool)
    requires !Starts(s.dispatcher) && !Stops(s.dispatcher) && !s.dispatcher.Idle? && !s.dispatcher.Gone?
    ensures DispatcherRank(DispatcherStep(s, ok).dispatcher) < DispatcherRank(s.dispatcher)
  {
  }

  /** The handle is dropped, or handle and threads stay, or a new thread is behind it. */
  predicate ThreadsAfter(s: State, t: State) {
    || t.handle == None || (t.handle == s.handle && t.threads == s.threads)
    || (t.handle == Some(|s.threads|) && t.threads == s.threads + [Fresh])
  }

  lemma DispatcherAndThreads(s: State, ok: bool)
    ensures ThreadsAfter(s, DispatcherStep(s, ok))
  {
    if Starts(s.dispatcher) { StartAndThreads(s, ok); }
    else if Stops(s.dispatcher) { StopAndThreads(s, ok); }
    else if Destroys(s.dispatcher) { DestroyAndThreads(s, ok); }
    else { ResetAndThreads(s, ok); }
  }

  lemma StartAndThreads(s: State, ok: bool)
    requires Starts(s.dispatcher)
    ensures ThreadsAfter(s, DispatcherStep(s, ok))
  {
  }

  lemma StopAndThreads(s: State, ok: bool)
    requires Stops(s.dispatcher)
    ensures ThreadsAfter(s, DispatcherStep(s, ok))
  {
  }

  lemma DestroyAndThreads(s: State, ok: bool)
    requires Destroys(s.dispatcher)
    ensures ThreadsAfter(s, DispatcherStep(s, ok))
  {
  }

  lemma ResetAndThreads(s: State, ok: bool)
    requires !Starts(s.dispatcher) && !Stops(s.dispatcher) && !Destroys(s.dispatcher)
    ensures ThreadsAfter(s, DispatcherStep(s, ok))
  {
  }

  function Signals(steps: seq<Step>): (r: nat)
    ensures r <= |steps|
  {
    if steps == [] then 0 else (if steps[0].Signal? then 1 else 0) + Signals(steps[1..])
  }

  lemma {:induction false} MovesAreBounded(s: State, steps: seq<Step>)
    requires Inv(s) && IsRun(s, steps) && NoCommand(steps)
    ensures |steps| + Rank(Follow(s, steps)) <= Rank(s) + Signals(steps)
    decreases |steps|
  {
    if steps != [] {
      StepKeepsInv(s, steps[0]);
      if steps[0].Signal? {
        assert Rank(Apply(s, steps[0])) == Rank(s);
      } else {
        MoveLowersRank(s, steps[0]);
      }
      MovesAreBounded(Apply(s, steps[0]), steps[1..]);
    }
  }

  /** However dispatcher, threads, errors and signals are interleaved, a command is carried out within 53 steps besides
      the signals, unless it hangs in a join: when nothing can move any more, the dispatcher is idle again, gone or
      hung. */
  lemma EveryCommandEndsOrHangs(s: State, steps: seq<Step>)
    requires Reachable(s) && IsRun(s, steps) && NoCommand(steps)
    ensures |steps| <= 53 + Signals(steps)
    ensures var t := Follow(s, steps);
      !CanMove(t) ==> t.dispatcher.Idle? || t.dispatcher.Gone? || Hung(t)
  {
    ReachableInv(s);
    MovesAreBounded(s, steps);
    var before :| IsRun(INIT, before) && Follow(INIT, before) == s;
    Chain(INIT, before, steps);
    var t := Follow(s, steps);
    assert Reachable(t);
    if !t.dispatcher.Idle? && !t.dispatcher.Gone? { StuckExactlyWhenHung(t); }
  }

  // ---------- What a command leaves behind ----------

  predicate AllDone(s: State) { forall i :: 0 <= i < |s.threads| ==> s.threads[i].Done? }

  /** The only live thread is a new one. */
  predicate RunsFresh(s: State) {
    && |s.threads| > 0 && s.handle == Some(|s.threads| - 1) && s.threads[|s.threads| - 1] == Fresh
    && forall i :: 0 <= i < |s.threads| - 1 ==> s.threads[i].Done?
  }

  /** A START that finds the DAQ running, and a STOP that does not, change nothing. */
  lemma RefusedCommandsChangeNothing(s: State, ok: bool)
    requires Reachable(s) && if s.dispatcher.StartCheck? then s.daqRunning else s.dispatcher.StopCheck? && !s.daqRunning
    ensures Enabled(s, Dispatch(ok)) && Apply(s, Dispatch(ok)) == s.(mutex := Free, dispatcher := Idle)
  {
    ReachableInv(s);
  }

  /** When initialize() fails, in START or in RESET, no thread is created and the DAQ is not running. */
  lemma FailedInitializeLeavesNothing(s: State)
    requires Reachable(s) && (s.dispatcher.StartInitialize? || s.dispatcher.ResetInitialize?)
    ensures Enabled(s, Dispatch(false))
    ensures var t := Apply(s, Dispatch(false));
      t.dispatcher.Idle? && !t.daqRunning && t.handle == None && t.threads == s.threads && AllDone(t) && t.mutex == Free
  {
    ReachableInv(s);
    InitializesAlone(s);
    assert s.mutex.Daq? ==> ThreadOk(s, s.mutex.thread);
  }

  /** A successful START or RESET leaves the DAQ running with a single new thread; when the thread cannot be created it
      leaves it running with none. */
  lemma SpawnLeavesRunning(s: State, ok: bool)
    requires Reachable(s) && (s.dispatcher.StartSpawn? || s.dispatcher.ResetSpawn?)
    ensures Enabled(s, Dispatch(ok))
    ensures var t := Apply(s, Dispatch(ok));
      t.dispatcher.Idle? && t.daqRunning && t.mutex == Free
      && if ok then RunsFresh(t) else t.handle == None && AllDone(t)
  {
    ReachableInv(s);
    forall i | 0 <= i < |s.threads| ensures s.threads[i].Done? { assert ThreadOk(s, i); }
  }

  /** A STOP that found the DAQ running leaves no thread behind. */
  lemma StopLeavesNothing(s: State, ok: bool)
    requires Reachable(s) && s.dispatcher.StopClear?
    ensures Enabled(s, Dispatch(ok))
    ensures var t := Apply(s, Dispatch(ok));
      t.dispatcher.Idle? && !t.daqRunning && t.handle == None && AllDone(t) && t.mutex == Free
  {
    ReachableInv(s);
    forall i | 0 <= i < |s.threads| ensures s.threads[i].Done? { assert ThreadOk(s, i); }
  }

  /** There is no other way for a command to end. */
  lemma CommandsEndOnlySo(s: State, ok: bool)
    requires Reachable(s) && Enabled(s, Dispatch(ok)) && Apply(s, Dispatch(ok)).dispatcher.Idle?
    ensures || (s.dispatcher.StartCheck? && s.daqRunning) || (s.dispatcher.StopCheck? && !s.daqRunning)
            || ((s.dispatcher.StartInitialize? || s.dispatcher.ResetInitialize?) && !ok)
            || s.dispatcher.StartSpawn? || s.dispatcher.ResetSpawn? || s.dispatcher.StopClear?
  {
    if Starts(s.dispatcher) { EndOfStart(s, ok); }
    else if Stops(s.dispatcher) { EndOfStop(s, ok); }
    else { EndOfOther(s, ok); }
  }

  lemma EndOfStart(s: State, ok: bool)
    requires Starts(s.dispatcher) && DispatcherStep(s, ok).dispatcher.Idle?
    ensures (s.dispatcher.StartCheck? && s.daqRunning) || (s.dispatcher.StartInitialize? && !ok)
            || s.dispatcher.StartSpawn?
  {
  }

  lemma EndOfStop(s: State, ok: bool)
    requires Stops(s.dispatcher) && DispatcherStep(s, ok).dispatcher.Idle?
    ensures (s.dispatcher.StopCheck? && !s.daqRunning) || s.dispatcher.StopClear?
  {
  }

  lemma EndOfOther(s: State, ok: bool)
    requires !Starts(s.dispatcher) && !Stops(s.dispatcher) && !s.dispatcher.Idle?
    requires DispatcherStep(s, ok).dispatcher.Idle?
    ensures (s.dispatcher.ResetInitialize? && !ok) || s.dispatcher.ResetSpawn?
  {
  }

  /** Between commands the flag tells whether the thread behind the handle has still to pass its final critical section,
      however it comes to end. */
  lemma RunningTellsTheThread(s: State)
    requires Reachable(s) && s.dispatcher.Idle? && s.handle.Some?
    ensures s.handle.value < |s.threads|
    ensures s.daqRunning <==> !s.threads[s.handle.value].Leaving? && !s.threads[s.handle.value].Done?
  {
    ReachableInv(s);
  }

  // ---------- The destructor ----------

  /** The destructor meets a joinable thread, and the program is terminated, exactly when it found the DAQ not
      running although a finished thread was never joined. */
  lemma DestructorTerminatesExactly(s: State, steps: seq<Step>)
    requires Reachable(s) && s.dispatcher.DestroyCheck? && Enabled(s, Dispatch(true))
    requires IsRun(Apply(s, Dispatch(true)), steps) && Follow(Apply(s, Dispatch(true)), steps).dispatcher.Gone?
    ensures Follow(Apply(s, Dispatch(true)), steps).crashed <==> !s.daqRunning && s.handle.Some?
  {
    ReachableInv(s);
    var t := Apply(s, Dispatch(true));
    StepKeepsInv(s, Dispatch(true));
    DestroyRemembers(t, steps, s.daqRunning, s.handle);
    RunKeepsInv(t, steps);
  }

  ghost predicate Remembers(s: State, stopped: bool, handle: Option<nat>) {
    && Destroys(s.dispatcher) && !s.dispatcher.Idle? && !s.dispatcher.DestroyCheck?
    && (s.dispatcher.DestroyFlag? || s.dispatcher.DestroyJoin? ==> stopped)
    && (s.dispatcher.DestroyMembers? || s.dispatcher.Gone? ==> s.dispatcher.stopped == stopped)
    && (!stopped ==> s.handle == handle)
  }

  lemma {:induction false} DestroyRemembers(s: State, steps: seq<Step>, stopped: bool, handle: Option<nat>)
    requires Remembers(s, stopped, handle) && IsRun(s, steps)
    ensures Remembers(Follow(s, steps), stopped, handle)
    decreases |steps|
  {
    if steps != [] { DestroyRemembers(Apply(s, steps[0]), steps[1..], stopped, handle); }
  }

  lemma ThreadEndsByItself() returns (steps: seq<Step>)
    ensures LeadsTo(steps, State(false, false, Free, Some(0), Idle, [Leaving], false))
  {
    steps := StartRuns();
    hide LeadsTo;
    var idle := State(true, false, Free, Some(0), Idle, [Fresh], false);
    steps := OneMore(steps, idle, ThreadFails(0), idle.(threads := [Ending]));
    steps := OneMore(steps, idle.(threads := [Ending]), ThreadStep(0), idle.(mutex := Daq(0), threads := [Locked]));
    var ended := idle.(daqRunning := false, threads := [Leaving]);
    steps := OneMore(steps, idle.(mutex := Daq(0), threads := [Locked]), ThreadStep(0), ended);
  }

  /** It does happen: a DAQ thread that ended by itself is still joinable. */
  lemma DestructorCanTerminate() returns (s: State)
    ensures Reachable(s) && s.crashed
  {
    var steps := ThreadEndsByItself();
    hide LeadsTo;
    var ended := State(false, false, Free, Some(0), Idle, [Leaving], false);
    steps := OneMore(steps, ended, Accept(Destroy), ended.(dispatcher := DestroyCheck));
    var checked := ended.(dispatcher := DestroyMembers(false));
    steps := OneMore(steps, ended.(dispatcher := DestroyCheck), Dispatch(true), checked);
    s := ended.(crashed := true, dispatcher := Gone(false));
    steps := OneMore(steps, checked, Dispatch(true), s);
    Reached(steps, s);
  }
}
