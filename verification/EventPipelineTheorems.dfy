/** What holds in every reachable state of the pipeline, and of all its runs. */
module EventPipelineTheorems {
  import opened EventPipeline
  import opened EventPipelineInvariant

  ghost predicate Reachable(c: Config, s: State) {
    exists steps :: IsRun(c, Init(c), steps) && Follow(c, Init(c), steps) == s
  }

  lemma ReachableInv(c: Config, s: State)
    requires ValidConfig(c) && Reachable(c, s)
    ensures Inv(c, s)
  {
    var steps :| IsRun(c, Init(c), steps) && Follow(c, Init(c), steps) == s;
    InitInv(c);
    RunKeepsInv(c, Init(c), steps);
  }

  // ---------- The ordered stages ----------

  /** Every interleaving refines the sequential loop: the calls of handleEvents at a stage are a prefix of
      Begin(0), End(0), Begin(1), End(1), ..., and no two workers are past the wait loop at once. */
  lemma StagesAreSequential(c: Config, s: State, k: nat)
    requires ValidConfig(c) && Reachable(c, s) && k < c.nStages
    ensures Shape(c, s) && IsSequential(s.gates[k].trace)
    ensures 2 * s.gates[k].expectedSeqN <= |s.gates[k].trace| <= 2 * s.gates[k].expectedSeqN + 2
    ensures forall i, j ::
      0 <= i < j < c.nWorkers && s.workers[i].AtStage? && s.workers[j].AtStage? &&
      s.workers[i].stage == s.workers[j].stage == k && HasTurn(s.workers[i].pc)
      ==> !HasTurn(s.workers[j].pc)
  {
    ReachableInv(c, s);
    assert GateOk(s, k);
    forall i, j |
      0 <= i < j < c.nWorkers && s.workers[i].AtStage? && s.workers[j].AtStage? &&
      s.workers[i].stage == s.workers[j].stage == k && HasTurn(s.workers[i].pc)
      ensures !HasTurn(s.workers[j].pc)
    {
      assert WorkerOk(s, i) && WorkerOk(s, j);
    }
  }

  /** No wakeup is lost: a worker still blocked although its turn has come is about to be signalled by the
      holder of the lock, and the signal will reach it. */
  lemma NoLostWakeup(c: Config, s: State, i: nat)
    requires ValidConfig(c) && Reachable(c, s) && i < c.nWorkers && GateAt(s, i, Wait)
    requires s.workers[i].job == s.gates[s.workers[i].stage].expectedSeqN
    ensures var k := s.workers[i].stage;
      && s.gates[k].lock.Some?
      && Enabled(c, s, GateSignal(s.gates[k].lock.value))
      && var s' := Apply(c, s, GateSignal(s.gates[k].lock.value));
         |s'.workers| == c.nWorkers && s'.workers[i] == AtStage(s.workers[i].job, k, Wake)
  {
    ReachableInv(c, s);
    var k := s.workers[i].stage;
    assert WorkerOk(s, i);
    SignalWakesTheNextWaiter(c, s, s.gates[k].lock.value);
    assert Apply(c, s, GateSignal(s.gates[k].lock.value)).workers[i]
        == AfterSignal(c, s, s.gates[k].lock.value, k, i);
  }

  /** The pointer a signal follows is the condition variable of a worker that is still in the wait loop
      with exactly that sequence number, so it has not been destroyed. */
  lemma SignalledConditionIsLive(c: Config, s: State, i: nat)
    requires ValidConfig(c) && Reachable(c, s) && Enabled(c, s, GateSignal(i))
    ensures var k := s.workers[i].stage;
      var g := s.gates[k];
      g.expectedSeqN in g.queue ==>
        var w := g.queue[g.expectedSeqN];
        w < c.nWorkers && w != i && s.workers[w].AtStage? && s.workers[w].stage == k &&
        s.workers[w].job == g.expectedSeqN && Registered(s.workers[w].pc)
  {
    ReachableInv(c, s);
    assert GateOk(s, s.workers[i].stage);
  }

  ghost predicate SmallestInFlight(s: State, i: nat) {
    && i < |s.workers| && Running(s.workers[i])
    && forall j :: 0 <= j < |s.workers| && Running(s.workers[j]) ==> s.workers[i].job <= s.workers[j].job
  }

  /** The smallest job in flight is never blocked by a later one: at whatever stage it is, it is its turn. */
  lemma SmallestJobHasItsTurn(c: Config, s: State, i: nat)
    requires ValidConfig(c) && Inv(c, s) && SmallestInFlight(s, i) && s.workers[i].AtStage?
    requires !s.workers[i].pc.Signal?
    ensures s.workers[i].stage < |s.gates| && s.gates[s.workers[i].stage].expectedSeqN == s.workers[i].job
  {
    assert WorkerOk(s, i);
    var k := s.workers[i].stage;
    var e := s.gates[k].expectedSeqN;
    // a smaller e was dequeued earlier and has not passed stage k: it is neither done nor in flight
    assert JobTaken(s, e);
    assert e !in s.done;
  }

  // ---------- Deadlock freedom ----------

  ghost predicate CanStep(c: Config, s: State) {
    exists step :: !IsSpurious(step) && Enabled(c, s, step)
  }

  lemma {:induction false} LeastRunning(s: State, i: nat) returns (m: nat)
    requires i < |s.workers| && Running(s.workers[i])
    ensures SmallestInFlight(s, m)
    decreases s.workers[i].job
  {
    if exists j :: 0 <= j < |s.workers| && Running(s.workers[j]) && s.workers[j].job < s.workers[i].job {
      var j :| 0 <= j < |s.workers| && Running(s.workers[j]) && s.workers[j].job < s.workers[i].job;
      m := LeastRunning(s, j);
    } else {
      m := i;
    }
  }

  /** The holder of the pool lock can go on. */
  lemma PoolHolderCanStep(c: Config, s: State)
    requires ValidConfig(c) && Inv(c, s) && s.poolLock != Free
    ensures CanStep(c, s)
  {
    match s.poolLock
    case Worker(i) =>
      assert Enabled(c, s, if s.workers[i].PoolLoop? then WorkerIterate(i) else WorkerReport(i));
    case Main =>
      match s.main
      case SubmitTest =>
        if w :| 0 <= w < |s.workers| && s.workers[w].PoolWait? {
          assert Enabled(c, s, MainSubmit(w));
        } else {
          assert Enabled(c, s, MainSubmit(0));
        }
      case DrainTest(_) => assert Enabled(c, s, MainDrain);
      case PollWorker(_, _) => assert Enabled(c, s, MainPoll);
      case TermBody => assert Enabled(c, s, MainTerminate);
  }

  /** While any worker has a job, some worker can go on: the one with the smallest, or the lock it wants. */
  lemma RunningCanStep(c: Config, s: State, i: nat)
    requires ValidConfig(c) && Inv(c, s) && s.poolLock == Free
    requires i < |s.workers| && Running(s.workers[i])
    ensures CanStep(c, s)
  {
    var m := LeastRunning(s, i);
    assert WorkerOk(s, m);
    match s.workers[m]
    case Rejoin(_) => assert Enabled(c, s, WorkerLock(m));
    case AtStage(job, k, pc) =>
      if s.gates[k].lock.Some? {
        GateHolderCanStep(c, s, k);
      } else if WantsGate(pc) {
        assert Enabled(c, s, GateLock(m));
      } else if pc.Handle? {
        assert Enabled(c, s, GateHandled(m));
      } else {
        SmallestJobHasItsTurn(c, s, m);
        assert false;
      }
  }

  lemma GateHolderCanStep(c: Config, s: State, k: nat)
    requires Inv(c, s) && k < |s.gates| && s.gates[k].lock.Some?
    ensures CanStep(c, s)
  {
    assert GateOk(s, k);
    var i := s.gates[k].lock.value;
    assert Enabled(c, s, match s.workers[i].pc
                         case Register => GateRegister(i)
                         case Test => GateTest(i)
                         case Bump => GateBump(i)
                         case _ => GateSignal(i));
  }

  /** With no job in flight it is a worker that wants the lock, or the producer, that can go on. */
  lemma IdleCanStep(c: Config, s: State)
    requires ValidConfig(c) && Inv(c, s) && s.poolLock == Free && !Finished(c, s)
    requires forall i :: 0 <= i < |s.workers| ==> !Running(s.workers[i])
    ensures CanStep(c, s)
  {
    if i :| 0 <= i < |s.workers| && s.workers[i].PoolEnter? {
      assert Enabled(c, s, WorkerLock(i));
    } else if MainWantsPool(s.main) {
      assert Enabled(c, s, MainLock);
    } else {
      // every worker waits for work or has left, so the queue is empty and the producer is joining
      forall i | 0 <= i < |s.workers|
        ensures s.workers[i].PoolWait? || s.workers[i].Exited?
        ensures !s.isBusy[i] && (s.workers[i].Exited? ==> s.terminate)
      {
        assert WorkerOk(s, i);
      }
      assert s.main.Join?;
      assert Enabled(c, s, MainJoin);
    }
  }

  /** In no reachable state short of the end is the program stuck: some thread can take a step that is not
      a spurious wakeup, for any number of workers, stages and jobs. */
  lemma NeverStuck(c: Config, s: State)
    requires ValidConfig(c) && Reachable(c, s) && !Finished(c, s)
    ensures CanStep(c, s)
  {
    ReachableInv(c, s);
    if s.poolLock != Free {
      PoolHolderCanStep(c, s);
    } else if i :| 0 <= i < |s.workers| && Running(s.workers[i]) {
      RunningCanStep(c, s, i);
    } else {
      IdleCanStep(c, s);
    }
  }
}
