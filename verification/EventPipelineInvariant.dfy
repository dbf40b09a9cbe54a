/** What every step of the pipeline keeps. */
module EventPipelineInvariant {
  import opened Wrappers
  import opened EventPipeline

  // ---------- Workers ----------

  /** How far the job of worker i has come: it has passed exactly the stages below its own. */
  ghost predicate Progress(s: State, job: nat, stage: nat, pc: GatePc) {
    && stage < |s.gates|
    && (forall k :: 0 <= k < stage ==> job < s.gates[k].expectedSeqN)
    && (forall k :: stage < k < |s.gates| ==> s.gates[k].expectedSeqN <= job)
    && (if pc.Signal? then s.gates[stage].expectedSeqN == job + 1
        else if HasTurn(pc) then s.gates[stage].expectedSeqN == job
        else s.gates[stage].expectedSeqN <= job)
  }

  ghost predicate PassedAll(s: State, job: nat) {
    forall k :: 0 <= k < |s.gates| ==> job < s.gates[k].expectedSeqN
  }

  /** The holder of the lock of stage k has already advanced it to `seqN` and is about to signal. */
  ghost predicate SignalPending(s: State, k: nat, seqN: nat)
    requires k < |s.gates|
  {
    var lock := s.gates[k].lock;
    lock.Some? && lock.value < |s.workers| && seqN > 0 && s.workers[lock.value] == AtStage(seqN - 1, k, Signal)
  }

  ghost predicate AtStageOk(s: State, i: nat, job: nat, stage: nat, pc: GatePc) {
    && Progress(s, job, stage, pc)
    && (HoldsGate(pc) <==> s.gates[stage].lock == Some(i))
    && (Registered(pc) ==> job in s.gates[stage].queue && s.gates[stage].queue[job] == i)
    // no lost wakeup
    && (pc.Wait? && job == s.gates[stage].expectedSeqN ==> SignalPending(s, stage, job))
  }

  ghost predicate JobOf(s: State, i: nat, job: nat) {
    job < |s.taken| && s.taken[job] == i && job !in s.done
  }

  ghost predicate WorkerOk(s: State, i: nat)
    requires i < |s.workers| == |s.isBusy|
  {
    && (WorkerHoldsPool(s.workers[i]) <==> s.poolLock == Worker(i))
    && (s.isBusy[i] <==> Running(s.workers[i]))
    && match s.workers[i]
       case AtStage(job, stage, pc) => JobOf(s, i, job) && AtStageOk(s, i, job, stage, pc)
       case Rejoin(job) => JobOf(s, i, job) && PassedAll(s, job)
       case Report(job) => JobOf(s, i, job) && PassedAll(s, job)
       case Exited => s.terminate
       case _ => true
  }

  // ---------- Stages ----------

  /** 1 while handleEvents(seqN) runs at stage k, 2 from its return until the increment, else 0. */
  ghost function TurnPhase(s: State, k: nat, seqN: nat): nat {
    if seqN < |s.taken| && s.taken[seqN] < |s.workers| then
      match s.workers[s.taken[seqN]]
      case AtStage(job, stage, pc) =>
        if job == seqN && stage == k then (if pc.Handle? then 1 else if HasTurn(pc) then 2 else 0) else 0
      case _ => 0
    else 0
  }

  /** The calls of the sequential loop `for seqN = 0, 1, 2, ...: handleEvents(seqN)`. */
  function SequentialEvent(n: nat): HandlerEvent {
    if n % 2 == 0 then Begin(n / 2) else End(n / 2)
  }

  ghost predicate IsSequential(trace: seq<HandlerEvent>) {
    forall n :: 0 <= n < |trace| ==> trace[n] == SequentialEvent(n)
  }

  ghost predicate GateOk(s: State, k: nat)
    requires k < |s.gates|
  {
    var g := s.gates[k];
    && g.expectedSeqN <= |s.taken|
    && (g.lock.Some? ==> g.lock.value < |s.workers| && s.workers[g.lock.value].AtStage? &&
                         s.workers[g.lock.value].stage == k && HoldsGate(s.workers[g.lock.value].pc))
    // every registered condition variable is live: its owner is still in the wait loop
    && (forall seqN :: seqN in g.queue ==>
          g.queue[seqN] < |s.workers| && s.workers[g.queue[seqN]].AtStage? &&
          s.workers[g.queue[seqN]].job == seqN && s.workers[g.queue[seqN]].stage == k &&
          Registered(s.workers[g.queue[seqN]].pc))
    && IsSequential(g.trace)
    && |g.trace| == 2 * g.expectedSeqN + TurnPhase(s, k, g.expectedSeqN)
  }

  // ---------- The pool ----------

  ghost predicate JobTaken(s: State, job: nat)
    requires job < |s.taken|
  {
    s.taken[job] < |s.workers| &&
    (job in s.done ||
     (Running(s.workers[s.taken[job]]) && s.workers[s.taken[job]].job == job))
  }

  ghost predicate PoolOk(c: Config, s: State) {
    && |s.taken| <= s.submitted <= c.nJobs
    && |s.jobs| == s.submitted - |s.taken|
    && (forall x :: 0 <= x < |s.jobs| ==> s.jobs[x] == |s.taken| + x)
    && |s.jobs| <= c.maxQueueSize
    && (forall job :: 0 <= job < |s.taken| ==> JobTaken(s, job))
    && (forall x :: 0 <= x < |s.done| ==> s.done[x] < |s.taken| && PassedAll(s, s.done[x]))
    && (forall x, y :: 0 <= x < y < |s.done| ==> s.done[x] != s.done[y])
    // a non-empty queue always has a worker that is not waiting for work
    && ((forall i :: 0 <= i < |s.workers| ==> s.workers[i].PoolWait?) ==> s.jobs == [])
  }

  ghost predicate MainOk(c: Config, s: State) {
    && (MainHoldsPool(s.main) <==> s.poolLock == Main)
    && (s.poolLock.Worker? ==> s.poolLock.i < |s.workers| && WorkerHoldsPool(s.workers[s.poolLock.i]))
    && (s.terminate <==> s.main.Join?)
    && match s.main
       case Submit => s.submitted < c.nJobs
       case SubmitTest => s.submitted < c.nJobs
       case SubmitWait => s.submitted < c.nJobs && |s.jobs| >= c.maxQueueSize
       case DrainEnter(_) => s.submitted == c.nJobs
       case DrainTest(_) => s.submitted == c.nJobs
       case DrainWait(_) => s.submitted == c.nJobs && s.jobs != []
       case PollWorker(_, i) => s.submitted == c.nJobs && s.jobs == [] && i <= c.nWorkers
       case PollWait(_, i) => s.submitted == c.nJobs && s.jobs == [] && i < c.nWorkers && i < |s.isBusy| && s.isBusy[i]
       case PollWake(_, i) => s.submitted == c.nJobs && s.jobs == [] && i < c.nWorkers
       case TermEnter => s.submitted == c.nJobs && s.jobs == []
       case TermBody => s.submitted == c.nJobs && s.jobs == []
       case Join(i) =>
         s.submitted == c.nJobs && s.jobs == [] && i <= c.nWorkers &&
         (forall j :: 0 <= j < |s.workers| ==> !s.workers[j].PoolWait?) &&
         (forall j :: 0 <= j < i && j < |s.workers| ==> s.workers[j].Exited?)
  }

  ghost predicate Inv(c: Config, s: State) {
    && Shape(c, s)
    && PoolOk(c, s)
    && MainOk(c, s)
    && (forall i :: 0 <= i < |s.workers| ==> WorkerOk(s, i))
    && (forall k :: 0 <= k < |s.gates| ==> GateOk(s, k))
  }

  lemma InitInv(c: Config)
    requires ValidConfig(c)
    ensures Inv(c, Init(c))
  {
  }

  // ---------- Steps of the pool ----------

  /** What a step taken under the pool lock changes: worker i, which is not inside a stage, and the pool.
      A step of the producer alone has i == nWorkers. */
  ghost predicate PoolStep(s: State, s': State, i: nat) {
    && s'.gates == s.gates && |s'.workers| == |s.workers| == |s.isBusy| == |s'.isBusy|
    && s.taken <= s'.taken && (s.terminate ==> s'.terminate)
    && (s'.done == s.done ||
        (i < |s.workers| && Running(s.workers[i]) && s'.done == s.done + [s.workers[i].job]))
    && (forall j :: 0 <= j < |s.workers| && j != i ==> s'.workers[j] == s.workers[j] && s'.isBusy[j] == s.isBusy[j])
    && (forall j: nat :: j != i ==> (s'.poolLock == Worker(j) <==> s.poolLock == Worker(j)))
    && (i < |s.workers| ==>
          !s.workers[i].AtStage? && (s'.workers[i].AtStage? ==> s'.workers[i].pc.Enter?))
  }

  lemma PoolStepKeepsWorker(c: Config, s: State, s': State, i: nat, j: nat)
    requires Inv(c, s) && PoolStep(s, s', i) && j < |s.workers| && j != i
    ensures WorkerOk(s', j)
  {
    assert WorkerOk(s, j);
    if i < |s.workers| { assert WorkerOk(s, i); }
  }

  lemma PoolStepKeepsGate(c: Config, s: State, s': State, i: nat, k: nat)
    requires Inv(c, s) && PoolStep(s, s', i) && k < |s.gates|
    ensures GateOk(s', k)
  {
    assert GateOk(s, k);
    var e := s.gates[k].expectedSeqN;
    if e < |s'.taken| && s'.taken[e] < |s.workers| { assert WorkerOk(s, s'.taken[e]); }
  }

  /** What is left to a step of the pool is its own worker, the queue and the producer. */
  lemma PoolStepKeepsInv(c: Config, s: State, s': State, i: nat)
    requires Inv(c, s) && PoolStep(s, s', i)
    requires PoolOk(c, s') && MainOk(c, s') && (i < |s.workers| ==> WorkerOk(s', i))
    ensures Inv(c, s')
  {
    forall j | 0 <= j < |s'.workers| ensures WorkerOk(s', j) {
      if j != i { PoolStepKeepsWorker(c, s, s', i, j); }
    }
    forall k | 0 <= k < |s'.gates| ensures GateOk(s', k) { PoolStepKeepsGate(c, s, s', i, k); }
  }

  lemma WorkerLockKeepsInv(c: Config, s: State, i: nat)
    requires Inv(c, s) && Enabled(c, s, WorkerLock(i))
    ensures Inv(c, Apply(c, s, WorkerLock(i)))
  {
    var s' := Apply(c, s, WorkerLock(i));
    assert WorkerOk(s, i);
    forall job | 0 <= job < |s'.taken| ensures JobTaken(s', job) { assert JobTaken(s, job); }
    PoolStepKeepsInv(c, s, s', i);
  }

  lemma WorkerStopsKeepsInv(c: Config, s: State, i: nat)
    requires Inv(c, s) && Enabled(c, s, WorkerIterate(i)) && (s.terminate || s.jobs == [])
    ensures Inv(c, Apply(c, s, WorkerIterate(i)))
  {
    var s' := Apply(c, s, WorkerIterate(i));
    assert WorkerOk(s, i);
    forall job | 0 <= job < |s'.taken| ensures JobTaken(s', job) { assert JobTaken(s, job); }
    PoolStepKeepsInv(c, s, s', i);
  }

  lemma WorkerTakesKeepsInv(c: Config, s: State, i: nat)
    requires Inv(c, s) && Enabled(c, s, WorkerIterate(i)) && !s.terminate && s.jobs != []
    ensures Inv(c, Apply(c, s, WorkerIterate(i)))
  {
    var s' := Apply(c, s, WorkerIterate(i));
    assert WorkerOk(s, i);
    assert s.jobs[0] == |s.taken|;
    forall k | 0 <= k < |s.gates|
      ensures s.gates[k].expectedSeqN <= |s.taken| && s.gates[k].lock != Some(i)
    {
      assert GateOk(s, k);
    }
    forall job | 0 <= job < |s'.taken| ensures JobTaken(s', job) {
      if job < |s.taken| { assert JobTaken(s, job); }
    }
    PoolStepKeepsInv(c, s, s', i);
  }

  lemma WorkerReportKeepsInv(c: Config, s: State, i: nat)
    requires Inv(c, s) && Enabled(c, s, WorkerReport(i))
    ensures Inv(c, Apply(c, s, WorkerReport(i)))
  {
    var s' := Apply(c, s, WorkerReport(i));
    assert WorkerOk(s, i);
    forall job | 0 <= job < |s'.taken| ensures JobTaken(s', job) { assert JobTaken(s, job); }
    PoolStepKeepsInv(c, s, s', i);
  }

  // ---------- Steps of a stage ----------

  /** What a step of worker i at stage k changes: its own program counter and that stage. */
  ghost predicate GateStep(c: Config, s: State, s': State, i: nat, pc': GatePc) {
    && Shape(c, s) && i < |s.workers| && s.workers[i].AtStage? && s.workers[i].stage < |s.gates|
    && s' == s.(workers := s'.workers, gates := s'.gates)
    && s'.workers == s.workers[i := s.workers[i].(pc := pc')]
    && |s'.gates| == |s.gates|
    && var k, job := s.workers[i].stage, s.workers[i].job;
       var g, g' := s.gates[k], s'.gates[k];
       && (forall k' :: 0 <= k' < |s.gates| && k' != k ==> s'.gates[k'] == s.gates[k'])
       && (g'.expectedSeqN == g.expectedSeqN || (g'.expectedSeqN == job + 1 && g.expectedSeqN == job))
       && (g'.lock == g.lock || (g.lock == None && g'.lock == Some(i)) || (g.lock == Some(i) && g'.lock == None))
       && (forall n :: n != job ==> (n in g'.queue <==> n in g.queue) && (n in g.queue ==> g'.queue[n] == g.queue[n]))
  }

  /** The other workers do not notice, except that a waiter whose turn has come has a signal pending. */
  lemma OtherWorkerOk(c: Config, s: State, s': State, i: nat, pc': GatePc, j: nat)
    requires GateStep(c, s, s', i, pc') && j < |s.workers| && j != i
    requires WorkerOk(s, i) && WorkerOk(s, j)
    requires !s.workers[i].pc.Signal?
    requires var k := s.workers[i].stage;
      pc'.Signal? == (s'.gates[k].expectedSeqN != s.gates[k].expectedSeqN)
      && (pc'.Signal? ==> s'.gates[k].lock == Some(i))
    ensures WorkerOk(s', j)
  {
  }

  lemma OtherGateOk(c: Config, s: State, s': State, i: nat, pc': GatePc, k: nat)
    requires Inv(c, s) && GateStep(c, s, s', i, pc') && k < |s.gates| && k != s.workers[i].stage
    ensures GateOk(s', k)
  {
    assert GateOk(s, k);
  }

  lemma QueueStillOk(c: Config, s: State, s': State, i: nat, pc': GatePc)
    requires Inv(c, s) && GateStep(c, s, s', i, pc')
    ensures PoolOk(c, s')
  {
    forall job | 0 <= job < |s'.taken| ensures JobTaken(s', job) { assert JobTaken(s, job); }
    forall x | 0 <= x < |s'.done| ensures PassedAll(s', s'.done[x]) { assert PassedAll(s, s.done[x]); }
    if forall j :: 0 <= j < |s'.workers| ==> s'.workers[j].PoolWait? { assert s'.workers[i].AtStage?; }
  }

  lemma PoolStillOk(c: Config, s: State, s': State, i: nat, pc': GatePc)
    requires Inv(c, s) && GateStep(c, s, s', i, pc')
    ensures PoolOk(c, s') && MainOk(c, s')
  {
    QueueStillOk(c, s, s', i, pc');
    forall j | 0 <= j < |s.workers|
      ensures s'.workers[j].PoolWait? == s.workers[j].PoolWait? && s'.workers[j].Exited? == s.workers[j].Exited?
      ensures WorkerHoldsPool(s'.workers[j]) == WorkerHoldsPool(s.workers[j])
    {
    }
    hide PoolOk, WorkerOk, GateOk;
  }

  /** The four parts put together: what is left to a step is its own worker and its own stage. */
  lemma GateStepKeepsInv(c: Config, s: State, s': State, i: nat, pc': GatePc)
    requires Inv(c, s) && GateStep(c, s, s', i, pc') && !s.workers[i].pc.Signal?
    requires var k := s.workers[i].stage;
      pc'.Signal? == (s'.gates[k].expectedSeqN != s.gates[k].expectedSeqN)
      && (pc'.Signal? ==> s'.gates[k].lock == Some(i))
    requires WorkerOk(s', i) && GateOk(s', s.workers[i].stage)
    ensures Inv(c, s')
  {
    forall j | 0 <= j < |s'.workers| ensures WorkerOk(s', j) {
      assert WorkerOk(s, i) && WorkerOk(s, j);
      if j != i { OtherWorkerOk(c, s, s', i, pc', j); }
    }
    forall k | 0 <= k < |s'.gates| ensures GateOk(s', k) {
      if k != s.workers[i].stage { OtherGateOk(c, s, s', i, pc', k); }
    }
    PoolStillOk(c, s, s', i, pc');
  }

  /** What a step of worker i inside a stage still owes: the invariant of that worker and of that stage. */
  ghost predicate StepsOwn(c: Config, s: State, s': State, i: nat) {
    && i < |s'.workers| == |s'.isBusy| && s'.workers[i].AtStage? && s'.workers[i].stage < |s'.gates|
    && GateStep(c, s, s', i, s'.workers[i].pc)
    && WorkerOk(s', i)
    && GateOk(s', s'.workers[i].stage)
    && var k := s'.workers[i].stage;
       s'.workers[i].pc.Signal? == (s'.gates[k].expectedSeqN != s.gates[k].expectedSeqN)
  }

  lemma GateLockOwn(c: Config, s: State, i: nat)
    requires Enabled(c, s, GateLock(i)) && WorkerOk(s, i) && GateOk(s, s.workers[i].stage)
    ensures StepsOwn(c, s, Apply(c, s, GateLock(i)), i)
  {
    GateLockStage(c, s, i);
    hide GateOk;
  }

  lemma GateLockStage(c: Config, s: State, i: nat)
    requires Enabled(c, s, GateLock(i)) && WorkerOk(s, i) && GateOk(s, s.workers[i].stage)
    ensures Apply(c, s, GateLock(i)).workers[i].AtStage? && s.workers[i].stage < |Apply(c, s, GateLock(i)).gates|
    ensures Apply(c, s, GateLock(i)).workers[i].stage == s.workers[i].stage
    ensures GateOk(Apply(c, s, GateLock(i)), s.workers[i].stage)
  {
  }

  lemma GateRegisterOwn(c: Config, s: State, i: nat)
    requires Enabled(c, s, GateRegister(i)) && WorkerOk(s, i) && GateOk(s, s.workers[i].stage)
    ensures StepsOwn(c, s, Apply(c, s, GateRegister(i)), i)
  {
  }

  lemma GateTestWaitsOwn(c: Config, s: State, i: nat)
    requires Enabled(c, s, GateTest(i)) && WorkerOk(s, i) && GateOk(s, s.workers[i].stage)
    requires s.workers[i].job != s.gates[s.workers[i].stage].expectedSeqN
    ensures StepsOwn(c, s, Apply(c, s, GateTest(i)), i)
  {
  }

  lemma GateTestPassesOwn(c: Config, s: State, i: nat)
    requires Enabled(c, s, GateTest(i)) && WorkerOk(s, i) && GateOk(s, s.workers[i].stage)
    requires s.workers[i].job == s.gates[s.workers[i].stage].expectedSeqN
    ensures StepsOwn(c, s, Apply(c, s, GateTest(i)), i)
  {
  }

  lemma GateHandledOwn(c: Config, s: State, i: nat)
    requires Enabled(c, s, GateHandled(i)) && WorkerOk(s, i) && GateOk(s, s.workers[i].stage)
    ensures StepsOwn(c, s, Apply(c, s, GateHandled(i)), i)
  {
  }

  lemma GateBumpOwn(c: Config, s: State, i: nat)
    requires Enabled(c, s, GateBump(i)) && WorkerOk(s, i) && GateOk(s, s.workers[i].stage)
    requires TurnPhase(s, s.workers[i].stage, s.workers[i].job + 1) == 0
    ensures StepsOwn(c, s, Apply(c, s, GateBump(i)), i)
  {
  }

  lemma SpuriousGateOwn(c: Config, s: State, i: nat)
    requires Enabled(c, s, SpuriousWorker(i)) && s.workers[i].AtStage? && s.workers[i].stage < |s.gates|
    requires WorkerOk(s, i) && GateOk(s, s.workers[i].stage)
    ensures StepsOwn(c, s, Apply(c, s, SpuriousWorker(i)), i)
  {
  }

  /** Only one worker has its turn at a stage, so nobody has the next one yet. */
  lemma NextTurnIsFree(c: Config, s: State, i: nat)
    requires Inv(c, s) && Enabled(c, s, GateBump(i))
    ensures TurnPhase(s, s.workers[i].stage, s.workers[i].job + 1) == 0
  {
    assert WorkerOk(s, i);
    var next := s.workers[i].job + 1;
    if next < |s.taken| && s.taken[next] < |s.workers| { assert WorkerOk(s, s.taken[next]); }
  }

  lemma StageStepOwn(c: Config, s: State, step: Step)
    requires Inv(c, s) && Enabled(c, s, step)
    requires step.GateLock? || step.GateRegister? || step.GateTest? || step.GateHandled? || step.GateBump? ||
             (step.SpuriousWorker? && s.workers[step.i].AtStage?)
    ensures StepsOwn(c, s, Apply(c, s, step), step.i)
  {
    var i := step.i;
    assert WorkerOk(s, i);
    var k := s.workers[i].stage;
    assert GateOk(s, k);
    match step
    case GateLock(_) => GateLockOwn(c, s, i);
    case GateRegister(_) => GateRegisterOwn(c, s, i);
    case GateTest(_) =>
      if s.workers[i].job == s.gates[k].expectedSeqN { GateTestPassesOwn(c, s, i); }
      else { GateTestWaitsOwn(c, s, i); }
    case GateHandled(_) => GateHandledOwn(c, s, i);
    case GateBump(_) => NextTurnIsFree(c, s, i); GateBumpOwn(c, s, i);
    case SpuriousWorker(_) => SpuriousGateOwn(c, s, i);
  }

  lemma StageStepKeepsInv(c: Config, s: State, step: Step)
    requires Inv(c, s) && Enabled(c, s, step)
    requires step.GateLock? || step.GateRegister? || step.GateTest? || step.GateHandled? || step.GateBump? ||
             (step.SpuriousWorker? && s.workers[step.i].AtStage?)
    ensures Inv(c, Apply(c, s, step))
  {
    StageStepOwn(c, s, step);
    var s' := Apply(c, s, step);
    GateStepKeepsInv(c, s, s', step.i, s'.workers[step.i].pc);
  }

  /** Worker j after worker i has signalled from stage k: only the waiter whose turn it now is wakes. */
  function AfterSignal(c: Config, s: State, i: nat, k: nat, j: nat): WorkerPc
    requires i < |s.workers| && j < |s.workers| && k < |s.gates| && s.workers[i].AtStage?
  {
    if j == i then Enroute(c, s.workers[i].job, k + 1)
    else if s.workers[j] == AtStage(s.gates[k].expectedSeqN, k, Wait) then s.workers[j].(pc := Wake)
    else s.workers[j]
  }

  ghost predicate SignalStep(c: Config, s: State, s': State, i: nat) {
    && Shape(c, s) && GateAt(s, i, Signal)
    && var k := s.workers[i].stage;
       && s' == s.(workers := s'.workers, gates := s'.gates)
       && |s'.workers| == |s.workers| && |s'.gates| == |s.gates|
       && (forall j :: 0 <= j < |s.workers| ==> s'.workers[j] == AfterSignal(c, s, i, k, j))
       && s'.gates[k] == s.gates[k].(lock := None)
       && (forall k' :: 0 <= k' < |s.gates| && k' != k ==> s'.gates[k'] == s.gates[k'])
  }

  /** The pointer found in `queue` is the live condition variable of the one waiter with that number. */
  lemma SignalWakesTheNextWaiter(c: Config, s: State, i: nat)
    requires Inv(c, s) && Enabled(c, s, GateSignal(i))
    ensures SignalStep(c, s, Apply(c, s, GateSignal(i)), i)
  {
    var k := s.workers[i].stage;
    var g := s.gates[k];
    assert WorkerOk(s, i) && GateOk(s, k);
    forall j | 0 <= j < |s.workers| && s.workers[j] == AtStage(g.expectedSeqN, k, Wait)
      ensures g.expectedSeqN in g.queue && g.queue[g.expectedSeqN] == j
    {
      assert WorkerOk(s, j);
    }
  }

  lemma SignalKeepsWorker(c: Config, s: State, s': State, i: nat, j: nat)
    requires SignalStep(c, s, s', i) && j < |s.workers| && j != i
    requires WorkerOk(s, i) && WorkerOk(s, j) && GateOk(s, s.workers[i].stage)
    ensures WorkerOk(s', j)
  {
    assert s'.workers[j] == AfterSignal(c, s, i, s.workers[i].stage, j);
  }

  lemma SignalKeepsSelf(c: Config, s: State, s': State, i: nat)
    requires Inv(c, s) && SignalStep(c, s, s', i)
    ensures WorkerOk(s', i)
  {
    var k := s.workers[i].stage;
    assert WorkerOk(s, i) && GateOk(s, k);
    assert s'.workers[i] == Enroute(c, s.workers[i].job, k + 1);
    if k + 1 < |s.gates| { assert GateOk(s, k + 1); }
  }

  lemma SignalKeepsGate(c: Config, s: State, s': State, i: nat, k: nat)
    requires SignalStep(c, s, s', i) && k < |s.gates|
    requires WorkerOk(s, i) && GateOk(s, s.workers[i].stage) && GateOk(s, k)
    ensures GateOk(s', k)
  {
  }

  /** Leaving stage k releases its lock and wakes the worker whose turn it now is, if it is registered. */
  lemma GateSignalKeepsInv(c: Config, s: State, i: nat)
    requires Inv(c, s) && Enabled(c, s, GateSignal(i))
    ensures Inv(c, Apply(c, s, GateSignal(i)))
  {
    var s' := Apply(c, s, GateSignal(i));
    SignalWakesTheNextWaiter(c, s, i);
    assert WorkerOk(s, i) && GateOk(s, s.workers[i].stage);
    forall job | 0 <= job < |s'.taken| ensures JobTaken(s', job) { assert JobTaken(s, job); }
    forall j | 0 <= j < |s'.workers| ensures WorkerOk(s', j) {
      assert WorkerOk(s, j);
      if j == i { SignalKeepsSelf(c, s, s', i); } else { SignalKeepsWorker(c, s, s', i, j); }
    }
    forall k | 0 <= k < |s'.gates| ensures GateOk(s', k) {
      assert GateOk(s, k);
      SignalKeepsGate(c, s, s', i, k);
    }
    assert !s'.workers[i].PoolWait?;
  }

  // ---------- Spurious wakeups and the producer ----------

  lemma SpuriousWorkerKeepsInv(c: Config, s: State, i: nat)
    requires Inv(c, s) && Enabled(c, s, SpuriousWorker(i)) && s.workers[i].PoolWait?
    ensures Inv(c, Apply(c, s, SpuriousWorker(i)))
  {
    var s' := Apply(c, s, SpuriousWorker(i));
    assert WorkerOk(s, i);
    forall job | 0 <= job < |s'.taken| ensures JobTaken(s', job) { assert JobTaken(s, job); }
    assert !s'.workers[i].PoolWait?;
    PoolStepKeepsInv(c, s, s', i);
  }

  /** A step of the producer that touches nothing but its program counter and the pool lock. */
  lemma MainOnlyKeepsInv(c: Config, s: State, s': State)
    requires Inv(c, s) && s' == s.(main := s'.main, poolLock := s'.poolLock)
    requires s'.poolLock == s.poolLock || (!s.poolLock.Worker? && !s'.poolLock.Worker?)
    requires MainOk(c, s')
    ensures Inv(c, s')
  {
    forall job | 0 <= job < |s'.taken| ensures JobTaken(s', job) { assert JobTaken(s, job); }
    PoolStepKeepsInv(c, s, s', c.nWorkers);
  }

  lemma MainStepKeepsInv(c: Config, s: State, step: Step)
    requires Inv(c, s) && Enabled(c, s, step)
    requires step.MainLock? || step.MainDrain? || step.MainPoll? || step.MainJoin? || step.SpuriousMain?
    ensures Inv(c, Apply(c, s, step))
  {
    var s' := Apply(c, s, step);
    assert MainOk(c, s');
    MainOnlyKeepsInv(c, s, s');
  }

  lemma MainSubmitKeepsInv(c: Config, s: State, target: nat)
    requires ValidConfig(c) && Inv(c, s) && Enabled(c, s, MainSubmit(target))
    ensures Inv(c, Apply(c, s, MainSubmit(target)))
  {
    var s' := Apply(c, s, MainSubmit(target));
    if |s.jobs| >= c.maxQueueSize {
      MainOnlyKeepsInv(c, s, s');
    } else {
      var woken := if target < c.nWorkers && s.workers[target].PoolWait? then target else c.nWorkers;
      if woken < c.nWorkers { assert WorkerOk(s, woken); } else { assert !s'.workers[0].PoolWait?; }
      forall job | 0 <= job < |s'.taken| ensures JobTaken(s', job) { assert JobTaken(s, job); }
      PoolStepKeepsInv(c, s, s', woken);
    }
  }

  lemma MainTerminateKeepsInv(c: Config, s: State)
    requires ValidConfig(c) && Inv(c, s) && Enabled(c, s, MainTerminate)
    ensures Inv(c, Apply(c, s, MainTerminate))
  {
    var s' := Apply(c, s, MainTerminate);
    forall j | 0 <= j < |s'.workers| ensures WorkerOk(s', j) { assert WorkerOk(s, j); }
    forall k | 0 <= k < |s'.gates| ensures GateOk(s', k) { assert GateOk(s, k); }
    forall job | 0 <= job < |s'.taken| ensures JobTaken(s', job) { assert JobTaken(s, job); }
  }

  /** Every step keeps the invariant. */
  lemma StepKeepsInv(c: Config, s: State, step: Step)
    requires ValidConfig(c) && Inv(c, s) && Enabled(c, s, step)
    ensures Inv(c, Apply(c, s, step))
  {
    match step
    case WorkerLock(i) => WorkerLockKeepsInv(c, s, i);
    case WorkerIterate(i) =>
      if s.terminate || s.jobs == [] { WorkerStopsKeepsInv(c, s, i); } else { WorkerTakesKeepsInv(c, s, i); }
    case WorkerReport(i) => WorkerReportKeepsInv(c, s, i);
    case GateSignal(i) => GateSignalKeepsInv(c, s, i);
    case MainSubmit(target) => MainSubmitKeepsInv(c, s, target);
    case MainTerminate => MainTerminateKeepsInv(c, s);
    case SpuriousWorker(i) =>
      if s.workers[i].PoolWait? { SpuriousWorkerKeepsInv(c, s, i); } else { StageStepKeepsInv(c, s, step); }
    case MainLock => MainStepKeepsInv(c, s, step);
    case MainDrain => MainStepKeepsInv(c, s, step);
    case MainPoll => MainStepKeepsInv(c, s, step);
    case MainJoin => MainStepKeepsInv(c, s, step);
    case SpuriousMain => MainStepKeepsInv(c, s, step);
    case _ => StageStepKeepsInv(c, s, step);
  }

  /** Every state of every run satisfies the invariant. */
  lemma {:induction false} RunKeepsInv(c: Config, s: State, steps: seq<Step>)
    requires ValidConfig(c) && Inv(c, s) && IsRun(c, s, steps)
    ensures Inv(c, Follow(c, s, steps))
    decreases |steps|
  {
    if steps != [] {
      StepKeepsInv(c, s, steps[0]);
      RunKeepsInv(c, Apply(c, s, steps[0]), steps[1..]);
    }
  }
}
