/** The ordered event pipeline as an interleaving step system.

    One producer thread submits jobs 0, 1, 2, ... to a bounded queue, drains the queue and destroys the
    pool; a fixed set of workers takes jobs from the queue and pushes each one through a chain of ordered
    stages.  A stage is a mutex, the next expected sequence number and one condition variable per waiter.

    A step is one lock acquisition, or one piece of work between two of them.  A thread blocked in
    `pthread_cond_wait` leaves it when it is signalled, or by a spurious wakeup; a signal wakes exactly one
    waiter, and an implementation that wakes more is a signal followed by spurious wakeups. */
module EventPipeline {
  import opened Wrappers

  /** The parameters of one run: pool size, queue bound, number of chained ordered stages, number of jobs
      and how often the producer calls `completeQueue` (the destructor makes the last of these calls). */
  datatype Config = Config(nWorkers: nat, maxQueueSize: nat, nStages: nat, nJobs: nat, nDrains: nat)

  predicate ValidConfig(c: Config) {
    c.nWorkers >= 1 && c.maxQueueSize >= 1 && c.nDrains >= 1
  }

  /** Where a worker is inside `pushEvents` of one stage. */
  datatype GatePc =
    | Enter     // about to take the stage lock
    | Register  // holds it, about to publish its condition variable
    | Test      // holds it, about to compare its sequence number
    | Wait      // blocked in pthread_cond_wait
    | Wake      // woken, about to take the lock again
    | Handle    // its turn: running handleEvents, without the lock
    | Leave     // about to take the lock again
    | Bump      // holds it, about to increment expectedSeqN
    | Signal    // holds it, about to signal the next waiter

  datatype WorkerPc =
    | PoolEnter                                 // about to take the pool lock
    | PoolLoop                                  // holds it, at the head of the worker loop
    | PoolWait                                  // blocked on cond_queued
    | AtStage(job: nat, stage: nat, pc: GatePc)
    | Rejoin(job: nat)                          // task finished, about to take the pool lock
    | Report(job: nat)                          // holds it, about to clear isBusy
    | Exited

  datatype MainPc =
    | Submit | SubmitTest | SubmitWait                        // queueTask
    | DrainEnter(d: nat) | DrainTest(d: nat) | DrainWait(d: nat) // completeQueue, d more calls to come
    | PollWorker(d: nat, i: nat)                              // completeQueue looking at worker i
    | PollWait(d: nat, i: nat) | PollWake(d: nat, i: nat)
    | TermEnter | TermBody                                    // the destructor
    | Join(i: nat)                                            // joining worker i; Join(nWorkers) has returned

  datatype Owner = Free | Main | Worker(i: nat)

  datatype HandlerEvent = Begin(seqN: nat) | End(seqN: nat)

  /** One stage.  `queue` maps a registered sequence number to the worker whose stack holds the condition
      variable; `trace` is a history of the calls of handleEvents. */
  datatype Gate = Gate(lock: Option<nat>, expectedSeqN: nat, queue: map<nat, nat>, trace: seq<HandlerEvent>)

  /** `submitted`, `taken` (which worker dequeued job 0, 1, ...) and `done` are histories. */
  datatype State = State(
    poolLock: Owner, jobs: seq<nat>, terminate: bool, isBusy: seq<bool>,
    workers: seq<WorkerPc>, main: MainPc, gates: seq<Gate>,
    submitted: nat, taken: seq<nat>, done: seq<nat>)

  datatype Step =
    | WorkerLock(i: nat) | WorkerIterate(i: nat) | WorkerReport(i: nat)
    | GateLock(i: nat) | GateRegister(i: nat) | GateTest(i: nat) | GateHandled(i: nat)
    | GateBump(i: nat) | GateSignal(i: nat)
    | MainLock | MainSubmit(target: nat) | MainDrain | MainPoll | MainTerminate | MainJoin
    | SpuriousWorker(i: nat) | SpuriousMain

  predicate IsSpurious(step: Step) { step.SpuriousWorker? || step.SpuriousMain? }

  // ---------- Program counters ----------

  predicate HoldsGate(pc: GatePc) { pc.Register? || pc.Test? || pc.Bump? || pc.Signal? }

  predicate WantsGate(pc: GatePc) { pc.Enter? || pc.Wake? || pc.Leave? }

  predicate Registered(pc: GatePc) { pc.Test? || pc.Wait? || pc.Wake? }

  /** Between leaving the wait loop and incrementing expectedSeqN. */
  predicate HasTurn(pc: GatePc) { pc.Handle? || pc.Leave? || pc.Bump? }

  predicate WorkerHoldsPool(w: WorkerPc) { w.PoolLoop? || w.Report? }

  predicate Running(w: WorkerPc) { w.AtStage? || w.Rejoin? || w.Report? }

  predicate MainHoldsPool(m: MainPc) { m.SubmitTest? || m.DrainTest? || m.PollWorker? || m.TermBody? }

  predicate MainWantsPool(m: MainPc) { m.Submit? || m.DrainEnter? || m.PollWake? || m.TermEnter? }

  // ---------- Waking threads ----------

  function WakeGate(pc: GatePc): GatePc { if pc.Wait? then Wake else pc }

  function WakeWorker(w: WorkerPc): WorkerPc {
    match w
    case PoolWait => PoolEnter
    case AtStage(job, stage, pc) => AtStage(job, stage, WakeGate(pc))
    case _ => w
  }

  /** A signal on cond_dequeued. */
  function SignalDequeued(m: MainPc): MainPc {
    match m
    case SubmitWait => Submit
    case DrainWait(d) => DrainEnter(d)
    case _ => m
  }

  /** A signal on cond_completed. */
  function SignalCompleted(m: MainPc): MainPc {
    match m
    case PollWait(d, i) => PollWake(d, i)
    case _ => m
  }

  /** A broadcast on cond_queued. */
  function BroadcastQueued(ws: seq<WorkerPc>): (r: seq<WorkerPc>)
    ensures |r| == |ws|
    ensures forall i :: 0 <= i < |ws| ==> r[i] == if ws[i].PoolWait? then PoolEnter else ws[i]
  {
    seq(|ws|, i requires 0 <= i < |ws| => if ws[i].PoolWait? then PoolEnter else ws[i])
  }

  // ---------- Steps ----------

  /** A job that has passed the stages below `stage`. */
  function Enroute(c: Config, job: nat, stage: nat): WorkerPc {
    if stage < c.nStages then AtStage(job, stage, Enter) else Rejoin(job)
  }

  function AfterSubmit(c: Config, submitted: nat): MainPc {
    if submitted < c.nJobs then Submit else DrainEnter(if c.nDrains >= 1 then c.nDrains - 1 else 0)
  }

  function Init(c: Config): State {
    State(Free, [], false, seq(c.nWorkers, _ => false), seq(c.nWorkers, _ => PoolEnter), AfterSubmit(c, 0),
          seq(c.nStages, _ => Gate(None, 0, map[], [])), 0, [], [])
  }

  predicate Shape(c: Config, s: State) {
    |s.workers| == c.nWorkers && |s.isBusy| == c.nWorkers && |s.gates| == c.nStages
  }

  /** Worker i is at a stage, with program counter pc. */
  predicate GateAt(s: State, i: nat, pc: GatePc) {
    i < |s.workers| && s.workers[i].AtStage? && s.workers[i].stage < |s.gates| && s.workers[i].pc == pc
  }

  predicate Enabled(c: Config, s: State, step: Step) {
    Shape(c, s) &&
    match step
    case WorkerLock(i) =>
      i < |s.workers| && (s.workers[i].PoolEnter? || s.workers[i].Rejoin?) && s.poolLock == Free
    case WorkerIterate(i) => i < |s.workers| && s.workers[i].PoolLoop?
    case WorkerReport(i) => i < |s.workers| && s.workers[i].Report?
    case GateLock(i) =>
      i < |s.workers| && s.workers[i].AtStage? && s.workers[i].stage < |s.gates| &&
      WantsGate(s.workers[i].pc) && s.gates[s.workers[i].stage].lock == None
    case GateRegister(i) => GateAt(s, i, Register)
    case GateTest(i) => GateAt(s, i, Test)
    case GateHandled(i) => GateAt(s, i, Handle)
    case GateBump(i) => GateAt(s, i, Bump)
    case GateSignal(i) => GateAt(s, i, Signal)
    case MainLock => MainWantsPool(s.main) && s.poolLock == Free
    case MainSubmit(target) =>
      s.main.SubmitTest? &&
      ((forall i :: 0 <= i < |s.workers| ==> !s.workers[i].PoolWait?) ||
       (target < |s.workers| && s.workers[target].PoolWait?))
    case MainDrain => s.main.DrainTest?
    case MainPoll => s.main.PollWorker?
    case MainTerminate => s.main.TermBody?
    case MainJoin => s.main.Join? && s.main.i < |s.workers| && s.workers[s.main.i].Exited?
    case SpuriousWorker(i) =>
      i < |s.workers| && (s.workers[i].PoolWait? || (s.workers[i].AtStage? && s.workers[i].pc.Wait?))
    case SpuriousMain => s.main.SubmitWait? || s.main.DrainWait? || s.main.PollWait?
  }

  function SetPc(s: State, i: nat, pc: GatePc): State
    requires i < |s.workers| && s.workers[i].AtStage?
  {
    s.(workers := s.workers[i := s.workers[i].(pc := pc)])
  }

  /** One turn of the worker loop: leave, wait for work, or take the job at the head of the queue. */
  function Iterate(c: Config, s: State, i: nat): State
    requires i < |s.workers| == |s.isBusy|
  {
    if s.terminate then
      s.(poolLock := Free, workers := s.workers[i := Exited])
    else if s.jobs == [] then
      s.(poolLock := Free, workers := s.workers[i := PoolWait])
    else
      s.(poolLock := Free, jobs := s.jobs[1..], isBusy := s.isBusy[i := true],
         workers := s.workers[i := Enroute(c, s.jobs[0], 0)], taken := s.taken + [i],
         main := SignalDequeued(s.main))
  }

  function Apply(c: Config, s: State, step: Step): State
    requires Enabled(c, s, step)
  {
    match step
    case WorkerLock(i) =>
      s.(poolLock := Worker(i),
         workers := s.workers[i := if s.workers[i].Rejoin? then Report(s.workers[i].job) else PoolLoop])
    case WorkerIterate(i) => Iterate(c, s, i)
    case WorkerReport(i) =>
      s.(isBusy := s.isBusy[i := false], workers := s.workers[i := PoolLoop],
         main := SignalCompleted(s.main), done := s.done + [s.workers[i].job])
    case GateLock(i) =>
      var k, pc := s.workers[i].stage, s.workers[i].pc;
      SetPc(s, i, if pc.Enter? then Register else if pc.Wake? then Test else Bump)
      .(gates := s.gates[k := s.gates[k].(lock := Some(i))])
    case GateRegister(i) =>
      var k, g := s.workers[i].stage, s.gates[s.workers[i].stage];
      SetPc(s, i, Test).(gates := s.gates[k := g.(queue := g.queue[s.workers[i].job := i])])
    case GateTest(i) =>
      var job, k, g := s.workers[i].job, s.workers[i].stage, s.gates[s.workers[i].stage];
      if job != g.expectedSeqN then
        SetPc(s, i, Wait).(gates := s.gates[k := g.(lock := None)])
      else
        SetPc(s, i, Handle).(gates := s.gates[k := g.(lock := None, queue := g.queue - {job},
                                                        trace := g.trace + [Begin(job)])])
    case GateHandled(i) =>
      var k, g := s.workers[i].stage, s.gates[s.workers[i].stage];
      SetPc(s, i, Leave).(gates := s.gates[k := g.(trace := g.trace + [End(s.workers[i].job)])])
    case GateBump(i) =>
      var k, g := s.workers[i].stage, s.gates[s.workers[i].stage];
      SetPc(s, i, Signal).(gates := s.gates[k := g.(expectedSeqN := g.expectedSeqN + 1)])
    case GateSignal(i) =>
      var job, k, g := s.workers[i].job, s.workers[i].stage, s.gates[s.workers[i].stage];
      var left := s.workers[i := Enroute(c, job, k + 1)];
      var next := g.expectedSeqN;
      var ws := if next in g.queue && g.queue[next] < |left|
                then left[g.queue[next] := WakeWorker(left[g.queue[next]])] else left;
      s.(workers := ws, gates := s.gates[k := g.(lock := None)])
    case MainLock =>
      s.(poolLock := Main,
         main := match s.main
                 case Submit => SubmitTest
                 case DrainEnter(d) => DrainTest(d)
                 case PollWake(d, i) => PollWorker(d, i + 1)
                 case _ => TermBody)
    case MainSubmit(target) =>
      if |s.jobs| >= c.maxQueueSize then
        s.(poolLock := Free, main := SubmitWait)
      else
        s.(poolLock := Free, jobs := s.jobs + [s.submitted], submitted := s.submitted + 1,
           main := AfterSubmit(c, s.submitted + 1),
           workers := if target < |s.workers| && s.workers[target].PoolWait?
                      then s.workers[target := PoolEnter] else s.workers)
    case MainDrain =>
      if s.jobs != [] then s.(poolLock := Free, main := DrainWait(s.main.d))
      else s.(main := PollWorker(s.main.d, 0))
    case MainPoll =>
      var d, i := s.main.d, s.main.i;
      if i >= |s.workers| then s.(poolLock := Free, main := if d == 0 then TermEnter else DrainEnter(d - 1))
      else if s.isBusy[i] then s.(poolLock := Free, main := PollWait(d, i))
      else s.(main := PollWorker(d, i + 1))
    case MainTerminate =>
      s.(poolLock := Free, terminate := true, workers := BroadcastQueued(s.workers), main := Join(0))
    case MainJoin => s.(main := Join(s.main.i + 1))
    case SpuriousWorker(i) => s.(workers := s.workers[i := WakeWorker(s.workers[i])])
    case SpuriousMain => s.(main := SignalCompleted(SignalDequeued(s.main)))
  }

  // ---------- Runs ----------

  /** A run is the list of its steps; `Follow` is the state they lead to from `s`. */
  predicate IsRun(c: Config, s: State, steps: seq<Step>)
    decreases |steps|
  {
    steps == [] || (Enabled(c, s, steps[0]) && IsRun(c, Apply(c, s, steps[0]), steps[1..]))
  }

  function Follow(c: Config, s: State, steps: seq<Step>): State
    requires IsRun(c, s, steps)
    decreases |steps|
  {
    if steps == [] then s else Follow(c, Apply(c, s, steps[0]), steps[1..])
  }

  /** The destructor has joined every worker. */
  predicate Finished(c: Config, s: State) { s.main == Join(c.nWorkers) }
}
