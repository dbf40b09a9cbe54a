/** Every run of the pipeline ends, and what it has done when it ends. */
module EventPipelineTermination {
  import opened EventPipeline
  import opened EventPipelineInvariant
  import opened EventPipelineTheorems

  // ---------- Energy ----------

  /** How many more steps a thread can take before it must be woken again, plus what its wakeups of other
      threads cost.  A wakeup costs 2: the woken thread takes the lock and tests its condition again. */
  function StageEnergy(pc: GatePc): nat {
    match pc
    case Signal => 4 case Bump => 5 case Leave => 6 case Handle => 7 case Wait => 8
    case Test => 9 case Wake => 10 case Register => 10 case Enter => 11
  }

  function Less(n: nat, i: nat): nat { if i <= n then n - i else 0 }

  function WorkerEnergy(c: Config, w: WorkerPc): nat {
    match w
    case Exited => 0 case PoolWait => 1 case PoolLoop => 2 case PoolEnter => 3
    case Report(_) => 6 case Rejoin(_) => 7
    case AtStage(_, k, pc) => 7 + 12 * Less(c.nStages, k + 1) + StageEnergy(pc)
  }

  function SumEnergy(c: Config, ws: seq<WorkerPc>): nat {
    if ws == [] then 0 else WorkerEnergy(c, ws[0]) + SumEnergy(c, ws[1..])
  }

  /** A queued job: what it will cost the worker that takes it, and the wakeup of the producer. */
  function JobEnergy(c: Config): nat { 12 * c.nStages + 8 }

  function Times(n: nat, x: nat): nat { if n == 0 then 0 else x + Times(n - 1, x) }

  function DrainEnergy(c: Config, d: nat): nat { PollEndEnergy(c, d) + 4 * c.nWorkers + 1 }

  function PollEndEnergy(c: Config, d: nat): nat {
    if d == 0 then 3 * c.nWorkers + 4 else PollEndEnergy(c, d - 1) + 4 * c.nWorkers + 5
  }

  function SubmitEnergy(c: Config, submitted: nat): nat {
    Times(Less(c.nJobs, submitted), JobEnergy(c) + 4) + DrainEnergy(c, if c.nDrains >= 1 then c.nDrains - 1 else 0)
  }

  function MainEnergy(c: Config, s: State): nat {
    match s.main
    case Submit => SubmitEnergy(c, s.submitted) + 3
    case SubmitTest => SubmitEnergy(c, s.submitted) + 2
    case SubmitWait => SubmitEnergy(c, s.submitted) + 1
    case DrainEnter(d) => DrainEnergy(c, d) + 3
    case DrainTest(d) => DrainEnergy(c, d) + 2
    case DrainWait(d) => DrainEnergy(c, d) + 1
    case PollWorker(d, i) => PollEndEnergy(c, d) + 4 * Less(c.nWorkers, i)
    case PollWait(d, i) => PollEndEnergy(c, d) + 4 * Less(c.nWorkers, i + 1) + 1
    case PollWake(d, i) => PollEndEnergy(c, d) + 4 * Less(c.nWorkers, i + 1) + 3
    case TermEnter => 3 * c.nWorkers + 3
    case TermBody => 3 * c.nWorkers + 2
    case Join(i) => Less(c.nWorkers, i)
  }

  function Energy(c: Config, s: State): nat {
    MainEnergy(c, s) + Times(|s.jobs|, JobEnergy(c)) + SumEnergy(c, s.workers)
  }

  lemma {:induction false} SumUpdate(c: Config, ws: seq<WorkerPc>, i: nat, w: WorkerPc)
    requires i < |ws|
    ensures SumEnergy(c, ws[i := w]) == SumEnergy(c, ws) - WorkerEnergy(c, ws[i]) + WorkerEnergy(c, w)
    decreases |ws|
  {
    if i == 0 {
      assert ws[0 := w][1..] == ws[1..];
    } else {
      assert ws[i := w][1..] == ws[1..][i - 1 := w];
      SumUpdate(c, ws[1..], i - 1, w);
    }
  }

  lemma {:induction false} SumBroadcast(c: Config, ws: seq<WorkerPc>)
    ensures SumEnergy(c, BroadcastQueued(ws)) <= SumEnergy(c, ws) + 2 * |ws|
    decreases |ws|
  {
    if ws != [] {
      assert BroadcastQueued(ws)[1..] == BroadcastQueued(ws[1..]);
      SumBroadcast(c, ws[1..]);
    }
  }

  /** A step of one worker that leaves the producer and the queue alone. */
  lemma OneWorkerEnergy(c: Config, s: State, s': State, i: nat)
    requires i < |s.workers| == |s'.workers| && s'.workers == s.workers[i := s'.workers[i]]
    requires s'.main == s.main && s'.submitted == s.submitted && s'.jobs == s.jobs
    ensures Energy(c, s') == Energy(c, s) - WorkerEnergy(c, s.workers[i]) + WorkerEnergy(c, s'.workers[i])
  {
    SumUpdate(c, s.workers, i, s'.workers[i]);
    assert MainEnergy(c, s') == MainEnergy(c, s);
  }

  lemma SignalCosts(c: Config, s: State, s': State)
    requires s' == s.(main := s'.main)
    requires s'.main == s.main || s'.main == SignalDequeued(s.main) || s'.main == SignalCompleted(s.main)
    ensures Energy(c, s) <= Energy(c, s') <= Energy(c, s) + 2
    ensures s'.main != s.main ==> Energy(c, s') == Energy(c, s) + 2
  {
  }

  lemma GateStepEnergy(c: Config, s: State, step: Step)
    requires Enabled(c, s, step)
    requires step.GateLock? || step.GateRegister? || step.GateTest? || step.GateHandled? || step.GateBump?
    ensures Energy(c, Apply(c, s, step)) < Energy(c, s)
  {
    OneWorkerEnergy(c, s, Apply(c, s, step), step.i);
  }

  lemma PoolStepEnergy(c: Config, s: State, step: Step)
    requires Enabled(c, s, step)
    requires step.WorkerLock? || (step.WorkerIterate? && (s.terminate || s.jobs == [])) || step.WorkerReport?
    ensures Energy(c, Apply(c, s, step)) < Energy(c, s)
  {
    var s' := Apply(c, s, step);
    SignalCosts(c, s, s.(main := s'.main));
    OneWorkerEnergy(c, s.(main := s'.main), s', step.i);
  }

  lemma TakeJobEnergy(c: Config, s: State, i: nat)
    requires Enabled(c, s, WorkerIterate(i)) && !s.terminate && s.jobs != []
    ensures Energy(c, Apply(c, s, WorkerIterate(i))) < Energy(c, s)
  {
    var s' := Apply(c, s, WorkerIterate(i));
    var s1 := s.(main := s'.main);
    var s2 := s1.(jobs := s'.jobs);
    SignalCosts(c, s, s1);
    assert Energy(c, s2) == Energy(c, s1) - JobEnergy(c);
    OneWorkerEnergy(c, s2, s', i);
  }

  lemma GateSignalEnergy(c: Config, s: State, i: nat)
    requires Enabled(c, s, GateSignal(i))
    ensures Energy(c, Apply(c, s, GateSignal(i))) < Energy(c, s)
  {
    var s' := Apply(c, s, GateSignal(i));
    var k, g := s.workers[i].stage, s.gates[s.workers[i].stage];
    var s1 := s.(workers := s.workers[i := Enroute(c, s.workers[i].job, k + 1)]);
    OneWorkerEnergy(c, s, s1, i);
    if g.expectedSeqN in g.queue && g.queue[g.expectedSeqN] < |s1.workers| {
      OneWorkerEnergy(c, s1, s', g.queue[g.expectedSeqN]);
    } else {
      OneWorkerEnergy(c, s1, s', i);
    }
  }

  lemma SubmitStepEnergy(c: Config, s: State, target: nat)
    requires ValidConfig(c) && Inv(c, s) && Enabled(c, s, MainSubmit(target))
    ensures Energy(c, Apply(c, s, MainSubmit(target))) < Energy(c, s)
  {
    if |s.jobs| < c.maxQueueSize && target < |s.workers| {
      SumUpdate(c, s.workers, target, PoolEnter);
    }
  }

  lemma MainStepEnergy(c: Config, s: State, step: Step)
    requires ValidConfig(c) && Inv(c, s) && Enabled(c, s, step)
    requires step.MainLock? || step.MainDrain? || step.MainPoll? || step.MainJoin?
    ensures Energy(c, Apply(c, s, step)) < Energy(c, s)
  {
  }

  lemma TerminateEnergy(c: Config, s: State)
    requires ValidConfig(c) && Inv(c, s) && Enabled(c, s, MainTerminate)
    ensures Energy(c, Apply(c, s, MainTerminate)) < Energy(c, s)
  {
    SumBroadcast(c, s.workers);
  }

  lemma SpuriousEnergy(c: Config, s: State, step: Step)
    requires Enabled(c, s, step) && IsSpurious(step)
    ensures Energy(c, Apply(c, s, step)) == Energy(c, s) + 2
  {
    if step.SpuriousWorker? { OneWorkerEnergy(c, s, Apply(c, s, step), step.i); }
    else { SignalCosts(c, s, Apply(c, s, step)); }
  }

  /** A step of the program lowers the energy. */
  lemma ProgramStepEnergy(c: Config, s: State, step: Step)
    requires ValidConfig(c) && Inv(c, s) && Enabled(c, s, step) && !IsSpurious(step)
    ensures Energy(c, Apply(c, s, step)) < Energy(c, s)
  {
    if step.WorkerIterate? && !s.terminate && s.jobs != [] {
      TakeJobEnergy(c, s, step.i);
    } else if step.WorkerLock? || step.WorkerReport? || step.WorkerIterate? {
      PoolStepEnergy(c, s, step);
    } else if step.GateSignal? {
      GateSignalEnergy(c, s, step.i);
    } else if step.MainSubmit? {
      SubmitStepEnergy(c, s, step.target);
    } else if step.MainTerminate? {
      TerminateEnergy(c, s);
    } else if step.MainLock? || step.MainDrain? || step.MainPoll? || step.MainJoin? {
      MainStepEnergy(c, s, step);
    } else {
      GateStepEnergy(c, s, step);
    }
  }

  // ---------- Runs ----------

  function CountSpurious(steps: seq<Step>): nat {
    if steps == [] then 0 else (if IsSpurious(steps[0]) then 1 else 0) + CountSpurious(steps[1..])
  }

  lemma {:induction false} RunEnergy(c: Config, s: State, steps: seq<Step>)
    requires ValidConfig(c) && Inv(c, s) && IsRun(c, s, steps)
    ensures Energy(c, Follow(c, s, steps)) + |steps| <= Energy(c, s) + 3 * CountSpurious(steps)
    decreases |steps|
  {
    if steps != [] {
      if IsSpurious(steps[0]) { SpuriousEnergy(c, s, steps[0]); } else { ProgramStepEnergy(c, s, steps[0]); }
      StepKeepsInv(c, s, steps[0]);
      RunEnergy(c, Apply(c, s, steps[0]), steps[1..]);
    }
  }

  /** Every run is finite, under every schedule: its length is bounded by the energy of the initial state
      and by the number of spurious wakeups in it. */
  lemma RunsAreBounded(c: Config, steps: seq<Step>)
    requires ValidConfig(c) && IsRun(c, Init(c), steps)
    ensures |steps| <= Energy(c, Init(c)) + 3 * CountSpurious(steps)
  {
    InitInv(c);
    RunEnergy(c, Init(c), steps);
  }

  // ---------- Accounting ----------

  function InFlight(ws: seq<WorkerPc>): multiset<nat> {
    if ws == [] then multiset{}
    else (if Running(ws[0]) then multiset{ws[0].job} else multiset{}) + InFlight(ws[1..])
  }

  /** The jobs 0, 1, ..., n - 1. */
  function Jobs(n: nat): seq<nat> { seq(n, x => x) }

  lemma {:induction false} InFlightNone(ws: seq<WorkerPc>, job: nat)
    requires forall i :: 0 <= i < |ws| && Running(ws[i]) ==> ws[i].job != job
    ensures InFlight(ws)[job] == 0
    decreases |ws|
  {
    if ws != [] { InFlightNone(ws[1..], job); }
  }

  lemma {:induction false} InFlightOne(ws: seq<WorkerPc>, job: nat, w: nat)
    requires w < |ws| && Running(ws[w]) && ws[w].job == job
    requires forall i :: 0 <= i < |ws| && Running(ws[i]) && ws[i].job == job ==> i == w
    ensures InFlight(ws)[job] == 1
    decreases |ws|
  {
    if w == 0 { InFlightNone(ws[1..], job); } else { InFlightOne(ws[1..], job, w - 1); }
  }

  lemma {:induction false} DistinctOnce(xs: seq<nat>, x: nat)
    requires forall i, j :: 0 <= i < j < |xs| ==> xs[i] != xs[j]
    ensures multiset(xs)[x] == if x in xs then 1 else 0
    decreases |xs|
  {
    if xs != [] {
      assert xs == xs[..|xs| - 1] + [xs[|xs| - 1]];
      DistinctOnce(xs[..|xs| - 1], x);
    }
  }

  lemma JobIsInOnePlace(c: Config, s: State, job: nat)
    requires Inv(c, s)
    ensures multiset(s.done)[job] + InFlight(s.workers)[job] + multiset(s.jobs)[job] == multiset(Jobs(s.submitted))[job]
  {
    DistinctOnce(s.done, job);
    DistinctOnce(s.jobs, job);
    DistinctOnce(Jobs(s.submitted), job);
    assert job in Jobs(s.submitted) <==> job < s.submitted by {
      if job < s.submitted { assert Jobs(s.submitted)[job] == job; }
    }
    assert job in s.jobs <==> |s.taken| <= job < s.submitted by {
      if |s.taken| <= job < s.submitted { assert s.jobs[job - |s.taken|] == job; }
    }
    forall i | 0 <= i < |s.workers| && Running(s.workers[i]) ensures JobOf(s, i, s.workers[i].job) {
      assert WorkerOk(s, i);
    }
    if job < |s.taken| && job !in s.done {
      assert JobTaken(s, job);
      InFlightOne(s.workers, job, s.taken[job]);
    } else {
      InFlightNone(s.workers, job);
    }
  }

  /** In every reachable state the submitted jobs are the finished ones, the ones in flight and the queued
      ones, each job once; the queue holds the next jobs in submission order and respects its bound. */
  lemma PoolAccounting(c: Config, s: State)
    requires ValidConfig(c) && Reachable(c, s)
    ensures multiset(s.done) + InFlight(s.workers) + multiset(s.jobs) == multiset(Jobs(s.submitted))
    ensures |s.taken| <= s.submitted && s.jobs == Jobs(s.submitted)[|s.taken|..]
    ensures |s.jobs| <= c.maxQueueSize
  {
    ReachableInv(c, s);
    forall job: nat
      ensures multiset(s.done)[job] + InFlight(s.workers)[job] + multiset(s.jobs)[job] ==
        multiset(Jobs(s.submitted))[job]
    {
      JobIsInOnePlace(c, s, job);
    }
  }

  /** The trace of a stage that has handled n jobs. */
  function FullTrace(n: nat): seq<HandlerEvent> {
    seq(2 * n, x requires 0 <= x => SequentialEvent(x))
  }

  /** When the destructor has returned, every job has run exactly once and every stage has handled
      0, 1, ..., nJobs - 1 in this order. */
  lemma FinishedDidEverything(c: Config, s: State)
    requires ValidConfig(c) && Reachable(c, s) && Finished(c, s)
    ensures multiset(s.done) == multiset(Jobs(c.nJobs))
    ensures Shape(c, s) && forall k :: 0 <= k < c.nStages ==> s.gates[k].trace == FullTrace(c.nJobs)
  {
    ReachableInv(c, s);
    PoolAccounting(c, s);
    AllExitedMeansNoneInFlight(s.workers);
    forall k | 0 <= k < c.nStages ensures s.gates[k].trace == FullTrace(c.nJobs) {
      assert GateOk(s, k);
      var e := s.gates[k].expectedSeqN;
      forall x | 0 <= x < |s.done| ensures s.done[x] < e { assert PassedAll(s, s.done[x]); }
      assert e < |s.taken| ==> JobTaken(s, e);
    }
  }

  lemma {:induction false} AllExitedMeansNoneInFlight(ws: seq<WorkerPc>)
    requires forall i :: 0 <= i < |ws| ==> ws[i].Exited?
    ensures InFlight(ws) == multiset{}
    decreases |ws|
  {
    if ws != [] { AllExitedMeansNoneInFlight(ws[1..]); }
  }

  /** All of it together: follow any schedule until only spurious wakeups are possible.  That happens after
      a bounded number of steps, and then the pool has been destroyed and all the work is done, in order. */
  lemma EveryScheduleFinishes(c: Config, steps: seq<Step>)
    requires ValidConfig(c) && IsRun(c, Init(c), steps) && !CanStep(c, Follow(c, Init(c), steps))
    ensures |steps| <= Energy(c, Init(c)) + 3 * CountSpurious(steps)
    ensures var s := Follow(c, Init(c), steps);
      && Finished(c, s) && Shape(c, s) && multiset(s.done) == multiset(Jobs(c.nJobs))
      && forall k :: 0 <= k < c.nStages ==> s.gates[k].trace == FullTrace(c.nJobs)
  {
    var s := Follow(c, Init(c), steps);
    assert Reachable(c, s);
    RunsAreBounded(c, steps);
    if !Finished(c, s) { NeverStuck(c, s); }
    FinishedDidEverything(c, s);
  }
}
