/** A run at whose end completeQueue has returned with a worker still busy, for every pool and every number of jobs,
    stages and calls for which there is one. */
module EventPipelineBusyRun {
  import opened Powers
  import opened Wrappers
  import opened EventPipeline
  import opened EventPipelineDrain
  import opened EventPipelineInvariant

  // ---------- Runs in pieces ----------

  ghost predicate Leads(c: Config, s: State, t: State) {
    exists steps :: IsRun(c, s, steps) && Calm(steps) && Follow(c, s, steps) == t
  }

  lemma {:induction false} Chain(c: Config, s: State, a: seq<Step>, b: seq<Step>)
    requires IsRun(c, s, a) && IsRun(c, Follow(c, s, a), b)
    ensures IsRun(c, s, a + b) && Follow(c, s, a + b) == Follow(c, Follow(c, s, a), b)
    decreases |a|
  {
    if a == [] {
      assert a + b == b;
    } else {
      assert (a + b)[0] == a[0] && (a + b)[1..] == a[1..] + b;
      Chain(c, Apply(c, s, a[0]), a[1..], b);
    }
  }

  lemma Then(c: Config, s: State, t: State, u: State)
    requires Leads(c, s, t) && Leads(c, t, u)
    ensures Leads(c, s, u)
  {
    var a :| IsRun(c, s, a) && Calm(a) && Follow(c, s, a) == t;
    var b :| IsRun(c, t, b) && Calm(b) && Follow(c, t, b) == u;
    Chain(c, s, a, b);
    assert Calm(a + b);
  }

  lemma Stay(c: Config, s: State)
    ensures Leads(c, s, s)
  {
    assert IsRun(c, s, []) && Calm([]);
  }

  lemma Go(c: Config, s: State, step: Step, t: State)
    requires Enabled(c, s, step) && !IsSpurious(step) && t == Apply(c, s, step)
    ensures Leads(c, s, t)
  {
    var steps := [step];
    assert IsRun(c, t, steps[1..]);
    assert IsRun(c, s, steps) && Calm(steps) && Follow(c, s, steps) == t;
  }

  lemma GoOn(c: Config, s: State, t: State, step: Step, u: State)
    requires Leads(c, s, t) && Enabled(c, t, step) && !IsSpurious(step) && u == Apply(c, t, step)
    ensures Leads(c, s, u)
  {
    Go(c, t, step, u);
    Then(c, s, t, u);
  }

  // ---------- One worker ----------

  /** Nobody is at the stage, and it expects job e. */
  predicate Quiet(g: Gate, e: nat) { g.lock == None && g.queue == map[] && g.expectedSeqN == e }

  lemma PassStage(c: Config, s: State, i: nat, job: nat, k: nat) returns (t: State)
    requires Shape(c, s) && i < c.nWorkers && s.workers[i] == AtStage(job, k, Enter)
    requires k < c.nStages && Quiet(s.gates[k], job)
    ensures Leads(c, s, t) && t == s.(workers := t.workers, gates := t.gates)
    ensures t.workers == s.workers[i := Enroute(c, job, k + 1)]
    ensures |t.gates| == c.nStages && Quiet(t.gates[k], job + 1) && t.gates == s.gates[k := t.gates[k]]
  {
    hide Leads;
    var g := s.gates[k];
    var s1 := s.(workers := s.workers[i := AtStage(job, k, Register)], gates := s.gates[k := g.(lock := Some(i))]);
    Go(c, s, GateLock(i), s1);
    var g2 := g.(lock := Some(i), queue := map[job := i]);
    var s2 := s.(workers := s.workers[i := AtStage(job, k, Test)], gates := s.gates[k := g2]);
    GoOn(c, s, s1, GateRegister(i), s2);
    var g3 := g.(trace := g.trace + [HandlerEvent.Begin(job)]);
    var s3 := s.(workers := s.workers[i := AtStage(job, k, Handle)], gates := s.gates[k := g3]);
    GoOn(c, s, s2, GateTest(i), s3);
    var g4 := g.(trace := g3.trace + [End(job)]);
    var s4 := s.(workers := s.workers[i := AtStage(job, k, Leave)], gates := s.gates[k := g4]);
    GoOn(c, s, s3, GateHandled(i), s4);
    t := PassStageOn(c, s4, i, job, k);
    Then(c, s, s4, t);
  }

  lemma PassStageOn(c: Config, s: State, i: nat, job: nat, k: nat) returns (t: State)
    requires Shape(c, s) && i < c.nWorkers && s.workers[i] == AtStage(job, k, Leave)
    requires k < c.nStages && Quiet(s.gates[k], job)
    ensures Leads(c, s, t) && t == s.(workers := t.workers, gates := t.gates)
    ensures t.workers == s.workers[i := Enroute(c, job, k + 1)]
    ensures |t.gates| == c.nStages && Quiet(t.gates[k], job + 1) && t.gates == s.gates[k := t.gates[k]]
  {
    hide Leads;
    var g := s.gates[k];
    var s1 := s.(workers := s.workers[i := AtStage(job, k, Bump)], gates := s.gates[k := g.(lock := Some(i))]);
    Go(c, s, GateLock(i), s1);
    var g2 := g.(lock := Some(i), expectedSeqN := job + 1);
    var s2 := s.(workers := s.workers[i := AtStage(job, k, GatePc.Signal)], gates := s.gates[k := g2]);
    GoOn(c, s, s1, GateBump(i), s2);
    t := s.(workers := s.workers[i := Enroute(c, job, k + 1)], gates := s.gates[k := g.(expectedSeqN := job + 1)]);
    GoOn(c, s, s2, GateSignal(i), t);
  }

  /** A job passes the stages from k on. */
  lemma {:induction false} PassStages(c: Config, s: State, i: nat, job: nat, k: nat) returns (t: State)
    requires Shape(c, s) && i < c.nWorkers && k <= c.nStages && s.workers[i] == Enroute(c, job, k)
    requires forall x :: 0 <= x < c.nStages ==> Quiet(s.gates[x], if x < k then job + 1 else job)
    ensures Leads(c, s, t) && t == s.(workers := s.workers[i := Rejoin(job)], gates := t.gates)
    ensures |t.gates| == c.nStages && forall x :: 0 <= x < c.nStages ==> Quiet(t.gates[x], job + 1)
    decreases c.nStages - k
  {
    hide Leads;
    if k == c.nStages {
      t := s;
      Stay(c, s);
      assert s.workers[i := Rejoin(job)] == s.workers;
    } else {
      var u := PassStage(c, s, i, job, k);
      t := PassStages(c, u, i, job, k + 1);
      Then(c, s, u, t);
      assert t.workers == s.workers[i := Rejoin(job)];
    }
  }

  /** A worker reports its job and waits for work. */
  lemma FinishJob(c: Config, s: State, i: nat) returns (t: State)
    requires Shape(c, s) && i < c.nWorkers && s.workers[i].Rejoin? && s.poolLock == Free && s.jobs == [] && !s.terminate
    ensures Leads(c, s, t)
    ensures t == s.(workers := s.workers[i := PoolWait], isBusy := s.isBusy[i := false],
                    main := SignalCompleted(s.main), done := s.done + [s.workers[i].job])
  {
    hide Leads;
    var job := s.workers[i].job;
    var s1 := s.(poolLock := Worker(i), workers := s.workers[i := Report(job)]);
    Go(c, s, WorkerLock(i), s1);
    var s2 := s1.(isBusy := s.isBusy[i := false], workers := s.workers[i := PoolLoop],
                  main := SignalCompleted(s.main), done := s.done + [job]);
    GoOn(c, s, s1, WorkerReport(i), s2);
    t := s2.(poolLock := Free, workers := s.workers[i := PoolWait]);
    GoOn(c, s, s2, WorkerIterate(i), t);
  }

  // ---------- Filling the pool ----------

  /** j jobs were submitted; the first b workers hold the last b of them, their stages passed, and the others are free,
      all of them about to look for work but the first, which may wait for it. */
  ghost predicate Waiting(c: Config, s: State, j: nat, b: nat) {
    && Shape(c, s) && s.poolLock == Free && !s.terminate && s.jobs == [] && b <= c.nWorkers
    && j <= c.nJobs && s.main == AfterSubmit(c, j) && s.submitted == |s.taken| == j
    && (forall k :: 0 <= k < c.nStages ==> Quiet(s.gates[k], j))
    && (forall i :: 0 <= i < b ==> s.workers[i].Rejoin? && s.isBusy[i])
    && (forall i :: b <= i < c.nWorkers ==>
          !s.isBusy[i] && (s.workers[i] == PoolEnter || (i == 0 && s.workers[i] == PoolWait)))
  }

  lemma SubmitJob(c: Config, s: State, j: nat, b: nat) returns (t: State)
    requires ValidConfig(c) && Waiting(c, s, j, b) && j < c.nJobs && b < c.nWorkers
    ensures Leads(c, s, t)
    ensures t ==
      s.(jobs := [j], submitted := j + 1, main := AfterSubmit(c, j + 1), workers := s.workers[b := PoolEnter])
  {
    hide Leads;
    var s1 := s.(poolLock := Main, main := SubmitTest);
    Go(c, s, MainLock, s1);
    t := s.(jobs := [j], submitted := j + 1, main := AfterSubmit(c, j + 1), workers := s.workers[b := PoolEnter]);
    assert s.workers[b := PoolEnter] == if s.workers[0].PoolWait? then s.workers[0 := PoolEnter] else s.workers;
    GoOn(c, s, s1, MainSubmit(0), t);
  }

  /** Worker b takes the next job through all stages. */
  lemma TakeJob(c: Config, s: State, j: nat, b: nat) returns (t: State)
    requires ValidConfig(c) && Waiting(c, s, j, b) && j < c.nJobs && b < c.nWorkers
    ensures Leads(c, s, t) && Waiting(c, t, j + 1, b + 1)
  {
    hide Leads;
    var s1 := SubmitJob(c, s, j, b);
    var s2 := s1.(poolLock := Worker(b), workers := s.workers[b := PoolLoop]);
    GoOn(c, s, s1, WorkerLock(b), s2);
    var s3 := s1.(jobs := [], isBusy := s.isBusy[b := true], workers := s.workers[b := Enroute(c, j, 0)],
                  taken := s.taken + [b]);
    GoOn(c, s, s2, WorkerIterate(b), s3);
    t := PassStages(c, s3, b, j, 0);
    Then(c, s, s3, t);
  }

  lemma {:induction false} DoJobs(c: Config, s: State, j: nat, n: nat) returns (t: State)
    requires ValidConfig(c) && Waiting(c, s, j, 0) && j + n <= c.nJobs
    ensures Leads(c, s, t) && Waiting(c, t, j + n, 0)
    decreases n
  {
    hide Leads;
    if n == 0 {
      t := s;
      Stay(c, s);
    } else {
      var u := TakeJob(c, s, j, 0);
      var v := FinishJob(c, u, 0);
      Then(c, s, u, v);
      t := DoJobs(c, v, j + 1, n - 1);
      Then(c, s, v, t);
    }
  }

  lemma {:induction false} FillPool(c: Config, s: State, j: nat, b: nat, n: nat) returns (t: State)
    requires ValidConfig(c) && Waiting(c, s, j, b) && j + n <= c.nJobs && b + n <= c.nWorkers
    ensures Leads(c, s, t) && Waiting(c, t, j + n, b + n)
    decreases n
  {
    hide Leads;
    if n == 0 {
      t := s;
      Stay(c, s);
    } else {
      var u := TakeJob(c, s, j, b);
      t := FillPool(c, u, j + 1, b + 1, n - 1);
      Then(c, s, u, t);
    }
  }

  // ---------- The calls ----------

  /** The first b workers are busy, and the producer is at main. */
  ghost predicate Calling(c: Config, s: State, main: MainPc, b: nat) {
    && Shape(c, s) && !s.terminate && s.jobs == [] && b <= c.nWorkers && s.main == main
    && s.poolLock == (if MainHoldsPool(main) then Main else Free)
    && (forall i :: 0 <= i < b ==> s.workers[i].Rejoin? && s.isBusy[i])
    && (forall i :: b <= i < c.nWorkers ==> !s.isBusy[i])
  }

  /** The producer waits for worker i, and the last busy worker finishes. */
  lemma WaitForOne(c: Config, s: State, d: nat, i: nat, b: nat) returns (t: State)
    requires Calling(c, s, PollWorker(d, i), b) && i < b
    ensures Leads(c, s, t) && Calling(c, t, PollWorker(d, i + 1), b - 1)
  {
    hide Leads;
    var s1 := s.(poolLock := Free, main := PollWait(d, i));
    Go(c, s, MainPoll, s1);
    var s2 := FinishJob(c, s1, b - 1);
    Then(c, s, s1, s2);
    t := s2.(poolLock := Main, main := PollWorker(d, i + 1));
    GoOn(c, s, s2, MainLock, t);
  }

  lemma {:induction false} WaitForHalf(c: Config, s: State, d: nat, i: nat, h: nat) returns (t: State)
    requires i <= h && Calling(c, s, PollWorker(d, i), 2 * h - i)
    ensures Leads(c, s, t) && Calling(c, t, PollWorker(d, h), h)
    decreases h - i
  {
    hide Leads;
    if i == h {
      t := s;
      Stay(c, s);
    } else {
      var u := WaitForOne(c, s, d, i, 2 * h - i);
      t := WaitForHalf(c, u, d, i + 1, h);
      Then(c, s, u, t);
    }
  }

  function AfterCall(d: nat): MainPc { if d == 0 then TermEnter else DrainEnter(d - 1) }

  lemma {:induction false} PassIdle(c: Config, s: State, d: nat, i: nat, b: nat) returns (t: State)
    requires b <= i <= c.nWorkers && Calling(c, s, PollWorker(d, i), b)
    ensures Leads(c, s, t) && Calling(c, t, AfterCall(d), b)
    decreases c.nWorkers - i
  {
    hide Leads;
    if i == c.nWorkers {
      t := s.(poolLock := Free, main := AfterCall(d));
      Go(c, s, MainPoll, t);
    } else {
      var u := s.(main := PollWorker(d, i + 1));
      Go(c, s, MainPoll, u);
      t := PassIdle(c, u, d, i + 1, b);
      Then(c, s, u, t);
    }
  }

  lemma OneCall(c: Config, s: State, d: nat, h: nat) returns (t: State)
    requires Calling(c, s, DrainEnter(d), 2 * h)
    ensures Leads(c, s, t) && Calling(c, t, AfterCall(d), h)
  {
    hide Leads;
    var s1 := s.(poolLock := Main, main := DrainTest(d));
    Go(c, s, MainLock, s1);
    var s2 := s.(poolLock := Main, main := PollWorker(d, 0));
    GoOn(c, s, s1, MainDrain, s2);
    var u := WaitForHalf(c, s2, d, 0, h);
    Then(c, s, s2, u);
    t := PassIdle(c, u, d, h, h);
    Then(c, s, u, t);
  }

  lemma {:induction false} AllCalls(c: Config, s: State, d: nat) returns (t: State)
    requires Calling(c, s, DrainEnter(d), Pow2(d + 1))
    ensures Leads(c, s, t) && Calling(c, t, TermEnter, 1)
    decreases d
  {
    hide Leads;
    t := OneCall(c, s, d, Pow2(d));
    if d > 0 {
      var u := t;
      t := AllCalls(c, u, d - 1);
      Then(c, s, u, t);
    }
  }

  lemma FilledPoolCalls(c: Config, s: State, n: nat)
    requires ValidConfig(c) && 0 < n <= c.nWorkers && Waiting(c, s, c.nJobs, n)
    ensures Calling(c, s, DrainEnter(c.nDrains - 1), n)
  {
  }

  lemma PoolStartsWaiting(c: Config)
    requires ValidConfig(c)
    ensures Waiting(c, Init(c), 0, 0)
  {
  }

  /** All jobs but the last n are done, each of these is with a worker of its own, and the first call begins. */
  lemma PoolFills(c: Config, n: nat) returns (t: State)
    requires ValidConfig(c) && 0 < n <= c.nWorkers && n <= c.nJobs
    ensures Leads(c, Init(c), t) && Calling(c, t, DrainEnter(c.nDrains - 1), n)
  {
    hide Leads, Waiting, Calling, Init;
    PoolStartsWaiting(c);
    var early := DoJobs(c, Init(c), 0, c.nJobs - n);
    t := FillPool(c, early, c.nJobs - n, 0, n);
    Then(c, Init(c), early, t);
    FilledPoolCalls(c, t, n);
  }

  /** With 2^nDrains workers and as many jobs, or more, some run without spurious wakeups leaves a worker busy. */
  lemma CompleteQueueCanReturnEarly(c: Config) returns (steps: seq<Step>)
    requires ValidConfig(c) && c.nWorkers >= Pow2(c.nDrains) && c.nJobs >= Pow2(c.nDrains)
    ensures IsRun(c, Init(c), steps) && Calm(steps)
    ensures var t := Follow(c, Init(c), steps); t.main == TermEnter && 0 in Busy(t)
  {
    var full := PoolFills(c, Pow2(c.nDrains));
    var t := AllCalls(c, full, c.nDrains - 1);
    Then(c, Init(c), full, t);
    hide Init;
    steps :| IsRun(c, Init(c), steps) && Calm(steps) && Follow(c, Init(c), steps) == t;
  }

  ghost predicate LeavesNoneBusy(c: Config, steps: seq<Step>)
    requires IsRun(c, Init(c), steps)
  {
    var t := Follow(c, Init(c), steps);
    t.main == TermEnter ==> Busy(t) == {}
  }

  /** When the last of nDrains calls of completeQueue returns, every worker is idle, in every run without spurious
      wakeups, if and only if there are fewer than 2^nDrains workers or fewer than 2^nDrains jobs. */
  lemma AllIdleExactly(c: Config)
    requires ValidConfig(c)
    ensures (forall steps :: IsRun(c, Init(c), steps) && Calm(steps) ==> LeavesNoneBusy(c, steps)) <==>
      c.nWorkers < Pow2(c.nDrains) || c.nJobs < Pow2(c.nDrains)
  {
    if c.nWorkers < Pow2(c.nDrains) || c.nJobs < Pow2(c.nDrains) {
      forall steps | IsRun(c, Init(c), steps) && Calm(steps) ensures LeavesNoneBusy(c, steps) {
        if Follow(c, Init(c), steps).main == TermEnter {
          CallsHalveBusyWorkers(c, steps);
          HalvedToZero(if c.nWorkers < c.nJobs then c.nWorkers else c.nJobs, c.nDrains);
        }
      }
    } else {
      var steps := CompleteQueueCanReturnEarly(c);
      assert !LeavesNoneBusy(c, steps);
    }
  }

  /** A single call is enough exactly for one worker or at most one job. */
  lemma OneCallExactly(c: Config)
    requires ValidConfig(c) && c.nDrains == 1
    ensures (forall steps :: IsRun(c, Init(c), steps) && Calm(steps) ==> LeavesNoneBusy(c, steps)) <==>
      c.nWorkers == 1 || c.nJobs <= 1
  {
    AllIdleExactly(c);
    assert Pow2(1) == 2;
  }

  // ---------- With spurious wakeups ----------

  ghost predicate Reaches(c: Config, s: State, t: State) {
    exists steps :: IsRun(c, s, steps) && Follow(c, s, steps) == t
  }

  lemma ReachesThen(c: Config, s: State, t: State, u: State)
    requires Reaches(c, s, t) && Reaches(c, t, u)
    ensures Reaches(c, s, u)
  {
    var a :| IsRun(c, s, a) && Follow(c, s, a) == t;
    var b :| IsRun(c, t, b) && Follow(c, t, b) == u;
    Chain(c, s, a, b);
  }

  lemma LeadsReaches(c: Config, s: State, t: State)
    requires Leads(c, s, t)
    ensures Reaches(c, s, t)
  {
  }

  lemma WakesUp(c: Config, s: State, t: State)
    requires Enabled(c, s, SpuriousMain) && t == Apply(c, s, SpuriousMain)
    ensures Reaches(c, s, t)
  {
    assert IsRun(c, t, [SpuriousMain][1..]);
    assert IsRun(c, s, [SpuriousMain]) && Follow(c, s, [SpuriousMain]) == t;
  }

  /** A wakeup takes the producer past the only busy worker. */
  lemma WokenCall(c: Config, s: State, d: nat) returns (t: State)
    requires Calling(c, s, DrainEnter(d), 1)
    ensures Reaches(c, s, t) && Calling(c, t, AfterCall(d), 1)
  {
    hide Leads, Reaches;
    var s1 := s.(poolLock := Main, main := DrainTest(d));
    Go(c, s, MainLock, s1);
    var s2 := s.(poolLock := Main, main := PollWorker(d, 0));
    GoOn(c, s, s1, MainDrain, s2);
    var s3 := s.(main := PollWait(d, 0));
    GoOn(c, s, s2, MainPoll, s3);
    LeadsReaches(c, s, s3);
    var s4 := s.(main := PollWake(d, 0));
    WakesUp(c, s3, s4);
    ReachesThen(c, s, s3, s4);
    var s5 := s.(poolLock := Main, main := PollWorker(d, 1));
    Go(c, s4, MainLock, s5);
    t := PassIdle(c, s5, d, 1, 1);
    Then(c, s4, s5, t);
    LeadsReaches(c, s4, t);
    ReachesThen(c, s, s4, t);
  }

  lemma {:induction false} WokenCalls(c: Config, s: State, d: nat) returns (t: State)
    requires Calling(c, s, DrainEnter(d), 1)
    ensures Reaches(c, s, t) && Calling(c, t, TermEnter, 1)
    decreases d
  {
    hide Reaches;
    t := WokenCall(c, s, d);
    if d > 0 {
      var u := t;
      t := WokenCalls(c, u, d - 1);
      ReachesThen(c, s, u, t);
    }
  }

  /** With a single job some run leaves a worker busy, whatever the number of workers and calls. */
  lemma WakeupsReturnEarly(c: Config) returns (steps: seq<Step>)
    requires ValidConfig(c) && c.nJobs > 0
    ensures IsRun(c, Init(c), steps)
    ensures var t := Follow(c, Init(c), steps); t.main == TermEnter && 0 in Busy(t)
  {
    var full := PoolFills(c, 1);
    LeadsReaches(c, Init(c), full);
    var t := WokenCalls(c, full, c.nDrains - 1);
    ReachesThen(c, Init(c), full, t);
    hide Init;
    steps :| IsRun(c, Init(c), steps) && Follow(c, Init(c), steps) == t;
  }

  /** Over all runs, spurious wakeups included, every worker is idle when the last call returns if and only if there
      are no jobs at all. */
  lemma AllIdleInAllRunsExactly(c: Config)
    requires ValidConfig(c)
    ensures (forall steps :: IsRun(c, Init(c), steps) ==> LeavesNoneBusy(c, steps)) <==> c.nJobs == 0
  {
    if c.nJobs == 0 {
      forall steps | IsRun(c, Init(c), steps) ensures LeavesNoneBusy(c, steps) {
        InitInv(c);
        RunKeepsInv(c, Init(c), steps);
        CrowdSize(c, Follow(c, Init(c), steps));
      }
    } else {
      var steps := WakeupsReturnEarly(c);
      assert !LeavesNoneBusy(c, steps);
    }
  }
}
