/** What calls of completeQueue guarantee when they return. */
module EventPipelineDrain {
  import opened Powers
  import opened EventPipeline
  import opened EventPipelineInvariant
  import opened EventPipelineTheorems

  predicate HasDrained(m: MainPc) { m.TermEnter? || m.TermBody? || m.Join? }

  /** After the last call every job has been taken from the queue, in order. */
  lemma QueueIsDrained(c: Config, s: State)
    requires ValidConfig(c) && Reachable(c, s) && HasDrained(s.main)
    ensures s.jobs == [] && s.submitted == c.nJobs && |s.taken| == c.nJobs
  {
    ReachableInv(c, s);
  }

  /** No step is a spurious wakeup. */
  ghost predicate Calm(steps: seq<Step>) { forall i :: 0 <= i < |steps| ==> !IsSpurious(steps[i]) }

  ghost function Busy(s: State): set<nat> { BusyBelow(s, |s.isBusy|) }

  ghost function BusyBelow(s: State, n: nat): set<nat> { set i: nat | i < n && i < |s.isBusy| && s.isBusy[i] }

  function HalvedTimes(x: nat, n: nat): nat { if n == 0 then x else HalvedTimes(x / 2, n - 1) }

  lemma {:induction false} HalvedAgain(x: nat, n: nat)
    ensures HalvedTimes(x, n + 1) == HalvedTimes(x, n) / 2
  {
    if n > 0 { HalvedAgain(x / 2, n - 1); }
  }

  lemma {:induction false} HalvedToZero(x: nat, n: nat)
    ensures HalvedTimes(x, n) == 0 <==> x < Pow2(n)
  {
    if n > 0 { HalvedToZero(x / 2, n - 1); }
  }

  /** How many workers can be busy when that many calls have returned. */
  function Share(c: Config, calls: nat): nat {
    HalvedTimes(if c.nWorkers < c.nJobs then c.nWorkers else c.nJobs, calls)
  }

  // ---------- Sizes of sets ----------

  lemma {:induction false} SubsetSize(a: set<nat>, b: set<nat>)
    requires a <= b
    ensures |a| <= |b|
  {
    assert b == a + (b - a);
  }

  lemma {:induction false} BelowSize(a: set<nat>, n: nat)
    requires forall x :: x in a ==> x < n
    ensures |a| <= n
    decreases n
  {
    if n > 0 {
      BelowSize(a - {n - 1}, n - 1);
      SubsetSize(a, a - {n - 1} + {n - 1});
    }
  }

  lemma {:induction false} ImageSize(a: set<nat>, f: nat -> nat, n: nat)
    requires forall x :: x in a ==> f(x) < n
    requires forall x, y :: x in a && y in a && x != y ==> f(x) != f(y)
    ensures |a| <= n
    decreases n
  {
    if x :| x in a && f(x) == n - 1 {
      ImageSize(a - {x}, f, n - 1);
    } else if a != {} {
      var x :| x in a;
      ImageSize(a, f, n - 1);
    }
  }

  // ---------- Each call halves the number of busy workers ----------

  function JobOn(s: State, i: nat): nat {
    if i < |s.workers| && Running(s.workers[i]) then s.workers[i].job else 0
  }

  /** Busy workers have different jobs. */
  lemma CrowdSize(c: Config, s: State)
    requires Inv(c, s)
    ensures |Busy(s)| <= Share(c, 0)
  {
    BelowSize(Busy(s), c.nWorkers);
    forall i | i in Busy(s) ensures i < |s.workers| && Running(s.workers[i]) && JobOf(s, i, JobOn(s, i)) {
      assert WorkerOk(s, i);
    }
    ImageSize(Busy(s), i => JobOn(s, i), c.nJobs);
  }

  ghost predicate HalvedAtCall(c: Config, s: State, d: nat) {
    d < c.nDrains && |Busy(s)| <= Share(c, c.nDrains - 1 - d) && (d < c.nDrains - 1 ==> s.jobs == [])
  }

  /** The bound on busy workers in the course of the calls: while one goes through the workers, those it has gone past
      that are still busy count twice, because each cost it the completion of another. */
  ghost predicate Halved(c: Config, s: State) {
    match s.main
    case DrainEnter(d) => HalvedAtCall(c, s, d)
    case DrainTest(d) => HalvedAtCall(c, s, d)
    case DrainWait(d) => HalvedAtCall(c, s, d)
    case PollWorker(d, i) => d < c.nDrains && |Busy(s)| + |BusyBelow(s, i)| <= Share(c, c.nDrains - 1 - d)
    case PollWait(d, i) => d < c.nDrains && |Busy(s)| + |BusyBelow(s, i)| <= Share(c, c.nDrains - 1 - d)
    case PollWake(d, i) => d < c.nDrains && |Busy(s)| + |BusyBelow(s, i + 1)| <= Share(c, c.nDrains - 1 - d)
    case TermEnter => |Busy(s)| <= Share(c, c.nDrains)
    case TermBody => |Busy(s)| <= Share(c, c.nDrains)
    case _ => true
  }

  lemma TakingKeepsHalved(c: Config, s: State, i: nat)
    requires Inv(c, s) && Halved(c, s) && Enabled(c, s, WorkerIterate(i)) && Inv(c, Apply(c, s, WorkerIterate(i)))
    ensures Halved(c, Apply(c, s, WorkerIterate(i)))
  {
    var t := Apply(c, s, WorkerIterate(i));
    if s.terminate || s.jobs == [] {
      assert t.isBusy == s.isBusy;
      assert Busy(t) == Busy(s) && forall n :: BusyBelow(t, n) == BusyBelow(s, n);
    } else {
      CrowdSize(c, t);
    }
  }

  lemma ReportKeepsHalved(c: Config, s: State, j: nat)
    requires Inv(c, s) && Halved(c, s) && Enabled(c, s, WorkerReport(j))
    ensures Halved(c, Apply(c, s, WorkerReport(j)))
  {
    var t := Apply(c, s, WorkerReport(j));
    assert WorkerOk(s, j);
    assert Busy(t) == Busy(s) - {j};
    match s.main
    case PollWorker(d, i) => SubsetSize(BusyBelow(t, i), BusyBelow(s, i));
    case PollWake(d, i) => SubsetSize(BusyBelow(t, i + 1), BusyBelow(s, i + 1));
    case PollWait(d, i) => SubsetSize(BusyBelow(t, i + 1), BusyBelow(s, i) + {i});
    case _ =>
  }

  lemma PollKeepsHalved(c: Config, s: State)
    requires Inv(c, s) && Halved(c, s) && Enabled(c, s, MainPoll)
    ensures Halved(c, Apply(c, s, MainPoll))
  {
    var d, i := s.main.d, s.main.i;
    var t := Apply(c, s, MainPoll);
    assert t.isBusy == s.isBusy && Busy(t) == Busy(s) && BusyBelow(t, i) == BusyBelow(s, i);
    assert BusyBelow(t, i + 1) == BusyBelow(s, i + 1);
    if i >= |s.workers| {
      assert BusyBelow(s, i) == Busy(s);
      HalvedAgain(Share(c, 0), c.nDrains - 1 - d);
    } else if !s.isBusy[i] {
      assert BusyBelow(s, i + 1) == BusyBelow(s, i);
    }
  }

  lemma DrainKeepsHalved(c: Config, s: State)
    requires Inv(c, s) && Halved(c, s) && Enabled(c, s, MainDrain)
    ensures Halved(c, Apply(c, s, MainDrain))
  {
    var t := Apply(c, s, MainDrain);
    assert t.isBusy == s.isBusy && Busy(t) == Busy(s) && BusyBelow(t, 0) == {};
  }

  lemma MainKeepsHalved(c: Config, s: State, step: Step)
    requires ValidConfig(c) && Inv(c, s) && Halved(c, s) && Enabled(c, s, step) && Inv(c, Apply(c, s, step))
    requires step.MainLock? || step.MainSubmit? || step.MainTerminate? || step.MainJoin?
    ensures Halved(c, Apply(c, s, step))
  {
    var t := Apply(c, s, step);
    assert t.isBusy == s.isBusy && Busy(t) == Busy(s);
    CrowdSize(c, t);
    if s.main.PollWake? { assert BusyBelow(t, s.main.i + 1) == BusyBelow(s, s.main.i + 1); }
  }

  predicate IsStageStep(step: Step) {
    step.GateLock? || step.GateRegister? || step.GateTest? || step.GateHandled? || step.GateBump? || step.GateSignal?
  }

  lemma StageKeepsHalved(c: Config, s: State, step: Step)
    requires Halved(c, s) && Enabled(c, s, step) && (IsStageStep(step) || step.WorkerLock?)
    ensures Halved(c, Apply(c, s, step))
  {
    hide Halved, Shape;
    SameBusy(c, s, Apply(c, s, step));
  }

  lemma StepKeepsHalved(c: Config, s: State, step: Step)
    requires ValidConfig(c) && Inv(c, s) && Halved(c, s) && Enabled(c, s, step) && !IsSpurious(step)
    ensures Inv(c, Apply(c, s, step)) && Halved(c, Apply(c, s, step))
  {
    hide Inv, Halved, Enabled, Apply;
    StepKeepsInv(c, s, step);
    match step
    case WorkerIterate(i) => TakingKeepsHalved(c, s, i);
    case WorkerReport(i) => ReportKeepsHalved(c, s, i);
    case MainDrain => DrainKeepsHalved(c, s);
    case MainPoll => PollKeepsHalved(c, s);
    case MainLock => MainKeepsHalved(c, s, step);
    case MainSubmit(_) => MainKeepsHalved(c, s, step);
    case MainTerminate => MainKeepsHalved(c, s, step);
    case MainJoin => MainKeepsHalved(c, s, step);
    case _ => StageKeepsHalved(c, s, step);
  }

  lemma SameBusy(c: Config, s: State, t: State)
    requires Halved(c, s) && t.main == s.main && t.isBusy == s.isBusy && t.jobs == s.jobs
    ensures Halved(c, t)
  {
    assert Busy(t) == Busy(s) && forall n :: BusyBelow(t, n) == BusyBelow(s, n);
  }

  lemma {:induction false} RunKeepsHalved(c: Config, s: State, steps: seq<Step>)
    requires ValidConfig(c) && Inv(c, s) && Halved(c, s) && IsRun(c, s, steps) && Calm(steps)
    ensures Halved(c, Follow(c, s, steps))
    decreases |steps|
  {
    hide Inv, Halved, Enabled, Apply;
    if steps != [] {
      StepKeepsHalved(c, s, steps[0]);
      RunKeepsHalved(c, Apply(c, s, steps[0]), steps[1..]);
    }
  }

  /** Without spurious wakeups the calls of completeQueue leave at most that many workers busy. */
  lemma CallsHalveBusyWorkers(c: Config, steps: seq<Step>)
    requires ValidConfig(c) && IsRun(c, Init(c), steps) && Calm(steps) && Follow(c, Init(c), steps).main == TermEnter
    ensures |Busy(Follow(c, Init(c), steps))| <= Share(c, c.nDrains)
  {
    InitInv(c);
    CrowdSize(c, Init(c));
    RunKeepsHalved(c, Init(c), steps);
  }
}
