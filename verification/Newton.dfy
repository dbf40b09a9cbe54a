/** Solving the charge calibration for the integration time by clamped Newton steps. */
module Newton {
  const MAX_STEP: real := 10.0
  const TOLERANCE: real := 0.05
  const MAX_ITERATIONS: nat := 100

  function Abs(x: real): real { if x >= 0.0 then x else -x }

  /** Products have a name, so that reasoning about sums of them need not look inside. */
  function Times(x: real, y: real): real { x * y }

  /** c * t * t * ... with k factors t. */
  function Term(c: real, t: real, k: nat): real {
    if k == 0 then c else Times(Term(c, t, k - 1), t)
  }

  /** p0 + p1 * t + p2 * t * t + ... up to the first n coefficients. */
  function Sum(p: seq<real>, n: nat, t: real): real
    requires n <= |p|
  {
    if n == 0 then 0.0 else Sum(p, n - 1, t) + Term(p[n - 1], t, n - 1)
  }

  function TermSlope(c: real, t: real, k: nat): real {
    if k == 0 then 0.0 else Times(Term(c, t, k - 1), k as real)
  }

  /** p1 + p2 * t * 2 + p3 * t * t * 3 + ... */
  function SlopeSum(p: seq<real>, n: nat, t: real): real
    requires n <= |p|
  {
    if n == 0 then 0.0 else SlopeSum(p, n - 1, t) + TermSlope(p[n - 1], t, n - 1)
  }

  /** The calibration curve minus the ADC value, and its slope. */
  function F(p: seq<real>, efine: nat, t: real): real { Sum(p, |p|, t) - efine as real }
  function Slope(p: seq<real>, t: real): real { SlopeSum(p, |p|, t) }

  function Clamp(delta: real): real {
    if delta < -MAX_STEP then -MAX_STEP else if delta > MAX_STEP then MAX_STEP else delta
  }

  /** -f / f' cut to the largest step. A zero slope divides to an infinity that the cut makes finite. */
  function Delta(f: real, slope: real): real {
    if slope != 0.0 then Clamp(-f / slope)
    else if f > 0.0 then -MAX_STEP
    else if f < 0.0 then MAX_STEP
    else 0.0
  }

  function Step(p: seq<real>, efine: nat, t: real): real { Delta(F(p, efine, t), Slope(p, t)) }

  /** The n-th point of the iteration from ti. */
  function Iterate(p: seq<real>, efine: nat, ti: real, n: nat): real {
    if n == 0 then ti else var t := Iterate(p, efine, ti, n - 1); t + Step(p, efine, t)
  }

  predicate LongStep(p: seq<real>, efine: nat, ti: real, k: nat) {
    Abs(Step(p, efine, Iterate(p, efine, ti, k))) > 0.05
  }

  /** The number of steps taken: the first one that is short, or the last one allowed. */
  ghost predicate StopsAt(p: seq<real>, efine: nat, ti: real, n: nat) {
    && 1 <= n <= MAX_ITERATIONS
    && (forall k :: 0 <= k < n - 1 ==> LongStep(p, efine, ti, k))
    && (n < MAX_ITERATIONS ==> !LongStep(p, efine, ti, n - 1))
  }

  method Solve(p: seq<real>, efine: nat, ti: real) returns (t_eq: real, iter: nat)
    ensures StopsAt(p, efine, ti, iter) && t_eq == Iterate(p, efine, ti, iter)
  {
    t_eq := ti;
    var delta := 0.0;
    iter := 0;
    while iter == 0 || (Abs(delta) > TOLERANCE && iter < MAX_ITERATIONS)
      invariant 0 <= iter <= MAX_ITERATIONS && t_eq == Iterate(p, efine, ti, iter)
      invariant iter > 0 ==> delta == Step(p, efine, Iterate(p, efine, ti, iter - 1))
      invariant forall k :: 0 <= k < iter - 1 ==> LongStep(p, efine, ti, k)
      decreases MAX_ITERATIONS - iter
    {
      delta := Delta(F(p, efine, t_eq), Slope(p, t_eq));
      t_eq := t_eq + delta;
      iter := iter + 1;
    }
  }

  /** The stopping index, and with it the result, is determined by the inputs. */
  lemma StopIsUnique(p: seq<real>, efine: nat, ti: real, m: nat, n: nat)
    requires StopsAt(p, efine, ti, m) && StopsAt(p, efine, ti, n)
    ensures m == n
  {
    var longM, longN := LongStep(p, efine, ti, m - 1), LongStep(p, efine, ti, n - 1);
    assert m < n ==> longM;
    assert n < m ==> longN;
  }

  lemma {:induction false} StopExists(p: seq<real>, efine: nat, ti: real, k: nat) returns (n: nat)
    requires k < MAX_ITERATIONS
    requires forall j :: 0 <= j < k ==> LongStep(p, efine, ti, j)
    ensures StopsAt(p, efine, ti, n)
    decreases MAX_ITERATIONS - k
  {
    if k + 1 == MAX_ITERATIONS || !LongStep(p, efine, ti, k) {
      n := k + 1;
    } else {
      n := StopExists(p, efine, ti, k + 1);
    }
  }

  /** The solution found for an ADC value. */
  ghost function Solution(p: seq<real>, efine: nat, ti: real): (r: real)
    ensures forall n :: StopsAt(p, efine, ti, n) ==> r == Iterate(p, efine, ti, n)
  {
    StopAlways(p, efine, ti);
    var n :| StopsAt(p, efine, ti, n);
    assert forall m :: StopsAt(p, efine, ti, m) ==> m == n by {
      forall m | StopsAt(p, efine, ti, m) ensures m == n { StopIsUnique(p, efine, ti, m, n); }
    }
    Iterate(p, efine, ti, n)
  }

  lemma StopAlways(p: seq<real>, efine: nat, ti: real)
    ensures exists n :: StopsAt(p, efine, ti, n)
  {
    var n := StopExists(p, efine, ti, 0);
  }

  lemma {:induction false} IterateIsNear(p: seq<real>, efine: nat, ti: real, n: nat)
    ensures Abs(Iterate(p, efine, ti, n) - ti) <= n as real * MAX_STEP
  {
    if n > 0 {
      IterateIsNear(p, efine, ti, n - 1);
      assert Abs(Step(p, efine, Iterate(p, efine, ti, n - 1))) <= MAX_STEP;
      assert n as real * MAX_STEP == (n - 1) as real * MAX_STEP + MAX_STEP;
    }
  }

  // ---------- Slope is the derivative of F ----------

  function Taylor(value: real, slope: real, rest: real, h: real): real { value + h * slope + h * h * rest }

  lemma TaylorAdd(a: real, s: real, r: real, a': real, s': real, r': real, h: real)
    ensures Taylor(a, s, r, h) + Taylor(a', s', r', h) == Taylor(a + a', s + s', r + r', h)
  {
  }

  lemma TaylorTimes(a: real, b: real, r: real, m: real, t: real, h: real)
    requires a == Times(b, t)
    ensures Times(Taylor(a, Times(b, m), r, h), t + h) ==
      Taylor(Times(a, t), Times(a, m + 1.0), Times(r, t + h) + Times(b, m), h)
  {
    Expand(a, b * m, r, t, h);
    assert h * m * a == h * m * (b * t);
    assert h * (b * m) * t == h * m * (b * t);
    assert a * (m + 1.0) == a * m + a;
    Regroup(a, b * m, r * (t + h), m, t, h);
  }

  lemma Expand(a: real, s: real, r: real, t: real, h: real)
    ensures (a + h * s + h * h * r) * (t + h) == a * t + a * h + h * s * t + h * h * s + h * h * (r * (t + h))
  {
    assert (a + h * s + h * h * r) * (t + h) == (a + h * s + h * h * r) * t + (a + h * s + h * h * r) * h;
  }

  lemma Regroup(a: real, s: real, r: real, m: real, t: real, h: real)
    ensures a * t + a * h + h * m * a + h * h * s + h * h * r == a * t + h * (a * (m + 1.0)) + h * h * (r + s)
  {
    assert h * (a * (m + 1.0)) == h * (a * m) + h * a;
    assert h * (a * m) == h * m * a;
    assert h * h * (r + s) == h * h * r + h * h * s;
  }

  /** What is left of c * (t + h)^k after the constant and the linear part in h. */
  function TermRest(c: real, t: real, h: real, k: nat): real {
    if k <= 1 then 0.0 else Times(TermRest(c, t, h, k - 1), t + h) + TermSlope(c, t, k - 1)
  }

  lemma SmallTerms(c: real, t: real, h: real)
    ensures Term(c, t + h, 0) == Taylor(Term(c, t, 0), TermSlope(c, t, 0), TermRest(c, t, h, 0), h)
    ensures Term(c, t + h, 1) == Taylor(Term(c, t, 1), TermSlope(c, t, 1), TermRest(c, t, h, 1), h)
  {
    assert Term(c, t, 0) == c && Term(c, t + h, 0) == c;
    assert Term(c, t, 1) == c * t && Term(c, t + h, 1) == c * (t + h);
    assert TermSlope(c, t, 1) == c * 1.0 == c;
    assert c * (t + h) == c * t + h * c;
  }

  lemma {:induction false} TermTaylor(c: real, t: real, h: real, k: nat)
    ensures Term(c, t + h, k) == Taylor(Term(c, t, k), TermSlope(c, t, k), TermRest(c, t, h, k), h)
  {
    hide Taylor, Times;
    if k <= 1 {
      SmallTerms(c, t, h);
    } else {
      TermTaylor(c, t, h, k - 1);
      TaylorTimes(Term(c, t, k - 1), Term(c, t, k - 2), TermRest(c, t, h, k - 1), (k - 1) as real, t, h);
      assert (k - 1) as real + 1.0 == k as real;
    }
  }

  function SumRest(p: seq<real>, n: nat, t: real, h: real): real
    requires n <= |p|
  {
    if n == 0 then 0.0 else SumRest(p, n - 1, t, h) + TermRest(p[n - 1], t, h, n - 1)
  }

  lemma {:induction false} SumTaylor(p: seq<real>, n: nat, t: real, h: real)
    requires n <= |p|
    ensures Sum(p, n, t + h) == Taylor(Sum(p, n, t), SlopeSum(p, n, t), SumRest(p, n, t, h), h)
  {
    if n > 0 {
      SumTaylor(p, n - 1, t, h);
      var c := p[n - 1];
      TermTaylor(c, t, h, n - 1);
      TaylorAdd(Sum(p, n - 1, t), SlopeSum(p, n - 1, t), SumRest(p, n - 1, t, h),
        Term(c, t, n - 1), TermSlope(c, t, n - 1), TermRest(c, t, h, n - 1), h);
      hide Taylor, Term, TermSlope, TermRest;
    }
  }

  /** Slope is the derivative of F: to first order F changes by the slope. */
  lemma SlopeIsTheDerivative(p: seq<real>, efine: nat, t: real, h: real)
    ensures F(p, efine, t + h) == Taylor(F(p, efine, t), Slope(p, t), SumRest(p, |p|, t, h), h)
  {
    SumTaylor(p, |p|, t, h);
    hide Sum, SlopeSum, SumRest;
  }

  // ---------- What the solution is worth ----------

  lemma Product(a: real, b: real)
    ensures Abs(a * b) == Abs(a) * Abs(b)
  {
    if a >= 0.0 {
      if b >= 0.0 { assert a * b >= 0.0; } else { assert a * (-b) >= 0.0; }
    } else {
      if b >= 0.0 { assert (-a) * b >= 0.0; } else { assert (-a) * (-b) >= 0.0; }
    }
  }

  function SecondOrder(rest: real, h: real): real { h * h * rest }

  /** A short step is not cut: it leads to the root of the tangent, and it starts close to a root of the curve. */
  lemma ShortStep(f: real, slope: real, rest: real)
    requires Abs(Delta(f, slope)) <= TOLERANCE
    ensures Abs(f) <= TOLERANCE * Abs(slope)
    ensures Taylor(f, slope, rest, Delta(f, slope)) == SecondOrder(rest, Delta(f, slope))
  {
    if slope != 0.0 {
      var d := -f / slope;
      assert d * slope == -f;
      assert Delta(f, slope) == d;
      Product(d, slope);
      assert (TOLERANCE - Abs(d)) * Abs(slope) >= 0.0;
      assert (TOLERANCE - Abs(d)) * Abs(slope) == TOLERANCE * Abs(slope) - Abs(d) * Abs(slope);
    }
  }

  /** The step from `t` to `r` is within the tolerance, `t` is a root up to the tolerance times the slope there, and
      at `r` nothing is left of the curve but its second order in the step. */
  ghost predicate NearRoot(p: seq<real>, efine: nat, t: real, r: real) {
    && Abs(r - t) <= TOLERANCE && Abs(F(p, efine, t)) <= TOLERANCE * Abs(Slope(p, t))
    && F(p, efine, r) == SecondOrder(SumRest(p, |p|, t, r - t), r - t)
  }

  lemma ShortStepEndsNearRoot(p: seq<real>, efine: nat, t: real)
    requires Abs(Step(p, efine, t)) <= TOLERANCE
    ensures NearRoot(p, efine, t, t + Step(p, efine, t))
  {
    var h := Step(p, efine, t);
    SlopeIsTheDerivative(p, efine, t, h);
    ShortStep(F(p, efine, t), Slope(p, t), SumRest(p, |p|, t, h));
    assert Step(p, efine, t) == Delta(F(p, efine, t), Slope(p, t));
    hide F, Slope, Step, SumRest, Delta, Taylor, SecondOrder;
    assert t + h - t == h;
  }

  lemma EarlyStopIsNearRoot(p: seq<real>, efine: nat, ti: real, n: nat)
    requires StopsAt(p, efine, ti, n) && n < MAX_ITERATIONS
    ensures NearRoot(p, efine, Iterate(p, efine, ti, n - 1), Iterate(p, efine, ti, n))
  {
    assert !LongStep(p, efine, ti, n - 1);
    ShortStepEndsNearRoot(p, efine, Iterate(p, efine, ti, n - 1));
    hide Step, NearRoot;
  }

  /** Whatever the curve, the solver stops within 100 steps no further than 1000 clocks from where it began, and when
      it stops early the solution is a root up to the second order of its last step. */
  lemma SolutionIsBounded(p: seq<real>, efine: nat, ti: real) returns (n: nat)
    ensures StopsAt(p, efine, ti, n) && Solution(p, efine, ti) == Iterate(p, efine, ti, n)
    ensures Abs(Solution(p, efine, ti) - ti) <= n as real * MAX_STEP <= 1000.0
    ensures n < MAX_ITERATIONS ==> NearRoot(p, efine, Iterate(p, efine, ti, n - 1), Solution(p, efine, ti))
  {
    n := StopExists(p, efine, ti, 0);
    IterateIsNear(p, efine, ti, n);
    if n < MAX_ITERATIONS { EarlyStopIsNearRoot(p, efine, ti, n); }
    hide Iterate, NearRoot, LongStep, Abs;
  }

  // ---------- The curve ----------

  /** The polynomial with coefficients p, evaluated from its last one. */
  function Horner(p: seq<real>, t: real): real { if p == [] then 0.0 else p[0] + t * Horner(p[1..], t) }

  lemma NextTerm(c: real, t: real, k: nat)
    ensures Term(c, t, k + 1) == t * Term(c, t, k)
  {
  }

  lemma {:induction false} ShiftedSum(p: seq<real>, n: nat, t: real)
    requires n < |p|
    ensures Sum(p, n + 1, t) == p[0] + t * Sum(p[1..], n, t)
    decreases n
  {
    if n == 0 {
      assert Sum(p, 0, t) == 0.0 && Term(p[0], t, 0) == p[0];
    } else {
      ShiftedSum(p, n - 1, t);
      NextTerm(p[n], t, n - 1);
      assert p[1..][n - 1] == p[n];
      Distribute(t, Sum(p[1..], n - 1, t), Term(p[n], t, n - 1));
      hide Term;
    }
  }

  lemma Distribute(t: real, a: real, b: real)
    ensures t * (a + b) == t * a + t * b
  {
  }

  lemma {:induction false} SumIsHorner(p: seq<real>, t: real)
    ensures Sum(p, |p|, t) == Horner(p, t)
  {
    if p != [] {
      ShiftedSum(p, |p| - 1, t);
      SumIsHorner(p[1..], t);
      hide Sum;
    }
  }

  /** What is solved is the polynomial with all its coefficients against the ADC value. */
  lemma CurveIsThePolynomial(p: seq<real>, efine: nat, t: real)
    ensures F(p, efine, t) == Horner(p, t) - efine as real
  {
    SumIsHorner(p, t);
  }

  // ---------- Straight curves ----------

  /** p0 + p1 * t. */
  ghost predicate Straight(p: seq<real>) { |p| >= 2 && forall k :: 2 <= k < |p| ==> p[k] == 0.0 }

  lemma {:induction false} ZeroTerm(t: real, k: nat)
    ensures Term(0.0, t, k) == 0.0
  {
    if k > 0 { ZeroTerm(t, k - 1); }
  }

  lemma FirstSums(p: seq<real>, t: real)
    requires |p| >= 1
    ensures Sum(p, 1, t) == p[0] && SlopeSum(p, 1, t) == 0.0
  {
    assert Sum(p, 0, t) == 0.0 && SlopeSum(p, 0, t) == 0.0;
    assert Term(p[0], t, 0) == p[0] && TermSlope(p[0], t, 0) == 0.0;
  }

  lemma {:induction false} StraightSums(p: seq<real>, n: nat, t: real)
    requires Straight(p) && 2 <= n <= |p|
    ensures Sum(p, n, t) == p[0] + p[1] * t && SlopeSum(p, n, t) == p[1]
  {
    if n == 2 {
      FirstSums(p, t);
      assert Term(p[1], t, 0) == p[1];
      assert Term(p[1], t, 1) == p[1] * t && TermSlope(p[1], t, 1) == p[1] * 1.0;
    } else {
      StraightSums(p, n - 1, t);
      ZeroTerm(t, n - 1);
      ZeroTerm(t, n - 2);
      hide Term;
    }
  }

  function Root(p: seq<real>, efine: nat): real
    requires |p| >= 2 && p[1] != 0.0
  {
    (efine as real - p[0]) / p[1]
  }

  /** d brought m closer to 0. */
  function Closer(d: real, m: real): real { if d > m then d - m else if d < -m then d + m else 0.0 }

  lemma StraightStep(p: seq<real>, efine: nat, t: real)
    requires Straight(p) && p[1] != 0.0
    ensures Step(p, efine, t) == Clamp(Root(p, efine) - t)
  {
    StraightSums(p, |p|, t);
    hide Sum, SlopeSum, Straight;
    var f, m := F(p, efine, t), p[1];
    assert Root(p, efine) * m == efine as real - p[0];
    assert f == m * t - m * Root(p, efine);
    assert -f == (Root(p, efine) - t) * m;
    Divide(Root(p, efine) - t, m, -f);
  }

  lemma Divide(q: real, m: real, f: real)
    requires m != 0.0 && f == q * m
    ensures f / m == q
  {
  }

  lemma {:induction false} StraightIterate(p: seq<real>, efine: nat, ti: real, n: nat)
    requires Straight(p) && p[1] != 0.0
    ensures Iterate(p, efine, ti, n) == Root(p, efine) - Closer(Root(p, efine) - ti, n as real * MAX_STEP)
  {
    hide Straight, Step, Root;
    if n > 0 {
      StraightIterate(p, efine, ti, n - 1);
      StraightStep(p, efine, Iterate(p, efine, ti, n - 1));
      assert n as real * MAX_STEP == (n - 1) as real * MAX_STEP + MAX_STEP;
    }
  }

  /** A straight curve is solved exactly if its root is at most 1000 clocks away, and otherwise the solver ends 1000
      clocks nearer to it. */
  lemma StraightCurveIsSolved(p: seq<real>, efine: nat, ti: real)
    requires Straight(p) && p[1] != 0.0
    ensures var d := (efine as real - p[0]) / p[1] - ti;
      Solution(p, efine, ti) == ti + if d > 1000.0 then 1000.0 else if d < -1000.0 then -1000.0 else d
  {
    var n := StopExists(p, efine, ti, 0);
    StraightIterate(p, efine, ti, n);
    if n < MAX_ITERATIONS { StraightStop(p, efine, ti, n); }
    hide Iterate, LongStep, Step;
  }

  lemma StraightStop(p: seq<real>, efine: nat, ti: real, n: nat)
    requires Straight(p) && p[1] != 0.0 && StopsAt(p, efine, ti, n) && n < MAX_ITERATIONS
    ensures var d := Root(p, efine) - ti; -1000.0 < d < 1000.0 && Closer(d, n as real * MAX_STEP) == 0.0
  {
    hide Straight, Root, Iterate, Step;
    var before := Iterate(p, efine, ti, n - 1);
    assert !LongStep(p, efine, ti, n - 1);
    StraightStep(p, efine, before);
    StraightIterate(p, efine, ti, n - 1);
    assert n as real * MAX_STEP == (n - 1) as real * MAX_STEP + MAX_STEP;
  }

  // ---------- Flat curves ----------

  ghost predicate Constant(p: seq<real>) { |p| >= 1 && forall k :: 1 <= k < |p| ==> p[k] == 0.0 }

  lemma {:induction false} ConstantSums(p: seq<real>, n: nat, t: real)
    requires Constant(p) && 1 <= n <= |p|
    ensures Sum(p, n, t) == p[0] && SlopeSum(p, n, t) == 0.0
  {
    if n == 1 {
      FirstSums(p, t);
    } else {
      ConstantSums(p, n - 1, t);
      ZeroTerm(t, n - 1);
      ZeroTerm(t, n - 2);
      hide Term;
    }
  }

  lemma {:induction false} ConstantIterate(p: seq<real>, efine: nat, ti: real, n: nat)
    requires Constant(p) && p[0] != efine as real
    ensures var step := if p[0] < efine as real then MAX_STEP else -MAX_STEP;
      && Iterate(p, efine, ti, n) == ti + n as real * step
      && Step(p, efine, Iterate(p, efine, ti, n)) == step
  {
    ConstantSums(p, |p|, Iterate(p, efine, ti, n));
    if n > 0 { ConstantIterate(p, efine, ti, n - 1); }
    hide Sum, SlopeSum, Constant;
  }

  /** The bounds are reached: with nothing but p0 the solver runs all its steps, each of full length, up if the ADC
      value is above it and down if it is below. */
  lemma BoundsAreReached(p: seq<real>, efine: nat, ti: real)
    requires Constant(p) && p[0] != efine as real
    ensures StopsAt(p, efine, ti, MAX_ITERATIONS)
    ensures Solution(p, efine, ti) == ti + if p[0] < efine as real then 1000.0 else -1000.0
  {
    hide Constant, Iterate, Step;
    ConstantIterate(p, efine, ti, MAX_ITERATIONS);
    forall k | 0 <= k < MAX_ITERATIONS - 1 ensures LongStep(p, efine, ti, k) {
      ConstantIterate(p, efine, ti, k);
    }
  }
}
