/** From a bias voltage to the DAC setting, by inverting a table of measured points. */
module BiasTable {
  datatype Knot = Knot(x: real, y: real)
  datatype Error = KeyError | UnboundLocalError | ZeroDivisionError
  datatype Result = Ok(dac: int) | Err(error: Error)

  /** DAC settings and voltages both rise along the table. */
  ghost predicate Increasing(t: seq<Knot>) {
    |t| >= 2 && forall i, j :: 0 <= i < j < |t| ==> t[i].x < t[j].x && t[i].y < t[j].y
  }

  /** Python's round: to the nearest integer, and a tie to the even one. */
  function Round(x: real): int {
    var d := x - x.Floor as real;
    if d < 0.5 || (d == 0.5 && x.Floor % 2 == 0) then x.Floor else x.Floor + 1
  }

  lemma RoundIsNearest(x: real)
    ensures -0.5 <= Round(x) as real - x <= 0.5
    ensures Round(x) as real - x == 0.5 || Round(x) as real - x == -0.5 ==> Round(x) % 2 == 0
  {
  }

  lemma RoundOfInteger(n: int)
    ensures Round(n as real) == n
  {
  }

  lemma RoundIsMonotone(x: real, x': real)
    requires x <= x'
    ensures Round(x) <= Round(x')
  {
    assert x.Floor <= x'.Floor;
    if x.Floor == x'.Floor {
      assert x - x.Floor as real <= x' - x'.Floor as real;
    }
  }

  // ---------- One segment ----------

  function Slope(a: Knot, b: Knot): real
    requires a.x != b.x
  {
    (b.y - a.y) / (b.x - a.x)
  }

  /** m * x + b with b = y1 - m * x1. */
  function OnLine(m: real, a: Knot, x: real): real { m * x + (a.y - m * a.x) }

  /** The voltage on the line through two points. */
  function Line(a: Knot, b: Knot, x: real): real
    requires a.x != b.x
  {
    OnLine(Slope(a, b), a, x)
  }

  /** Two points that give no slope to divide by. */
  predicate Flat(a: Knot, b: Knot) { a.x == b.x || a.y == b.y }

  function Inverse(a: Knot, b: Knot, y: real): real
    requires !Flat(a, b)
  {
    ZeroSlope(a, b);
    (y - (a.y - Slope(a, b) * a.x)) / Slope(a, b)
  }

  lemma LineOfInverse(a: Knot, b: Knot, y: real)
    requires !Flat(a, b)
    ensures Line(a, b, Inverse(a, b, y)) == y
  {
    ZeroSlope(a, b);
    var m, c := Slope(a, b), a.y - Slope(a, b) * a.x;
    assert m * ((y - c) / m) == y - c;
  }

  lemma SlopeIsPositive(a: Knot, b: Knot)
    requires a.x < b.x && a.y < b.y
    ensures Slope(a, b) > 0.0 && Slope(a, b) * (b.x - a.x) == b.y - a.y
  {
  }

  /** The line goes through both of its points, rising, falling or level. */
  lemma LineThroughKnots(a: Knot, b: Knot)
    requires a.x != b.x
    ensures Line(a, b, a.x) == a.y && Line(a, b, b.x) == b.y
  {
    assert Slope(a, b) * (b.x - a.x) == b.y - a.y;
    Through(Slope(a, b), a, b);
    hide Slope, OnLine;
  }

  lemma Through(m: real, a: Knot, b: Knot)
    requires m * (b.x - a.x) == b.y - a.y
    ensures OnLine(m, a, b.x) == b.y && OnLine(m, a, a.x) == a.y
  {
    assert m * (b.x - a.x) == m * b.x - m * a.x;
  }

  lemma InverseIsMonotone(a: Knot, b: Knot, x: real, x': real)
    requires a.x < b.x && a.y < b.y
    ensures x <= x' <==> Line(a, b, x) <= Line(a, b, x')
  {
    SlopeIsPositive(a, b);
    var m := Slope(a, b);
    assert Line(a, b, x') - Line(a, b, x) == m * (x' - x);
    if x <= x' { Sign(m, x' - x); } else { Sign(m, x - x'); assert m * (x' - x) == -(m * (x - x')); }
  }

  lemma Sign(m: real, d: real)
    requires m > 0.0 && d >= 0.0
    ensures m * d >= 0.0 && (d > 0.0 ==> m * d > 0.0)
  {
  }

  // ---------- The table ----------

  /** The first segment whose end reaches y, or else the last one. */
  function Segment(t: seq<Knot>, y: real, i: nat): (r: nat)
    requires 1 <= i < |t|
    ensures i <= r < |t|
    decreases |t| - i
  {
    if i == |t| - 1 || t[i].y >= y then i else Segment(t, y, i + 1)
  }

  lemma {:induction false} SegmentIsFirst(t: seq<Knot>, y: real, i: nat)
    requires 1 <= i < |t|
    ensures Segment(t, y, i) < |t| - 1 ==> t[Segment(t, y, i)].y >= y
    ensures forall j :: i <= j < Segment(t, y, i) ==> t[j].y < y
    decreases |t| - i
  {
    if !(i == |t| - 1 || t[i].y >= y) { SegmentIsFirst(t, y, i + 1); }
  }

  lemma {:induction false} SegmentIs(t: seq<Knot>, y: real, i: nat, k: nat)
    requires 1 <= i <= k < |t| && t[k].y >= y && forall j :: i <= j < k ==> t[j].y < y
    ensures Segment(t, y, i) == k
    decreases |t| - i
  {
    if i < k { SegmentIs(t, y, i + 1, k); }
  }

  lemma {:induction false} SegmentIsMonotone(t: seq<Knot>, y: real, y': real, i: nat)
    requires 1 <= i < |t| && y <= y'
    ensures Segment(t, y, i) <= Segment(t, y', i)
    decreases |t| - i
  {
    if i < |t| - 1 && t[i].y < y { SegmentIsMonotone(t, y, y', i + 1); }
  }

  /** The DAC setting before rounding. */
  function Exact(t: seq<Knot>, y: real): real
    requires Increasing(t)
  {
    var i := Segment(t, y, 1);
    SlopeIsPositive(t[i - 1], t[i]);
    Inverse(t[i - 1], t[i], y)
  }

  lemma ExactOnLine(t: seq<Knot>, y: real)
    requires Increasing(t)
    ensures var i := Segment(t, y, 1); Line(t[i - 1], t[i], Exact(t, y)) == y
  {
    var i := Segment(t, y, 1);
    SlopeIsPositive(t[i - 1], t[i]);
    LineOfInverse(t[i - 1], t[i], y);
  }

  lemma LineIsInjective(a: Knot, b: Knot, x: real, x': real)
    requires a.x < b.x && a.y < b.y && Line(a, b, x) == Line(a, b, x')
    ensures x == x'
  {
    InverseIsMonotone(a, b, x, x');
    InverseIsMonotone(a, b, x', x);
  }

  /** At every point of the table the result is the DAC setting of that point. */
  lemma ExactAtKnots(t: seq<Knot>, k: nat)
    requires Increasing(t) && k < |t|
    ensures Exact(t, t[k].y) == t[k].x
  {
    var y := t[k].y;
    var i := Segment(t, y, 1);
    SegmentIs(t, y, 1, if k == 0 then 1 else k);
    ExactOnLine(t, y);
    LineThroughKnots(t[i - 1], t[i]);
    LineIsInjective(t[i - 1], t[i], Exact(t, y), t[k].x);
  }

  /** A higher voltage never gets a lower setting, across all segments and both extrapolations. */
  lemma ExactIsMonotone(t: seq<Knot>, y: real, y': real)
    requires Increasing(t) && y <= y'
    ensures Exact(t, y) <= Exact(t, y')
  {
    var i, j := Segment(t, y, 1), Segment(t, y', 1);
    SegmentIsFirst(t, y, 1);
    SegmentIsFirst(t, y', 1);
    ExactOnLine(t, y);
    ExactOnLine(t, y');
    if i == j {
      InverseIsMonotone(t[i - 1], t[i], Exact(t, y), Exact(t, y'));
    } else {
      SegmentIsMonotone(t, y, y', 1);
      LineThroughKnots(t[i - 1], t[i]);
      LineThroughKnots(t[j - 1], t[j]);
      InverseIsMonotone(t[i - 1], t[i], Exact(t, y), t[i].x);
      InverseIsMonotone(t[j - 1], t[j], t[j - 1].x, Exact(t, y'));
    }
  }

  function Mapped(t: seq<Knot>, y: real): int
    requires Increasing(t)
  {
    Round(Exact(t, y))
  }

  lemma MappedIsMonotone(t: seq<Knot>, y: real, y': real)
    requires Increasing(t) && y <= y'
    ensures Mapped(t, y) <= Mapped(t, y')
  {
    ExactIsMonotone(t, y, y');
    RoundIsMonotone(Exact(t, y), Exact(t, y'));
  }

  lemma MappedAtKnots(t: seq<Knot>, k: nat, dac: int)
    requires Increasing(t) && k < |t| && t[k].x == dac as real
    ensures Mapped(t, t[k].y) == dac
  {
    ExactAtKnots(t, k);
    RoundOfInteger(dac);
  }

  /** Whatever the table, the voltage of the selected segment at the returned setting misses the request by at most half
      a DAC step. */
  lemma RoundedIsWithinHalfAStep(a: Knot, b: Knot, y: real)
    requires !Flat(a, b)
    ensures var step, miss := Slope(a, b), Line(a, b, Round(Inverse(a, b, y)) as real) - y;
      if step > 0.0 then -step / 2.0 <= miss <= step / 2.0 else step / 2.0 <= miss <= -step / 2.0
  {
    var x := Inverse(a, b, y);
    var d, m := Round(x) as real - x, Slope(a, b);
    LineOfInverse(a, b, y);
    RoundIsNearest(x);
    ZeroSlope(a, b);
    hide Slope, Inverse, Round;
    LineMoves(a, b, x, d);
    if m > 0.0 {
      Sign(m, d + 0.5);
      Sign(m, 0.5 - d);
    } else {
      Sign(-m, d + 0.5);
      Sign(-m, 0.5 - d);
    }
  }

  lemma LineMoves(a: Knot, b: Knot, x: real, d: real)
    requires a.x != b.x
    ensures Line(a, b, x + d) - Line(a, b, x) == Slope(a, b) * d
  {
  }

  // ---------- The operation ----------

  class Config {
    var biasChannelCalibrationTable: map<nat, seq<Knot>>

    constructor (t: map<nat, seq<Knot>>)
      ensures biasChannelCalibrationTable == t
    {
      biasChannelCalibrationTable := t;
    }

    method MapBiasChannelVoltageToDAC(key: nat, voltage: real) returns (r: Result)
      ensures key !in biasChannelCalibrationTable <==> r == Err(KeyError)
      ensures key in biasChannelCalibrationTable ==> var t := biasChannelCalibrationTable[key];
        && (r == Err(UnboundLocalError) <==> |t| < 2)
        && (|t| >= 2 ==> var i := Segment(t, voltage, 1);
              if Flat(t[i - 1], t[i]) then r == Err(ZeroDivisionError)
              else r == Ok(Round(Inverse(t[i - 1], t[i], voltage))))
        && (Increasing(t) ==> r == Ok(Mapped(t, voltage)))
    {
      if key !in biasChannelCalibrationTable { return Err(KeyError); }
      var y, xy := voltage, biasChannelCalibrationTable[key];
      if |xy| < 2 { return Err(UnboundLocalError); }
      var one, two := xy[0], xy[1];
      var i := 1;
      while i < |xy|
        invariant 1 <= i <= |xy|
        invariant i == 1 ==> (one, two) == (xy[0], xy[1])
        invariant i > 1 ==> (one, two) == (xy[i - 2], xy[i - 1])
        invariant i < |xy| ==> Segment(xy, y, 1) == Segment(xy, y, i)
        invariant i == |xy| ==> Segment(xy, y, 1) == |xy| - 1
      {
        one, two := xy[i - 1], xy[i];
        if two.y >= y { break; }
        i := i + 1;
      }
      if Increasing(xy) { ExactInverts(xy, y); }
      hide Slope, Line, Exact, Round;
      r := Invert(one, two, y);
    }
  }

  lemma ExactInverts(t: seq<Knot>, y: real)
    requires Increasing(t)
    ensures var i := Segment(t, y, 1);
      !Flat(t[i - 1], t[i]) && Exact(t, y) == Inverse(t[i - 1], t[i], y)
  {
    SlopeIsPositive(t[Segment(t, y, 1) - 1], t[Segment(t, y, 1)]);
  }

  /** Solves y = m * x + b for the line through two points. */
  method Invert(one: Knot, two: Knot, y: real) returns (r: Result)
    ensures r == if Flat(one, two) then Err(ZeroDivisionError) else Ok(Round(Inverse(one, two, y)))
  {
    if two.x == one.x { return Err(ZeroDivisionError); }
    ZeroSlope(one, two);
    if Slope(one, two) == 0.0 { return Err(ZeroDivisionError); }
    r := Ok(Round(Inverse(one, two, y)));
  }

  lemma ZeroSlope(a: Knot, b: Knot)
    requires a.x != b.x
    ensures Slope(a, b) == 0.0 <==> a.y == b.y
  {
    assert Slope(a, b) * (b.x - a.x) == b.y - a.y;
  }
}
