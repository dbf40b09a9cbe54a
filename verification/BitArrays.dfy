/** Conversions between integers, big-endian bit arrays and Gray codes. */
module BitArrays {
  import opened Powers
  import opened Wrappers

  // ---------- Integers and bits ----------

  /** The last n binary digits of v, most significant first. */
  function Digits(v: nat, n: nat): (r: seq<bool>)
    ensures |r| == n
  {
    if n == 0 then [] else Digits(v / 2, n - 1) + [v % 2 == 1]
  }

  function Value(s: seq<bool>): nat {
    if s == [] then 0 else 2 * Value(s[..|s| - 1]) + (if s[|s| - 1] then 1 else 0)
  }

  function Saturated(v: int, n: nat): (r: nat)
    ensures r < Pow2(n)
  {
    if v < 0 then 0 else if v > Pow2(n) - 1 then Pow2(n) - 1 else v
  }

  function Apart(v: int, x: int): nat { if v >= x then v - x else x - v }

  /** Of the numbers that n digits can write, r is the one nearest to v. */
  ghost predicate Nearest(v: int, n: nat, r: int) {
    0 <= r < Pow2(n) && forall x :: 0 <= x < Pow2(n) ==> Apart(v, r) <= Apart(v, x)
  }

  lemma SaturatedIsNearest(v: int, n: nat, r: int)
    ensures Nearest(v, n, r) <==> r == Saturated(v, n)
  {
    if Nearest(v, n, r) { assert Apart(v, r) <= Apart(v, Saturated(v, n)); }
  }

  lemma {:induction false} ValueOfDigits(v: nat, n: nat)
    requires v < Pow2(n)
    ensures Value(Digits(v, n)) == v
  {
    if n > 0 {
      ValueOfDigits(v / 2, n - 1);
      assert Digits(v, n)[..n - 1] == Digits(v / 2, n - 1);
    }
  }

  lemma {:induction false} DigitsOfValue(s: seq<bool>)
    ensures Value(s) < Pow2(|s|) && Digits(Value(s), |s|) == s
  {
    if s != [] {
      DigitsOfValue(s[..|s| - 1]);
    }
  }

  /** The leftmost digit in which two numbers differ decides which of them is larger. */
  lemma {:induction false} ValueIsLexicographic(a: seq<bool>, b: seq<bool>, i: nat)
    requires |a| == |b| && i < |a| && a[..i] == b[..i] && !a[i] && b[i]
    ensures Value(a) < Value(b)
    decreases |a|
  {
    var n := |a| - 1;
    if i < n {
      assert a[..n][..i] == a[..i] && b[..n][..i] == b[..i];
      ValueIsLexicographic(a[..n], b[..n], i);
    } else {
      assert a[..n] == b[..n];
    }
  }

  function Reversed(s: seq<bool>): (r: seq<bool>)
    ensures |r| == |s| && forall i :: 0 <= i < |s| ==> r[i] == s[|s| - 1 - i]
  {
    seq(|s|, i requires 0 <= i < |s| => s[|s| - 1 - i])
  }

  method ReverseInPlace(s: array<bool>)
    modifies s
    ensures s[..] == Reversed(old(s[..]))
  {
    var n, i := s.Length, 0;
    while i < n / 2
      invariant 0 <= i <= n / 2
      invariant forall k :: 0 <= k < i ==> s[k] == old(s[n - 1 - k]) && s[n - 1 - k] == old(s[k])
      invariant forall k :: i <= k < n - i ==> s[k] == old(s[k])
    {
      s[i], s[n - 1 - i] := s[n - 1 - i], s[i];
      i := i + 1;
    }
  }

  function ShiftRight(v: nat, i: nat): nat { if i == 0 then v else ShiftRight(v, i - 1) / 2 }

  lemma NotShifted(v: nat)
    ensures ShiftRight(v, 0) == v
  {
  }

  lemma NoDigits(v: nat)
    ensures Digits(v, 0) == []
  {
  }

  lemma ShiftOnce(v: nat, i: nat, m: nat)
    requires m > 0
    ensures Digits(ShiftRight(v, i), m) == Digits(ShiftRight(v, i + 1), m - 1) + [ShiftRight(v, i) % 2 != 0]
  {
  }

  /** Numbers that do not fit are replaced by the nearest one that does. */
  method IntToBin(v: int, n: nat, reverse: bool) returns (s: array<bool>)
    ensures fresh(s) && s[..] == if reverse then Reversed(Digits(Saturated(v, n), n)) else Digits(Saturated(v, n), n)
    ensures Nearest(v, n, Value(if reverse then Reversed(s[..]) else s[..]))
  {
    var w := v;
    if w < 0 { w := 0; }
    if w > Pow2(n) - 1 { w := Pow2(n) - 1; }
    NearestDigits(v, n);
    assert w == Saturated(v, n);
    hide Nearest, Digits, Value, Saturated, Pow2;
    s := new bool[n];
    Fill(s, w);
    if reverse { ReverseInPlace(s); }
  }

  lemma NearestDigits(v: int, n: nat)
    ensures Nearest(v, n, Value(Digits(Saturated(v, n), n)))
    ensures Reversed(Reversed(Digits(Saturated(v, n), n))) == Digits(Saturated(v, n), n)
  {
    ValueOfDigits(Saturated(v, n), n);
    SaturatedIsNearest(v, n, Saturated(v, n));
  }

  method Fill(s: array<bool>, v: nat)
    modifies s
    ensures s[..] == Digits(v, s.Length)
  {
    hide Digits, ShiftRight;
    var n := s.Length;
    NotShifted(v);
    for i := 0 to n
      invariant Digits(v, n) == Digits(ShiftRight(v, i), n - i) + s[n - i..]
    {
      ShiftOnce(v, i, n - i);
      ghost var rest, done := Digits(ShiftRight(v, i + 1), n - i - 1), s[n - i..];
      s[n - i - 1] := ShiftRight(v, i) % 2 != 0;
      assert rest + [s[n - i - 1]] + done == rest + s[n - i - 1..];
    }
    NoDigits(ShiftRight(v, n));
    assert s[..] == s[0..];
  }

  /** With `reverse` the argument itself is turned round. */
  method BinToInt(s: array<bool>, reverse: bool) returns (r: nat)
    modifies if reverse then {s} else {}
    ensures s[..] == if reverse then Reversed(old(s[..])) else old(s[..])
    ensures r == Value(s[..])
  {
    if reverse { ReverseInPlace(s); }
    r := 0;
    var n := s.Length;
    ghost var bits := s[..];
    hide Value, Pow2, Weighted;
    NoValue(bits);
    for i := 0 to n
      invariant s[..] == bits
      invariant r == Weighted(bits, i)
    {
      NextDigit(bits, i);
      if s[i] { r := r + Pow2(n - i - 1); }
    }
  }

  /** What the first i digits of s contribute to its value. */
  function Weighted(s: seq<bool>, i: nat): nat
    requires i <= |s|
  {
    Value(s[..i]) * Pow2(|s| - i)
  }

  lemma NoValue(s: seq<bool>)
    ensures Weighted(s, 0) == 0 && Weighted(s, |s|) == Value(s)
  {
    assert s[..|s|] == s;
  }

  lemma NextDigit(s: seq<bool>, i: nat)
    requires i < |s|
    ensures Weighted(s, i + 1) == Weighted(s, i) + if s[i] then Pow2(|s| - i - 1) else 0
  {
    assert s[..i + 1][..i] == s[..i];
    var v, p := Value(s[..i]), Pow2(|s| - i - 1);
    assert Pow2(|s| - i) == 2 * p;
    assert (2 * v + 1) * p == v * (2 * p) + p;
  }

  // ---------- Gray codes ----------

  /** The running parity of a code. */
  function GrayDecode(g: seq<bool>): (b: seq<bool>)
    ensures |b| == |g|
  {
    if |g| <= 1 then g
    else
      var front := GrayDecode(g[..|g| - 1]);
      front + [front[|g| - 2] != g[|g| - 1]]
  }

  /** The parity of neighbours. */
  function GrayEncode(b: seq<bool>): (g: seq<bool>)
    ensures |g| == |b| && forall i :: 0 <= i < |b| ==> g[i] == if i == 0 then b[0] else b[i - 1] != b[i]
  {
    seq(|b|, i requires 0 <= i < |b| => if i == 0 then b[0] else b[i - 1] != b[i])
  }

  /** How many bits are set. */
  function Ones(s: seq<bool>): nat { if s == [] then 0 else Ones(s[..|s| - 1]) + if s[|s| - 1] then 1 else 0 }

  /** Bit i of the number is set if and only if an odd number of the bits 0 to i of the code are. */
  lemma {:induction false} GrayIsParity(g: seq<bool>, i: nat)
    requires i < |g|
    ensures GrayDecode(g)[i] <==> Ones(g[..i + 1]) % 2 == 1
    decreases |g|
  {
    var n := |g| - 1;
    if i < n {
      assert g[..n][..i + 1] == g[..i + 1];
      GrayIsParity(g[..n], i);
    } else {
      assert g[..n + 1] == g;
      if n == 0 {
        assert Ones(g[..0]) == 0;
      } else {
        GrayIsParity(g[..n], n - 1);
        assert g[..n][..n] == g[..n];
      }
    }
  }

  /** The empty code is an IndexError. */
  method GrayToBin(g: array<bool>) returns (b: Option<array<bool>>)
    ensures b.None? <==> g.Length == 0
    ensures b.Some? ==> fresh(b.value) && b.value[..] == GrayDecode(g[..])
  {
    if g.Length == 0 { return None; }
    var s := new bool[g.Length];
    s[0] := g[0];
    for i := 1 to g.Length
      invariant s[..i] == GrayDecode(g[..i])
    {
      assert g[..i + 1][..i] == g[..i];
      s[i] := s[i - 1] != g[i];
      assert s[..i + 1] == s[..i] + [s[i]];
    }
    assert g[..g.Length] == g[..] && s[..g.Length] == s[..];
    b := Some(s);
  }

  method GrayToInt(g: array<bool>) returns (r: Option<nat>)
    ensures r == if g.Length == 0 then None else Some(Value(GrayDecode(g[..])))
  {
    var b := GrayToBin(g);
    if b.None? { return None; }
    var v := BinToInt(b.value, false);
    r := Some(v);
  }

  /** Decoding is a bijection on the codes of each length, and its inverse is the parity of neighbours. */
  lemma GrayInverse(s: seq<bool>)
    ensures GrayEncode(GrayDecode(s)) == s && GrayDecode(GrayEncode(s)) == s
  {
    EncodeDecode(s);
    DecodeEncode(s);
  }

  lemma {:induction false} EncodeDecode(s: seq<bool>)
    ensures GrayEncode(GrayDecode(s)) == s
  {
    if |s| > 1 {
      var n := |s| - 1;
      var front := GrayDecode(s[..n]);
      EncodeDecode(s[..n]);
      forall i | 0 <= i < n ensures GrayEncode(GrayDecode(s))[i] == s[i] {
        assert GrayEncode(front)[i] == s[..n][i];
      }
    }
  }

  lemma {:induction false} DecodeEncode(s: seq<bool>)
    ensures GrayDecode(GrayEncode(s)) == s
  {
    if |s| > 1 {
      var n := |s| - 1;
      DecodeEncode(s[..n]);
      assert GrayEncode(s)[..n] == GrayEncode(s[..n]);
    }
  }

  predicate DifferAt(a: seq<bool>, b: seq<bool>, i: nat) {
    |a| == |b| && i < |a| && a[i] != b[i] && forall j :: 0 <= j < |a| && j != i ==> a[j] == b[j]
  }

  ghost predicate DifferInOne(a: seq<bool>, b: seq<bool>) { exists i :: DifferAt(a, b, i) }

  /** Neighbouring numbers have codes that differ in exactly one bit. */
  lemma {:induction false} SuccessorsDifferInOne(a: seq<bool>, b: seq<bool>)
    requires |a| == |b| && Value(b) == Value(a) + 1
    ensures DifferInOne(GrayEncode(a), GrayEncode(b))
  {
    var n := |a| - 1;
    if a[n] {
      SuccessorsDifferInOne(a[..n], b[..n]);
      OppositeParity(a[..n], b[..n]);
      var i :| DifferAt(GrayEncode(a[..n]), GrayEncode(b[..n]), i);
      CarryKeepsOneDifference(a, b, i);
    } else {
      SameValue(a[..n], b[..n]);
      assert DifferAt(GrayEncode(a), GrayEncode(b), n);
    }
  }

  lemma CarryKeepsOneDifference(a: seq<bool>, b: seq<bool>, i: nat)
    requires |a| == |b| > 1 && a[|a| - 1] && !b[|b| - 1] && a[|a| - 2] != b[|b| - 2]
    requires DifferAt(GrayEncode(a[..|a| - 1]), GrayEncode(b[..|b| - 1]), i)
    ensures DifferAt(GrayEncode(a), GrayEncode(b), i)
  {
    var n := |a| - 1;
    var g, h, g', h' := GrayEncode(a[..n]), GrayEncode(b[..n]), GrayEncode(a), GrayEncode(b);
    hide GrayEncode;
    assert forall j :: 0 <= j < n ==> g'[j] == g[j] && h'[j] == h[j];
    assert g'[n] == h'[n];
  }

  lemma OppositeParity(a: seq<bool>, b: seq<bool>)
    requires |a| == |b| && Value(b) == Value(a) + 1
    ensures |a| > 0 && a[|a| - 1] != b[|b| - 1]
  {
  }

  lemma SameValue(a: seq<bool>, b: seq<bool>)
    requires |a| == |b| && Value(a) == Value(b)
    ensures a == b
  {
    DigitsOfValue(a);
    DigitsOfValue(b);
  }

  /** Stated for the codes themselves: whenever grayToInt of two codes of one length differs by one, the codes differ
      in exactly one bit; and equal numbers come from equal codes. */
  lemma GrayNeighbours(g: seq<bool>, h: seq<bool>)
    requires |g| == |h|
    ensures Value(GrayDecode(h)) == Value(GrayDecode(g)) + 1 ==> DifferInOne(g, h)
    ensures Value(GrayDecode(h)) == Value(GrayDecode(g)) <==> g == h
  {
    GrayInverse(g);
    GrayInverse(h);
    if Value(GrayDecode(h)) == Value(GrayDecode(g)) + 1 { SuccessorsDifferInOne(GrayDecode(g), GrayDecode(h)); }
    if Value(GrayDecode(h)) == Value(GrayDecode(g)) { SameValue(GrayDecode(g), GrayDecode(h)); }
  }
}
