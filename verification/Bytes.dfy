/** Bytes as numbers and as bit-vectors. */
module Bytes {
  import opened Powers

  type Byte = b: int | 0 <= b < 0x100

  /** The lowest n binary digits of b. */
  function Digits(b: nat, n: nat): bv8
    decreases n
  {
    if n == 0 then 0 else Append(Digits(b / 2, n - 1), b % 2 == 1)
  }

  function Append(x: bv8, one: bool): bv8 { (x << 1) | (if one then 1 else 0) }

  function ToBits(b: Byte): bv8 { Digits(b, 8) }

  function Ones(n: nat): bv8
    decreases n
  {
    if n == 0 then 0 else Append(Ones(n - 1), true)
  }

  lemma AppendBelow(x: bv8, m: bv8, one: bool)
    requires x <= m <= 0x7F
    ensures Append(x, one) <= Append(m, true)
  {
  }

  lemma AppendInjective(x: bv8, y: bv8, one: bool, other: bool)
    requires x <= 0x7F && y <= 0x7F && Append(x, one) == Append(y, other)
    ensures x == y && one == other
  {
  }

  lemma {:induction false} DigitsBelow(b: nat, n: nat, m: bv8)
    requires n <= 8 && m == Ones(n)
    ensures Digits(b, n) <= m
    decreases n
  {
    hide Append;
    if n > 0 {
      var k := Ones(n - 1);
      DigitsBelow(b / 2, n - 1, k);
      OnesAreSmall(n - 1, k);
      AppendBelow(Digits(b / 2, n - 1), k, b % 2 == 1);
    }
  }

  lemma OnesAreSmall(n: nat, m: bv8)
    requires n <= 7 && m == Ones(n)
    ensures m <= 0x7F
  {
    assert Ones(1) == 0x1 && Ones(2) == 0x3 && Ones(3) == 0x7 && Ones(4) == 0xF;
    assert Ones(5) == 0x1F && Ones(6) == 0x3F && Ones(7) == 0x7F;
  }

  lemma {:induction false} DigitsInjective(a: nat, b: nat, n: nat)
    requires n <= 8 && a < Pow2(n) && b < Pow2(n) && Digits(a, n) == Digits(b, n)
    ensures a == b
    decreases n
  {
    hide Append, Ones;
    if n > 0 {
      var x, y, k := Digits(a / 2, n - 1), Digits(b / 2, n - 1), Ones(n - 1);
      DigitsBelow(a / 2, n - 1, k);
      DigitsBelow(b / 2, n - 1, k);
      OnesAreSmall(n - 1, k);
      AppendInjective(x, y, a % 2 == 1, b % 2 == 1);
      DigitsInjective(a / 2, b / 2, n - 1);
    }
  }

  lemma ToBitsInjective(a: Byte, b: Byte)
    requires ToBits(a) == ToBits(b)
    ensures a == b
  {
    hide Digits;
    assert Pow2(8) == 0x100;
    DigitsInjective(a, b, 8);
  }
}
