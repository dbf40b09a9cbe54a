/** The checksum of the command codec: CRC-16-CCITT, least significant bit first, zero start register.

    The loop of `computeCRC16_CCITT_8408` is tied to a specification function on its register, and that
    function to a shift register on bits.  There the checksum is proved to be the remainder of M(x) * x^16
    modulo x^16 + x^12 + x^5 + 1 over GF(2), the polynomial of section 2 of ITU-T Recommendation V.41, and
    its linearity and error detection follow. */
module Crc {

  type Byte = bv8

  // ---------- The register ----------

  function Shift(crc: bv16): bv16 {
    if crc & 1 != 0 then (crc >> 1) ^ 0x8408 else crc >> 1
  }

  function Shifts(crc: bv16, n: nat): bv16
    decreases n
  {
    if n == 0 then crc else Shifts(Shift(crc), n - 1)
  }

  function Update(crc: bv16, b: Byte): bv16 { Shifts(crc ^ (b as bv16), 8) }

  function Run(crc: bv16, data: seq<Byte>): bv16
    decreases |data|
  {
    if data == [] then crc else Run(Update(crc, data[0]), data[1..])
  }

  function Crc16(data: seq<Byte>): bv16 { Run(0, data) }

  lemma ShiftOnce(crc: bv16, n: nat)
    ensures Shifts(crc, n + 1) == Shifts(Shift(crc), n)
  {
  }

  lemma RunOnce(crc: bv16, data: seq<Byte>, i: nat)
    requires i < |data|
    ensures Run(crc, data[i..]) == Run(Update(crc, data[i]), data[i + 1..])
  {
    assert data[i..][1..] == data[i + 1..];
  }

  method ComputeCrc16(data: seq<Byte>) returns (crc: bv16)
    ensures crc == Crc16(data)
  {
    hide Run, Shifts;
    crc := 0;
    assert data[0..] == data;
    for i := 0 to |data|
      invariant Run(crc, data[i..]) == Crc16(data)
    {
      RunOnce(crc, data, i);
      crc := crc ^ (data[i] as bv16);
      ghost var start := crc;
      for j := 0 to 8
        invariant Shifts(crc, 8 - j) == Shifts(start, 8)
      {
        ShiftOnce(crc, 7 - j);
        if crc & 1 != 0 { crc := (crc >> 1) ^ 0x8408; } else { crc := crc >> 1; }
      }
      NoShift(crc);
    }
    NothingToRun(crc, data[|data|..]);
  }

  lemma NoShift(crc: bv16)
    ensures Shifts(crc, 0) == crc
  {
  }

  lemma NothingToRun(crc: bv16, data: seq<Byte>)
    requires data == []
    ensures Run(crc, data) == crc
  {
  }

  // ---------- Bits of the register ----------

  /** Bit k is the lowest bit after k shifts. */
  predicate Bit(c: bv16, k: nat)
    decreases k
  {
    if k == 0 then c & 1 == 1 else Bit(c >> 1, k - 1)
  }

  predicate ByteBit(b: Byte, k: nat)
    decreases k
  {
    if k == 0 then b & 1 == 1 else ByteBit(b >> 1, k - 1)
  }

  function Halve(c: bv16, n: nat): bv16
    decreases n
  {
    if n == 0 then c else Halve(c >> 1, n - 1)
  }

  lemma XorHalves(x: bv16, y: bv16, z: bv16)
    requires z == x ^ y
    ensures z >> 1 == (x >> 1) ^ (y >> 1)
  {
  }

  lemma BitOfHalf(x: bv16, k: nat)
    requires k > 0
    ensures Bit(x, k) == Bit(x >> 1, k - 1)
  {
  }

  lemma {:induction false} XorBit(x: bv16, y: bv16, z: bv16, k: nat)
    requires z == x ^ y
    ensures Bit(z, k) == (Bit(x, k) != Bit(y, k))
    decreases k
  {
    if k == 0 {
      assert x & 1 == 0 || x & 1 == 1;
      assert y & 1 == 0 || y & 1 == 1;
      assert z & 1 == (x & 1) ^ (y & 1);
    } else {
      XorHalves(x, y, z);
      var x1, y1, z1 := x >> 1, y >> 1, z >> 1;
      XorBit(x1, y1, z1, k - 1);
      BitOfHalf(x, k);
      BitOfHalf(y, k);
      BitOfHalf(z, k);
    }
  }

  lemma SameHalves(x: bv16, y: bv16)
    requires (x & 1 == 1) == (y & 1 == 1) && x >> 1 == y >> 1
    ensures x == y
  {
  }

  lemma {:induction false} HalveBit(c: bv16, n: nat, k: nat)
    ensures Bit(c, n + k) == Bit(Halve(c, n), k)
    decreases n
  {
    if n > 0 { HalveBit(c >> 1, n - 1, k); }
  }

  lemma {:induction false} ZeroBit(k: nat)
    ensures !Bit(0, k)
    decreases k
  {
    if k > 0 {
      assert (0 as bv16) >> 1 == 0;
      ZeroBit(k - 1);
    }
  }

  lemma {:induction false} HalveMonotone(c: bv16, d: bv16, n: nat)
    requires c <= d
    ensures Halve(c, n) <= Halve(d, n)
    decreases n
  {
    if n > 0 {
      var c1, d1 := c >> 1, d >> 1;
      HalveMonotone(c1, d1, n - 1);
    }
  }

  lemma {:induction false} HalveAdd(c: bv16, m: nat, n: nat)
    ensures Halve(c, m + n) == Halve(Halve(c, m), n)
    decreases m
  {
    if m > 0 { HalveAdd(c >> 1, m - 1, n); }
  }

  /** Sixteen shifts empty the register. */
  lemma Halve16(c: bv16)
    ensures Halve(c, 16) == 0
  {
    HalveMonotone(c, 0xFFFF, 16);
    HalveAdd(0xFFFF, 8, 8);
    assert Halve(0xFFFF, 8) == 0xFF;
    assert Halve(0xFF, 8) == 0;
  }

  lemma NoBit16(c: bv16, k: nat)
    ensures !Bit(c, 16 + k)
  {
    HalveBit(c, 16, k);
    Halve16(c);
    ZeroBit(k);
  }

  lemma {:induction false} WidenBit(b: Byte, k: nat)
    ensures Bit(b as bv16, k) == ByteBit(b, k)
    decreases k
  {
    assert ((b as bv16) & 1 == 1) == (b & 1 == 1);
    if k > 0 {
      assert (b as bv16) >> 1 == (b >> 1) as bv16;
      WidenBit(b >> 1, k - 1);
    }
  }

  lemma NoByteBit8(b: Byte, k: nat)
    ensures !Bit(b as bv16, 8 + k)
  {
    var c := b as bv16;
    HalveBit(c, 8, k);
    HalveMonotone(c, 0xFF, 8);
    assert Halve(0xFF, 8) == 0;
    ZeroBit(k);
  }

  lemma HalvesAgree(x: bv16, y: bv16, x1: bv16, y1: bv16, n: nat)
    requires n > 0 && Halve(x, n) == Halve(y, n) && forall k :: 0 <= k < n ==> Bit(x, k) == Bit(y, k)
    requires x1 == x >> 1 && y1 == y >> 1
    ensures Halve(x1, n - 1) == Halve(y1, n - 1) && forall k :: 0 <= k < n - 1 ==> Bit(x1, k) == Bit(y1, k)
    ensures (x & 1 == 1) == (y & 1 == 1)
  {
    assert Bit(x, 0) == Bit(y, 0);
    forall k | 0 <= k < n - 1 ensures Bit(x1, k) == Bit(y1, k) {
      assert Bit(x, k + 1) == Bit(y, k + 1);
      BitOfHalf(x, k + 1);
      BitOfHalf(y, k + 1);
    }
  }

  lemma {:induction false} BitsDetermine(x: bv16, y: bv16, n: nat)
    requires Halve(x, n) == Halve(y, n) && forall k :: 0 <= k < n ==> Bit(x, k) == Bit(y, k)
    ensures x == y
    decreases n
  {
    if n > 0 {
      var x1, y1 := x >> 1, y >> 1;
      HalvesAgree(x, y, x1, y1, n);
      BitsDetermine(x1, y1, n - 1);
      SameHalves(x, y);
    }
  }

  // ---------- Bit strings: polynomials over GF(2), highest degree first ----------

  type Bits = seq<bool>

  function Zeros(n: nat): (r: Bits)
    ensures |r| == n && forall i :: 0 <= i < n ==> !r[i]
  {
    seq(n, _ => false)
  }

  function Xor(a: Bits, b: Bits): (r: Bits)
    requires |a| == |b|
    ensures |r| == |a|
    ensures forall i :: 0 <= i < |a| ==> r[i] == (a[i] != b[i])
  {
    seq(|a|, i requires 0 <= i < |a| => a[i] != b[i])
  }

  /** The register, in the order in which it is shifted out. */
  function Bits16(c: bv16): (r: Bits)
    ensures |r| == 16 && forall k :: 0 <= k < 16 ==> r[k] == Bit(c, k)
  {
    seq(16, k requires 0 <= k < 16 => Bit(c, k))
  }

  function Bits8(b: Byte): (r: Bits)
    ensures |r| == 8 && forall k :: 0 <= k < 8 ==> r[k] == ByteBit(b, k)
  {
    seq(8, k requires 0 <= k < 8 => ByteBit(b, k))
  }

  /** The bits of a message in transmission order: byte by byte, least significant bit first. */
  function MessageBits(data: seq<Byte>): (r: Bits)
    ensures |r| == 8 * |data|
  {
    if data == [] then [] else Bits8(data[0]) + MessageBits(data[1..])
  }

  /** x^16 + x^12 + x^5 + 1 without its leading term: the coefficients of x^15, x^14, ..., 1. */
  function Generator(): (r: Bits)
    ensures |r| == 16
    ensures forall i :: 0 <= i < 16 ==> r[i] == (i == 15 - 12 || i == 15 - 5 || i == 15 - 0)
  {
    seq(16, i requires 0 <= i < 16 => i == 3 || i == 10 || i == 15)
  }

  lemma Bits16Injective(x: bv16, y: bv16)
    requires Bits16(x) == Bits16(y)
    ensures x == y
  {
    forall k | 0 <= k < 16 ensures Bit(x, k) == Bit(y, k) { assert Bits16(x)[k] == Bits16(y)[k]; }
    Halve16(x);
    Halve16(y);
    BitsDetermine(x, y, 16);
  }

  lemma Bits16Xor(x: bv16, y: bv16, z: bv16)
    requires z == x ^ y
    ensures Bits16(z) == Xor(Bits16(x), Bits16(y))
  {
    forall k | 0 <= k < 16 ensures Bits16(z)[k] == Xor(Bits16(x), Bits16(y))[k] { XorBit(x, y, z, k); }
  }

  lemma Bits16OfByte(b: Byte)
    ensures Bits16(b as bv16) == Bits8(b) + Zeros(8)
  {
    forall k | 0 <= k < 16 ensures Bits16(b as bv16)[k] == (Bits8(b) + Zeros(8))[k] {
      if k < 8 { WidenBit(b, k); } else { NoByteBit8(b, k - 8); }
    }
  }

  lemma Bits16Zero()
    ensures Bits16(0) == Zeros(16)
  {
    forall k | 0 <= k < 16 ensures Bits16(0)[k] == Zeros(16)[k] { ZeroBit(k); }
  }

  /** The lowest four bits. */
  lemma LowNibble(c: bv16)
    ensures Bit(c, 0) == (c & 1 == 1) && Bit(c, 1) == ((c >> 1) & 1 == 1)
    ensures Bit(c, 2) == (((c >> 1) >> 1) & 1 == 1) && Bit(c, 3) == ((((c >> 1) >> 1) >> 1) & 1 == 1)
  {
  }

  lemma Bits16Generator()
    ensures Bits16(0x8408) == Generator()
  {
    assert Halve(0x8408, 4) == 0x840 && Halve(0x840, 4) == 0x84 && Halve(0x84, 4) == 0x8;
    hide Bit, Halve;
    LowNibble(0x8408);
    LowNibble(0x840);
    LowNibble(0x84);
    LowNibble(0x8);
    BitsAbove(0x8408, 0x840);
    BitsAbove(0x840, 0x84);
    BitsAbove(0x84, 0x8);
  }

  lemma BitsAbove(c: bv16, d: bv16)
    requires Halve(c, 4) == d
    ensures forall k: nat :: Bit(c, 4 + k) == Bit(d, k)
  {
    forall k: nat ensures Bit(c, 4 + k) == Bit(d, k) { HalveBit(c, 4, k); }
  }

  /** One turn of a bit-serial shift register fed with bit b. */
  function Step(r: Bits, b: bool): (r': Bits)
    requires |r| == 16
    ensures |r'| == 16
  {
    if r[0] != b then Xor(r[1..] + [false], Generator()) else r[1..] + [false]
  }

  /** The register after the bits m. */
  function Serial(r: Bits, m: Bits): (r': Bits)
    requires |r| == 16
    ensures |r'| == 16
    decreases |m|
  {
    if m == [] then r else Serial(Step(r, m[0]), m[1..])
  }

  lemma LowBitSet(c: bv16)
    ensures (c & 1 != 0) == (c & 1 == 1)
  {
  }

  lemma Bits16Shift(c: bv16)
    ensures Bits16(Shift(c)) == Step(Bits16(c), false)
  {
    Bits16Generator();
    Bits16Xor(c >> 1, 0x8408, (c >> 1) ^ 0x8408);
    LowBitSet(c);
    forall k | 0 <= k < 16 ensures Bits16(c >> 1)[k] == (Bits16(c)[1..] + [false])[k] {
      if k == 15 { NoBit16(c, 0); }
    }
    assert Bits16(c >> 1) == Bits16(c)[1..] + [false];
  }

  lemma {:induction false} Bits16Shifts(c: bv16, n: nat)
    ensures Bits16(Shifts(c, n)) == Serial(Bits16(c), Zeros(n))
    decreases n
  {
    if n > 0 {
      Bits16Shift(c);
      Bits16Shifts(Shift(c), n - 1);
      assert Zeros(n)[1..] == Zeros(n - 1);
    }
  }

  lemma {:induction false} SerialAppend(r: Bits, m: Bits, m': Bits)
    requires |r| == 16
    ensures Serial(r, m + m') == Serial(Serial(r, m), m')
    decreases |m|
  {
    if m == [] {
      assert m + m' == m';
    } else {
      assert (m + m')[1..] == m[1..] + m';
      SerialAppend(Step(r, m[0]), m[1..], m');
    }
  }

  lemma PreloadedStep(r: Bits, m: Bits, i: nat)
    requires |r| == 16 && 0 < |m| <= 16 && i < 16
    ensures Step(Xor(r, m + Zeros(16 - |m|)), false)[i] == Xor(Step(r, m[0]), m[1..] + Zeros(17 - |m|))[i]
  {
    var loaded := Xor(r, m + Zeros(16 - |m|));
    StepAt(loaded, false, i);
    StepAt(r, m[0], i);
    hide Step, Generator;
  }

  lemma PreloadOnce(r: Bits, m: Bits)
    requires |r| == 16 && 0 < |m| <= 16
    ensures Step(Xor(r, m + Zeros(16 - |m|)), false) == Xor(Step(r, m[0]), m[1..] + Zeros(16 - |m[1..]|))
  {
    var loaded, next := Xor(r, m + Zeros(16 - |m|)), Xor(Step(r, m[0]), m[1..] + Zeros(17 - |m|));
    forall i: nat | i < 16 ensures Step(loaded, false)[i] == next[i] { PreloadedStep(r, m, i); }
    hide Step, Xor;
    assert Step(loaded, false) == next;
  }

  lemma ZerosTail(n: nat)
    requires n > 0
    ensures Zeros(n)[0] == false && Zeros(n)[1..] == Zeros(n - 1)
  {
  }

  /** Feeding up to 16 bits one by one is adding them to the register and shifting. */
  lemma {:induction false} Preload(r: Bits, m: Bits)
    requires |r| == 16 && |m| <= 16
    ensures Serial(Xor(r, m + Zeros(16 - |m|)), Zeros(|m|)) == Serial(r, m)
    decreases |m|
  {
    if m == [] {
      assert Xor(r, m + Zeros(16 - |m|)) == r;
    } else {
      hide Step, Xor, Zeros;
      PreloadOnce(r, m);
      ZerosTail(|m|);
      Preload(Step(r, m[0]), m[1..]);
    }
  }

  lemma UpdateIsSerial(c: bv16, b: Byte)
    ensures Bits16(Update(c, b)) == Serial(Bits16(c), Bits8(b))
  {
    Bits16Xor(c, b as bv16, c ^ (b as bv16));
    Bits16OfByte(b);
    Bits16Shifts(c ^ (b as bv16), 8);
    Preload(Bits16(c), Bits8(b));
  }

  /** The byte-wise loop computes the bit-serial register. */
  lemma {:induction false} RunIsSerial(c: bv16, data: seq<Byte>)
    ensures Bits16(Run(c, data)) == Serial(Bits16(c), MessageBits(data))
    decreases |data|
  {
    if data != [] {
      UpdateIsSerial(c, data[0]);
      RunIsSerial(Update(c, data[0]), data[1..]);
      SerialAppend(Bits16(c), Bits8(data[0]), MessageBits(data[1..]));
    }
  }

  lemma CrcIsSerial(data: seq<Byte>)
    ensures Bits16(Crc16(data)) == Serial(Zeros(16), MessageBits(data))
  {
    RunIsSerial(0, data);
    Bits16Zero();
  }

  // ---------- The remainder modulo the generator ----------

  /** The product of q and x^16 + x^12 + x^5 + 1, with |q| + 16 coefficients. */
  function Product(q: Bits): (r: Bits)
    ensures |r| == |q| + 16
  {
    if q == [] then Zeros(16)
    else Xor((if q[0] then [true] + Generator() else Zeros(17)) + Zeros(|q| - 1), [false] + Product(q[1..]))
  }

  /** r is a remainder of m * x^16: it has degree below 16 and differs from it by a multiple of the generator. */
  ghost predicate IsRemainder(m: Bits, r: Bits) {
    |r| == 16 && exists q: Bits :: |q| == |m| && Xor(Product(q), Zeros(|m|) + r) == m + Zeros(16)
  }

  /** The bits fed back while m is shifted in: the quotient. */
  function Quotient(r: Bits, m: Bits): (q: Bits)
    requires |r| == 16
    ensures |q| == |m|
    decreases |m|
  {
    if m == [] then [] else [r[0] != m[0]] + Quotient(Step(r, m[0]), m[1..])
  }

  lemma ProductAt(q: Bits, i: nat)
    requires 0 < |q| && i < |q| + 16
    ensures Product(q)[i] ==
      ((q[0] && (i == 0 || (i <= 16 && Generator()[i - 1]))) != (i > 0 && Product(q[1..])[i - 1]))
  {
  }

  lemma StepAt(r: Bits, b: bool, i: nat)
    requires |r| == 16 && i < 16
    ensures Step(r, b)[i] == ((i < 15 && r[i + 1]) != (r[0] != b && Generator()[i]))
  {
  }

  /** r * x^|m| + m * x^16 is the quotient times the generator plus the register after m. */
  lemma {:induction false} Division(r: Bits, m: Bits)
    requires |r| == 16
    ensures Xor(Product(Quotient(r, m)), Zeros(|m|) + Serial(r, m)) == Xor(r + Zeros(|m|), m + Zeros(16))
    decreases |m|
  {
    var q, end := Quotient(r, m), Serial(r, m);
    var lhs, rhs := Xor(Product(q), Zeros(|m|) + end), Xor(r + Zeros(|m|), m + Zeros(16));
    if m == [] {
      assert lhs == rhs;
    } else {
      var r1, m1 := Step(r, m[0]), m[1..];
      assert q[1..] == Quotient(r1, m1) && end == Serial(r1, m1);
      Division(r1, m1);
      var lhs1, rhs1 := Xor(Product(q[1..]), Zeros(|m1|) + end), Xor(r1 + Zeros(|m1|), m1 + Zeros(16));
      forall i | 0 <= i < |lhs| ensures lhs[i] == rhs[i] { DivisionAt(r, m, q, end, lhs1, rhs1, i); }
    }
  }

  /** The coefficients of the dividend, and of what is left of it after one step. */
  lemma DividendAt(r: Bits, m: Bits, i: nat)
    requires |r| == 16 && 0 < |m| && i < |m| + 16
    ensures Xor(r + Zeros(|m|), m + Zeros(16))[i] == ((i < 16 && r[i]) != (m + Zeros(16))[i])
    ensures i > 0 ==>
      Xor(Step(r, m[0]) + Zeros(|m| - 1), m[1..] + Zeros(16))[i - 1]
      == ((i <= 16 && Step(r, m[0])[i - 1]) != (m + Zeros(16))[i])
  {
  }

  lemma DivisionAt(r: Bits, m: Bits, q: Bits, end: Bits, lhs1: Bits, rhs1: Bits, i: nat)
    requires |r| == |end| == 16 && 0 < |m| == |q| && q[0] == (r[0] != m[0]) && i < |m| + 16
    requires lhs1 == Xor(Product(q[1..]), Zeros(|m| - 1) + end)
    requires rhs1 == Xor(Step(r, m[0]) + Zeros(|m| - 1), m[1..] + Zeros(16))
    requires lhs1 == rhs1
    ensures Xor(Product(q), Zeros(|m|) + end)[i] == Xor(r + Zeros(|m|), m + Zeros(16))[i]
  {
    hide Product, Step, Generator;
    ProductAt(q, i);
    DividendAt(r, m, i);
    if i > 0 {
      assert (Zeros(|m|) + end)[i] == (Zeros(|m| - 1) + end)[i - 1];
      assert lhs1[i - 1] == rhs1[i - 1];
      if i <= 16 { StepAt(r, m[0], i - 1); }
    }
  }

  /** How the coefficients i + 1 of two sums follow from those of their parts. */
  lemma SumAt(p: Bits, p': Bits, z: Bits, z': Bits, lead: bool, g: bool, i: nat)
    requires |p| == |z| && |p'| == |z'| && i + 1 < |p| && i < |p'|
    requires p[0] == lead && p[i + 1] == ((lead && g) != p'[i]) && !z[0] && z[i + 1] == z'[i]
    ensures Xor(p, z)[0] == lead && Xor(p, z)[i + 1] == ((lead && g) != Xor(p', z')[i])
  {
  }

  lemma PaddedAt(n: nat, r: Bits, i: nat)
    requires 0 < n && |r| == 16 && i < n + 15
    ensures !(Zeros(n) + r)[0] && (Zeros(n) + r)[i + 1] == (Zeros(n - 1) + r)[i]
  {
  }

  /** A coefficient of q times the generator plus r, in terms of the rest of q. */
  lemma MultipleAt(q: Bits, r: Bits, i: nat)
    requires 0 < |q| && |r| == 16 && i < |q| + 15
    ensures Xor(Product(q), Zeros(|q|) + r)[0] == q[0]
    ensures Xor(Product(q), Zeros(|q|) + r)[i + 1] ==
      ((q[0] && i < 16 && Generator()[i]) != Xor(Product(q[1..]), Zeros(|q| - 1) + r)[i])
  {
    hide *;
    var n := |q|;
    PaddedAt(n, r, i);
    ProductAt(q, 0);
    ProductAt(q, i + 1);
    SumAt(Product(q), Product(q[1..]), Zeros(n) + r, Zeros(n - 1) + r, q[0], i < 16 && Generator()[i], i);
  }

  lemma ChopFirst(q: Bits, q': Bits, r: Bits, r': Bits, i: nat)
    requires |q| == |q'| && 0 < |q| && |r| == |r'| == 16 && i < |q| + 15
    requires Xor(Product(q), Zeros(|q|) + r) == Xor(Product(q'), Zeros(|q|) + r')
    ensures Xor(Product(q[1..]), Zeros(|q| - 1) + r)[i] == Xor(Product(q'[1..]), Zeros(|q| - 1) + r')[i]
  {
    MultipleAt(q, r, i);
    MultipleAt(q', r', i);
    hide Product, Generator, Xor, Zeros;
  }

  lemma {:induction false} RemainderUnique(q: Bits, q': Bits, r: Bits, r': Bits)
    requires |q| == |q'| && |r| == |r'| == 16
    requires Xor(Product(q), Zeros(|q|) + r) == Xor(Product(q'), Zeros(|q|) + r')
    ensures r == r'
    decreases |q|
  {
    if q == [] {
      var a, b := Xor(Product(q), Zeros(|q|) + r), Xor(Product(q'), Zeros(|q|) + r');
      forall i | 0 <= i < 16 ensures r[i] == r'[i] { assert a[i] == b[i]; }
    } else {
      var a1, b1 := Xor(Product(q[1..]), Zeros(|q| - 1) + r), Xor(Product(q'[1..]), Zeros(|q| - 1) + r');
      forall i | 0 <= i < |a1| ensures a1[i] == b1[i] { ChopFirst(q, q', r, r', i); }
      RemainderUnique(q[1..], q'[1..], r, r');
    }
  }

  /** The checksum of a message is the one remainder of M(x) * x^16 modulo x^16 + x^12 + x^5 + 1. */
  lemma CrcIsTheRemainder(data: seq<Byte>, r: Bits)
    ensures IsRemainder(MessageBits(data), r) <==> r == Bits16(Crc16(data))
  {
    var m := MessageBits(data);
    CrcIsSerial(data);
    Division(Zeros(16), m);
    assert Xor(Zeros(16) + Zeros(|m|), m + Zeros(16)) == m + Zeros(16);
    assert IsRemainder(m, Serial(Zeros(16), m));
    if IsRemainder(m, r) {
      var q :| |q| == |m| && Xor(Product(q), Zeros(|m|) + r) == m + Zeros(16);
      RemainderUnique(q, Quotient(Zeros(16), m), r, Serial(Zeros(16), m));
    }
  }

  // ---------- Linearity ----------

  function XorBytes(a: seq<Byte>, b: seq<Byte>): (r: seq<Byte>)
    requires |a| == |b|
  {
    seq(|a|, i requires 0 <= i < |a| => a[i] ^ b[i])
  }

  lemma {:induction false} SerialLinear(r: Bits, s: Bits, m: Bits, n: Bits)
    requires |r| == |s| == 16 && |m| == |n|
    ensures Serial(Xor(r, s), Xor(m, n)) == Xor(Serial(r, m), Serial(s, n))
    decreases |m|
  {
    if m != [] {
      assert Step(Xor(r, s), Xor(m, n)[0]) == Xor(Step(r, m[0]), Step(s, n[0]));
      assert Xor(m, n)[1..] == Xor(m[1..], n[1..]);
      SerialLinear(Step(r, m[0]), Step(s, n[0]), m[1..], n[1..]);
    }
  }

  lemma ByteXorBit(a: Byte, b: Byte, c: Byte, k: nat)
    requires c == a ^ b
    ensures ByteBit(c, k) == (ByteBit(a, k) != ByteBit(b, k))
  {
    WidenBit(a, k);
    WidenBit(b, k);
    WidenBit(c, k);
    XorBit(a as bv16, b as bv16, c as bv16, k);
  }

  lemma Bits8Xor(a: Byte, b: Byte, c: Byte)
    requires c == a ^ b
    ensures Bits8(c) == Xor(Bits8(a), Bits8(b))
  {
    forall k | 0 <= k < 8 ensures Bits8(c)[k] == Xor(Bits8(a), Bits8(b))[k] { ByteXorBit(a, b, c, k); }
  }

  lemma XorAppend(a: Bits, b: Bits, m: Bits, n: Bits)
    requires |a| == |b| && |m| == |n|
    ensures Xor(a + m, b + n) == Xor(a, b) + Xor(m, n)
  {
  }

  lemma {:induction false} MessageBitsXor(a: seq<Byte>, b: seq<Byte>)
    requires |a| == |b|
    ensures MessageBits(XorBytes(a, b)) == Xor(MessageBits(a), MessageBits(b))
    decreases |a|
  {
    if a != [] {
      MessageBitsXor(a[1..], b[1..]);
      var c := XorBytes(a, b);
      assert c[1..] == XorBytes(a[1..], b[1..]);
      Bits8Xor(a[0], b[0], c[0]);
      XorAppend(Bits8(a[0]), Bits8(b[0]), MessageBits(a[1..]), MessageBits(b[1..]));
    }
  }

  lemma RegisterLinear(x: bv16, y: bv16, w: bv16, m: Bits, n: Bits)
    requires |m| == |n| && Bits16(x) == Serial(Zeros(16), m) && Bits16(y) == Serial(Zeros(16), n)
    requires Bits16(w) == Serial(Zeros(16), Xor(m, n))
    ensures w == x ^ y
  {
    SerialLinear(Zeros(16), Zeros(16), m, n);
    assert Xor(Zeros(16), Zeros(16)) == Zeros(16);
    Bits16Xor(x, y, x ^ y);
    Bits16Injective(w, x ^ y);
  }

  /** On messages of equal length the checksum is XOR-linear. */
  lemma CrcLinear(a: seq<Byte>, b: seq<Byte>)
    requires |a| == |b|
    ensures Crc16(XorBytes(a, b)) == Crc16(a) ^ Crc16(b)
  {
    CrcIsSerial(a);
    CrcIsSerial(b);
    CrcIsSerial(XorBytes(a, b));
    MessageBitsXor(a, b);
    RegisterLinear(Crc16(a), Crc16(b), Crc16(XorBytes(a, b)), MessageBits(a), MessageBits(b));
  }

  // ---------- Error detection ----------

  lemma StepKeepsNonzero(r: Bits)
    requires |r| == 16 && r != Zeros(16)
    ensures Step(r, false) != Zeros(16)
  {
    var s := Step(r, false);
    var i :| 0 <= i < 16 && r[i];
    assert s[15] == r[0];
    assert !r[0] ==> s[i - 1];
  }

  lemma {:induction false} ZerosKeepNonzero(r: Bits, n: nat)
    requires |r| == 16 && r != Zeros(16)
    ensures Serial(r, Zeros(n)) != Zeros(16)
    decreases n
  {
    if n > 0 {
      StepKeepsNonzero(r);
      assert Zeros(n)[1..] == Zeros(n - 1);
      ZerosKeepNonzero(Step(r, false), n - 1);
    }
  }

  lemma {:induction false} ZerosKeepZero(n: nat)
    ensures Serial(Zeros(16), Zeros(n)) == Zeros(16)
    decreases n
  {
    if n > 0 {
      assert Step(Zeros(16), false) == Zeros(16);
      assert Zeros(n)[1..] == Zeros(n - 1);
      ZerosKeepZero(n - 1);
    }
  }

  /** The messages agree outside the bits from, ..., from + width - 1. */
  ghost predicate DifferOnlyIn(m: Bits, n: Bits, from: nat, width: nat) {
    |m| == |n| && forall i :: 0 <= i < |m| && !(from <= i < from + width) ==> m[i] == n[i]
  }

  /** Up to 16 bits, one of them set, leave the zero register non-zero. */
  lemma WindowLeavesRegister(w: Bits, i: nat)
    requires i < |w| <= 16 && w[i]
    ensures Serial(Zeros(16), w) != Zeros(16)
  {
    Preload(Zeros(16), w);
    var loaded := Xor(Zeros(16), w + Zeros(16 - |w|));
    assert loaded[i];
    ZerosKeepNonzero(loaded, |w|);
  }

  lemma BurstShape(d: Bits, from: nat, width: nat)
    requires from + width <= |d| && DifferOnlyIn(d, Zeros(|d|), from, width)
    ensures d == Zeros(from) + (d[from..from + width] + Zeros(|d| - from - width))
  {
  }

  lemma SerialOfParts(r: Bits, a: Bits, w: Bits, z: Bits)
    requires |r| == 16
    ensures Serial(r, a + (w + z)) == Serial(Serial(Serial(r, a), w), z)
  {
    SerialAppend(r, a, w + z);
    SerialAppend(Serial(r, a), w, z);
  }

  lemma BurstLeavesRegister(d: Bits, from: nat, width: nat, i: nat)
    requires from + width <= |d| && width <= 16 && DifferOnlyIn(d, Zeros(|d|), from, width)
    requires i < |d| && d[i]
    ensures Serial(Zeros(16), d) != Zeros(16)
  {
    var w := d[from..from + width];
    BurstShape(d, from, width);
    assert from <= i < from + width && w[i - from];
    hide Serial, Zeros, DifferOnlyIn;
    WindowLeavesRegister(w, i - from);
    ZerosKeepZero(from);
    ZerosKeepNonzero(Serial(Zeros(16), w), |d| - from - width);
    SerialOfParts(Zeros(16), Zeros(from), w, Zeros(|d| - from - width));
  }

  /** Any change confined to 16 consecutive bits, at any bit position of a message of any length, changes
      the checksum. */
  lemma BurstDetected(a: seq<Byte>, b: seq<Byte>, from: nat, width: nat)
    requires |a| == |b| && width <= 16 && from + width <= 8 * |a|
    requires DifferOnlyIn(MessageBits(a), MessageBits(b), from, width) && MessageBits(a) != MessageBits(b)
    ensures Crc16(a) != Crc16(b)
  {
    var m, n := MessageBits(a), MessageBits(b);
    var d := Xor(m, n);
    var i :| 0 <= i < |m| && m[i] != n[i];
    assert d[i];
    BurstLeavesRegister(d, from, width, i);
    CrcIsSerial(a);
    CrcIsSerial(b);
    SerialLinear(Zeros(16), Zeros(16), m, n);
    assert Xor(Zeros(16), Zeros(16)) == Zeros(16);
    XorSelf(Serial(Zeros(16), m));
  }

  lemma XorSelf(r: Bits)
    ensures Xor(r, r) == Zeros(|r|)
  {
  }

  lemma {:induction false} MessageBitsAt(data: seq<Byte>, i: nat, k: nat)
    requires i < |data| && k < 8
    ensures MessageBits(data)[8 * i + k] == ByteBit(data[i], k)
    decreases |data|
  {
    if i > 0 { MessageBitsAt(data[1..], i - 1, k); }
  }

  lemma ByteBitsInjective(x: Byte, y: Byte)
    requires Bits8(x) == Bits8(y)
    ensures x == y
  {
    Bits16OfByte(x);
    Bits16OfByte(y);
    Bits16Injective(x as bv16, y as bv16);
  }

  /** Any change confined to one byte or to two adjacent bytes changes the checksum. */
  lemma TwoBytesDetected(a: seq<Byte>, b: seq<Byte>, i: nat)
    requires |a| == |b| && i < |a| && a != b
    requires forall j :: 0 <= j < |a| && j != i && j != i + 1 ==> a[j] == b[j]
    ensures Crc16(a) != Crc16(b)
  {
    var width := if i + 1 < |a| then 16 else 8;
    var m, n := MessageBits(a), MessageBits(b);
    forall x | 0 <= x < |m| && !(8 * i <= x < 8 * i + width) ensures m[x] == n[x] {
      MessageBitsAt(a, x / 8, x % 8);
      MessageBitsAt(b, x / 8, x % 8);
    }
    var j :| 0 <= j < |a| && a[j] != b[j];
    if forall k :: 0 <= k < 8 ==> ByteBit(a[j], k) == ByteBit(b[j], k) { ByteBitsInjective(a[j], b[j]); }
    var k :| 0 <= k < 8 && ByteBit(a[j], k) != ByteBit(b[j], k);
    MessageBitsAt(a, j, k);
    MessageBitsAt(b, j, k);
    BurstDetected(a, b, 8 * i, width);
  }

  lemma {:induction false} RunAppend(c: bv16, a: seq<Byte>, b: seq<Byte>)
    ensures Run(c, a + b) == Run(Run(c, a), b)
    decreases |a|
  {
    if a == [] {
      assert a + b == b;
    } else {
      assert (a + b)[1..] == a[1..] + b;
      RunAppend(Update(c, a[0]), a[1..], b);
    }
  }

  lemma {:induction false} NothingYet(zeros: seq<Byte>)
    requires forall i :: 0 <= i < |zeros| ==> zeros[i] == 0
    ensures Crc16(zeros) == 0
    decreases |zeros|
  {
    if zeros != [] {
      assert Update(0, 0) == 0;
      NothingYet(zeros[1..]);
    }
  }

  lemma LastByteOfZeros(d: seq<Byte>)
    requires d != [] && forall i :: 0 <= i < |d| - 1 ==> d[i] == 0
    ensures Crc16(d) == Update(0, d[|d| - 1])
  {
    var n := |d| - 1;
    NothingYet(d[..n]);
    RunAppend(0, d[..n], [d[n]]);
    assert d == d[..n] + [d[n]];
    hide Update;
    assert Run(Update(0, d[n]), []) == Update(0, d[n]);
  }

  lemma SameFrontXors(a: seq<Byte>, b: seq<Byte>, i: nat)
    requires |a| == |b| && i < |a| && a[i] == b[i]
    ensures XorBytes(a, b)[i] == 0
  {
    XorByteSelf(a[i]);
  }

  /** A change of the last byte alone changes the checksum as the change by itself would. */
  lemma LastByteChange(a: seq<Byte>, b: seq<Byte>, d: Byte, z: bv16)
    requires |a| == |b| > 0 && a[..|a| - 1] == b[..|b| - 1]
    requires d == a[|a| - 1] ^ b[|b| - 1] && z == Crc16(a) ^ Crc16(b)
    ensures z == Update(0, d)
  {
    hide Crc16, Update;
    CrcLinear(a, b);
    var x := XorBytes(a, b);
    forall i: nat | i < |a| - 1 ensures x[i] == 0 {
      assert a[i] == a[..|a| - 1][i] == b[i];
      SameFrontXors(a, b, i);
    }
    LastByteOfZeros(x);
  }

  lemma XorByteSelf(x: Byte)
    ensures x ^ x == 0
  {
  }

  /** Whether an odd number of bits is set. */
  function Odd(m: Bits): bool {
    if m == [] then false else m[0] != Odd(m[1..])
  }

  lemma {:induction false} OddXor(m: Bits, n: Bits)
    requires |m| == |n|
    ensures Odd(Xor(m, n)) == (Odd(m) != Odd(n))
    decreases |m|
  {
    if m != [] {
      assert Xor(m, n)[1..] == Xor(m[1..], n[1..]);
      OddXor(m[1..], n[1..]);
    }
  }

  lemma {:induction false} OddAppend(m: Bits, n: Bits)
    ensures Odd(m + n) == (Odd(m) != Odd(n))
    decreases |m|
  {
    if m == [] {
      assert m + n == n;
    } else {
      assert (m + n)[1..] == m[1..] + n;
      OddAppend(m[1..], n);
    }
  }

  lemma {:induction false} OddZeros(n: nat)
    ensures !Odd(Zeros(n))
    decreases n
  {
    if n > 0 {
      assert Zeros(n)[1..] == Zeros(n - 1);
      OddZeros(n - 1);
    }
  }

  lemma OddGenerator()
    ensures Odd(Generator())
  {
    assert Generator() == Zeros(3) + ([true] + (Zeros(6) + ([true] + (Zeros(4) + [true]))));
    OddAppend(Zeros(3), [true] + (Zeros(6) + ([true] + (Zeros(4) + [true]))));
    OddAppend([true], Zeros(6) + ([true] + (Zeros(4) + [true])));
    OddAppend(Zeros(6), [true] + (Zeros(4) + [true]));
    OddAppend([true], Zeros(4) + [true]);
    OddAppend(Zeros(4), [true]);
    OddZeros(3);
    OddZeros(4);
    OddZeros(6);
  }

  lemma {:induction false} OddSerial(r: Bits, m: Bits)
    requires |r| == 16
    ensures Odd(Serial(r, m)) == (Odd(r) != Odd(m))
    decreases |m|
  {
    if m != [] {
      OddAppend(r[1..], [false]);
      OddGenerator();
      OddXor(r[1..] + [false], Generator());
      OddSerial(Step(r, m[0]), m[1..]);
    }
  }

  /** Any change of an odd number of bits, anywhere in the message, changes the checksum. */
  lemma OddErrorsDetected(a: seq<Byte>, b: seq<Byte>)
    requires |a| == |b| && Odd(MessageBits(XorBytes(a, b)))
    ensures Crc16(a) != Crc16(b)
  {
    CrcIsSerial(XorBytes(a, b));
    OddSerial(Zeros(16), MessageBits(XorBytes(a, b)));
    OddZeros(16);
    CrcLinear(a, b);
    Bits16Zero();
    XorZero(Crc16(a), Crc16(b));
  }

  lemma XorZero(x: bv16, y: bv16)
    ensures x ^ y == 0 <==> x == y
  {
  }
}
