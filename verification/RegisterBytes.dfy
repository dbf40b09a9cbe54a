/** How the checksum register is written as a number and as two bytes. */
module RegisterBytes {
  import opened Bytes
  import opened Powers
  import Crc

  type Word = w: int | 0 <= w < 0x1_0000

  /** The number whose binary digits are the lowest n bits of a register. */
  function Number(c: bv16, n: nat): (r: nat)
    ensures r < Pow2(n)
    decreases n
  {
    if n == 0 then 0 else 2 * Number(c >> 1, n - 1) + (if c & 1 == 1 then 1 else 0)
  }

  function ToWord(c: bv16): Word {
    assert Pow2(16) == 0x1_0000 by { assert Pow2(8) == 0x100; assert Pow2(12) == 0x1000; }
    Number(c, 16)
  }

  /** Binary digit k of a number. */
  predicate Digit(v: nat, k: nat) { if k == 0 then v % 2 == 1 else Digit(v / 2, k - 1) }

  lemma {:induction false} DigitOfNumber(c: bv16, n: nat, k: nat)
    requires k < n
    ensures Digit(Number(c, n), k) == Crc.Bit(c, k)
    decreases n
  {
    if k > 0 {
      var half := c >> 1;
      DigitOfNumber(half, n - 1, k - 1);
      assert Number(c, n) / 2 == Number(half, n - 1);
    }
  }

  lemma AppendBits(x: bv8, one: bool)
    requires x <= 0x7F
    ensures Append(x, one) >> 1 == x && (Append(x, one) & 1 == 1 <==> one)
  {
  }

  lemma LastDigit(b: nat, n: nat)
    requires 0 < n <= 8
    ensures Digits(b, n) >> 1 == Digits(b / 2, n - 1) && (Digits(b, n) & 1 == 1 <==> b % 2 == 1)
  {
    hide Ones, Append;
    var m := Ones(n - 1);
    DigitsBelow(b / 2, n - 1, m);
    OnesAreSmall(n - 1, m);
    AppendBits(Digits(b / 2, n - 1), b % 2 == 1);
  }

  lemma {:induction false} DigitOfBits(b: nat, n: nat, k: nat)
    requires k < n <= 8
    ensures Digit(b, k) == Crc.ByteBit(Digits(b, n), k)
    decreases n
  {
    LastDigit(b, n);
    hide Digits;
    if k > 0 { DigitOfBits(b / 2, n - 1, k - 1); }
  }

  lemma DigitOfHalf(v: nat, k: nat)
    ensures Digit(v, k + 1) == Digit(v / 2, k)
  {
  }

  lemma DigitOfSixteenth(v: nat, k: nat)
    ensures Digit(v, 4 + k) == Digit(v / 0x10, k)
  {
    hide Digit;
    var v1, v2, v3 := v / 2, v / 4, v / 8;
    assert v1 / 2 == v2 && v2 / 2 == v3 && v3 / 2 == v / 0x10;
    DigitOfHalf(v, k + 3);
    DigitOfHalf(v1, k + 2);
    DigitOfHalf(v2, k + 1);
    DigitOfHalf(v3, k);
  }

  lemma DigitOfHigh(v: nat, k: nat)
    ensures Digit(v / 0x100, k) == Digit(v, 8 + k)
  {
    hide Digit;
    assert v / 0x10 / 0x10 == v / 0x100;
    DigitOfSixteenth(v, 4 + k);
    DigitOfSixteenth(v / 0x10, k);
  }

  lemma {:induction false} DigitOfLow(v: nat, w: nat, n: nat, k: nat)
    requires k < n <= 8 && exists q: nat :: w == v + Pow2(n) * q
    ensures Digit(w, k) == Digit(v, k)
    decreases n
  {
    var q: nat :| w == v + Pow2(n) * q;
    assert w == v + 2 * (Pow2(n - 1) * q);
    if k > 0 {
      assert w / 2 == v / 2 + Pow2(n - 1) * q;
      DigitOfLow(v / 2, w / 2, n - 1, k - 1);
    }
  }

  /** The two bytes h, l have the bits of the register. */
  ghost predicate Spells(h: Byte, l: Byte, c: bv16) { forall k: nat :: k < 8 ==> SpellsAt(h, l, c, k) }

  predicate SpellsAt(h: Byte, l: Byte, c: bv16, k: nat) {
    Crc.ByteBit(ToBits(h), k) == Crc.Bit(c, 8 + k) && Crc.ByteBit(ToBits(l), k) == Crc.Bit(c, k)
  }

  function High(w: Word): Byte { w / 0x100 }
  function Low(w: Word): Byte { w % 0x100 }

  lemma SpelledBit(c: bv16, w: Word, k: nat)
    requires k < 8 && w == ToWord(c)
    ensures SpellsAt(High(w), Low(w), c, k)
  {
    hide Number, Digit, Crc.Bit, Crc.ByteBit, Digits;
    DigitOfNumber(c, 16, k);
    DigitOfNumber(c, 16, 8 + k);
    DigitOfHigh(w, k);
    LowPart(w, k);
    DigitOfBits(High(w), 8, k);
    DigitOfBits(Low(w), 8, k);
  }

  lemma LowPart(w: Word, k: nat)
    requires k < 8
    ensures Digit(w, k) == Digit(Low(w), k)
  {
    assert Pow2(8) == 0x100;
    var q: nat := w / 0x100;
    assert w == Low(w) + Pow2(8) * q;
    DigitOfLow(Low(w), w, 8, k);
  }

  lemma NumberIsSpelled(c: bv16)
    ensures Spells(High(ToWord(c)), Low(ToWord(c)), c)
  {
    hide ToWord, High, Low, SpellsAt;
    forall k: nat | k < 8 ensures SpellsAt(High(ToWord(c)), Low(ToWord(c)), c, k) {
      SpelledBit(c, ToWord(c), k);
    }
  }

  lemma BitsInjective(a: Byte, b: Byte)
    requires forall k :: 0 <= k < 8 ==> Crc.ByteBit(ToBits(a), k) == Crc.ByteBit(ToBits(b), k)
    ensures a == b
  {
    var x, y := ToBits(a), ToBits(b);
    assert Crc.Bits8(x) == Crc.Bits8(y);
    Crc.ByteBitsInjective(x, y);
    ToBitsInjective(a, b);
  }

  /** The bytes of the number are the only ones that have the bits of the register. */
  lemma SpellingIsUnique(h: Byte, l: Byte, c: bv16)
    ensures Spells(h, l, c) <==> h == High(ToWord(c)) && l == Low(ToWord(c))
  {
    NumberIsSpelled(c);
    hide ToWord, High, Low, ToBits, Crc.Bit, Crc.ByteBit;
    var h', l' := High(ToWord(c)), Low(ToWord(c));
    if Spells(h, l, c) {
      forall k | 0 <= k < 8
        ensures Crc.ByteBit(ToBits(h), k) == Crc.ByteBit(ToBits(h'), k)
        ensures Crc.ByteBit(ToBits(l), k) == Crc.ByteBit(ToBits(l'), k)
      {
        assert SpellsAt(h, l, c, k) && SpellsAt(h', l', c, k);
      }
      BitsInjective(h, h');
      BitsInjective(l, l');
    }
  }

  // ---------- A change of one byte and of the high byte behind it ----------

  predicate Doubled(x: bv16, y: bv16) { y >> 1 == x && y & 1 == 0 }

  lemma DoubledBit(x: bv16, y: bv16, k: nat)
    requires Doubled(x, y)
    ensures !Crc.Bit(y, 0) && Crc.Bit(y, k + 1) == Crc.Bit(x, k)
  {
    Crc.BitOfHalf(y, k + 1);
  }

  ghost predicate Ladder(s: seq<bv16>) { forall j: nat :: j + 1 < |s| ==> DoubledAt(s, j) }

  predicate DoubledAt(s: seq<bv16>, j: nat)
    requires j + 1 < |s|
  {
    Doubled(s[j], s[j + 1])
  }

  lemma {:induction false} LadderBits(s: seq<bv16>, n: nat, k: nat)
    requires Ladder(s) && n < |s|
    ensures Crc.Bit(s[n], n + k) == Crc.Bit(s[0], k)
  {
    hide Crc.Bit, Doubled;
    if n > 0 {
      LadderBits(s, n - 1, k);
      assert DoubledAt(s, n - 1);
      DoubledBit(s[n - 1], s[n], n - 1 + k);
    }
  }

  lemma {:induction false} LadderZeros(s: seq<bv16>, n: nat, k: nat)
    requires Ladder(s) && k < n < |s|
    ensures !Crc.Bit(s[n], k)
    decreases k
  {
    hide Crc.Bit, Doubled;
    assert DoubledAt(s, n - 1);
    DoubledBit(s[n - 1], s[n], if k > 0 then k - 1 else 0);
    if k > 0 { LadderZeros(s, n - 1, k - 1); }
  }

  lemma Doublings(w: bv16)
    requires w <= 0xFF
    ensures Doubled(w << 7, w << 8) && Doubled(w << 6, w << 7) && Doubled(w << 5, w << 6) && Doubled(w << 4, w << 5)
    ensures Doubled(w << 3, w << 4) && Doubled(w << 2, w << 3) && Doubled(w << 1, w << 2) && Doubled(w, w << 1)
  {
  }

  lemma LadderTo(w: bv16, w1: bv16, w2: bv16, w3: bv16, w4: bv16, w5: bv16, w6: bv16, w7: bv16, w8: bv16, k: nat)
    requires Doubled(w, w1) && Doubled(w1, w2) && Doubled(w2, w3) && Doubled(w3, w4)
    requires Doubled(w4, w5) && Doubled(w5, w6) && Doubled(w6, w7) && Doubled(w7, w8)
    requires k < 8
    ensures !Crc.Bit(w8, k) && Crc.Bit(w8, 8 + k) == Crc.Bit(w, k)
  {
    hide Crc.Bit, Doubled;
    var s := [w, w1, w2, w3, w4, w5, w6, w7, w8];
    LadderBits(s, 8, k);
    LadderZeros(s, 8, k);
  }

  lemma ShiftedByteBit(e: bv8, k: nat, shifted: bv16)
    requires k < 8 && shifted == AsHigh(e)
    ensures !Crc.Bit(shifted, k) && Crc.Bit(shifted, 8 + k) == Crc.ByteBit(e, k)
  {
    hide Crc.Bit, Crc.ByteBit, Doubled;
    var w := e as bv16;
    var w1, w2, w3, w4, w5, w6, w7 := w << 1, w << 2, w << 3, w << 4, w << 5, w << 6, w << 7;
    Doublings(w);
    LadderTo(w, w1, w2, w3, w4, w5, w6, w7, shifted, k);
    Crc.WidenBit(e, k);
  }

  /** How two bytes differ, and a byte as the high byte of a register. */
  function Difference(a: Byte, b: Byte): bv8 { ToBits(a) ^ ToBits(b) }
  function AsHigh(e: bv8): bv16 { (e as bv16) << 8 }

  /** A register and its change z are spelled with the high byte changed by e and the low byte as before exactly when
      z is e shifted to the high byte. */
  lemma SpelledChange(h: Byte, h': Byte, l: Byte, c: bv16, c': bv16, e: bv8, z: bv16)
    requires Spells(h, l, c) && e == Difference(h, h') && z == c ^ c'
    ensures Spells(h', l, c') <==> z == AsHigh(e)
  {
    var shifted := AsHigh(e);
    forall k: nat | k < 8 ensures SpellsAt(h', l, c', k) <==> SameAt(z, shifted, k) {
      assert SpellsAt(h, l, c, k);
      ChangeAt(h, h', l, c, c', e, z, shifted, k);
    }
    hide SpellsAt;
    if Spells(h', l, c') {
      assert forall k: nat :: k < 8 ==> SpellsAt(h', l, c', k) && SameAt(z, shifted, k);
      SameEverywhere(z, shifted);
    }
  }

  predicate SameAt(x: bv16, y: bv16, k: nat) {
    Crc.Bit(x, k) == Crc.Bit(y, k) && Crc.Bit(x, 8 + k) == Crc.Bit(y, 8 + k)
  }

  lemma ChangeAt(h: Byte, h': Byte, l: Byte, c: bv16, c': bv16, e: bv8, z: bv16, shifted: bv16, k: nat)
    requires k < 8 && SpellsAt(h, l, c, k) && e == Difference(h, h') && z == c ^ c' && shifted == AsHigh(e)
    ensures SpellsAt(h', l, c', k) <==> SameAt(z, shifted, k)
  {
    hide Crc.Bit, Crc.ByteBit, ToBits;
    Crc.ByteXorBit(ToBits(h), ToBits(h'), e, k);
    Crc.XorBit(c, c', z, k);
    Crc.XorBit(c, c', z, 8 + k);
    ShiftedByteBit(e, k, shifted);
  }

  lemma SameEverywhere(x: bv16, y: bv16)
    requires forall k: nat :: k < 8 ==> SameAt(x, y, k)
    ensures x == y
  {
    forall k | 0 <= k < 16 ensures Crc.Bits16(x)[k] == Crc.Bits16(y)[k] {
      var j: nat := k % 8;
      assert SameAt(x, y, j) && (k == j || k == 8 + j);
      hide Crc.Bit;
    }
    assert Crc.Bits16(x) == Crc.Bits16(y);
    Crc.Bits16Injective(x, y);
  }

  lemma WordsAreUnique(c: bv16, c': bv16)
    requires ToWord(c) == ToWord(c')
    ensures c == c'
  {
    NumberIsSpelled(c);
    NumberIsSpelled(c');
    hide ToWord, High, Low;
    var h, l := High(ToWord(c)), Low(ToWord(c));
    forall k: nat | k < 8 ensures SameAt(c, c', k) {
      assert SpellsAt(h, l, c, k) && SpellsAt(h, l, c', k);
      hide Crc.Bit;
    }
    SameEverywhere(c, c');
  }
}
