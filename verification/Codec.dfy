/** The binary packets of the command link: big-endian fields, a checksum and a fixed frame. */
module Codec {
  import Crc
  import RegisterBytes
  import opened Bytes
  import opened Wrappers

  type UInt16 = v: int | 0 <= v < 0x1_0000
  type Int32 = v: int | -0x8000_0000 <= v < 0x8000_0000

  datatype Packet = Packet(code: UInt16, argc: UInt16, argv: seq<Int32>)

  const MAX_ARGC: nat := 32

  // ---------- Fields ----------

  /** Shifting right and masking is floor division and remainder, for negative values too. */
  function Write16(v: UInt16): (r: seq<Byte>)
    ensures |r| == 2
  {
    [v / 0x100 % 0x100, v % 0x100]
  }

  function Read16(b0: Byte, b1: Byte): UInt16 { b0 * 0x100 + b1 }

  function Write32(v: Int32): (r: seq<Byte>)
    ensures |r| == 4
  {
    [v / 0x100_0000 % 0x100, v / 0x1_0000 % 0x100, v / 0x100 % 0x100, v % 0x100]
  }

  /** The first byte carries the sign. */
  function Read32(b0: Byte, b1: Byte, b2: Byte, b3: Byte): Int32 {
    (if b0 >= 0x80 then b0 - 0x100 else b0) * 0x100_0000 + b1 * 0x1_0000 + b2 * 0x100 + b3
  }

  lemma Write16Read16(v: UInt16)
    ensures Read16(Write16(v)[0], Write16(v)[1]) == v
  {
  }

  lemma Read16Write16(b0: Byte, b1: Byte)
    ensures Write16(Read16(b0, b1)) == [b0, b1]
  {
  }

  lemma DivMod(q: int, r: int, k: int)
    requires 0 <= r < k
    ensures (q * k + r) / k == q && (q * k + r) % k == r
  {
    var n := q * k + r;
    assert n == n / k * k + n % k;
    var d := n / k - q;
    assert d * k == r - n % k;
    assert d >= 1 ==> d * k >= k;
    assert d <= -1 ==> d * k <= -k;
  }

  lemma TwoDigits(v: int)
    ensures v / 0x100 % 0x100 * 0x100 + v % 0x100 == v % 0x1_0000
  {
    DivMod(v / 0x100 / 0x100, v / 0x100 % 0x100 * 0x100 + v % 0x100, 0x1_0000);
  }

  lemma Write32Read32(v: Int32)
    ensures var w := Write32(v); Read32(w[0], w[1], w[2], w[3]) == v
  {
    TwoDigits(v);
    var high := v / 0x1_0000;
    assert high / 0x100 == v / 0x100_0000 && -0x80 <= high / 0x100 < 0x80;
    assert v == high * 0x1_0000 + v % 0x1_0000 && high == high / 0x100 * 0x100 + high % 0x100;
  }

  lemma Read32Write32(b0: Byte, b1: Byte, b2: Byte, b3: Byte)
    ensures Write32(Read32(b0, b1, b2, b3)) == [b0, b1, b2, b3]
  {
    var s := if b0 >= 0x80 then b0 - 0x100 else b0;
    DivMod(s, b1 * 0x1_0000 + b2 * 0x100 + b3, 0x100_0000);
    DivMod(s * 0x100 + b1, b2 * 0x100 + b3, 0x1_0000);
    DivMod(s * 0x1_0000 + b1 * 0x100 + b2, b3, 0x100);
    DivMod(s, b1, 0x100);
    DivMod(s * 0x100 + b1, b2, 0x100);
  }

  // ---------- Encoding ----------

  /** The bytes as the checksum sees them. */
  function AsBits(data: seq<Byte>): (r: seq<Crc.Byte>)
    ensures |r| == |data|
  {
    seq(|data|, i requires 0 <= i < |data| => ToBits(data[i]))
  }

  function Checksum(data: seq<Byte>): UInt16 { RegisterBytes.ToWord(Crc.Crc16(AsBits(data))) }

  method ComputeChecksum(data: seq<Byte>) returns (crc: UInt16)
    ensures crc == Checksum(data)
  {
    var register := Crc.ComputeCrc16(AsBits(data));
    crc := RegisterBytes.ToWord(register);
  }

  function EncodeArgs(argv: seq<Int32>): (r: seq<Byte>)
    ensures |r| == 4 * |argv|
  {
    if argv == [] then [] else EncodeArgs(argv[..|argv| - 1]) + Write32(argv[|argv| - 1])
  }

  /** Everything the checksum covers. */
  function Payload(code: UInt16, argv: seq<Int32>): (r: seq<Byte>)
    requires |argv| < 0x1_0000
    ensures |r| == 8 + 4 * |argv|
  {
    Write16(0xEB90) + Write16(0x5B6A) + Write16(code) + Write16(|argv|) + EncodeArgs(argv)
  }

  function Footer(): (r: seq<Byte>)
    ensures |r| == 4
  {
    Write16(0xC5A4) + Write16(0xD279)
  }

  function Frame(code: UInt16, argv: seq<Int32>, crc: UInt16): (r: seq<Byte>)
    requires |argv| < 0x1_0000
    ensures |r| == 14 + 4 * |argv|
  {
    Payload(code, argv) + Write16(crc) + Footer()
  }

  /** What `serialize` produces; a fixed checksum overrides the computed one.  Arguments beyond argc are
      not sent. */
  function Encode(p: Packet, fixedCrc: Option<UInt16>): (r: seq<Byte>)
    requires p.argc <= |p.argv|
  {
    var argv := p.argv[..p.argc];
    Frame(p.code, argv, if fixedCrc.Some? then fixedCrc.value else Checksum(Payload(p.code, argv)))
  }

  function PacketSize(p: Packet): nat { 14 + p.argc * 4 }

  method Serialize(p: Packet, fixedCrc: Option<UInt16>) returns (buf: seq<Byte>)
    requires p.argc <= |p.argv|
    ensures buf == Encode(p, fixedCrc)
  {
    buf := Write16(0xEB90);
    buf := buf + Write16(0x5B6A);
    buf := buf + Write16(p.code);
    buf := buf + Write16(p.argc);
    ghost var head := buf;
    for i := 0 to p.argc
      invariant buf == head + EncodeArgs(p.argv[..i])
    {
      assert p.argv[..i + 1][..i] == p.argv[..i];
      buf := buf + Write32(p.argv[i]);
    }
    var crc: UInt16;
    if fixedCrc.Some? {
      crc := fixedCrc.value;
    } else {
      crc := ComputeChecksum(buf);
    }
    buf := buf + Write16(crc);
    buf := buf + Write16(0xC5A4);
    buf := buf + Write16(0xD279);
  }

  // ---------- Decoding ----------

  function Field16(data: seq<Byte>, i: nat): UInt16
    requires i + 2 <= |data|
  {
    Read16(data[i], data[i + 1])
  }

  function Field32(data: seq<Byte>, i: nat): Int32
    requires i + 4 <= |data|
  {
    Read32(data[i], data[i + 1], data[i + 2], data[i + 3])
  }

  function DecodeArgs(data: seq<Byte>, n: nat): (r: seq<Int32>)
    requires 8 + 4 * n <= |data|
    ensures |r| == n
  {
    seq(n, i requires 0 <= i < n => Field32(data, 8 + i * 4))
  }

  /** The checks of `parse`, in its order; bytes after the packet are ignored. */
  predicate Accepts(data: seq<Byte>) {
    && |data| >= 12
    && Field16(data, 0) == 0xEB90 && Field16(data, 2) == 0x5B6A
    && var argc := Field16(data, 6);
       var payloadSize := 8 + argc * 4;
       && argc <= MAX_ARGC
       && payloadSize + 6 <= |data|
       && Field16(data, payloadSize) == Checksum(data[..payloadSize])
       && Field16(data, payloadSize + 2) == 0xC5A4 && Field16(data, payloadSize + 4) == 0xD279
  }

  function Decode(data: seq<Byte>): Option<Packet> {
    if Accepts(data) then Some(Packet(Field16(data, 4), Field16(data, 6), DecodeArgs(data, Field16(data, 6))))
    else None
  }

  method Parse(data: seq<Byte>) returns (r: Option<Packet>)
    ensures r == Decode(data)
  {
    hide Checksum;
    if |data| < 12 { return None; }
    if Field16(data, 0) != 0xEB90 || Field16(data, 2) != 0x5B6A { return None; }
    var code, argc := Field16(data, 4), Field16(data, 6);
    if argc > MAX_ARGC { return None; }
    var payloadSize := 8 + argc * 4;
    if |data| < payloadSize + 2 + 2 + 2 { return None; }
    var crc := ComputeChecksum(data[..payloadSize]);
    if Field16(data, payloadSize) != crc { return None; }
    if Field16(data, payloadSize + 2) != 0xC5A4 || Field16(data, payloadSize + 4) != 0xD279 { return None; }
    var argv: seq<Int32> := [];
    for i := 0 to argc
      invariant |argv| == i && forall j :: 0 <= j < i ==> argv[j] == Field32(data, 8 + j * 4)
    {
      argv := argv + [Field32(data, 8 + i * 4)];
    }
    assert argv == DecodeArgs(data, argc);
    return Some(Packet(code, argc, argv));
  }

  // ---------- The two directions ----------

  lemma {:induction false} ArgAt(argv: seq<Int32>, i: nat)
    requires i < |argv|
    ensures EncodeArgs(argv)[4 * i..4 * i + 4] == Write32(argv[i])
    decreases |argv|
  {
    var init := argv[..|argv| - 1];
    if i < |argv| - 1 {
      ArgAt(init, i);
      assert EncodeArgs(argv)[4 * i..4 * i + 4] == EncodeArgs(init)[4 * i..4 * i + 4];
    }
  }

  lemma Fields3(data: seq<Byte>, a: UInt16, b: UInt16, c: UInt16)
    requires data == Write16(a) + (Write16(b) + Write16(c))
    ensures Field16(data, 0) == a && Field16(data, 2) == b && Field16(data, 4) == c
  {
    hide Write16, Read16;
    Write16Read16(a);
    Write16Read16(b);
    Write16Read16(c);
  }

  lemma Fields4(data: seq<Byte>, a: UInt16, b: UInt16, c: UInt16, d: UInt16)
    requires data == Write16(a) + Write16(b) + Write16(c) + Write16(d)
    ensures Field16(data, 0) == a && Field16(data, 2) == b && Field16(data, 4) == c && Field16(data, 6) == d
  {
    assert data == Write16(a) + Write16(b) + (Write16(c) + Write16(d));
    hide Write16, Read16;
    Write16Read16(a);
    Fields3(data[2..], b, c, d);
  }

  lemma FrameFields(code: UInt16, argv: seq<Int32>, crc: UInt16, tail: seq<Byte>)
    requires |argv| < 0x1_0000
    ensures var data := Frame(code, argv, crc) + tail;
      var n := 8 + 4 * |argv|;
      && Field16(data, 0) == 0xEB90 && Field16(data, 2) == 0x5B6A
      && Field16(data, 4) == code && Field16(data, 6) == |argv|
      && data[..n] == Payload(code, argv)
      && Field16(data, n) == crc && Field16(data, n + 2) == 0xC5A4 && Field16(data, n + 4) == 0xD279
  {
    hide Checksum, EncodeArgs;
    var data, n := Frame(code, argv, crc) + tail, 8 + 4 * |argv|;
    assert data[..n] == Payload(code, argv);
    Fields3(data[n..n + 6], crc, 0xC5A4, 0xD279);
    Fields4(data[..8], 0xEB90, 0x5B6A, code, |argv|);
  }

  lemma FrameArgs(code: UInt16, argv: seq<Int32>, crc: UInt16, tail: seq<Byte>)
    requires |argv| < 0x1_0000
    ensures DecodeArgs(Frame(code, argv, crc) + tail, |argv|) == argv
  {
    hide Checksum;
    var data := Frame(code, argv, crc) + tail;
    forall i | 0 <= i < |argv| ensures Field32(data, 8 + i * 4) == argv[i] {
      ArgAt(argv, i);
      var w := EncodeArgs(argv)[4 * i..4 * i + 4];
      assert forall j :: 0 <= j < 4 ==> data[8 + i * 4 + j] == w[j];
      Write32Read32(argv[i]);
    }
  }

  /** Printing and then parsing, with any bytes after the packet: the packet comes back exactly when it has
      at most 32 arguments and no wrong checksum was forced on it. */
  lemma DecodeEncode(p: Packet, fixedCrc: Option<UInt16>, tail: seq<Byte>)
    requires p.argc <= |p.argv|
    ensures Decode(Encode(p, fixedCrc) + tail) ==
      if p.argc <= MAX_ARGC && (fixedCrc.Some? ==> fixedCrc.value == Checksum(Payload(p.code, p.argv[..p.argc])))
      then Some(p.(argv := p.argv[..p.argc])) else None
  {
    hide Checksum;
    var argv := p.argv[..p.argc];
    var crc := if fixedCrc.Some? then fixedCrc.value else Checksum(Payload(p.code, argv));
    FrameFields(p.code, argv, crc, tail);
    FrameArgs(p.code, argv, crc, tail);
  }

  lemma {:induction false} EncodeDecodedArgs(data: seq<Byte>, n: nat)
    requires 8 + 4 * n <= |data|
    ensures EncodeArgs(DecodeArgs(data, n)) == data[8..8 + 4 * n]
    decreases n
  {
    hide Write32, Read32;
    if n > 0 {
      var argv, k := DecodeArgs(data, n), 8 + 4 * (n - 1);
      assert argv[..n - 1] == DecodeArgs(data, n - 1);
      EncodeDecodedArgs(data, n - 1);
      Read32Write32(data[k], data[k + 1], data[k + 2], data[k + 3]);
      assert data[8..8 + 4 * n] == data[8..k] + [data[k], data[k + 1], data[k + 2], data[k + 3]];
    }
  }

  ghost predicate WellFormed(p: Packet) { |p.argv| == p.argc <= MAX_ARGC }

  /** Whatever is accepted begins with exactly the bytes that printing the result would give. */
  lemma EncodeDecode(data: seq<Byte>)
    requires Decode(data).Some?
    ensures var p := Decode(data).value;
      WellFormed(p) && |Encode(p, None)| == PacketSize(p) && Encode(p, None) <= data
  {
    hide Checksum, Write16, Write32, Read16, Read32;
    var p := Decode(data).value;
    var n := 8 + 4 * p.argc;
    assert p.argv[..p.argc] == p.argv;
    EncodeDecodedArgs(data, p.argc);
    Read16Write16(data[0], data[1]);
    Read16Write16(data[2], data[3]);
    Read16Write16(data[4], data[5]);
    Read16Write16(data[6], data[7]);
    assert Payload(p.code, p.argv) == data[..n] by {
      assert data[..n] ==
        [data[0], data[1]] + [data[2], data[3]] + [data[4], data[5]] + [data[6], data[7]] + data[8..n];
    }
    Read16Write16(data[n], data[n + 1]);
    Read16Write16(data[n + 2], data[n + 3]);
    Read16Write16(data[n + 4], data[n + 5]);
    assert data[..n + 6] ==
      data[..n] + [data[n], data[n + 1]] + ([data[n + 2], data[n + 3]] + [data[n + 4], data[n + 5]]);
    assert Encode(p, None) == data[..n + 6];
  }

  /** So packets are prefix-free: no packet is the beginning of another, nor of another with bytes after it. */
  lemma PrefixFree(p: Packet, q: Packet, tail: seq<Byte>)
    requires WellFormed(p) && WellFormed(q) && Encode(p, None) <= Encode(q, None) + tail
    ensures p == q
  {
    hide Checksum;
    var data := Encode(q, None) + tail;
    assert data == Encode(p, None) + data[|Encode(p, None)|..];
    DecodeEncode(p, None, data[|Encode(p, None)|..]);
    DecodeEncode(q, None, tail);
  }

  // ---------- Corruption ----------

  lemma ChecksumsDiffer(a: seq<Byte>, b: seq<Byte>)
    requires Crc.Crc16(AsBits(a)) != Crc.Crc16(AsBits(b))
    ensures Checksum(a) != Checksum(b)
  {
    hide Crc.Crc16, RegisterBytes.ToWord;
    if Checksum(a) == Checksum(b) { RegisterBytes.WordsAreUnique(Crc.Crc16(AsBits(a)), Crc.Crc16(AsBits(b))); }
  }

  function PayloadSize(p: Packet): nat { 8 + 4 * p.argc }

  /** data is a packet in which bytes i and i + 1 may have been changed. */
  ghost predicate ChangedAt(p: Packet, data: seq<Byte>, i: nat)
    requires WellFormed(p)
  {
    && |data| == |Encode(p, None)| && i + 1 < |data|
    && forall j :: 0 <= j < |data| && j != i && j != i + 1 ==> data[j] == Encode(p, None)[j]
  }

  lemma PacketFields(p: Packet)
    requires WellFormed(p)
    ensures var good := Encode(p, None);
      var n := PayloadSize(p);
      && |good| == n + 6 && good[..n] == Payload(p.code, p.argv)
      && Field16(good, 0) == 0xEB90 && Field16(good, 2) == 0x5B6A && Field16(good, 6) == p.argc
      && Field16(good, n) == Checksum(good[..n])
      && Field16(good, n + 2) == 0xC5A4 && Field16(good, n + 4) == 0xD279
  {
    hide Checksum;
    assert p.argv[..p.argc] == p.argv;
    FrameFields(p.code, p.argv, Checksum(Payload(p.code, p.argv)), []);
    assert Encode(p, None) + [] == Encode(p, None);
  }

  /** Two adjacent bytes of the payload: the checksum differs. */
  lemma PayloadChangeRejected(p: Packet, data: seq<Byte>, i: nat)
    requires WellFormed(p) && ChangedAt(p, data, i) && data != Encode(p, None)
    requires i + 1 < PayloadSize(p) && (i + 1 < 6 || i > 7)
    ensures Decode(data) == None
  {
    hide Checksum, Write16, Crc.Crc16, ToBits;
    var good, n := Encode(p, None), PayloadSize(p);
    var sent, got := AsBits(good[..n]), AsBits(data[..n]);
    PacketFields(p);
    assert Field16(data, 6) == p.argc && Field16(data, n) == Field16(good, n);
    var j :| 0 <= j < |data| && data[j] != good[j];
    if sent[j] == got[j] { ToBitsInjective(good[j], data[j]); }
    Crc.TwoBytesDetected(sent, got, i);
    ChecksumsDiffer(good[..n], data[..n]);
  }

  lemma SameField(a: seq<Byte>, b: seq<Byte>, i: nat)
    requires i + 2 <= |a| && i + 2 <= |b| && Field16(a, i) == Field16(b, i)
    ensures a[i] == b[i] && a[i + 1] == b[i + 1]
  {
    Read16Write16(a[i], a[i + 1]);
    Read16Write16(b[i], b[i + 1]);
  }

  lemma TrailerIsDetermined(p: Packet, data: seq<Byte>)
    requires WellFormed(p) && |data| == |Encode(p, None)| && Accepts(data)
    requires data[..PayloadSize(p)] == Encode(p, None)[..PayloadSize(p)]
    ensures data == Encode(p, None)
  {
    hide Checksum, Write16, Read16, Encode, Payload;
    var good, n := Encode(p, None), PayloadSize(p);
    PacketFields(p);
    assert data[6] == data[..n][6] == good[6] && data[7] == data[..n][7] == good[7];
    assert Field16(data, 6) == Field16(good, 6);
    SameField(data, good, n);
    SameField(data, good, n + 2);
    SameField(data, good, n + 4);
    assert data == data[..n] + data[n..] && good == good[..n] + good[n..];
  }

  /** A change behind the payload: checksum or footer is not what the payload asks for. */
  lemma TrailerChangeRejected(p: Packet, data: seq<Byte>, i: nat)
    requires WellFormed(p) && ChangedAt(p, data, i) && data != Encode(p, None) && i >= PayloadSize(p)
    ensures Decode(data) == None
  {
    hide Encode, Accepts;
    assert data[..PayloadSize(p)] == Encode(p, None)[..PayloadSize(p)];
    if Accepts(data) { TrailerIsDetermined(p, data); }
  }

  /** What the change of byte i does to the checksum is the change of byte i + 1, taken as its high byte. */
  predicate Compensates(good: seq<Byte>, data: seq<Byte>, i: nat)
    requires |good| == |data| && i + 1 < |data|
  {
    Crc.Update(0, RegisterBytes.Difference(good[i], data[i]))
    == RegisterBytes.AsHigh(RegisterBytes.Difference(good[i + 1], data[i + 1]))
  }

  /** Acceptance once everything but the checksum is known to be in place. */
  lemma AcceptedByChecksum(p: Packet, data: seq<Byte>)
    requires WellFormed(p) && ChangedAt(p, data, PayloadSize(p) - 1) && p.argc > 0
    ensures var n := PayloadSize(p);
      Decode(data).Some? <==>
        RegisterBytes.Spells(data[n], Encode(p, None)[n + 1], Crc.Crc16(AsBits(data[..n])))
  {
    hide Checksum, Encode, RegisterBytes.Spells;
    PacketFields(p);
    EverythingElseInPlace(p, data);
    SpelledField(data[PayloadSize(p)], data[PayloadSize(p) + 1], data[..PayloadSize(p)]);
  }

  lemma EverythingElseInPlace(p: Packet, data: seq<Byte>)
    requires WellFormed(p) && ChangedAt(p, data, PayloadSize(p) - 1) && p.argc > 0
    ensures var n := PayloadSize(p);
      data[n + 1] == Encode(p, None)[n + 1] && (Decode(data).Some? <==> Field16(data, n) == Checksum(data[..n]))
  {
    hide Checksum, Write16, Encode, Payload, Read16;
    var good, n := Encode(p, None), PayloadSize(p);
    PacketFields(p);
    assert Field16(data, 0) == Field16(good, 0) && Field16(data, 2) == Field16(good, 2);
    assert Field16(data, 6) == Field16(good, 6);
    assert Field16(data, n + 2) == Field16(good, n + 2) && Field16(data, n + 4) == Field16(good, n + 4);
  }

  lemma SpelledField(h: Byte, l: Byte, data: seq<Byte>)
    ensures Read16(h, l) == Checksum(data) <==> RegisterBytes.Spells(h, l, Crc.Crc16(AsBits(data)))
  {
    hide Crc.Crc16, RegisterBytes.ToWord, RegisterBytes.Spells;
    RegisterBytes.SpellingIsUnique(h, l, Crc.Crc16(AsBits(data)));
  }

  lemma StraddlingChange(p: Packet, data: seq<Byte>)
    requires WellFormed(p) && ChangedAt(p, data, PayloadSize(p) - 1) && p.argc > 0
    ensures Decode(data).Some? <==> Compensates(Encode(p, None), data, PayloadSize(p) - 1)
  {
    assert p.argc <= |p.argv|;
    hide *;
    GoodIsSpelled(p);
    AcceptedByChecksum(p, data);
    SameFront(p, data);
    ChecksumChange(Encode(p, None), data, PayloadSize(p));
  }

  lemma GoodIsSpelled(p: Packet)
    requires WellFormed(p)
    ensures var good := Encode(p, None);
      var n := PayloadSize(p);
      RegisterBytes.Spells(good[n], good[n + 1], Crc.Crc16(AsBits(good[..n])))
  {
    hide Encode, Checksum, Crc.Crc16, RegisterBytes.Spells;
    PacketFields(p);
    var good, n := Encode(p, None), PayloadSize(p);
    SpelledField(good[n], good[n + 1], good[..n]);
  }

  lemma SameFront(p: Packet, data: seq<Byte>)
    requires WellFormed(p) && ChangedAt(p, data, PayloadSize(p) - 1)
    ensures var good := Encode(p, None);
      var n := PayloadSize(p);
      |data| == |good| == n + 6 && 0 < n && data[..n - 1] == good[..n - 1]
  {
    hide Encode, Checksum;
    PacketFields(p);
  }

  lemma ChecksumChange(good: seq<Byte>, data: seq<Byte>, n: nat)
    requires |data| == |good| && 0 < n && n + 1 < |data| && data[..n - 1] == good[..n - 1]
    requires RegisterBytes.Spells(good[n], good[n + 1], Crc.Crc16(AsBits(good[..n])))
    ensures RegisterBytes.Spells(data[n], good[n + 1], Crc.Crc16(AsBits(data[..n]))) <==> Compensates(good, data, n - 1)
  {
    hide RegisterBytes.Spells, Crc.Crc16, Crc.Update, RegisterBytes.AsHigh, RegisterBytes.Difference;
    LastBits(good, data, n);
    SpellingChange(AsBits(good[..n]), AsBits(data[..n]), good[n], data[n], good[n + 1]);
  }

  lemma LastBits(good: seq<Byte>, data: seq<Byte>, n: nat)
    requires |data| == |good| && 0 < n <= |data| && data[..n - 1] == good[..n - 1]
    ensures var sent, got := AsBits(good[..n]), AsBits(data[..n]);
      && sent[..n - 1] == got[..n - 1]
      && sent[n - 1] ^ got[n - 1] == RegisterBytes.Difference(good[n - 1], data[n - 1])
  {
    hide ToBits;
    var sent, got := AsBits(good[..n]), AsBits(data[..n]);
    forall i: nat | i < n - 1 ensures sent[i] == got[i] { assert good[i] == good[..n - 1][i] == data[i]; }
    assert sent[..n - 1] == got[..n - 1];
    assert sent[n - 1] == ToBits(good[n - 1]) && got[n - 1] == ToBits(data[n - 1]);
  }

  lemma SpellingChange(sent: seq<Crc.Byte>, got: seq<Crc.Byte>, h: Byte, h': Byte, l: Byte)
    requires |sent| == |got| > 0 && sent[..|sent| - 1] == got[..|got| - 1]
    requires RegisterBytes.Spells(h, l, Crc.Crc16(sent))
    ensures RegisterBytes.Spells(h', l, Crc.Crc16(got)) <==>
      Crc.Update(0, sent[|sent| - 1] ^ got[|got| - 1]) == RegisterBytes.AsHigh(RegisterBytes.Difference(h, h'))
  {
    hide RegisterBytes.Spells, Crc.Crc16, Crc.Update, RegisterBytes.AsHigh, RegisterBytes.Difference;
    var c, c' := Crc.Crc16(sent), Crc.Crc16(got);
    var z, d, e := c ^ c', sent[|sent| - 1] ^ got[|got| - 1], RegisterBytes.Difference(h, h');
    Crc.LastByteChange(sent, got, d, z);
    RegisterBytes.SpelledChange(h, h', l, c, c', e, z);
  }

  /** Changes that leave the argument count alone. */
  lemma ChangeOutsideCount(p: Packet, data: seq<Byte>, i: nat)
    requires WellFormed(p) && ChangedAt(p, data, i) && data != Encode(p, None)
    requires i + 1 < 6 || i > 7
    ensures Decode(data).Some? <==> i + 1 == PayloadSize(p) && Compensates(Encode(p, None), data, i)
  {
    hide Decode, Encode, ToBits, Compensates;
    if i + 1 < PayloadSize(p) {
      PayloadChangeRejected(p, data, i);
    } else if i + 1 == PayloadSize(p) {
      StraddlingChange(p, data);
    } else {
      TrailerChangeRejected(p, data, i);
    }
  }

  // ---------- A changed argument count ----------

  function LowHalf(v: Int32): UInt16 { v % 0x1_0000 }
  function HighHalf(v: Int32): UInt16 { v / 0x1_0000 % 0x1_0000 }

  lemma Halves(v: Int32)
    ensures Field16(Write32(v), 0) == HighHalf(v) && Field16(Write32(v), 2) == LowHalf(v)
  {
    TwoDigits(v);
    TwoDigits(v / 0x1_0000);
    assert v / 0x1_0000 / 0x100 == v / 0x100_0000;
  }

  lemma ArgumentHalves(p: Packet, k: nat)
    requires WellFormed(p) && k < p.argc
    ensures |Encode(p, None)| == 14 + 4 * p.argc
    ensures Field16(Encode(p, None), 8 + 4 * k) == HighHalf(p.argv[k])
    ensures Field16(Encode(p, None), 10 + 4 * k) == LowHalf(p.argv[k])
  {
    hide Checksum, Write32, Read16, HighHalf, LowHalf;
    PacketFields(p);
    var good, n := Encode(p, None), PayloadSize(p);
    ArgAt(p.argv, k);
    Halves(p.argv[k]);
    var w := EncodeArgs(p.argv)[4 * k..4 * k + 4];
    forall j: nat | j < 4 ensures good[8 + 4 * k + j] == w[j] {
      assert good[8 + 4 * k + j] == good[..n][8 + 4 * k + j] == EncodeArgs(p.argv)[4 * k + j];
    }
  }

  /** The two bytes behind argument k: the high half of the next one, or the checksum. */
  function Behind(p: Packet, k: nat): UInt16
    requires WellFormed(p) && k < p.argc
  {
    if k + 1 < p.argc then HighHalf(p.argv[k + 1]) else Checksum(Payload(p.code, p.argv))
  }

  lemma BehindIsNext(p: Packet, k: nat)
    requires WellFormed(p) && k < p.argc
    ensures |Encode(p, None)| == 14 + 4 * p.argc && Field16(Encode(p, None), 12 + 4 * k) == Behind(p, k)
  {
    hide Checksum, HighHalf, Encode;
    PacketFields(p);
    if k + 1 < p.argc { ArgumentHalves(p, k + 1); }
  }

  /** The packet ends early: its count is too small, and at the argument where it ends stand the checksum of what comes
      before and the footer. */
  predicate EndsEarly(p: Packet, data: seq<Byte>)
    requires WellFormed(p) && |data| == 14 + 4 * p.argc
  {
    var c := Field16(data, 6);
    && c < p.argc && Field16(data, 8 + 4 * c) == Checksum(data[..8 + 4 * c])
    && LowHalf(p.argv[c]) == 0xC5A4 && Behind(p, c) == 0xD279
  }

  lemma CountUnchanged(p: Packet, data: seq<Byte>, i: nat)
    requires WellFormed(p) && ChangedAt(p, data, i) && data != Encode(p, None) && 5 <= i <= 7
    requires Field16(data, 6) == p.argc
    ensures Decode(data) == None
  {
    hide Decode, Encode, Compensates, Payload;
    PacketFields(p);
    SameField(data, Encode(p, None), 6);
    ChangeOutsideCount(p, data, if i == 7 then 8 else 4);
  }

  lemma CountTooSmall(p: Packet, data: seq<Byte>, i: nat)
    requires WellFormed(p) && ChangedAt(p, data, i) && 5 <= i <= 7 && Field16(data, 6) < p.argc
    ensures Decode(data).Some? <==> EndsEarly(p, data)
  {
    hide Checksum, Encode, Payload, LowHalf, Read16;
    PacketFields(p);
    var c, good := Field16(data, 6), Encode(p, None);
    ArgumentHalves(p, c);
    BehindIsNext(p, c);
    assert Field16(data, 0) == Field16(good, 0) && Field16(data, 2) == Field16(good, 2);
    assert Field16(data, 10 + 4 * c) == Field16(good, 10 + 4 * c);
    assert Field16(data, 12 + 4 * c) == Field16(good, 12 + 4 * c);
  }

  lemma CountChange(p: Packet, data: seq<Byte>, i: nat)
    requires WellFormed(p) && ChangedAt(p, data, i) && data != Encode(p, None) && 5 <= i <= 7
    ensures |data| == 14 + 4 * p.argc && (Decode(data).Some? <==> EndsEarly(p, data))
  {
    PacketFields(p);
    if Field16(data, 6) == p.argc {
      CountUnchanged(p, data, i);
    } else if Field16(data, 6) < p.argc {
      CountTooSmall(p, data, i);
    }
    hide Checksum, Encode, Payload;
  }

  // ---------- What is noticed ----------

  /** One byte or two adjacent bytes of a packet are changed, at any place. If the argument count may be among them the
      packet is accepted exactly when it ends early; otherwise exactly when the changes are those of the last payload
      byte and the first checksum byte and the one makes up for the other. */
  lemma CorruptionRejected(p: Packet, data: seq<Byte>, i: nat)
    requires WellFormed(p) && ChangedAt(p, data, i) && data != Encode(p, None)
    ensures |data| == 14 + 4 * p.argc
    ensures Decode(data).Some? <==>
      if 5 <= i <= 7 then EndsEarly(p, data)
      else i + 1 == PayloadSize(p) && Compensates(Encode(p, None), data, i)
  {
    hide Decode, Encode, EndsEarly, Compensates;
    PacketFields(p);
    if 5 <= i <= 7 { CountChange(p, data, i); } else { ChangeOutsideCount(p, data, i); }
  }

  /** So a change of a single byte is noticed, unless it is the low byte of the count and the packet ends early. */
  lemma ByteCorruptionRejected(p: Packet, data: seq<Byte>, i: nat)
    requires WellFormed(p) && |data| == |Encode(p, None)| && i < |data|
    requires data[i] != Encode(p, None)[i]
    requires forall j :: 0 <= j < |data| && j != i ==> data[j] == Encode(p, None)[j]
    ensures |data| == 14 + 4 * p.argc && (Decode(data).Some? <==> i == 7 && EndsEarly(p, data))
  {
    hide Decode, Encode, ToBits, Crc.Update, Checksum, Behind, LowHalf;
    PacketFields(p);
    if i == 5 || i + 1 == |data| || i + 1 == PayloadSize(p) {
      CorruptionRejected(p, data, i - 1);
    } else {
      CorruptionRejected(p, data, i);
    }
  }

  /** No argument looks like the first half of the footer in its low half. */
  predicate FooterFree(p: Packet)
    requires WellFormed(p)
  {
    forall k :: 0 <= k < p.argc ==> LowHalf(p.argv[k]) != 0xC5A4
  }

  /** Then every change is noticed but the one of the last payload byte and the first checksum byte that makes up for
      itself. */
  lemma FooterFreeCorruptionRejected(p: Packet, data: seq<Byte>, i: nat)
    requires WellFormed(p) && FooterFree(p) && ChangedAt(p, data, i) && data != Encode(p, None)
    ensures Decode(data).Some? <==> i > 7 && i + 1 == PayloadSize(p) && Compensates(Encode(p, None), data, i)
  {
    CorruptionRejected(p, data, i);
    hide Decode, Encode, Compensates, Checksum;
  }
}
