/** A changed packet that the codec accepts. */
module CodecWitness {
  import opened Bytes
  import opened Codec
  import opened Wrappers
  import Crc
  import RegisterBytes

  const SENT: Packet := Packet(0x1234, 2, [7, -9])
  const RECEIVED: Packet := Packet(0x1234, 2, [7, -154])

  const FRONT: seq<Byte> := [0xEB, 0x90, 0x5B, 0x6A, 0x12, 0x34, 0x00, 0x02, 0x00, 0x00, 0x00, 0x07, 0xFF, 0xFF, 0xFF]
  const FOOTER: seq<Byte> := [0xC5, 0xA4, 0xD2, 0x79]

  /** Extending a message by one byte. */
  lemma Extended(data: seq<Byte>, b: Byte, c: bv16, bits: bv8)
    requires Crc.Crc16(AsBits(data)) == c && ToBits(b) == bits
    ensures Crc.Crc16(AsBits(data + [b])) == Crc.Update(c, bits)
  {
    hide Crc.Update, ToBits;
    Crc.RunAppend(0, AsBits(data), [bits]);
    assert AsBits(data + [b]) == AsBits(data) + [bits];
    assert Crc.Run(Crc.Update(c, bits), []) == Crc.Update(c, bits);
  }

  lemma NoBytes()
    ensures Crc.Crc16(AsBits(FRONT[..0])) == 0
  {
  }

  /** The next byte of the front, as number and as bits, takes the register from c to d. */
  lemma Step(k: nat, c: bv16, bits: bv8, d: bv16)
    requires k < |FRONT| && Crc.Crc16(AsBits(FRONT[..k])) == c && ToBits(FRONT[k]) == bits && Crc.Update(c, bits) == d
    ensures Crc.Crc16(AsBits(FRONT[..k + 1])) == d
  {
    hide AsBits, Crc.Crc16, ToBits, Crc.Update;
    Extended(FRONT[..k], FRONT[k], c, bits);
    assert FRONT[..k + 1] == FRONT[..k] + [FRONT[k]];
  }

  /** Byte by byte from one register to the next. */
  lemma Registers1()
    ensures Crc.Update(0x0000, 0xEB) == 0x59DD
    ensures Crc.Update(0x59DD, 0x90) == 0x99B8
    ensures Crc.Update(0x99B8, 0x5B) == 0xD50C
  {
  }

  lemma Registers2()
    ensures Crc.Update(0xD50C, 0x6A) == 0x06E5
    ensures Crc.Update(0x06E5, 0x12) == 0x8336
    ensures Crc.Update(0x8336, 0x34) == 0x2391
  {
  }

  lemma Registers3()
    ensures Crc.Update(0x2391, 0x00) == 0x8523
    ensures Crc.Update(0x8523, 0x02) == 0x300E
    ensures Crc.Update(0x300E, 0x00) == 0xE94E
  {
  }

  lemma Registers4()
    ensures Crc.Update(0xE94E, 0x00) == 0xAB93
    ensures Crc.Update(0xAB93, 0x00) == 0xA6B9
    ensures Crc.Update(0xA6B9, 0x07) == 0x5C53
  {
  }

  lemma Registers5()
    ensures Crc.Update(0x5C53, 0xFF) == 0x6F3A
    ensures Crc.Update(0x6F3A, 0xFF) == 0x91CE
    ensures Crc.Update(0x91CE, 0xFF) == 0x209B
  {
  }

  lemma Literals()
    ensures ToBits(0x00) == 0x00 && ToBits(0x02) == 0x02 && ToBits(0x07) == 0x07 && ToBits(0x12) == 0x12
    ensures ToBits(0x34) == 0x34 && ToBits(0x5B) == 0x5B && ToBits(0x66) == 0x66 && ToBits(0x6A) == 0x6A
    ensures ToBits(0x90) == 0x90 && ToBits(0xEB) == 0xEB && ToBits(0xF7) == 0xF7 && ToBits(0xFF) == 0xFF
  {
  }

  lemma HeadRegister()
    ensures Crc.Crc16(AsBits(FRONT[..7])) == 0x8523
  {
    hide AsBits, Crc.Crc16, ToBits, Crc.Update;
    Registers1();
    Registers2();
    Registers3();
    Literals();
    NoBytes();
    Step(0, 0x0000, 0xEB, 0x59DD);
    Step(1, 0x59DD, 0x90, 0x99B8);
    Step(2, 0x99B8, 0x5B, 0xD50C);
    Step(3, 0xD50C, 0x6A, 0x06E5);
    Step(4, 0x06E5, 0x12, 0x8336);
    Step(5, 0x8336, 0x34, 0x2391);
    Step(6, 0x2391, 0x00, 0x8523);
  }

  lemma FrontRegister()
    ensures Crc.Crc16(AsBits(FRONT)) == 0x209B
  {
    hide AsBits, Crc.Crc16, ToBits, Crc.Update;
    Registers3();
    Registers4();
    Registers5();
    Literals();
    HeadRegister();
    Step(7, 0x8523, 0x02, 0x300E);
    Step(8, 0x300E, 0x00, 0xE94E);
    Step(9, 0xE94E, 0x00, 0xAB93);
    Step(10, 0xAB93, 0x00, 0xA6B9);
    Step(11, 0xA6B9, 0x07, 0x5C53);
    Step(12, 0x5C53, 0xFF, 0x6F3A);
    Step(13, 0x6F3A, 0xFF, 0x91CE);
    Step(14, 0x91CE, 0xFF, 0x209B);
    assert FRONT[..15] == FRONT;
  }

  /** The two checksums. */
  lemma Checksums()
    ensures Crc.Crc16(AsBits(FRONT + [0xF7])) == 0xA94A && Crc.Crc16(AsBits(FRONT + [0x66])) == 0x2C4A
  {
    FrontRegister();
    Literals();
    assert Crc.Update(0x209B, 0xF7) == 0xA94A && Crc.Update(0x209B, 0x66) == 0x2C4A;
    hide AsBits, Crc.Crc16, ToBits, Crc.Update;
    Extended(FRONT, 0xF7, 0x209B, 0xF7);
    Extended(FRONT, 0x66, 0x209B, 0x66);
  }

  /** The frame with the given last payload byte and first checksum byte. */
  function Received(last: Byte, crc: Byte): seq<Byte> { FRONT + [last] + [crc, 0x4A] + FOOTER }

  /** d is c followed by one more binary digit. */
  predicate Next(c: bv16, d: bv16, one: bool) { d >> 1 == c && (d & 1 == 1 <==> one) }

  lemma NumberStep(c: bv16, n: nat, v: nat, d: bv16, one: bool)
    requires RegisterBytes.Number(c, n) == v && Next(c, d, one)
    ensures RegisterBytes.Number(d, n + 1) == 2 * v + if one then 1 else 0
  {
  }

  lemma NumberOfNibble(c: bv16, n: nat, v: nat, d3: bv16, d2: bv16, d1: bv16, d0: bv16,
                       b3: bool, b2: bool, b1: bool, b0: bool)
    requires RegisterBytes.Number(c, n) == v
    requires Next(c, d3, b3) && Next(d3, d2, b2) && Next(d2, d1, b1) && Next(d1, d0, b0)
    ensures RegisterBytes.Number(d0, n + 4) ==
      16 * v + (if b3 then 8 else 0) + (if b2 then 4 else 0) + (if b1 then 2 else 0) + (if b0 then 1 else 0)
  {
    hide RegisterBytes.Number, Next;
    var v3 := 2 * v + if b3 then 1 else 0;
    var v2 := 2 * v3 + if b2 then 1 else 0;
    var v1 := 2 * v2 + if b1 then 1 else 0;
    NumberStep(c, n, v, d3, b3);
    NumberStep(d3, n + 1, v3, d2, b2);
    NumberStep(d2, n + 2, v2, d1, b1);
    NumberStep(d1, n + 3, v1, d0, b0);
  }

  lemma SentWord()
    ensures RegisterBytes.ToWord(0xA94A) == 0xA94A
  {
    assert RegisterBytes.Number(0x0, 0) == 0x0;
    hide RegisterBytes.Number;
    NumberOfNibble(0x0, 0, 0x0, 0x1, 0x2, 0x5, 0xA, true, false, true, false);
    NumberOfNibble(0xA, 4, 0xA, 0x15, 0x2A, 0x54, 0xA9, true, false, false, true);
    NumberOfNibble(0xA9, 8, 0xA9, 0x152, 0x2A5, 0x54A, 0xA94, false, true, false, false);
    NumberOfNibble(0xA94, 12, 0xA94, 0x1529, 0x2A52, 0x54A5, 0xA94A, true, false, true, false);
  }

  lemma ReceivedWord()
    ensures RegisterBytes.ToWord(0x2C4A) == 0x2C4A
  {
    assert RegisterBytes.Number(0x0, 0) == 0x0;
    hide RegisterBytes.Number;
    NumberOfNibble(0x0, 0, 0x0, 0x0, 0x0, 0x1, 0x2, false, false, true, false);
    NumberOfNibble(0x2, 4, 0x2, 0x5, 0xB, 0x16, 0x2C, true, true, false, false);
    NumberOfNibble(0x2C, 8, 0x2C, 0x58, 0xB1, 0x162, 0x2C4, false, true, false, false);
    NumberOfNibble(0x2C4, 12, 0x2C4, 0x589, 0xB12, 0x1625, 0x2C4A, true, false, true, false);
  }

  /** The bytes of the frame. */
  lemma ReceivedBytes(last: Byte, crc: Byte)
    ensures var data := Received(last, crc);
      && |data| == 22 && data[..16] == FRONT + [last]
      && data[..8] == [0xEB, 0x90, 0x5B, 0x6A, 0x12, 0x34, 0x00, 0x02]
      && data[8..16] == [0x00, 0x00, 0x00, 0x07, 0xFF, 0xFF, 0xFF, last]
      && data[16..] == [crc, 0x4A, 0xC5, 0xA4, 0xD2, 0x79]
  {
  }

  lemma ReceivedFields(last: Byte, crc: Byte, data: seq<Byte>)
    requires data == Received(last, crc)
    ensures |data| == 22
    ensures Field16(data, 0) == 0xEB90 && Field16(data, 2) == 0x5B6A
    ensures Field16(data, 4) == 0x1234 && Field16(data, 6) == 2
    ensures Field16(data, 16) == crc * 0x100 + 0x4A && Field16(data, 18) == 0xC5A4 && Field16(data, 20) == 0xD279
  {
    hide Received;
    ReceivedBytes(last, crc);
    var front, trailer := data[..8], data[16..];
    assert forall i :: 0 <= i < 8 ==> data[i] == front[i];
    assert forall i :: 0 <= i < 6 ==> data[16 + i] == trailer[i];
  }

  lemma ReceivedArguments(last: Byte, crc: Byte, data: seq<Byte>)
    requires data == Received(last, crc)
    ensures |data| == 22 && Field32(data, 8) == 7 && Field32(data, 12) == last - 256
  {
    hide Received;
    ReceivedBytes(last, crc);
    var arguments := data[8..16];
    assert forall i :: 0 <= i < 8 ==> data[8 + i] == arguments[i];
  }

  lemma DecodedFrame(last: Byte, crc: Byte)
    requires Checksum(FRONT + [last]) == crc * 0x100 + 0x4A
    ensures Decode(Received(last, crc)) == Some(Packet(0x1234, 2, [7, last - 256]))
  {
    hide Checksum, Received, Field16, Field32;
    var data := Received(last, crc);
    ReceivedBytes(last, crc);
    ReceivedFields(last, crc, data);
    ReceivedArguments(last, crc, data);
    assert DecodeArgs(data, 2) == [7, last - 256];
  }

  lemma ChecksumNumbers()
    ensures Checksum(FRONT + [0xF7]) == 0xA94A && Checksum(FRONT + [0x66]) == 0x2C4A
  {
    Checksums();
    SentWord();
    ReceivedWord();
    hide RegisterBytes.ToWord, Crc.Crc16, AsBits;
  }

  lemma BothDecoded()
    ensures Decode(Received(0xF7, 0xA9)) == Some(SENT) && Decode(Received(0x66, 0x2C)) == Some(RECEIVED)
  {
    hide Checksum, Decode, Received;
    ChecksumNumbers();
    DecodedFrame(0xF7, 0xA9);
    DecodedFrame(0x66, 0x2C);
  }

  /** The packet of code 0x1234 with arguments 7 and -9, its last payload byte changed by 0x91 and its first checksum
      byte by 0x85, is accepted as one with arguments 7 and -154. */
  lemma StraddlingChangeAccepted()
    ensures Encode(SENT, None) == Received(0xF7, 0xA9)
    ensures Decode(Received(0x66, 0x2C)) == Some(RECEIVED)
  {
    BothDecoded();
    hide Decode, Encode;
    EncodeDecode(Received(0xF7, 0xA9));
  }

  // ---------- A packet that can be cut short ----------

  /** The first argument is made of the checksum of the packet without arguments and half of the footer, and the second
      begins with the other half. */
  const LONG: Packet := Packet(0x1234, 2, [0x131C_C5A4, -0x2D87_0000])
  const SHORT: Packet := Packet(0x1234, 0, [])

  lemma ShortWord()
    ensures RegisterBytes.ToWord(0x131C) == 0x131C
  {
    assert RegisterBytes.Number(0x0, 0) == 0x0;
    hide RegisterBytes.Number;
    NumberOfNibble(0x0, 0, 0x0, 0x0, 0x0, 0x0, 0x1, false, false, false, true);
    NumberOfNibble(0x1, 4, 0x1, 0x2, 0x4, 0x9, 0x13, false, false, true, true);
    NumberOfNibble(0x13, 8, 0x13, 0x26, 0x4C, 0x98, 0x131, false, false, false, true);
    NumberOfNibble(0x131, 12, 0x131, 0x263, 0x4C7, 0x98E, 0x131C, true, true, false, false);
  }

  lemma ShortChecksum()
    ensures Checksum(FRONT[..7] + [0x00]) == 0x131C
  {
    HeadRegister();
    Literals();
    assert Crc.Update(0x8523, 0x00) == 0x131C;
    ShortWord();
    hide AsBits, Crc.Crc16, ToBits, Crc.Update, RegisterBytes.ToWord;
    Extended(FRONT[..7], 0x00, 0x8523, 0x00);
  }

  lemma ShortFront(data: seq<Byte>)
    requires |data| >= 8 && Field16(data, 0) == 0xEB90 && Field16(data, 2) == 0x5B6A
    requires Field16(data, 4) == 0x1234 && Field16(data, 6) == 0
    ensures data[..8] == FRONT[..7] + [0x00]
  {
    var front := FRONT[..7] + [0x00];
    SameField(data, front, 0);
    SameField(data, front, 2);
    SameField(data, front, 4);
    SameField(data, front, 6);
  }

  lemma LongFields()
    ensures WellFormed(LONG)
    ensures var good := Encode(LONG, None);
      && |good| == 22 && Field16(good, 0) == 0xEB90 && Field16(good, 2) == 0x5B6A && Field16(good, 4) == 0x1234
      && Field16(good, 6) == 2 && Field16(good, 8) == 0x131C && Field16(good, 10) == 0xC5A4
      && Field16(good, 12) == 0xD279
  {
    hide Checksum, Encode, Field16, Payload;
    PacketFields(LONG);
    CodeField(LONG);
    ArgumentHalves(LONG, 0);
    BehindIsNext(LONG, 0);
  }

  lemma CodeField(p: Packet)
    requires WellFormed(p)
    ensures |Encode(p, None)| >= 8 && Field16(Encode(p, None), 4) == p.code
  {
    hide Checksum;
    assert p.argv[..p.argc] == p.argv;
    FrameFields(p.code, p.argv, Checksum(Payload(p.code, p.argv)), []);
    assert Encode(p, None) + [] == Encode(p, None);
  }

  /** When the count of that packet arrives as 0 the packet is accepted, as one without arguments. */
  lemma CountChangeAccepted()
    ensures |Encode(LONG, None)| == 22 && Encode(LONG, None)[7] == 2
    ensures Decode(Encode(LONG, None)[7 := 0]) == Some(SHORT)
  {
    hide Checksum, Encode;
    LongFields();
    var data := Encode(LONG, None)[7 := 0];
    ShortFront(data);
    ShortChecksum();
    assert Field16(data, 8) == 0x131C && Field16(data, 10) == 0xC5A4 && Field16(data, 12) == 0xD279;
    assert Accepts(data);
    assert DecodeArgs(data, 0) == [];
  }
}
