/** The configuration registers of the ASICs, behind commands that may fail. */
module AsicCommands {
  import opened Wrappers

  type Bits = seq<bool>

  datatype AsicId = AsicId(portID: nat, slaveID: nat, chipID: nat)

  datatype Addr = Global(asic: AsicId) | Channel(asic: AsicId, n: nat)

  const CHANNELS: nat := 64

  function DataLength(a: Addr): nat { if a.Global? then 184 else 125 }

  ghost predicate IsAddress(a: Addr, asics: set<AsicId>) { a.asic in asics && (a.Channel? ==> a.n < CHANNELS) }

  datatype Error =
    | Timeout | BadReply(expected: int, got: int) | BadAck(n: int) | BadCRC | Generic(status: int) | BadRead
    | AssertionFailed | KeyError

  predicate IsConfigurationError(e: Error) { !e.Timeout? && !e.AssertionFailed? && !e.KeyError? }

  datatype Result<T> = Ok(value: T) | Err(error: Error)

  /** Padded to whole bytes. */
  function WholeBytes(bits: Bits): (r: Bits)
    ensures bits <= r && |r| % 8 == 0
  {
    bits + seq((8 - |bits| % 8) % 8, _ => false)
  }

  /** What a read makes of the data of a reply: from dataLength // 8 bytes on it is accepted, although dataLength bits
      may take a byte more. */
  function ReadValue(a: Addr, data: Bits): Result<Bits> {
    var expectedBytes := DataLength(a) / 8;
    if |data| / 8 < expectedBytes then Err(BadReply(2 + expectedBytes, 1 + |data| / 8))
    else Ok(if |data| > DataLength(a) then data[..DataLength(a)] else data)
  }

  /** A reply with all bits of the register gives the register. */
  lemma ReadsWhole(a: Addr, register: Bits, data: Bits)
    requires |register| == DataLength(a) && register <= data
    ensures ReadValue(a, data) == Ok(register)
  {
    assert data[..|register|] == register && |data| / 8 >= |register| / 8;
    if |data| == |register| { assert data == register; }
  }

  /** Two sets of registers differ at most in register a. */
  ghost predicate SameBut(a: Addr, v: map<Addr, Bits>, w: map<Addr, Bits>) {
    (forall b :: b in v <==> b in w) && forall b :: b in v && b != a ==> w[b] == v[b]
  }

  /** The hardware. A write may leave anything in the register it addresses; a reply to a read carries as many bits
      of the register as it likes, and those are right. `faults` counts what went wrong so far: replies that were lost,
      empty, short or had a status other than 0, and writes that left something else. */
  class Hardware {
    var registers: map<Addr, Bits>
    ghost var faults: nat

    constructor (initial: map<Addr, Bits>)
      ensures registers == initial && faults == 0
    {
      registers, faults := initial, 0;
    }

    ghost predicate Valid(asics: set<AsicId>)
      reads this
    {
      forall a :: IsAddress(a, asics) ==> a in registers && |registers[a]| == DataLength(a)
    }

    /** What the hardware sends back: nothing, or a status and whole bytes of data. */
    method SendCommand(a: Addr, write: Option<Bits>, ghost asics: set<AsicId>) returns (reply: Result<(int, Bits)>)
      requires Valid(asics) && IsAddress(a, asics)
      requires write.Some? ==> |write.value| == DataLength(a)
      modifies this
      ensures Valid(asics)
      ensures SameBut(a, old(registers), registers)
      ensures write.None? ==> registers == old(registers)
      ensures reply.Ok? ==> |reply.value.1| % 8 == 0
      ensures reply.Ok? ==> var data := reply.value.1; data <= registers[a] || registers[a] <= data
      ensures reply.Err? ==> reply.error.Timeout? || reply.error == BadReply(1, 0)
      ensures faults == old(faults) + if Faultless(a, write, reply) then 0 else 1
    {
      if write.Some? {
        var left: Bits := *;
        registers := registers[a := if |left| == DataLength(a) then left else write.value];
      }
      var lost: bool, empty: bool, status: int, n: int := *, *, *, *;
      hide WholeBytes;
      var data := WholeBytes(registers[a]);
      reply := if lost then Err(Timeout) else if empty then Err(BadReply(1, 0))
               else Ok((status, if 0 <= n && 8 * n <= |data| then data[..8 * n] else data));
      if !Faultless(a, write, reply) { faults := faults + 1; }
    }

    /** Nothing went wrong in an exchange. */
    ghost predicate Faultless(a: Addr, write: Option<Bits>, reply: Result<(int, Bits)>)
      requires a in registers
      reads this
    {
      reply.Ok? && reply.value.0 == 0 && registers[a] <= reply.value.1 && (write.Some? ==> registers[a] == write.value)
    }

    /** One exchange; a write is read back and compared. `status` is the first byte of the reply, if there is one. */
    method TryCommand(a: Addr, write: Option<Bits>, ghost asics: set<AsicId>)
      returns (r: Result<Bits>, ghost status: Option<int>)
      requires Valid(asics) && IsAddress(a, asics)
      modifies this
      ensures Valid(asics)
      ensures SameBut(a, old(registers), registers)
      ensures write.None? ==> registers == old(registers)
      ensures write.None? && r.Ok? ==> r.value <= registers[a] && |r.value| >= DataLength(a) / 8 * 8
      ensures write.Some? && r.Ok? ==> registers[a] == write.value
      ensures write.Some? && |write.value| != DataLength(a) <==> r == Err(AssertionFailed)
      ensures r == Err(AssertionFailed) ==> registers == old(registers)
      ensures r.Err? ==> r.error != KeyError
      ensures r.Ok? ==> status == Some(0)
      ensures faults >= old(faults) && (r.Err? && r.error != AssertionFailed ==> faults > old(faults))
      ensures faults == old(faults) && write.None? ==> r == Ok(registers[a])
      ensures status == Some(0xE3) ==> r == Err(BadAck(0))
      ensures status == Some(0xE4) ==> r == Err(BadCRC)
      ensures status == Some(0xE5) ==> r == Err(BadAck(1))
      ensures status.Some? && status.value !in {0, 0xE3, 0xE4, 0xE5} ==> r == Err(Generic(status.value))
      decreases write.Some?
    {
      status := None;
      if write.Some? && |write.value| != DataLength(a) { return Err(AssertionFailed), None; }
      var reply := SendCommand(a, write, asics);
      if reply.Err? { return Err(reply.error), None; }
      var (code, data) := reply.value;
      status := Some(code);
      if code == 0xE3 { return Err(BadAck(0)), status; }
      if code == 0xE4 { return Err(BadCRC), status; }
      if code == 0xE5 { return Err(BadAck(1)), status; }
      if code != 0x00 { return Err(Generic(code)), status; }
      if write.None? {
        if registers[a] <= data { ReadsWhole(a, registers[a], data); }
        return ReadValue(a, data), status;
      }
      var readBack, again := TryCommand(a, None, asics);
      if readBack.Err? { return readBack, status; }
      if readBack.value != write.value { return Err(BadRead), status; }
      return Ok(write.value), status;
    }

    /** Up to five attempts, as long as they fail with a configuration error. */
    method DoAsicCommand(a: Addr, write: Option<Bits>, ghost asics: set<AsicId>)
      returns (r: Result<Bits>, ghost nTry: nat)
      requires Valid(asics) && IsAddress(a, asics)
      modifies this
      ensures Valid(asics)
      ensures SameBut(a, old(registers), registers)
      ensures write.None? ==> registers == old(registers)
      ensures write.None? && r.Ok? ==> r.value <= registers[a] && |r.value| >= DataLength(a) / 8 * 8
      ensures write.Some? && r.Ok? ==> registers[a] == write.value
      ensures write.Some? && |write.value| != DataLength(a) <==> r == Err(AssertionFailed)
      ensures r == Err(AssertionFailed) ==> registers == old(registers)
      ensures r.Err? ==> r.error != KeyError
      ensures nTry <= 5 && (r.Err? && IsConfigurationError(r.error) <==> nTry == 5)
      ensures r.Err? ==> (nTry < 5 <==> r.error == Timeout || r.error == AssertionFailed)
      ensures faults >= old(faults) + nTry && (r.Err? && r.error != AssertionFailed ==> faults > old(faults))
    {
      nTry := 0;
      var tries := 0;
      while true
        invariant Valid(asics) && nTry == tries < 5
        invariant SameBut(a, old(registers), registers)
        invariant write.None? ==> registers == old(registers)
        invariant tries == 0 ==> registers == old(registers)
        invariant faults >= old(faults) + tries
        invariant tries > 0 && write.Some? ==> |write.value| == DataLength(a)
        decreases 5 - tries
      {
        ghost var status;
        r, status := TryCommand(a, write, asics);
        if r.Ok? || !IsConfigurationError(r.error) { return; }
        tries := tries + 1;
        nTry := tries;
        if tries >= 5 { return; }
      }
    }
  }

  ghost predicate AcceptsOnlyWholeRegisters(a: Addr) {
    forall data: Bits :: |data| % 8 == 0 && ReadValue(a, data).Ok? ==> |ReadValue(a, data).value| == DataLength(a)
  }

  /** Replies that are too short are all noticed if and only if the register fills whole bytes: a channel read takes 15
      bytes for its 125 bits. */
  lemma ShortRepliesAreNoticed(a: Addr)
    ensures AcceptsOnlyWholeRegisters(a) <==> DataLength(a) % 8 == 0
    ensures a.Channel? ==> forall data: Bits :: |data| == 120 ==> ReadValue(a, data) == Ok(data)
  {
    if a.Channel? {
      var short: Bits := seq(120, _ => false);
      assert ReadValue(a, short) == Ok(short);
    }
  }
}
