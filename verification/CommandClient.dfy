/** The reading side of the command link: a non-blocking socket with a FIFO behind it, and the loop that cuts
    the byte stream into packets, acknowledges each one and hands it to the command handler.

    The socket, and whether a send succeeds, are chosen by the environment. */
module CommandClient {
  import opened Bytes
  import opened Wrappers
  import opened Codec

  const MIN_PACKET_SIZE: nat := 14

  /** One call of recv: some bytes, none (would block, interrupted or closed by the peer), or an error. */
  datatype NetRead = Data(bytes: seq<Byte>) | Nothing | Failed

  predicate ValidRead(net: NetRead) { net.Data? ==> 0 < |net.bytes| <= 1024 }

  /** What epoll reports, and what the read that follows returns. */
  datatype Event = Event(net: NetRead, hangup: bool)

  /** One connection: its events, and which of its sends succeed. */
  datatype Session = Session(events: seq<Event>, sendOk: nat -> bool)

  predicate ValidEvents(events: seq<Event>) { forall i :: 0 <= i < |events| ==> ValidRead(events[i].net) }

  predicate Loses(event: Event) { !event.net.Data? || event.hangup }

  predicate IsLost(events: seq<Event>) { exists i :: 0 <= i < |events| && Loses(events[i]) }

  /** The data up to the event that loses the connection. */
  function Chunks(events: seq<Event>): seq<seq<Byte>> {
    if events == [] || Loses(events[0]) then [] else [events[0].net.bytes] + Chunks(events[1..])
  }

  // ---------- The socket ----------

  class Client {
    var open: bool
    var readBuffer: seq<Byte>
    ghost var received: seq<Byte>
    ghost var delivered: seq<Byte>

    /** While the socket is open nothing is lost, duplicated or reordered. */
    ghost predicate Valid()
      reads this
    {
      open ==> delivered + readBuffer == received
    }

    constructor ()
      ensures Valid() && open && received == delivered == readBuffer == []
    {
      open, readBuffer := true, [];
      received, delivered := [], [];
    }

    method RecvData(size: nat, net: NetRead) returns (n: int, data: seq<Byte>)
      requires Valid() && ValidRead(net)
      modifies this
      ensures Valid() && open == old(open)
      ensures n == -1 <==> !old(open) || net.Failed?
      ensures n == -1 ==> data == [] && unchanged(this)
      ensures n != -1 ==>
        && data + readBuffer == old(readBuffer) + (if net.Data? then net.bytes else [])
        && received == old(received) + (if net.Data? then net.bytes else [])
        && delivered == old(delivered) + data
        && n == |data| <= size && (|data| < size ==> readBuffer == [])
    {
      data := [];
      if !open { return -1, data; }
      match net {
        case Data(bytes) =>
          readBuffer := readBuffer + bytes;
          received := received + bytes;
        case Nothing =>
        case Failed => return -1, data;
      }
      var toCopy := if size < |readBuffer| then size else |readBuffer|;
      data := readBuffer[..toCopy];
      readBuffer := readBuffer[toCopy..];
      delivered := delivered + data;
      n := toCopy;
    }

    method CloseFD()
      modifies this
      ensures Valid() && !open && readBuffer == []
      ensures received == old(received) && delivered == old(delivered)
    {
      if open {
        open, readBuffer := false, [];
      }
      readBuffer := [];
    }
  }

  // ---------- The pure framer ----------

  /** The packets at the beginning of a stream, whether the stream is then given up, and the bytes left. */
  datatype Framing = Framing(packets: seq<Packet>, closed: bool, rest: seq<Byte>)

  function FrameSize(s: seq<Byte>): nat
    requires |s| >= MIN_PACKET_SIZE
  {
    MIN_PACKET_SIZE + Field16(s, 6) * 4
  }

  /** Cutting up stream s when k packets have been acknowledged before; the send of acknowledgement number
      k succeeds when sendOk(k). */
  function Frames(s: seq<Byte>, k: nat, sendOk: nat -> bool): (r: Framing)
    decreases |s|
  {
    if |s| < MIN_PACKET_SIZE then Framing([], false, s)
    else if Field16(s, 6) > MAX_ARGC then Framing([], true, s)
    else if |s| < FrameSize(s) then Framing([], false, s)
    else
      var p := Decode(s[..FrameSize(s)]);
      if p.None? || !sendOk(k) then Framing([], true, s[FrameSize(s)..])
      else
        var r := Frames(s[FrameSize(s)..], k + 1, sendOk);
        r.(packets := [p.value] + r.packets)
  }

  lemma FramesUnfold(s: seq<Byte>, k: nat, sendOk: nat -> bool)
    ensures Frames(s, k, sendOk) ==
      if |s| < MIN_PACKET_SIZE then Framing([], false, s)
      else
        var n := MIN_PACKET_SIZE + Field16(s, 6) * 4;
        if Field16(s, 6) > MAX_ARGC then Framing([], true, s)
        else if |s| < n then Framing([], false, s)
        else if Decode(s[..n]).None? || !sendOk(k) then Framing([], true, s[n..])
        else var r := Frames(s[n..], k + 1, sendOk); Framing([Decode(s[..n]).value] + r.packets, r.closed, r.rest)
  {
    hide Decode, Field16;
  }

  /** What is acknowledged: the command code and the size of the packet on the wire. */
  function AckOf(p: Packet): seq<Byte>
    requires p.argc <= MAX_ARGC
  {
    Encode(Packet(p.code, 1, [PacketSize(p)]), None)
  }

  // ---------- The client ----------

  /** What the client remembers between two events; `handled` and `acks` are histories. */
  datatype Progress = Progress(incoming: seq<Byte>, active: bool, handled: seq<Packet>)

  function Deliver(c: Progress, chunk: seq<Byte>, sendOk: nat -> bool): Progress {
    if !c.active then c
    else
      var r := Frames(c.incoming + chunk, |c.handled|, sendOk);
      Progress(if r.closed then [] else r.rest, !r.closed, c.handled + r.packets)
  }

  function Receive(c: Progress, events: seq<Event>, sendOk: nat -> bool): Progress
    decreases |events|
  {
    if events == [] || !c.active then c
    else if Loses(events[0]) then Progress([], false, c.handled)
    else Receive(Deliver(c, events[0].net.bytes, sendOk), events[1..], sendOk)
  }

  /** The packets of all connections: each one is framed by itself, and the next one follows only if it ends. */
  function AllFrames(sessions: seq<Session>, k: nat): seq<Packet>
    decreases |sessions|
  {
    if sessions == [] then []
    else
      var r := Frames(Concat(Chunks(sessions[0].events)), k, sessions[0].sendOk);
      if r.closed || IsLost(sessions[0].events) then r.packets + AllFrames(sessions[1..], k + |r.packets|)
      else r.packets
  }

  lemma NextSession(sessions: seq<Session>, i: nat, k: nat)
    requires i < |sessions|
    ensures var r := Frames(Concat(Chunks(sessions[i].events)), k, sessions[i].sendOk);
      AllFrames(sessions[i..], k) ==
      if r.closed || IsLost(sessions[i].events) then r.packets + AllFrames(sessions[i + 1..], k + |r.packets|)
      else r.packets
  {
    hide Frames, Concat, Chunks, IsLost;
    assert sessions[i..][0] == sessions[i] && sessions[i..][1..] == sessions[i + 1..];
  }

  lemma NoSession(k: nat)
    ensures AllFrames([], k) == []
  {
  }

  class CommandClient {
    var sendOk: nat -> bool
    var connection: Client
    var incoming: seq<Byte>
    var active: bool
    var handled: seq<Packet>
    var acks: seq<seq<Byte>>

    ghost predicate Valid()
      reads this, connection
    {
      && connection.Valid() && (active ==> connection.open && connection.readBuffer == [])
      && (forall i :: 0 <= i < |handled| ==> handled[i].argc <= MAX_ARGC)
      && |acks| == |handled| && forall i :: 0 <= i < |handled| ==> acks[i] == AckOf(handled[i])
    }

    ghost function State(): Progress
      reads this
    {
      Progress(incoming, active, handled)
    }

    constructor (sendOk: nat -> bool)
      ensures Valid() && fresh(connection) && this.sendOk == sendOk && State() == Progress([], true, [])
    {
      this.sendOk := sendOk;
      connection := new Client();
      incoming, active, handled, acks := [], true, [], [];
    }

    /** Parse one packet, acknowledge it and hand it to the handler. */
    method HandlePacket(packetData: seq<Byte>) returns (shouldClose: bool)
      requires Valid()
      modifies this
      ensures Valid() && unchanged(`sendOk, `connection, `active, `incoming)
      ensures var p := Decode(packetData);
        && shouldClose == (p.None? || !sendOk(|old(handled)|))
        && handled == old(handled) + (if shouldClose then [] else [p.value])
    {
      hide Decode, Encode;
      var pkt := Parse(packetData);
      if pkt.None? { return true; }
      DecodedArgc(packetData);
      var ack := Serialize(Packet(pkt.value.code, 1, [PacketSize(pkt.value)]), None);
      if !sendOk(|handled|) { return true; }
      acks := acks + [ack];
      handled := handled + [pkt.value];
      return false;
    }

    /** The inner loop: handle every complete packet in the buffer. */
    method ProcessBuffer() returns (shouldClose: bool)
      requires Valid()
      modifies this
      ensures Valid() && unchanged(`sendOk, `connection, `active)
      ensures var r := Frames(old(incoming), |old(handled)|, sendOk);
        handled == old(handled) + r.packets && shouldClose == r.closed && (!r.closed ==> incoming == r.rest)
    {
      hide Decode, Field16, Frames, AckOf;
      shouldClose := false;
      ghost var whole := Frames(incoming, |handled|, sendOk);
      ghost var cut: seq<Packet> := [];
      while |incoming| >= MIN_PACKET_SIZE
        invariant Valid() && unchanged(`sendOk, `connection, `active) && !shouldClose
        invariant handled == old(handled) + cut
        invariant var r := Frames(incoming, |handled|, sendOk);
          whole == Framing(cut + r.packets, r.closed, r.rest)
        decreases |incoming|
      {
        FramesUnfold(incoming, |handled|, sendOk);
        var argc := Field16(incoming, 6);
        if argc > MAX_ARGC { return true; }
        var expectedSize := MIN_PACKET_SIZE + argc * 4;
        if |incoming| < expectedSize { return false; }
        var packetData := incoming[..expectedSize];
        incoming := incoming[expectedSize..];
        shouldClose := HandlePacket(packetData);
        if shouldClose { return true; }
        cut := cut + [Decode(packetData).value];
      }
      FramesUnfold(incoming, |handled|, sendOk);
    }

    /** One readable event of the socket while the connection is active. */
    method HandleEvent(net: NetRead, hangup: bool)
      requires Valid() && active && ValidRead(net)
      modifies this, connection
      ensures Valid() && unchanged(`sendOk, `connection)
      ensures net.Data? && !hangup ==> State() == Deliver(old(State()), net.bytes, sendOk)
      ensures !net.Data? || hangup ==> State() == Progress([], false, old(handled))
    {
      var shouldClose := false;
      var n, temp := connection.RecvData(1024, net);
      if n <= 0 || hangup {
        shouldClose := true;
      } else {
        assert net.Data?;
        assert temp + connection.readBuffer == net.bytes;
        assert |temp| + |connection.readBuffer| == |net.bytes|;
        assert temp == net.bytes;
        incoming := incoming + temp;
        shouldClose := ProcessBuffer();
      }
      if shouldClose {
        connection.CloseFD();
        incoming := [];
        active := false;
      }
    }

    /** A new connection, on which sends succeed as sendOk says. */
    method Connect(sendOk: nat -> bool)
      requires Valid()
      modifies this
      ensures Valid() && fresh(connection) && this.sendOk == sendOk
      ensures State() == Progress([], true, old(handled))
    {
      this.sendOk := sendOk;
      connection := new Client();
      incoming, active := [], true;
    }

    /** The read loop of one connection: its events, until it is closed. */
    method ReadEvents(events: seq<Event>)
      requires Valid() && active && incoming == [] && ValidEvents(events)
      modifies this, connection
      ensures Valid() && unchanged(`sendOk, `connection)
      ensures var r := Frames(Concat(Chunks(events)), |old(handled)|, sendOk);
        && handled == old(handled) + r.packets && active == (!r.closed && !IsLost(events))
        && incoming == if active then r.rest else []
    {
      hide Frames;
      ghost var start := State();
      var i := 0;
      while i < |events| && active
        invariant i <= |events| && Valid() && unchanged(`sendOk, `connection)
        invariant Receive(State(), events[i..], sendOk) == Receive(start, events, sendOk)
      {
        assert events[i..][0] == events[i] && events[i..][1..] == events[i + 1..];
        HandleEvent(events[i].net, events[i].hangup);
        i := i + 1;
      }
      EmptyIsSettled(start, sendOk);
      ReceivedAtOnce(start, events, sendOk);
      assert start.incoming + Concat(Chunks(events)) == Concat(Chunks(events));
    }

    /** One connection from beginning to end. */
    method Serve(session: Session)
      requires Valid() && ValidEvents(session.events)
      modifies this
      ensures Valid()
      ensures var r := Frames(Concat(Chunks(session.events)), |old(handled)|, session.sendOk);
        handled == old(handled) + r.packets && active == (!r.closed && !IsLost(session.events))
    {
      hide Frames, Concat, Chunks, IsLost, ValidRead;
      Connect(session.sendOk);
      ReadEvents(session.events);
    }

    /** Connection after connection, as long as each one is lost or closed. */
    method Run(sessions: seq<Session>)
      requires Valid() && handled == []
      requires forall i :: 0 <= i < |sessions| ==> ValidEvents(sessions[i].events)
      modifies this
      ensures Valid() && handled == AllFrames(sessions, 0)
    {
      hide Frames, AllFrames, Concat, Chunks, IsLost, Valid, ValidRead;
      assert sessions[0..] == sessions;
      for i := 0 to |sessions|
        invariant Valid()
        invariant handled + AllFrames(sessions[i..], |handled|) == AllFrames(sessions, 0)
      {
        NextSession(sessions, i, |handled|);
        Serve(sessions[i]);
        if active { return; }
      }
      assert sessions[|sessions|..] == [];
      NoSession(|handled|);
    }
  }

  lemma DecodedArgc(data: seq<Byte>)
    requires Decode(data).Some?
    ensures Decode(data).value.argc <= MAX_ARGC
  {
  }

  // ---------- Fragmentation ----------

  function Concat(chunks: seq<seq<Byte>>): seq<Byte> {
    if chunks == [] then [] else chunks[0] + Concat(chunks[1..])
  }

  function DeliverAll(c: Progress, chunks: seq<seq<Byte>>, sendOk: nat -> bool): Progress
    decreases |chunks|
  {
    if chunks == [] then c else DeliverAll(Deliver(c, chunks[0], sendOk), chunks[1..], sendOk)
  }

  /** More bytes never change what was framed before: framing a + b is framing a, and then what was left of
      it followed by b. */
  lemma {:induction false} FramesAppend(a: seq<Byte>, b: seq<Byte>, k: nat, sendOk: nat -> bool)
    ensures var r := Frames(a, k, sendOk);
      var whole := Frames(a + b, k, sendOk);
      if r.closed then whole.closed && whole.packets == r.packets
      else var r' := Frames(r.rest + b, k + |r.packets|, sendOk);
           whole == Framing(r.packets + r'.packets, r'.closed, r'.rest)
    decreases |a|
  {
    hide Decode, Field16, Frames;
    FramesUnfold(a, k, sendOk);
    if |a| < MIN_PACKET_SIZE { return; }
    Peek(a, b);
    var n := MIN_PACKET_SIZE + Field16(a, 6) * 4;
    if Field16(a, 6) > MAX_ARGC || |a| < n {
      FramesUnfold(a + b, k, sendOk);
      return;
    }
    assert (a + b)[..n] == a[..n];
    assert (a + b)[n..] == a[n..] + b;
    FramesAppend(a[n..], b, k + 1, sendOk);
    FramesUnfold(a + b, k, sendOk);
  }

  lemma Peek(a: seq<Byte>, b: seq<Byte>)
    requires |a| >= MIN_PACKET_SIZE
    ensures Field16(a + b, 6) == Field16(a, 6)
  {
  }

  /** Two chunks one after the other are the two chunks at once. */
  lemma DeliverAppend(c: Progress, a: seq<Byte>, b: seq<Byte>, sendOk: nat -> bool)
    ensures Deliver(Deliver(c, a, sendOk), b, sendOk) == Deliver(c, a + b, sendOk)
  {
    hide Frames;
    if c.active {
      assert c.incoming + (a + b) == (c.incoming + a) + b;
      FramesAppend(c.incoming + a, b, |c.handled|, sendOk);
      var r := Frames(c.incoming + a, |c.handled|, sendOk);
      assert |c.handled + r.packets| == |c.handled| + |r.packets|;
    }
  }

  lemma {:induction false} DeliverAllAtOnce(c: Progress, a: seq<Byte>, chunks: seq<seq<Byte>>, sendOk: nat -> bool)
    ensures DeliverAll(Deliver(c, a, sendOk), chunks, sendOk) == Deliver(c, a + Concat(chunks), sendOk)
    decreases |chunks|
  {
    hide Deliver;
    if chunks == [] {
      assert a + [] == a;
    } else {
      DeliverAppend(c, a, chunks[0], sendOk);
      DeliverAllAtOnce(c, a + chunks[0], chunks[1..], sendOk);
      assert (a + chunks[0]) + Concat(chunks[1..]) == a + Concat(chunks);
    }
  }

  /** Everything that can be handled has been. */
  ghost predicate Settled(c: Progress, sendOk: nat -> bool) {
    Deliver(c, [], sendOk) == c && (!c.active ==> c.incoming == [])
  }

  lemma EmptyIsSettled(c: Progress, sendOk: nat -> bool)
    requires c.incoming == []
    ensures Settled(c, sendOk)
  {
    assert c.incoming + [] == [] && c.handled + [] == c.handled;
  }

  lemma DeliveredIsSettled(c: Progress, chunk: seq<Byte>, sendOk: nat -> bool)
    requires Settled(c, sendOk)
    ensures Settled(Deliver(c, chunk, sendOk), sendOk)
  {
    DeliverAppend(c, chunk, [], sendOk);
    assert chunk + [] == chunk;
    hide Frames;
  }

  /** Events have the effect of all their data at once, and then of the loss of the connection. */
  lemma {:induction false} ReceivedAtOnce(c: Progress, events: seq<Event>, sendOk: nat -> bool)
    requires Settled(c, sendOk)
    ensures var d := Deliver(c, Concat(Chunks(events)), sendOk);
      Receive(c, events, sendOk) == if IsLost(events) then Progress([], false, d.handled) else d
    decreases |events|
  {
    hide Frames;
    if c.active && events != [] && !Loses(events[0]) {
      var chunk := events[0].net.bytes;
      DeliveredIsSettled(c, chunk, sendOk);
      ReceivedAtOnce(Deliver(c, chunk, sendOk), events[1..], sendOk);
      DeliverAppend(c, chunk, Concat(Chunks(events[1..])), sendOk);
      LostLater(events);
    }
  }

  lemma LostLater(events: seq<Event>)
    requires events != [] && !Loses(events[0])
    ensures IsLost(events) <==> IsLost(events[1..])
    ensures Concat(Chunks(events)) == events[0].net.bytes + Concat(Chunks(events[1..]))
  {
    if i :| 0 <= i < |events| && Loses(events[i]) { assert Loses(events[1..][i - 1]); }
  }

  /** However the stream is cut into chunks, the packets handled are those of the pure framer on the whole
      stream, in order, up to the first bad frame; and a connection still active has its rest buffered. */
  lemma FragmentationIndependent(chunks: seq<seq<Byte>>, sendOk: nat -> bool)
    ensures var c := DeliverAll(Progress([], true, []), chunks, sendOk);
      var r := Frames(Concat(chunks), 0, sendOk);
      c.handled == r.packets && c.active == !r.closed && c.incoming == if r.closed then [] else r.rest
  {
    hide Frames, DeliverAll, Concat;
    var c := Progress([], true, []);
    FramesUnfold([], 0, sendOk);
    assert c.incoming + [] == [];
    assert Deliver(c, [], sendOk) == c;
    DeliverAllAtOnce(c, [], chunks, sendOk);
    assert [] + Concat(chunks) == Concat(chunks);
  }

  // ---------- From sender to handler ----------

  function EncodeAll(ps: seq<Packet>): seq<Byte>
    requires forall i :: 0 <= i < |ps| ==> ps[i].argc == |ps[i].argv|
  {
    if ps == [] then [] else Encode(ps[0], None) + EncodeAll(ps[1..])
  }

  ghost predicate AllWellFormed(ps: seq<Packet>) {
    forall i :: 0 <= i < |ps| ==> WellFormed(ps[i])
  }

  lemma {:induction false} FramesOfPackets(ps: seq<Packet>, k: nat, sendOk: nat -> bool)
    requires AllWellFormed(ps) && forall i :: k <= i < k + |ps| ==> sendOk(i)
    ensures Frames(EncodeAll(ps), k, sendOk) == Framing(ps, false, [])
    decreases |ps|
  {
    hide Decode, Encode;
    if ps != [] {
      var s, n := EncodeAll(ps), PacketSize(ps[0]);
      PacketAtHead(ps[0], EncodeAll(ps[1..]));
      assert s[..n] == Encode(ps[0], None);
      FramesOfPackets(ps[1..], k + 1, sendOk);
      assert ps == [ps[0]] + ps[1..];
    }
  }

  lemma PacketAtHead(p: Packet, tail: seq<Byte>)
    requires WellFormed(p)
    ensures var s := Encode(p, None) + tail;
      && |Encode(p, None)| == PacketSize(p) && |s| >= MIN_PACKET_SIZE
      && Field16(s, 6) == p.argc && Decode(Encode(p, None)) == Some(p) && s[PacketSize(p)..] == tail
  {
    hide Checksum, Decode, Write16;
    assert p.argv[..p.argc] == p.argv;
    DecodeEncode(p, None, []);
    assert Encode(p, None) + [] == Encode(p, None);
    FrameFields(p.code, p.argv, Checksum(Payload(p.code, p.argv)), tail);
  }

  /** The packets a peer prints are the packets the handler gets, each once and in order, for every way the
      network may cut up their bytes. */
  lemma SentIsHandled(ps: seq<Packet>, chunks: seq<seq<Byte>>, sendOk: nat -> bool)
    requires AllWellFormed(ps) && Concat(chunks) == EncodeAll(ps) && forall i :: 0 <= i < |ps| ==> sendOk(i)
    ensures DeliverAll(Progress([], true, []), chunks, sendOk) == Progress([], true, ps)
  {
    FragmentationIndependent(chunks, sendOk);
    FramesOfPackets(ps, 0, sendOk);
  }

  // ---------- From handler to sender ----------

  /** An acknowledgement is a packet itself: the code of the packet it is for, and how many bytes that one took. */
  lemma AckTellsCodeAndSize(p: Packet)
    requires WellFormed(p)
    ensures Decode(AckOf(p)) == Some(Packet(p.code, 1, [|Encode(p, None)|]))
  {
    hide Decode, Checksum, Write16, Write32;
    var ack := Packet(p.code, 1, [PacketSize(p)]);
    DecodeEncode(ack, None, []);
    assert AckOf(p) + [] == AckOf(p);
    assert ack.argv[..1] == ack.argv;
    assert p.argv[..p.argc] == p.argv;
  }

  // ---------- What the framer makes of any stream ----------

  /** More bytes are needed to tell. */
  predicate Incomplete(s: seq<Byte>) { |s| < 14 || (Field16(s, 6) <= 32 && |s| < 14 + 4 * Field16(s, 6)) }

  /** The stream goes on with something that cannot be handled, or whose acknowledgement cannot be sent. */
  predicate Bad(s: seq<Byte>, sends: bool) {
    |s| >= 14 && (Field16(s, 6) > 32
                  || (|s| >= 14 + 4 * Field16(s, 6) && (Decode(s[..14 + 4 * Field16(s, 6)]) == None || !sends)))
  }

  /** Whatever the stream: it begins with the bytes of the handled packets, all of them acknowledged, and behind them it
      is incomplete, or bad and given up. */
  lemma {:induction false} FramesAreExact(s: seq<Byte>, k: nat, sendOk: nat -> bool)
    ensures var r := Frames(s, k, sendOk);
      && AllWellFormed(r.packets) && EncodeAll(r.packets) <= s
      && (forall i :: k <= i < k + |r.packets| ==> sendOk(i))
      && var tail := s[|EncodeAll(r.packets)|..];
         (if r.closed then Bad(tail, sendOk(k + |r.packets|)) else Incomplete(tail) && r.rest == tail)
    decreases |s|
  {
    hide Decode, Encode, Field16, Frames;
    FramesUnfold(s, k, sendOk);
    if |s| >= 14 {
      var n := 14 + Field16(s, 6) * 4;
      if Field16(s, 6) <= 32 && |s| >= n && Decode(s[..n]).Some? && sendOk(k) {
        var p, r := Decode(s[..n]).value, Frames(s[n..], k + 1, sendOk);
        HandledFrame(s, n);
        FramesAreExact(s[n..], k + 1, sendOk);
        FirstPacket(p, r.packets, s, n);
      } else {
        assert s[0..] == s;
      }
    } else {
      assert s[0..] == s;
    }
  }

  lemma HandledFrame(s: seq<Byte>, n: nat)
    requires |s| >= 14 && n == 14 + Field16(s, 6) * 4 <= |s| && Decode(s[..n]).Some?
    ensures var p := Decode(s[..n]).value; WellFormed(p) && Encode(p, None) == s[..n]
  {
    hide Checksum, Encode;
    assert Field16(s[..n], 6) == Field16(s, 6);
    EncodeDecode(s[..n]);
  }

  lemma FirstPacket(p: Packet, ps: seq<Packet>, s: seq<Byte>, n: nat)
    requires WellFormed(p) && AllWellFormed(ps) && n <= |s| && Encode(p, None) == s[..n] && EncodeAll(ps) <= s[n..]
    ensures AllWellFormed([p] + ps) && EncodeAll([p] + ps) == s[..n] + EncodeAll(ps) <= s
    ensures s[|EncodeAll([p] + ps)|..] == s[n..][|EncodeAll(ps)|..]
  {
    hide Encode;
    assert ([p] + ps)[1..] == ps;
    assert s == s[..n] + s[n..];
  }
}
