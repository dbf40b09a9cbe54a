/** The shared ring of data frames: the frame server fills it, an acquisition empties it in blocks. */
module FrameRing {
  import opened RingPositions

  /** The pointer and the slot that stand for a counter. */
  function Pointer(n: nat, bs: nat): (r: nat)
    requires bs > 0
    ensures r < 2 * bs
  {
    n % (2 * bs)
  }

  function Slot(n: nat, bs: nat): (r: nat)
    requires bs > 0
    ensures r < bs
  {
    n % bs
  }

  /** Number of frames from the read to the write pointer. */
  function Distance(wr: nat, rd: nat, bs: nat): int
    requires wr < 2 * bs && rd < 2 * bs
  {
    var n := if wr >= rd then wr - rd else rd - wr;
    if n > bs then 2 * bs - n else n
  }

  /** What one block takes: what is there, no more than is needed, no more than half the ring. */
  function BlockSize(wr: nat, rd: nat, bs: nat, framesToTarget: int): int
    requires wr < 2 * bs && rd < 2 * bs
  {
    var n := Distance(wr, rd, bs);
    var m := if n > framesToTarget then framesToTarget else n;
    if m > bs / 2 then bs / 2 else m
  }

  predicate IsFull(wr: nat, rd: nat, bs: nat)
    requires bs > 0
  {
    wr != rd && wr % bs == rd % bs
  }

  /** The pointers tell the fill of the ring: empty, full and everything between. */
  lemma PointersTellTheFill(W: nat, R: nat, bs: nat)
    requires bs > 0 && R <= W <= R + bs
    ensures Distance(Pointer(W, bs), Pointer(R, bs), bs) == W - R
    ensures Pointer(W, bs) == Pointer(R, bs) <==> W == R
    ensures IsFull(Pointer(W, bs), Pointer(R, bs), bs) <==> W == R + bs
  {
    Forward(R, W - R, 2 * bs);
    SlotOfPointer(W, bs);
    SlotOfPointer(R, bs);
    if W - R < bs {
      Forward(R, W - R, bs);
    } else {
      assert (R + bs) % bs == R % bs by { DivisionIsUnique(R + bs, bs, R / bs + 1, R % bs); }
    }
  }

  /** A block is never empty and never passes the writer, provided the ring has at least two slots: a ring of one
      slot would hand out nothing, for ever. */
  lemma BlockFits(W: nat, R: nat, bs: nat, framesToTarget: nat)
    requires bs > 0 && R < W <= R + bs && framesToTarget > 0
    ensures var n := BlockSize(Pointer(W, bs), Pointer(R, bs), bs, framesToTarget);
      && (n >= 1 <==> bs >= 2)
      && 0 <= n <= W - R && n <= bs / 2 && n <= framesToTarget
      && (n == W - R || n == bs / 2 || n == framesToTarget)
  {
    PointersTellTheFill(W, R, bs);
  }

  lemma Next(p: nat, m: nat)
    requires p < m
    ensures (p + 1) % m == if p + 1 < m then p + 1 else 0
  {
    if p + 1 == m { DivisionIsUnique(p + 1, m, 1, 0); }
  }

  method Advance(ptr: nat, bs: nat, ghost n: nat) returns (next: nat)
    requires bs > 0 && ptr == Pointer(n, bs)
    ensures next == Pointer(n + 1, bs)
  {
    Forward(n, 1, 2 * bs);
    Next(ptr, 2 * bs);
    next := (ptr + 1) % (2 * bs);
  }

  ghost predicate Increasing(ids: seq<int>) {
    forall i, j :: 0 <= i < j < |ids| ==> ids[i] < ids[j]
  }

  ghost predicate Consecutive(ids: seq<int>) {
    forall i :: 0 <= i < |ids| ==> ids[i] == ids[0] + i
  }

  /** The frame server and its shared memory. The ghost fields tell the IDs of all frames ever stored and how many
      of them were released. A frame being copied into its slot is not stored yet, and may never be; frames arrive
      with increasing IDs. After `idle` more polls of an empty ring, however many that is, either a frame has come
      or the acquisition has stopped. */
  class FrameServer {
    const bs: nat
    const slots: array<int>
    var dataFrameWritePointer: nat
    var dataFrameReadPointer: nat
    var copying: bool
    var receivedFrameID: int
    var acquiring: bool
    var idle: nat
    ghost var ids: seq<int>
    ghost var released: nat

    ghost predicate Valid()
      reads this, slots
    {
      && bs >= 2 && slots.Length == bs
      && released <= |ids| <= released + bs
      && (copying ==> |ids| < released + bs && slots[Slot(|ids|, bs)] == receivedFrameID)
      && (forall k :: 0 <= k < |ids| ==> ids[k] < receivedFrameID || (ids[k] == receivedFrameID && !copying))
      && dataFrameWritePointer == Pointer(|ids|, bs)
      && dataFrameReadPointer == Pointer(released, bs)
      && Increasing(ids)
      && forall k :: released <= k < |ids| ==> slots[Slot(k, bs)] == ids[k]
    }

    constructor (size: nat)
      requires size >= 2
      ensures Valid() && fresh(slots) && bs == size && ids == [] && released == 0
    {
      bs := size;
      slots := new int[size];
      dataFrameWritePointer, dataFrameReadPointer := 0, 0;
      copying, receivedFrameID, acquiring, idle := false, -1, true, 0;
      ids, released := [], 0;
    }

    lemma Bounds()
      requires Valid()
      ensures bs >= 2 && released <= |ids| <= released + bs && Increasing(ids)
    {
    }

    lemma FreeSlot()
      requires Valid() && |ids| < released + bs
      ensures dataFrameWritePointer % bs == Slot(|ids|, bs)
      ensures forall k :: released <= k < |ids| ==> Slot(k, bs) != Slot(|ids|, bs)
    {
      SlotOfPointer(|ids|, bs);
      forall k | released <= k < |ids| ensures Slot(k, bs) != Slot(|ids|, bs) { Distinct(k, |ids| - k, bs); }
    }

    /** The first half of storing a frame: unless the ring is full its data goes to the next slot. */
    method BeginFrame(frameID: int)
      requires Valid() && frameID > receivedFrameID
      modifies this`copying, this`receivedFrameID, slots
      ensures Valid() && (copying <==> |ids| < released + bs) && receivedFrameID == frameID
    {
      PointersTellTheFill(|ids|, released, bs);
      hide IsFull, Pointer, Slot;
      var full := IsFull(dataFrameWritePointer, dataFrameReadPointer, bs);
      if !full {
        FreeSlot();
        var slot := dataFrameWritePointer % bs;
        slots[slot] := frameID;
      }
      receivedFrameID, copying := frameID, !full;
    }

    /** The second half: the frame is kept and the write pointer moves on, or the slot is left to the next frame. */
    method EndFrame(keep: bool)
      requires Valid()
      modifies this`copying, this`dataFrameWritePointer, this`ids
      ensures Valid() && !copying
      ensures ids == if old(copying) && keep then old(ids) + [receivedFrameID] else old(ids)
    {
      hide Pointer, Slot;
      if copying && keep {
        dataFrameWritePointer := Advance(dataFrameWritePointer, bs, |ids|);
        ids := ids + [receivedFrameID];
      }
      copying := false;
    }

    /** What the server may do between any two steps of a client: halves of any number of frames. */
    method Interfere()
      requires Valid()
      modifies this`copying, this`receivedFrameID, this`dataFrameWritePointer, this`ids, slots
      ensures Valid() && old(ids) <= ids
    {
      var steps: int := *;
      while steps > 0
        invariant Valid() && old(ids) <= ids
      {
        var begin: bool, keep: bool, frameID: int := *, *, *;
        if begin && frameID > receivedFrameID { BeginFrame(frameID); } else { EndFrame(keep); }
        steps := steps - 1;
      }
    }

    /** A client asks for the pointers. */
    method GetPointers() returns (wrPointer: nat, rdPointer: nat, amAcquiring: bool)
      requires Valid()
      modifies this`copying, this`receivedFrameID, this`dataFrameWritePointer, this`ids, this`acquiring, this`idle
      modifies slots
      ensures Valid() && old(ids) <= ids
      ensures wrPointer == Pointer(|ids|, bs) && rdPointer == Pointer(released, bs)
      ensures amAcquiring == acquiring && (amAcquiring && wrPointer == rdPointer ==> idle < old(idle))
    {
      Interfere();
      if dataFrameWritePointer != dataFrameReadPointer {
        idle := *;
        acquiring := *;
      } else if idle == 0 {
        acquiring := false;
      } else {
        idle := idle - 1;
        acquiring := *;
      }
      return dataFrameWritePointer, dataFrameReadPointer, acquiring;
    }

    /** A client reads the ID of an unreleased frame: it is still the one stored there, whatever the server does. */
    method GetFrameID(index: nat, ghost k: nat) returns (frameID: int)
      requires Valid() && released <= k < |ids| && index == Slot(k, bs)
      modifies this`copying, this`receivedFrameID, this`dataFrameWritePointer, this`ids, slots
      ensures Valid() && old(ids) <= ids && frameID == ids[k]
    {
      Interfere();
      frameID := slots[index];
      assert ids[k] == frameID;
      Interfere();
    }

    method SetDataFrameReadPointer(ptr: nat, ghost upTo: nat)
      requires Valid() && released <= upTo <= |ids| && ptr == Pointer(upTo, bs)
      modifies this`dataFrameReadPointer, this`released
      ensures Valid() && released == upTo
    {
      Reduced(ptr, bs);
      hide Slot, Pointer;
      dataFrameReadPointer, released := ptr % (2 * bs), upTo;
    }
  }

  // ---------- The raw data writer ----------

  lemma Reduced(ptr: nat, bs: nat)
    requires ptr < 2 * bs
    ensures ptr % (2 * bs) == ptr
  {
    DivisionIsUnique(ptr, 2 * bs, 0, ptr);
  }

  method IndexOf(ptr: nat, bs: nat, ghost n: nat) returns (index: nat)
    requires bs > 0 && ptr == Pointer(n, bs)
    ensures index == Slot(n, bs)
  {
    SlotOfPointer(n, bs);
    index := ptr % bs;
  }

  lemma SamePointer(p: nat, q: nat, bs: nat)
    requires bs > 0 && p <= q <= p + bs && Pointer(p, bs) == Pointer(q, bs)
    ensures p == q
  {
    PointersTellTheFill(q, p, bs);
  }

  /** The writer visits the frames from the read pointer up to the write pointer of a block, while the server
      goes on filling the ring. */
  method WriteBlock(server: FrameServer, wrPointer: nat, rdPointer: nat, ghost start: nat, ghost upTo: nat)
    returns (newRdPointer: nat, frames: seq<int>)
    requires server.Valid() && server.released <= start <= upTo <= |server.ids|
    requires rdPointer == Pointer(start, server.bs) && wrPointer == Pointer(upTo, server.bs)
    modifies server`copying, server`receivedFrameID, server`dataFrameWritePointer, server`ids, server.slots
    ensures server.Valid() && old(server.ids) <= server.ids
    ensures newRdPointer == Pointer(upTo, server.bs) && frames == server.ids[start..upTo]
  {
    hide Pointer, Slot;
    newRdPointer := rdPointer;
    frames := [];
    ghost var p := start;
    while newRdPointer != wrPointer
      invariant server.Valid() && old(server.ids) <= server.ids
      invariant start <= p <= upTo <= |server.ids| && newRdPointer == Pointer(p, server.bs)
      invariant frames == server.ids[start..p]
      decreases upTo - p
    {
      var index := IndexOf(newRdPointer, server.bs, p);
      var frameID := server.GetFrameID(index, p);
      frames := frames + [frameID];
      newRdPointer := Advance(newRdPointer, server.bs, p);
      p := p + 1;
    }
    SamePointer(p, upTo, server.bs);
  }

  // ---------- An acquisition ----------

  datatype Outcome = Done(startFrame: int, frames: seq<int>) | AcquisitionStopped(frames: seq<int>)

  method AwaitFrames(server: FrameServer) returns (wrPointer: nat, rdPointer: nat, amAcquiring: bool)
    requires server.Valid()
    modifies server`copying, server`receivedFrameID, server`dataFrameWritePointer, server`ids
    modifies server`acquiring, server`idle, server.slots
    ensures server.Valid() && old(server.ids) <= server.ids
    ensures wrPointer == Pointer(|server.ids|, server.bs) && rdPointer == Pointer(server.released, server.bs)
    ensures amAcquiring == server.acquiring && (amAcquiring ==> server.released < |server.ids|)
  {
    hide Slot, Pointer, Distance, IsFull;
    wrPointer, rdPointer, amAcquiring := server.GetPointers();
    while amAcquiring && wrPointer == rdPointer
      invariant server.Valid() && old(server.ids) <= server.ids && amAcquiring == server.acquiring
      invariant wrPointer == Pointer(|server.ids|, server.bs) && rdPointer == Pointer(server.released, server.bs)
      decreases if amAcquiring && wrPointer == rdPointer then server.idle + 1 else 0
    {
      wrPointer, rdPointer, amAcquiring := server.GetPointers();
    }
    PointersTellTheFill(|server.ids|, server.released, server.bs);
  }

  method Move(ptr: nat, k: nat, bs: nat, ghost n: nat) returns (moved: nat)
    requires bs > 0 && ptr == Pointer(n, bs) && k <= bs
    ensures moved == Pointer(n + k, bs)
  {
    Forward(n, k, 2 * bs);
    moved := (ptr + k) % (2 * bs);
    if ptr + k < 2 * bs {
      DivisionIsUnique(ptr + k, 2 * bs, 0, ptr + k);
    } else {
      DivisionIsUnique(ptr + k, 2 * bs, 1, ptr + k - 2 * bs);
    }
  }

  /** The slot before a pointer. */
  method IndexBefore(ptr: nat, bs: nat, ghost n: nat) returns (index: nat)
    requires bs > 0 && n > 0 && ptr == Pointer(n, bs)
    ensures index == Slot(n - 1, bs)
  {
    SlotBefore(n, bs);
    index := (ptr + bs - 1) % bs;
  }

  lemma {:induction false} GapsAtLeastOne(ids: seq<int>, a: nat, b: nat)
    requires Increasing(ids) && a <= b < |ids|
    ensures ids[b] - ids[a] >= b - a
    decreases b
  {
    if a < b {
      GapsAtLeastOne(ids, a, b - 1);
      assert ids[b - 1] < ids[b];
    }
  }

  /** One round of the acquisition loop: a block goes to the writer and is released afterwards. It is half the ring, or
      all that is needed, or all that is there. */
  method TakeBlock(server: FrameServer, bs: nat, currentFrame: int, stopFrame: int)
    returns (running: bool, frames: seq<int>, lastFrame: int, newRdPointer: nat)
    requires server.Valid() && bs == server.bs && currentFrame < stopFrame
    modifies server`copying, server`receivedFrameID, server`dataFrameWritePointer, server`ids, server`acquiring,
      server`idle, server`dataFrameReadPointer, server`released, server.slots
    ensures server.Valid() && old(server.ids) <= server.ids
    ensures old(server.released) <= server.released
    ensures frames == server.ids[old(server.released)..server.released]
    ensures if running then 1 <= |frames| <= stopFrame - currentFrame && |frames| <= bs / 2
      else server.released == old(server.released)
    ensures running ==>
      |frames| == bs / 2 || |frames| == stopFrame - currentFrame
      || |frames| >= |old(server.ids)| - old(server.released)
    ensures lastFrame == if running then server.ids[server.released - 1] else currentFrame
    ensures newRdPointer == Pointer(server.released, bs) && running == server.acquiring
  {
    hide Pointer, Slot, Distance, BlockSize, IsFull, Increasing, FrameServer.Valid;
    server.Bounds();
    ghost var R := server.released;
    var wrPointer, rdPointer, amAcquiring := AwaitFrames(server);
    server.Bounds();
    if !amAcquiring { return false, [], currentFrame, rdPointer; }
    var nFramesInBlock := BlockSize(wrPointer, rdPointer, bs, stopFrame - currentFrame);
    BlockFits(|server.ids|, R, bs, stopFrame - currentFrame);
    wrPointer := Move(rdPointer, nFramesInBlock, bs, R);
    newRdPointer, frames := WriteBlock(server, wrPointer, rdPointer, R, R + nFramesInBlock);
    var index := IndexBefore(newRdPointer, bs, R + nFramesInBlock);
    lastFrame := server.GetFrameID(index, R + nFramesInBlock - 1);
    server.SetDataFrameReadPointer(newRdPointer, R + nFramesInBlock);
    running := true;
  }

  /** What is in the ring already is dropped, and the step begins with the first frame that comes. */
  method StartStep(server: FrameServer, bs: nat)
    returns (running: bool, startFrame: int, rdPointer: nat, ghost first: nat)
    requires server.Valid() && bs == server.bs
    modifies server`copying, server`receivedFrameID, server`dataFrameWritePointer, server`ids, server`acquiring,
      server`idle, server`dataFrameReadPointer, server`released, server.slots
    ensures server.Valid() && old(server.ids) <= server.ids
    ensures old(server.released) <= first == server.released && rdPointer == Pointer(first, bs)
    ensures running ==> |old(server.ids)| <= first < |server.ids| && startFrame == server.ids[first]
    ensures running == server.acquiring
  {
    hide Pointer, Slot, Increasing;
    var wrPointer, amAcquiring;
    startFrame := 0;
    wrPointer, rdPointer, amAcquiring := server.GetPointers();
    if !amAcquiring { return false, 0, rdPointer, server.released; }
    first := |server.ids|;
    server.SetDataFrameReadPointer(wrPointer, first);
    wrPointer, rdPointer, running := AwaitFrames(server);
    if running {
      var index := IndexOf(rdPointer, bs, first);
      startFrame := server.GetFrameID(index, first);
      var frames;
      rdPointer, frames := WriteBlock(server, rdPointer, rdPointer, first, first);
      server.SetDataFrameReadPointer(rdPointer, first);
    }
  }

  method EndStep(server: FrameServer, rdPointer: nat)
    requires server.Valid() && rdPointer == Pointer(server.released, server.bs)
    modifies server`copying, server`receivedFrameID, server`dataFrameWritePointer, server`ids,
      server`dataFrameReadPointer, server`released, server.slots
    ensures server.Valid() && old(server.ids) <= server.ids && server.released == old(server.released)
  {
    hide Pointer, Slot, Increasing;
    var newRdPointer, frames := WriteBlock(server, rdPointer, rdPointer, server.released, server.released);
    server.SetDataFrameReadPointer(newRdPointer, server.released);
  }

  /** Between two blocks of a step of n frames that began with frame `first`: everything up to `released` was
      written, currentFrame is the last of it, and it is at most one frame more than required. */
  ghost predicate InStep(ids: seq<int>, first: nat, released: nat, n: int, currentFrame: int, written: seq<int>) {
    && first < |ids| && first <= released <= |ids|
    && written == ids[first..released]
    && currentFrame == (if released == first then ids[first] else ids[released - 1])
    && (n <= 0 ==> written == [])
    && (n > 0 ==> |written| <= n + 1)
  }

  lemma OneBlock(before: seq<int>, ids: seq<int>, first: nat, R: nat, upTo: nat, n: int, current: int,
                 written: seq<int>)
    requires before <= ids && Increasing(ids) && InStep(before, first, R, n, current, written)
    requires R <= upTo <= |ids| && current < ids[first] + n && upTo - R <= ids[first] + n - current
    ensures InStep(ids, first, upTo, n, if upTo == R then current else ids[upTo - 1], written + ids[R..upTo])
    ensures |written + ids[R..upTo]| == |written| + (upTo - R)
  {
    if R > first { GapsAtLeastOne(ids, first, R - 1); }
    assert before[first..R] == ids[first..R];
    assert ids[first..R] + ids[R..upTo] == ids[first..upTo];
  }

  /** An acquisition of nRequiredFrames frames. `first` counts the frames before the first one of the step, among them
      all that were in the ring when it was called. With IDs that do not skip, startFrame to stopFrame inclusive are
      taken, each once: one frame more than were required. It ends early only when acquiring was switched off. */
  method Acquire(server: FrameServer, nRequiredFrames: int) returns (outcome: Outcome, ghost first: nat)
    requires server.Valid()
    modifies server`copying, server`receivedFrameID, server`dataFrameWritePointer, server`ids, server`acquiring,
      server`idle, server`dataFrameReadPointer, server`released, server.slots
    ensures server.Valid() && old(server.ids) <= server.ids
    ensures old(server.released) <= first <= server.released
    ensures outcome.frames == server.ids[first..server.released]
    ensures outcome.Done? || outcome.frames != [] ==> |old(server.ids)| <= first
    ensures outcome.Done? <==> server.acquiring
    ensures nRequiredFrames <= 0 ==> outcome.frames == []
    ensures nRequiredFrames > 0 ==> |outcome.frames| <= nRequiredFrames + 1
    ensures outcome.Done? ==> first < |server.ids| && outcome.startFrame == server.ids[first]
    ensures outcome.Done? && nRequiredFrames > 0 ==>
      outcome.frames != [] && outcome.frames[|outcome.frames| - 1] >= outcome.startFrame + nRequiredFrames
    ensures outcome.Done? && nRequiredFrames > 0 && Consecutive(outcome.frames) ==>
      outcome.frames == FramesFrom(outcome.startFrame, nRequiredFrames + 1)
  {
    var bs := server.bs;
    var running, startFrame, rdPointer;
    running, startFrame, rdPointer, first := StartStep(server, bs);
    if !running { return AcquisitionStopped([]), first; }
    var written;
    var currentFrame;
    running, written, currentFrame := TakeBlocks(server, bs, startFrame, nRequiredFrames, rdPointer, first);
    outcome := if running then Done(startFrame, written) else AcquisitionStopped(written);
    if running && nRequiredFrames > 0 && Consecutive(written) {
      ConsecutiveFramesAreTakenExactly(startFrame, nRequiredFrames, written);
    }
  }

  method TakeBlocks(server: FrameServer, bs: nat, startFrame: int, nRequiredFrames: int, startPointer: nat,
                    ghost first: nat)
    returns (running: bool, written: seq<int>, currentFrame: int)
    requires server.Valid() && bs == server.bs && startPointer == Pointer(first, bs)
    requires first == server.released < |server.ids| && startFrame == server.ids[first] && server.acquiring
    modifies server`copying, server`receivedFrameID, server`dataFrameWritePointer, server`ids, server`acquiring,
      server`idle, server`dataFrameReadPointer, server`released, server.slots
    ensures server.Valid() && old(server.ids) <= server.ids && first <= server.released
    ensures InStep(server.ids, first, server.released, nRequiredFrames, currentFrame, written)
    ensures running == server.acquiring && (running ==> currentFrame >= startFrame + nRequiredFrames)
  {
    hide Pointer, Slot, Increasing, FrameServer.Valid, InStep;
    var rdPointer, stopFrame := startPointer, startFrame + nRequiredFrames;
    var frames;
    running, written, currentFrame := true, [], startFrame;
    StepBegins(server.ids, first, nRequiredFrames);
    while currentFrame < stopFrame
      invariant server.Valid() && old(server.ids) <= server.ids && first <= server.released <= |server.ids|
      invariant InStep(server.ids, first, server.released, nRequiredFrames, currentFrame, written)
      invariant rdPointer == Pointer(server.released, bs) && running && server.acquiring
      decreases nRequiredFrames + 1 - |written|
    {
      ghost var ids, R, current := server.ids, server.released, currentFrame;
      server.Bounds();
      running, frames, currentFrame, rdPointer := TakeBlock(server, bs, currentFrame, stopFrame);
      server.Bounds();
      if !running {
        StepGoesOn(ids, server.ids, first, R, nRequiredFrames, current, written);
        return;
      }
      OneBlock(ids, server.ids, first, R, server.released, nRequiredFrames, current, written);
      written := written + frames;
    }
    ghost var ids := server.ids;
    EndStep(server, rdPointer);
    StepGoesOn(ids, server.ids, first, server.released, nRequiredFrames, currentFrame, written);
  }

  lemma StepGoesOn(before: seq<int>, ids: seq<int>, first: nat, R: nat, n: int, current: int, written: seq<int>)
    requires before <= ids && InStep(before, first, R, n, current, written)
    ensures InStep(ids, first, R, n, current, written)
  {
  }

  lemma StepBegins(ids: seq<int>, first: nat, n: int)
    requires first < |ids|
    ensures InStep(ids, first, first, n, ids[first], [])
  {
  }

  /** The IDs start, start + 1, ..., n of them. */
  function FramesFrom(start: int, n: nat): seq<int> { seq(n, i => start + i) }

  lemma ConsecutiveFramesAreTakenExactly(start: int, n: nat, frames: seq<int>)
    requires n > 0 && frames != [] && frames[0] == start && Consecutive(frames)
    requires |frames| <= n + 1 && frames[|frames| - 1] >= start + n
    ensures frames == FramesFrom(start, n + 1)
  {
    assert frames[|frames| - 1] == start + |frames| - 1;
  }
}
