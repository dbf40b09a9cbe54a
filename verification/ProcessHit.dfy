/** The hit processor: calibrates raw hits and passes on those without a flag. */
module ProcessHit {
  import opened Events
  import opened EventBuffers
  import Newton

  datatype TacConfig = TacConfig(t0: real, a0: real, a1: real, a2: real)
  datatype EnergyConfig = EnergyConfig(p0: real, p1: real, p2: real, p3: real)

  /** `qac` gives the coefficients p0, p1, ... of the charge curve. */
  datatype ChannelConfig = ChannelConfig(
    x: real, y: real, z: real, xi: int, yi: int, triggerRegion: int, t0: real,
    tacT: nat -> TacConfig, tacE: nat -> TacConfig, qac: nat -> seq<real>, eCal: nat -> EnergyConfig)

  /** `sqrt` and `pow` are the functions of the mathematics library, and `undefined` stands for what a division by zero
      gives. */
  datatype Config = Config(
    triggerID: int, clockPeriod: real,
    useTDC: bool, useQDC: bool, useEnergyCal: bool, useTimeOffset: bool, useXYZ: bool,
    channels: nat -> ChannelConfig,
    sqrt: real -> real, pow: (real, real) -> real, undefined: real)

  ghost predicate ValidConfig(cfg: Config) {
    cfg.clockPeriod > 0.0 && forall c, t :: |cfg.channels(c).qac(t)| == 10
  }

  predicate IsTrigger(cfg: Config, h: RawHit) { h.channelID / 4096 == cfg.triggerID }

  // ---------- Why a hit is dropped ----------

  predicate TdcMissing(cfg: Config, h: RawHit) {
    var cc := cfg.channels(h.channelID);
    !IsTrigger(cfg, h) && cfg.useTDC && (cc.tacT(h.tacID).a1 == 0.0 || (!h.qdcMode && cc.tacE(h.tacID).a1 == 0.0))
  }

  predicate QdcMissing(cfg: Config, h: RawHit)
    requires ValidConfig(cfg)
  {
    !IsTrigger(cfg, h) && h.qdcMode && cfg.useQDC && cfg.channels(h.channelID).qac(h.tacID)[1] == 0.0
  }

  predicate EnergyMissing(cfg: Config, h: RawHit) {
    && !IsTrigger(cfg, h) && h.qdcMode && cfg.useQDC && cfg.useEnergyCal
    && cfg.channels(h.channelID).eCal(h.tacID).p0 == 0.0
  }

  predicate XyzMissing(cfg: Config, h: RawHit) {
    !IsTrigger(cfg, h) && cfg.useXYZ && cfg.channels(h.channelID).triggerRegion == -1
  }

  predicate Clean(cfg: Config, h: RawHit)
    requires ValidConfig(cfg)
  {
    h.valid && !TdcMissing(cfg, h) && !QdcMissing(cfg, h) && !EnergyMissing(cfg, h) && !XyzMissing(cfg, h)
  }

  // ---------- The calibration curves ----------

  function Discriminant(c: TacConfig, fine: nat): real { c.a1 * c.a1 - 4.0 * (c.a0 - fine as real) * c.a2 }

  /** The time at which the ramp a0 + a1 * q + a2 * q * q reaches a fine code. */
  function FineTime(cfg: Config, c: TacConfig, fine: nat): real {
    if c.a2 == 0.0 then cfg.undefined else (-c.a1 + cfg.sqrt(Discriminant(c, fine))) / (2.0 * c.a2)
  }

  function EnergyCurve(pow: (real, real) -> real, c: EnergyConfig, charge: real): real {
    c.p0 * pow(c.p1, pow(charge, c.p2)) + c.p3 * charge - c.p0
  }

  // ---------- What a hit becomes ----------

  /** How far the time of a hit lies before its coarse time. */
  function Correction(cfg: Config, h: RawHit): real
    requires ValidConfig(cfg)
  {
    var cc := cfg.channels(h.channelID);
    var ct := cc.tacT(h.tacID);
    if IsTrigger(cfg, h) then (h.tfine as real - 27.0) * 0.25
    else if !cfg.useTDC then 0.0
    else FineTime(cfg, ct, h.tfine) + ct.t0 + (if cfg.useTimeOffset then cc.t0 / cfg.clockPeriod else 0.0)
  }

  function Time(cfg: Config, h: RawHit): real
    requires ValidConfig(cfg)
  {
    h.time as real - Correction(cfg, h)
  }

  function TimeEnd(cfg: Config, h: RawHit): real
    requires ValidConfig(cfg)
  {
    var ce := cfg.channels(h.channelID).tacE(h.tacID);
    if IsTrigger(cfg, h) then Time(cfg, h)
    else if cfg.useTDC && !h.qdcMode then h.timeEnd as real - FineTime(cfg, ce, h.efine) - ce.t0
    else h.timeEnd as real
  }

  /** Time over threshold, or the charge as the integration time it stands for beyond the actual one. */
  ghost function Energy(cfg: Config, h: RawHit): real
    requires ValidConfig(cfg)
  {
    var cc := cfg.channels(h.channelID);
    var ti := TimeEnd(cfg, h) - Time(cfg, h);
    if IsTrigger(cfg, h) then if h.efine == 28 then 1.0 else -1.0
    else if !h.qdcMode then ti
    else if !cfg.useQDC then h.efine as real
    else
      ChargeEnergy(cfg, cc.qac(h.tacID), cc.eCal(h.tacID), h.efine, ti)
  }

  /** The integration time that the charge stands for, beyond the actual one ti. */
  ghost function ChargeEnergy(cfg: Config, cq: seq<real>, cen: EnergyConfig, efine: nat, ti: real): real {
    var charge := Newton.Solution(cq, efine, ti) - ti;
    if cfg.useEnergyCal then EnergyCurve(cfg.pow, cen, charge) else charge
  }

  method Charge(cfg: Config, cq: seq<real>, cen: EnergyConfig, efine: nat, ti: real) returns (energy: real)
    ensures energy == ChargeEnergy(cfg, cq, cen, efine, ti)
  {
    hide Newton.StopsAt, Newton.Iterate, EnergyCurve;
    var t_eq, iter := Newton.Solve(cq, efine, ti);
    energy := t_eq - ti;
    if cfg.useEnergyCal { energy := EnergyCurve(cfg.pow, cen, energy); }
  }

  ghost function Processed(cfg: Config, h: RawHit): Hit
    requires ValidConfig(cfg)
  {
    var cc := cfg.channels(h.channelID);
    var placed := cfg.useXYZ && !IsTrigger(cfg, h);
    Hit(true, h, Time(cfg, h), TimeEnd(cfg, h), Energy(cfg, h),
        if placed then cc.triggerRegion else -1,
        if placed then cc.xi else 0, if placed then cc.yi else 0,
        if placed then cc.x else 0.0, if placed then cc.y else 0.0, if placed then cc.z else 0.0)
  }

  /** The flag bits by cause. The bits of the energy flag, 0x16, take in those of the TDC and QDC flags. */
  ghost predicate FlagsTell(cfg: Config, h: RawHit, flags: bv8)
    requires ValidConfig(cfg)
  {
    && (flags == 0 <==> Clean(cfg, h))
    && (flags & 0x1 != 0 <==> !h.valid)
    && (flags & 0x2 != 0 <==> TdcMissing(cfg, h) || EnergyMissing(cfg, h))
    && (flags & 0x4 != 0 <==> QdcMissing(cfg, h) || EnergyMissing(cfg, h))
    && (flags & 0x8 != 0 <==> XyzMissing(cfg, h))
    && (flags & 0x16 != 0 <==> TdcMissing(cfg, h) || QdcMissing(cfg, h) || EnergyMissing(cfg, h))
  }

  lemma FlagBits(invalid: bool, tdc: bool, qdc: bool, energy: bool, xyz: bool) returns (f: bv8)
    ensures f == (if invalid then 0x1 else 0) | (if tdc then 0x2 else 0) | (if qdc then 0x4 else 0)
                 | (if energy then 0x16 else 0) | (if xyz then 0x8 else 0)
    ensures f == 0 <==> !invalid && !tdc && !qdc && !energy && !xyz
    ensures f & 0x1 != 0 <==> invalid
    ensures f & 0x2 != 0 <==> tdc || energy
    ensures f & 0x4 != 0 <==> qdc || energy
    ensures f & 0x8 != 0 <==> xyz
    ensures f & 0x16 != 0 <==> tdc || qdc || energy
  {
    f := (if invalid then 0x1 else 0) | (if tdc then 0x2 else 0) | (if qdc then 0x4 else 0)
         | (if energy then 0x16 else 0) | (if xyz then 0x8 else 0);
  }

  method ProcessOne(cfg: Config, h: RawHit) returns (out: Hit, eventFlags: bv8)
    requires ValidConfig(cfg)
    ensures out.(valid := true) == Processed(cfg, h) && FlagsTell(cfg, h, eventFlags)
  {
    hide ChargeEnergy, FineTime;
    ghost var flags :=
      FlagBits(!h.valid, TdcMissing(cfg, h), QdcMissing(cfg, h), EnergyMissing(cfg, h), XyzMissing(cfg, h));
    eventFlags := if h.valid then 0x0 else 0x1;
    var time, timeEnd, energy: real;
    var region, x, y, z, xi, yi := -1, 0.0, 0.0, 0.0, 0, 0;
    if h.channelID / 4096 == cfg.triggerID {
      time := h.time as real;
      time := time - (h.tfine as real - 27.0) * 0.25;
      timeEnd := time;
      energy := if h.efine == 28 then 1.0 else -1.0;
    } else {
      var cc := cfg.channels(h.channelID);
      var ct, ce, cq, cen := cc.tacT(h.tacID), cc.tacE(h.tacID), cc.qac(h.tacID), cc.eCal(h.tacID);
      time := h.time as real;
      if cfg.useTDC {
        time := h.time as real - FineTime(cfg, ct, h.tfine) - ct.t0;
        if cfg.useTimeOffset { time := time - cc.t0 / cfg.clockPeriod; }
        if ct.a1 == 0.0 { eventFlags := eventFlags | 0x2; }
      }
      timeEnd := h.timeEnd as real;
      if !h.qdcMode {
        if cfg.useTDC {
          timeEnd := h.timeEnd as real - FineTime(cfg, ce, h.efine) - ce.t0;
          if ce.a1 == 0.0 { eventFlags := eventFlags | 0x2; }
        }
        energy := timeEnd - time;
      } else {
        energy := h.efine as real;
        if cfg.useQDC {
          energy := Charge(cfg, cq, cen, h.efine, timeEnd - time);
          if cq[1] == 0.0 { eventFlags := eventFlags | 0x4; }
          if cfg.useEnergyCal && cen.p0 == 0.0 { eventFlags := eventFlags | 0x16; }
        }
      }
      if cfg.useXYZ {
        region, x, y, z, xi, yi := cc.triggerRegion, cc.x, cc.y, cc.z, cc.xi, cc.yi;
        if cc.triggerRegion == -1 { eventFlags := eventFlags | 0x8; }
      }
    }
    assert eventFlags == flags;
    out := Hit(false, h, time, timeEnd, energy, region, xi, yi, x, y, z);
  }

  // ---------- A buffer of hits ----------

  /** The first n hits filtered and processed. */
  ghost function Output(cfg: Config, hits: seq<RawHit>, n: nat): seq<Hit>
    requires ValidConfig(cfg) && n <= |hits|
  {
    if n == 0 then []
    else Output(cfg, hits, n - 1) + (if Clean(cfg, hits[n - 1]) then [Processed(cfg, hits[n - 1])] else [])
  }

  /** kept lists the positions of the hits without a flag. */
  ghost predicate Keeps(cfg: Config, hits: seq<RawHit>, n: nat, kept: seq<nat>)
    requires ValidConfig(cfg) && n <= |hits|
  {
    && (forall a, b :: 0 <= a < b < |kept| ==> kept[a] < kept[b])
    && (forall a :: 0 <= a < |kept| ==> kept[a] < n)
    && (forall i :: 0 <= i < n ==> (i in kept <==> Clean(cfg, hits[i])))
  }

  /** The output is exactly the subsequence of the hits without a flag, in their order, each processed. */
  lemma {:induction false} OutputIsTheCleanSubsequence(cfg: Config, hits: seq<RawHit>, n: nat) returns (kept: seq<nat>)
    requires ValidConfig(cfg) && n <= |hits|
    ensures Keeps(cfg, hits, n, kept) && |kept| == |Output(cfg, hits, n)|
    ensures forall a :: 0 <= a < |kept| ==> Output(cfg, hits, n)[a] == Processed(cfg, hits[kept[a]])
  {
    kept := [];
    if n > 0 {
      hide Clean, Processed;
      var front := OutputIsTheCleanSubsequence(cfg, hits, n - 1);
      kept := front + if Clean(cfg, hits[n - 1]) then [n - 1] else [];
      assert forall i :: i in kept <==> i in front || (i == n - 1 && Clean(cfg, hits[n - 1]));
    }
  }

  // ---------- The counters ----------

  datatype Tally = Received | Invalid | Tdc | Qdc | EnergyCal | Xyz | Sent | Flagged

  ghost predicate Tallied(cfg: Config, h: RawHit, t: Tally)
    requires ValidConfig(cfg)
  {
    match t
    case Received => true
    case Invalid => !h.valid
    case Tdc => TdcMissing(cfg, h) || EnergyMissing(cfg, h)
    case Qdc => QdcMissing(cfg, h) || EnergyMissing(cfg, h)
    case EnergyCal => TdcMissing(cfg, h) || QdcMissing(cfg, h) || EnergyMissing(cfg, h)
    case Xyz => XyzMissing(cfg, h)
    case Sent => Clean(cfg, h)
    case Flagged => !Clean(cfg, h)
  }

  ghost function Count(cfg: Config, hits: seq<RawHit>, n: nat, t: Tally): nat
    requires ValidConfig(cfg) && n <= |hits|
  {
    if n == 0 then 0 else Count(cfg, hits, n - 1, t) + (if Tallied(cfg, hits[n - 1], t) then 1 else 0)
  }

  datatype Counters = Counters(
    received: nat, invalid: nat, tdcMissing: nat, qdcMissing: nat, energyMissing: nat, xyzMissing: nat, sent: nat)

  ghost predicate CountsOf(cfg: Config, hits: seq<RawHit>, n: nat, c: Counters)
    requires ValidConfig(cfg) && n <= |hits|
  {
    && c.received == Count(cfg, hits, n, Received) && c.invalid == Count(cfg, hits, n, Invalid)
    && c.tdcMissing == Count(cfg, hits, n, Tdc) && c.qdcMissing == Count(cfg, hits, n, Qdc)
    && c.energyMissing == Count(cfg, hits, n, EnergyCal) && c.xyzMissing == Count(cfg, hits, n, Xyz)
    && c.sent == Count(cfg, hits, n, Sent)
  }

  /** No hit is lost: sent and flagged hits make up the received ones. The counters by cause overlap: whatever the
      TDC or the QDC counter counts is counted for the energy calibration too, and with the invalid hits and those
      without a position that counter covers everything dropped. */
  lemma {:induction false} Accounting(cfg: Config, hits: seq<RawHit>, n: nat)
    requires ValidConfig(cfg) && n <= |hits|
    ensures Count(cfg, hits, n, Received) == n == Count(cfg, hits, n, Sent) + Count(cfg, hits, n, Flagged)
    ensures |Output(cfg, hits, n)| == Count(cfg, hits, n, Sent)
    ensures Count(cfg, hits, n, Tdc) <= Count(cfg, hits, n, EnergyCal)
    ensures Count(cfg, hits, n, Qdc) <= Count(cfg, hits, n, EnergyCal)
    ensures Count(cfg, hits, n, EnergyCal) <= Count(cfg, hits, n, Tdc) + Count(cfg, hits, n, Qdc)
    ensures Count(cfg, hits, n, Flagged) <=
      Count(cfg, hits, n, Invalid) + Count(cfg, hits, n, EnergyCal) + Count(cfg, hits, n, Xyz)
  {
    if n > 0 {
      hide TdcMissing, QdcMissing, EnergyMissing, XyzMissing, Processed;
      Accounting(cfg, hits, n - 1);
    }
  }

  /** The counters by cause see the hit once at most. */
  predicate CountedOnce(cfg: Config, h: RawHit)
    requires ValidConfig(cfg)
  {
    && !TdcMissing(cfg, h) && !QdcMissing(cfg, h) && !EnergyMissing(cfg, h)
    && (h.valid || !XyzMissing(cfg, h))
  }

  ghost function Causes(cfg: Config, hits: seq<RawHit>, n: nat): nat
    requires ValidConfig(cfg) && n <= |hits|
  {
    Count(cfg, hits, n, Invalid) + Count(cfg, hits, n, Tdc) + Count(cfg, hits, n, Qdc)
    + Count(cfg, hits, n, EnergyCal) + Count(cfg, hits, n, Xyz)
  }

  lemma OneMoreCause(cfg: Config, hits: seq<RawHit>, n: nat)
    requires ValidConfig(cfg) && 0 < n <= |hits|
    ensures var flagged := Count(cfg, hits, n, Flagged) - Count(cfg, hits, n - 1, Flagged);
      var causes := Causes(cfg, hits, n) - Causes(cfg, hits, n - 1);
      flagged <= causes && (flagged == causes <==> CountedOnce(cfg, hits[n - 1]))
  {
    hide TdcMissing, QdcMissing, EnergyMissing, XyzMissing;
  }

  /** Every flagged hit is counted for some cause. The counters by cause add up to the flagged hits if and only if no
      hit misses a calibration and none is both invalid and without a position. */
  lemma {:induction false} CountersAddUpExactly(cfg: Config, hits: seq<RawHit>, n: nat)
    requires ValidConfig(cfg) && n <= |hits|
    ensures Count(cfg, hits, n, Flagged) <= Causes(cfg, hits, n)
    ensures Count(cfg, hits, n, Flagged) == Causes(cfg, hits, n) <==>
      forall i :: 0 <= i < n ==> CountedOnce(cfg, hits[i])
  {
    if n > 0 {
      CountersAddUpExactly(cfg, hits, n - 1);
      OneMoreCause(cfg, hits, n);
      hide Count, Causes, CountedOnce;
    }
  }

  /** They need not: a single hit without TDC calibration is counted twice. */
  lemma CountersOverlap(cfg: Config, h: RawHit)
    requires ValidConfig(cfg) && h.valid && !IsTrigger(cfg, h)
    requires cfg.useTDC && cfg.channels(h.channelID).tacT(h.tacID).a1 == 0.0
    ensures Count(cfg, [h], 1, Flagged) == 1 < 2 <= Causes(cfg, [h], 1)
  {
    assert TdcMissing(cfg, h);
    hide TdcMissing, QdcMissing, EnergyMissing, XyzMissing;
    assert Count(cfg, [h], 1, Tdc) == 1 && Count(cfg, [h], 1, EnergyCal) == 1;
  }

  // ---------- Order ----------

  ghost predicate CorrectionsWithin(cfg: Config, hits: seq<RawHit>, lo: real, hi: real)
    requires ValidConfig(cfg)
  {
    forall i :: 0 <= i < |hits| && Clean(cfg, hits[i]) ==> lo <= Correction(cfg, hits[i]) <= hi
  }

  /** Sorted hits whose corrections spread no further than hi - lo come out at most that much out of order. */
  lemma CorrectionsBoundDisorder(cfg: Config, hits: seq<RawHit>, lo: real, hi: real)
    requires ValidConfig(cfg) && TimeSorted(hits) && CorrectionsWithin(cfg, hits, lo, hi)
    ensures DisorderAtMost(HitTimes(Output(cfg, hits, |hits|)), hi - lo)
  {
    var out := Output(cfg, hits, |hits|);
    var kept := OutputIsTheCleanSubsequence(cfg, hits, |hits|);
    forall a, b | 0 <= a < b < |out| ensures out[a].time - (hi - lo) <= out[b].time {
      assert hits[kept[a]].time <= hits[kept[b]].time;
      assert kept[a] in kept && kept[b] in kept;
      hide Correction, Clean;
    }
  }

  /** The spread is reached, by any two kept hits of the same coarse time with the extreme corrections. */
  lemma DisorderIsReached(cfg: Config, a: RawHit, b: RawHit)
    requires ValidConfig(cfg) && Clean(cfg, a) && Clean(cfg, b) && a.time == b.time
    ensures TimeSorted([a, b])
    ensures forall d :: DisorderAtMost(HitTimes(Output(cfg, [a, b], 2)), d) ==>
      Correction(cfg, b) - Correction(cfg, a) <= d
  {
    assert Output(cfg, [a, b], 1) == Output(cfg, [a, b], 0) + [Processed(cfg, a)];
    var times := HitTimes(Output(cfg, [a, b], 2));
    assert times[0] == Time(cfg, a) && times[1] == Time(cfg, b);
  }

  /** Counting one more hit by its flags. */
  function Bump(c: Counters, flags: bv8): Counters {
    Counters(c.received + 1,
             if flags & 0x1 != 0 then c.invalid + 1 else c.invalid,
             if flags & 0x2 != 0 then c.tdcMissing + 1 else c.tdcMissing,
             if flags & 0x4 != 0 then c.qdcMissing + 1 else c.qdcMissing,
             if flags & 0x16 != 0 then c.energyMissing + 1 else c.energyMissing,
             if flags & 0x8 != 0 then c.xyzMissing + 1 else c.xyzMissing,
             if flags == 0 then c.sent + 1 else c.sent)
  }

  lemma NothingCounted(cfg: Config, hits: seq<RawHit>)
    requires ValidConfig(cfg)
    ensures Output(cfg, hits, 0) == [] && CountsOf(cfg, hits, 0, Counters(0, 0, 0, 0, 0, 0, 0))
  {
  }

  lemma OneMore(cfg: Config, hits: seq<RawHit>, n: nat, flags: bv8, c: Counters)
    requires ValidConfig(cfg) && n < |hits| && FlagsTell(cfg, hits[n], flags) && CountsOf(cfg, hits, n, c)
    ensures Output(cfg, hits, n + 1) ==
      if flags == 0 then Output(cfg, hits, n) + [Processed(cfg, hits[n])] else Output(cfg, hits, n)
    ensures CountsOf(cfg, hits, n + 1, Bump(c, flags))
  {
    hide TdcMissing, QdcMissing, EnergyMissing, XyzMissing, Clean, Processed;
  }

  method CountFlags(counters: Counters, eventFlags: bv8) returns (c: Counters)
    ensures c == Bump(counters, eventFlags)
  {
    c := counters.(received := counters.received + 1);
    if eventFlags & 0x1 != 0 { c := c.(invalid := c.invalid + 1); }
    if eventFlags & 0x2 != 0 { c := c.(tdcMissing := c.tdcMissing + 1); }
    if eventFlags & 0x4 != 0 { c := c.(qdcMissing := c.qdcMissing + 1); }
    if eventFlags & 0x8 != 0 { c := c.(xyzMissing := c.xyzMissing + 1); }
    if eventFlags & 0x16 != 0 { c := c.(energyMissing := c.energyMissing + 1); }
    if eventFlags == 0 { c := c.(sent := c.sent + 1); }
  }

  method HandleEvents(cfg: Config, inBuffer: EventBuffer<RawHit>)
    returns (outBuffer: EventBuffer<Hit>, counters: Counters)
    requires inBuffer.Valid() && ValidConfig(cfg)
    ensures fresh(outBuffer) && outBuffer.Valid() && inBuffer.Contents() == old(inBuffer.Contents())
    ensures outBuffer.Contents() == Output(cfg, inBuffer.Contents(), inBuffer.used)
    ensures CountsOf(cfg, inBuffer.Contents(), inBuffer.used, counters)
    ensures TimeSorted(inBuffer.Contents()) && CorrectionsWithin(cfg, inBuffer.Contents(), -10.0, 10.0) ==>
      DisorderAtMost(HitTimes(outBuffer.Contents()), MAX_UNORDER)
  {
    hide Clean, Processed, FlagsTell, CountsOf, Output, Bump;
    hide ValidConfig, TimeSorted, CorrectionsWithin, DisorderAtMost;
    var n := inBuffer.used;
    ghost var hits := inBuffer.Contents();
    outBuffer := new EventBuffer<Hit>(n);
    var c := Counters(0, 0, 0, 0, 0, 0, 0);
    NothingCounted(cfg, hits);
    for i := 0 to n
      invariant fresh(outBuffer) && fresh(outBuffer.buffer) && outBuffer.Valid()
      invariant inBuffer.Contents() == hits
      invariant outBuffer.Contents() == Output(cfg, hits, i)
      invariant CountsOf(cfg, hits, i, c)
    {
      var slot := outBuffer.GetWriteSlot();
      var out, eventFlags := ProcessOne(cfg, inBuffer.buffer[i]);
      OneMore(cfg, hits, i, eventFlags, c);
      outBuffer.buffer[slot] := out;
      c := CountFlags(c, eventFlags);
      if eventFlags == 0 {
        outBuffer.buffer[slot] := out.(valid := true);
        outBuffer.PushWriteSlot();
      }
    }
    counters := c;
    if TimeSorted(hits) && CorrectionsWithin(cfg, hits, -10.0, 10.0) {
      CorrectionsBoundDisorder(cfg, hits, -10.0, 10.0);
    }
  }
}
