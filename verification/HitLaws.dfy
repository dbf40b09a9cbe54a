/** What the hit processor makes of a hit, stated by how its output answers to its inputs. */
module HitLaws {
  import opened Events
  import opened ProcessHit
  import Newton

  /** The two configurations differ in the data of channels only, and cc is what the second one says of channel c. */
  ghost predicate Recalibrated(cfg: Config, cfg': Config, c: nat, cc: ChannelConfig) {
    cfg' == cfg.(channels := cfg'.channels) && cfg'.channels(c) == cc
  }

  // ---------- Times ----------

  /** A trigger hit: a quarter of a clock for each fine code beyond 27, no duration, and an energy that is a sign. */
  lemma TriggerHits(cfg: Config, h: RawHit)
    requires ValidConfig(cfg) && IsTrigger(cfg, h)
    ensures var out := Processed(cfg, h);
      && 4.0 * (h.time as real - out.time) == h.tfine as real - 27.0 && out.timeEnd == out.time
      && (out.energy == 1.0 || out.energy == -1.0) && (out.energy > 0.0 <==> h.efine == 28)
  {
    hide FineTime, EnergyCurve;
  }

  /** Moving both coarse times moves both times and leaves the energy. */
  lemma CoarseTimesShift(cfg: Config, h: RawHit, h': RawHit, k: int)
    requires ValidConfig(cfg) && h' == h.(time := h.time + k, timeEnd := h.timeEnd + k)
    ensures var out, out' := Processed(cfg, h), Processed(cfg, h');
      && out'.time == out.time + k as real && out'.energy == out.energy
      && out'.timeEnd == out.timeEnd + k as real
  {
    hide FineTime, EnergyCurve, Newton.Solution;
    TimesShift(cfg, h, h', k);
    hide Time, TimeEnd;
    assert TimeEnd(cfg, h') - Time(cfg, h') == TimeEnd(cfg, h) - Time(cfg, h);
  }

  lemma TimesShift(cfg: Config, h: RawHit, h': RawHit, k: int)
    requires ValidConfig(cfg) && h' == h.(time := h.time + k, timeEnd := h.timeEnd + k)
    ensures Time(cfg, h') == Time(cfg, h) + k as real && TimeEnd(cfg, h') == TimeEnd(cfg, h) + k as real
  {
    hide FineTime;
    assert (h.time + k) as real == h.time as real + k as real;
    assert (h.timeEnd + k) as real == h.timeEnd as real + k as real;
  }

  /** Raising t0 of the start by d lowers the time by d and leaves the end. */
  lemma StartCalibrationShifts(cfg: Config, cfg': Config, h: RawHit, cc: ChannelConfig, d: real)
    requires ValidConfig(cfg) && ValidConfig(cfg') && !IsTrigger(cfg, h) && cfg.useTDC
    requires cc == cfg.channels(h.channelID).(tacT := cc.tacT) && Recalibrated(cfg, cfg', h.channelID, cc)
    requires var c := cfg.channels(h.channelID).tacT(h.tacID); cc.tacT(h.tacID) == c.(t0 := c.t0 + d)
    ensures var out, out' := Processed(cfg, h), Processed(cfg', h);
      && out'.time == out.time - d && out'.timeEnd == out.timeEnd && (!h.qdcMode ==> out'.energy == out.energy + d)
  {
    SameFineTime(cfg, cfg', cfg.channels(h.channelID).tacT(h.tacID), cc.tacT(h.tacID), h.tfine);
    SameFineTime(cfg, cfg', cfg.channels(h.channelID).tacE(h.tacID), cc.tacE(h.tacID), h.efine);
    hide FineTime, ChargeEnergy;
  }

  /** Raising t0 of the end by d lowers the end and the time over threshold by d and leaves the time. */
  lemma EndCalibrationShifts(cfg: Config, cfg': Config, h: RawHit, cc: ChannelConfig, d: real)
    requires ValidConfig(cfg) && ValidConfig(cfg') && !IsTrigger(cfg, h) && cfg.useTDC && !h.qdcMode
    requires cc == cfg.channels(h.channelID).(tacE := cc.tacE) && Recalibrated(cfg, cfg', h.channelID, cc)
    requires var c := cfg.channels(h.channelID).tacE(h.tacID); cc.tacE(h.tacID) == c.(t0 := c.t0 + d)
    ensures var out, out' := Processed(cfg, h), Processed(cfg', h);
      out'.time == out.time && out'.timeEnd == out.timeEnd - d && out'.energy == out.energy - d
  {
    SameFineTime(cfg, cfg', cfg.channels(h.channelID).tacT(h.tacID), cc.tacT(h.tacID), h.tfine);
    SameFineTime(cfg, cfg', cfg.channels(h.channelID).tacE(h.tacID), cc.tacE(h.tacID), h.efine);
    hide FineTime;
  }

  lemma SameFineTime(cfg: Config, cfg': Config, c: TacConfig, c': TacConfig, fine: nat)
    requires cfg'.sqrt == cfg.sqrt && cfg'.undefined == cfg.undefined && c' == c.(t0 := c'.t0)
    ensures FineTime(cfg', c', fine) == FineTime(cfg, c, fine)
  {
    assert c'.a0 == c.a0 && c'.a1 == c.a1 && c'.a2 == c.a2;
    assert Discriminant(c', fine) == Discriminant(c, fine);
    hide Discriminant;
  }

  /** The time offset of the channel is a number of nanoseconds, and taken off the time in clocks. */
  lemma TimeOffsetShifts(cfg: Config, cfg': Config, h: RawHit, cc: ChannelConfig, n: real)
    requires ValidConfig(cfg) && ValidConfig(cfg') && !IsTrigger(cfg, h) && cfg.useTDC && cfg.useTimeOffset
    requires cc == cfg.channels(h.channelID).(t0 := cc.t0) && Recalibrated(cfg, cfg', h.channelID, cc)
    requires cc.t0 == cfg.channels(h.channelID).t0 + n * cfg.clockPeriod
    ensures Processed(cfg', h).time == Processed(cfg, h).time - n
    ensures Processed(cfg', h).timeEnd == Processed(cfg, h).timeEnd
  {
    var c := cfg.channels(h.channelID);
    SameFineTime(cfg, cfg', c.tacT(h.tacID), cc.tacT(h.tacID), h.tfine);
    SameFineTime(cfg, cfg', c.tacE(h.tacID), cc.tacE(h.tacID), h.efine);
    OffsetInClocks(c.t0, n, cfg.clockPeriod);
    hide FineTime, ChargeEnergy;
  }

  lemma OffsetInClocks(t0: real, n: real, period: real)
    requires period > 0.0
    ensures (t0 + n * period) / period == t0 / period + n
  {
    assert (t0 / period + n) * period == t0 + n * period;
  }

  /** The fine code of the start enters the time and that of the end the end, each through the curve of its own ramp. */
  lemma FineCodesEnter(cfg: Config, h: RawHit, h': RawHit)
    requires ValidConfig(cfg) && !IsTrigger(cfg, h) && cfg.useTDC
    requires h' == h.(tfine := h'.tfine, efine := h'.efine)
    ensures var c := cfg.channels(h.channelID);
      var out, out' := Processed(cfg, h), Processed(cfg, h');
      && out'.time - out.time == FineTime(cfg, c.tacT(h.tacID), h.tfine) - FineTime(cfg, c.tacT(h.tacID), h'.tfine)
      && out'.timeEnd - out.timeEnd ==
           if h.qdcMode then 0.0
           else FineTime(cfg, c.tacE(h.tacID), h.efine) - FineTime(cfg, c.tacE(h.tacID), h'.efine)
  {
    hide FineTime, ChargeEnergy;
  }

  /** Without calibration, or with a zero one, the times are the coarse ones; the end of a charge measurement always
      is. */
  lemma CoarseTimes(cfg: Config, h: RawHit)
    requires ValidConfig(cfg) && !IsTrigger(cfg, h)
    ensures !cfg.useTDC ==> Processed(cfg, h).time == h.time as real
    ensures !cfg.useTDC || h.qdcMode ==> Processed(cfg, h).timeEnd == h.timeEnd as real
    ensures cfg.useTDC && !cfg.useTimeOffset ==> var c := cfg.channels(h.channelID).tacT(h.tacID);
      FineTime(cfg, c, h.tfine) == -c.t0 ==> Processed(cfg, h).time == h.time as real
    ensures cfg.useTDC && !h.qdcMode ==> var c := cfg.channels(h.channelID).tacE(h.tacID);
      FineTime(cfg, c, h.efine) == -c.t0 ==> Processed(cfg, h).timeEnd == h.timeEnd as real
  {
    hide FineTime, ChargeEnergy;
  }

  // ---------- The ramp ----------

  ghost predicate IsSqrt(f: real -> real) { forall x :: x >= 0.0 ==> f(x) >= 0.0 && f(x) * f(x) == x }

  /** The fine time solves the ramp for the fine code, and it is the solution at which the ramp rises for a2 > 0 and
      falls no more than it does at the other one. */
  lemma FineTimeSolvesTheRamp(cfg: Config, c: TacConfig, fine: nat)
    requires IsSqrt(cfg.sqrt) && c.a2 != 0.0 && Discriminant(c, fine) >= 0.0
    ensures var q := FineTime(cfg, c, fine);
      c.a0 + c.a1 * q + c.a2 * q * q == fine as real && c.a1 + 2.0 * c.a2 * q >= 0.0
  {
    var s, q, x := cfg.sqrt(Discriminant(c, fine)), FineTime(cfg, c, fine), fine as real;
    assert s >= 0.0 && s * s == Discriminant(c, fine);
    hide IsSqrt;
    RootTimes(s - c.a1, 2.0 * c.a2, q);
    Quadratic(c.a0, c.a1, c.a2, q, s, x);
  }

  lemma RootTimes(n: real, d: real, q: real)
    requires d != 0.0 && q == n / d
    ensures q * d == n
  {
  }

  lemma Quadratic(a0: real, a1: real, a2: real, q: real, s: real, x: real)
    requires a2 != 0.0 && q * (2.0 * a2) == s - a1 && s * s == a1 * a1 - 4.0 * (a0 - x) * a2
    ensures a0 + a1 * q + a2 * q * q == x && a1 + 2.0 * a2 * q == s
  {
    var y := a0 + a1 * q + a2 * q * q - x;
    var u := a2 * q;
    assert s == 2.0 * u + a1;
    assert s * s == 4.0 * (u * u) + 4.0 * (u * a1) + a1 * a1;
    assert 4.0 * (u * u) + 4.0 * (u * a1) == -4.0 * (a0 - x) * a2;
    assert u * u == a2 * (a2 * q * q) && u * a1 == a2 * (a1 * q);
    assert a2 * y == a2 * (a0 - x) + a2 * (a1 * q) + a2 * (a2 * q * q);
    assert a2 * y == 0.0;
  }

  // ---------- Energies ----------

  /** Without the charge calibration the energy is the ADC value, and a time over threshold is the time between start
      and end. */
  lemma PlainEnergies(cfg: Config, h: RawHit)
    requires ValidConfig(cfg) && !IsTrigger(cfg, h) && (!h.qdcMode || !cfg.useQDC)
    ensures var out := Processed(cfg, h);
      out.energy == if h.qdcMode then h.efine as real else out.timeEnd - out.time
  {
    hide FineTime, ChargeEnergy;
  }

  /** With a straight charge curve the charge is the integration time at which the curve reaches the ADC value, up to
      1000 clocks from the actual one, less the actual one. */
  lemma StraightCharge(cfg: Config, h: RawHit)
    requires ValidConfig(cfg) && !IsTrigger(cfg, h) && h.qdcMode && cfg.useQDC
    requires var p := cfg.channels(h.channelID).qac(h.tacID); Newton.Straight(p) && p[1] != 0.0
    ensures var p, out := cfg.channels(h.channelID).qac(h.tacID), Processed(cfg, h);
      var charge := (h.efine as real - p[0]) / p[1] - (out.timeEnd - out.time);
      -1000.0 <= charge <= 1000.0 ==>
        out.energy ==
          if cfg.useEnergyCal then EnergyCurve(cfg.pow, cfg.channels(h.channelID).eCal(h.tacID), charge) else charge
  {
    hide FineTime, EnergyCurve, Time, TimeEnd, Newton.Straight, Newton.Solution;
    Newton.StraightCurveIsSolved(
      cfg.channels(h.channelID).qac(h.tacID), h.efine, TimeEnd(cfg, h) - Time(cfg, h));
  }

  /** Raising p3 by d adds d for each unit of charge, and raising p0 adds what the power is above one. */
  lemma EnergyCurveIsLinear(pow: (real, real) -> real, c: EnergyConfig, c': EnergyConfig, charge: real)
    requires c' == c.(p0 := c'.p0, p3 := c'.p3)
    ensures EnergyCurve(pow, c', charge) - EnergyCurve(pow, c, charge) ==
      (c'.p0 - c.p0) * (pow(c.p1, pow(charge, c.p2)) - 1.0) + (c'.p3 - c.p3) * charge
    ensures c.p0 == 0.0 ==> EnergyCurve(pow, c, charge) == c.p3 * charge
  {
    var power := pow(c.p1, pow(charge, c.p2));
    assert (c'.p0 - c.p0) * (power - 1.0) == c'.p0 * power - c.p0 * power - c'.p0 + c.p0;
    assert (c'.p3 - c.p3) * charge == c'.p3 * charge - c.p3 * charge;
  }

  // ---------- Places ----------

  /** Position, indices and region are those of the channel, each in its own place, and nothing else answers to them. */
  lemma PlacesAreCopied(cfg: Config, cfg': Config, h: RawHit, cc: ChannelConfig)
    requires ValidConfig(cfg) && ValidConfig(cfg') && Recalibrated(cfg, cfg', h.channelID, cc)
    requires cc == cfg.channels(h.channelID).(
      x := cc.x, y := cc.y, z := cc.z, xi := cc.xi, yi := cc.yi, triggerRegion := cc.triggerRegion)
    ensures Processed(cfg', h) ==
      if cfg.useXYZ && !IsTrigger(cfg, h)
      then Processed(cfg, h).(x := cc.x, y := cc.y, z := cc.z, xi := cc.xi, yi := cc.yi, region := cc.triggerRegion)
      else Processed(cfg, h)
  {
    SameTimes(cfg, cfg', h, cc);
    SameEnergy(cfg, cfg', h, cc);
    hide Time, TimeEnd, Energy, ValidConfig;
  }

  lemma SameEnergy(cfg: Config, cfg': Config, h: RawHit, cc: ChannelConfig)
    requires ValidConfig(cfg) && ValidConfig(cfg') && Recalibrated(cfg, cfg', h.channelID, cc)
    requires var c := cfg.channels(h.channelID);
      cc.tacT == c.tacT && cc.tacE == c.tacE && cc.t0 == c.t0 && cc.qac == c.qac && cc.eCal == c.eCal
    ensures Energy(cfg', h) == Energy(cfg, h)
  {
    hide Time, TimeEnd, ValidConfig, ChargeEnergy, Recalibrated, IsTrigger;
    SameTimes(cfg, cfg', h, cc);
    SameSwitches(cfg, cfg', h, cc);
    var q, e, ti := cc.qac(h.tacID), cc.eCal(h.tacID), TimeEnd(cfg, h) - Time(cfg, h);
    assert q == cfg.channels(h.channelID).qac(h.tacID) && e == cfg.channels(h.channelID).eCal(h.tacID);
    SameCharge(cfg, cfg', q, e, h.efine, ti);
  }

  lemma SameSwitches(cfg: Config, cfg': Config, h: RawHit, cc: ChannelConfig)
    requires Recalibrated(cfg, cfg', h.channelID, cc)
    ensures cfg'.channels(h.channelID) == cc && IsTrigger(cfg', h) == IsTrigger(cfg, h)
    ensures cfg'.useQDC == cfg.useQDC && cfg'.useEnergyCal == cfg.useEnergyCal && cfg'.pow == cfg.pow
  {
  }

  lemma SameTimes(cfg: Config, cfg': Config, h: RawHit, cc: ChannelConfig)
    requires ValidConfig(cfg) && ValidConfig(cfg') && Recalibrated(cfg, cfg', h.channelID, cc)
    requires var c := cfg.channels(h.channelID); cc.tacT == c.tacT && cc.tacE == c.tacE && cc.t0 == c.t0
    ensures Time(cfg', h) == Time(cfg, h) && TimeEnd(cfg', h) == TimeEnd(cfg, h)
  {
    SameFineTime(cfg, cfg', cc.tacT(h.tacID), cc.tacT(h.tacID), h.tfine);
    SameFineTime(cfg, cfg', cc.tacE(h.tacID), cc.tacE(h.tacID), h.efine);
    hide FineTime;
  }

  lemma SameCharge(cfg: Config, cfg': Config, q: seq<real>, e: EnergyConfig, efine: nat, ti: real)
    requires cfg'.useEnergyCal == cfg.useEnergyCal && cfg'.pow == cfg.pow
    ensures ChargeEnergy(cfg', q, e, efine, ti) == ChargeEnergy(cfg, q, e, efine, ti)
  {
    hide EnergyCurve, Newton.Solution;
  }

  /** Hits of the trigger and of channels without a map have no place. */
  lemma NoPlace(cfg: Config, h: RawHit)
    requires ValidConfig(cfg) && (IsTrigger(cfg, h) || !cfg.useXYZ)
    ensures var out := Processed(cfg, h);
      out.region == -1 && out.x == out.y == out.z == 0.0 && out.xi == out.yi == 0
  {
    hide FineTime, ChargeEnergy;
  }

  // ---------- Flags ----------

  /** A hit passes if and only if it is valid and, unless it is one of the trigger, each calibration that is in use for
      it is there: of the start, of the end of a time over threshold, of a charge, of its energy, and of its place. */
  lemma PassesExactly(cfg: Config, h: RawHit, flags: bv8)
    requires ValidConfig(cfg) && FlagsTell(cfg, h, flags)
    ensures var c := cfg.channels(h.channelID);
      flags == 0 <==>
        h.valid &&
        (h.channelID / 4096 == cfg.triggerID ||
         (&& (cfg.useTDC ==> c.tacT(h.tacID).a1 != 0.0)
          && (cfg.useTDC && !h.qdcMode ==> c.tacE(h.tacID).a1 != 0.0)
          && (cfg.useQDC && h.qdcMode ==> c.qac(h.tacID)[1] != 0.0)
          && (cfg.useQDC && h.qdcMode && cfg.useEnergyCal ==> c.eCal(h.tacID).p0 != 0.0)
          && (cfg.useXYZ ==> c.triggerRegion != -1)))
  {
  }

  /** Which bits a single missing calibration sets. */
  lemma SingleCauses(cfg: Config, h: RawHit, flags: bv8)
    requires ValidConfig(cfg) && FlagsTell(cfg, h, flags)
    ensures !h.valid <==> flags & 0x1 != 0
    ensures h.channelID / 4096 == cfg.triggerID ==> flags & 0x1E == 0
    ensures var c := cfg.channels(h.channelID);
      h.channelID / 4096 != cfg.triggerID ==>
        && (cfg.useTDC && c.tacT(h.tacID).a1 == 0.0 ==> flags & 0x2 != 0)
        && (cfg.useTDC && !h.qdcMode && c.tacE(h.tacID).a1 == 0.0 ==> flags & 0x2 != 0)
        && (cfg.useQDC && h.qdcMode && c.qac(h.tacID)[1] == 0.0 ==> flags & 0x4 != 0)
        && (cfg.useQDC && h.qdcMode && cfg.useEnergyCal && c.eCal(h.tacID).p0 == 0.0 ==> flags & 0x4 != 0)
        && (cfg.useXYZ && c.triggerRegion == -1 ==> flags & 0x8 != 0)
  {
    if h.channelID / 4096 == cfg.triggerID { NoOtherBits(flags); }
  }

  lemma NoOtherBits(flags: bv8)
    requires flags & 0x8 == 0 && flags & 0x16 == 0
    ensures flags & 0x1E == 0
  {
  }
}
