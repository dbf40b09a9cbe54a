/** Register contents for which the summary of the TAC refresh settings is incomplete, or goes stale. */
module AsicCacheWitness {
  import opened AsicCache
  import opened AsicCommands
  import opened Wrappers
  import AsicFields
  import AsicRegisters
  import BitArrays

  // ---------- The two fields ----------

  const PERIOD: AsicFields.Field := AsicFields.Global(AsicFields.TacRefreshPeriod)
  const MAX_AGE: AsicFields.Field := AsicFields.Channel(AsicFields.TacMaxAge)
  const DEAD_TIME: AsicFields.Field := AsicFields.Channel(AsicFields.DeadTime)

  function FieldOf(subtype: AsicFields.Subtype, f: AsicFields.Field, bits: Bits): nat {
    if |bits| == AsicFields.Length(f) then AsicRegisters.ValueOf(subtype, bits, f) else 0
  }

  /** What getValue reads of tac_refresh_period and tac_max_age. */
  function Settings(subtype: AsicFields.Subtype): Tac {
    Tac(bits => FieldOf(subtype, PERIOD, bits), bits => FieldOf(subtype, MAX_AGE, bits))
  }

  // ---------- Three registers of a channel ----------

  function Cleared(n: nat): Bits { seq(n, _ => false) }

  /** Channel settings that differ from the cleared ones in tac_max_age, and others that differ in dead_time. */
  function Aged(subtype: AsicFields.Subtype): Bits { AsicRegisters.WithValue(subtype, Cleared(125), MAX_AGE, 1) }

  function Delayed(subtype: AsicFields.Subtype): Bits { AsicRegisters.WithValue(subtype, Cleared(125), DEAD_TIME, 1) }

  lemma {:induction false} ClearedValue(s: Bits)
    requires forall i :: 0 <= i < |s| ==> !s[i]
    ensures BitArrays.Value(s) == 0
  {
    if s != [] { ClearedValue(s[..|s| - 1]); }
  }

  lemma ClearedField(subtype: AsicFields.Subtype, f: AsicFields.Field)
    ensures FieldOf(subtype, f, Cleared(AsicFields.Length(f))) == 0
  {
    hide AsicRegisters.Position, AsicFields.Index;
    ClearedValue(AsicRegisters.Get(subtype, Cleared(AsicFields.Length(f)), f));
  }

  lemma AgeFields(subtype: AsicFields.Subtype)
    ensures |Aged(subtype)| == |Delayed(subtype)| == 125
    ensures FieldOf(subtype, MAX_AGE, Cleared(125)) == 0 && FieldOf(subtype, PERIOD, Cleared(184)) == 0
    ensures FieldOf(subtype, MAX_AGE, Aged(subtype)) == 1 && FieldOf(subtype, MAX_AGE, Delayed(subtype)) == 0
    ensures FieldOf(subtype, DEAD_TIME, Cleared(125)) == 0 && FieldOf(subtype, DEAD_TIME, Delayed(subtype)) == 1
  {
    assert |AsicFields.Index(subtype, MAX_AGE)| == 5 && |AsicFields.Index(subtype, DEAD_TIME)| == 6;
    hide AsicFields.Index, AsicRegisters.WithValue, AsicRegisters.ValueOf, AsicRegisters.Unused;
    OneFits(5);
    OneFits(6);
    ClearedField(subtype, MAX_AGE);
    ClearedField(subtype, PERIOD);
    ClearedField(subtype, DEAD_TIME);
    AsicRegisters.SetThenGet(subtype, Cleared(125), MAX_AGE, 1);
    AsicRegisters.SetThenGet(subtype, Cleared(125), DEAD_TIME, 1);
  }

  lemma OneFits(n: nat)
    requires n > 0
    ensures BitArrays.Saturated(1, n) == 1
  {
  }

  // ---------- The registers of one ASIC ----------

  /** Channels 0 and 1 have the given contents, everything else is cleared. */
  function Registers(k: AsicId, first: Bits, second: Bits): Values {
    map a | a in AddressesOf(k) ::
      if a == Channel(k, 0) then first else if a == Channel(k, 1) then second else Cleared(DataLength(a))
  }

  /** All registers of the ASIC, each of its length. */
  ghost predicate Full(k: AsicId, v: Values) {
    Covers(v, {k}) && forall a :: a in v ==> |v[a]| == DataLength(a)
  }

  lemma RegistersAreFull(k: AsicId, first: Bits, second: Bits)
    requires |first| == |second| == 125
    ensures Full(k, Registers(k, first, second))
  {
  }

  /** The pairs that the summary is built from. */
  lemma Pairs(subtype: AsicFields.Subtype, k: AsicId, first: Bits, second: Bits, v: Values, n: nat)
    requires v == Registers(k, first, second) && n < CHANNELS && |first| == |second| == 125
    ensures Global(k) in v && Channel(k, n) in v
    ensures TacPair(Settings(subtype), v, Channel(k, n)) ==
      (0, if n == 0 then FieldOf(subtype, MAX_AGE, first) else if n == 1 then FieldOf(subtype, MAX_AGE, second) else 0)
  {
    AgeFields(subtype);
    hide FieldOf;
    assert v[Global(k)] == Cleared(184);
    assert v[Channel(k, n)] == if n == 0 then first else if n == 1 then second else Cleared(125);
  }

  lemma NothingAged(subtype: AsicFields.Subtype, k: AsicId, v: Values)
    requires v == Registers(k, Cleared(125), Cleared(125))
    ensures TacExactly(Settings(subtype), v, AllChannels({k}), {(0, 0)})
  {
    AgeFields(subtype);
    hide FieldOf, Settings, Registers, TacPair;
    forall a | a in AllChannels({k})
      ensures Global(a.asic) in v && a in v && TacPair(Settings(subtype), v, a) == (0, 0)
    {
      Pairs(subtype, k, Cleared(125), Cleared(125), v, a.n);
    }
    assert Channel(k, 0) in AllChannels({k});
  }

  /** The age of channel 0 is missing. */
  lemma AgeMissing(subtype: AsicFields.Subtype, k: AsicId, second: Bits, v: Values, tac: set<(nat, nat)>)
    requires v == Registers(k, Aged(subtype), second) && |second| == 125 && (0, 1) !in tac
    ensures !TacExactly(Settings(subtype), v, AllChannels({k}), tac)
  {
    AgeFields(subtype);
    hide FieldOf, Settings, Registers, TacPair, Aged;
    Pairs(subtype, k, Aged(subtype), second, v, 0);
    var aged, pair := Channel(k, 0), (0, 1);
    assert aged in AllChannels({k}) && Global(aged.asic) in v && pair == TacPair(Settings(subtype), v, aged);
    assert pair !in tac;
  }

  lemma LastChannelCleared(subtype: AsicFields.Subtype, k: AsicId, first: Bits, second: Bits, v: Values)
    requires v == Registers(k, first, second) && |first| == |second| == 125
    ensures TacExactly(Settings(subtype), v, LastChannels({k}), {(0, 0)})
  {
    hide FieldOf, Settings, Registers, TacPair;
    Pairs(subtype, k, first, second, v, CHANNELS - 1);
    assert LastChannels({k}) == {Channel(k, CHANNELS - 1)};
  }

  /** A summary built from the last channels alone can miss a setting that some other channel has. */
  lemma SummaryCanBeIncomplete(subtype: AsicFields.Subtype, k: AsicId) returns (v: Values)
    ensures Full(k, v)
    ensures TacExactly(Settings(subtype), v, LastChannels({k}), {(0, 0)})
    ensures !TacExactly(Settings(subtype), v, AllChannels({k}), {(0, 0)})
  {
    AgeFields(subtype);
    hide FieldOf, Settings, Registers, Full, TacExactly, Aged;
    v := Registers(k, Aged(subtype), Cleared(125));
    RegistersAreFull(k, Aged(subtype), Cleared(125));
    LastChannelCleared(subtype, k, Aged(subtype), Cleared(125), v);
    AgeMissing(subtype, k, Cleared(125), v, {(0, 0)});
  }

  // ---------- A failed call and a second try ----------

  lemma FirstTry(k: AsicId, age: Bits, delay: Bits, v0: Values, v1: Values, v2: Values)
    requires v0 == Registers(k, Cleared(125), Cleared(125)) && v1 == Registers(k, age, Cleared(125))
    requires v2 == Registers(k, age, delay)
    ensures SetSoFar({Global(k), Channel(k, 0)}, Some(Channel(k, 1)), false, Before(v0, v0), v1, v1, v2)
  {
  }

  lemma SecondTry(k: AsicId, age: Bits, delay: Bits, v1: Values, v2: Values)
    requires v1 == Registers(k, age, Cleared(125)) && v2 == Registers(k, age, delay)
    ensures SetSoFar(AddressesOf(k), None, false, Before(v1, v1), v2, v2, v2)
  {
  }

  lemma NoFieldLeft(subtype: AsicFields.Subtype, k: AsicId, age: Bits, v1: Values, v2: Values)
    requires v1 == Registers(k, age, Cleared(125)) && v2 == Registers(k, age, Delayed(subtype))
    ensures !FieldChanged(Settings(subtype), {k}, v1, v2)
  {
    AgeFields(subtype);
    hide FieldOf, Delayed;
  }

  lemma AllRegistersOf(k: AsicId)
    ensures AllOf(AddressesOf(k), {k})
  {
  }

  /** The summary was complete at first. The new age of channel 0 is written, the write of channel 1, where only the
      dead time is new, fails, and the second try has nothing else left to write. It returns normally, and the summary
      lacks the new age. */
  lemma SummaryCanGoStale(subtype: AsicFields.Subtype, k: AsicId) returns (v0: Values, v1: Values, v2: Values)
    ensures Full(k, v0) && Full(k, v1) && Full(k, v2)
    ensures FailedThenRetried(Settings(subtype), {k}, Before(v0, v0), Before(v1, v1), Before(v2, v2), v2, Channel(k, 1),
                              {Global(k), Channel(k, 0)}, AddressesOf(k))
    ensures TacExactly(Settings(subtype), v0, AllChannels({k}), {(0, 0)})
    ensures !TacExactly(Settings(subtype), v2, AllChannels({k}), {(0, 0)})
  {
    AgeFields(subtype);
    hide TacExactly, SetSoFar, FieldChanged, AllOf, Registers, AddressesOf, AllChannels;
    hide FieldOf, Settings, Aged, Delayed;
    v0, v1 := Registers(k, Cleared(125), Cleared(125)), Registers(k, Aged(subtype), Cleared(125));
    v2 := Registers(k, Aged(subtype), Delayed(subtype));
    RegistersAreFull(k, Cleared(125), Cleared(125));
    RegistersAreFull(k, Aged(subtype), Cleared(125));
    RegistersAreFull(k, Aged(subtype), Delayed(subtype));
    NothingAged(subtype, k, v0);
    AgeMissing(subtype, k, Delayed(subtype), v2, {(0, 0)});
    FirstTry(k, Aged(subtype), Delayed(subtype), v0, v1, v2);
    SecondTry(k, Aged(subtype), Delayed(subtype), v1, v2);
    NoFieldLeft(subtype, k, Aged(subtype), v1, v2);
    AllRegistersOf(k);
  }
}
