/** The cache of what the registers hold, which saves writing what is there already. */
module AsicCache {
  import opened Wrappers
  import opened AsicCommands

  /** A register is a mutable object: whoever holds a reference to it can change it. */
  class Register {
    var bits: Bits

    constructor (initial: Bits)
      ensures bits == initial
    {
      bits := initial;
    }
  }

  type Configs = map<Addr, Register>
  type Values = map<Addr, Bits>

  /** The registers of a configuration, all of them in repr, have the values v. */
  ghost predicate Carries(m: Configs, v: Values, repr: set<object>)
    reads repr
  {
    && (forall a :: a in m <==> a in v)
    && (forall a :: a in m ==> m[a] in repr && m[a].bits == v[a])
  }

  /** A configuration covers whole ASICs. */
  ghost predicate Covers(v: Values, asics: set<AsicId>) { forall a :: a in v <==> IsAddress(a, asics) }

  lemma NothingCarries()
    ensures Carries(map[], map[], {})
  {
  }

  lemma AddedCarries(m: Configs, v: Values, repr: set<object>, a: Addr, r: Register)
    requires Carries(m, v, repr)
    ensures Carries(m[a := r], v[a := r.bits], repr + {r})
  {
  }

  lemma ReplacedCarries(m: Configs, v: Values, repr: set<object>, asics: set<AsicId>, a: Addr, copy: Register)
    requires Carries(m, v, repr) && Covers(v, asics) && a in v
    ensures Carries(m[a := copy], v[a := copy.bits], repr + {copy}) && Covers(v[a := copy.bits], asics)
  {
  }

  lemma CarriesAt(m: Configs, v: Values, repr: set<object>, a: Addr)
    requires Carries(m, v, repr) && a in v
    ensures a in m && m[a].bits == v[a]
  {
  }

  lemma JoinedCarries(m: Configs, v: Values, repr: set<object>, n: Configs, w: Values, added: set<object>)
    requires Carries(m, v, repr) && Carries(n, w, added)
    ensures Carries(m + n, v + w, repr + added)
  {
  }

  lemma SameRegisters(a: Addr, v: Values)
    ensures SameBut(a, v, v)
  {
  }

  lemma JoinedCover(v: Values, asics: set<AsicId>, w: Values, k: AsicId)
    requires Covers(v, asics) && Covers(w, {k}) && k !in asics
    ensures Covers(v + w, asics + {k}) && forall a :: IsAddress(a, asics) ==> (v + w)[a] == v[a]
  {
  }

  // ---------- TAC refresh settings ----------

  datatype Tac = Tac(period: Bits -> nat, maxAge: Bits -> nat)

  ghost function TacPair(t: Tac, v: Values, a: Addr): (nat, nat)
    requires Global(a.asic) in v && a in v
  {
    (t.period(v[Global(a.asic)]), t.maxAge(v[a]))
  }

  /** `tac` are the settings of the channels at `at`. */
  ghost predicate TacExactly(t: Tac, v: Values, at: set<Addr>, tac: set<(nat, nat)>) {
    && (forall a :: a in at ==> Global(a.asic) in v && a in v)
    && (forall p :: p in tac <==> exists a :: a in at && Global(a.asic) in v && a in v && p == TacPair(t, v, a))
  }

  function LastChannels(asics: set<AsicId>): set<Addr> { set k | k in asics :: Channel(k, CHANNELS - 1) }

  function AllChannels(asics: set<AsicId>): set<Addr> {
    set k, n | k in asics && 0 <= n < CHANNELS :: Channel(k, n)
  }

  lemma NoTac(t: Tac, v: Values)
    ensures TacExactly(t, v, {}, {})
  {
  }

  lemma OneMoreTac(t: Tac, v: Values, at: set<Addr>, tac: set<(nat, nat)>, a: Addr, v': Values)
    requires TacExactly(t, v, at, tac) && Global(a.asic) in v' && a in v'
    requires forall b :: b in at ==>
      Global(b.asic) in v' && b in v' && v'[Global(b.asic)] == v[Global(b.asic)] && v'[b] == v[b]
    ensures TacExactly(t, v', at + {a}, tac + {TacPair(t, v', a)})
  {
  }

  lemma JoinedTac(t: Tac, v: Values, asics: set<AsicId>, tac: set<(nat, nat)>, k: AsicId, w: Values)
    requires Covers(v, asics) && Covers(w, {k}) && k !in asics && TacExactly(t, v, LastChannels(asics), tac)
    ensures Global(k) in w && Channel(k, CHANNELS - 1) in w
    ensures TacExactly(t, v + w, LastChannels(asics + {k}), tac + {TacPair(t, w, Channel(k, CHANNELS - 1))})
  {
    var a := Channel(k, CHANNELS - 1);
    assert IsAddress(a, {k}) && IsAddress(Global(k), {k});
    OneMoreAsic(asics, k);
    OneMoreTac(t, v, LastChannels(asics), tac, a, v + w);
  }

  /** The summary of the last channels is the one of all channels if and only if every channel has the settings of some
      last channel. */
  lemma LastChannelsSufficeExactly(t: Tac, v: Values, asics: set<AsicId>, tac: set<(nat, nat)>)
    requires Covers(v, asics) && TacExactly(t, v, LastChannels(asics), tac)
    ensures TacExactly(t, v, AllChannels(asics), tac) <==>
      forall a :: a in AllChannels(asics) ==> Global(a.asic) in v && a in v && TacPair(t, v, a) in tac
  {
    forall a | a in AllChannels(asics) ensures Global(a.asic) in v && a in v {
      assert IsAddress(a, asics) && IsAddress(Global(a.asic), asics);
    }
    assert forall a :: a in LastChannels(asics) ==> a in AllChannels(asics);
  }

  lemma OneMoreAsic(asics: set<AsicId>, k: AsicId)
    ensures LastChannels(asics + {k}) == LastChannels(asics) + {Channel(k, CHANNELS - 1)}
  {
  }

  // ---------- What a series of writes has done so far ----------

  datatype Before = Before(contents: Values, registers: Values)

  /** The registers in `done` carry the wanted values, in the cache and in the hardware, or, unless access is forced,
      were left alone because the cache had the wanted value; all others are as before. About the register `bad`,
      at which a write failed, the hardware may say anything. */
  ghost predicate SetSoFar(
    done: set<Addr>, bad: Option<Addr>, force: bool, was: Before, contents: Values, registers: Values, wanted: Values)
  {
    && (forall a :: a in contents <==> a in was.contents) && (forall a :: a in registers <==> a in was.registers)
    && (forall a :: a in done ==> Some(a) != bad && a in contents && a in registers && a in wanted)
    && (forall a :: a in contents ==> contents[a] == if a in done then wanted[a] else was.contents[a])
    && (forall a :: a in registers && Some(a) != bad ==>
          (registers[a] == was.registers[a] && (a in done ==> !force && wanted[a] == was.contents[a]))
          || (a in done && registers[a] == wanted[a]))
  }

  lemma SetOne(done: set<Addr>, force: bool, was: Before, v: Values, r: Values, wanted: Values, a: Addr,
               v': Values, r': Values)
    requires SetSoFar(done, None, force, was, v, r, wanted) && a !in done && a in v && a in r' && a in wanted
    requires v' == v[a := wanted[a]]
    requires SameBut(a, r, r') && (r'[a] == wanted[a] || (!force && r' == r && wanted[a] == v[a]))
    ensures SetSoFar(done + {a}, None, force, was, v', r', wanted)
  {
  }

  lemma FailOne(done: set<Addr>, force: bool, was: Before, v: Values, r: Values, wanted: Values, a: Addr, r': Values)
    requires SetSoFar(done, None, force, was, v, r, wanted) && a !in done
    requires SameBut(a, r, r')
    ensures SetSoFar(done, Some(a), force, was, v, r', wanted)
  {
  }

  lemma NotDoneYet(done: set<Addr>, force: bool, was: Before, v: Values, r: Values, wanted: Values, a: Addr)
    requires SetSoFar(done, None, force, was, v, r, wanted) && a !in done && a in v
    ensures a in was.contents && v[a] == was.contents[a]
  {
  }

  /** The cache says what is in the register, as far as it says anything. */
  ghost predicate Agrees(v: Values, r: Values, a: Addr) {
    a in v && a in r && v[a] <= r[a]
  }

  /** Hardware and cache are where they were wanted: always when access was forced, and otherwise if they agreed
      before and the wanted values are complete. */
  ghost predicate Coherent(force: bool, was: Before, v: Values, r: Values, wanted: Values, asics: set<AsicId>) {
    forall a :: IsAddress(a, asics) ==>
      && a in v && a in r && a in wanted && v[a] == wanted[a]
      && (force || (Agrees(was.contents, was.registers, a) && |wanted[a]| == |r[a]|) ==> r[a] == wanted[a])
  }

  lemma AllSet(ready: set<Addr>, force: bool, was: Before, v: Values, r: Values, wanted: Values, asics: set<AsicId>)
    requires SetSoFar(ready, None, force, was, v, r, wanted) && AllOf(ready, asics)
    ensures Coherent(force, was, v, r, wanted, asics)
  {
  }

  /** Whatever happened, agreement is lost at most at the register whose writing failed. */
  lemma AgreementIsKept(ready: set<Addr>, bad: Option<Addr>, force: bool, was: Before, v: Values, r: Values,
                        wanted: Values)
    requires SetSoFar(ready, bad, force, was, v, r, wanted)
    ensures forall a :: Agrees(was.contents, was.registers, a) && Some(a) != bad ==> Agrees(v, r, a)
  {
  }

  /** The field of a register that the TAC refresh settings take in. */
  function TacField(t: Tac, a: Addr, bits: Bits): nat {
    if a.Global? then t.period(bits) else t.maxAge(bits)
  }

  ghost predicate Touched(t: Tac, done: set<Addr>, force: bool, v: Values, wanted: Values) {
    exists a :: a in done && a in v && a in wanted && (force || TacField(t, a, v[a]) != TacField(t, a, wanted[a]))
  }

  /** A field that the TAC refresh settings take in is to change in some register. */
  ghost predicate FieldChanged(t: Tac, asics: set<AsicId>, v: Values, wanted: Values) {
    exists a :: IsAddress(a, asics) && a in v && a in wanted && TacField(t, a, v[a]) != TacField(t, a, wanted[a])
  }

  /** If no field was to change, a summary is exact afterwards if and only if it was before, however far the writing
      got. */
  lemma SummaryIsKept(t: Tac, ready: set<Addr>, bad: Option<Addr>, force: bool, was: Before, v: Values, r: Values,
                      wanted: Values, asics: set<AsicId>, tac: set<(nat, nat)>)
    requires SetSoFar(ready, bad, force, was, v, r, wanted) && !FieldChanged(t, asics, was.contents, wanted)
    ensures TacExactly(t, v, AllChannels(asics), tac) <==> TacExactly(t, was.contents, AllChannels(asics), tac)
  {
    forall a | a in AllChannels(asics) && Global(a.asic) in v && a in v
      ensures TacPair(t, v, a) == TacPair(t, was.contents, a)
    {
      FieldIsKept(t, ready, bad, force, was, v, r, wanted, asics, a);
      FieldIsKept(t, ready, bad, force, was, v, r, wanted, asics, Global(a.asic));
    }
  }

  lemma FieldIsKept(t: Tac, ready: set<Addr>, bad: Option<Addr>, force: bool, was: Before, v: Values, r: Values,
                    wanted: Values, asics: set<AsicId>, a: Addr)
    requires SetSoFar(ready, bad, force, was, v, r, wanted) && !FieldChanged(t, asics, was.contents, wanted)
    requires IsAddress(a, asics) && a in v
    ensures a in was.contents && TacField(t, a, v[a]) == TacField(t, a, was.contents[a])
  {
    if a in ready { assert a in wanted && v[a] == wanted[a]; }
  }

  lemma ChangeTouches(t: Tac, ready: set<Addr>, asics: set<AsicId>, force: bool, v: Values, wanted: Values)
    requires AllOf(ready, asics) && FieldChanged(t, asics, v, wanted)
    ensures Touched(t, ready, force, v, wanted)
  {
  }

  lemma TouchedMore(t: Tac, done: set<Addr>, a: Addr, force: bool, v: Values, wanted: Values)
    ensures Touched(t, done + {a}, force, v, wanted) <==>
      Touched(t, done, force, v, wanted) || Touched(t, {a}, force, v, wanted)
  {
  }

  lemma TouchedBoth(t: Tac, done: set<Addr>, more: set<Addr>, force: bool, v: Values, wanted: Values)
    ensures Touched(t, done + more, force, v, wanted) <==>
      Touched(t, done, force, v, wanted) || Touched(t, more, force, v, wanted)
  {
  }

  lemma NotTouched(t: Tac, force: bool, v: Values, wanted: Values)
    ensures !Touched(t, {}, force, v, wanted)
  {
  }

  lemma NothingSet(was: Before, force: bool, wanted: Values)
    ensures SetSoFar({}, None, force, was, was.contents, was.registers, wanted)
  {
  }

  lemma Keyed(m: Configs, v: Values, repr: set<object>, a: Addr)
    requires Carries(m, v, repr)
    ensures a in m <==> a in v
  {
  }

  /** What covers one register of an ASIC covers all of them. */
  ghost predicate WholeAsics(v: Values) {
    forall a, b :: a in v && IsAddress(b, {a.asic}) ==> b in v
  }

  lemma WholeAsic(v: Values, k: AsicId)
    requires WholeAsics(v) && Global(k) in v
    ensures forall b :: IsAddress(b, {k}) ==> b in v
  {
  }

  /** `done` are all registers of some ASICs. */
  ghost predicate AllOf(done: set<Addr>, asics: set<AsicId>) { forall a :: a in done <==> IsAddress(a, asics) }

  lemma NoneOf()
    ensures AllOf({}, {})
  {
  }

  lemma OneAsicMore(done: set<Addr>, asics: set<AsicId>, k: AsicId)
    requires AllOf(done, asics)
    ensures AllOf(done + AddressesOf(k), asics + {k})
    ensures k !in asics ==> forall a :: a in done ==> a.asic != k
  {
  }

  function AddressesOf(k: AsicId): set<Addr> {
    {Global(k)} + set n | 0 <= n < CHANNELS :: Channel(k, n)
  }

  // ---------- A summary that went stale ----------

  /** A failed call and a successful second try with the same configuration, as the contracts below describe them:
      what was there at first, after the failure and in the end, and the summary, which neither call rebuilds. */
  ghost predicate FailedThenRetried(
    t: Tac, asics: set<AsicId>, first: Before, failed: Before, last: Before, wanted: Values, bad: Addr,
    done: set<Addr>, ready: set<Addr>)
  {
    && Covers(first.contents, asics) && bad !in done && AllOf(ready, asics)
    && SetSoFar(done, Some(bad), false, first, failed.contents, failed.registers, wanted)
    && SetSoFar(ready, None, false, failed, last.contents, last.registers, wanted)
    && !FieldChanged(t, asics, failed.contents, wanted)
  }

  /** Then the summary is exact in the end if and only if it still is after the failure. */
  lemma RetryKeepsStaleness(
    t: Tac, asics: set<AsicId>, first: Before, failed: Before, last: Before, wanted: Values, bad: Addr,
    done: set<Addr>, ready: set<Addr>, tac: set<(nat, nat)>)
    requires FailedThenRetried(t, asics, first, failed, last, wanted, bad, done, ready)
    ensures TacExactly(t, last.contents, AllChannels(asics), tac) <==>
      TacExactly(t, failed.contents, AllChannels(asics), tac)
  {
    SummaryIsKept(t, ready, None, false, failed, last.contents, last.registers, wanted, asics, tac);
  }

  /** `asics` are the ASICs that the cache covers, `contents` is what it says about their registers, and `repr` holds
      its objects. */
  class Connection {
    const hardware: Hardware
    const active: seq<AsicId>
    const tac: Tac
    var asicConfigCache: Option<Configs>
    var tacRefresh: Option<set<(nat, nat)>>
    ghost var asics: set<AsicId>
    ghost var contents: Values
    ghost var repr: set<object>

    constructor (hardware: Hardware, active: seq<AsicId>, tac: Tac)
      requires hardware.Valid(set k | k in active)
      requires forall i, j :: 0 <= i < j < |active| ==> active[i] != active[j]
      ensures Valid() && asicConfigCache == None
      ensures this.hardware == hardware && this.active == active && this.tac == tac
    {
      this.hardware, this.active, this.tac := hardware, active, tac;
      asicConfigCache, tacRefresh, asics, contents, repr := None, None, {}, map[], {};
    }

    ghost function Asics(): set<AsicId> { set k | k in active }

    ghost function Cache(): Configs
      reads this
    {
      if asicConfigCache.Some? then asicConfigCache.value else map[]
    }

    ghost predicate CacheOk()
      reads this, repr
    {
      && (forall i, j :: 0 <= i < j < |active| ==> active[i] != active[j])
      && (asicConfigCache.Some? <==> tacRefresh.Some?)
      && asics <= Asics() && Covers(contents, asics)
      && this !in repr && Carries(Cache(), contents, repr)
    }

    ghost predicate Valid()
      reads this, hardware, repr
    {
      hardware.Valid(Asics()) && hardware !in repr && CacheOk()
    }

    lemma InCache(a: Addr)
      requires CacheOk()
      ensures a in contents <==> IsAddress(a, asics)
      ensures a in contents ==> asicConfigCache.Some? && a in Cache() && Cache()[a].bits == contents[a]
      ensures a in contents ==> IsAddress(a, Asics())
      ensures a in contents ==> Cache()[a] in repr
    {
    }

    lemma InHardware(a: Addr)
      requires hardware.Valid(Asics()) && IsAddress(a, Asics())
      ensures a in hardware.registers
    {
    }

    // ---------- Reading the configuration ----------

    /** What a read may return: the register, or a first part of it of whole bytes but for the last. */
    ghost predicate Read(a: Addr, bits: Bits)
      reads hardware
    {
      a in hardware.registers && bits <= hardware.registers[a] && |bits| >= DataLength(a) / 8 * 8
    }

    method ReadRegister(a: Addr) returns (r: Result<Register>)
      requires hardware.Valid(Asics()) && IsAddress(a, Asics())
      modifies hardware
      ensures hardware.Valid(Asics()) && hardware.registers == old(hardware.registers)
      ensures r.Ok? ==> fresh(r.value) && Read(a, r.value.bits)
      ensures hardware.faults >= old(hardware.faults)
      ensures r.Err? ==> hardware.faults > old(hardware.faults) && r.error != KeyError && r.error != AssertionFailed
    {
      var bits, nTry := hardware.DoAsicCommand(a, None, Asics());
      if bits.Err? { return Err(bits.error); }
      var register := new Register(bits.value);
      r := Ok(register);
    }

    /** All registers of one ASIC, with their values. */
    method ReadAsic(k: AsicId) returns (r: Result<Configs>, ghost v: Values, ghost objects: set<object>)
      requires hardware.Valid(Asics()) && k in active
      modifies hardware
      ensures hardware.Valid(Asics()) && hardware.registers == old(hardware.registers)
      ensures fresh(objects)
      ensures r.Ok? ==> Covers(v, {k}) && Carries(r.value, v, objects) && forall a :: a in v ==> Read(a, v[a])
      ensures hardware.faults >= old(hardware.faults)
      ensures r.Err? ==> hardware.faults > old(hardware.faults) && r.error != KeyError && r.error != AssertionFailed
    {
      hide Hardware.Valid, Carries;
      v, objects := map[], {};
      var g := ReadRegister(Global(k));
      if g.Err? { r := Err(g.error); return; }
      var ac: Configs := map[];
      NothingCarries();
      AddedCarries(ac, v, objects, Global(k), g.value);
      ac, v, objects := ac[Global(k) := g.value], v[Global(k) := g.value.bits], objects + {g.value};
      for n := 0 to CHANNELS
        invariant hardware.Valid(Asics()) && hardware.registers == old(hardware.registers)
        invariant hardware.faults >= old(hardware.faults)
        invariant forall a :: a in v <==> a == Global(k) || (a.Channel? && a.asic == k && a.n < n)
        invariant fresh(objects) && Carries(ac, v, objects)
        invariant forall a :: a in v ==> Read(a, v[a])
      {
        var c := ReadRegister(Channel(k, n));
        if c.Err? { r := Err(c.error); return; }
        AddedCarries(ac, v, objects, Channel(k, n), c.value);
        ac, v := ac[Channel(k, n) := c.value], v[Channel(k, n) := c.value.bits];
        objects := objects + {c.value};
      }
      r := Ok(ac);
    }

    /** The cache was read from the hardware, ASIC by ASIC. */
    ghost predicate Built()
      reads this, hardware
    {
      && asicConfigCache.Some? && tacRefresh.Some? && Covers(contents, asics)
      && (forall a :: a in contents ==> Read(a, contents[a]))
      && TacExactly(tac, contents, LastChannels(asics), tacRefresh.value)
    }

    method AddAsic(k: AsicId) returns (error: Option<Error>)
      requires Valid() && Built() && k in active && k !in asics
      modifies this, hardware
      ensures Valid() && Built() && hardware.registers == old(hardware.registers)
      ensures asics == old(asics) + (if error == None then {k} else {})
      ensures hardware.faults >= old(hardware.faults) && (error != None ==> hardware.faults > old(hardware.faults))
      ensures error != Some(KeyError) && error != Some(AssertionFailed)
      ensures fresh(repr - old(repr))
    {
      hide TacExactly, CacheOk, Carries, Covers;
      var ac, v, objects := ReadAsic(k);
      if ac.Err? { return Some(ac.error); }
      Join(k, ac.value, v, objects);
      error := None;
    }

    method Join(k: AsicId, ac: Configs, ghost v: Values, ghost objects: set<object>)
      requires CacheOk() && k in active && k !in asics && this !in objects && asicConfigCache.Some?
      requires Covers(v, {k}) && Carries(ac, v, objects) && Covers(contents, asics)
      requires TacExactly(tac, contents, LastChannels(asics), tacRefresh.value)
      modifies this
      ensures CacheOk() && asicConfigCache.Some? && tacRefresh.Some? && asics == old(asics) + {k}
      ensures contents == old(contents) + v && repr == old(repr) + objects && Covers(contents, asics)
      ensures TacExactly(tac, contents, LastChannels(asics), tacRefresh.value)
    {
      hide TacExactly, Covers, Carries, LastChannels;
      JoinedCover(contents, asics, v, k);
      JoinedCarries(Cache(), contents, repr, ac, v, objects);
      JoinedTac(tac, contents, asics, tacRefresh.value, k, v);
      CarriesAt(ac, v, objects, Global(k));
      CarriesAt(ac, v, objects, Channel(k, CHANNELS - 1));
      var pair := (tac.period(ac[Global(k)].bits), tac.maxAge(ac[Channel(k, CHANNELS - 1)].bits));
      asicConfigCache, tacRefresh := Some(asicConfigCache.value + ac), Some(tacRefresh.value + {pair});
      asics, contents, repr := asics + {k}, contents + v, repr + objects;
    }

    ghost function FirstAsics(n: nat): set<AsicId>
      requires n <= |active|
    {
      set k | k in active[..n]
    }

    lemma NoAsics()
      ensures FirstAsics(0) == {} && FirstAsics(|active|) == Asics()
    {
      assert active[..|active|] == active;
    }

    lemma NextAsic(i: nat)
      requires i < |active| && forall i, j :: 0 <= i < j < |active| ==> active[i] != active[j]
      ensures FirstAsics(i + 1) == FirstAsics(i) + {active[i]} && active[i] !in FirstAsics(i) && active[i] in Asics()
    {
      assert active[..i + 1] == active[..i] + [active[i]];
    }

    /** Builds the cache from the hardware. When that fails half-way, the part built so far stays. */
    method Build() returns (error: Option<Error>)
      requires Valid()
      modifies this, hardware
      ensures Valid() && Built() && hardware.registers == old(hardware.registers)
      ensures fresh(repr)
      ensures error == None ==> asics == Asics()
      ensures hardware.faults >= old(hardware.faults) && (error != None ==> hardware.faults > old(hardware.faults))
      ensures error != Some(KeyError) && error != Some(AssertionFailed)
    {
      asicConfigCache, tacRefresh, asics, contents, repr := Some(map[]), Some({}), {}, map[], {};
      NoTac(tac, contents);
      assert LastChannels({}) == {};
      NoAsics();
      assert Built();
      hide FirstAsics, TacExactly;
      for i := 0 to |active|
        invariant Valid() && Built() && hardware.registers == old(hardware.registers)
        invariant fresh(repr) && hardware.faults >= old(hardware.faults)
        invariant asics == FirstAsics(i)
      {
        NextAsic(i);
        error := AddAsic(active[i]);
        if error != None { return; }
      }
      error := None;
    }

    // ---------- Copies ----------

    method DeepCopy(m: Configs, ghost v: Values, ghost theirs: set<object>)
      returns (r: Configs, ghost copies: set<object>)
      requires Carries(m, v, theirs)
      ensures Carries(r, v, copies) && fresh(copies)
    {
      r, copies := map[], {};
      var left := m.Keys;
      while left != {}
        invariant left <= m.Keys && fresh(copies)
        invariant forall a :: a in r <==> a in m && a !in left
        invariant forall a :: a in r ==> r[a] in copies && r[a].bits == v[a]
      {
        var a :| a in left;
        var copy := new Register(m[a].bits);
        r, left := r[a := copy], left - {a};
        copies := copies + {copy};
      }
    }

    /** The caller gets copies: none of their objects is one of the cache. */
    method GetAsicsConfig(forceAccess: bool) returns (r: Result<Configs>, ghost copies: set<object>)
      requires Valid()
      modifies this, hardware
      ensures Valid() && hardware.registers == old(hardware.registers)
      ensures r.Ok? ==> Carries(r.value, contents, copies) && fresh(copies) && copies !! repr
      ensures forceAccess || old(asicConfigCache) == None ==> Built() && (r.Ok? ==> asics == Asics()) && fresh(repr)
      ensures !(forceAccess || old(asicConfigCache) == None) ==> r.Ok? && unchanged(this)
      ensures hardware.faults >= old(hardware.faults)
      ensures r.Err? ==> hardware.faults > old(hardware.faults) && r.error != KeyError && r.error != AssertionFailed
    {
      copies := {};
      if forceAccess || asicConfigCache == None {
        var error := Build();
        if error.Some? { r := Err(error.value); return; }
      }
      hide TacExactly;
      var m;
      m, copies := DeepCopy(asicConfigCache.value, contents, repr);
      r := Ok(m);
    }

    // ---------- Setting the configuration ----------

    /** The configuration has a register of the wrong length. */
    ghost predicate WrongLength(wanted: Values) { exists a :: a in wanted && |wanted[a]| != DataLength(a) }

    /** An active ASIC is not in the cache or not in the configuration. */
    ghost predicate Lacks(wanted: Values)
      reads this
    {
      exists k :: k in active && (k !in asics || Global(k) !in wanted)
    }

    /** Every error has its cause: the caller's configuration, or a fault of the hardware in the meantime. */
    ghost predicate Justified(error: Option<Error>, faults: nat, wanted: Values)
      reads this, hardware
    {
      hardware.faults >= faults &&
      match error
      case None => true
      case Some(KeyError) => Lacks(wanted)
      case Some(AssertionFailed) => WrongLength(wanted)
      case Some(_) => hardware.faults > faults
    }

    /** Writes one register, unless the cache has its value already. */
    method SetRegister(a: Addr, newRegister: Register, force: bool) returns (error: Option<Error>, updated: bool)
      requires Valid() && a in contents && newRegister !in repr
      modifies this`asicConfigCache, this`contents, this`repr, hardware
      ensures Valid() && asicConfigCache.Some? && fresh(repr - old(repr))
      ensures SameBut(a, old(hardware.registers), hardware.registers) && a in hardware.registers
      ensures error == None ==> contents == old(contents)[a := newRegister.bits]
      ensures error == None && hardware.registers[a] != newRegister.bits ==>
        !force && hardware.registers == old(hardware.registers) && newRegister.bits == old(contents)[a]
      ensures error != None ==> contents == old(contents) && error != Some(KeyError)
      ensures error == Some(AssertionFailed) ==> |newRegister.bits| != DataLength(a)
      ensures hardware.faults >= old(hardware.faults)
      ensures error != None && error != Some(AssertionFailed) ==> hardware.faults > old(hardware.faults)
      ensures updated <==>
        error == None && (force || TacField(tac, a, old(contents)[a]) != TacField(tac, a, newRegister.bits))
    {
      hide TacField, SameBut, CacheOk, Hardware.Valid;
      InCache(a);
      var cachedBits, newBits := asicConfigCache.value[a].bits, newRegister.bits;
      updated := false;
      if force || newBits != cachedBits {
        var r, nTry := hardware.DoAsicCommand(a, Some(newBits), Asics());
        InHardware(a);
        if r.Err? { error := Some(r.error); return; }
        if force || TacField(tac, a, cachedBits) != TacField(tac, a, newBits) { updated := true; }
        StoreCopy(a, newBits);
      } else {
        SameRegisters(a, hardware.registers);
      }
      InHardware(a);
      error := None;
    }

    method StoreCopy(a: Addr, bits: Bits)
      requires CacheOk() && a in contents
      modifies this`asicConfigCache, this`contents, this`repr
      ensures CacheOk() && asicConfigCache.Some? && contents == old(contents)[a := bits]
      ensures fresh(repr - old(repr)) && forall o :: o in repr - old(repr) ==> o is Register
    {
      InCache(a);
      var copy := new Register(bits);
      ReplacedCarries(Cache(), contents, repr, asics, a, copy);
      hide Carries, Covers;
      asicConfigCache, contents := Some(asicConfigCache.value[a := copy]), contents[a := bits];
      repr := repr + {copy};
    }

    // ---------- Setting all of it ----------

    method SetNext(a: Addr, newRegister: Register, force: bool, ghost was: Before, ghost wanted: Values,
                   ghost done: set<Addr>)
      returns (error: Option<Error>, updated: bool)
      requires Valid() && newRegister !in repr && a in contents && a !in done
      requires a in wanted && newRegister.bits == wanted[a]
      requires SetSoFar(done, None, force, was, contents, hardware.registers, wanted)
      modifies this`asicConfigCache, this`contents, this`repr, hardware
      ensures Valid() && asicConfigCache.Some? && fresh(repr - old(repr))
      ensures error == None ==> SetSoFar(done + {a}, None, force, was, contents, hardware.registers, wanted)
      ensures error != None ==> SetSoFar(done, Some(a), force, was, contents, hardware.registers, wanted)
      ensures error != Some(KeyError) && Justified(error, old(hardware.faults), wanted)
      ensures updated <==> error == None && Touched(tac, {a}, force, was.contents, wanted)
    {
      hide CacheOk, Hardware.Valid, SameBut, TacField;
      NotDoneYet(done, force, was, contents, hardware.registers, wanted, a);
      ghost var v, r := contents, hardware.registers;
      error, updated := SetRegister(a, newRegister, force);
      if error == None {
        SetOne(done, force, was, v, r, wanted, a, contents, hardware.registers);
      } else {
        FailOne(done, force, was, v, r, wanted, a, hardware.registers);
      }
      hide SetSoFar;
    }

    /** Goes on to the registers of ASIC k. */
    method SetAsic(k: AsicId, config: Configs, ghost theirs: set<object>, force: bool, ghost was: Before,
                   ghost wanted: Values, ghost done: set<Addr>)
      returns (error: Option<Error>, updated: bool, ghost bad: Option<Addr>, ghost ready: set<Addr>)
      requires Valid() && k in asics && theirs !! repr
      requires Carries(config, wanted, theirs) && forall a :: IsAddress(a, {k}) ==> a in wanted
      requires SetSoFar(done, None, force, was, contents, hardware.registers, wanted)
      requires forall a :: a in done ==> a.asic != k
      modifies this`asicConfigCache, this`contents, this`repr, hardware
      ensures Valid() && asicConfigCache.Some? && fresh(repr - old(repr)) && theirs !! repr
      ensures SetSoFar(ready, bad, force, was, contents, hardware.registers, wanted) && (error == None ==> bad == None)
      ensures error != Some(KeyError) && Justified(error, old(hardware.faults), wanted)
      ensures error == None ==> ready == done + AddressesOf(k)
      ensures error == None ==> (updated <==> Touched(tac, AddressesOf(k), force, was.contents, wanted))
    {
      hide CacheOk, SetSoFar, Hardware.Valid, Touched;
      ready, bad := done, None;
      InCache(Global(k));
      error, updated := SetNext(Global(k), config[Global(k)], force, was, wanted, ready);
      if error != None { bad := Some(Global(k)); return; }
      ready := ready + {Global(k)};
      ghost var here: set<Addr> := {Global(k)};
      for n := 0 to CHANNELS
        invariant Valid() && asicConfigCache.Some? && fresh(repr - old(repr)) && theirs !! repr
        invariant here == {Global(k)} + set j | 0 <= j < n :: Channel(k, j)
        invariant ready == done + here
        invariant SetSoFar(ready, None, force, was, contents, hardware.registers, wanted)
        invariant updated <==> Touched(tac, here, force, was.contents, wanted)
        invariant hardware.faults >= old(hardware.faults)
      {
        var a := Channel(k, n);
        var more;
        InCache(a);
        error, more := SetNext(a, config[a], force, was, wanted, ready);
        if error != None { bad := Some(a); return; }
        TouchedMore(tac, here, a, force, was.contents, wanted);
        ready, here := ready + {a}, here + {a};
        updated := updated || more;
      }
      error := None;
    }

    /** Goes through the active ASICs; one that the cache or the configuration lacks is a KeyError. */
    method SetActive(config: Configs, ghost theirs: set<object>, force: bool, ghost wanted: Values)
      returns (error: Option<Error>, updated: bool, ghost bad: Option<Addr>, ghost ready: set<Addr>)
      requires Valid() && asicConfigCache.Some? && theirs !! repr && Carries(config, wanted, theirs)
      requires WholeAsics(wanted)
      modifies this`asicConfigCache, this`contents, this`repr, hardware
      ensures Valid() && asicConfigCache.Some? && fresh(repr - old(repr)) && theirs !! repr
      ensures SetSoFar(
        ready, bad, force, Before(old(contents), old(hardware.registers)), contents, hardware.registers, wanted)
      ensures error == None || error == Some(KeyError) ==> bad == None
      ensures Justified(error, old(hardware.faults), wanted)
      ensures error == None ==> asics == Asics() && AllOf(ready, Asics())
      ensures error == None ==> (updated <==> Touched(tac, ready, force, old(contents), wanted))
    {
      ghost var was := Before(contents, hardware.registers);
      hide CacheOk, SetSoFar, Hardware.Valid, Touched, FirstAsics, AllOf, Carries, WholeAsics, Asics, FirstCached;
      NothingSet(was, force, wanted);
      NotTouched(tac, force, contents, wanted);
      NoneCached();
      ready, bad, updated := {}, None, false;
      NoneOf();
      for i := 0 to |active|
        invariant Valid() && asicConfigCache.Some? && fresh(repr - old(repr)) && theirs !! repr
        invariant SetSoFar(ready, None, force, was, contents, hardware.registers, wanted) && bad == None
        invariant AllOf(ready, FirstAsics(i)) && FirstCached(i)
        invariant updated <==> Touched(tac, ready, force, was.contents, wanted)
        invariant hardware.faults >= old(hardware.faults)
      {
        Next(i);
        error, updated, bad, ready :=
          TryAsic(active[i], config, theirs, force, was, wanted, ready, FirstAsics(i), updated);
        if error != None { return; }
      }
      AllCached();
      error := None;
    }

    method TryAsic(k: AsicId, config: Configs, ghost theirs: set<object>, force: bool, ghost was: Before,
                   ghost wanted: Values, ghost done: set<Addr>, ghost first: set<AsicId>, before: bool)
      returns (error: Option<Error>, updated: bool, ghost bad: Option<Addr>, ghost ready: set<Addr>)
      requires Valid() && asicConfigCache.Some? && theirs !! repr && Carries(config, wanted, theirs)
      requires WholeAsics(wanted)
      requires SetSoFar(done, None, force, was, contents, hardware.registers, wanted)
      requires AllOf(done, first) && k in active && k !in first
      requires before <==> Touched(tac, done, force, was.contents, wanted)
      modifies this`asicConfigCache, this`contents, this`repr, hardware
      ensures Valid() && asicConfigCache.Some? && fresh(repr - old(repr)) && theirs !! repr
      ensures SetSoFar(ready, bad, force, was, contents, hardware.registers, wanted)
      ensures error == None || error == Some(KeyError) ==> bad == None
      ensures Justified(error, old(hardware.faults), wanted)
      ensures error == None ==> k in asics && AllOf(ready, first + {k})
      ensures error == None ==> (updated <==> Touched(tac, ready, force, was.contents, wanted))
    {
      hide CacheOk, SetSoFar, Hardware.Valid, Touched, AddressesOf, AllOf, Carries, WholeAsics;
      updated, bad, ready := before, None, done;
      Keyed(config, wanted, theirs, Global(k));
      KeyedCache(Global(k));
      if Global(k) !in asicConfigCache.value || Global(k) !in config { error := Some(KeyError); return; }
      OneAsicMore(done, first, k);
      WholeAsic(wanted, k);
      error, updated, bad, ready := SetAsic(k, config, theirs, force, was, wanted, done);
      TouchedBoth(tac, done, AddressesOf(k), force, was.contents, wanted);
      updated := updated || before;
    }

    lemma KeyedCache(a: Addr)
      requires CacheOk()
      ensures a in Cache() <==> IsAddress(a, asics)
    {
    }

    lemma NoneCached()
      ensures FirstAsics(0) == {} && FirstCached(0)
    {
    }

    ghost predicate FirstCached(n: nat)
      requires n <= |active|
      reads this
    {
      FirstAsics(n) <= asics
    }

    lemma Next(i: nat)
      requires i < |active| && CacheOk() && FirstCached(i)
      ensures FirstAsics(i + 1) == FirstAsics(i) + {active[i]} && active[i] !in FirstAsics(i)
      ensures active[i] in asics ==> FirstCached(i + 1)
    {
      NextAsic(i);
    }

    lemma AllCached()
      requires CacheOk() && FirstCached(|active|)
      ensures asics == Asics() && FirstAsics(|active|) == Asics()
    {
      NoAsics();
    }

    method RebuildTac()
      requires CacheOk() && asicConfigCache.Some? && asics == Asics()
      modifies this`tacRefresh
      ensures CacheOk() && tacRefresh.Some? && TacExactly(tac, contents, AllChannels(Asics()), tacRefresh.value)
    {
      hide TacExactly, CacheOk, FirstAsics;
      var settings: set<(nat, nat)> := {};
      ghost var at: set<Addr> := {};
      NoTac(tac, contents);
      NoAsics();
      assert AllChannels({}) == {};
      for i := 0 to |active|
        invariant CacheOk() && asicConfigCache.Some?
        invariant at == AllChannels(FirstAsics(i)) && TacExactly(tac, contents, at, settings)
      {
        var k := active[i];
        Distinct();
        NextAsic(i);
        for n := 0 to CHANNELS
          invariant CacheOk() && asicConfigCache.Some?
          invariant at == AllChannels(FirstAsics(i)) + set j | 0 <= j < n :: Channel(k, j)
          invariant TacExactly(tac, contents, at, settings)
        {
          var a := Channel(k, n);
          InCache(Global(k));
          InCache(a);
          var pair := (tac.period(asicConfigCache.value[Global(k)].bits), tac.maxAge(asicConfigCache.value[a].bits));
          InOneCache(at, settings, a);
          settings := settings + {pair};
          at := at + {a};
        }
        assert at == AllChannels(FirstAsics(i) + {k});
      }
      SetSettings(settings);
    }

    method SetSettings(settings: set<(nat, nat)>)
      requires CacheOk() && asicConfigCache.Some?
      modifies this`tacRefresh
      ensures CacheOk() && tacRefresh == Some(settings)
    {
      tacRefresh := Some(settings);
    }

    lemma Distinct()
      requires CacheOk()
      ensures forall i, j :: 0 <= i < j < |active| ==> active[i] != active[j]
    {
    }

    lemma InOneCache(at: set<Addr>, settings: set<(nat, nat)>, a: Addr)
      requires TacExactly(tac, contents, at, settings) && Global(a.asic) in contents && a in contents
      ensures TacExactly(tac, contents, at + {a}, settings + {TacPair(tac, contents, a)})
    {
      OneMoreTac(tac, contents, at, settings, a, contents);
    }

    /** With a cache at hand: writes what differs, or everything, and keeps the settings summary up to date. */
    method UpdateAsics(config: Configs, ghost theirs: set<object>, force: bool, ghost wanted: Values)
      returns (error: Option<Error>, ghost bad: Option<Addr>, ghost ready: set<Addr>)
      requires Valid() && asicConfigCache.Some? && theirs !! repr
      requires Carries(config, wanted, theirs) && WholeAsics(wanted)
      modifies this`asicConfigCache, this`tacRefresh, this`contents, this`repr, hardware
      ensures Valid() && asicConfigCache.Some? && fresh(repr - old(repr)) && theirs !! repr
      ensures SetSoFar(
        ready, bad, force, Before(old(contents), old(hardware.registers)), contents, hardware.registers, wanted)
      ensures error == None || error == Some(KeyError) ==> bad == None
      ensures Justified(error, old(hardware.faults), wanted)
      ensures error == None ==> asics == Asics() && AllOf(ready, Asics())
      ensures error == None && Touched(tac, ready, force, old(contents), wanted) ==>
        tacRefresh.Some? && TacExactly(tac, contents, AllChannels(Asics()), tacRefresh.value)
      ensures error != None || !Touched(tac, ready, force, old(contents), wanted) ==> tacRefresh == old(tacRefresh)
    {
      hide CacheOk, SetSoFar, Hardware.Valid, Touched, AllOf, Carries, WholeAsics, TacExactly, AllChannels;
      var updated;
      error, updated, bad, ready := SetActive(config, theirs, force, wanted);
      if error == None && updated { RebuildTac(); }
    }

    /** The summary takes in the settings of every channel of every active ASIC, and nothing else. */
    ghost predicate Summarised()
      reads this
    {
      tacRefresh.Some? && TacExactly(tac, contents, AllChannels(Asics()), tacRefresh.value)
    }

    /** `was` is what the cache said and the hardware held before; a cache that did not exist was built first. */
    method SetAsicsConfig(config: Configs, ghost theirs: set<object>, forceAccess: bool, ghost wanted: Values)
      returns (error: Option<Error>, ghost bad: Option<Addr>, ghost was: Before)
      requires Valid() && theirs !! repr && this !in theirs && hardware !in theirs
      requires Carries(config, wanted, theirs) && WholeAsics(wanted)
      modifies this, hardware
      ensures Valid() && fresh(repr - old(repr)) && theirs !! repr
      ensures was.registers == old(hardware.registers)
      ensures if old(asicConfigCache).Some? then was.contents == old(contents)
        else forall a :: a in was.contents ==> Agrees(was.contents, was.registers, a)
      ensures error == None ==>
        asics == Asics() && Coherent(forceAccess, was, contents, hardware.registers, wanted, asics)
      ensures forall a :: Agrees(was.contents, was.registers, a) && Some(a) != bad ==>
        Agrees(contents, hardware.registers, a)
      ensures error == None || error == Some(KeyError) ==> bad == None
      ensures Justified(error, old(hardware.faults), wanted)
      ensures error != None && old(asicConfigCache).Some? ==> tacRefresh == old(tacRefresh)
      ensures error != None && old(asicConfigCache).Some? && !FieldChanged(tac, Asics(), was.contents, wanted) ==>
        (Summarised() <==> old(Summarised()))
      ensures error == None && FieldChanged(tac, Asics(), was.contents, wanted) ==> Summarised()
      ensures error == None && forceAccess && active != [] ==> Summarised()
      ensures error == None && old(asicConfigCache).Some? ==>
        (Summarised() <==>
           FieldChanged(tac, Asics(), was.contents, wanted) || (forceAccess && active != []) || old(Summarised()))
    {
      hide CacheOk, SetSoFar, Hardware.Valid, Touched, AllOf, Carries, WholeAsics, TacExactly, AllChannels, Coherent;
      bad, was := None, Before(contents, hardware.registers);
      if asicConfigCache == None {
        var copies, objects := GetAsicsConfig(false);
        was := Before(contents, hardware.registers);
        if copies.Err? { error := Some(copies.error); return; }
      }
      ghost var settings, ready := tacRefresh, {};
      error, bad, ready := UpdateAsics(config, theirs, forceAccess, wanted);
      AgreementIsKept(ready, bad, forceAccess, was, contents, hardware.registers, wanted);
      if error == None {
        AllSet(ready, forceAccess, was, contents, hardware.registers, wanted, asics);
        if FieldChanged(tac, Asics(), was.contents, wanted) {
          ChangeTouches(tac, ready, Asics(), forceAccess, was.contents, wanted);
        }
        if forceAccess && active != [] { ForcedTouches(ready, was, contents, hardware.registers, wanted); }
        if Touched(tac, ready, forceAccess, was.contents, wanted) {
          OnlyTouchedBy(ready, forceAccess, was, contents, hardware.registers, wanted);
        }
      }
      if settings.Some? && !FieldChanged(tac, Asics(), was.contents, wanted) {
        SummaryIsKept(
          tac, ready, bad, forceAccess, was, contents, hardware.registers, wanted, Asics(), settings.value);
      }
    }

    lemma OnlyTouchedBy(ready: set<Addr>, force: bool, was: Before, v: Values, r: Values, wanted: Values)
      requires AllOf(ready, Asics()) && SetSoFar(ready, None, force, was, v, r, wanted)
      requires Touched(tac, ready, force, was.contents, wanted)
      ensures FieldChanged(tac, Asics(), was.contents, wanted) || (force && active != [])
    {
    }

    lemma ForcedTouches(ready: set<Addr>, was: Before, v: Values, r: Values, wanted: Values)
      requires active != [] && AllOf(ready, Asics()) && SetSoFar(ready, None, true, was, v, r, wanted)
      ensures Touched(tac, ready, true, was.contents, wanted)
    {
      assert Global(active[0]) in ready;
    }
  }
}
