/** Reading and writing the fields of a register. */
module AsicRegisters {
  import opened AsicFields
  import opened BitArrays
  import opened Wrappers

  type Bits = seq<bool>

  /** Where digit a of a field is found: bits are counted from the end of the register. */
  function Position(subtype: Subtype, f: Field, a: nat): (r: nat)
    requires a < |Index(subtype, f)|
    ensures r < Length(f)
  {
    BitsAreOwned(subtype, f);
    Length(f) - 1 - Index(subtype, f)[a]
  }

  predicate OwnsPosition(subtype: Subtype, f: Field, p: nat) {
    p < Length(f) && Owns(subtype, f, Length(f) - 1 - p)
  }

  /** Positions belong to their own field only, and no two digits of a field share one. */
  lemma Positions(subtype: Subtype, f: Field)
    ensures forall a :: 0 <= a < |Index(subtype, f)| ==> OwnsPosition(subtype, f, Position(subtype, f, a))
    ensures forall a, b :: 0 <= a < b < |Index(subtype, f)| ==> Position(subtype, f, a) != Position(subtype, f, b)
  {
    BitsAreOwned(subtype, f);
    BitsAreDistinct(subtype, f);
  }

  lemma PositionOf(subtype: Subtype, f: Field, p: nat) returns (a: nat)
    requires OwnsPosition(subtype, f, p)
    ensures a < |Index(subtype, f)| && Position(subtype, f, a) == p
  {
    OwnedBitsAreListed(subtype, f, Length(f) - 1 - p);
    a :| a < |Index(subtype, f)| && Index(subtype, f)[a] == Length(f) - 1 - p;
  }

  // ---------- What reading and writing mean ----------

  function Get(subtype: Subtype, s: Bits, f: Field): (r: Bits)
    requires |s| == Length(f)
    ensures |r| == |Index(subtype, f)|
  {
    seq(|Index(subtype, f)|, a requires 0 <= a < |Index(subtype, f)| => s[Position(subtype, f, a)])
  }

  lemma DigitAt(subtype: Subtype, s: Bits, f: Field, a: nat)
    requires |s| == Length(f) && a < |Index(subtype, f)|
    ensures Get(subtype, s, f)[a] == s[Position(subtype, f, a)]
  {
  }

  /** The first n values written to their places, one after the other. */
  function Written(s: Bits, places: seq<nat>, v: Bits, n: nat): (r: Bits)
    requires n <= |places| == |v| && forall a :: 0 <= a < |places| ==> places[a] < |s|
    ensures |r| == |s|
  {
    if n == 0 then s else Written(s, places, v, n - 1)[places[n - 1] := v[n - 1]]
  }

  lemma {:induction false} WrittenAt(s: Bits, places: seq<nat>, v: Bits, n: nat)
    requires n <= |places| == |v| && forall a :: 0 <= a < |places| ==> places[a] < |s|
    requires forall a, b :: 0 <= a < b < |places| ==> places[a] != places[b]
    ensures forall a :: 0 <= a < n ==> Written(s, places, v, n)[places[a]] == v[a]
    ensures forall p :: 0 <= p < |s| && p !in places ==> Written(s, places, v, n)[p] == s[p]
  {
    if n > 0 { WrittenAt(s, places, v, n - 1); }
  }

  /** The places of a field, most significant digit first. */
  function Places(subtype: Subtype, f: Field): (r: seq<nat>)
    ensures |r| == |Index(subtype, f)|
    ensures forall a :: 0 <= a < |r| ==> r[a] == Position(subtype, f, a) < Length(f)
  {
    seq(|Index(subtype, f)|, a requires 0 <= a < |Index(subtype, f)| => Position(subtype, f, a))
  }

  lemma PlacesAreOwned(subtype: Subtype, f: Field)
    ensures forall a, b :: 0 <= a < b < |Places(subtype, f)| ==> Places(subtype, f)[a] != Places(subtype, f)[b]
    ensures forall p :: p in Places(subtype, f) ==> OwnsPosition(subtype, f, p)
  {
    Positions(subtype, f);
    hide Position, Index, OwnsPosition;
  }

  function Put(subtype: Subtype, s: Bits, f: Field, v: Bits): (r: Bits)
    requires |s| == Length(f) && |v| == |Index(subtype, f)|
    ensures |r| == |s|
  {
    Written(s, Places(subtype, f), v, |v|)
  }

  /** What was written is read back, and every other bit of the register is as before. */
  lemma PutThenGet(subtype: Subtype, s: Bits, f: Field, v: Bits)
    requires |s| == Length(f) && |v| == |Index(subtype, f)|
    ensures Get(subtype, Put(subtype, s, f, v), f) == v
    ensures forall p :: 0 <= p < |s| && !OwnsPosition(subtype, f, p) ==> Put(subtype, s, f, v)[p] == s[p]
  {
    hide Position, Index, OwnsPosition, Written, Places;
    PlacesAreOwned(subtype, f);
    WrittenAt(s, Places(subtype, f), v, |v|);
    forall a: nat | a < |v| ensures Get(subtype, Put(subtype, s, f, v), f)[a] == v[a] {
      assert Places(subtype, f)[a] == Position(subtype, f, a);
      DigitAt(subtype, Put(subtype, s, f, v), f, a);
    }
    assert Get(subtype, Put(subtype, s, f, v), f) == v;
  }

  /** Writing one field changes no other. */
  lemma FieldsAreIsolated(subtype: Subtype, s: Bits, f: Field, v: Bits, g: Field)
    requires |s| == Length(f) && |v| == |Index(subtype, f)|
    requires f.Global? == g.Global? && f != g
    ensures Get(subtype, Put(subtype, s, f, v), g) == Get(subtype, s, g)
  {
    PutThenGet(subtype, s, f, v);
    Positions(subtype, g);
    forall a: nat | a < |Index(subtype, g)|
      ensures Put(subtype, s, f, v)[Position(subtype, g, a)] == s[Position(subtype, g, a)]
    {
      var p := Position(subtype, g, a);
      assert OwnsPosition(subtype, g, p);
      if OwnsPosition(subtype, f, p) { OwnersAreUnique(subtype, f, g, Length(f) - 1 - p); }
    }
    hide Position, Index;
    assert forall a :: 0 <= a < |Index(subtype, g)| ==>
      Get(subtype, Put(subtype, s, f, v), g)[a] == Get(subtype, s, g)[a];
  }

  /** A bit no field owns. */
  predicate Unused(subtype: Subtype, global: bool, p: nat) {
    if global then p >= 184 || GlobalOwner(subtype, 183 - p).None?
    else p >= 125 || ChannelOwner(subtype, 124 - p).None?
  }

  /** A register is nothing but its fields and its unused bits. */
  lemma FieldsDetermineRegister(subtype: Subtype, global: bool, s: Bits, t: Bits)
    requires |s| == |t| == if global then 184 else 125
    requires forall f: Field :: f.Global? == global ==> Get(subtype, s, f) == Get(subtype, t, f)
    requires forall p :: 0 <= p < |s| && Unused(subtype, global, p) ==> s[p] == t[p]
    ensures s == t
  {
    forall p | 0 <= p < |s| ensures s[p] == t[p] {
      if !Unused(subtype, global, p) {
        var f :=
          if global then Global(GlobalOwner(subtype, 183 - p).value)
          else Channel(ChannelOwner(subtype, 124 - p).value);
        var a := PositionOf(subtype, f, p);
        assert Get(subtype, s, f)[a] == Get(subtype, t, f)[a];
      }
    }
  }

  // ---------- Integer values ----------

  function ValueOf(subtype: Subtype, s: Bits, f: Field): nat
    requires |s| == Length(f)
  {
    Value(Get(subtype, s, f))
  }

  function WithValue(subtype: Subtype, s: Bits, f: Field, x: int): (r: Bits)
    requires |s| == Length(f)
    ensures |r| == |s|
  {
    var n := |Index(subtype, f)|;
    Put(subtype, s, f, Digits(Saturated(x, n), n))
  }

  /** setValue leaves the nearest value the field can hold, and nothing else changes. */
  lemma SetThenGet(subtype: Subtype, s: Bits, f: Field, x: int)
    requires |s| == Length(f)
    ensures Nearest(x, |Index(subtype, f)|, ValueOf(subtype, WithValue(subtype, s, f, x), f))
    ensures ValueOf(subtype, WithValue(subtype, s, f, x), f) == Saturated(x, |Index(subtype, f)|)
    ensures forall g: Field :: g.Global? == f.Global? && g != f ==>
      ValueOf(subtype, WithValue(subtype, s, f, x), g) == ValueOf(subtype, s, g)
    ensures forall p :: 0 <= p < |s| && Unused(subtype, f.Global?, p) ==> WithValue(subtype, s, f, x)[p] == s[p]
  {
    var n := |Index(subtype, f)|;
    var v := Digits(Saturated(x, n), n);
    ValueOfDigits(Saturated(x, n), n);
    SaturatedIsNearest(x, n, Saturated(x, n));
    PutThenGet(subtype, s, f, v);
    forall g: Field | g.Global? == f.Global? && g != f
      ensures ValueOf(subtype, WithValue(subtype, s, f, x), g) == ValueOf(subtype, s, g)
    {
      FieldsAreIsolated(subtype, s, f, v, g);
    }
    forall p | 0 <= p < |s| && Unused(subtype, f.Global?, p) ensures WithValue(subtype, s, f, x)[p] == s[p] {
      assert !OwnsPosition(subtype, f, p);
    }
  }

  // ---------- Any sequence of writes ----------

  datatype Write = Write(field: Field, value: int)

  predicate WritesTo(ws: seq<Write>, global: bool) { forall i :: 0 <= i < |ws| ==> ws[i].field.Global? == global }

  function Run(subtype: Subtype, s: Bits, ws: seq<Write>): (r: Bits)
    requires ws == [] || |s| == Length(ws[0].field)
    requires forall i :: 0 <= i < |ws| ==> ws[i].field.Global? == ws[0].field.Global?
    ensures |r| == |s|
  {
    if ws == [] then s
    else
      var n := |ws| - 1;
      WithValue(subtype, Run(subtype, s, ws[..n]), ws[n].field, ws[n].value)
  }

  /** The last value written to a field, as the field holds it; what it held before if there was none. */
  function Last(subtype: Subtype, s: Bits, ws: seq<Write>, f: Field): nat
    requires |s| == Length(f)
  {
    if ws == [] then ValueOf(subtype, s, f)
    else
      var w := ws[|ws| - 1];
      if w.field == f then Saturated(w.value, |Index(subtype, f)|) else Last(subtype, s, ws[..|ws| - 1], f)
  }

  /** After any sequence of writes each field holds the last value written to it, and the unused bits are as in the
      beginning. */
  lemma {:induction false} EveryRunOfWrites(subtype: Subtype, s: Bits, ws: seq<Write>, f: Field)
    requires |s| == Length(f) && WritesTo(ws, f.Global?)
    ensures ValueOf(subtype, Run(subtype, s, ws), f) == Last(subtype, s, ws, f)
    ensures forall p :: 0 <= p < |s| && Unused(subtype, f.Global?, p) ==> Run(subtype, s, ws)[p] == s[p]
  {
    if ws != [] {
      var n := |ws| - 1;
      EveryRunOfWrites(subtype, s, ws[..n], f);
      SetThenGet(subtype, Run(subtype, s, ws[..n]), ws[n].field, ws[n].value);
    }
  }

  // ---------- The register object ----------

  datatype Outcome = Done | KeyError | AssertionFailed

  class Register {
    const subtype: Subtype
    const global: bool
    const bits: array<bool>

    ghost predicate Valid() { bits.Length == if global then 184 else 125 }

    predicate HasKey(key: Field) { key.Global? == global && !LayoutOf(subtype, key).Absent? }

    /** Both subtypes have the same keys, but for one of the global register. */
    lemma KeysExactly(key: Field)
      ensures HasKey(key) <==>
        (if global then key.Global? && (key.g == AdebugBuffer ==> subtype == Tofpet2C) else key.Channel?)
    {
    }

    lemma KeyLength(key: Field)
      requires Valid() && HasKey(key)
      ensures bits.Length == Length(key)
    {
    }

    method SetBits(key: Field, value: array<bool>) returns (outcome: Outcome)
      requires Valid() && value != bits
      modifies bits
      ensures outcome == if !HasKey(key) then KeyError
                         else if value.Length != |Index(subtype, key)| then AssertionFailed else Done
      ensures bits[..] == if outcome.Done? then Put(subtype, old(bits[..]), key, value[..]) else old(bits[..])
      ensures outcome.Done? ==> Holds(key, value[..])
    {
      if !HasKey(key) { return KeyError; }
      KeyLength(key);
      var index := Index(subtype, key);
      if value.Length != |index| { return AssertionFailed; }
      hide Position, Index, Length, HasKey;
      ghost var places := Places(subtype, key);
      hide Places;
      for a := 0 to |index|
        invariant bits[..] == Written(old(bits[..]), places, value[..], a)
      {
        PositionAt(key, a);
        bits[bits.Length - 1 - index[a]] := value[a];
      }
      outcome := Done;
      DigitsInPlace(old(bits[..]), key, value[..]);
    }

    /** Digit a of the field is the bit that the index list names at a, counted from the end of the register. */
    ghost predicate Holds(key: Field, value: Bits)
      reads bits
    {
      && |value| == |Index(subtype, key)|
      && forall a :: 0 <= a < |value| ==>
           Index(subtype, key)[a] < bits.Length && bits[bits.Length - 1 - Index(subtype, key)[a]] == value[a]
    }

    lemma DigitsInPlace(before: Bits, key: Field, value: Bits)
      requires Valid() && |before| == bits.Length == Length(key) && |value| == |Index(subtype, key)|
      requires bits[..] == Put(subtype, before, key, value)
      ensures Holds(key, value)
    {
      PutThenGet(subtype, before, key, value);
      DigitsRead(key, value);
    }

    lemma DigitsRead(key: Field, value: Bits)
      requires Valid() && bits.Length == Length(key) && value == Get(subtype, bits[..], key)
      ensures Holds(key, value)
    {
      hide Index, Position, Get;
      forall a: nat | a < |value|
        ensures Index(subtype, key)[a] < bits.Length && bits[bits.Length - 1 - Index(subtype, key)[a]] == value[a]
      {
        PositionAt(key, a);
        DigitAt(subtype, bits[..], key, a);
      }
    }

    lemma PositionAt(key: Field, a: nat)
      requires Valid() && bits.Length == Length(key) && a < |Index(subtype, key)|
      ensures Index(subtype, key)[a] < bits.Length
      ensures Position(subtype, key, a) == bits.Length - 1 - Index(subtype, key)[a]
    {
      BitsAreOwned(subtype, key);
    }

    method GetBits(key: Field) returns (value: Option<array<bool>>)
      requires Valid()
      ensures value.Some? <==> HasKey(key)
      ensures value.Some? ==> fresh(value.value) && value.value[..] == Get(subtype, bits[..], key)
      ensures value.Some? ==> Holds(key, value.value[..])
    {
      if !HasKey(key) { return None; }
      KeyLength(key);
      hide *;
      var r := ReadDigits(key, Index(subtype, key));
      value := Some(r);
      DigitsRead(key, r[..]);
    }

    method ReadDigits(key: Field, index: seq<nat>) returns (r: array<bool>)
      requires bits.Length == Length(key) && index == Index(subtype, key) && Valid()
      ensures fresh(r) && r[..] == Get(subtype, bits[..], key)
    {
      hide *;
      r := new bool[|index|];
      for a := 0 to |index|
        invariant forall b :: 0 <= b < a ==> r[b] == Get(subtype, bits[..], key)[b]
      {
        PositionAt(key, a);
        DigitAt(subtype, bits[..], key, a);
        r[a] := bits[bits.Length - 1 - index[a]];
      }
      assert r[..] == Get(subtype, bits[..], key);
    }

    /** Every key of the register is accepted and every integer: one that does not fit is saturated. */
    method SetValue(key: Field, value: int) returns (outcome: Outcome)
      requires Valid()
      modifies bits
      ensures outcome == if HasKey(key) then Done else KeyError
      ensures bits[..] == if HasKey(key) then WithValue(subtype, old(bits[..]), key, value) else old(bits[..])
      ensures HasKey(key) ==> Nearest(value, |Index(subtype, key)|, ValueOf(subtype, bits[..], key))
    {
      if !HasKey(key) { return KeyError; }
      KeyLength(key);
      SetThenGet(subtype, bits[..], key, value);
      var b := IntToBin(value, |Index(subtype, key)|, false);
      outcome := SetBits(key, b);
    }

    method GetValue(key: Field) returns (value: Option<nat>)
      requires Valid()
      ensures value == if HasKey(key) then Some(ValueOf(subtype, bits[..], key)) else None
    {
      var b := GetBits(key);
      if b.None? { return None; }
      var v := BinToInt(b.value, false);
      value := Some(v);
    }
  }
}
