/** The growable buffer that carries events between the processing stages. */
module EventBuffers {

  /** Capacity, fill and the number of elements moved by reallocations so far. */
  datatype Growth = Growth(capacity: nat, used: nat, copied: nat)

  function RoundedCapacity(n: nat): (r: nat)
    ensures n < r <= n + 1024 && r % 1024 == 0
  {
    (n / 1024 + 1) * 1024
  }

  function Increment(capacity: nat): (r: nat)
    ensures 10 * r > capacity && 10 * r <= capacity + 10240 && r % 1024 == 0
  {
    (capacity / 10240 + 1) * 1024
  }

  /** Making room for one more element. */
  function MakeRoom(g: Growth): (r: Growth)
    requires g.used <= g.capacity
    ensures r.used < r.capacity
  {
    if g.used >= g.capacity then Growth(g.capacity + Increment(g.capacity), g.used, g.copied + g.capacity) else g
  }

  function PushGrowth(g: Growth): Growth
    requires g.used <= g.capacity
  {
    MakeRoom(g).(used := g.used + 1)
  }

  class EventBuffer<T(0)> {
    var buffer: array<T>
    var capacity: nat
    var used: nat
    ghost var copied: nat

    ghost predicate Valid()
      reads this
    {
      buffer.Length == capacity && used <= capacity
    }

    ghost function Contents(): seq<T>
      requires Valid()
      reads this, buffer
    {
      buffer[..used]
    }

    ghost function State(): Growth
      reads this
    {
      Growth(capacity, used, copied)
    }

    constructor (initialCapacity: nat)
      ensures Valid() && fresh(buffer) && Contents() == []
      ensures State() == Growth(RoundedCapacity(initialCapacity), 0, 0)
    {
      buffer := new T[RoundedCapacity(initialCapacity)];
      capacity := RoundedCapacity(initialCapacity);
      used, copied := 0, 0;
    }

    /** realloc: the old block is moved to a larger one. */
    method Reallocate(newCapacity: nat)
      requires Valid() && newCapacity >= capacity
      modifies this
      ensures Valid() && fresh(buffer) && Contents() == old(Contents())
      ensures State() == Growth(newCapacity, old(used), old(copied) + old(capacity))
    {
      var reBuffer := new T[newCapacity];
      for i := 0 to capacity
        invariant unchanged(this) && reBuffer.Length == newCapacity
        invariant reBuffer[..i] == buffer[..i]
      {
        reBuffer[i] := buffer[i];
      }
      copied := copied + capacity;
      buffer, capacity := reBuffer, newCapacity;
    }

    method Reserve(newCapacity: nat)
      requires Valid()
      modifies this
      ensures Valid() && Contents() == old(Contents()) && used == old(used)
      ensures capacity == if newCapacity <= old(capacity) then old(capacity) else newCapacity
      ensures buffer == old(buffer) || fresh(buffer)
    {
      if newCapacity <= capacity { return; }
      Reallocate(newCapacity);
    }

    /** The slot behind the last element; it always lies inside the capacity. */
    method GetWriteSlot() returns (slot: nat)
      requires Valid()
      modifies this
      ensures Valid() && Contents() == old(Contents())
      ensures slot == used < buffer.Length
      ensures State() == MakeRoom(old(State()))
      ensures buffer == old(buffer) || fresh(buffer)
    {
      if used >= capacity {
        var increment := (capacity / 10240 + 1) * 1024;
        Reallocate(capacity + increment);
      }
      return used;
    }

    method PushWriteSlot()
      requires Valid() && used < capacity
      modifies this`used
      ensures Valid() && used == old(used) + 1
    {
      used := used + 1;
    }

    method Push(e: T)
      requires Valid()
      modifies this, buffer
      ensures Valid() && Contents() == old(Contents()) + [e]
      ensures State() == PushGrowth(old(State()))
      ensures buffer == old(buffer) || fresh(buffer)
    {
      var slot := GetWriteSlot();
      buffer[slot] := e;
      PushWriteSlot();
    }

    method SetUsed(n: nat)
      requires Valid() && n <= capacity
      modifies this`used
      ensures Valid() && used == n
    {
      used := n;
    }
  }

  // ---------- Runs of pushes ----------

  function PushMany(g: Growth, n: nat): (r: Growth)
    requires g.used <= g.capacity
    ensures r.used == g.used + n <= r.capacity
  {
    if n == 0 then g else PushGrowth(PushMany(g, n - 1))
  }

  /** Growing by at least a tenth pays for every reallocation: however many elements are pushed, the elements
      moved are at most ten times the capacity gained, and at most eleven times the number of pushes. */
  lemma {:induction false} GrowthIsLinear(initialCapacity: nat, n: nat)
    ensures var c := RoundedCapacity(initialCapacity);
      var g := PushMany(Growth(c, 0, 0), n);
      && g.used == n <= g.capacity
      && g.copied <= 10 * (g.capacity - c) <= 11 * n
  {
    if n > 0 { GrowthIsLinear(initialCapacity, n - 1); }
  }
}
