/** The coarse sorter: hits are sorted by time through a list of entries that point at them. */
module CoarseSorter {
  import opened Events
  import opened EventBuffers

  /** `p` is the position of the hit in the input buffer. */
  datatype SortEntry = SortEntry(time: int, p: nat)

  ghost predicate EntriesSorted(es: seq<SortEntry>) {
    forall i, j :: 0 <= i < j < |es| ==> es[i].time <= es[j].time
  }

  lemma SortedSnoc(s: seq<SortEntry>, e: SortEntry)
    requires EntriesSorted(s) && (s == [] || s[|s| - 1].time <= e.time)
    ensures EntriesSorted(s + [e])
  {
    forall i, j | 0 <= i < j < |s + [e]| ensures (s + [e])[i].time <= (s + [e])[j].time {
      if j == |s| { assert s[i].time <= s[|s| - 1].time; }
    }
  }

  /** Inserts behind every entry that is not later. */
  function Insert(sorted: seq<SortEntry>, e: SortEntry): (r: seq<SortEntry>)
  {
    if sorted == [] || sorted[|sorted| - 1].time <= e.time then
      sorted + [e]
    else
      Insert(sorted[..|sorted| - 1], e) + [sorted[|sorted| - 1]]
  }

  lemma {:induction false} InsertSorts(sorted: seq<SortEntry>, e: SortEntry)
    requires EntriesSorted(sorted)
    ensures EntriesSorted(Insert(sorted, e)) && Insert(sorted, e) != []
    ensures var last := Insert(sorted, e)[|Insert(sorted, e)| - 1];
      last == e || (sorted != [] && last == sorted[|sorted| - 1])
  {
    if sorted == [] || sorted[|sorted| - 1].time <= e.time {
      SortedSnoc(sorted, e);
    } else {
      var front, last := sorted[..|sorted| - 1], sorted[|sorted| - 1];
      InsertSorts(front, e);
      assert front == [] || front[|front| - 1].time <= last.time;
      SortedSnoc(Insert(front, e), last);
    }
  }

  lemma {:induction false} InsertCounts(sorted: seq<SortEntry>, e: SortEntry)
    ensures multiset(Insert(sorted, e)) == multiset(sorted) + multiset{e}
  {
    if !(sorted == [] || sorted[|sorted| - 1].time <= e.time) {
      var front, last := sorted[..|sorted| - 1], sorted[|sorted| - 1];
      assert sorted == front + [last];
      InsertCounts(front, e);
    }
  }

  /** The library sort, of which only this contract is used: it may order equal times in any way. */
  method Sort(entries: seq<SortEntry>) returns (sorted: seq<SortEntry>)
    ensures EntriesSorted(sorted) && multiset(sorted) == multiset(entries)
  {
    sorted := [];
    for i := 0 to |entries|
      invariant EntriesSorted(sorted) && multiset(sorted) == multiset(entries[..i])
    {
      assert entries[..i + 1] == entries[..i] + [entries[i]];
      InsertSorts(sorted, entries[i]);
      InsertCounts(sorted, entries[i]);
      sorted := Insert(sorted, entries[i]);
    }
    assert entries[..|entries|] == entries;
  }

  /** Following the pointers of a list of entries. */
  function Follow(hits: seq<RawHit>, es: seq<SortEntry>): (r: seq<RawHit>)
    requires forall e :: e in es ==> e.p < |hits|
    ensures |r| == |es| && forall i :: 0 <= i < |es| ==> r[i] == hits[es[i].p]
  {
    seq(|es|, i requires 0 <= i < |es| => assert es[i] in es; hits[es[i].p])
  }

  /** One entry for every hit, in the order of the hits. */
  function Entries(hits: seq<RawHit>): (r: seq<SortEntry>)
    ensures |r| == |hits| && forall i :: 0 <= i < |hits| ==> r[i] == SortEntry(hits[i].time, i)
  {
    seq(|hits|, i requires 0 <= i < |hits| => SortEntry(hits[i].time, i))
  }

  lemma WithoutOne(a: seq<SortEntry>, b: seq<SortEntry>) returns (k: nat)
    requires a != [] && multiset(a) == multiset(b)
    ensures k < |b| && b[k] == a[|a| - 1]
    ensures multiset(a[..|a| - 1]) == multiset(b[..k] + b[k + 1..])
  {
    var front, last := a[..|a| - 1], a[|a| - 1];
    assert a == front + [last];
    assert last in multiset(b);
    k :| 0 <= k < |b| && b[k] == last;
    var before, behind := b[..k], b[k + 1..];
    assert b == before + [last] + behind;
    assert multiset(b) == multiset(before + behind) + multiset{last};
    assert multiset(a) == multiset(front) + multiset{last};
    assert multiset(front) == multiset(a) - multiset{last};
  }

  lemma FollowSplit(hits: seq<RawHit>, b: seq<SortEntry>, k: nat)
    requires k < |b| && forall e :: e in b ==> e.p < |hits|
    ensures forall e :: e in b[..k] + b[k + 1..] ==> e.p < |hits|
    ensures multiset(Follow(hits, b)) == multiset(Follow(hits, b[..k] + b[k + 1..])) + multiset{hits[b[k].p]}
  {
    var before, behind := Follow(hits, b[..k]), Follow(hits, b[k + 1..]);
    assert Follow(hits, b) == before + [hits[b[k].p]] + behind;
    assert Follow(hits, b[..k] + b[k + 1..]) == before + behind;
  }

  lemma {:induction false} FollowPermutation(hits: seq<RawHit>, a: seq<SortEntry>, b: seq<SortEntry>)
    requires multiset(a) == multiset(b) && forall e :: e in a ==> e.p < |hits|
    ensures forall e :: e in b ==> e.p < |hits|
    ensures multiset(Follow(hits, a)) == multiset(Follow(hits, b))
    decreases |a|
  {
    forall e | e in b ensures e.p < |hits| { assert e in multiset(b); }
    if a == [] {
      assert |multiset(a)| == |multiset(b)|;
    } else {
      var n := |a| - 1;
      var k := WithoutOne(a, b);
      FollowSplit(hits, a, n);
      FollowSplit(hits, b, k);
      assert a[..n] + a[n + 1..] == a[..n];
      FollowPermutation(hits, a[..n], b[..k] + b[k + 1..]);
    }
  }

  lemma SortedByTime(hits: seq<RawHit>, es: seq<SortEntry>)
    requires EntriesSorted(es) && multiset(es) == multiset(Entries(hits))
    ensures forall e :: e in es ==> e.p < |hits|
    ensures TimeSorted(Follow(hits, es)) && multiset(Follow(hits, es)) == multiset(hits)
  {
    var all := Entries(hits);
    forall e | e in es ensures e.p < |hits| && e.time == hits[e.p].time {
      assert e in multiset(all);
    }
    FollowPermutation(hits, all, es);
    assert Follow(hits, all) == hits;
    forall i, j | 0 <= i < j < |es| ensures Follow(hits, es)[i].time <= Follow(hits, es)[j].time {
      assert es[i] in es && es[j] in es;
    }
  }

  /** The output holds the input hits sorted by time, each as often as before, inside the allocated
      capacity: the copy loop moves its own pointer and never asks for room. */
  method HandleEvents(inBuffer: EventBuffer<RawHit>) returns (outBuffer: EventBuffer<RawHit>)
    requires inBuffer.Valid()
    ensures fresh(outBuffer) && fresh(outBuffer.buffer) && outBuffer.Valid()
    ensures inBuffer.Contents() == old(inBuffer.Contents())
    ensures TimeSorted(outBuffer.Contents())
    ensures multiset(outBuffer.Contents()) == multiset(inBuffer.Contents())
    ensures outBuffer.used < outBuffer.capacity == RoundedCapacity(inBuffer.used)
  {
    var n := inBuffer.used;
    ghost var hits := inBuffer.Contents();
    outBuffer := new EventBuffer<RawHit>(n);
    var sortList: seq<SortEntry> := [];
    for pi := 0 to n
      invariant sortList == Entries(hits)[..pi]
    {
      sortList := sortList + [SortEntry(inBuffer.buffer[pi].time, pi)];
    }
    assert sortList == Entries(hits);
    sortList := Sort(sortList);
    SortedByTime(hits, sortList);
    assert |sortList| == n by { assert |multiset(sortList)| == |multiset(Entries(hits))|; }
    var po := 0;
    while po < |sortList|
      invariant 0 <= po <= |sortList|
      invariant outBuffer.buffer.Length == RoundedCapacity(n) && fresh(outBuffer.buffer)
      invariant outBuffer.Valid() && outBuffer.capacity == RoundedCapacity(n)
      invariant outBuffer.buffer[..po] == Follow(hits, sortList)[..po]
      invariant inBuffer.buffer[..n] == hits
    {
      assert sortList[po] in sortList;
      outBuffer.buffer[po] := inBuffer.buffer[sortList[po].p];
      po := po + 1;
    }
    outBuffer.SetUsed(po);
    assert outBuffer.Contents() == Follow(hits, sortList);
  }
}
