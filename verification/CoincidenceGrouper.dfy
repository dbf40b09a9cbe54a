/** The coincidence grouper: a search over pairs of photons that leaves each row early. */
module CoincidenceGrouper {
  import opened Events
  import opened EventBuffers

  const MAX_TRIGGER_REGIONS: nat := 4096

  /** `coincidences` holds the entries of the region map that are set. */
  datatype Trigger = Trigger(window: real, coincidences: set<nat>)

  /** The positions of photons[0] and photons[1] in the input buffer. */
  datatype Coincidence = Coincidence(first: nat, second: nat)

  predicate IsCoincidenceAllowed(t: Trigger, r1: int, r2: int) {
    r1 >= 0 && r2 >= 0 && r1 * MAX_TRIGGER_REGIONS + r2 in t.coincidences
  }

  predicate Matches(t: Trigger, a: GammaPhoton, b: GammaPhoton) {
    && IsCoincidenceAllowed(t, a.region, b.region)
    && -t.window <= a.time - b.time <= t.window
  }

  predicate Leaves(t: Trigger, a: GammaPhoton, b: GammaPhoton) {
    b.time - a.time > t.window + MAX_UNORDER
  }

  /** The photon of the larger region comes first, and the later one of the two on a tie. */
  function Pair(ps: seq<GammaPhoton>, i: nat, j: nat): Coincidence
    requires i < |ps| && j < |ps|
  {
    if ps[i].region > ps[j].region then Coincidence(i, j) else Coincidence(j, i)
  }

  function Row(t: Trigger, ps: seq<GammaPhoton>, i: nat, j: nat, early: bool): seq<Coincidence>
    requires i < j <= |ps|
    decreases |ps| - j
  {
    if j == |ps| || (early && Leaves(t, ps[i], ps[j])) then []
    else if Matches(t, ps[i], ps[j]) then [Pair(ps, i, j)] + Row(t, ps, i, j + 1, early)
    else Row(t, ps, i, j + 1, early)
  }

  /** All rows from i on: with `early` each row ends at the first photon too far ahead, without it no pair is
      skipped. */
  function Rows(t: Trigger, ps: seq<GammaPhoton>, i: nat, early: bool): seq<Coincidence>
    requires i <= |ps|
    decreases |ps| - i
  {
    if i == |ps| then [] else Row(t, ps, i, i + 1, early) + Rows(t, ps, i + 1, early)
  }

  // ---------- What a complete grouping is, without any search ----------

  function Low(c: Coincidence): nat { if c.first < c.second then c.first else c.second }
  function High(c: Coincidence): nat { if c.first < c.second then c.second else c.first }

  predicate Before(a: Coincidence, b: Coincidence) {
    Low(a) < Low(b) || (Low(a) == Low(b) && High(a) < High(b))
  }

  ghost predicate Strictly(cs: seq<Coincidence>) {
    forall a, b :: 0 <= a < b < |cs| ==> Before(cs[a], cs[b])
  }

  /** c names two different photons that match, the one of the larger or equal region first. */
  predicate Genuine(t: Trigger, ps: seq<GammaPhoton>, c: Coincidence) {
    && c.first != c.second && c.first < |ps| && c.second < |ps|
    && Matches(t, ps[Low(c)], ps[High(c)])
    && ps[c.first].region >= ps[c.second].region
    && (ps[c.first].region == ps[c.second].region ==> c.first > c.second)
  }

  /** cs lists exactly the coincidences of ps, each once, in lexicographic order of the photons. */
  ghost predicate Complete(t: Trigger, ps: seq<GammaPhoton>, cs: seq<Coincidence>) {
    Strictly(cs) && forall c :: c in cs <==> Genuine(t, ps, c)
  }

  lemma {:induction false} FullRow(t: Trigger, ps: seq<GammaPhoton>, i: nat, j: nat)
    requires i < j <= |ps|
    ensures Strictly(Row(t, ps, i, j, false))
    ensures forall c :: c in Row(t, ps, i, j, false) <==> Genuine(t, ps, c) && Low(c) == i && High(c) >= j
    decreases |ps| - j
  {
    if j < |ps| {
      FullRow(t, ps, i, j + 1);
    }
  }

  lemma {:induction false} FullRows(t: Trigger, ps: seq<GammaPhoton>, i: nat)
    requires i <= |ps|
    ensures Strictly(Rows(t, ps, i, false))
    ensures forall c :: c in Rows(t, ps, i, false) <==> Genuine(t, ps, c) && Low(c) >= i
    decreases |ps| - i
  {
    if i < |ps| {
      var row, rest := Row(t, ps, i, i + 1, false), Rows(t, ps, i + 1, false);
      FullRow(t, ps, i, i + 1);
      FullRows(t, ps, i + 1);
      assert forall a :: 0 <= a < |row| ==> row[a] in row;
      assert forall a :: 0 <= a < |rest| ==> rest[a] in rest;
      assert forall c :: c in row + rest <==> c in row || c in rest;
    }
  }

  // ---------- When leaving a row early is lossless ----------

  /** Behind the first photon of row i that is too far ahead, nothing matches. */
  ghost predicate NothingBehind(t: Trigger, ps: seq<GammaPhoton>, i: nat, j: nat)
    requires i < j <= |ps|
  {
    forall m, k :: j <= m <= k < |ps| && Leaves(t, ps[i], ps[m]) ==> !Matches(t, ps[i], ps[k])
  }

  lemma {:induction false} EarlyRow(t: Trigger, ps: seq<GammaPhoton>, i: nat, j: nat)
    requires i < j <= |ps|
    ensures |Row(t, ps, i, j, true)| <= |Row(t, ps, i, j, false)|
    ensures |Row(t, ps, i, j, true)| == |Row(t, ps, i, j, false)| <==> NothingBehind(t, ps, i, j)
    ensures NothingBehind(t, ps, i, j) ==> Row(t, ps, i, j, true) == Row(t, ps, i, j, false)
    decreases |ps| - j
  {
    if j < |ps| {
      EarlyRow(t, ps, i, j + 1);
      if Leaves(t, ps[i], ps[j]) {
        FullRow(t, ps, i, j);
        var full := Row(t, ps, i, j, false);
        if full != [] {
          assert full[0] in full;
          assert !NothingBehind(t, ps, i, j) by { assert Matches(t, ps[i], ps[High(full[0])]); }
        } else {
          forall k | j <= k < |ps| ensures !Matches(t, ps[i], ps[k]) {
            var c := Pair(ps, i, k);
            assert Genuine(t, ps, c) == Matches(t, ps[i], ps[k]) && Low(c) == i && High(c) == k;
            assert c !in full;
          }
        }
      }
    }
  }

  ghost predicate KeepsRow(t: Trigger, ps: seq<GammaPhoton>, i: nat)
    requires i < |ps|
  {
    NothingBehind(t, ps, i, i + 1)
  }

  ghost predicate NothingLost(t: Trigger, ps: seq<GammaPhoton>, i: nat) {
    forall l :: i <= l < |ps| ==> KeepsRow(t, ps, l)
  }

  lemma {:induction false} EarlyRows(t: Trigger, ps: seq<GammaPhoton>, i: nat)
    requires i <= |ps|
    ensures |Rows(t, ps, i, true)| <= |Rows(t, ps, i, false)|
    ensures |Rows(t, ps, i, true)| == |Rows(t, ps, i, false)| <==> NothingLost(t, ps, i)
    ensures NothingLost(t, ps, i) ==> Rows(t, ps, i, true) == Rows(t, ps, i, false)
    decreases |ps| - i
  {
    if i < |ps| {
      EarlyRow(t, ps, i, i + 1);
      EarlyRows(t, ps, i + 1);
      assert NothingLost(t, ps, i) <==> KeepsRow(t, ps, i) && NothingLost(t, ps, i + 1);
    }
  }

  lemma SameList(a: seq<Coincidence>, b: seq<Coincidence>)
    requires Strictly(a) && Strictly(b) && forall c :: c in a <==> c in b
    ensures |a| == |b|
  {
    assert |a| == |set c | c in a| by { Distinct(a); }
    assert |b| == |set c | c in b| by { Distinct(b); }
    assert (set c | c in a) == (set c | c in b);
  }

  lemma {:induction false} Distinct(a: seq<Coincidence>)
    requires Strictly(a)
    ensures |set c | c in a| == |a|
  {
    if a != [] {
      var n := |a| - 1;
      Distinct(a[..n]);
      assert (set c | c in a) == (set c | c in a[..n]) + {a[n]};
      assert a[n] !in a[..n] by {
        forall k | 0 <= k < n ensures a[k] != a[n] { assert Before(a[k], a[n]); }
      }
    }
  }

  /** The search finds every coincidence exactly when no row leaves a matching photon behind the one at which
      it ends. */
  lemma LosslessExactly(t: Trigger, ps: seq<GammaPhoton>)
    ensures Complete(t, ps, Rows(t, ps, 0, true)) <==> NothingLost(t, ps, 0)
  {
    FullRows(t, ps, 0);
    EarlyRows(t, ps, 0);
    if Complete(t, ps, Rows(t, ps, 0, true)) {
      SameList(Rows(t, ps, 0, true), Rows(t, ps, 0, false));
    }
  }

  /** Photons at most MAX_UNORDER out of order lose nothing. */
  lemma PruningIsLossless(t: Trigger, ps: seq<GammaPhoton>)
    requires DisorderAtMost(PhotonTimes(ps), MAX_UNORDER)
    ensures Complete(t, ps, Rows(t, ps, 0, true))
  {
    var times := PhotonTimes(ps);
    forall i | 0 <= i < |ps| ensures KeepsRow(t, ps, i) {
      forall m, k | i + 1 <= m <= k < |ps| && Leaves(t, ps[i], ps[m]) ensures !Matches(t, ps[i], ps[k]) {
        assert m == k || times[m] - MAX_UNORDER <= times[k];
      }
    }
    assert NothingLost(t, ps, 0);
    LosslessExactly(t, ps);
  }

  /** The bound is tight: for every larger disorder and every window some input loses a coincidence. */
  lemma BoundIsTight(window: real, d: real) returns (t: Trigger, ps: seq<GammaPhoton>)
    requires d > MAX_UNORDER && window >= 0.0
    ensures t.window == window && DisorderAtMost(PhotonTimes(ps), d)
    ensures !Complete(t, ps, Rows(t, ps, 0, true))
  {
    t := Trigger(window, {1});
    ps := [GammaPhoton(0.0, 0), GammaPhoton(window + d, 1), GammaPhoton(window, 1)];
    assert Leaves(t, ps[0], ps[1]) && Matches(t, ps[0], ps[2]);
    assert !KeepsRow(t, ps, 0);
    LosslessExactly(t, ps);
  }

  // ---------- What a coincidence is ----------

  /** The two photons are found to coincide, whichever of them comes first in the pair. */
  predicate Paired(cs: seq<Coincidence>, i: nat, j: nat) { Coincidence(i, j) in cs || Coincidence(j, i) in cs }

  /** The regions are allowed together in the order of the photons, and no more than the window lies between the two
      times, whichever of them is the later one. */
  predicate Together(t: Trigger, ps: seq<GammaPhoton>, i: nat, j: nat)
    requires i < j < |ps|
  {
    var a, b := ps[i], ps[j];
    && a.region >= 0 && b.region >= 0 && a.region * 4096 + b.region in t.coincidences
    && a.time <= b.time + t.window && b.time <= a.time + t.window
  }

  ghost predicate PairsTogether(t: Trigger, ps: seq<GammaPhoton>, cs: seq<Coincidence>) {
    forall i, j :: 0 <= i < j < |ps| ==> (Paired(cs, i, j) <==> Together(t, ps, i, j))
  }

  /** A complete grouping pairs exactly the photons that are together, each pair with the larger region in front, and
      lists nothing else. */
  lemma CompleteMeansTogether(t: Trigger, ps: seq<GammaPhoton>, cs: seq<Coincidence>)
    requires Complete(t, ps, cs)
    ensures PairsTogether(t, ps, cs)
    ensures forall i, j :: 0 <= i < j < |ps| ==> !(Coincidence(i, j) in cs && Coincidence(j, i) in cs)
    ensures forall c :: c in cs ==>
      c.first != c.second && c.first < |ps| && c.second < |ps| && ps[c.first].region >= ps[c.second].region
  {
    forall i, j | 0 <= i < j < |ps| ensures Paired(cs, i, j) <==> Together(t, ps, i, j) {
      assert Low(Coincidence(i, j)) == Low(Coincidence(j, i)) == i;
      assert High(Coincidence(i, j)) == High(Coincidence(j, i)) == j;
      assert Paired(cs, i, j) <==> Genuine(t, ps, Coincidence(i, j)) || Genuine(t, ps, Coincidence(j, i));
    }
  }

  /** The region map as it is read in: an entry for two regions holds in both orders. */
  ghost predicate Symmetric(t: Trigger) {
    forall r, s: int :: r >= 0 && s >= 0 ==> (Allowed(t, r, s) <==> Allowed(t, s, r))
  }

  predicate Allowed(t: Trigger, r: int, s: int) { r * 4096 + s in t.coincidences }

  /** Then the order of the photons in the buffer does not matter: the same two photons coincide in any arrangement, at
      any positions, or in none. */
  lemma OrderDoesNotMatter(t: Trigger, ps: seq<GammaPhoton>, cs: seq<Coincidence>, qs: seq<GammaPhoton>,
                           ds: seq<Coincidence>, i: nat, j: nat, k: nat, l: nat)
    requires Symmetric(t) && Complete(t, ps, cs) && Complete(t, qs, ds)
    requires i < |ps| && j < |ps| && i != j && k < |qs| && l < |qs| && k != l && ps[i] == qs[k] && ps[j] == qs[l]
    ensures Paired(cs, i, j) <==> Paired(ds, k, l)
  {
    CompleteMeansTogether(t, ps, cs);
    CompleteMeansTogether(t, qs, ds);
    hide Complete, Paired;
    PairedEitherWay(cs, i, j);
    PairedEitherWay(ds, k, l);
    assert Allowed(t, ps[i].region, ps[j].region) <==> ps[i].region * 4096 + ps[j].region in t.coincidences;
    assert Allowed(t, ps[j].region, ps[i].region) <==> ps[j].region * 4096 + ps[i].region in t.coincidences;
  }

  lemma PairedEitherWay(cs: seq<Coincidence>, i: nat, j: nat)
    ensures Paired(cs, i, j) == Paired(cs, j, i)
  {
  }

  // ---------- The search ----------

  lemma RowStep(t: Trigger, ps: seq<GammaPhoton>, done: seq<Coincidence>, i: nat, j: nat, row: seq<Coincidence>)
    requires i < j < |ps| && !Leaves(t, ps[i], ps[j])
    requires row == if Matches(t, ps[i], ps[j]) then done + [Pair(ps, i, j)] else done
    ensures done + Row(t, ps, i, j, true) == row + Row(t, ps, i, j + 1, true)
  {
  }

  lemma RowEnds(t: Trigger, ps: seq<GammaPhoton>, i: nat, j: nat)
    requires i < j <= |ps| && (j == |ps| || Leaves(t, ps[i], ps[j]))
    ensures Row(t, ps, i, j, true) == []
  {
  }

  lemma RowsEnd(t: Trigger, ps: seq<GammaPhoton>)
    ensures Rows(t, ps, |ps|, true) == []
  {
  }

  lemma RowsStep(t: Trigger, ps: seq<GammaPhoton>, i: nat)
    requires i < |ps|
    ensures Rows(t, ps, i, true) == Row(t, ps, i, i + 1, true) + Rows(t, ps, i + 1, true)
  {
  }

  method HandleEvents(t: Trigger, inBuffer: EventBuffer<GammaPhoton>)
    returns (outBuffer: EventBuffer<Coincidence>, lPrompts: nat)
    requires inBuffer.Valid()
    ensures fresh(outBuffer) && outBuffer.Valid()
    ensures outBuffer.Contents() == Rows(t, inBuffer.Contents(), 0, true)
    ensures lPrompts == |outBuffer.Contents()|
    ensures DisorderAtMost(PhotonTimes(inBuffer.Contents()), MAX_UNORDER) ==>
      Complete(t, inBuffer.Contents(), outBuffer.Contents())
    ensures DisorderAtMost(PhotonTimes(inBuffer.Contents()), MAX_UNORDER) ==>
      PairsTogether(t, inBuffer.Contents(), outBuffer.Contents())
    ensures inBuffer.Contents() == old(inBuffer.Contents())
  {
    hide Row, Rows, Complete, DisorderAtMost, PairsTogether;
    var n := inBuffer.used;
    ghost var ps := inBuffer.Contents();
    outBuffer := new EventBuffer<Coincidence>(n);
    lPrompts := 0;
    for i := 0 to n
      invariant fresh(outBuffer) && fresh(outBuffer.buffer) && outBuffer.Valid()
      invariant inBuffer.Contents() == ps
      invariant lPrompts == outBuffer.used
      invariant outBuffer.Contents() + Rows(t, ps, i, true) == Rows(t, ps, 0, true)
    {
      var photon1 := inBuffer.buffer[i];
      var j := i + 1;
      ghost var before := outBuffer.Contents();
      RowsStep(t, ps, i);
      while j < n
        invariant i < j <= n
        invariant fresh(outBuffer) && fresh(outBuffer.buffer) && outBuffer.Valid()
        invariant inBuffer.Contents() == ps
        invariant lPrompts == outBuffer.used
        invariant outBuffer.Contents() + Row(t, ps, i, j, true) == before + Row(t, ps, i, i + 1, true)
      {
        var photon2 := inBuffer.buffer[j];
        if photon2.time - photon1.time > t.window + MAX_UNORDER { break; }
        ghost var row := outBuffer.Contents();
        if IsCoincidenceAllowed(t, photon1.region, photon2.region) {
          var apart := photon1.time - photon2.time;
          if (if apart >= 0.0 then apart else -apart) <= t.window {
            var first1 := photon1.region > photon2.region;
            outBuffer.Push(if first1 then Coincidence(i, j) else Coincidence(j, i));
            lPrompts := lPrompts + 1;
          }
        }
        RowStep(t, ps, row, i, j, outBuffer.Contents());
        j := j + 1;
      }
      RowEnds(t, ps, i, j);
      assert outBuffer.Contents() == before + Row(t, ps, i, i + 1, true);
    }
    RowsEnd(t, ps);
    assert outBuffer.Contents() == Rows(t, ps, 0, true);
    if DisorderAtMost(PhotonTimes(ps), MAX_UNORDER) {
      PruningIsLossless(t, ps);
      CompleteMeansTogether(t, ps, outBuffer.Contents());
    }
  }
}
