/** The first stages of the pipeline in a row. */
module HitPipeline {
  import opened Events
  import opened EventBuffers
  import CoarseSorter
  import ProcessHit

  /** Whatever the order of the raw hits, what leaves the hit processor is the clean subsequence of a sorted
      permutation of them, and with corrections of at most ten clocks either way it meets the bound on disorder
      that the coincidence search relies on. */
  method SortAndProcess(cfg: ProcessHit.Config, raw: EventBuffer<RawHit>)
    returns (hits: EventBuffer<Hit>, ghost sorted: seq<RawHit>)
    requires raw.Valid() && ProcessHit.ValidConfig(cfg)
    ensures fresh(hits) && hits.Valid()
    ensures TimeSorted(sorted) && multiset(sorted) == multiset(raw.Contents())
    ensures hits.Contents() == ProcessHit.Output(cfg, sorted, |sorted|)
    ensures ProcessHit.CorrectionsWithin(cfg, raw.Contents(), -10.0, 10.0) ==>
      DisorderAtMost(HitTimes(hits.Contents()), MAX_UNORDER)
  {
    var buffer := CoarseSorter.HandleEvents(raw);
    sorted := buffer.Contents();
    var counters;
    hits, counters := ProcessHit.HandleEvents(cfg, buffer);
    if ProcessHit.CorrectionsWithin(cfg, raw.Contents(), -10.0, 10.0) {
      PermutedCorrections(cfg, raw.Contents(), sorted, -10.0, 10.0);
    }
  }

  lemma PermutedCorrections(cfg: ProcessHit.Config, a: seq<RawHit>, b: seq<RawHit>, lo: real, hi: real)
    requires ProcessHit.ValidConfig(cfg) && multiset(a) == multiset(b)
    requires ProcessHit.CorrectionsWithin(cfg, a, lo, hi)
    ensures ProcessHit.CorrectionsWithin(cfg, b, lo, hi)
  {
    forall i | 0 <= i < |b| && ProcessHit.Clean(cfg, b[i]) ensures lo <= ProcessHit.Correction(cfg, b[i]) <= hi {
      assert b[i] in multiset(a);
    }
  }
}
