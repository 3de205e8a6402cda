/** The hybrid query as a caller issues it: the approximate scores come from the query and the resident codes. */
module HnswPq {
  import opened Core
  import opened Ranking
  import opened Nearest
  import opened Beam
  import opened Format
  import opened Reader
  import opened Distance
  import opened HnswSearch
  import opened BatchFetch
  import opened HybridReference
  import opened HnswHybrid
  import Adc

  /** `HnswIndex::search_hybrid` with its PQ tier, if it has one. `ap` are the approximate scores it worked with. */
  method SearchHybrid(t: Topology, dims: nat, tier: Option<Adc.PqTier>, query: Vector, store: VectorStore, sc: seq<real>,
                      distance: seq<byte> -> real, efSearch: nat, k: nat, fetchBatchSize: nat, want: nat -> nat,
                      preadv: nat -> nat -> nat -> int)
    returns (r: Result<(seq<Neighbor>, QueryCounters)>, ghost ap: seq<real>, ghost from: nat,
             ghost discovered: set<nat>, ghost fetched: set<nat>, ghost expanded: set<nat>, ghost results: set<nat>)
    requires WellFormed(t) && store.Valid() && sc == ScoresOf(store, distance) && |sc| == t.len
    requires tier.Some? ==> tier.value.Fits(dims, t.len)
    ensures |query| != dims ==> r == Err(DimensionMismatch(dims, |query|))
    ensures |query| == dims && t.entryPoint.None? ==> r == Ok(([], ZERO_COUNTERS))
    ensures |query| == dims && t.entryPoint.Some? && tier.None? ==> r == Err(Unsupported)
    ensures |query| == dims && t.entryPoint.Some? && tier.Some? ==>
              |ap| == t.len && Adc.Approximates(tier.value.codebook, query, tier.value.codes, ap)
    ensures |query| == dims && t.entryPoint.Some? && tier.Some? && r.Ok? ==>
              && from == ScanDescent(t, ap, t.maxLayer, t.entryPoint.value).0
              && Ends(t.adjacency[0], HybridQuery(sc, ap, Width(efSearch, k), want, fetchBatchSize), from,
                      discovered, fetched, expanded)
              && Paid(store.layout, HybridBatches(t.adjacency[0], HybridQuery(sc, ap, Width(efSearch, k), want, fetchBatchSize),
                                                  {from}, {}, {}), r.value.1.seeks, r.value.1.bytesRead)
              && FillsWidth(|fetched|, |results|, efSearch, k)
              && ExactWhenCovered(t.adjacency[0], sc, from, efSearch, k, r.value.0)
              && HybridCertified(t.adjacency[0], sc, from, Width(efSearch, k), discovered, fetched, expanded, results)
              && Within(sc, fetched) && IsTopK(r.value.0, sc, fetched, k) && IsTopK(r.value.0, sc, results, k)
              && Frugal(r.value.1, ScanDescent(t, ap, t.maxLayer, t.entryPoint.value).1, discovered, fetched)
    ensures |query| == dims && t.entryPoint.Some? && tier.Some? && r.Ok? && DistinctScores(ap) ==>
              HybridAnswers(t, HybridQuery(sc, ap, Width(efSearch, k), want, fetchBatchSize), k, r.value.0, r.value.1)
    ensures |query| == dims && t.entryPoint.Some? && tier.Some? && ReadsProgress(preadv) ==> r.Ok?
  {
    hide *;
    ap, from, discovered, fetched, expanded, results := [], 0, {}, {}, {}, {};
    var scores: Option<seq<real>> := None;
    if |query| == dims && t.entryPoint.Some? && tier.Some? {
      Adc.TierHasCodes(tier.value, dims, t.len);
      var scored := Adc.ScoreCodes(tier.value.codebook, query, tier.value.codes, t.len);
      scores := Some(scored.value);
      ap := scored.value;
    }
    r, from, discovered, fetched, expanded, results :=
      HnswHybrid.SearchHybrid(t, dims, |query|, store, sc, distance, scores, efSearch, k, fetchBatchSize, want, preadv);
  }
}
