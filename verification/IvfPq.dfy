/** The PQ tier of the inverted-file backend: a codebook trained on the corpus and one resident code per vector. */
module IvfPq {
  import opened Core
  import opened Ranking
  import opened Nearest
  import opened Graph
  import opened Layout
  import opened Format
  import opened Reader
  import opened BatchFetch
  import opened Distance
  import opened KMeans
  import opened Codebook
  import opened CodebookTraining
  import opened Adc
  import Ivf

  /** The PQ settings of a build. */
  datatype PqParams = PqParams(subspaces: nat, bits: nat, maxIters: nat, seeds: nat -> Seeds)

  /** The resident codes: code `i` is what the encoder makes of vector `i`. */
  ghost predicate CodesOf(cb: PqCodebook, points: seq<Vector>, codes: seq<byte>)
    requires cb.Valid() && Shaped(points, cb.dims)
  {
    && |codes| == |points| * cb.subspaces
    && forall i :: 0 <= i < |points| ==>
         i * cb.subspaces + cb.subspaces <= |codes| && Item(codes, i, cb.subspaces) == Encoded(cb, points[i])
  }

  lemma FlattenedItem(points: seq<Vector>, d: nat, i: nat)
    requires Shaped(points, d) && i < |points|
    ensures i * d + d <= |Flatten(points, d)| && Item(Flatten(points, d), i, d) == points[i]
  {
    BlockAppended([], d, points);
    assert [] + Flatten(points, d) == Flatten(points, d);
    assert RowAt(Flatten(points, d), 0, d, i, points[i]);
  }

  lemma BatchIsCodes(cb: PqCodebook, points: seq<Vector>, codes: seq<byte>)
    requires cb.Valid() && Shaped(points, cb.dims) && BatchOf(cb, Flatten(points, cb.dims), codes, |points|)
    ensures CodesOf(cb, points, codes)
  {
    hide PqCodebook.Valid, Encoded, Item, Flatten;
    forall i | 0 <= i < |points|
      ensures i * cb.subspaces + cb.subspaces <= |codes| && Item(codes, i, cb.subspaces) == Encoded(cb, points[i])
    {
      FlattenedItem(points, cb.dims, i);
    }
  }

  /** `len * dims` coordinates are a whole number of vectors. */
  lemma FlattenedSize(points: seq<Vector>, d: nat)
    requires Shaped(points, d) && d > 0
    ensures |Flatten(points, d)| % d == 0 && |Flatten(points, d)| / d == |points|
    ensures points != [] ==> |Flatten(points, d)| >= d && Flatten(points, d) != []
  {
    var n := |points|;
    assert n * d == |Flatten(points, d)|;
    DivModUnique(n * d, n, 0, d);
    if n > 0 {
      assert n * d == d + (n - 1) * d && (n - 1) * d >= 0;
    }
  }

  /** Coordinates `s * sub` to `s * sub + sub - 1` of every vector. */
  function SubVectors(points: seq<Vector>, s: nat, sub: nat): (r: seq<Vector>)
    requires forall i :: 0 <= i < |points| ==> s * sub + sub <= |points[i]|
    ensures Shaped(r, sub) && |r| == |points|
  {
    seq(|points|, i requires 0 <= i < |points| => points[i][s * sub..s * sub + sub])
  }

  /** The centroids of subspace `s` come from one k-means over the vectors' coordinates there. */
  ghost predicate SubspaceTrained(cb: PqCodebook, points: seq<Vector>, pq: PqParams, s: nat)
    requires cb.Valid() && Shaped(points, cb.dims) && s < cb.subspaces
  {
    && (forall i :: 0 <= i < |points| ==> s * cb.subDim + cb.subDim <= |points[i]|)
    && exists start, picks ::
         WellTrained(SubVectors(points, s, cb.subDim), cb.subDim, PowerOfTwo(pq.bits), pq.maxIters, cb.Rows(s), start, picks, pq.seeds(s))
  }

  /** The tier codes `points` under the settings `pq`, with a codebook trained on them. */
  ghost predicate TierOf(tier: PqTier, points: seq<Vector>, d: nat, pq: PqParams) {
    && tier.codebook.Valid() && tier.codebook.dims == d && tier.codebook.subspaces == pq.subspaces
    && tier.codebook.requested == PowerOfTwo(pq.bits)
    && Shaped(points, d) && (forall s :: 0 <= s < pq.subspaces ==> SubspaceTrained(tier.codebook, points, pq, s))
    && CodesOf(tier.codebook, points, tier.codes)
  }

  /** The columns of the flattened corpus are the vectors' own coordinates. */
  lemma FlatColumns(points: seq<Vector>, d: nat, subspaces: nat, s: nat)
    requires Shaped(points, d) && d > 0 && subspaces > 0 && d % subspaces == 0 && s < subspaces
    ensures forall i :: 0 <= i < |points| ==> s * (d / subspaces) + d / subspaces <= |points[i]|
    ensures Columns(Flatten(points, d), d, subspaces, s) == SubVectors(points, s, d / subspaces)
  {
    var flat, sub := Flatten(points, d), d / subspaces;
    FlattenedSize(points, d);
    RowFits(0, s, subspaces, sub, d);
    var columns, own := Columns(flat, d, subspaces, s), SubVectors(points, s, sub);
    forall i | 0 <= i < |points| ensures columns[i] == own[i] {
      hide *;
      FlatColumn(points, d, subspaces, s, i);
    }
  }

  lemma FlatColumn(points: seq<Vector>, d: nat, subspaces: nat, s: nat, i: nat)
    requires Shaped(points, d) && d > 0 && subspaces > 0 && d % subspaces == 0 && s < subspaces && i < |points|
    requires forall k :: 0 <= k < |points| ==> s * (d / subspaces) + d / subspaces <= |points[k]|
    ensures i < |Flatten(points, d)| / d
    ensures Columns(Flatten(points, d), d, subspaces, s)[i] == SubVectors(points, s, d / subspaces)[i]
  {
    hide Flatten, Columns, Item;
    var flat, sub := Flatten(points, d), d / subspaces;
    FlattenedSize(points, d);
    FlattenedItem(points, d, i);
    var column, own := Columns(flat, d, subspaces, s)[i], SubVectors(points, s, sub)[i];
    forall j | 0 <= j < sub ensures column[j] == own[j] {
      SubIndex(s, sub, j, d, subspaces);
      ColumnsAre(flat, d, subspaces, s, i, j);
      ItemAt(flat, i, d, s * sub + j);
    }
  }

  lemma SubIndex(s: nat, sub: nat, j: nat, d: nat, subspaces: nat)
    requires s < subspaces && d == subspaces * sub && j < sub
    ensures s * sub + j < d
  {
    RowFits(0, s, subspaces, sub, d);
  }

  lemma ItemAt(flat: seq<real>, i: nat, w: nat, j: nat)
    requires i * w + w <= |flat| && j < w
    ensures Item(flat, i, w)[j] == flat[i * w + j]
  {
  }

  lemma TrainedOnPoints(cb: PqCodebook, points: seq<Vector>, d: nat, pq: PqParams, starts: seq<seq<Vector>>,
                        picks: seq<seq<nat>>, s: nat)
    requires Shaped(points, d) && d > 0 && cb.Valid() && cb.dims == d && cb.subspaces == pq.subspaces && s < cb.subspaces
    requires d % cb.subspaces == 0 && cb.requested == PowerOfTwo(pq.bits)
    requires AllTrained(Flatten(points, d), d, pq.subspaces, cb.requested, pq.maxIters,
                        AllRows(cb), starts, picks, pq.seeds)
    ensures SubspaceTrained(cb, points, pq, s)
  {
    FlatColumns(points, d, pq.subspaces, s);
    SubDimIs(cb);
    hide WellTrained, Columns, Flatten, SubVectors, PqCodebook.Rows, AllRows;
    assert AllRows(cb)[s] == cb.Rows(s);
  }

  lemma SubDimIs(cb: PqCodebook)
    requires cb.Valid()
    ensures cb.dims / cb.subspaces == cb.subDim && cb.dims % cb.subspaces == 0
  {
    DivModUnique(cb.dims, cb.subDim, 0, cb.subspaces);
  }

  /** The PQ tier of a non-empty corpus: a codebook trained on it and the code of every vector. */
  method TrainTier(points: seq<Vector>, d: nat, pq: PqParams) returns (r: Result<PqTier>)
    requires Shaped(points, d) && d > 0 && points != [] && forall s: nat :: pq.seeds(s).Fits(|points|)
    ensures r.Ok? <==> pq.subspaces > 0 && 1 <= pq.bits <= 8 && d % pq.subspaces == 0
    ensures r.Err? ==> r == Err(InvalidConfig)
    ensures r.Ok? ==> TierOf(r.value, points, d, pq)
  {
    hide PqCodebook.Valid, BatchOf, CodesOf, AllTrained, Seeds.Fits, Flatten, Shaped;
    FlattenedSize(points, d);
    var data := Flatten(points, d);
    var trained; ghost var starts, picks;
    trained, starts, picks := CodebookTraining.Train(data, d, pq.subspaces, pq.bits, pq.maxIters, pq.seeds);
    if trained.Err? {
      return Err(trained.error);
    }
    forall s | 0 <= s < pq.subspaces ensures SubspaceTrained(trained.value, points, pq, s) {
      TrainedOnPoints(trained.value, points, d, pq, starts, picks, s);
    }
    hide SubspaceTrained;
    var batch := EncodeBatch(trained.value, data);
    BatchIsCodes(trained.value, points, batch.value);
    r := Ok(PqTier(trained.value, batch.value));
  }

  /** `IvfIndex::build_with_pq`: the coarse build, then the tier. An empty store has none and rejects no settings. */
  method Build(points: seq<Vector>, d: nat, numLists: nat, softAssign: nat, numProbes: nat, maxIters: nat, seeds: Seeds,
               pq: PqParams)
    returns (r: Result<(Ivf.IvfIndex, Option<PqTier>)>, cents: seq<Vector>, ghost start: seq<Vector>, ghost picks: seq<nat>)
    requires Shaped(points, d) && d > 0 && numLists >= 1
    requires points != [] ==> seeds.Fits(|points|) && forall s: nat :: pq.seeds(s).Fits(|points|)
    ensures points == [] ==> r == Ok((Ivf.IvfIndex([], 0, d, 0, numProbes), None))
    ensures points != [] ==> (r.Ok? <==> pq.subspaces > 0 && 1 <= pq.bits <= 8 && d % pq.subspaces == 0)
    ensures r.Err? ==> r == Err(InvalidConfig)
    ensures points != [] && r.Ok? ==>
              var index := r.value.0;
              && index.lists == |cents| == Min(numLists, |points|) && index.numProbes == numProbes
              && WellTrained(points, d, numLists, maxIters, cents, start, picks, seeds)
              && Ivf.BuiltFrom(index, points, cents, d, Ivf.Soft(softAssign, index.lists))
              && r.value.1.Some? && TierOf(r.value.1.value, points, d, pq)
  {
    hide Ivf.BuiltFrom, PqCodebook.Valid, CodesOf, WellTrained, Seeds.Fits, Shaped;
    var index;
    index, cents, start, picks := Ivf.Build(points, d, numLists, softAssign, numProbes, maxIters, seeds);
    if points == [] {
      return Ok((index, None)), cents, start, picks;
    }
    var tier := TrainTier(points, d, pq);
    if tier.Err? {
      return Err(tier.error), cents, start, picks;
    }
    r := Ok((index, Some(tier.value)));
  }

  /** What the gate scores: for every vector the squared distance from the query to its own reconstruction, and no
      other code would stand nearer to that vector. */
  lemma GateScores(tier: PqTier, points: seq<Vector>, d: nat, pq: PqParams, query: Vector, ap: seq<real>, i: nat,
                   other: seq<byte>)
    requires TierOf(tier, points, d, pq) && |query| == d && i < |points| == |ap| && tier.codebook.IsCode(other)
    requires Approximates(tier.codebook, query, tier.codes, ap)
    ensures var cb, own := tier.codebook, Encoded(tier.codebook, points[i]);
            && |Reconstruction(cb, own, cb.subspaces)| == |Reconstruction(cb, other, cb.subspaces)| == d
            && ap[i] == L2(query, Reconstruction(cb, own, cb.subspaces))
            && L2(points[i], Reconstruction(cb, own, cb.subspaces)) <= L2(points[i], Reconstruction(cb, other, cb.subspaces))
  {
    var cb := tier.codebook;
    TierFits(tier, points, d, pq);
    ApproximateIsDistance(cb, query, tier.codes, |points|, ap, i);
    EncodeIsOptimal(cb, points[i], other);
    hide PqCodebook.Valid, L2, Reconstruction, Encoded, Item, Approximates, AreCodes;
    assert Item(tier.codes, i, cb.subspaces) == Encoded(cb, points[i]);
  }

  /** Such a tier is one the hybrid searches accept. */
  lemma TierFits(tier: PqTier, points: seq<Vector>, d: nat, pq: PqParams)
    requires TierOf(tier, points, d, pq)
    ensures tier.Fits(d, |points|)
  {
    hide Encoded, Item;
    var cb, codes := tier.codebook, tier.codes;
    forall i | 0 <= i < |points|
      ensures i * cb.subspaces + cb.subspaces <= |codes| && cb.IsCode(Item(codes, i, cb.subspaces))
    {
      assert Item(codes, i, cb.subspaces) == Encoded(cb, points[i]);
    }
  }

  /** `IvfIndex::search_hybrid` with its PQ tier, if it has one. `ap` are the approximate scores of the gate. */
  method SearchHybrid(index: Ivf.IvfIndex, tier: Option<PqTier>, query: Vector, store: VectorStore, cs: seq<real>,
                      sc: seq<real>, distance: seq<byte> -> real, k: nat, want: nat -> nat, fetchBatchSize: nat,
                      preadv: nat -> nat -> int)
    returns (r: Result<(seq<Neighbor>, QueryCounters)>, ghost ap: seq<real>, ghost gate: set<nat>)
    requires Ivf.InStore(index) && |cs| == index.lists && store.Valid() && sc == ScoresOf(store, distance)
    requires index.len == |sc| && fetchBatchSize >= 1 && (tier.Some? ==> tier.value.Fits(index.dims, index.len))
    ensures |query| != index.dims ==> r == Err(DimensionMismatch(index.dims, |query|))
    ensures |query| == index.dims && (index.len == 0 || index.lists == 0) ==> r == Ok(([], ZERO_COUNTERS))
    ensures |query| == index.dims && index.len > 0 && index.lists > 0 && tier.None? ==> r == Err(Unsupported)
    ensures |query| == index.dims && index.len > 0 && index.lists > 0 && tier.Some? ==>
              |ap| == index.len && Approximates(tier.value.codebook, query, tier.value.codes, ap)
    ensures |query| == index.dims && index.len > 0 && index.lists > 0 && tier.Some? && r.Ok? ==>
              var candidates := Ivf.Probed(index.postings, cs, Ivf.Probes(index));
              && candidates <= Range(|sc|) && gate <= candidates
              && (candidates != {} ==> IsBest(ap, Budget(want(|candidates|), fetchBatchSize), candidates, gate))
              && IsTopK(r.value.0, sc, gate, k)
              && Ivf.Priced(r.value.1, index.lists + |candidates|, gate, store.layout)
    ensures |query| == index.dims && (index.len == 0 || index.lists == 0 || tier.Some?) && BatchProgress(preadv) ==> r.Ok?
  {
    hide *;
    ap, gate := [], {};
    var scores: Option<seq<real>> := None;
    if |query| == index.dims && index.len > 0 && index.lists > 0 && tier.Some? {
      TierHasCodes(tier.value, index.dims, index.len);
      var scored := ScoreCodes(tier.value.codebook, query, tier.value.codes, index.len);
      scores := Some(scored.value);
      ap := scored.value;
    }
    r, gate := Ivf.SearchHybrid(index, store, cs, sc, distance, scores, |query|, k, want, fetchBatchSize, preadv);
  }
}
