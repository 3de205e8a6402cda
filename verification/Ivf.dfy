/** The inverted-file backend: coarse cells, sorted posting lists, exact ranking of the probed candidates. */
module Ivf {
  import opened Core
  import opened Ranking
  import opened Nearest
  import opened Graph
  import opened IdLists
  import opened Select
  import opened Layout
  import opened Format
  import opened Reader
  import opened BatchFetch
  import opened SoftAssign
  import opened Distance
  import opened KMeans

  datatype IvfIndex = IvfIndex(postings: seq<seq<nat>>, lists: nat, dims: nat, len: nat, numProbes: nat)

  // ---- build ----

  /** Cells each vector joins: `soft_assign` capped by the cells there are, at least one. */
  function Soft(softAssign: nat, lists: nat): nat {
    var m := if softAssign < lists then softAssign else lists;
    if m < 1 then 1 else m
  }

  /** In numbers: as many as asked for, but at least one and, if there are any, at most all. */
  lemma SoftIs(softAssign: nat, lists: nat)
    ensures 1 <= softAssign <= lists ==> Soft(softAssign, lists) == softAssign
    ensures 1 <= lists <= softAssign ==> Soft(softAssign, lists) == lists
    ensures softAssign == 0 || lists == 0 ==> Soft(softAssign, lists) == 1
  {
  }

  /** An ascending list sorts to itself. */
  lemma SortedAlready(s: seq<nat>)
    requires StrictlyAscending(s)
    ensures SortedIds(s) == s
  {
    var t := SortedIds(s);
    forall x ensures x in t <==> x in s {
      assert x in t <==> x in multiset(t);
      assert x in s <==> x in multiset(s);
    }
    forall i, j | 0 <= i < j < |t| ensures t[i] < t[j] {
      if t[i] == t[j] {
        TwiceInMultiset(t, i, j);
        OnceInMultiset(s, t[i]);
      }
    }
    AscendingUnique(t, s);
  }

  lemma TwiceInMultiset(t: seq<nat>, i: nat, j: nat)
    requires i < j < |t| && t[i] == t[j]
    ensures multiset(t)[t[i]] >= 2
  {
    assert t == t[..j] + t[j..];
    assert t[..j][i] in multiset(t[..j]) && t[j..][0] in multiset(t[j..]);
  }

  lemma {:induction false} OnceInMultiset(s: seq<nat>, x: nat)
    requires StrictlyAscending(s)
    ensures multiset(s)[x] <= 1
  {
    if s != [] {
      var rest, last := s[..|s| - 1], s[|s| - 1];
      assert s == rest + [last];
      OnceInMultiset(rest, x);
      if x == last {
        assert x !in rest;
        assert x !in multiset(rest);
      }
    }
  }

  /** The built index: every vector in exactly the lists of its nearest cells, each list ascending. */
  ghost predicate BuiltFrom(index: IvfIndex, points: seq<Vector>, cents: seq<Vector>, d: nat, soft: nat) {
    && Shaped(points, d) && Shaped(cents, d)
    && index.lists == |cents| == |index.postings| && index.len == |points| && index.dims == d
    && Assigned(ToCentroids(points, cents, d), |cents|, soft, index.postings, |points|)
  }

  /** Sort every list; the pushes came in vector order, so nothing moves. */
  method SortLists(postings0: seq<seq<nat>>) returns (postings: seq<seq<nat>>)
    requires forall c :: 0 <= c < |postings0| ==> StrictlyAscending(postings0[c])
    ensures postings == postings0
  {
    postings := postings0;
    for c := 0 to |postings0|
      invariant postings == postings0
    {
      SortedAlready(postings0[c]);
      postings := postings[c := SortedIds(postings[c])];
    }
  }

  /** `IvfIndex::build_inner` without the PQ tier: coarse k-means, soft assignment, sorted lists. */
  method Build(points: seq<Vector>, d: nat, numLists: nat, softAssign: nat, numProbes: nat, maxIters: nat, seeds: Seeds)
    returns (index: IvfIndex, cents: seq<Vector>, ghost start: seq<Vector>, ghost picks: seq<nat>)
    requires Shaped(points, d) && numLists >= 1 && (points != [] ==> seeds.Fits(|points|))
    ensures points == [] ==> index == IvfIndex([], 0, d, 0, numProbes)
    ensures points != [] ==>
              index.lists == |cents| == Min(numLists, |points|) && WellTrained(points, d, numLists, maxIters, cents, start, picks, seeds)
    ensures BuiltFrom(index, points, cents, d, Soft(softAssign, index.lists)) && index.numProbes == numProbes
  {
    hide NearestError, PlusPlus, Assigned, L2, ToCentroids, WellTrained, Seeds.Fits;
    start, picks := [], [];
    if points == [] {
      NothingAssigned(d, Soft(softAssign, 0));
      return IvfIndex([], 0, d, 0, numProbes), [], start, picks;
    }
    var trained;
    trained, start, picks := KMeans.Train(points, d, numLists, maxIters, seeds);
    cents := trained[..];
    SizeOfTrained(points, d, numLists, maxIters, cents, start, picks, seeds);
    var soft := Soft(softAssign, |cents|);
    var table := DistanceTable(points, cents, d);
    var postings := SoftAssign.AssignAll(table, |cents|, soft);
    AssignedShape(table, |cents|, soft, postings);
    postings := SortLists(postings);
    index := IvfIndex(postings, |cents|, d, |points|, numProbes);
  }

  lemma NothingAssigned(d: nat, soft: nat)
    ensures Assigned(ToCentroids([], [], d), 0, soft, [], 0)
  {
  }

  lemma AssignedShape(table: seq<seq<real>>, lists: nat, soft: nat, postings: seq<seq<nat>>)
    requires Assigned(table, lists, soft, postings, |table|)
    ensures |postings| == lists && forall c :: 0 <= c < lists ==> StrictlyAscending(postings[c]) && Listed(|table|, postings[c])
  {
  }

  /** Every vector sits in exactly `soft` lists, those of its nearest cells; every list is strictly ascending. */
  lemma PostingsCover(index: IvfIndex, points: seq<Vector>, cents: seq<Vector>, d: nat, softAssign: nat, v: nat)
    requires points != [] && cents != [] && v < |points|
    requires BuiltFrom(index, points, cents, d, Soft(softAssign, |cents|))
    ensures |ListsOf(index.postings, v)| == Soft(softAssign, |cents|)
    ensures Within(ToCentroids(points, cents, d)[v], Range(|cents|))
    ensures IsBest(ToCentroids(points, cents, d)[v], Soft(softAssign, |cents|), Range(|cents|), ListsOf(index.postings, v))
    ensures forall c :: 0 <= c < |index.postings| ==> StrictlyAscending(index.postings[c])
  {
    var table := ToCentroids(points, cents, d);
    JoinsExactlySoft(table, |cents|, Soft(softAssign, |cents|), index.postings, v);
    AssignedShape(table, |cents|, Soft(softAssign, |cents|), index.postings);
    hide Assigned, IsBest, ListsOf;
  }

  // ---- candidates ----

  /** The vectors listed in the `probes` cells nearest to the query. `cs` scores the cells. */
  ghost function Probed(postings: seq<seq<nat>>, cs: seq<real>, probes: nat): set<nat>
    requires |cs| == |postings|
  {
    set c, v | c in Members(NearestCentroids(cs, probes)) && c < |postings| && v in postings[c] :: v
  }

  /** Every listed vector exists. */
  ghost predicate InStore(index: IvfIndex) {
    |index.postings| == index.lists && forall c :: 0 <= c < |index.postings| ==> Listed(index.len, index.postings[c])
  }

  /** What merging the lists of the first `i` probed cells has gathered. */
  ghost predicate Gathered(postings: seq<seq<nat>>, cells: seq<nat>, i: nat, merged: seq<nat>)
    requires Listed(|postings|, cells) && i <= |cells|
  {
    forall v :: v in merged <==> exists j :: 0 <= j < i && v in postings[cells[j]]
  }

  lemma GatherNext(postings: seq<seq<nat>>, cells: seq<nat>, i: nat, merged: seq<nat>)
    requires Listed(|postings|, cells) && i < |cells| && Gathered(postings, cells, i, merged)
    ensures Gathered(postings, cells, i + 1, merged + postings[cells[i]])
  {
    forall v ensures v in merged + postings[cells[i]] <==> exists j :: 0 <= j < i + 1 && v in postings[cells[j]] {
    }
  }

  lemma GatheredIsProbed(postings: seq<seq<nat>>, cs: seq<real>, probes: nat, merged: seq<nat>)
    requires |cs| == |postings| && Gathered(postings, NearestCentroids(cs, probes), |NearestCentroids(cs, probes)|, merged)
    ensures Members(merged) == Probed(postings, cs, probes)
  {
    var cells := NearestCentroids(cs, probes);
    hide NearestCentroids;
    forall v ensures v in Members(merged) <==> v in Probed(postings, cs, probes) {
      if v in merged {
        var j :| 0 <= j < |cells| && v in postings[cells[j]];
        assert cells[j] in Members(cells);
      }
      if v in Probed(postings, cs, probes) {
        var c :| c in Members(cells) && c < |postings| && v in postings[c];
        var j :| 0 <= j < |cells| && cells[j] == c;
      }
    }
  }

  /** Union the probed lists, then sort and deduplicate. */
  method Candidates(index: IvfIndex, cs: seq<real>, probes: nat) returns (r: seq<nat>)
    requires InStore(index) && |cs| == index.lists
    ensures StrictlyAscending(r) && Members(r) == Probed(index.postings, cs, probes)
  {
    hide NearestCentroids, Gathered, Probed;
    var cells := NearestCentroids(cs, probes);
    var merged: seq<nat> := [];
    NothingGathered(index.postings, cells);
    for i := 0 to |cells|
      invariant Gathered(index.postings, cells, i, merged)
    {
      GatherNext(index.postings, cells, i, merged);
      merged := merged + index.postings[cells[i]];
    }
    GatheredIsProbed(index.postings, cs, probes, merged);
    r := Dedup(SortedIds(merged));
    SortedMembers(merged);
  }

  lemma NothingGathered(postings: seq<seq<nat>>, cells: seq<nat>)
    requires Listed(|postings|, cells)
    ensures Gathered(postings, cells, 0, [])
  {
  }

  lemma SortedMembers(s: seq<nat>)
    ensures Members(Dedup(SortedIds(s))) == Members(s)
  {
    forall x ensures x in SortedIds(s) <==> x in s {
      assert x in SortedIds(s) <==> x in multiset(SortedIds(s));
      assert x in s <==> x in multiset(s);
    }
  }

  lemma ProbedInStore(index: IvfIndex, cs: seq<real>, probes: nat)
    requires InStore(index) && |cs| == index.lists
    ensures Probed(index.postings, cs, probes) <= Range(index.len)
  {
    hide NearestCentroids;
  }

  // ---- search ----

  /** Offer each fetched vector to the collector. */
  method RankVisits(ghost sc: seq<real>, ghost order: seq<nat>, visits: seq<(nat, real)>, k: nat) returns (out: seq<Neighbor>)
    requires ScoredVisits(sc, order, visits) && Distinct(order)
    ensures Within(sc, Members(order)) && IsTopK(out, sc, Members(order), k)
  {
    hide IsTopK, TopK.Valid, Records, Distinct;
    var topk := new TopK(k);
    OrderWithin(sc, order, visits);
    for n := 0 to |visits|
      invariant topk.Valid() && fresh(topk) && topk.k == k
      invariant Within(sc, Members(order[..n])) && topk.offered == multiset(Records(sc, Members(order[..n])))
    {
      MembersStep(order, n);
      RecordsAdd(sc, Members(order[..n]), order[n]);
      topk.Offer(Neighbor(visits[n].0, visits[n].1));
    }
    assert order[..|order|] == order;
    out := topk.IntoSortedVec();
    CollectorIsTopK(out, sc, Members(order), k);
  }

  lemma OrderWithin(sc: seq<real>, order: seq<nat>, visits: seq<(nat, real)>)
    requires ScoredVisits(sc, order, visits)
    ensures Within(sc, Members(order)) && |visits| == |order|
    ensures Within(sc, Members(order[..0])) && multiset(Records(sc, Members(order[..0]))) == multiset{}
  {
    assert Records(sc, Members(order[..0])) == {};
  }

  /** Cells probed: `num_probes` capped by the cells there are, at least one. */
  function Probes(index: IvfIndex): nat {
    Soft(index.numProbes, index.lists)
  }

  /** So a query probes that many different cells, those whose centroids are nearest. */
  lemma ProbedCells(index: IvfIndex, cs: seq<real>)
    requires |cs| == index.lists >= 1
    ensures var cells := NearestCentroids(cs, Probes(index));
            && Distinct(cells) && Within(cs, Range(index.lists)) && IsBest(cs, |cells|, Range(index.lists), Members(cells))
            && (1 <= index.numProbes <= index.lists ==> |cells| == index.numProbes)
            && (index.numProbes > index.lists ==> |cells| == index.lists)
            && (index.numProbes == 0 ==> |cells| == 1)
  {
    NearestCentroidsAreBest(cs, Probes(index));
    hide NearestCentroids, IsBest;
    SameCount(cs, Probes(index), |NearestCentroids(cs, Probes(index))|, Range(index.lists), Members(NearestCentroids(cs, Probes(index))));
  }

  lemma SameCount(sc: seq<real>, a: nat, b: nat, nodes: set<nat>, best: set<nat>)
    requires Within(sc, nodes) && IsBest(sc, a, nodes, best) && b == Min(a, |nodes|)
    ensures IsBest(sc, b, nodes, best)
  {
  }

  /** Work of one fetched candidate list: one approximate score per cell (and per gated candidate), one exact distance
      per fetched vector, and the seeks and bytes of one planned read: at most one seek, at least one slot each. */
  ghost predicate Priced(c: QueryCounters, approx: nat, fetched: set<nat>, layout: BlockLayout) {
    && c.approxDistances == approx && c.exactDistances == |fetched| && c.nodesVisited == 0
    && c.seeks == c.sequentialRuns <= |fetched| && c.bytesRead >= |fetched| * layout.vectorBytes
    && exists order :: Members(order) == fetched && PaidFor(layout, order, c.seeks, c.bytesRead)
  }

  /** Read a candidate list in coalesced runs and keep the `k` exactly nearest. */
  method FetchAndRank(store: VectorStore, sc: seq<real>, distance: seq<byte> -> real, candidates: seq<nat>, k: nat,
                      preadv: nat -> nat -> int, approx: nat)
    returns (r: Result<(seq<Neighbor>, QueryCounters)>)
    requires store.Valid() && sc == ScoresOf(store, distance) && Listed(|sc|, candidates) && StrictlyAscending(candidates)
    ensures r.Ok? ==> Within(sc, Members(candidates)) && IsTopK(r.value.0, sc, Members(candidates), k)
    ensures r.Ok? ==> Priced(r.value.1, approx, Members(candidates), store.layout)
    ensures BatchProgress(preadv) ==> r.Ok?
  {
    hide VectorStore.Valid, ScoredVisits, IsTopK, Listed, PaidFor;
    MembersSize(candidates);
    var visits, plan := FetchBatch(store, sc, distance, candidates, preadv);
    if visits.Err? {
      return Err(visits.error);
    }
    var out := RankVisits(sc, plan.order, visits.value, k);
    assert plan.spanBytes >= 0 by {
      assert |candidates| * store.layout.vectorBytes >= 0;
    }
    var counters := ZERO_COUNTERS.AddApprox(approx).AddExact(|candidates|).AddRead(plan.spanBytes, plan.seeks, plan.runs);
    r := Ok((out, counters));
  }

  /** `IvfIndex::search`. */
  method Search(index: IvfIndex, store: VectorStore, cs: seq<real>, sc: seq<real>, distance: seq<byte> -> real,
                queryDims: nat, k: nat, preadv: nat -> nat -> int)
    returns (r: Result<(seq<Neighbor>, QueryCounters)>)
    requires InStore(index) && |cs| == index.lists && store.Valid() && sc == ScoresOf(store, distance) && index.len == |sc|
    ensures queryDims != index.dims ==> r == Err(DimensionMismatch(index.dims, queryDims))
    ensures queryDims == index.dims && (index.len == 0 || index.lists == 0) ==> r == Ok(([], ZERO_COUNTERS))
    ensures queryDims == index.dims && index.len > 0 && index.lists > 0 && r.Ok? ==>
              var candidates := Probed(index.postings, cs, Probes(index));
              && Within(sc, candidates) && IsTopK(r.value.0, sc, candidates, k)
              && Priced(r.value.1, index.lists, candidates, store.layout)
    ensures queryDims == index.dims && BatchProgress(preadv) ==> r.Ok?
  {
    hide VectorStore.Valid, IsTopK, Probed, InStore, Priced, Range;
    if queryDims != index.dims {
      return Err(DimensionMismatch(index.dims, queryDims));
    }
    if index.len == 0 || index.lists == 0 {
      return Ok(([], ZERO_COUNTERS));
    }
    var candidates := Candidates(index, cs, Probes(index));
    ProbedInStore(index, cs, Probes(index));
    CandidateFacts(candidates, sc);
    if candidates == [] {
      NoCandidates(store, sc, k, index.lists);
      return Ok(([], ZERO_COUNTERS.AddApprox(index.lists)));
    }
    r := FetchAndRank(store, sc, distance, candidates, k, preadv, index.lists);
  }

  lemma CandidateFacts(candidates: seq<nat>, sc: seq<real>)
    requires StrictlyAscending(candidates) && Members(candidates) <= Range(|sc|)
    ensures Listed(|sc|, candidates) && |Members(candidates)| == |candidates| && Distinct(candidates)
  {
    forall j | 0 <= j < |candidates| ensures candidates[j] < |sc| {
      assert candidates[j] in Members(candidates);
    }
    MembersSize(candidates);
  }

  lemma NoCandidates(store: VectorStore, sc: seq<real>, k: nat, approx: nat)
    requires store.Valid()
    ensures Members([]) == {} && IsTopK([], sc, {}, k)
    ensures Priced(ZERO_COUNTERS.AddApprox(approx), approx, {}, store.layout)
  {
    LayoutIsValid(store);
    PlanPays(store.layout, []);
    assert Members([]) == {};
    assert Ids([]) == {};
  }

  // ---- the PQ gate ----

  /** `IvfIndex::search_hybrid`: only the candidates the table scores `ap` rank best are fetched. */
  method SearchHybrid(index: IvfIndex, store: VectorStore, cs: seq<real>, sc: seq<real>, distance: seq<byte> -> real,
                      ap: Option<seq<real>>, queryDims: nat, k: nat, want: nat -> nat, fetchBatchSize: nat,
                      preadv: nat -> nat -> int)
    returns (r: Result<(seq<Neighbor>, QueryCounters)>, ghost gate: set<nat>)
    requires InStore(index) && |cs| == index.lists && store.Valid() && sc == ScoresOf(store, distance) && index.len == |sc|
    requires (ap.Some? ==> |ap.value| == |sc|) && fetchBatchSize >= 1
    ensures queryDims != index.dims ==> r == Err(DimensionMismatch(index.dims, queryDims))
    ensures queryDims == index.dims && (index.len == 0 || index.lists == 0) ==> r == Ok(([], ZERO_COUNTERS))
    ensures queryDims == index.dims && index.len > 0 && index.lists > 0 && ap.None? ==> r == Err(Unsupported)
    ensures queryDims == index.dims && index.len > 0 && index.lists > 0 && ap.Some? && r.Ok? ==>
              var candidates := Probed(index.postings, cs, Probes(index));
              && candidates <= Range(|sc|) && gate <= candidates
              && (candidates != {} ==> IsBest(ap.value, Budget(want(|candidates|), fetchBatchSize), candidates, gate))
              && IsTopK(r.value.0, sc, gate, k)
              && Priced(r.value.1, index.lists + |candidates|, gate, store.layout)
    ensures queryDims == index.dims && (index.len == 0 || index.lists == 0 || ap.Some?) && BatchProgress(preadv) ==> r.Ok?
  {
    hide VectorStore.Valid, IsTopK, Probed, InStore, Priced, Range, IsBest, SelectClosest;
    gate := {};
    if queryDims != index.dims {
      return Err(DimensionMismatch(index.dims, queryDims)), gate;
    }
    if index.len == 0 || index.lists == 0 {
      return Ok(([], ZERO_COUNTERS)), gate;
    }
    if ap.None? {
      return Err(Unsupported), gate;
    }
    var candidates := Candidates(index, cs, Probes(index));
    ProbedInStore(index, cs, Probes(index));
    CandidateFacts(candidates, sc);
    if candidates == [] {
      NoCandidates(store, sc, k, index.lists);
      return Ok(([], ZERO_COUNTERS.AddApprox(index.lists))), gate;
    }
    var budget := Budget(want(|candidates|), fetchBatchSize);
    var top := SelectClosest(ap.value, candidates, budget);
    SelectClosestIsBest(ap.value, candidates, budget);
    BestIsSubset(ap.value, budget, Members(candidates), Members(top));
    SortedTop(top, |sc|);
    var sorted := SortedIds(top);
    gate := Members(sorted);
    r := FetchAndRank(store, sc, distance, sorted, k, preadv, index.lists + |candidates|);
  }

  lemma BestIsSubset(sc: seq<real>, k: nat, nodes: set<nat>, best: set<nat>)
    requires Within(sc, nodes) && IsBest(sc, k, nodes, best)
    ensures best <= nodes
  {
  }

  lemma SortedTop(top: seq<nat>, n: nat)
    requires Distinct(top) && Listed(n, top)
    ensures StrictlyAscending(SortedIds(top)) && Members(SortedIds(top)) == Members(top)
    ensures Listed(n, SortedIds(top)) && |Members(SortedIds(top))| == |SortedIds(top)|
  {
    var s := SortedIds(top);
    forall x ensures x in s <==> x in top {
      assert x in s <==> x in multiset(s);
      assert x in top <==> x in multiset(top);
    }
    forall i, j | 0 <= i < j < |s| ensures s[i] < s[j] {
      if s[i] == s[j] {
        TwiceInMultiset(s, i, j);
        DistinctOnce(top, s[i]);
      }
    }
    assert Members(s) == Members(top);
    forall j | 0 <= j < |s| ensures s[j] < n {
      assert s[j] in top;
    }
    MembersSize(s);
  }

  lemma {:induction false} DistinctOnce(s: seq<nat>, x: nat)
    requires Distinct(s)
    ensures multiset(s)[x] <= 1
  {
    if s != [] {
      var rest, last := s[..|s| - 1], s[|s| - 1];
      assert s == rest + [last];
      DistinctOnce(rest, x);
      if x == last {
        assert x !in rest;
        assert x !in multiset(rest);
      }
    }
  }
}
