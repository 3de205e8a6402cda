/** What the inverted-file index guarantees against the brute-force oracle. */
module IvfOracle {
  import opened Ranking
  import opened Nearest
  import opened Graph
  import opened Writer
  import opened Reader
  import opened Distance
  import opened SoftAssign
  import opened Ivf
  import Brute

  lemma BuiltIsInStore(index: IvfIndex, points: seq<Vector>, cents: seq<Vector>, d: nat, soft: nat)
    requires BuiltFrom(index, points, cents, d, soft)
    ensures InStore(index)
  {
    AssignedShape(ToCentroids(points, cents, d), |cents|, soft, index.postings);
  }

  // ---- probing every list ----

  lemma AllCellsProbed(cs: seq<real>, probes: nat)
    requires probes >= |cs|
    ensures Members(NearestCentroids(cs, probes)) == Range(|cs|)
  {
    NearestCentroidsAreBest(cs, probes);
    SubsetOfSameSize(Members(NearestCentroids(cs, probes)), Range(|cs|));
  }

  /** Every vector is in some list, so probing all lists reaches every vector. */
  lemma ProbeAllReachesAll(index: IvfIndex, points: seq<Vector>, cents: seq<Vector>, d: nat, softAssign: nat,
                           cs: seq<real>, probes: nat)
    requires points != [] && cents != [] && BuiltFrom(index, points, cents, d, Soft(softAssign, |cents|))
    requires |cs| == index.lists <= probes
    ensures Probed(index.postings, cs, probes) == Range(index.len)
  {
    BuiltIsInStore(index, points, cents, d, Soft(softAssign, |cents|));
    ProbedInStore(index, cs, probes);
    AllCellsProbed(cs, probes);
    forall v | v in Range(index.len) ensures v in Probed(index.postings, cs, probes) {
      PostingsCover(index, points, cents, d, softAssign, v);
      hide NearestCentroids, Assigned;
      var c :| c in ListsOf(index.postings, v);
      assert c in Members(NearestCentroids(cs, probes)) && v in index.postings[c];
    }
  }

  /** Probing all lists of an f32 store gives exactly the brute-force answer, list for list. */
  lemma ProbeAllIsBruteForce(index: IvfIndex, points: seq<Vector>, cents: seq<Vector>, d: nat, softAssign: nat,
                             cs: seq<real>, store: VectorStore, distance: seq<word> -> real, k: nat,
                             found: seq<Neighbor>, exact: seq<Neighbor>)
    requires points != [] && cents != [] && BuiltFrom(index, points, cents, d, Soft(softAssign, |cents|))
    requires |cs| == index.lists <= index.numProbes && store.Valid() && store.Len() == index.len
    requires var sc := ScoresOf(store, Brute.OnBytes(distance));
             && Within(sc, Probed(index.postings, cs, Probes(index)))
             && IsTopK(found, sc, Probed(index.postings, cs, Probes(index)), k)
             && Within(sc, Range(store.Len())) && IsTopK(exact, sc, Range(store.Len()), k)
    ensures found == exact
  {
    ProbeAllReachesAll(index, points, cents, d, softAssign, cs, Probes(index));
    hide Probed, BuiltFrom, ScoresOf;
    TopKUnique(found, exact, ScoresOf(store, Brute.OnBytes(distance)), Range(store.Len()), k);
  }

  // ---- raising the probe count ----

  /** More probes, at least the same candidates. */
  lemma MoreProbesMoreCandidates(postings: seq<seq<nat>>, cs: seq<real>, fewer: nat, more: nat)
    requires |cs| == |postings| && fewer <= more
    ensures Probed(postings, cs, fewer) <= Probed(postings, cs, more)
  {
    NearestCentroidsAreBest(cs, fewer);
    NearestCentroidsAreBest(cs, more);
    BestNested(cs, fewer, more, Range(|cs|), Members(NearestCentroids(cs, fewer)), Members(NearestCentroids(cs, more)));
    hide NearestCentroids;
  }

  /** A true nearest neighbour found with few probes is still found with more. */
  lemma FoundStaysFound(index: IvfIndex, cs: seq<real>, fewer: nat, more: nat, sc: seq<real>, k: nat,
                        exact: seq<Neighbor>, before: seq<Neighbor>, after: seq<Neighbor>, n: Neighbor)
    requires InStore(index) && |cs| == index.lists && fewer <= more && index.len == |sc|
    requires IsTopK(exact, sc, Range(|sc|), k)
    requires Within(sc, Probed(index.postings, cs, fewer)) && IsTopK(before, sc, Probed(index.postings, cs, fewer), k)
    requires Within(sc, Probed(index.postings, cs, more)) && IsTopK(after, sc, Probed(index.postings, cs, more), k)
    requires n in exact && n in before
    ensures n in after
  {
    MoreProbesMoreCandidates(index.postings, cs, fewer, more);
    ProbedInStore(index, cs, more);
    hide Probed, InStore;
    var some := Probed(index.postings, cs, more);
    assert n.id in Ids(exact) && n.id in Probed(index.postings, cs, fewer);
    TopKMemberSurvives(sc, k, Range(|sc|), some, Ids(exact), Ids(after), n.id);
    var m :| m in after && m.id == n.id;
  }

  // ---- the PQ gate ----

  /** A gate wide enough for every candidate changes nothing. */
  lemma WideGateIsPlain(candidates: set<nat>, gate: set<nat>, ap: seq<real>, sc: seq<real>, budget: nat, k: nat,
                        gated: seq<Neighbor>, plain: seq<Neighbor>)
    requires Within(ap, candidates) && Within(sc, candidates) && budget >= |candidates|
    requires candidates != {} ==> IsBest(ap, budget, candidates, gate)
    requires gate <= candidates && IsTopK(gated, sc, gate, k) && IsTopK(plain, sc, candidates, k)
    ensures gated == plain
  {
    SubsetOfSameSize(gate, candidates);
    TopKUnique(gated, plain, sc, candidates, k);
  }

  /** A true nearest neighbour is lost only at the gate: if the gate lets it through it is returned. */
  lemma GateKeepsWhatItFetches(sc: seq<real>, k: nat, candidates: set<nat>, gate: set<nat>,
                               plain: seq<Neighbor>, gated: seq<Neighbor>, n: Neighbor)
    requires Within(sc, candidates) && gate <= candidates
    requires IsTopK(plain, sc, candidates, k) && IsTopK(gated, sc, gate, k)
    requires n in plain
    ensures n in gated <==> n.id in gate
  {
    assert n.id in Ids(plain);
    if n.id in gate {
      TopKMemberSurvives(sc, k, candidates, gate, Ids(plain), Ids(gated), n.id);
      var m :| m in gated && m.id == n.id;
    }
  }
}
