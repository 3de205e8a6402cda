/** The builders as callers use them: the corpus is read from a store of any dtype. */
module StoreBuild {
  import opened Core
  import opened Ranking
  import opened Graph
  import opened Writer
  import opened Reader
  import opened Distance
  import opened IdLists
  import opened SoftAssign
  import opened HnswSearch
  import opened HnswBuild
  import opened HnswDeterminism
  import opened HnswShard
  import opened KMeans
  import opened Corpus
  import Adc
  import Ivf
  import IvfPq

  /** All pairwise distances of a corpus under a metric. */
  function Pairwise(points: seq<Vector>, metric: (Vector, Vector) -> real): (dist: Distances)
    ensures Square(dist, |points|)
    ensures forall a, b :: 0 <= a < |points| && 0 <= b < |points| ==> dist[a][b] == metric(points[a], points[b])
  {
    seq(|points|, a requires 0 <= a < |points| =>
      seq(|points|, b requires 0 <= b < |points| => metric(points[a], points[b])))
  }

  /** The settings of a graph build; `levels` and `hubCount` are what the seed and the hub fraction come to. */
  datatype GraphParams = GraphParams(m: nat, mMax: nat, efConstruction: nat, hubCount: nat)

  /** `HnswIndex::build`. */
  method BuildHnsw<E(!new, 0)>(store: VectorStore, codec: SlotCodec<E>, value: E -> real,
                               metric: (Vector, Vector) -> real, params: GraphParams, levels: seq<nat>)
    returns (t: Topology)
    requires store.Valid() && codec.Fits(store.header.dimensions, store.layout.vectorBytes)
    requires |levels| == store.Len() && forall v :: 0 <= v < |levels| ==> levels[v] < 256
    ensures Resident(t, levels, params.efConstruction, params.m, params.mMax, params.hubCount,
                     Pairwise(Vectors(store, Decoder(codec, value)), metric))
  {
    hide VectorStore.Valid, SlotCodec.Fits, BuildOf;
    var points := ReadAll(store, codec, value);
    var dist := Pairwise(points, metric);
    t := BuildGraph(points, dist, params, levels);
  }

  method BuildGraph(points: seq<Vector>, dist: Distances, params: GraphParams, levels: seq<nat>) returns (t: Topology)
    requires Square(dist, |points|) && |levels| == |points| && forall v :: 0 <= v < |levels| ==> levels[v] < 256
    ensures Resident(t, levels, params.efConstruction, params.m, params.mMax, params.hubCount, dist)
  {
    var index, states := BuildResident(|points|, params.m, params.mMax, params.efConstruction, levels, dist, params.hubCount);
    BuiltIsResident(index, states, levels, params.efConstruction, params.hubCount, dist);
    hide Resident;
    t := index.View();
  }

  /** `HnswIndex::build_with_pq`: the same graph, and a tier unless the store is empty. */
  method BuildHnswPq<E(!new, 0)>(store: VectorStore, codec: SlotCodec<E>, value: E -> real,
                                 metric: (Vector, Vector) -> real, params: GraphParams, levels: seq<nat>, pq: IvfPq.PqParams)
    returns (r: Result<(Topology, Option<Adc.PqTier>)>)
    requires store.Valid() && codec.Fits(store.header.dimensions, store.layout.vectorBytes) && store.header.dimensions > 0
    requires |levels| == store.Len() && forall v :: 0 <= v < |levels| ==> levels[v] < 256
    requires store.Len() > 0 ==> forall s: nat :: pq.seeds(s).Fits(store.Len())
    ensures r.Err? <==> store.Len() > 0 && !(pq.subspaces > 0 && 1 <= pq.bits <= 8 && store.header.dimensions % pq.subspaces == 0)
    ensures r.Err? ==> r == Err(InvalidConfig)
    ensures r.Ok? ==>
              var points := Vectors(store, Decoder(codec, value));
              && Resident(r.value.0, levels, params.efConstruction, params.m, params.mMax, params.hubCount, Pairwise(points, metric))
              && (store.Len() == 0 <==> r.value.1.None?)
              && (store.Len() > 0 ==> IvfPq.TierOf(r.value.1.value, points, store.header.dimensions, pq)
                                      && r.value.1.value.Fits(store.header.dimensions, store.Len()))
  {
    hide VectorStore.Valid, SlotCodec.Fits, BuildOf, Resident, IvfPq.TierOf, Adc.PqTier.Fits, Seeds.Fits, Shaped;
    var points := ReadAll(store, codec, value);
    var tier := None;
    if points != [] {
      var trained := IvfPq.TrainTier(points, store.header.dimensions, pq);
      if trained.Err? {
        return Err(trained.error);
      }
      IvfPq.TierFits(trained.value, points, store.header.dimensions, pq);
      tier := Some(trained.value);
    }
    var dist := Pairwise(points, metric);
    var t := BuildGraph(points, dist, params, levels);
    r := Ok((t, tier));
  }

  /** `HnswIndex::build_sharded`: whole up to one shard or from as many shards as vectors, else shard by shard. */
  method BuildSharded<E(!new, 0)>(store: VectorStore, codec: SlotCodec<E>, value: E -> real,
                                  metric: (Vector, Vector) -> real, params: GraphParams, numShards: nat, softAssign: nat,
                                  maxIters: nat, seeds: Seeds, levelOf: (nat, nat) -> nat, hubCountOf: nat -> nat,
                                  levels: seq<nat>)
    returns (t: Topology, ghost cents: seq<Vector>, ghost start: seq<Vector>, ghost picks: seq<nat>,
             ghost postings: seq<seq<nat>>, ghost shards: seq<Shard>, ghost merged: seq<Layer>)
    requires store.Valid() && codec.Fits(store.header.dimensions, store.layout.vectorBytes)
    requires |levels| == store.Len() && forall v :: 0 <= v < |levels| ==> levels[v] < 256
    requires (store.Len() > 0 ==> seeds.Fits(store.Len())) && forall s: nat, l: nat :: levelOf(s, l) < 256
    ensures !(1 < numShards < store.Len()) ==>
              Resident(t, levels, params.efConstruction, params.m, params.mMax, params.hubCount,
                       Pairwise(Vectors(store, Decoder(codec, value)), metric))
    ensures 1 < numShards < store.Len() ==>
              var points, d := Vectors(store, Decoder(codec, value)), store.header.dimensions;
              var dist := Pairwise(points, metric);
              && Shaped(points, d) && WellTrained(points, d, numShards, maxIters, cents, start, picks, seeds)
              && Shaped(cents, d) && |cents| == numShards
              && Assigned(ToCentroids(points, cents, d), numShards,
                          if softAssign < 1 then 1 else if softAssign > numShards then numShards else softAssign,
                          postings, |points|)
              && |shards| == numShards && (forall c :: 0 <= c < numShards ==> shards[c].members == postings[c])
              && AllAlone(shards, |points|, levelOf, params.efConstruction, params.m, params.mMax, hubCountOf, dist)
              && (forall c :: 0 <= c < numShards && shards[c].members != [] ==>
                    Listed(|points|, shards[c].members) &&
                    BuiltOver(shards[c].sub, PointsAt(points, shards[c].members), metric, levelOf, c, params, hubCountOf(c)))
              && AllSubOk(shards, params.m, params.mMax)
              && t.len == |points| && MergedGraph(t, merged, shards, params.m, params.mMax, dist)
  {
    hide *;
    var points := ReadAll(store, codec, value);
    var dist := Pairwise(points, metric);
    t, cents, start, picks, postings, shards, merged :=
      HnswShard.BuildSharded(points, store.header.dimensions, params.m, params.mMax, params.efConstruction, numShards,
                             softAssign, maxIters, seeds, levelOf, hubCountOf, levels, params.hubCount, dist);
    if !(1 < numShards < |points|) {
      WholeIsResident(t, levels, params, dist);
    } else {
      forall c | 0 <= c < numShards && shards[c].members != []
        ensures Listed(|points|, shards[c].members) &&
                BuiltOver(shards[c].sub, PointsAt(points, shards[c].members), metric, levelOf, c, params, hubCountOf(c))
      {
        ShardOver(points, metric, shards, levelOf, c, params, hubCountOf);
      }
    }
  }

  /** The vectors of a shard, in the order of its local ids. */
  function PointsAt(points: seq<Vector>, members: seq<nat>): (r: seq<Vector>)
    requires Listed(|points|, members)
    ensures |r| == |members| && forall l :: 0 <= l < |members| ==> r[l] == points[members[l]]
  {
    seq(|members|, l requires 0 <= l < |members| => points[members[l]])
  }

  /** The subgraph of shard `c` is the build of its own vectors under the metric, at the levels drawn for the shard. */
  ghost predicate BuiltOver(sub: Topology, points: seq<Vector>, metric: (Vector, Vector) -> real,
                            levelOf: (nat, nat) -> nat, c: nat, params: GraphParams, hubCount: nat)
  {
    && |sub.nodeLevels| == |points| && (forall l: nat :: l < |points| ==> sub.nodeLevels[l] == levelOf(c, l))
    && sub.entryPoint == Some(0)
    && exists states :: BuildOf(states, sub.adjacency, |points|, sub.nodeLevels, params.efConstruction, params.m, params.mMax,
                                hubCount, Pairwise(points, metric))
  }

  lemma SubPairwise(points: seq<Vector>, metric: (Vector, Vector) -> real, members: seq<nat>)
    requires Listed(|points|, members)
    ensures SubDistances(members, Pairwise(points, metric)) == Pairwise(PointsAt(points, members), metric)
  {
    var a, b := SubDistances(members, Pairwise(points, metric)), Pairwise(PointsAt(points, members), metric);
    forall x | 0 <= x < |members| ensures a[x] == b[x] {
      forall y | 0 <= y < |members| ensures a[x][y] == b[x][y] {
      }
    }
  }

  lemma ShardOver(points: seq<Vector>, metric: (Vector, Vector) -> real, shards: seq<Shard>, levelOf: (nat, nat) -> nat,
                  c: nat, params: GraphParams, hubCountOf: nat -> nat)
    requires AllAlone(shards, |points|, levelOf, params.efConstruction, params.m, params.mMax, hubCountOf, Pairwise(points, metric))
    requires c < |shards| && shards[c].members != []
    ensures Listed(|points|, shards[c].members)
    ensures BuiltOver(shards[c].sub, PointsAt(points, shards[c].members), metric, levelOf, c, params, hubCountOf(c))
  {
    hide BuildOf;
    var s := shards[c];
    assert BuiltAlone(s, |points|, LevelsFor(levelOf, c, |s.members|), params.efConstruction, params.m, params.mMax,
                      hubCountOf(c), Pairwise(points, metric));
    SubPairwise(points, metric, s.members);
    hide SubDistances, Pairwise, PointsAt, LevelsFor;
  }

  lemma WholeIsResident(t: Topology, levels: seq<nat>, params: GraphParams, dist: Distances)
    requires WellFormed(t) && t.len == |levels| && t.nodeLevels == levels
    requires t.entryPoint == (if levels == [] then None else Some(0))
    requires exists states :: BuildOf(states, t.adjacency, |levels|, levels, params.efConstruction, params.m, params.mMax,
                                      params.hubCount, dist)
    ensures Resident(t, levels, params.efConstruction, params.m, params.mMax, params.hubCount, dist)
  {
  }

  /** `IvfIndex::build`. */
  method BuildIvf<E(!new, 0)>(store: VectorStore, codec: SlotCodec<E>, value: E -> real, numLists: nat, softAssign: nat,
                              numProbes: nat, maxIters: nat, seeds: Seeds)
    returns (index: Ivf.IvfIndex, cents: seq<Vector>, ghost start: seq<Vector>, ghost picks: seq<nat>)
    requires store.Valid() && codec.Fits(store.header.dimensions, store.layout.vectorBytes)
    requires numLists >= 1 && (store.Len() > 0 ==> seeds.Fits(store.Len()))
    ensures var points, d := Vectors(store, Decoder(codec, value)), store.header.dimensions;
            && (points == [] ==> index == Ivf.IvfIndex([], 0, d, 0, numProbes))
            && (points != [] ==>
                  && Shaped(points, d) && index.lists == |cents| == Min(numLists, |points|)
                  && WellTrained(points, d, numLists, maxIters, cents, start, picks, seeds))
            && Ivf.BuiltFrom(index, points, cents, d, Ivf.Soft(softAssign, index.lists)) && index.numProbes == numProbes
  {
    hide *;
    var points := ReadAll(store, codec, value);
    index, cents, start, picks :=
      Ivf.Build(points, store.header.dimensions, numLists, softAssign, numProbes, maxIters, seeds);
  }

  /** `IvfIndex::build_with_pq`. */
  method BuildIvfPq<E(!new, 0)>(store: VectorStore, codec: SlotCodec<E>, value: E -> real, numLists: nat, softAssign: nat,
                                numProbes: nat, maxIters: nat, seeds: Seeds, pq: IvfPq.PqParams)
    returns (r: Result<(Ivf.IvfIndex, Option<Adc.PqTier>)>, cents: seq<Vector>, ghost start: seq<Vector>, ghost picks: seq<nat>)
    requires store.Valid() && codec.Fits(store.header.dimensions, store.layout.vectorBytes) && store.header.dimensions > 0
    requires numLists >= 1
    requires store.Len() > 0 ==> seeds.Fits(store.Len()) && forall s: nat :: pq.seeds(s).Fits(store.Len())
    ensures r.Err? <==> store.Len() > 0 && !(pq.subspaces > 0 && 1 <= pq.bits <= 8 && store.header.dimensions % pq.subspaces == 0)
    ensures r.Err? ==> r == Err(InvalidConfig)
    ensures store.Len() == 0 ==> r == Ok((Ivf.IvfIndex([], 0, store.header.dimensions, 0, numProbes), None))
    ensures store.Len() > 0 && r.Ok? ==>
              var points, d, index := Vectors(store, Decoder(codec, value)), store.header.dimensions, r.value.0;
              && index.lists == |cents| == Min(numLists, |points|) && index.numProbes == numProbes
              && Shaped(points, d) && WellTrained(points, d, numLists, maxIters, cents, start, picks, seeds)
              && Ivf.BuiltFrom(index, points, cents, d, Ivf.Soft(softAssign, index.lists))
              && r.value.1.Some? && IvfPq.TierOf(r.value.1.value, points, d, pq) && r.value.1.value.Fits(d, |points|)
  {
    hide *;
    var points := ReadAll(store, codec, value);
    r, cents, start, picks := IvfPq.Build(points, store.header.dimensions, numLists, softAssign, numProbes, maxIters, seeds, pq);
    if points != [] && r.Ok? {
      IvfPq.TierFits(r.value.1.value, points, store.header.dimensions, pq);
    }
  }
}
