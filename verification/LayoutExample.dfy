/** A corpus whose sharded build lays out its unreached nodes out of id order, whatever the random picks. */
module LayoutExample {
  import opened Core
  import opened Nearest
  import opened Graph
  import opened IdLists
  import opened Select
  import opened Distance
  import opened SoftAssign
  import opened HnswSearch
  import opened HnswPrune
  import opened HnswBuild
  import opened HnswShard
  import opened HnswLayout
  import opened HnswLayoutTail
  import opened KMeansPlaces
  import Beam
  import KMeans

  // ---- the subgraph of one or two vectors ----

  /** Without edges the beam finds its entry point and nothing else. */
  lemma FindsEntry(g: Layer, sc: seq<real>, u: nat, ef: nat, ids: seq<nat>)
    requires BeamFound(g, sc, [u], ef, ids) && u < |g| && g[u] == [] && ef >= 1
    ensures ids == [u]
  {
    var visited, expanded :| Beam.Certified(g, sc, Members([u]), ef, visited, expanded, Members(ids));
    assert Members([u]) == {u};
    ReachableIsLeast(g, {u}, {u});
    hide Reachable, Beam.BeamResult;
    if |Members(ids)| >= ef {
      SubsetOfSameSize(Members(ids), {u});
    }
    assert Members(ids) == {u};
    OnlyMember(ids, u);
  }

  lemma OnlyMember(ids: seq<nat>, u: nat)
    requires Distinct(ids) && Members(ids) == {u}
    ensures ids == [u]
  {
    MembersSize(ids);
    assert ids[0] in Members(ids);
  }

  /** The closest of one node is that node. */
  lemma SelectsOne(sc: seq<real>, u: nat, cap: nat)
    requires u < |sc| && cap >= 1
    ensures Listed(|sc|, [u]) && SelectClosest(sc, [u], cap) == [u]
  {
    SelectClosestIsBest(sc, [u], cap);
    assert Members([u]) == {u};
    var r := SelectClosest(sc, [u], cap);
    hide SelectClosest;
    assert r[0] in Members(r);
  }

  lemma PairWired(g: Layer, after: Layer, cap: nat, dist: Distances)
    requires g == EmptyLayer(2) && cap >= 1 && LayerWired(g, after, 1, [0], cap, dist)
    ensures after == [[1], [0]]
  {
    hide SelectClosest, WireAll;
    SelectsOne(dist[1], 0, cap);
    WiredOnce(g, cap, dist);
  }

  lemma WiredOnce(g: Layer, cap: nat, dist: Distances)
    requires g == EmptyLayer(2) && cap >= 1 && InRange(g) && Square(dist, 2)
    ensures WireAll(g, 1, [0], 1, cap, dist) == [[1], [0]]
  {
    hide SelectClosest, Connected;
    LinkedPair(g);
    assert WireAll(g, 1, [0], 0, cap, dist) == g;
    assert Wired(g, 1, 0, cap, dist) == Pruned(Connected(g, 1, 0), 0, cap, dist[0]);
  }

  lemma LinkedPair(g: Layer)
    requires g == EmptyLayer(2)
    ensures Connected(g, 1, 0) == [[1], [0]]
  {
    assert Appended([], 0) == [0] && Appended([], 1) == [1];
    assert Connected(g, 1, 0) == g[1 := [0]][0 := [1]];
  }

  /** Inserting the second of two vectors, both on the base layer. */
  lemma PairInserted(before: seq<Layer>, after: seq<Layer>, ef: nat, m: nat, mMax: nat, dist: Distances)
    requires before == [EmptyLayer(2)] && Inserted(before, after, 1, 0, 2, ef, m, mMax, dist) && ef >= 1 && mMax >= 1
    ensures after == [[[1], [0]]]
  {
    hide InsertedOn, Climbed;
    var current: nat, trail: seq<seq<nat>> :| Climbed(before, dist[1], 0, 0, 0, current) &&
      Insertions(before, after, 1, 0, 0, current, trail, ef, m, mMax, dist);
    BaseInserted(before, after[0], current, trail, ef, m, mMax, dist);
  }

  lemma BaseInserted(before: seq<Layer>, after: Layer, current: nat, trail: seq<seq<nat>>, ef: nat, m: nat, mMax: nat,
                     dist: Distances)
    requires before == [EmptyLayer(2)] && |trail| == 1 && |dist| > 1 && ef >= 1 && mMax >= 1
    requires Climbed(before, dist[1], 0, 0, 0, current)
    requires InsertedOn(before[0], after, 1, EntriesAt(trail, current, 0), trail[0], ef, CapForLayer(m, mMax, 0), dist)
    ensures after == [[1], [0]]
  {
    hide BeamFound, LayerWired;
    FindsEntry(before[0], dist[1], 0, ef, trail[0]);
    PairWired(before[0], after, mMax, dist);
  }

  /** Lists within `m` outlive the post-build prune. */
  lemma ShortListsStay(before: seq<Layer>, after: seq<Layer>, n: nat, hubCount: nat, m: nat, dist: Distances)
    requires Finished(before, after, n, hubCount, m, dist) && forall u :: 0 <= u < |before[0]| ==> |before[0][u]| <= m
    ensures after == before
  {
    hide AreHubs, KeptEdges, WellPruned;
    if hubCount < n {
      var hubs :| AreHubs(before[0], hubCount, hubs) && HubPruned(before[0], after[0], hubs, m, dist);
      assert after[0] == before[0];
    }
    forall k | 0 <= k < |after| ensures after[k] == before[k] {
    }
  }

  function Flat(n: nat): (levels: seq<nat>)
    ensures |levels| == n && forall v :: 0 <= v < n ==> levels[v] == 0
  {
    seq(n, _ => 0)
  }

  /** One vector has no edges; two on the base layer are linked both ways. */
  lemma SmallBuild(states: seq<seq<Layer>>, adjacency: seq<Layer>, n: nat, levels: seq<nat>, ef: nat, m: nat, mMax: nat,
                   hubCount: nat, dist: Distances)
    requires BuildOf(states, adjacency, n, levels, ef, m, mMax, hubCount, dist)
    requires 1 <= n <= 2 && levels == Flat(n) && ef >= 1 && m >= 1 && mMax >= 1
    ensures adjacency == if n == 1 then [[[]]] else [[[1], [0]]]
  {
    hide Inserted, Finished;
    FirstInserted(states[0], states[1], n, ef, m, mMax, dist);
    assert EmptyLayer(1) == [[]];
    if n == 2 {
      assert Inserted(states[1], states[2], 1, levels[1], n, ef, m, mMax, dist);
      PairInserted(states[1], states[2], ef, m, mMax, dist);
    }
    ShortListsStay(states[n], adjacency, n, hubCount, m, dist);
  }

  lemma FirstInserted(before: seq<Layer>, after: seq<Layer>, n: nat, ef: nat, m: nat, mMax: nat, dist: Distances)
    requires before == [EmptyLayer(n)] && Inserted(before, after, 0, 0, n, ef, m, mMax, dist)
    ensures after == before
  {
  }

  // ---- the shards ----

  /** With different centroids, one of them at every point, each point joins exactly the one at its own place. */
  lemma JoinsItsPlace(points: seq<Vector>, cents: seq<Vector>, d: nat, v: nat, c: nat)
    requires Shaped(points, d) && Shaped(cents, d) && v < |points| && c < |cents|
    requires points[v] in cents && |Places(cents)| == |cents|
    ensures c in NearestCentroids(ToCentroids(points, cents, d)[v], 1) <==> cents[c] == points[v]
  {
    var sc := ToCentroids(points, cents, d)[v];
    var r := NearestCentroids(sc, 1);
    NearestCentroidsAreBest(sc, 1);
    var b := r[0];
    var own :| 0 <= own < |cents| && cents[own] == points[v];
    hide NearestCentroids, ToCentroids, L2;
    L2Zero(points[v], cents[own]);
    L2Zero(points[v], cents[b]);
    assert b in Members(r);
    if b != own {
      BestBeatsRest(sc, 1, Range(|sc|), Members(r), b, own);
      assert sc[b] <= sc[own] == 0.0;
    }
    SamePlaceSame(cents, b, own);
    SamePlaceSame(cents, c, own);
  }

  lemma SamePlaceSame(cents: seq<Vector>, a: nat, b: nat)
    requires |Places(cents)| == |cents| && a < |cents| && b < |cents|
    ensures cents[a] == cents[b] ==> a == b
  {
    if a < b {
      PlacesDistinct(cents, a, b);
    } else if b < a {
      PlacesDistinct(cents, b, a);
    }
  }

  const POINTS: seq<Vector> := [[0.0], [10.0], [20.0], [10.0]]

  lemma PointPlaces()
    ensures Shaped(POINTS, 1) && |POINTS| == 4 && Places(POINTS) == {[0.0], [10.0], [20.0]}
    ensures |Places(POINTS)| == 3
  {
    assert [0.0][0] != [10.0][0] && [10.0][0] != [20.0][0] && [0.0][0] != [20.0][0];
    assert POINTS[0] == [0.0] && POINTS[1] == [10.0] && POINTS[2] == [20.0];
  }

  /** The members of the shard whose centroid is at `place`. */
  function MembersAt(place: Vector): seq<nat> {
    if place == [0.0] then [0] else if place == [10.0] then [1, 3] else [2]
  }

  lemma MembersAtPlace(place: Vector, v: nat)
    requires place in {[0.0], [10.0], [20.0]}
    ensures StrictlyAscending(MembersAt(place))
    ensures v in MembersAt(place) <==> v < 4 && POINTS[v] == place
  {
    assert [0.0][0] != [10.0][0] && [10.0][0] != [20.0][0] && [0.0][0] != [20.0][0];
  }

  lemma PostingsAre(cents: seq<Vector>, postings: seq<seq<nat>>, c: nat)
    requires |cents| == 3 && Shaped(cents, 1) && Places(cents) == Places(POINTS) && Shaped(POINTS, 1)
    requires Assigned(ToCentroids(POINTS, cents, 1), 3, 1, postings, |POINTS|) && c < 3
    ensures |postings| == 3 && cents[c] in Places(POINTS) && postings[c] == MembersAt(cents[c])
  {
    hide NearestCentroids, ToCentroids, MembersAt;
    PointPlaces();
    assert cents[c] in Places(cents);
    forall v: nat ensures v in postings[c] <==> v in MembersAt(cents[c]) {
      MembersAtPlace(cents[c], v);
      if v < 4 {
        assert POINTS[v] in Places(POINTS);
        JoinsItsPlace(POINTS, cents, 1, v, c);
        assert v in postings[c] <==> c in NearestCentroids(ToCentroids(POINTS, cents, 1)[v], 1);
      } else {
        BeyondList(postings[c], v);
      }
    }
    MembersAtPlace(cents[c], 0);
    AscendingUnique(postings[c], MembersAt(cents[c]));
  }

  lemma BeyondList(list: seq<nat>, v: nat)
    requires Listed(4, list) && v >= 4
    ensures v !in list
  {
  }

  /** The subgraph of a shard of one or two vectors. */
  ghost predicate SmallSub(s: Shard) {
    && 1 <= |s.members| <= 2 && s.sub.nodeLevels == Flat(|s.members|)
    && s.sub.adjacency == if |s.members| == 1 then [[[]]] else [[[1], [0]]]
  }

  lemma SubIsSmall(s: Shard, levels: seq<nat>, ef: nat, m: nat, mMax: nat, hubCount: nat, dist: Distances)
    requires Square(dist, 4) && Listed(4, s.members) && 1 <= |s.members| <= 2 && levels == Flat(|s.members|)
    requires BuiltAlone(s, 4, levels, ef, m, mMax, hubCount, dist) && ef >= 1 && m >= 1 && mMax >= 1
    ensures SmallSub(s)
  {
    hide BuildOf;
    var sub := SubDistances(s.members, dist);
    var states :| BuildOf(states, s.sub.adjacency, |s.members|, levels, ef, m, mMax, hubCount, sub);
    SmallBuild(states, s.sub.adjacency, |s.members|, levels, ef, m, mMax, hubCount, sub);
  }

  /** The three shards, in the order of their centroids. */
  ghost predicate ThreeShards(shards: seq<Shard>, cents: seq<Vector>) {
    && |shards| == |cents| == 3 && Places(cents) == {[0.0], [10.0], [20.0]}
    && forall c :: 0 <= c < 3 ==> shards[c].members == MembersAt(cents[c]) && SmallSub(shards[c])
  }

  lemma EdgeOfSmall(s: Shard, place: Vector, layer: nat, u: nat, w: nat)
    requires ShardOk(s, 4) && s.members == MembersAt(place) && SmallSub(s)
    ensures ShardEdge(s, 4, layer, u, w) <==>
              layer == 0 && s.members == [1, 3] && ((u == 1 && w == 3) || (u == 3 && w == 1))
  {
    if s.members == [1, 3] && layer == 0 {
      var g := s.sub.adjacency[0];
      assert s.members[0] == 1 && s.members[g[0][0]] == 3 && s.members[1] == 3 && s.members[g[1][0]] == 1;
    }
  }

  lemma MiddleShard(shards: seq<Shard>, cents: seq<Vector>) returns (b: nat)
    requires ThreeShards(shards, cents)
    ensures b < 3 && shards[b].members == [1, 3]
  {
    hide SmallSub;
    assert [10.0] in Places(cents);
    b :| b < 3 && cents[b] == [10.0];
    assert [0.0][0] != [10.0][0];
  }

  lemma MergedEdgesAre(shards: seq<Shard>, cents: seq<Vector>, u: nat, w: nat)
    requires ThreeShards(shards, cents) && forall i :: 0 <= i < |shards| ==> ShardOk(shards[i], 4)
    ensures EdgeOfSome(shards, 4, 0, u, w) <==> (u == 1 && w == 3) || (u == 3 && w == 1)
  {
    hide SmallSub, ShardOk, ShardEdge, MembersAt;
    forall i | 0 <= i < |shards|
      ensures ShardEdge(shards[i], 4, 0, u, w) <==> shards[i].members == [1, 3] && ((u == 1 && w == 3) || (u == 3 && w == 1))
    {
      EdgeOfSmall(shards[i], cents[i], 0, u, w);
    }
    var b := MiddleShard(shards, cents);
  }

  lemma AllFlat(levels: seq<nat>, shards: seq<Shard>, cents: seq<Vector>)
    requires ThreeShards(shards, cents) && forall i :: 0 <= i < |shards| ==> ShardOk(shards[i], 4)
    requires MergedLevels(levels, shards, 4)
    ensures levels == Flat(4)
  {
    forall v | 0 <= v < 4 ensures levels[v] == 0 {
      assert forall i, a :: 0 <= i < |shards| && 0 <= a < |shards[i].members| ==> shards[i].sub.nodeLevels[a] == 0;
    }
  }

  lemma MergedRow(row: seq<nat>, union: set<nat>, cap: nat, sc: seq<real>)
    requires Capped(row, union, cap, sc) && |union| <= 1 <= cap
    ensures union == {} ==> row == []
    ensures forall w :: union == {w} ==> row == [w]
  {
    MembersSize(row);
    if row != [] {
      assert row[0] in Members(row);
    }
  }

  lemma FlatTop(levels: seq<nat>, best: nat)
    requires IsHighest(levels, best) && levels == Flat(4)
    ensures best == 0 && levels[best] == 0
  {
    assert levels[0] == 0;
  }

  /** They merge to the example graph. */
  lemma MergesToExample(t: Topology, merged: seq<Layer>, shards: seq<Shard>, cents: seq<Vector>, m: nat, mMax: nat,
                        dist: Distances)
    requires MergedGraph(t, merged, shards, m, mMax, dist) && t.len == 4 && ThreeShards(shards, cents) && mMax >= 1
    ensures t.adjacency == [GapExample()] && t.entryPoint == Some(0)
  {
    hide ThreeShards, ShardOk, EdgeOfSome, Capped;
    AllFlat(t.nodeLevels, shards, cents);
    FlatTop(t.nodeLevels, t.entryPoint.value);
    assert |t.adjacency| == 1;
    forall u | 0 <= u < 4 ensures |t.adjacency| == 1 && |t.adjacency[0]| == 4 && t.adjacency[0][u] == GapExample()[u] {
      forall w: nat ensures w in Members(merged[0][u]) <==> (u == 1 && w == 3) || (u == 3 && w == 1) {
        MergedEdgesAre(shards, cents, u, w);
        assert w in merged[0][u] <==> EdgeOfSome(shards, 4, 0, u, w);
      }
      assert Members(merged[0][u]) == if u == 1 then {3} else if u == 3 then {1} else {};
      MergedRow(t.adjacency[0][u], Members(merged[0][u]), mMax, dist[u]);
    }
    assert t.adjacency[0] == GapExample();
  }

  /** Built in three shards from four points, for any positive draws, distances and parameters of at least 1: the
      unreached nodes do not come in id order. */
  method BuildExample(m: nat, mMax: nat, ef: nat, maxIters: nat, seeds: KMeans.Seeds, hubCountOf: nat -> nat,
                      dist: Distances)
    returns (t: Topology, order: seq<nat>)
    requires m >= 1 && mMax >= 1 && ef >= 1 && Square(dist, 4) && seeds.Fits(4) && forall c: nat :: seeds.unit(c) > 0.0
    ensures WellFormed(t) && t.adjacency == [GapExample()] && t.entryPoint == Some(0)
    ensures Reachable(GapExample(), {0}) == {0} && IsPermutation(order, 4) && order != [0, 1, 2, 3]
  {
    PointPlaces();
    ghost var cents, start, picks, postings, shards, merged;
    var levelOf := (s: nat, l: nat) => 0;
    t, cents, start, picks, postings, shards, merged :=
      BuildSharded(POINTS, 1, m, mMax, ef, 3, 1, maxIters, seeds, levelOf, hubCountOf, [0, 0, 0, 0], 4, dist);
    hide *;
    TrainingFindsPlaces(POINTS, 1, 3, maxIters, cents, start, picks, seeds);
    ShardsAre(cents, postings, shards, levelOf, ef, m, mMax, hubCountOf, dist);
    MergesToExample(t, merged, shards, cents, m, mMax, dist);
    ghost var sweeps;
    order, sweeps := LayoutOrder(t);
    UnreachedNotInIdOrder(order, sweeps);
  }

  lemma ShardsAre(cents: seq<Vector>, postings: seq<seq<nat>>, shards: seq<Shard>, levelOf: (nat, nat) -> nat, ef: nat,
                  m: nat, mMax: nat, hubCountOf: nat -> nat, dist: Distances)
    requires |cents| == 3 && Shaped(cents, 1) && Places(cents) == Places(POINTS) && Shaped(POINTS, 1)
    requires Assigned(ToCentroids(POINTS, cents, 1), 3, 1, postings, |POINTS|)
    requires |shards| == 3 && forall c :: 0 <= c < 3 ==> c < |postings| && shards[c].members == postings[c]
    requires (forall s: nat, l: nat :: levelOf(s, l) == 0) && m >= 1 && mMax >= 1 && ef >= 1
    requires Square(dist, 4) && AllAlone(shards, 4, levelOf, ef, m, mMax, hubCountOf, dist)
    ensures ThreeShards(shards, cents)
  {
    hide Assigned, BuiltAlone, SmallSub, ToCentroids;
    PointPlaces();
    forall c | 0 <= c < 3 ensures shards[c].members == MembersAt(cents[c]) && SmallSub(shards[c]) {
      PostingsAre(cents, postings, c);
      assert LevelsFor(levelOf, c, |shards[c].members|) == Flat(|shards[c].members|);
      SubIsSmall(shards[c], LevelsFor(levelOf, c, |shards[c].members|), ef, m, mMax, hubCountOf(c), dist);
    }
  }
}
