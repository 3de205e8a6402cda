/** The levels and the distances decide the built graph: two builds from the same inputs are the same. */
module HnswDeterminism {
  import opened Core
  import opened Nearest
  import opened Graph
  import opened IdLists
  import opened Select
  import opened HnswSearch
  import opened HnswPrune
  import opened HnswBuild
  import opened SoftAssign
  import opened HnswShard

  // ---- one insertion ----

  /** One layer: the beam looks at the set of entry points only, the wiring at the set of candidates only. */
  lemma LayerSame(g: Layer, a: Layer, b: Layer, node: nat, entriesA: seq<nat>, entriesB: seq<nat>,
                  idsA: seq<nat>, idsB: seq<nat>, ef: nat, cap: nat, dist: Distances)
    requires InsertedOn(g, a, node, entriesA, idsA, ef, cap, dist) && InsertedOn(g, b, node, entriesB, idsB, ef, cap, dist)
    requires Members(entriesA) == Members(entriesB)
    ensures a == b && Members(idsA) == Members(idsB)
  {
    hide Members, Distinct, SelectClosest, WireAll;
    SelectClosestSame(dist[node], idsA, idsB, cap);
  }

  /** The layers above handed down the same sets of candidates, so the entry points are the same set. */
  lemma EntriesSame(trailA: seq<seq<nat>>, trailB: seq<seq<nat>>, current: nat, l: nat)
    requires l < |trailA| == |trailB|
    requires l + 1 < |trailA| ==> Members(trailA[l + 1]) == Members(trailB[l + 1])
    ensures Members(EntriesAt(trailA, current, l)) == Members(EntriesAt(trailB, current, l))
  {
    if l + 1 < |trailA| {
      EmptyMembers(trailA[l + 1]);
      EmptyMembers(trailB[l + 1]);
    }
  }

  lemma EmptyMembers(s: seq<nat>)
    ensures s == [] <==> Members(s) == {}
  {
    if s != [] {
      assert s[0] in Members(s);
    }
  }

  /** From the node's top layer down, every layer comes out the same. */
  lemma {:induction false} LayersSame(before: seq<Layer>, a: seq<Layer>, b: seq<Layer>, node: nat, level: nat, current: nat,
                                      trailA: seq<seq<nat>>, trailB: seq<seq<nat>>, ef: nat, m: nat, mMax: nat,
                                      dist: Distances, l: nat)
    requires Insertions(before, a, node, level, 0, current, trailA, ef, m, mMax, dist)
    requires Insertions(before, b, node, level, 0, current, trailB, ef, m, mMax, dist)
    requires l <= level
    ensures |a| == |b| > level && |trailA| == |trailB| > level && a[l] == b[l] && Members(trailA[l]) == Members(trailB[l])
    decreases level - l
  {
    hide InsertedOn, Members, EntriesAt;
    if l < level {
      LayersSame(before, a, b, node, level, current, trailA, trailB, ef, m, mMax, dist, l + 1);
    }
    EntriesSame(trailA, trailB, current, l);
    LayerSame(before[l], a[l], b[l], node, EntriesAt(trailA, current, l), EntriesAt(trailB, current, l),
              trailA[l], trailB[l], ef, CapForLayer(m, mMax, l), dist);
  }

  lemma InsertionsSame(before: seq<Layer>, a: seq<Layer>, b: seq<Layer>, node: nat, level: nat, current: nat,
                       trailA: seq<seq<nat>>, trailB: seq<seq<nat>>, ef: nat, m: nat, mMax: nat, dist: Distances)
    requires Insertions(before, a, node, level, 0, current, trailA, ef, m, mMax, dist)
    requires Insertions(before, b, node, level, 0, current, trailB, ef, m, mMax, dist)
    ensures a == b
  {
    hide InsertedOn;
    forall l | 0 <= l < |a| ensures |a| == |b| && a[l] == b[l] {
      if l <= level {
        LayersSame(before, a, b, node, level, current, trailA, trailB, ef, m, mMax, dist, l);
      }
    }
  }

  lemma InsertedSame(before: seq<Layer>, a: seq<Layer>, b: seq<Layer>, node: nat, level: nat, n: nat, ef: nat,
                     m: nat, mMax: nat, dist: Distances)
    requires Inserted(before, a, node, level, n, ef, m, mMax, dist) && Inserted(before, b, node, level, n, ef, m, mMax, dist)
    ensures a == b
  {
    hide Climbed, Insertions, Grown;
    var grown := Grown(before, level, n);
    if node > 0 {
      var current: nat, trail: seq<seq<nat>> :|
        Climbed(grown, dist[node], |grown| - 1, level, 0, current) &&
        Insertions(grown, a, node, level, 0, current, trail, ef, m, mMax, dist);
      var current': nat, trail': seq<seq<nat>> :|
        Climbed(grown, dist[node], |grown| - 1, level, 0, current') &&
        Insertions(grown, b, node, level, 0, current', trail', ef, m, mMax, dist);
      ClimbedSame(grown, dist[node], |grown| - 1, level, 0, current, current');
      InsertionsSame(grown, a, b, node, level, current, trail, trail', ef, m, mMax, dist);
    }
  }

  // ---- the whole build ----

  /** The hubs are one set, and every list is trimmed by them. */
  lemma FinishedSame(before: seq<Layer>, a: seq<Layer>, b: seq<Layer>, n: nat, hubCount: nat, m: nat, dist: Distances)
    requires Finished(before, a, n, hubCount, m, dist) && Finished(before, b, n, hubCount, m, dist)
    ensures a == b
  {
    hide KeptEdges, WellPruned, AreHubs;
    if hubCount < n {
      var hubs :| AreHubs(before[0], hubCount, hubs) && HubPruned(before[0], a[0], hubs, m, dist);
      var hubs' :| AreHubs(before[0], hubCount, hubs') && HubPruned(before[0], b[0], hubs', m, dist);
      HubsUnique(before[0], hubCount, hubs, hubs');
      assert a[0] == b[0];
    }
    forall k | 0 <= k < |a| ensures a[k] == b[k] {
      if k > 0 {
        assert a[k] == before[k] && b[k] == before[k];
      }
    }
  }

  lemma HubsUnique(g: Layer, hubCount: nat, hubs: set<nat>, hubs': set<nat>)
    requires AreHubs(g, hubCount, hubs) && AreHubs(g, hubCount, hubs')
    ensures hubs == hubs'
  {
    BestUnique(Degrees(g), hubCount, Range(|g|), hubs, hubs');
  }

  lemma {:induction false} StatesSame(a: seq<seq<Layer>>, b: seq<seq<Layer>>, n: nat, levels: seq<nat>, ef: nat,
                                      m: nat, mMax: nat, dist: Distances, i: nat)
    requires BuildSteps(a, n, levels, ef, m, mMax, dist) && BuildSteps(b, n, levels, ef, m, mMax, dist)
    requires i < |a| == |b|
    ensures a[i] == b[i]
  {
    hide Inserted;
    if i > 0 {
      StatesSame(a, b, n, levels, ef, m, mMax, dist, i - 1);
      InsertedSame(a[i - 1], a[i], b[i], i - 1, levels[i - 1], n, ef, m, mMax, dist);
    }
  }

  /** Building twice from the same levels and distances gives the same lists, after every insertion and at the end. */
  lemma BuildIsDeterministic(statesA: seq<seq<Layer>>, a: seq<Layer>, statesB: seq<seq<Layer>>, b: seq<Layer>,
                             n: nat, levels: seq<nat>, ef: nat, m: nat, mMax: nat, hubCount: nat, dist: Distances)
    requires BuildOf(statesA, a, n, levels, ef, m, mMax, hubCount, dist)
    requires BuildOf(statesB, b, n, levels, ef, m, mMax, hubCount, dist)
    ensures statesA == statesB && a == b
  {
    hide BuildSteps, Finished;
    forall i | 0 <= i < |statesA| ensures statesA[i] == statesB[i] {
      StatesSame(statesA, statesB, n, levels, ef, m, mMax, dist, i);
    }
    FinishedSame(statesA[|levels|], a, b, n, hubCount, m, dist);
  }

  /** What `build_resident` returns for given levels and distances. */
  ghost predicate Resident(t: Topology, levels: seq<nat>, ef: nat, m: nat, mMax: nat, hubCount: nat, dist: Distances) {
    && WellFormed(t) && t.len == |levels| && t.nodeLevels == levels
    && t.entryPoint == (if levels == [] then None else Some(0))
    && exists states :: BuildOf(states, t.adjacency, |levels|, levels, ef, m, mMax, hubCount, dist)
  }

  /** The levels and the distances decide the whole index: lists, levels, entry point and height. */
  lemma IndexIsDeterministic(s: Topology, t: Topology, levels: seq<nat>, ef: nat, m: nat, mMax: nat, hubCount: nat,
                             dist: Distances)
    requires Resident(s, levels, ef, m, mMax, hubCount, dist) && Resident(t, levels, ef, m, mMax, hubCount, dist)
    ensures s == t
  {
    hide BuildOf;
    var statesS :| BuildOf(statesS, s.adjacency, |levels|, levels, ef, m, mMax, hubCount, dist);
    var statesT :| BuildOf(statesT, t.adjacency, |levels|, levels, ef, m, mMax, hubCount, dist);
    BuildIsDeterministic(statesS, s.adjacency, statesT, t.adjacency, |levels|, levels, ef, m, mMax, hubCount, dist);
  }

  /** A finished build is such an index. */
  lemma BuiltIsResident(index: Hnsw, states: seq<seq<Layer>>, levels: seq<nat>, ef: nat, hubCount: nat, dist: Distances)
    requires index.Built(index.len) && index.len == |levels| && index.nodeLevels == levels
    requires BuildOf(states, index.adjacency, |levels|, levels, ef, index.m, index.mMax, hubCount, dist)
    ensures Resident(index.View(), levels, ef, index.m, index.mMax, hubCount, dist)
  {
    hide BuildOf;
    BuiltIsWellFormed(index);
  }

  // ---- the sharded build ----

  lemma PostingsSame(table: seq<seq<real>>, lists: nat, soft: nat, a: seq<seq<nat>>, b: seq<seq<nat>>)
    requires Assigned(table, lists, soft, a, |table|) && Assigned(table, lists, soft, b, |table|)
    ensures a == b
  {
    hide NearestCentroids;
    forall c | 0 <= c < lists ensures a[c] == b[c] {
      forall v ensures v in a[c] <==> v in b[c] {
        InPosting(table, lists, soft, a, b, c, v);
        InPosting(table, lists, soft, b, a, c, v);
      }
      AscendingUnique(a[c], b[c]);
    }
  }

  lemma InPosting(table: seq<seq<real>>, lists: nat, soft: nat, a: seq<seq<nat>>, b: seq<seq<nat>>, c: nat, v: nat)
    requires Assigned(table, lists, soft, a, |table|) && Assigned(table, lists, soft, b, |table|) && c < lists
    ensures v in a[c] ==> v in b[c]
  {
    hide NearestCentroids;
    if v in a[c] {
      var i :| 0 <= i < |a[c]| && a[c][i] == v;
      assert v in a[c] <==> c in NearestCentroids(table[v], soft);
      assert v in b[c] <==> c in NearestCentroids(table[v], soft);
    }
  }

  /** A shard's subgraph is decided by its members. */
  lemma ShardSame(a: Shard, b: Shard, n: nat, levels: seq<nat>, ef: nat, m: nat, mMax: nat, hubCount: nat, dist: Distances)
    requires Square(dist, n) && Listed(n, a.members) && b.members == a.members && |levels| == |a.members|
    requires ShardOk(a, n) && ShardOk(b, n)
    requires BuiltAlone(a, n, levels, ef, m, mMax, hubCount, dist) && BuiltAlone(b, n, levels, ef, m, mMax, hubCount, dist)
    ensures a == b
  {
    hide BuildOf;
    if a.members != [] {
      assert Resident(a.sub, levels, ef, m, mMax, hubCount, SubDistances(a.members, dist));
      assert Resident(b.sub, levels, ef, m, mMax, hubCount, SubDistances(a.members, dist));
      IndexIsDeterministic(a.sub, b.sub, levels, ef, m, mMax, hubCount, SubDistances(a.members, dist));
    }
  }

  lemma ShardsSame(a: seq<Shard>, b: seq<Shard>, n: nat, levelOf: (nat, nat) -> nat, ef: nat, m: nat, mMax: nat,
                   hubCountOf: nat -> nat, dist: Distances)
    requires Square(dist, n) && |a| == |b| && forall c :: 0 <= c < |a| ==> a[c].members == b[c].members
    requires AllOk(a, n) && AllOk(b, n)
    requires AllAlone(a, n, levelOf, ef, m, mMax, hubCountOf, dist) && AllAlone(b, n, levelOf, ef, m, mMax, hubCountOf, dist)
    ensures a == b
  {
    hide BuiltAlone, ShardOk;
    forall c | 0 <= c < |a| ensures a[c] == b[c] {
      ShardSame(a[c], b[c], n, LevelsFor(levelOf, c, |a[c].members|), ef, m, mMax, hubCountOf(c), dist);
    }
  }

  /** The same shards merge to the same sets of edges. */
  lemma MergedSame(a: seq<Layer>, b: seq<Layer>, shards: seq<Shard>, n: nat, l: nat, u: nat)
    requires AllOk(shards, n) && MergedEdges(a, shards, n) && MergedEdges(b, shards, n)
    requires l < |a| && l < |b| && u < n
    ensures |a[l]| == |b[l]| == n && Members(a[l][u]) == Members(b[l][u])
  {
    hide ShardOk, EdgeOfSome;
    forall w: nat ensures w in Members(a[l][u]) <==> w in Members(b[l][u]) {
      assert w in a[l][u] <==> EdgeOfSome(shards, n, l, u, w);
      assert w in b[l][u] <==> EdgeOfSome(shards, n, l, u, w);
    }
  }

  lemma LevelsAtMost(a: seq<nat>, b: seq<nat>, shards: seq<Shard>, n: nat, v: nat)
    requires AllOk(shards, n) && MergedLevels(a, shards, n) && MergedLevels(b, shards, n) && v < n
    ensures |a| == |b| == n && a[v] <= b[v]
  {
    if a[v] > 0 {
      var i, k :| 0 <= i < |shards| && ShardOk(shards[i], n) && 0 <= k < |shards[i].members| &&
        shards[i].members[k] == v && shards[i].sub.nodeLevels[k] == a[v];
      assert b[shards[i].members[k]] >= shards[i].sub.nodeLevels[k];
    }
  }

  lemma LevelsSame(a: seq<nat>, b: seq<nat>, shards: seq<Shard>, n: nat)
    requires AllOk(shards, n) && MergedLevels(a, shards, n) && MergedLevels(b, shards, n)
    ensures a == b
  {
    assert |a| == |b| == n;
    forall v | 0 <= v < n ensures a[v] == b[v] {
      LevelsAtMost(a, b, shards, n, v);
      LevelsAtMost(b, a, shards, n, v);
    }
  }

  lemma CappedSame(a: seq<nat>, b: seq<nat>, union: set<nat>, cap: nat, sc: seq<real>)
    requires Capped(a, union, cap, sc) && Capped(b, union, cap, sc)
    ensures a == b
  {
    BestUnique(sc, cap, union, Members(a), Members(b));
    if |union| > cap {
      CloserFirstUnique(sc, a, b);
    } else {
      forall x ensures x in a <==> x in b {
        assert x in a <==> x in Members(a);
        assert x in b <==> x in Members(b);
      }
      AscendingUnique(a, b);
    }
  }

  lemma HighestUnique(levels: seq<nat>, a: nat, b: nat)
    requires IsHighest(levels, a) && IsHighest(levels, b)
    ensures a == b
  {
    assert levels[a] <= levels[b] && levels[b] <= levels[a];
  }

  /** The same shards merge to the same graph. */
  lemma MergeIsDeterministic(s: Topology, mergedS: seq<Layer>, t: Topology, mergedT: seq<Layer>, shards: seq<Shard>,
                             m: nat, mMax: nat, dist: Distances)
    requires MergedGraph(s, mergedS, shards, m, mMax, dist) && MergedGraph(t, mergedT, shards, m, mMax, dist)
    requires s.len == t.len
    ensures s == t
  {
    var n := s.len;
    LevelsSame(s.nodeLevels, t.nodeLevels, shards, n);
    HighestUnique(s.nodeLevels, s.entryPoint.value, t.entryPoint.value);
    assert |s.adjacency| == s.maxLayer + 1 == |t.adjacency|;
    forall l, u | 0 <= l < |s.adjacency| && 0 <= u < n
      ensures |s.adjacency[l]| == |t.adjacency[l]| == n && s.adjacency[l][u] == t.adjacency[l][u]
    {
      MergedRowSame(s, mergedS, t, mergedT, shards, m, mMax, dist, l, u);
    }
    hide MergedGraph;
    forall l | 0 <= l < |s.adjacency| ensures s.adjacency[l] == t.adjacency[l] {
      assert forall u :: 0 <= u < |s.adjacency[l]| ==> s.adjacency[l][u] == t.adjacency[l][u];
    }
  }

  lemma MergedRowSame(s: Topology, mergedS: seq<Layer>, t: Topology, mergedT: seq<Layer>, shards: seq<Shard>,
                      m: nat, mMax: nat, dist: Distances, l: nat, u: nat)
    requires MergedGraph(s, mergedS, shards, m, mMax, dist) && MergedGraph(t, mergedT, shards, m, mMax, dist)
    requires s.len == t.len && l < |s.adjacency| == |t.adjacency| && u < s.len
    ensures |s.adjacency[l]| == |t.adjacency[l]| == s.len && s.adjacency[l][u] == t.adjacency[l][u]
  {
    MergedSame(mergedS, mergedT, shards, s.len, l, u);
    hide MergedEdges, MergedLevels, Capped, AllOk, InRange, IsHighest;
    CappedSame(s.adjacency[l][u], t.adjacency[l][u], Members(mergedS[l][u]), CapForLayer(m, mMax, l), dist[u]);
  }

  /** The centroids, the levels and the distances decide the whole merged index. */
  lemma ShardedIsDeterministic(s: Topology, mergedS: seq<Layer>, shardsS: seq<Shard>, postingsS: seq<seq<nat>>,
                               t: Topology, mergedT: seq<Layer>, shardsT: seq<Shard>, postingsT: seq<seq<nat>>,
                               table: seq<seq<real>>, lists: nat, soft: nat, levelOf: (nat, nat) -> nat, ef: nat,
                               m: nat, mMax: nat, hubCountOf: nat -> nat, dist: Distances)
    requires s.len == t.len == |table| && Square(dist, |table|)
    requires Assigned(table, lists, soft, postingsS, |table|) && Assigned(table, lists, soft, postingsT, |table|)
    requires |shardsS| == lists && forall c :: 0 <= c < lists ==> shardsS[c].members == postingsS[c]
    requires |shardsT| == lists && forall c :: 0 <= c < lists ==> shardsT[c].members == postingsT[c]
    requires AllAlone(shardsS, |table|, levelOf, ef, m, mMax, hubCountOf, dist)
    requires AllAlone(shardsT, |table|, levelOf, ef, m, mMax, hubCountOf, dist)
    requires MergedGraph(s, mergedS, shardsS, m, mMax, dist) && MergedGraph(t, mergedT, shardsT, m, mMax, dist)
    ensures s == t && shardsS == shardsT
  {
    PostingsSame(table, lists, soft, postingsS, postingsT);
    hide Assigned, AllAlone, MergedEdges, MergedLevels, Capped, AllOk, InRange, IsHighest, WellFormed;
    ShardsSame(shardsS, shardsT, |table|, levelOf, ef, m, mMax, hubCountOf, dist);
    MergeIsDeterministic(s, mergedS, t, mergedT, shardsS, m, mMax, dist);
  }
}
