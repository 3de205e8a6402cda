/** The sharded build: one subgraph per shard, merged into one graph. */
module HnswShard {
  import opened Core
  import opened Nearest
  import opened Graph
  import opened IdLists
  import opened Select
  import opened Distance
  import opened SoftAssign
  import opened HnswSearch
  import opened HnswBuild
  import HnswPrune
  import KMeans

  // ---- lifting subgraph edges ----

  /** The global ids of a shard-local neighbour list. */
  function MapRow(members: seq<nat>, row: seq<nat>): (r: seq<nat>)
    requires Listed(|members|, row)
    ensures |r| == |row| && forall j :: 0 <= j < |row| ==> r[j] == members[row[j]]
  {
    seq(|row|, j requires 0 <= j < |row| => members[row[j]])
  }

  /** The shard's subgraph layer `g` has an edge from global `u` to global `w`. */
  ghost predicate LocalEdge(members: seq<nat>, g: Layer, u: nat, w: nat)
    requires |g| == |members| && InRange(g)
  {
    exists a, j :: 0 <= a < |g| && 0 <= j < |g[a]| && members[a] == u && members[g[a][j]] == w
  }

  /** Add one subgraph layer to the merged layer. */
  method LiftLayer(base: Layer, members: seq<nat>, g: Layer) returns (r: Layer)
    requires |g| == |members| && InRange(g) && Distinct(members) && Listed(|base|, members)
    ensures |r| == |base|
    ensures forall a :: 0 <= a < |g| ==> Listed(|members|, g[a]) && r[members[a]] == base[members[a]] + MapRow(members, g[a])
    ensures forall u: nat :: u < |base| && u !in members ==> r[u] == base[u]
  {
    r := base;
    for a := 0 to |g|
      invariant |r| == |base|
      invariant forall b :: 0 <= b < a ==>
          Listed(|members|, g[b]) && r[members[b]] == base[members[b]] + MapRow(members, g[b])
      invariant forall b :: a <= b < |g| ==> r[members[b]] == base[members[b]]
      invariant forall u: nat :: u < |base| && u !in members ==> r[u] == base[u]
    {
      assert Listed(|members|, g[a]);
      r := r[members[a] := r[members[a]] + MapRow(members, g[a])];
    }
  }

  lemma LiftedEdges(base: Layer, members: seq<nat>, g: Layer, r: Layer, u: nat, w: nat)
    requires |g| == |members| && InRange(g) && Distinct(members) && Listed(|base|, members) && |r| == |base| && u < |r|
    requires forall a :: 0 <= a < |g| ==> Listed(|members|, g[a]) && r[members[a]] == base[members[a]] + MapRow(members, g[a])
    requires forall v: nat :: v < |base| && v !in members ==> r[v] == base[v]
    ensures w in r[u] <==> w in base[u] || LocalEdge(members, g, u, w)
  {
    if u in members {
      var a :| 0 <= a < |members| && members[a] == u;
      var row := MapRow(members, g[a]);
      assert w in r[u] <==> w in base[u] || w in row;
      if w in row {
        var j :| 0 <= j < |row| && row[j] == w;
        assert members[g[a][j]] == w;
      }
      if LocalEdge(members, g, u, w) {
        var b, j :| 0 <= b < |g| && 0 <= j < |g[b]| && members[b] == u && members[g[b][j]] == w;
        assert b == a;
        assert row[j] == w;
      }
    }
  }

  // ---- all shards ----

  /** A shard: its ascending member ids and its finished subgraph. */
  datatype Shard = Shard(members: seq<nat>, sub: Topology)

  ghost predicate ShardOk(s: Shard, n: nat) {
    && WellFormed(s.sub) && s.sub.len == |s.members|
    && Distinct(s.members) && Listed(n, s.members)
    && IsTopLevel(s.sub.nodeLevels, s.sub.len, s.sub.maxLayer)
  }

  ghost predicate ShardEdge(s: Shard, n: nat, layer: nat, u: nat, w: nat)
    requires ShardOk(s, n)
  {
    layer <= s.sub.maxLayer && LocalEdge(s.members, s.sub.adjacency[layer], u, w)
  }

  /** Some shard's subgraph has the edge. */
  ghost predicate EdgeOfSome(shards: seq<Shard>, n: nat, layer: nat, u: nat, w: nat)
    requires forall i :: 0 <= i < |shards| ==> ShardOk(shards[i], n)
  {
    exists i :: 0 <= i < |shards| && ShardEdge(shards[i], n, layer, u, w)
  }

  /** The merged lists hold exactly the edges of the shards so far. */
  ghost predicate MergedEdges(merged: seq<Layer>, shards: seq<Shard>, n: nat)
    requires forall i :: 0 <= i < |shards| ==> ShardOk(shards[i], n)
  {
    && (forall l :: 0 <= l < |merged| ==> |merged[l]| == n)
    && (forall l, u, w: nat {:trigger w in merged[l][u]} :: 0 <= l < |merged| && 0 <= u < |merged[l]| ==>
          (w in merged[l][u] <==> EdgeOfSome(shards, n, l, u, w)))
    && (forall i :: 0 <= i < |shards| ==> shards[i].sub.maxLayer < |merged|)
  }

  /** Grow the merged graph if this shard reached higher than any before. */
  function Resized(merged: seq<Layer>, layers: nat, n: nat): (r: seq<Layer>)
    ensures |r| == if layers > |merged| then layers else |merged|
    ensures forall l :: 0 <= l < |merged| ==> r[l] == merged[l]
    ensures forall l :: |merged| <= l < |r| ==> r[l] == seq(n, _ => [])
  {
    if layers > |merged| then merged + seq(layers - |merged|, _ => seq(n, _ => [])) else merged
  }

  lemma EdgeOfMore(shards: seq<Shard>, s: Shard, n: nat, layer: nat, u: nat, w: nat)
    requires (forall i :: 0 <= i < |shards| ==> ShardOk(shards[i], n)) && ShardOk(s, n)
    ensures forall i :: 0 <= i < |shards + [s]| ==> ShardOk((shards + [s])[i], n)
    ensures EdgeOfSome(shards + [s], n, layer, u, w) <==>
              EdgeOfSome(shards, n, layer, u, w) || ShardEdge(s, n, layer, u, w)
  {
    hide ShardOk, ShardEdge;
    var more := shards + [s];
    forall i | 0 <= i < |more| ensures ShardOk(more[i], n) {
    }
    if EdgeOfSome(shards, n, layer, u, w) {
      var i :| 0 <= i < |shards| && ShardEdge(shards[i], n, layer, u, w);
      assert more[i] == shards[i];
    }
    if ShardEdge(s, n, layer, u, w) {
      assert more[|shards|] == s;
    }
    if EdgeOfSome(more, n, layer, u, w) {
      var i :| 0 <= i < |more| && ShardEdge(more[i], n, layer, u, w);
      assert i < |shards| ==> more[i] == shards[i];
    }
  }

  /** One layer of the merged graph after one shard: old edges and the shard's own. */
  ghost predicate LayerLifted(before: Layer, after: Layer, s: Shard, n: nat, layer: nat)
    requires ShardOk(s, n)
  {
    && |before| == |after| == n
    && forall u, w: nat {:trigger w in after[u]} :: 0 <= u < n ==>
         (w in after[u] <==> w in before[u] || ShardEdge(s, n, layer, u, w))
  }

  method LiftShard(merged0: seq<Layer>, s: Shard, n: nat) returns (merged: seq<Layer>)
    requires ShardOk(s, n) && forall l :: 0 <= l < |merged0| ==> |merged0[l]| == n
    ensures |merged| == |Resized(merged0, s.sub.maxLayer + 1, n)|
    ensures forall l :: 0 <= l < |merged| ==> LayerLifted(Resized(merged0, s.sub.maxLayer + 1, n)[l], merged[l], s, n, l)
  {
    var grown := Resized(merged0, s.sub.maxLayer + 1, n);
    merged := [];
    for l := 0 to |grown|
      invariant |merged| == l
      invariant forall k :: 0 <= k < l ==> LayerLifted(grown[k], merged[k], s, n, k)
    {
      hide LayerLifted;
      var layer := LiftOne(grown[l], s, n, l);
      merged := merged + [layer];
    }
  }

  method LiftOne(base: Layer, s: Shard, n: nat, l: nat) returns (layer: Layer)
    requires ShardOk(s, n) && |base| == n
    ensures LayerLifted(base, layer, s, n, l)
  {
    if l > s.sub.maxLayer {
      return base;
    }
    var g := s.sub.adjacency[l];
    layer := LiftLayer(base, s.members, g);
    forall u, w: nat | 0 <= u < n ensures w in layer[u] <==> w in base[u] || ShardEdge(s, n, l, u, w) {
      LiftedEdges(base, s.members, g, layer, u, w);
    }
  }

  lemma MergeStep(before: seq<Layer>, after: seq<Layer>, shards: seq<Shard>, s: Shard, n: nat)
    requires (forall i :: 0 <= i < |shards| ==> ShardOk(shards[i], n)) && ShardOk(s, n)
    requires MergedEdges(before, shards, n)
    requires |after| == |Resized(before, s.sub.maxLayer + 1, n)|
    requires forall l :: 0 <= l < |after| ==> LayerLifted(Resized(before, s.sub.maxLayer + 1, n)[l], after[l], s, n, l)
    ensures forall i :: 0 <= i < |shards + [s]| ==> ShardOk((shards + [s])[i], n)
    ensures MergedEdges(after, shards + [s], n)
  {
    var grown, more := Resized(before, s.sub.maxLayer + 1, n), shards + [s];
    hide ShardOk, ShardEdge;
    forall i | 0 <= i < |more| ensures ShardOk(more[i], n) && more[i].sub.maxLayer < |after| {
      assert more[i] == if i < |shards| then shards[i] else s;
    }
    forall l, u, w: nat | 0 <= l < |after| && 0 <= u < |after[l]|
      ensures w in after[l][u] <==> EdgeOfSome(more, n, l, u, w)
    {
      assert LayerLifted(grown[l], after[l], s, n, l);
      EdgeOfMore(shards, s, n, l, u, w);
      if l >= |before| {
        assert grown[l][u] == [];
        NoEdgeAbove(shards, n, l, u, w, |before|);
      }
    }
  }

  lemma NoEdgeAbove(shards: seq<Shard>, n: nat, layer: nat, u: nat, w: nat, layers: nat)
    requires forall i :: 0 <= i < |shards| ==> ShardOk(shards[i], n) && shards[i].sub.maxLayer < layers
    requires layer >= layers
    ensures !EdgeOfSome(shards, n, layer, u, w)
  {
  }

  // ---- levels and entry point ----

  /** Each node's level is the highest any shard gave it (0 for a node in none). */
  ghost predicate MergedLevels(levels: seq<nat>, shards: seq<Shard>, n: nat)
    requires forall i :: 0 <= i < |shards| ==> ShardOk(shards[i], n)
  {
    && |levels| == n
    && (forall i, a :: 0 <= i < |shards| && ShardOk(shards[i], n) && 0 <= a < |shards[i].members| ==>
          levels[shards[i].members[a]] >= shards[i].sub.nodeLevels[a])
    && (forall v :: 0 <= v < n && levels[v] > 0 ==>
          exists i, a :: 0 <= i < |shards| && ShardOk(shards[i], n) && 0 <= a < |shards[i].members| &&
            shards[i].members[a] == v && shards[i].sub.nodeLevels[a] == levels[v])
  }

  method RaiseLevels(levels0: seq<nat>, s: Shard, n: nat) returns (levels: seq<nat>)
    requires ShardOk(s, n) && |levels0| == n
    ensures |levels| == n
    ensures forall a :: 0 <= a < |s.members| ==>
              levels[s.members[a]] == HnswPrune.Max(levels0[s.members[a]], s.sub.nodeLevels[a])
    ensures forall v: nat :: v < n && v !in s.members ==> levels[v] == levels0[v]
  {
    levels := levels0;
    for a := 0 to |s.members|
      invariant |levels| == n
      invariant forall b :: 0 <= b < a ==>
          levels[s.members[b]] == HnswPrune.Max(levels0[s.members[b]], s.sub.nodeLevels[b])
      invariant forall b :: a <= b < |s.members| ==> levels[s.members[b]] == levels0[s.members[b]]
      invariant forall v: nat :: v < n && v !in s.members ==> levels[v] == levels0[v]
    {
      var g := s.members[a];
      if s.sub.nodeLevels[a] > levels[g] {
        levels := levels[g := s.sub.nodeLevels[a]];
      }
    }
  }

  lemma LevelsStep(before: seq<nat>, after: seq<nat>, shards: seq<Shard>, s: Shard, n: nat)
    requires (forall i :: 0 <= i < |shards| ==> ShardOk(shards[i], n)) && ShardOk(s, n)
    requires MergedLevels(before, shards, n) && |after| == n
    requires forall a :: 0 <= a < |s.members| ==>
               after[s.members[a]] == HnswPrune.Max(before[s.members[a]], s.sub.nodeLevels[a])
    requires forall v: nat :: v < n && v !in s.members ==> after[v] == before[v]
    requires forall i :: 0 <= i < |shards + [s]| ==> ShardOk((shards + [s])[i], n)
    ensures MergedLevels(after, shards + [s], n)
  {
    var more := shards + [s];
    forall v: nat | v < n ensures after[v] >= before[v] {
      if v in s.members {
        var a :| 0 <= a < |s.members| && s.members[a] == v;
      }
    }
    forall i, a | 0 <= i < |more| && ShardOk(more[i], n) && 0 <= a < |more[i].members|
      ensures after[more[i].members[a]] >= more[i].sub.nodeLevels[a]
    {
      if i < |shards| {
        assert more[i] == shards[i];
      }
    }
    forall v | 0 <= v < n && after[v] > 0
      ensures exists i, a :: 0 <= i < |more| && ShardOk(more[i], n) && 0 <= a < |more[i].members| &&
                more[i].members[a] == v && more[i].sub.nodeLevels[a] == after[v]
    {
      if after[v] == before[v] {
        var i, a :| 0 <= i < |shards| && ShardOk(shards[i], n) && 0 <= a < |shards[i].members| &&
          shards[i].members[a] == v && shards[i].sub.nodeLevels[a] == before[v];
        assert more[i].members[a] == v;
      } else {
        var a :| 0 <= a < |s.members| && s.members[a] == v;
        assert more[|shards|].members[a] == v;
      }
    }
  }

  /** `best` is the highest-level node, ties to the smallest id. */
  ghost predicate IsHighest(levels: seq<nat>, best: nat) {
    && best < |levels|
    && forall v :: 0 <= v < |levels| ==> levels[v] < levels[best] || (levels[v] == levels[best] && best <= v)
  }

  method HighestNode(levels: seq<nat>) returns (best: nat)
    requires levels != []
    ensures IsHighest(levels, best)
  {
    best := 0;
    for v := 1 to |levels|
      invariant best < v
      invariant forall u :: 0 <= u < v ==> levels[u] < levels[best] || (levels[u] == levels[best] && best <= u)
    {
      if levels[v] > levels[best] {
        best := v;
      }
    }
  }

  /** The merged graph's height is the highest level of any node. */
  ghost predicate IsHeight(height: nat, shards: seq<Shard>) {
    && height >= 1
    && (forall i :: 0 <= i < |shards| ==> shards[i].sub.maxLayer < height)
    && (height > 1 ==> exists i :: 0 <= i < |shards| && shards[i].sub.maxLayer == height - 1)
  }

  lemma EntryIsTop(levels: seq<nat>, shards: seq<Shard>, n: nat, height: nat, entry: nat)
    requires forall i :: 0 <= i < |shards| ==> ShardOk(shards[i], n)
    requires MergedLevels(levels, shards, n) && IsHeight(height, shards)
    requires entry < n && forall v :: 0 <= v < n ==> levels[v] <= levels[entry]
    ensures levels[entry] == height - 1
  {
    if height > 1 {
      var i :| 0 <= i < |shards| && shards[i].sub.maxLayer == height - 1;
      TopOfShard(levels, shards, n, i, entry);
    }
    LevelBelowHeight(levels, shards, n, height, entry);
  }

  lemma TopOfShard(levels: seq<nat>, shards: seq<Shard>, n: nat, i: nat, entry: nat)
    requires forall j :: 0 <= j < |shards| ==> ShardOk(shards[j], n)
    requires MergedLevels(levels, shards, n) && i < |shards| && shards[i].sub.maxLayer > 0
    requires entry < n && forall v :: 0 <= v < n ==> levels[v] <= levels[entry]
    ensures levels[entry] >= shards[i].sub.maxLayer
  {
    var s := shards[i];
    assert ShardOk(s, n);
    var a :| 0 <= a < s.sub.len && s.sub.nodeLevels[a] == s.sub.maxLayer;
    assert levels[shards[i].members[a]] >= s.sub.maxLayer;
  }

  lemma LevelBelowHeight(levels: seq<nat>, shards: seq<Shard>, n: nat, height: nat, v: nat)
    requires forall i :: 0 <= i < |shards| ==> ShardOk(shards[i], n)
    requires MergedLevels(levels, shards, n) && IsHeight(height, shards) && v < n
    ensures levels[v] <= height - 1
  {
    if levels[v] > 0 {
      var i, a :| 0 <= i < |shards| && ShardOk(shards[i], n) && 0 <= a < |shards[i].members| &&
        shards[i].members[a] == v && shards[i].sub.nodeLevels[a] == levels[v];
    }
  }

  // ---- capping the merged lists ----

  /** Sort, deduplicate, and keep the closest when over the cap. */
  function CapRow(row: seq<nat>, cap: nat, sc: seq<real>): seq<nat>
    requires Listed(|sc|, row)
  {
    var union := Dedup(SortedIds(row));
    DedupListed(|sc|, row);
    if |union| <= cap then union else SelectClosest(sc, union, cap)
  }

  lemma DedupListed(n: nat, row: seq<nat>)
    requires Listed(n, row)
    ensures Listed(n, Dedup(SortedIds(row))) && Members(Dedup(SortedIds(row))) == Members(row)
  {
    var sorted := SortedIds(row);
    forall x ensures x in sorted <==> x in row {
      assert x in sorted <==> x in multiset(sorted);
      assert x in row <==> x in multiset(row);
    }
    var union := Dedup(sorted);
    forall i | 0 <= i < |union| ensures union[i] < n {
      assert union[i] in row;
    }
  }

  /** The union in id order when it fits, else its closest `cap` members, closest first; never a duplicate. */
  ghost predicate Capped(row: seq<nat>, union: set<nat>, cap: nat, sc: seq<real>) {
    && Within(sc, union) && Distinct(row) && Listed(|sc|, row)
    && IsBest(sc, cap, union, Members(row))
    && (|union| <= cap ==> Members(row) == union && StrictlyAscending(row))
    && (|union| > cap ==> CloserFirst(sc, row))
  }

  lemma CapRowIsCapped(row: seq<nat>, cap: nat, sc: seq<real>)
    requires Listed(|sc|, row)
    ensures Capped(CapRow(row, cap, sc), Members(row), cap, sc)
  {
    DedupListed(|sc|, row);
    var union := Dedup(SortedIds(row));
    MembersSize(union);
    assert forall x :: x in Members(row) ==> x in union;
    if |union| > cap {
      SelectClosestIsBest(sc, union, cap);
      SelectClosestSorted(sc, union, cap);
    }
  }

  method CapLayer(g: Layer, cap: nat, dist: Distances) returns (r: Layer)
    requires Square(dist, |g|) && InRange(g)
    ensures |r| == |g| && forall u :: 0 <= u < |g| ==> Capped(r[u], Members(g[u]), cap, dist[u])
  {
    r := [];
    for u := 0 to |g|
      invariant |r| == u
      invariant forall v :: 0 <= v < u ==> Capped(r[v], Members(g[v]), cap, dist[v])
    {
      assert Listed(|dist[u]|, g[u]);
      CapRowIsCapped(g[u], cap, dist[u]);
      r := r + [CapRow(g[u], cap, dist[u])];
    }
  }

  // ---- the whole build ----

  function Clamp(x: nat, lo: nat, hi: nat): nat
    requires lo <= hi
  {
    if x < lo then lo else if x > hi then hi else x
  }

  function SubDistances(members: seq<nat>, dist: Distances): (r: Distances)
    requires Square(dist, |dist|) && Listed(|dist|, members)
    ensures Square(r, |members|)
    ensures forall a, b :: 0 <= a < |members| && 0 <= b < |members| ==> r[a][b] == dist[members[a]][members[b]]
  {
    seq(|members|, a requires 0 <= a < |members| =>
      seq(|members|, b requires 0 <= b < |members| => dist[members[a]][members[b]]))
  }

  const EMPTY_SUB := Topology([[]], [], None, 0, 0)

  ghost predicate AllOk(shards: seq<Shard>, n: nat) {
    forall i :: 0 <= i < |shards| ==> ShardOk(shards[i], n)
  }

  /** The merge after the shards so far: lists, levels and height. */
  ghost predicate MergedSoFar(merged: seq<Layer>, levels: seq<nat>, shards: seq<Shard>, n: nat) {
    && AllOk(shards, n)
    && MergedEdges(merged, shards, n) && MergedLevels(levels, shards, n) && IsHeight(|merged|, shards)
  }

  lemma NothingMerged(n: nat)
    ensures MergedSoFar([EmptyLayer(n)], seq(n, _ => 0), [], n)
  {
  }

  lemma EmptyAlone(n: nat, levels: seq<nat>, ef: nat, m: nat, mMax: nat, hubCount: nat, dist: Distances)
    requires Square(dist, n)
    ensures Listed(n, []) && BuiltAlone(Shard([], EMPTY_SUB), n, levels, ef, m, mMax, hubCount, dist)
  {
  }

  lemma EmptyShard(merged: seq<Layer>, levels: seq<nat>, shards: seq<Shard>, n: nat)
    requires MergedSoFar(merged, levels, shards, n)
    ensures MergedSoFar(merged, levels, shards + [Shard([], EMPTY_SUB)], n)
  {
    var s := Shard([], EMPTY_SUB);
    assert ShardOk(s, n);
    MergeStep(merged, merged, shards, s, n);
    LevelsStep(levels, levels, shards, s, n);
    HeightStep(|merged|, |merged|, shards, s);
  }

  lemma HeightStep(before: nat, after: nat, shards: seq<Shard>, s: Shard)
    requires IsHeight(before, shards)
    requires after == if s.sub.maxLayer + 1 > before then s.sub.maxLayer + 1 else before
    ensures IsHeight(after, shards + [s])
  {
    var more := shards + [s];
    if after > 1 {
      if s.sub.maxLayer + 1 > before {
        assert more[|shards|].sub.maxLayer == after - 1;
      } else {
        var i :| 0 <= i < |shards| && shards[i].sub.maxLayer == before - 1;
        assert more[i].sub.maxLayer == after - 1;
      }
    }
  }

  /** The invariant of a finished build, of the shard's subgraph. */
  ghost predicate SubOk(s: Shard, m: nat, mMax: nat) {
    && LayersOk(s.sub.adjacency, s.sub.len, m, mMax, s.sub.entryPoint, s.sub.nodeLevels, s.sub.len, |s.sub.adjacency|)
    && (s.members != [] ==> s.sub.entryPoint == Some(0))
  }

  ghost predicate AllSubOk(shards: seq<Shard>, m: nat, mMax: nat) {
    forall i :: 0 <= i < |shards| ==> SubOk(shards[i], m, mMax)
  }

  lemma OneMoreSubOk(shards: seq<Shard>, s: Shard, m: nat, mMax: nat)
    requires AllSubOk(shards, m, mMax) && SubOk(s, m, mMax)
    ensures AllSubOk(shards + [s], m, mMax)
  {
    hide SubOk;
  }

  lemma EmptySubOk(m: nat, mMax: nat)
    ensures SubOk(Shard([], EMPTY_SUB), m, mMax)
  {
  }

  /** The shard's subgraph is what building its members alone gives; a shard without members has none. */
  ghost predicate BuiltAlone(s: Shard, n: nat, levels: seq<nat>, ef: nat, m: nat, mMax: nat, hubCount: nat, dist: Distances)
    requires Square(dist, n) && Listed(n, s.members)
  {
    if s.members == [] then s.sub == EMPTY_SUB
    else
      && s.sub.nodeLevels == levels && s.sub.entryPoint == Some(0)
      && exists states :: BuildOf(states, s.sub.adjacency, |s.members|, levels, ef, m, mMax, hubCount,
                                  SubDistances(s.members, dist))
  }

  /** Build one shard's subgraph and merge it. */
  method MergeShard(merged0: seq<Layer>, levels0: seq<nat>, ghost shards: seq<Shard>, members: seq<nat>, n: nat,
                    m: nat, mMax: nat, efConstruction: nat, levels: seq<nat>, hubCount: nat, dist: Distances)
    returns (merged: seq<Layer>, nodeLevels: seq<nat>, ghost s: Shard)
    requires MergedSoFar(merged0, levels0, shards, n) && Square(dist, n)
    requires Distinct(members) && Listed(n, members)
    requires |levels| == |members| && forall v :: 0 <= v < |levels| ==> levels[v] < 256
    requires members != []
    ensures s.members == members && BuiltAlone(s, n, levels, efConstruction, m, mMax, hubCount, dist)
    ensures SubOk(s, m, mMax)
    ensures MergedSoFar(merged, nodeLevels, shards + [s], n)
  {
    hide BuildOf, LayersOk;
    var sub, _ := BuildResident(|members|, m, mMax, efConstruction, levels, SubDistances(members, dist), hubCount);
    BuiltIsWellFormed(sub);
    var shard := Shard(members, sub.View());
    s := shard;
    assert ShardOk(s, n);
    hide ShardOk, MergedEdges, MergedLevels, IsHeight, WellFormed, LayerLifted;
    ShardWidth(merged0, shards, n);
    merged := LiftShard(merged0, shard, n);
    LevelsWidth(levels0, shards, n);
    nodeLevels := RaiseLevels(levels0, shard, n);
    MergeStep(merged0, merged, shards, s, n);
    LevelsStep(levels0, nodeLevels, shards, s, n);
    HeightStep(|merged0|, |merged|, shards, s);
  }

  lemma ShardWidth(merged: seq<Layer>, shards: seq<Shard>, n: nat)
    requires AllOk(shards, n) && MergedEdges(merged, shards, n)
    ensures forall l :: 0 <= l < |merged| ==> |merged[l]| == n
  {
  }

  lemma LevelsWidth(levels: seq<nat>, shards: seq<Shard>, n: nat)
    requires AllOk(shards, n) && MergedLevels(levels, shards, n)
    ensures |levels| == n
  {
  }

  lemma MergedInRange(merged: seq<Layer>, shards: seq<Shard>, n: nat, l: nat)
    requires AllOk(shards, n) && MergedEdges(merged, shards, n) && l < |merged|
    ensures |merged[l]| == n && InRange(merged[l])
  {
    forall u, i | 0 <= u < n && 0 <= i < |merged[l][u]| ensures merged[l][u][i] < n {
      var w := merged[l][u][i];
      assert w in merged[l][u];
      var k :| 0 <= k < |shards| && ShardEdge(shards[k], n, l, u, w);
      EdgeInShard(shards[k], n, l, u, w);
    }
  }

  /** An edge of a shard's subgraph joins two of its members. */
  lemma EdgeInShard(s: Shard, n: nat, l: nat, u: nat, w: nat)
    requires ShardOk(s, n) && ShardEdge(s, n, l, u, w)
    ensures u in s.members && w in s.members && w < n
  {
    var g := s.sub.adjacency[l];
    var a, j :| 0 <= a < |g| && 0 <= j < |g[a]| && s.members[a] == u && s.members[g[a][j]] == w;
  }

  /** The merged graph is the capped union of the shards' subgraphs. */
  ghost predicate MergedGraph(t: Topology, merged: seq<Layer>, shards: seq<Shard>, m: nat, mMax: nat, dist: Distances) {
    && WellFormed(t) && Square(dist, t.len) && AllOk(shards, t.len)
    && MergedEdges(merged, shards, t.len) && |merged| == |t.adjacency|
    && (forall l, u :: 0 <= l < |t.adjacency| && 0 <= u < t.len ==>
          Capped(t.adjacency[l][u], Members(merged[l][u]), if l == 0 then mMax else m, dist[u]))
    && MergedLevels(t.nodeLevels, shards, t.len)
    && t.entryPoint.Some? && IsHighest(t.nodeLevels, t.entryPoint.value) && t.nodeLevels[t.entryPoint.value] == t.maxLayer
  }

  method CapAll(merged: seq<Layer>, n: nat, m: nat, mMax: nat, dist: Distances) returns (r: seq<Layer>)
    requires Square(dist, n) && forall l :: 0 <= l < |merged| ==> |merged[l]| == n && InRange(merged[l])
    ensures |r| == |merged|
    ensures forall l :: 0 <= l < |r| ==> |r[l]| == n && InRange(r[l])
    ensures forall l, u :: 0 <= l < |r| && 0 <= u < n ==>
              Capped(r[l][u], Members(merged[l][u]), if l == 0 then mMax else m, dist[u])
  {
    r := [];
    for l := 0 to |merged|
      invariant |r| == l
      invariant forall k :: 0 <= k < l ==> |r[k]| == n && InRange(r[k])
      invariant forall k, u :: 0 <= k < l && 0 <= u < n ==>
          Capped(r[k][u], Members(merged[k][u]), if k == 0 then mMax else m, dist[u])
    {
      var layer := CapLayer(merged[l], CapForLayer(m, mMax, l), dist);
      CappedInRange(merged[l], layer, CapForLayer(m, mMax, l), dist);
      hide Capped, InRange;
      r := r + [layer];
    }
  }

  lemma CappedInRange(g: Layer, r: Layer, cap: nat, dist: Distances)
    requires Square(dist, |g|) && |r| == |g|
    requires forall u :: 0 <= u < |g| ==> Capped(r[u], Members(g[u]), cap, dist[u])
    ensures InRange(r)
  {
    forall u, i | 0 <= u < |r| && 0 <= i < |r[u]| ensures r[u][i] < |r| {
      assert Capped(r[u], Members(g[u]), cap, dist[u]);
    }
  }

  /** The levels drawn for the members of shard `c`. */
  function LevelsFor(levelOf: (nat, nat) -> nat, c: nat, n: nat): (levels: seq<nat>)
    ensures |levels| == n && forall l :: 0 <= l < n ==> levels[l] == levelOf(c, l)
  {
    seq(n, l requires 0 <= l => levelOf(c, l))
  }

  /** Every shard's subgraph was built on its own. */
  ghost predicate AllAlone(shards: seq<Shard>, n: nat, levelOf: (nat, nat) -> nat, ef: nat, m: nat, mMax: nat,
                           hubCountOf: nat -> nat, dist: Distances)
    requires Square(dist, n)
  {
    && (forall c :: 0 <= c < |shards| ==> Listed(n, shards[c].members))
    && forall c :: 0 <= c < |shards| ==>
         BuiltAlone(shards[c], n, LevelsFor(levelOf, c, |shards[c].members|), ef, m, mMax, hubCountOf(c), dist)
  }

  lemma OneMoreAlone(shards: seq<Shard>, s: Shard, n: nat, levelOf: (nat, nat) -> nat, ef: nat, m: nat, mMax: nat,
                     hubCountOf: nat -> nat, dist: Distances)
    requires Square(dist, n) && AllAlone(shards, n, levelOf, ef, m, mMax, hubCountOf, dist) && Listed(n, s.members)
    requires BuiltAlone(s, n, LevelsFor(levelOf, |shards|, |s.members|), ef, m, mMax, hubCountOf(|shards|), dist)
    ensures AllAlone(shards + [s], n, levelOf, ef, m, mMax, hubCountOf, dist)
  {
    hide BuiltAlone;
  }

  lemma NoneAlone(n: nat, levelOf: (nat, nat) -> nat, ef: nat, m: nat, mMax: nat, hubCountOf: nat -> nat, dist: Distances)
    requires Square(dist, n)
    ensures AllAlone([], n, levelOf, ef, m, mMax, hubCountOf, dist)
  {
  }

  /** Build every shard in turn, merging as it goes; shards without members are skipped. */
  method MergeShards(postings: seq<seq<nat>>, len: nat, m: nat, mMax: nat, efConstruction: nat,
                     levelOf: (nat, nat) -> nat, hubCountOf: nat -> nat, dist: Distances)
    returns (lists: seq<Layer>, nodeLevels: seq<nat>, ghost shards: seq<Shard>)
    requires Square(dist, len) && forall s: nat, l: nat :: levelOf(s, l) < 256
    requires forall c :: 0 <= c < |postings| ==> Distinct(postings[c]) && Listed(len, postings[c])
    ensures |shards| == |postings| && forall c :: 0 <= c < |postings| ==> shards[c].members == postings[c]
    ensures AllAlone(shards, len, levelOf, efConstruction, m, mMax, hubCountOf, dist)
    ensures MergedSoFar(lists, nodeLevels, shards, len) && AllSubOk(shards, m, mMax)
  {
    hide MergedSoFar, AllAlone, BuiltAlone, AllSubOk, SubOk, Distinct, Listed;
    assert AllSubOk([], m, mMax) by {
      NoSubs(m, mMax);
    }
    lists, nodeLevels, shards := [EmptyLayer(len)], seq(len, _ => 0), [];
    NothingMerged(len);
    NoneAlone(len, levelOf, efConstruction, m, mMax, hubCountOf, dist);
    for c := 0 to |postings|
      invariant |shards| == c && forall k :: 0 <= k < c ==> shards[k].members == postings[k]
      invariant AllAlone(shards, len, levelOf, efConstruction, m, mMax, hubCountOf, dist)
      invariant MergedSoFar(lists, nodeLevels, shards, len) && AllSubOk(shards, m, mMax)
    {
      ghost var s := Shard([], EMPTY_SUB);
      if postings[c] == [] {
        EmptyShard(lists, nodeLevels, shards, len);
        EmptyAlone(len, LevelsFor(levelOf, c, 0), efConstruction, m, mMax, hubCountOf(c), dist);
        OneMoreAlone(shards, s, len, levelOf, efConstruction, m, mMax, hubCountOf, dist);
        EmptySubOk(m, mMax);
        OneMoreSubOk(shards, s, m, mMax);
        shards := shards + [s];
        continue;
      }
      lists, nodeLevels, s := MergeShard(lists, nodeLevels, shards, postings[c], len, m, mMax, efConstruction,
        LevelsFor(levelOf, c, |postings[c]|), hubCountOf(c), dist);
      OneMoreAlone(shards, s, len, levelOf, efConstruction, m, mMax, hubCountOf, dist);
      OneMoreSubOk(shards, s, m, mMax);
      shards := shards + [s];
    }
  }

  lemma NoSubs(m: nat, mMax: nat)
    ensures AllSubOk([], m, mMax)
  {
  }

  /** `HnswIndex::build_sharded`. Falls back to the monolithic build for at most one shard or as many shards as
      vectors; otherwise trains the coarse quantizer, soft-assigns, builds every shard, merges and caps. With fewer
      shards than vectors the quantizer always has as many centroids as asked for, so the code's fallback for a
      collapsed one is never taken. */
  method BuildSharded(points: seq<Vector>, d: nat, m: nat, mMax: nat, efConstruction: nat, numShards: nat, softAssign: nat,
                      maxIters: nat, seeds: KMeans.Seeds, levelOf: (nat, nat) -> nat, hubCountOf: nat -> nat,
                      monoLevels: seq<nat>, monoHubCount: nat, dist: Distances)
    returns (t: Topology, ghost cents: seq<Vector>, ghost start: seq<Vector>, ghost picks: seq<nat>,
             ghost postings: seq<seq<nat>>, ghost shards: seq<Shard>, ghost merged: seq<Layer>)
    requires Shaped(points, d) && Square(dist, |points|) && (points != [] ==> seeds.Fits(|points|))
    requires |monoLevels| == |points| && (forall v :: 0 <= v < |points| ==> monoLevels[v] < 256)
    requires forall s: nat, l: nat :: levelOf(s, l) < 256
    ensures WellFormed(t) && t.len == |points|
    ensures !(1 < numShards < |points|) ==>
      && t.nodeLevels == monoLevels && t.entryPoint == (if points == [] then None else Some(0))
      && exists states :: BuildOf(states, t.adjacency, |points|, monoLevels, efConstruction, m, mMax, monoHubCount, dist)
    ensures 1 < numShards < |points| ==>
      && KMeans.WellTrained(points, d, numShards, maxIters, cents, start, picks, seeds)
      && Shaped(cents, d) && |cents| == numShards
      && Assigned(ToCentroids(points, cents, d), numShards,
                  if softAssign < 1 then 1 else if softAssign > numShards then numShards else softAssign, postings, |points|)
      && |shards| == numShards && (forall c :: 0 <= c < numShards ==> shards[c].members == postings[c])
      && AllAlone(shards, |points|, levelOf, efConstruction, m, mMax, hubCountOf, dist)
      && AllSubOk(shards, m, mMax)
      && MergedGraph(t, merged, shards, m, mMax, dist)
  {
    hide BuildOf, KMeans.WellTrained, KMeans.Seeds.Fits, L2;
    cents, start, picks, postings, shards, merged := [], [], [], [], [], [];
    var len := |points|;
    if len == 0 || numShards <= 1 || numShards >= len {
      var index, _ := BuildResident(len, m, mMax, efConstruction, monoLevels, dist, monoHubCount);
      BuiltIsWellFormed(index);
      t := index.View();
      return;
    }
    var trained;
    trained, start, picks := KMeans.Train(points, d, numShards, maxIters, seeds);
    cents := trained[..];
    KMeans.SizeOfTrained(points, d, numShards, maxIters, cents, start, picks, seeds);
    var shardCount := trained.Length;
    assert shardCount == numShards;
    var soft := Clamp(softAssign, 1, shardCount);
    var toCentroid := DistanceTable(points, trained[..], d);
    var members := AssignAll(toCentroid, shardCount, soft);
    postings := members;
    PostingsOk(toCentroid, shardCount, soft, members);
    hide Assigned, AllAlone, MergedSoFar, AllSubOk, ToCentroids;
    var lists, nodeLevels;
    lists, nodeLevels, shards := MergeShards(members, len, m, mMax, efConstruction, levelOf, hubCountOf, dist);
    merged := lists;
    t := Finish(lists, nodeLevels, shards, len, m, mMax, dist);
  }

  lemma PostingsOk(toCentroid: seq<seq<real>>, lists: nat, soft: nat, postings: seq<seq<nat>>)
    requires Assigned(toCentroid, lists, soft, postings, |toCentroid|)
    ensures |postings| == lists
    ensures forall c :: 0 <= c < lists ==> Distinct(postings[c]) && Listed(|toCentroid|, postings[c])
  {
  }

  /** Cap the merged lists and pick the entry point. */
  method Finish(lists: seq<Layer>, nodeLevels: seq<nat>, ghost shards: seq<Shard>, len: nat, m: nat, mMax: nat,
                dist: Distances) returns (t: Topology)
    requires len > 0 && Square(dist, len) && MergedSoFar(lists, nodeLevels, shards, len)
    ensures t.len == len && MergedGraph(t, lists, shards, m, mMax, dist)
  {
    forall l | 0 <= l < |lists| ensures |lists[l]| == len && InRange(lists[l]) {
      MergedInRange(lists, shards, len, l);
    }
    LevelsWidth(nodeLevels, shards, len);
    assert |lists| >= 1;
    hide ShardOk, MergedEdges, MergedLevels, Capped, InRange;
    var capped := CapAll(lists, len, m, mMax, dist);
    var entry := HighestNode(nodeLevels);
    EntryIsTop(nodeLevels, shards, len, |lists|, entry);
    t := Topology(capped, nodeLevels, Some(entry), |lists| - 1, len);
  }

  /** Every edge of the merged graph joins two vectors of one shard and came from its subgraph. */
  lemma MergedEdgeFromShard(t: Topology, merged: seq<Layer>, shards: seq<Shard>, m: nat, mMax: nat, dist: Distances,
                            l: nat, u: nat, w: nat)
    returns (i: nat)
    requires MergedGraph(t, merged, shards, m, mMax, dist)
    requires l < |t.adjacency| && u < t.len && w in t.adjacency[l][u]
    ensures i < |shards| && ShardOk(shards[i], t.len) && ShardEdge(shards[i], t.len, l, u, w)
    ensures u in shards[i].members && w in shards[i].members
  {
    assert Capped(t.adjacency[l][u], Members(merged[l][u]), CapForLayer(m, mMax, l), dist[u]);
    assert w in Members(t.adjacency[l][u]);
    assert w in merged[l][u];
    i :| 0 <= i < |shards| && ShardEdge(shards[i], t.len, l, u, w);
    assert ShardOk(shards[i], t.len);
    EdgeInShard(shards[i], t.len, l, u, w);
  }

  /** `v` may carry merged edges on layer `l`: some shard gave it that level, or it is the first member of one, whose
      entry point it is. */
  ghost predicate OnMergedLayer(t: Topology, shards: seq<Shard>, l: nat, v: nat) {
    || (v < |t.nodeLevels| && t.nodeLevels[v] >= l)
    || exists i :: 0 <= i < |shards| && shards[i].members != [] && shards[i].members[0] == v
  }

  /** A shard's edge joins two different members, each on the edge's layer. */
  lemma ShardEdgeOk(s: Shard, n: nat, m: nat, mMax: nat, l: nat, u: nat, w: nat) returns (a: nat, b: nat)
    requires ShardOk(s, n) && SubOk(s, m, mMax) && ShardEdge(s, n, l, u, w)
    ensures a < |s.members| && b < |s.members| && s.members[a] == u && s.members[b] == w && u != w
    ensures a == 0 || s.sub.nodeLevels[a] >= l
    ensures b == 0 || s.sub.nodeLevels[b] >= l
  {
    hide LayersOk, LayerOk, OnLayer, Distinct, IsTopLevel;
    var g := s.sub.adjacency[l];
    var j;
    a, j :| 0 <= a < |g| && 0 <= j < |g[a]| && s.members[a] == u && s.members[g[a][j]] == w;
    b := g[a][j];
    LayerAt(s.sub.adjacency, s.sub.len, m, mMax, s.sub.entryPoint, s.sub.nodeLevels, s.sub.len, |s.sub.adjacency|, l);
    EdgeOnLayer(g, l, CapForLayer(m, mMax, l), s.sub.nodeLevels, s.sub.len, a, j);
    MembersApart(s.members, a, b);
  }

  lemma EdgeOnLayer(g: Layer, l: nat, cap: nat, levels: seq<nat>, count: nat, a: nat, j: nat)
    requires LayerOk(g, l, cap, Some(0), levels, count) && a < |g| && j < |g[a]|
    ensures var b := g[a][j];
            && a != b && a < |levels| && b < |levels|
            && (a == 0 || levels[a] >= l) && (b == 0 || levels[b] >= l)
  {
    var b := g[a][j];
    assert RowOk(g[a], a, |g|, cap) && b in g[a];
    assert OnLayer(Some(0), levels, count, l, a) && OnLayer(Some(0), levels, count, l, b);
  }

  lemma MembersApart(members: seq<nat>, a: nat, b: nat)
    requires Distinct(members) && a < |members| && b < |members| && a != b
    ensures members[a] != members[b]
  {
  }

  lemma MemberOnMergedLayer(t: Topology, shards: seq<Shard>, l: nat, i: nat, a: nat)
    requires AllOk(shards, t.len) && MergedLevels(t.nodeLevels, shards, t.len)
    requires i < |shards| && ShardOk(shards[i], t.len) && a < |shards[i].members| && (a == 0 || shards[i].sub.nodeLevels[a] >= l)
    ensures OnMergedLayer(t, shards, l, shards[i].members[a])
  {
    assert t.nodeLevels[shards[i].members[a]] >= shards[i].sub.nodeLevels[a];
  }

  /** The merged graph keeps the invariant of a build: no list holds a repeat or its own node, none exceeds its cap,
      and both ends of an edge are on its layer. */
  lemma MergedLayerOk(t: Topology, merged: seq<Layer>, shards: seq<Shard>, m: nat, mMax: nat, dist: Distances,
                      l: nat, u: nat)
    requires MergedGraph(t, merged, shards, m, mMax, dist) && AllSubOk(shards, m, mMax)
    requires l < |t.adjacency| && u < t.len
    ensures RowOk(t.adjacency[l][u], u, t.len, if l == 0 then mMax else m)
    ensures forall w :: w in t.adjacency[l][u] ==> OnMergedLayer(t, shards, l, u) && OnMergedLayer(t, shards, l, w)
  {
    var row := t.adjacency[l][u];
    forall w | w in row
      ensures w != u && OnMergedLayer(t, shards, l, u) && OnMergedLayer(t, shards, l, w)
    {
      var i := MergedEdgeFromShard(t, merged, shards, m, mMax, dist, l, u, w);
      var a, b := ShardEdgeOk(shards[i], t.len, m, mMax, l, u, w);
      MemberOnMergedLayer(t, shards, l, i, a);
      MemberOnMergedLayer(t, shards, l, i, b);
    }
    CappedSize(row, Members(merged[l][u]), CapForLayer(m, mMax, l), dist[u]);
    hide Capped, OnMergedLayer, MergedEdges, MergedLevels, AllOk;
  }

  lemma CappedSize(row: seq<nat>, union: set<nat>, cap: nat, sc: seq<real>)
    requires Capped(row, union, cap, sc)
    ensures |row| <= cap && Distinct(row) && Listed(|sc|, row)
  {
    MembersSize(row);
  }
}
