/** Construction of the graph by insertion. */
module HnswBuild {
  import opened Core
  import opened Nearest
  import opened Graph
  import opened IdLists
  import opened Select
  import opened HnswSearch
  import opened HnswPrune
  import Beam

  /** Pairwise distances: `dist[a][b]` is the distance between the vectors of `a` and `b`. */
  type Distances = seq<seq<real>>

  ghost predicate Square(dist: Distances, n: nat) {
    |dist| == n && forall a :: 0 <= a < n ==> |dist[a]| == n
  }

  /** One neighbour list: in range, duplicate-free, loop-free, within the cap. */
  ghost predicate RowOk(row: seq<nat>, u: nat, n: nat, cap: nat) {
    Listed(n, row) && Distinct(row) && u !in row && |row| <= cap
  }

  /** `v` may carry edges on layer `l`: it is inserted, and is the entry or reaches that layer. */
  ghost predicate OnLayer(entry: Option<nat>, levels: seq<nat>, count: nat, l: nat, v: nat) {
    v < count && v < |levels| && (entry == Some(v) || levels[v] >= l)
  }

  ghost predicate AllOn(entry: Option<nat>, levels: seq<nat>, count: nat, l: nat, s: seq<nat>, n: nat) {
    Listed(n, s) && forall v :: v in s ==> OnLayer(entry, levels, count, l, v)
  }

  ghost predicate EndpointsOk(g: Layer, l: nat, entry: Option<nat>, levels: seq<nat>, count: nat) {
    forall u, w {:trigger w in g[u]} :: 0 <= u < |g| && w in g[u] ==>
      OnLayer(entry, levels, count, l, u) && OnLayer(entry, levels, count, l, w)
  }

  ghost predicate LayerOk(g: Layer, l: nat, cap: nat, entry: Option<nat>, levels: seq<nat>, count: nat) {
    && (forall u :: 0 <= u < |g| ==> RowOk(g[u], u, |g|, cap))
    && EndpointsOk(g, l, entry, levels, count)
  }

  lemma LayerOkInRange(g: Layer, l: nat, cap: nat, entry: Option<nat>, levels: seq<nat>, count: nat)
    requires LayerOk(g, l, cap, entry, levels, count)
    ensures InRange(g)
  {
    forall u, i | 0 <= u < |g| && 0 <= i < |g[u]| ensures g[u][i] < |g| {
      assert RowOk(g[u], u, |g|, cap);
    }
  }

  // ---- connecting and pruning one layer ----

  function Appended(row: seq<nat>, x: nat): seq<nat> {
    if x in row then row else row + [x]
  }

  /** `connect` as a function of the layer. */
  function Connected(g: Layer, a: nat, b: nat): (r: Layer)
    requires a < |g| && b < |g|
    ensures |r| == |g|
  {
    if a == b then g
    else
      var g1 := g[a := Appended(g[a], b)];
      g1[b := Appended(g1[b], a)]
  }

  /** An edge each way between `a` and `b`, kept where it was, and every other list untouched. */
  ghost predicate LinkedBothWays(g: Layer, g': Layer, a: nat, b: nat)
    requires a < |g| && b < |g|
  {
    && |g'| == |g|
    && (forall u :: 0 <= u < |g| && u != a && u != b ==> g'[u] == g[u])
    && (a == b ==> g' == g)
    && (a != b ==>
          && Members(g'[a]) == Members(g[a]) + {b} && Members(g'[b]) == Members(g[b]) + {a}
          && g[a] <= g'[a] && |g'[a]| == |g[a]| + (if b in g[a] then 0 else 1)
          && g[b] <= g'[b] && |g'[b]| == |g[b]| + (if a in g[b] then 0 else 1))
  }

  lemma ConnectedLinks(g: Layer, a: nat, b: nat)
    requires a < |g| && b < |g|
    ensures LinkedBothWays(g, Connected(g, a, b), a, b)
  {
    AppendedMembers(g[a], b);
    AppendedMembers(g[b], a);
    hide Members, Appended;
  }

  lemma ConnectedRow(g: Layer, a: nat, b: nat)
    requires a < |g| && b < |g|
    ensures a != b && a !in g[b] ==> Connected(g, a, b)[b] == g[b] + [a] && (Distinct(g[b]) ==> Distinct(g[b] + [a]))
  {
  }

  lemma AppendedMembers(row: seq<nat>, x: nat)
    ensures Members(Appended(row, x)) == Members(row) + {x} && row <= Appended(row, x)
    ensures |Appended(row, x)| == |row| + (if x in row then 0 else 1)
  {
  }

  /** `prune_node`: an over-full list keeps its `cap` closest. */
  function Pruned(g: Layer, u: nat, cap: nat, sc: seq<real>): (r: Layer)
    requires u < |g| && Listed(|sc|, g[u])
    ensures |r| == |g|
  {
    if |g[u]| <= cap then g else g[u := SelectClosest(sc, g[u], cap)]
  }

  /** A list trimmed to its closest `cap`: untouched when it fits, else the best `cap` of its members by distance and
      id, closest first. */
  ghost predicate Trimmed(row: seq<nat>, row': seq<nat>, cap: nat, sc: seq<real>) {
    if |row| <= cap then row' == row
    else
      && Within(sc, Members(row)) && Listed(|sc|, row') && Distinct(row')
      && IsBest(sc, cap, Members(row), Members(row')) && CloserFirst(sc, row')
  }

  lemma PrunedIsTrimmed(g: Layer, u: nat, cap: nat, sc: seq<real>)
    requires u < |g| && Listed(|sc|, g[u]) && Distinct(g[u])
    ensures Trimmed(g[u], Pruned(g, u, cap, sc)[u], cap, sc)
    ensures forall v :: 0 <= v < |g| && v != u ==> Pruned(g, u, cap, sc)[v] == g[v]
  {
    SelectClosestIsBest(sc, g[u], cap);
    SelectClosestSorted(sc, g[u], cap);
    hide SelectClosest, IsBest, CloserFirst, Distinct;
  }

  lemma PrunedRowOk(row: seq<nat>, u: nat, cap: nat, sc: seq<real>)
    requires RowOk(row, u, |sc|, cap + 1)
    ensures RowOk(SelectClosest(sc, row, cap), u, |sc|, cap)
    ensures forall x :: x in SelectClosest(sc, row, cap) ==> x in row
  {
    SelectClosestIsBest(sc, row, cap);
    var kept := SelectClosest(sc, row, cap);
    forall x | x in kept ensures x in row {
      assert x in Members(kept);
    }
  }

  /** Half-way through wiring `node`: every other list is in order, its own is the wired prefix. */
  ghost predicate Wiring(g: Layer, l: nat, cap: nat, entry: Option<nat>, levels: seq<nat>,
                         node: nat, selected: seq<nat>, i: nat) {
    && node < |g| && i <= |selected|
    && LayerOk(g, l, cap, entry, levels, node + 1)
    && g[node] == selected[..i]
  }

  /** One wiring step: link both ways, then prune the neighbour only. */
  function Wired(g: Layer, node: nat, nbr: nat, cap: nat, dist: Distances): (r: Layer)
    requires node < |g| && nbr < |g| && InRange(g) && Square(dist, |g|)
    ensures |r| == |g|
  {
    ConnectedInRange(g, node, nbr);
    Pruned(Connected(g, node, nbr), nbr, cap, dist[nbr])
  }

  /** Wiring `node` to the first `i` selected neighbours in turn. */
  function WireAll(g: Layer, node: nat, selected: seq<nat>, i: nat, cap: nat, dist: Distances): (r: Layer)
    requires node < |g| && InRange(g) && Square(dist, |g|) && Listed(|g|, selected) && i <= |selected|
    ensures |r| == |g| && InRange(r)
  {
    if i == 0 then g
    else
      var before := WireAll(g, node, selected, i - 1, cap, dist);
      WiredInRange(before, node, selected[i - 1], cap, dist);
      Wired(before, node, selected[i - 1], cap, dist)
  }

  lemma WiredInRange(g: Layer, node: nat, nbr: nat, cap: nat, dist: Distances)
    requires node < |g| && nbr < |g| && InRange(g) && Square(dist, |g|)
    ensures InRange(Wired(g, node, nbr, cap, dist))
  {
    ConnectedInRange(g, node, nbr);
    var c := Connected(g, node, nbr);
    SelectClosestListed(dist[nbr], c[nbr], cap);
  }

  lemma ConnectedInRange(g: Layer, a: nat, b: nat)
    requires a < |g| && b < |g| && InRange(g)
    ensures Listed(|g|, Connected(g, a, b)[b]) && InRange(Connected(g, a, b))
  {
  }

  /** What one wiring step does to the lists. */
  lemma WiredShape(g: Layer, node: nat, nbr: nat, cap: nat, dist: Distances)
    requires node < |g| && nbr < |g| && node != nbr && InRange(g) && Square(dist, |g|)
    requires nbr !in g[node] && RowOk(g[nbr], nbr, |g|, cap)
    ensures var r := Wired(g, node, nbr, cap, dist);
            && r[node] == g[node] + [nbr]
            && (forall u :: 0 <= u < |g| && u != node && u != nbr ==> r[u] == g[u])
            && RowOk(r[nbr], nbr, |g|, cap)
            && (forall w :: w in r[nbr] ==> w == node || w in g[nbr])
  {
    ConnectedInRange(g, node, nbr);
    var c := Connected(g, node, nbr);
    var row := c[nbr];
    assert row == Appended(g[nbr], node);
    hide Pruned, Distinct, SelectClosest;
    AppendedRowOk(g[nbr], nbr, node, |g|, cap);
    PrunedShape(c, nbr, cap, dist[nbr]);
  }

  lemma AppendedRowOk(row: seq<nat>, u: nat, x: nat, n: nat, cap: nat)
    requires RowOk(row, u, n, cap) && x < n && x != u
    ensures RowOk(Appended(row, x), u, n, cap + 1)
  {
  }

  lemma PrunedShape(g: Layer, u: nat, cap: nat, sc: seq<real>)
    requires u < |g| && |sc| == |g| && RowOk(g[u], u, |g|, cap + 1)
    ensures var r := Pruned(g, u, cap, sc);
            && (forall v :: 0 <= v < |g| && v != u ==> r[v] == g[v])
            && RowOk(r[u], u, |g|, cap)
            && (forall w :: w in r[u] ==> w in g[u])
  {
    PrunedRowOk(g[u], u, cap, sc);
  }

  /** The selected neighbours may all be wired to `node` on layer `l`. */
  ghost predicate Wireable(entry: Option<nat>, levels: seq<nat>, node: nat, l: nat, selected: seq<nat>, n: nat, cap: nat) {
    && Listed(n, selected) && Distinct(selected) && node !in selected && |selected| <= cap
    && OnLayer(entry, levels, node + 1, l, node)
    && forall i :: 0 <= i < |selected| ==> OnLayer(entry, levels, node + 1, l, selected[i])
  }

  lemma WireStep(g: Layer, l: nat, cap: nat, entry: Option<nat>, levels: seq<nat>,
                 node: nat, selected: seq<nat>, i: nat, dist: Distances)
    requires Wiring(g, l, cap, entry, levels, node, selected, i) && i < |selected|
    requires Wireable(entry, levels, node, l, selected, |g|, cap)
    requires Square(dist, |g|) && InRange(g)
    ensures node < |g| && selected[i] < |g|
    ensures Wiring(Wired(g, node, selected[i], cap, dist), l, cap, entry, levels, node, selected, i + 1)
  {
    hide Wired, OnLayer, InRange;
    var nbr := selected[i];
    assert nbr != node && nbr !in selected[..i];
    assert selected[..i + 1] == selected[..i] + [nbr];
    WiredShape(g, node, nbr, cap, dist);
    var r := Wired(g, node, nbr, cap, dist);
    SelectedRowOk(selected, i + 1, node, |g|, cap);
    WiredRows(g, r, cap, node, nbr);
    WiredEndpoints(g, r, l, entry, levels, node, nbr);
  }

  lemma UpdateTwice(s: seq<Layer>, i: nat, x: Layer, y: Layer)
    requires i < |s|
    ensures s[i := x][i := y] == s[i := y] && s[i := x][i] == x
  {
  }

  lemma UpdateSame(s: seq<Layer>, i: nat)
    requires i < |s|
    ensures s[i := s[i]] == s
  {
  }

  /** `g` is `g0` with `node` wired to the first `i` selected neighbours, every list in order. */
  ghost predicate WiredSoFar(g0: Layer, g: Layer, l: nat, cap: nat, entry: Option<nat>, levels: seq<nat>,
                             node: nat, selected: seq<nat>, i: nat, dist: Distances)
  {
    && node < |g0| == |g| && InRange(g0) && Square(dist, |g0|) && i <= |selected|
    && Wireable(entry, levels, node, l, selected, |g0|, cap)
    && g == WireAll(g0, node, selected, i, cap, dist)
    && Wiring(g, l, cap, entry, levels, node, selected, i)
  }

  lemma WireNext(g0: Layer, g: Layer, l: nat, cap: nat, entry: Option<nat>, levels: seq<nat>,
                 node: nat, selected: seq<nat>, i: nat, dist: Distances)
    requires WiredSoFar(g0, g, l, cap, entry, levels, node, selected, i, dist) && i < |selected|
    ensures node < |g| == |g0| && selected[i] < |g| && InRange(g) && Square(dist, |g|)
    ensures |Wired(g, node, selected[i], cap, dist)| == |g|
    ensures WiredSoFar(g0, Wired(g, node, selected[i], cap, dist), l, cap, entry, levels, node, selected, i + 1, dist)
  {
    hide Wiring, Wired, InRange, Square;
    WireStep(g, l, cap, entry, levels, node, selected, i, dist);
  }

  lemma SelectedRowOk(selected: seq<nat>, i: nat, node: nat, n: nat, cap: nat)
    requires i <= |selected| <= cap && Listed(n, selected) && Distinct(selected) && node !in selected
    ensures RowOk(selected[..i], node, n, cap)
  {
  }

  lemma WiredEndpoints(g: Layer, r: Layer, l: nat, entry: Option<nat>, levels: seq<nat>, node: nat, nbr: nat)
    requires node < |g| && nbr < |g| && |r| == |g|
    requires EndpointsOk(g, l, entry, levels, node + 1)
    requires OnLayer(entry, levels, node + 1, l, node) && OnLayer(entry, levels, node + 1, l, nbr)
    requires r[node] == g[node] + [nbr]
    requires forall u :: 0 <= u < |g| && u != node && u != nbr ==> r[u] == g[u]
    requires forall w :: w in r[nbr] ==> w == node || w in g[nbr]
    ensures EndpointsOk(r, l, entry, levels, node + 1)
  {
    forall u, w | 0 <= u < |r| && w in r[u]
      ensures OnLayer(entry, levels, node + 1, l, u) && OnLayer(entry, levels, node + 1, l, w)
    {
      if u == node {
        assert w == nbr || w in g[node];
      } else if u == nbr {
        assert w == node || w in g[nbr];
      } else {
        assert w in g[u];
      }
    }
  }

  lemma WiredRows(g: Layer, r: Layer, cap: nat, node: nat, nbr: nat)
    requires |r| == |g| && node < |g| && nbr < |g|
    requires forall u :: 0 <= u < |g| ==> RowOk(g[u], u, |g|, cap)
    requires forall u :: 0 <= u < |g| && u != node && u != nbr ==> r[u] == g[u]
    requires RowOk(r[node], node, |g|, cap) && RowOk(r[nbr], nbr, |g|, cap)
    ensures forall u :: 0 <= u < |r| ==> RowOk(r[u], u, |r|, cap)
  {
  }

  // ---- which nodes a search can meet ----

  ghost function LayerNodes(entry: Option<nat>, levels: seq<nat>, count: nat, l: nat): set<nat> {
    set v | v in Range(count) && OnLayer(entry, levels, count, l, v)
  }

  /** Searching a layer from nodes on that layer meets only nodes on that layer. */
  lemma SearchStaysOnLayer(g: Layer, l: nat, cap: nat, entry: Option<nat>, levels: seq<nat>, count: nat, from: set<nat>)
    requires LayerOk(g, l, cap, entry, levels, count)
    requires forall v :: v in from ==> OnLayer(entry, levels, count, l, v)
    ensures forall v :: v in Reachable(g, from) ==> OnLayer(entry, levels, count, l, v)
  {
    var nodes := LayerNodes(entry, levels, count, l);
    hide OnLayer;
    assert Closed(g, nodes) by {
      forall u, w | u in nodes && u < |g| && w in Members(g[u]) ensures w in nodes {
        OnLayerCounts(entry, levels, count, l, u, w, g);
      }
    }
    forall v | v in from ensures v in nodes {
      OnLayerBound(entry, levels, count, l, v);
    }
    ReachableIsLeast(g, from, nodes);
  }

  lemma OnLayerBound(entry: Option<nat>, levels: seq<nat>, count: nat, l: nat, v: nat)
    requires OnLayer(entry, levels, count, l, v)
    ensures v in Range(count)
  {
  }

  lemma OnLayerCounts(entry: Option<nat>, levels: seq<nat>, count: nat, l: nat, u: nat, w: nat, g: Layer)
    requires EndpointsOk(g, l, entry, levels, count) && u < |g| && w in g[u]
    ensures OnLayer(entry, levels, count, l, w) && w in Range(count)
  {
    assert OnLayer(entry, levels, count, l, w);
  }

  lemma OnLowerLayer(entry: Option<nat>, levels: seq<nat>, count: nat, l: nat, k: nat, v: nat)
    requires OnLayer(entry, levels, count, l, v) && k <= l
    ensures OnLayer(entry, levels, count, k, v)
  {
  }

  /** Counting one more inserted node keeps a layer in order. */
  lemma LayerOkGrows(g: Layer, l: nat, cap: nat, entry: Option<nat>, levels: seq<nat>, count: nat)
    requires LayerOk(g, l, cap, entry, levels, count)
    ensures LayerOk(g, l, cap, entry, levels, count + 1)
  {
    forall u, w | 0 <= u < |g| && w in g[u]
      ensures OnLayer(entry, levels, count + 1, l, u) && OnLayer(entry, levels, count + 1, l, w)
    {
      assert OnLayer(entry, levels, count, l, u) && OnLayer(entry, levels, count, l, w);
    }
  }

  /** An uninserted node carries no edges. */
  lemma NewNodeHasNoEdges(g: Layer, l: nat, cap: nat, entry: Option<nat>, levels: seq<nat>, node: nat)
    requires LayerOk(g, l, cap, entry, levels, node) && node < |g|
    ensures g[node] == []
  {
    if g[node] != [] {
      HasId(g[node]);
      assert false;
    }
  }

  /** A layer without edges. */
  function EmptyLayer(n: nat): (g: Layer)
    ensures |g| == n && forall u :: 0 <= u < n ==> g[u] == []
  {
    seq(n, _ => [])
  }

  lemma EmptyLayerOk(n: nat, l: nat, cap: nat, entry: Option<nat>, levels: seq<nat>, count: nat)
    ensures LayerOk(EmptyLayer(n), l, cap, entry, levels, count)
  {
  }

  // ---- the index under construction ----

  function CapForLayer(m: nat, mMax: nat, layer: nat): nat {
    if layer == 0 then mMax else m
  }

  /** Layers from `done` up count `node` as inserted; the layers below do not know it yet. */
  ghost predicate LayersOk(adjacency: seq<Layer>, n: nat, m: nat, mMax: nat, entry: Option<nat>, levels: seq<nat>,
                           node: nat, done: nat) {
    forall k :: 0 <= k < |adjacency| ==>
      && |adjacency[k]| == n
      && LayerOk(adjacency[k], k, CapForLayer(m, mMax, k), entry, levels, if k >= done then node + 1 else node)
  }

  /** `top` is the highest level among the first `count` nodes (0 when there are none). */
  ghost predicate IsTopLevel(levels: seq<nat>, count: nat, top: nat) {
    && count <= |levels|
    && (forall v :: 0 <= v < count ==> levels[v] <= top)
    && (top > 0 ==> exists v :: 0 <= v < count && levels[v] == top)
  }

  /** `ids` are exactly what the beam on `g` from `entries` keeps, each once; and that is certified. */
  ghost predicate BeamFound(g: Layer, sc: seq<real>, entries: seq<nat>, ef: nat, ids: seq<nat>) {
    && InRange(g) && |sc| == |g| && Members(entries) <= Range(|g|) && Distinct(ids) && |ids| <= ef
    && Members(ids) == Beam.BeamResult(g, sc, Members(entries), ef).1
    && exists visited, expanded :: Beam.Certified(g, sc, Members(entries), ef, visited, expanded, Members(ids))
  }

  /** `g'` is `g` with `node` wired to the closest of `ids` within the cap, each over-full neighbour pruned. */
  ghost predicate LayerWired(g: Layer, g': Layer, node: nat, ids: seq<nat>, cap: nat, dist: Distances) {
    && node < |g| && InRange(g) && Square(dist, |g|) && Listed(|g|, ids)
    && var selected := SelectClosest(dist[node], ids, cap);
       Listed(|g|, selected) && g' == WireAll(g, node, selected, |selected|, cap, dist)
  }

  /** The same in the lists: `node` lists the best `cap` of `ids`, closest first; each of those lists `node` after its
      old members, trimmed to its own closest; every other list is as before. */
  ghost predicate LayerRewired(g: Layer, g': Layer, node: nat, ids: seq<nat>, cap: nat, dist: Distances) {
    && |g'| == |g| && node < |g| && Square(dist, |g|)
    && var row := g'[node];
       && Within(dist[node], Members(ids)) && Listed(|g|, row) && Distinct(row)
       && IsBest(dist[node], cap, Members(ids), Members(row)) && CloserFirst(dist[node], row)
       && forall u :: 0 <= u < |g| && u != node ==>
            if u in row then Trimmed(g[u] + [node], g'[u], cap, dist[u]) else g'[u] == g[u]
  }

  /** `h` is `g` with `node` wired to the first `i` selected neighbours, list by list. */
  ghost predicate RewiredSoFar(g: Layer, h: Layer, node: nat, selected: seq<nat>, i: nat, cap: nat, dist: Distances) {
    && |h| == |g| && node < |g| && Square(dist, |g|) && i <= |selected| && h[node] == selected[..i]
    && forall u :: 0 <= u < |g| && u != node ==>
         if u in selected[..i] then Trimmed(g[u] + [node], h[u], cap, dist[u]) else h[u] == g[u]
  }

  lemma RewiredNext(g: Layer, h: Layer, node: nat, selected: seq<nat>, i: nat, cap: nat, dist: Distances)
    requires RewiredSoFar(g, h, node, selected, i, cap, dist) && i < |selected| && InRange(g) && InRange(h)
    requires Listed(|g|, selected) && Distinct(selected) && node !in selected
    requires forall u :: 0 <= u < |g| ==> Distinct(g[u]) && node !in g[u]
    ensures RewiredSoFar(g, Wired(h, node, selected[i], cap, dist), node, selected, i + 1, cap, dist)
  {
    hide Pruned, Trimmed;
    var nbr := selected[i];
    assert nbr !in selected[..i] && selected[..i + 1] == selected[..i] + [nbr];
    ConnectedInRange(h, node, nbr);
    var c := Connected(h, node, nbr);
    assert c[nbr] == g[nbr] + [node] && c[node] == selected[..i + 1];
    PrunedIsTrimmed(c, nbr, cap, dist[nbr]);
  }

  lemma {:induction false} WireAllRewires(g: Layer, node: nat, selected: seq<nat>, i: nat, cap: nat, dist: Distances)
    requires node < |g| && InRange(g) && Square(dist, |g|) && Listed(|g|, selected) && i <= |selected|
    requires Distinct(selected) && node !in selected && g[node] == []
    requires forall u :: 0 <= u < |g| ==> Distinct(g[u]) && node !in g[u]
    ensures RewiredSoFar(g, WireAll(g, node, selected, i, cap, dist), node, selected, i, cap, dist)
  {
    hide *;
    if i == 0 {
      NothingRewired(g, node, selected, cap, dist);
    } else {
      WireAllRewires(g, node, selected, i - 1, cap, dist);
      WireAllStep(g, node, selected, i, cap, dist);
      RewiredNext(g, WireAll(g, node, selected, i - 1, cap, dist), node, selected, i - 1, cap, dist);
    }
  }

  lemma NothingRewired(g: Layer, node: nat, selected: seq<nat>, cap: nat, dist: Distances)
    requires node < |g| && InRange(g) && Square(dist, |g|) && Listed(|g|, selected) && g[node] == []
    ensures RewiredSoFar(g, WireAll(g, node, selected, 0, cap, dist), node, selected, 0, cap, dist)
  {
  }

  lemma WireAllStep(g: Layer, node: nat, selected: seq<nat>, i: nat, cap: nat, dist: Distances)
    requires node < |g| && InRange(g) && Square(dist, |g|) && Listed(|g|, selected) && 0 < i <= |selected|
    ensures var before := WireAll(g, node, selected, i - 1, cap, dist);
            && |before| == |g| && InRange(before) && selected[i - 1] < |g|
            && WireAll(g, node, selected, i, cap, dist) == Wired(before, node, selected[i - 1], cap, dist)
  {
    hide Wired;
  }

  /** On a layer where nothing lists `node` yet, wiring does that. */
  lemma WiredIsRewired(g: Layer, g': Layer, node: nat, ids: seq<nat>, cap: nat, dist: Distances)
    requires LayerWired(g, g', node, ids, cap, dist) && Distinct(ids) && node !in ids && g[node] == []
    requires forall u :: 0 <= u < |g| ==> Distinct(g[u]) && node !in g[u]
    ensures LayerRewired(g, g', node, ids, cap, dist)
  {
    var selected := SelectClosest(dist[node], ids, cap);
    SelectClosestIsBest(dist[node], ids, cap);
    SelectClosestSorted(dist[node], ids, cap);
    hide SelectClosest, WireAll, Trimmed, IsBest, CloserFirst;
    assert forall x :: x in selected ==> x in Members(selected);
    SelectedAmong(dist[node], selected, ids, cap);
    WireAllRewires(g, node, selected, |selected|, cap, dist);
    assert selected[..|selected|] == selected;
  }

  lemma SelectedAmong(sc: seq<real>, selected: seq<nat>, ids: seq<nat>, cap: nat)
    requires Within(sc, Members(ids)) && IsBest(sc, cap, Members(ids), Members(selected))
    ensures forall x :: x in selected ==> x in ids
  {
    forall x | x in selected ensures x in ids {
      assert x in Members(selected);
    }
  }

  /** Nothing lists a node not inserted yet. */
  lemma NobodyLists(g: Layer, l: nat, cap: nat, entry: Option<nat>, levels: seq<nat>, node: nat)
    requires LayerOk(g, l, cap, entry, levels, node)
    ensures forall u :: 0 <= u < |g| ==> Distinct(g[u]) && node !in g[u]
  {
    forall u | 0 <= u < |g| ensures Distinct(g[u]) && node !in g[u] {
      assert RowOk(g[u], u, |g|, cap);
      forall w | w in g[u] ensures w != node {
        assert OnLayer(entry, levels, node, l, w);
      }
    }
  }

  /** What inserting `node` does to one of its layers: the beam from `entries` finds the candidates
      `ids`; the closest of them within the cap are wired both ways, each over-full neighbour pruned. */
  ghost predicate InsertedOn(g: Layer, g': Layer, node: nat, entries: seq<nat>, ids: seq<nat>, ef: nat, cap: nat,
                             dist: Distances)
  {
    && LayerWired(g, g', node, ids, cap, dist) && LayerRewired(g, g', node, ids, cap, dist)
    && BeamFound(g, dist[node], entries, ef, ids)
  }

  /** The entry points of the search on layer `l`: the candidates of the layer above, if any. */
  ghost function EntriesAt(trail: seq<seq<nat>>, current: nat, l: nat): seq<nat>
    requires l < |trail|
  {
    if l == |trail| - 1 || trail[l + 1] == [] then [current] else trail[l + 1]
  }

  /** Layers `done` to `level` of `before` had `node` inserted, from the top down; the rest is unchanged. */
  ghost predicate Insertions(before: seq<Layer>, after: seq<Layer>, node: nat, level: nat, done: nat,
                             current: nat, trail: seq<seq<nat>>, ef: nat, m: nat, mMax: nat, dist: Distances)
  {
    && |after| == |before| > level && |trail| == level + 1 >= done
    && (forall l :: (0 <= l < done || level < l < |after|) ==> after[l] == before[l])
    && (forall l :: done <= l <= level ==>
          InsertedOn(before[l], after[l], node, EntriesAt(trail, current, l), trail[l], ef,
                     if l == 0 then mMax else m, dist))
  }

  /** With a beam of any width the node's top layer is searched from where the climb ended, and every layer below from
      all the candidates of the layer above, of which there is at least one. */
  lemma {:induction false} CandidatesSeedBelow(before: seq<Layer>, after: seq<Layer>, node: nat, level: nat, current: nat,
                                               trail: seq<seq<nat>>, ef: nat, m: nat, mMax: nat, dist: Distances, l: nat)
    requires Insertions(before, after, node, level, 0, current, trail, ef, m, mMax, dist) && ef >= 1 && l <= level
    ensures |trail| == level + 1 && l < |before| && node < |dist| && trail[l] != []
    ensures BeamFound(before[l], dist[node], if l == level then [current] else trail[l + 1], ef, trail[l])
    decreases level - l
  {
    hide *;
    if l < level {
      CandidatesSeedBelow(before, after, node, level, current, trail, ef, m, mMax, dist, l + 1);
    }
    SeededBy(before, after, node, level, current, trail, ef, m, mMax, dist, l);
    BeamKeepsSome(before[l], dist[node], if l == level then [current] else trail[l + 1], ef, trail[l]);
  }

  lemma SeededBy(before: seq<Layer>, after: seq<Layer>, node: nat, level: nat, current: nat, trail: seq<seq<nat>>,
                 ef: nat, m: nat, mMax: nat, dist: Distances, l: nat)
    requires Insertions(before, after, node, level, 0, current, trail, ef, m, mMax, dist) && l <= level
    ensures |trail| == level + 1 && l < |before| && node < |dist|
    ensures l == level || trail[l + 1] != [] ==>
              BeamFound(before[l], dist[node], if l == level then [current] else trail[l + 1], ef, trail[l])
  {
    hide LayerWired, LayerRewired, BeamFound;
    assert InsertedOn(before[l], after[l], node, EntriesAt(trail, current, l), trail[l], ef, if l == 0 then mMax else m, dist);
    WiredNode(before[l], after[l], node, trail[l], if l == 0 then mMax else m, dist);
  }

  lemma WiredNode(g: Layer, g': Layer, node: nat, ids: seq<nat>, cap: nat, dist: Distances)
    requires LayerWired(g, g', node, ids, cap, dist)
    ensures node < |g| == |dist|
  {
  }

  lemma BeamKeepsSome(g: Layer, sc: seq<real>, entries: seq<nat>, ef: nat, ids: seq<nat>)
    requires BeamFound(g, sc, entries, ef, ids) && entries != [] && ef >= 1
    ensures ids != []
  {
    var visited, expanded :| Beam.Certified(g, sc, Members(entries), ef, visited, expanded, Members(ids));
    hide Beam.BeamResult, Reachable;
    assert entries[0] in visited;
    MembersSize(ids);
  }

  /** Enough layers for a node of level `level`. */
  function Grown(adjacency: seq<Layer>, level: nat, n: nat): (r: seq<Layer>)
    ensures |r| == if level < |adjacency| then |adjacency| else level + 1
    ensures forall k :: 0 <= k < |adjacency| ==> r[k] == adjacency[k]
    ensures forall k :: |adjacency| <= k < |r| ==> |r[k]| == n && forall u :: 0 <= u < n ==> r[k][u] == []
  {
    if level < |adjacency| then adjacency
    else adjacency + seq(level + 1 - |adjacency|, _ => EmptyLayer(n))
  }

  lemma SquareRow(dist: Distances, n: nat, a: nat)
    requires Square(dist, n) && a < n
    ensures |dist| == n && |dist[a]| == n
  {
  }

  /** Greedy descent from the entry point through the layers above `level`. */
  method ClimbDown(adjacency: seq<Layer>, n: nat, m: nat, mMax: nat, entry: Option<nat>, levels: seq<nat>, top: nat,
                   node: nat, level: nat, dist: Distances)
    returns (current: nat)
    requires Square(dist, n) && node < n == |levels| && entry.Some? && entry.value < node
    requires |adjacency| == top + 1 && level <= top
    requires LayersOk(adjacency, n, m, mMax, entry, levels, node, |adjacency|)
    ensures current < n && OnLayer(entry, levels, node, level, current)
    ensures |dist[node]| == n && Climbed(adjacency, dist[node], top, level, entry.value, current)
  {
    hide *;
    SquareRow(dist, n, node);
    current := entry.value;
    var layer := top;
    ClimbStart(adjacency, dist[node], top, entry, levels, node);
    while layer > level
      invariant level <= layer <= top && current < n
      invariant Climbed(adjacency, dist[node], top, layer, entry.value, current)
      invariant OnLayer(entry, levels, node, layer, current)
    {
      ClimbLayer(adjacency, n, m, mMax, entry, levels, node, layer, dist);
      var next, _ := GreedyDescend(adjacency[layer], dist[node], current);
      ClimbStays(adjacency, n, m, mMax, entry, levels, node, layer, current, next);
      ClimbNext(adjacency, dist[node], top, layer - 1, entry.value, current, next);
      current := next;
      layer := layer - 1;
    }
  }

  class Hnsw {
    const len: nat
    const m: nat
    const mMax: nat
    const efConstruction: nat
    var adjacency: seq<Layer>
    var nodeLevels: seq<nat>
    var entryPoint: Option<nat>
    var maxLayer: nat

    /** The value the searches and the relabelling work on. */
    function View(): Topology
      reads this
    {
      Topology(adjacency, nodeLevels, entryPoint, maxLayer, len)
    }

    /** The invariant of a build after `count` insertions. */
    ghost predicate Built(count: nat)
      reads this
    {
      && count <= len == |nodeLevels| && |adjacency| == maxLayer + 1
      && LayersOk(adjacency, len, m, mMax, entryPoint, nodeLevels, count, maxLayer + 1)
      && entryPoint == (if count == 0 then None else Some(0))
      && IsTopLevel(nodeLevels, count, maxLayer)
    }

    constructor (len: nat, m: nat, mMax: nat, efConstruction: nat)
      ensures Built(0) && this.len == len && this.m == m && this.mMax == mMax
      ensures this.efConstruction == efConstruction && adjacency == [EmptyLayer(len)]
      ensures maxLayer == 0 && forall v :: 0 <= v < len ==> nodeLevels[v] == 0
    {
      this.len, this.m, this.mMax, this.efConstruction := len, m, mMax, efConstruction;
      adjacency := [EmptyLayer(len)];
      nodeLevels := seq(len, _ => 0);
      entryPoint, maxLayer := None, 0;
      new;
      EmptyLayerOk(len, 0, CapForLayer(m, mMax, 0), None, nodeLevels, 0);
    }

    method Connect(a: nat, b: nat, layer: nat)
      requires layer < |adjacency| && a < |adjacency[layer]| && b < |adjacency[layer]|
      modifies this`adjacency
      ensures adjacency == old(adjacency)[layer := Connected(old(adjacency[layer]), a, b)]
      ensures LinkedBothWays(old(adjacency[layer]), adjacency[layer], a, b)
      ensures |adjacency| == |old(adjacency)| && forall k :: 0 <= k < |adjacency| && k != layer ==> adjacency[k] == old(adjacency[k])
    {
      ConnectedLinks(adjacency[layer], a, b);
      hide LinkedBothWays;
      if a == b {
        return;
      }
      if b !in adjacency[layer][a] {
        adjacency := adjacency[layer := adjacency[layer][a := adjacency[layer][a] + [b]]];
      }
      if a !in adjacency[layer][b] {
        adjacency := adjacency[layer := adjacency[layer][b := adjacency[layer][b] + [a]]];
      }
      assert adjacency[layer] == Connected(old(adjacency[layer]), a, b);
    }

    method PruneNode(node: nat, layer: nat, dist: Distances)
      requires layer < |adjacency| && node < |adjacency[layer]| && node < |dist|
      requires Listed(|dist[node]|, adjacency[layer][node])
      modifies this`adjacency
      ensures adjacency == old(adjacency)[layer :=
                Pruned(old(adjacency[layer]), node, CapForLayer(m, mMax, layer), dist[node])]
      ensures |adjacency| == |old(adjacency)| && |adjacency[layer]| == |old(adjacency)[layer]|
      ensures Distinct(old(adjacency)[layer][node]) ==>
                Trimmed(old(adjacency)[layer][node], adjacency[layer][node], if layer == 0 then mMax else m, dist[node])
    {
      if Distinct(adjacency[layer][node]) {
        PrunedIsTrimmed(adjacency[layer], node, CapForLayer(m, mMax, layer), dist[node]);
      }
      hide Trimmed;
      var cap := CapForLayer(m, mMax, layer);
      var neighbors := adjacency[layer][node];
      if |neighbors| <= cap {
        return;
      }
      var kept := SelectClosest(dist[node], neighbors, cap);
      adjacency := adjacency[layer := adjacency[layer][node := kept]];
    }

    /** Link both ways, then prune the neighbour only. */
    method WireOne(node: nat, nbr: nat, layer: nat, ghost cap: nat, dist: Distances)
      requires cap == CapForLayer(m, mMax, layer)
      requires layer < |adjacency| && |adjacency[layer]| == len && Square(dist, len)
      requires node < len && nbr < len && InRange(adjacency[layer])
      modifies this`adjacency
      ensures adjacency == old(adjacency)[layer :=
                Wired(old(adjacency[layer]), node, nbr, cap, dist)]
      ensures |adjacency| == |old(adjacency)| && |adjacency[layer]| == len
      ensures node != nbr && Distinct(old(adjacency)[layer][nbr]) && node !in old(adjacency)[layer][nbr] ==>
                Trimmed(old(adjacency)[layer][nbr] + [node], adjacency[layer][nbr], if layer == 0 then mMax else m, dist[nbr])
    {
      ConnectedInRange(adjacency[layer], node, nbr);
      ConnectedRow(adjacency[layer], node, nbr);
      hide Connected, Pruned, Trimmed;
      Connect(node, nbr, layer);
      PruneNode(nbr, layer, dist);
    }

    /** Select the closest candidates and link `node` to each, pruning each neighbour as it grows. */
    method WireLayer(node: nat, layer: nat, candidates: seq<nat>, dist: Distances)
      requires layer < |adjacency| && |adjacency[layer]| == len && Square(dist, len)
      requires node < len == |nodeLevels| && nodeLevels[node] >= layer
      requires LayerOk(adjacency[layer], layer, CapForLayer(m, mMax, layer), entryPoint, nodeLevels, node)
      requires Distinct(candidates) && AllOn(entryPoint, nodeLevels, node, layer, candidates, len)
      modifies this`adjacency
      ensures |adjacency| == |old(adjacency)|
      ensures forall k :: 0 <= k < |adjacency| && k != layer ==> adjacency[k] == old(adjacency[k])
      ensures |adjacency[layer]| == len
      ensures LayerOk(adjacency[layer], layer, CapForLayer(m, mMax, layer), entryPoint, nodeLevels, node + 1)
      ensures LayerWired(old(adjacency[layer]), adjacency[layer], node, candidates, CapForLayer(m, mMax, layer), dist)
      ensures LayerRewired(old(adjacency[layer]), adjacency[layer], node, candidates, if layer == 0 then mMax else m, dist)
    {
      NobodyLists(adjacency[layer], layer, CapForLayer(m, mMax, layer), entryPoint, nodeLevels, node);
      ghost var g := adjacency[layer];
      var cap := CapForLayer(m, mMax, layer);
      var selected := SelectClosest(dist[node], candidates, cap);
      SelectedFit(dist[node], candidates, cap, entryPoint, nodeLevels, node, layer);
      LayerOkGrows(adjacency[layer], layer, cap, entryPoint, nodeLevels, node);
      NewNodeHasNoEdges(adjacency[layer], layer, cap, entryPoint, nodeLevels, node);
      LayerOkInRange(adjacency[layer], layer, cap, entryPoint, nodeLevels, node);
      StillOnLayers(entryPoint, nodeLevels, node, layer, selected);
      assert selected[..0] == [];
      hide LayerOk, RowOk, Distinct, InRange, SelectClosest, OnLayer, LayerRewired;
      WireSelected(node, layer, selected, dist);
      NotAmong(entryPoint, nodeLevels, node, layer, candidates, len);
      WiredIsRewired(g, adjacency[layer], node, candidates, cap, dist);
    }

    method WireSelected(node: nat, layer: nat, selected: seq<nat>, dist: Distances)
      requires layer < |adjacency| && |adjacency[layer]| == len
      requires WiredSoFar(adjacency[layer], adjacency[layer], layer, CapForLayer(m, mMax, layer),
                          entryPoint, nodeLevels, node, selected, 0, dist)
      modifies this`adjacency
      ensures |adjacency| == |old(adjacency)|
      ensures forall k :: 0 <= k < |adjacency| && k != layer ==> adjacency[k] == old(adjacency)[k]
      ensures WiredSoFar(old(adjacency)[layer], adjacency[layer], layer, CapForLayer(m, mMax, layer),
                         entryPoint, nodeLevels, node, selected, |selected|, dist)
    {
      ghost var cap, start, g := CapForLayer(m, mMax, layer), adjacency, adjacency[layer];
      hide *;
      UpdateSame(start, layer);
      for i := 0 to |selected|
        invariant adjacency == start[layer := g] && |g| == len
        invariant WiredSoFar(start[layer], g, layer, cap, entryPoint, nodeLevels, node, selected, i, dist)
      {
        WireNext(start[layer], g, layer, cap, entryPoint, nodeLevels, node, selected, i, dist);
        UpdateTwice(start, layer, g, Wired(g, node, selected[i], cap, dist));
        WireOne(node, selected[i], layer, cap, dist);
        g := Wired(g, node, selected[i], cap, dist);
      }
    }

    /** Best-first search of one layer; every candidate lives on that layer, so none is the new node. */
    method Candidates(node: nat, layer: nat, entries: seq<nat>, dist: Distances) returns (ids: seq<nat>)
      requires layer < |adjacency| && |adjacency[layer]| == len && Square(dist, len) && node < len
      requires LayerOk(adjacency[layer], layer, CapForLayer(m, mMax, layer), entryPoint, nodeLevels, node)
      requires AllOn(entryPoint, nodeLevels, node, layer, entries, len)
      ensures Distinct(ids) && |ids| <= efConstruction
      ensures BeamFound(adjacency[layer], dist[node], entries, efConstruction, ids)
      ensures AllOn(entryPoint, nodeLevels, node, layer, ids, len)
    {
      var g := adjacency[layer];
      ghost var cap := CapForLayer(m, mMax, layer);
      LayerOkInRange(g, layer, cap, entryPoint, nodeLevels, node);
      hide LayerOk, OnLayer, RowOk, Reachable;
      SearchStaysOnLayer(g, layer, cap, entryPoint, nodeLevels, node, Members(entries));
      var kept, _, visited, expanded := Beam.Search(g, dist[node], entries, efConstruction);
      ids := Elements(kept);
      MembersSize(ids);
      forall i | 0 <= i < |ids| ensures ids[i] < len {
        assert ids[i] in Members(ids);
      }
      forall v | v in ids ensures OnLayer(entryPoint, nodeLevels, node, layer, v) {
        assert v in Members(ids);
      }
    }

    /** Greedy descent from the entry point through the layers above `level`. */
    method DescendTo(node: nat, level: nat, dist: Distances) returns (current: nat)
      requires Square(dist, len) && node < len && entryPoint.Some? && entryPoint.value < node
      requires |nodeLevels| == len && |adjacency| == maxLayer + 1 && level <= maxLayer
      requires LayersOk(adjacency, len, m, mMax, entryPoint, nodeLevels, node, |adjacency|)
      ensures current < len && OnLayer(entryPoint, nodeLevels, node, level, current)
      ensures Climbed(adjacency, dist[node], maxLayer, level, entryPoint.value, current)
    {
      hide *;
      current := ClimbDown(adjacency, len, m, mMax, entryPoint, nodeLevels, maxLayer, node, level, dist);
    }

    /** Insert the next node at `level`, wiring it on every layer up to that level.
        `current` is where the upper descent ended, `trail[l]` the candidates found on layer `l`. */
    method InsertNode(node: nat, level: nat, dist: Distances) returns (ghost current: nat, ghost trail: seq<seq<nat>>)
      requires Built(node) && node < len && Square(dist, len)
      modifies this
      ensures Built(node + 1)
      ensures nodeLevels == old(nodeLevels)[node := level]
      ensures maxLayer == if level > old(maxLayer) then level else old(maxLayer)
      ensures node == 0 ==> adjacency == Grown(old(adjacency), level, len)
      ensures node > 0 ==> Insertions(Grown(old(adjacency), level, len), adjacency, node, level, 0,
                                      current, trail, efConstruction, m, mMax, dist)
      ensures node > 0 ==> Climbed(Grown(old(adjacency), level, len), dist[node], maxLayer, level, 0, current)
    {
      hide LayersOk, IsTopLevel, Grown, Insertions, Climbed, Square, OnLayer, InRange;
      current, trail := 0, [];
      GrowTo(node, level);
      if entryPoint.None? {
        FirstNode(adjacency, len, m, mMax, nodeLevels, node);
        entryPoint := Some(node);
        return;
      }
      var start := DescendTo(node, level, dist);
      current := start;
      UpperLayersCount(adjacency, len, m, mMax, entryPoint, nodeLevels, node, level + 1);
      trail := WireLayers(node, level, start, dist);
      RecountLayers(adjacency, len, m, mMax, entryPoint, nodeLevels, node);
    }

    /** Record the node's level and add the layers it introduces. */
    method GrowTo(node: nat, level: nat)
      requires Built(node) && node < len
      modifies this`adjacency, this`nodeLevels, this`maxLayer
      ensures nodeLevels == old(nodeLevels)[node := level]
      ensures maxLayer == if level > old(maxLayer) then level else old(maxLayer)
      ensures adjacency == Grown(old(adjacency), level, len)
      ensures |adjacency| == maxLayer + 1 && |nodeLevels| == len && level <= maxLayer
      ensures LayersOk(adjacency, len, m, mMax, entryPoint, nodeLevels, node, |adjacency|)
      ensures IsTopLevel(nodeLevels, node + 1, maxLayer)
    {
      TopLevelGrows(nodeLevels, nodeLevels[node := level], node, level, maxLayer);
      ghost var extra := if level > maxLayer then level - maxLayer else 0;
      GrownLayersOk(adjacency, len, m, mMax, entryPoint, nodeLevels, nodeLevels[node := level], node, extra,
                    maxLayer + 1 + extra);
      hide LayersOk, IsTopLevel;
      nodeLevels := nodeLevels[node := level];
      if level > maxLayer {
        adjacency := adjacency + seq(level - maxLayer, _ => EmptyLayer(len));
        maxLayer := level;
      } else {
        assert adjacency + seq(extra, _ => EmptyLayer(len)) == adjacency;
      }
    }

    /** Search one layer, then wire the node to the closest candidates. */
    method WireLevel(node: nat, layer: nat, entries: seq<nat>, dist: Distances) returns (candidates: seq<nat>)
      requires Square(dist, len) && node < len == |nodeLevels| && layer < |adjacency| && nodeLevels[node] >= layer
      requires LayersOk(adjacency, len, m, mMax, entryPoint, nodeLevels, node, layer + 1)
      requires AllOn(entryPoint, nodeLevels, node, layer, entries, len)
      modifies this`adjacency
      ensures |adjacency| == |old(adjacency)|
      ensures LayersOk(adjacency, len, m, mMax, entryPoint, nodeLevels, node, layer)
      ensures forall k :: 0 <= k < |adjacency| && k != layer ==> adjacency[k] == old(adjacency)[k]
      ensures AllOn(entryPoint, nodeLevels, node, layer, candidates, len)
      ensures LayerWired(old(adjacency)[layer], adjacency[layer], node, candidates, CapForLayer(m, mMax, layer), dist)
      ensures LayerRewired(old(adjacency)[layer], adjacency[layer], node, candidates, if layer == 0 then mMax else m, dist)
      ensures |old(adjacency)[layer]| == len
      ensures BeamFound(old(adjacency)[layer], dist[node], entries, efConstruction, candidates)
    {
      LayerAt(adjacency, len, m, mMax, entryPoint, nodeLevels, node, layer + 1, layer);
      hide LayersOk, LayerOk, AllOn, OnLayer, Distinct, LayerWired, LayerRewired, BeamFound;
      ghost var before := adjacency;
      candidates := Candidates(node, layer, entries, dist);
      WireLayer(node, layer, candidates, dist);
      OneMoreLayer(before, adjacency, len, m, mMax, entryPoint, nodeLevels, node, layer);
    }

    /** From the node's top layer down: search, select, wire; the candidates seed the next layer. */
    method WireLayers(node: nat, level: nat, current: nat, dist: Distances) returns (ghost trail: seq<seq<nat>>)
      requires Square(dist, len) && node < len == |nodeLevels| && level < |adjacency| && nodeLevels[node] == level
      requires LayersOk(adjacency, len, m, mMax, entryPoint, nodeLevels, node, level + 1)
      requires current < len && OnLayer(entryPoint, nodeLevels, node, level, current)
      modifies this`adjacency
      ensures |adjacency| == |old(adjacency)|
      ensures LayersOk(adjacency, len, m, mMax, entryPoint, nodeLevels, node, 0)
      ensures Insertions(old(adjacency), adjacency, node, level, 0, current, trail, efConstruction, m, mMax, dist)
    {
      hide *;
      var entries := [current];
      trail := seq(level + 1, _ => []);
      AllOnStart(entryPoint, nodeLevels, node, level, current, len);
      InsertionsStart(adjacency, node, level, current, trail, efConstruction, m, mMax, dist);
      for layer := level + 1 downto 0
        invariant |adjacency| == |old(adjacency)| && |trail| == level + 1
        invariant LayersOk(adjacency, len, m, mMax, entryPoint, nodeLevels, node, layer)
        invariant Insertions(old(adjacency), adjacency, node, level, layer, current, trail, efConstruction, m, mMax, dist)
        invariant layer > 0 ==> entries == EntriesAt(trail, current, layer - 1)
        invariant layer > 0 ==> AllOn(entryPoint, nodeLevels, node, layer - 1, entries, len)
      {
        ghost var before := adjacency;
        var candidates := WireLevel(node, layer, entries, dist);
        InsertionStep(old(adjacency), before, adjacency, node, level, layer, current, trail, entries, candidates,
                      efConstruction, m, mMax, dist);
        NextEntries(entryPoint, nodeLevels, node, level, layer, current, trail, candidates, len);
        trail := trail[layer := candidates];
        entries := if candidates == [] then [current] else candidates;
      }
    }

    /** The post-build pass over layer 0: hubs keep everything, other over-degree nodes keep their
        hub edges and their closest others. `hubs` is the set of nodes classified as hubs. */
    method PruneHighDegree(hubCount: nat, dist: Distances) returns (ghost hubs: set<nat>)
      requires Built(len) && Square(dist, len)
      modifies this`adjacency
      ensures Built(len)
      ensures forall k :: 1 <= k < |adjacency| ==> adjacency[k] == old(adjacency)[k]
      ensures |adjacency| == |old(adjacency)|
      ensures len == 0 || hubCount >= len ==> adjacency == old(adjacency)
      ensures |old(adjacency)[0]| == |adjacency[0]| == len
      ensures 0 < len && hubCount < len ==>
                AreHubs(old(adjacency)[0], hubCount, hubs) && HubPruned(old(adjacency)[0], adjacency[0], hubs, m, dist)
    {
      hubs := {};
      LayerAt(adjacency, len, m, mMax, entryPoint, nodeLevels, len, |adjacency|, 0);
      if len == 0 {
        return;
      }
      ghost var before, g := adjacency, adjacency[0];
      LayerOkInRange(g, 0, mMax, entryPoint, nodeLevels, len);
      hide LayersOk, LayerOk, InRange, AreHubs, RowPruned, HubPruned, IsTopLevel;
      var pruned;
      pruned, hubs := PruneLayer(adjacency[0], m, mMax, hubCount, dist);
      if hubCount >= len {
        return;
      }
      PrunedLayerOk(g, pruned, hubs, m, mMax, entryPoint, nodeLevels, len, dist);
      ReplaceBase(adjacency, pruned, len, m, mMax, entryPoint, nodeLevels, len);
      adjacency := adjacency[0 := pruned];
    }
  }

  /** The exact effect of the hub-preserving prune on the base layer, and what it keeps. */
  ghost predicate HubPruned(g: Layer, g': Layer, hubs: set<nat>, m: nat, dist: Distances)
    requires |g'| == |g| && Square(dist, |g|)
  {
    forall u :: 0 <= u < |g| ==>
      if u in hubs || |g[u]| <= m then g'[u] == g[u]
      else Listed(|g|, g[u]) && g'[u] == KeptEdges(g[u], hubs, m, dist[u]) && WellPruned(g[u], g'[u], hubs, m, dist[u])
  }

  /** On a built graph the prune is exact and keeps every invariant; its cap guard never fires. */
  lemma PrunedLayerOk(g: Layer, g': Layer, hubs: set<nat>, m: nat, mMax: nat,
                      entry: Option<nat>, levels: seq<nat>, count: nat, dist: Distances)
    requires LayerOk(g, 0, mMax, entry, levels, count) && |g'| == |g| && Square(dist, |g|)
    requires forall u :: 0 <= u < |g| ==>
               Listed(|dist[u]|, g[u]) && RowPruned(g, g'[u], u, hubs, m, mMax, dist[u])
    ensures LayerOk(g', 0, mMax, entry, levels, count) && HubPruned(g, g', hubs, m, dist)
    ensures forall u :: 0 <= u < |g| && u !in hubs && |g[u]| > m ==> |KeptEdges(g[u], hubs, m, dist[u])| <= mMax
  {
    hide PruneRow, KeptEdges, WellPruned, OnLayer;
    forall u | 0 <= u < |g|
      ensures RowOk(g'[u], u, |g|, mMax)
      ensures forall w :: w in g'[u] ==> w in g[u]
      ensures if u in hubs || |g[u]| <= m then g'[u] == g[u]
              else && g'[u] == KeptEdges(g[u], hubs, m, dist[u]) && |g'[u]| <= mMax
                   && WellPruned(g[u], g'[u], hubs, m, dist[u])
    {
      assert RowOk(g[u], u, |g|, mMax);
      if !(u in hubs || |g[u]| <= m) {
        PruneRowExact(g[u], hubs, m, mMax, dist[u]);
        WellPrunedRowOk(g[u], g'[u], u, hubs, m, mMax, dist[u]);
      }
    }
    forall u, w | 0 <= u < |g'| && w in g'[u]
      ensures OnLayer(entry, levels, count, 0, u) && OnLayer(entry, levels, count, 0, w)
    {
      assert w in g[u];
    }
  }

  lemma WellPrunedRowOk(row: seq<nat>, row': seq<nat>, u: nat, hubs: set<nat>, m: nat, mMax: nat, sc: seq<real>)
    requires RowOk(row, u, |sc|, mMax) && m < |row| && WellPruned(row, row', hubs, m, sc)
    ensures RowOk(row', u, |sc|, mMax) && forall w :: w in row' ==> w in row
  {
    ListedSub(|sc|, row, row');
  }

  lemma ReplaceBase(adjacency: seq<Layer>, base: Layer, n: nat, m: nat, mMax: nat, entry: Option<nat>,
                    levels: seq<nat>, count: nat)
    requires adjacency != [] && LayersOk(adjacency, n, m, mMax, entry, levels, count, |adjacency|)
    requires |base| == n && LayerOk(base, 0, mMax, entry, levels, count)
    ensures LayersOk(adjacency[0 := base], n, m, mMax, entry, levels, count, |adjacency|)
  {
    hide LayerOk;
  }

  /** One insertion of a build: descend from the entry node above the new node's level, then search and
      wire every layer from there down. The first node only becomes the entry. */
  ghost predicate Inserted(before: seq<Layer>, after: seq<Layer>, node: nat, level: nat, n: nat, ef: nat,
                           m: nat, mMax: nat, dist: Distances)
  {
    var grown := Grown(before, level, n);
    if node == 0 then after == grown
    else node < |dist| && exists current: nat, trail ::
        && Climbed(grown, dist[node], |grown| - 1, level, 0, current)
        && Insertions(grown, after, node, level, 0, current, trail, ef, m, mMax, dist)
  }

  /** The post-build pass: only over-degree non-hubs of the base layer change. */
  ghost predicate Finished(before: seq<Layer>, after: seq<Layer>, n: nat, hubCount: nat, m: nat, dist: Distances) {
    && |after| == |before| > 0 && |after[0]| == |before[0]| == n && Square(dist, n)
    && (forall k :: 1 <= k < |after| ==> after[k] == before[k])
    && (hubCount >= n ==> after == before)
    && (hubCount < n ==> exists hubs :: AreHubs(before[0], hubCount, hubs) && HubPruned(before[0], after[0], hubs, m, dist))
  }

  /** The states a build goes through: no edges, then one insertion per node in order. */
  ghost predicate BuildSteps(states: seq<seq<Layer>>, n: nat, levels: seq<nat>, ef: nat, m: nat, mMax: nat, dist: Distances) {
    && 0 < |states| <= |levels| + 1 && states[0] == [EmptyLayer(n)]
    && forall i :: 0 <= i < |states| - 1 ==> Inserted(states[i], states[i + 1], i, levels[i], n, ef, m, mMax, dist)
  }

  /** A finished build of all nodes. */
  ghost predicate BuildOf(states: seq<seq<Layer>>, adjacency: seq<Layer>, n: nat, levels: seq<nat>, ef: nat,
                          m: nat, mMax: nat, hubCount: nat, dist: Distances)
  {
    && |states| == |levels| + 1 && BuildSteps(states, n, levels, ef, m, mMax, dist)
    && Finished(states[|levels|], adjacency, n, hubCount, m, dist)
  }

  lemma BuildNext(states: seq<seq<Layer>>, after: seq<Layer>, n: nat, levels: seq<nat>, ef: nat,
                  m: nat, mMax: nat, dist: Distances)
    requires BuildSteps(states, n, levels, ef, m, mMax, dist) && |states| <= |levels|
    requires Inserted(states[|states| - 1], after, |states| - 1, levels[|states| - 1], n, ef, m, mMax, dist)
    ensures BuildSteps(states + [after], n, levels, ef, m, mMax, dist)
  {
    hide Inserted;
  }

  lemma InsertedNow(before: seq<Layer>, after: seq<Layer>, node: nat, level: nat, n: nat, ef: nat,
                    m: nat, mMax: nat, dist: Distances, current: nat, trail: seq<seq<nat>>)
    requires node < |dist|
    requires node == 0 ==> after == Grown(before, level, n)
    requires node > 0 ==>
               && Insertions(Grown(before, level, n), after, node, level, 0, current, trail, ef, m, mMax, dist)
               && Climbed(Grown(before, level, n), dist[node], |after| - 1, level, 0, current)
    ensures Inserted(before, after, node, level, n, ef, m, mMax, dist)
  {
    hide Grown, Climbed, InsertedOn, EntriesAt;
  }

  lemma FinishedNow(before: seq<Layer>, after: seq<Layer>, n: nat, hubCount: nat, m: nat, dist: Distances, hubs: set<nat>)
    requires |after| == |before| > 0 && |after[0]| == |before[0]| == n && Square(dist, n)
    requires forall k :: 1 <= k < |after| ==> after[k] == before[k]
    requires n == 0 || hubCount >= n ==> after == before
    requires 0 < n && hubCount < n ==> AreHubs(before[0], hubCount, hubs) && HubPruned(before[0], after[0], hubs, m, dist)
    ensures Finished(before, after, n, hubCount, m, dist)
  {
    hide AreHubs, HubPruned;
  }

  /** `build_resident`: insert every node at its drawn level, then prune the base layer. */
  method BuildResident(len: nat, m: nat, mMax: nat, efConstruction: nat, levels: seq<nat>, dist: Distances, hubCount: nat)
    returns (index: Hnsw, ghost states: seq<seq<Layer>>)
    requires |levels| == len && (forall v :: 0 <= v < len ==> levels[v] < 256) && Square(dist, len)
    ensures fresh(index) && index.len == len && index.m == m && index.mMax == mMax
    ensures index.Built(len) && index.nodeLevels == levels
    ensures BuildOf(states, index.adjacency, len, levels, efConstruction, m, mMax, hubCount, dist)
    ensures len > 0 ==> index.entryPoint == Some(0)
    ensures len > 0 ==> (levels[0] == index.maxLayer <==> forall v :: 0 <= v < len ==> levels[v] <= levels[0])
  {
    hide BuildSteps, Inserted, Finished, LayersOk, IsTopLevel, Insertions, Grown, Climbed, AreHubs, HubPruned;
    index := new Hnsw(len, m, mMax, efConstruction);
    states := [index.adjacency];
    FirstState(len, levels, efConstruction, m, mMax, dist);
    for node := 0 to len
      invariant fresh(index) && index.len == len && index.m == m && index.mMax == mMax
      invariant index.efConstruction == efConstruction && index.Built(node)
      invariant |index.nodeLevels| == len && index.nodeLevels[..node] == levels[..node]
      invariant |states| == node + 1 && states[node] == index.adjacency
      invariant BuildSteps(states, len, levels, efConstruction, m, mMax, dist)
    {
      ghost var before := index.nodeLevels;
      ghost var current, trail;
      current, trail := index.InsertNode(node, levels[node], dist);
      InsertedNow(states[node], index.adjacency, node, levels[node], len, efConstruction, m, mMax, dist, current, trail);
      BuildNext(states, index.adjacency, len, levels, efConstruction, m, mMax, dist);
      states := states + [index.adjacency];
      assert before[node := levels[node]][..node + 1] == levels[..node] + [levels[node]];
      assert levels[..node + 1] == levels[..node] + [levels[node]];
    }
    assert index.nodeLevels == levels;
    ghost var hubs := index.PruneHighDegree(hubCount, dist);
    FinishedNow(states[len], index.adjacency, len, hubCount, m, dist, hubs);
    if len > 0 {
      EntryIsTopIff(levels, index);
    }
  }

  lemma FirstState(n: nat, levels: seq<nat>, ef: nat, m: nat, mMax: nat, dist: Distances)
    ensures BuildSteps([[EmptyLayer(n)]], n, levels, ef, m, mMax, dist)
  {
  }

  /** `insert_node` leaves the entry point on node 0, so it sits at the top level exactly when no other node was
      drawn higher. */
  lemma EntryIsTopIff(levels: seq<nat>, index: Hnsw)
    requires |levels| == index.len > 0 && index.Built(index.len) && index.nodeLevels == levels
    ensures index.entryPoint == Some(0)
    ensures levels[0] == index.maxLayer <==> forall v :: 0 <= v < |levels| ==> levels[v] <= levels[0]
  {
    hide LayersOk;
  }

  /** Two nodes drawn at levels 0 and 1: whatever the other parameters, the build leaves the entry point below the
      top layer. */
  method EntryBelowTop(m: nat, mMax: nat, efConstruction: nat, dist: Distances, hubCount: nat) returns (index: Hnsw)
    requires Square(dist, 2)
    ensures index.Built(2) && index.nodeLevels == [0, 1]
    ensures index.entryPoint == Some(0) && index.nodeLevels[0] < index.maxLayer
  {
    hide LayersOk, BuildOf;
    ghost var states;
    index, states := BuildResident(2, m, mMax, efConstruction, [0, 1], dist, hubCount);
    assert index.nodeLevels[1] == 1;
  }

  /** A built graph is well-formed for every search. */
  lemma BuiltIsWellFormed(index: Hnsw)
    requires index.Built(index.len)
    ensures WellFormed(index.View())
  {
    var t := index.View();
    forall l | 0 <= l < |t.adjacency| ensures |t.adjacency[l]| == t.len && InRange(t.adjacency[l]) {
      LayerOkInRange(t.adjacency[l], l, CapForLayer(index.m, index.mMax, l), t.entryPoint, t.nodeLevels, t.len);
    }
  }

  /** The old invariant with the new node's level recorded, layers added up to that level. */
  lemma GrownLayersOk(adjacency: seq<Layer>, n: nat, m: nat, mMax: nat, entry: Option<nat>, levels: seq<nat>,
                      levels': seq<nat>, node: nat, extra: nat, top: nat)
    requires node < n == |levels| == |levels'| && levels' == levels[node := levels'[node]]
    requires LayersOk(adjacency, n, m, mMax, entry, levels, node, |adjacency|)
    requires top == |adjacency| + extra
    ensures LayersOk(adjacency + seq(extra, _ => EmptyLayer(n)), n, m, mMax, entry, levels', node, top)
  {
    var grown := adjacency + seq(extra, _ => EmptyLayer(n));
    forall k | 0 <= k < |grown|
      ensures |grown[k]| == n && LayerOk(grown[k], k, CapForLayer(m, mMax, k), entry, levels', node)
    {
      if k < |adjacency| {
        SameForInserted(adjacency[k], k, CapForLayer(m, mMax, k), entry, levels, levels', node);
      } else {
        EmptyLayerOk(n, k, CapForLayer(m, mMax, k), entry, levels', node);
      }
    }
  }

  lemma SameForInserted(g: Layer, l: nat, cap: nat, entry: Option<nat>, levels: seq<nat>, levels': seq<nat>, node: nat)
    requires node < |levels| == |levels'| && levels' == levels[node := levels'[node]]
    requires LayerOk(g, l, cap, entry, levels, node)
    ensures LayerOk(g, l, cap, entry, levels', node)
  {
  }

  /** Layers above the new node's own keep their edges; only the count moves on. */
  lemma UpperLayersCount(adjacency: seq<Layer>, n: nat, m: nat, mMax: nat, entry: Option<nat>, levels: seq<nat>,
                         node: nat, done: nat)
    requires LayersOk(adjacency, n, m, mMax, entry, levels, node, |adjacency|) && done <= |adjacency|
    ensures LayersOk(adjacency, n, m, mMax, entry, levels, node, done)
  {
    hide LayerOk;
    forall k | done <= k < |adjacency|
      ensures LayerOk(adjacency[k], k, CapForLayer(m, mMax, k), entry, levels, node + 1)
    {
      LayerOkGrows(adjacency[k], k, CapForLayer(m, mMax, k), entry, levels, node);
    }
  }

  lemma TopLevelGrows(levels: seq<nat>, levels': seq<nat>, node: nat, level: nat, top: nat)
    requires node < |levels| && levels' == levels[node := level] && IsTopLevel(levels, node, top)
    ensures IsTopLevel(levels', node + 1, if level > top then level else top)
  {
    if level <= top && top > 0 {
      var v :| 0 <= v < node && levels[v] == top;
      assert levels'[v] == top;
    } else if level > top {
      assert levels'[node] == level;
    }
  }

  /** All layers count `node` as inserted: the invariant for `node + 1` insertions. */
  lemma RecountLayers(adjacency: seq<Layer>, n: nat, m: nat, mMax: nat, entry: Option<nat>, levels: seq<nat>, node: nat)
    requires LayersOk(adjacency, n, m, mMax, entry, levels, node, 0)
    ensures LayersOk(adjacency, n, m, mMax, entry, levels, node + 1, |adjacency|)
  {
    hide LayerOk;
  }

  lemma FirstNode(adjacency: seq<Layer>, n: nat, m: nat, mMax: nat, levels: seq<nat>, node: nat)
    requires LayersOk(adjacency, n, m, mMax, None, levels, node, |adjacency|) && node == 0
    ensures LayersOk(adjacency, n, m, mMax, Some(node), levels, node + 1, |adjacency|)
  {
  }

  lemma AllOnStart(entry: Option<nat>, levels: seq<nat>, count: nat, l: nat, v: nat, n: nat)
    requires OnLayer(entry, levels, count, l, v) && v < n
    ensures AllOn(entry, levels, count, l, [v], n)
  {
  }

  lemma LayerAt(adjacency: seq<Layer>, n: nat, m: nat, mMax: nat, entry: Option<nat>, levels: seq<nat>, node: nat,
                done: nat, layer: nat)
    requires LayersOk(adjacency, n, m, mMax, entry, levels, node, done) && layer < |adjacency| && layer < done
    ensures |adjacency[layer]| == n
    ensures LayerOk(adjacency[layer], layer, CapForLayer(m, mMax, layer), entry, levels, node)
  {
  }

  /** One more layer inserted, from the top down. */
  lemma InsertionStep(start: seq<Layer>, before: seq<Layer>, after: seq<Layer>, node: nat, level: nat, layer: nat,
                      current: nat, trail: seq<seq<nat>>, entries: seq<nat>, candidates: seq<nat>,
                      ef: nat, m: nat, mMax: nat, dist: Distances)
    requires layer <= level && Insertions(start, before, node, level, layer + 1, current, trail, ef, m, mMax, dist)
    requires |after| == |before| && forall k :: 0 <= k < |after| && k != layer ==> after[k] == before[k]
    requires entries == EntriesAt(trail, current, layer)
    requires LayerWired(before[layer], after[layer], node, candidates, CapForLayer(m, mMax, layer), dist)
    requires LayerRewired(before[layer], after[layer], node, candidates, if layer == 0 then mMax else m, dist)
    requires BeamFound(before[layer], dist[node], entries, ef, candidates)
    ensures Insertions(start, after, node, level, layer, current, trail[layer := candidates], ef, m, mMax, dist)
  {
    hide LayerWired, LayerRewired, BeamFound;
    var trail' := trail[layer := candidates];
    forall l | layer <= l <= level
      ensures InsertedOn(start[l], after[l], node, EntriesAt(trail', current, l), trail'[l], ef,
                         CapForLayer(m, mMax, l), dist)
    {
      assert EntriesAt(trail', current, l) == EntriesAt(trail, current, l);
    }
  }

  lemma NextEntries(entry: Option<nat>, levels: seq<nat>, count: nat, level: nat, layer: nat, current: nat,
                    trail: seq<seq<nat>>, candidates: seq<nat>, n: nat)
    requires layer <= level && current < n && OnLayer(entry, levels, count, level, current) && |trail| == level + 1
    requires AllOn(entry, levels, count, layer, candidates, n)
    ensures layer > 0 ==>
              var next := if candidates == [] then [current] else candidates;
              && next == EntriesAt(trail[layer := candidates], current, layer - 1)
              && AllOn(entry, levels, count, layer - 1, next, n)
  {
  }

  lemma InsertionsStart(start: seq<Layer>, node: nat, level: nat, current: nat, trail: seq<seq<nat>>, ef: nat, m: nat,
                        mMax: nat, dist: Distances)
    requires |start| > level && |trail| == level + 1
    ensures Insertions(start, start, node, level, level + 1, current, trail, ef, m, mMax, dist)
    ensures EntriesAt(trail, current, level) == [current]
  {
  }

  lemma ClimbStart(adjacency: seq<Layer>, sc: seq<real>, top: nat, entry: Option<nat>, levels: seq<nat>, node: nat)
    requires entry.Some? && entry.value < node <= |levels| && top < |adjacency|
    ensures Climbed(adjacency, sc, top, top, entry.value, entry.value)
    ensures OnLayer(entry, levels, node, top, entry.value)
  {
  }

  /** A layer of the inserted prefix can be climbed. */
  lemma ClimbLayer(adjacency: seq<Layer>, n: nat, m: nat, mMax: nat, entry: Option<nat>, levels: seq<nat>, node: nat,
                   layer: nat, dist: Distances)
    requires LayersOk(adjacency, n, m, mMax, entry, levels, node, |adjacency|) && layer < |adjacency|
    requires Square(dist, n) && node < n
    ensures InRange(adjacency[layer]) && |adjacency[layer]| == |dist[node]| == n
  {
    LayerAt(adjacency, n, m, mMax, entry, levels, node, |adjacency|, layer);
    hide LayersOk, LayerOk;
    LayerOkInRange(adjacency[layer], layer, CapForLayer(m, mMax, layer), entry, levels, node);
  }

  /** The climb ends on the layer it climbed, so also on the one below. */
  lemma ClimbStays(adjacency: seq<Layer>, n: nat, m: nat, mMax: nat, entry: Option<nat>, levels: seq<nat>, node: nat,
                   layer: nat, current: nat, next: nat)
    requires LayersOk(adjacency, n, m, mMax, entry, levels, node, |adjacency|) && 0 < layer < |adjacency|
    requires OnLayer(entry, levels, node, layer, current) && next in Reachable(adjacency[layer], {current})
    ensures OnLayer(entry, levels, node, layer - 1, next)
  {
    LayerAt(adjacency, n, m, mMax, entry, levels, node, |adjacency|, layer);
    hide LayersOk, LayerOk, OnLayer, Reachable;
    SearchStaysOnLayer(adjacency[layer], layer, CapForLayer(m, mMax, layer), entry, levels, node, {current});
    OnLowerLayer(entry, levels, node, layer, layer - 1, next);
  }

  lemma NotAmong(entry: Option<nat>, levels: seq<nat>, node: nat, l: nat, s: seq<nat>, n: nat)
    requires AllOn(entry, levels, node, l, s, n)
    ensures node !in s
  {
  }

  lemma SelectedFit(sc: seq<real>, ids: seq<nat>, cap: nat, entry: Option<nat>, levels: seq<nat>, node: nat, layer: nat)
    requires Distinct(ids) && AllOn(entry, levels, node, layer, ids, |sc|)
    ensures var r := SelectClosest(sc, ids, cap);
            && Distinct(r) && |r| <= cap && Listed(|sc|, r) && node !in r
            && forall v :: v in r ==> OnLayer(entry, levels, node, layer, v)
  {
    SelectClosestIsBest(sc, ids, cap);
    var r := SelectClosest(sc, ids, cap);
    forall v | v in r ensures OnLayer(entry, levels, node, layer, v) && v != node {
      assert v in Members(r);
      assert v in ids;
    }
  }

  lemma OneMoreLayer(before: seq<Layer>, after: seq<Layer>, n: nat, m: nat, mMax: nat, entry: Option<nat>,
                     levels: seq<nat>, node: nat, layer: nat)
    requires LayersOk(before, n, m, mMax, entry, levels, node, layer + 1)
    requires |after| == |before| && layer < |after| && |after[layer]| == n
    requires forall k :: 0 <= k < |after| && k != layer ==> after[k] == before[k]
    requires LayerOk(after[layer], layer, CapForLayer(m, mMax, layer), entry, levels, node + 1)
    ensures LayersOk(after, n, m, mMax, entry, levels, node, layer)
  {
    hide LayerOk;
  }

  lemma StillOnLayers(entry: Option<nat>, levels: seq<nat>, node: nat, l: nat, s: seq<nat>)
    requires forall v :: v in s ==> OnLayer(entry, levels, node, l, v)
    requires node < |levels| && levels[node] >= l
    ensures OnLayer(entry, levels, node + 1, l, node)
    ensures forall i :: 0 <= i < |s| ==> OnLayer(entry, levels, node + 1, l, s[i])
  {
    forall i | 0 <= i < |s| ensures OnLayer(entry, levels, node + 1, l, s[i]) {
      StillOnLayer(entry, levels, node, l, s[i]);
    }
  }

  lemma StillOnLayer(entry: Option<nat>, levels: seq<nat>, count: nat, l: nat, v: nat)
    requires OnLayer(entry, levels, count, l, v)
    ensures OnLayer(entry, levels, count + 1, l, v)
  {
  }
}
