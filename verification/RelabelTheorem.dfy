/** Relabelling preserves search: same neighbours once ids are mapped back, same physical work. */
module RelabelTheorem {
  import opened Core
  import opened Ranking
  import opened Nearest
  import opened Graph
  import opened IdLists
  import opened Beam
  import opened HnswSearch
  import opened HnswRelabel

  /** `sc'` scores the reordered store: the vector of node `i` now sits at row `pos[i]`. */
  ghost predicate Renames(sc: seq<real>, sc': seq<real>, pos: seq<nat>) {
    && IsPermutation(pos, |sc|) && |sc'| == |sc|
    && DistinctScores(sc)
    && forall i :: 0 <= i < |sc| ==> sc'[pos[i]] == sc[i]
  }

  ghost function Img(pos: seq<nat>, nodes: set<nat>): set<nat> {
    set i | i in nodes && i < |pos| :: pos[i]
  }

  lemma RenamedDistinct(sc: seq<real>, sc': seq<real>, pos: seq<nat>)
    requires Renames(sc, sc', pos)
    ensures DistinctScores(sc')
  {
    PermutationIsOnto(pos, |sc|);
    forall i, j | 0 <= i < j < |sc'| ensures sc'[i] != sc'[j] {
      var a := PositionOf(pos, i);
      var b := PositionOf(pos, j);
      assert sc'[pos[a]] == sc[a] && sc'[pos[b]] == sc[b];
      hide *;
      DistinctAt(sc, a, b);
    }
  }

  lemma DistinctAt(sc: seq<real>, a: nat, b: nat)
    requires DistinctScores(sc) && a < |sc| && b < |sc| && a != b
    ensures sc[a] != sc[b]
  {
    assert a < b || b < a;
  }

  lemma CloserRenamed(sc: seq<real>, sc': seq<real>, pos: seq<nat>, a: nat, b: nat)
    requires Renames(sc, sc', pos) && a < |sc| && b < |sc|
    ensures Closer(sc', pos[a], pos[b]) <==> Closer(sc, a, b)
  {
    assert sc'[pos[a]] == sc[a] && sc'[pos[b]] == sc[b];
    if a != b {
      assert sc[a] != sc[b];
    }
  }

  // ---- images of node sets ----

  lemma ImgMember(pos: seq<nat>, nodes: set<nat>, x: nat)
    requires Distinct(pos) && x < |pos|
    ensures pos[x] in Img(pos, nodes) <==> x in nodes
  {
  }

  lemma ImgWithin(sc: seq<real>, sc': seq<real>, pos: seq<nat>, nodes: set<nat>)
    requires Renames(sc, sc', pos)
    ensures Within(sc', Img(pos, nodes)) && Img(pos, nodes) <= Range(|sc|)
  {
  }

  lemma {:induction false} ImgSize(pos: seq<nat>, nodes: set<nat>)
    requires Distinct(pos) && nodes <= Range(|pos|)
    ensures |Img(pos, nodes)| == |nodes|
  {
    if nodes != {} {
      var x :| x in nodes;
      var rest := nodes - {x};
      ImgSize(pos, rest);
      ImgMember(pos, rest, x);
      assert Img(pos, nodes) == Img(pos, rest) + {pos[x]};
    }
  }

  lemma ImgUnion(pos: seq<nat>, a: set<nat>, b: set<nat>)
    ensures Img(pos, a + b) == Img(pos, a) + Img(pos, b)
  {
  }

  lemma ImgAdd(pos: seq<nat>, a: set<nat>, x: nat)
    requires x < |pos|
    ensures Img(pos, a + {x}) == Img(pos, a) + {pos[x]}
  {
  }

  lemma ImgMinus(pos: seq<nat>, a: set<nat>, b: set<nat>)
    requires Distinct(pos) && a <= Range(|pos|)
    ensures Img(pos, a - b) == Img(pos, a) - Img(pos, b)
  {
  }

  lemma ImgEmpty(pos: seq<nat>, a: set<nat>)
    requires a <= Range(|pos|)
    ensures Img(pos, a) == {} <==> a == {}
  {
    if x :| x in a {
      assert pos[x] in Img(pos, a);
    }
  }

  lemma ClosestRenamed(sc: seq<real>, sc': seq<real>, pos: seq<nat>, nodes: set<nat>)
    requires Renames(sc, sc', pos) && nodes <= Range(|sc|) && nodes != {}
    ensures Within(sc', Img(pos, nodes)) && Img(pos, nodes) != {}
    ensures Closest(sc', Img(pos, nodes)) == pos[Closest(sc, nodes)]
  {
    ImgEmpty(pos, nodes);
    var w := Closest(sc, nodes);
    var v := Closest(sc', Img(pos, nodes));
    var x :| x in nodes && x < |pos| && pos[x] == v;
    CloserRenamed(sc, sc', pos, w, x);
    CloserRenamed(sc, sc', pos, x, w);
    assert pos[w] in Img(pos, nodes);
  }

  lemma BestRenamed(sc: seq<real>, sc': seq<real>, pos: seq<nat>, k: nat, nodes: set<nat>, best: set<nat>)
    requires Renames(sc, sc', pos) && nodes <= Range(|sc|)
    requires IsBest(sc, k, nodes, best)
    ensures Within(sc', Img(pos, nodes)) && IsBest(sc', k, Img(pos, nodes), Img(pos, best))
  {
    ImgSize(pos, nodes);
    ImgSize(pos, best);
    forall b', x' | b' in Img(pos, best) && x' in Img(pos, nodes) - Img(pos, best)
      ensures Closer(sc', b', x')
    {
      var b :| b in best && b < |pos| && pos[b] == b';
      var x :| x in nodes && x < |pos| && pos[x] == x';
      ImgMember(pos, best, x);
      BestBeatsRest(sc, k, nodes, best, b, x);
      CloserRenamed(sc, sc', pos, b, x);
    }
  }

  // ---- the two traversals ----

  lemma RowImage(row: seq<nat>, row': seq<nat>, pos: seq<nat>)
    requires Listed(|pos|, row) && RowRelabelled(row, row', pos)
    ensures |row'| == |row| && Members(row') == Img(pos, Members(row))
  {
    var renamed := Renamed(pos, row);
    assert |multiset(row')| == |multiset(renamed)|;
    forall x ensures x in Members(row') <==> x in Img(pos, Members(row)) {
      assert x in row' <==> x in multiset(row');
      assert x in renamed <==> x in multiset(renamed);
      if x in renamed {
        var i :| 0 <= i < |renamed| && renamed[i] == x;
        assert row[i] in Members(row);
      }
      if x in Img(pos, Members(row)) {
        var y :| y in Members(row) && y < |pos| && pos[y] == x;
        var i :| 0 <= i < |row| && row[i] == y;
        assert renamed[i] == x;
      }
    }
  }

  ghost predicate SameLayer(g: Layer, g': Layer, sc: seq<real>, sc': seq<real>, pos: seq<nat>) {
    && Renames(sc, sc', pos)
    && InRange(g) && InRange(g') && |g| == |g'| == |sc|
    && LayerRelabelled(g, g', pos)
  }

  lemma RowOf(g: Layer, g': Layer, sc: seq<real>, sc': seq<real>, pos: seq<nat>, u: nat)
    requires SameLayer(g, g', sc, sc', pos) && u < |g|
    ensures |pos| == |g| && pos[u] < |g'| && Listed(|pos|, g[u])
    ensures |g'[pos[u]]| == |g[u]| && Members(g'[pos[u]]) == Img(pos, Members(g[u]))
  {
    RowImage(g[u], g'[pos[u]], pos);
  }

  lemma {:induction false} BeamRunRenamed(g: Layer, g': Layer, sc: seq<real>, sc': seq<real>, pos: seq<nat>,
                                          ef: nat, visited: set<nat>, expanded: set<nat>)
    requires SameLayer(g, g', sc, sc', pos) && visited <= Range(|g|)
    ensures Img(pos, visited) <= Range(|g|)
    ensures BeamRun(g', sc', ef, Img(pos, visited), Img(pos, expanded)) ==
              Img(pos, BeamRun(g, sc, ef, visited, expanded))
    decreases Range(|g|) - expanded
  {
    ImgWithin(sc, sc', pos, visited);
    var best := Best(sc, ef, visited);
    var todo := best - expanded;
    BestRenamed(sc, sc', pos, ef, visited, best);
    BestUnique(sc', ef, Img(pos, visited), Img(pos, best), Best(sc', ef, Img(pos, visited)));
    ImgMinus(pos, best, expanded);
    ImgEmpty(pos, todo);
    if todo != {} {
      var u := Closest(sc, todo);
      ClosestRenamed(sc, sc', pos, todo);
      RowOf(g, g', sc, sc', pos, u);
      ImgUnion(pos, visited, Members(g[u]));
      ImgAdd(pos, expanded, u);
      BeamRunRenamed(g, g', sc, sc', pos, ef, visited + Members(g[u]), expanded + {u});
    }
  }

  /** One move of a climb over the renamed graph is the renamed move. */
  lemma MoveRenamed(g: Layer, g': Layer, sc: seq<real>, sc': seq<real>, pos: seq<nat>, c: nat)
    requires SameLayer(g, g', sc, sc', pos) && c < |g|
    ensures |pos| == |g| == |g'| && pos[c] < |g'| && |g'[pos[c]]| == |g[c]|
    ensures Within(sc, Members(g[c]) + {c}) && Within(sc', Members(g'[pos[c]]) + {pos[c]})
    ensures var w := Closest(sc, Members(g[c]) + {c});
            && w < |g| && (w == c <==> pos[w] == pos[c])
            && Closest(sc', Members(g'[pos[c]]) + {pos[c]}) == pos[w]
  {
    hide LayerRelabelled, Img, DistinctScores, Closer;
    RowOf(g, g', sc, sc', pos, c);
    BestNeighbour(sc, g[c], c);
    ImgAdd(pos, Members(g[c]), c);
    ClosestRenamed(sc, sc', pos, Members(g[c]) + {c});
  }

  lemma ClimbUnfolds(g: Layer, sc: seq<real>, c: nat)
    requires InRange(g) && c < |g| == |sc| && Within(sc, Members(g[c]) + {c})
    ensures var w := Closest(sc, Members(g[c]) + {c});
            && w < |g| && (w != c ==> Before(sc, w) < Before(sc, c))
            && GreedyRun(g, sc, c) ==
                 if w == c then (c, |g[c]|) else (GreedyRun(g, sc, w).0, GreedyRun(g, sc, w).1 + |g[c]|)
  {
    var w := Closest(sc, Members(g[c]) + {c});
    if w != c {
      MoveShrinksBefore(sc, w, c);
    }
  }

  lemma SameLayerParts(g: Layer, g': Layer, sc: seq<real>, sc': seq<real>, pos: seq<nat>)
    requires SameLayer(g, g', sc, sc', pos)
    ensures InRange(g) && InRange(g') && |g| == |g'| == |sc| == |sc'| == |pos| && Listed(|g|, pos)
  {
  }

  lemma {:induction false} GreedyRunRenamed(g: Layer, g': Layer, sc: seq<real>, sc': seq<real>, pos: seq<nat>, c: nat)
    requires SameLayer(g, g', sc, sc', pos) && c < |g|
    ensures GreedyRun(g', sc', pos[c]) == (pos[GreedyRun(g, sc, c).0], GreedyRun(g, sc, c).1)
    decreases Before(sc, c)
  {
    hide *;
    SameLayerParts(g, g', sc, sc', pos);
    MoveRenamed(g, g', sc, sc', pos, c);
    ClimbUnfolds(g, sc, c);
    ClimbUnfolds(g', sc', pos[c]);
    var w := Closest(sc, Members(g[c]) + {c});
    if w != c {
      GreedyRunRenamed(g, g', sc, sc', pos, w);
    }
  }

  ghost predicate SameGraph(t: Topology, t': Topology, sc: seq<real>, sc': seq<real>, pos: seq<nat>) {
    && WellFormed(t) && WellFormed(t') && Relabelled(t, t', pos)
    && |sc| == t.len && Renames(sc, sc', pos)
  }

  lemma LayerOf(t: Topology, t': Topology, sc: seq<real>, sc': seq<real>, pos: seq<nat>, layer: nat)
    requires SameGraph(t, t', sc, sc', pos) && layer <= t.maxLayer
    ensures SameLayer(t.adjacency[layer], t'.adjacency[layer], sc, sc', pos)
  {
  }

  lemma {:induction false} DescendRunRenamed(t: Topology, t': Topology, sc: seq<real>, sc': seq<real>, pos: seq<nat>,
                                             layer: nat, c: nat)
    requires SameGraph(t, t', sc, sc', pos) && layer <= t.maxLayer && c < t.len
    ensures DescendRun(t', sc', layer, pos[c]) ==
              (pos[DescendRun(t, sc, layer, c).0], DescendRun(t, sc, layer, c).1)
  {
    hide LayerRelabelled, Renames, InRange, GreedyRun;
    assert |pos| == t.len && Listed(t.len, pos);
    if layer > 0 {
      LayerOf(t, t', sc, sc', pos, layer);
      GreedyRunRenamed(t.adjacency[layer], t'.adjacency[layer], sc, sc', pos, c);
      DescendRunRenamed(t, t', sc, sc', pos, layer - 1, GreedyRun(t.adjacency[layer], sc, c).0);
    }
  }

  lemma SearchRunRenamed(t: Topology, t': Topology, sc: seq<real>, sc': seq<real>, pos: seq<nat>, ef: nat)
    requires SameGraph(t, t', sc, sc', pos) && t.entryPoint.Some?
    ensures SearchRun(t', sc', ef) == (Img(pos, SearchRun(t, sc, ef).0), SearchRun(t, sc, ef).1)
  {
    hide LayerRelabelled, Renames, InRange, DescendRun, BeamRun;
    LayerOf(t, t', sc, sc', pos, 0);
    DescendRunRenamed(t, t', sc, sc', pos, t.maxLayer, t.entryPoint.value);
    var from := DescendRun(t, sc, t.maxLayer, t.entryPoint.value).0;
    assert Img(pos, {from}) == {pos[from]} && Img(pos, {}) == {};
    BeamRunRenamed(t.adjacency[0], t'.adjacency[0], sc, sc', pos, ef, {from}, {});
    ImgSize(pos, BeamRun(t.adjacency[0], sc, ef, {from}, {}));
  }

  // ---- the answers ----

  /** The same result list with every id mapped through `pos`. */
  ghost function MapIds(pos: seq<nat>, out: seq<Neighbor>): (r: seq<Neighbor>)
    requires forall n :: n in out ==> n.id < |pos|
  {
    seq(|out|, i requires 0 <= i < |out| => Neighbor(pos[out[i].id], out[i].score))
  }

  lemma IdsRenamed(pos: seq<nat>, out: seq<Neighbor>)
    requires forall n :: n in out ==> n.id < |pos|
    ensures Ids(MapIds(pos, out)) == Img(pos, Ids(out))
  {
    var out' := MapIds(pos, out);
    forall x ensures x in Ids(out') <==> x in Img(pos, Ids(out)) {
      if x in Ids(out') {
        var n :| n in out' && n.id == x;
        var i :| 0 <= i < |out'| && out'[i] == n;
        assert out[i] in out;
      }
      if x in Img(pos, Ids(out)) {
        var y :| y in Ids(out) && y < |pos| && pos[y] == x;
        var n :| n in out && n.id == y;
        var i :| 0 <= i < |out| && out[i] == n;
        assert out'[i] in out';
      }
    }
  }

  lemma TopKRenamed(sc: seq<real>, sc': seq<real>, pos: seq<nat>, nodes: set<nat>, k: nat, out: seq<Neighbor>)
    requires Renames(sc, sc', pos) && nodes <= Range(|sc|) && IsTopK(out, sc, nodes, k)
    ensures forall n :: n in out ==> n.id < |pos|
    ensures Within(sc', Img(pos, nodes)) && IsTopK(MapIds(pos, out), sc', Img(pos, nodes), k)
  {
    var out' := MapIds(pos, out);
    forall n | n in out' ensures n.id in Img(pos, nodes) && n == At(sc', n.id) {
      var i :| 0 <= i < |out'| && out'[i] == n;
      assert out[i] in out;
    }
    forall i, j | 0 <= i < j < |out'| ensures Less(out'[i], out'[j]) {
      assert out[i] in out && out[j] in out;
      assert Less(out[i], out[j]);
      CloserRenamed(sc, sc', pos, out[i].id, out[j].id);
    }
    IdsRenamed(pos, out);
    BestRenamed(sc, sc', pos, k, nodes, Ids(out));
  }

  /** The theorem: the answers over the relabelled graph and the reordered store are the answers
      over the original, ids renamed, for the same number of streamed vectors. */
  lemma RelabelPreservesSearch(t: Topology, t': Topology, sc: seq<real>, sc': seq<real>, pos: seq<nat>,
                               efSearch: nat, k: nat, vectorBytes: nat,
                               out: seq<Neighbor>, counters: QueryCounters,
                               out': seq<Neighbor>, counters': QueryCounters)
    requires SameGraph(t, t', sc, sc', pos) && t.entryPoint.Some?
    requires Answers(t, sc, efSearch, k, vectorBytes, out, counters)
    requires Answers(t', sc', efSearch, k, vectorBytes, out', counters')
    ensures forall n :: n in out ==> n.id < |pos|
    ensures out' == MapIds(pos, out) && counters' == counters
  {
    var ef := Width(efSearch, k);
    var visited := SearchRun(t, sc, ef).0;
    SearchRunRenamed(t, t', sc, sc', pos, ef);
    TopKRenamed(sc, sc', pos, visited, k, out);
    TopKUnique(out', MapIds(pos, out), sc', Img(pos, visited), k);
  }

  // ---- why distinct scores are asked for ----

  /** Two nodes linked both ways, one of them the entry point. */
  function TwoNodes(entry: nat): (t: Topology) {
    Topology([[[1], [0]]], [0, 0], Some(entry), 0, 2)
  }

  /** Swapping the two nodes relabels the graph. */
  lemma TwoNodesSwapped()
    ensures WellFormed(TwoNodes(0)) && WellFormed(TwoNodes(1)) && Relabelled(TwoNodes(0), TwoNodes(1), [1, 0])
  {
    var g: Layer := [[1], [0]];
    assert Renamed([1, 0], g[0]) == [0] && Renamed([1, 0], g[1]) == [1];
    assert RowRelabelled(g[0], g[1], [1, 0]) && RowRelabelled(g[1], g[0], [1, 0]);
    assert LayerRelabelled(g, g, [1, 0]);
  }

  /** The same query over two vectors at one distance, before and after swapping their places: both searches look at
      both nodes and answer with the lower id, which is the other vector. */
  method TieChangesAnswer() returns (out: seq<Neighbor>, out': seq<Neighbor>, counters: QueryCounters, counters': QueryCounters)
    ensures Relabelled(TwoNodes(0), TwoNodes(1), [1, 0])
    ensures Returned(TwoNodes(0), [1.0, 1.0], 2, 1, 4, out, counters) && Returned(TwoNodes(1), [1.0, 1.0], 2, 1, 4, out', counters')
    ensures out == out' == [Neighbor(0, 1.0)] && out' != MapIds([1, 0], out)
  {
    TwoNodesSwapped();
    var sc := [1.0, 1.0];
    var r, from, visited, expanded, kept := HnswSearch.Search(TwoNodes(0), 1, 1, sc, 4, 2, 1);
    var r', from', visited', expanded', kept' := HnswSearch.Search(TwoNodes(1), 1, 1, sc, 4, 2, 1);
    BothKept(0, from, visited, expanded, kept);
    BothKept(1, from', visited', expanded', kept');
    out, out', counters, counters' := r.value.0, r'.value.0, r.value.1, r'.value.1;
    LowerIdAnswers(out);
    LowerIdAnswers(out');
    assert MapIds([1, 0], out)[0].id == 1;
  }

  lemma BothKept(entry: nat, from: nat, visited: set<nat>, expanded: set<nat>, kept: set<nat>)
    requires entry < 2 && Climbed(TwoNodes(entry).adjacency, [1.0, 1.0], 0, 0, entry, from)
    requires Certified(TwoNodes(entry).adjacency[0], [1.0, 1.0], {from}, 2, visited, expanded, kept)
    ensures kept == Range(2)
  {
    assert from == entry;
    BothReached(from);
    hide *;
    ExhaustiveBeam(TwoNodes(entry).adjacency[0], [1.0, 1.0], {from}, 2, visited, expanded, kept);
  }

  lemma BothReached(from: nat)
    requires from < 2
    ensures |TwoNodes(from).adjacency| == 1 && |TwoNodes(from).adjacency[0]| == 2 && InRange(TwoNodes(from).adjacency[0])
    ensures Reachable(TwoNodes(from).adjacency[0], {from}) == Range(2) && |Range(2)| == 2
  {
    var g: Layer := TwoNodes(from).adjacency[0];
    ReachableContainsStart(g, {from});
    ReachableStep(g, {from}, from, 1 - from);
  }

  lemma LowerIdAnswers(out: seq<Neighbor>)
    requires IsTopK(out, [1.0, 1.0], Range(2), 1)
    ensures out == [Neighbor(0, 1.0)]
  {
    OutSize(out, [1.0, 1.0], Range(2), 1);
    assert out[0] in out && out[0].id in Ids(out);
    if out[0].id == 1 {
      assert 0 !in Ids(out) by {
        assert forall n :: n in out ==> n == out[0];
      }
      BestBeatsRest([1.0, 1.0], 1, Range(2), Ids(out), 1, 0);
    }
  }
}
