/** Relabelling preserves the hybrid search: same nodes fetched, same answer, same scoring work. */
module RelabelHybrid {
  import opened Core
  import opened Ranking
  import opened Nearest
  import opened Graph
  import opened BatchFetch
  import opened HnswSearch
  import opened HnswRelabel
  import opened HybridReference
  import opened HnswHybrid
  import opened RelabelTheorem

  /** The same query over a renamed layer: both score vectors are renamed. */
  ghost predicate SameQuery(g: Layer, g': Layer, q: HybridQuery, q': HybridQuery, pos: seq<nat>) {
    && ForGraph(q, g) && ForGraph(q', g')
    && SameLayer(g, g', q.sc, q'.sc, pos) && Renames(q.ap, q'.ap, pos)
    && q'.ef == q.ef && q'.want == q.want && q'.fetchBatchSize == q.fetchBatchSize
  }

  lemma BestIsRenamed(sc: seq<real>, sc': seq<real>, pos: seq<nat>, k: nat, nodes: set<nat>)
    requires Renames(sc, sc', pos) && nodes <= Range(|sc|)
    ensures Within(sc', Img(pos, nodes)) && Best(sc', k, Img(pos, nodes)) == Img(pos, Best(sc, k, nodes))
  {
    BestRenamed(sc, sc', pos, k, nodes, Best(sc, k, nodes));
    hide Renames, Img, IsBest, Best;
    BestUnique(sc', k, Img(pos, nodes), Img(pos, Best(sc, k, nodes)), Best(sc', k, Img(pos, nodes)));
  }

  lemma WorstRenamed(sc: seq<real>, sc': seq<real>, pos: seq<nat>, nodes: set<nat>)
    requires Renames(sc, sc', pos) && nodes <= Range(|sc|) && nodes != {}
    ensures Within(sc', Img(pos, nodes)) && Img(pos, nodes) != {}
    ensures Worst(sc', Img(pos, nodes)) == pos[Worst(sc, nodes)]
  {
    ImgEmpty(pos, nodes);
    var w := Worst(sc, nodes);
    var v := Worst(sc', Img(pos, nodes));
    var x :| x in nodes && x < |pos| && pos[x] == v;
    CloserRenamed(sc, sc', pos, w, x);
    CloserRenamed(sc, sc', pos, x, w);
    assert pos[w] in Img(pos, nodes);
  }

  lemma PromotedRenamed(q: HybridQuery, q': HybridQuery, pos: seq<nat>, discovered: set<nat>, fetched: set<nat>)
    requires Renames(q.ap, q'.ap, pos) && q'.want == q.want && q'.fetchBatchSize == q.fetchBatchSize
    requires fetched <= discovered <= Range(|q.ap|)
    ensures Within(q'.ap, Img(pos, discovered)) && Img(pos, fetched) <= Img(pos, discovered)
    ensures Promoted(q', Img(pos, discovered), Img(pos, fetched)) == Img(pos, Promoted(q, discovered, fetched))
  {
    var queue := discovered - fetched;
    var budget := Budget(q.want(|queue|), q.fetchBatchSize);
    ImgWithin(q.ap, q'.ap, pos, discovered);
    ImgMinus(pos, discovered, fetched);
    ImgSize(pos, queue);
    BestIsRenamed(q.ap, q'.ap, pos, budget, queue);
    ImgUnion(pos, fetched, Best(q.ap, budget, queue));
    assert Img(pos, fetched) <= Img(pos, discovered);
  }

  lemma CannotImproveRenamed(sc: seq<real>, sc': seq<real>, pos: seq<nat>, ef: nat, fetched: set<nat>, u: nat)
    requires Renames(sc, sc', pos) && fetched <= Range(|sc|) && u < |sc|
    ensures Within(sc', Img(pos, fetched)) && pos[u] < |sc'|
    ensures CannotImprove(sc', ef, Img(pos, fetched), pos[u]) <==> CannotImprove(sc, ef, fetched, u)
  {
    var kept := Best(sc, ef, fetched);
    BestIsRenamed(sc, sc', pos, ef, fetched);
    ImgSize(pos, kept);
    ImgEmpty(pos, kept);
    if kept != {} {
      WorstRenamed(sc, sc', pos, kept);
    }
  }

  lemma NestedRenamed(g: Layer, g': Layer, q: HybridQuery, q': HybridQuery, pos: seq<nat>,
                      discovered: set<nat>, fetched: set<nat>, expanded: set<nat>)
    requires SameQuery(g, g', q, q', pos) && Nested(g, discovered, fetched, expanded)
    ensures Nested(g', Img(pos, discovered), Img(pos, fetched), Img(pos, expanded))
  {
    ImgWithin(q.sc, q'.sc, pos, discovered);
    ImgWithin(q.sc, q'.sc, pos, fetched);
  }

  /** What one round of the run decides and expands is renamed. */
  lemma RoundRenamed(g: Layer, g': Layer, q: HybridQuery, q': HybridQuery, pos: seq<nat>,
                     now: set<nat>, expanded: set<nat>)
    requires SameQuery(g, g', q, q', pos) && expanded <= now <= Range(|g|) && now != expanded
    ensures Within(q'.sc, Img(pos, now)) && Img(pos, now) - Img(pos, expanded) != {}
    ensures var u := Closest(q.sc, now - expanded);
            && u < |pos| && pos[u] == Closest(q'.sc, Img(pos, now) - Img(pos, expanded)) < |g'|
            && Members(g'[pos[u]]) == Img(pos, Members(g[u]))
            && (CannotImprove(q'.sc, q.ef, Img(pos, now), pos[u]) <==> CannotImprove(q.sc, q.ef, now, u))
            && Img(pos, expanded + {u}) == Img(pos, expanded) + {pos[u]}
  {
    var todo := now - expanded;
    var u := Closest(q.sc, todo);
    hide CannotImprove, Members;
    ImgMinus(pos, now, expanded);
    assert todo != {};
    ClosestRenamed(q.sc, q'.sc, pos, todo);
    RowOf(g, g', q.sc, q'.sc, pos, u);
    CannotImproveRenamed(q.sc, q'.sc, pos, q.ef, now, u);
    ImgAdd(pos, expanded, u);
  }

  /** The run over the renamed layer discovers, fetches and expands exactly the renamed nodes. */
  lemma {:induction false} HybridRunRenamed(g: Layer, g': Layer, q: HybridQuery, q': HybridQuery, pos: seq<nat>,
                                            discovered: set<nat>, fetched: set<nat>, expanded: set<nat>)
    requires SameQuery(g, g', q, q', pos) && Nested(g, discovered, fetched, expanded)
    ensures Nested(g', Img(pos, discovered), Img(pos, fetched), Img(pos, expanded))
    ensures var r := HybridRun(g, q, discovered, fetched, expanded);
            HybridRun(g', q', Img(pos, discovered), Img(pos, fetched), Img(pos, expanded)) ==
              (Img(pos, r.0), Img(pos, r.1), Img(pos, r.2))
    decreases Range(|g|) - expanded
  {
    hide Promoted, CannotImprove, Members, InRange, Img, LayerRelabelled, Renames;
    NestedRenamed(g, g', q, q', pos, discovered, fetched, expanded);
    PromotedRenamed(q, q', pos, discovered, fetched);
    var now := Promoted(q, discovered, fetched);
    if now != expanded {
      RoundRenamed(g, g', q, q', pos, now, expanded);
      var u := Closest(q.sc, now - expanded);
      if !CannotImprove(q.sc, q.ef, now, u) {
        ExpandNested(g, discovered, now, expanded, u);
        ImgUnion(pos, discovered, Members(g[u]));
        HybridRunRenamed(g, g', q, q', pos, discovered + Members(g[u]), now, expanded + {u});
      }
    }
  }

  /** The hybrid query over the relabelled graph, the reordered store and the relocated codes. */
  ghost predicate SameHybrid(t: Topology, t': Topology, q: HybridQuery, q': HybridQuery, pos: seq<nat>) {
    && SameGraph(t, t', q.sc, q'.sc, pos) && SameGraph(t, t', q.ap, q'.ap, pos) && t.entryPoint.Some?
    && q.ef >= 1 && q'.ef == q.ef && q'.want == q.want && q'.fetchBatchSize == q.fetchBatchSize
  }

  lemma BaseQuery(t: Topology, t': Topology, q: HybridQuery, q': HybridQuery, pos: seq<nat>)
    requires SameHybrid(t, t', q, q', pos)
    ensures |t.adjacency| > 0 && |t'.adjacency| > 0 && |t.adjacency[0]| == |t'.adjacency[0]| == t.len == |pos| == t'.len
    ensures WellFormed(t) && WellFormed(t') && |q.ap| == |q'.ap| == t.len && t.entryPoint.value < t.len
    ensures t'.entryPoint == Some(pos[t.entryPoint.value]) && t'.maxLayer == t.maxLayer && Distinct(pos)
    ensures SameQuery(t.adjacency[0], t'.adjacency[0], q, q', pos)
  {
    LayerOf(t, t', q.sc, q'.sc, pos, 0);
  }

  lemma ImgOfStart(pos: seq<nat>, from: nat)
    requires from < |pos|
    ensures Img(pos, {from}) == {pos[from]} && Img(pos, {}) == {} && {from} <= Range(|pos|)
  {
  }

  /** Both queries descend on approximate scores to the same node and run on renamed sets. */
  lemma HybridSetsRenamed(t: Topology, t': Topology, q: HybridQuery, q': HybridQuery, pos: seq<nat>)
    requires SameHybrid(t, t', q, q', pos)
    ensures t'.entryPoint.Some? && ForGraph(q, t.adjacency[0]) && ForGraph(q', t'.adjacency[0])
    ensures var down, down' := DescendRun(t, q.ap, t.maxLayer, t.entryPoint.value),
                               DescendRun(t', q'.ap, t'.maxLayer, t'.entryPoint.value);
            var run, run' := HybridRun(t.adjacency[0], q, {down.0}, {}, {}), HybridRun(t'.adjacency[0], q', {down'.0}, {}, {});
            && down'.1 == down.1
            && run' == (Img(pos, run.0), Img(pos, run.1), Img(pos, run.2))
            && |run'.0| == |run.0| && |run'.1| == |run.1|
  {
    hide DescendRun, HybridRun, Renames, LayerRelabelled, InRange, SameGraph, SameQuery, WellFormed, Img;
    BaseQuery(t, t', q, q', pos);
    var from := DescendRun(t, q.ap, t.maxLayer, t.entryPoint.value).0;
    DescendRunRenamed(t, t', q.ap, q'.ap, pos, t.maxLayer, t.entryPoint.value);
    ImgOfStart(pos, from);
    HybridRunRenamed(t.adjacency[0], t'.adjacency[0], q, q', pos, {from}, {}, {});
    var run := HybridRun(t.adjacency[0], q, {from}, {}, {});
    ImgSize(pos, run.0);
    ImgSize(pos, run.1);
  }

  /** The theorem for `search_hybrid`: the same answer, ids renamed, for the same number of approximate and exact
      distances. Seeks may differ: that is what the layout is for. */
  lemma RelabelPreservesHybrid(t: Topology, t': Topology, q: HybridQuery, q': HybridQuery, pos: seq<nat>, k: nat,
                               out: seq<Neighbor>, counters: QueryCounters,
                               out': seq<Neighbor>, counters': QueryCounters)
    requires SameHybrid(t, t', q, q', pos)
    requires HybridAnswers(t, q, k, out, counters)
    requires HybridAnswers(t', q', k, out', counters')
    ensures forall n :: n in out ==> n.id < |pos|
    ensures out' == MapIds(pos, out)
    ensures counters'.approxDistances == counters.approxDistances
    ensures counters'.exactDistances == counters.exactDistances && counters'.nodesVisited == counters.nodesVisited
  {
    hide DescendRun, HybridRun, LayerRelabelled, InRange, MapIds, IsTopK;
    HybridSetsRenamed(t, t', q, q', pos);
    var from := DescendRun(t, q.ap, t.maxLayer, t.entryPoint.value).0;
    var fetched := HybridRun(t.adjacency[0], q, {from}, {}, {}).1;
    TopKRenamed(q.sc, q'.sc, pos, fetched, k, out);
    TopKUnique(out', MapIds(pos, out), q'.sc, Img(pos, fetched), k);
  }
}
