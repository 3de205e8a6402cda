/** The hybrid loop as a run over three node sets, and what it leaves behind when it stops. */
module HybridReference {
  import opened Nearest
  import opened Graph
  import opened Beam
  import opened BatchFetch

  /** What one hybrid search of a layer depends on besides the graph: exact and approximate scores, the width, the
      share of a queue of each length it wants fetched, and the batch size that caps it. */
  datatype HybridQuery = HybridQuery(sc: seq<real>, ap: seq<real>, ef: nat, want: nat -> nat, fetchBatchSize: nat)

  ghost predicate ForGraph(q: HybridQuery, g: Layer) {
    InRange(g) && |q.sc| == |q.ap| == |g| && q.ef >= 1
  }

  /** The three sets between two rounds: every expanded node was fetched, every fetched one discovered. */
  ghost predicate Nested(g: Layer, discovered: set<nat>, fetched: set<nat>, expanded: set<nat>) {
    expanded <= fetched <= discovered <= Range(|g|)
  }

  /** The fetched nodes after a fetch phase: the best of the queue by approximate score join them. */
  ghost function Promoted(q: HybridQuery, discovered: set<nat>, fetched: set<nat>): (r: set<nat>)
    requires Within(q.ap, discovered) && fetched <= discovered
    ensures fetched <= r <= discovered && (r == fetched ==> discovered == fetched)
  {
    var queue := discovered - fetched;
    fetched + Best(q.ap, Budget(q.want(|queue|), q.fetchBatchSize), queue)
  }

  /** The stopping test: the results are full and all score strictly better than `u`. */
  ghost predicate CannotImprove(sc: seq<real>, ef: nat, fetched: set<nat>, u: nat)
    requires Within(sc, fetched) && u < |sc|
  {
    var kept := Best(sc, ef, fetched);
    |kept| >= ef && kept != {} && sc[u] > sc[Worst(sc, kept)]
  }

  /** Reference run: fetch the most promising of the queue, expand the closest fetched node, until that cannot help.
      Yields the discovered, fetched and expanded nodes; the kept ones are the `ef` best of the fetched. */
  ghost function HybridRun(g: Layer, q: HybridQuery, discovered: set<nat>, fetched: set<nat>, expanded: set<nat>)
    : (r: (set<nat>, set<nat>, set<nat>))
    requires ForGraph(q, g) && Nested(g, discovered, fetched, expanded)
    ensures Nested(g, r.0, r.1, r.2) && discovered <= r.0
    decreases Range(|g|) - expanded
  {
    var now := Promoted(q, discovered, fetched);
    if now == expanded then (discovered, now, expanded)
    else
      var u := Closest(q.sc, now - expanded);
      if CannotImprove(q.sc, q.ef, now, u) then (discovered, now, expanded)
      else
        ExpandNested(g, discovered, now, expanded, u);
        HybridRun(g, q, discovered + Members(g[u]), now, expanded + {u})
  }

  /** The batches that run fetches, in order; a round with nothing queued fetches none. */
  ghost function HybridBatches(g: Layer, q: HybridQuery, discovered: set<nat>, fetched: set<nat>, expanded: set<nat>)
    : seq<set<nat>>
    requires ForGraph(q, g) && Nested(g, discovered, fetched, expanded)
    decreases Range(|g|) - expanded
  {
    var now := Promoted(q, discovered, fetched);
    var here := ReadsAfter([], fetched, now);
    if now == expanded then here
    else
      var u := Closest(q.sc, now - expanded);
      if CannotImprove(q.sc, q.ef, now, u) then here
      else
        ExpandNested(g, discovered, now, expanded, u);
        here + HybridBatches(g, q, discovered + Members(g[u]), now, expanded + {u})
  }

  lemma ExpandNested(g: Layer, discovered: set<nat>, fetched: set<nat>, expanded: set<nat>, u: nat)
    requires InRange(g) && Nested(g, discovered, fetched, expanded) && u in fetched
    ensures u < |g| && Nested(g, discovered + Members(g[u]), fetched, expanded + {u})
  {
  }

  // ---- one round of the loop follows the run ----

  /** A run is unchanged by one round that expands a node. */
  lemma RoundFollowsRun(g: Layer, q: HybridQuery, discovered: set<nat>, fetched: set<nat>, expanded: set<nat>,
                        now: set<nat>, u: nat)
    requires ForGraph(q, g) && Nested(g, discovered, fetched, expanded)
    requires now == Promoted(q, discovered, fetched) && now - expanded != {}
    requires u == Closest(q.sc, now - expanded) && !CannotImprove(q.sc, q.ef, now, u)
    ensures Nested(g, discovered + Members(g[u]), now, expanded + {u})
    ensures HybridRun(g, q, discovered, fetched, expanded) ==
              HybridRun(g, q, discovered + Members(g[u]), now, expanded + {u})
  {
    hide Promoted, CannotImprove, Members, InRange;
    ExpandNested(g, discovered, now, expanded, u);
  }

  /** A run ends at a stop. */
  lemma StopEndsHybridRun(g: Layer, q: HybridQuery, discovered: set<nat>, fetched: set<nat>, expanded: set<nat>,
                          now: set<nat>)
    requires ForGraph(q, g) && Nested(g, discovered, fetched, expanded)
    requires now == Promoted(q, discovered, fetched)
    requires now == expanded || CannotImprove(q.sc, q.ef, now, Closest(q.sc, now - expanded))
    ensures HybridRun(g, q, discovered, fetched, expanded) == (discovered, now, expanded)
  {
    hide Promoted, CannotImprove;
  }

  /** The three sets are where the run from `entry` ends. */
  ghost predicate Ends(g: Layer, q: HybridQuery, entry: nat, discovered: set<nat>, fetched: set<nat>, expanded: set<nat>) {
    ForGraph(q, g) && entry < |g| && (discovered, fetched, expanded) == HybridRun(g, q, {entry}, {}, {})
  }

  /** The run from `entry` passes through the three sets. */
  ghost predicate Passes(g: Layer, q: HybridQuery, entry: nat, discovered: set<nat>, fetched: set<nat>, expanded: set<nat>) {
    && ForGraph(q, g) && entry < |g| && Nested(g, discovered, fetched, expanded)
    && HybridRun(g, q, discovered, fetched, expanded) == HybridRun(g, q, {entry}, {}, {})
  }

  /** `now` adds to the fetched nodes the `budget` best of the queue. */
  ghost predicate FetchedBest(ap: seq<real>, budget: nat, queue: set<nat>, fetched: set<nat>, now: set<nat>) {
    Within(ap, queue) && now == fetched + Best(ap, budget, queue)
  }

  /** One expand phase: the closest unexpanded fetched node is expanded unless that cannot help. */
  ghost predicate ExpandedClosest(g: Layer, sc: seq<real>, ef: nat, discovered: set<nat>, fetched: set<nat>, expanded: set<nat>,
                                  go: bool, discovered': set<nat>, expanded': set<nat>)
  {
    && Within(sc, fetched) && fetched - expanded != {} && |sc| == |g|
    && var u := Closest(sc, fetched - expanded);
       && (go <==> !CannotImprove(sc, ef, fetched, u))
       && discovered' == (if go then discovered + Members(g[u]) else discovered)
       && expanded' == (if go then expanded + {u} else expanded)
  }

  /** A fetch phase followed by an expand phase is one round of the run. */
  lemma RoundPasses(g: Layer, q: HybridQuery, entry: nat, discovered: set<nat>, fetched: set<nat>, expanded: set<nat>,
                    now: set<nat>, go: bool, discovered': set<nat>, expanded': set<nat>)
    requires Passes(g, q, entry, discovered, fetched, expanded)
    requires Within(q.ap, discovered) && now == Promoted(q, discovered, fetched)
    requires ExpandedClosest(g, q.sc, q.ef, discovered, now, expanded, go, discovered', expanded')
    ensures go ==> Passes(g, q, entry, discovered', now, expanded')
    ensures !go ==> Ends(g, q, entry, discovered', now, expanded')
  {
    hide Promoted, CannotImprove, HybridRun, Members, InRange;
    if go {
      RoundFollowsRun(g, q, discovered, fetched, expanded, now, Closest(q.sc, now - expanded));
    } else {
      StopEndsHybridRun(g, q, discovered, fetched, expanded, now);
    }
  }

  /** The batches read so far followed by the batches to come are the batches of the run from `entry`. */
  ghost predicate ReadsPass(g: Layer, q: HybridQuery, entry: nat, discovered: set<nat>, fetched: set<nat>,
                            expanded: set<nat>, batches: seq<set<nat>>)
  {
    && ForGraph(q, g) && entry < |g| && Nested(g, discovered, fetched, expanded)
    && batches + HybridBatches(g, q, discovered, fetched, expanded) == HybridBatches(g, q, {entry}, {}, {})
  }

  /** The batches read are those of the whole run. */
  ghost predicate ReadsEnd(g: Layer, q: HybridQuery, entry: nat, batches: seq<set<nat>>) {
    ForGraph(q, g) && entry < |g| && batches == HybridBatches(g, q, {entry}, {}, {})
  }

  lemma BatchesStart(g: Layer, q: HybridQuery, entry: nat)
    requires ForGraph(q, g) && entry < |g|
    ensures ReadsPass(g, q, entry, {entry}, {}, {}, [])
  {
    hide HybridBatches;
    assert [] + HybridBatches(g, q, {entry}, {}, {}) == HybridBatches(g, q, {entry}, {}, {});
  }

  /** The batches read after a fetch phase. */
  ghost function ReadsAfter(batches: seq<set<nat>>, fetched: set<nat>, now: set<nat>): seq<set<nat>> {
    if now == fetched then batches else batches + [now - fetched]
  }

  lemma BatchesGoOn(g: Layer, q: HybridQuery, discovered: set<nat>, fetched: set<nat>, expanded: set<nat>, now: set<nat>, u: nat)
    requires ForGraph(q, g) && Nested(g, discovered, fetched, expanded)
    requires now == Promoted(q, discovered, fetched) && now - expanded != {}
    requires u == Closest(q.sc, now - expanded) && !CannotImprove(q.sc, q.ef, now, u)
    ensures u < |g| && Nested(g, discovered + Members(g[u]), now, expanded + {u})
    ensures HybridBatches(g, q, discovered, fetched, expanded) ==
              ReadsAfter([], fetched, now) + HybridBatches(g, q, discovered + Members(g[u]), now, expanded + {u})
  {
    hide Promoted, CannotImprove, Members, InRange, Nested, ForGraph, Within, Range, Closer, ReadsAfter;
    GraphSizes(q, g);
    PromotedNested(g, q, discovered, fetched, expanded);
    ExpandNested(g, discovered, now, expanded, u);
  }

  lemma GraphSizes(q: HybridQuery, g: Layer)
    requires ForGraph(q, g)
    ensures InRange(g) && |q.sc| == |q.ap| == |g| && q.ef >= 1
  {
  }

  lemma PromotedNested(g: Layer, q: HybridQuery, discovered: set<nat>, fetched: set<nat>, expanded: set<nat>)
    requires ForGraph(q, g) && Nested(g, discovered, fetched, expanded)
    ensures Within(q.ap, discovered) && fetched <= discovered
    ensures var now := Promoted(q, discovered, fetched);
            Nested(g, discovered, now, expanded) && Within(q.sc, now) && Within(q.sc, now - expanded) && expanded <= now
  {
  }

  lemma BatchesStop(g: Layer, q: HybridQuery, discovered: set<nat>, fetched: set<nat>, expanded: set<nat>, now: set<nat>)
    requires ForGraph(q, g) && Nested(g, discovered, fetched, expanded) && now == Promoted(q, discovered, fetched)
    requires now == expanded || CannotImprove(q.sc, q.ef, now, Closest(q.sc, now - expanded))
    ensures HybridBatches(g, q, discovered, fetched, expanded) == ReadsAfter([], fetched, now)
  {
    hide Promoted, CannotImprove, ReadsAfter;
  }

  lemma ReadsJoin(batches: seq<set<nat>>, fetched: set<nat>, now: set<nat>, rest: seq<set<nat>>)
    ensures batches + (ReadsAfter([], fetched, now) + rest) == ReadsAfter(batches, fetched, now) + rest
    ensures batches + ReadsAfter([], fetched, now) == ReadsAfter(batches, fetched, now)
  {
  }

  /** One round moves its batch from those to come to those read. */
  lemma RoundReads(g: Layer, q: HybridQuery, entry: nat, discovered: set<nat>, fetched: set<nat>, expanded: set<nat>,
                   now: set<nat>, go: bool, discovered': set<nat>, expanded': set<nat>, batches: seq<set<nat>>)
    requires ReadsPass(g, q, entry, discovered, fetched, expanded, batches)
    requires Within(q.ap, discovered) && now == Promoted(q, discovered, fetched)
    requires ExpandedClosest(g, q.sc, q.ef, discovered, now, expanded, go, discovered', expanded')
    ensures go ==> ReadsPass(g, q, entry, discovered', now, expanded', ReadsAfter(batches, fetched, now))
    ensures !go ==> ReadsEnd(g, q, entry, ReadsAfter(batches, fetched, now))
  {
    hide Promoted, CannotImprove, HybridBatches, Members, InRange, ReadsAfter;
    var u := Closest(q.sc, now - expanded);
    if go {
      BatchesGoOn(g, q, discovered, fetched, expanded, now, u);
      ReadsJoin(batches, fetched, now, HybridBatches(g, q, discovered', now, expanded'));
    } else {
      BatchesStop(g, q, discovered, fetched, expanded, now);
      ReadsJoin(batches, fetched, now, []);
    }
  }

  lemma ExhaustedReads(g: Layer, q: HybridQuery, entry: nat, discovered: set<nat>, expanded: set<nat>, batches: seq<set<nat>>)
    requires ReadsPass(g, q, entry, discovered, discovered, expanded, batches) && expanded == discovered
    ensures ReadsEnd(g, q, entry, batches)
  {
    BatchesStop(g, q, discovered, discovered, expanded, discovered);
  }

  // ---- a budget that covers the queue ----

  /** Every fetch phase of a layer of at most `size` nodes empties its queue. */
  ghost predicate Covers(want: nat -> nat, fetchBatchSize: nat, size: nat) {
    forall n: nat :: n < size ==> Budget(want(n), fetchBatchSize) >= n
  }

  lemma BestOfFew(sc: seq<real>, k: nat, nodes: set<nat>)
    requires Within(sc, nodes) && |nodes| <= k
    ensures Best(sc, k, nodes) == nodes
  {
  }

  /** The queue of a started search is smaller than the layer, unless it is the entry point alone. */
  lemma CoveredQueue(g: Layer, q: HybridQuery, discovered: set<nat>, fetched: set<nat>)
    requires ForGraph(q, g) && Covers(q.want, q.fetchBatchSize, |g|)
    requires fetched <= discovered <= Range(|g|) && (fetched == {} ==> |discovered| <= 1)
    ensures Promoted(q, discovered, fetched) == discovered
  {
    var queue := discovered - fetched;
    QueueSize(g, discovered, fetched);
    hide Best, Range;
    assert Budget(q.want(|queue|), q.fetchBatchSize) >= |queue|;
    BestOfFew(q.ap, Budget(q.want(|queue|), q.fetchBatchSize), queue);
  }

  lemma QueueSize(g: Layer, discovered: set<nat>, fetched: set<nat>)
    requires fetched <= discovered <= Range(|g|) && (fetched == {} ==> |discovered| <= 1)
    ensures |discovered - fetched| <= 1 || |discovered - fetched| < |g|
  {
    assert discovered == (discovered - fetched) + fetched;
    assert |discovered| == |discovered - fetched| + |fetched|;
    SubsetSize(discovered, Range(|g|));
  }

  /** With such a budget nothing discovered is left unfetched. */
  lemma {:induction false} CoveringFetchesAll(g: Layer, q: HybridQuery, discovered: set<nat>, fetched: set<nat>,
                                              expanded: set<nat>)
    requires ForGraph(q, g) && Covers(q.want, q.fetchBatchSize, |g|)
    requires Nested(g, discovered, fetched, expanded) && (fetched == {} ==> |discovered| <= 1)
    ensures var r := HybridRun(g, q, discovered, fetched, expanded); r.0 == r.1
    decreases Range(|g|) - expanded
  {
    hide Covers, Promoted, CannotImprove, Members, InRange;
    CoveredQueue(g, q, discovered, fetched);
    if discovered != expanded {
      var u := Closest(q.sc, discovered - expanded);
      if !CannotImprove(q.sc, q.ef, discovered, u) {
        RoundFollowsRun(g, q, discovered, fetched, expanded, discovered, u);
        CoveringFetchesAll(g, q, discovered + Members(g[u]), discovered, expanded + {u});
      }
    }
  }

  /** When a covering budget stops or goes on, so does the beam over exact scores. */
  lemma SameDecision(sc: seq<real>, ef: nat, discovered: set<nat>, expanded: set<nat>, u: nat)
    requires Within(sc, discovered) && expanded <= discovered && ef >= 1 && DistinctScores(sc)
    requires discovered - expanded != {} && u == Closest(sc, discovered - expanded)
    ensures CannotImprove(sc, ef, discovered, u) <==> Best(sc, ef, discovered) - expanded == {}
    ensures !CannotImprove(sc, ef, discovered, u) ==> u == Closest(sc, Best(sc, ef, discovered) - expanded)
  {
    var kept := Best(sc, ef, discovered);
    var todo := kept - expanded;
    if u in kept {
      assert u in todo;
      assert sc[u] <= sc[Worst(sc, kept)];
      assert todo <= discovered - expanded;
    } else {
      BeyondKept(sc, ef, discovered, expanded, u);
    }
  }

  /** If the closest unexpanded node is not kept, no unexpanded node is. */
  lemma BeyondKept(sc: seq<real>, ef: nat, discovered: set<nat>, expanded: set<nat>, u: nat)
    requires Within(sc, discovered) && expanded <= discovered && ef >= 1 && DistinctScores(sc)
    requires discovered - expanded != {} && u == Closest(sc, discovered - expanded)
    requires u !in Best(sc, ef, discovered)
    ensures CannotImprove(sc, ef, discovered, u) && Best(sc, ef, discovered) - expanded == {}
  {
    var kept := Best(sc, ef, discovered);
    SubsetSize(kept + {u}, discovered);
    assert kept != {};
    BestBeatsRest(sc, ef, discovered, kept, Worst(sc, kept), u);
    assert sc[Worst(sc, kept)] != sc[u];
    forall x | x in discovered - expanded ensures x !in kept {
      if x in kept {
        BestBeatsRest(sc, ef, discovered, kept, x, u);
      }
    }
  }

  /** The gate then changes nothing: the run discovers what the plain beam visits. */
  lemma {:induction false} CoveringRunIsBeam(g: Layer, q: HybridQuery, discovered: set<nat>, fetched: set<nat>,
                                             expanded: set<nat>)
    requires ForGraph(q, g) && DistinctScores(q.sc) && Covers(q.want, q.fetchBatchSize, |g|)
    requires Nested(g, discovered, fetched, expanded) && (fetched == {} ==> |discovered| <= 1)
    ensures HybridRun(g, q, discovered, fetched, expanded).0 == BeamRun(g, q.sc, q.ef, discovered, expanded)
    decreases Range(|g|) - expanded
  {
    hide Covers, Promoted, CannotImprove, Members, InRange, DistinctScores;
    CoveredQueue(g, q, discovered, fetched);
    if discovered != expanded {
      var u := Closest(q.sc, discovered - expanded);
      SameDecision(q.sc, q.ef, discovered, expanded, u);
      if !CannotImprove(q.sc, q.ef, discovered, u) {
        RoundFollowsRun(g, q, discovered, fetched, expanded, discovered, u);
        CoveringRunIsBeam(g, q, discovered + Members(g[u]), discovered, expanded + {u});
      }
    }
  }

  // ---- what a stop leaves behind ----

  /** When the run from `entry` stops, no discovered but unfetched node scores strictly better than a kept one. */
  ghost predicate NothingBetterLeft(g: Layer, q: HybridQuery, entry: nat)
    requires ForGraph(q, g) && entry < |g|
  {
    var r := HybridRun(g, q, {entry}, {}, {});
    forall x, b :: x in r.0 - r.1 && b in Best(q.sc, q.ef, r.1) ==> q.sc[b] <= q.sc[x]
  }

  /** That never happens on a layer of at most `size` nodes. */
  ghost predicate NeverLeavesBetter(want: nat -> nat, fetchBatchSize: nat, size: nat) {
    forall g: Layer, q: HybridQuery, entry: nat ::
      (ForGraph(q, g) && entry < |g| <= size && q.want == want && q.fetchBatchSize == fetchBatchSize)
      ==> NothingBetterLeft(g, q, entry)
  }

  /** A hub and `n` nodes around it, linked both ways. */
  function Star(n: nat): (g: Layer)
    ensures |g| == n + 1 && InRange(g)
  {
    seq(n + 1, u => if u == 0 then seq(n, i requires 0 <= i < n => (i + 1) as nat) else [0])
  }

  lemma StarRow(n: nat)
    ensures Members(Star(n)[0]) == Range(n + 1) - {0}
  {
    forall x | x in Range(n + 1) - {0} ensures x in Star(n)[0] {
      assert Star(n)[0][x - 1] == x;
    }
  }

  /** Scores on the star: the hub beats what the second round fetches, what that leaves behind beats the hub. */
  function StarScores(n: nat, batch: set<nat>): (sc: seq<real>)
    ensures |sc| == n + 1 && sc[0] == 1.0
    ensures forall i :: 0 < i <= n ==> sc[i] == if i in batch then 2.0 else 0.0
  {
    seq(n + 1, i requires 0 <= i <= n => if i == 0 then 1.0 else if i in batch then 2.0 else 0.0)
  }

  /** With a budget that leaves one of `n` queued nodes, a search of width 1 stops before a better node. */
  lemma SmallBudgetLeavesBetter(want: nat -> nat, fetchBatchSize: nat, n: nat) returns (q: HybridQuery)
    requires Budget(want(n), fetchBatchSize) < n
    ensures q.want == want && q.fetchBatchSize == fetchBatchSize && ForGraph(q, Star(n))
    ensures !NothingBetterLeft(Star(n), q, 0)
  {
    var ring, ap := Range(n + 1) - {0}, seq(n + 1, i => 0.0);
    RingSize(n);
    var budget := Budget(want(n), fetchBatchSize);
    var batch := Best(ap, budget, ring);
    q := HybridQuery(StarScores(n, batch), ap, 1, want, fetchBatchSize);
    RingPromoted(n, q, batch);
    StarRow(n);
    StarFirstRound(n, q);
    StarStops(n, q, batch);
    var x := LeftBehind(n, batch);
    hide Star, HybridRun, Promoted;
    assert q.sc[0] > q.sc[x];
  }

  lemma RingSize(n: nat)
    ensures |Range(n + 1) - {0}| == n && {0} + (Range(n + 1) - {0}) == Range(n + 1)
  {
    assert Range(n + 1) == (Range(n + 1) - {0}) + {0};
  }

  lemma RingPromoted(n: nat, q: HybridQuery, batch: set<nat>)
    requires |q.ap| == n + 1 && batch == Best(q.ap, Budget(q.want(n), q.fetchBatchSize), Range(n + 1) - {0})
    requires Budget(q.want(n), q.fetchBatchSize) < n
    ensures Promoted(q, Range(n + 1), {0}) == {0} + batch
    ensures batch <= Range(n + 1) - {0} && batch != {} && |batch| < n
  {
    RingSize(n);
  }

  lemma LeftBehind(n: nat, batch: set<nat>) returns (x: nat)
    requires batch <= Range(n + 1) - {0} && |batch| < n
    ensures 0 < x <= n && x !in batch && x in Range(n + 1) - ({0} + batch)
  {
    RingSize(n);
    var rest := Range(n + 1) - {0} - batch;
    assert rest != {};
    x :| x in rest;
  }

  /** The hub is fetched alone and expanded. */
  lemma StarFirstRound(n: nat, q: HybridQuery)
    requires ForGraph(q, Star(n))
    ensures Nested(Star(n), {0} + Members(Star(n)[0]), {0}, {0})
    ensures HybridRun(Star(n), q, {0}, {}, {}) == HybridRun(Star(n), q, {0} + Members(Star(n)[0]), {0}, {0})
  {
    var g := Star(n);
    assert {0} - {} == {0} && |{0}| == 1;
    BestOfFew(q.ap, Budget(q.want(1), q.fetchBatchSize), {0});
    assert Promoted(q, {0}, {}) == {0};
    var kept := Best(q.sc, q.ef, {0});
    assert kept != {} ==> Worst(q.sc, kept) == 0;
    RoundFollowsRun(g, q, {0}, {}, {}, {0}, 0);
  }

  /** In the second round nothing fetched beats the hub. */
  lemma StarStops(n: nat, q: HybridQuery, batch: set<nat>)
    requires ForGraph(q, Star(n)) && q.ef == 1 && q.sc == StarScores(n, batch)
    requires batch <= Range(n + 1) - {0} && batch != {} && Promoted(q, Range(n + 1), {0}) == {0} + batch
    ensures Best(q.sc, 1, {0} + batch) == {0}
    ensures HybridRun(Star(n), q, Range(n + 1), {0}, {0}) == (Range(n + 1), {0} + batch, {0})
  {
    var now := {0} + batch;
    HubIsBest(n, q.sc, batch);
    StarCannotImprove(n, q.sc, batch);
    assert now - {0} == batch && now != {0};
    hide *;
    StopEndsHybridRun(Star(n), q, Range(n + 1), {0}, {0}, now);
  }

  lemma StarCannotImprove(n: nat, sc: seq<real>, batch: set<nat>)
    requires sc == StarScores(n, batch) && batch <= Range(n + 1) - {0} && batch != {}
    ensures Nested(Star(n), Range(n + 1), {0} + batch, {0}) && Nested(Star(n), Range(n + 1), {0}, {0})
    ensures Within(sc, {0} + batch) && Within(sc, batch) && Best(sc, 1, {0} + batch) == {0}
    ensures CannotImprove(sc, 1, {0} + batch, Closest(sc, batch))
  {
    HubIsBest(n, sc, batch);
    assert |{0}| == 1 && Worst(sc, {0}) == 0;
    hide Best, Range, Star;
  }

  lemma HubIsBest(n: nat, sc: seq<real>, batch: set<nat>)
    requires sc == StarScores(n, batch) && batch <= Range(n + 1) - {0}
    ensures Best(sc, 1, {0} + batch) == {0}
  {
    var now := {0} + batch;
    SubsetSize({0}, now);
    assert |{0}| == 1;
    assert IsBest(sc, 1, now, {0});
    BestUnique(sc, 1, now, {0}, Best(sc, 1, now));
  }

  /** What remains queued ranks worse on every layer of at most `size` nodes exactly when every budget covers its
      queue. */
  lemma NothingBetterLeftIff(want: nat -> nat, fetchBatchSize: nat, size: nat)
    ensures NeverLeavesBetter(want, fetchBatchSize, size) <==> Covers(want, fetchBatchSize, size)
  {
    if Covers(want, fetchBatchSize, size) {
      forall g: Layer, q: HybridQuery, entry: nat |
          ForGraph(q, g) && entry < |g| <= size && q.want == want && q.fetchBatchSize == fetchBatchSize
        ensures NothingBetterLeft(g, q, entry)
      {
        CoveringFetchesAll(g, q, {entry}, {}, {});
      }
    } else {
      var n: nat :| n < size && Budget(want(n), fetchBatchSize) < n;
      var q := SmallBudgetLeavesBetter(want, fetchBatchSize, n);
      hide Star, NothingBetterLeft, ForGraph;
    }
  }
}
