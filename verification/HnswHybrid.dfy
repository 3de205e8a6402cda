/** Two-level search: approximate scores decide what is fetched, exact scores decide what is answered. */
module HnswHybrid {
  import opened Core
  import opened Ranking
  import opened Nearest
  import opened Graph
  import opened IdLists
  import opened Beam
  import opened Layout
  import opened Format
  import opened Schedule
  import opened Reader
  import opened HnswSearch
  import opened BatchFetch
  import opened HybridReference

  // ---- the three work structures ----

  /** Between two phases: `discovered` nodes have approximate scores, `fetched` ones exact scores, the
      approximate queue is exactly the difference, and the results are the best fetched nodes. */
  ghost predicate Hybrid(g: Layer, sc: seq<real>, entry: nat, ef: nat, discovered: set<nat>, fetched: set<nat>,
                         queue: set<nat>, frontier: set<nat>, expanded: set<nat>, results: set<nat>)
    requires |sc| == |g|
  {
    && discovered <= Reachable(g, {entry})
    && fetched <= discovered && queue == discovered - fetched
    && (entry in fetched || (fetched == {} && queue == {entry}))
    && frontier + expanded == fetched && frontier !! expanded
    && (forall u :: u in expanded ==> Members(g[u]) <= discovered)
    && IsBest(sc, ef, fetched, results)
  }

  /** What a finished hybrid search guarantees. */
  ghost predicate HybridCertified(g: Layer, sc: seq<real>, entry: nat, ef: nat, discovered: set<nat>,
                                  fetched: set<nat>, expanded: set<nat>, results: set<nat>)
    requires |sc| == |g|
  {
    && entry in fetched
    && expanded <= fetched <= discovered <= Reachable(g, {entry})
    && results <= expanded
    && (forall u :: u in expanded ==> Members(g[u]) <= discovered)
    && IsBest(sc, ef, fetched, results)
    && (|results| < ef ==> fetched == Reachable(g, {entry}))
  }

  lemma HybridStarts(g: Layer, sc: seq<real>, entry: nat, ef: nat)
    requires |sc| == |g| && entry < |g|
    ensures Hybrid(g, sc, entry, ef, {entry}, {}, {entry}, {}, {}, {})
  {
    ReachableContainsStart(g, {entry});
  }

  lemma FetchKeeps(g: Layer, sc: seq<real>, entry: nat, ef: nat, discovered: set<nat>, fetched: set<nat>,
                   queue: set<nat>, frontier: set<nat>, expanded: set<nat>, results: set<nat>,
                   batch: set<nat>, results': set<nat>)
    requires |sc| == |g|
    requires Hybrid(g, sc, entry, ef, discovered, fetched, queue, frontier, expanded, results)
    requires batch <= queue && batch != {}
    requires Within(sc, fetched + batch) && IsBest(sc, ef, fetched + batch, results')
    ensures Hybrid(g, sc, entry, ef, discovered, fetched + batch, queue - batch, frontier + batch, expanded, results')
    ensures entry in fetched + batch
  {
    hide IsBest, Reachable;
  }

  lemma ExpandKeeps(g: Layer, sc: seq<real>, entry: nat, ef: nat, discovered: set<nat>, fetched: set<nat>,
                    queue: set<nat>, frontier: set<nat>, expanded: set<nat>, results: set<nat>, u: nat)
    requires |sc| == |g| && InRange(g) && u in frontier
    requires Hybrid(g, sc, entry, ef, discovered, fetched, queue, frontier, expanded, results)
    ensures u < |g| && entry in fetched
    ensures Hybrid(g, sc, entry, ef, discovered + Members(g[u]), fetched, queue + (Members(g[u]) - discovered),
                   frontier - {u}, expanded + {u}, results)
  {
    forall w | w in Members(g[u]) ensures w in Reachable(g, {entry}) {
      ReachableStep(g, {entry}, u, w);
    }
    hide *;
    ExpandSets(g, sc, entry, ef, discovered, fetched, queue, frontier, expanded, results, u);
  }

  lemma ExpandSets(g: Layer, sc: seq<real>, entry: nat, ef: nat, discovered: set<nat>, fetched: set<nat>,
                   queue: set<nat>, frontier: set<nat>, expanded: set<nat>, results: set<nat>, u: nat)
    requires |sc| == |g| && u in frontier && u < |g|
    requires Hybrid(g, sc, entry, ef, discovered, fetched, queue, frontier, expanded, results)
    requires Members(g[u]) <= Reachable(g, {entry})
    ensures Hybrid(g, sc, entry, ef, discovered + Members(g[u]), fetched, queue + (Members(g[u]) - discovered),
                   frontier - {u}, expanded + {u}, results)
  {
    hide IsBest, Reachable, Within, Members;
  }

  /** Stop one: the closest unexpanded exact node is no better than a full result set. */
  lemma StopWhenFull(g: Layer, sc: seq<real>, entry: nat, ef: nat, discovered: set<nat>, fetched: set<nat>,
                     queue: set<nat>, frontier: set<nat>, expanded: set<nat>, results: set<nat>)
    requires |sc| == |g| && ef >= 1 && frontier != {} && |results| >= ef
    requires Hybrid(g, sc, entry, ef, discovered, fetched, queue, frontier, expanded, results)
    requires Within(sc, frontier) && Within(sc, results)
    requires results != {} ==> sc[Closest(sc, frontier)] > sc[Worst(sc, results)]
    ensures HybridCertified(g, sc, entry, ef, discovered, fetched, expanded, results)
  {
    forall r | r in results ensures r in expanded {
      FrontierBeyondKept(sc, frontier, results, r);
    }
  }

  /** Stop two: nothing queued and nothing to expand. */
  lemma StopWhenExhausted(g: Layer, sc: seq<real>, entry: nat, ef: nat, discovered: set<nat>, fetched: set<nat>,
                          expanded: set<nat>, results: set<nat>)
    requires |sc| == |g| && InRange(g)
    requires Hybrid(g, sc, entry, ef, discovered, fetched, {}, {}, expanded, results)
    ensures HybridCertified(g, sc, entry, ef, discovered, fetched, expanded, results)
  {
    assert fetched == discovered == expanded;
    ReachableIsLeast(g, {entry}, discovered);
  }

  lemma HybridSizes(g: Layer, sc: seq<real>, entry: nat, ef: nat, discovered: set<nat>, fetched: set<nat>,
                    queue: set<nat>, frontier: set<nat>, expanded: set<nat>, results: set<nat>)
    requires |sc| == |g|
    requires Hybrid(g, sc, entry, ef, discovered, fetched, queue, frontier, expanded, results)
    ensures |discovered| <= |g| && |fetched| <= |discovered|
    ensures Within(sc, discovered) && Within(sc, queue) && Within(sc, frontier) && Within(sc, fetched) && Within(sc, results)
    ensures results <= fetched && frontier <= fetched && queue !! fetched && |results| <= ef
    ensures queue == discovered - fetched
  {
    SubsetSize(discovered, Range(|g|));
    SubsetSize(fetched, discovered);
  }

  // ---- fetch phase ----

  lemma DropClosest(ap: seq<real>, budget: nat, queue: set<nat>, taken: set<nat>, rest: set<nat>)
    requires Within(ap, queue) && rest != {} && rest == queue - taken && taken <= queue && |taken| < budget
    requires Within(ap, rest) && IsBest(ap, |taken|, queue, taken)
    ensures var c := Closest(ap, rest);
            taken + {c} <= queue && rest - {c} == queue - (taken + {c}) && |taken + {c}| == |taken| + 1
            && IsBest(ap, |taken| + 1, queue, taken + {c})
  {
    var c := Closest(ap, rest);
    SubsetSize(taken + {c}, queue);
    forall b, x | b in taken + {c} && x in queue - (taken + {c}) ensures Closer(ap, b, x) {
      if b in taken {
        assert x in queue - taken;
      }
    }
  }

  /** Pop the `budget` most promising approximate candidates, skipping any already exact. */
  method PopBatch(ap: seq<real>, queue: set<nat>, budget: nat, exactKnown: array<bool>)
    returns (batch: seq<nat>, rest: set<nat>)
    requires Within(ap, queue) && exactKnown.Length == |ap|
    requires forall x :: x in queue ==> !exactKnown[x]
    ensures Distinct(batch) && |batch| == Min(budget, |queue|)
    ensures IsBest(ap, budget, queue, Members(batch)) && rest == queue - Members(batch)
  {
    batch, rest := [], queue;
    ghost var taken: set<nat> := {};
    while |batch| < budget && rest != {}
      invariant rest == queue - taken && taken <= queue && |taken| == |batch| <= budget
      invariant Distinct(batch) && Members(batch) == taken
      invariant IsBest(ap, |batch|, queue, taken)
      decreases rest
    {
      hide IsBest, Closer;
      var c := Closest(ap, rest);
      DropClosest(ap, budget, queue, taken, rest);
      rest := rest - {c};
      if exactKnown[c] {
        continue;
      }
      assert c !in Members(batch);
      MembersAppend(batch, c);
      batch := batch + [c];
      taken := taken + {c};
    }
    SubsetSize(taken, queue);
    if rest == {} {
      assert taken == queue;
    }
  }

  /** Push the fetched vectors on the exact frontier and the bounded result heap. */
  method VisitBatch(sc: seq<real>, ef: nat, order: seq<nat>, visits: seq<(nat, real)>, exactKnown: array<bool>,
                    frontier0: set<nat>, results0: set<nat>, ghost fetched0: set<nat>)
    returns (frontier: set<nat>, results: set<nat>)
    requires ScoredVisits(sc, order, visits) && exactKnown.Length == |sc|
    requires StrictlyAscending(order) && Members(order) !! fetched0
    requires Within(sc, fetched0) && IsBest(sc, ef, fetched0, results0) && Marks(exactKnown, fetched0)
    modifies exactKnown
    ensures Marks(exactKnown, fetched0 + Members(order))
    ensures frontier == frontier0 + Members(order)
    ensures Within(sc, fetched0 + Members(order)) && IsBest(sc, ef, fetched0 + Members(order), results)
  {
    hide IsBest, Closer, Within, Visiting, Members, StrictlyAscending;
    frontier, results := frontier0, results0;
    VisitingStarts(sc, ef, fetched0, frontier0, order, results0);
    for i := 0 to |visits|
      invariant Visiting(sc, ef, fetched0, frontier0, order, i, frontier, results)
      invariant Marks(exactKnown, Seen(fetched0, order, i))
    {
      var node := visits[i].0;
      VisitNext(sc, ef, fetched0, frontier0, order, i, frontier, results);
      exactKnown[node] := true;
      frontier := frontier + {node};
      results := results + {node};
      if |results| > ef {
        results := results - {Worst(sc, results)};
      }
    }
    VisitingEnds(sc, ef, fetched0, frontier0, order, frontier, results);
  }

  /** After the first `i` visits: the frontier grew by them and the heap holds the best fetched nodes. */
  ghost predicate Visiting(sc: seq<real>, ef: nat, fetched: set<nat>, frontier0: set<nat>, order: seq<nat>, i: nat,
                           frontier: set<nat>, results: set<nat>)
    requires i <= |order|
  {
    && Within(sc, Seen(fetched, order, i)) && IsBest(sc, ef, Seen(fetched, order, i), results)
    && frontier == Seen(frontier0, order, i)
  }

  lemma VisitingStarts(sc: seq<real>, ef: nat, fetched: set<nat>, frontier: set<nat>, order: seq<nat>, results: set<nat>)
    requires Within(sc, fetched) && IsBest(sc, ef, fetched, results)
    ensures Visiting(sc, ef, fetched, frontier, order, 0, frontier, results)
  {
  }

  lemma VisitNext(sc: seq<real>, ef: nat, fetched: set<nat>, frontier0: set<nat>, order: seq<nat>, i: nat,
                  frontier: set<nat>, results: set<nat>)
    requires i < |order| && order[i] < |sc| && StrictlyAscending(order) && Members(order) !! fetched
    requires Visiting(sc, ef, fetched, frontier0, order, i, frontier, results)
    ensures Within(sc, results + {order[i]})
    ensures var now := results + {order[i]};
            Visiting(sc, ef, fetched, frontier0, order, i + 1, frontier + {order[i]},
                     if |now| > ef then now - {Worst(sc, now)} else now)
  {
    NotYetSeen(fetched, order, i);
    PushPopResults(sc, ef, Seen(fetched, order, i), results, order[i]);
    hide IsBest, Within;
  }

  lemma VisitingEnds(sc: seq<real>, ef: nat, fetched: set<nat>, frontier0: set<nat>, order: seq<nat>,
                     frontier: set<nat>, results: set<nat>)
    requires Visiting(sc, ef, fetched, frontier0, order, |order|, frontier, results)
    ensures Seen(fetched, order, |order|) == fetched + Members(order)
    ensures frontier == frontier0 + Members(order)
    ensures Within(sc, fetched + Members(order)) && IsBest(sc, ef, fetched + Members(order), results)
  {
    SeenIsMembers(fetched, order, |order|);
    SeenIsMembers(frontier0, order, |order|);
    hide *;
  }

  lemma {:induction false} NotYetSeen(fetched: set<nat>, order: seq<nat>, i: nat)
    requires i < |order| && StrictlyAscending(order) && Members(order) !! fetched
    ensures order[i] !in Seen(fetched, order, i)
  {
    SeenIsMembers(fetched, order, i);
    assert order[i] in Members(order);
  }

  lemma PushPopResults(sc: seq<real>, ef: nat, fetched: set<nat>, results: set<nat>, x: nat)
    requires x < |sc| && Within(sc, fetched) && IsBest(sc, ef, fetched, results) && x !in fetched
    ensures Within(sc, results + {x}) && Within(sc, fetched + {x})
    ensures var now := results + {x};
            IsBest(sc, ef, fetched + {x}, if |now| > ef then now - {Worst(sc, now)} else now)
  {
    PushPopKeepsBest(sc, ef, fetched, results, x);
    assert x !in results;
    AddAbsent(results, x);
  }

  // ---- expand phase ----

  /** Give the undiscovered neighbours of an expanded node their approximate scores. */
  method Discover(g: Layer, u: nat, discovered: array<bool>, queue0: set<nat>, ghost discovered0: set<nat>)
    returns (queue: set<nat>, scored: nat)
    requires u < |g| == discovered.Length && Listed(|g|, g[u]) && Marks(discovered, discovered0)
    modifies discovered
    ensures Marks(discovered, discovered0 + Members(g[u]))
    ensures queue == queue0 + (Members(g[u]) - discovered0)
    ensures |discovered0| + scored == |discovered0 + Members(g[u])|
  {
    hide Members, Seen;
    queue, scored := queue0, 0;
    assert Seen(discovered0, g[u], 0) == discovered0 && queue0 == queue0 + (discovered0 - discovered0) by {
      DiscoverStarts(discovered0, queue0, g[u]);
    }
    for i := 0 to |g[u]|
      invariant Marks(discovered, Seen(discovered0, g[u], i))
      invariant queue == queue0 + (Seen(discovered0, g[u], i) - discovered0)
      invariant discovered0 <= Seen(discovered0, g[u], i)
      invariant |discovered0| + scored == |Seen(discovered0, g[u], i)|
    {
      var nbr := g[u][i];
      DiscoverNext(discovered0, queue0, g[u], i);
      if !discovered[nbr] {
        discovered[nbr] := true;
        scored := scored + 1;
        queue := queue + {nbr};
      }
    }
    SeenIsMembers(discovered0, g[u], |g[u]|);
    assert discovered0 + Members(g[u]) - discovered0 == Members(g[u]) - discovered0;
  }

  lemma DiscoverStarts(discovered: set<nat>, queue: set<nat>, s: seq<nat>)
    ensures Seen(discovered, s, 0) == discovered && queue == queue + (discovered - discovered)
  {
  }

  /** What meeting one more neighbour does to the seen set and to the queue of new ones. */
  lemma DiscoverNext(discovered: set<nat>, queue: set<nat>, s: seq<nat>, i: nat)
    requires i < |s| && discovered <= Seen(discovered, s, i)
    ensures var before, after := Seen(discovered, s, i), Seen(discovered, s, i + 1);
            && discovered <= after && after == before + {s[i]}
            && (s[i] in before ==> after == before)
            && (s[i] !in before ==> |after| == |before| + 1)
            && (s[i] !in before ==>
                  queue + (after - discovered) == queue + (before - discovered) + {s[i]})
  {
    var before := Seen(discovered, s, i);
    if s[i] in before {
      AddPresent(before, s[i]);
    } else {
      AddAbsent(before, s[i]);
    }
  }

  // ---- the interleaved loop ----

  /** Physical work so far: `base` approximate scores before this layer, one per discovered node on it;
      one visit and one exact distance per fetched node; the seeks and bytes of the batches, at most one seek and at
      least one slot per fetched node. */
  ghost predicate Spent(base: nat, c: QueryCounters, discovered: set<nat>, fetched: set<nat>, layout: BlockLayout,
                        batches: seq<set<nat>>)
  {
    && c.approxDistances == base + |discovered|
    && c.nodesVisited == c.exactDistances == |fetched|
    && c.seeks == c.sequentialRuns <= |fetched|
    && c.bytesRead >= |fetched| * layout.vectorBytes
    && Paid(layout, batches, c.seeks, c.bytesRead)
  }

  /** Counters after one fetched batch: a visit and an exact distance each, one coalesced read for all. */
  function ChargeBatch(c: QueryCounters, n: nat, plan: FetchSchedule): QueryCounters
    requires plan.spanBytes >= 0
  {
    c.(nodesVisited := c.nodesVisited + n, exactDistances := c.exactDistances + n)
      .AddRead(plan.spanBytes, plan.seeks, plan.runs)
  }

  lemma ChargeKeepsSpent(base: nat, c: QueryCounters, discovered: set<nat>, fetched: set<nat>, batch: set<nat>,
                         layout: BlockLayout, plan: FetchSchedule, batches: seq<set<nat>>)
    requires Spent(base, c, discovered, fetched, layout, batches) && batch !! fetched
    requires plan.seeks == plan.runs <= |batch| && plan.spanBytes >= |batch| * layout.vectorBytes
    requires Members(plan.order) == batch && PaidFor(layout, plan.order, plan.seeks, plan.spanBytes)
    ensures plan.spanBytes >= 0
    ensures Spent(base, ChargeBatch(c, |batch|, plan), discovered, fetched + batch, layout, batches + [batch])
  {
    hide *;
    SpentParts(base, c, discovered, fetched, layout, batches);
    assert |fetched + batch| == |fetched| + |batch|;
    PayNext(layout, batches, c.seeks, c.bytesRead, plan.order, plan.seeks, plan.spanBytes);
    SumsCover(c.bytesRead, plan.spanBytes, |fetched|, |batch|, layout.vectorBytes);
    ChargeFields(c, |batch|, plan);
    SpentIs(base, ChargeBatch(c, |batch|, plan), discovered, fetched + batch, layout, batches + [batch]);
  }

  lemma SpentParts(base: nat, c: QueryCounters, discovered: set<nat>, fetched: set<nat>, layout: BlockLayout,
                   batches: seq<set<nat>>)
    requires Spent(base, c, discovered, fetched, layout, batches)
    ensures c.approxDistances == base + |discovered| && c.nodesVisited == c.exactDistances == |fetched|
    ensures c.seeks == c.sequentialRuns <= |fetched| && c.bytesRead >= |fetched| * layout.vectorBytes
    ensures Paid(layout, batches, c.seeks, c.bytesRead)
  {
    hide Paid;
  }

  lemma SpentIs(base: nat, c: QueryCounters, discovered: set<nat>, fetched: set<nat>, layout: BlockLayout,
                batches: seq<set<nat>>)
    requires c.approxDistances == base + |discovered| && c.nodesVisited == c.exactDistances == |fetched|
    requires c.seeks == c.sequentialRuns <= |fetched| && c.bytesRead >= |fetched| * layout.vectorBytes
    requires Paid(layout, batches, c.seeks, c.bytesRead)
    ensures Spent(base, c, discovered, fetched, layout, batches)
  {
    hide Paid;
  }

  lemma ChargeFields(c: QueryCounters, n: nat, plan: FetchSchedule)
    requires plan.spanBytes >= 0
    ensures var after := ChargeBatch(c, n, plan);
            && after.approxDistances == c.approxDistances && after.nodesVisited == c.nodesVisited + n
            && after.exactDistances == c.exactDistances + n && after.seeks == c.seeks + plan.seeks
            && after.sequentialRuns == c.sequentialRuns + plan.runs && after.bytesRead == c.bytesRead + plan.spanBytes
  {
  }

  lemma SumsCover(a: int, b: int, m: nat, n: nat, size: nat)
    requires a >= m * size && b >= n * size
    ensures b >= 0 && a + b >= (m + n) * size
  {
    assert (m + n) * size == m * size + n * size;
  }

  /** Promote the best of the approximate queue to exact. */
  method FetchPhase(g: Layer, store: VectorStore, sc: seq<real>, distance: seq<byte> -> real, ap: seq<real>,
                    ghost entry: nat, ef: nat, budget: nat, preadv: nat -> nat -> int, exactKnown: array<bool>,
                    queue0: set<nat>, frontier0: set<nat>, results0: set<nat>, counters0: QueryCounters,
                    ghost base: nat, ghost discovered: set<nat>, ghost fetched0: set<nat>, ghost expanded: set<nat>,
                    ghost batches: seq<set<nat>>)
    returns (r: Result<nat>, queue: set<nat>, frontier: set<nat>, results: set<nat>, counters: QueryCounters,
             ghost fetched: set<nat>)
    requires store.Valid() && sc == ScoresOf(store, distance) && |g| == |sc| == |ap| == exactKnown.Length
    requires queue0 != {} && budget >= 1 && Marks(exactKnown, fetched0)
    requires Hybrid(g, sc, entry, ef, discovered, fetched0, queue0, frontier0, expanded, results0)
    requires Spent(base, counters0, discovered, fetched0, store.layout, batches)
    modifies exactKnown
    ensures r.Ok? ==>
              && Hybrid(g, sc, entry, ef, discovered, fetched, queue, frontier, expanded, results)
              && entry in fetched && Marks(exactKnown, fetched)
              && Spent(base, counters, discovered, fetched, store.layout, ReadsAfter(batches, fetched0, fetched))
              && r.value >= 1 && |queue| + r.value == |queue0| && |frontier| == |frontier0| + r.value
              && FetchedBest(ap, budget, queue0, fetched0, fetched)
    ensures BatchProgress(preadv) ==> r.Ok?
  {
    hide VectorStore.Valid, Hybrid, Spent, IsBest, ScoredVisits, Within, Distinct, StrictlyAscending, ChargeBatch, Reachable;
    queue, frontier, results, counters, fetched := queue0, frontier0, results0, counters0, fetched0;
    HybridSizes(g, sc, entry, ef, discovered, fetched0, queue0, frontier0, expanded, results0);
    HybridBest(g, sc, entry, ef, discovered, fetched0, queue0, frontier0, expanded, results0);
    QueueWithin(ap, sc, queue0);
    var batch;
    batch, queue := PopBatch(ap, queue0, budget, exactKnown);
    BatchFacts(ap, budget, queue0, batch);
    BestUnique(ap, budget, queue0, Members(batch), Best(ap, budget, queue0));
    var got, plan := FetchBatch(store, sc, distance, batch, preadv);
    if got.Err? {
      return Err(got.error), queue, frontier, results, counters, fetched;
    }
    frontier, results := VisitBatch(sc, ef, plan.order, got.value, exactKnown, frontier0, results0, fetched0);
    ChargeKeepsSpent(base, counters0, discovered, fetched0, Members(batch), store.layout, plan, batches);
    counters := ChargeBatch(counters0, |batch|, plan);
    FetchKeeps(g, sc, entry, ef, discovered, fetched0, queue0, frontier0, expanded, results0, Members(batch), results);
    fetched := fetched0 + Members(batch);
    NewlyFetched(fetched0, Members(batch));
    assert |queue0| == |queue0 - Members(batch)| + |Members(batch)|;
    assert |frontier0 + Members(batch)| == |frontier0| + |Members(batch)|;
    r := Ok(|batch|);
  }

  lemma QueueWithin(ap: seq<real>, sc: seq<real>, queue: set<nat>)
    requires |ap| == |sc| && Within(sc, queue)
    ensures Within(ap, queue) && forall x :: x in queue ==> x < |ap|
  {
  }

  lemma HybridBest(g: Layer, sc: seq<real>, entry: nat, ef: nat, discovered: set<nat>, fetched: set<nat>,
                   queue: set<nat>, frontier: set<nat>, expanded: set<nat>, results: set<nat>)
    requires |sc| == |g|
    requires Hybrid(g, sc, entry, ef, discovered, fetched, queue, frontier, expanded, results)
    ensures Within(sc, fetched) && IsBest(sc, ef, fetched, results)
    ensures frontier !! queue && frontier <= fetched
  {
  }

  lemma BatchFacts(ap: seq<real>, budget: nat, queue: set<nat>, batch: seq<nat>)
    requires Within(ap, queue) && budget >= 1 && queue != {} && Distinct(batch) && |batch| == Min(budget, |queue|)
    requires IsBest(ap, budget, queue, Members(batch))
    ensures Members(batch) <= queue && Members(batch) != {} && |batch| == |Members(batch)| >= 1 && Listed(|ap|, batch)
  {
    MembersSize(batch);
    forall j | 0 <= j < |batch| ensures batch[j] < |ap| {
      assert batch[j] in Members(batch);
    }
  }

  /** One expansion keeps the three structures and pays one approximate score per discovered node. */
  lemma ExpandSpent(base: nat, c: QueryCounters, discovered: set<nat>, fetched: set<nat>, layout: BlockLayout,
                    batches: seq<set<nat>>, more: set<nat>, scored: nat)
    requires Spent(base, c, discovered, fetched, layout, batches) && |discovered| + scored == |discovered + more|
    ensures Spent(base, c.AddApprox(scored), discovered + more, fetched, layout, batches)
  {
    hide Paid;
  }

  lemma NewlyFetched(fetched: set<nat>, batch: set<nat>)
    requires batch !! fetched && batch != {}
    ensures fetched + batch != fetched && fetched + batch - fetched == batch
  {
    assert fetched + batch - fetched == batch;
  }

  lemma DiscoverSizes(discovered: set<nat>, queue: set<nat>, more: set<nat>, scored: nat)
    requires queue <= discovered && |discovered| + scored == |discovered + more|
    ensures |queue + (more - discovered)| == |queue| + scored
  {
    assert discovered + more == discovered + (more - discovered);
    assert |discovered + (more - discovered)| == |discovered| + |more - discovered|;
    assert |queue + (more - discovered)| == |queue| + |more - discovered|;
  }

  /** Expand the closest exact node unless the full result set already rules it out. */
  method ExpandPhase(g: Layer, sc: seq<real>, ghost entry: nat, ef: nat, seen: array<bool>,
                     queue0: set<nat>, frontier0: set<nat>, results: set<nat>, counters0: QueryCounters,
                     ghost base: nat, ghost discovered0: set<nat>, ghost fetched: set<nat>, ghost expanded0: set<nat>,
                     ghost layout: BlockLayout, ghost batches: seq<set<nat>>)
    returns (go: bool, queue: set<nat>, frontier: set<nat>, counters: QueryCounters,
             ghost discovered: set<nat>, ghost expanded: set<nat>)
    requires InRange(g) && |g| == |sc| == seen.Length && frontier0 != {} && ef >= 1
    requires Hybrid(g, sc, entry, ef, discovered0, fetched, queue0, frontier0, expanded0, results)
    requires Marks(seen, discovered0) && Spent(base, counters0, discovered0, fetched, layout, batches)
    modifies seen
    ensures !go ==> discovered == discovered0 && expanded == expanded0 && counters == counters0
    ensures !go ==> HybridCertified(g, sc, entry, ef, discovered, fetched, expanded, results)
    ensures ExpandedClosest(g, sc, ef, discovered0, fetched, expanded0, go, discovered, expanded)
    ensures go ==>
              && Hybrid(g, sc, entry, ef, discovered, fetched, queue, frontier, expanded, results)
              && Marks(seen, discovered) && Spent(base, counters, discovered, fetched, layout, batches)
              && |frontier| + 1 == |frontier0|
              && |queue| - |queue0| == |discovered| - |discovered0| >= 0
  {
    hide Hybrid, HybridCertified, Spent, Within, Reachable, InRange, ExpandedClosest;
    queue, frontier, counters, discovered, expanded := queue0, frontier0, counters0, discovered0, expanded0;
    HybridSizes(g, sc, entry, ef, discovered0, fetched, queue0, frontier0, expanded0, results);
    var best := Closest(sc, frontier0);
    frontier := frontier0 - {best};
    go := |results| < ef || results == {} || sc[best] <= sc[Worst(sc, results)];
    DecisionIs(g, sc, entry, ef, discovered0, fetched, queue0, frontier0, expanded0, results, go);
    if !go {
      StopWhenFull(g, sc, entry, ef, discovered0, fetched, queue0, frontier0, expanded0, results);
      return;
    }
    ExpandKeeps(g, sc, entry, ef, discovered0, fetched, queue0, frontier0, expanded0, results, best);
    RowListed(g, best);
    var scored;
    queue, scored := Discover(g, best, seen, queue0, discovered0);
    QueueDiscovered(g, sc, entry, ef, discovered0, fetched, queue0, frontier0, expanded0, results);
    DiscoverSizes(discovered0, queue0, Members(g[best]), scored);
    ExpandSpent(base, counters0, discovered0, fetched, layout, batches, Members(g[best]), scored);
    counters := counters0.AddApprox(scored);
    discovered, expanded := discovered0 + Members(g[best]), expanded0 + {best};
  }

  /** The frontier is the unexpanded part of the fetched nodes, the results are its `ef` best. */
  lemma DecisionIs(g: Layer, sc: seq<real>, entry: nat, ef: nat, discovered: set<nat>, fetched: set<nat>,
                   queue: set<nat>, frontier: set<nat>, expanded: set<nat>, results: set<nat>, go: bool)
    requires |sc| == |g| && Hybrid(g, sc, entry, ef, discovered, fetched, queue, frontier, expanded, results)
    requires frontier != {} && Within(sc, frontier) && Within(sc, results)
    requires go <==> |results| < ef || results == {} || sc[Closest(sc, frontier)] <= sc[Worst(sc, results)]
    ensures var u := Closest(sc, frontier);
            u < |g| && ExpandedClosest(g, sc, ef, discovered, fetched, expanded, go,
                                       if go then discovered + Members(g[u]) else discovered,
                                       if go then expanded + {u} else expanded)
  {
    assert fetched - expanded == frontier;
    BestUnique(sc, ef, fetched, results, Best(sc, ef, fetched));
  }

  lemma QueueDiscovered(g: Layer, sc: seq<real>, entry: nat, ef: nat, discovered: set<nat>, fetched: set<nat>,
                        queue: set<nat>, frontier: set<nat>, expanded: set<nat>, results: set<nat>)
    requires |sc| == |g|
    requires Hybrid(g, sc, entry, ef, discovered, fetched, queue, frontier, expanded, results)
    ensures queue <= discovered
  {
  }

  /** Every batch of the search makes progress. */
  ghost predicate ReadsProgress(preadv: nat -> nat -> nat -> int) {
    forall round: nat :: BatchProgress(preadv(round))
  }

  /** `search_layer_hybrid`. It ends for any approximate scores, rerank fraction and batch size. */
  method SearchLayer(g: Layer, store: VectorStore, sc: seq<real>, distance: seq<byte> -> real, ap: seq<real>,
                     entry: nat, ef: nat, fetchBatchSize: nat, want: nat -> nat,
                     preadv: nat -> nat -> nat -> int, counters0: QueryCounters)
    returns (r: Result<set<nat>>, counters: QueryCounters,
             ghost discovered: set<nat>, ghost fetched: set<nat>, ghost expanded: set<nat>)
    requires store.Valid() && sc == ScoresOf(store, distance) && InRange(g) && |g| == |sc| == |ap|
    requires entry < |g| && ef >= 1
    requires counters0 == ZERO_COUNTERS.(approxDistances := counters0.approxDistances)
    ensures r.Ok? ==> HybridCertified(g, sc, entry, ef, discovered, fetched, expanded, r.value)
    ensures r.Ok? ==> Ends(g, HybridQuery(sc, ap, ef, want, fetchBatchSize), entry, discovered, fetched, expanded)
    ensures r.Ok? ==>
              Spent(counters0.approxDistances, counters, discovered, fetched, store.layout,
                    HybridBatches(g, HybridQuery(sc, ap, ef, want, fetchBatchSize), {entry}, {}, {}))
    ensures ReadsProgress(preadv) ==> r.Ok?
  {
    hide VectorStore.Valid, Hybrid, HybridCertified, Spent, InRange, Marks, Passes, Ends, FetchedBest, ExpandedClosest;
    hide Within, Reachable, BatchProgress, ScoresOf, IsBest, Listed, Members, Promoted, HybridRun;
    ghost var q := HybridQuery(sc, ap, ef, want, fetchBatchSize);
    ghost var base := counters0.approxDistances;
    var seen, exactKnown := new bool[|g|](_ => false), new bool[|g|](_ => false);
    seen[entry] := true;
    counters := counters0.AddApprox(1);
    var queue: set<nat>, frontier: set<nat>, results: set<nat> := {entry}, {}, {};
    discovered, fetched, expanded := {entry}, {}, {};
    HybridStarts(g, sc, entry, ef);
    PassesStart(g, q, entry);
    SpentStarts(counters0, entry, store.layout);
    ghost var batches := [];
    BatchesStart(g, q, entry);
    MarksStart(seen, exactKnown, entry);
    var round := 0;
    while true
      invariant Marks(seen, discovered) && Marks(exactKnown, fetched)
      invariant Hybrid(g, sc, entry, ef, discovered, fetched, queue, frontier, expanded, results)
      invariant Spent(base, counters, discovered, fetched, store.layout, batches)
      invariant ReadsPass(g, q, entry, discovered, fetched, expanded, batches)
      invariant Passes(g, q, entry, discovered, fetched, expanded)
      invariant fresh(seen) && fresh(exactKnown) && seen != exactKnown
      decreases 3 * (|g| - |discovered|) + 2 * |queue| + |frontier|
    {
      HybridSizes(g, sc, entry, ef, discovered, fetched, queue, frontier, expanded, results);
      ghost var discoveredBefore, fetchedBefore, expandedBefore, queued := discovered, fetched, expanded, queue;
      var fetchedThisRound := 0;
      if queue != {} {
        var budget := Budget(want(|queue|), fetchBatchSize);
        var status;
        status, queue, frontier, results, counters, fetched :=
          FetchPhase(g, store, sc, distance, ap, entry, ef, budget, preadv(round), exactKnown,
                     queue, frontier, results, counters, base, discovered, fetched, expanded, batches);
        if status.Err? {
          return Err(status.error), counters, discovered, fetched, expanded;
        }
        fetchedThisRound := status.value;
      }
      RoundPromotes(g, q, entry, discoveredBefore, fetchedBefore, queued, expandedBefore, fetched);
      ghost var batchesBefore := batches;
      batches := ReadsAfter(batches, fetchedBefore, fetched);
      round := round + 1;
      var expandedThisRound := false;
      if frontier != {} {
        expandedThisRound, queue, frontier, counters, discovered, expanded :=
          ExpandPhase(g, sc, entry, ef, seen, queue, frontier, results, counters,
                      base, discovered, fetched, expanded, store.layout, batches);
        RoundPasses(g, q, entry, discoveredBefore, fetchedBefore, expandedBefore, fetched, expandedThisRound, discovered, expanded);
        RoundReads(g, q, entry, discoveredBefore, fetchedBefore, expandedBefore, fetched, expandedThisRound, discovered, expanded,
                   batchesBefore);
        if !expandedThisRound {
          break;
        }
        HybridSizes(g, sc, entry, ef, discovered, fetched, queue, frontier, expanded, results);
      }
      if fetchedThisRound == 0 && !expandedThisRound {
        StopWhenExhausted(g, sc, entry, ef, discovered, fetched, expanded, results);
        ExhaustedEnds(g, q, entry, discovered, fetched, expanded, results);
        ExhaustedBatches(g, q, entry, discovered, fetched, expanded, results, batches);
        break;
      }
    }
    r := Ok(results);
  }

  lemma PassesStart(g: Layer, q: HybridQuery, entry: nat)
    requires ForGraph(q, g) && entry < |g|
    ensures Passes(g, q, entry, {entry}, {}, {})
  {
    hide HybridRun;
  }

  /** After a fetch phase, or with nothing queued, the fetched nodes are the promoted ones. */
  lemma RoundPromotes(g: Layer, q: HybridQuery, entry: nat, discovered: set<nat>, before: set<nat>, queued: set<nat>,
                      expanded: set<nat>, fetched: set<nat>)
    requires Passes(g, q, entry, discovered, before, expanded) && queued == discovered - before
    requires if queued == {} then fetched == before
             else FetchedBest(q.ap, Budget(q.want(|queued|), q.fetchBatchSize), queued, before, fetched)
    ensures Within(q.ap, discovered) && fetched == Promoted(q, discovered, before)
  {
    hide HybridRun, InRange;
  }

  lemma ExhaustedEnds(g: Layer, q: HybridQuery, entry: nat, discovered: set<nat>, fetched: set<nat>, expanded: set<nat>,
                      results: set<nat>)
    requires Passes(g, q, entry, discovered, fetched, expanded) && |q.sc| == |g|
    requires Hybrid(g, q.sc, entry, q.ef, discovered, fetched, {}, {}, expanded, results)
    ensures Ends(g, q, entry, discovered, fetched, expanded)
  {
    assert fetched == discovered == expanded;
    hide Hybrid;
    StopEndsHybridRun(g, q, discovered, fetched, expanded, fetched);
  }

  lemma ExhaustedBatches(g: Layer, q: HybridQuery, entry: nat, discovered: set<nat>, fetched: set<nat>, expanded: set<nat>,
                         results: set<nat>, batches: seq<set<nat>>)
    requires ReadsPass(g, q, entry, discovered, fetched, expanded, batches) && |q.sc| == |g|
    requires Hybrid(g, q.sc, entry, q.ef, discovered, fetched, {}, {}, expanded, results)
    ensures ReadsEnd(g, q, entry, batches)
  {
    assert fetched == discovered == expanded;
    hide Hybrid;
    ExhaustedReads(g, q, entry, discovered, expanded, batches);
  }

  lemma SpentStarts(counters: QueryCounters, entry: nat, layout: BlockLayout)
    requires counters == ZERO_COUNTERS.(approxDistances := counters.approxDistances)
    ensures Spent(counters.approxDistances, counters.AddApprox(1), {entry}, {}, layout, [])
  {
    assert |{entry}| == 1;
  }

  lemma MarksStart(seen: array<bool>, exactKnown: array<bool>, entry: nat)
    requires entry < seen.Length == exactKnown.Length
    requires forall i: nat :: i < seen.Length ==> seen[i] == (i == entry) && !exactKnown[i]
    ensures Marks(seen, {entry}) && Marks(exactKnown, {})
  {
  }

  // ---- the whole query ----

  /** The work of a hybrid query never exceeds its approximate scoring: seeks <= exact <= approximate. */
  ghost predicate Frugal(c: QueryCounters, climbed: nat, discovered: set<nat>, fetched: set<nat>) {
    && c.seeks == c.sequentialRuns
    && c.seeks <= c.exactDistances <= c.approxDistances
    && c.exactDistances == c.nodesVisited == |fetched|
    && c.approxDistances == 1 + climbed + |discovered|
  }

  /** `out` and `counters` are what the reference query answers when approximate scores are distinct. */
  ghost predicate HybridAnswers(t: Topology, q: HybridQuery, k: nat, out: seq<Neighbor>, counters: QueryCounters) {
    && WellFormed(t) && t.entryPoint.Some? && |q.sc| == |q.ap| == t.len && q.ef >= 1
    && var down := DescendRun(t, q.ap, t.maxLayer, t.entryPoint.value);
       var run := HybridRun(t.adjacency[0], q, {down.0}, {}, {});
       && IsTopK(out, q.sc, run.1, k)
       && counters.approxDistances == 1 + down.1 + |run.0|
       && counters.exactDistances == counters.nodesVisited == |run.1|
  }

  /** `search_hybrid`: descend the upper layers on approximate scores alone, then the interleaved loop.
      `ap` holds the table distances of the codes when the index carries a codebook. */
  method SearchHybrid(t: Topology, dims: nat, queryDims: nat, store: VectorStore, sc: seq<real>,
                      distance: seq<byte> -> real, ap: Option<seq<real>>, efSearch: nat, k: nat,
                      fetchBatchSize: nat, want: nat -> nat, preadv: nat -> nat -> nat -> int)
    returns (r: Result<(seq<Neighbor>, QueryCounters)>, ghost from: nat, ghost discovered: set<nat>,
             ghost fetched: set<nat>, ghost expanded: set<nat>, ghost results: set<nat>)
    requires WellFormed(t) && store.Valid() && sc == ScoresOf(store, distance) && |sc| == t.len
    requires ap.Some? ==> |ap.value| == t.len
    ensures queryDims != dims ==> r == Err(DimensionMismatch(dims, queryDims))
    ensures queryDims == dims && t.entryPoint.None? ==> r == Ok(([], ZERO_COUNTERS))
    ensures queryDims == dims && t.entryPoint.Some? && ap.None? ==> r == Err(Unsupported)
    ensures queryDims == dims && t.entryPoint.Some? && ap.Some? && r.Ok? ==>
              && HybridCertified(t.adjacency[0], sc, from, Width(efSearch, k), discovered, fetched, expanded, results)
              && Climbed(t.adjacency, ap.value, t.maxLayer, 0, t.entryPoint.value, from)
              && Within(sc, fetched) && IsTopK(r.value.0, sc, fetched, k) && IsTopK(r.value.0, sc, results, k)
              && Frugal(r.value.1, ScanDescent(t, ap.value, t.maxLayer, t.entryPoint.value).1, discovered, fetched)
              && from == ScanDescent(t, ap.value, t.maxLayer, t.entryPoint.value).0
              && Ends(t.adjacency[0], HybridQuery(sc, ap.value, Width(efSearch, k), want, fetchBatchSize), from,
                      discovered, fetched, expanded)
              && Paid(store.layout, HybridBatches(t.adjacency[0], HybridQuery(sc, ap.value, Width(efSearch, k), want, fetchBatchSize),
                                                  {from}, {}, {}), r.value.1.seeks, r.value.1.bytesRead)
              && FillsWidth(|fetched|, |results|, efSearch, k)
              && ExactWhenCovered(t.adjacency[0], sc, from, efSearch, k, r.value.0)
    ensures queryDims == dims && t.entryPoint.Some? && ap.Some? && r.Ok? && DistinctScores(ap.value) ==>
              HybridAnswers(t, HybridQuery(sc, ap.value, Width(efSearch, k), want, fetchBatchSize), k, r.value.0, r.value.1)
    ensures queryDims == dims && t.entryPoint.Some? && ap.Some? && ReadsProgress(preadv) ==> r.Ok?
  {
    hide VectorStore.Valid, HybridCertified, Spent, IsTopK, DescendRun, ScanDescent, DistinctScores, InRange, Frugal, Climbed;
    hide HybridAnswers, Ends, Paid, FillsWidth, ExactWhenCovered, HybridBatches, HybridRun, VectorStore.Valid, Within, Best;
    from, discovered, fetched, expanded, results := 0, {}, {}, {}, {};
    if queryDims != dims {
      r := Err(DimensionMismatch(dims, queryDims));
      return;
    }
    if t.entryPoint.None? {
      r := Ok(([], ZERO_COUNTERS));
      return;
    }
    if ap.None? {
      r := Err(Unsupported);
      return;
    }
    var current, evaluated := Descend(t, ap.value, t.entryPoint.value);
    var ef := Width(efSearch, k);
    var kept, counters;
    kept, counters, discovered, fetched, expanded :=
      SearchLayer(t.adjacency[0], store, sc, distance, ap.value, current, ef, fetchBatchSize, want, preadv,
                  ZERO_COUNTERS.AddApprox(1 + evaluated));
    if kept.Err? {
      r := Err(kept.error);
      return;
    }
    from, results := current, kept.value;
    HybridResults(t.adjacency[0], sc, from, ef, discovered, fetched, expanded, results);
    var nodes := Elements(kept.value);
    var out := CollectTopK(sc, nodes, k);
    HybridAnswer(t.adjacency[0], sc, from, ef, k, discovered, fetched, expanded, results, out);
    HybridCovered(t.adjacency[0], sc, from, efSearch, k, discovered, fetched, expanded, results, out);
    SpentIsFrugal(evaluated, counters, discovered, fetched, store.layout,
                  HybridBatches(t.adjacency[0], HybridQuery(sc, ap.value, ef, want, fetchBatchSize), {from}, {}, {}));
    r := Ok((out, counters));
    if DistinctScores(ap.value) {
      FrugalAnswers(t, HybridQuery(sc, ap.value, ef, want, fetchBatchSize), k, out, counters, evaluated, from,
                    discovered, fetched, expanded);
    }
  }

  lemma FrugalAnswers(t: Topology, q: HybridQuery, k: nat, out: seq<Neighbor>, counters: QueryCounters, climbed: nat,
                      from: nat, discovered: set<nat>, fetched: set<nat>, expanded: set<nat>)
    requires WellFormed(t) && t.entryPoint.Some? && |q.sc| == |q.ap| == t.len && q.ef >= 1
    requires (from, climbed) == DescendRun(t, q.ap, t.maxLayer, t.entryPoint.value)
    requires Ends(t.adjacency[0], q, from, discovered, fetched, expanded)
    requires Frugal(counters, climbed, discovered, fetched)
    requires Within(q.sc, fetched) && IsTopK(out, q.sc, fetched, k)
    ensures HybridAnswers(t, q, k, out, counters)
  {
    hide HybridRun, DescendRun, IsTopK, Within, InRange;
  }

  lemma HybridResults(g: Layer, sc: seq<real>, entry: nat, ef: nat, discovered: set<nat>, fetched: set<nat>,
                      expanded: set<nat>, results: set<nat>)
    requires |sc| == |g| && HybridCertified(g, sc, entry, ef, discovered, fetched, expanded, results)
    ensures Within(sc, results) && fetched <= discovered
  {
  }

  lemma SpentIsFrugal(climbed: nat, c: QueryCounters, discovered: set<nat>, fetched: set<nat>, layout: BlockLayout,
                      batches: seq<set<nat>>)
    requires Spent(1 + climbed, c, discovered, fetched, layout, batches) && fetched <= discovered
    ensures Frugal(c, climbed, discovered, fetched) && Paid(layout, batches, c.seeks, c.bytesRead)
  {
    SubsetSize(fetched, discovered);
  }

  /** Approximate scores never reach the ranking: the answer is the exact top k of what was fetched. */
  lemma HybridAnswer(g: Layer, sc: seq<real>, entry: nat, ef: nat, k: nat, discovered: set<nat>, fetched: set<nat>,
                     expanded: set<nat>, results: set<nat>, out: seq<Neighbor>)
    requires |sc| == |g| && HybridCertified(g, sc, entry, ef, discovered, fetched, expanded, results)
    requires IsTopK(out, sc, results, k) && k <= ef
    ensures Within(sc, fetched) && IsTopK(out, sc, fetched, k)
  {
    BestOfBest(sc, k, ef, fetched, results, Ids(out));
  }

  /** With a width covering everything reachable the hybrid search fetches everything reachable. */
  lemma HybridIsExhaustive(g: Layer, sc: seq<real>, entry: nat, ef: nat, discovered: set<nat>, fetched: set<nat>,
                           expanded: set<nat>, results: set<nat>)
    requires |sc| == |g| && HybridCertified(g, sc, entry, ef, discovered, fetched, expanded, results)
    requires |Reachable(g, {entry})| <= ef
    ensures fetched == results == Reachable(g, {entry})
  {
    SubsetSize(fetched, Reachable(g, {entry}));
    if |results| < ef {
      SubsetOfSameSize(results, fetched);
    } else {
      SubsetOfSameSize(results, Reachable(g, {entry}));
    }
  }

  /** The width in numbers, and what it means when it covers everything reachable. */
  lemma HybridCovered(g: Layer, sc: seq<real>, entry: nat, efSearch: nat, k: nat, discovered: set<nat>, fetched: set<nat>,
                      expanded: set<nat>, results: set<nat>, out: seq<Neighbor>)
    requires |sc| == |g| && HybridCertified(g, sc, entry, Width(efSearch, k), discovered, fetched, expanded, results)
    requires Within(sc, results) && IsTopK(out, sc, results, k)
    ensures FillsWidth(|fetched|, |results|, efSearch, k) && ExactWhenCovered(g, sc, entry, efSearch, k, out)
  {
    hide Reachable, IsTopK;
    if |Reachable(g, {entry})| <= efSearch || |Reachable(g, {entry})| <= k {
      HybridIsExhaustive(g, sc, entry, Width(efSearch, k), discovered, fetched, expanded, results);
    }
  }

  /** From the same layer-0 entry the hybrid loop and the plain beam then give the same answer,
      whatever the approximate scores, batches and reads were. */
  lemma HybridAgreesWithBeam(g: Layer, sc: seq<real>, entry: nat, ef: nat, k: nat,
                             discovered: set<nat>, fetched: set<nat>, hybridExpanded: set<nat>, results: set<nat>,
                             hybridOut: seq<Neighbor>,
                             visited: set<nat>, expanded: set<nat>, kept: set<nat>, out: seq<Neighbor>)
    requires InRange(g) && |sc| == |g| && |Reachable(g, {entry})| <= ef
    requires HybridCertified(g, sc, entry, ef, discovered, fetched, hybridExpanded, results)
    requires Within(sc, results) && IsTopK(hybridOut, sc, results, k)
    requires Certified(g, sc, {entry}, ef, visited, expanded, kept)
    requires Within(sc, kept) && IsTopK(out, sc, kept, k)
    ensures hybridOut == out
  {
    HybridIsExhaustive(g, sc, entry, ef, discovered, fetched, hybridExpanded, results);
    ExhaustiveBeam(g, sc, {entry}, ef, visited, expanded, kept);
    TopKUnique(hybridOut, out, sc, kept, k);
  }

  /** With a budget that covers every queue the gate changes nothing, for every width: the loop discovers and fetches
      what the plain beam visits from the same entry, keeps the same nodes and gives the same answer. */
  lemma CoveringHybridIsBeam(g: Layer, q: HybridQuery, entry: nat, k: nat,
                             discovered: set<nat>, fetched: set<nat>, hybridExpanded: set<nat>, results: set<nat>,
                             hybridOut: seq<Neighbor>,
                             visited: set<nat>, expanded: set<nat>, kept: set<nat>, out: seq<Neighbor>)
    requires Ends(g, q, entry, discovered, fetched, hybridExpanded) && |q.sc| == |g|
    requires HybridCertified(g, q.sc, entry, q.ef, discovered, fetched, hybridExpanded, results)
    requires Covers(q.want, q.fetchBatchSize, |g|) && DistinctScores(q.sc)
    requires Within(q.sc, results) && IsTopK(hybridOut, q.sc, results, k)
    requires InRange(g) && visited == BeamRun(g, q.sc, q.ef, {entry}, {})
    requires Certified(g, q.sc, {entry}, q.ef, visited, expanded, kept)
    requires Within(q.sc, kept) && IsTopK(out, q.sc, kept, k)
    ensures discovered == fetched == visited && results == kept && hybridOut == out
  {
    CoveringFetchesAll(g, q, {entry}, {}, {});
    CoveringRunIsBeam(g, q, {entry}, {}, {});
    hide HybridRun, BeamRun, Covers, DistinctScores, IsTopK, Reachable;
    BestUnique(q.sc, q.ef, visited, results, kept);
    TopKUnique(hybridOut, out, q.sc, kept, k);
  }
}
