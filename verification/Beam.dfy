/** Best-first search of one layer with a bounded result heap (the width-ef beam). */
module Beam {
  import opened Nearest
  import opened Graph
  import opened IdLists

  ghost predicate DistinctScores(sc: seq<real>) {
    forall i, j :: 0 <= i < j < |sc| ==> sc[i] != sc[j]
  }

  /** Nothing visited outside the kept set scores strictly better than a kept node. */
  ghost predicate NoBetterOutside(sc: seq<real>, visited: set<nat>, kept: set<nat>)
    requires Within(sc, visited) && kept <= visited
  {
    forall r, v :: r in kept && v in visited - kept ==> sc[r] <= sc[v]
  }

  /** What the bounded result heap holds after `visited` nodes were scored. */
  ghost predicate Pool(sc: seq<real>, ef: nat, visited: set<nat>, kept: set<nat>) {
    && Within(sc, visited)
    && kept <= visited
    && |kept| <= ef
    && (|kept| < ef ==> kept == visited)
    && NoBetterOutside(sc, visited, kept)
    && (DistinctScores(sc) ==> IsBest(sc, ef, visited, kept))
  }

  /** Push a node, then pop the worst if the heap exceeds `ef`. */
  function Pushed(sc: seq<real>, ef: nat, kept: set<nat>, x: nat): set<nat>
    requires Within(sc, kept) && x < |sc|
  {
    if |kept + {x}| > ef then kept + {x} - {Worst(sc, kept + {x})} else kept + {x}
  }

  /** The beam's admission test: room left, or strictly better than the worst kept score. */
  predicate Admits(sc: seq<real>, ef: nat, kept: set<nat>, x: nat)
    requires Within(sc, kept) && x < |sc|
  {
    |kept| < ef || kept == {} || sc[x] < sc[Worst(sc, kept)]
  }

  lemma PushKeepsPool(sc: seq<real>, ef: nat, visited: set<nat>, kept: set<nat>, x: nat)
    requires Pool(sc, ef, visited, kept) && x < |sc| && x !in visited
    ensures Pool(sc, ef, visited + {x}, Pushed(sc, ef, kept, x))
  {
    if DistinctScores(sc) {
      PushPopKeepsBest(sc, ef, visited, kept, x);
    }
    if |kept| == ef {
      PushWhenFull(sc, ef, visited, kept, x);
    }
  }

  lemma PushWhenFull(sc: seq<real>, ef: nat, visited: set<nat>, kept: set<nat>, x: nat)
    requires Pool(sc, ef, visited, kept) && x < |sc| && x !in visited && |kept| == ef
    ensures NoBetterOutside(sc, visited + {x}, Pushed(sc, ef, kept, x))
  {
    var w := Worst(sc, kept + {x});
    var now := kept + {x} - {w};
    forall r, v | r in now && v in visited + {x} - now ensures sc[r] <= sc[v] {
      assert v == w || v in visited - kept;
      if v != w && r == x {
        assert w in kept && sc[w] <= sc[v];
      }
    }
  }

  lemma RejectKeepsPool(sc: seq<real>, ef: nat, visited: set<nat>, kept: set<nat>, x: nat)
    requires Pool(sc, ef, visited, kept) && x < |sc| && x !in visited
    requires !Admits(sc, ef, kept, x)
    ensures Pool(sc, ef, visited + {x}, kept)
  {
    var w := Worst(sc, kept);
    forall r, v | r in kept && v in visited + {x} - kept
      ensures sc[r] <= sc[v] && (DistinctScores(sc) ==> Closer(sc, r, v))
    {
      if v == x {
        assert sc[r] <= sc[w] <= sc[x];
        assert r != x;
      } else {
        assert v in visited - kept;
      }
    }
    SubsetSize(kept, visited);
  }

  /** One step of an expansion: what the frontier and the kept set become when `x` is offered. */
  function Offered(sc: seq<real>, ef: nat, frontier: set<nat>, kept: set<nat>, x: nat): (set<nat>, set<nat>)
    requires Within(sc, kept) && x < |sc|
  {
    if Admits(sc, ef, kept, x) then (frontier + {x}, Pushed(sc, ef, kept, x)) else (frontier, kept)
  }

  /** A new node joins the frontier and the contest for the kept set unless that is full and no kept node scores
      strictly worse; the kept set is then the best `ef` of itself and the newcomer. */
  lemma OfferedIs(sc: seq<real>, ef: nat, frontier: set<nat>, kept: set<nat>, x: nat)
    requires Within(sc, kept) && x < |sc| && x !in kept && |kept| <= ef
    ensures var r := Offered(sc, ef, frontier, kept, x);
            if ef > 0 && |kept| == ef && forall u :: u in kept ==> sc[u] <= sc[x] then r == (frontier, kept)
            else r.0 == frontier + {x} && IsBest(sc, ef, kept + {x}, r.1)
  {
    var all := kept + {x};
    if |all| > ef {
      var w := Worst(sc, all);
      forall b, y | b in all - {w} && y in all - (all - {w}) ensures Closer(sc, b, y) {
        assert y == w;
      }
    }
  }

  /** How far an expansion has taken the beam from its starting sets. */
  ghost predicate Expanding(sc: seq<real>, ef: nat,
                            frontier0: set<nat>, kept0: set<nat>, visited0: set<nat>,
                            frontier: set<nat>, kept: set<nat>, visited: set<nat>)
  {
    && Pool(sc, ef, visited, kept)
    && visited0 <= visited
    && frontier0 <= frontier <= frontier0 + (visited - visited0)
    && kept <= kept0 + frontier
  }

  lemma OfferKeepsExpanding(sc: seq<real>, ef: nat,
                            frontier0: set<nat>, kept0: set<nat>, visited0: set<nat>,
                            frontier: set<nat>, kept: set<nat>, visited: set<nat>, x: nat)
    requires Expanding(sc, ef, frontier0, kept0, visited0, frontier, kept, visited)
    requires x < |sc| && x !in visited
    ensures Within(sc, kept)
    ensures var next := Offered(sc, ef, frontier, kept, x);
            Expanding(sc, ef, frontier0, kept0, visited0, next.0, next.1, visited + {x})
  {
    if Admits(sc, ef, kept, x) {
      PushKeepsPool(sc, ef, visited, kept, x);
    } else {
      RejectKeepsPool(sc, ef, visited, kept, x);
    }
  }

  /** The visited set after the first `i` listed nodes. */
  ghost function Seen(visited: set<nat>, s: seq<nat>, i: nat): set<nat>
    requires i <= |s|
  {
    if i == 0 then visited else Seen(visited, s, i - 1) + {s[i - 1]}
  }

  lemma AddPresent(a: set<nat>, x: nat)
    requires x in a
    ensures a + {x} == a
  {
  }

  lemma AddAbsent(a: set<nat>, x: nat)
    requires x !in a
    ensures |a + {x}| == |a| + 1
  {
  }

  lemma {:induction false} SeenIsMembers(visited: set<nat>, s: seq<nat>, i: nat)
    requires i <= |s|
    ensures Seen(visited, s, i) == visited + Members(s[..i])
    ensures i == |s| ==> Seen(visited, s, i) == visited + Members(s)
  {
    if i > 0 {
      SeenIsMembers(visited, s, i - 1);
      assert s[..i] == s[..i - 1] + [s[i - 1]];
    }
    assert i == |s| ==> s[..i] == s;
  }

  /** The frontier and kept set after the first `i` listed nodes were offered, visited ones skipped. */
  ghost function OfferAll(sc: seq<real>, ef: nat, frontier: set<nat>, kept: set<nat>, visited: set<nat>,
                          s: seq<nat>, i: nat): (r: (set<nat>, set<nat>))
    requires Within(sc, kept) && Listed(|sc|, s) && i <= |s|
    ensures Within(sc, r.1)
  {
    if i == 0 then (frontier, kept)
    else
      var r := OfferAll(sc, ef, frontier, kept, visited, s, i - 1);
      if s[i - 1] in Seen(visited, s, i - 1) then r else Offered(sc, ef, r.0, r.1, s[i - 1])
  }

  lemma StartExpanding(sc: seq<real>, ef: nat, frontier: set<nat>, kept: set<nat>, visited: set<nat>)
    requires Pool(sc, ef, visited, kept)
    ensures Expanding(sc, ef, frontier, kept, visited, frontier, kept, visited)
  {
  }

  lemma {:induction false} OfferAllExpands(sc: seq<real>, ef: nat, frontier: set<nat>, kept: set<nat>,
                                           visited: set<nat>, s: seq<nat>, i: nat)
    requires Within(sc, kept) && Pool(sc, ef, visited, kept) && Listed(|sc|, s) && i <= |s|
    ensures var r := OfferAll(sc, ef, frontier, kept, visited, s, i);
            Expanding(sc, ef, frontier, kept, visited, r.0, r.1, Seen(visited, s, i))
  {
    hide Pool, Offered, Expanding;
    if i == 0 {
      StartExpanding(sc, ef, frontier, kept, visited);
    } else {
      OfferAllExpands(sc, ef, frontier, kept, visited, s, i - 1);
      var r := OfferAll(sc, ef, frontier, kept, visited, s, i - 1);
      var before := Seen(visited, s, i - 1);
      if s[i - 1] in before {
        AddPresent(before, s[i - 1]);
      } else {
        OfferKeepsExpanding(sc, ef, frontier, kept, visited, r.0, r.1, before, s[i - 1]);
      }
    }
  }

  /** Score the unseen neighbours of an expanded node and offer them to the beam. */
  method Expand(g: Layer, sc: seq<real>, ef: nat, u: nat, seen: array<bool>,
                frontier0: set<nat>, kept0: set<nat>, ghost visited0: set<nat>)
    returns (frontier: set<nat>, kept: set<nat>, scored: nat)
    requires |sc| == |g| == seen.Length && u < |g| && Listed(|sc|, g[u])
    requires Within(sc, kept0) && Marks(seen, visited0)
    modifies seen
    ensures Marks(seen, Seen(visited0, g[u], |g[u]|))
    ensures (frontier, kept) == OfferAll(sc, ef, frontier0, kept0, visited0, g[u], |g[u]|)
    ensures |visited0| + scored == |Seen(visited0, g[u], |g[u]|)|
  {
    hide Offered;
    frontier, kept, scored := frontier0, kept0, 0;
    for i := 0 to |g[u]|
      invariant Marks(seen, Seen(visited0, g[u], i))
      invariant (frontier, kept) == OfferAll(sc, ef, frontier0, kept0, visited0, g[u], i)
      invariant |visited0| + scored == |Seen(visited0, g[u], i)|
    {
      var nbr := g[u][i];
      if !seen[nbr] {
        AddAbsent(Seen(visited0, g[u], i), nbr);
        seen[nbr] := true;
        scored := scored + 1;
        var next := Offered(sc, ef, frontier, kept, nbr);
        frontier, kept := next.0, next.1;
      } else {
        AddPresent(Seen(visited0, g[u], i), nbr);
      }
    }
  }

  // ---- the search loop ----

  /** The loop invariant of the beam between two pops. */
  ghost predicate Beaming(g: Layer, sc: seq<real>, from: set<nat>, ef: nat,
                          visited: set<nat>, frontier: set<nat>, expanded: set<nat>, kept: set<nat>)
    requires |sc| == |g|
  {
    && Pool(sc, ef, visited, kept)
    && from <= visited <= Reachable(g, from)
    && frontier <= visited && expanded <= visited && frontier !! expanded
    && kept <= frontier + expanded
    && (forall u :: u in expanded ==> Members(g[u]) <= visited)
  }

  /** What a finished beam guarantees about its kept set. */
  ghost predicate Certified(g: Layer, sc: seq<real>, from: set<nat>, ef: nat,
                            visited: set<nat>, expanded: set<nat>, kept: set<nat>)
    requires |sc| == |g|
  {
    && Pool(sc, ef, visited, kept)
    && kept <= expanded <= visited
    && from <= visited <= Reachable(g, from)
    && (forall u :: u in expanded ==> Members(g[u]) <= visited)
  }

  lemma ExpandKeepsBeaming(g: Layer, sc: seq<real>, from: set<nat>, ef: nat,
                           visited0: set<nat>, frontier0: set<nat>, expanded0: set<nat>, kept0: set<nat>, u: nat,
                           frontier: set<nat>, kept: set<nat>)
    requires InRange(g) && |sc| == |g|
    requires Beaming(g, sc, from, ef, visited0, frontier0, expanded0, kept0) && u in frontier0
    requires Expanding(sc, ef, frontier0 - {u}, kept0, visited0, frontier, kept, visited0 + Members(g[u]))
    ensures Beaming(g, sc, from, ef, visited0 + Members(g[u]), frontier, expanded0 + {u}, kept)
  {
    forall w | w in Members(g[u]) ensures w in Reachable(g, from) {
      ReachableStep(g, from, u, w);
    }
  }

  lemma FrontierBeyondKept(sc: seq<real>, frontier: set<nat>, kept: set<nat>, r: nat)
    requires Within(sc, frontier) && Within(sc, kept) && frontier != {} && kept != {}
    requires sc[Closest(sc, frontier)] > sc[Worst(sc, kept)] && r in kept
    ensures r !in frontier
  {
    assert r == Worst(sc, kept) || Closer(sc, r, Worst(sc, kept));
  }

  /** The stop: nothing left on the frontier can be among the kept nodes. */
  lemma StopCertifies(g: Layer, sc: seq<real>, from: set<nat>, ef: nat,
                      visited: set<nat>, frontier: set<nat>, expanded: set<nat>, kept: set<nat>)
    requires |sc| == |g| && Beaming(g, sc, from, ef, visited, frontier, expanded, kept)
    requires frontier == {} || (kept != {} && sc[Closest(sc, frontier)] > sc[Worst(sc, kept)])
    ensures Certified(g, sc, from, ef, visited, expanded, kept)
  {
    forall r | r in kept ensures r in expanded {
      if frontier != {} {
        FrontierBeyondKept(sc, frontier, kept, r);
      }
    }
  }

  /** Under distinct scores the popped node is the closest kept node not yet expanded. */
  lemma PopIsNextKept(g: Layer, sc: seq<real>, from: set<nat>, ef: nat,
                      visited: set<nat>, frontier: set<nat>, expanded: set<nat>, kept: set<nat>)
    requires |sc| == |g| && Beaming(g, sc, from, ef, visited, frontier, expanded, kept)
    requires DistinctScores(sc) && ef >= 1
    requires frontier != {}
    requires |kept| < ef || sc[Closest(sc, frontier)] <= sc[Worst(sc, kept)]
    ensures kept - expanded != {} && Closest(sc, frontier) == Closest(sc, kept - expanded)
  {
    var c := Closest(sc, frontier);
    if |kept| == ef && c !in kept {
      BestBeatsRest(sc, ef, visited, kept, Worst(sc, kept), c);
    }
    assert c in kept - expanded;
    assert kept - expanded <= frontier;
  }

  /** Reference run: expand the closest kept node until every kept node is expanded.
      The answer is the set of visited nodes; the kept set is its `ef` best. */
  ghost function BeamRun(g: Layer, sc: seq<real>, ef: nat, visited: set<nat>, expanded: set<nat>): (r: set<nat>)
    requires InRange(g) && |sc| == |g| && visited <= Range(|g|)
    ensures visited <= r <= Range(|g|)
    decreases Range(|g|) - expanded
  {
    var todo := Best(sc, ef, visited) - expanded;
    if todo == {} then visited
    else
      var u := Closest(sc, todo);
      BeamRun(g, sc, ef, visited + Members(g[u]), expanded + {u})
  }

  /** A wider beam visits at least as much: while the narrow one still has a kept node to expand, both expand the same
      one. */
  lemma {:induction false} WiderVisitsMore(g: Layer, sc: seq<real>, ef: nat, wider: nat, visited: set<nat>, expanded: set<nat>)
    requires InRange(g) && |sc| == |g| && visited <= Range(|g|) && ef <= wider
    ensures BeamRun(g, sc, ef, visited, expanded) <= BeamRun(g, sc, wider, visited, expanded)
    decreases Range(|g|) - expanded
  {
    var narrow, wide := Best(sc, ef, visited), Best(sc, wider, visited);
    var todo := narrow - expanded;
    BestNested(sc, ef, wider, visited, narrow, wide);
    if todo != {} {
      var u := Closest(sc, todo);
      SameNext(sc, ef, visited, narrow, wide, expanded);
      WiderVisitsMore(g, sc, ef, wider, visited + Members(g[u]), expanded + {u});
    }
  }

  lemma SameNext(sc: seq<real>, ef: nat, visited: set<nat>, narrow: set<nat>, wide: set<nat>, expanded: set<nat>)
    requires Within(sc, visited) && IsBest(sc, ef, visited, narrow) && narrow <= wide <= visited
    requires narrow - expanded != {}
    ensures Closest(sc, wide - expanded) == Closest(sc, narrow - expanded)
  {
    var u, w := Closest(sc, narrow - expanded), Closest(sc, wide - expanded);
    assert u in wide - expanded && w in visited;
    if w !in narrow {
      BestBeatsRest(sc, ef, visited, narrow, u, w);
    }
    assert w in narrow - expanded;
  }

  // ---- the run with ties ----

  /** The beam's sets between two pops, wherever it started. */
  ghost predicate MidRun(g: Layer, sc: seq<real>, ef: nat, visited: set<nat>, frontier: set<nat>, expanded: set<nat>,
                         kept: set<nat>)
  {
    && InRange(g) && |sc| == |g| && visited <= Range(|g|) && Pool(sc, ef, visited, kept)
    && frontier <= visited && expanded <= visited && frontier !! expanded
  }

  /** The stopping test on the popped node. */
  ghost predicate Stops(sc: seq<real>, ef: nat, frontier: set<nat>, kept: set<nat>)
    requires Within(sc, frontier) && Within(sc, kept)
  {
    frontier == {} || (|kept| >= ef && kept != {} && sc[Closest(sc, frontier)] > sc[Worst(sc, kept)])
  }

  /** One expansion: the new visited, frontier, expanded and kept sets. */
  ghost function Stepped(g: Layer, sc: seq<real>, ef: nat, visited: set<nat>, frontier: set<nat>, expanded: set<nat>,
                         kept: set<nat>)
    : (r: (set<nat>, set<nat>, set<nat>, set<nat>))
    requires MidRun(g, sc, ef, visited, frontier, expanded, kept) && frontier != {}
    ensures MidRun(g, sc, ef, r.0, r.1, r.2, r.3) && expanded < r.2
  {
    var u := Closest(sc, frontier);
    StepIsMidRun(g, sc, ef, visited, frontier, expanded, kept);
    var offered := OfferAll(sc, ef, frontier - {u}, kept, visited, g[u], |g[u]|);
    (visited + Members(g[u]), offered.0, expanded + {u}, offered.1)
  }

  lemma StepIsMidRun(g: Layer, sc: seq<real>, ef: nat, visited: set<nat>, frontier: set<nat>, expanded: set<nat>,
                     kept: set<nat>)
    requires MidRun(g, sc, ef, visited, frontier, expanded, kept) && frontier != {}
    ensures Within(sc, frontier) && Within(sc, kept)
    ensures var u := Closest(sc, frontier);
            && u < |g| && Listed(|sc|, g[u])
            && var offered := OfferAll(sc, ef, frontier - {u}, kept, visited, g[u], |g[u]|);
               MidRun(g, sc, ef, visited + Members(g[u]), offered.0, expanded + {u}, offered.1)
  {
    var u := Closest(sc, frontier);
    OfferAllExpands(sc, ef, frontier - {u}, kept, visited, g[u], |g[u]|);
    SeenIsMembers(visited, g[u], |g[u]|);
    hide OfferAll, Seen, Pool;
  }

  /** The exact run, ties and list order included: the nodes visited and kept when the beam stops. */
  ghost function BeamSteps(g: Layer, sc: seq<real>, ef: nat, visited: set<nat>, frontier: set<nat>, expanded: set<nat>,
                           kept: set<nat>)
    : (r: (set<nat>, set<nat>))
    requires MidRun(g, sc, ef, visited, frontier, expanded, kept)
    ensures r.0 <= Range(|g|) && Pool(sc, ef, r.0, r.1)
    decreases Range(|g|) - expanded
  {
    if Stops(sc, ef, frontier, kept) then (visited, kept)
    else
      var next := Stepped(g, sc, ef, visited, frontier, expanded, kept);
      BeamSteps(g, sc, ef, next.0, next.1, next.2, next.3)
  }

  /** The exact run from a set of entry points: seeding keeps the `ef` best of them. */
  ghost function BeamResult(g: Layer, sc: seq<real>, from: set<nat>, ef: nat): (r: (set<nat>, set<nat>))
    requires InRange(g) && |sc| == |g| && from <= Range(|g|)
    ensures r.0 <= Range(|g|) && Pool(sc, ef, r.0, r.1)
  {
    BestIsPool(sc, ef, from);
    BeamSteps(g, sc, ef, from, from, {}, Best(sc, ef, from))
  }

  lemma BestIsPool(sc: seq<real>, ef: nat, from: set<nat>)
    requires Within(sc, from)
    ensures Pool(sc, ef, from, Best(sc, ef, from))
  {
    var kept := Best(sc, ef, from);
    if |kept| < ef {
      SubsetOfSameSize(kept, from);
    }
    forall r, v | r in kept && v in from - kept ensures sc[r] <= sc[v] {
      BestBeatsRest(sc, ef, from, kept, r, v);
    }
  }

  lemma StepFollowsRun(g: Layer, sc: seq<real>, from: set<nat>, ef: nat,
                       visited: set<nat>, frontier: set<nat>, expanded: set<nat>, kept: set<nat>)
    requires InRange(g) && |sc| == |g| && Beaming(g, sc, from, ef, visited, frontier, expanded, kept)
    requires frontier != {}
    requires |kept| < ef || kept == {} || sc[Closest(sc, frontier)] <= sc[Worst(sc, kept)]
    ensures var u := Closest(sc, frontier);
            ef >= 1 && DistinctScores(sc) ==>
              BeamRun(g, sc, ef, visited, expanded) == BeamRun(g, sc, ef, visited + Members(g[u]), expanded + {u})
  {
    if ef >= 1 && DistinctScores(sc) {
      PopIsNextKept(g, sc, from, ef, visited, frontier, expanded, kept);
      BestUnique(sc, ef, visited, kept, Best(sc, ef, visited));
    }
  }

  lemma StopEndsRun(g: Layer, sc: seq<real>, from: set<nat>, ef: nat,
                    visited: set<nat>, frontier: set<nat>, expanded: set<nat>, kept: set<nat>)
    requires InRange(g) && |sc| == |g| && Beaming(g, sc, from, ef, visited, frontier, expanded, kept)
    requires kept <= expanded
    ensures DistinctScores(sc) ==> BeamRun(g, sc, ef, visited, expanded) == visited
  {
    if DistinctScores(sc) {
      BestUnique(sc, ef, visited, kept, Best(sc, ef, visited));
    }
  }

  /** The kept set after the first `i` entry points were pushed, repeats skipped. */
  ghost function PushAll(sc: seq<real>, ef: nat, s: seq<nat>, i: nat): (kept: set<nat>)
    requires Listed(|sc|, s) && i <= |s|
    ensures Within(sc, kept)
  {
    if i == 0 then {}
    else
      var kept := PushAll(sc, ef, s, i - 1);
      if s[i - 1] in Seen({}, s, i - 1) then kept else Pushed(sc, ef, kept, s[i - 1])
  }

  /** Ties or not, the seeded heap holds the `ef` best entry points by (score, id). */
  lemma {:induction false} PushAllIsBest(sc: seq<real>, ef: nat, s: seq<nat>, i: nat)
    requires Listed(|sc|, s) && i <= |s|
    ensures Within(sc, Seen({}, s, i)) && IsBest(sc, ef, Seen({}, s, i), PushAll(sc, ef, s, i))
  {
    if i > 0 {
      PushAllIsBest(sc, ef, s, i - 1);
      var before := Seen({}, s, i - 1);
      if s[i - 1] in before {
        AddPresent(before, s[i - 1]);
      } else {
        PushedIsBest(sc, ef, before, PushAll(sc, ef, s, i - 1), s[i - 1]);
      }
    }
  }

  lemma PushedIsBest(sc: seq<real>, ef: nat, nodes: set<nat>, kept: set<nat>, x: nat)
    requires Within(sc, nodes) && IsBest(sc, ef, nodes, kept) && x < |sc| && x !in nodes
    ensures Within(sc, nodes + {x}) && IsBest(sc, ef, nodes + {x}, Pushed(sc, ef, kept, x))
  {
    PushPopKeepsBest(sc, ef, nodes, kept, x);
    AddAbsent(kept, x);
  }

  /** Seed the beam with its entry points. */
  method Seed(g: Layer, sc: seq<real>, entries: seq<nat>, ef: nat, seen: array<bool>)
    returns (frontier: set<nat>, kept: set<nat>, scored: nat)
    requires |sc| == |g| == seen.Length
    requires Listed(|sc|, entries) && Marks(seen, {})
    modifies seen
    ensures Marks(seen, frontier)
    ensures frontier == Seen({}, entries, |entries|) && scored == |frontier|
    ensures kept == PushAll(sc, ef, entries, |entries|)
    ensures Within(sc, frontier) && IsBest(sc, ef, frontier, kept)
  {
    hide Pushed, PushAll, Seen, Within, IsBest;
    frontier, kept, scored := {}, {}, 0;
    assert Seen({}, entries, 0) == {} && PushAll(sc, ef, entries, 0) == {} by {
      SeedStarts(sc, ef, entries);
    }
    for i := 0 to |entries|
      invariant Marks(seen, frontier)
      invariant frontier == Seen({}, entries, i) && scored == |frontier|
      invariant kept == PushAll(sc, ef, entries, i)
    {
      var ep := entries[i];
      SeedNext(sc, ef, entries, i);
      if !seen[ep] {
        AddAbsent(frontier, ep);
        seen[ep] := true;
        scored := scored + 1;
        kept := Pushed(sc, ef, kept, ep);
        frontier := frontier + {ep};
      }
    }
    PushAllIsBest(sc, ef, entries, |entries|);
  }

  lemma SeedStarts(sc: seq<real>, ef: nat, entries: seq<nat>)
    requires Listed(|sc|, entries)
    ensures Seen({}, entries, 0) == {} && PushAll(sc, ef, entries, 0) == {}
  {
  }

  /** A new entry point is pushed, a repeated one skipped. */
  lemma SeedNext(sc: seq<real>, ef: nat, entries: seq<nat>, i: nat)
    requires Listed(|sc|, entries) && i < |entries|
    ensures Within(sc, PushAll(sc, ef, entries, i))
    ensures var before, ep := Seen({}, entries, i), entries[i];
            if ep in before
            then Seen({}, entries, i + 1) == before && PushAll(sc, ef, entries, i + 1) == PushAll(sc, ef, entries, i)
            else Seen({}, entries, i + 1) == before + {ep} &&
                 PushAll(sc, ef, entries, i + 1) == Pushed(sc, ef, PushAll(sc, ef, entries, i), ep)
  {
    hide Pushed;
    if entries[i] in Seen({}, entries, i) {
      AddPresent(Seen({}, entries, i), entries[i]);
    }
  }

  /** The loop's state between two pops: certified so far, and on the way of both runs. */
  ghost predicate OnRun(g: Layer, sc: seq<real>, from: set<nat>, ef: nat,
                        visited: set<nat>, frontier: set<nat>, expanded: set<nat>, kept: set<nat>)
    requires InRange(g) && |sc| == |g| && from <= Range(|g|)
  {
    && Beaming(g, sc, from, ef, visited, frontier, expanded, kept)
    && MidRun(g, sc, ef, visited, frontier, expanded, kept)
    && (ef >= 1 && DistinctScores(sc) ==> BeamRun(g, sc, ef, visited, expanded) == BeamRun(g, sc, ef, from, {}))
    && BeamSteps(g, sc, ef, visited, frontier, expanded, kept) == BeamResult(g, sc, from, ef)
  }

  lemma OnRunStarts(g: Layer, sc: seq<real>, from: set<nat>, ef: nat)
    requires InRange(g) && |sc| == |g| && from <= Range(|g|)
    ensures OnRun(g, sc, from, ef, from, from, {}, Best(sc, ef, from))
  {
    ReachableContainsStart(g, from);
    BestIsPool(sc, ef, from);
    hide Pool, BeamRun, BeamSteps, Reachable, Best, InRange;
  }

  /** What seeding leaves are the entry points and the `ef` best of them. */
  lemma SeededBest(sc: seq<real>, entries: seq<nat>, ef: nat, frontier: set<nat>, kept: set<nat>)
    requires Listed(|sc|, entries) && frontier == Seen({}, entries, |entries|)
    requires Within(sc, frontier) && IsBest(sc, ef, frontier, kept)
    ensures frontier == Members(entries) && frontier <= Range(|sc|) && kept == Best(sc, ef, frontier)
  {
    SeenIsMembers({}, entries, |entries|);
    assert {} + Members(entries) == Members(entries);
    BestUnique(sc, ef, frontier, kept, Best(sc, ef, frontier));
    hide Seen, IsBest, Best;
  }

  lemma OnRunSteps(g: Layer, sc: seq<real>, from: set<nat>, ef: nat,
                   visited: set<nat>, frontier: set<nat>, expanded: set<nat>, kept: set<nat>,
                   frontier': set<nat>, kept': set<nat>)
    requires InRange(g) && |sc| == |g| && from <= Range(|g|)
    requires OnRun(g, sc, from, ef, visited, frontier, expanded, kept)
    requires Within(sc, frontier) && Within(sc, kept) && !Stops(sc, ef, frontier, kept)
    requires var u := Closest(sc, frontier);
             u < |g| && Listed(|sc|, g[u]) && (frontier', kept') == OfferAll(sc, ef, frontier - {u}, kept, visited, g[u], |g[u]|)
    ensures var u := Closest(sc, frontier);
            OnRun(g, sc, from, ef, visited + Members(g[u]), frontier', expanded + {u}, kept')
  {
    var u := Closest(sc, frontier);
    StepFollowsRun(g, sc, from, ef, visited, frontier, expanded, kept);
    StepIsMidRun(g, sc, ef, visited, frontier, expanded, kept);
    OfferAllExpands(sc, ef, frontier - {u}, kept, visited, g[u], |g[u]|);
    SeenIsMembers(visited, g[u], |g[u]|);
    ExpandKeepsBeaming(g, sc, from, ef, visited, frontier, expanded, kept, u, frontier', kept');
    StepsUnfold(g, sc, ef, visited, frontier, expanded, kept);
    hide *;
  }

  lemma StepsUnfold(g: Layer, sc: seq<real>, ef: nat, visited: set<nat>, frontier: set<nat>, expanded: set<nat>, kept: set<nat>)
    requires MidRun(g, sc, ef, visited, frontier, expanded, kept)
    requires Within(sc, frontier) && Within(sc, kept) && !Stops(sc, ef, frontier, kept)
    ensures var u := Closest(sc, frontier);
            && u < |g| && Listed(|sc|, g[u])
            && var offered := OfferAll(sc, ef, frontier - {u}, kept, visited, g[u], |g[u]|);
               && MidRun(g, sc, ef, visited + Members(g[u]), offered.0, expanded + {u}, offered.1)
               && BeamSteps(g, sc, ef, visited, frontier, expanded, kept) ==
                    BeamSteps(g, sc, ef, visited + Members(g[u]), offered.0, expanded + {u}, offered.1)
  {
    StepIsMidRun(g, sc, ef, visited, frontier, expanded, kept);
    hide MidRun, OfferAll;
  }

  lemma OnRunEnds(g: Layer, sc: seq<real>, from: set<nat>, ef: nat,
                  visited: set<nat>, frontier: set<nat>, expanded: set<nat>, kept: set<nat>)
    requires InRange(g) && |sc| == |g| && from <= Range(|g|)
    requires OnRun(g, sc, from, ef, visited, frontier, expanded, kept)
    requires Within(sc, frontier) && Within(sc, kept) && Stops(sc, ef, frontier, kept)
    ensures Certified(g, sc, from, ef, visited, expanded, kept) && kept <= Reachable(g, from) && |kept| <= ef
    ensures ef >= 1 && DistinctScores(sc) ==> visited == BeamRun(g, sc, ef, from, {})
    ensures (visited, kept) == BeamResult(g, sc, from, ef)
  {
    StopCertifies(g, sc, from, ef, visited, frontier, expanded, kept);
    StopEndsRun(g, sc, from, ef, visited, frontier, expanded, kept);
    hide BeamRun, BeamResult, DistinctScores, Reachable;
  }

  /** With distinct scores the exact run is the reference run, whatever the order of the lists. */
  lemma ResultIsRun(g: Layer, sc: seq<real>, from: set<nat>, ef: nat)
    requires InRange(g) && |sc| == |g| && from <= Range(|g|) && ef >= 1 && DistinctScores(sc)
    ensures BeamResult(g, sc, from, ef).0 == BeamRun(g, sc, ef, from, {})
    ensures Within(sc, BeamRun(g, sc, ef, from, {}))
    ensures BeamResult(g, sc, from, ef).1 == Best(sc, ef, BeamRun(g, sc, ef, from, {}))
  {
    OnRunStarts(g, sc, from, ef);
    RunsAgree(g, sc, from, ef, from, from, {}, Best(sc, ef, from));
    var r := BeamResult(g, sc, from, ef);
    hide BeamResult, BeamRun;
    BestUnique(sc, ef, r.0, r.1, Best(sc, ef, r.0));
  }

  lemma {:induction false} RunsAgree(g: Layer, sc: seq<real>, from: set<nat>, ef: nat,
                                     visited: set<nat>, frontier: set<nat>, expanded: set<nat>, kept: set<nat>)
    requires InRange(g) && |sc| == |g| && from <= Range(|g|) && ef >= 1 && DistinctScores(sc)
    requires OnRun(g, sc, from, ef, visited, frontier, expanded, kept)
    ensures BeamResult(g, sc, from, ef).0 == BeamRun(g, sc, ef, from, {})
    decreases Range(|g|) - expanded
  {
    hide OnRun, BeamResult, BeamRun, OfferAll, DistinctScores, Certified, Reachable, InRange;
    OnRunWithin(g, sc, from, ef, visited, frontier, expanded, kept);
    if Stops(sc, ef, frontier, kept) {
      OnRunEnds(g, sc, from, ef, visited, frontier, expanded, kept);
    } else {
      var u := Closest(sc, frontier);
      var offered := OfferAll(sc, ef, frontier - {u}, kept, visited, g[u], |g[u]|);
      OnRunSteps(g, sc, from, ef, visited, frontier, expanded, kept, offered.0, offered.1);
      ExpandsMore(g, frontier, expanded, u);
      RunsAgree(g, sc, from, ef, visited + Members(g[u]), offered.0, expanded + {u}, offered.1);
    }
  }

  lemma OnRunWithin(g: Layer, sc: seq<real>, from: set<nat>, ef: nat,
                    visited: set<nat>, frontier: set<nat>, expanded: set<nat>, kept: set<nat>)
    requires InRange(g) && |sc| == |g| && from <= Range(|g|)
    requires OnRun(g, sc, from, ef, visited, frontier, expanded, kept)
    ensures Within(sc, frontier) && Within(sc, kept) && frontier <= Range(|g|) && frontier !! expanded
    ensures forall u :: u in frontier ==> u < |g| && Listed(|sc|, g[u])
  {
    hide BeamRun, BeamResult, BeamSteps, DistinctScores, Reachable;
  }

  lemma ExpandsMore(g: Layer, frontier: set<nat>, expanded: set<nat>, u: nat)
    requires u in frontier && frontier <= Range(|g|) && frontier !! expanded
    ensures Range(|g|) - (expanded + {u}) < Range(|g|) - expanded
  {
    assert u in Range(|g|) - expanded;
  }

  /** The beam: `kept` are the results, `scored` the number of distances evaluated. */
  method Search(g: Layer, sc: seq<real>, entries: seq<nat>, ef: nat)
    returns (kept: set<nat>, scored: nat, ghost visited: set<nat>, ghost expanded: set<nat>)
    requires InRange(g) && |sc| == |g| && Listed(|sc|, entries)
    ensures scored == |visited| && Within(sc, kept)
    ensures kept <= Reachable(g, Members(entries)) && |kept| <= ef
    ensures Certified(g, sc, Members(entries), ef, visited, expanded, kept)
    ensures ef >= 1 && DistinctScores(sc) ==> visited == BeamRun(g, sc, ef, Members(entries), {})
    ensures Members(entries) <= Range(|g|) && (visited, kept) == BeamResult(g, sc, Members(entries), ef)
  {
    var seen := new bool[|g|](_ => false);
    var frontier;
    frontier, kept, scored := Seed(g, sc, entries, ef, seen);
    visited, expanded := Members(entries), {};
    ghost var from := Members(entries);
    SeededBest(sc, entries, ef, frontier, kept);
    OnRunStarts(g, sc, from, ef);
    hide OnRun, Certified, BeamRun, BeamResult, Reachable, DistinctScores, OfferAll, Seen, IsBest, PushAll, InRange, Within, Range;
    OnRunWithin(g, sc, from, ef, visited, frontier, expanded, kept);
    while frontier != {}
      invariant Marks(seen, visited)
      invariant scored == |visited|
      invariant OnRun(g, sc, from, ef, visited, frontier, expanded, kept)
      invariant Within(sc, frontier) && Within(sc, kept) && frontier <= Range(|g|) && frontier !! expanded
      decreases Range(|g|) - expanded
    {
      OnRunWithin(g, sc, from, ef, visited, frontier, expanded, kept);
      var u := Closest(sc, frontier);
      if |kept| >= ef && kept != {} && sc[u] > sc[Worst(sc, kept)] {
        break;
      }
      ghost var frontier0, kept0 := frontier, kept;
      var more;
      frontier, kept, more := Expand(g, sc, ef, u, seen, frontier - {u}, kept, visited);
      SeenIsMembers(visited, g[u], |g[u]|);
      OnRunSteps(g, sc, from, ef, visited, frontier0, expanded, kept0, frontier, kept);
      ExpandsMore(g, frontier0, expanded, u);
      visited, expanded := visited + Members(g[u]), expanded + {u};
      scored := scored + more;
      OnRunWithin(g, sc, from, ef, visited, frontier, expanded, kept);
    }
    OnRunEnds(g, sc, from, ef, visited, frontier, expanded, kept);
  }
}
