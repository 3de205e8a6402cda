/** Post-build pruning of layer 0 that keeps hubs and the edges towards them. */
module HnswPrune {
  import opened Ranking
  import opened Nearest
  import opened Graph
  import opened IdLists
  import opened Select

  function Max(a: nat, b: nat): nat {
    if a < b then b else a
  }

  /** Score vector that ranks nodes by descending out-degree. */
  function Degrees(g: Layer): (r: seq<real>)
    ensures |r| == |g| && forall u :: 0 <= u < |g| ==> r[u] == -(|g[u]| as real)
  {
    seq(|g|, u requires 0 <= u < |g| => -(|g[u]| as real))
  }

  function AllIds(n: nat): (r: seq<nat>)
    ensures |r| == n && forall i :: 0 <= i < n ==> r[i] == i
  {
    seq(n, i requires 0 <= i < n => i)
  }

  /** The entries of `row` that are (or are not) hubs, in order. */
  function Edges(row: seq<nat>, hubs: set<nat>, toHubs: bool): (r: seq<nat>)
    ensures forall x :: x in r <==> x in row && (x in hubs <==> toHubs)
    ensures |r| <= |row|
  {
    if row == [] then []
    else
      var before, x := Edges(row[..|row| - 1], hubs, toHubs), row[|row| - 1];
      assert row == row[..|row| - 1] + [x];
      if x in hubs <==> toHubs then before + [x] else before
  }

  lemma {:induction false} EdgesSplit(row: seq<nat>, hubs: set<nat>)
    requires Distinct(row)
    ensures Distinct(Edges(row, hubs, true)) && Distinct(Edges(row, hubs, false))
    ensures |Edges(row, hubs, true)| + |Edges(row, hubs, false)| == |row|
  {
    if row != [] {
      var before, x := row[..|row| - 1], row[|row| - 1];
      EdgesSplit(before, hubs);
      assert x !in before;
    }
  }

  /** The trimmed list of an over-degree non-hub: every edge to a hub, then the closest others
      within the budget; at most `mMax` closest overall. */
  function PruneRow(row: seq<nat>, hubs: set<nat>, m: nat, mMax: nat, sc: seq<real>): seq<nat>
    requires Listed(|sc|, row)
  {
    var kept := KeptEdges(row, hubs, m, sc);
    if |kept| <= mMax then kept else SelectClosest(sc, kept, mMax)
  }

  function KeptEdges(row: seq<nat>, hubs: set<nat>, m: nat, sc: seq<real>): (r: seq<nat>)
    requires Listed(|sc|, row)
    ensures Listed(|sc|, r)
  {
    var hubEdges := Edges(row, hubs, true);
    var others := Edges(row, hubs, false);
    ListedSub(|sc|, row, hubEdges);
    ListedSub(|sc|, row, others);
    var budget := if m < |hubEdges| then 0 else m - |hubEdges|;
    SelectClosestListed(sc, others, budget);
    hubEdges + SelectClosest(sc, others, budget)
  }

  lemma ListedSub(n: nat, row: seq<nat>, some: seq<nat>)
    requires Listed(n, row) && forall x :: x in some ==> x in row
    ensures Listed(n, some)
  {
    forall i | 0 <= i < |some| ensures some[i] < n {
      assert some[i] in row;
    }
  }

  lemma SelectClosestListed(sc: seq<real>, ids: seq<nat>, cap: nat)
    requires Listed(|sc|, ids)
    ensures Listed(|sc|, SelectClosest(sc, ids, cap))
  {
    var scored := Scored(sc, ids);
    var sorted := Sort(scored);
    forall i | 0 <= i < |sorted| ensures sorted[i].id < |sc| {
      assert sorted[i] in multiset(sorted);
      assert sorted[i] in scored;
    }
  }

  /** The hubs are exactly the `hubCount` nodes of largest out-degree, ties to smaller ids. */
  ghost predicate AreHubs(g: Layer, hubCount: nat, hubs: set<nat>) {
    IsBest(Degrees(g), hubCount, Range(|g|), hubs)
  }

  ghost predicate RowPruned(g: Layer, row': seq<nat>, u: nat, hubs: set<nat>, m: nat, mMax: nat, sc: seq<real>)
    requires u < |g| && Listed(|sc|, g[u])
  {
    row' == if u in hubs || |g[u]| <= m then g[u] else PruneRow(g[u], hubs, m, mMax, sc)
  }

  lemma EdgesStep(row: seq<nat>, i: nat, hubs: set<nat>, toHubs: bool)
    requires i < |row|
    ensures Edges(row[..i + 1], hubs, toHubs) ==
              if row[i] in hubs <==> toHubs then Edges(row[..i], hubs, toHubs) + [row[i]]
              else Edges(row[..i], hubs, toHubs)
  {
    assert row[..i + 1][..i] == row[..i];
  }

  /** Split a row into hub edges and the rest, as the prune loop does. */
  method SplitRow(row: seq<nat>, isHub: seq<bool>, ghost hubs: set<nat>) returns (hubEdges: seq<nat>, others: seq<nat>)
    requires Listed(|isHub|, row)
    requires forall u: nat :: u < |isHub| ==> (isHub[u] <==> u in hubs)
    ensures hubEdges == Edges(row, hubs, true) && others == Edges(row, hubs, false)
  {
    hubEdges, others := [], [];
    for i := 0 to |row|
      invariant hubEdges == Edges(row[..i], hubs, true) && others == Edges(row[..i], hubs, false)
    {
      EdgesStep(row, i, hubs, true);
      EdgesStep(row, i, hubs, false);
      if isHub[row[i]] {
        hubEdges := hubEdges + [row[i]];
      } else {
        others := others + [row[i]];
      }
    }
    assert row[..|row|] == row;
  }

  method MarkIds(n: nat, ids: seq<nat>) returns (marks: seq<bool>)
    requires Listed(n, ids)
    ensures |marks| == n && forall u: nat :: u < n ==> (marks[u] <==> u in ids)
  {
    marks := seq(n, _ => false);
    for i := 0 to |ids|
      invariant |marks| == n
      invariant forall j :: 0 <= j < i ==> marks[ids[j]]
      invariant forall u: nat :: u < n && marks[u] ==> u in ids
    {
      marks := marks[ids[i] := true];
    }
  }

  /** Mark the top `hubCount` nodes by out-degree. */
  method MarkHubs(g: Layer, hubCount: nat) returns (isHub: seq<bool>, ghost hubs: set<nat>)
    ensures AreHubs(g, hubCount, hubs) && |isHub| == |g|
    ensures forall u: nat :: u < |g| ==> (isHub[u] <==> u in hubs)
  {
    var sc, ids := Degrees(g), AllIds(|g|);
    var byDegree := SelectClosest(sc, ids, hubCount);
    SelectClosestIsBest(sc, ids, hubCount);
    AllIdsAreRange(|g|);
    hubs := Members(byDegree);
    isHub := MarkIds(|g|, byDegree);
  }

  lemma AllIdsAreRange(n: nat)
    ensures Members(AllIds(n)) == Range(n) && Distinct(AllIds(n))
  {
    forall x | x in Range(n) ensures x in AllIds(n) {
      assert AllIds(n)[x] == x;
    }
  }

  /** `prune_high_degree` on the base layer: every list trimmed from the unpruned graph, then replaced. */
  method PruneLayer(g: Layer, m: nat, mMax: nat, hubCount: nat, dist: seq<seq<real>>)
    returns (g': Layer, ghost hubs: set<nat>)
    requires InRange(g) && |dist| == |g| && forall u :: 0 <= u < |g| ==> |dist[u]| == |g|
    ensures |g'| == |g|
    ensures hubCount >= |g| ==> g' == g
    ensures hubCount < |g| ==> AreHubs(g, hubCount, hubs)
    ensures hubCount < |g| ==> forall u :: 0 <= u < |g| ==>
              Listed(|dist[u]|, g[u]) && RowPruned(g, g'[u], u, hubs, m, mMax, dist[u])
  {
    g', hubs := g, {};
    if hubCount >= |g| {
      return;
    }
    var isHub;
    isHub, hubs := MarkHubs(g, hubCount);
    hide AreHubs, PruneRow, Edges, Degrees, RowPruned, Listed, InRange, PrunedSoFar;
    NothingPruned(g, hubs, m, mMax, dist);
    for u := 0 to |g|
      invariant PrunedSoFar(g, g', hubs, m, mMax, dist, u)
    {
      RowInDistances(g, dist, u);
      if !(isHub[u] || |g[u]| <= m) {
        var hubEdges, others := SplitRow(g[u], isHub, hubs);
        var kept := Trim(g[u], hubEdges, others, hubs, m, mMax, dist[u]);
        PruneNext(g, g', hubs, m, mMax, dist, u, kept);
        g' := g'[u := kept];
      } else {
        PruneNext(g, g', hubs, m, mMax, dist, u, g[u]);
      }
    }
    AllPruned(g, g', hubs, m, mMax, dist);
  }

  /** The lists of the first `u` nodes were pruned, the others are untouched. */
  ghost predicate PrunedSoFar(g: Layer, g': Layer, hubs: set<nat>, m: nat, mMax: nat, dist: seq<seq<real>>, u: nat) {
    && |g'| == |g| == |dist| && u <= |g|
    && (forall v :: u <= v < |g| ==> g'[v] == g[v])
    && forall v :: 0 <= v < u ==> Listed(|dist[v]|, g[v]) && RowPruned(g, g'[v], v, hubs, m, mMax, dist[v])
  }

  lemma NothingPruned(g: Layer, hubs: set<nat>, m: nat, mMax: nat, dist: seq<seq<real>>)
    requires |dist| == |g|
    ensures PrunedSoFar(g, g, hubs, m, mMax, dist, 0)
  {
  }

  lemma RowInDistances(g: Layer, dist: seq<seq<real>>, u: nat)
    requires InRange(g) && |dist| == |g| && u < |g| && |dist[u]| == |g|
    ensures Listed(|g|, g[u]) && Listed(|dist[u]|, g[u])
  {
  }

  lemma PruneNext(g: Layer, g': Layer, hubs: set<nat>, m: nat, mMax: nat, dist: seq<seq<real>>, u: nat, row: seq<nat>)
    requires PrunedSoFar(g, g', hubs, m, mMax, dist, u) && u < |g| && Listed(|dist[u]|, g[u])
    requires row == if u in hubs || |g[u]| <= m then g[u] else PruneRow(g[u], hubs, m, mMax, dist[u])
    ensures |g'| == |g| && PrunedSoFar(g, g'[u := row], hubs, m, mMax, dist, u + 1)
    ensures row == g[u] ==> PrunedSoFar(g, g', hubs, m, mMax, dist, u + 1)
  {
    hide PruneRow, Listed;
    assert RowPruned(g, row, u, hubs, m, mMax, dist[u]);
    assert row == g[u] ==> g'[u := row] == g';
  }

  lemma AllPruned(g: Layer, g': Layer, hubs: set<nat>, m: nat, mMax: nat, dist: seq<seq<real>>)
    requires PrunedSoFar(g, g', hubs, m, mMax, dist, |g|)
    ensures |g'| == |g| == |dist|
    ensures forall u :: 0 <= u < |g| ==> Listed(|dist[u]|, g[u]) && RowPruned(g, g'[u], u, hubs, m, mMax, dist[u])
  {
    hide RowPruned, Listed;
  }

  method Trim(row: seq<nat>, hubEdges: seq<nat>, others: seq<nat>, ghost hubs: set<nat>,
              m: nat, mMax: nat, sc: seq<real>) returns (kept: seq<nat>)
    requires Listed(|sc|, row)
    requires hubEdges == Edges(row, hubs, true) && others == Edges(row, hubs, false)
    ensures kept == PruneRow(row, hubs, m, mMax, sc)
  {
    ListedSub(|sc|, row, others);
    var budget := if m < |hubEdges| then 0 else m - |hubEdges|;
    kept := hubEdges + SelectClosest(sc, others, budget);
    assert kept == KeptEdges(row, hubs, m, sc);
    if |kept| > mMax {
      kept := SelectClosest(sc, kept, mMax);
    }
  }

  // ---- what the prune keeps ----

  /** The prune of one over-degree list, exactly: all hub edges stay, the list ends with
      max(m, hub edges) entries, and no dropped edge is closer than a kept non-hub edge. */
  ghost predicate WellPruned(row: seq<nat>, row': seq<nat>, hubs: set<nat>, m: nat, sc: seq<real>)
    requires Listed(|sc|, row)
  {
    && Distinct(row') && (forall w :: w in row' ==> w in row)
    && (forall w :: w in row && w in hubs ==> w in row')
    && |row'| == Max(m, |Edges(row, hubs, true)|)
    && (forall v, w :: v in row' && v !in hubs && w in row && w !in row' ==>
          v < |sc| && w < |sc| && Closer(sc, v, w))
  }

  lemma {:induction false} EdgesInOrder(row: seq<nat>, hubs: set<nat>, toHubs: bool, i: nat, j: nat) returns (p: nat, q: nat)
    requires i < j < |Edges(row, hubs, toHubs)|
    ensures p < q < |row| && row[p] == Edges(row, hubs, toHubs)[i] && row[q] == Edges(row, hubs, toHubs)[j]
  {
    var before, x := Edges(row[..|row| - 1], hubs, toHubs), row[|row| - 1];
    if j < |before| {
      p, q := EdgesInOrder(row[..|row| - 1], hubs, toHubs, i, j);
    } else {
      p := EdgeAt(row[..|row| - 1], hubs, toHubs, i);
      q := |row| - 1;
    }
  }

  lemma EdgeAt(row: seq<nat>, hubs: set<nat>, toHubs: bool, i: nat) returns (p: nat)
    requires i < |Edges(row, hubs, toHubs)|
    ensures p < |row| && row[p] == Edges(row, hubs, toHubs)[i]
  {
    assert Edges(row, hubs, toHubs)[i] in Edges(row, hubs, toHubs);
    p :| 0 <= p < |row| && row[p] == Edges(row, hubs, toHubs)[i];
  }

  /** A trimmed list starts with its hub edges in their old order; the others follow, closest first. */
  lemma KeptOrder(row: seq<nat>, hubs: set<nat>, m: nat, sc: seq<real>, i: nat, j: nat)
    requires Listed(|sc|, row) && Distinct(row) && i < j < |KeptEdges(row, hubs, m, sc)|
    ensures var kept := KeptEdges(row, hubs, m, sc);
            && (kept[j] in hubs ==> kept[i] in hubs && exists p, q :: 0 <= p < q < |row| && row[p] == kept[i] && row[q] == kept[j])
            && (kept[i] !in hubs ==> kept[j] !in hubs && kept[i] < |sc| && kept[j] < |sc| && Closer(sc, kept[i], kept[j]))
  {
    var hubEdges, others := Edges(row, hubs, true), Edges(row, hubs, false);
    var budget := if m < |hubEdges| then 0 else m - |hubEdges|;
    ListedSub(|sc|, row, others);
    EdgesSplit(row, hubs);
    SelectClosestIsBest(sc, others, budget);
    SelectClosestSorted(sc, others, budget);
    var rest, kept := SelectClosest(sc, others, budget), KeptEdges(row, hubs, m, sc);
    hide SelectClosest, Edges, KeptEdges;
    assert kept == hubEdges + rest by {
      KeptIs(row, hubs, m, sc);
    }
    forall w | w in rest ensures w in others {
      assert w in Members(rest);
    }
    if j < |hubEdges| {
      var p, q := EdgesInOrder(row, hubs, true, i, j);
    }
  }

  lemma KeptIs(row: seq<nat>, hubs: set<nat>, m: nat, sc: seq<real>)
    requires Listed(|sc|, row) && Listed(|sc|, Edges(row, hubs, false))
    ensures var hubEdges := Edges(row, hubs, true);
            KeptEdges(row, hubs, m, sc) ==
              hubEdges + SelectClosest(sc, Edges(row, hubs, false), if m < |hubEdges| then 0 else m - |hubEdges|)
  {
    hide Edges, SelectClosest, Listed;
  }

  /** On a list within the layer-0 cap, trimming is well-behaved and the cap guard never fires. */
  lemma PruneRowExact(row: seq<nat>, hubs: set<nat>, m: nat, mMax: nat, sc: seq<real>)
    requires Listed(|sc|, row) && Distinct(row) && m < |row| <= mMax
    ensures |KeptEdges(row, hubs, m, sc)| <= mMax
    ensures PruneRow(row, hubs, m, mMax, sc) == KeptEdges(row, hubs, m, sc)
    ensures WellPruned(row, PruneRow(row, hubs, m, mMax, sc), hubs, m, sc)
  {
    var hubEdges, others := Edges(row, hubs, true), Edges(row, hubs, false);
    EdgesSplit(row, hubs);
    ListedSub(|sc|, row, others);
    var budget := if m < |hubEdges| then 0 else m - |hubEdges|;
    SelectClosestIsBest(sc, others, budget);
    var rest := SelectClosest(sc, others, budget);
    var kept := KeptEdges(row, hubs, m, sc);
    assert kept == hubEdges + rest;
    forall w | w in rest ensures w in others {
      assert w in Members(rest);
    }
    forall v, w | v in kept && v !in hubs && w in row && w !in kept
      ensures v < |sc| && w < |sc| && Closer(sc, v, w)
    {
      assert v in Members(rest);
      assert w in Members(others) && w !in Members(rest);
      BestBeatsRest(sc, budget, Members(others), Members(rest), v, w);
    }
    forall i, j | 0 <= i < j < |kept| ensures kept[i] != kept[j] {
      if i < |hubEdges| && j >= |hubEdges| {
        assert kept[i] in hubEdges && kept[j] in rest;
      }
    }
  }
}
