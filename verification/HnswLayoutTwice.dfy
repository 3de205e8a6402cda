/** A layout order is decided by the graph, and laying out a graph that was laid out before changes nothing. */
module HnswLayoutTwice {
  import opened Core
  import opened Ranking
  import opened Nearest
  import opened Graph
  import opened IdLists
  import opened HnswPrune
  import opened HnswSearch
  import opened HnswLayout
  import opened HnswLayoutTail
  import opened HnswRelabel
  import opened RelabelTheorem

  /** The entry point comes first; every other root is the least id not laid out by then. */
  ghost predicate Rooted(entry: Option<nat>, items: seq<nat>, parent: seq<nat>)
    requires |parent| == |items|
  {
    && (entry.Some? && items != [] ==> items[0] == entry.value)
    && forall i, r: nat :: 0 <= i < |items| && parent[i] == i && (i > 0 || entry.None?) && r < items[i] ==>
         r in Members(items[..i])
  }

  /** A whole layout order: `parent[i]` is the position of the first item that lists item `i`, or `i` for a root. */
  ghost predicate Whole(g: Layer, entry: Option<nat>, items: seq<nat>, parent: seq<nat>) {
    && Listed(|g|, items) && Distinct(items) && |parent| == |items|
    && Ordered(parent) && Children(g, items, parent) && Siblings(g, items, parent) && Rooted(entry, items, parent)
  }

  // ---- sweeps put end to end are whole ----

  /** The last of the sweeps, and where it starts. */
  lemma LastPart(g: Layer, entry: Option<nat>, rest: seq<seq<nat>>, last: seq<nat>) returns (par: seq<nat>)
    requires Sweeps(g, entry, rest + [last])
    ensures Sweeps(g, entry, rest) && last != [] && Concat(rest + [last]) == Concat(rest) + last
    ensures Cuthill(g, last, par) && Earliest(g, last, par)
    ensures RootOf(entry, |rest|, Members(Concat(rest)), last[0])
  {
    hide Reachable, HopOrdered, Members, Less, DegreeKey, RootOf;
    assert (rest + [last])[..|rest|] == rest;
    assert SweepOf(g, Members(Concat(rest)), last[0], last);
    par :| Cuthill(g, last, par) && Earliest(g, last, par);
  }

  lemma NothingIsWhole(g: Layer, entry: Option<nat>)
    ensures Whole(g, entry, [], [])
  {
  }

  lemma NoItems(sweeps: seq<seq<nat>>)
    requires sweeps == []
    ensures Concat(sweeps) == []
  {
  }

  lemma SomeItems(g: Layer, entry: Option<nat>, sweeps: seq<seq<nat>>)
    requires Sweeps(g, entry, sweeps) && sweeps != []
    ensures Concat(sweeps) != []
  {
    hide SweepOf, RootOf;
  }

  lemma RootedAppend(entry: Option<nat>, n: nat, items: seq<nat>, parent: seq<nat>, swept: seq<nat>, par: seq<nat>)
    requires |parent| == |items| && |par| == |swept| && swept != [] && (items == [] <==> n == 0)
    requires Rooted(entry, items, parent) && RootOf(entry, n, Members(items), swept[0])
    requires forall i :: 0 < i < |par| ==> par[i] < i
    ensures Rooted(entry, items + swept, parent + Shifted(par, |items|))
  {
    var m, all, up := |items|, items + swept, parent + Shifted(par, |items|);
    forall i, r: nat | 0 <= i < |all| && up[i] == i && (i > 0 || entry.None?) && r < all[i] ensures r in Members(all[..i]) {
      if i < m {
        assert all[..i] == items[..i];
      } else {
        assert i == m && all[..m] == items;
      }
    }
  }

  lemma WholeAppend(g: Layer, entry: Option<nat>, n: nat, items: seq<nat>, parent: seq<nat>, swept: seq<nat>, par: seq<nat>)
    requires Whole(g, entry, items, parent) && Closed(g, Members(items)) && (items == [] <==> n == 0)
    requires Distinct(items + swept) && swept != [] && Cuthill(g, swept, par) && Earliest(g, swept, par)
    requires RootOf(entry, n, Members(items), swept[0])
    ensures Whole(g, entry, items + swept, parent + Shifted(par, |items|))
  {
    assert Listed(|g|, swept) && forall i :: 0 < i < |par| ==> par[i] < i;
    hide Ordered, Children, Siblings, Rooted, RootOf, Cuthill, Earliest, Closed, Members, Less, DegreeKey;
    DistinctSuffix(items, swept);
    SweepIsFlat(g, swept, par);
    OrderedAppend(parent, par);
    assert {} + Members(items) == Members(items);
    ChildrenAppend(g, {}, items, parent, swept, par);
    SiblingsAppend(g, items, parent, swept, par);
    RootedAppend(entry, n, items, parent, swept, par);
  }

  lemma DistinctSuffix(a: seq<nat>, b: seq<nat>)
    requires Distinct(a + b)
    ensures Distinct(b)
  {
    forall i, j | 0 <= i < j < |b| ensures b[i] != b[j] {
      assert (a + b)[|a| + i] != (a + b)[|a| + j];
    }
  }

  lemma {:induction false} SweepsAreWhole(g: Layer, entry: Option<nat>, sweeps: seq<seq<nat>>) returns (parent: seq<nat>)
    requires InRange(g) && Sweeps(g, entry, sweeps) && Distinct(Concat(sweeps))
    ensures Whole(g, entry, Concat(sweeps), parent)
  {
    hide *;
    if sweeps == [] {
      parent := [];
      NoItems(sweeps);
      NothingIsWhole(g, entry);
    } else {
      var rest, last := sweeps[..|sweeps| - 1], sweeps[|sweeps| - 1];
      assert sweeps == rest + [last];
      var par := LastPart(g, entry, rest, last);
      DistinctPrefix(Concat(rest), last);
      var before := SweepsAreWhole(g, entry, rest);
      SweepsClosed(g, entry, rest);
      if rest == [] {
        NoItems(rest);
      } else {
        SomeItems(g, entry, rest);
      }
      WholeAppend(g, entry, |rest|, Concat(rest), before, last, par);
      parent := before + Shifted(par, |Concat(rest)|);
    }
  }

  // ---- the graph decides the order ----

  /** Where the orders agreed so far, a child has the same parent in both. */
  lemma ParentAgrees(g: Layer, entry: Option<nat>, a: seq<nat>, pa: seq<nat>, b: seq<nat>, pb: seq<nat>, q: nat, c: nat)
    requires Whole(g, entry, a, pa) && Whole(g, entry, b, pb) && q < |a| && q <= c < |b|
    requires forall i :: 0 <= i < q ==> i < |b| && a[i] == b[i]
    requires a[q] == b[c] && pa[q] < q
    ensures pb[c] == pa[q]
  {
    hide Less, DegreeKey, Rooted, Siblings;
    var p := pa[q];
    assert a[q] in g[a[p]];
    assert b[c] in g[b[p]];
    assert pb[c] <= p;
    assert b[c] in g[b[pb[c]]];
    assert a[q] in g[a[pb[c]]];
  }

  lemma SiblingOrder(g: Layer, entry: Option<nat>, items: seq<nat>, parent: seq<nat>, i: nat, j: nat)
    requires Whole(g, entry, items, parent) && i < j < |items| && parent[i] == parent[j] && parent[i] < i
    ensures items[i] < |g| && items[j] < |g| && Less(DegreeKey(g, items[i]), DegreeKey(g, items[j]))
  {
    hide Less, DegreeKey;
  }

  lemma ParentsInOrder(g: Layer, entry: Option<nat>, items: seq<nat>, parent: seq<nat>, i: nat, j: nat)
    requires Whole(g, entry, items, parent) && i < j < |items|
    ensures |parent| == |items| && parent[i] <= parent[j] && parent[i] <= i
  {
    hide Less, DegreeKey, Children, Siblings, Rooted;
  }

  /** An id left for later sits after the agreed positions. */
  lemma LaterPosition(a: seq<nat>, b: seq<nat>, n: nat, q: nat) returns (c: nat)
    requires IsPermutation(a, n) && IsPermutation(b, n) && q < n && forall i :: 0 <= i < q ==> a[i] == b[i]
    ensures q <= c < n && b[c] == a[q]
  {
    PermutationIsOnto(b, n);
    assert a[q] in Members(b);
    c := PositionOf(b, a[q]);
    forall i | 0 <= i < q ensures b[i] != a[q] {
      assert a[i] != a[q];
    }
  }

  /** The next node is one the other order has next too, when it is a child. */
  lemma ChildAgrees(g: Layer, entry: Option<nat>, a: seq<nat>, pa: seq<nat>, b: seq<nat>, pb: seq<nat>, q: nat)
    requires Whole(g, entry, a, pa) && Whole(g, entry, b, pb)
    requires IsPermutation(a, |g|) && IsPermutation(b, |g|) && q < |g| && forall i :: 0 <= i < q ==> a[i] == b[i]
    requires |pa| == |a| && pa[q] < q
    ensures a[q] == b[q]
  {
    hide *;
    Sizes(g, entry, a, pa);
    Sizes(g, entry, b, pb);
    var c := LaterPosition(a, b, |g|, q);
    var d := LaterPosition(b, a, |g|, q);
    if c > q && d > q {
      ParentAgrees(g, entry, a, pa, b, pb, q, c);
      ParentsInOrder(g, entry, b, pb, q, c);
      ParentAgrees(g, entry, b, pb, a, pa, q, d);
      ParentsInOrder(g, entry, a, pa, q, d);
      SiblingOrder(g, entry, a, pa, q, d);
      SiblingOrder(g, entry, b, pb, q, c);
      KeysDiffer(g, a[q], b[q]);
    }
  }

  lemma KeysDiffer(g: Layer, x: nat, y: nat)
    requires x < |g| && y < |g|
    ensures !(Less(DegreeKey(g, x), DegreeKey(g, y)) && Less(DegreeKey(g, y), DegreeKey(g, x)))
  {
  }

  /** And when both are roots. */
  lemma RootAgrees(g: Layer, entry: Option<nat>, a: seq<nat>, pa: seq<nat>, b: seq<nat>, pb: seq<nat>, q: nat)
    requires Whole(g, entry, a, pa) && Whole(g, entry, b, pb)
    requires IsPermutation(a, |g|) && IsPermutation(b, |g|) && q < |g| && forall i :: 0 <= i < q ==> a[i] == b[i]
    requires |pa| == |a| && |pb| == |b| && pa[q] == q && pb[q] == q
    ensures a[q] == b[q]
  {
    assert a[..q] == b[..q];
    NotYetListed(a, q);
    NotYetListed(b, q);
    hide Children, Siblings, Ordered, Less, DegreeKey, Members;
  }

  lemma NotYetListed(a: seq<nat>, q: nat)
    requires Distinct(a) && q < |a|
    ensures a[q] !in Members(a[..q])
  {
  }

  lemma {:induction false} OrdersAgree(g: Layer, entry: Option<nat>, a: seq<nat>, pa: seq<nat>, b: seq<nat>, pb: seq<nat>, q: nat)
    requires Whole(g, entry, a, pa) && Whole(g, entry, b, pb)
    requires IsPermutation(a, |g|) && IsPermutation(b, |g|) && q <= |g|
    ensures |a| == |b| == |g| && forall i :: 0 <= i < q ==> a[i] == b[i]
  {
    hide *;
    Sizes(g, entry, a, pa);
    Sizes(g, entry, b, pb);
    if q > 0 {
      OrdersAgree(g, entry, a, pa, b, pb, q - 1);
      if pa[q - 1] < q - 1 {
        ChildAgrees(g, entry, a, pa, b, pb, q - 1);
      } else if pb[q - 1] < q - 1 {
        ChildAgrees(g, entry, b, pb, a, pa, q - 1);
      } else {
        RootAgrees(g, entry, a, pa, b, pb, q - 1);
      }
    }
  }

  lemma Sizes(g: Layer, entry: Option<nat>, items: seq<nat>, parent: seq<nat>)
    requires Whole(g, entry, items, parent) && IsPermutation(items, |g|)
    ensures |items| == |parent| == |g| && forall i :: 0 <= i < |parent| ==> parent[i] <= i
  {
    hide Children, Siblings, Rooted;
  }

  /** Any two layout orders of one graph are the same list. */
  lemma LayoutIsUnique(g: Layer, entry: Option<nat>, a: seq<nat>, sweepsA: seq<seq<nat>>, b: seq<nat>, sweepsB: seq<seq<nat>>)
    requires InRange(g) && IsPermutation(a, |g|) && IsPermutation(b, |g|)
    requires a == Concat(sweepsA) && Sweeps(g, entry, sweepsA)
    requires b == Concat(sweepsB) && Sweeps(g, entry, sweepsB)
    ensures a == b
  {
    hide Sweeps, Whole, Concat, InRange;
    var pa := SweepsAreWhole(g, entry, sweepsA);
    var pb := SweepsAreWhole(g, entry, sweepsB);
    OrdersAgree(g, entry, a, pa, b, pb, |g|);
  }

  // ---- laying out twice ----

  /** After relabelling by the order, an edge runs between positions. */
  lemma EdgeRenamed(g: Layer, g': Layer, pos: seq<nat>, order: seq<nat>, i: nat, j: nat)
    requires InRange(g) && |g| == |pos| == |g'| && IsPermutation(pos, |g|) && LayerRelabelled(g, g', pos)
    requires IsPermutation(order, |g|) && forall k :: 0 <= k < |g| ==> pos[order[k]] == k
    requires i < |g| && j < |g|
    ensures |g'[i]| == |g[order[i]]| && (j in g'[i] <==> order[j] in g[order[i]])
  {
    var row, row' := g[order[i]], g'[pos[order[i]]];
    RowImage(row, row', pos);
    ImgMember(pos, Members(row), order[j]);
    assert j in row' <==> j in Members(row');
    assert order[j] in row <==> order[j] in Members(row);
  }

  /** The identity is a whole order of the relabelled graph, with the same parents. */
  lemma IdentityIsWhole(g: Layer, g': Layer, pos: seq<nat>, entry: Option<nat>, order: seq<nat>, parent: seq<nat>)
    requires InRange(g) && |g| == |pos| == |g'| && IsPermutation(pos, |g|) && LayerRelabelled(g, g', pos)
    requires IsPermutation(order, |g|) && forall k :: 0 <= k < |g| ==> pos[order[k]] == k
    requires (entry.Some? ==> entry.value < |g|) && Whole(g, entry, order, parent)
    ensures Whole(g', if entry.Some? then Some(pos[entry.value]) else None, AllIds(|g|), parent)
  {
    var ids := AllIds(|g|);
    IdentityChildren(g, g', pos, order, parent);
    IdentitySiblings(g, g', pos, order, parent);
    hide Children, Siblings, Ordered, LayerRelabelled, InRange, IsPermutation;
    forall i, r: nat | 0 <= i < |ids| && r < ids[i] ensures r in Members(ids[..i]) {
      assert ids[..i][r] == r;
    }
  }

  lemma IdentityChildren(g: Layer, g': Layer, pos: seq<nat>, order: seq<nat>, parent: seq<nat>)
    requires InRange(g) && |g| == |pos| == |g'| && IsPermutation(pos, |g|) && LayerRelabelled(g, g', pos)
    requires IsPermutation(order, |g|) && forall k :: 0 <= k < |g| ==> pos[order[k]] == k
    requires |parent| == |g| && (forall i :: 0 <= i < |g| ==> parent[i] <= i) && Children(g, order, parent)
    ensures Listed(|g'|, AllIds(|g|)) && Children(g', AllIds(|g|), parent)
  {
    var ids := AllIds(|g|);
    forall i | 0 <= i < |ids| && parent[i] < i ensures ids[i] in g'[ids[parent[i]]] {
      EdgeRenamed(g, g', pos, order, parent[i], i);
    }
    forall i, j | 0 <= i < |ids| && 0 <= j < |ids| && ids[j] in g'[ids[i]] ensures parent[j] <= i {
      EdgeRenamed(g, g', pos, order, i, j);
    }
    hide LayerRelabelled, InRange, IsPermutation;
  }

  lemma IdentitySiblings(g: Layer, g': Layer, pos: seq<nat>, order: seq<nat>, parent: seq<nat>)
    requires InRange(g) && |g| == |pos| == |g'| && IsPermutation(pos, |g|) && LayerRelabelled(g, g', pos)
    requires IsPermutation(order, |g|) && forall k :: 0 <= k < |g| ==> pos[order[k]] == k
    requires |parent| == |g| && Siblings(g, order, parent)
    ensures Listed(|g'|, AllIds(|g|)) && Siblings(g', AllIds(|g|), parent)
  {
    var ids := AllIds(|g|);
    forall i, j | 0 <= i < j < |ids| && parent[i] == parent[j] && parent[i] < i
      ensures Less(DegreeKey(g', ids[i]), DegreeKey(g', ids[j]))
    {
      EdgeRenamed(g, g', pos, order, i, i);
      EdgeRenamed(g, g', pos, order, j, j);
      KeyOrder(g, order[i], order[j]);
      KeyOrder(g', i, j);
    }
    hide LayerRelabelled, InRange, IsPermutation, Less, DegreeKey;
  }

  lemma AllIdsPermute(n: nat)
    ensures IsPermutation(AllIds(n), n)
  {
  }

  /** The layout order of a graph relabelled by its own layout order is the identity: rewriting a laid-out index again
      would leave every row where it is. */
  lemma LayoutIsIdempotent(t: Topology, t': Topology, pos: seq<nat>, order: seq<nat>, sweeps: seq<seq<nat>>,
                           order': seq<nat>, sweeps': seq<seq<nat>>)
    requires WellFormed(t) && WellFormed(t') && Relabelled(t, t', pos)
    requires IsPermutation(order, t.len) && forall i :: 0 <= i < t.len ==> pos[order[i]] == i
    requires order == Concat(sweeps) && Sweeps(t.adjacency[0], t.entryPoint, sweeps)
    requires IsPermutation(order', t.len) && order' == Concat(sweeps') && Sweeps(t'.adjacency[0], t'.entryPoint, sweeps')
    ensures order' == AllIds(t.len)
  {
    var g, g' := t.adjacency[0], t'.adjacency[0];
    assert InRange(g) && InRange(g') && LayerRelabelled(g, g', pos) && |g| == |g'| == |pos| == t.len;
    AllIdsPermute(t.len);
    hide Sweeps, Whole, Concat, InRange, LayerRelabelled, AllIds;
    var parent := SweepsAreWhole(g, t.entryPoint, sweeps);
    IdentityIsWhole(g, g', pos, t.entryPoint, order, parent);
    var parent' := SweepsAreWhole(g', t'.entryPoint, sweeps');
    OrdersAgree(g', t'.entryPoint, order', parent', AllIds(t.len), parent, t.len);
  }
}
