/** The part of a layout order after the entry point's sweep: when it lists its nodes in id order. */
module HnswLayoutTail {
  import opened Core
  import opened Ranking
  import opened Nearest
  import opened Graph
  import opened IdLists
  import opened HnswLayout

  ghost function Entries(entry: Option<nat>): set<nat> {
    if entry.Some? then {entry.value} else {}
  }

  /** The nodes the entry point does not reach; every node when there is none. */
  ghost function Unreached(g: Layer, entry: Option<nat>): set<nat> {
    Range(|g|) - Reachable(g, Entries(entry))
  }

  /** A node `u` that lists a later `w` has everything of `nodes` in between listed by a node no later than itself. */
  ghost predicate GapsListed(g: Layer, nodes: set<nat>) {
    forall u, x, w :: u in nodes && x in nodes && w in nodes && u < |g| && w in g[u] && u < x < w ==>
      exists v :: v in nodes && v <= u && v < |g| && x in g[v]
  }

  /** Nobody in `nodes` before `u` lists `x`. */
  ghost predicate FirstLists(g: Layer, nodes: set<nat>, u: nat, x: nat) {
    forall v :: v in nodes && v < u && v < |g| ==> x !in g[v]
  }

  /** Later nodes that `u` is the first to list come in non-decreasing degree. */
  ghost predicate DegreesAscend(g: Layer, nodes: set<nat>) {
    forall u, x, w ::
      (u in nodes && x in nodes && w in nodes && u < |g| && x in g[u] && w in g[u] && u < x < w < |g|
        && FirstLists(g, nodes, u, x) && FirstLists(g, nodes, u, w))
      ==> |g[x]| <= |g[w]|
  }

  ghost predicate Ordered(parent: seq<nat>) {
    Ascending(parent) && forall i :: 0 <= i < |parent| ==> parent[i] <= i
  }

  /** A child is listed by its parent, and by nobody laid out before its parent. */
  ghost predicate Children(g: Layer, items: seq<nat>, parent: seq<nat>)
    requires Listed(|g|, items) && |parent| == |items|
  {
    && (forall i :: 0 <= i < |items| && 0 <= parent[i] < i ==> items[i] in g[items[parent[i]]])
    && (forall i, j :: 0 <= i < |items| && 0 <= j < |items| && items[j] in g[items[i]] ==> parent[j] <= i)
  }

  /** Children of one parent come in ascending (degree, id). */
  ghost predicate Siblings(g: Layer, items: seq<nat>, parent: seq<nat>)
    requires Listed(|g|, items) && |parent| == |items|
  {
    forall i, j :: 0 <= i < j < |items| && parent[i] == parent[j] && parent[i] < i ==>
      Less(DegreeKey(g, items[i]), DegreeKey(g, items[j]))
  }

  /** A root is the least id not laid out by then. */
  ghost predicate Roots(before: set<nat>, items: seq<nat>, parent: seq<nat>)
    requires |parent| == |items|
  {
    forall i, r: nat :: 0 <= i < |items| && parent[i] == i && r < items[i] ==> r in before || r in Members(items[..i])
  }

  /** Sweeps put end to end: `parent[i]` is the position of the first item that lists item `i`, or `i` itself for a
      root. */
  ghost predicate Flat(g: Layer, before: set<nat>, items: seq<nat>, parent: seq<nat>) {
    && Listed(|g|, items) && Distinct(items) && Members(items) !! before && |parent| == |items|
    && Ordered(parent) && Children(g, items, parent) && Siblings(g, items, parent) && Roots(before, items, parent)
  }

  lemma KeyOrder(g: Layer, a: nat, b: nat)
    requires a < |g| && b < |g|
    ensures Less(DegreeKey(g, a), DegreeKey(g, b)) <==> |g[a]| < |g[b]| || (|g[a]| == |g[b]| && a < b)
  {
  }

  /** In ascending items, the order of ids is the order of positions. */
  lemma PositionsFollowIds(items: seq<nat>, i: nat, j: nat)
    requires StrictlyAscending(items) && i < |items| && j < |items|
    ensures i < j <==> items[i] < items[j]
  {
  }

  // ---- an ascending tail meets both conditions ----

  /** A node listed by an earlier one is a child, of a parent no later than that one. */
  lemma ChildOf(g: Layer, before: set<nat>, items: seq<nat>, parent: seq<nat>, a: nat, b: nat)
    requires Flat(g, before, items, parent) && a < b < |items| && parent[b] <= a
    ensures items[b] in g[items[parent[b]]]
  {
    hide Less, DegreeKey;
  }

  lemma AscendingListsGaps(g: Layer, before: set<nat>, items: seq<nat>, parent: seq<nat>)
    requires Flat(g, before, items, parent) && StrictlyAscending(items)
    ensures GapsListed(g, Members(items))
  {
    var nodes := Members(items);
    forall u, x, w | u in nodes && x in nodes && w in nodes && u < |g| && w in g[u] && u < x < w
      ensures exists v :: v in nodes && v <= u && v < |g| && x in g[v]
    {
      var a := PositionOf(items, u);
      var b := PositionOf(items, x);
      var c := PositionOf(items, w);
      PositionsFollowIds(items, a, b);
      PositionsFollowIds(items, b, c);
      assert parent[c] <= a && parent[b] <= parent[c];
      ChildOf(g, before, items, parent, a, b);
      PositionsFollowIds(items, a, parent[b]);
      var v := items[parent[b]];
      assert v in nodes && v <= u && x in g[v];
    }
  }

  /** The parent of a node first listed by `u` is `u`. */
  lemma ParentIsFirst(g: Layer, before: set<nat>, items: seq<nat>, parent: seq<nat>, a: nat, b: nat)
    requires Flat(g, before, items, parent) && StrictlyAscending(items) && a < b < |items|
    requires items[b] in g[items[a]] && FirstLists(g, Members(items), items[a], items[b])
    ensures parent[b] == a
  {
    assert parent[b] <= a;
    ChildOf(g, before, items, parent, a, b);
    PositionsFollowIds(items, parent[b], a);
    assert items[parent[b]] in Members(items);
  }

  lemma AscendingDegrees(g: Layer, before: set<nat>, items: seq<nat>, parent: seq<nat>)
    requires Flat(g, before, items, parent) && StrictlyAscending(items)
    ensures DegreesAscend(g, Members(items))
  {
    var nodes := Members(items);
    forall u, x, w | u in nodes && x in nodes && w in nodes && u < |g| && x in g[u] && w in g[u] && u < x < w < |g| &&
        FirstLists(g, nodes, u, x) && FirstLists(g, nodes, u, w)
      ensures |g[x]| <= |g[w]|
    {
      var a := PositionOf(items, u);
      var b := PositionOf(items, x);
      var c := PositionOf(items, w);
      PositionsFollowIds(items, a, b);
      PositionsFollowIds(items, b, c);
      ParentIsFirst(g, before, items, parent, a, b);
      ParentIsFirst(g, before, items, parent, a, c);
      KeyOrder(g, x, w);
    }
  }

  // ---- both conditions make the tail ascending ----

  /** The first `q` positions hold the least ids, in order. */
  ghost predicate LeastFirst(items: seq<nat>, q: nat) {
    forall i, j :: 0 <= i < q && i < j < |items| ==> items[i] < items[j]
  }

  /** A later item with a smaller id than item `q` would have the same parent, and there come first. */
  lemma NoSmallerLater(g: Layer, before: set<nat>, items: seq<nat>, parent: seq<nat>, q: nat, j: nat)
    requires Flat(g, before, items, parent)
    requires GapsListed(g, Members(items)) && DegreesAscend(g, Members(items))
    requires LeastFirst(items, q) && q < j < |items|
    ensures items[q] < items[j]
  {
    var w, x, p := items[q], items[j], parent[q];
    assert x in Members(items) && w in Members(items) && w != x;
    if x < w {
      if p == q {
        RootIsLeast(g, before, items, parent, q, j);
      } else {
        SameParent(g, before, items, parent, q, j);
        var u := items[p];
        assert u in Members(items) && u < x;
        NobodyEarlier(g, before, items, parent, p, q);
        NobodyEarlier(g, before, items, parent, p, j);
        KeyOrder(g, w, x);
      }
    }
  }

  lemma RootIsLeast(g: Layer, before: set<nat>, items: seq<nat>, parent: seq<nat>, q: nat, j: nat)
    requires Flat(g, before, items, parent) && q < j < |items| && parent[q] == q
    ensures items[q] < items[j]
  {
    assert items[j] in Members(items);
    forall i | 0 <= i < q ensures items[..q][i] != items[j] {
      assert items[i] != items[j];
    }
    assert items[j] !in Members(items[..q]) && items[j] != items[q];
  }

  /** By the first condition the later, smaller node is listed as early as `q`'s parent, so they share it. */
  lemma SameParent(g: Layer, before: set<nat>, items: seq<nat>, parent: seq<nat>, q: nat, j: nat)
    requires Flat(g, before, items, parent) && GapsListed(g, Members(items)) && LeastFirst(items, q)
    requires q < j < |items| && parent[q] < q && items[j] < items[q]
    ensures parent[j] == parent[q] && items[j] in g[items[parent[q]]]
  {
    var w, x, p := items[q], items[j], parent[q];
    var u := items[p];
    assert u in Members(items) && w in Members(items) && x in Members(items);
    var v :| v in Members(items) && v <= u && v < |g| && x in g[v];
    var i := PositionOf(items, v);
    assert i <= p;
    assert parent[j] <= i && p <= parent[j];
    hide Less, DegreeKey;
  }

  /** Nobody with a smaller id than the parent's lists the child. */
  lemma NobodyEarlier(g: Layer, before: set<nat>, items: seq<nat>, parent: seq<nat>, p: nat, j: nat)
    requires Flat(g, before, items, parent) && j < |items| && p == parent[j] < |items| && LeastFirst(items, p + 1)
    ensures FirstLists(g, Members(items), items[p], items[j])
  {
    forall v | v in Members(items) && v < items[p] && v < |g| ensures items[j] !in g[v] {
      var i := PositionOf(items, v);
      assert i < p;
    }
    hide Less, DegreeKey;
  }

  lemma LeastFirstStep(items: seq<nat>, q: nat)
    requires q < |items| && LeastFirst(items, q) && forall j :: q < j < |items| ==> items[q] < items[j]
    ensures LeastFirst(items, q + 1)
  {
  }

  lemma {:induction false} ConditionsAscend(g: Layer, before: set<nat>, items: seq<nat>, parent: seq<nat>, q: nat)
    requires Flat(g, before, items, parent) && q <= |items|
    requires GapsListed(g, Members(items)) && DegreesAscend(g, Members(items))
    ensures LeastFirst(items, q)
  {
    if q > 0 {
      hide Flat, GapsListed, DegreesAscend, LeastFirst, Members;
      ConditionsAscend(g, before, items, parent, q - 1);
      forall j | q - 1 < j < |items| ensures items[q - 1] < items[j] {
        NoSmallerLater(g, before, items, parent, q - 1, j);
      }
      LeastFirstStep(items, q - 1);
    }
  }

  /** Sweeps put end to end are in id order exactly under the two conditions. */
  lemma FlatAscendingIff(g: Layer, before: set<nat>, items: seq<nat>, parent: seq<nat>)
    requires Flat(g, before, items, parent)
    ensures StrictlyAscending(items) <==> GapsListed(g, Members(items)) && DegreesAscend(g, Members(items))
  {
    if StrictlyAscending(items) {
      AscendingListsGaps(g, before, items, parent);
      AscendingDegrees(g, before, items, parent);
    }
    if GapsListed(g, Members(items)) && DegreesAscend(g, Members(items)) {
      ConditionsAscend(g, before, items, parent, |items|);
    }
    hide Flat, GapsListed, DegreesAscend;
  }

  // ---- from sweeps to the flat tail ----

  function Shifted(parent: seq<nat>, shift: nat): (r: seq<nat>)
    ensures |r| == |parent| && forall i :: 0 <= i < |r| ==> r[i] == parent[i] + shift
  {
    seq(|parent|, i requires 0 <= i < |parent| => parent[i] + shift)
  }

  /** One more sweep after a closed set of nodes. */
  lemma FlatAppend(g: Layer, before: set<nat>, items: seq<nat>, parent: seq<nat>, swept: seq<nat>, par: seq<nat>)
    requires Flat(g, before, items, parent) && Closed(g, before + Members(items))
    requires Listed(|g|, swept) && Distinct(items + swept) && Members(swept) !! before && swept != []
    requires Cuthill(g, swept, par) && Earliest(g, swept, par)
    requires forall r: nat :: r < swept[0] ==> r in before || r in Members(items)
    ensures Flat(g, before, items + swept, parent + Shifted(par, |items|))
  {
    assert Members(items + swept) == Members(items) + Members(swept);
    assert forall i :: 0 <= i < |swept| ==> swept[i] == (items + swept)[|items| + i];
    SweepIsFlat(g, swept, par);
    OrderedAppend(parent, par);
    ChildrenAppend(g, before, items, parent, swept, par);
    SiblingsAppend(g, items, parent, swept, par);
    RootsAppend(before, items, parent, swept, par);
    hide Ordered, Children, Siblings, Roots, Cuthill, Earliest, Closed, Members;
  }

  lemma OrderedAppend(parent: seq<nat>, par: seq<nat>)
    requires Ordered(parent) && Ordered(par)
    ensures Ordered(parent + Shifted(par, |parent|))
  {
  }

  /** The items of a sweep and their parents, seen in the list the sweep is appended to. */
  ghost predicate Placed(n: nat, all: seq<nat>, up: seq<nat>, swept: seq<nat>, par: seq<nat>) {
    && |all| == |up| == n + |swept| && |par| == |swept|
    && forall i :: 0 <= i < |swept| ==> all[n + i] == swept[i] && up[n + i] == par[i] + n
  }

  lemma ChildrenAppend(g: Layer, before: set<nat>, items: seq<nat>, parent: seq<nat>, swept: seq<nat>, par: seq<nat>)
    requires Listed(|g|, items) && Listed(|g|, swept) && |parent| == |items| && |par| == |swept|
    requires Distinct(items + swept) && Members(swept) !! before && Closed(g, before + Members(items))
    requires Ordered(parent) && Children(g, items, parent) && Ordered(par) && Children(g, swept, par)
    ensures Listed(|g|, items + swept) && Children(g, items + swept, parent + Shifted(par, |items|))
  {
    var n, all, up := |items|, items + swept, parent + Shifted(par, |items|);
    assert Placed(0, all[..n], up[..n], items, parent) && all[..n] == items && up[..n] == parent;
    assert Placed(n, all, up, swept, par);
    forall i | 0 <= i < |all| && up[i] < i ensures all[i] in g[all[up[i]]] {
      if i < n {
        OldChild(g, items, parent, all, up, i);
      } else {
        NewChild(g, n, swept, par, all, up, i);
      }
    }
    forall i, j | 0 <= i < |all| && 0 <= j < |all| && all[j] in g[all[i]] ensures up[j] <= i {
      AppendedListing(g, before, items, parent, swept, par, all, up, i, j);
    }
    hide Ordered, Closed, Distinct, Members, Shifted;
  }

  lemma OldChild(g: Layer, items: seq<nat>, parent: seq<nat>, all: seq<nat>, up: seq<nat>, i: nat)
    requires Listed(|g|, items) && |parent| == |items| && Ordered(parent) && Children(g, items, parent)
    requires items <= all && parent <= up && i < |items| && up[i] < i
    ensures all[up[i]] < |g| && all[i] in g[all[up[i]]]
  {
  }

  lemma NewChild(g: Layer, n: nat, swept: seq<nat>, par: seq<nat>, all: seq<nat>, up: seq<nat>, i: nat)
    requires Listed(|g|, swept) && |par| == |swept| && Ordered(par) && Children(g, swept, par)
    requires Placed(n, all, up, swept, par) && n <= i < |all| && up[i] < i
    ensures all[up[i]] < |g| && all[i] in g[all[up[i]]]
  {
    assert all[n + (i - n)] == swept[i - n] && all[n + par[i - n]] == swept[par[i - n]];
  }

  /** No new item is listed by one laid out before the sweep, and no old item later than it was. */
  lemma AppendedListing(g: Layer, before: set<nat>, items: seq<nat>, parent: seq<nat>, swept: seq<nat>, par: seq<nat>,
                        all: seq<nat>, up: seq<nat>, i: nat, j: nat)
    requires Listed(|g|, items) && Listed(|g|, swept) && |parent| == |items| && |par| == |swept|
    requires Distinct(items + swept) && Members(swept) !! before && Closed(g, before + Members(items))
    requires Ordered(parent) && Children(g, items, parent) && Children(g, swept, par)
    requires items <= all && parent <= up && Placed(|items|, all, up, swept, par)
    requires i < |all| && j < |all| && all[i] < |g| && all[j] in g[all[i]]
    ensures up[j] <= i
  {
    var n := |items|;
    if j < n {
      assert up[j] == parent[j] <= j;
      if i < n {
        assert items[j] in g[items[i]];
      }
    } else {
      assert all[j] == all[n + (j - n)] == swept[j - n] && up[j] == par[j - n] + n;
      if i < n {
        EdgeStays(g, before, items, i, all[j]);
        SweptIsNew(items, swept, j - n);
      } else {
        assert all[i] == all[n + (i - n)] == swept[i - n];
      }
    }
  }

  lemma SiblingsAppend(g: Layer, items: seq<nat>, parent: seq<nat>, swept: seq<nat>, par: seq<nat>)
    requires Listed(|g|, items) && Listed(|g|, swept) && |parent| == |items| && |par| == |swept|
    requires Ordered(parent) && Siblings(g, items, parent) && Siblings(g, swept, par)
    ensures Listed(|g|, items + swept) && Siblings(g, items + swept, parent + Shifted(par, |items|))
  {
    hide Less, DegreeKey;
    var n, all, up := |items|, items + swept, parent + Shifted(par, |items|);
    forall i, j | 0 <= i < j < |all| && up[i] == up[j] && up[i] < i
      ensures Less(DegreeKey(g, all[i]), DegreeKey(g, all[j]))
    {
      if j < n {
        assert all[i] == items[i] && all[j] == items[j];
      } else {
        assert up[i] >= n && i >= n;
        assert all[i] == swept[i - n] && all[j] == swept[j - n] && par[i - n] == par[j - n];
      }
    }
  }

  lemma RootsAppend(before: set<nat>, items: seq<nat>, parent: seq<nat>, swept: seq<nat>, par: seq<nat>)
    requires |parent| == |items| && |par| == |swept| && swept != []
    requires Roots(before, items, parent)
    requires forall r: nat :: r < swept[0] ==> r in before || r in Members(items)
    requires forall i :: 0 < i < |par| ==> par[i] < i
    ensures Roots(before, items + swept, parent + Shifted(par, |items|))
  {
    var n, all, up := |items|, items + swept, parent + Shifted(par, |items|);
    forall i, r: nat | 0 <= i < |all| && up[i] == i && r < all[i] ensures r in before || r in Members(all[..i]) {
      if i < n {
        assert all[..i] == items[..i];
      } else {
        assert i == n && all[..n] == items;
      }
    }
  }

  /** A sweep on its own: its root is its own parent. */
  lemma SweepIsFlat(g: Layer, swept: seq<nat>, par: seq<nat>)
    requires Cuthill(g, swept, par) && Earliest(g, swept, par) && Distinct(swept) && swept != []
    ensures Ordered(par) && Children(g, swept, par) && Siblings(g, swept, par)
  {
    hide Less, DegreeKey;
  }

  lemma EdgeStays(g: Layer, before: set<nat>, items: seq<nat>, i: nat, w: nat)
    requires Closed(g, before + Members(items)) && i < |items| && items[i] < |g| && w in g[items[i]]
    ensures w in before || w in Members(items)
  {
    assert items[i] in Members(items);
    assert w in Members(g[items[i]]);
  }

  lemma SweptIsNew(items: seq<nat>, swept: seq<nat>, j: nat)
    requires Distinct(items + swept) && j < |swept|
    ensures swept[j] !in Members(items) && swept[j] in Members(swept)
  {
    forall i | 0 <= i < |items| ensures items[i] != swept[j] {
      assert (items + swept)[i] != (items + swept)[|items| + j];
    }
  }

  /** The sweep from the entry point, if there is one. */
  ghost function FirstPart(entry: Option<nat>, sweeps: seq<seq<nat>>): seq<nat>
    requires entry.Some? ==> sweeps != []
  {
    if entry.Some? then sweeps[0] else []
  }

  /** Following edges from what is laid out never leaves it. */
  lemma {:induction false} SweepsClosed(g: Layer, entry: Option<nat>, sweeps: seq<seq<nat>>)
    requires InRange(g) && Sweeps(g, entry, sweeps)
    ensures Closed(g, Members(Concat(sweeps)))
  {
    if sweeps != [] {
      var rest, last := sweeps[..|sweeps| - 1], sweeps[|sweeps| - 1];
      SweepsClosed(g, entry, rest);
      ReachableIsClosed(g, {last[0]});
      assert Members(Concat(sweeps)) == Members(Concat(rest)) + Members(last);
      hide Concat, Reachable;
    }
  }

  lemma NothingReachesNothing(g: Layer, k: nat)
    ensures Hops(g, {}, k) == {}
  {
  }

  lemma EmptyReachesNothing(g: Layer)
    ensures Reachable(g, {}) == {}
  {
    forall v | v in Range(|g|) ensures v !in Reachable(g, {}) {
      forall k: nat ensures v !in Hops(g, {}, k) {
        NothingReachesNothing(g, k);
      }
    }
  }

  /** The first part lays out exactly what the entry point reaches. */
  lemma {:induction false} FirstPartReaches(g: Layer, entry: Option<nat>, sweeps: seq<seq<nat>>)
    requires Sweeps(g, entry, sweeps) && (entry.Some? ==> sweeps != [])
    ensures Members(FirstPart(entry, sweeps)) == Reachable(g, Entries(entry))
  {
    if entry.None? {
      EmptyReachesNothing(g);
    } else {
      var rest := sweeps[..|sweeps| - 1];
      if rest == [] {
        assert Members(Concat([])) == {};
      } else {
        FirstPartReaches(g, entry, rest);
      }
      hide Reachable;
    }
  }

  lemma OnlyTheFirst(entry: Option<nat>, sweeps: seq<seq<nat>>)
    requires |sweeps| == if entry.Some? then 1 else 0
    ensures Concat(sweeps) == FirstPart(entry, sweeps)
  {
    if entry.Some? {
      assert Concat(sweeps[..0]) == [];
    }
  }

  /** The last sweep, after at least the entry point's: its root is the least id not laid out. */
  lemma LastSweep(g: Layer, entry: Option<nat>, rest: seq<seq<nat>>, last: seq<nat>) returns (par: seq<nat>)
    requires Sweeps(g, entry, rest + [last]) && (entry.Some? ==> rest != [])
    ensures Sweeps(g, entry, rest) && last != [] && Concat(rest + [last]) == Concat(rest) + last
    ensures Members(last) !! Members(Concat(rest)) && Cuthill(g, last, par) && Earliest(g, last, par)
    ensures forall r: nat :: r < last[0] ==> r in Members(Concat(rest))
    ensures FirstPart(entry, rest + [last]) == FirstPart(entry, rest)
  {
    hide Reachable, HopOrdered, Members, Less, DegreeKey;
    assert (rest + [last])[..|rest|] == rest;
    assert SweepOf(g, Members(Concat(rest)), last[0], last);
    par :| Cuthill(g, last, par) && Earliest(g, last, par);
  }

  /** Where a list splits into three parts, so do its members. */
  lemma SplitDistinct(all: seq<nat>, first: seq<nat>, tail: seq<nat>, last: seq<nat>)
    requires all == first + tail + last && Distinct(all)
    ensures Distinct(first + tail) && Distinct(tail + last)
    ensures Members(first + tail) == Members(first) + Members(tail)
  {
    assert all == first + (tail + last);
    forall i, j | 0 <= i < j < |tail + last| ensures (tail + last)[i] != (tail + last)[j] {
      assert (tail + last)[i] == all[|first| + i] && (tail + last)[j] == all[|first| + j];
    }
    forall i, j | 0 <= i < j < |first + tail| ensures (first + tail)[i] != (first + tail)[j] {
      assert (first + tail)[i] == all[i] && (first + tail)[j] == all[j];
    }
  }

  lemma DistinctPrefix(before: seq<nat>, last: seq<nat>)
    requires Distinct(before + last)
    ensures Distinct(before)
  {
    forall i, j | 0 <= i < j < |before| ensures before[i] != before[j] {
      assert (before + last)[i] != (before + last)[j];
    }
  }

  lemma LeastRemaining(first: seq<nat>, tail: seq<nat>, root: nat)
    requires forall r: nat :: r < root ==> r in Members(first + tail)
    ensures forall r: nat :: r < root ==> r in Members(first) || r in Members(tail)
  {
    forall r: nat | r < root ensures r in Members(first) || r in Members(tail) {
      assert r in Members(first + tail);
    }
  }

  lemma NothingIsFlat(g: Layer, before: set<nat>)
    ensures Flat(g, before, [], [])
  {
  }

  lemma FlatNext(g: Layer, first: seq<nat>, tail: seq<nat>, parent: seq<nat>, last: seq<nat>, par: seq<nat>)
    requires Flat(g, Members(first), tail, parent) && Closed(g, Members(first + tail))
    requires Distinct(first + tail + last) && Members(last) !! Members(first + tail) && last != []
    requires Cuthill(g, last, par) && Earliest(g, last, par)
    requires forall r: nat :: r < last[0] ==> r in Members(first + tail)
    ensures Flat(g, Members(first), tail + last, parent + Shifted(par, |tail|))
    ensures first + tail + last == first + (tail + last)
  {
    assert Listed(|g|, last);
    hide *;
    SplitDistinct(first + tail + last, first, tail, last);
    LeastRemaining(first, tail, last[0]);
    assert first + tail + last == first + (tail + last);
    FlatAppend(g, Members(first), tail, parent, last, par);
  }

  /** What follows the first part is flat. */
  lemma {:induction false} TailIsFlat(g: Layer, entry: Option<nat>, sweeps: seq<seq<nat>>)
    returns (tail: seq<nat>, parent: seq<nat>)
    requires InRange(g) && Sweeps(g, entry, sweeps) && (entry.Some? ==> sweeps != []) && Distinct(Concat(sweeps))
    ensures Concat(sweeps) == FirstPart(entry, sweeps) + tail
    ensures Flat(g, Members(FirstPart(entry, sweeps)), tail, parent)
  {
    hide Reachable, HopOrdered, Cuthill, Earliest, Closed, Members, Flat, InRange, Distinct, Sweeps, Concat;
    var first := FirstPart(entry, sweeps);
    if |sweeps| == if entry.Some? then 1 else 0 {
      tail, parent := [], [];
      OnlyTheFirst(entry, sweeps);
      NothingIsFlat(g, Members(first));
    } else {
      var rest, last := sweeps[..|sweeps| - 1], sweeps[|sweeps| - 1];
      assert sweeps == rest + [last];
      var par := LastSweep(g, entry, rest, last);
      DistinctPrefix(Concat(rest), last);
      tail, parent := TailIsFlat(g, entry, rest);
      SweepsClosed(g, entry, rest);
      hide *;
      FlatNext(g, first, tail, parent, last, par);
      tail, parent := tail + last, parent + Shifted(par, |tail|);
    }
  }

  lemma SplitOrder(g: Layer, entry: Option<nat>, order: seq<nat>, first: seq<nat>, tail: seq<nat>)
    requires IsPermutation(order, |g|) && order == first + tail && Members(first) == Reachable(g, Entries(entry))
    ensures var k := |Reachable(g, Entries(entry))|;
            k == |first| <= |order| && order[..k] == first && order[k..] == tail && Members(tail) == Unreached(g, entry)
  {
    hide Reachable;
    DistinctPrefix(first, tail);
    MembersSize(first);
    PermutationIsOnto(order, |g|);
    SplitDistinct(order + [], first, tail, []);
    forall x | x in Members(tail) ensures x !in Members(first) {
      var j := PositionOf(tail, x);
      SweptIsNew(first, tail, j);
    }
  }

  lemma EntryIsSwept(g: Layer, entry: nat, order: seq<nat>, sweeps: seq<seq<nat>>)
    requires IsPermutation(order, |g|) && entry < |g| && order == Concat(sweeps)
    ensures sweeps != []
  {
  }

  /** Sweeps put end to end: the part after the entry point's sweep is in id order exactly under both conditions on
      the graph. */
  lemma TailInIdOrderIff(g: Layer, entry: Option<nat>, order: seq<nat>, sweeps: seq<seq<nat>>)
    requires InRange(g) && IsPermutation(order, |g|) && (entry.Some? ==> entry.value < |g|)
    requires order == Concat(sweeps) && Sweeps(g, entry, sweeps)
    ensures var k := |Reachable(g, Entries(entry))|;
            && k <= |order|
            && Members(order[..k]) == Reachable(g, Entries(entry)) && Members(order[k..]) == Unreached(g, entry)
            && (StrictlyAscending(order[k..]) <==>
                  GapsListed(g, Unreached(g, entry)) && DegreesAscend(g, Unreached(g, entry)))
  {
    if entry.Some? {
      EntryIsSwept(g, entry.value, order, sweeps);
    }
    var tail, parent := TailIsFlat(g, entry, sweeps);
    FlatAscendingIff(g, Members(FirstPart(entry, sweeps)), tail, parent);
    FirstPartReaches(g, entry, sweeps);
    SplitOrder(g, entry, order, FirstPart(entry, sweeps), tail);
    hide *;
  }

  /** Node 1 lists the later 3, and nothing up to 1 lists 2. */
  function GapExample(): Layer {
    [[], [3], [], [1]]
  }

  /** The order of its unreached nodes is not 1, 2, 3. */
  lemma UnreachedNotInIdOrder(order: seq<nat>, sweeps: seq<seq<nat>>)
    requires IsPermutation(order, 4) && order == Concat(sweeps) && Sweeps(GapExample(), Some(0), sweeps)
    ensures Reachable(GapExample(), {0}) == {0} && order != [0, 1, 2, 3]
  {
    var g := GapExample();
    OnlyTheEntry();
    GapAtTwo(Unreached(g, Some(0)));
    assert Entries(Some(0)) == {0} && |g| == 4;
    hide *;
    TailInIdOrderIff(g, Some(0), order, sweeps);
    if order == [0, 1, 2, 3] {
      ThreeAscending(order);
    }
  }

  lemma OnlyTheEntry()
    ensures InRange(GapExample()) && Reachable(GapExample(), {0}) == {0}
    ensures Unreached(GapExample(), Some(0)) == Range(4) - {0}
  {
    assert {0} <= Range(4) && Entries(Some(0)) == {0};
    ReachableContainsStart(GapExample(), {0});
    ReachableIsLeast(GapExample(), {0}, {0});
  }

  lemma ThreeAscending(order: seq<nat>)
    requires order == [0, 1, 2, 3]
    ensures StrictlyAscending(order[1..])
  {
  }

  lemma GapAtTwo(nodes: set<nat>)
    requires nodes == Range(4) - {0}
    ensures !GapsListed(GapExample(), nodes)
  {
    var g := GapExample();
    assert 1 in nodes && 2 in nodes && 3 in nodes && 3 in g[1];
  }
}
