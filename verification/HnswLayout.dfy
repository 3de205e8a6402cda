/** The graph-aware layout order: a breadth-first sweep of layer 0 from the entry point. */
module HnswLayout {
  import opened Core
  import opened Ranking
  import opened Nearest
  import opened Graph
  import opened IdLists
  import opened HnswSearch
  import opened Select

  /** Sort key of a neighbour: its out-degree, ties by id. */
  function DegreeKey(g: Layer, w: nat): Neighbor
    requires w < |g|
  {
    Neighbor(w, |g[w]| as real)
  }

  function KeysOf(g: Layer, row: seq<nat>): (r: seq<Neighbor>)
    requires Listed(|g|, row)
    ensures |r| == |row| && forall i :: 0 <= i < |row| ==> r[i] == DegreeKey(g, row[i])
  {
    seq(|row|, i requires 0 <= i < |row| => DegreeKey(g, row[i]))
  }

  ghost predicate DegreeSorted(g: Layer, row: seq<nat>)
    requires Listed(|g|, row)
  {
    forall i, j :: 0 <= i < j < |row| ==> !Less(DegreeKey(g, row[j]), DegreeKey(g, row[i]))
  }

  /** A row's nodes sorted by `DegreeKey`. */
  function ByDegree(g: Layer, row: seq<nat>): (r: seq<nat>)
    requires Listed(|g|, row)
    ensures Listed(|g|, r) && Members(r) == Members(row)
    ensures DegreeSorted(g, r)
  {
    var keys := KeysOf(g, row);
    var sorted := Sort(keys);
    SortedKeys(g, row, keys, sorted);
    IdsOf(sorted)
  }

  lemma SortedKeys(g: Layer, row: seq<nat>, keys: seq<Neighbor>, sorted: seq<Neighbor>)
    requires Listed(|g|, row) && keys == KeysOf(g, row) && multiset(sorted) == multiset(keys)
    ensures forall i :: 0 <= i < |sorted| ==> sorted[i].id < |g| && sorted[i] == DegreeKey(g, sorted[i].id)
    ensures Members(IdsOf(sorted)) == Members(row)
  {
    forall i | 0 <= i < |sorted|
      ensures sorted[i].id < |g| && sorted[i] == DegreeKey(g, sorted[i].id) && sorted[i].id in row
    {
      assert sorted[i] in multiset(sorted);
      assert sorted[i] in keys;
    }
    forall x | x in row ensures x in IdsOf(sorted) {
      var j :| 0 <= j < |row| && row[j] == x;
      assert keys[j] in multiset(keys);
      assert keys[j] in sorted;
      var i :| 0 <= i < |sorted| && sorted[i] == keys[j];
      assert IdsOf(sorted)[i] == x;
    }
  }

  // ---- hop distance ----

  lemma {:induction false} HopsMonotone(g: Layer, from: set<nat>, j: nat, k: nat)
    requires j <= k
    ensures Hops(g, from, j) <= Hops(g, from, k)
    decreases k
  {
    if j < k {
      HopsMonotone(g, from, j, k - 1);
    }
  }

  /** Earlier listed nodes are at most as many hops from `from` as later ones. */
  ghost predicate HopOrdered(g: Layer, from: set<nat>, items: seq<nat>) {
    forall i, j, k: nat :: 0 <= i < j < |items| && items[j] in Hops(g, from, k) ==> items[i] in Hops(g, from, k)
  }

  /** `lev` records each item's exact hop distance, in non-decreasing order. */
  ghost predicate Levelled(g: Layer, root: nat, items: seq<nat>, lev: seq<nat>) {
    && |lev| == |items|
    && Ascending(lev)
    && (forall i :: 0 <= i < |items| ==> items[i] in Hops(g, {root}, lev[i]))
    && (forall i, k: nat :: 0 <= i < |items| && items[i] in Hops(g, {root}, k) ==> lev[i] <= k)
  }

  lemma LevelledIsHopOrdered(g: Layer, root: nat, items: seq<nat>, lev: seq<nat>)
    requires Levelled(g, root, items, lev)
    ensures HopOrdered(g, {root}, items)
  {
    forall i, j, k: nat | 0 <= i < j < |items| && items[j] in Hops(g, {root}, k)
      ensures items[i] in Hops(g, {root}, k)
    {
      HopsMonotone(g, {root}, lev[i], k);
    }
  }

  /** Every item but the root was found through an earlier item, parents in order and the children
      of one parent in ascending (degree, id). */
  ghost predicate Cuthill(g: Layer, items: seq<nat>, parent: seq<nat>) {
    && Listed(|g|, items) && |parent| == |items|
    && (items != [] ==> parent[0] == 0) && Ascending(parent)
    && (forall i :: 0 < i < |items| ==> parent[i] < i && items[i] in g[items[parent[i]]])
    && (forall i, j :: 0 < i < j < |items| && parent[i] == parent[j] ==>
          Less(DegreeKey(g, items[i]), DegreeKey(g, items[j])))
  }

  /** An item's parent is the first item that lists it. */
  ghost predicate Earliest(g: Layer, items: seq<nat>, parent: seq<nat>)
    requires Listed(|g|, items) && |parent| == |items|
  {
    forall i, j :: 0 <= i < |items| && 0 < j < |items| && items[j] in g[items[i]] ==> parent[j] <= i
  }

  // ---- one sweep ----

  ghost function Found(before: set<nat>, items: seq<nat>): set<nat> {
    before + Members(items)
  }

  /** The sweep's state: `items` is the visited order followed by the queue, the first `p` expanded. */
  ghost predicate Sweeping(g: Layer, root: nat, before: set<nat>, items: seq<nat>, lev: seq<nat>, parent: seq<nat>, p: nat) {
    && 0 < |items| && items[0] == root && p <= |items|
    && Listed(|g|, items) && Distinct(items) && Members(items) !! before
    && Levelled(g, root, items, lev) && lev[0] == 0
    && Cuthill(g, items, parent) && Earliest(g, items, parent)
    && RowsFound(g, before, items, p)
  }

  /** Items still queued are at most one level beyond the queue's head. */
  ghost predicate Shallow(items: seq<nat>, lev: seq<nat>, p: nat)
    requires |lev| == |items|
  {
    forall j :: p <= j < |items| ==> lev[j] <= lev[p] + 1
  }

  /** Children come from expanded items only. */
  ghost predicate FromExpanded(parent: seq<nat>, p: nat) {
    forall i :: 0 < i < |parent| ==> parent[i] < p
  }

  /** The rows of the first `p` items lie inside what was found. */
  ghost predicate RowsFound(g: Layer, before: set<nat>, items: seq<nat>, p: nat)
    requires p <= |items|
  {
    forall i :: 0 <= i < p ==> items[i] < |g| && Members(g[items[i]]) <= before + Members(items)
  }

  lemma CoverStep(g: Layer, root: nat, before: set<nat>, items: seq<nat>, lev: seq<nat>, p: nat, d: nat, u: nat, w: nat)
    requires Closed(g, before) && Levelled(g, root, items, lev)
    requires p < |items| && RowsFound(g, before, items, p) && d < lev[p]
    requires u in Hops(g, {root}, d) && u < |g| && w in g[u] && u in before + Members(items)
    ensures w in before + Members(items)
  {
    hide Hops;
    assert w in Members(g[u]);
    if u in Members(items) {
      var i :| 0 <= i < |items| && items[i] == u;
      assert lev[i] <= d;
      assert i < p;
    }
  }

  lemma HopsUnfold(g: Layer, root: nat, d: nat)
    ensures Hops(g, {root}, 0) == {root}
    ensures d > 0 ==> Hops(g, {root}, d) == Hops(g, {root}, d - 1) + Successors(g, Hops(g, {root}, d - 1))
  {
  }

  /** Everything within the head's distance was found already. */
  lemma {:induction false} HeadCovers(g: Layer, root: nat, before: set<nat>, items: seq<nat>, lev: seq<nat>, p: nat, d: nat)
    requires Closed(g, before) && Levelled(g, root, items, lev) && root in Members(items)
    requires p < |items| && RowsFound(g, before, items, p) && d <= lev[p]
    ensures Hops(g, {root}, d) <= before + Members(items)
  {
    hide *;
    HopsUnfold(g, root, d);
    if d > 0 {
      HeadCovers(g, root, before, items, lev, p, d - 1);
      SuccessorsCovered(g, root, before, items, lev, p, d - 1);
    }
  }

  lemma SuccessorsCovered(g: Layer, root: nat, before: set<nat>, items: seq<nat>, lev: seq<nat>, p: nat, d: nat)
    requires Closed(g, before) && Levelled(g, root, items, lev)
    requires p < |items| && RowsFound(g, before, items, p) && d < lev[p]
    requires Hops(g, {root}, d) <= before + Members(items)
    ensures Successors(g, Hops(g, {root}, d)) <= before + Members(items)
  {
    hide Levelled, RowsFound, Closed, Members, Hops;
    forall w | w in Successors(g, Hops(g, {root}, d)) ensures w in before + Members(items) {
      var u :| u in Hops(g, {root}, d) && u < |g| && w in g[u];
      CoverStep(g, root, before, items, lev, p, d, u, w);
    }
  }

  /** Appending an undiscovered neighbour of the head keeps every part of the sweep's state. */
  lemma AppendChild(g: Layer, root: nat, before: set<nat>, items: seq<nat>, lev: seq<nat>, parent: seq<nat>, p: nat, w: nat)
    requires InRange(g) && p < |items|
    requires Sweeping(g, root, before, items, lev, parent, p) && Shallow(items, lev, p)
    requires FromExpanded(parent, p + 1)
    requires w in g[items[p]] && w !in before && w !in Members(items)
    requires Hops(g, {root}, lev[p]) <= before + Members(items)
    requires forall i :: 0 < i < |items| && parent[i] == p ==> Less(DegreeKey(g, items[i]), DegreeKey(g, w))
    ensures Sweeping(g, root, before, items + [w], lev + [lev[p] + 1], parent + [p], p)
    ensures Shallow(items + [w], lev + [lev[p] + 1], p) && FromExpanded(parent + [p], p + 1)
  {
    AppendLevel(g, root, before, items, lev, p, w);
    AppendParent(g, items, parent, p, w);
    AppendFound(g, before, items, p, w);
    AppendEarliest(g, before, items, parent, p, w);
    hide Levelled, Cuthill, Earliest, FromExpanded, RowsFound, Members, Distinct, Hops, InRange;
    AppendShallow(items, lev, p, w);
  }

  lemma AppendShallow(items: seq<nat>, lev: seq<nat>, p: nat, w: nat)
    requires |lev| == |items| && p < |items| && Shallow(items, lev, p)
    ensures Shallow(items + [w], lev + [lev[p] + 1], p)
  {
  }

  lemma AppendFound(g: Layer, before: set<nat>, items: seq<nat>, p: nat, w: nat)
    requires InRange(g) && p < |items| && Listed(|g|, items) && Distinct(items) && Members(items) !! before
    requires RowsFound(g, before, items, p)
    requires w in g[items[p]] && w !in before && w !in Members(items)
    ensures Listed(|g|, items + [w]) && Distinct(items + [w]) && Members(items + [w]) !! before
    ensures Members(items + [w]) == Members(items) + {w}
    ensures RowsFound(g, before, items + [w], p)
  {
    assert Members(items + [w]) == Members(items) + {w};
  }

  lemma ChildIsNext(g: Layer, root: nat, before: set<nat>, items: seq<nat>, lev: seq<nat>, p: nat, w: nat)
    requires p < |items| && Listed(|g|, items) && Levelled(g, root, items, lev)
    requires w in g[items[p]] && w !in before && w !in Members(items)
    requires Hops(g, {root}, lev[p]) <= before + Members(items)
    ensures w in Hops(g, {root}, lev[p] + 1)
    ensures forall k: nat :: w in Hops(g, {root}, k) ==> lev[p] + 1 <= k
  {
    assert items[p] in Hops(g, {root}, lev[p]);
    assert w in Successors(g, Hops(g, {root}, lev[p]));
    forall k: nat | w in Hops(g, {root}, k) ensures lev[p] + 1 <= k {
      if k <= lev[p] {
        HopsMonotone(g, {root}, k, lev[p]);
      }
    }
  }

  lemma AppendLevel(g: Layer, root: nat, before: set<nat>, items: seq<nat>, lev: seq<nat>, p: nat, w: nat)
    requires p < |items| && Listed(|g|, items)
    requires Levelled(g, root, items, lev) && Shallow(items, lev, p)
    requires w in g[items[p]] && w !in before && w !in Members(items)
    requires Hops(g, {root}, lev[p]) <= before + Members(items)
    ensures Levelled(g, root, items + [w], lev + [lev[p] + 1])
  {
    hide Hops;
    ChildIsNext(g, root, before, items, lev, p, w);
    var lev' := lev + [lev[p] + 1];
    forall i, j | 0 <= i < j < |lev'| ensures lev'[i] <= lev'[j] {
      if j == |lev| && i < p {
        assert lev[i] <= lev[p];
      }
    }
  }

  lemma AppendParent(g: Layer, items: seq<nat>, parent: seq<nat>, p: nat, w: nat)
    requires InRange(g) && 0 < |items| && p < |items| && Cuthill(g, items, parent) && FromExpanded(parent, p + 1)
    requires w in g[items[p]]
    requires forall i :: 0 < i < |items| && parent[i] == p ==> Less(DegreeKey(g, items[i]), DegreeKey(g, w))
    ensures Cuthill(g, items + [w], parent + [p]) && FromExpanded(parent + [p], p + 1)
  {
    RowListed(g, items[p]);
    hide Less, DegreeKey, InRange;
    ParentsAscend(parent, p);
    var items', parent' := items + [w], parent + [p];
    assert w < |g|;
    forall i | 0 < i < |items'| ensures parent'[i] < i && items'[i] in g[items'[parent'[i]]] {
      if i < |items| {
        assert parent'[i] == parent[i] && items'[parent[i]] == items[parent[i]];
      } else {
        assert items'[p] == items[p];
      }
    }
    forall i, j | 0 < i < j < |items'| && parent'[i] == parent'[j]
      ensures Less(DegreeKey(g, items'[i]), DegreeKey(g, items'[j]))
    {
      assert items'[i] == items[i] && parent'[i] == parent[i];
    }
  }

  /** No expanded item before the head lists the new child, and none lists an item found later than it. */
  lemma AppendEarliest(g: Layer, before: set<nat>, items: seq<nat>, parent: seq<nat>, p: nat, w: nat)
    requires Listed(|g|, items) && |parent| == |items| && p < |items| && w < |g|
    requires Earliest(g, items, parent) && FromExpanded(parent, p + 1)
    requires RowsFound(g, before, items, p) && w !in before && w !in Members(items)
    ensures Earliest(g, items + [w], parent + [p])
  {
    forall i | 0 <= i < p ensures w !in g[items[i]] {
      assert w !in Members(g[items[i]]);
    }
    hide RowsFound, Members, Listed;
  }

  lemma ParentsAscend(parent: seq<nat>, p: nat)
    requires parent != [] && Ascending(parent) && parent[0] == 0 && FromExpanded(parent, p + 1)
    ensures Ascending(parent + [p]) && FromExpanded(parent + [p], p + 1)
  {
  }

  /** Inside the expansion of item `p`, whose row in degree order is `row`: the first `j` are done. */
  ghost predicate Expanding(g: Layer, root: nat, before: set<nat>, items: seq<nat>, lev: seq<nat>, parent: seq<nat>,
                            p: nat, row: seq<nat>, j: nat)
    requires Listed(|g|, row) && j <= |row|
  {
    && p < |items| && Sweeping(g, root, before, items, lev, parent, p)
    && Shallow(items, lev, p) && FromExpanded(parent, p + 1)
    && Hops(g, {root}, lev[p]) <= Found(before, items)
    && Listed(|g|, items) && |parent| == |items| && SiblingsFirst(g, items, parent, p, row, j)
    && (forall k :: 0 <= k < j ==> row[k] in Found(before, items))
  }

  lemma StartExpanding(g: Layer, root: nat, before: set<nat>, items: seq<nat>, lev: seq<nat>, parent: seq<nat>,
                       p: nat, row: seq<nat>)
    requires InRange(g) && Closed(g, before) && Listed(|g|, row)
    requires p < |items| && Sweeping(g, root, before, items, lev, parent, p)
    requires Shallow(items, lev, p) && FromExpanded(parent, p)
    ensures Expanding(g, root, before, items, lev, parent, p, row, 0)
  {
    assert items[0] in Members(items);
    HeadCovers(g, root, before, items, lev, p, lev[p]);
  }

  lemma SkipChild(g: Layer, root: nat, before: set<nat>, items: seq<nat>, lev: seq<nat>, parent: seq<nat>,
                  p: nat, row: seq<nat>, j: nat)
    requires Listed(|g|, row) && j < |row|
    requires Expanding(g, root, before, items, lev, parent, p, row, j) && row[j] in Found(before, items)
    ensures Expanding(g, root, before, items, lev, parent, p, row, j + 1)
  {
  }

  lemma TakeChild(g: Layer, root: nat, before: set<nat>, items: seq<nat>, lev: seq<nat>, parent: seq<nat>,
                  p: nat, row: seq<nat>, j: nat)
    requires InRange(g) && Listed(|g|, row) && j < |row|
    requires DegreeSorted(g, row)
    requires Expanding(g, root, before, items, lev, parent, p, row, j) && row[j] !in Found(before, items)
    requires p < |items| && items[p] < |g| && Members(row) == Members(g[items[p]])
    ensures |lev| == |items| && p < |items|
    ensures Expanding(g, root, before, items + [row[j]], lev + [lev[p] + 1], parent + [p], p, row, j + 1)
    ensures Found(before, items + [row[j]]) == Found(before, items) + {row[j]}
  {
    var w := row[j];
    ChildAfterSiblings(g, root, before, items, lev, parent, p, row, j);
    AppendChild(g, root, before, items, lev, parent, p, w);
    AppendSiblings(g, items, parent, p, row, j);
    assert Members(items + [w]) == Members(items) + {w};
    hide Sweeping, Shallow, FromExpanded, Hops, Less, DegreeKey, DegreeSorted, Members;
  }

  lemma ChildAfterSiblings(g: Layer, root: nat, before: set<nat>, items: seq<nat>, lev: seq<nat>, parent: seq<nat>,
                           p: nat, row: seq<nat>, j: nat)
    requires Listed(|g|, row) && j < |row| && p < |items| && Listed(|g|, items)
    requires Expanding(g, root, before, items, lev, parent, p, row, j) && row[j] !in Found(before, items)
    requires Members(row) == Members(g[items[p]])
    ensures row[j] in g[items[p]] && row[j] !in before && row[j] !in Members(items)
    ensures forall i :: 0 < i < |items| && parent[i] == p ==> Less(DegreeKey(g, items[i]), DegreeKey(g, row[j]))
  {
    hide Sweeping, Shallow, FromExpanded, Hops;
    assert row[j] in Members(row);
    forall i | 0 < i < |items| && parent[i] == p ensures Less(DegreeKey(g, items[i]), DegreeKey(g, row[j])) {
      assert items[i] in Members(items);
    }
  }

  /** No later entry of the degree-ordered row precedes a child taken so far. */
  ghost predicate SiblingsFirst(g: Layer, items: seq<nat>, parent: seq<nat>, p: nat, row: seq<nat>, j: nat)
    requires Listed(|g|, row) && Listed(|g|, items) && |parent| == |items|
  {
    forall i, k :: 0 < i < |items| && parent[i] == p && j <= k < |row| ==>
      !Less(DegreeKey(g, row[k]), DegreeKey(g, items[i]))
  }

  lemma AppendSiblings(g: Layer, items: seq<nat>, parent: seq<nat>, p: nat, row: seq<nat>, j: nat)
    requires Listed(|g|, row) && Listed(|g|, items) && |parent| == |items| && j < |row|
    requires DegreeSorted(g, row) && SiblingsFirst(g, items, parent, p, row, j)
    ensures Listed(|g|, items + [row[j]]) && SiblingsFirst(g, items + [row[j]], parent + [p], p, row, j + 1)
  {
    hide Less, DegreeKey;
  }

  lemma EndExpanding(g: Layer, root: nat, before: set<nat>, items: seq<nat>, lev: seq<nat>, parent: seq<nat>,
                     p: nat, row: seq<nat>)
    requires Listed(|g|, row) && Expanding(g, root, before, items, lev, parent, p, row, |row|)
    requires Members(row) == Members(g[items[p]])
    ensures Sweeping(g, root, before, items, lev, parent, p + 1) && FromExpanded(parent, p + 1)
    ensures p + 1 < |items| ==> Shallow(items, lev, p + 1)
  {
    forall w | w in Members(g[items[p]]) ensures w in Found(before, items) {
      assert w in row;
    }
    if p + 1 < |items| {
      assert lev[p] <= lev[p + 1];
    }
  }

  /** Expand the node just moved from the queue to the end of `order`. */
  method ExpandHead(g: Layer, ghost root: nat, ghost before: set<nat>, seen: array<bool>, order: seq<nat>, queue0: seq<nat>,
                    ghost lev0: seq<nat>, ghost parent0: seq<nat>)
    returns (queue: seq<nat>, ghost lev: seq<nat>, ghost parent: seq<nat>)
    requires InRange(g) && Closed(g, before) && seen.Length == |g| && order != []
    requires Sweeping(g, root, before, order + queue0, lev0, parent0, |order| - 1)
    requires Shallow(order + queue0, lev0, |order| - 1) && FromExpanded(parent0, |order| - 1)
    requires Marks(seen, Found(before, order + queue0))
    modifies seen
    ensures Sweeping(g, root, before, order + queue, lev, parent, |order|) && FromExpanded(parent, |order|)
    ensures queue != [] ==> Shallow(order + queue, lev, |order|)
    ensures Marks(seen, Found(before, order + queue))
  {
    hide *;
    var u := order[|order| - 1];
    ghost var p, items := |order| - 1, order + queue0;
    assert items[p] == u;
    HeadInRange(g, root, before, items, lev0, parent0, p);
    RowListed(g, u);
    var row := ByDegree(g, g[u]);
    queue, lev, parent := queue0, lev0, parent0;
    StartExpanding(g, root, before, items, lev, parent, p, row);
    for j := 0 to |row|
      invariant items == order + queue
      invariant p < |items| && items[p] == u
      invariant Expanding(g, root, before, items, lev, parent, p, row, j)
      invariant Marks(seen, Found(before, items))
    {
      RowInRange(g, row, j);
      var marked := Look(seen, row[j], Found(before, items));
      if marked {
        SkipChild(g, root, before, items, lev, parent, p, row, j);
      } else {
        TakeChild(g, root, before, items, lev, parent, p, row, j);
        Mark(seen, row[j], Found(before, items));
        AppendQueue(order, queue, row[j]);
        lev, parent := lev + [lev[p] + 1], parent + [p];
        items := items + [row[j]];
        queue := queue + [row[j]];
      }
    }
    EndExpanding(g, root, before, items, lev, parent, p, row);
  }

  lemma HeadInRange(g: Layer, root: nat, before: set<nat>, items: seq<nat>, lev: seq<nat>, parent: seq<nat>, p: nat)
    requires p < |items| && Sweeping(g, root, before, items, lev, parent, p)
    ensures items[p] < |g|
  {
  }

  lemma AppendQueue(order: seq<nat>, queue: seq<nat>, w: nat)
    ensures order + (queue + [w]) == order + queue + [w]
  {
  }

  lemma RowInRange(g: Layer, row: seq<nat>, j: nat)
    requires Listed(|g|, row) && j < |row|
    ensures row[j] < |g|
  {
  }

  method Look(seen: array<bool>, w: nat, ghost found: set<nat>) returns (marked: bool)
    requires w < seen.Length && Marks(seen, found)
    ensures marked <==> w in found
  {
    marked := seen[w];
  }

  method Mark(seen: array<bool>, w: nat, ghost found: set<nat>)
    requires w < seen.Length && Marks(seen, found)
    modifies seen
    ensures Marks(seen, found + {w})
  {
    seen[w] := true;
  }

  lemma StartSweeping(g: Layer, root: nat, before: set<nat>)
    requires root < |g| && root !in before
    ensures Sweeping(g, root, before, [root], [0], [0], 0)
    ensures Shallow([root], [0], 0) && FromExpanded([0], 0)
    ensures Found(before, [root]) == before + {root}
  {
    assert Members([root]) == {root};
  }

  /** A drained queue: the sweep found exactly the reachable nodes not found before, nearest first. */
  lemma SweepComplete(g: Layer, root: nat, before: set<nat>, items: seq<nat>, lev: seq<nat>, parent: seq<nat>)
    requires InRange(g) && Closed(g, before) && root < |g|
    requires Sweeping(g, root, before, items, lev, parent, |items|)
    ensures Closed(g, Found(before, items))
    ensures Members(items) == Reachable(g, {root}) - before
    ensures HopOrdered(g, {root}, items) && Cuthill(g, items, parent) && Earliest(g, items, parent)
    ensures Distinct(items) && Listed(|g|, items) && Members(items) !! before
  {
    LevelledIsHopOrdered(g, root, items, lev);
    var found := Found(before, items);
    forall u, w | u in found && u < |g| && w in Members(g[u]) ensures w in found {
      if u in Members(items) {
        var i :| 0 <= i < |items| && items[i] == u;
      }
    }
    assert items[0] in Members(items);
    ReachableIsLeast(g, {root}, found);
    forall x | x in Members(items) ensures x in Reachable(g, {root}) {
      var i :| 0 <= i < |items| && items[i] == x;
      assert x in Hops(g, {root}, lev[i]);
    }
  }

  lemma ListedDistinctBound(n: nat, s: seq<nat>)
    requires Listed(n, s) && Distinct(s)
    ensures |s| <= n
  {
    MembersSize(s);
    SubsetSize(Members(s), Range(n));
  }

  lemma SweepBounded(g: Layer, root: nat, before: set<nat>, items: seq<nat>, lev: seq<nat>, parent: seq<nat>, p: nat)
    requires Sweeping(g, root, before, items, lev, parent, p)
    ensures |items| <= |g|
  {
    ListedDistinctBound(|g|, items);
  }

  /** One breadth-first sweep from an unvisited root. */
  method SweepFrom(g: Layer, root: nat, ghost before: set<nat>, seen: array<bool>)
    returns (swept: seq<nat>, ghost parent: seq<nat>)
    requires InRange(g) && Closed(g, before) && seen.Length == |g| && root < |g| && root !in before
    requires Marks(seen, before)
    modifies seen
    ensures Marks(seen, Found(before, swept)) && Closed(g, Found(before, swept))
    ensures Members(swept) == Reachable(g, {root}) - before
    ensures HopOrdered(g, {root}, swept) && Cuthill(g, swept, parent) && Earliest(g, swept, parent)
    ensures Distinct(swept) && Listed(|g|, swept) && Members(swept) !! before
    ensures swept != [] && swept[0] == root
  {
    StartSweeping(g, root, before);
    Mark(seen, root, before);
    var queue := [root];
    swept := [];
    ghost var lev;
    lev, parent := [0], [0];
    assert swept + queue == [root];
    while queue != []
      invariant Sweeping(g, root, before, swept + queue, lev, parent, |swept|) && FromExpanded(parent, |swept|)
      invariant queue != [] ==> Shallow(swept + queue, lev, |swept|)
      invariant Marks(seen, Found(before, swept + queue))
      decreases |g| - |swept|
    {
      SweepBounded(g, root, before, swept + queue, lev, parent, |swept|);
      hide *;
      var u, rest := queue[0], queue[1..];
      DequeueHead(swept, queue);
      swept := swept + [u];
      queue, lev, parent := ExpandHead(g, root, before, seen, swept, rest, lev, parent);
    }
    assert swept + queue == swept;
    SweepComplete(g, root, before, swept, lev, parent);
  }

  lemma DequeueHead(swept: seq<nat>, queue: seq<nat>)
    requires queue != []
    ensures swept + [queue[0]] + queue[1..] == swept + queue
  {
  }

  // ---- the whole order ----

  /** What has been laid out so far: distinct, closed under edges, covering the roots tried. */
  ghost predicate LaidOut(g: Layer, order: seq<nat>, roots: nat) {
    && Distinct(order) && Listed(|g|, order) && Closed(g, Members(order))
    && forall r: nat :: r < roots ==> r in Members(order)
  }

  lemma AppendSweep(g: Layer, order: seq<nat>, swept: seq<nat>, roots: nat)
    requires LaidOut(g, order, roots)
    requires Distinct(swept) && Listed(|g|, swept) && Members(swept) !! Members(order)
    requires Closed(g, Found(Members(order), swept))
    ensures Members(order + swept) == Found(Members(order), swept)
    ensures LaidOut(g, order + swept, roots)
  {
    var all := order + swept;
    assert Members(all) == Found(Members(order), swept);
    forall i, j | 0 <= i < j < |all| ensures all[i] != all[j] {
      if i < |order| && j >= |order| {
        assert order[i] in Members(order) && swept[j - |order|] in Members(swept);
      }
    }
  }

  /** Lists one after another. */
  ghost function Concat(lists: seq<seq<nat>>): seq<nat> {
    if lists == [] then [] else Concat(lists[..|lists| - 1]) + lists[|lists| - 1]
  }

  /** One finished sweep: from its root, exactly what it reaches that was not laid out before, by hop distance,
      each node found through the first that lists it, children in ascending (degree, id). */
  ghost predicate SweepOf(g: Layer, before: set<nat>, root: nat, swept: seq<nat>) {
    && swept != [] && swept[0] == root && root !in before
    && Members(swept) == Reachable(g, {root}) - before
    && HopOrdered(g, {root}, swept)
    && exists parent :: Cuthill(g, swept, parent) && Earliest(g, swept, parent)
  }

  /** The roots: the entry point if there is one, then each time the least id not laid out yet. */
  ghost predicate RootOf(entry: Option<nat>, n: nat, before: set<nat>, root: nat) {
    if n == 0 && entry.Some? then root == entry.value else forall r: nat :: r < root ==> r in before
  }

  /** The sweeps that make up a layout order. */
  ghost predicate Sweeps(g: Layer, entry: Option<nat>, sweeps: seq<seq<nat>>) {
    if sweeps == [] then true
    else
      var rest, last := sweeps[..|sweeps| - 1], sweeps[|sweeps| - 1];
      && Sweeps(g, entry, rest)
      && last != []
      && SweepOf(g, Members(Concat(rest)), last[0], last)
      && RootOf(entry, |rest|, Members(Concat(rest)), last[0])
  }

  lemma OneMoreSweep(g: Layer, entry: Option<nat>, sweeps: seq<seq<nat>>, order: seq<nat>, root: nat, swept: seq<nat>,
                     parent: seq<nat>)
    requires Sweeps(g, entry, sweeps) && order == Concat(sweeps)
    requires swept != [] && swept[0] == root && root !in Members(order)
    requires Members(swept) == Reachable(g, {root}) - Members(order) && HopOrdered(g, {root}, swept)
    requires Cuthill(g, swept, parent) && Earliest(g, swept, parent)
    requires RootOf(entry, |sweeps|, Members(order), root)
    ensures Sweeps(g, entry, sweeps + [swept]) && order + swept == Concat(sweeps + [swept])
  {
    hide Reachable, HopOrdered, Cuthill, Earliest, RootOf, Members;
    assert (sweeps + [swept])[..|sweeps|] == sweeps;
  }

  lemma LeastRoot(g: Layer, entry: Option<nat>, n: nat, order: seq<nat>, root: nat)
    requires LaidOut(g, order, root) && (n > 0 || entry.None?)
    ensures RootOf(entry, n, Members(order), root)
  {
  }

  /** `HnswIndex::layout_order`: always a permutation of the node ids, made of breadth-first sweeps: first from the
      entry point, then from the least id not reached yet, until every node is laid out. */
  method LayoutOrder(t: Topology) returns (order: seq<nat>, ghost sweeps: seq<seq<nat>>)
    requires WellFormed(t)
    ensures IsPermutation(order, t.len)
    ensures order == Concat(sweeps) && Sweeps(t.adjacency[0], t.entryPoint, sweeps)
    ensures t.entryPoint.Some? ==>
              var g, entry := t.adjacency[0], t.entryPoint.value;
              && sweeps != [] && sweeps[0] <= order
              && Members(sweeps[0]) == Reachable(g, {entry}) && HopOrdered(g, {entry}, sweeps[0])
  {
    hide LaidOut, HopOrdered, Cuthill, Reachable, Closed, Distinct, Listed, Found, InRange, Members, IsPermutation;
    hide RootOf, Sweeps, Concat;
    var n, g := t.len, t.adjacency[0];
    order, sweeps := [], [];
    var seen := new bool[n](_ => false);
    NothingLaidOut(g);
    NoSweeps(g, t.entryPoint);
    if t.entryPoint.Some? {
      ghost var parent;
      order, parent := SweepFrom(g, t.entryPoint.value, {}, seen);
      FirstSweep(g, t.entryPoint.value, order);
      FirstRoot(t.entryPoint.value);
      OneMoreSweep(g, t.entryPoint, [], [], t.entryPoint.value, order, parent);
      assert [] + order == order;
      sweeps := [] + [order];
    }
    ghost var first := order;
    for root := 0 to n
      invariant LaidOut(g, order, root)
      invariant Marks(seen, Members(order))
      invariant first <= order
      invariant order == Concat(sweeps) && Sweeps(g, t.entryPoint, sweeps)
      invariant t.entryPoint.Some? ==> sweeps != [] && sweeps[0] == first
    {
      RootStep(g, order, root);
      if !seen[root] {
        LaidOutClosed(g, order, root);
        LeastRoot(g, t.entryPoint, |sweeps|, order, root);
        var swept; ghost var parent;
        swept, parent := SweepFrom(g, root, Members(order), seen);
        AppendSweep(g, order, swept, root);
        OneMoreSweep(g, t.entryPoint, sweeps, order, root, swept, parent);
        RootStep(g, order + swept, root);
        FirstIsMember(swept);
        assert Found(Members(order), swept) == Members(order + swept);
        AppendedMember(order, swept, root);
        order := order + swept;
        sweeps := sweeps + [swept];
      }
    }
    LaidOutAll(g, order);
  }

  lemma NoSweeps(g: Layer, entry: Option<nat>)
    ensures Sweeps(g, entry, []) && Concat([]) == []
  {
  }

  lemma FirstRoot(entry: nat)
    ensures RootOf(Some(entry), 0, {}, entry)
  {
  }

  lemma NothingLaidOut(g: Layer)
    ensures LaidOut(g, [], 0) && Members([]) == {} && Closed(g, {})
  {
  }

  /** The sweep from the entry point lays out exactly what it reaches. */
  lemma FirstSweep(g: Layer, entry: nat, swept: seq<nat>)
    requires Members(swept) == Reachable(g, {entry}) - {}
    requires Distinct(swept) && Listed(|g|, swept) && Closed(g, Found({}, swept))
    ensures LaidOut(g, swept, 0) && Members(swept) == Reachable(g, {entry}) == Found({}, swept)
    ensures swept[..|swept|] == swept
  {
    hide Reachable;
    assert Found({}, swept) == Members(swept);
  }

  /** A root already laid out is skipped. */
  lemma RootStep(g: Layer, order: seq<nat>, root: nat)
    requires LaidOut(g, order, root)
    ensures root in Members(order) ==> LaidOut(g, order, root + 1)
  {
  }

  lemma LaidOutClosed(g: Layer, order: seq<nat>, root: nat)
    requires LaidOut(g, order, root)
    ensures Closed(g, Members(order))
  {
  }

  lemma FirstIsMember(s: seq<nat>)
    requires s != []
    ensures s[0] in Members(s)
  {
  }

  lemma AppendedMember(order: seq<nat>, swept: seq<nat>, x: nat)
    requires x in Members(swept)
    ensures x in Members(order + swept)
  {
  }

  lemma LaidOutAll(g: Layer, order: seq<nat>)
    requires LaidOut(g, order, |g|)
    ensures IsPermutation(order, |g|)
  {
    MembersSize(order);
    assert Members(order) == Range(|g|);
  }
}
