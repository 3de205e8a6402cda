/** Query-time search of the graph: greedy descent of the upper layers, then the layer-0 beam. */
module HnswSearch {
  import opened Core
  import opened Ranking
  import opened Nearest
  import opened Graph
  import opened IdLists
  import opened Beam

  /** The graph as the searches read it: `adjacency[layer][node]` lists out-neighbours. */
  datatype Topology = Topology(
    adjacency: seq<Layer>,
    nodeLevels: seq<nat>,
    entryPoint: Option<nat>,
    maxLayer: nat,
    len: nat)

  ghost predicate WellFormed(t: Topology) {
    && |t.adjacency| == t.maxLayer + 1
    && (forall l :: 0 <= l < |t.adjacency| ==> |t.adjacency[l]| == t.len && InRange(t.adjacency[l]))
    && |t.nodeLevels| == t.len
    && (t.entryPoint.Some? ==> t.entryPoint.value < t.len)
  }

  // ---- greedy descent of one layer ----

  /** Nodes that rank before `c`: the measure every greedy move shrinks. */
  ghost function Before(sc: seq<real>, c: nat): set<nat>
    requires c < |sc|
  {
    set x | x in Range(|sc|) && Closer(sc, x, c)
  }

  ghost predicate LocalMinimum(g: Layer, sc: seq<real>, c: nat)
    requires c < |g| == |sc| && Listed(|sc|, g[c])
  {
    forall w :: w in g[c] ==> sc[c] <= sc[w]
  }

  lemma BestNeighbour(sc: seq<real>, s: seq<nat>, c: nat)
    requires c < |sc| && Listed(|sc|, s)
    ensures Within(sc, Members(s) + {c})
  {
  }

  /** Reference descent: move to the closest of the neighbours and the node itself until it stays.
      Yields the final node and the number of distances evaluated. */
  ghost function GreedyRun(g: Layer, sc: seq<real>, c: nat): (r: (nat, nat))
    requires InRange(g) && c < |g| == |sc|
    ensures r.0 < |g|
    decreases Before(sc, c)
  {
    BestNeighbour(sc, g[c], c);
    var w := Closest(sc, Members(g[c]) + {c});
    if w == c then (c, |g[c]|)
    else
      MoveShrinksBefore(sc, w, c);
      var r := GreedyRun(g, sc, w);
      (r.0, r.1 + |g[c]|)
  }

  lemma MoveShrinksBefore(sc: seq<real>, w: nat, c: nat)
    requires w < |sc| && c < |sc| && Closer(sc, w, c)
    ensures Before(sc, w) < Before(sc, c)
  {
    assert w in Before(sc, c) && w !in Before(sc, w);
  }

  lemma StrictlyCloser(sc: seq<real>, w: nat, c: nat)
    requires w < |sc| && c < |sc| && sc[w] < sc[c]
    ensures Closer(sc, w, c)
  {
  }

  /** The first strictly closest of `c` and the first `i` entries of a row. */
  function Scan(sc: seq<real>, row: seq<nat>, c: nat, i: nat): (w: nat)
    requires c < |sc| && Listed(|sc|, row) && i <= |row|
    ensures w < |sc| && (w == c || w in row) && sc[w] <= sc[c] && (w != c ==> sc[w] < sc[c])
    ensures forall j :: 0 <= j < i ==> sc[w] <= sc[row[j]]
  {
    if i == 0 then c
    else
      var w := Scan(sc, row, c, i - 1);
      if sc[row[i - 1]] < sc[w] then row[i - 1] else w
  }

  /** The climb with ties: the node a pass over the out-edges ends on depends on their order.
      Yields the final node and the number of distances evaluated. */
  ghost function ScanRun(g: Layer, sc: seq<real>, c: nat): (r: (nat, nat))
    requires InRange(g) && c < |g| == |sc|
    ensures r.0 < |g|
    decreases Before(sc, c)
  {
    var w := Scan(sc, g[c], c, |g[c]|);
    if w == c then (c, |g[c]|)
    else
      MoveShrinksBefore(sc, w, c);
      var r := ScanRun(g, sc, w);
      (r.0, r.1 + |g[c]|)
  }

  /** With distinct scores one pass finds the closest of the neighbours and the node itself. */
  lemma ScanFindsClosest(g: Layer, sc: seq<real>, c: nat)
    requires InRange(g) && c < |g| == |sc| && DistinctScores(sc)
    ensures Within(sc, Members(g[c]) + {c})
    ensures Scan(sc, g[c], c, |g[c]|) == Closest(sc, Members(g[c]) + {c})
  {
    BestNeighbour(sc, g[c], c);
    var v, w := Scan(sc, g[c], c, |g[c]|), Closest(sc, Members(g[c]) + {c});
    assert v in Members(g[c]) + {c};
    assert sc[v] <= sc[w];
  }

  /** With distinct scores the order of the out-edges does not show. */
  lemma {:induction false} ScanRunIsGreedyRun(g: Layer, sc: seq<real>, c: nat)
    requires InRange(g) && c < |g| == |sc| && DistinctScores(sc)
    ensures ScanRun(g, sc, c) == GreedyRun(g, sc, c)
    decreases Before(sc, c)
  {
    ScanFindsClosest(g, sc, c);
    var w := Scan(sc, g[c], c, |g[c]|);
    if w != c {
      MoveShrinksBefore(sc, w, c);
      ScanRunIsGreedyRun(g, sc, w);
    }
  }

  /** One pass over the out-edges of `from`, keeping the first strictly closest node seen. */
  method Sweep(g: Layer, sc: seq<real>, from: nat) returns (current: nat)
    requires InRange(g) && from < |g| == |sc|
    ensures current == Scan(sc, g[from], from, |g[from]|)
  {
    current := from;
    for i := 0 to |g[from]|
      invariant current == Scan(sc, g[from], from, i)
    {
      if sc[g[from][i]] < sc[current] {
        current := g[from][i];
      }
    }
  }

  /** Hill-climb on one layer (beam width 1). */
  method GreedyDescend(g: Layer, sc: seq<real>, start: nat) returns (current: nat, evaluated: nat)
    requires InRange(g) && start < |g| == |sc|
    ensures current in Reachable(g, {start})
    ensures sc[current] <= sc[start] && LocalMinimum(g, sc, current) && ClimbedOn(g, sc, start, current)
    ensures (current, evaluated) == ScanRun(g, sc, start)
    ensures DistinctScores(sc) ==> (current, evaluated) == GreedyRun(g, sc, start)
  {
    hide GreedyRun, DistinctScores, Reachable, Closer;
    current, evaluated := start, 0;
    var improved := true;
    ReachableContainsStart(g, {start});
    while improved
      invariant current < |g| && current in Reachable(g, {start})
      invariant sc[current] <= sc[start]
      invariant !improved ==> LocalMinimum(g, sc, current)
      invariant ScanRun(g, sc, start) ==
          if improved then (ScanRun(g, sc, current).0, ScanRun(g, sc, current).1 + evaluated)
          else (current, evaluated)
      decreases Before(sc, current), improved
    {
      var from := current;
      current := Sweep(g, sc, from);
      if current != from {
        ReachableStep(g, {start}, from, current);
        StrictlyCloser(sc, current, from);
        MoveShrinksBefore(sc, current, from);
      }
      evaluated := evaluated + |g[from]|;
      improved := current != from;
    }
    if DistinctScores(sc) {
      ScanRunIsGreedyRun(g, sc, start);
    }
  }

  /** A finished hill-climb of one layer: where the edge-by-edge climb ends, a reachable node, no worse than the start,
      no neighbour of which is better. */
  ghost predicate ClimbedOn(g: Layer, sc: seq<real>, start: nat, to: nat) {
    && InRange(g) && start < |g| == |sc| && to in Reachable(g, {start})
    && to < |g| && sc[to] <= sc[start] && LocalMinimum(g, sc, to)
    && to == ScanRun(g, sc, start).0
  }

  /** Hill-climbs of layers `top`, `top - 1`, ..., `layer + 1`, each from where the one above ended. */
  ghost predicate Climbed(adjacency: seq<Layer>, sc: seq<real>, top: nat, layer: nat, start: nat, to: nat)
    decreases top - layer
  {
    && layer <= top < |adjacency|
    && if layer == top then to == start
       else
         var g := adjacency[layer + 1];
         exists mid: nat :: ClimbedOn(g, sc, mid, to) && Climbed(adjacency, sc, top, layer + 1, start, mid)
  }

  lemma ClimbNext(adjacency: seq<Layer>, sc: seq<real>, top: nat, layer: nat, start: nat, mid: nat, to: nat)
    requires layer < top < |adjacency| && Climbed(adjacency, sc, top, layer + 1, start, mid)
    requires ClimbedOn(adjacency[layer + 1], sc, mid, to)
    ensures Climbed(adjacency, sc, top, layer, start, to)
  {
    hide ClimbedOn;
  }

  /** The climbs end on one node. */
  lemma {:induction false} ClimbedSame(adjacency: seq<Layer>, sc: seq<real>, top: nat, layer: nat, start: nat, a: nat, b: nat)
    requires Climbed(adjacency, sc, top, layer, start, a) && Climbed(adjacency, sc, top, layer, start, b)
    ensures a == b
    decreases top - layer
  {
    hide *;
    TopBounds(adjacency, sc, top, layer, start, a);
    TopBounds(adjacency, sc, top, layer, start, b);
    if layer < top {
      var mid := LastClimb(adjacency, sc, top, layer, start, a);
      var mid' := LastClimb(adjacency, sc, top, layer, start, b);
      ClimbedSame(adjacency, sc, top, layer + 1, start, mid, mid');
      ClimbedOnSame(adjacency[layer + 1], sc, mid, a, b);
    }
  }

  lemma TopBounds(adjacency: seq<Layer>, sc: seq<real>, top: nat, layer: nat, start: nat, to: nat)
    requires Climbed(adjacency, sc, top, layer, start, to)
    ensures layer <= top < |adjacency| && (layer == top ==> to == start)
  {
  }

  lemma LastClimb(adjacency: seq<Layer>, sc: seq<real>, top: nat, layer: nat, start: nat, to: nat) returns (mid: nat)
    requires Climbed(adjacency, sc, top, layer, start, to) && layer < top
    ensures top < |adjacency| && ClimbedOn(adjacency[layer + 1], sc, mid, to)
    ensures Climbed(adjacency, sc, top, layer + 1, start, mid)
  {
    hide ClimbedOn;
    mid :| ClimbedOn(adjacency[layer + 1], sc, mid, to) && Climbed(adjacency, sc, top, layer + 1, start, mid);
  }

  lemma ClimbedOnSame(g: Layer, sc: seq<real>, start: nat, a: nat, b: nat)
    requires ClimbedOn(g, sc, start, a) && ClimbedOn(g, sc, start, b)
    ensures a == b
  {
  }

  /** Reference descent of layers `layer`, `layer - 1`, ..., 1. */
  ghost function DescendRun(t: Topology, sc: seq<real>, layer: nat, c: nat): (r: (nat, nat))
    requires WellFormed(t) && |sc| == t.len && layer <= t.maxLayer && c < t.len
    ensures r.0 < t.len
  {
    if layer == 0 then (c, 0)
    else
      var here := GreedyRun(t.adjacency[layer], sc, c);
      var below := DescendRun(t, sc, layer - 1, here.0);
      (below.0, here.1 + below.1)
  }

  /** The same descent with ties, edge by edge. */
  ghost function ScanDescent(t: Topology, sc: seq<real>, layer: nat, c: nat): (r: (nat, nat))
    requires WellFormed(t) && |sc| == t.len && layer <= t.maxLayer && c < t.len
    ensures r.0 < t.len
  {
    if layer == 0 then (c, 0)
    else
      var here := ScanRun(t.adjacency[layer], sc, c);
      var below := ScanDescent(t, sc, layer - 1, here.0);
      (below.0, here.1 + below.1)
  }

  lemma {:induction false} ScanDescentIsDescendRun(t: Topology, sc: seq<real>, layer: nat, c: nat)
    requires WellFormed(t) && |sc| == t.len && layer <= t.maxLayer && c < t.len && DistinctScores(sc)
    ensures ScanDescent(t, sc, layer, c) == DescendRun(t, sc, layer, c)
  {
    hide DistinctScores, InRange, ScanRun, GreedyRun;
    if layer > 0 {
      ScanRunIsGreedyRun(t.adjacency[layer], sc, c);
      ScanDescentIsDescendRun(t, sc, layer - 1, ScanRun(t.adjacency[layer], sc, c).0);
    }
  }

  // ---- a climb as a path ----

  /** `to` is where one pass over the out-edges of `from` ends: the first of the closest ones, if any is closer. */
  ghost predicate FirstClosest(g: Layer, sc: seq<real>, from: nat, to: nat)
    requires InRange(g) && from < |g| == |sc|
  {
    var row := g[from];
    exists j :: 0 <= j < |row| && row[j] == to && sc[to] < sc[from] &&
      forall l :: 0 <= l < |row| ==> if l < j then sc[to] < sc[row[l]] else sc[to] <= sc[row[l]]
  }

  /** The nodes of a climb: each the first of the closest neighbours of the one before, until none is closer. */
  ghost predicate ClimbPath(g: Layer, sc: seq<real>, path: seq<nat>) {
    && InRange(g) && |sc| == |g| && path != [] && (forall i :: 0 <= i < |path| ==> path[i] < |g|)
    && (forall i :: 0 <= i < |path| - 1 ==> FirstClosest(g, sc, path[i], path[i + 1]))
    && LocalMinimum(g, sc, path[|path| - 1])
  }

  /** The out-edges of the nodes of a path. */
  ghost function EdgesOf(g: Layer, path: seq<nat>): nat
    requires forall i :: 0 <= i < |path| ==> path[i] < |g|
  {
    if path == [] then 0 else |g[path[0]]| + EdgesOf(g, path[1..])
  }

  lemma {:induction false} ScanIsFirst(sc: seq<real>, row: seq<nat>, c: nat, i: nat) returns (j: nat)
    requires c < |sc| && Listed(|sc|, row) && i <= |row|
    ensures var w := Scan(sc, row, c, i);
            if w == c then forall l :: 0 <= l < i ==> sc[c] <= sc[row[l]]
            else
              && j < i && row[j] == w && sc[w] < sc[c]
              && forall l :: 0 <= l < i ==> if l < j then sc[w] < sc[row[l]] else sc[w] <= sc[row[l]]
  {
    j := 0;
    if i > 0 {
      j := ScanIsFirst(sc, row, c, i - 1);
      if sc[row[i - 1]] < sc[Scan(sc, row, c, i - 1)] {
        j := i - 1;
      }
    }
  }

  /** The climb is such a path, and it evaluates every out-edge of every node on it once. */
  lemma {:induction false} ScanRunPath(g: Layer, sc: seq<real>, c: nat) returns (path: seq<nat>)
    requires InRange(g) && c < |g| == |sc|
    ensures ClimbPath(g, sc, path) && path[0] == c
    ensures ScanRun(g, sc, c) == (path[|path| - 1], EdgesOf(g, path))
    decreases Before(sc, c)
  {
    var w := Scan(sc, g[c], c, |g[c]|);
    var j := ScanIsFirst(sc, g[c], c, |g[c]|);
    if w == c {
      path := [c];
      assert path[1..] == [];
    } else {
      MoveShrinksBefore(sc, w, c);
      var rest := ScanRunPath(g, sc, w);
      path := [c] + rest;
      assert path[1..] == rest;
      assert FirstClosest(g, sc, c, w);
      forall i | 0 <= i < |path| - 1 ensures FirstClosest(g, sc, path[i], path[i + 1]) {
        if i > 0 {
          assert path[i] == rest[i - 1] && path[i + 1] == rest[i];
        }
      }
    }
  }

  /** The climbs of layers `layer`, ..., 1, each from where the one above ended. */
  ghost predicate DescentPaths(t: Topology, sc: seq<real>, layer: nat, c: nat, paths: seq<seq<nat>>, to: nat)
    requires WellFormed(t) && |sc| == t.len && layer <= t.maxLayer && c < t.len
    decreases layer
  {
    && |paths| == layer
    && if layer == 0 then to == c
       else
         var path := paths[0];
         && ClimbPath(t.adjacency[layer], sc, path) && path[0] == c
         && DescentPaths(t, sc, layer - 1, path[|path| - 1], paths[1..], to)
  }

  /** The out-edges of the nodes of those paths, each on its own layer. */
  ghost function EdgesOnWay(t: Topology, layer: nat, paths: seq<seq<nat>>): nat
    requires WellFormed(t) && |paths| == layer <= t.maxLayer
    requires forall i, j :: 0 <= i < |paths| && 0 <= j < |paths[i]| ==> paths[i][j] < t.len
    decreases layer
  {
    if layer == 0 then 0 else EdgesOf(t.adjacency[layer], paths[0]) + EdgesOnWay(t, layer - 1, paths[1..])
  }

  lemma {:induction false} ScanDescentPaths(t: Topology, sc: seq<real>, layer: nat, c: nat) returns (paths: seq<seq<nat>>)
    requires WellFormed(t) && |sc| == t.len && layer <= t.maxLayer && c < t.len
    ensures DescentPaths(t, sc, layer, c, paths, ScanDescent(t, sc, layer, c).0)
    ensures |paths| == layer && forall i, j :: 0 <= i < |paths| && 0 <= j < |paths[i]| ==> paths[i][j] < t.len
    ensures EdgesOnWay(t, layer, paths) == ScanDescent(t, sc, layer, c).1
  {
    hide ScanRun, EdgesOf, FirstClosest, LocalMinimum;
    paths := [];
    if layer > 0 {
      var path := ScanRunPath(t.adjacency[layer], sc, c);
      var below := ScanDescentPaths(t, sc, layer - 1, path[|path| - 1]);
      paths := [path] + below;
      assert paths[1..] == below;
    }
  }

  // ---- the whole query ----

  function Width(efSearch: nat, k: nat): nat {
    var m := if efSearch < k then k else efSearch;
    if m < 1 then 1 else m
  }

  /** One streamed vector per evaluation: a visit, an exact distance, one seek, one run. */
  function Streamed(n: nat, vectorBytes: nat): QueryCounters {
    QueryCounters(n, 0, n, n, n * vectorBytes, n)
  }

  /** As many nodes are kept as visited, up to the greatest of `efSearch`, `k` and 1. */
  ghost predicate FillsWidth(visited: nat, kept: nat, efSearch: nat, k: nat) {
    if visited <= efSearch || visited <= k || visited <= 1 then kept == visited
    else kept >= efSearch && kept >= k && kept >= 1 && (kept == efSearch || kept == k || kept == 1)
  }

  /** Asked to keep, or to return, as many nodes as the entry reaches, the answer is their true top `k`. */
  ghost predicate ExactWhenCovered(g: Layer, sc: seq<real>, from: nat, efSearch: nat, k: nat, out: seq<Neighbor>) {
    var reached := Reachable(g, {from});
    |reached| <= efSearch || |reached| <= k ==> Within(sc, reached) && IsTopK(out, sc, reached, k)
  }

  lemma PoolFills(sc: seq<real>, efSearch: nat, k: nat, visited: set<nat>, kept: set<nat>)
    requires Pool(sc, Width(efSearch, k), visited, kept)
    ensures FillsWidth(|visited|, |kept|, efSearch, k)
  {
    SubsetSize(kept, visited);
  }

  lemma CoveredIsExact(g: Layer, sc: seq<real>, from: nat, efSearch: nat, k: nat, visited: set<nat>, expanded: set<nat>,
                       kept: set<nat>, out: seq<Neighbor>)
    requires InRange(g) && |sc| == |g| && Certified(g, sc, {from}, Width(efSearch, k), visited, expanded, kept)
    requires IsTopK(out, sc, kept, k)
    ensures FillsWidth(|visited|, |kept|, efSearch, k) && ExactWhenCovered(g, sc, from, efSearch, k, out)
  {
    PoolFills(sc, efSearch, k, visited, kept);
    var reached := Reachable(g, {from});
    hide Reachable, IsTopK, FillsWidth, InRange;
    if |reached| <= efSearch || |reached| <= k {
      ExhaustiveBeam(g, sc, {from}, Width(efSearch, k), visited, expanded, kept);
    }
  }

  /** Reference query: the nodes visited on layer 0 and the number of vectors streamed. */
  ghost function SearchRun(t: Topology, sc: seq<real>, ef: nat): (r: (set<nat>, nat))
    requires WellFormed(t) && |sc| == t.len && t.entryPoint.Some?
    ensures r.0 <= Range(t.len)
  {
    var down := DescendRun(t, sc, t.maxLayer, t.entryPoint.value);
    var visited := BeamRun(t.adjacency[0], sc, ef, {down.0}, {});
    (visited, 1 + down.1 + |visited|)
  }

  /** `out` and `counters` are what the reference query answers. */
  ghost predicate Answers(t: Topology, sc: seq<real>, efSearch: nat, k: nat, vectorBytes: nat,
                          out: seq<Neighbor>, counters: QueryCounters)
    requires WellFormed(t) && |sc| == t.len && t.entryPoint.Some?
  {
    var run := SearchRun(t, sc, Width(efSearch, k));
    IsTopK(out, sc, run.0, k) && counters == Streamed(run.1, vectorBytes)
  }

  lemma MembersAppend(s: seq<nat>, x: nat)
    ensures Members(s + [x]) == Members(s) + {x}
  {
  }

  method Elements(nodes: set<nat>) returns (s: seq<nat>)
    ensures Members(s) == nodes && Distinct(s)
  {
    s := [];
    var rest := nodes;
    while rest != {}
      invariant rest <= nodes && Members(s) == nodes - rest && Distinct(s)
      decreases rest
    {
      var x :| x in rest;
      assert x !in Members(s);
      MembersAppend(s, x);
      s := s + [x];
      rest := rest - {x};
    }
  }

  /** Descend the upper layers from the entry point. */
  method Descend(t: Topology, sc: seq<real>, entry: nat) returns (current: nat, evaluated: nat)
    requires WellFormed(t) && |sc| == t.len && entry < t.len
    ensures current < t.len && sc[current] <= sc[entry]
    ensures Climbed(t.adjacency, sc, t.maxLayer, 0, entry, current)
    ensures (current, evaluated) == ScanDescent(t, sc, t.maxLayer, entry)
    ensures DistinctScores(sc) ==> (current, evaluated) == DescendRun(t, sc, t.maxLayer, entry)
  {
    hide Descended, DistinctScores, DescendRun, ScanDescent, GreedyRun, ScanRun, ClimbedOn;
    current, evaluated := entry, 0;
    var layer := t.maxLayer;
    DescendEnds(t, sc, entry, layer, entry, 0);
    while layer > 0
      invariant 0 <= layer <= t.maxLayer && current < t.len && sc[current] <= sc[entry]
      invariant Climbed(t.adjacency, sc, t.maxLayer, layer, entry, current)
      invariant Descended(t, sc, entry, layer, current, evaluated)
    {
      var more;
      ghost var above := current;
      current, more := GreedyDescend(t.adjacency[layer], sc, current);
      ClimbNext(t.adjacency, sc, t.maxLayer, layer - 1, entry, above, current);
      DescendStep(t, sc, entry, layer, above, current, evaluated, more);
      evaluated := evaluated + more;
      layer := layer - 1;
    }
    DescendEnds(t, sc, entry, layer, current, evaluated);
    if DistinctScores(sc) {
      ScanDescentIsDescendRun(t, sc, t.maxLayer, entry);
    }
  }

  ghost predicate Descended(t: Topology, sc: seq<real>, entry: nat, layer: nat, current: nat, evaluated: nat)
    requires WellFormed(t) && |sc| == t.len && layer <= t.maxLayer && current < t.len && entry < t.len
  {
    var all, rest := ScanDescent(t, sc, t.maxLayer, entry), ScanDescent(t, sc, layer, current);
    all == (rest.0, evaluated + rest.1)
  }

  /** What a query returns, ties and list order included: the best `k` of what the exact run from the climbed entry
      keeps, and one streamed vector per distance. */
  ghost predicate Returned(t: Topology, sc: seq<real>, efSearch: nat, k: nat, vectorBytes: nat,
                           out: seq<Neighbor>, counters: QueryCounters)
    requires WellFormed(t) && |sc| == t.len && t.entryPoint.Some?
  {
    var climb := ScanDescent(t, sc, t.maxLayer, t.entryPoint.value);
    var beam := BeamResult(t.adjacency[0], sc, {climb.0}, Width(efSearch, k));
    && IsTopK(out, sc, beam.1, k)
    && counters == Streamed(1 + climb.1 + |beam.0|, vectorBytes)
  }

  /** So two searches of one index return the same. */
  lemma ReturnedOnce(t: Topology, sc: seq<real>, efSearch: nat, k: nat, vectorBytes: nat, out: seq<Neighbor>,
                     counters: QueryCounters, out': seq<Neighbor>, counters': QueryCounters)
    requires WellFormed(t) && |sc| == t.len && t.entryPoint.Some?
    requires Returned(t, sc, efSearch, k, vectorBytes, out, counters)
    requires Returned(t, sc, efSearch, k, vectorBytes, out', counters')
    ensures out == out' && counters == counters'
  {
    var climb := ScanDescent(t, sc, t.maxLayer, t.entryPoint.value);
    TopKUnique(out, out', sc, BeamResult(t.adjacency[0], sc, {climb.0}, Width(efSearch, k)).1, k);
  }

  /** The `k` nearest of the nodes the beam kept, streamed one vector at a time.
      `from` is the layer-0 entry, `visited`, `expanded` and `kept` the beam's final sets. */
  method Search(t: Topology, dims: nat, queryDims: nat, sc: seq<real>, vectorBytes: nat, efSearch: nat, k: nat)
    returns (r: Result<(seq<Neighbor>, QueryCounters)>,
             ghost from: nat, ghost visited: set<nat>, ghost expanded: set<nat>, ghost kept: set<nat>)
    requires WellFormed(t) && |sc| == t.len
    ensures queryDims != dims ==> r == Err(DimensionMismatch(dims, queryDims))
    ensures queryDims == dims ==> r.Ok?
    ensures queryDims == dims && t.entryPoint.None? ==> r == Ok(([], ZERO_COUNTERS))
    ensures queryDims == dims && t.entryPoint.Some? ==>
              && Certified(t.adjacency[0], sc, {from}, Width(efSearch, k), visited, expanded, kept)
              && (visited, kept) == BeamResult(t.adjacency[0], sc, {from}, Width(efSearch, k))
              && IsTopK(r.value.0, sc, kept, k)
              && Climbed(t.adjacency, sc, t.maxLayer, 0, t.entryPoint.value, from)
              && from == ScanDescent(t, sc, t.maxLayer, t.entryPoint.value).0
              && r.value.1 == Streamed(1 + ScanDescent(t, sc, t.maxLayer, t.entryPoint.value).1 + |visited|, vectorBytes)
              && FillsWidth(|visited|, |kept|, efSearch, k)
              && ExactWhenCovered(t.adjacency[0], sc, from, efSearch, k, r.value.0)
              && r.value.1.seeks == 1 + ScanDescent(t, sc, t.maxLayer, t.entryPoint.value).1 + |visited|
              && r.value.1.nodesVisited == r.value.1.exactDistances == r.value.1.sequentialRuns == r.value.1.seeks
              && r.value.1.approxDistances == 0 && r.value.1.bytesRead == r.value.1.seeks * vectorBytes
    ensures queryDims == dims && t.entryPoint.Some? ==>
              Returned(t, sc, efSearch, k, vectorBytes, r.value.0, r.value.1)
    ensures queryDims == dims && t.entryPoint.Some? && DistinctScores(sc) ==>
              Answers(t, sc, efSearch, k, vectorBytes, r.value.0, r.value.1)
  {
    hide IsTopK, Certified, DistinctScores, BeamRun, BeamResult, Reachable, DescendRun, ScanDescent, InRange, Climbed;
    hide FillsWidth, ExactWhenCovered;
    from, visited, expanded, kept := 0, {}, {}, {};
    if queryDims != dims {
      r := Err(DimensionMismatch(dims, queryDims));
      return;
    }
    if t.entryPoint.None? {
      r := Ok(([], ZERO_COUNTERS));
      return;
    }
    var current, descended := Descend(t, sc, t.entryPoint.value);
    var ef := Width(efSearch, k);
    assert Members([current]) == {current};
    var results, scored;
    results, scored, visited, expanded := Beam.Search(t.adjacency[0], sc, [current], ef);
    from, kept := current, results;
    var nodes := Elements(results);
    var out := CollectTopK(sc, nodes, k);
    r := Ok((out, Streamed(1 + descended + scored, vectorBytes)));
    CertifiedAnswer(t.adjacency[0], sc, {from}, ef, k, visited, expanded, kept, out);
    LayerZero(t);
    CoveredIsExact(t.adjacency[0], sc, from, efSearch, k, visited, expanded, kept, out);
  }

  lemma LayerZero(t: Topology)
    requires WellFormed(t)
    ensures |t.adjacency| > 0 && |t.adjacency[0]| == t.len && InRange(t.adjacency[0])
  {
  }

  lemma DescendStep(t: Topology, sc: seq<real>, entry: nat, layer: nat, above: nat, current: nat, evaluated: nat, more: nat)
    requires WellFormed(t) && |sc| == t.len && 0 < layer <= t.maxLayer
    requires above < t.len && current < t.len && entry < t.len
    requires (current, more) == ScanRun(t.adjacency[layer], sc, above)
    requires Descended(t, sc, entry, layer, above, evaluated)
    ensures Descended(t, sc, entry, layer - 1, current, evaluated + more)
  {
  }

  lemma DescendEnds(t: Topology, sc: seq<real>, entry: nat, layer: nat, current: nat, evaluated: nat)
    requires WellFormed(t) && |sc| == t.len && layer <= t.maxLayer && current < t.len && entry < t.len
    ensures layer == t.maxLayer && current == entry && evaluated == 0 ==> Descended(t, sc, entry, layer, current, evaluated)
    ensures layer == 0 && Descended(t, sc, entry, layer, current, evaluated) ==>
              (current, evaluated) == ScanDescent(t, sc, t.maxLayer, entry)
  {
  }

  lemma CertifiedAnswer(g: Layer, sc: seq<real>, from: set<nat>, ef: nat, k: nat,
                        visited: set<nat>, expanded: set<nat>, kept: set<nat>, out: seq<Neighbor>)
    requires |sc| == |g| && Certified(g, sc, from, ef, visited, expanded, kept)
    requires IsTopK(out, sc, kept, k) && k <= ef
    ensures Within(sc, visited)
    ensures DistinctScores(sc) ==> IsTopK(out, sc, visited, k)
  {
    if DistinctScores(sc) {
      BestOfBest(sc, k, ef, visited, kept, Ids(out));
    }
  }

  // ---- what the certificate says about the answer ----

  /** With room to spare, or a width covering everything reachable, the beam is exhaustive. */
  lemma ExhaustiveBeam(g: Layer, sc: seq<real>, from: set<nat>, ef: nat,
                       visited: set<nat>, expanded: set<nat>, kept: set<nat>)
    requires InRange(g) && |sc| == |g| && Certified(g, sc, from, ef, visited, expanded, kept)
    requires |kept| < ef || |Reachable(g, from)| <= ef
    ensures kept == Reachable(g, from)
  {
    if |kept| < ef {
      assert Closed(g, visited);
      ReachableIsLeast(g, from, visited);
    } else {
      SubsetOfSameSize(kept, Reachable(g, from));
    }
  }

  /** Then the answer is the true top k of the reachable nodes. */
  lemma ExhaustiveAnswer(g: Layer, sc: seq<real>, from: set<nat>, ef: nat, k: nat,
                         visited: set<nat>, expanded: set<nat>, kept: set<nat>, out: seq<Neighbor>)
    requires InRange(g) && |sc| == |g| && Certified(g, sc, from, ef, visited, expanded, kept)
    requires |kept| < ef || |Reachable(g, from)| <= ef
    requires IsTopK(out, sc, kept, k)
    ensures IsTopK(out, sc, Reachable(g, from), k)
  {
    ExhaustiveBeam(g, sc, from, ef, visited, expanded, kept);
  }

  /** In every case no node the beam looked at scores better than a returned one, unless returned. */
  lemma NothingVisitedIsBetter(g: Layer, sc: seq<real>, from: set<nat>, ef: nat, k: nat,
                               visited: set<nat>, expanded: set<nat>, kept: set<nat>, out: seq<Neighbor>)
    requires |sc| == |g| && Certified(g, sc, from, ef, visited, expanded, kept)
    requires k <= ef && IsTopK(out, sc, kept, k)
    ensures |out| == Min(k, |visited|)
    ensures forall n, v :: n in out && v in visited - Ids(out) ==> n.score <= sc[v]
  {
    SubsetSize(kept, visited);
    OutSize(out, sc, kept, k);
    forall n, v | n in out && v in visited - Ids(out) ensures n.score <= sc[v] {
      assert n.id in Ids(out);
      if v in kept {
        BestBeatsRest(sc, k, kept, Ids(out), n.id, v);
      }
    }
  }

  lemma OutSize(out: seq<Neighbor>, sc: seq<real>, nodes: set<nat>, k: nat)
    requires Within(sc, nodes) && IsTopK(out, sc, nodes, k)
    ensures |out| == |Ids(out)| == Min(k, |nodes|)
  {
    IdsSize(out);
  }

  /** With distinct scores a true neighbour once found stays found as `ef_search` grows. */
  lemma FoundStaysFound(t: Topology, sc: seq<real>, efSearch: nat, wider: nat, k: nat, vectorBytes: nat,
                        exact: seq<Neighbor>, out: seq<Neighbor>, counters: QueryCounters,
                        out': seq<Neighbor>, counters': QueryCounters, n: Neighbor)
    requires WellFormed(t) && |sc| == t.len && t.entryPoint.Some? && efSearch <= wider
    requires IsTopK(exact, sc, Range(t.len), k)
    requires Answers(t, sc, efSearch, k, vectorBytes, out, counters)
    requires Answers(t, sc, wider, k, vectorBytes, out', counters')
    requires n in exact && n in out
    ensures n in out' && counters'.seeks >= counters.seeks
  {
    var from := DescendRun(t, sc, t.maxLayer, t.entryPoint.value).0;
    var ef, ef' := Width(efSearch, k), Width(wider, k);
    WiderVisitsMore(t.adjacency[0], sc, ef, ef', {from}, {});
    hide BeamRun, DescendRun;
    var some, more := SearchRun(t, sc, ef).0, SearchRun(t, sc, ef').0;
    SubsetSize(some, more);
    assert n.id in Ids(exact) && n.id in some;
    TopKMemberSurvives(sc, k, Range(t.len), more, Ids(exact), Ids(out'), n.id);
    var m :| m in out' && m.id == n.id;
  }
}
