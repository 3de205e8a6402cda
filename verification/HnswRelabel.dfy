/** Renaming node ids after a layout permutation, and why searches do not notice. */
module HnswRelabel {
  import opened Core
  import opened Nearest
  import opened Graph
  import opened IdLists
  import opened HnswSearch

  function Renamed(pos: seq<nat>, s: seq<nat>): (r: seq<nat>)
    requires Listed(|pos|, s)
  {
    seq(|s|, i requires 0 <= i < |s| => pos[s[i]])
  }

  /** `row'` lists the renamed ids of `row`, in some order. */
  ghost predicate RowRelabelled(row: seq<nat>, row': seq<nat>, pos: seq<nat>)
    requires Listed(|pos|, row)
  {
    multiset(row') == multiset(Renamed(pos, row))
  }

  ghost predicate LayerRelabelled(g: Layer, g': Layer, pos: seq<nat>)
    requires InRange(g) && |g| == |pos| == |g'| && Listed(|pos|, pos)
  {
    forall was :: 0 <= was < |g| ==> Listed(|pos|, g[was]) && RowRelabelled(g[was], g'[pos[was]], pos)
  }

  /** `t'` is `t` with node `was` called `pos[was]`; neighbour lists may come in any order. */
  ghost predicate Relabelled(t: Topology, t': Topology, pos: seq<nat>)
    requires WellFormed(t)
  {
    && IsPermutation(pos, t.len)
    && t'.len == t.len && t'.maxLayer == t.maxLayer
    && |t'.adjacency| == |t.adjacency|
    && (forall l :: 0 <= l < |t.adjacency| ==>
          |t'.adjacency[l]| == t.len && LayerRelabelled(t.adjacency[l], t'.adjacency[l], pos))
    && |t'.nodeLevels| == t.len
    && (forall was :: 0 <= was < t.len ==> t'.nodeLevels[pos[was]] == t.nodeLevels[was])
    && t'.entryPoint == match t.entryPoint { case None => None case Some(e) => Some(pos[e]) }
  }

  /** The row of an id list after renaming: renamed ids, sorted ascending. */
  function RelabelRow(row: seq<nat>, pos: seq<nat>): (r: seq<nat>)
    requires Listed(|pos|, row)
    ensures RowRelabelled(row, r, pos) && Ascending(r)
  {
    SortedIds(Renamed(pos, row))
  }

  /** Renaming one layer: the row of `was` moves to `pos[was]`. */
  method RelabelLayer(g: Layer, pos: seq<nat>) returns (g': Layer)
    requires InRange(g) && IsPermutation(pos, |g|)
    ensures |g'| == |g| && LayerRelabelled(g, g', pos)
    ensures forall was :: 0 <= was < |g| ==> Ascending(g'[pos[was]])
  {
    RowsListed(g);
    hide InRange, RelabelRow, Ascending, RowRelabelled;
    g' := seq(|g|, _ => []);
    for was := 0 to |g|
      invariant |g'| == |g|
      invariant forall o :: 0 <= o < was ==> RowRelabelled(g[o], g'[pos[o]], pos) && Ascending(g'[pos[o]])
    {
      g' := g'[pos[was] := RelabelRow(g[was], pos)];
    }
  }

  /** `pos` so far maps the first `i` listed ids to their positions; -1 marks an id not met yet. */
  ghost predicate Inverting(order: seq<nat>, n: nat, pos: seq<int>, i: nat)
    requires |order| == n && i <= n
  {
    && |pos| == n
    && (forall j :: 0 <= j < i ==> order[j] < n && pos[order[j]] == j)
    && (forall was :: 0 <= was < n && pos[was] != -1 ==> 0 <= pos[was] < i && order[pos[was]] == was)
  }

  lemma InvertedIsPermutation(order: seq<nat>, n: nat, pos: seq<int>)
    requires |order| == n && Inverting(order, n, pos, n)
    ensures IsPermutation(order, n)
    ensures forall was :: 0 <= was < n ==> 0 <= pos[was] < n && order[pos[was]] == was
  {
    PermutationIsOnto(order, n);
    forall was | 0 <= was < n ensures pos[was] != -1 {
      assert was in Members(order);
    }
  }

  lemma InverseIsPermutation(order: seq<nat>, n: nat, pos: seq<nat>)
    requires |order| == |pos| == n
    requires forall was :: 0 <= was < n ==> pos[was] < n && order[pos[was]] == was
    ensures IsPermutation(pos, n)
  {
  }

  /** The inverse map of `order`, or nothing when `order` repeats an id or leaves the range. */
  method InverseOf(order: seq<nat>, n: nat) returns (r: Option<seq<nat>>)
    requires |order| == n
    ensures r.Some? <==> IsPermutation(order, n)
    ensures r.Some? ==> IsPermutation(r.value, n)
    ensures r.Some? ==> forall i :: 0 <= i < n ==> r.value[order[i]] == i
    ensures r.Some? ==> forall was :: 0 <= was < n ==> order[r.value[was]] == was
  {
    var pos: seq<int> := seq(n, _ => -1);
    for i := 0 to n
      invariant Inverting(order, n, pos, i)
    {
      var was := order[i];
      if was >= n {
        return None;
      }
      if pos[was] != -1 {
        assert order[pos[was]] == order[i];
        return None;
      }
      pos := pos[was := i];
    }
    InvertedIsPermutation(order, n, pos);
    var inverse: seq<nat> := seq(n, i requires 0 <= i < n && |pos| == n && pos[i] >= 0 => pos[i]);
    InverseIsPermutation(order, n, inverse);
    r := Some(inverse);
  }

  method RelabelLayers(layers: seq<Layer>, n: nat, pos: seq<nat>) returns (r: seq<Layer>)
    requires IsPermutation(pos, n)
    requires forall l :: 0 <= l < |layers| ==> |layers[l]| == n && InRange(layers[l])
    ensures |r| == |layers|
    ensures forall l :: 0 <= l < |r| ==> |r[l]| == n && LayerRelabelled(layers[l], r[l], pos)
  {
    hide LayerRelabelled;
    r := [];
    for l := 0 to |layers|
      invariant |r| == l
      invariant forall k :: 0 <= k < l ==> |r[k]| == n && LayerRelabelled(layers[k], r[k], pos)
    {
      var layer := RelabelLayer(layers[l], pos);
      r := r + [layer];
    }
  }

  method RelabelLevels(levels: seq<nat>, pos: seq<nat>) returns (r: seq<nat>)
    requires IsPermutation(pos, |levels|)
    ensures |r| == |levels| && forall was :: 0 <= was < |levels| ==> r[pos[was]] == levels[was]
  {
    r := seq(|levels|, _ => 0);
    for was := 0 to |levels|
      invariant |r| == |levels|
      invariant forall o :: 0 <= o < was ==> r[pos[o]] == levels[o]
    {
      r := r[pos[was] := levels[was]];
    }
  }

  /** `HnswIndex::relabel` for the graph part: rejects anything but a permutation of the node ids. */
  method Relabel(t: Topology, order: seq<nat>) returns (r: Result<Topology>, ghost pos: seq<nat>)
    requires WellFormed(t)
    ensures r.Ok? <==> IsPermutation(order, t.len)
    ensures r.Err? ==> r == Err(InvalidConfig)
    ensures r.Ok? ==> WellFormed(r.value) && Relabelled(t, r.value, pos)
    ensures r.Ok? ==> forall i :: 0 <= i < t.len ==> pos[order[i]] == i
  {
    hide LayerRelabelled;
    pos := [];
    if |order| != t.len {
      return Err(InvalidConfig), pos;
    }
    var inverse := InverseOf(order, t.len);
    if inverse.None? {
      return Err(InvalidConfig), pos;
    }
    pos := inverse.value;
    var adjacency := RelabelLayers(t.adjacency, t.len, inverse.value);
    var levels := RelabelLevels(t.nodeLevels, inverse.value);
    var entry := match t.entryPoint { case None => None case Some(e) => Some(inverse.value[e]) };
    var t' := Topology(adjacency, levels, entry, t.maxLayer, t.len);
    RelabelledIsWellFormed(t, t', pos);
    r := Ok(t');
  }

  lemma RelabelledIsWellFormed(t: Topology, t': Topology, pos: seq<nat>)
    requires WellFormed(t) && Relabelled(t, t', pos)
    ensures WellFormed(t')
  {
    PermutationIsOnto(pos, t.len);
    forall l | 0 <= l < |t'.adjacency| ensures InRange(t'.adjacency[l]) {
      var g, g' := t.adjacency[l], t'.adjacency[l];
      forall u, i | 0 <= u < |g'| && 0 <= i < |g'[u]| ensures g'[u][i] < |g'| {
        assert u in Members(pos);
        var was :| 0 <= was < |pos| && pos[was] == u;
        assert RowRelabelled(g[was], g'[u], pos);
        assert g'[u][i] in multiset(g'[u]);
        assert g'[u][i] in Renamed(pos, g[was]);
      }
    }
  }
}
