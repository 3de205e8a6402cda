/** Asymmetric distance tables: query sub-vectors against every centroid, then one lookup per subspace. */
module Adc {
  import opened Core
  import opened Format
  import opened Distance
  import opened Codebook

  /** A table entry: a distance, or nothing for the infinity of an unused slot. */
  type Entry = Option<real>

  /** Index of centroid `c` of subspace `s` in the flat table. */
  function Cell(stride: nat, s: nat, c: nat): nat {
    s * stride + c
  }

  lemma CellFits(stride: nat, subspaces: nat, s: nat, c: nat)
    requires s < subspaces && c < stride
    ensures Cell(stride, s, c) < subspaces * stride
  {
    RowFits(0, s, subspaces, stride, subspaces * stride);
  }

  /** Different (subspace, centroid) pairs never share a cell. */
  lemma CellsApart(stride: nat, s: nat, c: nat, s': nat, c': nat)
    requires c < stride && c' < stride && Cell(stride, s, c) == Cell(stride, s', c')
    ensures s == s' && c == c'
  {
    if s < s' {
      RowFits(0, s, s', stride, s' * stride);
    } else if s' < s {
      RowFits(0, s', s, stride, s * stride);
    }
  }

  /** What the entry for centroid `c` of subspace `s` must be. */
  ghost function EntryFor(cb: PqCodebook, query: Vector, s: nat, c: nat): Entry
    requires cb.Valid() && |query| == cb.dims && s < cb.subspaces
  {
    if c < cb.ks[s] then Some(L2(cb.Sub(query, s), cb.Centroid(s, c))) else None
  }

  ghost predicate RowBuilt(cb: PqCodebook, query: Vector, table: seq<Entry>, s: nat, upTo: nat)
    requires cb.Valid() && |query| == cb.dims && s < cb.subspaces
  {
    forall c: nat :: c < upTo ==> Cell(cb.requested, s, c) < |table| && table[Cell(cb.requested, s, c)] == EntryFor(cb, query, s, c)
  }

  ghost predicate RowEmpty(cb: PqCodebook, table: seq<Entry>, s: nat, start: nat) {
    forall c: nat :: start <= c < cb.requested ==> Cell(cb.requested, s, c) < |table| && table[Cell(cb.requested, s, c)] == None
  }

  /** The whole table of a query. */
  ghost predicate TableOf(cb: PqCodebook, query: Vector, table: seq<Entry>)
    requires cb.Valid() && |query| == cb.dims
  {
    && |table| == cb.subspaces * cb.requested
    && forall s: nat :: s < cb.subspaces ==> RowBuilt(cb, query, table, s, cb.requested)
  }

  /** Rows before `s` are done, row `s` up to centroid `c`, later rows untouched. */
  ghost predicate Building(cb: PqCodebook, query: Vector, table: seq<Entry>, s: nat, c: nat)
    requires cb.Valid() && |query| == cb.dims && s < cb.subspaces
  {
    && |table| == cb.subspaces * cb.requested && c <= cb.ks[s]
    && (forall t: nat :: t < s ==> RowBuilt(cb, query, table, t, cb.requested))
    && RowBuilt(cb, query, table, s, c) && RowEmpty(cb, table, s, c)
    && forall t: nat :: s < t < cb.subspaces ==> RowEmpty(cb, table, t, 0)
  }

  lemma BuildStep(cb: PqCodebook, query: Vector, table: seq<Entry>, s: nat, c: nat, x: Entry)
    requires cb.Valid() && |query| == cb.dims && s < cb.subspaces && c < cb.ks[s]
    requires Building(cb, query, table, s, c) && x == EntryFor(cb, query, s, c)
    ensures Cell(cb.requested, s, c) < |table|
    ensures Building(cb, query, table[Cell(cb.requested, s, c) := x], s, c + 1)
  {
    var stride, cell := cb.requested, Cell(cb.requested, s, c);
    CellFits(stride, cb.subspaces, s, c);
    var now := table[cell := x];
    assert forall s', c': nat :: c' < stride && Cell(stride, s', c') == cell ==> s' == s && c' == c by {
      forall s', c': nat | c' < stride && Cell(stride, s', c') == cell ensures s' == s && c' == c {
        CellsApart(stride, s, c, s', c');
      }
    }
    hide Cell, EntryFor, L2;
    forall t: nat | t < s ensures RowBuilt(cb, query, now, t, stride) {
      assert RowBuilt(cb, query, table, t, stride);
    }
    forall t: nat | s < t < cb.subspaces ensures RowEmpty(cb, now, t, 0) {
      assert RowEmpty(cb, table, t, 0);
    }
  }

  /** A finished row, and the start of the next one. */
  lemma RowDone(cb: PqCodebook, query: Vector, table: seq<Entry>, s: nat)
    requires cb.Valid() && |query| == cb.dims && s < cb.subspaces
    requires Building(cb, query, table, s, cb.ks[s])
    ensures RowBuilt(cb, query, table, s, cb.requested)
    ensures s + 1 < cb.subspaces ==> Building(cb, query, table, s + 1, 0)
    ensures s + 1 == cb.subspaces ==> TableOf(cb, query, table)
  {
    hide Cell, L2;
    assert RowBuilt(cb, query, table, s, cb.requested);
    if s + 1 < cb.subspaces {
      assert RowEmpty(cb, table, s + 1, 0);
    }
  }

  lemma NothingBuilt(cb: PqCodebook, query: Vector, table: seq<Entry>)
    requires cb.Valid() && |query| == cb.dims
    requires |table| == cb.subspaces * cb.requested && forall i :: 0 <= i < |table| ==> table[i] == None
    ensures Building(cb, query, table, 0, 0)
  {
    forall s: nat | s < cb.subspaces ensures RowEmpty(cb, table, s, 0) {
      forall c: nat | c < cb.requested ensures Cell(cb.requested, s, c) < |table| {
        CellFits(cb.requested, cb.subspaces, s, c);
      }
    }
    hide Cell;
  }

  /** `AdcTable::build`. */
  method Build(cb: PqCodebook, query: Vector) returns (r: Result<()>, table: array<Entry>)
    requires cb.Valid()
    ensures fresh(table)
    ensures |query| != cb.dims ==> r == Err(DimensionMismatch(cb.dims, |query|))
    ensures |query| == cb.dims ==> r == Ok(()) && TableOf(cb, query, table[..])
  {
    hide PqCodebook.Valid, TableOf, Building, RowBuilt, L2, PqCodebook.Centroid, PqCodebook.Sub;
    if |query| != cb.dims {
      table := new Entry[0];
      return Err(DimensionMismatch(cb.dims, |query|)), table;
    }
    table := new Entry[cb.subspaces * cb.requested](_ => None);
    NothingBuilt(cb, query, table[..]);
    SomeSubspace(cb);
    for s := 0 to cb.subspaces
      invariant s < cb.subspaces ==> Building(cb, query, table[..], s, 0)
      invariant s == cb.subspaces ==> TableOf(cb, query, table[..])
    {
      SomeCentroid(cb, s);
      for c := 0 to cb.ks[s]
        invariant Building(cb, query, table[..], s, c)
      {
        var d := L2(cb.Sub(query, s), cb.Centroid(s, c));
        BuildStep(cb, query, table[..], s, c, Some(d));
        table[Cell(cb.requested, s, c)] := Some(d);
      }
      RowDone(cb, query, table[..], s);
    }
    r := Ok(());
  }

  lemma SomeSubspace(cb: PqCodebook)
    requires cb.Valid()
    ensures cb.subspaces > 0
  {
  }

  lemma SomeCentroid(cb: PqCodebook, s: nat)
    requires cb.Valid() && s < cb.subspaces
    ensures |cb.ks| == cb.subspaces
  {
  }

  // ---- lookups ----

  /** Every code byte names a column of its own row. */
  predicate InTable(cb: PqCodebook, code: seq<byte>) {
    |code| == cb.subspaces && forall s :: 0 <= s < |code| ==> code[s] < cb.requested
  }

  /** No lookup runs past the end of the table. */
  predicate InReach(cb: PqCodebook, code: seq<byte>)
    requires cb.requested > 0
  {
    |code| == cb.subspaces && forall s :: 0 <= s < |code| ==> s + code[s] / cb.requested < cb.subspaces
  }

  lemma InTableIsInReach(cb: PqCodebook, code: seq<byte>)
    requires cb.requested > 0 && InTable(cb, code)
    ensures InReach(cb, code)
  {
    forall s | 0 <= s < |code| ensures code[s] / cb.requested == 0 {
      SmallDiv(code[s], cb.requested);
    }
  }

  function Plus(a: Entry, b: Entry): Entry {
    if a.Some? && b.Some? then Some(a.value + b.value) else None
  }

  /** What the lookup of byte `c` in row `s` gives: a byte past the row's width lands in a later row. */
  ghost function EntryAt(cb: PqCodebook, query: Vector, s: nat, c: nat): Entry
    requires cb.Valid() && |query| == cb.dims && s < cb.subspaces
  {
    var row := s + c / cb.requested;
    if row < cb.subspaces then EntryFor(cb, query, row, c % cb.requested) else None
  }

  /** What the first `s` lookups should add up to: the subspace distances, or infinity once an unused slot is hit. */
  ghost function Sum(cb: PqCodebook, query: Vector, code: seq<byte>, s: nat): Entry
    requires cb.Valid() && |query| == cb.dims && |code| == cb.subspaces && s <= cb.subspaces
  {
    if s == 0 then Some(0.0) else Plus(Sum(cb, query, code, s - 1), EntryAt(cb, query, s - 1, code[s - 1]))
  }

  lemma DivSplit(c: nat, stride: nat)
    requires stride > 0
    ensures c == (c / stride) * stride + c % stride && c % stride < stride
  {
  }

  lemma RowsOver(s: nat, over: nat, stride: nat)
    ensures (s + over) * stride == s * stride + over * stride
  {
  }

  lemma CellWraps(stride: nat, s: nat, c: nat)
    requires stride > 0
    ensures Cell(stride, s, c) == Cell(stride, s + c / stride, c % stride)
  {
    DivSplit(c, stride);
    RowsOver(s, c / stride, stride);
  }

  lemma EntryOf(cb: PqCodebook, query: Vector, table: seq<Entry>, row: nat, col: nat)
    requires cb.Valid() && |query| == cb.dims && TableOf(cb, query, table) && row < cb.subspaces && col < cb.requested
    ensures Cell(cb.requested, row, col) < |table| && table[Cell(cb.requested, row, col)] == EntryFor(cb, query, row, col)
  {
    hide Cell, EntryFor, PqCodebook.Valid;
    assert RowBuilt(cb, query, table, row, cb.requested);
  }

  lemma Lookup(cb: PqCodebook, query: Vector, table: seq<Entry>, s: nat, c: nat)
    requires cb.Valid() && |query| == cb.dims && TableOf(cb, query, table) && s < cb.subspaces
    requires s + c / cb.requested < cb.subspaces
    ensures Cell(cb.requested, s, c) < |table| && table[Cell(cb.requested, s, c)] == EntryAt(cb, query, s, c)
  {
    hide Cell, EntryFor, TableOf;
    DivSplit(c, cb.requested);
    EntryOf(cb, query, table, s + c / cb.requested, c % cb.requested);
    CellWraps(cb.requested, s, c);
  }

  /** `AdcTable::distance`. */
  method DistanceTo(cb: PqCodebook, ghost query: Vector, table: array<Entry>, code: seq<byte>) returns (r: Result<Entry>)
    requires cb.Valid() && |query| == cb.dims && TableOf(cb, query, table[..])
    requires |code| == cb.subspaces ==> InReach(cb, code)
    ensures |code| != cb.subspaces ==> r == Err(DimensionMismatch(cb.subspaces, |code|))
    ensures |code| == cb.subspaces ==> r == Ok(Sum(cb, query, code, cb.subspaces))
  {
    if |code| != cb.subspaces {
      return Err(DimensionMismatch(cb.subspaces, |code|));
    }
    hide PqCodebook.Valid, TableOf, EntryAt, Cell, Plus, RowBuilt;
    var sum: Entry := Some(0.0);
    for s := 0 to |code|
      invariant sum == Sum(cb, query, code, s)
    {
      Lookup(cb, query, table[..], s, code[s]);
      sum := Plus(sum, table[Cell(cb.requested, s, code[s])]);
    }
    r := Ok(sum);
  }

  /** `AdcTable::distance_at`: code `i` of a flat code buffer, without slicing it out. */
  method DistanceAt(cb: PqCodebook, ghost query: Vector, table: array<Entry>, codes: seq<byte>, i: nat) returns (r: Result<Entry>)
    requires cb.Valid() && |query| == cb.dims && TableOf(cb, query, table[..])
    requires i * cb.subspaces + cb.subspaces <= |codes| ==> InReach(cb, Item(codes, i, cb.subspaces))
    ensures i * cb.subspaces + cb.subspaces > |codes| ==> r == Err(Corrupt)
    ensures i * cb.subspaces + cb.subspaces <= |codes| ==>
              r == Ok(Sum(cb, query, Item(codes, i, cb.subspaces), cb.subspaces))
  {
    var start := i * cb.subspaces;
    var end := start + cb.subspaces;
    if end > |codes| {
      return Err(Corrupt);
    }
    ghost var code := Item(codes, i, cb.subspaces);
    hide PqCodebook.Valid, TableOf, EntryAt, Cell, Plus, RowBuilt;
    var sum: Entry := Some(0.0);
    for s := 0 to cb.subspaces
      invariant sum == Sum(cb, query, code, s)
    {
      assert codes[start + s] == code[s];
      Lookup(cb, query, table[..], s, code[s]);
      sum := Plus(sum, table[Cell(cb.requested, s, codes[start + s])]);
    }
    r := Ok(sum);
  }

  // ---- what a lookup means ----

  lemma SmallDiv(c: nat, stride: nat)
    requires c < stride
    ensures c / stride == 0 && c % stride == c
  {
  }

  lemma EntryInRow(cb: PqCodebook, query: Vector, s: nat, c: nat)
    requires cb.Valid() && |query| == cb.dims && s < cb.subspaces && c < cb.requested
    ensures EntryAt(cb, query, s, c) == EntryFor(cb, query, s, c)
  {
    hide EntryFor, PqCodebook.Valid;
    SmallDiv(c, cb.requested);
  }

  lemma {:induction false} SumOfCode(cb: PqCodebook, query: Vector, code: seq<byte>, s: nat)
    requires cb.Valid() && |query| == cb.dims && cb.IsCode(code) && s <= cb.subspaces
    ensures Sum(cb, query, code, s) == Some(BySubspace(cb, query, code, s))
  {
    if s > 0 {
      hide EntryAt, PqCodebook.Sub, PqCodebook.Centroid, L2;
      SumOfCode(cb, query, code, s - 1);
      EntryInRow(cb, query, s - 1, code[s - 1]);
    }
  }

  lemma {:induction false} SumIsFinite(cb: PqCodebook, query: Vector, code: seq<byte>, s: nat)
    requires cb.Valid() && |query| == cb.dims && InTable(cb, code) && s <= cb.subspaces
    ensures Sum(cb, query, code, s).Some? <==> forall t :: 0 <= t < s ==> code[t] < cb.ks[t]
  {
    if s > 0 {
      hide EntryAt, PqCodebook.Sub, PqCodebook.Centroid, L2;
      SumIsFinite(cb, query, code, s - 1);
      EntryInRow(cb, query, s - 1, code[s - 1]);
    }
  }

  /** For bytes within their rows the table sum is finite exactly for codes the codebook can produce, and then it is
      the squared distance from the query to the reconstructed vector. */
  lemma LookupIsDistance(cb: PqCodebook, query: Vector, code: seq<byte>)
    requires cb.Valid() && |query| == cb.dims && |code| == cb.subspaces
    ensures InTable(cb, code) ==> (Sum(cb, query, code, cb.subspaces).Some? <==> cb.IsCode(code))
    ensures cb.IsCode(code) ==>
              && |Reconstruction(cb, code, cb.subspaces)| == cb.dims
              && Sum(cb, query, code, cb.subspaces) == Some(L2(query, Reconstruction(cb, code, cb.subspaces)))
  {
    if InTable(cb, code) {
      SumIsFinite(cb, query, code, cb.subspaces);
    }
    if cb.IsCode(code) {
      SumOfCode(cb, query, code, cb.subspaces);
      DistanceToReconstruction(cb, query, code);
    }
    hide Sum, L2, Reconstruction, BySubspace;
  }

  /** The code the encoder picks for a vector has the least table distance from that vector. */
  lemma EncoderMinimisesLookup(cb: PqCodebook, v: Vector, other: seq<byte>)
    requires cb.Valid() && |v| == cb.dims && cb.IsCode(other)
    ensures Sum(cb, v, Encoded(cb, v), cb.subspaces).Some? && Sum(cb, v, other, cb.subspaces).Some?
    ensures Sum(cb, v, Encoded(cb, v), cb.subspaces).value <= Sum(cb, v, other, cb.subspaces).value
  {
    LookupIsDistance(cb, v, Encoded(cb, v));
    LookupIsDistance(cb, v, other);
    EncodeIsOptimal(cb, v, other);
    hide *;
  }

  /** What the resident codes of an index score: the distance to each vector's own reconstruction. */
  lemma BatchLookup(cb: PqCodebook, query: Vector, vectors: seq<real>, codes: seq<byte>, n: nat, i: nat)
    requires cb.Valid() && |query| == cb.dims && BatchOf(cb, vectors, codes, n) && i < n
    ensures i * cb.subspaces + cb.subspaces <= |codes| && i * cb.dims + cb.dims <= |vectors|
    ensures InTable(cb, Item(codes, i, cb.subspaces))
    ensures var code := Encoded(cb, Item(vectors, i, cb.dims));
            && |Reconstruction(cb, code, cb.subspaces)| == cb.dims
            && Sum(cb, query, Item(codes, i, cb.subspaces), cb.subspaces) == Some(L2(query, Reconstruction(cb, code, cb.subspaces)))
  {
    assert Item(codes, i, cb.subspaces) == Encoded(cb, Item(vectors, i, cb.dims));
    LookupIsDistance(cb, query, Encoded(cb, Item(vectors, i, cb.dims)));
    hide Encoded, Reconstruction, L2, Sum, Item;
  }

  // ---- scoring every resident code ----

  /** One code after another, each one the codebook can produce. */
  ghost predicate AreCodes(cb: PqCodebook, codes: seq<byte>, n: nat)
    requires cb.Valid()
  {
    forall i :: 0 <= i < n ==> i * cb.subspaces + cb.subspaces <= |codes| && cb.IsCode(Item(codes, i, cb.subspaces))
  }

  /** The PQ tier of an index: the codebook and one resident code per vector. */
  datatype PqTier = PqTier(codebook: PqCodebook, codes: seq<byte>)
  {
    ghost predicate Fits(dims: nat, len: nat) {
      codebook.Valid() && codebook.dims == dims && AreCodes(codebook, codes, len)
    }
  }

  lemma TierHasCodes(tier: PqTier, dims: nat, len: nat)
    requires tier.Fits(dims, len)
    ensures tier.codebook.Valid() && tier.codebook.dims == dims && AreCodes(tier.codebook, tier.codes, len)
  {
  }

  /** The approximate scores of an index: the table distance of every resident code. */
  ghost predicate Approximates(cb: PqCodebook, query: Vector, codes: seq<byte>, ap: seq<real>)
    requires cb.Valid() && |query| == cb.dims
  {
    forall i :: 0 <= i < |ap| ==>
      i * cb.subspaces + cb.subspaces <= |codes| &&
      Sum(cb, query, Item(codes, i, cb.subspaces), cb.subspaces) == Some(ap[i])
  }

  /** A code the codebook can produce is looked up inside its rows and sums to a distance. */
  lemma CodeScores(cb: PqCodebook, query: Vector, codes: seq<byte>, n: nat, i: nat)
    requires cb.Valid() && |query| == cb.dims && AreCodes(cb, codes, n) && i < n
    ensures i * cb.subspaces + cb.subspaces <= |codes|
    ensures InReach(cb, Item(codes, i, cb.subspaces)) && Sum(cb, query, Item(codes, i, cb.subspaces), cb.subspaces).Some?
  {
    var code := Item(codes, i, cb.subspaces);
    assert InTable(cb, code);
    InTableIsInReach(cb, code);
    SumOfCode(cb, query, code, cb.subspaces);
    hide Sum, InReach, Item;
  }

  /** One table for the query, one lookup per resident code. */
  method ScoreCodes(cb: PqCodebook, query: Vector, codes: seq<byte>, n: nat) returns (r: Result<seq<real>>)
    requires cb.Valid() && AreCodes(cb, codes, n)
    ensures |query| != cb.dims ==> r == Err(DimensionMismatch(cb.dims, |query|))
    ensures |query| == cb.dims ==> r.Ok? && |r.value| == n && Approximates(cb, query, codes, r.value)
  {
    hide PqCodebook.Valid, TableOf, AreCodes, InReach, Sum, Item;
    var built, table := Build(cb, query);
    if built.Err? {
      return Err(built.error);
    }
    var ap: seq<real> := [];
    for i := 0 to n
      invariant |ap| == i && Approximates(cb, query, codes, ap) && TableOf(cb, query, table[..])
    {
      CodeScores(cb, query, codes, n, i);
      var entry := DistanceAt(cb, query, table, codes, i);
      ap := ap + [entry.value.value];
    }
    r := Ok(ap);
  }

  /** So an approximate score is the squared distance from the query to the node's reconstruction. */
  lemma ApproximateIsDistance(cb: PqCodebook, query: Vector, codes: seq<byte>, n: nat, ap: seq<real>, i: nat)
    requires cb.Valid() && |query| == cb.dims && AreCodes(cb, codes, n) && Approximates(cb, query, codes, ap) && |ap| == n
    requires i < n
    ensures i * cb.subspaces + cb.subspaces <= |codes|
    ensures var code := Item(codes, i, cb.subspaces);
            && cb.IsCode(code) && |Reconstruction(cb, code, cb.subspaces)| == cb.dims
            && ap[i] == L2(query, Reconstruction(cb, code, cb.subspaces))
  {
    hide Sum, L2, Reconstruction, Item;
    LookupIsDistance(cb, query, Item(codes, i, cb.subspaces));
  }
}
