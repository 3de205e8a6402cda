/** Graph-aware relayout end to end: rewrite the store in layout order and relabel the graph to match. */
module HnswReorder {
  import opened Core
  import opened Ranking
  import opened Nearest
  import opened IdLists
  import opened Beam
  import opened Layout
  import opened Format
  import opened Writer
  import opened Reader
  import Codec
  import opened HnswSearch
  import opened HnswLayout
  import opened HnswRelabel
  import opened RelabelTheorem
  import opened HybridReference
  import opened HnswHybrid
  import opened RelabelHybrid

  /** The first `i` rows of the rewritten store: row `new` is the source's row `order[new]`. */
  ghost predicate Rewritten(src: VectorStore, order: seq<nat>, slots: seq<seq<byte>>)
    requires src.Valid()
  {
    && |slots| <= |order|
    && forall i :: 0 <= i < |slots| ==> order[i] < src.Len() && InFile(src, order[i]) && slots[i] == SlotBytes(src, order[i])
  }

  /** The same rows decoded and encoded again. */
  ghost predicate Recoded<E(!new)>(src: VectorStore, codec: SlotCodec<E>, order: seq<nat>, slots: seq<seq<byte>>)
    requires src.Valid()
  {
    && |slots| <= |order|
    && forall i :: 0 <= i < |slots| ==>
         order[i] < src.Len() && InFile(src, order[i]) && slots[i] == codec.encode(codec.decode(SlotBytes(src, order[i])))
  }

  /** The codec changes no stored slot when it decodes and encodes it again. */
  ghost predicate KeepsRows<E(!new)>(src: VectorStore, codec: SlotCodec<E>)
    requires src.Valid()
  {
    forall i :: 0 <= i < src.Len() ==> InFile(src, i) && codec.Keeps(SlotBytes(src, i))
  }

  lemma RecodeNext<E(!new)>(src: VectorStore, codec: SlotCodec<E>, order: seq<nat>, slots: seq<seq<byte>>, row: seq<E>)
    requires src.Valid() && Recoded(src, codec, order, slots) && |slots| < |order|
    requires order[|slots|] < src.Len() && InFile(src, order[|slots|]) && row == codec.decode(SlotBytes(src, order[|slots|]))
    ensures Recoded(src, codec, order, slots + [codec.encode(row)])
  {
    hide VectorStore.Valid, InFile, SlotBytes;
  }

  /** So the rewritten rows are the source's rows. */
  lemma KeptRows<E(!new)>(src: VectorStore, codec: SlotCodec<E>, order: seq<nat>, slots: seq<seq<byte>>)
    requires src.Valid() && Recoded(src, codec, order, slots) && KeepsRows(src, codec)
    ensures Rewritten(src, order, slots)
  {
    hide VectorStore.Valid, InFile, SlotBytes;
  }

  /** Every row of an f32 store is kept. */
  lemma F32KeepsRows(src: VectorStore)
    requires src.Valid() && src.header.dtype == F32
    ensures KeepsRows(src, F32_CODEC) && F32_CODEC.Fits(src.header.dimensions, src.layout.vectorBytes)
  {
    F32Fits(src.layout);
    forall i | 0 <= i < src.Len() ensures InFile(src, i) && F32_CODEC.Keeps(SlotBytes(src, i)) {
      StoredInFile(src, i);
      F32Keeps(src.layout, SlotBytes(src, i));
    }
  }

  /** Every row of an i8 store the encoder made is kept, when the scales read back. */
  lemma I8KeepsRows(src: VectorStore, put: real -> seq<byte>, get: seq<byte> -> real, vectors: seq<seq<real>>)
    requires src.Valid() && src.header.dtype == I8 && Codec.FourBytes(put) && |vectors| == src.Len()
    requires forall i :: 0 <= i < |vectors| ==> get(put(Codec.Scale(vectors[i]))) == Codec.Scale(vectors[i])
    requires forall i :: 0 <= i < |vectors| ==> InFile(src, i) && SlotBytes(src, i) == Codec.I8Slot(put, vectors[i])
    ensures KeepsRows(src, Codec.I8Codec(put, get))
    ensures Codec.I8Codec(put, get).Fits(src.header.dimensions, src.layout.vectorBytes)
  {
    Codec.I8Fits(put, get, src.layout);
    hide VectorStore.Valid, InFile, SlotBytes, Codec.Scale, Codec.I8Slot, SlotCodec.Keeps, Codec.FourBytes;
    forall i | 0 <= i < src.Len() ensures Codec.I8Codec(put, get).Keeps(SlotBytes(src, i)) {
      Codec.I8Keeps(put, get, vectors[i]);
    }
  }

  /** Whoever wrote an i8 store, its rows are kept exactly when every slot survives. */
  lemma I8KeepsRowsIff(src: VectorStore, put: real -> seq<byte>, get: seq<byte> -> real)
    requires src.Valid() && src.header.dtype == I8 && Codec.FourBytes(put)
    requires forall i :: 0 <= i < src.Len() ==> InFile(src, i) && Codec.ScalesReadBack(put, get, SlotBytes(src, i))
    ensures KeepsRows(src, Codec.I8Codec(put, get)) <==>
              forall i :: 0 <= i < src.Len() ==>
                var slot := SlotBytes(src, i); Codec.Survives(get(slot[..4]), slot[4..])
  {
    HasSlots(src);
    hide VectorStore.Valid, InFile, SlotBytes, SlotCodec.Keeps, Codec.FourBytes, Codec.Survives, Codec.I8Codec;
    forall i | 0 <= i < src.Len()
      ensures var slot := SlotBytes(src, i);
              |slot| >= 4 && (Codec.I8Codec(put, get).Keeps(slot) <==> Codec.Survives(get(slot[..4]), slot[4..]))
    {
      Codec.I8KeepsIff(put, get, SlotBytes(src, i));
    }
    hide Codec.ScalesReadBack;
  }

  /** Old ids met so far, no repeats. */
  ghost predicate Taken(order: seq<nat>, n: nat, seen: seq<bool>, i: nat) {
    && i <= |order| && |seen| == n
    && Listed(n, order[..i]) && Distinct(order[..i])
    && forall x: nat :: x < n ==> (seen[x] <==> x in order[..i])
  }

  lemma TakeNext(order: seq<nat>, n: nat, seen: seq<bool>, i: nat)
    requires Taken(order, n, seen, i) && i < |order| && order[i] < n && !seen[order[i]]
    ensures Taken(order, n, seen[order[i] := true], i + 1)
  {
    assert order[..i + 1] == order[..i] + [order[i]];
  }

  lemma TakenAll(order: seq<nat>, n: nat, seen: seq<bool>)
    requires Taken(order, n, seen, |order|) && |order| == n
    ensures IsPermutation(order, n)
  {
    assert order[..|order|] == order;
  }

  lemma TakenTwice(order: seq<nat>, n: nat, seen: seq<bool>, i: nat)
    requires Taken(order, n, seen, i) && i < |order| && (order[i] >= n || seen[order[i]])
    ensures !IsPermutation(order, n)
  {
    if order[i] < n {
      assert order[i] in order[..i];
      var j :| 0 <= j < i && order[..i][j] == order[i];
      assert order[j] == order[i];
    }
  }

  /** `write_reordered_store`: decode each row in layout order and push it. */
  method WriteReorderedStore<E(!new, 0)>(src: VectorStore, codec: SlotCodec<E>, order: seq<nat>)
    returns (r: Result<seq<byte>>, ghost slots: seq<seq<byte>>)
    requires src.Valid() && codec.Fits(src.header.dimensions, src.layout.vectorBytes)
    ensures r.Ok? <==> IsPermutation(order, src.Len())
    ensures r.Err? ==> r == Err(InvalidConfig)
    ensures r.Ok? ==> IsStoreFile(r.value, src.layout, slots) && |slots| == |order| && Recoded(src, codec, order, slots)
    ensures r.Ok? && KeepsRows(src, codec) ==> Rewritten(src, order, slots)
  {
    hide VectorStore.Valid, Rewritten, Recoded, KeepsRows, Taken, IsPermutation, IsStoreFile, InFile, SlotBytes, IsPowerOfTwo;
    slots := [];
    var n := src.Len();
    LayoutOf(src);
    if |order| != n {
      NotPermutation(order, n);
      return Err(InvalidConfig), slots;
    }
    var writer := new StoreWriter(src.layout);
    var scratch := new E[src.header.dimensions];
    var seen := seq(n, _ => false);
    StartRewrite(src, codec, order, seen);
    for i := 0 to n
      invariant writer.Valid() && fresh(writer) && fresh(scratch) && writer.layout == src.layout
      invariant |writer.slots| == i && |seen| == n
      invariant Recoded(src, codec, order, writer.slots) && Taken(order, n, seen, i)
    {
      hide StoreWriter.Valid;
      TakenSize(order, n, seen, i);
      var x := order[i];
      if x >= n || seen[x] {
        TakenTwice(order, n, seen, i);
        return Err(InvalidConfig), slots;
      }
      TakeNext(order, n, seen, i);
      seen := seen[x := true];
      var got := GetInto(src, codec, x, scratch);
      RecodeNext(src, codec, order, writer.slots, scratch[..]);
      var pushed := writer.Push(codec, scratch[..]);
    }
    TakenAll(order, n, seen);
    slots := writer.slots;
    var file := writer.Finish();
    r := Ok(file);
    if KeepsRows(src, codec) {
      KeptRows(src, codec, order, slots);
    }
  }

  lemma NotPermutation(order: seq<nat>, n: nat)
    requires |order| != n
    ensures !IsPermutation(order, n)
  {
  }

  lemma TakenSize(order: seq<nat>, n: nat, seen: seq<bool>, i: nat)
    requires Taken(order, n, seen, i)
    ensures |seen| == n
  {
  }

  lemma LayoutOf(src: VectorStore)
    requires src.Valid()
    ensures src.layout.Valid() && src.layout.dimensions == src.header.dimensions && src.layout.vectorsPerBlock > 0
  {
  }

  lemma StartRewrite<E(!new)>(src: VectorStore, codec: SlotCodec<E>, order: seq<nat>, seen: seq<bool>)
    requires src.Valid() && |seen| == src.Len() && forall x :: 0 <= x < |seen| ==> !seen[x]
    ensures Recoded(src, codec, order, []) && Taken(order, src.Len(), seen, 0)
  {
  }

  // ---- the query's scores against the rewritten store ----

  /** The rewritten store reopens and scores every renamed vector as the source did. */
  lemma RewrittenScores(src: VectorStore, order: seq<nat>, file: seq<byte>, slots: seq<seq<byte>>, pos: seq<nat>,
                        distance: seq<byte> -> real)
    requires src.Valid() && IsPermutation(order, src.Len()) && IsPermutation(pos, src.Len())
    requires forall i :: 0 <= i < src.Len() ==> pos[order[i]] == i
    requires IsStoreFile(file, src.layout, slots) && |slots| == |order| && Rewritten(src, order, slots)
    requires DistinctScores(ScoresOf(src, distance))
    ensures Open(file).Ok? && Open(file).value.layout == src.layout && Open(file).value.Len() == src.Len()
    ensures Renames(ScoresOf(src, distance), ScoresOf(Open(file).value, distance), pos)
  {
    StoreRoundTrip(file, src.layout, slots);
    PermutationIsOnto(order, src.Len());
    hide Open, IsStoreFile, SlotBytes, InFile, VectorStore.Valid, IsPowerOfTwo;
    var dst := Open(file).value;
    var sc, sc' := ScoresOf(src, distance), ScoresOf(dst, distance);
    forall x | 0 <= x < |sc| ensures sc'[pos[x]] == sc[x] {
      assert x in Members(order);
      var i :| 0 <= i < |order| && order[i] == x;
      assert pos[order[i]] == i;
      assert SlotBytes(dst, i) == slots[i] == SlotBytes(src, x);
    }
  }

  /** `reorder_for_layout`: a breadth-first order, the store rewritten in it, the graph relabelled by it. */
  method ReorderForLayout<E(!new, 0)>(t: Topology, src: VectorStore, codec: SlotCodec<E>)
    returns (r: Result<Topology>, file: seq<byte>, ghost pos: seq<nat>)
    requires WellFormed(t) && src.Valid() && codec.Fits(src.header.dimensions, src.layout.vectorBytes)
    ensures r.Ok? <==> t.len == src.Len()
    ensures r.Err? ==> r == Err(InvalidConfig)
    ensures r.Ok? ==>
              && WellFormed(r.value) && Relabelled(t, r.value, pos)
              && Open(file).Ok? && Open(file).value.Len() == t.len
              && Open(file).value.layout == src.layout
    ensures r.Ok? && KeepsRows(src, codec) ==> forall distance: seq<byte> -> real :: DistinctScores(ScoresOf(src, distance)) ==>
              Renames(ScoresOf(src, distance), ScoresOf(Open(file).value, distance), pos)
  {
    hide WellFormed, VectorStore.Valid, Relabelled, IsPermutation, Rewritten, Recoded, KeepsRows, IsStoreFile, Open, DistinctScores, Renames, IsPowerOfTwo;
    pos, file := [], [];
    var order, _ := LayoutOrder(t);
    var written; ghost var slots;
    written, slots := WriteReorderedStore(src, codec, order);
    PermutationSize(order, t.len, src.Len());
    if written.Err? {
      return Err(InvalidConfig), file, pos;
    }
    file := written.value;
    r, pos := Relabel(t, order);
    RelabelledIsPermutation(t, r.value, pos);
    StoreRoundTrips(file, src, slots);
    forall distance: seq<byte> -> real | KeepsRows(src, codec) && DistinctScores(ScoresOf(src, distance))
      ensures Renames(ScoresOf(src, distance), ScoresOf(Open(file).value, distance), pos)
    {
      RewrittenScores(src, order, file, slots, pos, distance);
    }
  }

  lemma PermutationSize(order: seq<nat>, n: nat, m: nat)
    requires IsPermutation(order, n)
    ensures |order| == n && (IsPermutation(order, m) <==> n == m)
  {
  }

  lemma RelabelledIsPermutation(t: Topology, t': Topology, pos: seq<nat>)
    requires WellFormed(t) && Relabelled(t, t', pos)
    ensures IsPermutation(pos, t.len)
  {
  }

  lemma StoreRoundTrips(file: seq<byte>, src: VectorStore, slots: seq<seq<byte>>)
    requires src.Valid() && IsStoreFile(file, src.layout, slots) && |slots| == src.Len()
    ensures Open(file).Ok? && Open(file).value.layout == src.layout && Open(file).value.Len() == src.Len()
  {
    StoreRoundTrip(file, src.layout, slots);
  }

  /** What `ReorderForLayout` hands back answers every query as the original index did, ids renamed, for the
      same physical work, whatever the distance function. */
  lemma ReorderPreservesSearch(t: Topology, src: VectorStore, t': Topology, file: seq<byte>, pos: seq<nat>,
                               distance: seq<byte> -> real, efSearch: nat, k: nat,
                               out: seq<Neighbor>, counters: QueryCounters,
                               out': seq<Neighbor>, counters': QueryCounters)
    requires WellFormed(t) && WellFormed(t') && Relabelled(t, t', pos) && t.entryPoint.Some?
    requires src.Valid() && src.Len() == t.len && Open(file).Ok? && Open(file).value.Len() == t.len
    requires Open(file).value.layout == src.layout
    requires DistinctScores(ScoresOf(src, distance))
    requires Renames(ScoresOf(src, distance), ScoresOf(Open(file).value, distance), pos)
    requires Answers(t, ScoresOf(src, distance), efSearch, k, src.layout.vectorBytes, out, counters)
    requires t'.len == t.len && t'.entryPoint.Some?
    requires Answers(t', ScoresOf(Open(file).value, distance), efSearch, k, src.layout.vectorBytes, out', counters')
    ensures forall n :: n in out ==> n.id < |pos|
    ensures out' == MapIds(pos, out) && counters' == counters
  {
    var sc, sc' := ScoresOf(src, distance), ScoresOf(Open(file).value, distance);
    assert SameGraph(t, t', sc, sc', pos);
    hide *;
    RelabelPreservesSearch(t, t', sc, sc', pos, efSearch, k, src.layout.vectorBytes, out, counters, out', counters');
  }

  /** And it answers every hybrid query as the original did, once the codes moved along and score as before, for as
      many approximate and exact distances. */
  lemma ReorderPreservesHybrid(t: Topology, src: VectorStore, t': Topology, file: seq<byte>, pos: seq<nat>,
                               distance: seq<byte> -> real, q: HybridQuery, q': HybridQuery, k: nat,
                               out: seq<Neighbor>, counters: QueryCounters,
                               out': seq<Neighbor>, counters': QueryCounters)
    requires WellFormed(t) && WellFormed(t') && Relabelled(t, t', pos) && t.entryPoint.Some?
    requires src.Valid() && src.Len() == t.len && Open(file).Ok?
    requires q.sc == ScoresOf(src, distance) && q'.sc == ScoresOf(Open(file).value, distance) && |q.ap| == t.len
    requires Renames(q.sc, q'.sc, pos) && Renames(q.ap, q'.ap, pos)
    requires q.ef >= 1 && q'.ef == q.ef && q'.want == q.want && q'.fetchBatchSize == q.fetchBatchSize
    requires HybridAnswers(t, q, k, out, counters) && HybridAnswers(t', q', k, out', counters')
    ensures forall n :: n in out ==> n.id < |pos|
    ensures out' == MapIds(pos, out)
    ensures counters'.approxDistances == counters.approxDistances && counters'.exactDistances == counters.exactDistances
  {
    hide ScoresOf, Open, VectorStore.Valid, HybridAnswers, Renames, MapIds, WellFormed, Relabelled;
    assert SameHybrid(t, t', q, q', pos);
    RelabelPreservesHybrid(t, t', q, q', pos, k, out, counters, out', counters');
  }
}
