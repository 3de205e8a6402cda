/** Exact brute-force search over a whole store: the oracle the other backends are compared with. */
module Brute {
  import opened Core
  import opened Ranking
  import opened Nearest
  import opened Graph
  import opened Layout
  import opened Format
  import opened Writer
  import opened Reader

  /** A distance on decoded f32 vectors, as a distance on slot bytes. */
  ghost function OnBytes(distance: seq<word> -> real): seq<byte> -> real {
    (bytes: seq<byte>) => distance(F32_CODEC.decode(bytes))
  }

  lemma DecodedScore(store: VectorStore, distance: seq<word> -> real, i: nat, words: seq<word>)
    requires store.Valid() && store.header.dtype == F32 && i < store.Len()
    requires InFile(store, i) && words == F32_CODEC.decode(SlotBytes(store, i))
    ensures i < |ScoresOf(store, OnBytes(distance))| && distance(words) == ScoresOf(store, OnBytes(distance))[i]
  {
    hide SlotBytes, DecodeF32, VectorStore.Valid, InFile;
  }

  lemma StoreF32Fits(store: VectorStore)
    requires store.Valid() && store.header.dtype == F32
    ensures F32_CODEC.Fits(store.header.dimensions, store.layout.vectorBytes)
  {
    F32Fits(store.layout);
  }

  lemma RangeStep(sc: seq<real>, i: nat)
    requires i < |sc|
    ensures Range(i + 1) == Range(i) + {i} && Within(sc, Range(i)) && i !in Range(i) && Within(sc, Range(|sc|))
  {
  }

  lemma NothingOffered(sc: seq<real>)
    ensures Within(sc, Range(0)) && multiset(Records(sc, Range(0))) == multiset{}
  {
    assert Records(sc, Range(0)) == {};
  }

  lemma RangeWithin(sc: seq<real>)
    ensures Within(sc, Range(|sc|))
  {
  }

  /** `brute_force_search`: the `k` best of every stored vector. */
  method Search(store: VectorStore, queryDims: nat, distance: seq<word> -> real, k: nat) returns (r: Result<seq<Neighbor>>)
    requires store.Valid()
    ensures queryDims != store.header.dimensions ==> r == Err(DimensionMismatch(store.header.dimensions, queryDims))
    ensures queryDims == store.header.dimensions && store.header.dtype != F32 ==> r == Err(Unsupported)
    ensures queryDims == store.header.dimensions && store.header.dtype == F32 ==>
              && r.Ok? && Within(ScoresOf(store, OnBytes(distance)), Range(store.Len()))
              && IsTopK(r.value, ScoresOf(store, OnBytes(distance)), Range(store.Len()), k)
  {
    hide VectorStore.Valid, IsTopK, TopK.Valid, OnBytes, ScoresOf, DecodeF32, SlotBytes, InFile, Records, Within, Range;
    if queryDims != store.header.dimensions {
      return Err(DimensionMismatch(store.header.dimensions, queryDims));
    }
    if store.header.dtype != F32 {
      return Err(Unsupported);
    }
    StoreF32Fits(store);
    ghost var sc := ScoresOf(store, OnBytes(distance));
    var topk := new TopK(k);
    var scratch := new word[queryDims](_ => 0);
    NothingOffered(sc);
    for index := 0 to store.Len()
      invariant topk.Valid() && fresh(topk) && fresh(scratch) && topk.k == k
      invariant Within(sc, Range(index)) && topk.offered == multiset(Records(sc, Range(index)))
    {
      var got := GetInto(store, F32_CODEC, index, scratch);
      DecodedScore(store, distance, index, scratch[..]);
      RangeStep(sc, index);
      RecordsAdd(sc, Range(index), index);
      topk.Offer(Neighbor(index, distance(scratch[..])));
    }
    RangeWithin(sc);
    var out := topk.IntoSortedVec();
    CollectorIsTopK(out, sc, Range(store.Len()), k);
    r := Ok(out);
  }
}
