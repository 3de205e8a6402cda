/** The vectors of a store, decoded: what the builders read and the indexes rank. */
module Corpus {
  import opened Format
  import opened Writer
  import opened Reader
  import opened Distance

  /** Every stored vector in id order, decoded by `decode`. */
  ghost function Vectors(store: VectorStore, decode: seq<byte> -> Vector): (points: seq<Vector>)
    requires store.Valid()
    ensures |points| == store.Len()
    ensures forall i :: 0 <= i < store.Len() ==> InFile(store, i) && points[i] == decode(SlotBytes(store, i))
  {
    AllInFile(store);
    seq(store.Len(), i requires 0 <= i < store.Len() => decode(SlotBytes(store, i)))
  }

  lemma AllInFile(store: VectorStore)
    requires store.Valid()
    ensures store.layout.vectorsPerBlock > 0 && forall i :: 0 <= i < store.Len() ==> InFile(store, i)
  {
    forall i | 0 <= i < store.Len() ensures InFile(store, i) {
      StoredInFile(store, i);
    }
  }

  function Values<E>(elements: seq<E>, value: E -> real): (v: Vector)
    ensures |v| == |elements| && forall j :: 0 <= j < |v| ==> v[j] == value(elements[j])
  {
    seq(|elements|, j requires 0 <= j < |elements| => value(elements[j]))
  }

  /** A slot's vector: its elements as the codec decodes them, each at its value. */
  ghost function Decoder<E(!new)>(codec: SlotCodec<E>, value: E -> real): seq<byte> -> Vector {
    (slot: seq<byte>) => Values(codec.decode(slot), value)
  }

  /** Slots decode to vectors of the store's width. */
  lemma CorpusShaped<E(!new)>(store: VectorStore, codec: SlotCodec<E>, value: E -> real)
    requires store.Valid() && codec.Fits(store.header.dimensions, store.layout.vectorBytes)
    ensures Shaped(Vectors(store, Decoder(codec, value)), store.header.dimensions)
  {
    AllInFile(store);
    hide VectorStore.Valid;
    forall i | 0 <= i < store.Len()
      ensures |Vectors(store, Decoder(codec, value))[i]| == store.header.dimensions
    {
      assert |SlotBytes(store, i)| == store.layout.vectorBytes;
    }
  }

  /** The corpus read: every slot fetched into a scratch buffer in turn. No read fails, as every index is in range and
      the buffer has the store's width. */
  method ReadAll<E(!new, 0)>(store: VectorStore, codec: SlotCodec<E>, value: E -> real) returns (points: seq<Vector>)
    requires store.Valid() && codec.Fits(store.header.dimensions, store.layout.vectorBytes)
    ensures points == Vectors(store, Decoder(codec, value)) && Shaped(points, store.header.dimensions)
  {
    CorpusShaped(store, codec, value);
    hide VectorStore.Valid, SlotCodec.Fits, SlotBytes, InFile, Shaped;
    points := [];
    var scratch := new E[store.header.dimensions];
    for index := 0 to store.Len()
      invariant fresh(scratch) && |points| == index && scratch.Length == store.header.dimensions
      invariant forall i :: 0 <= i < index ==> points[i] == Vectors(store, Decoder(codec, value))[i]
    {
      var got := GetInto(store, codec, index, scratch);
      points := points + [Values(scratch[..], value)];
    }
  }
}
