/** What reads of a store return: its geometry, single slots, and the slots of a fetch plan. */
module Reader {
  import opened Core
  import opened IdLists
  import opened Layout
  import opened Format
  import opened Writer
  import opened Io
  import opened Schedule

  datatype VectorStore = VectorStore(file: seq<byte>, header: FileHeader, layout: BlockLayout)
  {
    ghost predicate Valid() {
      && layout.Valid() && layout.vectorsPerBlock > 0
      && layout.dtype == header.dtype && layout.dimensions == header.dimensions
      && layout.blockSize < TWO_32 && header.count < TWO_64
      && |file| >= layout.FileSizeFor(header.count)
    }

    function Len(): nat {
      header.count
    }
  }

  /** Parsed fields fit their on-disk widths. */
  lemma ParsedFits(buf: seq<byte>)
    ensures FromBytes(buf).Ok? ==> FromBytes(buf).value.Fits()
  {
    if FromBytes(buf).Ok? {
      Widths();
      FromLeBound(buf[16..20]);
      FromLeBound(buf[28..36]);
      FromLeBound(buf[20..24]);
      FromLeBound(buf[24..28]);
    }
  }

  /** `VectorStore::with_backend`: parse and validate the header, check the file is long enough. */
  function Open(file: seq<byte>): (r: Result<VectorStore>)
    ensures r.Ok? ==> r.value.Valid() && r.value.file == file
  {
    if |file| < HEADER_SIZE then Err(Corrupt)
    else
      var header := FromBytes(file[..HEADER_SIZE]);
      if header.Err? then Err(header.error)
      else
        ParsedFits(file[..HEADER_SIZE]);
        var layout := NewLayout(header.value.dtype, header.value.dimensions, header.value.blockSize);
        if layout.Err? then Err(layout.error)
        else
          ValidHasSlots(layout.value);
          if |file| < layout.value.FileSizeFor(header.value.count) then Err(Corrupt)
          else Ok(VectorStore(file, header.value, layout.value))
  }

  /** A file opens exactly when its first 4096 bytes show a consistent header, the block size is a power of two, and every
      block the header counts is there; then the store has that header and that geometry. */
  lemma OpensIff(file: seq<byte>, h: FileHeader)
    ensures Open(file).Ok? && Open(file).value.header == h <==>
              && |file| >= 4096 && Shows(file[..4096], h) && Consistent(h) && IsPowerOfTwo(h.blockSize)
              && var layout := NewLayout(h.dtype, h.dimensions, h.blockSize);
                 layout.Ok? && layout.value.vectorsPerBlock > 0 && |file| >= layout.value.FileSizeFor(h.count)
    ensures Open(file).Ok? ==>
              var header := Open(file).value.header;
              && NewLayout(header.dtype, header.dimensions, header.blockSize).Ok?
              && Open(file).value == VectorStore(file, header, NewLayout(header.dtype, header.dimensions, header.blockSize).value)
  {
    if |file| >= 4096 {
      ParsesIff(file[..4096], h);
      hide Shows, Consistent, FromBytes, IsPowerOfTwo;
    }
  }

  /** Slot `i` lies within the file; every stored vector does, and so does the last block's padding. */
  predicate InFile(store: VectorStore, i: nat)
    requires store.layout.vectorsPerBlock > 0
  {
    store.layout.VectorOffset(i) + store.layout.vectorBytes <= |store.file|
  }

  lemma StoredInFile(store: VectorStore, i: nat)
    requires store.Valid() && i < store.Len()
    ensures InFile(store, i)
  {
    SlotInsideFile(store.layout, i, store.Len());
  }

  /** In a finished store an index is inside the file exactly when its block is: the padding of the last block is
      readable by the plan executor, which only knows the file's length, while `get_into` refuses it. */
  lemma PaddingReadable(store: VectorStore, i: nat)
    requires store.Valid() && |store.file| == store.layout.FileSizeFor(store.Len())
    ensures InFile(store, i) <==> store.layout.BlockOf(i) < store.layout.BlocksFor(store.Len())
  {
    var layout, blocks := store.layout, store.layout.BlocksFor(store.Len());
    SlotInsideBlock(layout, i);
    var block := layout.BlockOf(i);
    hide BlockLayout.BlocksFor, BlockLayout.BlockOf, BlockLayout.SlotOf, IsPowerOfTwo;
    if block < blocks {
      MulMonotone(block + 1, blocks, layout.blockSize);
    } else {
      MulMonotone(blocks, block, layout.blockSize);
    }
  }

  /** So the index one past the last vector is readable exactly when the last block is not full. */
  lemma LastBlockPadding(store: VectorStore)
    requires store.Valid() && |store.file| == store.layout.FileSizeFor(store.Len())
    ensures InFile(store, store.Len()) <==> store.Len() % store.layout.vectorsPerBlock != 0
  {
    PaddingReadable(store, store.Len());
    hide InFile;
  }

  /** The bytes of slot `i`, read alone. */
  function SlotBytes(store: VectorStore, i: nat): (r: seq<byte>)
    requires store.layout.vectorsPerBlock > 0 && InFile(store, i)
    ensures |r| == store.layout.vectorBytes
  {
    Slice(store.file, store.layout.VectorOffset(i), store.layout.vectorBytes)
  }

  /** The store opens exactly when its block size fits the header field, and then every slot reads
      back the bytes that were pushed. */
  lemma StoreRoundTrip(file: seq<byte>, layout: BlockLayout, slots: seq<seq<byte>>)
    requires IsStoreFile(file, layout, slots) && |slots| < TWO_64
    ensures layout.blockSize >= TWO_32 ==> Open(file) == Err(Corrupt)
    ensures layout.blockSize < TWO_32 ==>
              && Open(file).Ok? && Open(file).value.layout == layout && Open(file).value.Len() == |slots|
              && forall i :: 0 <= i < |slots| ==> InFile(Open(file).value, i) && SlotBytes(Open(file).value, i) == slots[i]
  {
    assert file[..HEADER_SIZE][..36] == file[..36];
    HeaderReadsBack(layout, |slots|, file[..HEADER_SIZE]);
    hide FromBytes, HeaderOf, Fields, IsPowerOfTwo;
  }

  // ---- a query's scores ----

  /** The distance from the query to every stored vector, as read from its slot. */
  ghost function ScoresOf(store: VectorStore, distance: seq<byte> -> real): (sc: seq<real>)
    requires store.Valid()
    ensures |sc| == store.Len()
  {
    seq(store.Len(), i requires 0 <= i < store.Len() =>
      StoredInFile(store, i);
      distance(SlotBytes(store, i)))
  }

  // ---- reading vectors ----

  function DecodeF32(bytes: seq<byte>): (r: seq<word>)
    ensures |r| == |bytes| / 4
  {
    if |bytes| < 4 then []
    else
      FromLeBound(bytes[|bytes| - 4..]);
      Widths();
      DecodeF32(bytes[..|bytes| - 4]) + [FromLe(bytes[|bytes| - 4..])]
  }

  /** Element `i` is the four bytes from `4 * i`, least significant first. */
  lemma {:induction false} DecodedWord(bytes: seq<byte>, i: nat)
    requires |bytes| % 4 == 0 && 4 * i + 4 <= |bytes|
    ensures |DecodeF32(bytes)| == |bytes| / 4 && Four(bytes[4 * i..4 * i + 4], DecodeF32(bytes)[i])
    decreases |bytes|
  {
    var rest := bytes[..|bytes| - 4];
    FromLeFour(bytes[|bytes| - 4..]);
    if 4 * i + 4 < |bytes| {
      DecodedWord(rest, i);
      assert rest[4 * i..4 * i + 4] == bytes[4 * i..4 * i + 4];
    }
  }

  const F32_CODEC: SlotCodec<word> := SlotCodec(v => EncodeF32(v), bytes => DecodeF32(bytes))

  lemma {:induction false} F32RoundTrip(v: seq<word>)
    ensures DecodeF32(EncodeF32(v)) == v
  {
    if v != [] {
      var bytes, before, x := EncodeF32(v), v[..|v| - 1], v[|v| - 1];
      F32RoundTrip(before);
      Widths();
      LeRoundTrip(x, 4);
      assert bytes[..|bytes| - 4] == EncodeF32(before) && bytes[|bytes| - 4..] == Le(x, 4);
      assert v == before + [x];
    }
  }

  lemma F32Fits(layout: BlockLayout)
    requires layout.Valid() && layout.dtype == F32
    ensures F32_CODEC.Fits(layout.dimensions, layout.vectorBytes)
  {
    hide EncodeF32, DecodeF32, IsPowerOfTwo;
  }

  lemma {:induction false} LeOfFromLe(s: seq<byte>)
    ensures Le(FromLe(s), |s|) == s
  {
    if s != [] {
      var rest := FromLe(s[1..]);
      LeOfFromLe(s[1..]);
      LowByte(s[0], rest);
      assert FromLe(s) == s[0] + 256 * rest;
      assert Le(s[0] + 256 * rest, |s|) == [s[0]] + Le(rest, |s| - 1);
      hide *;
      assert s == [s[0]] + s[1..];
    }
  }

  lemma LowByte(b: byte, rest: nat)
    ensures (b + 256 * rest) % 256 == b && (b + 256 * rest) / 256 == rest
  {
  }

  lemma EncodeAppend(v: seq<word>, x: word)
    ensures EncodeF32(v + [x]) == EncodeF32(v) + Le(x, 4)
  {
    assert (v + [x])[..|v|] == v;
  }

  lemma DecodeLast(bytes: seq<byte>)
    requires |bytes| >= 4
    ensures var before, last := bytes[..|bytes| - 4], bytes[|bytes| - 4..];
            FromLe(last) < TWO_32 && DecodeF32(bytes) == DecodeF32(before) + [FromLe(last)]
  {
    FromLeBound(bytes[|bytes| - 4..]);
    Widths();
  }

  /** Decoding f32 bytes and encoding them again changes nothing. */
  lemma {:induction false} F32BytesRoundTrip(bytes: seq<byte>)
    requires |bytes| % 4 == 0
    ensures EncodeF32(DecodeF32(bytes)) == bytes
  {
    if bytes != [] {
      var before, last := bytes[..|bytes| - 4], bytes[|bytes| - 4..];
      F32BytesRoundTrip(before);
      DecodeLast(bytes);
      LeOfFromLe(last);
      hide *;
      EncodeAppend(DecodeF32(before), FromLe(last));
      assert bytes == before + last;
    }
  }

  lemma F32Keeps(layout: BlockLayout, slot: seq<byte>)
    requires layout.Valid() && layout.dtype == F32 && |slot| == layout.vectorBytes
    ensures F32_CODEC.Keeps(slot)
  {
    F32BytesRoundTrip(slot);
  }

  /** The slots of a list of vectors. */
  ghost function Encodings<E(!new)>(codec: SlotCodec<E>, vectors: seq<seq<E>>): (r: seq<seq<byte>>)
    ensures |r| == |vectors|
  {
    seq(|vectors|, i requires 0 <= i < |vectors| => codec.encode(vectors[i]))
  }

  /** Every later read of a finished store decodes the slot the pushed vector was encoded into. */
  lemma PushedVectorsReadBack<E(!new)>(file: seq<byte>, layout: BlockLayout, codec: SlotCodec<E>, vectors: seq<seq<E>>,
                                       i: nat)
    requires IsStoreFile(file, layout, Encodings(codec, vectors)) && |vectors| < TWO_64 && layout.blockSize < TWO_32
    requires i < |vectors|
    ensures Open(file).Ok? && Open(file).value.Len() == |vectors| && InFile(Open(file).value, i)
    ensures SlotBytes(Open(file).value, i) == codec.encode(vectors[i])
  {
    StoreRoundTrip(file, layout, Encodings(codec, vectors));
    StoredInFile(Open(file).value, i);
    hide Open, IsStoreFile, SlotBytes, InFile, VectorStore.Valid;
    assert SlotBytes(Open(file).value, i) == Encodings(codec, vectors)[i];
  }

  /** An f32 store returns exactly the pushed vectors. */
  lemma F32StoreReadsBack(file: seq<byte>, layout: BlockLayout, vectors: seq<seq<word>>, i: nat)
    requires IsStoreFile(file, layout, Encodings(F32_CODEC, vectors)) && |vectors| < TWO_64 && layout.blockSize < TWO_32
    requires i < |vectors|
    ensures Open(file).Ok? && Open(file).value.Len() == |vectors| && InFile(Open(file).value, i)
    ensures F32_CODEC.decode(SlotBytes(Open(file).value, i)) == vectors[i]
  {
    PushedVectorsReadBack(file, layout, F32_CODEC, vectors, i);
    F32RoundTrip(vectors[i]);
    hide Open, IsStoreFile, EncodeF32, DecodeF32, SlotBytes, InFile, VectorStore.Valid;
  }

  /** `get_into`: the decoded slot lands in the caller's buffer. */
  method GetInto<E(!new)>(store: VectorStore, codec: SlotCodec<E>, index: nat, out: array<E>) returns (r: Result<()>)
    requires store.Valid() && codec.Fits(store.header.dimensions, store.layout.vectorBytes)
    modifies out
    ensures index >= store.Len() ==> r == Err(NotFound(index))
    ensures index < store.Len() && out.Length != store.header.dimensions ==>
              r == Err(DimensionMismatch(store.header.dimensions, out.Length))
    ensures r.Err? ==> out[..] == old(out[..])
    ensures index < store.Len() && out.Length == store.header.dimensions ==>
              r.Ok? && InFile(store, index) && out[..] == codec.decode(SlotBytes(store, index))
  {
    hide VectorStore.Valid, InFile, SlotBytes;
    if index >= store.Len() {
      return Err(NotFound(index));
    }
    if out.Length != store.header.dimensions {
      return Err(DimensionMismatch(store.header.dimensions, out.Length));
    }
    StoredInFile(store, index);
    HasSlots(store);
    var bytes := SlotBytes(store, index);
    CopyInto(codec.decode(bytes), out);
    r := Ok(());
  }

  lemma HasSlots(store: VectorStore)
    requires store.Valid()
    ensures store.layout.vectorsPerBlock > 0
  {
  }

  method CopyInto<E>(elements: seq<E>, out: array<E>)
    requires out.Length == |elements|
    modifies out
    ensures out[..] == elements
  {
    for i := 0 to out.Length
      invariant out[..i] == elements[..i]
    {
      out[i] := elements[i];
    }
  }

  // ---- one coalesced run ----

  lemma {:induction false} TotalAppend(iovs: seq<Iov>, w: Iov)
    ensures Total(iovs + [w]) == Total(iovs) + w.len
  {
    if iovs != [] {
      assert (iovs + [w])[1..] == iovs[1..] + [w];
      TotalAppend(iovs[1..], w);
    }
  }

  lemma {:induction false} LocateAppend(iovs: seq<Iov>, w: Iov, p: nat)
    requires p < Total(iovs) + w.len
    ensures p < Total(iovs + [w])
    ensures Locate(iovs + [w], p) ==
              if p < Total(iovs) then Locate(iovs, p) else Loc(w.toSink, w.start + p - Total(iovs))
  {
    TotalAppend(iovs, w);
    if iovs != [] {
      assert (iovs + [w])[1..] == iovs[1..] + [w];
      if p >= iovs[0].len {
        LocateAppend(iovs[1..], w, p - iovs[0].len);
      }
    }
  }

  /** Each buffer is filled front to back: `slotEnd` and `sinkEnd` bytes of it so far. */
  ghost predicate FrontToBack(iovs: seq<Iov>, slotEnd: nat, sinkEnd: nat) {
    && NonEmpty(iovs)
    && (forall p: nat :: p < Total(iovs) ==> InBuffer(Locate(iovs, p), slotEnd, sinkEnd))
    && (forall p: nat, q: nat :: p < q < Total(iovs) && Locate(iovs, p).toSink == Locate(iovs, q).toSink ==>
          Locate(iovs, p).index < Locate(iovs, q).index)
  }

  lemma FrontToBackAppend(iovs: seq<Iov>, slotEnd: nat, sinkEnd: nat, toSink: bool, len: nat)
    requires FrontToBack(iovs, slotEnd, sinkEnd) && len > 0
    ensures FrontToBack(iovs + [Iov(toSink, if toSink then sinkEnd else slotEnd, len)],
                        if toSink then slotEnd else slotEnd + len, if toSink then sinkEnd + len else sinkEnd)
  {
    var w := Iov(toSink, if toSink then sinkEnd else slotEnd, len);
    var all := iovs + [w];
    TotalAppend(iovs, w);
    forall p: nat | p < Total(all)
      ensures Locate(all, p) == if p < Total(iovs) then Locate(iovs, p) else Loc(w.toSink, w.start + p - Total(iovs))
    {
      LocateAppend(iovs, w, p);
    }
    hide Locate, Total;
  }

  lemma FrontToBackDisjoint(iovs: seq<Iov>, slotEnd: nat, sinkEnd: nat)
    requires FrontToBack(iovs, slotEnd, sinkEnd)
    ensures Disjoint(iovs, slotEnd, sinkEnd)
  {
    hide Locate;
  }

  /** Where byte `p` of the read goes, if it goes anywhere. */
  ghost function Spot(iovs: seq<Iov>, p: nat): Option<Loc> {
    if p < Total(iovs) then Some(Locate(iovs, p)) else None
  }

  /** Slot `j` of the run is wired to its own tight region of the slot buffer. */
  ghost predicate SlotWired(layout: BlockLayout, offset: nat, iovs: seq<Iov>, index: nat, j: nat)
    requires layout.vectorsPerBlock > 0
  {
    var rel := layout.VectorOffset(index) - offset;
    && rel >= 0
    && forall p: nat :: rel <= p < rel + layout.vectorBytes ==>
         Spot(iovs, p) == Some(Loc(false, j * layout.vectorBytes + (p - rel)))
  }

  lemma SlotWiredAppend(layout: BlockLayout, offset: nat, iovs: seq<Iov>, w: Iov, index: nat, j: nat)
    requires layout.vectorsPerBlock > 0 && SlotWired(layout, offset, iovs, index, j)
    ensures SlotWired(layout, offset, iovs + [w], index, j)
  {
    hide BlockLayout.VectorOffset, Total, Locate;
    TotalAppend(iovs, w);
    var rel := layout.VectorOffset(index) - offset;
    forall p: nat | rel <= p < rel + layout.vectorBytes
      ensures Spot(iovs + [w], p) == Some(Loc(false, j * layout.vectorBytes + (p - rel)))
    {
      assert Spot(iovs, p).Some?;
      LocateAppend(iovs, w, p);
    }
  }

  lemma SlotWiredNew(layout: BlockLayout, offset: nat, iovs: seq<Iov>, index: nat, j: nat)
    requires layout.vectorsPerBlock > 0 && offset <= layout.VectorOffset(index)
    requires Total(iovs) == layout.VectorOffset(index) - offset
    ensures SlotWired(layout, offset, iovs + [Iov(false, j * layout.vectorBytes, layout.vectorBytes)], index, j)
  {
    hide BlockLayout.VectorOffset, Total, Locate;
    var w := Iov(false, j * layout.vectorBytes, layout.vectorBytes);
    TotalAppend(iovs, w);
    var rel := layout.VectorOffset(index) - offset;
    forall p: nat | rel <= p < rel + layout.vectorBytes
      ensures Spot(iovs + [w], p) == Some(Loc(false, j * layout.vectorBytes + (p - rel)))
    {
      LocateAppend(iovs, w, p);
    }
  }

  /** The window list after the first `i` wanted slots of a run. */
  ghost predicate Wired(layout: BlockLayout, offset: nat, indices: seq<nat>, i: nat, iovs: seq<Iov>,
                        prevEnd: nat, sinkEnd: nat)
    requires layout.vectorsPerBlock > 0 && i <= |indices|
  {
    && FrontToBack(iovs, i * layout.vectorBytes, sinkEnd)
    && Total(iovs) == prevEnd && prevEnd == sinkEnd + i * layout.vectorBytes
    && (i > 0 ==> offset + prevEnd == layout.VectorOffset(indices[i - 1]) + layout.vectorBytes)
    && (i == 0 ==> prevEnd == 0 && sinkEnd == 0)
    && forall j :: 0 <= j < i ==> SlotWired(layout, offset, iovs, indices[j], j)
  }

  /** The next wanted slot starts at or after the end of the previous one: no offset underflows. */
  lemma GapNotNegative(layout: BlockLayout, offset: nat, indices: seq<nat>, i: nat, iovs: seq<Iov>,
                       prevEnd: nat, sinkEnd: nat)
    requires layout.Valid() && layout.vectorsPerBlock > 0 && i < |indices| && StrictlyAscending(indices)
    requires offset == layout.VectorOffset(indices[0])
    requires Wired(layout, offset, indices, i, iovs, prevEnd, sinkEnd)
    ensures offset + prevEnd <= layout.VectorOffset(indices[i])
  {
    if i > 0 {
      SlotsOrdered(layout, indices[i - 1], indices[i]);
    }
  }

  lemma WireNext(layout: BlockLayout, offset: nat, indices: seq<nat>, i: nat, iovs: seq<Iov>,
                 prevEnd: nat, sinkEnd: nat, gap: nat, iovs': seq<Iov>)
    requires layout.Valid() && layout.vectorsPerBlock > 0 && i < |indices|
    requires Wired(layout, offset, indices, i, iovs, prevEnd, sinkEnd)
    requires offset + prevEnd + gap == layout.VectorOffset(indices[i])
    requires iovs' == (if gap > 0 then iovs + [Iov(true, sinkEnd, gap)] else iovs) +
                      [Iov(false, i * layout.vectorBytes, layout.vectorBytes)]
    ensures Wired(layout, offset, indices, i + 1, iovs', prevEnd + gap + layout.vectorBytes, sinkEnd + gap)
  {
    var bytes := layout.vectorBytes;
    hide BlockLayout.VectorOffset, FrontToBack, SlotWired;
    assert (i + 1) * bytes == i * bytes + bytes;
    var gapped := if gap > 0 then iovs + [Iov(true, sinkEnd, gap)] else iovs;
    if gap > 0 {
      TotalAppend(iovs, Iov(true, sinkEnd, gap));
      FrontToBackAppend(iovs, i * bytes, sinkEnd, true, gap);
    }
    var w := Iov(false, i * bytes, bytes);
    TotalAppend(gapped, w);
    FrontToBackAppend(gapped, i * bytes, sinkEnd + gap, false, bytes);
    SlotWiredNew(layout, offset, gapped, indices[i], i);
    forall j | 0 <= j < i ensures SlotWired(layout, offset, iovs', indices[j], j) {
      if gap > 0 {
        SlotWiredAppend(layout, offset, iovs, Iov(true, sinkEnd, gap), indices[j], j);
      }
      SlotWiredAppend(layout, offset, gapped, w, indices[j], j);
    }
  }

  /** The window list of one run: gaps to the sink, wanted slots to their tight regions.
      The gaps sum exactly to the bytes of the run that are not wanted. */
  method BuildWindows(layout: BlockLayout, indices: seq<nat>, offset: nat) returns (iovs: seq<Iov>, ghost sinkEnd: nat)
    requires layout.Valid() && layout.vectorsPerBlock > 0 && indices != [] && StrictlyAscending(indices)
    requires offset == layout.VectorOffset(indices[0])
    ensures Wired(layout, offset, indices, |indices|, iovs, Total(iovs), sinkEnd)
  {
    iovs := [];
    var prevEnd: nat, sinkPos: nat := 0, 0;
    WiredStart(layout, offset, indices);
    for i := 0 to |indices|
      invariant Wired(layout, offset, indices, i, iovs, prevEnd, sinkPos)
    {
      hide Wired, FrontToBack, SlotWired, BlockLayout.VectorOffset, StrictlyAscending, BlockLayout.Valid;
      GapNotNegative(layout, offset, indices, i, iovs, prevEnd, sinkPos);
      var rel: nat := layout.VectorOffset(indices[i]) - offset;
      var gap: nat := rel - prevEnd;
      var w := Iov(false, i * layout.vectorBytes, layout.vectorBytes);
      WireNext(layout, offset, indices, i, iovs, prevEnd, sinkPos, gap,
               (if gap > 0 then iovs + [Iov(true, sinkPos, gap)] else iovs) + [w]);
      if gap > 0 {
        iovs := iovs + [Iov(true, sinkPos, gap)];
        sinkPos := sinkPos + gap;
      }
      iovs := iovs + [w];
      prevEnd := rel + layout.vectorBytes;
    }
    sinkEnd := sinkPos;
  }

  lemma WiredStart(layout: BlockLayout, offset: nat, indices: seq<nat>)
    requires layout.vectorsPerBlock > 0
    ensures Wired(layout, offset, indices, 0, [], 0, 0)
  {
  }

  /** Region `j` of the slot buffer holds the bytes of vector `index`. */
  ghost predicate Holds(store: VectorStore, index: nat, slots: seq<byte>, j: nat)
    requires store.layout.vectorsPerBlock > 0
  {
    && InFile(store, index)
    && j * store.layout.vectorBytes + store.layout.vectorBytes <= |slots|
    && Slice(slots, j * store.layout.vectorBytes, store.layout.vectorBytes) == SlotBytes(store, index)
  }

  /** `slots` holds, tightly and in order, the bytes of every wanted slot. */
  ghost predicate Scattered(store: VectorStore, indices: seq<nat>, slots: seq<byte>)
    requires store.layout.vectorsPerBlock > 0
  {
    forall j :: 0 <= j < |indices| ==> Holds(store, indices[j], slots, j)
  }

  /** A wired slot holds its vector's bytes once the whole read was delivered. */
  lemma SlotDelivered(store: VectorStore, offset: nat, iovs: seq<Iov>, index: nat, j: nat,
                      slots: array<byte>, sink: array<byte>)
    requires store.layout.vectorsPerBlock > 0 && InFile(store, index)
    requires Disjoint(iovs, slots.Length, sink.Length) && offset + Total(iovs) <= |store.file|
    requires Delivered(store.file, offset, iovs, Total(iovs), slots, sink)
    requires SlotWired(store.layout, offset, iovs, index, j)
    requires j * store.layout.vectorBytes + store.layout.vectorBytes <= slots.Length
    ensures Holds(store, index, slots[..], j)
  {
    hide BlockLayout.VectorOffset, Total, Locate;
    var bytes := store.layout.vectorBytes;
    var rel: nat := store.layout.VectorOffset(index) - offset;
    var region := Slice(slots[..], j * bytes, bytes);
    forall b | 0 <= b < |region| ensures region[b] == SlotBytes(store, index)[b] {
      assert Spot(iovs, rel + b) == Some(Loc(false, j * bytes + b));
      assert ByteAt(slots, sink, Locate(iovs, rel + b)) == store.file[offset + (rel + b)];
    }
  }

  lemma AllDelivered(store: VectorStore, indices: seq<nat>, offset: nat, iovs: seq<Iov>, sinkEnd: nat,
                     slots: array<byte>, sink: array<byte>)
    requires store.layout.Valid() && store.layout.vectorsPerBlock > 0 && indices != [] && StrictlyAscending(indices)
    requires Wired(store.layout, offset, indices, |indices|, iovs, Total(iovs), sinkEnd)
    requires slots.Length == |indices| * store.layout.vectorBytes && sink.Length == sinkEnd
    requires Disjoint(iovs, slots.Length, sink.Length) && offset + Total(iovs) <= |store.file|
    requires Delivered(store.file, offset, iovs, Total(iovs), slots, sink)
    ensures Scattered(store, indices, slots[..])
  {
    var bytes := store.layout.vectorBytes;
    forall j | 0 <= j < |indices| ensures Holds(store, indices[j], slots[..], j) {
      if j < |indices| - 1 {
        SlotsOrdered(store.layout, indices[j], indices[|indices| - 1]);
      }
      MulMonotone(j + 1, |indices|, bytes);
      assert (j + 1) * bytes == j * bytes + bytes;
      hide BlockLayout.VectorOffset, Total, Locate, SlotWired, FrontToBack, Disjoint, Delivered, Holds;
      SlotDelivered(store, offset, iovs, indices[j], j, slots, sink);
    }
  }

  /** The windows of a run are disjoint, none is empty, and they cover exactly the run's span. */
  lemma WindowsCoverRun(layout: BlockLayout, offset: nat, indices: seq<nat>, iovs: seq<Iov>, sinkEnd: nat)
    requires layout.Valid() && layout.vectorsPerBlock > 0 && indices != []
    requires Wired(layout, offset, indices, |indices|, iovs, Total(iovs), sinkEnd)
    ensures offset + Total(iovs) == layout.VectorOffset(indices[|indices| - 1]) + layout.vectorBytes
    ensures Total(iovs) - |indices| * layout.vectorBytes == sinkEnd
    ensures NonEmpty(iovs) && Disjoint(iovs, |indices| * layout.vectorBytes, sinkEnd)
  {
    FrontToBackDisjoint(iovs, |indices| * layout.vectorBytes, sinkEnd);
  }

  /** Read one coalesced run, scattering each wanted slot to its own tight region of a fresh buffer. */
  method ScatterRun(store: VectorStore, indices: seq<nat>, offset: nat, len: nat, preadv: nat -> int)
    returns (r: Result<()>, slots: array<byte>)
    requires store.layout.Valid() && store.layout.vectorsPerBlock > 0 && indices != [] && StrictlyAscending(indices)
    requires (offset, len) == store.layout.RunSpan(indices[0], indices[|indices| - 1])
    ensures fresh(slots)
    ensures r.Ok? ==> Scattered(store, indices, slots[..])
    ensures offset + len <= |store.file| && (forall k: nat :: preadv(k) > 0) ==> r.Ok?
  {
    hide Wired, Scattered, Disjoint, Delivered, NonEmpty, StrictlyAscending, IsPowerOfTwo, Total, BlockLayout.VectorOffset;
    var iovs; ghost var sinkEnd;
    iovs, sinkEnd := BuildWindows(store.layout, indices, offset);
    WindowsCoverRun(store.layout, offset, indices, iovs, sinkEnd);
    slots := new byte[|indices| * store.layout.vectorBytes](_ => 0);
    var sink := new byte[len - |indices| * store.layout.vectorBytes](_ => 0);
    r := ReadVectored(store.file, offset, iovs, slots, sink, preadv);
    if r.Ok? {
      AllDelivered(store, indices, offset, iovs, sinkEnd, slots, sink);
    }
  }

  // ---- executing a plan ----

  /** The window starts chain: each begins where the previous one ended. */
  lemma {:induction false} WindowStart(windows: seq<Window>, n: nat, k: nat)
    requires Splits(windows, n) && k < |windows|
    ensures windows[k].1 > 0 && windows[k].0 + windows[k].1 <= n
    ensures windows[k].0 == if k == 0 then 0 else windows[k - 1].0 + windows[k - 1].1
    ensures k == |windows| - 1 ==> windows[k].0 + windows[k].1 == n
    decreases |windows|
  {
    var rest, last := windows[..|windows| - 1], windows[|windows| - 1];
    if k < |rest| {
      WindowStart(rest, last.0, k);
    } else if k > 0 {
      WindowStart(rest, last.0, k - 1);
    }
  }

  /** The visits so far: the first wanted vectors in order, each with the view of its own slot bytes. */
  ghost predicate Visited<T>(store: VectorStore, order: seq<nat>, view: seq<byte> -> T, visits: seq<(nat, T)>)
    requires store.layout.vectorsPerBlock > 0
  {
    && |visits| <= |order|
    && forall i :: 0 <= i < |visits| ==>
         InFile(store, order[i]) && visits[i] == (order[i], view(SlotBytes(store, order[i])))
  }

  /** Hand each slot of a scattered run to the visitor. */
  method VisitRun<T>(store: VectorStore, order: seq<nat>, start: nat, count: nat, slots: array<byte>,
                     view: seq<byte> -> T, visits0: seq<(nat, T)>)
    returns (visits: seq<(nat, T)>)
    requires store.layout.vectorsPerBlock > 0 && start + count <= |order|
    requires Scattered(store, order[start..start + count], slots[..])
    requires |visits0| == start && Visited(store, order, view, visits0)
    ensures |visits| == start + count && Visited(store, order, view, visits)
  {
    hide InFile, Slice;
    visits := visits0;
    for i := 0 to count
      invariant |visits| == start + i && Visited(store, order, view, visits)
    {
      var bytes := store.layout.vectorBytes;
      assert Holds(store, order[start..start + count][i], slots[..], i);
      visits := visits + [(order[start + i], view(Slice(slots[..], i * bytes, bytes)))];
    }
  }

  /** Window `k` of the plan as a run of the order: its slice, and the byte span it reads. */
  lemma RunOfWindow(layout: BlockLayout, order: seq<nat>, k: nat)
    requires layout.Valid() && layout.vectorsPerBlock > 0 && StrictlyAscending(order)
    requires k < |Windows(layout, order, |order|)|
    ensures var windows := Windows(layout, order, |order|);
            var w := windows[k];
            && w.1 > 0 && w.0 + w.1 <= |order|
            && StrictlyAscending(order[w.0..w.0 + w.1])
            && w.0 == (if k == 0 then 0 else windows[k - 1].0 + windows[k - 1].1)
            && (k == |windows| - 1 ==> w.0 + w.1 == |order|)
            && layout.RunSpan(order[w.0], order[w.0 + w.1 - 1]).0 >= 0
            && layout.RunSpan(order[w.0], order[w.0 + w.1 - 1]).1 > 0
  {
    WindowsSplit(layout, order, |order|);
    WindowStart(Windows(layout, order, |order|), |order|, k);
    var w := Windows(layout, order, |order|)[k];
    if w.1 > 1 {
      SlotsOrdered(layout, order[w.0], order[w.0 + w.1 - 1]);
    }
  }

  lemma StoreLayout(store: VectorStore)
    requires store.Valid()
    ensures store.layout.Valid() && store.layout.vectorsPerBlock > 0
  {
  }

  lemma NoWindows(layout: BlockLayout, order: seq<nat>)
    requires layout.vectorsPerBlock > 0
    ensures Windows(layout, order, |order|) == [] <==> order == []
  {
  }

  /** Every wanted vector lies within the file. */
  ghost predicate AllInFile(store: VectorStore, order: seq<nat>)
    requires store.layout.vectorsPerBlock > 0
  {
    forall i :: 0 <= i < |order| ==> InFile(store, order[i])
  }

  lemma SpanInFile(store: VectorStore, order: seq<nat>, last: nat, span: (int, int), first: nat)
    requires store.layout.vectorsPerBlock > 0 && AllInFile(store, order) && last < |order| && first < |order|
    requires span == store.layout.RunSpan(order[first], order[last])
    ensures span.0 + span.1 <= |store.file|
  {
  }

  /** `fetch_scheduled` and `fetch_scheduled_distances`: one vectored read per coalesced run, whatever the short reads
      inside it, and the visitor sees what reading each vector alone would give, in plan order.
      `view` is the decoding or the distance kernel applied to a slot; `preadv(run, call)` the system calls. */
  method FetchScheduled<T>(store: VectorStore, plan: FetchSchedule, got: nat, view: seq<byte> -> T,
                           preadv: nat -> nat -> int)
    returns (r: Result<()>, visits: seq<(nat, T)>, ghost issued: nat)
    requires store.Valid() && StrictlyAscending(plan.order)
    ensures got != store.header.dimensions ==>
              r == Err(DimensionMismatch(store.header.dimensions, got)) && visits == [] && issued == 0
    ensures Visited(store, plan.order, view, visits)
    ensures r.Ok? ==> |visits| == |plan.order| && issued == Runs(store.layout, plan.order, |plan.order|)
    ensures got == store.header.dimensions && AllInFile(store, plan.order) && (forall i, c: nat :: preadv(i)(c) > 0) ==> r.Ok?
  {
    hide *;
    StoreLayout(store);
    visits, issued := [], 0;
    NothingVisited(store, plan.order, view);
    if got != store.header.dimensions {
      return Err(DimensionMismatch(store.header.dimensions, got)), visits, issued;
    }
    var layout, order := store.layout, plan.order;
    var spans := RunSpans(layout, order);
    NoWindows(layout, order);
    for k := 0 to |spans|
      invariant issued == k
      invariant Visited(store, order, view, visits)
      invariant |visits| == if k == 0 then 0 else spans[k - 1].0 + spans[k - 1].1
    {
      RunOfWindow(layout, order, k);
      var start, count := spans[k].0, spans[k].1;
      var span := layout.RunSpan(order[start], order[start + count - 1]);
      if AllInFile(store, order) {
        SpanInFile(store, order, start + count - 1, span, start);
      }
      issued := issued + 1;
      var status, slots := ScatterRun(store, order[start..start + count], span.0, span.1, preadv(k));
      if status.Err? {
        return status, visits, issued;
      }
      visits := VisitRun(store, order, start, count, slots, view, visits);
    }
    if spans != [] {
      RunOfWindow(layout, order, |spans| - 1);
    }
    r := Ok(());
  }

  lemma NothingVisited<T>(store: VectorStore, order: seq<nat>, view: seq<byte> -> T)
    requires store.layout.vectorsPerBlock > 0
    ensures Visited(store, order, view, [])
  {
  }
}
