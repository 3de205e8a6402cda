/** The streaming writer that packs vector slots into blocks. */
module Writer {
  import opened Core
  import opened Layout
  import opened Format

  /** An f32 element by its bit pattern. */
  type word = w: nat | w < TWO_32

  /** An f32 vector's bytes: each element little-endian. */
  function EncodeF32(v: seq<word>): (r: seq<byte>)
    ensures |r| == 4 * |v|
  {
    if v == [] then [] else EncodeF32(v[..|v| - 1]) + Le(v[|v| - 1], 4)
  }

  /** How a vector is laid into its slot and read back: one codec per dtype. */
  datatype SlotCodec<!E(!new)> = SlotCodec(encode: seq<E> -> seq<byte>, decode: seq<byte> -> seq<E>)
  {
    /** Vectors of `dims` elements fill slots of `bytes` bytes, and back. */
    ghost predicate Fits(dims: nat, bytes: nat) {
      && (forall v: seq<E> :: |v| == dims ==> |encode(v)| == bytes)
      && (forall slot: seq<byte> :: |slot| == bytes ==> |decode(slot)| == dims)
    }

    /** Decoding a slot and encoding it again changes nothing. */
    ghost predicate Keeps(slot: seq<byte>) {
      encode(decode(slot)) == slot
    }
  }

  /** The bytes of `[off, off + len)`. */
  function Slice(bytes: seq<byte>, off: nat, len: nat): seq<byte>
    requires off + len <= |bytes|
  {
    bytes[off..off + len]
  }

  /** `out` holds slot `i` at its offset for every vector pushed so far. */
  ghost predicate Packed(layout: BlockLayout, out: seq<byte>, slots: seq<seq<byte>>)
    requires layout.vectorsPerBlock > 0
  {
    forall i :: 0 <= i < |slots| ==>
      layout.VectorOffset(i) + layout.vectorBytes <= |out| &&
      Slice(out, layout.VectorOffset(i), layout.vectorBytes) == slots[i]
  }

  lemma PackedGrows(layout: BlockLayout, out: seq<byte>, more: seq<byte>, slots: seq<seq<byte>>)
    requires layout.vectorsPerBlock > 0 && Packed(layout, out, slots)
    ensures Packed(layout, out + more, slots)
  {
    hide BlockLayout.VectorOffset;
    forall i | 0 <= i < |slots|
      ensures Slice(out + more, layout.VectorOffset(i), layout.vectorBytes) == slots[i]
    {
      var off := layout.VectorOffset(i);
      assert (out + more)[off..off + layout.vectorBytes] == out[off..off + layout.vectorBytes];
    }
  }

  lemma PackedPush(layout: BlockLayout, out: seq<byte>, slots: seq<seq<byte>>, slot: seq<byte>)
    requires layout.vectorsPerBlock > 0 && Packed(layout, out, slots)
    requires |slot| == layout.vectorBytes && |out| == layout.VectorOffset(|slots|)
    ensures Packed(layout, out + slot, slots + [slot])
  {
    hide BlockLayout.VectorOffset;
    PackedGrows(layout, out, slot, slots);
    var off := layout.VectorOffset(|slots|);
    assert (out + slot)[off..off + layout.vectorBytes] == slot;
    forall i | 0 <= i < |slots + [slot]|
      ensures layout.VectorOffset(i) + layout.vectorBytes <= |out + slot| &&
              Slice(out + slot, layout.VectorOffset(i), layout.vectorBytes) == (slots + [slot])[i]
    {
      if i < |slots| {
        assert Slice(out + slot, layout.VectorOffset(i), layout.vectorBytes) == slots[i];
      }
    }
  }

  /** Where the cursor stands after `count` pushes. */
  ghost predicate AtCursor(layout: BlockLayout, outLen: nat, count: nat, cursor: nat)
    requires layout.vectorsPerBlock > 0
  {
    && cursor <= layout.blockSize
    && (count == 0 ==> cursor == 0 && outLen == HEADER_SIZE)
    && (count > 0 ==>
          && outLen == layout.VectorOffset(count - 1) + layout.vectorBytes
          && cursor == layout.SlotOf(count - 1) * layout.vectorBytes + layout.vectorBytes)
  }

  /** Block and slot of the following index. */
  lemma Successor(p: nat, d: nat)
    requires d > 0
    ensures p % d + 1 < d ==> (p + 1) / d == p / d && (p + 1) % d == p % d + 1
    ensures p % d + 1 == d ==> (p + 1) / d == p / d + 1 && (p + 1) % d == 0
  {
    var q, r := p / d, p % d;
    assert p == q * d + r;
    if r + 1 < d {
      DivModUnique(p + 1, q, r + 1, d);
    } else {
      assert (q + 1) * d == q * d + d;
      DivModUnique(p + 1, q + 1, 0, d);
    }
  }

  /** A vector fits the rest of its block exactly when a slot is left. */
  lemma FitsIffSlotLeft(blockSize: nat, bytes: nat, slot: nat)
    requires 0 < bytes <= blockSize && slot < blockSize / bytes
    ensures slot * bytes + bytes <= blockSize
    ensures blockSize - (slot * bytes + bytes) < bytes <==> slot + 1 == blockSize / bytes
  {
    var d := blockSize / bytes;
    assert blockSize == d * bytes + blockSize % bytes;
    SlotsFit(blockSize, bytes, slot);
    assert (slot + 1) * bytes == slot * bytes + bytes;
    if slot + 1 < d {
      SlotsFit(blockSize, bytes, slot + 1);
    }
  }

  lemma NextInBlock(layout: BlockLayout, p: nat)
    requires layout.vectorsPerBlock > 0 && layout.SlotOf(p) + 1 < layout.vectorsPerBlock
    ensures layout.VectorOffset(p + 1) == layout.VectorOffset(p) + layout.vectorBytes
    ensures layout.SlotOf(p + 1) * layout.vectorBytes == layout.SlotOf(p) * layout.vectorBytes + layout.vectorBytes
  {
    var b, s := layout.BlockOf(p), layout.SlotOf(p);
    Successor(p, layout.vectorsPerBlock);
    OffsetIs(layout, p, b, s);
    OffsetIs(layout, p + 1, b, s + 1);
    hide BlockLayout.VectorOffset, BlockLayout.BlockOf, BlockLayout.SlotOf;
    assert (s + 1) * layout.vectorBytes == s * layout.vectorBytes + layout.vectorBytes;
  }

  lemma NextBlock(layout: BlockLayout, p: nat)
    requires layout.vectorsPerBlock > 0 && layout.SlotOf(p) + 1 == layout.vectorsPerBlock
    ensures layout.VectorOffset(p + 1) ==
              layout.VectorOffset(p) - layout.SlotOf(p) * layout.vectorBytes + layout.blockSize
    ensures layout.SlotOf(p + 1) == 0
  {
    var b, s := layout.BlockOf(p), layout.SlotOf(p);
    Successor(p, layout.vectorsPerBlock);
    OffsetIs(layout, p, b, s);
    OffsetIs(layout, p + 1, b + 1, 0);
    hide BlockLayout.VectorOffset, BlockLayout.BlockOf, BlockLayout.SlotOf;
    assert (b + 1) * layout.blockSize == b * layout.blockSize + layout.blockSize;
  }

  /** The next slot starts after the padding the writer inserts when a vector no longer fits. */
  lemma NextSlot(layout: BlockLayout, outLen: nat, count: nat, cursor: nat)
    requires layout.Valid() && layout.vectorsPerBlock > 0 && AtCursor(layout, outLen, count, cursor)
    ensures var remaining := layout.blockSize - cursor;
            layout.VectorOffset(count) == if remaining < layout.vectorBytes then outLen + remaining else outLen
    ensures layout.SlotOf(count) * layout.vectorBytes ==
              if layout.blockSize - cursor < layout.vectorBytes then 0 else cursor
  {
    if count == 0 {
      OffsetIs(layout, 0, 0, 0);
    } else {
      SlotBelow(layout, count - 1);
      hide BlockLayout.VectorOffset, BlockLayout.BlockOf, BlockLayout.SlotOf, IsPowerOfTwo;
      var s := layout.SlotOf(count - 1);
      FitsIffSlotLeft(layout.blockSize, layout.vectorBytes, s);
      if s + 1 < layout.vectorsPerBlock {
        NextInBlock(layout, count - 1);
      } else {
        NextBlock(layout, count - 1);
      }
    }
  }

  lemma SlotBelow(layout: BlockLayout, p: nat)
    requires layout.vectorsPerBlock > 0
    ensures layout.SlotOf(p) < layout.vectorsPerBlock
  {
  }

  lemma OffsetIs(layout: BlockLayout, i: nat, b: nat, s: nat)
    requires layout.vectorsPerBlock > 0 && i / layout.vectorsPerBlock == b && i % layout.vectorsPerBlock == s
    ensures layout.BlockOf(i) == b && layout.SlotOf(i) == s
    ensures layout.VectorOffset(i) == HEADER_SIZE + b * layout.blockSize + s * layout.vectorBytes
  {
  }

  class StoreWriter {
    const layout: BlockLayout
    var out: seq<byte>
    var count: nat
    var blockCursor: nat
    ghost var slots: seq<seq<byte>>

    ghost predicate Valid()
      reads this
    {
      && layout.Valid() && layout.vectorsPerBlock > 0
      && count == |slots| && (forall i :: 0 <= i < count ==> |slots[i]| == layout.vectorBytes)
      && |out| >= HEADER_SIZE
      && AtCursor(layout, |out|, count, blockCursor)
      && Packed(layout, out, slots)
    }

    /** Reserve the header region. */
    constructor (layout: BlockLayout)
      requires layout.Valid()
      ensures Valid() && slots == [] && this.layout == layout
    {
      this.layout := layout;
      out, count, blockCursor, slots := Zeros(HEADER_SIZE), 0, 0, [];
      new;
      ValidHasSlots(layout);
    }

    /** Write `n` zero bytes, 1024 at a time. */
    method Pad(n: nat)
      modifies this`out
      ensures out == old(out) + Zeros(n)
    {
      var left := n;
      while left > 0
        invariant 0 <= left <= n && out == old(out) + Zeros(n - left)
      {
        var chunk := if left < 1024 then left else 1024;
        assert Zeros(n - left) + Zeros(chunk) == Zeros(n - left + chunk);
        out := out + Zeros(chunk);
        left := left - chunk;
      }
    }

    /** Append one encoded slot, starting a new block when it would cross the current one. */
    method Append(slot: seq<byte>) returns (index: nat)
      requires Valid() && |slot| == layout.vectorBytes
      modifies this
      ensures Valid() && slots == old(slots) + [slot]
      ensures index == |old(slots)|
    {
      NextSlot(layout, |out|, count, blockCursor);
      hide Packed, IsPowerOfTwo, BlockLayout.VectorOffset, BlockLayout.SlotOf;
      var remaining := layout.blockSize - blockCursor;
      if remaining < layout.vectorBytes {
        PackedGrows(layout, out, Zeros(remaining), slots);
        Pad(remaining);
        blockCursor := 0;
      }
      PackedPush(layout, out, slots, slot);
      out := out + slot;
      blockCursor := blockCursor + layout.vectorBytes;
      slots := slots + [slot];
      index := count;
      count := count + 1;
    }

    /** `StoreWriter::push`, whatever the layout's dtype. */
    method Push<E(!new)>(codec: SlotCodec<E>, vector: seq<E>) returns (r: Result<nat>)
      requires Valid() && codec.Fits(layout.dimensions, layout.vectorBytes)
      modifies this
      ensures Valid()
      ensures |vector| != layout.dimensions ==>
                r == Err(DimensionMismatch(layout.dimensions, |vector|)) && slots == old(slots) && out == old(out)
      ensures |vector| == layout.dimensions ==>
                r == Ok(|old(slots)|) && slots == old(slots) + [codec.encode(vector)]
    {
      if |vector| != layout.dimensions {
        return Err(DimensionMismatch(layout.dimensions, |vector|));
      }
      var index := Append(codec.encode(vector));
      r := Ok(index);
    }

    /** Pad the last block and write the real header over the reserved region. */
    method Finish() returns (file: seq<byte>)
      requires Valid()
      modifies this
      ensures IsStoreFile(file, layout, old(slots))
    {
      if blockCursor > 0 {
        PadFills(layout, |out|, count, blockCursor);
        PackedGrows(layout, out, Zeros(layout.blockSize - blockCursor), slots);
        Pad(layout.blockSize - blockCursor);
        blockCursor := 0;
      }
      assert |out| == layout.FileSizeFor(count);
      var header := ToBytes(HeaderOf(layout, count));
      file := header + out[HEADER_SIZE..];
      HeaderReplaced(layout, out, header, slots);
    }
  }

  lemma PadFills(layout: BlockLayout, outLen: nat, count: nat, cursor: nat)
    requires layout.Valid() && layout.vectorsPerBlock > 0 && AtCursor(layout, outLen, count, cursor) && cursor > 0
    ensures outLen + layout.blockSize - cursor == layout.FileSizeFor(count)
  {
    BlocksAfter(layout, count - 1);
    FileSizeIs(layout, count, layout.BlockOf(count - 1) + 1);
    EndOfBlock(layout, count - 1);
    hide *;
  }

  lemma EndOfBlock(layout: BlockLayout, p: nat)
    requires layout.vectorsPerBlock > 0
    ensures layout.VectorOffset(p) - layout.SlotOf(p) * layout.vectorBytes + layout.blockSize ==
              HEADER_SIZE + (layout.BlockOf(p) + 1) * layout.blockSize
  {
    var b, s := layout.BlockOf(p), layout.SlotOf(p);
    OffsetIs(layout, p, b, s);
    hide BlockLayout.VectorOffset, BlockLayout.BlockOf, BlockLayout.SlotOf;
    assert (b + 1) * layout.blockSize == b * layout.blockSize + layout.blockSize;
  }

  lemma FileSizeIs(layout: BlockLayout, count: nat, blocks: nat)
    requires layout.vectorsPerBlock > 0 && layout.BlocksFor(count) == blocks
    ensures layout.FileSizeFor(count) == HEADER_SIZE + blocks * layout.blockSize
  {
  }

  lemma BlocksAfter(layout: BlockLayout, p: nat)
    requires layout.vectorsPerBlock > 0
    ensures layout.BlocksFor(p + 1) == layout.BlockOf(p) + 1
  {
    Successor(p, layout.vectorsPerBlock);
  }

  /** A finished store file: the header, then every slot at its offset, whole blocks to the end. */
  ghost predicate IsStoreFile(file: seq<byte>, layout: BlockLayout, slots: seq<seq<byte>>) {
    && layout.Valid() && layout.vectorsPerBlock > 0
    && |file| == layout.FileSizeFor(|slots|)
    && file[..36] == Fields(HeaderOf(layout, |slots|))
    && (forall i :: 0 <= i < |slots| ==> |slots[i]| == layout.vectorBytes)
    && Packed(layout, file, slots)
  }

  lemma HeaderReplaced(layout: BlockLayout, out: seq<byte>, header: seq<byte>, slots: seq<seq<byte>>)
    requires layout.Valid() && layout.vectorsPerBlock > 0 && Packed(layout, out, slots)
    requires |header| == HEADER_SIZE <= |out|
    ensures Packed(layout, header + out[HEADER_SIZE..], slots)
  {
    var file := header + out[HEADER_SIZE..];
    forall i | 0 <= i < |slots|
      ensures layout.VectorOffset(i) + layout.vectorBytes <= |file|
      ensures Slice(file, layout.VectorOffset(i), layout.vectorBytes) == slots[i]
    {
      SlotInsideFile(layout, i, i + 1);
      hide BlockLayout.VectorOffset;
      var off := layout.VectorOffset(i);
      assert file[off..off + layout.vectorBytes] == out[off..off + layout.vectorBytes];
      assert Slice(out, off, layout.vectorBytes) == slots[i];
    }
  }
}
