/** Block-packing geometry: where each vector sits in a store file. */
module Layout {
  import opened Core

  datatype Dtype = F32 | F16 | I8

  const HEADER_SIZE: nat := 4096

  /** The bytes of one slot; an I8 slot starts with its four-byte scale. */
  function StoredVectorBytes(dtype: Dtype, dims: nat): nat {
    match dtype
    case F32 => 4 * dims
    case F16 => 2 * dims
    case I8 => dims + 4
  }

  predicate IsPowerOfTwo(n: nat) {
    n == 1 || (n > 1 && n % 2 == 0 && IsPowerOfTwo(n / 2))
  }

  datatype BlockLayout = BlockLayout(
    dtype: Dtype,
    dimensions: nat,
    blockSize: nat,
    vectorBytes: nat,
    vectorsPerBlock: nat)
  {
    ghost predicate Valid() {
      && dimensions > 0
      && vectorBytes == StoredVectorBytes(dtype, dimensions)
      && 0 < vectorBytes <= blockSize
      && vectorsPerBlock == blockSize / vectorBytes
      && IsPowerOfTwo(blockSize)
    }

    function BlocksFor(count: nat): nat
      requires vectorsPerBlock > 0
    {
      if count % vectorsPerBlock == 0 then count / vectorsPerBlock else count / vectorsPerBlock + 1
    }

    function FileSizeFor(count: nat): nat
      requires vectorsPerBlock > 0
    {
      HEADER_SIZE + BlocksFor(count) * blockSize
    }

    function BlockOf(i: nat): nat
      requires vectorsPerBlock > 0
    {
      i / vectorsPerBlock
    }

    function SlotOf(i: nat): nat
      requires vectorsPerBlock > 0
    {
      i % vectorsPerBlock
    }

    function BlockOffset(block: nat): nat {
      HEADER_SIZE + block * blockSize
    }

    function VectorOffset(i: nat): nat
      requires vectorsPerBlock > 0
    {
      BlockOffset(BlockOf(i)) + SlotOf(i) * vectorBytes
    }

    /** Offset and length of the contiguous bytes covering `first..=last`. */
    function RunSpan(first: nat, last: nat): (int, int)
      requires vectorsPerBlock > 0
    {
      var start := VectorOffset(first);
      (start, VectorOffset(last) + vectorBytes - start)
    }
  }

  /** `BlockLayout::new` with its error cases. */
  function NewLayout(dtype: Dtype, dims: nat, blockSize: nat): (r: Result<BlockLayout>)
    ensures r.Ok? <==> dims > 0 && IsPowerOfTwo(blockSize) && StoredVectorBytes(dtype, dims) <= blockSize
    ensures r.Ok? ==> r.value.Valid() && r.value.dtype == dtype && r.value.dimensions == dims && r.value.blockSize == blockSize
    ensures r.Ok? ==> r.value.vectorBytes == match dtype case F32 => 4 * dims case F16 => 2 * dims case I8 => dims + 4
    ensures r.Err? ==> r == Err(InvalidConfig)
  {
    if dims == 0 then Err(InvalidConfig)
    else if !IsPowerOfTwo(blockSize) then Err(InvalidConfig)
    else
      var bytes := StoredVectorBytes(dtype, dims);
      if bytes == 0 then Err(InvalidConfig)
      else if blockSize < bytes then Err(InvalidConfig)
      else Ok(BlockLayout(dtype, dims, blockSize, bytes, blockSize / bytes))
  }

  ghost function TwoTo(k: nat): nat {
    if k == 0 then 1 else 2 * TwoTo(k - 1)
  }

  lemma {:induction false} PowerIsTwoTo(n: nat) returns (k: nat)
    requires IsPowerOfTwo(n)
    ensures n == TwoTo(k)
  {
    if n == 1 {
      k := 0;
    } else {
      var j := PowerIsTwoTo(n / 2);
      k := j + 1;
    }
  }

  lemma {:induction false} TwoToIsPower(k: nat)
    ensures TwoTo(k) >= 1 && IsPowerOfTwo(TwoTo(k))
  {
    if k > 0 {
      TwoToIsPower(k - 1);
    }
  }

  /** The block sizes accepted are 1, 2, 4, 8, ... */
  lemma PowersOfTwo(n: nat)
    ensures IsPowerOfTwo(n) <==> exists k :: n == TwoTo(k)
  {
    if IsPowerOfTwo(n) {
      var k := PowerIsTwoTo(n);
    }
    if k :| n == TwoTo(k) {
      TwoToIsPower(k);
    }
  }

  /** Where a vector sits, in numbers: whole blocks after a 4096-byte header, slots packed from a block's start. */
  lemma OffsetIs(layout: BlockLayout, block: nat, slot: nat)
    requires layout.Valid() && slot < layout.blockSize / layout.vectorBytes
    ensures layout.vectorsPerBlock > 0
    ensures layout.VectorOffset(block * (layout.blockSize / layout.vectorBytes) + slot) ==
              4096 + block * layout.blockSize + slot * layout.vectorBytes
  {
    ValidHasSlots(layout);
    DivModUnique(block * layout.vectorsPerBlock + slot, block, slot, layout.vectorsPerBlock);
  }

  lemma DivModUnique(x: nat, q: nat, r: nat, d: nat)
    requires x == q * d + r && r < d
    ensures x / d == q && x % d == r
  {
    var q', r' := x / d, x % d;
    assert x == q' * d + r';
    assert q' * d - q * d == (q' - q) * d;
    if q' > q {
      MulMonotone(1, q' - q, d);
      assert false;
    }
    if q' < q {
      MulMonotone(1, q - q', d);
      assert false;
    }
  }

  /** A file is the header and as few whole blocks as hold its vectors. */
  lemma FileSizeIs(layout: BlockLayout, blocks: nat, count: nat)
    requires layout.Valid()
    requires blocks * (layout.blockSize / layout.vectorBytes) >= count
    requires blocks > 0 ==> (blocks - 1) * (layout.blockSize / layout.vectorBytes) < count
    ensures layout.vectorsPerBlock > 0
    ensures layout.FileSizeFor(count) == 4096 + blocks * layout.blockSize
  {
    ValidHasSlots(layout);
    var d := layout.vectorsPerBlock;
    if blocks > 0 {
      var last := count - 1 - (blocks - 1) * d;
      assert blocks * d == (blocks - 1) * d + d;
      if last + 1 == d {
        DivModUnique(count, blocks, 0, d);
      } else {
        DivModUnique(count, blocks - 1, last + 1, d);
      }
    }
  }

  // ---- arithmetic ----

  lemma MulMonotone(a: nat, b: nat, c: nat)
    requires a <= b
    ensures a * c <= b * c
  {
  }

  lemma SlotsFit(blockSize: nat, vectorBytes: nat, slot: nat)
    requires 0 < vectorBytes <= blockSize && slot < blockSize / vectorBytes
    ensures slot * vectorBytes + vectorBytes <= blockSize
  {
    var v := blockSize / vectorBytes;
    assert blockSize == v * vectorBytes + blockSize % vectorBytes;
    MulMonotone(slot + 1, v, vectorBytes);
    assert (slot + 1) * vectorBytes == slot * vectorBytes + vectorBytes;
  }

  lemma DivisorPositive(a: nat, b: nat)
    requires 0 < b <= a
    ensures a / b > 0
  {
  }

  lemma DivMonotone(i: nat, j: nat, d: nat)
    requires i <= j && d > 0
    ensures i / d <= j / d
  {
    var q, p := i / d, j / d;
    assert i == q * d + i % d && j == p * d + j % d;
    if q > p {
      MulMonotone(p + 1, q, d);
      assert false;
    }
  }

  lemma ValidHasSlots(layout: BlockLayout)
    requires layout.Valid()
    ensures layout.vectorsPerBlock > 0
  {
    DivisorPositive(layout.blockSize, layout.vectorBytes);
  }

  // ---- placement ----

  /** No slot crosses its block: it lies between the block's start and the next block's. */
  lemma SlotInsideBlock(layout: BlockLayout, i: nat)
    requires layout.Valid()
    ensures layout.vectorsPerBlock > 0
    ensures layout.BlockOffset(layout.BlockOf(i)) <= layout.VectorOffset(i)
    ensures layout.VectorOffset(i) + layout.vectorBytes <= layout.BlockOffset(layout.BlockOf(i) + 1)
  {
    ValidHasSlots(layout);
    SlotsFit(layout.blockSize, layout.vectorBytes, layout.SlotOf(i));
    assert (layout.BlockOf(i) + 1) * layout.blockSize == layout.BlockOf(i) * layout.blockSize + layout.blockSize;
  }

  lemma BlockOffsetMonotone(layout: BlockLayout, a: nat, b: nat)
    requires a <= b
    ensures layout.BlockOffset(a) <= layout.BlockOffset(b)
  {
    MulMonotone(a, b, layout.blockSize);
  }

  /** Slots are laid out in index order without overlap. */
  lemma SlotsOrdered(layout: BlockLayout, i: nat, j: nat)
    requires layout.Valid() && i < j
    ensures layout.vectorsPerBlock > 0
    ensures layout.VectorOffset(i) + layout.vectorBytes <= layout.VectorOffset(j)
  {
    ValidHasSlots(layout);
    var d := layout.vectorsPerBlock;
    DivMonotone(i, j, d);
    if i / d == j / d {
      assert i == (i / d) * d + i % d && j == (j / d) * d + j % d;
      MulMonotone(i % d + 1, j % d, layout.vectorBytes);
      assert (i % d + 1) * layout.vectorBytes == (i % d) * layout.vectorBytes + layout.vectorBytes;
    } else {
      SlotInsideBlock(layout, i);
      SlotInsideBlock(layout, j);
      BlockOffsetMonotone(layout, i / d + 1, j / d);
    }
  }

  lemma BlocksCover(layout: BlockLayout, i: nat, count: nat)
    requires layout.Valid() && i < count
    ensures layout.vectorsPerBlock > 0 && layout.BlockOf(i) < layout.BlocksFor(count)
  {
    ValidHasSlots(layout);
    var d := layout.vectorsPerBlock;
    DivMonotone(i, count, d);
    if i / d == count / d {
      assert i == (i / d) * d + i % d && count == (count / d) * d + count % d;
    }
  }

  /** Every slot of a `count`-vector file ends within the file. */
  lemma SlotInsideFile(layout: BlockLayout, i: nat, count: nat)
    requires layout.Valid() && i < count
    ensures layout.vectorsPerBlock > 0
    ensures HEADER_SIZE <= layout.VectorOffset(i)
    ensures layout.VectorOffset(i) + layout.vectorBytes <= layout.FileSizeFor(count)
  {
    SlotInsideBlock(layout, i);
    BlocksCover(layout, i, count);
    var block, blocks := layout.BlockOf(i), layout.BlocksFor(count);
    assert layout.FileSizeFor(count) == layout.BlockOffset(blocks);
    assert layout.BlockOffset(block) <= layout.VectorOffset(i);
    BlockOffsetMonotone(layout, 0, block);
    BlockOffsetMonotone(layout, block + 1, blocks);
  }
}
