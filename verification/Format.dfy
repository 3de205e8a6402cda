/** Little-endian integers and the store file header. */
module Format {
  import opened Core
  import opened Layout

  type byte = b: nat | b < 256

  const TWO_32: nat := 0x1_0000_0000
  const TWO_64: nat := 0x1_0000_0000_0000_0000

  // ---- little-endian integers ----

  function Pow256(n: nat): (r: nat)
    ensures r >= 1
  {
    if n == 0 then 1 else 256 * Pow256(n - 1)
  }

  /** `x` in `n` little-endian bytes. */
  function Le(x: nat, n: nat): (r: seq<byte>)
    ensures |r| == n
  {
    if n == 0 then [] else [x % 256] + Le(x / 256, n - 1)
  }

  function FromLe(s: seq<byte>): nat {
    if s == [] then 0 else s[0] + 256 * FromLe(s[1..])
  }

  lemma {:induction false} LeRoundTrip(x: nat, n: nat)
    requires x < Pow256(n)
    ensures FromLe(Le(x, n)) == x
  {
    if n > 0 {
      assert x / 256 < Pow256(n - 1);
      LeRoundTrip(x / 256, n - 1);
      assert Le(x, n)[1..] == Le(x / 256, n - 1);
    }
  }

  lemma {:induction false} FromLeBound(s: seq<byte>)
    ensures FromLe(s) < Pow256(|s|)
  {
    if s != [] {
      FromLeBound(s[1..]);
    }
  }

  lemma Widths()
    ensures Pow256(4) == TWO_32 && Pow256(8) == TWO_64
  {
    assert Pow256(2) == 65536;
    assert Pow256(4) == 256 * (256 * Pow256(2));
    assert Pow256(6) == 256 * (256 * Pow256(4));
    assert Pow256(8) == 256 * (256 * Pow256(6));
  }

  function Zeros(n: nat): (r: seq<byte>)
    ensures |r| == n && forall i :: 0 <= i < n ==> r[i] == 0
  {
    seq(n, _ => 0)
  }

  // ---- the header ----

  /** `"SLATEVEC"`. */
  const MAGIC: seq<byte> := [83, 76, 65, 84, 69, 86, 69, 67]
  const FORMAT_VERSION: nat := 1

  function DtypeTag(dtype: Dtype): byte {
    match dtype
    case F32 => 1
    case F16 => 2
    case I8 => 3
  }

  function DtypeFromTag(tag: byte): Result<Dtype> {
    match tag
    case 1 => Ok(F32)
    case 2 => Ok(F16)
    case 3 => Ok(I8)
    case _ => Err(Corrupt)
  }

  datatype FileHeader = FileHeader(dtype: Dtype, dimensions: nat, count: nat, blockSize: nat, vectorsPerBlock: nat)
  {
    /** The field widths on disk. */
    predicate Fits() {
      dimensions < TWO_32 && count < TWO_64 && blockSize < TWO_32 && vectorsPerBlock < TWO_32
    }

    function Validate(): Result<()> {
      if dimensions == 0 then Err(Corrupt)
      else
        var bytes := StoredVectorBytes(dtype, dimensions);
        if bytes == 0 then Err(Corrupt)
        else if blockSize < bytes then Err(Corrupt)
        else if vectorsPerBlock != (blockSize / bytes) % TWO_32 then Err(Corrupt)
        else if vectorsPerBlock == 0 then Err(Corrupt)
        else Ok(())
    }
  }

  /** The logical header, field by field, without the zero padding. */
  function Fields(h: FileHeader): (r: seq<byte>)
    ensures |r| == 36
  {
    Preamble(h.dtype) + Le(h.dimensions, 4) + Le(h.blockSize, 4) + Le(h.vectorsPerBlock, 4) + Le(h.count, 8)
  }

  /** Copy `bytes` into the buffer at `off`. */
  method Put(buf: array<byte>, off: nat, bytes: seq<byte>) returns (next: nat)
    requires off + |bytes| <= buf.Length
    modifies buf
    ensures next == off + |bytes|
    ensures buf[..] == old(buf[..off]) + bytes + old(buf[next..])
  {
    for i := 0 to |bytes|
      invariant buf[..off] == old(buf[..off])
      invariant buf[off..off + i] == bytes[..i]
      invariant buf[off + i..] == old(buf[off + i..])
    {
      buf[off + i] := bytes[i];
    }
    next := off + |bytes|;
    assert buf[..] == buf[..off] + buf[off..next] + buf[next..];
  }

  /** One more field written: the buffer holds `written` and zeros after it. */
  ghost predicate Filled(buf: seq<byte>, written: seq<byte>) {
    |buf| == HEADER_SIZE && |written| <= HEADER_SIZE && buf == written + Zeros(HEADER_SIZE - |written|)
  }

  method PutField(buf: array<byte>, off: nat, bytes: seq<byte>, ghost written: seq<byte>) returns (next: nat)
    requires off == |written| && off + |bytes| <= HEADER_SIZE && Filled(buf[..], written)
    modifies buf
    ensures next == off + |bytes| && Filled(buf[..], written + bytes)
  {
    assert buf[..off] == written && buf[off + |bytes|..] == Zeros(HEADER_SIZE - off - |bytes|);
    next := Put(buf, off, bytes);
  }

  function Preamble(dtype: Dtype): (r: seq<byte>)
    ensures |r| == 16
  {
    MAGIC + Le(FORMAT_VERSION, 4) + [DtypeTag(dtype)] + [0] + [0, 0]
  }

  method PutPreamble(buf: array<byte>, dtype: Dtype) returns (next: nat)
    requires Filled(buf[..], [])
    modifies buf
    ensures next == 16 && Filled(buf[..], Preamble(dtype))
  {
    hide Filled, Le;
    next := PutField(buf, 0, MAGIC, []);
    ghost var w: seq<byte> := [] + MAGIC;
    next := PutField(buf, next, Le(FORMAT_VERSION, 4), w);
    w := w + Le(FORMAT_VERSION, 4);
    next := PutField(buf, next, [DtypeTag(dtype)], w);
    w := w + [DtypeTag(dtype)];
    next := PutField(buf, next, [0], w);
    w := w + [0];
    next := PutField(buf, next, [0, 0], w);
    assert [] + MAGIC == MAGIC;
  }

  /** `FileHeader::to_bytes`. */
  method ToBytes(h: FileHeader) returns (image: seq<byte>)
    ensures image == Fields(h) + Zeros(HEADER_SIZE - 36)
  {
    var buf := new byte[HEADER_SIZE](_ => 0);
    FilledEmpty(buf[..]);
    hide Filled, Le, Preamble;
    var off := PutPreamble(buf, h.dtype);
    ghost var w: seq<byte> := Preamble(h.dtype);
    off := PutField(buf, off, Le(h.dimensions, 4), w);
    w := w + Le(h.dimensions, 4);
    off := PutField(buf, off, Le(h.blockSize, 4), w);
    w := w + Le(h.blockSize, 4);
    off := PutField(buf, off, Le(h.vectorsPerBlock, 4), w);
    w := w + Le(h.vectorsPerBlock, 4);
    off := PutField(buf, off, Le(h.count, 8), w);
    w := w + Le(h.count, 8);
    image := buf[..];
    FilledIs(image, w);
  }

  lemma FilledEmpty(buf: seq<byte>)
    requires |buf| == HEADER_SIZE && forall i :: 0 <= i < HEADER_SIZE ==> buf[i] == 0
    ensures Filled(buf, [])
  {
  }

  lemma FilledIs(buf: seq<byte>, w: seq<byte>)
    requires Filled(buf, w) && |w| == 36
    ensures buf == w + Zeros(HEADER_SIZE - 36)
  {
  }

  /** `FileHeader::from_bytes`. */
  function FromBytes(buf: seq<byte>): (r: Result<FileHeader>)
    ensures r.Ok? ==> r.value.Validate().Ok?
    ensures r.Err? ==> r == Err(Corrupt)
  {
    if |buf| < HEADER_SIZE then Err(Corrupt)
    else if buf[0..8] != MAGIC then Err(Corrupt)
    else if FromLe(buf[8..12]) != FORMAT_VERSION then Err(Corrupt)
    else
      var dtype := DtypeFromTag(buf[12]);
      if dtype.Err? then Err(Corrupt)
      else
        var h := FileHeader(dtype.value, FromLe(buf[16..20]), FromLe(buf[28..36]), FromLe(buf[20..24]),
                            FromLe(buf[24..28]));
        if h.Validate().Err? then Err(Corrupt) else Ok(h)
  }

  /** Where each field lands. */
  lemma FieldSlices(h: FileHeader, buf: seq<byte>)
    requires |buf| >= HEADER_SIZE && buf[..36] == Fields(h)
    ensures buf[0..8] == MAGIC && buf[8..12] == Le(FORMAT_VERSION, 4) && buf[12] == DtypeTag(h.dtype)
    ensures buf[16..20] == Le(h.dimensions, 4) && buf[20..24] == Le(h.blockSize, 4)
    ensures buf[24..28] == Le(h.vectorsPerBlock, 4) && buf[28..36] == Le(h.count, 8)
  {
    var f, p := buf[..36], Preamble(h.dtype);
    assert f[0..8] == p[0..8] == MAGIC && f[8..12] == p[8..12] == Le(FORMAT_VERSION, 4);
    assert f[12] == p[12];
    assert buf[0..8] == f[0..8] && buf[8..12] == f[8..12] && buf[12] == f[12];
    assert buf[16..20] == f[16..20] && buf[20..24] == f[20..24];
    assert buf[24..28] == f[24..28] && buf[28..36] == f[28..36];
  }

  /** Round trip: parsing an image gives back the header exactly when the header is consistent. */
  lemma HeaderRoundTrip(h: FileHeader, buf: seq<byte>)
    requires h.Fits() && |buf| >= HEADER_SIZE && buf[..36] == Fields(h)
    ensures FromBytes(buf) == if h.Validate().Ok? then Ok(h) else Err(Corrupt)
  {
    FieldSlices(h, buf);
    Widths();
    LeRoundTrip(FORMAT_VERSION, 4);
    LeRoundTrip(h.dimensions, 4);
    LeRoundTrip(h.blockSize, 4);
    LeRoundTrip(h.vectorsPerBlock, 4);
    LeRoundTrip(h.count, 8);
    assert DtypeFromTag(DtypeTag(h.dtype)) == Ok(h.dtype);
  }

  // ---- the image in numbers ----

  /** Four bytes, least significant first. */
  ghost predicate Four(s: seq<byte>, x: nat) {
    |s| == 4 && x == s[0] as int + 256 * (s[1] as int) + 65536 * (s[2] as int) + 16777216 * (s[3] as int)
  }

  /** Eight bytes, least significant first. */
  ghost predicate Eight(s: seq<byte>, x: nat) {
    && |s| == 8
    && exists low: nat, high: nat :: Four(s[..4], low) && Four(s[4..], high) && x == low + 0x1_0000_0000 * high
  }

  lemma FromLeFour(s: seq<byte>)
    requires |s| == 4
    ensures Four(s, FromLe(s)) && FromLe(s) < 0x1_0000_0000
  {
    assert s[1..][1..] == s[2..] && s[2..][1..] == s[3..] && s[3..][1..] == [];
    assert FromLe(s[3..]) == s[3];
    assert FromLe(s[2..]) == s[2] as int + 256 * (s[3] as int);
    assert FromLe(s[1..]) == s[1] as int + 256 * (s[2] as int + 256 * (s[3] as int));
  }

  lemma {:induction false} FromLeAppend(a: seq<byte>, b: seq<byte>)
    ensures FromLe(a + b) == FromLe(a) + Pow256(|a|) * FromLe(b)
  {
    if a == [] {
      assert a + b == b;
    } else {
      FromLeAppend(a[1..], b);
      assert (a + b)[1..] == a[1..] + b;
      Regroup(a[0], FromLe(a[1..]), Pow256(|a| - 1), FromLe(b));
    }
  }

  lemma Regroup(x: int, y: int, p: int, z: int)
    ensures x + 256 * (y + p * z) == (x + 256 * y) + (256 * p) * z
  {
  }

  lemma FromLeEight(s: seq<byte>)
    requires |s| == 8
    ensures Eight(s, FromLe(s))
  {
    assert s == s[..4] + s[4..];
    FromLeAppend(s[..4], s[4..]);
    FromLeFour(s[..4]);
    FromLeFour(s[4..]);
    Widths();
    hide FromLe, Four, Pow256;
  }

  lemma FourUnique(s: seq<byte>, x: nat, y: nat)
    requires Four(s, x) && Four(s, y)
    ensures x == y
  {
  }

  lemma EightUnique(s: seq<byte>, x: nat, y: nat)
    requires Eight(s, x) && Eight(s, y)
    ensures x == y
  {
    var low: nat, high: nat :| Four(s[..4], low) && Four(s[4..], high) && x == low + 0x1_0000_0000 * high;
    var low': nat, high': nat :| Four(s[..4], low') && Four(s[4..], high') && y == low' + 0x1_0000_0000 * high';
    FourUnique(s[..4], low, low');
    FourUnique(s[4..], high, high');
  }

  /** The bytes of a header: the signature, version 1, the element type, and the numbers in their places. The three
      bytes after the element type are reserved. */
  ghost predicate Shows(buf: seq<byte>, h: FileHeader) {
    && |buf| >= 4096
    && buf[0..8] == [83, 76, 65, 84, 69, 86, 69, 67] && Four(buf[8..12], 1)
    && buf[12] == (match h.dtype case F32 => 1 case F16 => 2 case I8 => 3)
    && Four(buf[16..20], h.dimensions) && Four(buf[20..24], h.blockSize) && Four(buf[24..28], h.vectorsPerBlock)
    && Eight(buf[28..36], h.count)
  }

  /** A slot holds a vector, a block at least one slot, and the slots per block are what fits, in 32 bits. */
  ghost predicate Consistent(h: FileHeader) {
    var slot := match h.dtype case F32 => 4 * h.dimensions case F16 => 2 * h.dimensions case I8 => h.dimensions + 4;
    && h.dimensions > 0 && slot <= h.blockSize
    && h.vectorsPerBlock == (h.blockSize / slot) % 0x1_0000_0000 && h.vectorsPerBlock > 0
  }

  /** A buffer parses to a header exactly when it shows one that is consistent. */
  lemma ParsesIff(buf: seq<byte>, h: FileHeader)
    ensures FromBytes(buf) == Ok(h) <==> Shows(buf, h) && Consistent(h)
  {
    if |buf| >= 4096 {
      ParsedNumbers(buf);
      if Shows(buf, h) {
        ShownNumbers(buf, h);
      }
      ValidIff(h);
      hide FromLe, Four, Eight, Consistent, FileHeader.Validate;
    }
  }

  lemma ParsedNumbers(buf: seq<byte>)
    requires |buf| >= 4096
    ensures Four(buf[8..12], FromLe(buf[8..12])) && Four(buf[16..20], FromLe(buf[16..20]))
    ensures Four(buf[20..24], FromLe(buf[20..24])) && Four(buf[24..28], FromLe(buf[24..28]))
    ensures Eight(buf[28..36], FromLe(buf[28..36]))
  {
    hide Four, Eight, FromLe;
    FromLeFour(buf[8..12]);
    FromLeFour(buf[16..20]);
    FromLeFour(buf[20..24]);
    FromLeFour(buf[24..28]);
    FromLeEight(buf[28..36]);
  }

  lemma ShownNumbers(buf: seq<byte>, h: FileHeader)
    requires Shows(buf, h)
    ensures FromLe(buf[8..12]) == 1 && FromLe(buf[16..20]) == h.dimensions && FromLe(buf[20..24]) == h.blockSize
    ensures FromLe(buf[24..28]) == h.vectorsPerBlock && FromLe(buf[28..36]) == h.count
  {
    hide Four, Eight, FromLe;
    ParsedNumbers(buf);
    FourUnique(buf[8..12], FromLe(buf[8..12]), 1);
    FourUnique(buf[16..20], FromLe(buf[16..20]), h.dimensions);
    FourUnique(buf[20..24], FromLe(buf[20..24]), h.blockSize);
    FourUnique(buf[24..28], FromLe(buf[24..28]), h.vectorsPerBlock);
    EightUnique(buf[28..36], FromLe(buf[28..36]), h.count);
  }

  lemma ValidIff(h: FileHeader)
    ensures h.Validate().Ok? <==> Consistent(h)
  {
  }

  /** The image a store starts with: it shows the header and is zero from byte 36 to byte 4095. */
  lemma ImageShows(h: FileHeader, image: seq<byte>)
    requires h.Fits() && image == Fields(h) + Zeros(HEADER_SIZE - 36)
    ensures |image| == 4096 && Shows(image, h) && image[13..16] == [0, 0, 0]
    ensures forall i :: 36 <= i < 4096 ==> image[i] == 0
  {
    assert image[..36] == Fields(h);
    FieldSlices(h, image);
    assert image[13..16] == Fields(h)[13..16] == Preamble(h.dtype)[13..16] == [0, 0, 0];
    Widths();
    LeRoundTrip(FORMAT_VERSION, 4);
    LeRoundTrip(h.dimensions, 4);
    LeRoundTrip(h.blockSize, 4);
    LeRoundTrip(h.vectorsPerBlock, 4);
    LeRoundTrip(h.count, 8);
    ParsedNumbers(image);
    hide Le, FromLe, Four, Eight, Fields, Preamble;
  }

  // ---- the header of a layout ----

  /** `BlockLayout::header`: the geometry truncated to the on-disk field widths. */
  function HeaderOf(layout: BlockLayout, count: nat): FileHeader {
    FileHeader(layout.dtype, layout.dimensions % TWO_32, count, layout.blockSize % TWO_32,
               layout.vectorsPerBlock % TWO_32)
  }

  lemma {:induction false} PowersDivide(n: nat, m: nat) returns (q: nat)
    requires IsPowerOfTwo(n) && IsPowerOfTwo(m) && m <= n
    ensures n == q * m
    decreases n
  {
    if m == n {
      q := 1;
    } else {
      HalfAtLeast(n, m);
      var half := PowersDivide(n / 2, m);
      assert n == 2 * (n / 2);
      q := 2 * half;
    }
  }

  /** Two different powers of two are at least a factor two apart. */
  lemma {:induction false} HalfAtLeast(n: nat, m: nat)
    requires IsPowerOfTwo(n) && IsPowerOfTwo(m) && m < n
    ensures m <= n / 2
  {
    if m > 1 {
      HalfAtLeast(n / 2, m / 2);
    }
  }

  lemma FittingHeader(layout: BlockLayout, count: nat)
    requires layout.Valid() && count < TWO_64 && layout.blockSize < TWO_32
    ensures var h := HeaderOf(layout, count);
            h == FileHeader(layout.dtype, layout.dimensions, count, layout.blockSize, layout.vectorsPerBlock)
            && h.Validate().Ok?
  {
    ValidHasSlots(layout);
    SlotsAtMostBytes(layout);
    hide IsPowerOfTwo, StoredVectorBytes;
    SmallMod(layout.dimensions);
    SmallMod(layout.blockSize);
    SmallMod(layout.vectorsPerBlock);
  }

  lemma SmallMod(x: nat)
    requires x < TWO_32
    ensures x % TWO_32 == x
  {
  }

  lemma OversizedHeader(layout: BlockLayout, count: nat)
    requires layout.Valid() && layout.blockSize >= TWO_32
    ensures HeaderOf(layout, count).Validate().Err?
  {
    TwoTo32();
    var q := PowersDivide(layout.blockSize, TWO_32);
    assert HeaderOf(layout, count).blockSize == 0;
  }

  /** A store's own header reads back exactly when its block size fits the 32-bit field;
      otherwise the truncated header is rejected. */
  lemma HeaderReadsBack(layout: BlockLayout, count: nat, buf: seq<byte>)
    requires layout.Valid() && count < TWO_64
    requires |buf| >= HEADER_SIZE && buf[..36] == Fields(HeaderOf(layout, count))
    ensures layout.blockSize < TWO_32 ==>
              FromBytes(buf) == Ok(FileHeader(layout.dtype, layout.dimensions, count, layout.blockSize, layout.vectorsPerBlock))
    ensures layout.blockSize >= TWO_32 ==> FromBytes(buf) == Err(Corrupt)
  {
    hide FromBytes, Fields, IsPowerOfTwo, FileHeader.Validate;
    var h := HeaderOf(layout, count);
    HeaderRoundTrip(h, buf);
    if layout.blockSize >= TWO_32 {
      OversizedHeader(layout, count);
    } else {
      FittingHeader(layout, count);
    }
  }

  lemma Doubled(n: nat)
    requires IsPowerOfTwo(n)
    ensures n > 0 && IsPowerOfTwo(2 * n)
  {
  }

  lemma Times16(n: nat)
    requires IsPowerOfTwo(n)
    ensures IsPowerOfTwo(16 * n)
  {
    Doubled(n);
    Doubled(2 * n);
    Doubled(4 * n);
    Doubled(8 * n);
    hide IsPowerOfTwo;
  }

  lemma TwoTo32()
    ensures IsPowerOfTwo(TWO_32)
  {
    assert IsPowerOfTwo(1);
    hide IsPowerOfTwo;
    Times16(1);
    Times16(16);
    Times16(0x100);
    Times16(0x1000);
    Times16(0x1_0000);
    Times16(0x10_0000);
    Times16(0x100_0000);
    Times16(0x1000_0000);
  }

  lemma SlotsAtMostBytes(layout: BlockLayout)
    requires layout.Valid()
    ensures layout.vectorsPerBlock <= layout.blockSize && layout.dimensions <= layout.blockSize
  {
    var v := layout.vectorsPerBlock;
    assert layout.blockSize == v * layout.vectorBytes + layout.blockSize % layout.vectorBytes;
    Layout.MulMonotone(1, layout.vectorBytes, v);
  }
}
