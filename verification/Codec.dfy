/** The symmetric per-vector i8 codec, in exact arithmetic. A slot is a scale and one signed code per element. */
module Codec {
  import opened Core
  import opened Layout
  import opened Format
  import opened Writer
  import opened Reader

  const I8_MAX: int := 127

  function Abs(x: real): real {
    if x < 0.0 then -x else x
  }

  /** The largest magnitude of a vector. */
  function MaxAbs(v: seq<real>): (m: real)
    ensures m >= 0.0
    ensures forall i :: 0 <= i < |v| ==> Abs(v[i]) <= m
    ensures v != [] ==> exists i :: 0 <= i < |v| && Abs(v[i]) == m
  {
    if v == [] then 0.0
    else
      var before, x := MaxAbs(v[..|v| - 1]), Abs(v[|v| - 1]);
      assert v[..|v| - 1] != [] ==> exists i :: 0 <= i < |v[..|v| - 1]| && Abs(v[i]) == before;
      if before > x then before else x
  }

  /** Rounding half away from zero. */
  function Round(x: real): int {
    if x >= 0.0 then (x + 0.5).Floor else -((-x + 0.5).Floor)
  }

  function Clamp(q: int): int {
    if q < -I8_MAX then -I8_MAX else if q > I8_MAX then I8_MAX else q
  }

  /** A signed code as its two's-complement byte, and back. */
  function ToByte(q: int): byte
    requires -128 <= q < 128
  {
    if q < 0 then q + 256 else q
  }

  function FromByte(b: byte): int {
    if b >= 128 then b - 256 else b
  }

  function Scale(v: seq<real>): real {
    var m := MaxAbs(v);
    if m == 0.0 then 0.0 else m / 127.0
  }

  /** The code of one element: scaled, rounded, clamped. */
  function Code(x: real, scale: real): int
    requires scale > 0.0
  {
    Clamp(Round(x * (1.0 / scale)))
  }

  /** The value a code stands for. */
  function Dequantise(q: int, scale: real): real {
    q as real * scale
  }

  function CodeByte(x: real, scale: real): byte
    requires scale >= 0.0
  {
    if scale == 0.0 then 0 else ToByte(Code(x, scale))
  }

  function Encoded(v: seq<real>): (codes: seq<byte>)
    ensures |codes| == |v|
  {
    seq(|v|, i requires 0 <= i < |v| => CodeByte(v[i], Scale(v)))
  }

  function Decoded(scale: real, codes: seq<byte>): (v: seq<real>)
    ensures |v| == |codes|
  {
    seq(|codes|, i requires 0 <= i < |codes| => Dequantise(FromByte(codes[i]), scale))
  }

  /** The slot: the scale's four bytes, then the codes. `put` is the scale's bit pattern. */
  function I8Slot(put: real -> seq<byte>, v: seq<real>): seq<byte> {
    put(Scale(v)) + Encoded(v)
  }

  function I8Vector(get: seq<byte> -> real, slot: seq<byte>): seq<real> {
    if |slot| < 4 then [] else Decoded(get(slot[..4]), slot[4..])
  }

  function I8Codec(put: real -> seq<byte>, get: seq<byte> -> real): SlotCodec<real> {
    SlotCodec((v: seq<real>) => I8Slot(put, v), (slot: seq<byte>) => I8Vector(get, slot))
  }

  /** A scale takes four bytes. */
  ghost predicate FourBytes(put: real -> seq<byte>) {
    forall s: real :: |put(s)| == 4
  }

  /** `encode_i8`: the scale, then one code per element into the caller's buffer. */
  method EncodeI8(put: real -> seq<byte>, v: seq<real>, out: array<byte>) returns (r: Result<()>)
    requires FourBytes(put)
    modifies out
    ensures out.Length != |v| + 4 ==> r == Err(DimensionMismatch(|v| + 4, out.Length)) && out[..] == old(out[..])
    ensures out.Length == |v| + 4 ==> r == Ok(()) && out[..] == I8Slot(put, v)
  {
    if out.Length != |v| + 4 {
      return Err(DimensionMismatch(|v| + 4, out.Length));
    }
    var scale := ScaleOf(v);
    var bytes := put(scale);
    out[0], out[1], out[2], out[3] := bytes[0], bytes[1], bytes[2], bytes[3];
    hide MaxAbs, CodeByte;
    for i := 0 to |v|
      invariant out[..4] == bytes
      invariant forall j :: 0 <= j < i ==> out[4 + j] == CodeByte(v[j], scale)
    {
      out[4 + i] := CodeByte(v[i], scale);
    }
    assert out[4..] == Encoded(v);
    assert out[..] == out[..4] + out[4..];
    r := Ok(());
  }

  /** The scale, by one pass for the largest magnitude. */
  method ScaleOf(v: seq<real>) returns (scale: real)
    ensures scale == Scale(v) >= 0.0
  {
    var maxAbs := 0.0;
    for i := 0 to |v|
      invariant maxAbs == MaxAbs(v[..i])
    {
      assert v[..i + 1][..i] == v[..i];
      maxAbs := if maxAbs > Abs(v[i]) then maxAbs else Abs(v[i]);
    }
    assert v[..|v|] == v;
    scale := if maxAbs == 0.0 then 0.0 else maxAbs / 127.0;
  }

  /** `decode_i8` of a slot into the caller's buffer. */
  method DecodeI8(get: seq<byte> -> real, slot: seq<byte>, out: array<real>) returns (r: Result<()>)
    modifies out
    ensures |slot| != out.Length + 4 ==> r == Err(DimensionMismatch(out.Length + 4, |slot|)) && out[..] == old(out[..])
    ensures |slot| == out.Length + 4 ==> r == Ok(()) && out[..] == I8Vector(get, slot)
  {
    if |slot| != out.Length + 4 {
      return Err(DimensionMismatch(out.Length + 4, |slot|));
    }
    var scale, codes := get(slot[..4]), slot[4..];
    for i := 0 to |codes|
      invariant forall j :: 0 <= j < i ==> out[j] == Dequantise(FromByte(codes[j]), scale)
    {
      out[i] := Dequantise(FromByte(codes[i]), scale);
    }
    assert out[..] == Decoded(scale, codes);
    r := Ok(());
  }

  // ---- what the codec guarantees ----

  lemma Rescale(x: real, s: real)
    requires s > 0.0
    ensures (x * (1.0 / s)) * s == x
  {
    var inv := 1.0 / s;
    assert inv * s == 1.0;
    assert (x * inv) * s == x * (inv * s);
  }

  lemma Unscale(q: real, s: real)
    requires s > 0.0
    ensures (q * s) * (1.0 / s) == q
  {
    var inv := 1.0 / s;
    assert s * inv == 1.0;
    assert (q * s) * inv == q * (s * inv);
  }

  lemma MulStrict(a: real, b: real, s: real)
    requires s > 0.0 && a > b
    ensures a * s > b * s
  {
    assert (a - b) * s > 0.0;
    assert (a - b) * s == a * s - b * s;
  }

  lemma Ordered(a: real, b: real, s: real)
    requires s > 0.0 && a * s <= b * s
    ensures a <= b
  {
    if a > b {
      MulStrict(a, b, s);
    }
  }

  /** Rounding moves a number by at most one half, fixes integers, and stays in range. */
  lemma RoundNear(y: real)
    ensures -0.5 <= y - Round(y) as real <= 0.5
    ensures -127.0 <= y <= 127.0 ==> -127 <= Round(y) <= 127
  {
  }

  lemma RoundFixes(q: int)
    ensures Round(q as real) == q
  {
  }

  /** The clamp never changes a code: every scaled element already lies in range. */
  lemma ClampNeverFires(x: real, m: real)
    requires m > 0.0 && Abs(x) <= m
    ensures var y := x * (1.0 / (m / 127.0));
            Clamp(Round(y)) == Round(y) && -127 <= Round(y) <= 127
  {
    hide *;
    ScaledInRange(x, m);
    ClampKeeps(x * (1.0 / (m / 127.0)));
  }

  lemma ScaledInRange(x: real, m: real)
    requires m > 0.0 && Abs(x) <= m
    ensures -127.0 <= x * (1.0 / (m / 127.0)) <= 127.0
  {
    var s := m / 127.0;
    Rescale(x, s);
    WithinSteps(x * (1.0 / s), x, m, s);
  }

  lemma WithinSteps(y: real, x: real, m: real, s: real)
    requires s > 0.0 && m == 127.0 * s && y * s == x && -m <= x <= m
    ensures -127.0 <= y <= 127.0
  {
    var low, high := -127.0, 127.0;
    assert low * s == -m;
    Ordered(y, high, s);
    Ordered(low, y, s);
  }

  lemma ClampKeeps(y: real)
    requires -127.0 <= y <= 127.0
    ensures Clamp(Round(y)) == Round(y) && -127 <= Round(y) <= 127
  {
    RoundNear(y);
  }

  lemma MulBound(e: real, s: real)
    requires s > 0.0 && -0.5 <= e <= 0.5
    ensures -s / 2.0 <= e * s <= s / 2.0
  {
  }

  /** One element: decoded within half a step of the input. */
  lemma CodeIsNear(x: real, m: real)
    requires m > 0.0 && Abs(x) <= m
    ensures Abs(Dequantise(Code(x, m / 127.0), m / 127.0) - x) <= m / 254.0
    ensures -127 <= Code(x, m / 127.0) <= 127
  {
    var s := m / 127.0;
    var y := x * (1.0 / s);
    ClampNeverFires(x, m);
    Rescale(x, s);
    RoundNear(y);
    var e := Round(y) as real - y;
    MulBound(e, s);
    hide Round, Clamp;
    assert e * s == Round(y) as real * s - y * s;
  }

  lemma ByteRoundTrip(q: int)
    requires -128 <= q < 128
    ensures FromByte(ToByte(q)) == q && (ToByte(q) == 128 <==> q == -128)
  {
  }

  lemma Magnitude(v: seq<real>, i: nat)
    requires i < |v|
    ensures Abs(v[i]) <= MaxAbs(v)
  {
  }

  /** Rounding is to the nearest integer, halves away from zero. */
  lemma RoundIs(y: real)
    ensures y >= 0.0 ==> Round(y) as real - 0.5 <= y < Round(y) as real + 0.5
    ensures y <= 0.0 ==> Round(y) as real - 0.5 < y <= Round(y) as real + 0.5
  {
  }

  /** An element in steps of 1/127 of the largest magnitude. */
  ghost function Steps(x: real, m: real): real
    requires m > 0.0
  {
    x * (1.0 / (m / 127.0))
  }

  lemma StepsAre(x: real, m: real, y: real)
    requires m > 0.0 && y * (m / 127.0) == x
    ensures Steps(x, m) == y
  {
    var s := m / 127.0;
    var z := x * (1.0 / s);
    Rescale(x, s);
    hide *;
    Ordered(z, y, s);
    Ordered(y, z, s);
  }

  lemma SignedByte(b: byte)
    ensures FromByte(b) == if b < 128 then b as int else b as int - 256
  {
  }

  lemma CodeByteIs(v: seq<real>, i: nat)
    requires i < |v| && MaxAbs(v) > 0.0
    ensures FromByte(Encoded(v)[i]) == Round(Steps(v[i], MaxAbs(v))) && -127 <= Round(Steps(v[i], MaxAbs(v))) <= 127
  {
    hide *;
    Magnitude(v, i);
    EncodedUnfolds(v, i);
    CodeIs(v[i], MaxAbs(v));
    ByteRoundTrip(Round(Steps(v[i], MaxAbs(v))));
  }

  lemma EncodedUnfolds(v: seq<real>, i: nat)
    requires i < |v| && MaxAbs(v) > 0.0
    ensures MaxAbs(v) / 127.0 > 0.0 && -128 <= Code(v[i], MaxAbs(v) / 127.0) < 128
    ensures Encoded(v)[i] == ToByte(Code(v[i], MaxAbs(v) / 127.0))
  {
    hide Round, MaxAbs, ToByte;
  }

  lemma CodeIs(x: real, m: real)
    requires m > 0.0 && Abs(x) <= m
    ensures m / 127.0 > 0.0 && Code(x, m / 127.0) == Round(Steps(x, m)) && -127 <= Round(Steps(x, m)) <= 127
  {
    ClampNeverFires(x, m);
    hide Round, Clamp, Abs;
  }

  /** A code byte read as a two's-complement number is the element in those steps, rounded, halves away from zero. */
  lemma EncodedIs(v: seq<real>, i: nat, y: real)
    requires i < |v| && MaxAbs(v) > 0.0 && y * (MaxAbs(v) / 127.0) == v[i]
    ensures var b := Encoded(v)[i];
            var q := if b < 128 then b as int else b as int - 256;
            && -127 <= q <= 127
            && (y >= 0.0 ==> q as real - 0.5 <= y < q as real + 0.5)
            && (y <= 0.0 ==> q as real - 0.5 < y <= q as real + 0.5)
  {
    hide *;
    StepsAre(v[i], MaxAbs(v), y);
    CodeByteIs(v, i);
    RoundIs(y);
    SignedByte(Encoded(v)[i]);
  }

  /** A slot decodes to its two's-complement codes times its scale. */
  lemma DecodedIs(get: seq<byte> -> real, slot: seq<byte>, i: nat)
    requires 4 + i < |slot|
    ensures |I8Vector(get, slot)| == |slot| - 4
    ensures I8Vector(get, slot)[i] ==
              (if slot[4 + i] < 128 then slot[4 + i] as real else slot[4 + i] as real - 256.0) * get(slot[..4])
  {
  }

  /** The scale is 1/127 of the largest magnitude, and stands first. */
  lemma ScaleIs(put: real -> seq<byte>, v: seq<real>)
    requires FourBytes(put)
    ensures Scale(v) * 127.0 == MaxAbs(v)
    ensures |I8Slot(put, v)| == |v| + 4 && I8Slot(put, v)[..4] == put(Scale(v)) && I8Slot(put, v)[4..] == Encoded(v)
  {
    hide MaxAbs;
  }

  /** What one slot element decodes to. */
  lemma DecodedAt(v: seq<real>, i: nat)
    requires i < |v|
    ensures MaxAbs(v) == 0.0 || MaxAbs(v) > 0.0
    ensures MaxAbs(v) == 0.0 ==> Encoded(v)[i] == 0 && Decoded(Scale(v), Encoded(v))[i] == 0.0 == v[i]
    ensures MaxAbs(v) > 0.0 ==>
              && Scale(v) == MaxAbs(v) / 127.0 > 0.0
              && -127 <= Code(v[i], Scale(v)) <= 127
              && Encoded(v)[i] == ToByte(Code(v[i], Scale(v)))
              && Decoded(Scale(v), Encoded(v))[i] == Dequantise(Code(v[i], Scale(v)), Scale(v))
  {
    Magnitude(v, i);
    hide MaxAbs, Code, ToByte, FromByte, Dequantise, Abs;
    ZeroDecodes(v[i]);
    if MaxAbs(v) > 0.0 {
      CodeIsNear(v[i], MaxAbs(v));
      ByteRoundTrip(Code(v[i], Scale(v)));
    }
  }

  lemma ZeroDecodes(x: real)
    ensures Dequantise(FromByte(0), 0.0) == 0.0
    ensures Abs(x) <= 0.0 ==> x == 0.0
  {
  }

  /** Each decoded element is within max|x| / 254 of the input, and the code byte -128 is never used. */
  lemma DecodedIsNear(v: seq<real>, i: nat)
    requires i < |v|
    ensures Abs(Decoded(Scale(v), Encoded(v))[i] - v[i]) <= MaxAbs(v) / 254.0
    ensures Encoded(v)[i] != 128
  {
    Magnitude(v, i);
    DecodedAt(v, i);
    if MaxAbs(v) > 0.0 {
      CodeIsNear(v[i], MaxAbs(v));
      ByteRoundTrip(Code(v[i], Scale(v)));
    }
    hide *;
  }

  /** An element of greatest magnitude gets code 127 or -127, so decoding keeps it exactly. */
  lemma GreatestIsExact(x: real, m: real)
    requires m > 0.0 && Abs(x) == m
    ensures Dequantise(Code(x, m / 127.0), m / 127.0) == x
  {
    var s := m / 127.0;
    if x == m {
      Unscale(127.0, s);
      RoundFixes(127);
    } else {
      Unscale(-127.0, s);
      RoundFixes(-127);
    }
  }

  lemma Product(a: real, s: real)
    requires a >= 0.0 && s > 0.0
    ensures a * s >= 0.0
  {
  }

  lemma MagnitudeBound(q: int, s: real)
    requires s > 0.0 && -127 <= q <= 127
    ensures Abs(Dequantise(q, s)) <= 127.0 * s
  {
    var a := q as real;
    Product(127.0 - a, s);
    Product(127.0 + a, s);
    assert (127.0 - a) * s == 127.0 * s - a * s && (127.0 + a) * s == 127.0 * s + a * s;
  }

  /** A bound that is attained is the largest magnitude. */
  lemma MaxAbsIs(v: seq<real>, m: real, i: nat)
    requires i < |v| && Abs(v[i]) == m && forall j :: 0 <= j < |v| ==> Abs(v[j]) <= m
    ensures MaxAbs(v) == m
  {
    hide Abs;
  }

  lemma DecodingKeepsMax(v: seq<real>)
    requires v != [] && MaxAbs(v) > 0.0
    ensures MaxAbs(Decoded(Scale(v), Encoded(v))) == MaxAbs(v)
  {
    hide *;
    var m, s := MaxAbs(v), Scale(v);
    var d := Decoded(s, Encoded(v));
    var i :| 0 <= i < |v| && Abs(v[i]) == m;
    forall j | 0 <= j < |d| ensures Abs(d[j]) <= m {
      DecodedAt(v, j);
      MagnitudeBound(Code(v[j], s), s);
    }
    DecodedAt(v, i);
    GreatestIsExact(v[i], m);
    MaxAbsIs(d, m, i);
  }

  lemma CodeOfDecoded(q: int, s: real)
    requires s > 0.0 && -127 <= q <= 127
    ensures Code(Dequantise(q, s), s) == q
  {
    Unscale(q as real, s);
    RoundFixes(q);
  }

  /** Re-encoding a decoded vector gives back the same scale and the same code bytes, which is what a
      rewriter that copies rows by decode then encode relies on. */
  lemma ReencodeIsIdentity(v: seq<real>)
    ensures var d := Decoded(Scale(v), Encoded(v));
            Scale(d) == Scale(v) && Encoded(d) == Encoded(v)
  {
    var s := Scale(v);
    var d := Decoded(s, Encoded(v));
    hide MaxAbs, Encoded, Decoded, Dequantise;
    if v != [] && MaxAbs(v) > 0.0 {
      DecodingKeepsMax(v);
      hide *;
      forall i | 0 <= i < |v| ensures Encoded(d)[i] == Encoded(v)[i] {
        hide *;
        DecodedAt(v, i);
        DecodedAt(d, i);
        CodeOfDecoded(Code(v[i], s), s);
      }
    } else {
      AllZero(v);
    }
  }

  lemma AllZero(v: seq<real>)
    requires v == [] || MaxAbs(v) == 0.0
    ensures var d := Decoded(Scale(v), Encoded(v));
            Scale(d) == Scale(v) == 0.0 && Encoded(d) == Encoded(v)
  {
    var d := Decoded(Scale(v), Encoded(v));
    hide Code, ToByte, FromByte;
    forall j | 0 <= j < |d| ensures d[j] == 0.0 {
      DecodedAt(v, j);
    }
    if d != [] {
      MaxAbsIs(d, 0.0, 0);
    }
  }

  // ---- i8 stores ----

  lemma I8Fits(put: real -> seq<byte>, get: seq<byte> -> real, layout: BlockLayout)
    requires layout.Valid() && layout.dtype == I8 && FourBytes(put)
    ensures I8Codec(put, get).Fits(layout.dimensions, layout.vectorBytes)
  {
    hide Scale, CodeByte, Dequantise, IsPowerOfTwo;
  }

  /** Decoding a slot the encoder made, when its scale reads back. */
  lemma SlotDecodes(put: real -> seq<byte>, get: seq<byte> -> real, v: seq<real>)
    requires FourBytes(put) && get(put(Scale(v))) == Scale(v)
    ensures I8Vector(get, I8Slot(put, v)) == Decoded(Scale(v), Encoded(v))
  {
    hide Scale, Encoded, Decoded;
    var slot := I8Slot(put, v);
    assert slot[..4] == put(Scale(v)) && slot[4..] == Encoded(v);
  }

  /** Decoding a slot the encoder made and encoding it again changes nothing. */
  lemma I8Keeps(put: real -> seq<byte>, get: seq<byte> -> real, v: seq<real>)
    requires FourBytes(put) && get(put(Scale(v))) == Scale(v)
    ensures I8Codec(put, get).Keeps(I8Slot(put, v))
  {
    hide Scale, Encoded, Decoded;
    SlotDecodes(put, get, v);
    ReencodeIsIdentity(v);
  }

  // ---- slots from elsewhere ----

  /** A slot that decoding and encoding again leaves alone: all zero, or a positive scale whose codes reach 127 in
      magnitude and never -128. */
  predicate Survives(scale: real, codes: seq<byte>) {
    || (scale == 0.0 && forall i :: 0 <= i < |codes| ==> codes[i] == 0)
    || (scale > 0.0 && 128 !in codes && (127 in codes || 129 in codes))
  }

  /** Encoding the decoded slot gives back its scale and its codes. */
  ghost predicate Recovered(scale: real, codes: seq<byte>) {
    var d := Decoded(scale, codes);
    Scale(d) == scale && Encoded(d) == codes
  }

  lemma ByteOf(b: byte)
    ensures -128 <= FromByte(b) < 128 && ToByte(FromByte(b)) == b
    ensures b != 128 <==> -127 <= FromByte(b) <= 127
    ensures b == 127 || b == 129 <==> FromByte(b) == 127 || FromByte(b) == -127
  {
  }

  lemma ZeroRecovers(codes: seq<byte>)
    requires forall i :: 0 <= i < |codes| ==> codes[i] == 0
    ensures Recovered(0.0, codes)
  {
    hide Code, ToByte;
    var d := Decoded(0.0, codes);
    forall i | 0 <= i < |d| ensures d[i] == 0.0 {
      ZeroDecodes(d[i]);
    }
    if d != [] {
      MaxAbsIs(d, 0.0, 0);
    }
  }

  lemma Attains(q: int, scale: real)
    requires scale > 0.0 && (q == 127 || q == -127)
    ensures Abs(Dequantise(q, scale)) == 127.0 * scale
  {
    assert -127.0 * scale == -(127.0 * scale);
  }

  /** Some code of magnitude 127, none of -128: the largest magnitude is 127 scales. */
  lemma DecodedMax(scale: real, codes: seq<byte>)
    requires scale > 0.0 && 128 !in codes && (127 in codes || 129 in codes)
    ensures MaxAbs(Decoded(scale, codes)) == 127.0 * scale && Scale(Decoded(scale, codes)) == scale
  {
    hide MaxAbs, Scale, FromByte, ToByte, Dequantise, Abs;
    var d := Decoded(scale, codes);
    var k :| 0 <= k < |codes| && (codes[k] == 127 || codes[k] == 129);
    forall j | 0 <= j < |d| ensures Abs(d[j]) <= 127.0 * scale {
      ByteOf(codes[j]);
      MagnitudeBound(FromByte(codes[j]), scale);
    }
    ByteOf(codes[k]);
    Attains(FromByte(codes[k]), scale);
    MaxAbsIs(d, 127.0 * scale, k);
    ScaleOfMax(d, scale);
  }

  lemma ScaleOfMax(d: seq<real>, scale: real)
    requires scale > 0.0 && MaxAbs(d) == 127.0 * scale
    ensures Scale(d) == scale
  {
    hide MaxAbs;
  }

  lemma PositiveRecovers(scale: real, codes: seq<byte>)
    requires scale > 0.0 && 128 !in codes && (127 in codes || 129 in codes)
    ensures Recovered(scale, codes)
  {
    DecodedMax(scale, codes);
    hide Scale, Code, FromByte, ToByte, Dequantise;
    var d := Decoded(scale, codes);
    forall i | 0 <= i < |codes| ensures Encoded(d)[i] == codes[i] {
      ByteOf(codes[i]);
      CodeOfDecoded(FromByte(codes[i]), scale);
    }
  }

  /** Magnitudes of decoded elements are those of their codes. */
  lemma MagnitudeIs(q: int, scale: real)
    requires scale > 0.0 && Abs(Dequantise(q, scale)) == 127.0 * scale
    ensures q == 127 || q == -127
  {
    var a := q as real;
    if a * scale >= 0.0 {
      Ordered(a, 127.0, scale);
      Ordered(127.0, a, scale);
    } else {
      assert a * scale == -(127.0 * scale) && -(127.0 * scale) == -127.0 * scale;
      Ordered(a, -127.0, scale);
      Ordered(-127.0, a, scale);
    }
  }

  lemma RecoveredSurvives(scale: real, codes: seq<byte>)
    requires Recovered(scale, codes)
    ensures Survives(scale, codes)
  {
    var d := Decoded(scale, codes);
    if scale == 0.0 {
      forall i | 0 <= i < |codes| ensures codes[i] == 0 {
        assert Encoded(d)[i] == 0;
      }
    } else {
      assert scale > 0.0 && MaxAbs(d) == 127.0 * scale && d != [];
      var k :| 0 <= k < |d| && Abs(d[k]) == 127.0 * scale;
      hide MaxAbs, Scale, Abs, Dequantise;
      MagnitudeIs(FromByte(codes[k]), scale);
      ByteOf(codes[k]);
      assert codes[k] in codes;
      forall i | 0 <= i < |codes| ensures codes[i] != 128 {
        assert codes[i] == Encoded(d)[i] == CodeByte(d[i], scale);
        NeverMinimum(d[i], scale);
      }
    }
  }

  lemma NeverMinimum(x: real, scale: real)
    requires scale > 0.0
    ensures CodeByte(x, scale) != 128
  {
    hide Round;
  }

  /** The slot's scale and the one computed from its decoded elements read back from their four bytes. */
  ghost predicate ScalesReadBack(put: real -> seq<byte>, get: seq<byte> -> real, slot: seq<byte>) {
    && |slot| >= 4 && put(get(slot[..4])) == slot[..4]
    && var again := Scale(Decoded(get(slot[..4]), slot[4..]));
       get(put(again)) == again
  }

  /** Decoding any i8 slot and encoding it again changes nothing exactly when the slot survives. */
  lemma I8KeepsIff(put: real -> seq<byte>, get: seq<byte> -> real, slot: seq<byte>)
    requires FourBytes(put) && ScalesReadBack(put, get, slot)
    ensures I8Codec(put, get).Keeps(slot) <==> Survives(get(slot[..4]), slot[4..])
  {
    var scale, codes := get(slot[..4]), slot[4..];
    var d := Decoded(scale, codes);
    assert slot == slot[..4] + codes;
    assert I8Codec(put, get).Keeps(slot) <==> put(Scale(d)) + Encoded(d) == slot[..4] + codes;
    assert put(Scale(d)) + Encoded(d) == slot[..4] + codes <==> Recovered(scale, codes) by {
      SplitsEqual(put(Scale(d)), Encoded(d), slot[..4], codes);
      hide Scale, Encoded, Decoded;
    }
    if Survives(scale, codes) {
      if scale == 0.0 {
        ZeroRecovers(codes);
      } else {
        PositiveRecovers(scale, codes);
      }
    }
    if Recovered(scale, codes) {
      RecoveredSurvives(scale, codes);
    }
    hide *;
  }

  lemma SplitsEqual(a: seq<byte>, b: seq<byte>, c: seq<byte>, d: seq<byte>)
    requires |a| == |c|
    ensures a + b == c + d <==> a == c && b == d
  {
    if a + b == c + d {
      assert a == (a + b)[..|a|] && b == (a + b)[|a|..];
      assert c == (c + d)[..|c|] && d == (c + d)[|c|..];
    }
  }

  /** An i8 store returns each element within 1/254 of its vector's largest magnitude. */
  lemma I8StoreReadsNear(file: seq<byte>, layout: BlockLayout, put: real -> seq<byte>, get: seq<byte> -> real,
                         vectors: seq<seq<real>>, i: nat, j: nat)
    requires IsStoreFile(file, layout, Encodings(I8Codec(put, get), vectors))
    requires |vectors| < TWO_64 && layout.blockSize < TWO_32
    requires FourBytes(put) && i < |vectors| && get(put(Scale(vectors[i]))) == Scale(vectors[i]) && j < |vectors[i]|
    ensures Open(file).Ok? && Open(file).value.Len() == |vectors| && InFile(Open(file).value, i)
    ensures var read := I8Codec(put, get).decode(SlotBytes(Open(file).value, i));
            |read| == |vectors[i]| && Abs(read[j] - vectors[i][j]) <= MaxAbs(vectors[i]) / 254.0
  {
    PushedVectorsReadBack(file, layout, I8Codec(put, get), vectors, i);
    SlotDecodes(put, get, vectors[i]);
    DecodedIsNear(vectors[i], j);
    hide Open, IsStoreFile, SlotBytes, InFile, VectorStore.Valid, Encoded, Decoded, MaxAbs, Scale, Abs;
  }
}
