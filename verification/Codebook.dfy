/** The product quantiser: per-subspace centroids in one flat buffer, encoding and reconstruction. */
module Codebook {
  import opened Core
  import opened Format
  import opened Distance
  import opened KMeans

  datatype PqCodebook = PqCodebook(
    dims: nat,
    subspaces: nat,
    subDim: nat,
    requested: nat,
    ks: seq<nat>,
    centroids: seq<real>,
    offsets: seq<nat>)
  {
    ghost predicate Valid() {
      && subspaces > 0 && subDim > 0 && dims == subspaces * subDim
      && 1 <= requested <= 256
      && |ks| == |offsets| == subspaces
      && forall s :: 0 <= s < subspaces ==> 1 <= ks[s] <= requested && offsets[s] + ks[s] * subDim <= |centroids|
    }

    /** Centroid `c` of subspace `s`, out of the flat buffer. */
    function Centroid(s: nat, c: nat): (r: Vector)
      requires Valid() && s < subspaces && c < ks[s]
      ensures |r| == subDim
    {
      RowFits(offsets[s], c, ks[s], subDim, |centroids|);
      var base := offsets[s] + c * subDim;
      centroids[base..base + subDim]
    }

    /** The centroids of subspace `s`. */
    function Rows(s: nat): (r: seq<Vector>)
      requires Valid() && s < subspaces
      ensures |r| == ks[s] && Shaped(r, subDim)
    {
      seq(ks[s], c requires 0 <= c < ks[s] => Centroid(s, c))
    }

    /** Coordinates of subspace `s` of a full vector. */
    function Sub(v: Vector, s: nat): (r: Vector)
      requires Valid() && |v| == dims && s < subspaces
      ensures |r| == subDim
    {
      RowFits(0, s, subspaces, subDim, dims);
      v[s * subDim..s * subDim + subDim]
    }

    /** Where centroid `c` of subspace `s` would start in the flat buffer, whether or not the subspace has that many. */
    function Base(s: nat, c: nat): nat
      requires s < |offsets|
    {
      offsets[s] + c * subDim
    }

    /** One byte per subspace, none of which reads past the flat buffer. */
    ghost predicate Readable(code: seq<byte>) {
      |code| == subspaces == |offsets| && forall s :: 0 <= s < subspaces ==> Base(s, code[s]) + subDim <= |centroids|
    }

    /** One centroid id per subspace. */
    ghost predicate IsCode(code: seq<byte>)
      requires Valid()
    {
      |code| == subspaces && forall s :: 0 <= s < subspaces ==> code[s] < ks[s]
    }
  }

  lemma RowFits(offset: nat, c: nat, k: nat, d: nat, len: nat)
    requires c < k && offset + k * d <= len
    ensures offset + c * d + d <= len
  {
    assert (k - c - 1) * d >= 0;
    assert k * d == c * d + d + (k - c - 1) * d;
  }

  // ---- encode ----

  /** The code that picks the nearest centroid in every subspace. */
  function Encoded(cb: PqCodebook, v: Vector): (code: seq<byte>)
    requires cb.Valid() && |v| == cb.dims
    ensures cb.IsCode(code)
  {
    seq(cb.subspaces, s requires 0 <= s < cb.subspaces => Nearest(cb.Sub(v, s), cb.Rows(s), cb.ks[s]))
  }

  /** `encode_into`: ids fit a byte because no subspace has more than 256 centroids. */
  method EncodeInto(cb: PqCodebook, v: Vector, out: array<byte>) returns (r: Result<()>)
    requires cb.Valid()
    modifies out
    ensures |v| != cb.dims ==> r == Err(DimensionMismatch(cb.dims, |v|)) && out[..] == old(out[..])
    ensures |v| == cb.dims && out.Length != cb.subspaces ==>
              r == Err(DimensionMismatch(cb.subspaces, out.Length)) && out[..] == old(out[..])
    ensures |v| == cb.dims && out.Length == cb.subspaces ==> r == Ok(()) && out[..] == Encoded(cb, v)
  {
    if |v| != cb.dims {
      return Err(DimensionMismatch(cb.dims, |v|));
    }
    if out.Length != cb.subspaces {
      return Err(DimensionMismatch(cb.subspaces, out.Length));
    }
    for s := 0 to cb.subspaces
      invariant out[..s] == Encoded(cb, v)[..s]
    {
      hide Nearest, L2, PqCodebook.Sub, PqCodebook.Rows;
      var best := NearestIndex(cb.Sub(v, s), cb.Rows(s));
      out[s] := best;
    }
    assert Encoded(cb, v)[..cb.subspaces] == Encoded(cb, v);
    r := Ok(());
  }

  // ---- reconstruct ----

  /** The vector a code stands for: its centroids, concatenated. */
  function Reconstruction(cb: PqCodebook, code: seq<byte>, s: nat): (v: Vector)
    requires cb.Valid() && cb.IsCode(code) && s <= cb.subspaces
    ensures |v| == s * cb.subDim
  {
    if s == 0 then []
    else
      NextBlock(s - 1, cb.subDim);
      Reconstruction(cb, code, s - 1) + cb.Centroid(s - 1, code[s - 1])
  }

  lemma NextBlock(s: nat, d: nat)
    ensures (s + 1) * d == s * d + d
  {
  }

  /** What any readable code is turned into: a byte past its subspace's centroids reads the following rows. */
  function Copied(cb: PqCodebook, code: seq<byte>, s: nat): (v: Vector)
    requires cb.Readable(code) && s <= cb.subspaces
    ensures |v| == s * cb.subDim
  {
    if s == 0 then []
    else
      NextBlock(s - 1, cb.subDim);
      var base := cb.Base(s - 1, code[s - 1]);
      Copied(cb, code, s - 1) + cb.centroids[base..base + cb.subDim]
  }

  lemma CodeIsReadable(cb: PqCodebook, code: seq<byte>)
    requires cb.Valid() && cb.IsCode(code)
    ensures cb.Readable(code)
  {
    forall s | 0 <= s < cb.subspaces ensures cb.Base(s, code[s]) + cb.subDim <= |cb.centroids| {
      RowFits(cb.offsets[s], code[s], cb.ks[s], cb.subDim, |cb.centroids|);
    }
  }

  /** For a code the codebook can produce that is its reconstruction. */
  lemma {:induction false} CopiedIsReconstruction(cb: PqCodebook, code: seq<byte>, s: nat)
    requires cb.Valid() && cb.IsCode(code) && s <= cb.subspaces
    ensures cb.Readable(code) && Copied(cb, code, s) == Reconstruction(cb, code, s)
  {
    CodeIsReadable(cb, code);
    if s > 0 {
      CopiedIsReconstruction(cb, code, s - 1);
    }
  }

  /** `reconstruct_into`. */
  method ReconstructInto(cb: PqCodebook, code: seq<byte>, out: array<real>) returns (r: Result<()>)
    requires cb.Valid() && (|code| == cb.subspaces && out.Length == cb.dims ==> cb.Readable(code))
    modifies out
    ensures |code| != cb.subspaces ==> r == Err(DimensionMismatch(cb.subspaces, |code|)) && out[..] == old(out[..])
    ensures |code| == cb.subspaces && out.Length != cb.dims ==>
              r == Err(DimensionMismatch(cb.dims, out.Length)) && out[..] == old(out[..])
    ensures |code| == cb.subspaces && out.Length == cb.dims ==>
              r == Ok(()) && out[..] == Copied(cb, code, cb.subspaces)
    ensures |code| == cb.subspaces && out.Length == cb.dims && cb.IsCode(code) ==>
              out[..] == Reconstruction(cb, code, cb.subspaces)
  {
    if |code| != cb.subspaces {
      return Err(DimensionMismatch(cb.subspaces, |code|));
    }
    if out.Length != cb.dims {
      return Err(DimensionMismatch(cb.dims, out.Length));
    }
    hide PqCodebook.Base;
    for s := 0 to cb.subspaces
      invariant s * cb.subDim <= out.Length && out[..s * cb.subDim] == Copied(cb, code, s)
    {
      RowFits(0, s, cb.subspaces, cb.subDim, cb.dims);
      NextBlock(s, cb.subDim);
      var base := cb.Base(s, code[s]);
      CopyBlock(out, s * cb.subDim, cb.centroids[base..base + cb.subDim]);
    }
    if cb.IsCode(code) {
      CopiedIsReconstruction(cb, code, cb.subspaces);
    }
    r := Ok(());
  }

  method CopyBlock(out: array<real>, at: nat, block: Vector)
    requires at + |block| <= out.Length
    modifies out
    ensures out[..at + |block|] == old(out[..at]) + block
  {
    for j := 0 to |block|
      invariant out[..at] == old(out[..at]) && out[at..at + j] == block[..j]
    {
      out[at + j] := block[j];
    }
  }

  // ---- distance to a reconstruction ----

  /** The distance of a vector to a code, one subspace at a time. */
  ghost function BySubspace(cb: PqCodebook, v: Vector, code: seq<byte>, s: nat): real
    requires cb.Valid() && |v| == cb.dims && cb.IsCode(code) && s <= cb.subspaces
  {
    if s == 0 then 0.0
    else BySubspace(cb, v, code, s - 1) + L2(cb.Sub(v, s - 1), cb.Centroid(s - 1, code[s - 1]))
  }

  /** Later blocks leave earlier coordinates alone. */
  lemma {:induction false} ReconstructionPrefix(cb: PqCodebook, code: seq<byte>, s: nat, t: nat)
    requires cb.Valid() && cb.IsCode(code) && s <= t <= cb.subspaces
    ensures s * cb.subDim <= t * cb.subDim
    ensures Reconstruction(cb, code, t)[..s * cb.subDim] == Reconstruction(cb, code, s)
  {
    hide PqCodebook.Centroid;
    if s < t {
      ReconstructionPrefix(cb, code, s, t - 1);
      NextBlock(t - 1, cb.subDim);
    }
  }

  lemma ReconstructionBlock(cb: PqCodebook, code: seq<byte>, s: nat)
    requires cb.Valid() && cb.IsCode(code) && s < cb.subspaces
    ensures |Reconstruction(cb, code, cb.subspaces)| == cb.dims
    ensures s * cb.subDim + cb.subDim <= cb.dims
    ensures Reconstruction(cb, code, cb.subspaces)[s * cb.subDim..s * cb.subDim + cb.subDim] == cb.Centroid(s, code[s])
  {
    var all, at := Reconstruction(cb, code, cb.subspaces), s * cb.subDim;
    RowFits(0, s, cb.subspaces, cb.subDim, cb.dims);
    NextBlock(s, cb.subDim);
    ReconstructionPrefix(cb, code, s + 1, cb.subspaces);
    var head := Reconstruction(cb, code, s + 1);
    assert head == Reconstruction(cb, code, s) + cb.Centroid(s, code[s]);
    hide *;
    assert head[at..] == cb.Centroid(s, code[s]);
    assert all[at..at + cb.subDim] == all[..at + cb.subDim][at..];
  }

  /** The distance to the reconstruction is the sum of the subspace distances. */
  lemma {:induction false} DistanceSplits(cb: PqCodebook, v: Vector, code: seq<byte>, s: nat)
    requires cb.Valid() && |v| == cb.dims && cb.IsCode(code) && s <= cb.subspaces
    ensures s * cb.subDim <= cb.dims && |Reconstruction(cb, code, cb.subspaces)| == cb.dims
    ensures Terms(v, Reconstruction(cb, code, cb.subspaces), s * cb.subDim) == BySubspace(cb, v, code, s)
  {
    if s == 0 {
      FullLength(cb, code);
    } else {
      DistanceSplits(cb, v, code, s - 1);
      NextBlock(s - 1, cb.subDim);
      ReconstructionBlock(cb, code, s - 1);
      assert BySubspace(cb, v, code, s) ==
             BySubspace(cb, v, code, s - 1) + L2(cb.Sub(v, s - 1), cb.Centroid(s - 1, code[s - 1]));
      assert cb.Sub(v, s - 1) == v[(s - 1) * cb.subDim..(s - 1) * cb.subDim + cb.subDim];
      hide *;
      TermsSplit(v, Reconstruction(cb, code, cb.subspaces), (s - 1) * cb.subDim, cb.subDim);
    }
  }

  lemma FullLength(cb: PqCodebook, code: seq<byte>)
    requires cb.Valid() && cb.IsCode(code)
    ensures |Reconstruction(cb, code, cb.subspaces)| == cb.dims
  {
  }

  lemma DistanceToReconstruction(cb: PqCodebook, v: Vector, code: seq<byte>)
    requires cb.Valid() && |v| == cb.dims && cb.IsCode(code)
    ensures |Reconstruction(cb, code, cb.subspaces)| == cb.dims
    ensures L2(v, Reconstruction(cb, code, cb.subspaces)) == BySubspace(cb, v, code, cb.subspaces)
  {
    DistanceSplits(cb, v, code, cb.subspaces);
  }

  lemma {:induction false} EncodedIsBest(cb: PqCodebook, v: Vector, other: seq<byte>, s: nat)
    requires cb.Valid() && |v| == cb.dims && cb.IsCode(other) && s <= cb.subspaces
    ensures BySubspace(cb, v, Encoded(cb, v), s) <= BySubspace(cb, v, other, s)
  {
    if s > 0 {
      EncodedIsBest(cb, v, other, s - 1);
      SubspaceIsBest(cb, v, other, s - 1);
      hide PqCodebook.Centroid, PqCodebook.Sub, L2, Encoded;
    }
  }

  lemma SubspaceIsBest(cb: PqCodebook, v: Vector, other: seq<byte>, s: nat)
    requires cb.Valid() && |v| == cb.dims && cb.IsCode(other) && s < cb.subspaces
    ensures L2(cb.Sub(v, s), cb.Centroid(s, Encoded(cb, v)[s])) <= L2(cb.Sub(v, s), cb.Centroid(s, other[s]))
  {
    hide PqCodebook.Centroid, PqCodebook.Sub, L2, Nearest;
    var rows := cb.Rows(s);
    assert rows[other[s]] == cb.Centroid(s, other[s]);
    assert rows[Encoded(cb, v)[s]] == cb.Centroid(s, Encoded(cb, v)[s]);
  }

  /** No code at all reconstructs nearer to the vector than the one `EncodeInto` picks. */
  lemma EncodeIsOptimal(cb: PqCodebook, v: Vector, other: seq<byte>)
    requires cb.Valid() && |v| == cb.dims && cb.IsCode(other)
    ensures |Reconstruction(cb, Encoded(cb, v), cb.subspaces)| == |Reconstruction(cb, other, cb.subspaces)| == cb.dims
    ensures L2(v, Reconstruction(cb, Encoded(cb, v), cb.subspaces)) <= L2(v, Reconstruction(cb, other, cb.subspaces))
  {
    DistanceToReconstruction(cb, v, Encoded(cb, v));
    DistanceToReconstruction(cb, v, other);
    EncodedIsBest(cb, v, other, cb.subspaces);
    hide *;
  }

  // ---- batches ----

  /** Item `i` of a flat buffer of items `w` wide. */
  function Item<T>(flat: seq<T>, i: nat, w: nat): (item: seq<T>)
    requires i * w + w <= |flat|
    ensures |item| == w
  {
    flat[i * w..i * w + w]
  }

  /** `codes` holds the codes of the first `n` row-major vectors, one after another. */
  ghost predicate BatchOf(cb: PqCodebook, vectors: seq<real>, codes: seq<byte>, n: nat)
    requires cb.Valid()
  {
    && |codes| == n * cb.subspaces
    && forall i :: 0 <= i < n ==>
         && i * cb.dims + cb.dims <= |vectors| && i * cb.subspaces + cb.subspaces <= |codes|
         && Item(codes, i, cb.subspaces) == Encoded(cb, Item(vectors, i, cb.dims))
  }

  lemma BatchGrows(cb: PqCodebook, vectors: seq<real>, codes: seq<byte>, n: nat, code: seq<byte>)
    requires cb.Valid() && BatchOf(cb, vectors, codes, n) && n * cb.dims + cb.dims <= |vectors|
    requires code == Encoded(cb, Item(vectors, n, cb.dims))
    ensures BatchOf(cb, vectors, codes + code, n + 1)
  {
    hide Encoded;
    var all, w := codes + code, cb.subspaces;
    NextBlock(n, w);
    forall i | 0 <= i < n + 1
      ensures i * cb.dims + cb.dims <= |vectors| && i * w + w <= |all|
      ensures Item(all, i, w) == Encoded(cb, Item(vectors, i, cb.dims))
    {
      if i < n {
        assert Item(codes, i, w) == Encoded(cb, Item(vectors, i, cb.dims));
        assert Item(all, i, w) == Item(codes, i, w);
      } else {
        assert Item(all, n, w) == code;
      }
    }
  }

  /** `encode_batch`. */
  method EncodeBatch(cb: PqCodebook, vectors: seq<real>) returns (r: Result<seq<byte>>)
    requires cb.Valid()
    ensures |vectors| % cb.dims != 0 ==> r == Err(InvalidConfig)
    ensures |vectors| % cb.dims == 0 ==> r.Ok? && BatchOf(cb, vectors, r.value, |vectors| / cb.dims)
  {
    if |vectors| % cb.dims != 0 {
      return Err(InvalidConfig);
    }
    hide BatchOf, Encoded, PqCodebook.Valid;
    var count := |vectors| / cb.dims;
    assert |vectors| == count * cb.dims;
    var codes: seq<byte> := [];
    var out := new byte[cb.subspaces];
    EmptyBatch(cb, vectors);
    for i := 0 to count
      invariant BatchOf(cb, vectors, codes, i)
    {
      RowFits(0, i, count, cb.dims, |vectors|);
      var encoded := EncodeInto(cb, Item(vectors, i, cb.dims), out);
      BatchGrows(cb, vectors, codes, i, out[..]);
      codes := codes + out[..];
    }
    r := Ok(codes);
  }

  lemma EmptyBatch(cb: PqCodebook, vectors: seq<real>)
    requires cb.Valid()
    ensures BatchOf(cb, vectors, [], 0)
  {
  }
}
