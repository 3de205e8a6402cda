/** Training the product quantiser: one k-means per subspace, blocks appended to one flat buffer. */
module CodebookTraining {
  import opened Core
  import opened Distance
  import opened KMeans
  import opened Codebook

  /** `2^bits`. */
  function PowerOfTwo(bits: nat): (p: nat)
    ensures p >= 1
  {
    if bits == 0 then 1 else 2 * PowerOfTwo(bits - 1)
  }

  /** The slice of training vector `i` that belongs to subspace `s`. */
  function Column(vectors: seq<real>, dims: nat, subspaces: nat, s: nat, i: nat): (point: Vector)
    requires subspaces > 0 && dims > 0 && dims % subspaces == 0 && s < subspaces && i < |vectors| / dims
    ensures |point| == dims / subspaces
  {
    var d := dims / subspaces;
    ColumnFits(|vectors|, dims, subspaces, s, i);
    var at := i * dims + s * d;
    vectors[at..at + d]
  }

  /** The columns of subspace `s` of every training vector. */
  function Columns(vectors: seq<real>, dims: nat, subspaces: nat, s: nat): (points: seq<Vector>)
    requires subspaces > 0 && dims > 0 && dims % subspaces == 0 && s < subspaces
    ensures |points| == |vectors| / dims && Shaped(points, dims / subspaces)
  {
    hide Column;
    seq(|vectors| / dims, i requires 0 <= i < |vectors| / dims => Column(vectors, dims, subspaces, s, i))
  }

  /** Subspace `s` is trained on coordinates `s * d` to `s * d + d - 1` of every vector. */
  lemma ColumnsAre(vectors: seq<real>, dims: nat, subspaces: nat, s: nat, i: nat, j: nat)
    requires subspaces > 0 && dims > 0 && dims % subspaces == 0 && s < subspaces && i < |vectors| / dims && j < dims / subspaces
    ensures var at := i * dims + s * (dims / subspaces) + j;
            at < |vectors| && Columns(vectors, dims, subspaces, s)[i][j] == vectors[at]
  {
    ColumnFits(|vectors|, dims, subspaces, s, i);
    assert Columns(vectors, dims, subspaces, s)[i] == Column(vectors, dims, subspaces, s, i);
  }

  /** The centroids asked for at each width of a code byte. */
  lemma PowersAre()
    ensures PowerOfTwo(1) == 2 && PowerOfTwo(2) == 4 && PowerOfTwo(3) == 8 && PowerOfTwo(4) == 16
    ensures PowerOfTwo(5) == 32 && PowerOfTwo(6) == 64 && PowerOfTwo(7) == 128 && PowerOfTwo(8) == 256
  {
    assert PowerOfTwo(0) == 1;
    assert PowerOfTwo(4) == 16;
  }

  lemma ColumnFits(len: nat, dims: nat, subspaces: nat, s: nat, i: nat)
    requires subspaces > 0 && dims > 0 && dims % subspaces == 0 && s < subspaces && i < len / dims
    ensures var d := dims / subspaces; i * dims + s * d + d <= len
  {
    var d := dims / subspaces;
    assert dims == subspaces * d;
    RowFits(0, s, subspaces, d, dims);
    assert len == (len / dims) * dims + len % dims;
    RowFits(0, i, len / dims, dims, len);
  }

  /** Rows one after another. */
  function Flatten(rows: seq<Vector>, d: nat): (flat: Vector)
    requires Shaped(rows, d)
    ensures |flat| == |rows| * d
  {
    if rows == [] then []
    else
      NextBlock(|rows| - 1, d);
      Flatten(rows[..|rows| - 1], d) + rows[|rows| - 1]
  }

  /** Row `c` of a block that starts at `offset`. */
  ghost predicate RowAt(flat: Vector, offset: nat, d: nat, c: nat, row: Vector) {
    offset + c * d + d <= |flat| && flat[offset + c * d..offset + c * d + d] == row
  }

  ghost predicate BlockAt(flat: Vector, offset: nat, d: nat, rows: seq<Vector>) {
    forall c :: 0 <= c < |rows| ==> RowAt(flat, offset, d, c, rows[c])
  }

  lemma BlockGrows(flat: Vector, more: Vector, offset: nat, d: nat, rows: seq<Vector>)
    requires BlockAt(flat, offset, d, rows)
    ensures BlockAt(flat + more, offset, d, rows)
  {
    forall c | 0 <= c < |rows| ensures RowAt(flat + more, offset, d, c, rows[c]) {
      assert RowAt(flat, offset, d, c, rows[c]);
      var at := offset + c * d;
      assert (flat + more)[at..at + d] == flat[at..at + d];
    }
  }

  lemma {:induction false} BlockAppended(flat: Vector, d: nat, rows: seq<Vector>)
    requires Shaped(rows, d)
    ensures BlockAt(flat + Flatten(rows, d), |flat|, d, rows)
  {
    if rows != [] {
      var before, last := rows[..|rows| - 1], rows[|rows| - 1];
      BlockAppended(flat, d, before);
      var head := flat + Flatten(before, d);
      assert flat + Flatten(rows, d) == head + last;
      hide *;
      BlockGrows(head, last, |flat|, d, before);
      LastRow(head, last, |flat|, d, |before|);
      BlockExtends(head + last, |flat|, d, before, last);
      assert before + [last] == rows;
    }
  }

  lemma LastRow(head: Vector, last: Vector, offset: nat, d: nat, c: nat)
    requires |head| == offset + c * d && |last| == d
    ensures RowAt(head + last, offset, d, c, last)
  {
    assert (head + last)[|head|..|head| + d] == last;
  }

  lemma BlockExtends(flat: Vector, offset: nat, d: nat, before: seq<Vector>, last: Vector)
    requires BlockAt(flat, offset, d, before) && RowAt(flat, offset, d, |before|, last)
    ensures BlockAt(flat, offset, d, before + [last])
  {
    hide RowAt;
  }

  /** Each block starts where the previous one ends; the last ends the buffer. */
  ghost predicate BackToBack(d: nat, ks: seq<nat>, offsets: seq<nat>, total: nat)
    requires |ks| == |offsets|
  {
    if ks == [] then total == 0
    else
      var last := |ks| - 1;
      offsets[last] + ks[last] * d == total && BackToBack(d, ks[..last], offsets[..last], offsets[last])
  }

  /** Blocks of subspaces `0..s` lie back to back, each with its own rows. */
  ghost predicate Laid(d: nat, ks: seq<nat>, offsets: seq<nat>, centroids: Vector, rows: seq<seq<Vector>>) {
    && |ks| == |offsets| == |rows|
    && (forall s :: 0 <= s < |rows| ==> |rows[s]| == ks[s] && BlockAt(centroids, offsets[s], d, rows[s]))
    && BackToBack(d, ks, offsets, |centroids|)
  }

  lemma LayNext(d: nat, ks: seq<nat>, offsets: seq<nat>, centroids: Vector, rows: seq<seq<Vector>>, next: seq<Vector>)
    requires Laid(d, ks, offsets, centroids, rows) && Shaped(next, d)
    ensures Laid(d, ks + [|next|], offsets + [|centroids|], centroids + Flatten(next, d), rows + [next])
  {
    hide BlockAt, Flatten;
    BlockAppended(centroids, d, next);
    assert (ks + [|next|])[..|ks|] == ks && (offsets + [|centroids|])[..|ks|] == offsets;
    forall s | 0 <= s < |rows| ensures BlockAt(centroids + Flatten(next, d), offsets[s], d, rows[s]) {
      BlockGrows(centroids, Flatten(next, d), offsets[s], d, rows[s]);
    }
  }

  /** Every subspace so far is well trained. */
  ghost predicate AllTrained(vectors: seq<real>, dims: nat, subspaces: nat, requested: nat, maxIters: nat, rows: seq<seq<Vector>>,
                             starts: seq<seq<Vector>>, picks: seq<seq<nat>>, seeds: nat -> Seeds)
    requires subspaces > 0 && dims > 0 && dims % subspaces == 0 && requested >= 1
  {
    && |rows| == |starts| == |picks| <= subspaces
    && forall s :: 0 <= s < |rows| ==>
         WellTrained(Columns(vectors, dims, subspaces, s), dims / subspaces, requested, maxIters,
                     rows[s], starts[s], picks[s], seeds(s))
  }

  lemma TrainNext(vectors: seq<real>, dims: nat, subspaces: nat, requested: nat, maxIters: nat, rows: seq<seq<Vector>>,
                  starts: seq<seq<Vector>>, picks: seq<seq<nat>>, seeds: nat -> Seeds,
                  row: seq<Vector>, start: seq<Vector>, pick: seq<nat>)
    requires subspaces > 0 && dims > 0 && dims % subspaces == 0 && requested >= 1 && |rows| < subspaces
    requires AllTrained(vectors, dims, subspaces, requested, maxIters, rows, starts, picks, seeds)
    requires WellTrained(Columns(vectors, dims, subspaces, |rows|), dims / subspaces, requested, maxIters, row, start, pick,
                         seeds(|rows|))
    ensures AllTrained(vectors, dims, subspaces, requested, maxIters, rows + [row], starts + [start], picks + [pick], seeds)
  {
    hide WellTrained, Columns;
  }

  /** The codebook's rows are the trained rows. */
  lemma LaidIsValid(cb: PqCodebook, rows: seq<seq<Vector>>)
    requires cb.subspaces > 0 && cb.subDim > 0 && cb.dims == cb.subspaces * cb.subDim && 1 <= cb.requested <= 256
    requires |rows| == cb.subspaces && Laid(cb.subDim, cb.ks, cb.offsets, cb.centroids, rows)
    requires forall s :: 0 <= s < |rows| ==> 1 <= |rows[s]| <= cb.requested
    ensures cb.Valid() && forall s :: 0 <= s < cb.subspaces ==> cb.Rows(s) == rows[s]
  {
    OffsetsInside(cb.subDim, cb.ks, cb.offsets, |cb.centroids|);
    forall s | 0 <= s < cb.subspaces ensures cb.Rows(s) == rows[s] {
      forall c | 0 <= c < cb.ks[s] ensures cb.Rows(s)[c] == rows[s][c] {
        assert RowAt(cb.centroids, cb.offsets[s], cb.subDim, c, rows[s][c]);
      }
    }
  }

  lemma {:induction false} OffsetsInside(d: nat, ks: seq<nat>, offsets: seq<nat>, total: nat)
    requires |ks| == |offsets| && BackToBack(d, ks, offsets, total)
    ensures forall s :: 0 <= s < |ks| ==> offsets[s] + ks[s] * d <= total
  {
    if ks != [] {
      var last := |ks| - 1;
      OffsetsInside(d, ks[..last], offsets[..last], offsets[last]);
      forall s | 0 <= s < |ks| ensures offsets[s] + ks[s] * d <= total {
        if s < last {
          assert offsets[..last][s] + ks[..last][s] * d <= offsets[last];
          assert ks[last] * d >= 0;
        }
      }
    }
  }

  /** One k-means per subspace, each trained block laid after the ones before. */
  method TrainBlocks(vectors: seq<real>, dims: nat, subspaces: nat, requested: nat, maxIters: nat, seeds: nat -> Seeds)
    returns (ks: seq<nat>, offsets: seq<nat>, centroids: Vector,
             ghost rows: seq<seq<Vector>>, ghost starts: seq<seq<Vector>>, ghost picks: seq<seq<nat>>)
    requires subspaces > 0 && dims > 0 && dims % subspaces == 0 && requested >= 1 && |vectors| / dims > 0
    requires forall s: nat :: seeds(s).Fits(|vectors| / dims)
    ensures |rows| == subspaces && Laid(dims / subspaces, ks, offsets, centroids, rows)
    ensures AllTrained(vectors, dims, subspaces, requested, maxIters, rows, starts, picks, seeds)
    ensures forall s :: 0 <= s < subspaces ==> 1 <= |rows[s]| <= requested
  {
    hide *;
    var d := dims / subspaces;
    ks, offsets, centroids, rows, starts, picks := [], [], [], [], [], [];
    NothingLaid(vectors, dims, subspaces, requested, maxIters, seeds);
    for s := 0 to subspaces
      invariant |rows| == s && Laid(d, ks, offsets, centroids, rows)
      invariant AllTrained(vectors, dims, subspaces, requested, maxIters, rows, starts, picks, seeds)
      invariant forall t :: 0 <= t < s ==> 1 <= |rows[t]| <= requested
    {
      var points := Columns(vectors, dims, subspaces, s);
      var cents; ghost var start, pick;
      cents, start, pick := KMeans.Train(points, d, requested, maxIters, seeds(s));
      SizeOfTrained(points, d, requested, maxIters, cents[..], start, pick, seeds(s));
      LayNext(d, ks, offsets, centroids, rows, cents[..]);
      TrainNext(vectors, dims, subspaces, requested, maxIters, rows, starts, picks, seeds, cents[..], start, pick);
      offsets := offsets + [|centroids|];
      ks := ks + [cents.Length];
      centroids := centroids + Flatten(cents[..], d);
      rows, starts, picks := rows + [cents[..]], starts + [start], picks + [pick];
    }
  }

  /** `PqCodebook::train`, with its rejections in the order the code checks them. */
  method Train(vectors: seq<real>, dims: nat, subspaces: nat, bits: nat, maxIters: nat, seeds: nat -> Seeds)
    returns (r: Result<PqCodebook>, ghost starts: seq<seq<Vector>>, ghost picks: seq<seq<nat>>)
    requires 0 < dims <= |vectors| ==> forall s: nat :: seeds(s).Fits(|vectors| / dims)
    ensures r.Ok? <==>
              && subspaces > 0 && 1 <= bits <= 8 && dims > 0 && dims % subspaces == 0
              && vectors != [] && |vectors| % dims == 0
    ensures r.Err? ==> r == Err(InvalidConfig)
    ensures r.Ok? ==>
              && var cb := r.value;
              && cb.Valid() && cb.dims == dims && cb.subspaces == subspaces && cb.requested == PowerOfTwo(bits)
              && AllTrained(vectors, dims, subspaces, cb.requested, maxIters, AllRows(cb),
                            starts, picks, seeds)
  {
    starts, picks := [], [];
    if subspaces == 0 || bits == 0 || bits > 8 || dims == 0 || dims % subspaces != 0 || vectors == [] || |vectors| % dims != 0 {
      return Err(InvalidConfig), starts, picks;
    }
    hide *;
    var d, requested := dims / subspaces, PowerOfTwo(bits);
    AtMostByte(bits);
    Whole(dims, subspaces, |vectors|);
    var ks, offsets, centroids; ghost var rows;
    ks, offsets, centroids, rows, starts, picks := TrainBlocks(vectors, dims, subspaces, requested, maxIters, seeds);
    var cb := PqCodebook(dims, subspaces, d, requested, ks, centroids, offsets);
    LaidIsValid(cb, rows);
    TrainedRows(cb, rows);
    r := Ok(cb);
  }

  /** The centroids of every subspace. */
  ghost function AllRows(cb: PqCodebook): (rows: seq<seq<Vector>>)
    requires cb.Valid()
    ensures |rows| == cb.subspaces && forall s :: 0 <= s < cb.subspaces ==> rows[s] == cb.Rows(s)
  {
    seq(cb.subspaces, s requires 0 <= s < cb.subspaces => cb.Rows(s))
  }

  lemma TrainedRows(cb: PqCodebook, rows: seq<seq<Vector>>)
    requires cb.Valid() && |rows| == cb.subspaces && forall s :: 0 <= s < cb.subspaces ==> cb.Rows(s) == rows[s]
    ensures AllRows(cb) == rows
  {
    hide PqCodebook.Valid, PqCodebook.Rows;
  }

  lemma AtMostByte(bits: nat)
    requires 1 <= bits <= 8
    ensures 1 <= PowerOfTwo(bits) <= 256
  {
    PowersGrow(bits, 8);
    assert PowerOfTwo(2) == 4;
    assert PowerOfTwo(4) == 16;
    assert PowerOfTwo(6) == 64;
  }

  lemma {:induction false} PowersGrow(a: nat, b: nat)
    requires a <= b
    ensures PowerOfTwo(a) <= PowerOfTwo(b)
  {
    if a < b {
      PowersGrow(a, b - 1);
    }
  }

  lemma Whole(dims: nat, subspaces: nat, len: nat)
    requires subspaces > 0 && dims > 0 && dims % subspaces == 0 && len > 0 && len % dims == 0
    ensures dims / subspaces > 0 && dims == subspaces * (dims / subspaces) && len / dims > 0 && len >= dims
  {
  }

  lemma NothingLaid(vectors: seq<real>, dims: nat, subspaces: nat, requested: nat, maxIters: nat, seeds: nat -> Seeds)
    requires subspaces > 0 && dims > 0 && dims % subspaces == 0 && requested >= 1
    ensures Laid(dims / subspaces, [], [], [], [])
    ensures AllTrained(vectors, dims, subspaces, requested, maxIters, [], [], [], seeds)
  {
  }
}
