/** Moving the resident PQ codes along with a relabelling. */
module HnswCodes {
  import opened Nearest
  import opened IdLists
  import opened Beam
  import opened RelabelTheorem
  import opened Format
  import opened Distance
  import opened Codebook
  import opened Adc

  /** `flat` with item `j` replaced. */
  function WithItem(flat: seq<byte>, j: nat, w: nat, item: seq<byte>): (r: seq<byte>)
    requires j * w + w <= |flat| && |item| == w
    ensures |r| == |flat|
  {
    flat[..j * w] + item + flat[j * w + w..]
  }

  lemma ItemReplaced(flat: seq<byte>, j: nat, w: nat, item: seq<byte>, i: nat)
    requires j * w + w <= |flat| && |item| == w && i * w + w <= |flat|
    ensures Item(WithItem(flat, j, w, item), i, w) == if i == j then item else Item(flat, i, w)
  {
    ItemsApart(i, j, w);
    SliceReplaced(flat, j * w, w, item, i * w);
  }

  /** Different items do not overlap; empty ones are equal wherever they start. */
  lemma ItemsApart(i: nat, j: nat, w: nat)
    ensures i < j ==> i * w + w <= j * w
    ensures j < i ==> j * w + w <= i * w
  {
    if i < j {
      RowFits(0, i, j, w, j * w);
    } else if j < i {
      RowFits(0, j, i, w, i * w);
    }
  }

  /** Replacing one stretch leaves the stretches before and after it alone. */
  lemma SliceReplaced(flat: seq<byte>, at: nat, w: nat, item: seq<byte>, from: nat)
    requires at + w <= |flat| && |item| == w && from + w <= |flat|
    requires from == at || from + w <= at || at + w <= from
    ensures (flat[..at] + item + flat[at + w..])[from..from + w] == if from == at then item else flat[from..from + w]
  {
  }

  method CopyItem(out: array<byte>, j: nat, w: nat, item: seq<byte>)
    requires j * w + w <= out.Length && |item| == w
    modifies out
    ensures out[..] == WithItem(old(out[..]), j, w, item)
  {
    for b := 0 to w
      invariant out[..j * w] == old(out[..j * w]) && out[j * w..j * w + b] == item[..b]
      invariant out[j * w + w..] == old(out[j * w + w..])
    {
      out[j * w + b] := item[b];
    }
    assert out[..] == out[..j * w] + out[j * w..j * w + w] + out[j * w + w..];
  }

  /** The codes of the first `i` old ids sit under their new ids. */
  ghost predicate Moved(codes: seq<byte>, out: seq<byte>, pos: seq<nat>, w: nat, i: nat) {
    && i <= |pos| && |out| == |codes| == |pos| * w && Listed(|pos|, pos)
    && forall o :: 0 <= o < i ==> CodeMoved(codes, out, pos[o], w, o)
  }

  ghost predicate CodeMoved(codes: seq<byte>, out: seq<byte>, to: nat, w: nat, o: nat) {
    && to * w + w <= |out| && o * w + w <= |codes|
    && Item(out, to, w) == Item(codes, o, w)
  }

  lemma MoveNext(codes: seq<byte>, out: seq<byte>, pos: seq<nat>, w: nat, i: nat)
    requires Moved(codes, out, pos, w, i) && i < |pos| && Distinct(pos)
    ensures i * w + w <= |codes| && pos[i] * w + w <= |out|
    ensures Moved(codes, WithItem(out, pos[i], w, Item(codes, i, w)), pos, w, i + 1)
  {
    RowFits(0, i, |pos|, w, |codes|);
    RowFits(0, pos[i], |pos|, w, |out|);
    var now := WithItem(out, pos[i], w, Item(codes, i, w));
    ItemReplaced(out, pos[i], w, Item(codes, i, w), pos[i]);
    forall o | 0 <= o < i + 1 ensures CodeMoved(codes, now, pos[o], w, o) {
      if o < i {
        assert CodeMoved(codes, out, pos[o], w, o);
        ItemReplaced(out, pos[i], w, Item(codes, i, w), pos[o]);
      }
    }
  }

  /** The code part of `relabel`: node `was` keeps its code under its new id `pos[was]`. */
  method RelocateCodes(codes: seq<byte>, pos: seq<nat>) returns (r: seq<byte>, ghost w: nat)
    requires IsPermutation(pos, |pos|) && (pos != [] ==> |codes| % |pos| == 0) && (pos == [] ==> codes == [])
    ensures codes == [] ==> r == []
    ensures codes != [] ==> w > 0 && Moved(codes, r, pos, w, |pos|)
  {
    if codes == [] {
      return [], 0;
    }
    hide Moved, WithItem, Item;
    var n := |pos|;
    var codeLen := |codes| / n;
    w := codeLen;
    assert |codes| == n * codeLen;
    var out := new byte[|codes|](_ => 0);
    NothingMoved(codes, out[..], pos, codeLen);
    for was := 0 to n
      invariant Moved(codes, out[..], pos, codeLen, was)
    {
      MoveNext(codes, out[..], pos, codeLen, was);
      CopyItem(out, pos[was], codeLen, Item(codes, was, codeLen));
    }
    r := out[..];
  }

  lemma NothingMoved(codes: seq<byte>, out: seq<byte>, pos: seq<nat>, w: nat)
    requires |out| == |codes| == |pos| * w && Listed(|pos|, pos)
    ensures Moved(codes, out, pos, w, 0)
  {
  }

  /** So every table lookup of a relabelled node gives what its old id gave. */
  lemma LookupsRenamed(cb: PqCodebook, query: Vector, codes: seq<byte>, moved: seq<byte>, pos: seq<nat>, was: nat)
    requires cb.Valid() && |query| == cb.dims && was < |pos| && Moved(codes, moved, pos, cb.subspaces, |pos|)
    ensures pos[was] * cb.subspaces + cb.subspaces <= |moved| && was * cb.subspaces + cb.subspaces <= |codes|
    ensures Sum(cb, query, Item(moved, pos[was], cb.subspaces), cb.subspaces) ==
              Sum(cb, query, Item(codes, was, cb.subspaces), cb.subspaces)
  {
    assert CodeMoved(codes, moved, pos[was], cb.subspaces, was);
    hide Sum, Item;
  }

  /** Relocated codes score every renamed node as before. */
  lemma ApproximatesRenamed(cb: PqCodebook, query: Vector, codes: seq<byte>, moved: seq<byte>, pos: seq<nat>,
                            ap: seq<real>, ap': seq<real>)
    requires cb.Valid() && |query| == cb.dims && Moved(codes, moved, pos, cb.subspaces, |pos|)
    requires Approximates(cb, query, codes, ap) && Approximates(cb, query, moved, ap') && DistinctScores(ap)
    requires IsPermutation(pos, |ap|) && |ap'| == |ap|
    ensures Renames(ap, ap', pos)
  {
    hide PqCodebook.Valid, Sum, Item, Moved, DistinctScores;
    forall i | 0 <= i < |ap| ensures ap'[pos[i]] == ap[i] {
      LookupsRenamed(cb, query, codes, moved, pos, i);
    }
  }
}
