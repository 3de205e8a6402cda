/** A bundle over an inverted file probed in full: after any run of edits its answer is the exact one. */
module BundleOracle {
  import opened Core
  import opened Ranking
  import opened Nearest
  import opened Graph
  import opened Format
  import opened Reader
  import opened Distance
  import opened UpdateLog
  import opened Bundle
  import opened Corpus
  import BatchFetch
  import Ivf
  import IvfOracle

  /** Every vector a bundle ever held, by id: the stored ones, then those inserted along the run. */
  ghost function Held(store: VectorStore, decode: seq<byte> -> Vector, edits: seq<Edit>): seq<Vector>
    requires store.Valid()
  {
    Vectors(store, decode) + Inserted(edits)
  }

  ghost function Scores(vectors: seq<Vector>, distance: Vector -> real): (sc: seq<real>)
    ensures |sc| == |vectors| && forall i :: 0 <= i < |vectors| ==> sc[i] == distance(vectors[i])
  {
    seq(|vectors|, i requires 0 <= i < |vectors| => distance(vectors[i]))
  }

  /** Ids the run left live: stored or issued, and never deleted. */
  ghost function Survivors(baseLen: nat, edits: seq<Edit>): set<nat> {
    set id | id in Range(baseLen + |Inserted(edits)|) && Edit.Delete(id) !in edits
  }

  lemma SurvivorsAreLive(baseLen: nat, edits: seq<Edit>)
    ensures Run(Fresh(baseLen), edits).Live() == Survivors(baseLen, edits)
    ensures Run(Fresh(baseLen), edits).inserts == Inserted(edits)
  {
    IdsAreConsecutive(baseLen, edits);
    forall id ensures id in Run(Fresh(baseLen), edits).Live() <==> id in Survivors(baseLen, edits) {
      LiveAfterRun(baseLen, edits, id);
    }
  }

  lemma HeldScores(store: VectorStore, decode: seq<byte> -> Vector, distance: Vector -> real,
                   onSlot: seq<byte> -> real, edits: seq<Edit>)
    requires store.Valid() && forall bytes :: onSlot(bytes) == distance(decode(bytes))
    ensures AllScores(ScoresOf(store, onSlot), distance, Inserted(edits)) == Scores(Held(store, decode, edits), distance)
  {
    hide SlotBytes, Inserted;
    var all, scores := AllScores(ScoresOf(store, onSlot), distance, Inserted(edits)), Scores(Held(store, decode, edits), distance);
    forall i | 0 <= i < store.Len() ensures all[i] == scores[i] {
      assert InFile(store, i) && Held(store, decode, edits)[i] == decode(SlotBytes(store, i));
    }
    assert all == scores;
  }

  /** The index's answer, made of every stored vector, is exact. */
  lemma ProbedAnswer(index: Ivf.IvfIndex, points: seq<Vector>, cents: seq<Vector>, softAssign: nat, cs: seq<real>,
                     stored: seq<real>, hits: seq<Neighbor>, j: nat)
    requires Ivf.BuiltFrom(index, points, cents, index.dims, Ivf.Soft(softAssign, |cents|)) && (points != [] ==> cents != [])
    requires |cs| == index.lists <= index.numProbes && |stored| == index.len
    requires index.len == 0 || index.lists == 0 ==> hits == []
    requires index.len > 0 && index.lists > 0 ==>
               var found := Ivf.Probed(index.postings, cs, Ivf.Probes(index));
               Within(stored, found) && IsTopK(hits, stored, found, j)
    ensures Within(stored, Range(|stored|)) && IsTopK(hits, stored, Range(|stored|), j)
  {
    if points == [] {
      assert Ids(hits) == {} == Range(|stored|);
    } else {
      IvfOracle.ProbeAllReachesAll(index, points, cents, index.dims, softAssign, cs, Ivf.Probes(index));
      hide Ivf.Probed;
    }
  }

  /** A query: whatever was inserted and deleted, the exact best `k` of the vectors still live. */
  method SearchAll(bundle: Bundle, index: Ivf.IvfIndex, store: VectorStore, cs: seq<real>, sc: seq<real>,
                   distance: Vector -> real, ghost decode: seq<byte> -> Vector, onSlot: seq<byte> -> real,
                   queryDims: nat, k: nat, preadv: nat -> nat -> int, ghost points: seq<Vector>,
                   ghost cents: seq<Vector>, ghost softAssign: nat, ghost edits: seq<Edit>)
    returns (r: Result<(seq<Neighbor>, QueryCounters)>)
    requires store.Valid() && sc == ScoresOf(store, onSlot) && forall bytes :: onSlot(bytes) == distance(decode(bytes))
    requires bundle.Valid() && bundle.baseLen == |sc| && bundle.log.Value() == Run(Fresh(|sc|), edits)
    requires Ivf.BuiltFrom(index, points, cents, index.dims, Ivf.Soft(softAssign, |cents|)) && (points != [] ==> cents != [])
    requires |cs| == index.lists <= index.numProbes && index.len == |sc|
    ensures queryDims != index.dims ==> r == Err(DimensionMismatch(index.dims, queryDims))
    ensures queryDims == index.dims && BatchFetch.BatchProgress(preadv) ==> r.Ok?
    ensures r.Ok? ==>
              var scores, live := Scores(Held(store, decode, edits), distance), Survivors(|sc|, edits);
              Within(scores, live) && IsTopK(r.value.0, scores, live, k)
  {
    hide *;
    LogAfter(bundle.log, |sc|, edits);
    var j := k + |bundle.log.tombstones|;
    IvfOracle.BuiltIsInStore(index, points, cents, index.dims, Ivf.Soft(softAssign, |cents|));
    var inner := Ivf.Search(index, store, cs, sc, onSlot, queryDims, j, preadv);
    if inner.Ok? {
      ProbedAnswer(index, points, cents, softAssign, cs, sc, inner.value.0, j);
    }
    AnswerIsExact(inner, sc, j);
    r := bundle.Search(_ => inner, sc, distance, k);
    HeldScores(store, decode, distance, onSlot, edits);
  }

  lemma LogAfter(log: UpdateLog, baseLen: nat, edits: seq<Edit>)
    requires log.Value() == Run(Fresh(baseLen), edits)
    ensures log.Value().Live() == Survivors(baseLen, edits) && log.inserts == Inserted(edits)
  {
    SurvivorsAreLive(baseLen, edits);
    hide Run, Fresh, Inserted, Survivors;
  }

  /** An index that answers one query as `inner` does. */
  lemma AnswerIsExact(inner: Result<(seq<Neighbor>, QueryCounters)>, stored: seq<real>, j: nat)
    requires inner.Ok? ==> Within(stored, Range(|stored|)) && IsTopK(inner.value.0, stored, Range(|stored|), j)
    ensures Honest(_ => inner, stored, j) && (inner.Ok? ==> Exact(_ => inner, stored, j))
  {
    if inner.Ok? {
      ExactIsHonest(_ => inner, stored, j);
    }
  }
}
