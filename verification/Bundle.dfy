/** A frozen index with its update overlay: over-fetch, drop the retracted hits, merge the buffered vectors. */
module Bundle {
  import opened Core
  import opened Ranking
  import opened Nearest
  import opened Graph
  import opened Distance
  import opened UpdateLog

  /** The scores of every issued id: stored vectors first, then the buffered ones. */
  ghost function AllScores(stored: seq<real>, distance: Vector -> real, inserts: seq<Vector>): (sc: seq<real>)
    ensures |sc| == |stored| + |inserts|
    ensures forall i :: 0 <= i < |stored| ==> sc[i] == stored[i]
    ensures forall i :: 0 <= i < |inserts| ==> sc[|stored| + i] == distance(inserts[i])
  {
    stored + seq(|inserts|, i requires 0 <= i < |inserts| => distance(inserts[i]))
  }

  /** Ids from `lo` to `hi`. */
  ghost function Between(lo: nat, hi: nat): set<nat> {
    set i | i in Range(hi) && i >= lo
  }

  /** A hit list as the index returns one: stored ids, each once, with their own scores. */
  ghost predicate Hits(hits: seq<Neighbor>, stored: seq<real>) {
    && StrictlySorted(hits)
    && forall n :: n in hits ==> n.id < |stored| && n == At(stored, n.id)
  }

  lemma HitsOf(hits: seq<Neighbor>, stored: seq<real>, nodes: set<nat>, k: nat)
    requires Within(stored, nodes) && IsTopK(hits, stored, nodes, k)
    ensures Hits(hits, stored)
  {
    forall n | n in hits ensures n.id < |stored| {
      assert n.id in nodes;
    }
  }

  // ---- the merge ----

  /** Ids of the first `i` hits that survive the tombstones. */
  ghost function Surviving(hits: seq<Neighbor>, tombstones: set<nat>, i: nat): set<nat>
    requires i <= |hits|
  {
    if i == 0 then {}
    else if hits[i - 1].id in tombstones then Surviving(hits, tombstones, i - 1)
    else Surviving(hits, tombstones, i - 1) + {hits[i - 1].id}
  }

  lemma {:induction false} SurvivingIs(hits: seq<Neighbor>, tombstones: set<nat>, i: nat)
    requires i <= |hits|
    ensures forall x :: x in Surviving(hits, tombstones, i) <==> x !in tombstones && exists j :: 0 <= j < i && hits[j].id == x
  {
    if i > 0 {
      SurvivingIs(hits, tombstones, i - 1);
    }
  }

  lemma SurvivingAll(hits: seq<Neighbor>, tombstones: set<nat>)
    ensures Surviving(hits, tombstones, |hits|) == Ids(hits) - tombstones
  {
    SurvivingIs(hits, tombstones, |hits|);
    forall x ensures x in Surviving(hits, tombstones, |hits|) <==> x in Ids(hits) - tombstones {
      if x in Ids(hits) {
        var n :| n in hits && n.id == x;
        var j :| 0 <= j < |hits| && hits[j] == n;
      }
    }
  }

  /** The next hit is new among the survivors and lies below the buffered ids. */
  lemma NextHit(hits: seq<Neighbor>, stored: seq<real>, tombstones: set<nat>, i: nat)
    requires Hits(hits, stored) && i < |hits|
    ensures hits[i].id < |stored| && hits[i] == At(stored, hits[i].id)
    ensures hits[i].id !in Surviving(hits, tombstones, i)
  {
    assert hits[i] in hits;
    SurvivingIs(hits, tombstones, i);
    forall j | 0 <= j < i ensures hits[j].id != hits[i].id {
      assert hits[j] in hits && Less(hits[j], hits[i]);
    }
  }

  lemma {:induction false} SurvivorsStored(hits: seq<Neighbor>, stored: seq<real>, tombstones: set<nat>, i: nat)
    requires Hits(hits, stored) && i <= |hits|
    ensures forall x :: x in Surviving(hits, tombstones, i) ==> x < |stored|
  {
    if i > 0 {
      SurvivorsStored(hits, stored, tombstones, i - 1);
      assert hits[i - 1] in hits;
    }
  }

  /** The collector has been offered exactly the nodes of `done`. */
  ghost predicate Collected(offered: multiset<Neighbor>, sc: seq<real>, done: set<nat>) {
    Within(sc, done) && offered == multiset(Records(sc, done))
  }

  lemma CollectNext(offered: multiset<Neighbor>, sc: seq<real>, done: set<nat>, x: nat)
    requires Collected(offered, sc, done) && x < |sc| && x !in done
    ensures Collected(offered + multiset{At(sc, x)}, sc, done + {x})
  {
    RecordsAdd(sc, done, x);
    hide Records, Within;
  }

  lemma CollectNone(sc: seq<real>)
    ensures Collected(multiset{}, sc, {})
  {
    assert Records(sc, {}) == {};
  }

  lemma HitMerges(hits: seq<Neighbor>, sc: seq<real>, stored: seq<real>, tombstones: set<nat>, i: nat,
                  offered: multiset<Neighbor>)
    requires Hits(hits, stored) && i < |hits| && |stored| <= |sc|
    requires forall j :: 0 <= j < |stored| ==> sc[j] == stored[j]
    requires Collected(offered, sc, Surviving(hits, tombstones, i))
    ensures Collected(if hits[i].id in tombstones then offered else offered + multiset{hits[i]},
                      sc, Surviving(hits, tombstones, i + 1))
  {
    NextHit(hits, stored, tombstones, i);
    if hits[i].id !in tombstones {
      CollectNext(offered, sc, Surviving(hits, tombstones, i), hits[i].id);
    }
    hide Collected;
  }

  /** Buffered ids scanned so far that survive the tombstones. */
  ghost function BufferLive(first: nat, tombstones: set<nat>, i: nat): set<nat> {
    Between(first, first + i) - tombstones
  }

  lemma BufferNext(first: nat, tombstones: set<nat>, i: nat)
    ensures BufferLive(first, tombstones, 0) == {}
    ensures first + i !in BufferLive(first, tombstones, i)
    ensures BufferLive(first, tombstones, i + 1) ==
              if first + i in tombstones then BufferLive(first, tombstones, i)
              else BufferLive(first, tombstones, i) + {first + i}
  {
    assert Between(first, first + i + 1) == Between(first, first + i) + {first + i};
  }

  lemma BufferMerges(sc: seq<real>, survivors: set<nat>, first: nat, tombstones: set<nat>, i: nat,
                     offered: multiset<Neighbor>)
    requires first + i < |sc| && (forall x :: x in survivors ==> x < first)
    requires Collected(offered, sc, survivors + BufferLive(first, tombstones, i))
    ensures Collected(if first + i in tombstones then offered else offered + multiset{At(sc, first + i)},
                      sc, survivors + BufferLive(first, tombstones, i + 1))
  {
    hide *;
    BufferNext(first, tombstones, i);
    if first + i !in tombstones {
      var done := survivors + BufferLive(first, tombstones, i);
      assert first + i !in done;
      CollectNext(offered, sc, done, first + i);
      assert survivors + BufferLive(first, tombstones, i + 1) == done + {first + i};
    }
  }

  /** `apply_updates`: whatever the index returned, the best `k` of its surviving hits and the surviving buffer. */
  method ApplyUpdates(log: UpdateLog, hits: seq<Neighbor>, ghost stored: seq<real>, distance: Vector -> real, k: nat)
    returns (out: seq<Neighbor>)
    requires Hits(hits, stored) && log.Value().Over(|stored|)
    ensures var sc := AllScores(stored, distance, log.inserts);
            var pool := (Ids(hits) - log.tombstones) + (Between(|stored|, log.nextId) - log.tombstones);
            Within(sc, pool) && IsTopK(out, sc, pool, k)
  {
    hide Hits, Collected, Surviving, BufferLive, Between, IsTopK, TopK.Valid, Ids, Less;
    ghost var sc := AllScores(stored, distance, log.inserts);
    ghost var tombstones := log.tombstones;
    var topk := new TopK(k);
    CollectNone(sc);
    NoneSurvive(hits, tombstones);
    for i := 0 to |hits|
      modifies topk
      invariant topk.Valid() && topk.k == k && fresh(topk)
      invariant Collected(topk.offered, sc, Surviving(hits, tombstones, i))
    {
      HitMerges(hits, sc, stored, tombstones, i, topk.offered);
      if !log.IsTombstoned(hits[i].id) {
        topk.Offer(hits[i]);
      }
    }
    SurvivorsStored(hits, stored, tombstones, |hits|);
    ghost var survivors := Surviving(hits, tombstones, |hits|);
    var first := log.FirstInsertId();
    BufferNext(first, tombstones, 0);
    assert survivors + {} == survivors;
    for i := 0 to |log.inserts|
      modifies topk
      invariant topk.Valid() && topk.k == k && fresh(topk)
      invariant Collected(topk.offered, sc, survivors + BufferLive(first, tombstones, i))
    {
      BufferMerges(sc, survivors, first, tombstones, i, topk.offered);
      var id := first + i;
      if log.IsTombstoned(id) {
        continue;
      }
      topk.Offer(Neighbor(id, distance(log.inserts[i])));
    }
    out := topk.IntoSortedVec();
    SurvivingAll(hits, tombstones);
    PoolIs(first, tombstones, |log.inserts|);
    CollectedTopK(out, sc, survivors + BufferLive(first, tombstones, |log.inserts|), k, topk.offered);
  }

  lemma NoneSurvive(hits: seq<Neighbor>, tombstones: set<nat>)
    ensures Surviving(hits, tombstones, 0) == {}
  {
  }

  lemma PoolIs(first: nat, tombstones: set<nat>, n: nat)
    ensures BufferLive(first, tombstones, n) == Between(first, first + n) - tombstones
  {
  }

  lemma CollectedTopK(out: seq<Neighbor>, sc: seq<real>, done: set<nat>, k: nat, offered: multiset<Neighbor>)
    requires Collected(offered, sc, done) && IsTopKOf(out, offered, k)
    ensures Within(sc, done) && IsTopK(out, sc, done, k)
  {
    CollectorIsTopK(out, sc, done, k);
  }

  // ---- over-fetching makes the overlay exact ----

  /** Nodes beaten by at least `k` pool members never matter: the pool's best are everyone's best. */
  lemma AddWorse(sc: seq<real>, k: nat, pool: set<nat>, all: set<nat>, better: set<nat>, best: set<nat>)
    requires Within(sc, all) && better <= pool <= all && |better| >= k && IsBest(sc, k, pool, best)
    requires forall x, b :: x in all - pool && b in better ==> Closer(sc, b, x)
    ensures IsBest(sc, k, all, best)
  {
    SubsetSize(better, pool);
    SubsetSize(pool, all);
    forall b, x | b in best && x in all - best ensures Closer(sc, b, x) {
      if x in pool {
        BestBeatsRest(sc, k, pool, best, b, x);
      } else {
        BestBeatsWorse(sc, k, pool, better, best, b, x);
      }
    }
  }

  /** A best pool member beats whatever `k` pool members beat. */
  lemma BestBeatsWorse(sc: seq<real>, k: nat, pool: set<nat>, better: set<nat>, best: set<nat>, b: nat, x: nat)
    requires Within(sc, pool) && better <= pool && |better| >= k && IsBest(sc, k, pool, best)
    requires b in best && x < |sc| && x !in pool && forall g :: g in better ==> Closer(sc, g, x)
    ensures Closer(sc, b, x)
  {
    if b !in better {
      if better <= best {
        SubsetSize(better, best - {b});
      } else {
        var g :| g in better && g !in best;
        BestBeatsRest(sc, k, pool, best, b, g);
      }
    }
  }

  /** Hits over-fetched by the number of tombstones leave at least `k` survivors, or every live stored vector. */
  lemma OverFetchSuffices(sc: seq<real>, k: nat, stored: set<nat>, tombstones: set<nat>, hits: set<nat>,
                          buffered: set<nat>, best: set<nat>)
    requires Within(sc, stored) && Within(sc, buffered)
    requires IsBest(sc, k + |tombstones|, stored, hits)
    requires Within(sc, (hits - tombstones) + buffered) && IsBest(sc, k, (hits - tombstones) + buffered, best)
    ensures Within(sc, (stored - tombstones) + buffered) && IsBest(sc, k, (stored - tombstones) + buffered, best)
  {
    if |stored| <= k + |tombstones| {
      SubsetOfSameSize(hits, stored);
    } else {
      SurvivorsLeft(hits, tombstones, k);
      var pool, all := (hits - tombstones) + buffered, (stored - tombstones) + buffered;
      forall x, b | x in all - pool && b in hits - tombstones ensures Closer(sc, b, x) {
        BestBeatsRest(sc, k + |tombstones|, stored, hits, b, x);
      }
      AddWorse(sc, k, pool, all, hits - tombstones, best);
    }
  }

  lemma SurvivorsLeft(hits: set<nat>, tombstones: set<nat>, k: nat)
    requires |hits| == k + |tombstones|
    ensures |hits - tombstones| >= k
  {
    var gone := hits * tombstones;
    SubsetSize(gone, tombstones);
    assert hits == (hits - tombstones) + gone;
  }

  // ---- the bundle ----

  /** Scores agree on the stored ids, so a stored answer reads the same against all scores. */
  lemma StoredAnswer(stored: seq<real>, sc: seq<real>, hits: seq<Neighbor>, k: nat)
    requires |stored| <= |sc| && forall i :: 0 <= i < |stored| ==> sc[i] == stored[i]
    requires Within(stored, Range(|stored|)) && IsTopK(hits, stored, Range(|stored|), k)
    ensures Within(sc, Range(|stored|)) && IsTopK(hits, sc, Range(|stored|), k)
  {
    var best := Ids(hits);
    forall b, x | b in best && x in Range(|stored|) - best ensures Closer(sc, b, x) {
      BestBeatsRest(stored, k, Range(|stored|), best, b, x);
    }
  }

  lemma LiveSplits(baseLen: nat, nextId: nat, tombstones: set<nat>)
    requires baseLen <= nextId
    ensures (Range(baseLen) - tombstones) + (Between(baseLen, nextId) - tombstones) == Range(nextId) - tombstones
  {
  }

  /** The overlay is exact: if the index answers with the best `k` plus one per tombstone of the stored vectors,
      the merged answer is the best `k` of every live vector, stored or buffered. */
  lemma OverlayIsExact(stored: seq<real>, sc: seq<real>, hits: seq<Neighbor>, k: nat, tombstones: set<nat>,
                       nextId: nat, out: seq<Neighbor>)
    requires |stored| <= nextId == |sc| && forall i :: 0 <= i < |stored| ==> sc[i] == stored[i]
    requires Within(stored, Range(|stored|)) && IsTopK(hits, stored, Range(|stored|), k + |tombstones|)
    requires var pool := (Ids(hits) - tombstones) + (Between(|stored|, nextId) - tombstones);
             Within(sc, pool) && IsTopK(out, sc, pool, k)
    ensures Within(sc, Range(nextId) - tombstones) && IsTopK(out, sc, Range(nextId) - tombstones, k)
  {
    hide *;
    var baseLen := |stored|;
    var buffered := Between(baseLen, nextId) - tombstones;
    StoredAnswer(stored, sc, hits, k + |tombstones|);
    BestOfTopK(hits, sc, Range(baseLen), k + |tombstones|);
    BufferedWithin(sc, baseLen, nextId, tombstones);
    BestOfTopK(out, sc, (Ids(hits) - tombstones) + buffered, k);
    OverFetchSuffices(sc, k, Range(baseLen), tombstones, Ids(hits), buffered, Ids(out));
    LiveSplits(baseLen, nextId, tombstones);
    LiveMembers(out, sc, Ids(hits), Range(baseLen), tombstones, buffered, k);
  }

  lemma BestOfTopK(out: seq<Neighbor>, sc: seq<real>, nodes: set<nat>, k: nat)
    requires Within(sc, nodes) && IsTopK(out, sc, nodes, k)
    ensures IsBest(sc, k, nodes, Ids(out)) && Ids(out) <= nodes
  {
  }

  lemma BufferedWithin(sc: seq<real>, lo: nat, hi: nat, tombstones: set<nat>)
    requires hi <= |sc|
    ensures Within(sc, Between(lo, hi) - tombstones)
  {
  }

  lemma LiveMembers(out: seq<Neighbor>, sc: seq<real>, hits: set<nat>, stored: set<nat>, tombstones: set<nat>,
                    buffered: set<nat>, k: nat)
    requires hits <= stored && Within(sc, (hits - tombstones) + buffered)
    requires IsTopK(out, sc, (hits - tombstones) + buffered, k)
    requires Within(sc, (stored - tombstones) + buffered)
    requires IsBest(sc, k, (stored - tombstones) + buffered, Ids(out))
    ensures IsTopK(out, sc, (stored - tombstones) + buffered, k)
  {
    hide IsBest;
  }

  /** What the frozen index answers to one query, by the number of neighbours asked for. */
  type Index = nat -> Result<(seq<Neighbor>, QueryCounters)>

  /** If the index answers when asked for `j` neighbours, it answers with stored vectors at their own scores. */
  ghost predicate Honest(index: Index, stored: seq<real>, j: nat) {
    index(j).Ok? ==> Hits(index(j).value.0, stored)
  }

  /** Asked for `j` neighbours the index answers with the true nearest stored vectors. */
  ghost predicate Exact(index: Index, stored: seq<real>, j: nat) {
    && Within(stored, Range(|stored|))
    && index(j).Ok? && IsTopK(index(j).value.0, stored, Range(|stored|), j)
  }

  lemma ExactIsHonest(index: Index, stored: seq<real>, j: nat)
    requires Exact(index, stored, j)
    ensures Honest(index, stored, j)
  {
    HitsOf(index(j).value.0, stored, Range(|stored|), j);
  }

  /** With nothing retracted or buffered the general path would return the index's own answer, exact or not, when that
      has at most `k` hits. */
  lemma FastPathAgrees(stored: seq<real>, hits: seq<Neighbor>, k: nat, out: seq<Neighbor>)
    requires Hits(hits, stored) && |hits| <= k
    requires var pool := (Ids(hits) - {}) + (Between(|stored|, |stored|) - {});
             Within(stored, pool) && IsTopK(out, stored, pool, k)
    ensures out == hits
  {
    assert (Ids(hits) - {}) + (Between(|stored|, |stored|) - {}) == Ids(hits);
    IdsSize(hits);
    TopKUnique(out, hits, stored, Ids(hits), k);
  }

  lemma FastPathIsExact(index: Index, stored: seq<real>, sc: seq<real>, k: nat)
    requires Exact(index, stored, k) && |sc| == |stored| && forall i :: 0 <= i < |stored| ==> sc[i] == stored[i]
    ensures index(k).Ok? && Within(sc, Range(|stored|) - {}) && IsTopK(index(k).value.0, sc, Range(|stored|) - {}, k)
  {
    assert sc == stored;
    assert Range(|stored|) - {} == Range(|stored|);
  }

  lemma ExactOverlay(index: Index, stored: seq<real>, sc: seq<real>, k: nat, tombstones: set<nat>, nextId: nat,
                     out: seq<Neighbor>)
    requires Exact(index, stored, k + |tombstones|) && |stored| <= nextId == |sc| && forall i :: 0 <= i < |stored| ==> sc[i] == stored[i]
    requires var pool := (Ids(index(k + |tombstones|).value.0) - tombstones) + (Between(|stored|, nextId) - tombstones);
             Within(sc, pool) && IsTopK(out, sc, pool, k)
    ensures Within(sc, Range(nextId) - tombstones) && IsTopK(out, sc, Range(nextId) - tombstones, k)
  {
    assert index(k + |tombstones|).Ok?;
    hide *;
    OverlayIsExact(stored, sc, index(k + |tombstones|).value.0, k, tombstones, nextId, out);
  }

  class Bundle {
    const dims: nat
    const baseLen: nat
    const log: UpdateLog

    ghost predicate Valid()
      reads this, log
    {
      && log.Value().Over(baseLen)
      && forall i :: 0 <= i < |log.inserts| ==> |log.inserts[i]| == dims
    }

    constructor (dims: nat, baseLen: nat)
      ensures Valid() && fresh(log) && log.Value() == Fresh(baseLen)
      ensures this.dims == dims && this.baseLen == baseLen
    {
      this.dims, this.baseLen := dims, baseLen;
      log := new UpdateLog(baseLen);
    }

    method Delete(id: nat)
      requires Valid()
      modifies log
      ensures Valid() && log.Value() == Apply(old(log.Value()), Edit.Delete(id))
    {
      log.Delete(id);
    }

    method Insert(vector: Vector) returns (r: Result<nat>)
      requires Valid()
      modifies log
      ensures Valid()
      ensures |vector| != dims ==> r == Err(DimensionMismatch(dims, |vector|)) && log.Value() == old(log.Value())
      ensures |vector| == dims ==>
                r == Ok(old(log.nextId)) && log.Value() == Apply(old(log.Value()), Edit.Insert(vector))
    {
      if |vector| != dims {
        return Err(DimensionMismatch(dims, |vector|));
      }
      var id := log.Insert(vector);
      r := Ok(id);
    }

    /** `search` and `search_hybrid`, which differ only in the index method they call. */
    method Search(index: Index, ghost stored: seq<real>, distance: Vector -> real, k: nat)
      returns (r: Result<(seq<Neighbor>, QueryCounters)>)
      requires Valid() && |stored| == baseLen && Honest(index, stored, k + |log.tombstones|)
      ensures log.IsEmpty() ==> r == index(k)
      ensures !log.IsEmpty() ==>
                var inner := index(k + |log.tombstones|);
                && (inner.Err? ==> r == Err(inner.error))
                && (inner.Ok? ==> r.Ok? && r.value.1 == inner.value.1)
      ensures !log.IsEmpty() && r.Ok? ==>
                var sc := AllScores(stored, distance, log.inserts);
                var pool := (Ids(index(k + |log.tombstones|).value.0) - log.tombstones)
                            + (Between(baseLen, log.nextId) - log.tombstones);
                Within(sc, pool) && IsTopK(r.value.0, sc, pool, k)
      ensures Exact(index, stored, k + |log.tombstones|) ==>
                var sc := AllScores(stored, distance, log.inserts);
                && r.Ok? && Within(sc, log.Value().Live()) && IsTopK(r.value.0, sc, log.Value().Live(), k)
    {
      hide IsTopK, Within, Between, Ids, Hits, Honest, Exact, Range, Apply;
      ghost var sc := AllScores(stored, distance, log.inserts);
      if log.IsEmpty() {
        r := index(k);
        NothingRetracted(log);
        if Exact(index, stored, k) {
          FastPathIsExact(index, stored, sc, k);
        }
        return;
      }
      var inner := index(k + |log.tombstones|);
      if inner.Err? {
        FailureIsInexact(index, stored, k + |log.tombstones|);
        return Err(inner.error);
      }
      HonestAnswer(index, stored, k + |log.tombstones|);
      var out := ApplyUpdates(log, inner.value.0, stored, distance, k);
      if Exact(index, stored, k + |log.tombstones|) {
        ExactOverlay(index, stored, sc, k, log.tombstones, log.nextId, out);
      }
      r := Ok((out, inner.value.1));
    }
  }

  lemma FailureIsInexact(index: Index, stored: seq<real>, j: nat)
    requires index(j).Err?
    ensures !Exact(index, stored, j)
  {
  }

  lemma NothingRetracted(log: UpdateLog)
    requires log.IsEmpty()
    ensures |log.tombstones| == 0 && log.inserts == []
  {
  }

  lemma HonestAnswer(index: Index, stored: seq<real>, j: nat)
    requires Honest(index, stored, j) && index(j).Ok?
    ensures Hits(index(j).value.0, stored)
  {
  }
}
