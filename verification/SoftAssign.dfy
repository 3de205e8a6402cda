/** Soft assignment of vectors to their nearest centroids, and the resulting lists. */
module SoftAssign {
  import opened Ranking
  import opened Nearest
  import opened Graph
  import opened IdLists
  import opened Select
  import opened HnswPrune
  import opened Distance

  /** `toCentroid[i][c]` is the squared distance of vector `i` to centroid `c`. */
  ghost predicate Table(toCentroid: seq<seq<real>>, lists: nat) {
    forall i :: 0 <= i < |toCentroid| ==> |toCentroid[i]| == lists
  }

  /** Squared distances of every vector to every coarse centroid. */
  ghost function ToCentroids(points: seq<Vector>, cents: seq<Vector>, d: nat): (t: seq<seq<real>>)
    requires Shaped(points, d) && Shaped(cents, d)
    ensures Table(t, |cents|) && |t| == |points|
    ensures forall i, c :: 0 <= i < |points| && 0 <= c < |cents| ==> t[i][c] == L2(points[i], cents[c])
  {
    seq(|points|, i requires 0 <= i < |points| => seq(|cents|, c requires 0 <= c < |cents| => L2(points[i], cents[c])))
  }

  method DistanceTable(points: seq<Vector>, cents: seq<Vector>, d: nat) returns (t: seq<seq<real>>)
    requires Shaped(points, d) && Shaped(cents, d)
    ensures t == ToCentroids(points, cents, d)
  {
    t := [];
    for i := 0 to |points|
      invariant t == ToCentroids(points, cents, d)[..i]
    {
      hide L2;
      var row := seq(|cents|, c requires 0 <= c < |cents| => L2(points[i], cents[c]));
      assert row == ToCentroids(points, cents, d)[i];
      t := t + [row];
    }
    assert ToCentroids(points, cents, d)[..|points|] == ToCentroids(points, cents, d);
  }

  /** `nearest_centroids`: the `soft` nearest centroids, ties by centroid id. */
  function NearestCentroids(scores: seq<real>, soft: nat): (r: seq<nat>)
    ensures Listed(|scores|, r)
  {
    SelectClosestListed(scores, AllIds(|scores|), soft);
    SelectClosest(scores, AllIds(|scores|), soft)
  }

  lemma NearestCentroidsAreBest(scores: seq<real>, soft: nat)
    ensures var r := NearestCentroids(scores, soft);
            && Distinct(r) && |r| == Min(soft, |scores|)
            && Within(scores, Range(|scores|)) && IsBest(scores, soft, Range(|scores|), Members(r))
  {
    AllIdsAreRange(|scores|);
    SelectClosestIsBest(scores, AllIds(|scores|), soft);
  }

  /** Lists after vectors `0..i`: ascending, and holding exactly the vectors assigned to them. */
  ghost predicate Assigned(toCentroid: seq<seq<real>>, lists: nat, soft: nat, postings: seq<seq<nat>>, i: nat)
    requires i <= |toCentroid|
  {
    && |postings| == lists
    && (forall c :: 0 <= c < lists ==> StrictlyAscending(postings[c]) && Listed(i, postings[c]))
    && (forall c, v: nat :: 0 <= c < lists && v < i ==> (v in postings[c] <==> c in NearestCentroids(toCentroid[v], soft)))
  }

  lemma PushKeepsAscending(list: seq<nat>, v: nat)
    requires StrictlyAscending(list) && Listed(v, list)
    ensures StrictlyAscending(list + [v]) && Listed(v + 1, list + [v]) && Listed(v + 1, list)
    ensures v !in list
  {
  }

  /** Push vector `v` onto the lists named in `nearest`. */
  method PushAll(postings0: seq<seq<nat>>, nearest: seq<nat>, v: nat) returns (postings: seq<seq<nat>>)
    requires Listed(|postings0|, nearest) && Distinct(nearest)
    ensures |postings| == |postings0|
    ensures forall c: nat :: c < |postings| ==>
              postings[c] == if c in nearest then postings0[c] + [v] else postings0[c]
  {
    postings := postings0;
    for j := 0 to |nearest|
      invariant |postings| == |postings0|
      invariant forall k :: 0 <= k < j ==> postings[nearest[k]] == postings0[nearest[k]] + [v]
      invariant forall c: nat :: c < |postings| && c !in nearest[..j] ==> postings[c] == postings0[c]
    {
      assert nearest[..j + 1] == nearest[..j] + [nearest[j]];
      postings := postings[nearest[j] := postings[nearest[j]] + [v]];
    }
    assert nearest[..|nearest|] == nearest;
  }

  lemma AssignStep(toCentroid: seq<seq<real>>, lists: nat, soft: nat, postings: seq<seq<nat>>, after: seq<seq<nat>>, i: nat)
    requires i < |toCentroid| && Assigned(toCentroid, lists, soft, postings, i) && |after| == lists
    requires forall c: nat :: c < lists ==>
               after[c] == if c in NearestCentroids(toCentroid[i], soft) then postings[c] + [i] else postings[c]
    ensures Assigned(toCentroid, lists, soft, after, i + 1)
  {
    hide NearestCentroids;
    forall c | 0 <= c < lists ensures StrictlyAscending(after[c]) && Listed(i + 1, after[c]) {
      PushKeepsAscending(postings[c], i);
    }
    forall c, v: nat | 0 <= c < lists && v < i + 1
      ensures v in after[c] <==> c in NearestCentroids(toCentroid[v], soft)
    {
      PushKeepsAscending(postings[c], i);
    }
  }

  /** One push per vector and nearby centroid, vectors in order, so every list comes out ascending. */
  method AssignAll(toCentroid: seq<seq<real>>, lists: nat, soft: nat) returns (postings: seq<seq<nat>>)
    requires Table(toCentroid, lists)
    ensures Assigned(toCentroid, lists, soft, postings, |toCentroid|)
  {
    postings := seq(lists, _ => []);
    for i := 0 to |toCentroid|
      invariant Assigned(toCentroid, lists, soft, postings, i)
    {
      var nearest := NearestCentroids(toCentroid[i], soft);
      NearestCentroidsAreBest(toCentroid[i], soft);
      hide Assigned, NearestCentroids;
      AssignedSize(toCentroid, lists, soft, postings, i);
      ghost var before := postings;
      postings := PushAll(postings, nearest, i);
      AssignStep(toCentroid, lists, soft, before, postings, i);
    }
  }

  lemma AssignedSize(toCentroid: seq<seq<real>>, lists: nat, soft: nat, postings: seq<seq<nat>>, i: nat)
    requires i <= |toCentroid| && Assigned(toCentroid, lists, soft, postings, i)
    ensures |postings| == lists
  {
  }

  /** The lists vector `v` joined. */
  ghost function ListsOf(postings: seq<seq<nat>>, v: nat): set<nat> {
    set c | c in Range(|postings|) && v in postings[c]
  }

  /** Every vector joins exactly `soft` lists: those of its nearest centroids. */
  lemma JoinsExactlySoft(toCentroid: seq<seq<real>>, lists: nat, soft: nat, postings: seq<seq<nat>>, v: nat)
    requires Table(toCentroid, lists) && soft <= lists && v < |toCentroid|
    requires Assigned(toCentroid, lists, soft, postings, |toCentroid|)
    ensures |ListsOf(postings, v)| == soft
    ensures Within(toCentroid[v], Range(lists)) && IsBest(toCentroid[v], soft, Range(lists), ListsOf(postings, v))
  {
    var nearest := NearestCentroids(toCentroid[v], soft);
    NearestCentroidsAreBest(toCentroid[v], soft);
    MembersSize(nearest);
    assert ListsOf(postings, v) == Members(nearest);
  }
}
