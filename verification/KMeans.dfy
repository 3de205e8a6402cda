/** Seeded Lloyd's k-means: k-means++ start, assignment, recomputation, reseeding. Random picks are inputs. */
module KMeans {
  import opened Core
  import opened Distance
  // ---- assignment ----

  /** The nearest of the first `c` centroids, the lowest index among equals. */
  function Nearest(p: Vector, cents: seq<Vector>, c: nat): (best: nat)
    requires 1 <= c <= |cents| && Shaped(cents, |p|)
    ensures best < c
    ensures forall o :: 0 <= o < c ==> L2(p, cents[best]) <= L2(p, cents[o])
    ensures forall o :: 0 <= o < best ==> L2(p, cents[best]) < L2(p, cents[o])
  {
    if c == 1 then 0
    else
      var best := Nearest(p, cents, c - 1);
      if L2(p, cents[c - 1]) < L2(p, cents[best]) then c - 1 else best
  }

  /** Each point names a centroid. */
  predicate Assigns(assignment: seq<nat>, n: nat, k: nat) {
    |assignment| == n && forall i :: 0 <= i < n ==> assignment[i] < k
  }

  function NearestAssignment(points: seq<Vector>, cents: seq<Vector>, d: nat): (a: seq<nat>)
    requires cents != [] && Shaped(points, d) && Shaped(cents, d)
    ensures Assigns(a, |points|, |cents|)
  {
    seq(|points|, i requires 0 <= i < |points| => Nearest(points[i], cents, |cents|))
  }

  /** Total squared error of the first `i` points against the centroids they are assigned to. */
  ghost function Error(points: seq<Vector>, assignment: seq<nat>, cents: seq<Vector>, d: nat, i: nat): (e: real)
    requires Shaped(points, d) && Shaped(cents, d) && Assigns(assignment, |points|, |cents|) && i <= |points|
    ensures e >= 0.0
  {
    if i == 0 then 0.0
    else Error(points, assignment, cents, d, i - 1) + L2(points[i - 1], cents[assignment[i - 1]])
  }

  /** The quantisation error of a set of centroids: every point against its nearest one. */
  ghost function NearestError(points: seq<Vector>, cents: seq<Vector>, d: nat): real
    requires cents != [] && Shaped(points, d) && Shaped(cents, d)
  {
    Error(points, NearestAssignment(points, cents, d), cents, d, |points|)
  }

  /** Assigning every point to its nearest centroid is the best assignment. */
  lemma {:induction false} NearestIsBest(points: seq<Vector>, assignment: seq<nat>, cents: seq<Vector>, d: nat, i: nat)
    requires cents != [] && Shaped(points, d) && Shaped(cents, d)
    requires Assigns(assignment, |points|, |cents|) && i <= |points|
    ensures Error(points, NearestAssignment(points, cents, d), cents, d, i) <= Error(points, assignment, cents, d, i)
  {
    hide L2;
    if i > 0 {
      NearestIsBest(points, assignment, cents, d, i - 1);
      assert NearestAssignment(points, cents, d)[i - 1] == Nearest(points[i - 1], cents, |cents|);
    }
  }

  /** `assign_all`: the new assignment, and whether it differs from the one before. */
  method AssignAll(points: seq<Vector>, cents: seq<Vector>, d: nat, assignment: array<nat>) returns (changed: bool)
    requires cents != [] && Shaped(points, d) && Shaped(cents, d) && assignment.Length == |points|
    modifies assignment
    ensures assignment[..] == NearestAssignment(points, cents, d)
    ensures changed <==> old(assignment[..]) != assignment[..]
  {
    hide L2, Nearest;
    changed := false;
    for i := 0 to |points|
      invariant forall j :: 0 <= j < i ==> assignment[j] == Nearest(points[j], cents, |cents|)
      invariant forall j :: i <= j < |points| ==> assignment[j] == old(assignment[j])
      invariant changed <==> exists j :: 0 <= j < i && assignment[j] != old(assignment[j])
    {
      var best := NearestIndex(points[i], cents);
      if assignment[i] != best {
        assignment[i] := best;
        changed := true;
      }
    }
    assert assignment[..] == NearestAssignment(points, cents, d);
    DiffersIff(old(assignment[..]), assignment[..]);
  }

  lemma DiffersIff(before: seq<nat>, after: seq<nat>)
    requires |before| == |after|
    ensures before != after <==> exists j :: 0 <= j < |after| && after[j] != before[j]
  {
  }

  /** The inner loop of the assignment: first strictly nearest centroid. */
  method NearestIndex(p: Vector, cents: seq<Vector>) returns (best: nat)
    requires cents != [] && Shaped(cents, |p|)
    ensures best == Nearest(p, cents, |cents|)
  {
    hide L2;
    best := 0;
    var bestDistance: Option<real> := None;
    for c := 0 to |cents|
      invariant c == 0 ==> best == 0 && bestDistance == None
      invariant c > 0 ==> best == Nearest(p, cents, c) && bestDistance == Some(L2(p, cents[best]))
    {
      var distance := L2(p, cents[c]);
      if bestDistance.None? || distance < bestDistance.value {
        best, bestDistance := c, Some(distance);
      }
    }
  }

  // ---- recomputation ----

  /** Points assigned to cluster `c` among the first `i`. */
  ghost function Count(assignment: seq<nat>, c: nat, i: nat): nat
    requires i <= |assignment|
  {
    if i == 0 then 0 else Count(assignment, c, i - 1) + (if assignment[i - 1] == c then 1 else 0)
  }

  /** Sum of coordinate `j` over those points. */
  ghost function Sum(points: seq<Vector>, assignment: seq<nat>, d: nat, c: nat, j: nat, i: nat): real
    requires Shaped(points, d) && |assignment| == |points| && i <= |points| && j < d
  {
    if i == 0 then 0.0
    else Sum(points, assignment, d, c, j, i - 1) + (if assignment[i - 1] == c then points[i - 1][j] else 0.0)
  }

  ghost function SumRow(points: seq<Vector>, assignment: seq<nat>, d: nat, c: nat): (row: Vector)
    requires Shaped(points, d) && |assignment| == |points|
    ensures |row| == d
  {
    seq(d, j requires 0 <= j < d => Sum(points, assignment, d, c, j, |points|))
  }

  function Times(x: real, y: real): real {
    x * y
  }

  ghost function Scaled(v: Vector, factor: real): (r: Vector)
    ensures |r| == |v| && forall j :: 0 <= j < |v| ==> r[j] == Times(v[j], factor)
  {
    seq(|v|, j requires 0 <= j < |v| => Times(v[j], factor))
  }

  /** The mean of a non-empty cluster. */
  ghost function MeanRow(points: seq<Vector>, assignment: seq<nat>, d: nat, c: nat): (row: Vector)
    requires Shaped(points, d) && |assignment| == |points| && Count(assignment, c, |points|) > 0
    ensures |row| == d
  {
    Scaled(SumRow(points, assignment, d, c), 1.0 / Count(assignment, c, |points|) as real)
  }

  /** The point farthest from its own centroid among the first `i`, the lowest index among equals. */
  ghost function Farthest(points: seq<Vector>, assignment: seq<nat>, cents: seq<Vector>, d: nat, i: nat): (best: nat)
    requires Shaped(points, d) && Shaped(cents, d) && Assigns(assignment, |points|, |cents|) && 1 <= i <= |points|
    ensures best < i
    ensures forall o :: 0 <= o < i ==>
              L2(points[o], cents[assignment[o]]) <= L2(points[best], cents[assignment[best]])
    ensures forall o :: 0 <= o < best ==>
              L2(points[o], cents[assignment[o]]) < L2(points[best], cents[assignment[best]])
  {
    if i == 1 then 0
    else
      var best := Farthest(points, assignment, cents, d, i - 1);
      if L2(points[i - 1], cents[assignment[i - 1]]) > L2(points[best], cents[assignment[best]]) then i - 1 else best
  }

  /** What cluster `c` becomes, given the half-updated centroids. */
  ghost function NewRow(points: seq<Vector>, assignment: seq<nat>, cents: seq<Vector>, d: nat, c: nat): (row: Vector)
    requires points != [] && Shaped(points, d) && Shaped(cents, d) && Assigns(assignment, |points|, |cents|)
    ensures |row| == d
  {
    if Count(assignment, c, |points|) == 0 then points[Farthest(points, assignment, cents, d, |points|)]
    else MeanRow(points, assignment, d, c)
  }

  /** The centroids after clusters `0..c` were recomputed in turn. */
  ghost function Recomputed(points: seq<Vector>, assignment: seq<nat>, cents: seq<Vector>, d: nat, c: nat): (r: seq<Vector>)
    requires points != [] && Shaped(points, d) && Shaped(cents, d) && Assigns(assignment, |points|, |cents|)
    requires c <= |cents|
    ensures |r| == |cents| && Shaped(r, d)
  {
    if c == 0 then cents
    else
      var before := Recomputed(points, assignment, cents, d, c - 1);
      before[c - 1 := NewRow(points, assignment, before, d, c - 1)]
  }

  /** `farthest_point`; the fallback pick never survives the first comparison. */
  method FarthestPoint(points: seq<Vector>, assignment: seq<nat>, cents: seq<Vector>, d: nat, pick: nat) returns (best: nat)
    requires points != [] && Shaped(points, d) && Shaped(cents, d) && Assigns(assignment, |points|, |cents|)
    requires pick < |points|
    ensures best == Farthest(points, assignment, cents, d, |points|)
  {
    hide L2;
    best := pick;
    var bestDistance := -1.0;
    for i := 0 to |points|
      invariant i == 0 ==> bestDistance == -1.0
      invariant i > 0 ==> best == Farthest(points, assignment, cents, d, i)
      invariant i > 0 ==> bestDistance == L2(points[best], cents[assignment[best]])
    {
      var distance := L2(points[i], cents[assignment[i]]);
      if distance > bestDistance {
        best, bestDistance := i, distance;
      }
    }
  }

  /** Per-cluster sums and counts. */
  method Accumulate(points: seq<Vector>, assignment: seq<nat>, d: nat, k: nat) returns (sums: array<Vector>, counts: array<nat>)
    requires Shaped(points, d) && Assigns(assignment, |points|, k)
    ensures fresh(sums) && fresh(counts) && sums.Length == counts.Length == k
    ensures forall c :: 0 <= c < k ==> counts[c] == Count(assignment, c, |points|)
    ensures forall c :: 0 <= c < k ==> |sums[c]| == d
    ensures forall c, j :: 0 <= c < k && 0 <= j < d ==> sums[c][j] == Sum(points, assignment, d, c, j, |points|)
  {
    sums := new Vector[k](_ => seq(d, _ => 0.0));
    counts := new nat[k](_ => 0);
    for i := 0 to |points|
      invariant forall c :: 0 <= c < k ==> counts[c] == Count(assignment, c, i)
      invariant forall c :: 0 <= c < k ==> |sums[c]| == d
      invariant forall c, j :: 0 <= c < k && 0 <= j < d ==> sums[c][j] == Sum(points, assignment, d, c, j, i)
    {
      var c := assignment[i];
      counts[c] := counts[c] + 1;
      for j := 0 to d
        modifies sums
        invariant forall o :: 0 <= o < k ==> |sums[o]| == d
        invariant forall o, l :: 0 <= o < k && 0 <= l < d && o != c ==> sums[o][l] == Sum(points, assignment, d, o, l, i)
        invariant forall l :: 0 <= l < j ==> sums[c][l] == Sum(points, assignment, d, c, l, i) + points[i][l]
        invariant forall l :: j <= l < d ==> sums[c][l] == Sum(points, assignment, d, c, l, i)
      {
        sums[c] := sums[c][j := sums[c][j] + points[i][j]];
      }
    }
  }

  /** The inner loop of the mean: overwrite one centroid coordinate by coordinate. */
  method ScaleInto(cents: array<Vector>, c: nat, sum: Vector, inv: real)
    requires c < cents.Length && |cents[c]| == |sum|
    modifies cents
    ensures cents[..] == old(cents[..])[c := Scaled(sum, inv)]
  {
    hide Times, Scaled;
    ghost var before := cents[..];
    for j := 0 to |sum|
      invariant |cents[c]| == |sum|
      invariant forall o :: 0 <= o < cents.Length && o != c ==> cents[o] == before[o]
      invariant forall l :: 0 <= l < j ==> cents[c][l] == Times(sum[l], inv)
    {
      cents[c] := cents[c][j := Times(sum[j], inv)];
    }
    assert cents[c] == Scaled(sum, inv);
  }

  /** `recompute_centroids`, in place: means where points are assigned, a far-away point where none is. */
  method RecomputeCentroids(points: seq<Vector>, assignment: seq<nat>, cents: array<Vector>, d: nat, pick: nat -> nat)
    requires points != [] && Shaped(points, d) && Shaped(cents[..], d) && Assigns(assignment, |points|, cents.Length)
    requires forall c: nat :: pick(c) < |points|
    modifies cents
    ensures cents[..] == Recomputed(points, assignment, old(cents[..]), d, cents.Length)
  {
    hide L2, Farthest, Sum, Count, Scaled;
    ghost var start := cents[..];
    var sums, counts := Accumulate(points, assignment, d, cents.Length);
    for c := 0 to cents.Length
      modifies cents
      invariant cents[..] == Recomputed(points, assignment, start, d, c)
    {
      if counts[c] == 0 {
        var reseed := FarthestPoint(points, assignment, cents[..], d, pick(c));
        cents[c] := points[reseed];
      } else {
        assert sums[c] == SumRow(points, assignment, d, c);
        ScaleInto(cents, c, sums[c], 1.0 / counts[c] as real);
      }
    }
  }

  // ---- Lloyd's descent ----

  /** Squared deviations of coordinate `j` of cluster `c` from `v`. */
  ghost function Deviation(points: seq<Vector>, assignment: seq<nat>, d: nat, c: nat, j: nat, v: real, i: nat): real
    requires Shaped(points, d) && |assignment| == |points| && i <= |points| && j < d
  {
    if i == 0 then 0.0
    else
      Deviation(points, assignment, d, c, j, v, i - 1) +
        (if assignment[i - 1] == c then Sq(points[i - 1][j] - v) else 0.0)
  }

  lemma ShiftedSquare(x: real, u: real, v: real)
    ensures Sq(x - u) - Sq(x - v) == Times(u - v, u + v - 2.0 * x)
  {
  }

  lemma TimesAdds(a: real, b: real, c: real)
    ensures Times(a, b + c) == Times(a, b) + Times(a, c)
  {
  }

  /** Moving the target from `v` to `u` changes the deviation by a quantity linear in the sum. */
  lemma {:induction false} DeviationShifts(points: seq<Vector>, assignment: seq<nat>, d: nat, c: nat, j: nat,
                                           u: real, v: real, i: nat)
    requires Shaped(points, d) && |assignment| == |points| && i <= |points| && j < d
    ensures Deviation(points, assignment, d, c, j, u, i) - Deviation(points, assignment, d, c, j, v, i) ==
              Times(u - v, Times(u + v, Count(assignment, c, i) as real) - 2.0 * Sum(points, assignment, d, c, j, i))
  {
    if i == 0 {
      TimesZero(u - v, u + v);
    } else {
      DeviationShifts(points, assignment, d, c, j, u, v, i - 1);
      if assignment[i - 1] == c {
        var n, s, x := Count(assignment, c, i - 1) as real, Sum(points, assignment, d, c, j, i - 1), points[i - 1][j];
        ShiftedSquare(x, u, v);
        TimesNext(u + v, n);
        TimesAdds(u - v, Times(u + v, n) - 2.0 * s, u + v - 2.0 * x);
        assert Count(assignment, c, i) as real == n + 1.0 && Sum(points, assignment, d, c, j, i) == s + x;
        hide *;
      }
    }
  }

  lemma TimesZero(a: real, b: real)
    ensures Times(a, Times(b, 0.0) - 2.0 * 0.0) == 0.0
  {
  }

  lemma TimesNext(a: real, n: real)
    ensures Times(a, n + 1.0) == Times(a, n) + a
  {
  }

  /** The mean minimises the deviation. */
  lemma MeanIsBest(points: seq<Vector>, assignment: seq<nat>, d: nat, c: nat, j: nat, v: real)
    requires Shaped(points, d) && |assignment| == |points| && j < d && Count(assignment, c, |points|) > 0
    ensures Deviation(points, assignment, d, c, j, MeanRow(points, assignment, d, c)[j], |points|) <=
              Deviation(points, assignment, d, c, j, v, |points|)
  {
    var n, s := Count(assignment, c, |points|) as real, Sum(points, assignment, d, c, j, |points|);
    var m := MeanRow(points, assignment, d, c)[j];
    assert m == Times(s, 1.0 / n);
    DeviationShifts(points, assignment, d, c, j, m, v, |points|);
    hide Deviation, Count, Sum, MeanRow;
    MeanGain(n, s, v);
  }

  lemma MeanGain(n: real, s: real, v: real)
    requires n > 0.0
    ensures var m := Times(s, 1.0 / n); Times(m - v, Times(m + v, n) - 2.0 * s) <= 0.0
  {
    var m := s * (1.0 / n);
    assert m * n == s by {
      assert (1.0 / n) * n == 1.0;
      assert s * ((1.0 / n) * n) == (s * (1.0 / n)) * n;
    }
    var e := m - v;
    assert (m + v) * n - 2.0 * s == -(e * n) by {
      assert (m + v) * n == m * n + v * n;
      assert e * n == m * n - v * n;
    }
    SquareTimes(e, n);
  }

  lemma SquareTimes(e: real, n: real)
    requires n > 0.0
    ensures e * (-(e * n)) <= 0.0
  {
    assert e * e >= 0.0;
    assert (e * e) * n >= 0.0;
    assert e * (-(e * n)) == -((e * e) * n);
  }

  /** Changing one coordinate of one centroid changes the error by the deviations of its cluster. */
  lemma {:induction false} ErrorShifts(points: seq<Vector>, assignment: seq<nat>, cents: seq<Vector>, d: nat,
                                       c: nat, j: nat, v: real, i: nat)
    requires Shaped(points, d) && Shaped(cents, d) && Assigns(assignment, |points|, |cents|) && i <= |points|
    requires c < |cents| && j < d
    ensures Shaped(cents[c := cents[c][j := v]], d)
    ensures Error(points, assignment, cents[c := cents[c][j := v]], d, i) ==
              Error(points, assignment, cents, d, i) +
              Deviation(points, assignment, d, c, j, v, i) - Deviation(points, assignment, d, c, j, cents[c][j], i)
  {
    if i > 0 {
      ErrorShifts(points, assignment, cents, d, c, j, v, i - 1);
      TermsUpdate(points[i - 1], cents[c], j, v, d);
      hide Sq, Terms;
    }
  }

  /** The centroid half way through its coordinate loop. */
  ghost function Mixed(row: Vector, mean: Vector, j: nat): (r: Vector)
    requires |row| == |mean| && j <= |row|
    ensures |r| == |row|
  {
    mean[..j] + row[j..]
  }

  lemma MixedStep(row: Vector, mean: Vector, j: nat)
    requires |row| == |mean| && j < |row|
    ensures Mixed(row, mean, j + 1) == Mixed(row, mean, j)[j := mean[j]]
    ensures Mixed(row, mean, 0) == row && Mixed(row, mean, |row|) == mean
  {
  }

  lemma MeanCoordinateDescends(points: seq<Vector>, assignment: seq<nat>, cents: seq<Vector>, d: nat, c: nat, j: nat)
    requires Shaped(points, d) && Shaped(cents, d) && Assigns(assignment, |points|, |cents|)
    requires c < |cents| && Count(assignment, c, |points|) > 0 && j < d
    ensures var now := cents[c := cents[c][j := MeanRow(points, assignment, d, c)[j]]];
            Shaped(now, d) && Error(points, assignment, now, d, |points|) <= Error(points, assignment, cents, d, |points|)
  {
    hide Deviation, Count, MeanRow, Error;
    ErrorShifts(points, assignment, cents, d, c, j, MeanRow(points, assignment, d, c)[j], |points|);
    MeanIsBest(points, assignment, d, c, j, cents[c][j]);
  }

  /** Moving a non-empty cluster's centroid to the mean, one coordinate at a time, never raises the error. */
  lemma {:induction false} MeanRowDescends(points: seq<Vector>, assignment: seq<nat>, cents: seq<Vector>, d: nat,
                                           c: nat, j: nat)
    requires Shaped(points, d) && Shaped(cents, d) && Assigns(assignment, |points|, |cents|)
    requires c < |cents| && Count(assignment, c, |points|) > 0 && j <= d
    ensures var now := cents[c := Mixed(cents[c], MeanRow(points, assignment, d, c), j)];
            Shaped(now, d) && Error(points, assignment, now, d, |points|) <= Error(points, assignment, cents, d, |points|)
  {
    hide Count, MeanRow, Error, Mixed;
    var mean := MeanRow(points, assignment, d, c);
    if j == 0 {
      MixedNone(cents, c, mean);
    } else {
      MeanRowDescends(points, assignment, cents, d, c, j - 1);
      var before := cents[c := Mixed(cents[c], mean, j - 1)];
      MixedStep(cents[c], mean, j - 1);
      MeanCoordinateDescends(points, assignment, before, d, c, j - 1);
      assert cents[c := Mixed(cents[c], mean, j)] == before[c := before[c][j - 1 := mean[j - 1]]];
    }
  }

  lemma MixedNone(cents: seq<Vector>, c: nat, mean: Vector)
    requires c < |cents| && |cents[c]| == |mean|
    ensures cents[c := Mixed(cents[c], mean, 0)] == cents
  {
    assert Mixed(cents[c], mean, 0) == cents[c];
  }

  /** No point is assigned to an empty cluster, so reseeding it changes no error. */
  lemma {:induction false} EmptyRowKeepsError(points: seq<Vector>, assignment: seq<nat>, cents: seq<Vector>, d: nat,
                                              c: nat, row: Vector, i: nat)
    requires Shaped(points, d) && Shaped(cents, d) && Assigns(assignment, |points|, |cents|) && i <= |points|
    requires c < |cents| && |row| == d && Count(assignment, c, i) == 0
    ensures Shaped(cents[c := row], d)
    ensures Error(points, assignment, cents[c := row], d, i) == Error(points, assignment, cents, d, i)
  {
    hide L2;
    if i > 0 {
      EmptyRowKeepsError(points, assignment, cents, d, c, row, i - 1);
    }
  }

  /** Recomputing the centroids never raises the error, reseeded clusters included. */
  lemma {:induction false} RecomputeDescends(points: seq<Vector>, assignment: seq<nat>, cents: seq<Vector>, d: nat, c: nat)
    requires points != [] && Shaped(points, d) && Shaped(cents, d) && Assigns(assignment, |points|, |cents|)
    requires c <= |cents|
    ensures Error(points, assignment, Recomputed(points, assignment, cents, d, c), d, |points|) <=
              Error(points, assignment, cents, d, |points|)
  {
    if c > 0 {
      RecomputeDescends(points, assignment, cents, d, c - 1);
      var before := Recomputed(points, assignment, cents, d, c - 1);
      assert Recomputed(points, assignment, cents, d, c) == before[c - 1 := NewRow(points, assignment, before, d, c - 1)];
      hide *;
      NewRowDescends(points, assignment, before, d, c - 1);
    }
  }

  lemma NewRowDescends(points: seq<Vector>, assignment: seq<nat>, cents: seq<Vector>, d: nat, c: nat)
    requires points != [] && Shaped(points, d) && Shaped(cents, d) && Assigns(assignment, |points|, |cents|) && c < |cents|
    ensures var now := cents[c := NewRow(points, assignment, cents, d, c)];
            Shaped(now, d) && Error(points, assignment, now, d, |points|) <= Error(points, assignment, cents, d, |points|)
  {
    var row := NewRow(points, assignment, cents, d, c);
    hide Error, Count, MeanRow, Farthest;
    if Count(assignment, c, |points|) == 0 {
      EmptyRowKeepsError(points, assignment, cents, d, c, row, |points|);
    } else {
      MeanRowDescends(points, assignment, cents, d, c, d);
      MixedStepAll(cents[c], row);
    }
  }

  lemma MixedStepAll(row: Vector, mean: Vector)
    requires |row| == |mean|
    ensures Mixed(row, mean, |row|) == mean
  {
  }

  /** One whole round of Lloyd's algorithm never raises the quantisation error. */
  lemma RoundDescends(points: seq<Vector>, cents: seq<Vector>, d: nat)
    requires points != [] && cents != [] && Shaped(points, d) && Shaped(cents, d)
    ensures var next := Recomputed(points, NearestAssignment(points, cents, d), cents, d, |cents|);
            NearestError(points, next, d) <= NearestError(points, cents, d)
  {
    hide Recomputed, Error, Nearest;
    var assignment := NearestAssignment(points, cents, d);
    var next := Recomputed(points, assignment, cents, d, |cents|);
    RecomputeDescends(points, assignment, cents, d, |cents|);
    NearestIsBest(points, assignment, next, d, |points|);
  }

  // ---- k-means++ start ----

  /** Squared distance of a point to the nearest of the first `c` chosen centroids. */
  ghost function MinDistance(p: Vector, cents: seq<Vector>, c: nat): real
    requires 1 <= c <= |cents| && Shaped(cents, |p|)
  {
    L2(p, cents[Nearest(p, cents, c)])
  }

  /** Running sum of those distances over the first `i` points. */
  ghost function Cumulative(points: seq<Vector>, cents: seq<Vector>, d: nat, c: nat, i: nat): (s: real)
    requires Shaped(points, d) && Shaped(cents, d) && 1 <= c <= |cents| && i <= |points|
    ensures s >= 0.0
  {
    if i == 0 then 0.0 else Cumulative(points, cents, d, c, i - 1) + MinDistance(points[i - 1], cents, c)
  }

  /** The weighted draw: the first point whose running sum reaches `unit` times the total. */
  ghost predicate Drawn(points: seq<Vector>, cents: seq<Vector>, d: nat, c: nat, uniform: nat, unit: real, chosen: nat)
    requires Shaped(points, d) && Shaped(cents, d) && 1 <= c <= |cents|
  {
    var total := Cumulative(points, cents, d, c, |points|);
    && chosen < |points|
    && (total <= 0.0 ==> chosen == uniform)
    && (total > 0.0 ==>
          && Cumulative(points, cents, d, c, chosen + 1) >= Times(unit, total)
          && forall i :: 1 <= i <= chosen ==> Cumulative(points, cents, d, c, i) < Times(unit, total))
  }

  /** A weighted draw repeats a chosen location exactly when the draw is zero and the first point already
      coincides with a centroid. */
  lemma DrawRepeatsIff(points: seq<Vector>, cents: seq<Vector>, d: nat, c: nat, uniform: nat, unit: real, chosen: nat)
    requires Shaped(points, d) && Shaped(cents, d) && 1 <= c <= |cents| && 0.0 <= unit
    requires Cumulative(points, cents, d, c, |points|) > 0.0
    requires Drawn(points, cents, d, c, uniform, unit, chosen)
    ensures MinDistance(points[chosen], cents, c) == 0.0 <==> unit == 0.0 && MinDistance(points[0], cents, c) == 0.0
  {
    var total := Cumulative(points, cents, d, c, |points|);
    assert Cumulative(points, cents, d, c, 1) == MinDistance(points[0], cents, c);
    assert Cumulative(points, cents, d, c, chosen + 1) ==
           Cumulative(points, cents, d, c, chosen) + MinDistance(points[chosen], cents, c);
    assert MinDistance(points[chosen], cents, c) >= 0.0;
    TargetSign(unit, total);
    hide MinDistance, Cumulative, Times, Shaped;
    assert chosen > 0 ==> Cumulative(points, cents, d, c, 1) < Times(unit, total);
    if chosen > 0 {
      assert Cumulative(points, cents, d, c, chosen) < Times(unit, total);
    }
  }

  lemma TargetSign(unit: real, total: real)
    requires 0.0 <= unit && total > 0.0
    ensures Times(unit, total) >= 0.0 && (Times(unit, total) == 0.0 <==> unit == 0.0)
  {
  }

  lemma MinDistanceStep(p: Vector, cents: seq<Vector>, c: nat)
    requires 1 <= c <= |cents| && Shaped(cents, |p|)
    ensures MinDistance(p, cents, c) ==
              if c > 1 && MinDistance(p, cents, c - 1) <= L2(p, cents[c - 1]) then MinDistance(p, cents, c - 1)
              else L2(p, cents[c - 1])
  {
    hide L2;
  }

  /** The running distances and their sum, updated against the centroid added last. */
  method UpdateDistances(points: seq<Vector>, cents: seq<Vector>, d: nat, c: nat, d2: array<Option<real>>)
    returns (sum: real)
    requires Shaped(points, d) && Shaped(cents, d) && 1 <= c <= |cents| && d2.Length == |points|
    requires forall i :: 0 <= i < |points| ==>
               d2[i] == if c == 1 then None else Some(MinDistance(points[i], cents, c - 1))
    modifies d2
    ensures forall i :: 0 <= i < |points| ==> d2[i] == Some(MinDistance(points[i], cents, c))
    ensures sum == Cumulative(points, cents, d, c, |points|)
  {
    hide L2, MinDistance;
    sum := 0.0;
    for i := 0 to |points|
      invariant forall j :: 0 <= j < i ==> d2[j] == Some(MinDistance(points[j], cents, c))
      invariant forall j :: i <= j < |points| ==> d2[j] == old(d2[j])
      invariant sum == Cumulative(points, cents, d, c, i)
    {
      MinDistanceStep(points[i], cents, c);
      var distance := L2(points[i], cents[c - 1]);
      if d2[i].None? || distance < d2[i].value {
        d2[i] := Some(distance);
      }
      sum := sum + d2[i].value;
    }
  }

  /** Choose the next centroid, weighted by the running distances. */
  method Draw(points: seq<Vector>, ghost cents: seq<Vector>, ghost d: nat, ghost c: nat, d2: array<Option<real>>, sum: real,
              uniform: nat, unit: real)
    returns (chosen: nat)
    requires points != [] && Shaped(points, d) && Shaped(cents, d) && 1 <= c <= |cents| && d2.Length == |points|
    requires forall i :: 0 <= i < |points| ==> d2[i] == Some(MinDistance(points[i], cents, c))
    requires sum == Cumulative(points, cents, d, c, |points|)
    requires uniform < |points| && 0.0 <= unit < 1.0
    ensures Drawn(points, cents, d, c, uniform, unit, chosen)
  {
    hide MinDistance, Times;
    if sum <= 0.0 {
      return uniform;
    }
    var target := Times(unit, sum);
    var acc := 0.0;
    chosen := |points| - 1;
    for i := 0 to |points|
      invariant acc == Cumulative(points, cents, d, c, i)
      invariant chosen == |points| - 1
      invariant forall j :: 1 <= j <= i ==> Cumulative(points, cents, d, c, j) < target
    {
      acc := acc + d2[i].value;
      if acc >= target {
        return i;
      }
    }
    TargetReached(unit, sum);
  }

  lemma TargetReached(unit: real, total: real)
    requires 0.0 <= unit < 1.0 && total > 0.0
    ensures Times(unit, total) < total
  {
    assert (1.0 - unit) * total > 0.0;
    assert (1.0 - unit) * total == total - unit * total;
  }

  /** How the start was chosen: every centroid is a point, each after the first by a weighted draw. */
  ghost predicate PlusPlus(points: seq<Vector>, d: nat, cents: seq<Vector>, picks: seq<nat>,
                           uniform: nat -> nat, unit: nat -> real)
  {
    && Shaped(points, d) && |picks| == |cents|
    && (forall c :: 0 <= c < |cents| ==> picks[c] < |points| && cents[c] == points[picks[c]])
    && Shaped(cents, d)
    && forall c :: 1 <= c < |cents| ==> Drawn(points, cents[..c], d, c, uniform(c), unit(c), picks[c])
  }

  lemma DrawnPrefix(points: seq<Vector>, cents: seq<Vector>, d: nat, c: nat)
    requires Shaped(points, d) && Shaped(cents, d) && 1 <= c <= |cents|
    ensures Shaped(cents[..c], d)
    ensures forall i :: 0 <= i < |points| ==> MinDistance(points[i], cents[..c], c) == MinDistance(points[i], cents, c)
  {
    forall i | 0 <= i < |points| ensures MinDistance(points[i], cents[..c], c) == MinDistance(points[i], cents, c) {
      NearestPrefix(points[i], cents, c, c);
    }
  }

  lemma {:induction false} NearestPrefix(p: Vector, cents: seq<Vector>, c: nat, k: nat)
    requires Shaped(cents, |p|) && 1 <= c <= k <= |cents|
    ensures Nearest(p, cents[..k], c) == Nearest(p, cents, c)
  {
    hide L2;
    if c > 1 {
      NearestPrefix(p, cents, c - 1, k);
    }
  }

  /** `kmeans_plus_plus_init`, for at least one cluster. */
  method KMeansPlusPlusInit(points: seq<Vector>, d: nat, k: nat, first: nat, uniform: nat -> nat, unit: nat -> real)
    returns (cents: seq<Vector>, ghost picks: seq<nat>)
    requires Shaped(points, d) && k >= 1 && first < |points|
    requires forall c: nat :: uniform(c) < |points| && 0.0 <= unit(c) < 1.0
    ensures |cents| == k && PlusPlus(points, d, cents, picks, uniform, unit) && picks[0] == first
  {
    hide Drawn, MinDistance, Cumulative;
    cents, picks := [points[first]], [first];
    var d2 := new Option<real>[|points|](_ => None);
    for c := 1 to k
      invariant |cents| == c && PlusPlus(points, d, cents, picks, uniform, unit) && picks[0] == first
      invariant forall i :: 0 <= i < |points| ==>
          d2[i] == if c == 1 then None else Some(MinDistance(points[i], cents, c - 1))
    {
      var sum := UpdateDistances(points, cents, d, c, d2);
      var next := Draw(points, cents, d, c, d2, sum, uniform(c), unit(c));
      DrawnInRange(points, cents, d, c, uniform(c), unit(c), next);
      PlusPlusNext(points, d, cents, picks, uniform, unit, next);
      DrawnPrefix(points, cents + [points[next]], d, c);
      assert (cents + [points[next]])[..c] == cents;
      cents := cents + [points[next]];
      picks := picks + [next];
    }
  }

  lemma DrawnInRange(points: seq<Vector>, cents: seq<Vector>, d: nat, c: nat, uniform: nat, unit: real, chosen: nat)
    requires Shaped(points, d) && Shaped(cents, d) && 1 <= c <= |cents|
    requires Drawn(points, cents, d, c, uniform, unit, chosen)
    ensures chosen < |points|
  {
  }

  lemma PlusPlusNext(points: seq<Vector>, d: nat, cents: seq<Vector>, picks: seq<nat>,
                     uniform: nat -> nat, unit: nat -> real, next: nat)
    requires PlusPlus(points, d, cents, picks, uniform, unit) && cents != [] && next < |points|
    requires Drawn(points, cents, d, |cents|, uniform(|cents|), unit(|cents|), next)
    ensures PlusPlus(points, d, cents + [points[next]], picks + [next], uniform, unit)
  {
    hide Drawn;
    var c, all := |cents|, cents + [points[next]];
    assert all[..c] == cents;
    forall o | 1 <= o < |all| ensures Drawn(points, all[..o], d, o, uniform(o), unit(o), (picks + [next])[o]) {
      if o < c {
        assert all[..o] == cents[..o];
      }
    }
  }

  // ---- training ----

  /** The random picks of one k-means run. */
  datatype Seeds = Seeds(first: nat, uniform: nat -> nat, unit: nat -> real, reseed: nat -> nat -> nat)
  {
    ghost predicate Fits(n: nat) {
      && first < n
      && (forall c: nat :: uniform(c) < n && 0.0 <= unit(c) < 1.0)
      && forall i, c: nat :: reseed(i)(c) < n
    }
  }

  /** `f` is the point farthest from its own centroid, the lowest index among equals. */
  ghost predicate IsFarthest(points: seq<Vector>, assignment: seq<nat>, cents: seq<Vector>, d: nat, f: nat)
    requires Shaped(points, d) && Shaped(cents, d) && Assigns(assignment, |points|, |cents|)
  {
    && f < |points|
    && forall o :: 0 <= o < |points| ==>
         && L2(points[o], cents[assignment[o]]) <= L2(points[f], cents[assignment[f]])
         && (o < f ==> L2(points[o], cents[assignment[o]]) < L2(points[f], cents[assignment[f]]))
  }

  /** The centroids when cluster `c` is about to be recomputed. */
  function Halfway(before: seq<Vector>, after: seq<Vector>, c: nat): (r: seq<Vector>)
    requires |before| == |after| && c <= |before|
    ensures |r| == |before| && forall o :: 0 <= o < |r| ==> r[o] == if o < c then after[o] else before[o]
  {
    after[..c] + before[c..]
  }

  /** What one round makes of cluster `c`: the mean of its points, or, if it has none, the point then farthest from its
      own centroid. */
  ghost predicate RowMoved(points: seq<Vector>, d: nat, a: seq<nat>, before: seq<Vector>, after: seq<Vector>, c: nat)
    requires Shaped(points, d) && Shaped(before, d) && Shaped(after, d) && |after| == |before|
    requires Assigns(a, |points|, |before|) && c < |after|
  {
    if Count(a, c, |points|) > 0 then after[c] == MeanRow(points, a, d, c)
    else exists f: nat :: IsFarthest(points, a, Halfway(before, after, c), d, f) && after[c] == points[f]
  }

  /** One Lloyd round: assign every point to its nearest centroid, then recompute every cluster. */
  ghost predicate Moved(points: seq<Vector>, d: nat, before: seq<Vector>, after: seq<Vector>) {
    && points != [] && before != [] && Shaped(points, d) && Shaped(before, d) && |after| == |before| && Shaped(after, d)
    && forall c :: 0 <= c < |after| ==> RowMoved(points, d, NearestAssignment(points, before, d), before, after, c)
  }

  /** Centroids one round apart. */
  ghost predicate Rounds(points: seq<Vector>, d: nat, states: seq<seq<Vector>>) {
    && Shaped(points, d) && states != [] && (forall j :: 0 <= j < |states| ==> states[j] != [] && Shaped(states[j], d))
    && forall i :: 0 <= i < |states| - 1 ==> Moved(points, d, states[i], states[i + 1])
  }

  /** The assignment round `i` starts from: every point in cluster 0 at first, then that of the round before. */
  ghost function AssignedBefore(points: seq<Vector>, d: nat, states: seq<seq<Vector>>, i: nat): seq<nat>
    requires i <= |states| && Rounds(points, d, states)
  {
    if i == 0 then seq(|points|, _ => 0) else NearestAssignment(points, states[i - 1], d)
  }

  /** Round `i` changes some point's assignment. */
  ghost predicate Changes(points: seq<Vector>, d: nat, states: seq<seq<Vector>>, i: nat)
    requires i < |states| && Rounds(points, d, states)
  {
    NearestAssignment(points, states[i], d) != AssignedBefore(points, d, states, i)
  }

  /** The centroids from start to end of training: at most `maxIters` rounds but at least one, the last of which is the
      first to change no assignment unless the rounds ran out. */
  ghost predicate LloydRun(points: seq<Vector>, d: nat, maxIters: nat, states: seq<seq<Vector>>) {
    && Rounds(points, d, states) && 2 <= |states| <= (if maxIters < 1 then 1 else maxIters) + 1
    && (forall i :: 0 <= i < |states| - 2 ==> Changes(points, d, states, i))
    && (|states| <= maxIters ==> !Changes(points, d, states, |states| - 2))
  }

  /** What training promises: the points themselves when there are few, otherwise the end of a Lloyd run from a
      k-means++ start, which quantises them no worse than that start. */
  ghost predicate WellTrained(points: seq<Vector>, d: nat, requested: nat, maxIters: nat, rows: seq<Vector>,
                              start: seq<Vector>, picks: seq<nat>, seeds: Seeds)
    requires Shaped(points, d) && requested >= 1
  {
    && Shaped(rows, d) && (|points| <= requested ==> rows == points)
    && (|points| > requested ==>
          && |rows| == |start| == |picks| == requested && picks[0] == seeds.first
          && PlusPlus(points, d, start, picks, seeds.uniform, seeds.unit)
          && Shaped(start, d)
          && NearestError(points, rows, d) <= NearestError(points, start, d)
          && exists states :: LloydRun(points, d, maxIters, states) && states[0] == start && states[|states| - 1] == rows)
  }

  lemma FarthestIs(points: seq<Vector>, assignment: seq<nat>, cents: seq<Vector>, d: nat)
    requires points != [] && Shaped(points, d) && Shaped(cents, d) && Assigns(assignment, |points|, |cents|)
    ensures IsFarthest(points, assignment, cents, d, Farthest(points, assignment, cents, d, |points|))
  {
    hide L2;
  }

  /** The recomputation reaches every cluster once, in turn, over the clusters recomputed before it. */
  lemma {:induction false} RecomputedRows(points: seq<Vector>, assignment: seq<nat>, cents: seq<Vector>, d: nat, c: nat, o: nat)
    requires points != [] && Shaped(points, d) && Shaped(cents, d) && Assigns(assignment, |points|, |cents|)
    requires c <= |cents| && o < |cents|
    ensures var r := Recomputed(points, assignment, cents, d, c);
            && (o >= c ==> r[o] == cents[o])
            && (o < c ==> r[o] == NewRow(points, assignment, Recomputed(points, assignment, cents, d, o), d, o))
    ensures o < c ==> Recomputed(points, assignment, cents, d, c)[o] == Recomputed(points, assignment, cents, d, o + 1)[o]
  {
    hide NewRow;
    if c > 0 {
      RecomputedRows(points, assignment, cents, d, c - 1, o);
    }
  }

  lemma RecomputedHalfway(points: seq<Vector>, assignment: seq<nat>, cents: seq<Vector>, d: nat, c: nat)
    requires points != [] && Shaped(points, d) && Shaped(cents, d) && Assigns(assignment, |points|, |cents|) && c <= |cents|
    ensures Recomputed(points, assignment, cents, d, c) ==
              Halfway(cents, Recomputed(points, assignment, cents, d, |cents|), c)
  {
    hide Recomputed, NewRow;
    var all, part := Recomputed(points, assignment, cents, d, |cents|), Recomputed(points, assignment, cents, d, c);
    forall o | 0 <= o < |cents| ensures part[o] == Halfway(cents, all, c)[o] {
      RecomputedRows(points, assignment, cents, d, c, o);
      RecomputedRows(points, assignment, cents, d, |cents|, o);
    }
  }

  lemma RecomputedMoves(points: seq<Vector>, cents: seq<Vector>, d: nat)
    requires points != [] && cents != [] && Shaped(points, d) && Shaped(cents, d)
    ensures Moved(points, d, cents, Recomputed(points, NearestAssignment(points, cents, d), cents, d, |cents|))
  {
    hide Recomputed, NearestAssignment, RowMoved;
    var a := NearestAssignment(points, cents, d);
    forall c | 0 <= c < |cents|
      ensures RowMoved(points, d, a, cents, Recomputed(points, a, cents, d, |cents|), c)
    {
      RecomputedRow(points, a, cents, d, c);
    }
  }

  lemma RecomputedRow(points: seq<Vector>, a: seq<nat>, cents: seq<Vector>, d: nat, c: nat)
    requires points != [] && Shaped(points, d) && Shaped(cents, d) && Assigns(a, |points|, |cents|) && c < |cents|
    ensures RowMoved(points, d, a, cents, Recomputed(points, a, cents, d, |cents|), c)
  {
    hide Recomputed, MeanRow, Count, Farthest, IsFarthest, Halfway;
    RecomputedRows(points, a, cents, d, |cents|, c);
    RecomputedHalfway(points, a, cents, d, c);
    FarthestIs(points, a, Recomputed(points, a, cents, d, c), d);
  }

  /** A run so far, all of whose rounds changed an assignment. */
  ghost predicate Running(points: seq<Vector>, d: nat, states: seq<seq<Vector>>) {
    Rounds(points, d, states) && forall i :: 0 <= i < |states| - 1 ==> Changes(points, d, states, i)
  }

  /** The assignment array between two rounds. */
  ghost predicate Holds(points: seq<Vector>, d: nat, states: seq<seq<Vector>>, assignment: seq<nat>)
    requires Running(points, d, states)
  {
    assignment == AssignedBefore(points, d, states, |states| - 1)
  }

  lemma RunStarts(points: seq<Vector>, d: nat, start: seq<Vector>, assignment: seq<nat>)
    requires Shaped(points, d) && start != [] && Shaped(start, d) && assignment == seq(|points|, _ => 0)
    ensures Running(points, d, [start]) && Holds(points, d, [start], assignment)
  {
  }

  lemma OneMoreRound(points: seq<Vector>, d: nat, states: seq<seq<Vector>>, after: seq<Vector>)
    requires Rounds(points, d, states) && Moved(points, d, states[|states| - 1], after)
    ensures Rounds(points, d, states + [after])
  {
    hide Moved, Shaped;
    MovedShape(points, d, states[|states| - 1], after);
    var more := states + [after];
    forall i | 0 <= i < |more| - 1 ensures Moved(points, d, more[i], more[i + 1]) {
      assert more[i] == states[i];
    }
  }

  lemma RunRounds(points: seq<Vector>, d: nat, states: seq<seq<Vector>>)
    requires Running(points, d, states)
    ensures Rounds(points, d, states) && forall i :: 0 <= i < |states| - 1 ==> Changes(points, d, states, i)
  {
  }

  lemma SameBefore(points: seq<Vector>, d: nat, states: seq<seq<Vector>>, after: seq<Vector>, i: nat)
    requires Rounds(points, d, states) && Rounds(points, d, states + [after]) && i < |states|
    ensures Changes(points, d, states + [after], i) <==> Changes(points, d, states, i)
  {
    hide NearestAssignment, Rounds;
    RoundsShaped(points, d, states);
    var more := states + [after];
    assert more[i] == states[i] && (i > 0 ==> more[i - 1] == states[i - 1]);
  }

  lemma RoundsShaped(points: seq<Vector>, d: nat, states: seq<seq<Vector>>)
    requires Rounds(points, d, states)
    ensures Shaped(points, d) && states != [] && forall j :: 0 <= j < |states| ==> states[j] != [] && Shaped(states[j], d)
  {
  }

  /** One more round: the run goes on if it changed an assignment and rounds are left, and ends otherwise. */
  lemma RunMoves(points: seq<Vector>, d: nat, maxIters: nat, states: seq<seq<Vector>>, before: seq<nat>, after: seq<Vector>)
    requires Running(points, d, states) && Holds(points, d, states, before)
    requires |states| <= (if maxIters < 1 then 1 else maxIters)
    requires Moved(points, d, states[|states| - 1], after)
    ensures states[|states| - 1] != [] && Shaped(states[|states| - 1], d) && Shaped(points, d)
    ensures var a := NearestAssignment(points, states[|states| - 1], d);
            && (before != a ==> Running(points, d, states + [after]) && Holds(points, d, states + [after], a))
            && (before == a || |states| == (if maxIters < 1 then 1 else maxIters) ==>
                  LloydRun(points, d, maxIters, states + [after]))
  {
    hide Moved, NearestAssignment, Shaped, Rounds, Changes;
    RunRounds(points, d, states);
    RoundsShaped(points, d, states);
    OneMoreRound(points, d, states, after);
    var last := |states| - 1;
    forall i | 0 <= i <= last ensures Changes(points, d, states + [after], i) <==> Changes(points, d, states, i) {
      SameBefore(points, d, states, after, i);
    }
    ChangesIff(points, d, states, before);
    NextHolds(points, d, states, after);
  }

  lemma ChangesIff(points: seq<Vector>, d: nat, states: seq<seq<Vector>>, before: seq<nat>)
    requires Running(points, d, states) && Holds(points, d, states, before)
    ensures states[|states| - 1] != [] && Shaped(states[|states| - 1], d) && Shaped(points, d)
    ensures Changes(points, d, states, |states| - 1) <==> before != NearestAssignment(points, states[|states| - 1], d)
  {
    hide Moved, NearestAssignment;
  }

  lemma NextHolds(points: seq<Vector>, d: nat, states: seq<seq<Vector>>, after: seq<Vector>)
    requires Rounds(points, d, states) && Rounds(points, d, states + [after])
    ensures states[|states| - 1] != [] && Shaped(states[|states| - 1], d) && Shaped(points, d)
    ensures AssignedBefore(points, d, states + [after], |states|) == NearestAssignment(points, states[|states| - 1], d)
  {
    hide Moved, NearestAssignment;
  }

  lemma MovedShape(points: seq<Vector>, d: nat, before: seq<Vector>, after: seq<Vector>)
    requires Moved(points, d, before, after)
    ensures |after| == |before| > 0 && Shaped(after, d) && Shaped(before, d)
  {
  }

  lemma TrainedNow(points: seq<Vector>, d: nat, requested: nat, maxIters: nat, rows: seq<Vector>, start: seq<Vector>,
                   picks: seq<nat>, seeds: Seeds, states: seq<seq<Vector>>)
    requires Shaped(points, d) && Shaped(rows, d) && requested >= 1
    requires |points| <= requested ==> rows == points
    requires |points| > requested ==>
               && |rows| == |start| == requested && PlusPlus(points, d, start, picks, seeds.uniform, seeds.unit)
               && picks[0] == seeds.first
               && NearestError(points, rows, d) <= NearestError(points, start, d)
               && LloydRun(points, d, maxIters, states) && states[0] == start && states[|states| - 1] == rows
    ensures WellTrained(points, d, requested, maxIters, rows, start, picks, seeds)
  {
    hide LloydRun;
    if |points| > requested {
      PlusPlusShaped(points, d, start, picks, seeds.uniform, seeds.unit);
    }
  }

  lemma SeedsFit(seeds: Seeds, n: nat)
    requires seeds.Fits(n)
    ensures seeds.first < n
    ensures forall c: nat :: seeds.uniform(c) < n && 0.0 <= seeds.unit(c) < 1.0
    ensures forall i, c: nat :: seeds.reseed(i)(c) < n
  {
  }

  lemma SizeOfTrained(points: seq<Vector>, d: nat, requested: nat, maxIters: nat, rows: seq<Vector>, start: seq<Vector>,
                      picks: seq<nat>, seeds: Seeds)
    requires Shaped(points, d) && requested >= 1 && points != []
    requires WellTrained(points, d, requested, maxIters, rows, start, picks, seeds)
    ensures Shaped(rows, d) && 1 <= |rows| <= requested && |rows| <= |points|
    ensures |rows| == requested || rows == points
  {
  }

  /** `train`: the points themselves when there are at most `k`, else Lloyd rounds from a k-means++ start
      until no assignment changes or the rounds run out. The result quantises no worse than the start. */
  method Train(points: seq<Vector>, d: nat, k: nat, maxIters: nat, seeds: Seeds)
    returns (cents: array<Vector>, ghost start: seq<Vector>, ghost picks: seq<nat>)
    requires Shaped(points, d) && k >= 1 && (points != [] ==> seeds.Fits(|points|))
    ensures fresh(cents) && WellTrained(points, d, k, maxIters, cents[..], start, picks, seeds)
  {
    hide PlusPlus, Recomputed, NearestError, NearestAssignment, WellTrained, Seeds.Fits, Running, Holds, LloydRun, Moved;
    start, picks := [], [];
    if |points| <= k {
      cents := new Vector[|points|](i requires 0 <= i < |points| => points[i]);
      assert cents[..] == points;
      TrainedNow(points, d, k, maxIters, cents[..], start, picks, seeds, []);
      return;
    }
    SeedsFit(seeds, |points|);
    var init;
    init, picks := KMeansPlusPlusInit(points, d, k, seeds.first, seeds.uniform, seeds.unit);
    start := init;
    PlusPlusShaped(points, d, init, picks, seeds.uniform, seeds.unit);
    cents := new Vector[k](i requires 0 <= i < |init| => init[i]);
    assert cents[..] == init;
    var assignment := new nat[|points|](_ => 0);
    assert assignment[..] == seq(|points|, _ => 0);
    ghost var states := [start];
    RunStarts(points, d, start, assignment[..]);
    var rounds := if maxIters < 1 then 1 else maxIters;
    for round := 0 to rounds
      modifies cents, assignment
      invariant Shaped(cents[..], d) && NearestError(points, cents[..], d) <= NearestError(points, start, d)
      invariant |states| == round + 1 && states[0] == start && states[round] == cents[..]
      invariant round < rounds ==> Running(points, d, states) && Holds(points, d, states, assignment[..])
      invariant round == rounds ==> LloydRun(points, d, maxIters, states)
    {
      ghost var before := assignment[..];
      RoundDescends(points, cents[..], d);
      RecomputedMoves(points, cents[..], d);
      var changed := AssignAll(points, cents[..], d, assignment);
      RecomputeCentroids(points, assignment[..], cents, d, seeds.reseed(round));
      RunMoves(points, d, maxIters, states, before, cents[..]);
      states := states + [cents[..]];
      if !changed {
        break;
      }
    }
    TrainedNow(points, d, k, maxIters, cents[..], start, picks, seeds, states);
  }

  lemma PlusPlusShaped(points: seq<Vector>, d: nat, cents: seq<Vector>, picks: seq<nat>,
                       uniform: nat -> nat, unit: nat -> real)
    requires PlusPlus(points, d, cents, picks, uniform, unit)
    ensures Shaped(cents, d)
  {
  }
}
