/** Training on points that lie at exactly as many places as centroids are asked for: the places come back. */
module KMeansPlaces {
  import opened Distance
  import opened KMeans
  import Sets = Nearest

  ghost function Places(points: seq<Vector>): set<Vector> {
    set i | 0 <= i < |points| :: points[i]
  }

  // ---- distance zero ----

  lemma SqZero(x: real)
    ensures Sq(x) == 0.0 <==> x == 0.0
  {
    hide *;
    SqIsTimes(x);
    TimesSign(x, x);
  }

  lemma SqIsTimes(x: real)
    ensures Sq(x) == Times(x, x)
  {
  }

  lemma TimesSign(a: real, b: real)
    requires (a > 0.0 && b > 0.0) || (a < 0.0 && b < 0.0) || (a == 0.0 && b == 0.0)
    ensures Times(a, b) == 0.0 <==> a == 0.0
  {
    if a < 0.0 {
      assert (0.0 - a) * (0.0 - b) > 0.0;
    }
  }

  lemma {:induction false} TermsZero(p: Vector, q: Vector, j: nat)
    requires j <= |p| == |q|
    ensures Terms(p, q, j) == 0.0 <==> p[..j] == q[..j]
  {
    if j > 0 {
      TermsZero(p, q, j - 1);
      SqZero(p[j - 1] - q[j - 1]);
      assert p[..j] == p[..j - 1] + [p[j - 1]] && q[..j] == q[..j - 1] + [q[j - 1]];
    }
  }

  lemma L2Zero(p: Vector, q: Vector)
    requires |p| == |q|
    ensures L2(p, q) == 0.0 <==> p == q
  {
    TermsZero(p, q, |p|);
    assert p[..|p|] == p && q[..|q|] == q;
  }

  // ---- the start ----

  /** A point coincides with one of the first `c` centroids exactly when its distance to them is zero. */
  lemma MinDistanceZero(p: Vector, cents: seq<Vector>, c: nat)
    requires 1 <= c <= |cents| && Shaped(cents, |p|)
    ensures MinDistance(p, cents, c) >= 0.0
    ensures MinDistance(p, cents, c) == 0.0 <==> exists o :: 0 <= o < c && cents[o] == p
  {
    hide L2;
    forall o | 0 <= o < c ensures L2(p, cents[o]) == 0.0 <==> cents[o] == p {
      L2Zero(p, cents[o]);
    }
  }

  lemma {:induction false} CumulativeAtLeast(points: seq<Vector>, cents: seq<Vector>, d: nat, c: nat, i: nat, p: nat)
    requires Shaped(points, d) && Shaped(cents, d) && 1 <= c <= |cents| && p < i <= |points|
    ensures Cumulative(points, cents, d, c, i) >= MinDistance(points[p], cents, c)
  {
    MinDistanceZero(points[i - 1], cents, c);
    hide MinDistance;
    if p < i - 1 {
      CumulativeAtLeast(points, cents, d, c, i - 1, p);
    }
  }

  /** A prefix shorter than the number of places misses a point. */
  lemma SomePointMissing(points: seq<Vector>, cents: seq<Vector>) returns (p: nat)
    requires |cents| < |Places(points)|
    ensures p < |points| && points[p] !in cents
  {
    PlacesSize(cents);
    if Places(points) <= Places(cents) {
      Sets.SubsetSize(Places(points), Places(cents));
    }
    var x :| x in Places(points) && x !in Places(cents);
    p :| p < |points| && points[p] == x;
  }

  lemma {:induction false} PlacesSize(s: seq<Vector>)
    ensures |Places(s)| <= |s|
  {
    if s != [] {
      var rest, last := s[..|s| - 1], s[|s| - 1];
      PlacesSize(rest);
      assert Places(s) == Places(rest) + {last};
    }
  }

  /** A draw above zero, while some point is off the chosen places, chooses a new place. */
  lemma DrawIsNew(points: seq<Vector>, cents: seq<Vector>, d: nat, uniform: nat, unit: real, chosen: nat)
    requires Shaped(points, d) && Shaped(cents, d) && 1 <= |cents| < |Places(points)| && unit > 0.0
    requires Drawn(points, cents, d, |cents|, uniform, unit, chosen)
    ensures points[chosen] !in cents
  {
    var c := |cents|;
    var p := SomePointMissing(points, cents);
    MinDistanceZero(points[p], cents, c);
    CumulativeAtLeast(points, cents, d, c, |points|, p);
    DrawRepeatsIff(points, cents, d, c, uniform, unit, chosen);
    MinDistanceZero(points[chosen], cents, c);
  }

  /** With enough places and no draw of zero, k-means++ starts from different places. */
  lemma StartIsDistinct(points: seq<Vector>, d: nat, start: seq<Vector>, picks: seq<nat>,
                        uniform: nat -> nat, unit: nat -> real, a: nat, b: nat)
    requires PlusPlus(points, d, start, picks, uniform, unit) && |start| <= |Places(points)|
    requires (forall c: nat :: unit(c) > 0.0) && a < b < |start|
    ensures start[a] != start[b]
  {
    assert Drawn(points, start[..b], d, b, uniform(b), unit(b), picks[b]);
    DrawIsNew(points, start[..b], d, uniform(b), unit(b), picks[b]);
    assert start[..b][a] == start[a];
  }

  lemma {:induction false} DistinctPlaces(s: seq<Vector>)
    requires forall a, b :: 0 <= a < b < |s| ==> s[a] != s[b]
    ensures |Places(s)| == |s|
  {
    if s != [] {
      var rest, last := s[..|s| - 1], s[|s| - 1];
      DistinctPlaces(rest);
      assert Places(s) == Places(rest) + {last} && last !in Places(rest);
    }
  }

  /** As many places as vectors: no place is taken twice. */
  lemma PlacesDistinct(s: seq<Vector>, a: nat, b: nat)
    requires |Places(s)| == |s| && a < b < |s|
    ensures s[a] != s[b]
  {
    if s[a] == s[b] {
      var rest := s[..b] + s[b + 1..];
      forall x | x in Places(s) ensures x in Places(rest) {
        var i :| 0 <= i < |s| && s[i] == x;
        var j := if i == b then a else if i < b then i else i - 1;
        assert rest[j] == x;
      }
      Sets.SubsetSize(Places(s), Places(rest));
      PlacesSize(rest);
    }
  }

  // ---- the error ----

  lemma ErrorStart(points: seq<Vector>, cents: seq<Vector>, d: nat)
    requires cents != [] && Shaped(points, d) && Shaped(cents, d)
    ensures Error(points, NearestAssignment(points, cents, d), cents, d, 0) == 0.0
  {
  }

  lemma ErrorStep(points: seq<Vector>, cents: seq<Vector>, d: nat, i: nat)
    requires cents != [] && Shaped(points, d) && Shaped(cents, d) && 0 < i <= |points|
    ensures var assignment := NearestAssignment(points, cents, d);
            && Error(points, assignment, cents, d, i) ==
                 Error(points, assignment, cents, d, i - 1) + MinDistance(points[i - 1], cents, |cents|)
            && Error(points, assignment, cents, d, i - 1) >= 0.0
  {
    hide L2;
  }

  lemma PointPlaced(p: Vector, cents: seq<Vector>)
    requires cents != [] && Shaped(cents, |p|)
    ensures MinDistance(p, cents, |cents|) >= 0.0 && (MinDistance(p, cents, |cents|) == 0.0 <==> p in cents)
  {
    MinDistanceZero(p, cents, |cents|);
    hide MinDistance;
  }

  lemma {:induction false} ErrorZero(points: seq<Vector>, cents: seq<Vector>, d: nat, i: nat)
    requires cents != [] && Shaped(points, d) && Shaped(cents, d) && i <= |points|
    ensures Error(points, NearestAssignment(points, cents, d), cents, d, i) == 0.0 <==>
              forall p :: 0 <= p < i ==> points[p] in cents
  {
    hide Error, L2, Nearest, NearestAssignment, MinDistance;
    if i == 0 {
      ErrorStart(points, cents, d);
    } else {
      ErrorZero(points, cents, d, i - 1);
      ErrorStep(points, cents, d, i);
      PointPlaced(points[i - 1], cents);
    }
  }

  /** The quantisation error is zero exactly when there is a centroid at every point's place. */
  lemma ErrorZeroIff(points: seq<Vector>, cents: seq<Vector>, d: nat)
    requires cents != [] && Shaped(points, d) && Shaped(cents, d)
    ensures NearestError(points, cents, d) >= 0.0
    ensures NearestError(points, cents, d) == 0.0 <==> Places(points) <= Places(cents)
  {
    ErrorZero(points, cents, d, |points|);
    hide Error;
    if Places(points) <= Places(cents) {
      forall p | 0 <= p < |points| ensures points[p] in cents {
        assert points[p] in Places(points);
      }
    }
  }

  /** More points than centroids, at exactly as many places, and no draw of zero: the trained centroids are those
      places, each once. */
  lemma TrainingFindsPlaces(points: seq<Vector>, d: nat, k: nat, maxIters: nat, cents: seq<Vector>, start: seq<Vector>,
                            picks: seq<nat>, seeds: Seeds)
    requires Shaped(points, d) && k >= 1 && |Places(points)| == k < |points|
    requires WellTrained(points, d, k, maxIters, cents, start, picks, seeds) && forall c: nat :: seeds.unit(c) > 0.0
    ensures |cents| == k && Places(cents) == Places(points)
  {
    assert PlusPlus(points, d, start, picks, seeds.uniform, seeds.unit) && Shaped(start, d) && Shaped(cents, d);
    forall a, b | 0 <= a < b < |start| ensures start[a] != start[b] {
      StartIsDistinct(points, d, start, picks, seeds.uniform, seeds.unit, a, b);
    }
    DistinctPlaces(start);
    StartIsPoints(points, d, start, picks, seeds);
    Sets.SubsetOfSameSize(Places(start), Places(points));
    ErrorZeroIff(points, start, d);
    ErrorZeroIff(points, cents, d);
    PlacesSize(cents);
    hide PlusPlus, NearestError, Seeds.Fits;
    Sets.SubsetOfSameSize(Places(points), Places(cents));
  }

  lemma StartIsPoints(points: seq<Vector>, d: nat, start: seq<Vector>, picks: seq<nat>, seeds: Seeds)
    requires PlusPlus(points, d, start, picks, seeds.uniform, seeds.unit)
    ensures Places(start) <= Places(points)
  {
  }
}
