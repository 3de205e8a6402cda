/** The random picks decide a trained set of centroids. */
module KMeansDeterminism {
  import opened Distance
  import opened KMeans

  // ---- the start ----

  lemma DrawnSame(points: seq<Vector>, cents: seq<Vector>, d: nat, c: nat, uniform: nat, unit: real, a: nat, b: nat)
    requires Shaped(points, d) && Shaped(cents, d) && 1 <= c <= |cents|
    requires Drawn(points, cents, d, c, uniform, unit, a) && Drawn(points, cents, d, c, uniform, unit, b)
    ensures a == b
  {
    hide Cumulative, Times;
    var total := Cumulative(points, cents, d, c, |points|);
    if total > 0.0 {
      NotBefore(points, cents, d, c, uniform, unit, a, b);
      NotBefore(points, cents, d, c, uniform, unit, b, a);
    }
  }

  /** The draw takes the first point that reaches the target. */
  lemma NotBefore(points: seq<Vector>, cents: seq<Vector>, d: nat, c: nat, uniform: nat, unit: real, a: nat, b: nat)
    requires Shaped(points, d) && Shaped(cents, d) && 1 <= c <= |cents|
    requires Drawn(points, cents, d, c, uniform, unit, a) && Drawn(points, cents, d, c, uniform, unit, b)
    requires Cumulative(points, cents, d, c, |points|) > 0.0
    ensures a >= b
  {
    hide Cumulative, Times;
  }

  lemma {:induction false} StartSame(points: seq<Vector>, d: nat, a: seq<Vector>, picksA: seq<nat>, b: seq<Vector>,
                                     picksB: seq<nat>, uniform: nat -> nat, unit: nat -> real, c: nat)
    requires PlusPlus(points, d, a, picksA, uniform, unit) && PlusPlus(points, d, b, picksB, uniform, unit)
    requires |a| == |b| > 0 && picksA[0] == picksB[0] && c <= |a|
    ensures a[..c] == b[..c] && picksA[..c] == picksB[..c]
  {
    hide Drawn;
    if c > 0 {
      StartSame(points, d, a, picksA, b, picksB, uniform, unit, c - 1);
      var i := c - 1;
      if i > 0 {
        assert Drawn(points, a[..i], d, i, uniform(i), unit(i), picksA[i]);
        assert Drawn(points, b[..i], d, i, uniform(i), unit(i), picksB[i]);
        DrawnSame(points, a[..i], d, i, uniform(i), unit(i), picksA[i], picksB[i]);
      }
      assert a[..c] == a[..i] + [a[i]] && b[..c] == b[..i] + [b[i]];
      assert picksA[..c] == picksA[..i] + [picksA[i]] && picksB[..c] == picksB[..i] + [picksB[i]];
    }
  }

  // ---- the rounds ----

  lemma FarthestSame(points: seq<Vector>, assignment: seq<nat>, cents: seq<Vector>, d: nat, f: nat, g: nat)
    requires Shaped(points, d) && Shaped(cents, d) && Assigns(assignment, |points|, |cents|)
    requires IsFarthest(points, assignment, cents, d, f) && IsFarthest(points, assignment, cents, d, g)
    ensures f == g
  {
    hide L2;
    var x, y := L2(points[f], cents[assignment[f]]), L2(points[g], cents[assignment[g]]);
    assert x <= y && (f < g ==> x < y);
    assert y <= x && (g < f ==> y < x);
  }

  /** Cluster by cluster, since each is recomputed over those before it. */
  lemma {:induction false} MovedSame(points: seq<Vector>, d: nat, before: seq<Vector>, a: seq<Vector>, b: seq<Vector>, c: nat)
    requires Moved(points, d, before, a) && Moved(points, d, before, b) && c <= |before|
    ensures a[..c] == b[..c]
  {
    hide RowMoved, NearestAssignment;
    if c > 0 {
      MovedSame(points, d, before, a, b, c - 1);
      RowSame(points, d, NearestAssignment(points, before, d), before, a, b, c - 1);
      assert a[..c] == a[..c - 1] + [a[c - 1]] && b[..c] == b[..c - 1] + [b[c - 1]];
    }
  }

  lemma RowSame(points: seq<Vector>, d: nat, assignment: seq<nat>, before: seq<Vector>, a: seq<Vector>, b: seq<Vector>, c: nat)
    requires Shaped(points, d) && Shaped(before, d) && Shaped(a, d) && Shaped(b, d) && |a| == |b| == |before|
    requires Assigns(assignment, |points|, |before|) && c < |a| && a[..c] == b[..c]
    requires RowMoved(points, d, assignment, before, a, c) && RowMoved(points, d, assignment, before, b, c)
    ensures a[c] == b[c]
  {
    hide Count, MeanRow, L2;
    assert Halfway(before, a, c) == Halfway(before, b, c);
    if Count(assignment, c, |points|) == 0 {
      var f: nat :| IsFarthest(points, assignment, Halfway(before, a, c), d, f) && a[c] == points[f];
      var g: nat :| IsFarthest(points, assignment, Halfway(before, b, c), d, g) && b[c] == points[g];
      FarthestSame(points, assignment, Halfway(before, a, c), d, f, g);
    }
  }

  lemma {:induction false} StatesSame(points: seq<Vector>, d: nat, a: seq<seq<Vector>>, b: seq<seq<Vector>>, i: nat)
    requires Rounds(points, d, a) && Rounds(points, d, b) && a[0] == b[0] && i < |a| && i < |b|
    ensures a[i] == b[i]
  {
    hide *;
    if i > 0 {
      StatesSame(points, d, a, b, i - 1);
      OneRound(points, d, a, i);
      OneRound(points, d, b, i);
      RoundSame(points, d, a[i - 1], a[i], b[i]);
    }
  }

  lemma OneRound(points: seq<Vector>, d: nat, states: seq<seq<Vector>>, i: nat)
    requires Rounds(points, d, states) && 0 < i < |states|
    ensures Moved(points, d, states[i - 1], states[i])
  {
    hide Moved;
    var j := i - 1;
    assert Moved(points, d, states[j], states[j + 1]);
  }

  lemma RoundSame(points: seq<Vector>, d: nat, before: seq<Vector>, a: seq<Vector>, b: seq<Vector>)
    requires Moved(points, d, before, a) && Moved(points, d, before, b)
    ensures a == b
  {
    MovedSame(points, d, before, a, b, |before|);
    assert a[..|before|] == a && b[..|before|] == b;
  }

  lemma ChangesSame(points: seq<Vector>, d: nat, a: seq<seq<Vector>>, b: seq<seq<Vector>>, i: nat)
    requires Rounds(points, d, a) && Rounds(points, d, b) && a[0] == b[0] && i < |a| && i < |b|
    ensures Changes(points, d, a, i) <==> Changes(points, d, b, i)
  {
    StatesSame(points, d, a, b, i);
    if i > 0 {
      StatesSame(points, d, a, b, i - 1);
    }
    hide Moved, NearestAssignment;
  }

  /** A run cannot stop where another goes on. */
  lemma NotLonger(points: seq<Vector>, d: nat, maxIters: nat, a: seq<seq<Vector>>, b: seq<seq<Vector>>)
    requires LloydRun(points, d, maxIters, a) && LloydRun(points, d, maxIters, b) && a[0] == b[0]
    ensures |a| >= |b|
  {
    hide Rounds, Changes;
    if |a| < |b| {
      ChangesSame(points, d, a, b, |a| - 2);
    }
  }

  lemma RunsSame(points: seq<Vector>, d: nat, maxIters: nat, a: seq<seq<Vector>>, b: seq<seq<Vector>>)
    requires LloydRun(points, d, maxIters, a) && LloydRun(points, d, maxIters, b) && a[0] == b[0]
    ensures a == b
  {
    NotLonger(points, d, maxIters, a, b);
    NotLonger(points, d, maxIters, b, a);
    hide Rounds, Changes;
    forall i | 0 <= i < |a| ensures a[i] == b[i] {
      StatesSame(points, d, a, b, i);
    }
  }

  /** The picks decide the start, the number of rounds and the trained centroids. */
  lemma TrainingIsDeterministic(points: seq<Vector>, d: nat, k: nat, maxIters: nat, seeds: Seeds,
                                a: seq<Vector>, startA: seq<Vector>, picksA: seq<nat>,
                                b: seq<Vector>, startB: seq<Vector>, picksB: seq<nat>)
    requires Shaped(points, d) && k >= 1
    requires WellTrained(points, d, k, maxIters, a, startA, picksA, seeds)
    requires WellTrained(points, d, k, maxIters, b, startB, picksB, seeds)
    ensures a == b
  {
    hide PlusPlus, Rounds, Changes, NearestError;
    if |points| > k {
      StartSame(points, d, startA, picksA, startB, picksB, seeds.uniform, seeds.unit, k);
      assert startA[..k] == startA && startB[..k] == startB;
      var statesA :| LloydRun(points, d, maxIters, statesA) && statesA[0] == startA && statesA[|statesA| - 1] == a;
      var statesB :| LloydRun(points, d, maxIters, statesB) && statesB[0] == startB && statesB[|statesB| - 1] == b;
      RunsSame(points, d, maxIters, statesA, statesB);
    }
  }
}
