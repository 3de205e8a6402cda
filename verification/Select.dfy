/** Keeping the closest of a neighbour list. */
module Select {
  import opened Ranking
  import opened Nearest
  import opened IdLists

  function IdsOf(s: seq<Neighbor>): (r: seq<nat>)
    ensures |r| == |s| && forall i :: 0 <= i < |s| ==> r[i] == s[i].id
  {
    seq(|s|, i requires 0 <= i < |s| => s[i].id)
  }

  /** A candidate list: the listed ids with their scores. */
  function Scored(sc: seq<real>, ids: seq<nat>): (r: seq<Neighbor>)
    requires Listed(|sc|, ids)
    ensures |r| == |ids| && forall i :: 0 <= i < |ids| ==> r[i] == At(sc, ids[i])
  {
    seq(|ids|, i requires 0 <= i < |ids| => At(sc, ids[i]))
  }

  /** `select_neighbors`: sort by (score, id), keep the first `cap` ids. */
  function SelectNeighbors(candidates: seq<Neighbor>, cap: nat): seq<nat> {
    var sorted := Sort(candidates);
    IdsOf(if |sorted| <= cap then sorted else sorted[..cap])
  }

  function SelectClosest(sc: seq<real>, ids: seq<nat>, cap: nat): seq<nat>
    requires Listed(|sc|, ids)
  {
    SelectNeighbors(Scored(sc, ids), cap)
  }

  lemma {:induction false} ScoredAsRecords(sc: seq<real>, ids: seq<nat>)
    requires Listed(|sc|, ids) && Distinct(ids)
    ensures Within(sc, Members(ids))
    ensures multiset(Scored(sc, ids)) == multiset(Records(sc, Members(ids)))
  {
    if ids == [] {
      assert Records(sc, Members(ids)) == {};
    } else {
      var rest, last := ids[..|ids| - 1], ids[|ids| - 1];
      assert ids == rest + [last];
      ScoredAsRecords(sc, rest);
      assert Members(ids) == Members(rest) + {last};
      RecordsAdd(sc, Members(rest), last);
      assert Scored(sc, ids) == Scored(sc, rest) + [At(sc, last)];
    }
  }

  lemma PrefixOfSortedIsTopK(sorted: seq<Neighbor>, offered: multiset<Neighbor>, cap: nat)
    requires Sorted(sorted) && multiset(sorted) == offered
    ensures IsTopKOf(if |sorted| <= cap then sorted else sorted[..cap], offered, cap)
  {
    assert |sorted| == |offered|;
    if |sorted| > cap {
      var kept, rest := sorted[..cap], sorted[cap..];
      assert sorted == kept + rest;
      forall x, h | x in offered - multiset(kept) && h in kept ensures !Less(x, h) {
        assert x in multiset(rest);
        var j :| 0 <= j < |rest| && rest[j] == x;
        var i :| 0 <= i < |kept| && kept[i] == h;
        assert !Less(sorted[cap + j], sorted[i]);
      }
    }
  }

  /** The kept ids are the `cap` best of the list, each once. */
  lemma SelectClosestIsBest(sc: seq<real>, ids: seq<nat>, cap: nat)
    requires Listed(|sc|, ids) && Distinct(ids)
    ensures var r := SelectClosest(sc, ids, cap);
            && Within(sc, Members(ids))
            && Distinct(r) && |r| == Min(cap, |ids|) && Listed(|sc|, r)
            && IsBest(sc, cap, Members(ids), Members(r))
  {
    var scored := Scored(sc, ids);
    var sorted := Sort(scored);
    var kept := if |sorted| <= cap then sorted else sorted[..cap];
    ScoredAsRecords(sc, ids);
    PrefixOfSortedIsTopK(sorted, multiset(scored), cap);
    CollectorIsTopK(kept, sc, Members(ids), cap);
    var r := SelectClosest(sc, ids, cap);
    assert r == IdsOf(kept);
    IdsOfTopK(kept, sc, Members(ids), cap, r);
  }

  /** Only the listed nodes matter, not their order. */
  lemma SelectClosestSame(sc: seq<real>, a: seq<nat>, b: seq<nat>, cap: nat)
    requires Listed(|sc|, a) && Listed(|sc|, b) && Distinct(a) && Distinct(b) && Members(a) == Members(b)
    ensures SelectClosest(sc, a, cap) == SelectClosest(sc, b, cap)
  {
    var x, y := Sort(Scored(sc, a)), Sort(Scored(sc, b));
    var keptX, keptY := if |x| <= cap then x else x[..cap], if |y| <= cap then y else y[..cap];
    ScoredAsRecords(sc, a);
    ScoredAsRecords(sc, b);
    PrefixOfSortedIsTopK(x, multiset(Scored(sc, a)), cap);
    PrefixOfSortedIsTopK(y, multiset(Scored(sc, b)), cap);
    TopKOfUnique(keptX, keptY, multiset(Scored(sc, a)), cap);
    hide IsTopKOf, Scored, Sort;
  }

  /** Each listed node is closer than the next. */
  ghost predicate CloserFirst(sc: seq<real>, row: seq<nat>)
    requires Listed(|sc|, row)
  {
    forall i, j :: 0 <= i < j < |row| ==> Closer(sc, row[i], row[j])
  }

  /** What is kept comes closest first. */
  lemma SelectClosestSorted(sc: seq<real>, ids: seq<nat>, cap: nat)
    requires Listed(|sc|, ids) && Distinct(ids)
    ensures var r := SelectClosest(sc, ids, cap);
            Listed(|sc|, r) && CloserFirst(sc, r)
  {
    var scored := Scored(sc, ids);
    var sorted := Sort(scored);
    var kept := if |sorted| <= cap then sorted else sorted[..cap];
    ScoredAsRecords(sc, ids);
    PrefixOfSortedIsTopK(sorted, multiset(scored), cap);
    CollectorIsTopK(kept, sc, Members(ids), cap);
    var r := SelectClosest(sc, ids, cap);
    assert r == IdsOf(kept);
    forall i | 0 <= i < |r| ensures r[i] < |sc| && At(sc, r[i]) == kept[i] {
      assert kept[i] in kept;
    }
    hide IsTopKOf, Sort, IsBest;
  }

  /** Such a list is determined by its members. */
  lemma CloserFirstUnique(sc: seq<real>, a: seq<nat>, b: seq<nat>)
    requires Listed(|sc|, a) && Listed(|sc|, b) && CloserFirst(sc, a) && CloserFirst(sc, b) && Members(a) == Members(b)
    ensures a == b
  {
    var x, y := Scored(sc, a), Scored(sc, b);
    forall n ensures n in x <==> n in y {
      if n in x {
        InScored(sc, a, b, n);
      }
      if n in y {
        InScored(sc, b, a, n);
      }
    }
    SortedEnumerationUnique(x, y);
    forall i | 0 <= i < |a| ensures |a| == |b| && a[i] == b[i] {
      assert x[i].id == a[i] && y[i].id == b[i];
    }
  }

  lemma InScored(sc: seq<real>, a: seq<nat>, b: seq<nat>, n: Neighbor)
    requires Listed(|sc|, a) && Listed(|sc|, b) && Members(a) == Members(b) && n in Scored(sc, a)
    ensures n in Scored(sc, b)
  {
    var i :| 0 <= i < |a| && Scored(sc, a)[i] == n;
    assert a[i] in Members(a);
    var j :| 0 <= j < |b| && b[j] == a[i];
    assert Scored(sc, b)[j] == n;
  }

  lemma IdsOfTopK(kept: seq<Neighbor>, sc: seq<real>, nodes: set<nat>, cap: nat, r: seq<nat>)
    requires Within(sc, nodes) && IsTopK(kept, sc, nodes, cap) && r == IdsOf(kept)
    ensures Distinct(r) && Members(r) == Ids(kept) && Listed(|sc|, r)
  {
    forall i, j | 0 <= i < j < |r| ensures r[i] != r[j] {
      assert kept[i] in kept && kept[j] in kept && Less(kept[i], kept[j]);
    }
    forall i | 0 <= i < |r| ensures r[i] < |sc| {
      assert kept[i] in kept;
    }
    forall x ensures x in Members(r) <==> x in Ids(kept) {
      if x in Ids(kept) {
        var n :| n in kept && n.id == x;
        var i :| 0 <= i < |kept| && kept[i] == n;
        assert r[i] == x;
      }
      if x in Members(r) {
        var i :| 0 <= i < |r| && r[i] == x;
        assert kept[i] in kept;
      }
    }
  }
}
