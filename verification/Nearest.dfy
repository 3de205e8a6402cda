/** Nearest nodes under a score vector: `sc[i]` is the distance from the query to stored vector `i`. */
module Nearest {
  import opened Ranking

  function Members(s: seq<nat>): (r: set<nat>) {
    set i | i in s
  }

  predicate Distinct(s: seq<nat>) {
    forall i, j :: 0 <= i < j < |s| ==> s[i] != s[j]
  }

  function At(sc: seq<real>, i: nat): Neighbor
    requires i < |sc|
  {
    Neighbor(i, sc[i])
  }

  ghost predicate Within(sc: seq<real>, nodes: set<nat>) {
    forall i :: i in nodes ==> i < |sc|
  }

  predicate Closer(sc: seq<real>, a: nat, b: nat)
    requires a < |sc| && b < |sc|
  {
    Less(At(sc, a), At(sc, b))
  }

  /** `best` holds the `k` nodes of `nodes` that come first by (score, id). */
  ghost predicate IsBest(sc: seq<real>, k: nat, nodes: set<nat>, best: set<nat>)
    requires Within(sc, nodes)
  {
    && best <= nodes
    && |best| == Min(k, |nodes|)
    && forall b, x :: b in best && x in nodes - best ==> Closer(sc, b, x)
  }

  ghost function Ids(out: seq<Neighbor>): set<nat> {
    set n | n in out :: n.id
  }

  ghost predicate StrictlySorted(out: seq<Neighbor>) {
    forall i, j :: 0 <= i < j < |out| ==> Less(out[i], out[j])
  }

  /** The reference answer: `out` lists, best first, the `k` nearest of `nodes` with their scores. */
  ghost predicate IsTopK(out: seq<Neighbor>, sc: seq<real>, nodes: set<nat>, k: nat)
    requires Within(sc, nodes)
  {
    && StrictlySorted(out)
    && (forall n :: n in out ==> n.id in nodes && n == At(sc, n.id))
    && IsBest(sc, k, nodes, Ids(out))
  }

  // ---- uniqueness ----

  lemma BestBeatsRest(sc: seq<real>, k: nat, nodes: set<nat>, best: set<nat>, b: nat, x: nat)
    requires Within(sc, nodes) && IsBest(sc, k, nodes, best)
    requires b in best && x in nodes && x !in best
    ensures Closer(sc, b, x)
  {
    assert x in nodes - best;
  }

  lemma BestUnique(sc: seq<real>, k: nat, nodes: set<nat>, a: set<nat>, b: set<nat>)
    requires Within(sc, nodes) && IsBest(sc, k, nodes, a) && IsBest(sc, k, nodes, b)
    ensures a == b
  {
    if x, y :| x in a && x !in b && y in b && y !in a {
      BestBeatsRest(sc, k, nodes, a, x, y);
      BestBeatsRest(sc, k, nodes, b, y, x);
      assert false;
    }
    if a <= b {
      SubsetOfSameSize(a, b);
    } else {
      SubsetOfSameSize(b, a);
    }
  }

  lemma SubsetOfSameSize<T>(a: set<T>, b: set<T>)
    requires a <= b && |a| >= |b|
    ensures a == b
  {
    assert b == a + (b - a);
  }

  lemma SubsetSize<T>(a: set<T>, b: set<T>)
    requires a <= b
    ensures |a| <= |b|
  {
    assert b == a + (b - a);
  }

  /** Two answers to the same question are the same list. */
  lemma TopKUnique(a: seq<Neighbor>, b: seq<Neighbor>, sc: seq<real>, nodes: set<nat>, k: nat)
    requires Within(sc, nodes) && IsTopK(a, sc, nodes, k) && IsTopK(b, sc, nodes, k)
    ensures a == b
  {
    BestUnique(sc, k, nodes, Ids(a), Ids(b));
    forall n | n in a ensures n in b {
      assert n.id in Ids(b);
    }
    forall n | n in b ensures n in a {
      assert n.id in Ids(a);
    }
    SortedEnumerationUnique(a, b);
  }

  lemma {:induction false} SortedEnumerationUnique(a: seq<Neighbor>, b: seq<Neighbor>)
    requires StrictlySorted(a) && StrictlySorted(b)
    requires forall n :: n in a <==> n in b
    ensures a == b
  {
    if a == [] {
      if b != [] {
        HasMember(b);
      }
    } else {
      assert a[0] in b && b != [];
      assert b[0] in a;
      assert a[0] == b[0];
      forall n | n in a[1..] ensures n in b[1..] {
        assert n in b;
      }
      forall n | n in b[1..] ensures n in a[1..] {
        assert n in a;
      }
      SortedEnumerationUnique(a[1..], b[1..]);
    }
  }

  lemma HasMember(s: seq<Neighbor>)
    requires s != []
    ensures exists n :: n in s
  {
    assert s[0] in s;
  }

  // ---- heaps over node sets ----

  ghost predicate IsLast(sc: seq<real>, nodes: set<nat>, w: nat)
    requires Within(sc, nodes)
  {
    w in nodes && forall x :: x in nodes && x != w ==> Closer(sc, x, w)
  }

  ghost predicate IsFirst(sc: seq<real>, nodes: set<nat>, w: nat)
    requires Within(sc, nodes)
  {
    w in nodes && forall x :: x in nodes && x != w ==> Closer(sc, w, x)
  }

  /** The later of a set's last and one more node is the last of both. */
  lemma ExtendExtremes(sc: seq<real>, nodes: set<nat>, n: nat, hi: nat, lo: nat)
    requires Within(sc, nodes) && n in nodes && IsLast(sc, nodes - {n}, hi) && IsFirst(sc, nodes - {n}, lo)
    ensures IsLast(sc, nodes, if Closer(sc, hi, n) then n else hi)
    ensures IsFirst(sc, nodes, if Closer(sc, n, lo) then n else lo)
  {
    var rest := nodes - {n};
    forall x | x in nodes && x != n ensures x in rest && (x == hi || Closer(sc, x, hi)) && (x == lo || Closer(sc, lo, x)) {
      assert x in rest;
    }
  }

  lemma {:induction false} ExtremesExist(sc: seq<real>, nodes: set<nat>)
    requires Within(sc, nodes) && nodes != {}
    ensures exists w :: IsLast(sc, nodes, w)
    ensures exists w :: IsFirst(sc, nodes, w)
  {
    var n :| n in nodes;
    var rest := nodes - {n};
    if rest == {} {
      forall x | x in nodes ensures x == n {
        assert x !in rest;
      }
      assert IsLast(sc, nodes, n) && IsFirst(sc, nodes, n);
    } else {
      ExtremesExist(sc, rest);
      var hi :| IsLast(sc, rest, hi);
      var lo :| IsFirst(sc, rest, lo);
      ExtendExtremes(sc, nodes, n, hi, lo);
    }
  }

  /** The top of a max-heap of nodes: the worst by (score, id). */
  function Worst(sc: seq<real>, nodes: set<nat>): (w: nat)
    requires Within(sc, nodes) && nodes != {}
    ensures w in nodes && forall x :: x in nodes && x != w ==> Closer(sc, x, w)
  {
    ExtremesExist(sc, nodes);
    assert exists w :: w in nodes && forall x :: x in nodes && x != w ==> Closer(sc, x, w) by {
      var w :| IsLast(sc, nodes, w);
    }
    var w :| w in nodes && forall x :: x in nodes && x != w ==> Closer(sc, x, w);
    w
  }

  /** The top of a min-heap of nodes: the best by (score, id). */
  function Closest(sc: seq<real>, nodes: set<nat>): (w: nat)
    requires Within(sc, nodes) && nodes != {}
    ensures w in nodes && forall x :: x in nodes && x != w ==> Closer(sc, w, x)
  {
    ExtremesExist(sc, nodes);
    assert exists w :: w in nodes && forall x :: x in nodes && x != w ==> Closer(sc, w, x) by {
      var w :| IsFirst(sc, nodes, w);
    }
    var w :| w in nodes && forall x :: x in nodes && x != w ==> Closer(sc, w, x);
    w
  }

  /** The `k` best of a set, by repeatedly dropping the worst. */
  ghost function Best(sc: seq<real>, k: nat, nodes: set<nat>): (best: set<nat>)
    requires Within(sc, nodes)
    ensures IsBest(sc, k, nodes, best)
    decreases |nodes|
  {
    if |nodes| <= k then nodes
    else
      var w := Worst(sc, nodes);
      var best := Best(sc, k, nodes - {w});
      best
  }

  /** The best of the best of a larger pool is the best of the pool. */
  lemma BestOfBest(sc: seq<real>, k: nat, ef: nat, nodes: set<nat>, pool: set<nat>, best: set<nat>)
    requires Within(sc, nodes) && k <= ef
    requires IsBest(sc, ef, nodes, pool) && IsBest(sc, k, pool, best)
    ensures IsBest(sc, k, nodes, best)
  {
    forall b, x | b in best && x in nodes - best ensures Closer(sc, b, x) {
      if x !in pool {
        assert b in pool;
      }
    }
  }

  /** The best of a set grows with the number asked for. */
  lemma BestNested(sc: seq<real>, j: nat, k: nat, nodes: set<nat>, a: set<nat>, b: set<nat>)
    requires Within(sc, nodes) && j <= k && IsBest(sc, j, nodes, a) && IsBest(sc, k, nodes, b)
    ensures a <= b
  {
    forall x | x in a ensures x in b {
      if x !in b {
        forall y | y in b ensures y in a - {x} {
          BestBeatsRest(sc, k, nodes, b, y, x);
          if y !in a {
            BestBeatsRest(sc, j, nodes, a, x, y);
          }
        }
        SubsetSize(b, a - {x});
        SubsetSize(a, nodes);
      }
    }
  }

  /** A bounded heap step: push a node, pop the worst when over capacity. */
  lemma PushPopKeepsBest(sc: seq<real>, ef: nat, nodes: set<nat>, best: set<nat>, x: nat)
    requires x < |sc| && Within(sc, nodes) && IsBest(sc, ef, nodes, best) && x !in nodes
    ensures Within(sc, best + {x})
    ensures |best| < ef ==> IsBest(sc, ef, nodes + {x}, best + {x})
    ensures |best| == ef ==> IsBest(sc, ef, nodes + {x}, best + {x} - {Worst(sc, best + {x})})
  {
    if |best| < ef {
      SubsetOfSameSize(best, nodes);
    } else if |best| == ef {
      SubsetSize(best, nodes);
      var w := Worst(sc, best + {x});
      var now := best + {x} - {w};
      forall b, y | b in now && y in nodes + {x} - now ensures Closer(sc, b, y) {
        if y != w {
          assert y in nodes - best;
          if b == x {
            assert w in best;
          }
        }
      }
    }
  }

  /** A node among the true top k stays among the top k of any candidate set that holds it. */
  lemma TopKMemberSurvives(sc: seq<real>, k: nat, nodes: set<nat>, some: set<nat>,
                           best: set<nat>, bestOfSome: set<nat>, x: nat)
    requires Within(sc, nodes) && some <= nodes
    requires IsBest(sc, k, nodes, best) && IsBest(sc, k, some, bestOfSome)
    requires x in best && x in some
    ensures x in bestOfSome
  {
    SubsetSize(some, nodes);
    if x !in bestOfSome {
      assert bestOfSome <= best - {x} by {
        forall b | b in bestOfSome ensures b in best {
          assert x in some - bestOfSome && (b in best || b in nodes - best);
        }
      }
      SubsetSize(bestOfSome, best - {x});
      SubsetOfSameSize(bestOfSome, some);
    }
  }

  // ---- from the collector to the reference answer ----

  ghost function Records(sc: seq<real>, nodes: set<nat>): set<Neighbor>
    requires Within(sc, nodes)
  {
    set i | i in nodes :: At(sc, i)
  }

  lemma {:induction false} RecordsSize(sc: seq<real>, nodes: set<nat>)
    requires Within(sc, nodes)
    ensures |Records(sc, nodes)| == |nodes|
  {
    if nodes != {} {
      var n :| n in nodes;
      var rest := nodes - {n};
      RecordsSize(sc, rest);
      assert Records(sc, nodes) == Records(sc, rest) + {At(sc, n)};
    }
  }

  lemma {:induction false} IdsSize(out: seq<Neighbor>)
    requires StrictlySorted(out)
    requires forall n, m :: n in out && m in out && n.id == m.id ==> n == m
    ensures |Ids(out)| == |out|
  {
    if out != [] {
      var rest := out[..|out| - 1];
      var last := out[|out| - 1];
      IdsSize(rest);
      assert last !in rest;
      assert Ids(out) == Ids(rest) + {last.id};
    }
  }

  lemma CollectorIsTopK(out: seq<Neighbor>, sc: seq<real>, nodes: set<nat>, k: nat)
    requires Within(sc, nodes)
    requires IsTopKOf(out, multiset(Records(sc, nodes)), k)
    ensures IsTopK(out, sc, nodes, k)
  {
    var offered := multiset(Records(sc, nodes));
    RecordsSize(sc, nodes);
    forall n | n in out ensures n.id in nodes && n == At(sc, n.id) {
      assert n in multiset(out);
      assert n in offered;
    }
    forall i, j | 0 <= i < j < |out| ensures Less(out[i], out[j]) {
      DistinctWhenSubOfSet(out, Records(sc, nodes), i, j);
      assert out[i] in out && out[j] in out;
    }
    IdsSize(out);
    forall b, x | b in Ids(out) && x in nodes - Ids(out) ensures Closer(sc, b, x) {
      var h :| h in out && h.id == b;
      var r := At(sc, x);
      assert r !in out;
      assert r in offered - multiset(out);
    }
  }

  lemma DistinctWhenSubOfSet(out: seq<Neighbor>, records: set<Neighbor>, i: nat, j: nat)
    requires multiset(out) <= multiset(records) && i < j < |out|
    ensures out[i] != out[j]
  {
    assert out == out[..j] + [out[j]] + out[j + 1..];
    assert multiset(out) == multiset(out[..j]) + multiset{out[j]} + multiset(out[j + 1..]);
    assert multiset(records)[out[j]] <= 1;
    assert multiset(out)[out[j]] <= multiset(records)[out[j]];
    assert multiset(out[..j])[out[j]] == 0;
    assert out[..j][i] in multiset(out[..j]);
  }

  lemma RecordsAdd(sc: seq<real>, done: set<nat>, x: nat)
    requires Within(sc, done) && x < |sc| && x !in done
    ensures Within(sc, done + {x})
    ensures multiset(Records(sc, done + {x})) == multiset(Records(sc, done)) + multiset{At(sc, x)}
  {
    assert Records(sc, done + {x}) == Records(sc, done) + {At(sc, x)};
    assert At(sc, x) !in Records(sc, done);
  }

  lemma MembersStep(s: seq<nat>, n: nat)
    requires n < |s| && Distinct(s)
    ensures Members(s[..n + 1]) == Members(s[..n]) + {s[n]} && s[n] !in Members(s[..n])
  {
    assert s[..n + 1] == s[..n] + [s[n]];
  }

  /** Offer every listed node and return the sorted answer. */
  method CollectTopK(sc: seq<real>, nodes: seq<nat>, k: nat) returns (out: seq<Neighbor>)
    requires Within(sc, Members(nodes)) && Distinct(nodes)
    ensures IsTopK(out, sc, Members(nodes), k)
  {
    var topk := new TopK(k);
    for n := 0 to |nodes|
      invariant topk.Valid() && fresh(topk) && topk.k == k
      invariant Members(nodes[..n]) <= Members(nodes)
      invariant topk.offered == multiset(Records(sc, Members(nodes[..n])))
    {
      MembersStep(nodes, n);
      assert nodes[n] in Members(nodes);
      RecordsAdd(sc, Members(nodes[..n]), nodes[n]);
      topk.Offer(At(sc, nodes[n]));
    }
    assert nodes[..|nodes|] == nodes;
    out := topk.IntoSortedVec();
    CollectorIsTopK(out, sc, Members(nodes), k);
  }
}
