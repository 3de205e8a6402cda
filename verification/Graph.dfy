/** One layer of the proximity graph as out-edge lists, and what can be reached along them. */
module Graph {
  import opened Nearest

  type Layer = seq<seq<nat>>

  predicate InRange(g: Layer) {
    forall u, i :: 0 <= u < |g| && 0 <= i < |g[u]| ==> g[u][i] < |g|
  }

  ghost function Range(n: nat): (r: set<nat>)
    ensures forall i: nat :: i in r <==> i < n
    ensures |r| == n
  {
    if n == 0 then {} else Range(n - 1) + {n - 1}
  }

  ghost function Successors(g: Layer, nodes: set<nat>): set<nat> {
    set u, w | u in nodes && u < |g| && w in g[u] :: w
  }

  /** The nodes at most `k` hops away from `from`. */
  ghost function Hops(g: Layer, from: set<nat>, k: nat): set<nat> {
    if k == 0 then from
    else Hops(g, from, k - 1) + Successors(g, Hops(g, from, k - 1))
  }

  ghost function Reachable(g: Layer, from: set<nat>): set<nat> {
    set v | v in Range(|g|) && exists k: nat :: v in Hops(g, from, k)
  }

  /** Following out-edges from `nodes` does not leave `nodes`. */
  ghost predicate Closed(g: Layer, nodes: set<nat>) {
    forall u :: u in nodes && u < |g| ==> Members(g[u]) <= nodes
  }

  lemma {:induction false} HopsStayInside(g: Layer, from: set<nat>, k: nat, inside: set<nat>)
    requires from <= inside && Closed(g, inside)
    ensures Hops(g, from, k) <= inside
  {
    if k > 0 {
      HopsStayInside(g, from, k - 1, inside);
      forall w | w in Successors(g, Hops(g, from, k - 1)) ensures w in inside {
        var u :| u in Hops(g, from, k - 1) && u < |g| && w in g[u];
        assert w in Members(g[u]);
      }
    }
  }

  /** Reachability is the least closed set: every closed superset of the start contains it. */
  lemma ReachableIsLeast(g: Layer, from: set<nat>, inside: set<nat>)
    requires from <= inside && Closed(g, inside)
    ensures Reachable(g, from) <= inside
  {
    forall v | v in Reachable(g, from) ensures v in inside {
      var k: nat :| v in Hops(g, from, k);
      HopsStayInside(g, from, k, inside);
    }
  }

  lemma ReachableContainsStart(g: Layer, from: set<nat>)
    requires from <= Range(|g|)
    ensures from <= Reachable(g, from)
  {
    forall v | v in from ensures v in Reachable(g, from) {
      assert v in Hops(g, from, 0);
    }
  }

  lemma ReachableStep(g: Layer, from: set<nat>, u: nat, w: nat)
    requires InRange(g) && u in Reachable(g, from) && w in g[u]
    ensures w in Reachable(g, from)
  {
    var k: nat :| u in Hops(g, from, k);
    assert w in Hops(g, from, k + 1);
  }

  lemma ReachableIsClosed(g: Layer, from: set<nat>)
    requires InRange(g)
    ensures Closed(g, Reachable(g, from))
  {
    forall u, w | u in Reachable(g, from) && w in g[u] ensures w in Reachable(g, from) {
      ReachableStep(g, from, u, w);
    }
  }
}
