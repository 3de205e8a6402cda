/** The order of answers, and a collector proved to hold the best `k` offers. */
module Ranking {

  /** One answer. */
  datatype Neighbor = Neighbor(id: nat, score: real)

  /** The ranking: ascending score, ties by ascending id. */
  predicate Less(a: Neighbor, b: Neighbor) {
    a.score < b.score || (a.score == b.score && a.id < b.id)
  }

  predicate Sorted(s: seq<Neighbor>) {
    forall i, j :: 0 <= i < j < |s| ==> !Less(s[j], s[i])
  }

  function Min(a: nat, b: nat): nat {
    if a < b then a else b
  }

  /** Insertion into an ascending sequence: the push of a binary heap held in ascending order. */
  function Insert(x: Neighbor, s: seq<Neighbor>): (r: seq<Neighbor>)
    requires Sorted(s)
    ensures Sorted(r) && multiset(r) == multiset(s) + multiset{x} && |r| == |s| + 1
  {
    if s == [] then [x]
    else if Less(x, s[0]) then
      PrependKeepsSorted(x, s);
      [x] + s
    else
      var t := Insert(x, s[1..]);
      assert s == [s[0]] + s[1..];
      InsertedTailBounded(s, x, t);
      PrependKeepsSorted(s[0], t);
      [s[0]] + t
  }

  lemma PrependKeepsSorted(x: Neighbor, s: seq<Neighbor>)
    requires Sorted(s) && (s != [] ==> !Less(s[0], x))
    ensures Sorted([x] + s)
  {
    var r := [x] + s;
    forall i, j | 0 <= i < j < |r| ensures !Less(r[j], r[i]) {
      if i == 0 && j > 1 {
        assert !Less(s[j - 1], s[0]);
      } else if i > 0 {
        assert !Less(s[j - 1], s[i - 1]);
      }
    }
  }

  lemma InsertedTailBounded(s: seq<Neighbor>, x: Neighbor, t: seq<Neighbor>)
    requires Sorted(s) && s != [] && !Less(x, s[0])
    requires multiset(t) == multiset(s[1..]) + multiset{x}
    ensures t != [] ==> !Less(t[0], s[0])
  {
    if t != [] {
      assert t[0] in multiset(t);
      if t[0] != x {
        assert t[0] in s[1..];
        var j :| 0 <= j < |s[1..]| && s[1..][j] == t[0];
        assert !Less(s[j + 1], s[0]);
      }
    }
  }

  function Sort(s: seq<Neighbor>): (r: seq<Neighbor>)
    ensures Sorted(r) && multiset(r) == multiset(s) && |r| == |s|
  {
    if s == [] then [] else
      assert s == [s[0]] + s[1..];
      Insert(s[0], Sort(s[1..]))
  }

  /** `kept` is the ascending list of the `k` best of everything offered. */
  ghost predicate IsTopKOf(kept: seq<Neighbor>, offered: multiset<Neighbor>, k: nat) {
    && Sorted(kept)
    && multiset(kept) <= offered
    && |kept| == Min(k, |offered|)
    && forall x, h :: x in offered - multiset(kept) && h in kept ==> !Less(x, h)
  }

  /** The collector: `heap` is the max-heap in ascending order, so its top is the last element. */
  class TopK {
    const k: nat
    var heap: seq<Neighbor>
    ghost var offered: multiset<Neighbor>

    ghost predicate Valid()
      reads this
    {
      IsTopKOf(heap, offered, k)
    }

    constructor (k: nat)
      ensures Valid() && offered == multiset{} && this.k == k
    {
      this.k := k;
      heap := [];
      offered := multiset{};
    }

    /** Three cases: no room at all, room left, or a full heap whose top may give way. The ghost bag of offers says what the
        heap must be the best of. */
    method Offer(c: Neighbor)
      requires Valid()
      modifies this
      ensures Valid()
      ensures offered == old(offered) + multiset{c}
    {
      hide Less, Insert;
      offered := offered + multiset{c};
      if k == 0 {
        return;
      }
      if |heap| < k {
        FillKeeps(heap, old(offered), k, c);
        heap := Insert(c, heap);
        return;
      }
      HeapIsFull(heap, old(offered), k);
      var worst := heap[|heap| - 1];
      if Less(c, worst) {
        ReplaceKeeps(heap, old(offered), k, c);
        heap := Insert(c, heap[..|heap| - 1]);
      } else {
        RejectKeeps(heap, old(offered), k, c);
      }
    }

    method IntoSortedVec() returns (out: seq<Neighbor>)
      requires Valid()
      ensures IsTopKOf(out, offered, k)
    {
      out := heap;
    }
  }

  lemma HeapIsFull(kept: seq<Neighbor>, offered: multiset<Neighbor>, k: nat)
    requires IsTopKOf(kept, offered, k) && |kept| >= k > 0
    ensures |kept| == k && Sorted(kept[..k - 1])
  {
  }

  lemma FillKeeps(kept: seq<Neighbor>, offered: multiset<Neighbor>, k: nat, c: Neighbor)
    requires IsTopKOf(kept, offered, k) && |kept| < k
    ensures IsTopKOf(Insert(c, kept), offered + multiset{c}, k)
  {
    assert |multiset(kept)| == |offered|;
    SubmultisetOfSameSize(multiset(kept), offered);
  }

  lemma {:induction false} SubmultisetOfSameSize(a: multiset<Neighbor>, b: multiset<Neighbor>)
    requires a <= b && |a| == |b|
    ensures a == b
  {
    assert b == a + (b - a);
  }

  lemma ReplaceKeeps(kept: seq<Neighbor>, offered: multiset<Neighbor>, k: nat, c: Neighbor)
    requires IsTopKOf(kept, offered, k) && |kept| == k > 0 && Less(c, kept[k - 1])
    ensures IsTopKOf(Insert(c, kept[..k - 1]), offered + multiset{c}, k)
  {
    var rest, worst := kept[..k - 1], kept[k - 1];
    assert kept == rest + [worst];
    var now := Insert(c, rest);
    forall x, h | x in offered + multiset{c} - multiset(now) && h in now
      ensures !Less(x, h)
    {
      ReplacedBounds(kept, offered, k, c, x, h, now);
    }
  }

  lemma ReplacedBounds(kept: seq<Neighbor>, offered: multiset<Neighbor>, k: nat, c: Neighbor,
                       x: Neighbor, h: Neighbor, now: seq<Neighbor>)
    requires IsTopKOf(kept, offered, k) && |kept| == k > 0 && Less(c, kept[k - 1])
    requires multiset(now) == multiset(kept[..k - 1]) + multiset{c}
    requires x in offered + multiset{c} - multiset(now) && h in now
    ensures !Less(x, h)
  {
    var rest, worst := kept[..k - 1], kept[k - 1];
    assert kept == rest + [worst];
    assert !Less(x, worst) by {
      if x != worst {
        assert x in offered - multiset(kept);
        assert worst in kept;
      }
    }
    assert h in multiset(now);
    if h != c {
      var i :| 0 <= i < |rest| && rest[i] == h;
      assert !Less(kept[k - 1], kept[i]);
    }
  }

  lemma RejectKeeps(kept: seq<Neighbor>, offered: multiset<Neighbor>, k: nat, c: Neighbor)
    requires IsTopKOf(kept, offered, k) && |kept| == k > 0 && !Less(c, kept[k - 1])
    ensures IsTopKOf(kept, offered + multiset{c}, k)
  {
    forall x, h | x in offered + multiset{c} - multiset(kept) && h in kept
      ensures !Less(x, h)
    {
      var i :| 0 <= i < |kept| && kept[i] == h;
      if x != c {
        assert x in offered - multiset(kept);
      }
    }
  }

  /** The top k is unique: any two collectors offered the same candidates agree. */
  lemma TopKOfUnique(a: seq<Neighbor>, b: seq<Neighbor>, offered: multiset<Neighbor>, k: nat)
    requires IsTopKOf(a, offered, k) && IsTopKOf(b, offered, k)
    ensures a == b
  {
    if a != b {
      var i := FirstDifference(a, b);
      if Less(a[i], b[i]) {
        SmallerAtFirstDifference(a, b, offered, i);
      } else {
        SmallerAtFirstDifference(b, a, offered, i);
      }
    }
  }

  lemma FirstDifference(a: seq<Neighbor>, b: seq<Neighbor>) returns (i: nat)
    requires |a| == |b| && a != b
    ensures i < |a| && a[..i] == b[..i] && a[i] != b[i]
  {
    i := 0;
    while a[i] == b[i]
      invariant i < |a| && a[..i] == b[..i]
      invariant a[i..] != b[i..]
      decreases |a| - i
    {
      assert a[i..] == [a[i]] + a[i + 1..] && b[i..] == [b[i]] + b[i + 1..];
      i := i + 1;
    }
  }

  lemma SmallerAtFirstDifference(a: seq<Neighbor>, b: seq<Neighbor>, offered: multiset<Neighbor>, i: nat)
    requires Sorted(a) && Sorted(b) && |a| == |b| && i < |a|
    requires multiset(a) <= offered
    requires a[..i] == b[..i] && Less(a[i], b[i])
    ensures exists x, h :: x in offered - multiset(b) && h in b && Less(x, h)
  {
    var x := a[i];
    assert a == a[..i] + [x] + a[i + 1..];
    assert b == b[..i] + b[i..];
    assert x !in b[i..] by {
      forall j | i <= j < |b| ensures b[j] != x {
        assert j > i ==> !Less(b[j], b[i]);
      }
    }
    assert multiset(a)[x] >= multiset(a[..i])[x] + 1;
    assert multiset(b)[x] == multiset(b[..i])[x];
    assert x in offered - multiset(b) && b[i] in b;
  }
}
