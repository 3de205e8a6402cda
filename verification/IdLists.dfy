/** Lists of node ids: sorting, deduplication, permutations. */
module IdLists {
  import opened Nearest
  import opened Graph

  predicate Listed(n: nat, s: seq<nat>) {
    forall j :: 0 <= j < |s| ==> s[j] < n
  }

  lemma RowListed(g: Layer, u: nat)
    requires InRange(g) && u < |g|
    ensures Listed(|g|, g[u])
  {
  }

  lemma RowsListed(g: Layer)
    requires InRange(g)
    ensures forall u :: 0 <= u < |g| ==> Listed(|g|, g[u])
  {
  }

  /** A visited-flags array and the set it stands for. */
  predicate Marks(seen: array<bool>, visited: set<nat>)
    reads seen
  {
    forall i: nat :: i < seen.Length ==> (seen[i] <==> i in visited)
  }

  predicate Ascending(s: seq<nat>) {
    forall i, j :: 0 <= i < j < |s| ==> s[i] <= s[j]
  }

  predicate StrictlyAscending(s: seq<nat>) {
    forall i, j :: 0 <= i < j < |s| ==> s[i] < s[j]
  }

  /** Sorting a list of ids ascending. */
  function SortedIds(s: seq<nat>): (r: seq<nat>)
    ensures multiset(r) == multiset(s) && |r| == |s| && Ascending(r)
  {
    if s == [] then [] else
      assert s == [s[0]] + s[1..];
      InsertId(s[0], SortedIds(s[1..]))
  }

  function InsertId(x: nat, s: seq<nat>): (r: seq<nat>)
    requires Ascending(s)
    ensures multiset(r) == multiset(s) + multiset{x} && |r| == |s| + 1
    ensures Ascending(r) && (r[0] == x || (s != [] && r[0] == s[0]))
  {
    if s == [] || x <= s[0] then
      PrependAscending(x, s);
      [x] + s
    else
      assert s == [s[0]] + s[1..];
      var t := InsertId(x, s[1..]);
      PrependAscending(s[0], t);
      [s[0]] + t
  }

  lemma PrependAscending(x: nat, s: seq<nat>)
    requires Ascending(s) && (s != [] ==> x <= s[0])
    ensures Ascending([x] + s)
  {
  }

  /** `r` lists the members of `s` once each, ascending, up to the same last one. */
  ghost predicate Deduplicates(s: seq<nat>, r: seq<nat>) {
    && StrictlyAscending(r) && |r| <= |s|
    && (forall x :: x in r <==> x in s)
    && (r != [] ==> r[|r| - 1] == s[|s| - 1])
  }

  /** Dropping consecutive repeats of an ascending list. */
  function Dedup(s: seq<nat>): (r: seq<nat>)
    requires Ascending(s)
    ensures Deduplicates(s, r)
  {
    if s == [] then []
    else
      var before, x := Dedup(s[..|s| - 1]), s[|s| - 1];
      DedupStep(s, before);
      if before != [] && before[|before| - 1] == x then before else before + [x]
  }

  lemma DedupStep(s: seq<nat>, before: seq<nat>)
    requires s != [] && Ascending(s) && Deduplicates(s[..|s| - 1], before)
    ensures var x := s[|s| - 1];
            Deduplicates(s, if before != [] && before[|before| - 1] == x then before else before + [x])
  {
    var x := s[|s| - 1];
    assert s == s[..|s| - 1] + [x];
    if before == [] || before[|before| - 1] != x {
      AppendStrictly(before, x);
    }
  }

  lemma AppendStrictly(s: seq<nat>, x: nat)
    requires StrictlyAscending(s) && (s != [] ==> s[|s| - 1] < x)
    ensures StrictlyAscending(s + [x])
  {
    forall i, j | 0 <= i < j < |s + [x]| ensures (s + [x])[i] < (s + [x])[j] {
      if j == |s| && i < |s| - 1 {
        assert s[i] < s[|s| - 1];
      }
    }
  }

  /** A strictly ascending list is determined by its members. */
  lemma {:induction false} AscendingUnique(a: seq<nat>, b: seq<nat>)
    requires StrictlyAscending(a) && StrictlyAscending(b)
    requires forall x :: x in a <==> x in b
    ensures a == b
  {
    if a == [] {
      if b != [] {
        HasId(b);
      }
    } else {
      assert a[0] in b && b != [];
      assert b[0] in a;
      assert a[0] == b[0];
      forall x | x in a[1..] ensures x in b[1..] {
        assert x in b;
      }
      forall x | x in b[1..] ensures x in a[1..] {
        assert x in a;
      }
      AscendingUnique(a[1..], b[1..]);
    }
  }

  lemma HasId(s: seq<nat>)
    requires s != []
    ensures exists x :: x in s
  {
    assert s[0] in s;
  }

  lemma {:induction false} MembersSize(s: seq<nat>)
    requires Distinct(s)
    ensures |Members(s)| == |s|
  {
    if s != [] {
      var rest, last := s[..|s| - 1], s[|s| - 1];
      MembersSize(rest);
      assert s == rest + [last];
      assert Members(s) == Members(rest) + {last};
    }
  }

  lemma PositionOf(items: seq<nat>, x: nat) returns (i: nat)
    requires x in Members(items)
    ensures i < |items| && items[i] == x
  {
    i :| 0 <= i < |items| && items[i] == x;
  }

  ghost predicate IsPermutation(order: seq<nat>, n: nat) {
    |order| == n && Listed(n, order) && Distinct(order)
  }

  /** Pigeonhole: a duplicate-free list of n ids below n lists all of them. */
  lemma PermutationIsOnto(order: seq<nat>, n: nat)
    requires IsPermutation(order, n)
    ensures Members(order) == Range(n)
  {
    MembersSize(order);
    SubsetOfSameSize(Members(order), Range(n));
  }
}
