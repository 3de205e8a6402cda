/** Squared Euclidean distance as a scalar sum, in exact arithmetic. */
module Distance {

  type Vector = seq<real>

  /** All vectors have `d` coordinates. */
  predicate Shaped(s: seq<Vector>, d: nat) {
    forall i :: 0 <= i < |s| ==> |s[i]| == d
  }

  function Sq(x: real): (s: real)
    ensures s >= 0.0
  {
    x * x
  }

  /** The first `j` terms of the squared distance. */
  function Terms(p: Vector, q: Vector, j: nat): (s: real)
    requires j <= |p| == |q|
    ensures s >= 0.0
  {
    if j == 0 then 0.0 else Terms(p, q, j - 1) + Sq(p[j - 1] - q[j - 1])
  }

  function L2(p: Vector, q: Vector): (s: real)
    requires |p| == |q|
    ensures s >= 0.0
  {
    Terms(p, q, |p|)
  }

  /** Changing one coordinate changes one term. */
  lemma {:induction false} TermsUpdate(p: Vector, q: Vector, j: nat, v: real, n: nat)
    requires j < |p| == |q| && n <= |p|
    ensures Terms(p, q[j := v], n) ==
              Terms(p, q, n) + (if j < n then Sq(p[j] - v) - Sq(p[j] - q[j]) else 0.0)
  {
    hide Sq;
    if n > 0 {
      TermsUpdate(p, q, j, v, n - 1);
    }
  }

  /** A distance splits at any coordinate. */
  lemma {:induction false} TermsSplit(p: Vector, q: Vector, col: nat, j: nat)
    requires |p| == |q| && col + j <= |p|
    ensures Terms(p, q, col + j) == Terms(p, q, col) + L2(p[col..col + j], q[col..col + j])
  {
    hide Sq;
    if j > 0 {
      TermsSplit(p, q, col, j - 1);
      TermsPrefix(p[col..col + j], q[col..col + j], j - 1);
      assert p[col..col + j][..j - 1] == p[col..col + j - 1] && q[col..col + j][..j - 1] == q[col..col + j - 1];
    }
  }

  lemma {:induction false} TermsPrefix(p: Vector, q: Vector, j: nat)
    requires j <= |p| == |q|
    ensures Terms(p, q, j) == L2(p[..j], q[..j])
  {
    TermsAgree(p, q, p[..j], q[..j], j);
  }

  lemma {:induction false} TermsAgree(p: Vector, q: Vector, p': Vector, q': Vector, j: nat)
    requires j <= |p| == |q| && j <= |p'| == |q'|
    requires forall i :: 0 <= i < j ==> p[i] == p'[i] && q[i] == q'[i]
    ensures Terms(p, q, j) == Terms(p', q', j)
  {
    if j > 0 {
      TermsAgree(p, q, p', q', j - 1);
    }
  }
}
