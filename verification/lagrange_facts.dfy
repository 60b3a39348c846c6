/** Algebraic facts about the Lagrange interpolant that lagrange_interpolation
    in Interpolation.py relies on: degree-0 behaviour, exactness at the nodes
    and the two-point (linear) case. All arithmetic is exact over `real`.
 */
module LagrangeFacts {
  import opened Lagrange

  /** Every factor of l_k evaluated at x_k is (x_k - x_j) / (x_k - x_j) = 1. */
  lemma {:induction false} BasisIsOneAtOwnNode(xs: seq<real>, k: int, m: int)
    requires 0 <= k < |xs| && 0 <= m <= |xs|
    requires forall j :: 0 <= j < m && j != k ==> xs[j] != xs[k]
    ensures BasisUpTo(xs, k, xs[k], m) == 1.0
  {
    if m > 0 {
      BasisIsOneAtOwnNode(xs, k, m - 1);
      if m - 1 != k {
        var d := xs[k] - xs[m - 1];
        assert d != 0.0 && d / d == 1.0;
      }
    }
  }

  /** Once the product of l_i passes index k != i it holds the factor
      (x_k - x_k) / (x_i - x_k) = 0, so l_i vanishes at x_k. */
  lemma {:induction false} BasisVanishesAtOtherNode(xs: seq<real>, i: int, k: int, m: int)
    requires 0 <= i < |xs| && 0 <= k < |xs| && i != k && k < m <= |xs|
    requires forall j :: 0 <= j < m && j != i ==> xs[j] != xs[i]
    ensures BasisUpTo(xs, i, xs[k], m) == 0.0
  {
    if m - 1 == k {
      assert Factor(xs, i, xs[k], k) == 0.0;
    } else {
      BasisVanishesAtOtherNode(xs, i, k, m - 1);
    }
  }

  /** Evaluated at node k, the partial sum over i < m picks out y_k if k < m
      and nothing otherwise. */
  lemma {:induction false} PartialSumAtNode(xs: seq<real>, ys: seq<real>, k: int, m: int)
    requires 0 <= k < |xs| && 0 <= m <= |xs| && m <= |ys|
    requires forall i :: 0 <= i < |xs| ==> Isolated(xs, i)
    ensures PartialSum(xs, ys, xs[k], m) == if k < m then ys[k] else 0.0
  {
    if m > 0 {
      PartialSumAtNode(xs, ys, k, m - 1);
      assert Isolated(xs, m - 1);
      if m - 1 == k {
        BasisIsOneAtOwnNode(xs, k, |xs|);
      } else {
        BasisVanishesAtOtherNode(xs, m - 1, k, |xs|);
      }
    }
  }

  /** Exactness at the nodes: the interpolant passes through every data point. */
  lemma NodeExactness(xs: seq<real>, ys: seq<real>, k: int)
    requires |xs| == |ys| && Distinct(xs) && 0 <= k < |xs|
    ensures Interpolant(xs, ys, xs[k]) == ys[k]
  {
    PartialSumAtNode(xs, ys, k, |xs|);
  }

  /** Degree 0: with a single point the inner loop never multiplies, so the
      interpolant is the constant y0 at every target. */
  lemma SingleNodeIsConstant(x0: real, y0: real, t: real)
    ensures Interpolant([x0], [y0], t) == y0
  {
    var xs, ys := [x0], [y0];
    assert Basis(xs, 0, t) == BasisUpTo(xs, 0, t, 0) == 1.0;
    assert Interpolant(xs, ys, t) == PartialSum(xs, ys, t, 0) + y0 * Basis(xs, 0, t);
  }

  /** With two points the interpolant is ordinary linear interpolation, and
      linear extrapolation outside [x0, x1]. */
  lemma TwoNodesAreLinear(x0: real, y0: real, x1: real, y1: real, t: real)
    requires x0 != x1
    ensures Interpolant([x0, x1], [y0, y1], t) == y0 + (y1 - y0) * (t - x0) / (x1 - x0)
  {
    var xs, ys := [x0, x1], [y0, y1];
    var d := x1 - x0;
    assert BasisUpTo(xs, 0, t, 1) == 1.0;
    assert Basis(xs, 0, t) == (t - x1) / (x0 - x1);
    assert BasisUpTo(xs, 1, t, 1) == (t - x0) / d;
    assert Basis(xs, 1, t) == (t - x0) / d;
    assert (t - x1) / (x0 - x1) == (x1 - t) / d;
    calc {
      Interpolant(xs, ys, t);
      PartialSum(xs, ys, t, 1) + y1 * Basis(xs, 1, t);
      y0 * ((x1 - t) / d) + y1 * ((t - x0) / d);
      (y0 * (x1 - t) + y1 * (t - x0)) / d;
      (y0 * d + (y1 - y0) * (t - x0)) / d;
      y0 + (y1 - y0) * (t - x0) / d;
    }
  }
}
