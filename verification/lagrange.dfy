/** Lagrange-form polynomial interpolation (lagrange_interpolation in
    Interpolation.py).

    Real-number abstraction: the Python code works on IEEE doubles; this model
    works on Dafny `real`, i.e. exact rationals. Rounding, overflow, infinities
    and NaN are not modelled, so every equation below is exact where the
    program would only be close.

    The reference definitions are `BasisUpTo` / `Basis` (the product
    l_i(t) = prod_{j != i} (t - x_j) / (x_i - x_j)) and `PartialSum` /
    `Interpolant` (the sum sum_i y_i * l_i(t)). `LagrangeInterpolation` mirrors
    the nested loops of the source, including the exceptions they raise.
 */
module Lagrange {
  import opened Outcomes

  /** No other node shares the x-coordinate of node i, so every divisor
      x_i - x_j of its basis weight is non-zero. */
  predicate Isolated(xs: seq<real>, i: int)
    requires 0 <= i < |xs|
  {
    forall j :: 0 <= j < |xs| && j != i ==> xs[j] != xs[i]
  }

  /** The x-coordinates are pairwise distinct. */
  predicate Distinct(xs: seq<real>) {
    forall i, j :: 0 <= i < |xs| && 0 <= j < |xs| && i != j ==> xs[i] != xs[j]
  }

  /** One factor (t - x_j) / (x_i - x_j) of the basis weight of node i. */
  function Factor(xs: seq<real>, i: int, t: real, j: int): real
    requires 0 <= i < |xs| && 0 <= j < |xs| && xs[j] != xs[i]
  {
    (t - xs[j]) / (xs[i] - xs[j])
  }

  /** The product of the factors of node i over the indices j < m, j != i. */
  function BasisUpTo(xs: seq<real>, i: int, t: real, m: int): real
    requires 0 <= i < |xs| && 0 <= m <= |xs|
    requires forall j :: 0 <= j < m && j != i ==> xs[j] != xs[i]
  {
    if m == 0 then 1.0
    else if m - 1 == i then BasisUpTo(xs, i, t, m - 1)
    else BasisUpTo(xs, i, t, m - 1) * Factor(xs, i, t, m - 1)
  }

  /** The Lagrange basis polynomial l_i evaluated at t. */
  function Basis(xs: seq<real>, i: int, t: real): real
    requires 0 <= i < |xs| && Isolated(xs, i)
  {
    BasisUpTo(xs, i, t, |xs|)
  }

  /** sum_{i < m} y_i * l_i(t). */
  function PartialSum(xs: seq<real>, ys: seq<real>, t: real, m: int): real
    requires 0 <= m <= |xs| && m <= |ys|
    requires forall k :: 0 <= k < m ==> Isolated(xs, k)
  {
    if m == 0 then 0.0
    else PartialSum(xs, ys, t, m - 1) + ys[m - 1] * Basis(xs, m - 1, t)
  }

  /** The value at t of the interpolating polynomial through the points
      (xs[i], ys[i]). The target is unconstrained: outside the range of xs
      this is extrapolation by the same formula. */
  function Interpolant(xs: seq<real>, ys: seq<real>, t: real): real
    requires |xs| == |ys| && Distinct(xs)
  {
    PartialSum(xs, ys, t, |xs|)
  }

  /** Node i gets through one iteration of the outer loop: no divisor of its
      basis weight is zero and y_values[i] exists. */
  predicate Passes(xs: seq<real>, ys: seq<real>, i: int)
    requires 0 <= i < |xs|
  {
    Isolated(xs, i) && i < |ys|
  }

  /** Node f, at or after k, is the first node whose x-coordinate is shared
      with another node, and every node from k up to it gets through the
      outer loop. */
  predicate FirstCoincidence(xs: seq<real>, ys: seq<real>, k: int, f: int) {
    && 0 <= k <= f < |xs| && !Isolated(xs, f)
    && forall i :: k <= i < f ==> Passes(xs, ys, i)
  }

  /** The exception the outer loop raises when it starts at node k, or None
      when it runs to completion. At each node the inner loop divides by
      x_i - x_j before y_values[i] is read, so a coincident node is reported
      ahead of a missing y-value. */
  function RaisedFrom(xs: seq<real>, ys: seq<real>, k: nat): (e: Option<Fault>)
    ensures e == None <==> forall i :: k <= i < |xs| ==> Passes(xs, ys, i)
    ensures e == Some(IndexError) ==> |ys| < |xs|
    ensures e == Some(ZeroDivisionError) ==> !Distinct(xs)
    ensures e == Some(ZeroDivisionError) <==> exists f :: FirstCoincidence(xs, ys, k, f)
    decreases |xs| - k
  {
    if k >= |xs| then None
    else if !Isolated(xs, k) then
      assert !Distinct(xs) by {
        var j :| 0 <= j < |xs| && j != k && xs[j] == xs[k];
      }
      assert !Passes(xs, ys, k);
      assert FirstCoincidence(xs, ys, k, k);
      Some(ZeroDivisionError)
    else if k >= |ys| then
      assert !Passes(xs, ys, k);
      assert forall f :: !FirstCoincidence(xs, ys, k, f) by {
        forall f
          ensures !FirstCoincidence(xs, ys, k, f)
        {
          if k < f < |xs| {
            assert !Passes(xs, ys, k);
          }
        }
      }
      Some(IndexError)
    else
      assert Passes(xs, ys, k);
      var next := k + 1;
      var e := RaisedFrom(xs, ys, next);
      assert (exists f :: FirstCoincidence(xs, ys, k, f)) ==> (exists f :: FirstCoincidence(xs, ys, next, f)) by {
        if exists f :: FirstCoincidence(xs, ys, k, f) {
          var f :| FirstCoincidence(xs, ys, k, f);
          assert f != k;
          assert FirstCoincidence(xs, ys, next, f);
        }
      }
      assert (exists f :: FirstCoincidence(xs, ys, next, f)) ==> (exists f :: FirstCoincidence(xs, ys, k, f)) by {
        if exists f :: FirstCoincidence(xs, ys, next, f) {
          var f :| FirstCoincidence(xs, ys, next, f);
          assert FirstCoincidence(xs, ys, k, f);
        }
      }
      e
  }

  /** `PartialSum` reads only the first m y-values. */
  lemma {:induction false} PartialSumReadsPrefix(xs: seq<real>, ys: seq<real>, zs: seq<real>, t: real, m: int)
    requires 0 <= m <= |xs| && m <= |ys| && m <= |zs| && ys[..m] == zs[..m]
    requires forall k :: 0 <= k < m ==> Isolated(xs, k)
    ensures PartialSum(xs, ys, t, m) == PartialSum(xs, zs, t, m)
  {
    if m > 0 {
      assert ys[m - 1] == ys[..m][m - 1] == zs[m - 1];
      assert ys[..m - 1] == ys[..m][..m - 1];
      assert zs[..m - 1] == zs[..m][..m - 1];
      PartialSumReadsPrefix(xs, ys, zs, t, m - 1);
    }
  }

  /** The inner loop of lagrange_interpolation: the basis weight of node i
      at t, or ZeroDivisionError as soon as another node shares x_i. */
  method BasisWeight(xs: seq<real>, i: int, t: real) returns (r: Result<real>)
    requires 0 <= i < |xs|
    ensures r.Ok? <==> Isolated(xs, i)
    ensures r.Ok? ==> r.value == Basis(xs, i, t)
    ensures r.Err? ==> r.fault == ZeroDivisionError
  {
    var n := |xs|;
    var l := 1.0;
    var j := 0;
    while j < n
      invariant 0 <= j <= n
      invariant forall j' :: 0 <= j' < j && j' != i ==> xs[j'] != xs[i]
      invariant l == BasisUpTo(xs, i, t, j)
    {
      if i != j {
        if xs[i] - xs[j] == 0.0 {
          return Err(ZeroDivisionError);
        }
        l := l * ((t - xs[j]) / (xs[i] - xs[j]));
      }
      j := j + 1;
    }
    r := Ok(l);
  }

  /** The nested loops of lagrange_interpolation. The result is the
      interpolant exactly when the nodes are distinct and every node has a
      y-value (extra y-values are ignored); otherwise it is the exception the
      loops raise first. No data points give the initial 0.0. */
  method LagrangeInterpolation(xs: seq<real>, ys: seq<real>, t: real) returns (r: Result<real>)
    ensures r.Ok? <==> Distinct(xs) && |xs| <= |ys|
    ensures r.Ok? ==> r.value == Interpolant(xs, ys[..|xs|], t)
    ensures r.Err? ==> RaisedFrom(xs, ys, 0) == Some(r.fault)
    ensures |xs| == 0 ==> r == Ok(0.0)
  {
    var n := |xs|;
    var result := 0.0;
    var i := 0;
    while i < n
      invariant 0 <= i <= n && i <= |ys|
      invariant forall k :: 0 <= k < i ==> Isolated(xs, k)
      invariant result == PartialSum(xs, ys, t, i)
      invariant RaisedFrom(xs, ys, 0) == RaisedFrom(xs, ys, i)
    {
      var l :- BasisWeight(xs, i, t);
      if i >= |ys| {
        return Err(IndexError);
      }
      result := result + ys[i] * l;
      i := i + 1;
    }
    assert Distinct(xs) by {
      forall a, b | 0 <= a < n && 0 <= b < n && a != b
        ensures xs[a] != xs[b]
      {
        assert Isolated(xs, b);
      }
    }
    PartialSumReadsPrefix(xs, ys, ys[..n], t, n);
    r := Ok(result);
  }
}
