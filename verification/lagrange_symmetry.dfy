/** Reindexing the data points: exchanging two neighbouring (x, y) pairs
    leaves the Lagrange interpolant unchanged, and so does any sequence of
    such exchanges.

    The proof goes through plain products and sums of sequences: a basis
    weight is the product of its factors, the interpolant the sum of its
    terms, and exchanging two neighbours exchanges two factors of every
    weight and two terms of the sum.
 */
module LagrangeSymmetry {
  import opened Lagrange

  /** The index that position j of a sequence with positions k and k + 1
      exchanged was taken from. */
  function Partner(k: int, j: int): int {
    if j == k then k + 1 else if j == k + 1 then k else j
  }

  /** zs is xs with the elements at k and k + 1 exchanged. */
  ghost predicate IsSwap<T>(zs: seq<T>, xs: seq<T>, k: int) {
    && |zs| == |xs| && 0 <= k && k + 1 < |xs|
    && forall j :: 0 <= j < |xs| ==> 0 <= Partner(k, j) < |xs| && zs[j] == xs[Partner(k, j)]
  }

  /** s with the elements at k and k + 1 exchanged. */
  function Swap<T>(s: seq<T>, k: int): (r: seq<T>)
    requires 0 <= k && k + 1 < |s|
    ensures IsSwap(r, s, k)
  {
    s[..k] + [s[k + 1], s[k]] + s[k + 2..]
  }

  /** Exchanging two nodes keeps them pairwise distinct. */
  lemma SwapKeepsDistinct(zs: seq<real>, xs: seq<real>, k: int)
    requires IsSwap(zs, xs, k) && Distinct(xs)
    ensures Distinct(zs)
  {
    forall a, b | 0 <= a < |zs| && 0 <= b < |zs| && a != b
      ensures zs[a] != zs[b]
    {
      assert zs[a] == xs[Partner(k, a)] && zs[b] == xs[Partner(k, b)];
    }
  }

  function Prod(fs: seq<real>): real {
    if |fs| == 0 then 1.0 else Prod(fs[..|fs| - 1]) * fs[|fs| - 1]
  }

  function Total(vs: seq<real>): real {
    if |vs| == 0 then 0.0 else Total(vs[..|vs| - 1]) + vs[|vs| - 1]
  }

  lemma {:induction false} ProdOfSwap(gs: seq<real>, fs: seq<real>, k: int)
    requires IsSwap(gs, fs, k)
    ensures Prod(gs) == Prod(fs)
    decreases |fs|
  {
    var n := |fs|;
    if n == k + 2 {
      assert gs[..k] == fs[..k];
      assert gs[..k + 1][..k] == gs[..k] && fs[..k + 1][..k] == fs[..k];
      assert gs[k] == fs[k + 1] && gs[k + 1] == fs[k];
      var p := Prod(fs[..k]);
      assert Prod(gs) == p * fs[k + 1] * fs[k];
      assert Prod(fs) == p * fs[k] * fs[k + 1];
    } else {
      assert IsSwap(gs[..n - 1], fs[..n - 1], k);
      ProdOfSwap(gs[..n - 1], fs[..n - 1], k);
    }
  }

  lemma {:induction false} TotalOfSwap(ws: seq<real>, vs: seq<real>, k: int)
    requires IsSwap(ws, vs, k)
    ensures Total(ws) == Total(vs)
    decreases |vs|
  {
    var n := |vs|;
    if n == k + 2 {
      assert ws[..k] == vs[..k];
      assert ws[..k + 1][..k] == ws[..k] && vs[..k + 1][..k] == vs[..k];
    } else {
      assert IsSwap(ws[..n - 1], vs[..n - 1], k);
      TotalOfSwap(ws[..n - 1], vs[..n - 1], k);
    }
  }

  /** The factor node i contributes at index j of its basis product: 1 at its
      own index, (t - x_j) / (x_i - x_j) elsewhere. */
  function Step(xs: seq<real>, i: int, t: real, j: int): real
    requires 0 <= i < |xs| && 0 <= j < |xs| && (j == i || xs[j] != xs[i])
  {
    if j == i then 1.0 else Factor(xs, i, t, j)
  }

  /** The factors of the basis weight of node i, one per index below m. */
  function Steps(xs: seq<real>, i: int, t: real, m: int): (fs: seq<real>)
    requires 0 <= i < |xs| && 0 <= m <= |xs|
    requires forall j :: 0 <= j < m && j != i ==> xs[j] != xs[i]
    ensures |fs| == m && forall j :: 0 <= j < m ==> fs[j] == Step(xs, i, t, j)
  {
    seq(m, j requires 0 <= j < m => Step(xs, i, t, j))
  }

  /** The terms y_i * l_i(t) of the interpolant, one per node below m. */
  function Terms(xs: seq<real>, ys: seq<real>, t: real, m: int): (vs: seq<real>)
    requires 0 <= m <= |xs| && m <= |ys|
    requires forall i :: 0 <= i < m ==> Isolated(xs, i)
    ensures |vs| == m && forall i :: 0 <= i < m ==> vs[i] == ys[i] * Basis(xs, i, t)
  {
    seq(m, i requires 0 <= i < m => ys[i] * Basis(xs, i, t))
  }

  lemma {:induction false} BasisIsProd(xs: seq<real>, i: int, t: real, m: int)
    requires 0 <= i < |xs| && 0 <= m <= |xs|
    requires forall j :: 0 <= j < m && j != i ==> xs[j] != xs[i]
    ensures BasisUpTo(xs, i, t, m) == Prod(Steps(xs, i, t, m))
  {
    if m > 0 {
      BasisIsProd(xs, i, t, m - 1);
      assert Steps(xs, i, t, m)[..m - 1] == Steps(xs, i, t, m - 1);
    }
  }

  lemma {:induction false} PartialSumIsTotal(xs: seq<real>, ys: seq<real>, t: real, m: int)
    requires 0 <= m <= |xs| && m <= |ys|
    requires forall i :: 0 <= i < m ==> Isolated(xs, i)
    ensures PartialSum(xs, ys, t, m) == Total(Terms(xs, ys, t, m))
  {
    if m > 0 {
      PartialSumIsTotal(xs, ys, t, m - 1);
      assert Terms(xs, ys, t, m)[..m - 1] == Terms(xs, ys, t, m - 1);
    }
  }

  /** Node i of the exchanged data has the basis weight of node Partner(k, i)
      of the original: the same factors with two of them exchanged. */
  lemma SwapBasis(zs: seq<real>, xs: seq<real>, k: int, i: int, t: real)
    requires IsSwap(zs, xs, k) && Distinct(xs) && 0 <= i < |xs|
    ensures Distinct(zs)
    ensures 0 <= Partner(k, i) < |xs|
    ensures Basis(zs, i, t) == Basis(xs, Partner(k, i), t)
  {
    SwapKeepsDistinct(zs, xs, k);
    var n, p := |xs|, Partner(k, i);
    assert zs[i] == xs[p];
    var gs, fs := Steps(zs, i, t, n), Steps(xs, p, t, n);
    forall j | 0 <= j < n
      ensures 0 <= Partner(k, j) < n && gs[j] == fs[Partner(k, j)]
    {
      assert zs[j] == xs[Partner(k, j)];
    }
    ProdOfSwap(gs, fs, k);
    BasisIsProd(zs, i, t, n);
    BasisIsProd(xs, p, t, n);
  }

  /** Exchanging two neighbouring data points, x and y together, does not
      change the interpolated value at any target. */
  lemma AdjacentSwapInvariance(xs: seq<real>, ys: seq<real>, t: real, k: int)
    requires |xs| == |ys| && Distinct(xs) && 0 <= k && k + 1 < |xs|
    ensures Distinct(Swap(xs, k))
    ensures Interpolant(Swap(xs, k), Swap(ys, k), t) == Interpolant(xs, ys, t)
  {
    var n, zs, ws := |xs|, Swap(xs, k), Swap(ys, k);
    SwapKeepsDistinct(zs, xs, k);
    var us, vs := Terms(zs, ws, t, n), Terms(xs, ys, t, n);
    forall i | 0 <= i < n
      ensures 0 <= Partner(k, i) < n && us[i] == vs[Partner(k, i)]
    {
      SwapBasis(zs, xs, k, i, t);
      assert ws[i] == ys[Partner(k, i)];
    }
    TotalOfSwap(us, vs, k);
    PartialSumIsTotal(zs, ws, t, n);
    PartialSumIsTotal(xs, ys, t, n);
  }

  /** s after exchanging the neighbours at ks[0], then at ks[1], and so on.
      Any reordering can be written this way (bubble sort gives one such ks);
      that fact itself is not proved here. */
  function ApplySwaps<T>(s: seq<T>, ks: seq<int>): (r: seq<T>)
    requires forall i :: 0 <= i < |ks| ==> 0 <= ks[i] && ks[i] + 1 < |s|
    ensures |r| == |s|
    decreases |ks|
  {
    if |ks| == 0 then s else ApplySwaps(Swap(s, ks[0]), ks[1..])
  }

  /** Listing the data points in any order reachable by neighbour exchanges,
      moving each y-value with its x-value, gives the same interpolant. */
  lemma {:induction false} ReorderingInvariance(xs: seq<real>, ys: seq<real>, t: real, ks: seq<int>)
    requires |xs| == |ys| && Distinct(xs)
    requires forall i :: 0 <= i < |ks| ==> 0 <= ks[i] && ks[i] + 1 < |xs|
    ensures Distinct(ApplySwaps(xs, ks))
    ensures Interpolant(ApplySwaps(xs, ks), ApplySwaps(ys, ks), t) == Interpolant(xs, ys, t)
    decreases |ks|
  {
    if |ks| > 0 {
      AdjacentSwapInvariance(xs, ys, t, ks[0]);
      ReorderingInvariance(Swap(xs, ks[0]), Swap(ys, ks[0]), t, ks[1..]);
    }
  }
}
