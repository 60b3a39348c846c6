# Lagrange interpolation of a population series, in Dafny

This project models the computational core of `Interpolation.py`, a small
program that estimates a population for a given year and month. It uses
Lagrange polynomial interpolation, or extrapolation, through five known
(year, population) points, and it reports the true error against an actual
value when one is given. The core is three stateless functions used in
sequence:

- `month_to_fraction` turns (year, month) into a fractional-year
  x-coordinate: `TimeEncoder.MonthToFraction`.
- `lagrange_interpolation` evaluates the Lagrange-form polynomial at a target
  x with two nested loops: `Lagrange.LagrangeInterpolation`. Its reference
  definition is `Lagrange.Interpolant`, the sum over i of
  y_i · prod_{j != i} (t − x_j)/(x_i − x_j).
- `calculate_true_error` returns the absolute error and the percent relative
  error: `TrueError.CalculateTrueError`.

**Real-number abstraction.** The program computes in IEEE double precision.
The model computes in Dafny `real`, which means exact rationals. Every
equation proved here is exact where the program would only be close. Rounding,
overflow, infinities and NaN are not modelled.

**Exceptions.** The Python code never catches anything. In Python a float
divided by `0.0` raises `ZeroDivisionError` rather than giving infinity or
NaN. An index past the end of a list raises `IndexError`. The model returns
these as `Outcomes.Result` values (`Err(ZeroDivisionError)`,
`Err(IndexError)`). The interpolation loops fail in one of two ways:

- a node that shares its x with another node makes a divisor zero;
- `y_values` can be shorter than `x_values`.

Extra y-values are never read. `Lagrange.RaisedFrom` says which exception is
raised first.

**Edge cases.**
- With no data points the code returns the initial `0.0`, and so does the
  model.
- Repeated x-values and a zero actual value both raise Python's
  `ZeroDivisionError`. The month is never checked, so the model accepts any
  integer month. Properties that need a calendar month require
  `1 <= month <= 12`.

Modules: `Outcomes` (faults and results), `Lagrange` (reference definitions
and the loop method), `LagrangeFacts` (algebraic properties),
`LagrangeSymmetry` (reordering the data points), `TrueError`, `TimeEncoder`,
and `ReferenceData` (the program's hard-coded data set).

## Model

| member | source | states |
|---|---|---|
| `Lagrange.LagrangeInterpolation` | Interpolation.py:3-18 | The nested loops succeed exactly when the x-values are pairwise distinct and there are at least as many y-values as x-values. On success the result is the Lagrange sum over the first len(x) points, for any target (extrapolation included). Otherwise the result is the exception the loops raise first. No points give 0.0 |
| `Lagrange.BasisWeight` | Interpolation.py:12-15 | The inner loop returns the basis weight l_i(t) exactly when no other node shares x_i. Otherwise it raises ZeroDivisionError |
| `Lagrange.RaisedFrom` | Interpolation.py:11-16 | Which exception the outer loop raises from node k on. None exactly when every later node has a distinct x and a y-value. IndexError only when y is shorter than x. ZeroDivisionError only when two x-values coincide, and exactly when a node sharing its x is reached before any node without a y-value |
| `LagrangeFacts.BasisIsOneAtOwnNode` | Interpolation.py:12-15 | The basis weight l_k evaluated at x_k is 1: every factor is (x_k − x_j)/(x_k − x_j) |
| `LagrangeFacts.BasisVanishesAtOtherNode` | Interpolation.py:12-15 | The basis weight l_i, i != k, evaluated at x_k is 0 once its product includes index k |
| `LagrangeFacts.PartialSumAtNode` | Interpolation.py:11-16 | At target x_k the accumulated sum over the first m nodes is y_k if k < m, and 0 otherwise |
| `LagrangeFacts.NodeExactness` | Interpolation.py:11-16 | For distinct x-values the interpolant at x_k is exactly y_k |
| `LagrangeFacts.SingleNodeIsConstant` | Interpolation.py:11-16 | With one point the result is y0 for every target (degree 0) |
| `LagrangeFacts.TwoNodesAreLinear` | Interpolation.py:11-16 | With two distinct points the result is y0 + (y1 − y0)(t − x0)/(x1 − x0) for every t, inside or outside [x0, x1] |
| `LagrangeSymmetry.SwapBasis` | Interpolation.py:12-15 | Exchanging two neighbouring nodes keeps the x-values distinct, and afterwards node i has the basis weight that its partner node had before |
| `LagrangeSymmetry.AdjacentSwapInvariance` | Interpolation.py:11-16 | Exchanging two neighbouring (x, y) points keeps the x-values distinct and leaves the interpolant unchanged at every target |
| `LagrangeSymmetry.ReorderingInvariance` | Interpolation.py:11-16 | Any sequence of neighbour exchanges applied to x and y together leaves the interpolant unchanged |
| `TrueError.AbsoluteTrueError` | Interpolation.py:30 | The absolute error is non-negative, is ±(actual − predicted), and is zero exactly when predicted equals actual |
| `TrueError.AbsoluteErrorIsSymmetric` | Interpolation.py:30 | The absolute error is symmetric in its two arguments |
| `TrueError.RelativeTrueError` | Interpolation.py:31 | For a non-zero actual value, the relative error r satisfies r·abs(actual) = 100·absolute error. r is non-negative and zero exactly when predicted equals actual |
| `TrueError.CalculateTrueError` | Interpolation.py:30-32 | Fails with ZeroDivisionError exactly when actual is 0. Otherwise it returns the pair (absolute error, relative error) |
| `TrueError.RelativeErrorIsScaleInvariant` | Interpolation.py:31 | Multiplying actual and predicted by the same non-zero factor leaves the percent relative error unchanged |
| `TrueError.HundredAgainstNinety` | Interpolation.py:30-32 | An actual value of 100 against a prediction of 90 gives errors (10, 10) |
| `TimeEncoder.MonthToFraction` | Interpolation.py:44 | Month 1 gives exactly the year. A calendar month lands in [year, year + 11/12]. Twelve times the fraction past the year is the number of months already elapsed |
| `TimeEncoder.YearMonthRoundTrip` | Interpolation.py:44 | For months 1..12, reading the fractional year back (whole part, then elapsed twelfths) recovers (year, month) |
| `TimeEncoder.MonthToFractionIsIncreasing` | Interpolation.py:44 | Within a year the encoding is strictly increasing in the month |
| `TimeEncoder.MonthToFractionIsChronological` | Interpolation.py:44 | For calendar months, (y1, m1) is earlier than (y2, m2) exactly when its encoding is smaller |
| `TimeEncoder.Examples` | Interpolation.py:44 | (2020, 1) encodes as 2020.0 and (2020, 7) as 2020.5 |
| `ReferenceData.ReferenceNodeIsExact` | Interpolation.py:51-52 | The hard-coded years are distinct, and interpolating at 2016 returns the recorded 258 |
| `ReferenceData.ReferenceExtrapolation` | Interpolation.py:51-52 | Extrapolating the hard-coded data to 2019 gives exactly 9344/35 |
| `ReferenceData.ReferenceMidYear` | Interpolation.py:51-62 | July 2016 encodes as 2016.5. The interpolated value there is 1162557/4480, strictly between the 2016 and 2017 populations |

## Left out

- `main` (the interactive driver) is not modelled. It prompts for a year, a
  month and an actual value, parses them with `int` and `float`, prints with
  six decimals, and calls itself again to repeat. All of that is console I/O.
  The driver's zero check on the actual value, the only reason
  `calculate_true_error` never raises there, is stated as the error case of
  `TrueError.CalculateTrueError`.
- `import numpy as np` is not modelled. The core never uses it.
- Floating point is not modelled. All arithmetic is over exact `real`, so the
  rounding error that the program accumulates is not modelled.
- Python's dynamic typing is not modelled. `x_values` may hold ints in the
  source, and the model takes every input as `real`.
- LagrangeSymmetry.ReorderingInvariance: states invariance under any sequence
  of neighbour exchanges, not directly under an arbitrary permutation. That
  every permutation is such a sequence is a standard fact that is not proved
  here.
