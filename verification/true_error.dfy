/** True absolute and percent relative error of a prediction
    (calculate_true_error in Interpolation.py), over exact `real` arithmetic.
 */
module TrueError {
  import opened Outcomes

  /** Python's abs on a real number. */
  function Abs(x: real): (a: real)
    ensures a >= 0.0 && (a == x || a == -x)
  {
    if x < 0.0 then -x else x
  }

  /** The pair calculate_true_error returns: the absolute true error and the
      absolute percent relative error. */
  datatype ErrorReport = ErrorReport(absolute: real, relativePercent: real)

  /** The distance between the actual and the predicted value. */
  function AbsoluteTrueError(actual: real, predicted: real): (e: real)
    ensures e >= 0.0
    ensures e == actual - predicted || e == predicted - actual
    ensures e == 0.0 <==> actual == predicted
  {
    Abs(actual - predicted)
  }

  /** The absolute error as a percentage of |actual|; a zero actual value
      would be a division by zero. */
  function RelativeTrueError(actual: real, predicted: real): (p: real)
    requires actual != 0.0
    ensures p * Abs(actual) == 100.0 * AbsoluteTrueError(actual, predicted)
    ensures p >= 0.0
    ensures p == 0.0 <==> predicted == actual
  {
    (AbsoluteTrueError(actual, predicted) / Abs(actual)) * 100.0
  }

  /** calculate_true_error: the absolute error, then the relative error,
      whose division by |actual| raises ZeroDivisionError when actual is 0
      (the interactive driver checks for 0 before calling). */
  function CalculateTrueError(actual: real, predicted: real): (r: Result<ErrorReport>)
    ensures r.Err? <==> actual == 0.0
    ensures r.Err? ==> r.fault == ZeroDivisionError
    ensures r.Ok? ==> r.value == ErrorReport(AbsoluteTrueError(actual, predicted), RelativeTrueError(actual, predicted))
  {
    var absolute := AbsoluteTrueError(actual, predicted);
    if Abs(actual) == 0.0 then Err(ZeroDivisionError)
    else Ok(ErrorReport(absolute, RelativeTrueError(actual, predicted)))
  }

  /** The absolute error does not depend on which value is called actual. */
  lemma AbsoluteErrorIsSymmetric(a: real, b: real)
    ensures AbsoluteTrueError(a, b) == AbsoluteTrueError(b, a)
  {
  }

  /** The relative error is unit-free: measuring both values in another unit
      (multiplying both by c != 0) leaves the percentage unchanged. */
  lemma RelativeErrorIsScaleInvariant(actual: real, predicted: real, c: real)
    requires actual != 0.0 && c != 0.0
    ensures c * actual != 0.0
    ensures RelativeTrueError(c * actual, c * predicted) == RelativeTrueError(actual, predicted)
  {
    var e, a, k := Abs(actual - predicted), Abs(actual), Abs(c);
    var scaledE, scaledA := AbsoluteTrueError(c * actual, c * predicted), Abs(c * actual);
    AbsOfProduct(c, actual);
    assert c * actual - c * predicted == c * (actual - predicted);
    AbsOfProduct(c, actual - predicted);
    assert scaledE == k * e && scaledA == k * a;
    CancelCommonFactor(k, e, a);
    assert RelativeTrueError(c * actual, c * predicted) == (scaledE / scaledA) * 100.0;
    assert RelativeTrueError(actual, predicted) == (e / a) * 100.0;
  }

  lemma AbsOfProduct(a: real, b: real)
    ensures Abs(a * b) == Abs(a) * Abs(b)
  {
    if a < 0.0 && b < 0.0 {
      assert a * b == (-a) * (-b);
    } else if a < 0.0 {
      assert -(a * b) == (-a) * b;
    } else if b < 0.0 {
      assert -(a * b) == a * (-b);
    }
  }

  lemma CancelCommonFactor(k: real, e: real, d: real)
    requires k != 0.0 && d != 0.0
    ensures (k * e) / (k * d) == e / d
  {
    var q := e / d;
    assert q * d == e;
    assert k * e == q * (k * d);
  }

  /** calculate_true_error(100, 90) gives an error of 10, which is 10 percent. */
  lemma HundredAgainstNinety()
    ensures CalculateTrueError(100.0, 90.0) == Ok(ErrorReport(10.0, 10.0))
  {
  }
}
