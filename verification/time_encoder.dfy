/** Fractional-year x-coordinates (month_to_fraction in Interpolation.py),
    over exact `real` arithmetic. The source does not check the month; the
    properties below state where they need 1 <= month <= 12.
 */
module TimeEncoder {

  /** month_to_fraction: the start of the given month as a fractional year.
      Twelve times the fraction past the year counts the months already
      elapsed. */
  function MonthToFraction(year: int, month: int): (r: real)
    ensures month == 1 ==> r == year as real
    ensures 1 <= month <= 12 ==> year as real <= r <= year as real + 11.0 / 12.0
    ensures 12.0 * (r - year as real) == (month - 1) as real
  {
    year as real + (month - 1) as real / 12.0
  }

  /** Reads a fractional year back as (year, month): the whole part is the
      year and the twelfths past it are the elapsed months. */
  function FractionToYearMonth(r: real): (int, int) {
    (r.Floor, (12.0 * (r - r.Floor as real)).Floor + 1)
  }

  /** For calendar months the encoding loses nothing: year and month are
      recovered from the fractional year. */
  lemma YearMonthRoundTrip(year: int, month: int)
    requires 1 <= month <= 12
    ensures FractionToYearMonth(MonthToFraction(year, month)) == (year, month)
  {
    var r := MonthToFraction(year, month);
    assert r.Floor == year by {
      assert year as real <= r < year as real + 1.0;
    }
    assert 12.0 * (r - year as real) == (month - 1) as real;
    assert ((month - 1) as real).Floor == month - 1;
  }

  /** Later months of the same year map to strictly larger x-coordinates. */
  lemma MonthToFractionIsIncreasing(year: int, m1: int, m2: int)
    requires m1 < m2
    ensures MonthToFraction(year, m1) < MonthToFraction(year, m2)
  {
  }

  /** For calendar months the encoding is chronological: one (year, month)
      comes before another exactly when its x-coordinate is smaller. */
  lemma MonthToFractionIsChronological(y1: int, m1: int, y2: int, m2: int)
    requires 1 <= m1 <= 12 && 1 <= m2 <= 12
    ensures (y1 < y2 || (y1 == y2 && m1 < m2)) <==> MonthToFraction(y1, m1) < MonthToFraction(y2, m2)
  {
    var r1, r2 := MonthToFraction(y1, m1), MonthToFraction(y2, m2);
    if y1 < y2 {
      assert r1 < y1 as real + 1.0 <= y2 as real <= r2;
    } else if y2 < y1 {
      assert r2 < y2 as real + 1.0 <= y1 as real <= r1;
    }
  }

  /** January is the year itself and July is half-way through it. */
  lemma Examples()
    ensures MonthToFraction(2020, 1) == 2020.0
    ensures MonthToFraction(2020, 7) == 2020.5
  {
  }
}
