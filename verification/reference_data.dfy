/** The five (year, population in millions) pairs hard-coded in the
    interactive driver of Interpolation.py, as concrete instances of the
    general facts.
 */
module ReferenceData {
  import opened Lagrange
  import opened LagrangeFacts
  import opened TimeEncoder

  const Years: seq<real> := [2010.0, 2015.0, 2016.0, 2017.0, 2018.0]
  const Populations: seq<real> := [238.0, 255.0, 258.0, 261.0, 264.0]

  /** At the known year 2016 the interpolant returns the recorded 258. */
  lemma ReferenceNodeIsExact()
    ensures Distinct(Years)
    ensures Interpolant(Years, Populations, 2016.0) == 258.0
  {
    NodeExactness(Years, Populations, 2);
  }

  /** The five basis weights at 2019. */
  lemma BasesAt2019()
    ensures Distinct(Years)
    ensures Basis(Years, 0, 2019.0) == 1.0 / 70.0
    ensures Basis(Years, 1, 2019.0) == -(9.0 / 5.0)
    ensures Basis(Years, 2, 2019.0) == 6.0
    ensures Basis(Years, 3, 2019.0) == -(54.0 / 7.0)
    ensures Basis(Years, 4, 2019.0) == 9.0 / 2.0
  {
    assert BasisUpTo(Years, 0, 2019.0, 1) == 1.0;
    assert BasisUpTo(Years, 0, 2019.0, 2) == -(4.0 / 5.0);
    assert BasisUpTo(Years, 0, 2019.0, 3) == 2.0 / 5.0;
    assert BasisUpTo(Years, 0, 2019.0, 4) == -(4.0 / 35.0);
    assert BasisUpTo(Years, 1, 2019.0, 1) == 9.0 / 5.0;
    assert BasisUpTo(Years, 1, 2019.0, 2) == 9.0 / 5.0;
    assert BasisUpTo(Years, 1, 2019.0, 3) == -(27.0 / 5.0);
    assert BasisUpTo(Years, 1, 2019.0, 4) == 27.0 / 5.0;
    assert BasisUpTo(Years, 2, 2019.0, 1) == 3.0 / 2.0;
    assert BasisUpTo(Years, 2, 2019.0, 2) == 6.0;
    assert BasisUpTo(Years, 2, 2019.0, 3) == 6.0;
    assert BasisUpTo(Years, 2, 2019.0, 4) == -12.0;
    assert BasisUpTo(Years, 3, 2019.0, 1) == 9.0 / 7.0;
    assert BasisUpTo(Years, 3, 2019.0, 2) == 18.0 / 7.0;
    assert BasisUpTo(Years, 3, 2019.0, 3) == 54.0 / 7.0;
    assert BasisUpTo(Years, 3, 2019.0, 4) == 54.0 / 7.0;
    assert BasisUpTo(Years, 4, 2019.0, 1) == 9.0 / 8.0;
    assert BasisUpTo(Years, 4, 2019.0, 2) == 3.0 / 2.0;
    assert BasisUpTo(Years, 4, 2019.0, 3) == 9.0 / 4.0;
    assert BasisUpTo(Years, 4, 2019.0, 4) == 9.0 / 2.0;
  }

  /** Extrapolating to 2019 continues the trend of the last four years
      (3 per year) less a small correction from the 2010 point. */
  lemma ReferenceExtrapolation()
    ensures Distinct(Years)
    ensures Interpolant(Years, Populations, 2019.0) == 9344.0 / 35.0
  {
    BasesAt2019();
    assert PartialSum(Years, Populations, 2019.0, 1) == 17.0 / 5.0;
    assert PartialSum(Years, Populations, 2019.0, 2) == -(2278.0 / 5.0);
    assert PartialSum(Years, Populations, 2019.0, 3) == 5462.0 / 5.0;
    assert PartialSum(Years, Populations, 2019.0, 4) == -(32236.0 / 35.0);
    assert PartialSum(Years, Populations, 2019.0, 5) == 9344.0 / 35.0;
  }

  /** The five basis weights at 2016.5. */
  lemma BasesAtMid2016()
    ensures Distinct(Years)
    ensures Basis(Years, 0, 2016.5) == 3.0 / 8960.0
    ensures Basis(Years, 1, 2016.5) == -(13.0 / 160.0)
    ensures Basis(Years, 2, 2016.5) == 39.0 / 64.0
    ensures Basis(Years, 3, 2016.5) == 117.0 / 224.0
    ensures Basis(Years, 4, 2016.5) == -(13.0 / 256.0)
  {
    assert BasisUpTo(Years, 0, 2016.5, 1) == 1.0;
    assert BasisUpTo(Years, 0, 2016.5, 2) == -(3.0 / 10.0);
    assert BasisUpTo(Years, 0, 2016.5, 3) == 1.0 / 40.0;
    assert BasisUpTo(Years, 0, 2016.5, 4) == 1.0 / 560.0;
    assert BasisUpTo(Years, 1, 2016.5, 1) == 13.0 / 10.0;
    assert BasisUpTo(Years, 1, 2016.5, 2) == 13.0 / 10.0;
    assert BasisUpTo(Years, 1, 2016.5, 3) == -(13.0 / 20.0);
    assert BasisUpTo(Years, 1, 2016.5, 4) == -(13.0 / 80.0);
    assert BasisUpTo(Years, 2, 2016.5, 1) == 13.0 / 12.0;
    assert BasisUpTo(Years, 2, 2016.5, 2) == 13.0 / 8.0;
    assert BasisUpTo(Years, 2, 2016.5, 3) == 13.0 / 8.0;
    assert BasisUpTo(Years, 2, 2016.5, 4) == 13.0 / 16.0;
    assert BasisUpTo(Years, 3, 2016.5, 1) == 13.0 / 14.0;
    assert BasisUpTo(Years, 3, 2016.5, 2) == 39.0 / 56.0;
    assert BasisUpTo(Years, 3, 2016.5, 3) == 39.0 / 112.0;
    assert BasisUpTo(Years, 3, 2016.5, 4) == 39.0 / 112.0;
    assert BasisUpTo(Years, 4, 2016.5, 1) == 13.0 / 16.0;
    assert BasisUpTo(Years, 4, 2016.5, 2) == 13.0 / 32.0;
    assert BasisUpTo(Years, 4, 2016.5, 3) == 13.0 / 128.0;
    assert BasisUpTo(Years, 4, 2016.5, 4) == -(13.0 / 256.0);
  }

  /** End to end: July 2016 encodes as 2016.5, and the interpolated value
      there lies between the populations recorded for 2016 and 2017. */
  lemma ReferenceMidYear()
    ensures Distinct(Years)
    ensures MonthToFraction(2016, 7) == 2016.5
    ensures Interpolant(Years, Populations, MonthToFraction(2016, 7)) == 1162557.0 / 4480.0
    ensures 258.0 < Interpolant(Years, Populations, MonthToFraction(2016, 7)) < 261.0
  {
    BasesAtMid2016();
    assert PartialSum(Years, Populations, 2016.5, 1) == 51.0 / 640.0;
    assert PartialSum(Years, Populations, 2016.5, 2) == -(13209.0 / 640.0);
    assert PartialSum(Years, Populations, 2016.5, 3) == 87411.0 / 640.0;
    assert PartialSum(Years, Populations, 2016.5, 4) == 1222617.0 / 4480.0;
    assert PartialSum(Years, Populations, 2016.5, 5) == 1162557.0 / 4480.0;
  }
}
