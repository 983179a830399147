/** Least-squares polynomials over a window of evenly spaced integer data, as an instance of Regression. */
module PolynomialFit {
  import opened Sums
  import opened Exchange
  import opened Pivots
  import opened Regression
  import opened Moments

  ghost function Start(hw: int): int { -hw }

  /** i is one of the window's positions. */
  ghost predicate Inside(hw: int, i: int) { -hw <= i <= hw }

  ghost function PolyTerms(c: seq<real>, i: int): Vector {
    k => if 0 <= k < |c| then Times(c[k], Power(i, k) as real) else 0.0
  }

  /** The polynomial with coefficients c, at i. */
  ghost function Poly(c: seq<real>, i: int): real { Sum(|c|, PolyTerms(c, i)) }

  ghost function Deviations(c: seq<real>, hw: nat, d: Series): Vector {
    s => Times(d(s - hw) as real - Poly(c, s - hw), d(s - hw) as real - Poly(c, s - hw))
  }

  /** The sum of squared differences between the data and the polynomial over -hw .. hw. */
  ghost function Deviation(c: seq<real>, hw: nat, d: Series): real { Sum(2 * hw + 1, Deviations(c, hw, d)) }

  ghost predicate Best(c: seq<real>, hw: nat, d: Series) {
    forall b: seq<real> :: |b| == |c| ==> Deviation(c, hw, d) <= Deviation(b, hw, d)
  }

  // ----- the window as regression samples -----

  ghost function PowersOf(n: nat, i: int): (x: seq<real>)
    ensures |x| == n && forall k :: 0 <= k < n ==> x[k] == Power(i, k) as real
  {
    seq(n, k requires 0 <= k < n => Power(i, k) as real)
  }

  ghost function Points(n: nat, hw: nat, d: Series): (samples: seq<Sample>)
    ensures |samples| == 2 * hw + 1
    ensures forall s :: 0 <= s < |samples| ==> samples[s] == Sample(d(s - hw) as real, PowersOf(n, s - hw))
  {
    seq(2 * hw + 1, s requires 0 <= s < 2 * hw + 1 => Sample(d(s - hw) as real, PowersOf(n, s - hw)))
  }

  ghost function AllIn(n: nat): (flags: seq<bool>)
    ensures |flags| == n && forall k :: 0 <= k < n ==> Play(flags, k)
  {
    seq(n, k => false)
  }

  ghost function PowerMatrix(n: nat, hw: nat): (A: Matrix)
    ensures forall i, j :: 0 <= i < n && 0 <= j < n ==> At(A, i, j) == Moment(i + j, hw, Ones()) as real
  {
    seq(n, i requires 0 <= i < n => seq(n, j requires 0 <= j < n => Moment(i + j, hw, Ones()) as real))
  }

  ghost function DataMoments(hw: nat, d: Series): Vector { j => if j >= 0 then Moment(j, hw, d) as real else 0.0 }

  lemma {:induction false} SumIsRange(n: nat, lo: int, f: Vector, g: Series)
    requires forall s :: 0 <= s < n ==> f(s) == g(s + lo) as real
    ensures Sum(n, f) == RangeSum(lo, lo + n, g) as real
  {
    if n > 0 { SumIsRange(n - 1, lo, f, g); }
  }

  lemma RealTimes(a: int, b: int)
    ensures Times(a as real, b as real) == (a * b) as real
  {
  }

  lemma {:induction false} PowerAdds(i: int, a: nat, b: nat)
    ensures Power(i, a) * Power(i, b) == Power(i, a + b)
  {
    if a > 0 {
      PowerAdds(i, a - 1, b);
      Regroup(i, Power(i, a - 1), Power(i, b));
    }
  }

  lemma Regroup(i: int, a: int, b: int)
    ensures (i * a) * b == i * (a * b)
  {
  }

  /** The sums a regression over the window accumulates are the moments. */
  lemma PointsAccumulate(n: nat, hw: nat, d: Series)
    ensures Accumulated(AllIn(n), Points(n, hw, d), PowerMatrix(n, hw), DataMoments(hw, d))
  {
    hide Times, Power, RangeSum, Sum, At, AllIn, Points, PowerMatrix;
    var p := Points(n, hw, d);
    forall i, j | 0 <= i < n && 0 <= j < n ensures GramAt(p, i, j) == Moment(i + j, hw, Ones()) as real {
      GramIsMoment(n, hw, d, i, j);
    }
    forall j | 0 <= j < n ensures MomentAt(p, j) == Moment(j, hw, d) as real {
      MomentIsMoment(n, hw, d, j);
    }
  }

  lemma PointIs(n: nat, hw: nat, d: Series, k: nat, s: nat)
    requires k < n && s < 2 * hw + 1
    ensures Correlate(Points(n, hw, d), k)(s) == Power(s - hw, k) as real
    ensures Given(Points(n, hw, d))(s) == d(s - hw) as real
  {
    hide Power;
  }

  lemma GramIsMoment(n: nat, hw: nat, d: Series, i: nat, j: nat)
    requires i < n && j < n
    ensures GramAt(Points(n, hw, d), i, j) == Moment(i + j, hw, Ones()) as real
  {
    hide Times, Power, RangeSum, Sum, Correlate, Points;
    var p, g := Points(n, hw, d), Weighted(i + j, Ones());
    var f := Pairwise(Correlate(p, i), Correlate(p, j));
    forall s | 0 <= s < 2 * hw + 1 ensures f(s) == g(s + Start(hw)) as real {
      PointIs(n, hw, d, i, s);
      PointIs(n, hw, d, j, s);
      RealTimes(Power(s - hw, i), Power(s - hw, j));
      PowerAdds(s - hw, i, j);
    }
    SumIsRange(2 * hw + 1, Start(hw), f, g);
  }

  lemma MomentIsMoment(n: nat, hw: nat, d: Series, j: nat)
    requires j < n
    ensures MomentAt(Points(n, hw, d), j) == Moment(j, hw, d) as real
  {
    hide Times, Power, RangeSum, Sum, Correlate, Given, Points;
    var p, g := Points(n, hw, d), Weighted(j, d);
    var f := Pairwise(Given(p), Correlate(p, j));
    forall s | 0 <= s < 2 * hw + 1 ensures f(s) == g(s + Start(hw)) as real {
      PointIs(n, hw, d, j, s);
      RealTimes(d(s - hw), Power(s - hw, j));
      assert d(s - hw) * Power(s - hw, j) == Power(s - hw, j) * d(s - hw);
    }
    SumIsRange(2 * hw + 1, Start(hw), f, g);
  }

  lemma FitIsPoly(n: nat, hw: nat, d: Series, c: seq<real>, s: nat)
    requires |c| == n && s < 2 * hw + 1
    ensures Fit(AllIn(n), Points(n, hw, d), Of(c))(s) == Poly(c, s - hw)
  {
    hide Times, Power, Sum, Correlate, Points;
    var f, g := FitTerms(AllIn(n), Points(n, hw, d), Of(c), s), PolyTerms(c, s - hw);
    forall k | 0 <= k < n ensures f(k) == g(k) { PointIs(n, hw, d, k, s); }
    SumExt(n, f, g);
  }

  lemma DeviationIsMisfit(n: nat, hw: nat, d: Series, c: seq<real>)
    requires |c| == n
    ensures Deviation(c, hw, d) == Misfit(AllIn(n), Points(n, hw, d), Of(c))
  {
    hide Times, Power, Sum, Fit, Poly, AllIn;
    var r := Residual(AllIn(n), Points(n, hw, d), Of(c));
    forall s | 0 <= s < 2 * hw + 1 ensures Deviations(c, hw, d)(s) == Pairwise(r, r)(s) {
      FitIsPoly(n, hw, d, c, s);
    }
    SumExt(2 * hw + 1, Deviations(c, hw, d), Pairwise(r, r));
  }

  /** The normal equations of the window. */
  ghost predicate Normal(c: seq<real>, hw: nat, d: Series) {
    Maps(AllIn(|c|), PowerMatrix(|c|, hw), Of(c), DataMoments(hw, d))
  }

  /** A solution of the normal equations is a least-squares polynomial. */
  lemma NormalBest(c: seq<real>, hw: nat, d: Series)
    requires Normal(c, hw, d)
    ensures Best(c, hw, d)
  {
    hide Deviation, Misfit, Maps, Accumulated, AllIn, PowerMatrix, DataMoments, Points;
    var n := |c|;
    PointsAccumulate(n, hw, d);
    NormalMinimises(AllIn(n), Points(n, hw, d), PowerMatrix(n, hw), DataMoments(hw, d), Of(c));
    DeviationIsMisfit(n, hw, d, c);
    forall b: seq<real> | |b| == n ensures Deviation(c, hw, d) <= Deviation(b, hw, d) {
      DeviationIsMisfit(n, hw, d, b);
    }
  }

  /** A polynomial with coefficients c does not vanish on the whole window unless they are all zero. */
  ghost predicate Separates(n: nat, hw: nat) {
    forall c: seq<real> :: |c| == n && (forall i :: Inside(hw, i) ==> Poly(c, i) == 0.0) ==>
      forall k :: 0 <= k < n ==> c[k] == 0.0
  }

  lemma SeparatesIndependent(n: nat, hw: nat, d: Series)
    requires Separates(n, hw)
    ensures Independent(AllIn(n), Points(n, hw, d))
  {
    hide Fit, Poly, AllIn, Points;
    var p := Points(n, hw, d);
    forall x: seq<real> | |x| == n && Nonzero(AllIn(n), x)
      ensures exists s :: 0 <= s < |p| && Fit(AllIn(n), p, Of(x))(s) != 0.0
    {
      var i :| Inside(hw, i) && Poly(x, i) != 0.0;
      FitIsPoly(n, hw, d, x, i + hw);
    }
  }

  /** With enough points the least-squares polynomial is the only one. */
  lemma NormalOnlyBest(c: seq<real>, hw: nat, d: Series, b: seq<real>)
    requires Normal(c, hw, d) && Separates(|c|, hw)
    requires |b| == |c| && b != c
    ensures Deviation(c, hw, d) < Deviation(b, hw, d)
  {
    hide Deviation, Misfit, Maps, Accumulated, AllIn, PowerMatrix, DataMoments, Points, Independent, Separates;
    var n := |c|;
    var k :| 0 <= k < n && b[k] != c[k];
    assert Play(AllIn(n), k) && Of(b)(k) != Of(c)(k);
    SeparatesIndependent(n, hw, d);
    PointsAccumulate(n, hw, d);
    NormalUnique(AllIn(n), Points(n, hw, d), PowerMatrix(n, hw), DataMoments(hw, d), Of(c), Of(b));
    DeviationIsMisfit(n, hw, d, c);
    DeviationIsMisfit(n, hw, d, b);
  }

  lemma DeviationNonNegative(c: seq<real>, hw: nat, d: Series)
    ensures Deviation(c, hw, d) >= 0.0
    ensures (forall i :: Inside(hw, i) ==> d(i) as real == Poly(c, i)) ==> Deviation(c, hw, d) == 0.0
  {
    hide Poly, Times;
    var f := Deviations(c, hw, d);
    forall s | 0 <= s < 2 * hw + 1 ensures f(s) >= 0.0 { SquareNonNegative(d(s - hw) as real - Poly(c, s - hw)); }
    SumNonNegative(2 * hw + 1, f);
    if forall i :: Inside(hw, i) ==> d(i) as real == Poly(c, i) {
      forall s | 0 <= s < 2 * hw + 1 ensures f(s) == 0.0 {
        assert Inside(hw, s - hw);
        TimesUnit(0.0);
      }
      SumZero(2 * hw + 1, f);
    }
  }

  /** Data that lies on a polynomial is reproduced. */
  lemma Reproduces(c: seq<real>, hw: nat, d: Series, b: seq<real>)
    requires Normal(c, hw, d) && Separates(|c|, hw) && |b| == |c|
    requires forall i :: Inside(hw, i) ==> d(i) as real == Poly(b, i)
    ensures c == b
  {
    hide *;
    DeviationNonNegative(b, hw, d);
    DeviationNonNegative(c, hw, d);
    if b != c { NormalOnlyBest(c, hw, d, b); }
  }
}
