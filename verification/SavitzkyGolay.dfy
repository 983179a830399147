/** The parabola that cppext/quadraticfilter.cpp reads off its three moments is the least-squares one. */
module SavitzkyGolay {
  import opened Minimath
  import opened Sums
  import opened Exchange
  import opened Pivots
  import opened Moments
  import opened PolynomialFit
  import QuadraticFilter

  // ----- the filter's constants, by the constructor's formulas -----

  function S0(hw: nat): real { (2 * hw + 1) as real }
  function R0(hw: nat): int { hw * hw + hw }
  function S2(hw: nat): real { S0(hw) * R0(hw) as real / 3.0 }
  function R2(hw: nat): int { 3 * R0(hw) - 1 }
  function S4(hw: nat): real { S2(hw) * R2(hw) as real / 5.0 }
  function D4(hw: nat): real { S0(hw) * S4(hw) - S2(hw) * S2(hw) }

  function Amplitude(hw: nat, y0: int, y2: int): real { Ratio(S4(hw) * y0 as real - S2(hw) * y2 as real, D4(hw)) }
  function Slope(hw: nat, y1: int): real { Ratio(y1 as real, S2(hw)) }
  function Curvature(hw: nat, y0: int, y2: int): real { Ratio(S0(hw) * y2 as real - S2(hw) * y0 as real, D4(hw)) }

  /** The coefficients the filter reports for the data it has accumulated. */
  ghost function Fitted(hw: nat, d: Series): seq<real> {
    var y0, y1, y2 := Moment(0, hw, d), Moment(1, hw, d), Moment(2, hw, d);
    [Amplitude(hw, y0, y2), Slope(hw, y1), Curvature(hw, y0, y2)]
  }

  /** The constants are the sums of powers over the window. */
  lemma ConstantsAreSums(hw: nat)
    ensures Moment(0, hw, Ones()) as real == S0(hw)
      && Moment(2, hw, Ones()) as real == S2(hw)
      && Moment(4, hw, Ones()) as real == S4(hw)
    ensures Moment(1, hw, Ones()) == 0 && Moment(3, hw, Ones()) == 0
  {
    hide Moment;
    PowerSums(hw);
    var s, r, m2, m4 := 2 * hw + 1, hw * hw + hw, Moment(2, hw, Ones()), Moment(4, hw, Ones());
    Thirds(s, r, m2);
    Fifths(s * r, R2(hw), m2, m4);
  }

  lemma Thirds(s: int, r: int, m: int)
    requires 3 * m == s * r
    ensures m as real == s as real * r as real / 3.0
  {
    RealTimes(s, r);
  }

  lemma Fifths(p: int, r: int, m2: int, m4: int)
    requires 3 * m2 == p && 15 * m4 == p * r
    ensures m4 as real == m2 as real * r as real / 5.0
  {
  }

  /** The denominator in closed form: positive exactly when the window has more than one point. */
  lemma DenominatorPositive(hw: nat)
    ensures 15.0 * D4(hw) == S0(hw) * S2(hw) * (4 * R0(hw) - 3) as real
    ensures hw > 0 <==> D4(hw) > 0.0
    ensures hw > 0 <==> S2(hw) > 0.0
    ensures hw == 0 ==> D4(hw) == 0.0 && S2(hw) == 0.0 && S4(hw) == 0.0
  {
  }

  lemma DenominatorIs(hw: nat)
    ensures D4(hw) == S0(hw) * S4(hw) - S2(hw) * S2(hw)
  {
  }

  lemma SizePositive(hw: nat)
    ensures S0(hw) > 0.0 && S2(hw) == S0(hw) * R0(hw) as real / 3.0 && S4(hw) == S2(hw) * R2(hw) as real / 5.0
    ensures R2(hw) == 3 * R0(hw) - 1
    ensures if hw == 0 then R0(hw) == 0 else R0(hw) >= 2
  {
  }

  lemma SumOfThree(f: Vector, n: nat)
    requires n == 3
    ensures Sum(n, f) == f(0) + f(1) + f(2)
  {
  }

  /** The normal equations of a parabola, with the odd sums gone. */
  lemma ThreeEquations(c: seq<real>, hw: nat, d: Series)
    requires |c| == 3
    requires Moment(0, hw, d) as real == S0(hw) * c[0] + S2(hw) * c[2]
    requires Moment(1, hw, d) as real == S2(hw) * c[1]
    requires Moment(2, hw, d) as real == S2(hw) * c[0] + S4(hw) * c[2]
    ensures Normal(c, hw, d)
  {
    hide Moment, S0, S2, S4, Sum, PowerMatrix, AllIn;
    var n := |c|;
    var flags, A := AllIn(n), PowerMatrix(n, hw);
    ConstantsAreSums(hw);
    forall j | 0 <= j < n ensures DataMoments(hw, d)(j) == Sum(n, Terms(flags, Of(c), A, j)) {
      EquationTerms(c, hw, j);
      SumOfThree(Terms(flags, Of(c), A, j), n);
    }
  }

  lemma EquationTerms(c: seq<real>, hw: nat, j: nat)
    requires |c| == 3 && j < 3
    ensures var f := Terms(AllIn(|c|), Of(c), PowerMatrix(|c|, hw), j);
      && f(0) == Times(c[0], Moment(j, hw, Ones()) as real)
      && f(1) == Times(c[1], Moment(1 + j, hw, Ones()) as real)
      && f(2) == Times(c[2], Moment(2 + j, hw, Ones()) as real)
  {
  }

  lemma Divided(num: real, denom: real)
    requires denom != 0.0
    ensures denom * Ratio(num, denom) == num
  {
  }

  lemma Eliminated(s0: real, s2: real, s4: real, y0: real, y2: real, d4: real, a: real, q: real)
    requires d4 == s0 * s4 - s2 * s2 && d4 != 0.0
    requires d4 * a == s4 * y0 - s2 * y2 && d4 * q == s0 * y2 - s2 * y0
    ensures y0 == s0 * a + s2 * q && y2 == s2 * a + s4 * q
  {
  }

  lemma Cancel(k: real, a: real, b: real)
    requires k != 0.0 && k * a == k * b
    ensures a == b
  {
  }

  lemma FittedSolves(hw: nat, d: Series)
    requires hw > 0
    ensures Normal(Fitted(hw, d), hw, d)
  {
    hide *;
    var c := Fitted(hw, d);
    FittedIs(hw, d);
    FittedEquations(hw, Moment(0, hw, d), Moment(1, hw, d), Moment(2, hw, d));
    ThreeEquations(c, hw, d);
  }

  lemma ReadOff(hw: nat, y0: int, y2: int)
    requires hw > 0
    ensures D4(hw) * Amplitude(hw, y0, y2) == S4(hw) * y0 as real - S2(hw) * y2 as real
    ensures D4(hw) * Curvature(hw, y0, y2) == S0(hw) * y2 as real - S2(hw) * y0 as real
  {
    hide S0, S2, S4, D4, Ratio;
    DenominatorPositive(hw);
    Divided(S4(hw) * y0 as real - S2(hw) * y2 as real, D4(hw));
    Divided(S0(hw) * y2 as real - S2(hw) * y0 as real, D4(hw));
  }

  lemma SlopeIs(hw: nat, y1: int)
    requires hw > 0
    ensures S2(hw) * Slope(hw, y1) == y1 as real
  {
  }

  lemma FittedEquations(hw: nat, y0: int, y1: int, y2: int)
    requires hw > 0
    ensures y0 as real == S0(hw) * Amplitude(hw, y0, y2) + S2(hw) * Curvature(hw, y0, y2)
    ensures y1 as real == S2(hw) * Slope(hw, y1)
    ensures y2 as real == S2(hw) * Amplitude(hw, y0, y2) + S4(hw) * Curvature(hw, y0, y2)
  {
    hide *;
    DenominatorPositive(hw);
    DenominatorIs(hw);
    ReadOff(hw, y0, y2);
    SlopeIs(hw, y1);
    Eliminated(S0(hw), S2(hw), S4(hw), y0 as real, y2 as real, D4(hw), Amplitude(hw, y0, y2), Curvature(hw, y0, y2));
  }

  ghost function Parabola(a: real, s: real, q: real, i: int): real { a + s * i as real + q * (i * i) as real }

  lemma PolyOfThree(c: seq<real>, i: int)
    requires |c| == 3
    ensures Poly(c, i) == Parabola(c[0], c[1], c[2], i)
  {
  }

  /** Three points determine a parabola. */
  lemma ParabolaSeparates(hw: nat)
    requires hw > 0
    ensures Separates(3, hw)
  {
    forall c: seq<real> | |c| == 3 && (forall i :: Inside(hw, i) ==> Poly(c, i) == 0.0)
      ensures forall k :: 0 <= k < 3 ==> c[k] == 0.0
    {
      hide Poly, Parabola;
      assert Inside(hw, 0) && Inside(hw, 1) && Inside(hw, -1);
      PolyOfThree(c, 0);
      PolyOfThree(c, 1);
      PolyOfThree(c, -1);
      ThreeZeros(c[0], c[1], c[2]);
    }
  }

  lemma ThreeZeros(a: real, s: real, q: real)
    requires Parabola(a, s, q, 0) == Parabola(a, s, q, 1) == Parabola(a, s, q, -1) == 0.0
    ensures a == s == q == 0.0
  {
  }

  /** The reported parabola minimises the sum of squared differences over all parabolas, and is the only one
      that does, for every filter of more than one point. */
  lemma FittedBest(hw: nat, d: Series)
    requires hw > 0
    ensures Best(Fitted(hw, d), hw, d)
    ensures forall c: seq<real> :: |c| == 3 && c != Fitted(hw, d) ==>
      Deviation(Fitted(hw, d), hw, d) < Deviation(c, hw, d)
  {
    hide *;
    var f := Fitted(hw, d);
    FittedIs(hw, d);
    FittedSolves(hw, d);
    NormalBest(f, hw, d);
    ParabolaSeparates(hw);
    forall c: seq<real> | |c| == 3 && c != f ensures Deviation(f, hw, d) < Deviation(c, hw, d) {
      NormalOnlyBest(f, hw, d, c);
    }
  }

  lemma FittedIs(hw: nat, d: Series)
    ensures var c, y0, y2 := Fitted(hw, d), Moment(0, hw, d), Moment(2, hw, d);
      |c| == 3 && c[0] == Amplitude(hw, y0, y2) && c[1] == Slope(hw, Moment(1, hw, d)) && c[2] == Curvature(hw, y0, y2)
  {
  }

  /** The filter of a single point reports zero, which is the best fit only of a zero datum. */
  lemma FittedBestExactly(hw: nat, d: Series)
    ensures Best(Fitted(hw, d), hw, d) <==> hw > 0 || d(0) == 0
  {
    hide Best, Deviation, Moment, Poly;
    if hw > 0 {
      FittedBest(hw, d);
    } else {
      var zero, there := Fitted(hw, d), [d(0) as real, 0.0, 0.0];
      DenominatorPositive(hw);
      FirstMoments(hw, d);
      assert zero == [0.0, 0.0, 0.0];
      SinglePoint(zero, hw, d);
      SinglePoint(there, hw, d);
      OnlyPoint(zero, there, hw, d);
    }
  }

  lemma FirstMoments(hw: nat, d: Series)
    requires hw == 0
    ensures Moment(0, hw, d) == d(0) && Moment(1, hw, d) == 0 && Moment(2, hw, d) == 0
  {
    QuadraticFilter.FirstPoint(d, hw);
  }

  lemma SinglePoint(c: seq<real>, hw: nat, d: Series)
    requires hw == 0 && |c| == 3
    ensures Deviation(c, hw, d) == (d(0) as real - c[0]) * (d(0) as real - c[0])
  {
    hide Deviations;
    var f, one := Deviations(c, hw, d), 2 * hw + 1;
    assert Sum(one, f) == Sum(one - 1, f) + f(0);
    OnlyDeviation(c, hw, d);
  }

  lemma OnlyDeviation(c: seq<real>, hw: nat, d: Series)
    requires hw == 0 && |c| == 3
    ensures Deviations(c, hw, d)(0) == (d(0) as real - c[0]) * (d(0) as real - c[0])
  {
    hide Poly;
    var i := 0 - hw;
    PolyAtZero(c, i);
    assert Deviations(c, hw, d)(0) == Times(d(i) as real - Poly(c, i), d(i) as real - Poly(c, i));
  }

  lemma PolyAtZero(c: seq<real>, i: int)
    requires |c| == 3 && i == 0
    ensures Poly(c, i) == c[0]
  {
    hide Poly;
    PolyOfThree(c, i);
  }

  lemma OnlyPoint(zero: seq<real>, there: seq<real>, hw: nat, d: Series)
    requires |zero| == |there| == 3 && there[0] == d(0) as real && zero[0] == 0.0
    requires Deviation(zero, hw, d) == (d(0) as real - zero[0]) * (d(0) as real - zero[0])
    requires Deviation(there, hw, d) == (d(0) as real - there[0]) * (d(0) as real - there[0])
    ensures Best(zero, hw, d) <==> d(0) == 0
  {
    hide Deviation;
    if d(0) == 0 {
      forall b: seq<real> | |b| == 3 ensures Deviation(zero, hw, d) <= Deviation(b, hw, d) {
        DeviationNonNegative(b, hw, d);
      }
    } else {
      SquarePositive(d(0) as real);
    }
  }

  lemma SquarePositive(x: real)
    requires x != 0.0
    ensures x * x > 0.0
  {
  }

  /** Data that lies on a parabola is reported exactly. */
  lemma ReproducesParabola(hw: nat, d: Series, a: real, s: real, q: real)
    requires hw > 0
    requires forall i :: Inside(hw, i) ==> d(i) as real == Parabola(a, s, q, i)
    ensures Fitted(hw, d) == [a, s, q]
  {
    hide *;
    var c := [a, s, q];
    FittedIs(hw, d);
    FittedSolves(hw, d);
    ParabolaSeparates(hw);
    forall i | Inside(hw, i) ensures d(i) as real == Poly(c, i) { PolyOfThree(c, i); }
    Reproduces(Fitted(hw, d), hw, d, c);
  }

  /** The integer estimates are positive multiples of the curvature and the amplitude. */
  lemma CurvishIsMultiple(hw: nat, y0: int, y2: int)
    requires hw > 0
    ensures S0(hw) * QuadraticFilter.Curvish(hw, y0, y2) as real == 3.0 * D4(hw) * Curvature(hw, y0, y2)
    ensures S0(hw) > 0.0 && D4(hw) > 0.0
  {
    hide *;
    DenominatorPositive(hw);
    SizePositive(hw);
    WithConstants(hw, y0, y2);
    ReadOff(hw, y0, y2);
    Tripled(D4(hw), Curvature(hw, y0, y2), S0(hw), R0(hw), S2(hw), y0, y2, QuadraticFilter.Curvish(hw, y0, y2));
  }

  lemma AmpEstimateIsMultiple(hw: nat, y0: int, y2: int)
    requires hw > 0
    ensures S2(hw) * QuadraticFilter.AmpEstimate(hw, y0, y2) as real == 5.0 * D4(hw) * Amplitude(hw, y0, y2)
    ensures S2(hw) > 0.0 && D4(hw) > 0.0
  {
    hide *;
    DenominatorPositive(hw);
    SizePositive(hw);
    WithConstants(hw, y0, y2);
    ReadOff(hw, y0, y2);
    Quintupled(D4(hw), Amplitude(hw, y0, y2), R2(hw), S2(hw), S4(hw), y0, y2, QuadraticFilter.AmpEstimate(hw, y0, y2));
  }

  lemma WithConstants(hw: nat, y0: int, y2: int)
    ensures QuadraticFilter.Curvish(hw, y0, y2) == 3 * y2 - R0(hw) * y0
    ensures QuadraticFilter.AmpEstimate(hw, y0, y2) == R2(hw) * y0 - 5 * y2
  {
  }

  lemma Tripled(d4: real, q: real, s0: real, r: int, s2: real, y0: int, y2: int, e: int)
    requires e == 3 * y2 - r * y0
    requires s2 == s0 * r as real / 3.0 && d4 * q == s0 * y2 as real - s2 * y0 as real
    ensures s0 * e as real == 3.0 * d4 * q
  {
  }

  lemma Quintupled(d4: real, a: real, r: int, s2: real, s4: real, y0: int, y2: int, e: int)
    requires e == r * y0 - 5 * y2
    requires s4 == s2 * r as real / 5.0 && d4 * a == s4 * y0 as real - s2 * y2 as real
    ensures s2 * e as real == 5.0 * d4 * a
  {
  }

  /** The factor that quadraticfilter.h states for ampEstimate, 5 D4 S4 / S2, is wrong for every width: it
      fits only where the amplitude is zero. */
  lemma StatedFactorExactly(hw: nat, y0: int, y2: int)
    requires hw > 0
    ensures QuadraticFilter.AmpEstimate(hw, y0, y2) as real == 5.0 * (D4(hw) * S4(hw) / S2(hw)) * Amplitude(hw, y0, y2)
        <==> Amplitude(hw, y0, y2) == 0.0
  {
    hide D4, S0, S2, S4, Amplitude;
    AmpEstimateIsMultiple(hw, y0, y2);
    FourthSumExceedsOne(hw);
    FactorsDiffer(QuadraticFilter.AmpEstimate(hw, y0, y2) as real, D4(hw), S4(hw), S2(hw), Amplitude(hw, y0, y2));
  }

  lemma FactorsDiffer(e: real, d4: real, s4: real, s2: real, a: real)
    requires s2 * e == 5.0 * d4 * a && s2 > 0.0 && d4 > 0.0 && s4 > 1.0
    ensures e == 5.0 * (d4 * s4 / s2) * a <==> a == 0.0
  {
    var k, f := 5.0 * d4 * a, 5.0 * (d4 * s4 / s2) * a;
    StatedIs(d4, s4, s2, a, f, k);
    if a == 0.0 {
      Cancel(s2, e, 0.0);
    } else {
      ProductNonzero(d4, a);
      Scaled(s2, e, f, s4, k);
    }
  }

  lemma StatedIs(d4: real, s4: real, s2: real, a: real, f: real, k: real)
    requires s2 > 0.0 && f == 5.0 * (d4 * s4 / s2) * a && k == 5.0 * d4 * a
    ensures s2 * f == s4 * k
  {
  }

  lemma Scaled(s2: real, e: real, f: real, s4: real, k: real)
    requires s2 * e == k && s2 * f == s4 * k && s4 > 1.0 && k != 0.0
    ensures e != f
  {
    var m := s4 * k;
    Larger(s4, k, m);
    Apart(s2, e, f, k, m);
  }

  lemma Larger(s4: real, k: real, m: real)
    requires s4 > 1.0 && k != 0.0 && m == s4 * k
    ensures m != k
  {
    assert (s4 - 1.0) * k != 0.0;
  }

  lemma Apart(s2: real, e: real, f: real, k: real, m: real)
    requires s2 * e == k && s2 * f == m && k != m
    ensures e != f
  {
  }

  lemma ProductNonzero(d4: real, a: real)
    requires d4 > 0.0 && a != 0.0
    ensures 5.0 * d4 * a != 0.0
  {
  }

  lemma FourthSumExceedsOne(hw: nat)
    requires hw > 0
    ensures S4(hw) > 1.0
  {
  }
}
