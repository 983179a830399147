/** Least squares over a list of samples: what the accumulated sums mean, and why the solution of
    the normal equations minimises the sum of squared residuals. */
module Regression {
  import opened Sums
  import opened Exchange
  import opened Pivots

  datatype Sample = Sample(Y: real, x: seq<real>)

  /** Every sample carries at least n correlates. */
  ghost predicate Wide(samples: seq<Sample>, n: nat) {
    forall s :: 0 <= s < |samples| ==> |samples[s].x| >= n
  }

  ghost function Correlate(samples: seq<Sample>, j: int): Vector {
    s => if 0 <= s < |samples| && 0 <= j < |samples[s].x| then samples[s].x[j] else 0.0
  }

  ghost function Given(samples: seq<Sample>): Vector {
    s => if 0 <= s < |samples| then samples[s].Y else 0.0
  }

  ghost function Pairwise(f: Vector, g: Vector): Vector { s => Times(f(s), g(s)) }

  ghost function Dot(n: nat, f: Vector, g: Vector): real { Sum(n, Pairwise(f, g)) }

  ghost function GramAt(samples: seq<Sample>, i: int, j: int): real {
    Dot(|samples|, Correlate(samples, i), Correlate(samples, j))
  }

  ghost function MomentAt(samples: seq<Sample>, j: int): real {
    Dot(|samples|, Given(samples), Correlate(samples, j))
  }

  /** A holds the sums of products of correlates, and y the sums against the given values, on the part in play. */
  ghost predicate Accumulated(flags: seq<bool>, samples: seq<Sample>, A: Matrix, y: Vector) {
    && (forall i, j :: Play(flags, i) && Play(flags, j) ==> At(A, i, j) == GramAt(samples, i, j))
    && (forall j :: Play(flags, j) ==> y(j) == MomentAt(samples, j))
  }

  ghost function FitTerms(flags: seq<bool>, samples: seq<Sample>, b: Vector, s: int): Vector {
    j => if Play(flags, j) then Times(b(j), Correlate(samples, j)(s)) else 0.0
  }

  /** The value the coefficients b predict for each sample. */
  ghost function Fit(flags: seq<bool>, samples: seq<Sample>, b: Vector): Vector {
    s => Sum(|flags|, FitTerms(flags, samples, b, s))
  }

  ghost function Minus(f: Vector, g: Vector): Vector { s => f(s) - g(s) }

  ghost function Residual(flags: seq<bool>, samples: seq<Sample>, b: Vector): Vector {
    Minus(Given(samples), Fit(flags, samples, b))
  }

  /** The sum of squared residuals. */
  ghost function Misfit(flags: seq<bool>, samples: seq<Sample>, b: Vector): real {
    Dot(|samples|, Residual(flags, samples, b), Residual(flags, samples, b))
  }

  ghost predicate Minimises(flags: seq<bool>, samples: seq<Sample>, b: Vector) {
    forall c: seq<real> :: |c| == |flags| ==> Misfit(flags, samples, b) <= Misfit(flags, samples, Of(c))
  }

  /** No nontrivial combination of the correlates in play vanishes on every sample. */
  ghost predicate Independent(flags: seq<bool>, samples: seq<Sample>) {
    forall x: seq<real> :: |x| == |flags| && Nonzero(flags, x) ==>
      exists s :: 0 <= s < |samples| && Fit(flags, samples, Of(x))(s) != 0.0
  }

  lemma TimesDistributes(a: real, b: real, c: real)
    ensures Times(a, b - c) == Times(a, b) - Times(a, c)
    ensures Times(b - c, a) == Times(b, a) - Times(c, a)
    ensures Times(a, b) == Times(b, a)
  {
  }

  /** A sum over samples of a fit against any weights, turned into a sum over correlates. */
  lemma FitDot(flags: seq<bool>, samples: seq<Sample>, b: Vector, w: Vector, g: Vector)
    requires forall j :: 0 <= j < |flags| ==>
      g(j) == if Play(flags, j) then Times(b(j), Dot(|samples|, Correlate(samples, j), w)) else 0.0
    ensures Dot(|samples|, Fit(flags, samples, b), w) == Sum(|flags|, g)
  {
    var F := (s: int, j: int) => Times(FitTerms(flags, samples, b, s)(j), w(s));
    var a := Pairwise(Fit(flags, samples, b), w);
    forall s | 0 <= s < |samples| ensures a(s) == Sum(|flags|, Row(F, s)) {
      FitRow(flags, samples, b, w(s), s, Row(F, s));
    }
    forall j | 0 <= j < |flags| ensures g(j) == Sum(|samples|, Column(F, j)) {
      FitColumn(flags, samples, b, w, j, Column(F, j));
    }
    SumSwap(|samples|, |flags|, F, a, g);
  }

  lemma FitRow(flags: seq<bool>, samples: seq<Sample>, b: Vector, w: real, s: int, row: Vector)
    requires forall j :: row(j) == Times(FitTerms(flags, samples, b, s)(j), w)
    ensures Times(Fit(flags, samples, b)(s), w) == Sum(|flags|, row)
  {
    SumTimes(|flags|, w, FitTerms(flags, samples, b, s), row);
  }

  lemma {:induction false} SumTimes(n: nat, w: real, f: Vector, h: Vector)
    requires forall i :: 0 <= i < n ==> h(i) == Times(f(i), w)
    ensures Sum(n, h) == Times(Sum(n, f), w)
  {
    if n > 0 { SumTimes(n - 1, w, f, h); }
  }

  lemma FitColumn(flags: seq<bool>, samples: seq<Sample>, b: Vector, w: Vector, j: int, column: Vector)
    requires forall s :: column(s) == Times(FitTerms(flags, samples, b, s)(j), w(s))
    ensures Sum(|samples|, column) ==
            if Play(flags, j) then Times(b(j), Dot(|samples|, Correlate(samples, j), w)) else 0.0
  {
    hide Times, Correlate;
    if Play(flags, j) {
      forall s | 0 <= s < |samples| ensures column(s) == Times(Pairwise(Correlate(samples, j), w)(s), b(j)) {
        TimesRegroup(b(j), Correlate(samples, j)(s), w(s));
      }
      SumTimes(|samples|, b(j), Pairwise(Correlate(samples, j), w), column);
      TimesDistributes(b(j), Dot(|samples|, Correlate(samples, j), w), 0.0);
    } else {
      forall s | 0 <= s < |samples| ensures column(s) == 0.0 { TimesUnit(w(s)); }
      SumZero(|samples|, column);
    }
  }

  lemma TimesRegroup(b: real, x: real, w: real)
    ensures Times(Times(b, x), w) == Times(Times(x, w), b)
  {
  }

  lemma {:induction false} DotMinus(n: nat, f: Vector, g: Vector, h: Vector)
    ensures Dot(n, Minus(f, g), h) == Dot(n, f, h) - Dot(n, g, h)
    ensures Dot(n, h, Minus(f, g)) == Dot(n, h, f) - Dot(n, h, g)
    ensures Dot(n, f, g) == Dot(n, g, f)
  {
    hide Times;
    if n > 0 {
      DotMinus(n - 1, f, g, h);
      TimesDistributes(h(n - 1), f(n - 1), g(n - 1));
      TimesDistributes(f(n - 1), g(n - 1), 0.0);
    }
  }

  lemma DotExt(n: nat, f: Vector, g: Vector, f': Vector, g': Vector)
    requires forall s :: 0 <= s < n ==> f(s) == f'(s) && g(s) == g'(s)
    ensures Dot(n, f, g) == Dot(n, f', g')
  {
    SumExt(n, Pairwise(f, g), Pairwise(f', g'));
  }

  lemma TimesPositive(a: real, b: real)
    requires a > 0.0 && b > 0.0
    ensures Times(a, b) > 0.0
  {
    assert a * b > 0.0;
  }

  lemma TimesNegates(a: real, b: real)
    ensures Times(a, b) == Times(-a, -b)
  {
  }

  lemma SquareNonNegative(a: real)
    ensures Times(a, a) >= 0.0
    ensures Times(a, a) == 0.0 ==> a == 0.0
  {
    hide Times;
    if a > 0.0 {
      TimesPositive(a, a);
    } else if a < 0.0 {
      TimesNegates(a, a);
      TimesPositive(-a, -a);
    } else {
      TimesUnit(a);
    }
  }

  lemma DotNonNegative(n: nat, f: Vector)
    ensures Dot(n, f, f) >= 0.0
    ensures Dot(n, f, f) == 0.0 ==> forall s :: 0 <= s < n ==> f(s) == 0.0
  {
    var g := Pairwise(f, f);
    forall s | 0 <= s < n ensures g(s) >= 0.0 && (g(s) == 0.0 ==> f(s) == 0.0) { SquareNonNegative(f(s)); }
    SumNonNegative(n, g);
    if Sum(n, g) == 0.0 {
      forall s | 0 <= s < n ensures f(s) == 0.0 { assert g(s) <= Sum(n, g); }
    }
  }

  /** One component of b * A, when A is the Gram matrix, is the fit against that correlate. */
  lemma FitAgainst(flags: seq<bool>, samples: seq<Sample>, A: Matrix, y: Vector, b: Vector, j: int)
    requires Accumulated(flags, samples, A, y) && Play(flags, j)
    ensures Dot(|samples|, Fit(flags, samples, b), Correlate(samples, j)) == Sum(|flags|, Terms(flags, b, A, j))
  {
    hide Times, Dot, At;
    FitDot(flags, samples, b, Correlate(samples, j), Terms(flags, b, A, j));
  }

  /** The quadratic form of the Gram matrix is the sum of the squared fits. */
  lemma GramForm(flags: seq<bool>, samples: seq<Sample>, A: Matrix, y: Vector, b: Vector)
    requires Accumulated(flags, samples, A, y)
    ensures Quadratic(flags, A, b) == Dot(|samples|, Fit(flags, samples, b), Fit(flags, samples, b))
  {
    hide Times, Dot, At, Fit;
    var fit := Fit(flags, samples, b);
    var g := Products(flags, b, Image(flags, A, b));
    forall j | 0 <= j < |flags|
      ensures g(j) == if Play(flags, j) then Times(b(j), Dot(|samples|, Correlate(samples, j), fit)) else 0.0
    {
      if Play(flags, j) {
        FitAgainst(flags, samples, A, y, b, j);
        DotMinus(|samples|, fit, Correlate(samples, j), fit);
      }
    }
    FitDot(flags, samples, b, fit, g);
  }

  /** Independent correlates make the Gram matrix positive definite. */
  lemma IndependentDefinite(flags: seq<bool>, samples: seq<Sample>, A: Matrix, y: Vector)
    requires Accumulated(flags, samples, A, y)
    ensures Independent(flags, samples) <==> PositiveDefinite(flags, A)
  {
    hide Fit, Quadratic, Nonzero, Accumulated, Dot;
    forall x: seq<real> | |x| == |flags| && Nonzero(flags, x)
      ensures Quadratic(flags, A, Of(x)) > 0.0
        <==> exists s :: 0 <= s < |samples| && Fit(flags, samples, Of(x))(s) != 0.0
    {
      GramForm(flags, samples, A, y, Of(x));
      DotNonNegative(|samples|, Fit(flags, samples, Of(x)));
      if forall s :: 0 <= s < |samples| ==> Fit(flags, samples, Of(x))(s) == 0.0 {
        DotZero(|samples|, Fit(flags, samples, Of(x)));
      }
    }
  }

  lemma DotZero(n: nat, f: Vector)
    requires forall s :: 0 <= s < n ==> f(s) == 0.0
    ensures Dot(n, f, f) == 0.0
  {
    SumZero(n, Pairwise(f, f));
  }

  /** The residuals of a solution of the normal equations are orthogonal to every fit. */
  lemma Orthogonal(flags: seq<bool>, samples: seq<Sample>, A: Matrix, y: Vector, b: Vector, d: Vector)
    requires Accumulated(flags, samples, A, y) && Maps(flags, A, b, y)
    ensures Dot(|samples|, Fit(flags, samples, d), Residual(flags, samples, b)) == 0.0
  {
    hide Times, Dot, At, Fit;
    var r, fit := Residual(flags, samples, b), Fit(flags, samples, b);
    var zero := (j: int) => 0.0;
    forall j | 0 <= j < |flags|
      ensures zero(j) == if Play(flags, j) then Times(d(j), Dot(|samples|, Correlate(samples, j), r)) else 0.0
    {
      if Play(flags, j) {
        FitAgainst(flags, samples, A, y, b, j);
        DotMinus(|samples|, Given(samples), fit, Correlate(samples, j));
        DotMinus(|samples|, fit, Correlate(samples, j), fit);
        DotMinus(|samples|, Given(samples), Correlate(samples, j), fit);
        TimesUnit(d(j));
      }
    }
    FitDot(flags, samples, d, r, zero);
    SumZero(|flags|, zero);
  }

  lemma FitMinus(flags: seq<bool>, samples: seq<Sample>, b: Vector, c: Vector, s: int)
    ensures Fit(flags, samples, Minus(c, b))(s) == Fit(flags, samples, c)(s) - Fit(flags, samples, b)(s)
  {
    hide Times;
    var f := FitTerms(flags, samples, Minus(c, b), s);
    var g, h := FitTerms(flags, samples, c, s), FitTerms(flags, samples, b, s);
    forall j | 0 <= j < |flags| ensures f(j) == Lin(1.0, g(j), -1.0, h(j)) {
      if Play(flags, j) { TimesDistributes(Correlate(samples, j)(s), c(j), b(j)); }
    }
    SumLinear(|flags|, 1.0, g, -1.0, h, f);
  }

  /** The excess of any coefficients c over a solution b of the normal equations. */
  lemma Excess(flags: seq<bool>, samples: seq<Sample>, A: Matrix, y: Vector, b: Vector, c: Vector)
    requires Accumulated(flags, samples, A, y) && Maps(flags, A, b, y)
    ensures Misfit(flags, samples, c) == Misfit(flags, samples, b)
            + Dot(|samples|, Fit(flags, samples, Minus(c, b)), Fit(flags, samples, Minus(c, b)))
  {
    hide Fit, Dot, Given, Times, Maps, Accumulated;
    var n, r, e := |samples|, Residual(flags, samples, b), Fit(flags, samples, Minus(c, b));
    forall s | 0 <= s < n ensures Residual(flags, samples, c)(s) == Minus(r, e)(s) {
      FitMinus(flags, samples, b, c, s);
    }
    DotExt(n, Residual(flags, samples, c), Residual(flags, samples, c), Minus(r, e), Minus(r, e));
    Orthogonal(flags, samples, A, y, b, Minus(c, b));
    DotMinus(n, r, e, Minus(r, e));
    DotMinus(n, r, e, r);
    DotMinus(n, r, e, e);
    DotMinus(n, e, r, e);
  }

  /** A solution of the normal equations minimises the sum of squared residuals. */
  lemma NormalMinimises(flags: seq<bool>, samples: seq<Sample>, A: Matrix, y: Vector, b: Vector)
    requires Accumulated(flags, samples, A, y) && Maps(flags, A, b, y)
    ensures Minimises(flags, samples, b)
  {
    hide Misfit, Maps, Accumulated, Fit, Dot;
    forall c: seq<real> | |c| == |flags| ensures Misfit(flags, samples, b) <= Misfit(flags, samples, Of(c)) {
      Excess(flags, samples, A, y, b, Of(c));
      DotNonNegative(|samples|, Fit(flags, samples, Minus(Of(c), b)));
    }
  }

  /** With independent correlates no other coefficients do as well. */
  lemma NormalUnique(flags: seq<bool>, samples: seq<Sample>, A: Matrix, y: Vector, b: Vector, c: Vector)
    requires Accumulated(flags, samples, A, y) && Maps(flags, A, b, y) && Independent(flags, samples)
    requires exists j :: Play(flags, j) && c(j) != b(j)
    ensures Misfit(flags, samples, b) < Misfit(flags, samples, c)
  {
    hide Misfit, Maps, Accumulated, Dot;
    var d := Listed(|flags|, Minus(c, b));
    var j :| Play(flags, j) && c(j) != b(j);
    assert d[j] != 0.0;
    assert Nonzero(flags, d);
    var s :| 0 <= s < |samples| && Fit(flags, samples, Of(d))(s) != 0.0;
    var e := Fit(flags, samples, Minus(c, b));
    SumExt(|flags|, FitTerms(flags, samples, Of(d), s), FitTerms(flags, samples, Minus(c, b), s));
    assert e(s) != 0.0;
    DotNonNegative(|samples|, e);
    Excess(flags, samples, A, y, b, c);
  }
}
