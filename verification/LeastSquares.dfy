/** The regression accumulator of system/dyndeterminator.cpp. */
module LeastSquares {
  import opened Sums
  import opened Exchange
  import opened Pivots
  import opened Regression
  import opened MatrixInverter
  import Determinator

  class LLSQcomputer {
    const size: nat
    /** The matrix part, a base class in the original. */
    const matrix: MatrixInverter
    const ys: array<real>
    const solution: array<real>
    var numSamples: nat
    var sumy2: real
    var numFit: nat
    /** The samples included since the last clear. */
    ghost var samples: seq<Sample>

    ghost predicate Valid()
      reads this
    {
      && matrix.Valid() && matrix.size == size
      && ys.Length == solution.Length == size && ys != solution
      && Wide(samples, size)
    }

    /** The accumulators hold the sums over the samples; of the matrix, the lower triangle. */
    ghost predicate Consistent()
      requires Valid()
      reads this, matrix.xs, ys
    {
      && numSamples == |samples|
      && sumy2 == Dot(|samples|, Given(samples), Given(samples))
      && (forall j :: 0 <= j < size ==> ys[j] == MomentAt(samples, j))
      && (forall i, j :: 0 <= j <= i < size ==> matrix.xs[i, j] == GramAt(samples, i, j))
    }

    constructor (numCoeff: nat)
      ensures Valid() && size == numCoeff && samples == [] && Consistent()
      ensures fresh(matrix.xs) && fresh(matrix.inv) && fresh(matrix.ignore) && fresh(ys) && fresh(solution)
      ensures numFit == 0 && forall i :: 0 <= i < numCoeff ==> !matrix.ignore[i]
    {
      size := numCoeff;
      matrix := new MatrixInverter(numCoeff);
      ys := new real[numCoeff](_ => 0.0);
      solution := new real[numCoeff](_ => 0.0);
      samples := [];
      new;
      Clear();
    }

    method Clear()
      requires Valid()
      modifies this, matrix.xs, ys, solution
      ensures Valid() && samples == [] && Consistent()
      ensures numFit == 0 && forall j :: 0 <= j < size ==> solution[j] == 0.0
    {
      matrix.Clear();
      var rw := size;
      while rw > 0
        invariant 0 <= rw <= size
        invariant forall j :: rw <= j < size ==> solution[j] == 0.0 && ys[j] == 0.0
        invariant forall i, j :: 0 <= i < size && 0 <= j < size ==> matrix.xs[i, j] == 0.0
      {
        rw := rw - 1;
        solution[rw] := 0.0;
        ys[rw] := 0.0;
      }
      numSamples := 0;
      numFit := 0;
      sumy2 := 0.0;
      samples := [];
    }

    /** Adds one sample to every sum; a sample that is too short is refused and changes nothing. */
    method Include(Y: real, correlate: seq<real>) returns (included: bool)
      requires Valid() && Consistent()
      modifies this, matrix.xs, ys
      ensures Valid() && Consistent()
      ensures included == (|correlate| >= size)
      ensures samples == if included then old(samples) + [Sample(Y, correlate)] else old(samples)
      ensures numFit == old(numFit)
    {
      hide Dot;
      if |correlate| < size {
        return false;
      }
      ghost var next := Sample(Y, correlate);
      ghost var more := samples + [next];
      forall i, j | 0 <= i < size && 0 <= j < size
        ensures GramAt(more, i, j) == GramAt(samples, i, j) + Times(correlate[i], correlate[j])
      {
        OneMore(samples, next, i, j);
      }
      forall j | 0 <= j < size ensures MomentAt(more, j) == MomentAt(samples, j) + Times(Y, correlate[j]) {
        OneMore(samples, next, j, j);
      }
      OneMoreGiven(samples, next);
      sumy2 := sumy2 + Y * Y;
      var rw := size;
      while rw > 0
        invariant 0 <= rw <= size
        invariant samples == old(samples) && numSamples == |samples| && numFit == old(numFit)
        invariant sumy2 == Dot(|more|, Given(more), Given(more))
        invariant forall j :: 0 <= j < rw ==> ys[j] == MomentAt(samples, j)
        invariant forall j :: rw <= j < size ==> ys[j] == MomentAt(more, j)
        invariant forall i, j :: 0 <= j <= i < rw ==> matrix.xs[i, j] == GramAt(samples, i, j)
        invariant forall i, j :: 0 <= j <= i < size && i >= rw ==> matrix.xs[i, j] == GramAt(more, i, j)
      {
        rw := rw - 1;
        AddProducts(rw, Y, correlate, more);
      }
      numSamples := numSamples + 1;
      samples := more;
      return true;
    }

    /** The sums of row rw, up to the diagonal. */
    method AddProducts(rw: nat, Y: real, correlate: seq<real>, ghost more: seq<Sample>)
      requires Valid() && rw < size && |correlate| >= size
      requires ys[rw] == MomentAt(samples, rw) && MomentAt(more, rw) == MomentAt(samples, rw) + Times(Y, correlate[rw])
      requires forall j :: 0 <= j <= rw ==> matrix.xs[rw, j] == GramAt(samples, rw, j)
      requires forall j :: 0 <= j <= rw ==>
        GramAt(more, rw, j) == GramAt(samples, rw, j) + Times(correlate[rw], correlate[j])
      modifies matrix.xs, ys
      ensures forall j :: 0 <= j < size ==> ys[j] == if j == rw then MomentAt(more, rw) else old(ys[j])
      ensures forall i, j :: 0 <= i < size && 0 <= j < size ==>
        matrix.xs[i, j] == if i == rw && j <= rw then GramAt(more, rw, j) else old(matrix.xs[i, j])
    {
      hide MomentAt, GramAt;
      var x := correlate[rw];
      ys[rw] := ys[rw] + Y * x;
      var cl := rw + 1;
      while cl > 0
        invariant 0 <= cl <= rw + 1
        invariant forall j :: 0 <= j < size ==> ys[j] == if j == rw then MomentAt(more, rw) else old(ys[j])
        invariant forall i, j :: 0 <= i < size && 0 <= j < size ==>
          matrix.xs[i, j] == if i == rw && cl <= j <= rw then GramAt(more, rw, j) else old(matrix.xs[i, j])
      {
        cl := cl - 1;
        matrix.xs[rw, cl] := matrix.xs[rw, cl] + x * correlate[cl];
      }
    }

    /** Copies the lower triangle to the upper one, for the rows that are not ignored. */
    method FillInTriangle()
      requires Valid()
      modifies matrix.xs
      ensures forall i, j :: 0 <= i < size && 0 <= j < size ==>
        matrix.xs[i, j] == if i < j && !matrix.ignore[j] then old(matrix.xs[j, i]) else old(matrix.xs[i, j])
    {
      var rw := size;
      while rw > 0
        invariant 0 <= rw <= size
        invariant forall i, j :: 0 <= i < size && 0 <= j < size ==>
          matrix.xs[i, j] ==
            if i < j && rw <= j && !matrix.ignore[j] then old(matrix.xs[j, i]) else old(matrix.xs[i, j])
      {
        rw := rw - 1;
        if !matrix.ignore[rw] {
          var cl := rw;
          while cl > 0
            invariant 0 <= cl <= rw
            invariant forall i, j :: 0 <= i < size && 0 <= j < size ==>
              matrix.xs[i, j] == if i < j && (rw < j || (j == rw && cl <= i)) && !matrix.ignore[j]
                                 then old(matrix.xs[j, i]) else old(matrix.xs[i, j])
          {
            cl := cl - 1;
            matrix.xs[cl, rw] := matrix.xs[rw, cl];
          }
        }
      }
    }

    /** Solves the normal equations for the coefficients in play; ignored ones keep their value.
        The ghost result is the determinant the inverter reported. */
    method Compute() returns (fits: nat, ghost det: real)
      requires Valid() && Consistent()
      modifies this, matrix.xs, matrix.inv, solution
      ensures Valid() && Consistent() && samples == old(samples) && fits == numFit
      ensures Accumulated(matrix.ignore[..], samples, matrix.Xs(), Of(ys[..]))
      ensures det == 0.0 ==> fits == old(numFit) && solution[..] == old(solution[..])
      ensures det != 0.0 ==> fits == old(numFit) + Playing(matrix.ignore[..], size)
      ensures det != 0.0 ==> (fits == Playing(matrix.ignore[..], size) <==> old(numFit) == 0)
      ensures forall j :: 0 <= j < size && matrix.ignore[j] ==> solution[j] == old(solution[j])
      ensures det != 0.0 && Faithful(matrix.ignore[..], matrix.Xs()) ==>
        Minimises(matrix.ignore[..], samples, Of(solution[..]))
      ensures det != 0.0 && Shortcut(matrix.ignore[..], matrix.Xs()) ==>
        (Minimises(matrix.ignore[..], samples, Of(solution[..])) <==>
         matrix.xs[0, 0] == matrix.xs[1, 1] || (ys[0] == 0.0 && ys[1] == 0.0))
      ensures Independent(matrix.ignore[..], samples) && !Degenerate(matrix.ignore[..]) ==> det > 0.0
      ensures !Degenerate(matrix.ignore[..]) ==> (det != 0.0 <==> Independent(matrix.ignore[..], samples))
    {
      hide Dot, GramAt, MomentAt, Minimises, Independent, PositiveDefinite, Inverses, Computed;
      ghost var flags := matrix.ignore[..];
      FillInTriangle();
      ghost var A, y, before := matrix.Xs(), Of(ys[..]), matrix.Inv();
      GramSymmetric(samples);
      assert Accumulated(flags, samples, A, y);
      IndependentDefinite(flags, samples, A, y);
      var norm := matrix.Compute();
      det := norm;
      if !Degenerate(flags) { AnswersIndependent(flags, samples, A, y, before, norm, matrix.Inv()); }
      if norm != 0.0 {
        ghost var W := matrix.Inv();
        LeftMultiply();
        Solution(flags, samples, A, y, before, norm, W, Of(solution[..]));
      }
      fits := numFit;
    }

    /** solution = ys * inv on the indices in play. */
    method LeftMultiply()
      requires Valid() && Consistent()
      modifies this`numFit, solution
      ensures numFit == old(numFit) + Playing(matrix.ignore[..], size)
      ensures forall j :: 0 <= j < size && matrix.ignore[j] ==> solution[j] == old(solution[j])
      ensures Maps(matrix.ignore[..], matrix.Inv(), Of(ys[..]), Of(solution[..]))
    {
      ghost var flags, W, y := matrix.ignore[..], matrix.Inv(), Of(ys[..]);
      ghost var played := 0;
      var rw := size;
      while rw > 0
        invariant 0 <= rw <= size
        invariant numFit + Playing(flags, rw) == old(numFit) + Playing(flags, size)
        invariant forall j :: 0 <= j < size && flags[j] ==> solution[j] == old(solution[j])
        invariant forall j :: rw <= j < size && !flags[j] ==> solution[j] == Sum(size, Terms(flags, y, W, j))
      {
        rw := rw - 1;
        if !matrix.ignore[rw] {
          var product := ProductFor(rw);
          numFit := numFit + 1;
          solution[rw] := product;
        }
      }
    }

    method ProductFor(rw: nat) returns (product: real)
      requires Valid() && rw < size
      ensures product == Sum(size, Terms(matrix.ignore[..], Of(ys[..]), matrix.Inv(), rw))
    {
      ghost var f := Terms(matrix.ignore[..], Of(ys[..]), matrix.Inv(), rw);
      ghost var zero := (i: int) => 0.0;
      ghost var done := (i: int) => f(size - 1 - i);
      product := 0.0;
      var cl := size;
      while cl > 0
        invariant 0 <= cl <= size
        invariant product == Sum(size - cl, done)
      {
        cl := cl - 1;
        assert done(size - 1 - cl) == f(cl);
        assert At(matrix.Inv(), cl, rw) == matrix.inv[cl, rw] && Of(ys[..])(cl) == ys[cl];
        assert Play(matrix.ignore[..], cl) == !matrix.ignore[cl];
        assert f(cl) == if matrix.ignore[cl] then 0.0 else ys[cl] * matrix.inv[cl, rw];
        if !matrix.ignore[cl] {
          product := product + ys[cl] * matrix.inv[cl, rw];
        }
      }
      SumReverse(size, f, done);
    }
  }

  /** How many of the first n indices are in play. */
  ghost function Playing(flags: seq<bool>, n: nat): nat
    requires n <= |flags|
  {
    if n == 0 then 0 else Playing(flags, n - 1) + if flags[n - 1] then 0 else 1
  }

  /** That is the size of the set of them. */
  lemma {:induction false} PlayingIs(flags: seq<bool>, n: nat)
    requires n <= |flags|
    ensures Playing(flags, n) == |set i | 0 <= i < n && !flags[i]|
  {
    var all := set i | 0 <= i < n && !flags[i];
    if n == 0 {
      assert all == {};
    } else {
      PlayingIs(flags, n - 1);
      var rest := set i | 0 <= i < n - 1 && !flags[i];
      assert all == if flags[n - 1] then rest else rest + {n - 1};
    }
  }

  /** There is an answer if and only if the correlates in play are independent on the samples. */
  lemma AnswersIndependent(flags: seq<bool>, samples: seq<Sample>, A: Matrix, y: Vector, before: Matrix, norm: real,
      W: Matrix)
    requires Square(A, |flags|) && Square(before, |flags|) && Square(W, |flags|)
    requires Accumulated(flags, samples, A, y) && Computed(flags, A, before, norm, W) && !Degenerate(flags)
    ensures norm != 0.0 <==> Independent(flags, samples)
  {
    hide Computed, Accumulated, PositiveDefinite, Nonzero, Fit, Degenerate;
    IndependentDefinite(flags, samples, A, y);
    if Independent(flags, samples) {
      DefinitePositive(flags, A, before, norm, W);
    } else if norm != 0.0 {
      var x: seq<real> :| |x| == |flags| && Nonzero(flags, x)
        && !exists s :: 0 <= s < |samples| && Fit(flags, samples, Of(x))(s) != 0.0;
      NormIsCofactor(flags, A, before, norm, W, []);
      Dependent(flags, samples, A, y, x);
      assert false;
    }
  }

  /** A combination that vanishes on every sample leaves no determinant. */
  lemma Dependent(flags: seq<bool>, samples: seq<Sample>, A: Matrix, y: Vector, x: seq<real>)
    requires Square(A, |flags|) && Accumulated(flags, samples, A, y) && |x| == |flags| && Nonzero(flags, x)
    requires forall s :: 0 <= s < |samples| ==> Fit(flags, samples, Of(x))(s) == 0.0
    ensures Determinator.Cofactor(Determinator.Problem(A, [], 0, false), flags) == 0.0
  {
    hide Accumulated, Fit, Determinator.Cofactor, Determinator.Equation, At;
    var n := |flags|;
    var p := Determinator.Problem(A, seq(n, i => 0.0), 0, false);
    Determinator.CofactorPlain(Determinator.Problem(A, [], 0, false), p, flags);
    forall r | 0 <= r < n && !flags[r] ensures Sum(n, Determinator.Equation(A, Of(x), flags, r)) == 0.0 {
      FitAgainst(flags, samples, A, y, Of(x), r);
      NoDot(|samples|, Fit(flags, samples, Of(x)), Correlate(samples, r));
      EquationIsTerms(flags, A, Of(x), r);
      SumExt(n, Determinator.Equation(A, Of(x), flags, r), Terms(flags, Of(x), A, r));
    }
    if Determinator.Cofactor(p, flags) != 0.0 {
      var j :| Play(flags, j) && j < |x| && x[j] != 0.0;
      Determinator.NothingSolves(p, flags, Of(x), j);
    }
  }

  lemma NoDot(n: nat, f: Vector, g: Vector)
    requires forall s :: 0 <= s < n ==> f(s) == 0.0
    ensures Dot(n, f, g) == 0.0
  {
    SumZero(n, Pairwise(f, g));
  }

  lemma EquationIsTerms(flags: seq<bool>, A: Matrix, x: Vector, r: nat)
    requires Square(A, |flags|) && r < |flags|
    ensures forall i :: 0 <= i < |flags| ==>
      Determinator.Equation(A, x, flags, r)(i) == Terms(flags, x, A, r)(i)
  {
    forall i | 0 <= i < |flags| ensures Determinator.Equation(A, x, flags, r)(i) == Terms(flags, x, A, r)(i) {
      assert At(A, i, r) == A[i][r] && |A[i]| == |flags|;
      TimesIs(x(i), A[i][r]);
    }
  }

  lemma GramSymmetric(samples: seq<Sample>)
    ensures forall i, j :: GramAt(samples, i, j) == GramAt(samples, j, i)
  {
    forall i, j ensures GramAt(samples, i, j) == GramAt(samples, j, i) {
      DotMinus(|samples|, Correlate(samples, i), Correlate(samples, j), Correlate(samples, j));
    }
  }

  /** A left inverse turns y * W = x into x * A = y. */
  lemma InverseSolves(flags: seq<bool>, A: Matrix, W: Matrix, x: Vector, y: Vector)
    requires LeftInverse(flags, W, A) && Maps(flags, W, y, x)
    ensures Maps(flags, A, x, y)
  {
    hide LeftInverse, Maps;
    forall j | Play(flags, j) ensures y(j) == Sum(|flags|, Terms(flags, x, A, j)) {
      InverseSolvesAt(flags, A, W, x, y, j);
    }
    MapsIntro(flags, A, x, y);
  }

  lemma MapsIntro(flags: seq<bool>, A: Matrix, x: Vector, y: Vector)
    requires forall j :: Play(flags, j) ==> y(j) == Sum(|flags|, Terms(flags, x, A, j))
    ensures Maps(flags, A, x, y)
  {
  }

  lemma InverseSolvesAt(flags: seq<bool>, A: Matrix, W: Matrix, x: Vector, y: Vector, j: int)
    requires LeftInverse(flags, W, A) && Maps(flags, W, y, x) && Play(flags, j)
    ensures y(j) == Sum(|flags|, Terms(flags, x, A, j))
  {
    hide Times, At, LeftInverse;
    var n := |flags|;
    var F := (i: int, k: int) =>
      if Play(flags, i) && Play(flags, k) then Times(Times(y(k), At(W, k, i)), At(A, i, j)) else 0.0;
    var a := Terms(flags, x, A, j);
    forall i | 0 <= i < n ensures a(i) == Sum(n, Row(F, i)) {
      if Play(flags, i) {
        SumTimes(n, At(A, i, j), Terms(flags, y, W, i), Row(F, i)) by {
          forall k ensures Row(F, i)(k) == Times(Terms(flags, y, W, i)(k), At(A, i, j)) { TimesUnit(At(A, i, j)); }
        }
      } else {
        SumZero(n, Row(F, i));
      }
    }
    var b := k => Sum(n, Column(F, k));
    SumSwap(n, n, F, a, b);
    forall k | 0 <= k < n ensures b(k) == if k == j then y(j) else 0.0 {
      ColumnOfInverse(flags, A, W, y, j, k, Column(F, k));
    }
    SumOne(n, j, b);
  }

  lemma ColumnOfInverse(flags: seq<bool>, A: Matrix, W: Matrix, y: Vector, j: int, k: int, c: Vector)
    requires LeftInverse(flags, W, A) && Play(flags, j) && 0 <= k < |flags|
    requires forall i ::
      c(i) == (if Play(flags, i) && Play(flags, k) then Times(Times(y(k), At(W, k, i)), At(A, i, j)) else 0.0)
    ensures Sum(|flags|, c) == if k == j then y(j) else 0.0
  {
    hide Times, At;
    var n := |flags|;
    if Play(flags, k) {
      var f := Terms(flags, RowOf(W, k), A, j);
      forall i | 0 <= i < n ensures c(i) == Times(f(i), y(k)) {
        TimesRegroup(y(k), At(W, k, i), At(A, i, j));
        TimesUnit(y(k));
      }
      SumTimes(n, y(k), f, c);
      assert Sum(n, f) == ProductAt(flags, W, A, k, j);
      TimesUnit(y(k));
    } else {
      SumZero(n, c);
    }
  }

  lemma {:induction false} SumReverse(n: nat, f: Vector, g: Vector)
    requires forall i :: 0 <= i < n ==> g(i) == f(n - 1 - i)
    ensures Sum(n, g) == Sum(n, f)
  {
    if n > 0 {
      var shifted := i => g(i + 1);
      SumFront(n - 1, g, shifted);
      SumReverse(n - 1, f, shifted);
    }
  }

  /** What the product ys * inv is worth after a nonzero determinant. */
  lemma Solution(flags: seq<bool>, samples: seq<Sample>, A: Matrix, y: Vector, before: Matrix, norm: real,
      W: Matrix, b: Vector)
    requires Square(A, |flags|) && Square(before, |flags|) && Square(W, |flags|)
    requires Accumulated(flags, samples, A, y)
    requires Computed(flags, A, before, norm, W) && norm != 0.0
    requires Maps(flags, W, y, b)
    ensures Faithful(flags, A) ==> Minimises(flags, samples, b)
    ensures Shortcut(flags, A) ==>
      (Minimises(flags, samples, b) <==> A[0][0] == A[1][1] || (y(0) == 0.0 && y(1) == 0.0))
  {
    hide Accumulated, Minimises, Maps, LeftInverse, Elimination;
    InverseExactly(flags, A, before, norm, W);
    if Faithful(flags, A) {
      InverseSolves(flags, A, W, b, y);
      NormalMinimises(flags, samples, A, y, b);
    }
    if Shortcut(flags, A) { ShortcutMinimises(flags, samples, A, y, W, b); }
  }

  lemma TwoSum(flags: seq<bool>, A: Matrix, x: Vector, j: int)
    requires Square(A, 2) && |flags| == 2 && !flags[0] && !flags[1] && 0 <= j < 2
    ensures Sum(|flags|, Terms(flags, x, A, j)) == Times(x(0), A[0][j]) + Times(x(1), A[1][j])
  {
  }

  /** With two coefficients the size-2 shortcut finds the minimum only for an equal diagonal, or nothing to fit. */
  lemma ShortcutMinimises(flags: seq<bool>, samples: seq<Sample>, A: Matrix, y: Vector, W: Matrix, b: Vector)
    requires Square(A, |flags|) && Square(W, |flags|)
    requires Accumulated(flags, samples, A, y)
    requires Shortcut(flags, A) && ShortcutResult(A, W) && Maps(flags, W, y, b)
    ensures Minimises(flags, samples, b) <==> A[0][0] == A[1][1] || (y(0) == 0.0 && y(1) == 0.0)
  {
    hide Accumulated, Maps, Minimises, Norm2, ShortcutResult;
    SymmetricGram(flags, samples, A, y);
    var best := [(A[1][1] * y(0) - A[0][1] * y(1)) / Norm2(A), (A[0][0] * y(1) - A[0][1] * y(0)) / Norm2(A)];
    BestTwo(flags, A, y, best);
    ShortcutIsBest(flags, A, y, W, b, best);
    if b(0) == best[0] && b(1) == best[1] {
      MapsExt(flags, A, Of(best), y, b, y);
      NormalMinimises(flags, samples, A, y, b);
    } else if Minimises(flags, samples, b) {
      MinimumIsBest(flags, samples, A, y, b, best);
    }
  }

  lemma ShortcutIsBest(flags: seq<bool>, A: Matrix, y: Vector, W: Matrix, b: Vector, best: seq<real>)
    requires Square(A, |flags|) && Square(W, |flags|) && |best| == 2
    requires Shortcut(flags, A) && ShortcutResult(A, W) && Maps(flags, W, y, b)
    requires A[0][1] == A[1][0]
    requires best[0] == (A[1][1] * y(0) - A[0][1] * y(1)) / Norm2(A)
    requires best[1] == (A[0][0] * y(1) - A[0][1] * y(0)) / Norm2(A)
    ensures b(0) == best[0] && b(1) == best[1] <==> A[0][0] == A[1][1] || (y(0) == 0.0 && y(1) == 0.0)
  {
    hide Maps, Norm2, Times;
    TwoInPlay(flags, W, y, b);
    SameAsBest(A[0][0], A[0][1], A[1][1], Norm2(A), W, y(0), y(1), b(0), b(1), best[0], best[1]);
  }

  lemma SymmetricGram(flags: seq<bool>, samples: seq<Sample>, A: Matrix, y: Vector)
    requires Square(A, 2) && |flags| == 2 && !flags[0] && !flags[1] && Accumulated(flags, samples, A, y)
    ensures A[0][1] == A[1][0]
  {
    GramSymmetric(samples);
    assert At(A, 0, 1) == GramAt(samples, 0, 1) && At(A, 1, 0) == GramAt(samples, 1, 0);
  }

  lemma BestTwo(flags: seq<bool>, A: Matrix, y: Vector, best: seq<real>)
    requires Square(A, 2) && |flags| == 2 && !flags[0] && !flags[1] && A[0][1] == A[1][0] && Norm2(A) != 0.0
    requires |best| == 2
    requires best[0] == (A[1][1] * y(0) - A[0][1] * y(1)) / Norm2(A)
    requires best[1] == (A[0][0] * y(1) - A[0][1] * y(0)) / Norm2(A)
    ensures Maps(flags, A, Of(best), y)
  {
    hide Maps;
    TwoInPlay(flags, A, Of(best), y);
    CramersTwo(A[0][0], A[0][1], A[1][1], Norm2(A), y(0), y(1), best[0], best[1]);
  }

  lemma CramersTwo(a: real, o: real, d: real, n: real, y0: real, y1: real, x0: real, x1: real)
    requires n == a * d - o * o && n != 0.0
    requires x0 == (d * y0 - o * y1) / n && x1 == (a * y1 - o * y0) / n
    ensures y0 == x0 * a + x1 * o && y1 == x0 * o + x1 * d
  {
  }

  lemma SameAsBest(a: real, o: real, d: real, n: real, W: Matrix, y0: real, y1: real,
      b0: real, b1: real, x0: real, x1: real)
    requires n != 0.0 && Square(W, 2)
    requires W[0][0] == a / n && W[0][1] == -(o / n) && W[1][0] == -(o / n) && W[1][1] == d / n
    requires b0 == Times(y0, W[0][0]) + Times(y1, W[1][0]) && b1 == Times(y0, W[0][1]) + Times(y1, W[1][1])
    requires x0 == (d * y0 - o * y1) / n && x1 == (a * y1 - o * y0) / n
    ensures b0 == x0 && b1 == x1 <==> a == d || (y0 == 0.0 && y1 == 0.0)
  {
  }

  /** Coefficients as good as the solution of the normal equations are that solution. */
  lemma MinimumIsBest(flags: seq<bool>, samples: seq<Sample>, A: Matrix, y: Vector, b: Vector, best: seq<real>)
    requires Square(A, 2) && |flags| == 2 && !flags[0] && !flags[1] && A[0][1] == A[1][0] && Norm2(A) != 0.0
    requires Accumulated(flags, samples, A, y) && |best| == 2 && Maps(flags, A, Of(best), y)
    requires Minimises(flags, samples, b)
    ensures b(0) == best[0] && b(1) == best[1]
  {
    hide Misfit, Maps, Accumulated, Dot, Fit;
    var e := Minus(b, Of(best));
    Excess(flags, samples, A, y, Of(best), b);
    DotNonNegative(|samples|, Fit(flags, samples, e));
    forall j | 0 <= j < 2 ensures Sum(|flags|, Terms(flags, e, A, j)) == 0.0 {
      FitAgainst(flags, samples, A, y, e, j);
      DotVanishes(|samples|, Fit(flags, samples, e), Correlate(samples, j));
    }
    TwoSum(flags, A, e, 0);
    TwoSum(flags, A, e, 1);
    TrivialTwo(A[0][0], A[0][1], A[1][1], e(0), e(1));
  }

  lemma DotVanishes(n: nat, f: Vector, g: Vector)
    requires forall s :: 0 <= s < n ==> f(s) == 0.0
    ensures Dot(n, f, g) == 0.0
  {
    SumZero(n, Pairwise(f, g));
  }

  lemma TrivialTwo(a: real, o: real, d: real, x: real, z: real)
    requires a * d - o * o != 0.0
    requires x * a + z * o == 0.0 && x * o + z * d == 0.0
    ensures x == 0.0 && z == 0.0
  {
  }

  lemma OneMore(samples: seq<Sample>, next: Sample, i: int, j: int)
    requires 0 <= i < |next.x| && 0 <= j < |next.x|
    ensures GramAt(samples + [next], i, j) == GramAt(samples, i, j) + Times(next.x[i], next.x[j])
    ensures MomentAt(samples + [next], j) == MomentAt(samples, j) + Times(next.Y, next.x[j])
  {
    hide Times;
    var more, n := samples + [next], |samples|;
    DotExt(n, Correlate(more, i), Correlate(more, j), Correlate(samples, i), Correlate(samples, j));
    DotExt(n, Given(more), Correlate(more, j), Given(samples), Correlate(samples, j));
    DotStep(n, Correlate(more, i), Correlate(more, j));
    DotStep(n, Given(more), Correlate(more, j));
  }

  lemma OneMoreGiven(samples: seq<Sample>, next: Sample)
    ensures var more := samples + [next];
      Dot(|more|, Given(more), Given(more)) == Dot(|samples|, Given(samples), Given(samples)) + Times(next.Y, next.Y)
  {
    hide Times;
    var more, n := samples + [next], |samples|;
    DotExt(n, Given(more), Given(more), Given(samples), Given(samples));
    DotStep(n, Given(more), Given(more));
  }

  lemma DotStep(n: nat, f: Vector, g: Vector)
    ensures Dot(n + 1, f, g) == Dot(n, f, g) + Times(f(n), g(n))
  {
  }

  // ----- a fit that misses -----

  /** Two samples that two coefficients of 1 fit exactly. */
  const TWO_SAMPLES: seq<Sample> := [Sample(1.0, [1.0, 0.0]), Sample(2.0, [0.0, 2.0])]

  lemma TwoSampleDot(f: Vector, g: Vector, n: nat)
    requires n == 2
    ensures Dot(n, f, g) == f(0) * g(0) + f(1) * g(1)
  {
    assert Dot(n, f, g) == Dot(n - 1, f, g) + Times(f(1), g(1));
    assert Dot(n - 1, f, g) == Dot(n - 2, f, g) + Times(f(0), g(0));
  }

  lemma TwoSampleSums()
    ensures GramAt(TWO_SAMPLES, 0, 0) == 1.0 && GramAt(TWO_SAMPLES, 1, 1) == 4.0
    ensures GramAt(TWO_SAMPLES, 0, 1) == 0.0 && GramAt(TWO_SAMPLES, 1, 0) == 0.0
    ensures MomentAt(TWO_SAMPLES, 0) == 1.0 && MomentAt(TWO_SAMPLES, 1) == 4.0
  {
    hide Dot;
    var y, c, d, n := Given(TWO_SAMPLES), Correlate(TWO_SAMPLES, 0), Correlate(TWO_SAMPLES, 1), |TWO_SAMPLES|;
    TwoSampleDot(c, c, n);
    TwoSampleDot(c, d, n);
    TwoSampleDot(d, c, n);
    TwoSampleDot(d, d, n);
    TwoSampleDot(y, c, n);
    TwoSampleDot(y, d, n);
  }

  lemma TwoSampleFit(flags: seq<bool>, b: Vector)
    requires |flags| == 2 && !flags[0] && !flags[1]
    ensures Fit(flags, TWO_SAMPLES, b)(0) == b(0) && Fit(flags, TWO_SAMPLES, b)(1) == 2.0 * b(1)
  {
    var n: nat := |flags|;
    forall s ensures Sum(n, FitTerms(flags, TWO_SAMPLES, b, s)) ==
                     FitTerms(flags, TWO_SAMPLES, b, s)(0) + FitTerms(flags, TWO_SAMPLES, b, s)(1) {
      var f := FitTerms(flags, TWO_SAMPLES, b, s);
      assert Sum(n, f) == Sum(n - 1, f) + f(1) && Sum(n - 1, f) == Sum(n - 2, f) + f(0);
    }
    assert Correlate(TWO_SAMPLES, 0)(0) == 1.0 && Correlate(TWO_SAMPLES, 1)(0) == 0.0;
    assert Correlate(TWO_SAMPLES, 0)(1) == 0.0 && Correlate(TWO_SAMPLES, 1)(1) == 2.0;
  }

  lemma TwoSamplesIndependent(flags: seq<bool>)
    requires |flags| == 2 && !flags[0] && !flags[1]
    ensures Independent(flags, TWO_SAMPLES)
  {
    hide Fit;
    forall x: seq<real> | |x| == |flags| && Nonzero(flags, x)
      ensures exists s :: 0 <= s < |TWO_SAMPLES| && Fit(flags, TWO_SAMPLES, Of(x))(s) != 0.0
    {
      TwoSampleFit(flags, Of(x));
      var s := if x[0] != 0.0 then 0 else 1;
      assert Fit(flags, TWO_SAMPLES, Of(x))(s) != 0.0;
    }
  }

  lemma TwoSamplesShortcut(flags: seq<bool>, A: Matrix, y: Vector)
    requires |flags| == 2 && !flags[0] && !flags[1] && Square(A, 2) && Accumulated(flags, TWO_SAMPLES, A, y)
    ensures Shortcut(flags, A) && !Degenerate(flags) && A[0][0] == 1.0 && A[1][1] == 4.0 && y(0) == 1.0
  {
    hide GramAt, MomentAt;
    TwoSampleSums();
    assert At(A, 0, 0) == 1.0 && At(A, 0, 1) == 0.0 && At(A, 1, 1) == 4.0 && At(A, 1, 0) == 0.0;
    assert Norm2(A) == 4.0;
  }

  /** Fitting two coefficients to these samples does not give the least sum of squared residuals. */
  method MissedFit() returns (fitter: LLSQcomputer)
    ensures fresh(fitter) && fitter.Valid() && fitter.samples == TWO_SAMPLES
    ensures fitter.matrix.ignore[..] == [false, false]
    ensures !Minimises(fitter.matrix.ignore[..], fitter.samples, Of(fitter.solution[..]))
  {
    hide Minimises, Independent, Accumulated, Shortcut, Degenerate, GramAt, MomentAt, Dot, LLSQcomputer.Consistent;
    fitter := new LLSQcomputer(2);
    var first := fitter.Include(1.0, [1.0, 0.0]);
    var second := fitter.Include(2.0, [0.0, 2.0]);
    assert fitter.samples == TWO_SAMPLES;
    ghost var flags := fitter.matrix.ignore[..];
    assert flags == [false, false];
    TwoSamplesIndependent(flags);
    var fits, det := fitter.Compute();
    TwoSamplesShortcut(flags, fitter.matrix.Xs(), Of(fitter.ys[..]));
  }

  lemma PlayingBoth(flags: seq<bool>, n: nat)
    requires |flags| == n == 2 && !flags[0] && !flags[1]
    ensures Playing(flags, n) == 2
  {
    assert Playing(flags, n) == Playing(flags, n - 1) + 1 && Playing(flags, n - 1) == Playing(flags, n - 2) + 1;
  }

  /** The count of fits runs on from one computation to the next. */
  method CountedTwice() returns (first: nat, second: nat)
    ensures first == 2 && second == 4
  {
    hide Minimises, Independent, Accumulated, Shortcut, Degenerate, GramAt, MomentAt, Dot, LLSQcomputer.Consistent;
    var fitter := new LLSQcomputer(2);
    var one := fitter.Include(1.0, [1.0, 0.0]);
    var two := fitter.Include(2.0, [0.0, 2.0]);
    assert fitter.samples == TWO_SAMPLES;
    ghost var flags := fitter.matrix.ignore[..];
    assert flags == [false, false];
    TwoSamplesIndependent(flags);
    PlayingBoth(flags, fitter.size);
    ghost var det;
    first, det := fitter.Compute();
    TwoSamplesShortcut(flags, fitter.matrix.Xs(), Of(fitter.ys[..]));
    second, det := fitter.Compute();
  }
}
