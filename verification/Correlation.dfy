/** Running statistics of paired data, cppext/realstatistic.cpp, and the bounds on the correlation they give. */
module Correlation {
  import opened Minimath
  import opened Sums
  import opened Exchange
  import opened Pivots
  import opened Regression

  datatype Point = Point(x: real, y: real)

  ghost function Xs(points: seq<Point>): Vector { i => if 0 <= i < |points| then points[i].x else 0.0 }
  ghost function Ys(points: seq<Point>): Vector { i => if 0 <= i < |points| then points[i].y else 0.0 }
  ghost function Ones(): Vector { i => 1.0 }

  /** The sum over the data of the product of two columns. */
  ghost function Sx(points: seq<Point>): real { Dot(|points|, Ones(), Xs(points)) }
  ghost function Sy(points: seq<Point>): real { Dot(|points|, Ones(), Ys(points)) }
  ghost function Sxx(points: seq<Point>): real { Dot(|points|, Xs(points), Xs(points)) }
  ghost function Syy(points: seq<Point>): real { Dot(|points|, Ys(points), Ys(points)) }
  ghost function Sxy(points: seq<Point>): real { Dot(|points|, Xs(points), Ys(points)) }

  class RealStatistic {
    var sum: real
    var sumSquares: real
    var count: nat

    constructor ()
      ensures count == 0 && sum == 0.0 && sumSquares == 0.0
    {
      sum, sumSquares, count := 0.0, 0.0, 0;
    }

    method Insert(datum: real)
      modifies this
      ensures count == old(count) + 1 && sum == old(sum) + datum && sumSquares == old(sumSquares) + Times(datum, datum)
    {
      count := count + 1;
      sum := sum + datum;
      sumSquares := sumSquares + datum * datum;
    }

    method Remove(datum: real)
      modifies this
      ensures old(count) > 0 ==>
        count == old(count) - 1 && sum == old(sum) - datum && sumSquares == old(sumSquares) - Times(datum, datum)
      ensures old(count) == 0 ==> count == 0 && sum == old(sum) && sumSquares == old(sumSquares)
    {
      if count > 0 {
        count := count - 1;
        sum := sum - datum;
        sumSquares := sumSquares - datum * datum;
      }
    }

    function Lform(): real
      reads this
    {
      Form(count as real, sumSquares, sum, sum)
    }

    function Mean(): real
      reads this
    {
      Ratio(sum, count as real)
    }
  }

  function Squared(a: real): real { a * a }

  function Product(a: real, b: real): real { a * b }

  /** Where a line of a given slope through a point meets the axis. */
  function Through(x: real, y: real, slope: real): real { y - x * slope }

  /** The number of points times a sum of products, less the product of the sums. */
  function Form(n: real, xy: real, x: real, y: real): real { n * xy - x * y }

  class RealCorrelation {
    const xx: RealStatistic
    const yy: RealStatistic
    var sumCross: real
    /** The points put in and not taken out again. */
    ghost var points: seq<Point>

    ghost predicate Valid()
      reads this, xx, yy
    {
      && xx != yy && xx.count == yy.count == |points|
      && xx.sum == Sx(points) && yy.sum == Sy(points)
      && xx.sumSquares == Sxx(points) && yy.sumSquares == Syy(points) && sumCross == Sxy(points)
    }

    constructor ()
      ensures Valid() && points == [] && fresh(xx) && fresh(yy)
    {
      xx := new RealStatistic();
      yy := new RealStatistic();
      sumCross, points := 0.0, [];
    }

    method Insert(x: real, y: real)
      requires Valid()
      modifies this, xx, yy
      ensures Valid() && points == old(points) + [Point(x, y)]
    {
      hide Sx, Sy, Sxx, Syy, Sxy, Times;
      SumsGrow(points, Point(x, y));
      xx.Insert(x);
      yy.Insert(y);
      TimesIs(x, y);
      sumCross := sumCross + x * y;
      points := points + [Point(x, y)];
    }

    /** Takes out a point that is in. */
    method Remove(x: real, y: real, ghost at: nat)
      requires Valid() && at < |points| && points[at] == Point(x, y)
      modifies this, xx, yy
      ensures Valid() && points == old(points)[..at] + old(points)[at + 1..]
    {
      hide Sx, Sy, Sxx, Syy, Sxy, Times;
      SumsShrink(points, at);
      xx.Remove(x);
      yy.Remove(y);
      TimesIs(x, y);
      sumCross := sumCross - x * y;
      points := points[..at] + points[at + 1..];
    }

    function Lcross(): real
      reads this, xx, yy
    {
      Form(xx.count as real, sumCross, xx.sum, yy.sum)
    }

    function CrossCorrelation(): real
      reads this, xx, yy
    {
      Ratio(Squared(Lcross()), Product(xx.Lform(), yy.Lform()))
    }

    function Slope(): real
      reads this, xx, yy
    {
      Ratio(Lcross(), xx.Lform())
    }

    function Offset(): real
      reads this, xx, yy
    {
      Through(xx.Mean(), yy.Mean(), Slope())
    }
  }

  // ----- the sums as points come and go -----

  lemma SumsGrow(points: seq<Point>, p: Point)
    ensures var more := points + [p];
      && Sx(more) == Sx(points) + p.x && Sy(more) == Sy(points) + p.y && Sxx(more) == Sxx(points) + Times(p.x, p.x)
      && Syy(more) == Syy(points) + Times(p.y, p.y) && Sxy(more) == Sxy(points) + Times(p.x, p.y)
  {
    hide Times, Dot;
    var more, n := points + [p], |points|;
    TimesUnit(p.x);
    TimesUnit(p.y);
    DotGrows(n, Ones(), Xs(points), Ones(), Xs(more));
    DotGrows(n, Ones(), Ys(points), Ones(), Ys(more));
    DotGrows(n, Xs(points), Xs(points), Xs(more), Xs(more));
    DotGrows(n, Ys(points), Ys(points), Ys(more), Ys(more));
    DotGrows(n, Xs(points), Ys(points), Xs(more), Ys(more));
  }

  lemma DotGrows(n: nat, f: Vector, g: Vector, h: Vector, k: Vector)
    requires forall i :: 0 <= i < n ==> f(i) == h(i) && g(i) == k(i)
    ensures Dot(n + 1, h, k) == Dot(n, f, g) + Times(h(n), k(n))
  {
    SumExt(n, Pairwise(f, g), Pairwise(h, k));
  }

  lemma SumsShrink(points: seq<Point>, at: nat)
    requires at < |points|
    ensures var fewer, p := points[..at] + points[at + 1..], points[at];
      && Sx(fewer) == Sx(points) - p.x && Sy(fewer) == Sy(points) - p.y && Sxx(fewer) == Sxx(points) - Times(p.x, p.x)
      && Syy(fewer) == Syy(points) - Times(p.y, p.y) && Sxy(fewer) == Sxy(points) - Times(p.x, p.y)
  {
    hide Times, Dot;
    var fewer, p, n := points[..at] + points[at + 1..], points[at], |points|;
    TimesUnit(p.x);
    TimesUnit(p.y);
    DotShrinks(n, at, Ones(), Xs(points), Ones(), Xs(fewer));
    DotShrinks(n, at, Ones(), Ys(points), Ones(), Ys(fewer));
    DotShrinks(n, at, Xs(points), Xs(points), Xs(fewer), Xs(fewer));
    DotShrinks(n, at, Ys(points), Ys(points), Ys(fewer), Ys(fewer));
    DotShrinks(n, at, Xs(points), Ys(points), Xs(fewer), Ys(fewer));
  }

  lemma DotShrinks(n: nat, at: nat, f: Vector, g: Vector, h: Vector, k: Vector)
    requires at < n
    requires forall i :: 0 <= i < n - 1 ==> h(i) == f(Skip(at, i)) && k(i) == g(Skip(at, i))
    ensures Dot(n - 1, h, k) == Dot(n, f, g) - Times(f(at), g(at))
  {
    var whole, part := Pairwise(f, g), Pairwise(h, k);
    var holed := (i: int) => if i == at then 0.0 else whole(i);
    SumSplit(n, at, whole, holed);
    SumSkip(n, at, part, holed);
  }

  // ----- the bound -----

  ghost function Lxx(points: seq<Point>): real { Form(|points| as real, Sxx(points), Sx(points), Sx(points)) }
  ghost function Lyy(points: seq<Point>): real { Form(|points| as real, Syy(points), Sy(points), Sy(points)) }
  ghost function Lxy(points: seq<Point>): real { Form(|points| as real, Sxy(points), Sx(points), Sy(points)) }

  ghost predicate OnOneLine(points: seq<Point>) {
    exists a: real, b: real :: Along(points, a, b)
  }

  ghost predicate Along(points: seq<Point>, a: real, b: real) {
    forall i :: 0 <= i < |points| ==> points[i].y == a + Times(b, points[i].x)
  }

  /** The deviations from the mean, times the number of points. */
  ghost function Deviations(n: nat, f: Vector): Vector { i => Lin(n as real, f(i), -Dot(n, Ones(), f), 1.0) }

  lemma {:induction false} DotLinear(n: nat, s: real, f: Vector, t: real, g: Vector, h: Vector, k: Vector)
    requires forall i :: 0 <= i < n ==> k(i) == Lin(s, f(i), t, g(i))
    ensures Dot(n, k, h) == Dot(n, h, k) == Lin(s, Dot(n, f, h), t, Dot(n, g, h))
  {
    hide Times, Lin;
    DotMinus(n, k, h, k);
    if n > 0 {
      DotLinear(n - 1, s, f, t, g, h, k);
      LinTimes(s, f(n - 1), t, g(n - 1), h(n - 1), Dot(n - 1, f, h), Dot(n - 1, g, h));
    } else {
      LinZero(s, t);
    }
  }

  lemma LinTimes(s: real, a: real, t: real, b: real, c: real, p: real, q: real)
    ensures Lin(s, p, t, q) + Times(Lin(s, a, t, b), c) == Lin(s, p + Times(a, c), t, q + Times(b, c))
  {
  }

  lemma {:induction false} DotOnes(n: nat)
    ensures Dot(n, Ones(), Ones()) == n as real
  {
    hide Times;
    if n > 0 {
      DotOnes(n - 1);
      TimesUnit(1.0);
    }
  }

  lemma DotSymmetric(n: nat, f: Vector, g: Vector)
    ensures Dot(n, f, g) == Dot(n, g, f)
  {
    DotMinus(n, f, g, f);
  }

  /** Products of deviations add up to the forms the statistics use. */
  lemma DeviationProducts(n: nat, f: Vector, g: Vector)
    ensures Dot(n, Deviations(n, f), Deviations(n, g))
         == Times(n as real, Form(n as real, Dot(n, f, g), Dot(n, Ones(), f), Dot(n, Ones(), g)))
  {
    hide Dot, Lin, Times, Form;
    var d, e, N, F, G := Deviations(n, f), Deviations(n, g), n as real, Dot(n, Ones(), f), Dot(n, Ones(), g);
    DotLinear(n, N, f, -F, Ones(), e, d);
    DotLinear(n, N, g, -G, Ones(), f, e);
    DotLinear(n, N, g, -G, Ones(), Ones(), e);
    DotSymmetric(n, g, f);
    DotSymmetric(n, g, Ones());
    DotOnes(n);
    Collect(N, F, G, Dot(n, f, g), Dot(n, f, e), Dot(n, Ones(), e));
  }

  lemma Collect(n: real, f: real, g: real, fg: real, fe: real, oe: real)
    requires fe == Lin(n, fg, -g, f) && oe == Lin(n, g, -g, n)
    ensures Lin(n, fe, -f, oe) == Times(n, Form(n, fg, f, g))
  {
    assert oe == 0.0;
  }

  /** Cauchy and Schwarz, with equality only when one column is a multiple of the other. */
  lemma CauchySchwarz(n: nat, f: Vector, g: Vector)
    ensures Squared(Dot(n, f, g)) <= Times(Dot(n, f, f), Dot(n, g, g))
    ensures Dot(n, f, f) == 0.0 ==> Dot(n, f, g) == 0.0
    ensures Dot(n, f, f) != 0.0 && Squared(Dot(n, f, g)) == Times(Dot(n, f, f), Dot(n, g, g)) ==>
              forall i :: 0 <= i < n ==> Lin(Dot(n, f, f), g(i), -Dot(n, f, g), f(i)) == 0.0
  {
    hide Dot, Lin, Times, Squared;
    var a, b, c := Dot(n, f, f), Dot(n, f, g), Dot(n, g, g);
    var h := (i: int) => Lin(a, g(i), -b, f(i));
    DotLinear(n, a, g, -b, f, h, h);
    DotLinear(n, a, g, -b, f, g, h);
    DotLinear(n, a, g, -b, f, f, h);
    DotSymmetric(n, g, f);
    DotNonNegative(n, h);
    DotNonNegative(n, f);
    Completed(a, b, c, Dot(n, h, h), Dot(n, h, g), Dot(n, h, f));
    if a == 0.0 {
      ZeroDot(n, f, g);
      TimesUnit(c);
      SquaredZero(b);
    }
  }

  lemma ProductZero(a: real, b: real)
    ensures Product(a, b) == 0.0 <==> a == 0.0 || b == 0.0
  {
  }

  lemma SquaredZero(b: real)
    ensures b == 0.0 ==> Squared(b) == 0.0
  {
  }

  lemma Completed(a: real, b: real, c: real, hh: real, hg: real, hf: real)
    requires hh == Lin(a, hg, -b, hf) && hg == Lin(a, c, -b, b) && hf == Lin(a, b, -b, a) && hh >= 0.0 && a >= 0.0
    ensures a > 0.0 ==> Squared(b) <= Times(a, c) && (Squared(b) == Times(a, c) ==> hh == 0.0)
  {
  }

  lemma ZeroDot(n: nat, f: Vector, g: Vector)
    requires Dot(n, f, f) == 0.0
    ensures Dot(n, f, g) == 0.0
  {
    hide Times;
    DotNonNegative(n, f);
    forall i | 0 <= i < n ensures Pairwise(f, g)(i) == 0.0 { TimesUnit(g(i)); }
    SumZero(n, Pairwise(f, g));
  }

  lemma FormsBounded(points: seq<Point>)
    ensures Squared(Lxy(points)) <= Product(Lxx(points), Lyy(points))
    ensures Lxx(points) >= 0.0 && Lyy(points) >= 0.0
    ensures Lxx(points) == 0.0 ==> Lxy(points) == 0.0
  {
    hide Lxx, Lxy, Lyy, Deviations, Squared, Times, Dot, Product;
    if points == [] {
      NoSums(points);
      SquaredZero(Lxy(points));
      ProductZero(Lxx(points), Lyy(points));
    } else {
      var n, u, v := |points|, Deviations(|points|, Xs(points)), Deviations(|points|, Ys(points));
      FormsAre(points);
      CauchySchwarz(n, u, v);
      DotNonNegative(n, u);
      DotNonNegative(n, v);
      Unscale(n as real, Lxx(points), Lxy(points), Lyy(points));
    }
  }

  lemma NoSums(points: seq<Point>)
    requires points == []
    ensures Lxx(points) == 0.0 && Lxy(points) == 0.0 && Lyy(points) == 0.0
    ensures Sx(points) == 0.0 && Sy(points) == 0.0 && Sxx(points) == 0.0 && Sxy(points) == 0.0
  {
    hide Form, Pairwise;
    FormNothing(|points| as real);
  }

  lemma FormNothing(n: real)
    ensures Form(n, 0.0, 0.0, 0.0) == 0.0
  {
  }

  lemma FormsAre(points: seq<Point>)
    ensures var n, x, y := |points|, Xs(points), Ys(points);
      && Dot(n, Deviations(n, x), Deviations(n, x)) == Times(n as real, Lxx(points))
      && Dot(n, Deviations(n, x), Deviations(n, y)) == Times(n as real, Lxy(points))
      && Dot(n, Deviations(n, y), Deviations(n, y)) == Times(n as real, Lyy(points))
  {
    hide Form, Times, Dot;
    var n := |points|;
    DeviationProducts(n, Xs(points), Xs(points));
    DeviationProducts(n, Xs(points), Ys(points));
    DeviationProducts(n, Ys(points), Ys(points));
  }

  lemma Unscale(n: real, a: real, c: real, b: real)
    requires n > 0.0 && Squared(Times(n, c)) <= Times(Times(n, a), Times(n, b))
      && Times(n, a) >= 0.0 && Times(n, b) >= 0.0
    requires Times(n, a) == 0.0 ==> Times(n, c) == 0.0
    ensures Squared(c) <= Product(a, b) && a >= 0.0 && b >= 0.0 && (a == 0.0 ==> c == 0.0)
  {
  }

  lemma RatioBounded(c: real, a: real, b: real)
    requires Squared(c) <= Product(a, b) && a >= 0.0 && b >= 0.0
    ensures 0.0 <= Ratio(Squared(c), Product(a, b)) <= 1.0
    ensures Ratio(Squared(c), Product(a, b)) == 1.0 <==> a != 0.0 && b != 0.0 && Squared(c) == Product(a, b)
  {
  }

  // ----- when the bound is met -----

  /** Where the data vary, the bound is met exactly by points on one line. */
  lemma CollinearExactly(points: seq<Point>)
    ensures Lxx(points) != 0.0 && Lyy(points) != 0.0 ==>
      (Squared(Lxy(points)) == Product(Lxx(points), Lyy(points)) <==> OnOneLine(points))
  {
    hide Lxx, Lxy, Lyy, Squared, Product, Along;
    if Lxx(points) != 0.0 {
      if OnOneLine(points) {
        var a, b :| Along(points, a, b);
        AlongForms(points, a, b);
        SameSquares(b, Lxx(points), Lxy(points), Lyy(points));
      }
      if Squared(Lxy(points)) == Product(Lxx(points), Lyy(points)) { FormsAlong(points); }
    }
  }

  /** The correlation is between none and all, whatever the data; all exactly if the points vary in both directions
      and lie on one line. */
  lemma CorrelationBounded(c: RealCorrelation)
    requires c.Valid()
    ensures 0.0 <= c.CrossCorrelation() <= 1.0
    ensures c.CrossCorrelation() == 1.0 <==> c.xx.Lform() != 0.0 && c.yy.Lform() != 0.0 && OnOneLine(c.points)
  {
    hide Form, Squared, Product, Ratio, Sx, Sy, Sxx, Syy, Sxy, OnOneLine;
    FormsBounded(c.points);
    CollinearExactly(c.points);
    RatioBounded(Lxy(c.points), Lxx(c.points), Lyy(c.points));
  }

  lemma AlongForms(points: seq<Point>, a: real, b: real)
    requires Along(points, a, b)
    ensures Lxy(points) == Times(b, Lxx(points)) && Lyy(points) == Times(b, Lxy(points))
  {
    hide Dot, Lin, Form;
    var n, x, y := |points|, Xs(points), Ys(points);
    forall i | 0 <= i < n ensures y(i) == Lin(a, Ones()(i), b, x(i)) { LineIs(a, b, x(i)); }
    DotLinear(n, a, Ones(), b, x, Ones(), y);
    DotLinear(n, a, Ones(), b, x, x, y);
    DotLinear(n, a, Ones(), b, x, y, y);
    DotSymmetric(n, x, Ones());
    DotOnes(n);
    LineForms(n as real, a, b, Sx(points), Sy(points), Sxx(points), Sxy(points), Syy(points));
  }

  lemma LineIs(a: real, b: real, x: real)
    ensures a + Times(b, x) == Lin(a, 1.0, b, x)
  {
  }

  lemma LineForms(n: real, a: real, b: real, x: real, y: real, xx: real, xy: real, yy: real)
    requires y == Lin(a, n, b, x) && xy == Lin(a, x, b, xx) && yy == Lin(a, y, b, xy)
    ensures Form(n, xy, x, y) == Times(b, Form(n, xx, x, x))
    ensures Form(n, yy, y, y) == Times(b, Form(n, xy, x, y))
  {
  }

  lemma SameSquares(b: real, xx: real, xy: real, yy: real)
    requires xy == Times(b, xx) && yy == Times(b, xy)
    ensures Squared(xy) == Product(xx, yy)
  {
    assert xx * (b * xy) == (b * xx) * xy;
  }

  lemma FormsAlong(points: seq<Point>)
    requires Lxx(points) != 0.0 && Squared(Lxy(points)) == Product(Lxx(points), Lyy(points))
    ensures OnOneLine(points)
  {
    hide Dot, Lxx, Lxy, Lyy, Deviations, Along, Times, Lin, Squared, Product, Sx, Sy;
    var n, x, y := |points|, Xs(points), Ys(points);
    var u, v, xx, xy, yy := Deviations(n, x), Deviations(n, y), Lxx(points), Lxy(points), Lyy(points);
    if n == 0 {
      AlongIs(points, 0.0, 0.0);
    } else {
      FormsAre(points);
      CauchySchwarz(n, u, v);
      Rescaled(n as real, xx, xy, yy);
      var b := xy / xx;
      var a := Middle(n as real, Sx(points), Sy(points), b);
      forall i | 0 <= i < n ensures points[i].y == a + Times(b, points[i].x) {
        DeviationIs(points, i);
        OnLine(n as real, xx, xy, points[i].x, points[i].y, Sx(points), Sy(points), u(i), v(i), b);
      }
      AlongIs(points, a, b);
    }
  }

  ghost function Middle(n: real, sx: real, sy: real, b: real): real
    requires n > 0.0
  {
    (sy - b * sx) / n
  }

  lemma AlongIs(points: seq<Point>, a: real, b: real)
    requires forall i :: 0 <= i < |points| ==> points[i].y == a + Times(b, points[i].x)
    ensures OnOneLine(points)
  {
    assert Along(points, a, b);
  }

  lemma DeviationIs(points: seq<Point>, i: int)
    requires 0 <= i < |points|
    ensures Deviations(|points|, Xs(points))(i) == Lin(|points| as real, points[i].x, -Sx(points), 1.0)
    ensures Deviations(|points|, Ys(points))(i) == Lin(|points| as real, points[i].y, -Sy(points), 1.0)
  {
    hide Dot, Lin;
  }

  lemma Rescaled(n: real, a: real, c: real, b: real)
    requires n > 0.0 && a != 0.0 && Squared(c) == Product(a, b)
    ensures Squared(Times(n, c)) == Times(Times(n, a), Times(n, b)) && Times(n, a) != 0.0
  {
  }

  lemma OnLine(n: real, xx: real, xy: real, x: real, y: real, sx: real, sy: real, u: real, v: real, b: real)
    requires n > 0.0 && xx != 0.0 && Lin(Times(n, xx), v, -Times(n, xy), u) == 0.0
    requires u == Lin(n, x, -sx, 1.0) && v == Lin(n, y, -sy, 1.0) && b == xy / xx
    ensures y == Middle(n, sx, sy, b) + Times(b, x)
  {
  }

  // ----- the line -----

  ghost function Miss(points: seq<Point>, a: real, b: real): Vector {
    i => Ys(points)(i) - (a + Times(b, Xs(points)(i)))
  }

  /** The sum of squared vertical distances from a line. */
  ghost function Misses(points: seq<Point>, a: real, b: real): real {
    Dot(|points|, Miss(points, a, b), Miss(points, a, b))
  }

  /** Slope and offset give a least-squares line, degenerate data included. */
  lemma LineMinimises(c: RealCorrelation, a: real, b: real)
    requires c.Valid()
    ensures Misses(c.points, c.Offset(), c.Slope()) <= Misses(c.points, a, b)
  {
    hide *;
    LineSolves(c);
    NormalLine(c.points, c.Offset(), c.Slope(), a, b);
  }

  lemma LineSolves(c: RealCorrelation)
    requires c.Valid()
    ensures Solves(c.points, c.Offset(), c.Slope())
  {
    hide Dot, Form, Ratio, Through, Lin, Sx, Sy, Sxx, Sxy, Syy;
    FormsBounded(c.points);
    if c.points == [] {
      NoSums(c.points);
      NothingSolved(Ratio(Form(0.0, 0.0, 0.0, 0.0), Form(0.0, 0.0, 0.0, 0.0)));
    } else {
      Solved(|c.points| as real, Sx(c.points), Sy(c.points), Sxx(c.points), Sxy(c.points));
    }
  }

  /** The normal equations of a line. */
  ghost predicate Solves(points: seq<Point>, o: real, s: real) {
    && Sy(points) == Lin(o, |points| as real, s, Sx(points))
    && Sxy(points) == Lin(o, Sx(points), s, Sxx(points))
  }

  lemma NothingSolved(s: real)
    ensures var o := Through(Ratio(0.0, 0.0), Ratio(0.0, 0.0), s); Lin(o, 0.0, s, 0.0) == 0.0
  {
  }

  lemma Solved(n: real, x: real, y: real, xx: real, xy: real)
    requires n > 0.0 && (Form(n, xx, x, x) == 0.0 ==> Form(n, xy, x, y) == 0.0)
    ensures var s := Ratio(Form(n, xy, x, y), Form(n, xx, x, x)); var o := Through(Ratio(x, n), Ratio(y, n), s);
      y == Lin(o, n, s, x) && xy == Lin(o, x, s, xx)
  {
    hide Form, Ratio, Lin, Through;
    var l, m := Form(n, xx, x, x), Form(n, xy, x, y);
    var s, my, mx := Ratio(m, l), Ratio(y, n), Ratio(x, n);
    var o := Through(mx, my, s);
    RatioTimes(m, l);
    RatioTimes(y, n);
    RatioTimes(x, n);
    Intercept(n, x, y, s, my, mx, o);
    SecondEquation(n, x, y, xx, xy, s, o);
  }

  lemma RatioTimes(m: real, l: real)
    requires l == 0.0 ==> m == 0.0
    ensures Ratio(m, l) * l == m
  {
  }

  lemma Intercept(n: real, x: real, y: real, s: real, my: real, mx: real, o: real)
    requires my * n == y && mx * n == x && o == Through(mx, my, s)
    ensures o * n == y - x * s && y == Lin(o, n, s, x)
  {
    assert (mx * s) * n == (mx * n) * s;
  }

  lemma SecondEquation(n: real, x: real, y: real, xx: real, xy: real, s: real, o: real)
    requires n > 0.0 && o * n == y - x * s && s * Form(n, xx, x, x) == Form(n, xy, x, y)
    ensures xy == Lin(o, x, s, xx)
  {
  }

  // The least-squares line is an instance of Regression, with correlates 1 and x.

  const BOTH: seq<bool> := [false, false]

  ghost function AsSamples(points: seq<Point>): (samples: seq<Sample>)
    ensures |samples| == |points|
    ensures forall i :: 0 <= i < |points| ==> samples[i] == Sample(points[i].y, [1.0, points[i].x])
  {
    seq(|points|, i requires 0 <= i < |points| => Sample(points[i].y, [1.0, points[i].x]))
  }

  ghost function Gram(points: seq<Point>): Matrix {
    [[|points| as real, Sx(points)], [Sx(points), Sxx(points)]]
  }

  lemma SamplesAccumulate(points: seq<Point>)
    ensures Accumulated(BOTH, AsSamples(points), Gram(points), Of([Sy(points), Sxy(points)]))
  {
    hide Dot;
    var n, samples := |points|, AsSamples(points);
    var one, x, y := Correlate(samples, 0), Correlate(samples, 1), Given(samples);
    DotExt(n, one, one, Ones(), Ones());
    DotExt(n, one, x, Ones(), Xs(points));
    DotExt(n, x, x, Xs(points), Xs(points));
    DotExt(n, y, one, Ys(points), Ones());
    DotExt(n, y, x, Ys(points), Xs(points));
    DotSymmetric(n, one, x);
    DotSymmetric(n, Ys(points), Ones());
    DotSymmetric(n, Ys(points), Xs(points));
    DotOnes(n);
  }

  lemma FitIsLine(points: seq<Point>, a: real, b: real, i: int)
    requires 0 <= i < |points|
    ensures Fit(BOTH, AsSamples(points), Of([a, b]))(i) == a + Times(b, points[i].x)
  {
    var f, n := FitTerms(BOTH, AsSamples(points), Of([a, b]), i), |BOTH|;
    assert Play(BOTH, 0) && Play(BOTH, 1);
    assert AsSamples(points)[i].x == [1.0, points[i].x];
    assert Correlate(AsSamples(points), 0)(i) == 1.0 && Correlate(AsSamples(points), 1)(i) == points[i].x;
    assert Of([a, b])(0) == a && Of([a, b])(1) == b;
    assert f(0) == Times(a, 1.0);
    assert f(1) == Times(b, points[i].x);
    assert Sum(n, f) == Sum(n - 1, f) + f(1) && Sum(n - 1, f) == Sum(n - 2, f) + f(0);
  }

  lemma MissesAreMisfit(points: seq<Point>, a: real, b: real)
    ensures Misses(points, a, b) == Misfit(BOTH, AsSamples(points), Of([a, b]))
  {
    hide Dot;
    var r, m := Residual(BOTH, AsSamples(points), Of([a, b])), Miss(points, a, b);
    forall i | 0 <= i < |points| ensures m(i) == r(i) {
      FitIsLine(points, a, b, i);
      var g, h := Given(AsSamples(points)), Fit(BOTH, AsSamples(points), Of([a, b]));
      assert Minus(g, h)(i) == g(i) - h(i) && g(i) == points[i].y;
      assert Ys(points)(i) == points[i].y && Xs(points)(i) == points[i].x;
    }
    DotExt(|points|, m, m, r, r);
  }

  lemma LinIsTimes(a: real, x: real, b: real, y: real)
    ensures Lin(a, x, b, y) == Times(a, x) + Times(b, y)
  {
  }

  lemma NormalLine(points: seq<Point>, o: real, s: real, a: real, b: real)
    requires Solves(points, o, s)
    ensures Misses(points, o, s) <= Misses(points, a, b)
  {
    hide Dot, Misses, Lin, Times, Accumulated, Maps, Sx, Sy, Sxx, Sxy, AsSamples, Misfit;
    var samples, A, y, c := AsSamples(points), Gram(points), Of([Sy(points), Sxy(points)]), [a, b];
    SamplesAccumulate(points);
    LinIsTimes(o, |points| as real, s, Sx(points));
    LinIsTimes(o, Sx(points), s, Sxx(points));
    TwoInPlay(BOTH, A, Of([o, s]), y);
    NormalMinimises(BOTH, samples, A, y, Of([o, s]));
    MissesAreMisfit(points, o, s);
    MissesAreMisfit(points, a, b);
    assert |c| == |BOTH|;
  }

  // ----- what the correlation measures -----

  /** The misses of a line whose residuals sum to zero, and vanish against x unless it is level. */
  lemma MissesOf(points: seq<Point>, a: real, b: real)
    requires Sy(points) == Lin(a, |points| as real, b, Sx(points))
    requires b == 0.0 || Sxy(points) == Lin(a, Sx(points), b, Sxx(points))
    ensures Misses(points, a, b) == Syy(points) - Lin(a, Sy(points), b, Sxy(points))
  {
    hide Dot, Lin, Times;
    var n, x, y, m := |points|, Xs(points), Ys(points), Miss(points, a, b);
    var f: Vector := i => Lin(a, Ones()(i), b, x(i));
    forall i | 0 <= i < n ensures m(i) == Minus(y, f)(i) { LineIs(a, b, x(i)); }
    DotExt(n, m, m, Minus(y, f), Minus(y, f));
    DotMinus(n, y, f, Minus(y, f));
    DotMinus(n, y, f, y);
    DotMinus(n, y, f, f);
    DotMinus(n, y, f, x);
    DotLinear(n, a, Ones(), b, x, y, f);
    DotLinear(n, a, Ones(), b, x, f, f);
    DotLinear(n, a, Ones(), b, x, Ones(), f);
    DotLinear(n, a, Ones(), b, x, x, f);
    DotSymmetric(n, x, Ones());
    DotOnes(n);
    LevelLine(a, b, Sy(points), Dot(n, x, f), Sxy(points));
  }

  lemma LevelLine(a: real, b: real, y: real, p: real, q: real)
    requires b == 0.0 || p == q
    ensures Lin(a, y, b, p) == Lin(a, y, b, q)
  {
  }

  /** The share of the spread about the mean that the line accounts for, R squared, is the cross correlation. */
  lemma CorrelationIsShare(c: RealCorrelation)
    requires c.Valid()
    ensures Misses(c.points, c.Offset(), c.Slope()) ==
      (1.0 - c.CrossCorrelation()) * Misses(c.points, c.yy.Mean(), 0.0)
  {
    hide Misses, Solves, Form, Ratio, Squared, Product, Through, Lin, Sx, Sy, Sxx, Syy, Sxy;
    var points, n := c.points, |c.points| as real;
    LineSolves(c);
    FormsBounded(points);
    if points == [] {
      NoMisses(points, c.Offset(), c.Slope());
      NoMisses(points, c.yy.Mean(), 0.0);
    } else {
      SolvesIs(points, c.Offset(), c.Slope());
      MeanIs(n, Sy(points), Sx(points));
      MissesOf(points, c.Offset(), c.Slope());
      MissesOf(points, c.yy.Mean(), 0.0);
      Share(n, Sx(points), Sy(points), Sxx(points), Syy(points), Sxy(points));
    }
  }

  lemma NoMisses(points: seq<Point>, a: real, b: real)
    requires points == []
    ensures Misses(points, a, b) == 0.0
  {
    hide Pairwise;
  }

  lemma SolvesIs(points: seq<Point>, o: real, s: real)
    requires Solves(points, o, s)
    ensures Sy(points) == Lin(o, |points| as real, s, Sx(points))
    ensures Sxy(points) == Lin(o, Sx(points), s, Sxx(points))
  {
  }

  lemma MeanIs(n: real, y: real, x: real)
    requires n > 0.0
    ensures y == Lin(Ratio(y, n), n, 0.0, x)
  {
  }

  lemma Share(n: real, x: real, y: real, xx: real, yy: real, xy: real)
    requires n > 0.0
    requires Form(n, xx, x, x) == 0.0 ==> Form(n, xy, x, y) == 0.0
    requires Squared(Form(n, xy, x, y)) <= Product(Form(n, xx, x, x), Form(n, yy, y, y))
    ensures var lxx, lyy, lxy := Form(n, xx, x, x), Form(n, yy, y, y), Form(n, xy, x, y);
      var s, my := Ratio(lxy, lxx), Ratio(y, n);
      var o := Through(Ratio(x, n), my, s);
      yy - Lin(o, y, s, xy) == (1.0 - Ratio(Squared(lxy), Product(lxx, lyy))) * (yy - Lin(my, y, 0.0, xy))
  {
    hide Form, Ratio, Squared, Product, Through, Lin;
    var lxx, lyy, lxy := Form(n, xx, x, x), Form(n, yy, y, y), Form(n, xy, x, y);
    var s, my, mx := Ratio(lxy, lxx), Ratio(y, n), Ratio(x, n);
    var o, r := Through(mx, my, s), Ratio(Squared(lxy), Product(lxx, lyy));
    RatioTimes(lxy, lxx);
    RatioTimes(y, n);
    RatioTimes(x, n);
    Intercept(n, x, y, s, my, mx, o);
    LeftOver(n, x, y, yy, xy, s, o);
    SpreadIs(n, y, yy, xy, my);
    Accounted(lxx, lyy, lxy, s, r);
    ShareAlgebra(n, yy - Lin(o, y, s, xy), yy - Lin(my, y, 0.0, xy), lyy, s * lxy, r);
  }

  lemma LeftOver(n: real, x: real, y: real, yy: real, xy: real, s: real, o: real)
    requires o * n == y - x * s
    ensures n * (yy - Lin(o, y, s, xy)) == Form(n, yy, y, y) - s * Form(n, xy, x, y)
  {
    assert n * (o * y) == (o * n) * y;
  }

  lemma SpreadIs(n: real, y: real, yy: real, xy: real, my: real)
    requires my * n == y
    ensures n * (yy - Lin(my, y, 0.0, xy)) == Form(n, yy, y, y)
  {
    assert n * (my * y) == (my * n) * y;
  }

  lemma Accounted(lxx: real, lyy: real, lxy: real, s: real, r: real)
    requires s * lxx == lxy && r == Ratio(Squared(lxy), Product(lxx, lyy))
    requires (lxx == 0.0 ==> lxy == 0.0) && Squared(lxy) <= Product(lxx, lyy)
    ensures s * lxy == r * lyy
  {
    if lxx == 0.0 {
      AccountedNothing(lxx, lyy, lxy, r);
    } else if lyy == 0.0 {
      SquareNonNegative(lxy);
      assert lxy * lxy <= 0.0;
    } else {
      AccountedSome(lxx, lyy, lxy, s, r);
    }
  }

  lemma AccountedNothing(lxx: real, lyy: real, lxy: real, r: real)
    requires r == Ratio(Squared(lxy), Product(lxx, lyy)) && lxx == 0.0 && lxy == 0.0
    ensures r == 0.0
  {
  }

  lemma AccountedSome(lxx: real, lyy: real, lxy: real, s: real, r: real)
    requires lxx != 0.0 && lyy != 0.0 && s * lxx == lxy && r == Ratio(Squared(lxy), Product(lxx, lyy))
    ensures s * lxy == r * lyy
  {
    assert lxx * lyy != 0.0;
    assert r * (lxx * lyy) == lxy * lxy;
    assert (r * lyy) * lxx == (s * lxy) * lxx;
  }

  lemma ShareAlgebra(n: real, m: real, t: real, lyy: real, a: real, r: real)
    requires n > 0.0 && n * m == lyy - a && n * t == lyy && a == r * lyy
    ensures m == (1.0 - r) * t
  {
    assert n * ((1.0 - r) * t) == (1.0 - r) * (n * t);
  }

  /** Where the x do not vary, the line is level at the mean, and nothing is accounted for. */
  lemma LevelWhereVertical(c: RealCorrelation)
    requires c.Valid() && c.xx.Lform() == 0.0
    ensures c.Slope() == 0.0 && c.Offset() == c.yy.Mean() && c.CrossCorrelation() == 0.0
  {
    hide Form, Sx, Sy, Sxx, Syy, Sxy;
    FormsBounded(c.points);
  }

  const THREE: seq<Point> := [Point(0.0, 0.0), Point(1.0, 0.0), Point(2.0, 1.0)]

  lemma ThreeSums()
    ensures Sx(THREE) == 3.0 && Sy(THREE) == 1.0 && Sxx(THREE) == 5.0 && Syy(THREE) == 1.0 && Sxy(THREE) == 2.0
  {
    hide Sx, Sy, Sxx, Syy, Sxy;
    NothingSummed([]);
    SumsGrow([], THREE[0]);
    SumsGrow([THREE[0]], THREE[1]);
    SumsGrow([THREE[0], THREE[1]], THREE[2]);
    assert [] + [THREE[0]] == [THREE[0]] && [THREE[0]] + [THREE[1]] == [THREE[0], THREE[1]];
    assert [THREE[0], THREE[1]] + [THREE[2]] == THREE;
  }

  lemma NothingSummed(points: seq<Point>)
    requires points == []
    ensures Sx(points) == Sy(points) == Sxx(points) == Syy(points) == Sxy(points) == 0.0
  {
  }

  /** Three points of which the line accounts for three quarters. */
  method ThreeQuarters() returns (r: real)
    ensures r == 0.75
  {
    hide Sx, Sy, Sxx, Syy, Sxy;
    var c := new RealCorrelation();
    c.Insert(0.0, 0.0);
    c.Insert(1.0, 0.0);
    c.Insert(2.0, 1.0);
    assert c.points == THREE;
    ThreeSums();
    r := c.CrossCorrelation();
  }
}
