/** When the elimination without pivot search meets only usable pivots. */
module Pivots {
  import opened Sums
  import opened Exchange

  ghost function Of(x: seq<real>): Vector { i => if 0 <= i < |x| then x[i] else 0.0 }

  ghost function Listed(n: nat, x: Vector): (s: seq<real>)
    ensures |s| == n && forall i :: 0 <= i < n ==> s[i] == x(i)
  {
    seq(n, i requires 0 <= i < n => x(i))
  }

  ghost function Image(flags: seq<bool>, A: Matrix, x: Vector): Vector { j => Sum(|flags|, Terms(flags, x, A, j)) }

  ghost function Products(flags: seq<bool>, x: Vector, y: Vector): Vector {
    j => if Play(flags, j) then Times(x(j), y(j)) else 0.0
  }

  /** The quadratic form x * A * x over the indices in play. */
  ghost function Quadratic(flags: seq<bool>, A: Matrix, x: Vector): real {
    Sum(|flags|, Products(flags, x, Image(flags, A, x)))
  }

  ghost predicate Nonzero(flags: seq<bool>, x: seq<real>) {
    exists i :: Play(flags, i) && i < |x| && x[i] != 0.0
  }

  ghost predicate PositiveDefinite(flags: seq<bool>, A: Matrix) {
    forall x: seq<real> :: |x| == |flags| && Nonzero(flags, x) ==> Quadratic(flags, A, Of(x)) > 0.0
  }

  /** x uses only the indices from k on, and x * A vanishes there. */
  ghost predicate Kernel(flags: seq<bool>, A: Matrix, k: int, x: seq<real>) {
    && |x| == |flags|
    && (forall i :: 0 <= i < |x| && i < k ==> x[i] == 0.0)
    && (forall j :: Play(flags, j) && j >= k ==> Image(flags, A, Of(x))(j) == 0.0)
  }

  /** The trailing principal submatrix that starts at k has only the trivial kernel. */
  ghost predicate NonsingularFrom(flags: seq<bool>, A: Matrix, k: int) {
    forall x: seq<real> :: Kernel(flags, A, k, x) ==> !Nonzero(flags, x)
  }

  /** The input that the pivot on k would turn into the k-th unit vector. */
  ghost function Probe(flags: seq<bool>, W: Matrix, k: int): seq<real> {
    Listed(|flags|, Mix(k + 1, RowOf(W, k), Unit(k)))
  }

  lemma ProbeImage(flags: seq<bool>, A: Matrix, m: nat)
    requires 0 < m <= |flags| && Square(A, |flags|)
    requires Sweep(flags, A, m - 1).ok && Play(flags, |flags| - m)
    ensures var k := |flags| - m;
      var W := Sweep(flags, A, m - 1).W;
      forall j :: Play(flags, j) ==>
        Image(flags, A, Of(Probe(flags, W, k)))(j) == Mix(k + 1, Unit(k), RowOf(W, k))(j)
  {
    hide At, Maps;
    var k := |flags| - m;
    var W := Sweep(flags, A, m - 1).W;
    var u, v := Unit(k), RowOf(W, k);
    var x, y := Mix(k + 1, v, u), Mix(k + 1, u, v);
    UnitMaps(flags, W, k);
    MapsExt(flags, W, u, v, Mix(k + 1, y, x), Mix(k + 1, x, y));
    ExchangeInvariant(flags, A, m - 1, x, y);
    MapsExt(flags, A, x, y, Of(Probe(flags, W, k)), y);
    MapsIsImage(flags, A, Of(Probe(flags, W, k)), y);
  }

  lemma MapsIsImage(flags: seq<bool>, A: Matrix, x: Vector, y: Vector)
    ensures Maps(flags, A, x, y) <==> forall j :: Play(flags, j) ==> Image(flags, A, x)(j) == y(j)
  {
  }

  /** A positive definite matrix never shows a pivot that is not positive. */
  lemma PivotPositive(flags: seq<bool>, A: Matrix, m: nat)
    requires 0 < m <= |flags| && Square(A, |flags|)
    requires Sweep(flags, A, m - 1).ok && Play(flags, |flags| - m)
    requires PositiveDefinite(flags, A)
    ensures At(Sweep(flags, A, m - 1).W, |flags| - m, |flags| - m) > 0.0
  {
    hide Terms, Sweep;
    var k := |flags| - m;
    var W := Sweep(flags, A, m - 1).W;
    var x := Probe(flags, W, k);
    ProbeImage(flags, A, m);
    assert x[k] == 1.0;
    assert Nonzero(flags, x);
    ProbeForm(flags, A, W, k);
  }

  lemma ProbeForm(flags: seq<bool>, A: Matrix, W: Matrix, k: int)
    requires Play(flags, k)
    requires forall j :: Play(flags, j) ==>
      Image(flags, A, Of(Probe(flags, W, k)))(j) == Mix(k + 1, Unit(k), RowOf(W, k))(j)
    ensures Quadratic(flags, A, Of(Probe(flags, W, k))) == At(W, k, k)
  {
    hide At, Times, Image;
    var x := Of(Probe(flags, W, k));
    var f := Products(flags, x, Image(flags, A, x));
    forall a ensures Times(a, 0.0) == 0.0 && Times(0.0, a) == 0.0 && Times(1.0, a) == a { TimesUnit(a); }
    SumOne(|flags|, k, f);
  }

  /** On a positive definite matrix the elimination completes with a positive product of pivots. */
  lemma {:induction false} DefiniteCompletes(flags: seq<bool>, A: Matrix, m: nat)
    requires m <= |flags| && Square(A, |flags|)
    requires PositiveDefinite(flags, A)
    ensures Sweep(flags, A, m).ok && Sweep(flags, A, m).norm > 0.0
  {
    hide PositiveDefinite, Pivot;
    if m > 0 {
      DefiniteCompletes(flags, A, m - 1);
      if !flags[|flags| - m] { PivotPositive(flags, A, m); }
    }
  }

  /** A pivot is usable exactly when the trailing submatrix that starts with it is nonsingular. */
  lemma PivotUsable(flags: seq<bool>, A: Matrix, m: nat)
    requires 0 < m <= |flags| && Square(A, |flags|)
    requires Sweep(flags, A, m - 1).ok && Play(flags, |flags| - m)
    ensures At(Sweep(flags, A, m - 1).W, |flags| - m, |flags| - m) != 0.0 <==> NonsingularFrom(flags, A, |flags| - m)
  {
    hide At, Terms, Sweep, Image;
    var k := |flags| - m;
    var W := Sweep(flags, A, m - 1).W;
    if At(W, k, k) == 0.0 {
      var x := Probe(flags, W, k);
      ProbeImage(flags, A, m);
      assert x[k] == 1.0;
      assert Kernel(flags, A, k, x) && Nonzero(flags, x);
    } else {
      forall x: seq<real> | Kernel(flags, A, k, x) ensures !Nonzero(flags, x) {
        KernelTrivial(flags, A, m, x);
      }
    }
  }

  lemma KernelTrivial(flags: seq<bool>, A: Matrix, m: nat, s: seq<real>)
    requires 0 < m <= |flags| && Square(A, |flags|)
    requires Sweep(flags, A, m - 1).ok && Play(flags, |flags| - m)
    requires At(Sweep(flags, A, m - 1).W, |flags| - m, |flags| - m) != 0.0
    requires Kernel(flags, A, |flags| - m, s)
    ensures !Nonzero(flags, s)
  {
    hide At, Sweep, Maps, Image;
    var k := |flags| - m;
    var W := Sweep(flags, A, m - 1).W;
    var x, y := Of(s), Image(flags, A, Of(s));
    MapsIsImage(flags, A, x, y);
    ExchangeInvariant(flags, A, m - 1, x, y);
    var u, v := Mix(k + 1, y, x), Mix(k + 1, x, y);
    OnlyInput(flags, W, k, u, v);
  }

  /** With every input but k at zero and output k at zero, a nonzero diagonal forces everything to zero. */
  lemma OnlyInput(flags: seq<bool>, W: Matrix, k: int, u: Vector, v: Vector)
    requires Play(flags, k) && At(W, k, k) != 0.0
    requires Maps(flags, W, u, v)
    requires forall i :: Play(flags, i) && i != k ==> u(i) == 0.0
    requires v(k) == 0.0
    ensures u(k) == 0.0 && forall j :: Play(flags, j) ==> v(j) == 0.0
  {
    hide At, Times;
    forall a ensures Times(0.0, a) == 0.0 { TimesUnit(a); }
    SumOne(|flags|, k, Terms(flags, u, W, k));
    TimesNonzero(u(k), At(W, k, k));
    forall j | Play(flags, j) ensures v(j) == 0.0 { SumZero(|flags|, Terms(flags, u, W, j)); }
  }

  lemma TimesNonzero(a: real, b: real)
    requires b != 0.0 && Times(a, b) == 0.0
    ensures a == 0.0
  {
  }

  /** The elimination completes exactly when every trailing principal submatrix that starts in play is
      nonsingular: invertibility of the whole is not enough, and the order of the pivots matters. */
  lemma {:induction false} CompletesExactly(flags: seq<bool>, A: Matrix, m: nat)
    requires m <= |flags| && Square(A, |flags|)
    ensures Sweep(flags, A, m).ok <==> forall k :: |flags| - m <= k && Play(flags, k) ==> NonsingularFrom(flags, A, k)
  {
    hide NonsingularFrom, Pivot;
    if m > 0 {
      CompletesExactly(flags, A, m - 1);
      var k := |flags| - m;
      if Sweep(flags, A, m - 1).ok && !flags[k] { PivotUsable(flags, A, m); }
    }
  }
}
