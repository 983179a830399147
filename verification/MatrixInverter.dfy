/** The dynamically sized inverter of system/matrixinverter.cpp: Gauss-Jordan elimination in place,
    by exchanges on the diagonal, over the rows and columns that are not ignored. */
module MatrixInverter {
  import opened Minimath
  import opened Sums
  import opened Exchange
  import opened Pivots
  import Determinant
  import Determinator
  import PivotDeterminant

  ghost function Norm2(A: Matrix): real
    requires Square(A, 2)
  {
    A[0][0] * A[1][1] - A[0][1] * A[1][0]
  }

  /** The size-2 shortcut applies: nothing is ignored and the determinant is not zero. */
  ghost predicate Shortcut(flags: seq<bool>, A: Matrix)
    requires Square(A, |flags|)
  {
    |flags| == 2 && !flags[0] && !flags[1] && Norm2(A) != 0.0
  }

  /** What the size-2 shortcut stores: the off-diagonal signs of an inverse, but the diagonal not exchanged. */
  ghost predicate ShortcutResult(A: Matrix, W: Matrix)
    requires Square(A, 2) && Square(W, 2) && Norm2(A) != 0.0
  {
    && W[0][0] == A[0][0] / Norm2(A) && W[0][1] == -(A[0][1] / Norm2(A))
    && W[1][0] == -(A[1][0] / Norm2(A)) && W[1][1] == A[1][1] / Norm2(A)
  }

  /** Sizes 1 and 2 treat index i as the only one in play. */
  ghost predicate Single(flags: seq<bool>, i: int) {
    || (|flags| == 1 && i == 0)
    || (|flags| == 2 && flags[1] && i == 0)
    || (|flags| == 2 && !flags[1] && flags[0] && i == 1)
  }

  /** Sizes 1 and 2 with every index ignored still answer with the first diagonal element. */
  ghost predicate Degenerate(flags: seq<bool>) {
    0 < |flags| <= 2 && forall i :: 0 <= i < |flags| ==> flags[i]
  }

  ghost predicate Inverses(flags: seq<bool>, A: Matrix, W: Matrix) {
    LeftInverse(flags, A, W) && LeftInverse(flags, W, A)
  }

  /** The shortcut leaves an inverse only for an equal diagonal. */
  ghost predicate Faithful(flags: seq<bool>, A: Matrix)
    requires Square(A, |flags|)
  {
    Shortcut(flags, A) ==> A[0][0] == A[1][1]
  }

  /** norm and W are what one call leaves, starting from the stored matrix before. */
  ghost predicate Computed(flags: seq<bool>, A: Matrix, before: Matrix, norm: real, W: Matrix)
    requires Square(A, |flags|) && Square(before, |flags|) && Square(W, |flags|)
  {
    if exists i :: Single(flags, i) then
      forall i :: Single(flags, i) ==>
        norm == A[i][i] && W == before[i := before[i][i := Ratio(1.0, norm)]]
    else if Shortcut(flags, A) then
      norm == Norm2(A) && ShortcutResult(A, W)
    else
      var s := Elimination(flags, A);
      W == s.W && norm == if s.ok then s.norm else 0.0
  }

  // ----- what a call achieves -----

  /** A nonzero answer comes with the two-sided inverse, exactly when the size-2 shortcut did not spoil it. */
  lemma InverseExactly(flags: seq<bool>, A: Matrix, before: Matrix, norm: real, W: Matrix)
    requires Square(A, |flags|) && Square(before, |flags|) && Square(W, |flags|)
    requires Computed(flags, A, before, norm, W) && norm != 0.0
    ensures Inverses(flags, A, W) <==> Faithful(flags, A)
  {
    hide Elimination, LeftInverse;
    if i :| Single(flags, i) {
      SingleInverts(flags, A, W, i);
    } else if Shortcut(flags, A) {
      ShortcutExactly(flags, A, W);
    } else {
      SweepInverts(flags, A);
    }
  }

  lemma SingleInverts(flags: seq<bool>, A: Matrix, W: Matrix, i: int)
    requires Square(A, |flags|) && Square(W, |flags|) && Single(flags, i)
    requires A[i][i] != 0.0 && W[i][i] == 1.0 / A[i][i]
    ensures Inverses(flags, A, W)
  {
    hide ProductAt, Times;
    if Play(flags, i) {
      SingleProduct(flags, A, W, i);
      SingleProduct(flags, W, A, i);
      ReciprocalTimes(A[i][i], W[i][i]);
    }
  }

  lemma ReciprocalTimes(a: real, w: real)
    requires a != 0.0 && w == 1.0 / a
    ensures Times(a, w) == 1.0 && Times(w, a) == 1.0
  {
  }

  lemma SingleProduct(flags: seq<bool>, A: Matrix, B: Matrix, i: int)
    requires Square(A, |flags|) && Square(B, |flags|) && Single(flags, i) && Play(flags, i)
    ensures ProductAt(flags, A, B, i, i) == Times(A[i][i], B[i][i])
  {
    var f := Terms(flags, RowOf(A, i), B, i);
    forall j | 0 <= j < |flags| && j != i ensures f(j) == 0.0 { assert !Play(flags, j); }
    SumOne(|flags|, i, f);
    assert RowOf(A, i)(i) == A[i][i];
  }

  lemma TwoTerms(flags: seq<bool>, A: Matrix, B: Matrix, i: int, j: int)
    requires Square(A, 2) && Square(B, 2) && |flags| == 2 && !flags[0] && !flags[1]
    requires 0 <= i < 2 && 0 <= j < 2
    ensures ProductAt(flags, A, B, i, j) == Times(A[i][0], B[0][j]) + Times(A[i][1], B[1][j])
  {
    var f := Terms(flags, RowOf(A, i), B, j);
    var n: nat := |flags|;
    assert Sum(n, f) == Sum(n - 1, f) + f(1) && Sum(n - 1, f) == Sum(n - 2, f) + f(0) && Sum(n - 2, f) == 0.0;
    assert RowOf(A, i)(0) == A[i][0] && RowOf(A, i)(1) == A[i][1];
    assert f(0) == Times(A[i][0], B[0][j]) && f(1) == Times(A[i][1], B[1][j]);
  }

  lemma ShortcutExactly(flags: seq<bool>, A: Matrix, W: Matrix)
    requires Square(A, |flags|) && Square(W, |flags|)
    requires Shortcut(flags, A) && ShortcutResult(A, W)
    ensures Inverses(flags, A, W) <==> A[0][0] == A[1][1]
  {
    hide Norm2, ProductAt, Sum, Times;
    ShortcutAlgebra(A, W);
    TwoInverses(flags, A, W);
  }

  /** What the shortcut stores for this diagonal matrix is not its inverse. */
  lemma ShortcutSpoilsDiagonal(W: Matrix)
    requires Square(W, 2) && ShortcutResult([[1.0, 0.0], [0.0, 2.0]], W)
    ensures Shortcut([false, false], [[1.0, 0.0], [0.0, 2.0]]) && !Inverses([false, false], [[1.0, 0.0], [0.0, 2.0]], W)
  {
    hide Inverses;
    ShortcutExactly([false, false], [[1.0, 0.0], [0.0, 2.0]], W);
  }

  ghost predicate Identity2(p: (int, int) -> real) {
    p(0, 0) == 1.0 && p(0, 1) == 0.0 && p(1, 0) == 0.0 && p(1, 1) == 1.0
  }

  ghost function Product2(A: Matrix, B: Matrix): (int, int) -> real
    requires Square(A, 2) && Square(B, 2)
  {
    (i, j) => if 0 <= i < 2 && 0 <= j < 2 then Times(A[i][0], B[0][j]) + Times(A[i][1], B[1][j]) else 0.0
  }

  lemma TwoInverses(flags: seq<bool>, A: Matrix, W: Matrix)
    requires Square(A, 2) && Square(W, 2) && |flags| == 2 && !flags[0] && !flags[1]
    ensures LeftInverse(flags, A, W) <==> Identity2(Product2(A, W))
    ensures LeftInverse(flags, W, A) <==> Identity2(Product2(W, A))
  {
    hide ProductAt, Times;
    forall i, j | 0 <= i < 2 && 0 <= j < 2
      ensures ProductAt(flags, A, W, i, j) == Product2(A, W)(i, j)
      ensures ProductAt(flags, W, A, i, j) == Product2(W, A)(i, j)
    {
      TwoTerms(flags, A, W, i, j);
      TwoTerms(flags, W, A, i, j);
    }
    assert Play(flags, 0) && Play(flags, 1);
    if LeftInverse(flags, A, W) {
      assert ProductAt(flags, A, W, 0, 0) == 1.0 && ProductAt(flags, A, W, 0, 1) == 0.0;
      assert ProductAt(flags, A, W, 1, 0) == 0.0 && ProductAt(flags, A, W, 1, 1) == 1.0;
    }
    if LeftInverse(flags, W, A) {
      assert ProductAt(flags, W, A, 0, 0) == 1.0 && ProductAt(flags, W, A, 0, 1) == 0.0;
      assert ProductAt(flags, W, A, 1, 0) == 0.0 && ProductAt(flags, W, A, 1, 1) == 1.0;
    }
  }

  lemma ShortcutAlgebra(A: Matrix, W: Matrix)
    requires Square(A, 2) && Square(W, 2) && Norm2(A) != 0.0 && ShortcutResult(A, W)
    ensures A[0][0] == A[1][1] ==> Identity2(Product2(A, W)) && Identity2(Product2(W, A))
    ensures Identity2(Product2(A, W)) ==> A[0][0] == A[1][1]
  {
    hide Product2, Identity2, Norm2;
    Norm2Is(A);
    IdentityIs(A, W);
    IdentityIs(W, A);
    RealAlgebra(A[0][0], A[0][1], A[1][0], A[1][1], Norm2(A), W[0][0], W[0][1], W[1][0], W[1][1]);
  }

  lemma Norm2Is(A: Matrix)
    requires Square(A, 2)
    ensures Norm2(A) == A[0][0] * A[1][1] - A[0][1] * A[1][0]
  {
  }

  lemma IdentityIs(A: Matrix, B: Matrix)
    requires Square(A, 2) && Square(B, 2)
    ensures Identity2(Product2(A, B)) <==>
      && A[0][0] * B[0][0] + A[0][1] * B[1][0] == 1.0 && A[0][0] * B[0][1] + A[0][1] * B[1][1] == 0.0
      && A[1][0] * B[0][0] + A[1][1] * B[1][0] == 0.0 && A[1][0] * B[0][1] + A[1][1] * B[1][1] == 1.0
  {
  }

  lemma RealAlgebra(a: real, b: real, c: real, d: real, n: real, p: real, q: real, r: real, s: real)
    requires n == a * d - b * c && n != 0.0
    requires p == a / n && q == -(b / n) && r == -(c / n) && s == d / n
    ensures a == d ==> a * p + b * r == 1.0 && a * q + b * s == 0.0 && c * p + d * r == 0.0 && c * q + d * s == 1.0
    ensures a == d ==> p * a + q * c == 1.0 && p * b + q * d == 0.0 && r * a + s * c == 0.0 && r * b + s * d == 1.0
    ensures a * p + b * r == 1.0 && a * q + b * s == 0.0 && c * p + d * r == 0.0 && c * q + d * s == 1.0 ==> a == d
  {
  }

  /** Unrolls the sum over two open rows. */
  lemma Cofactor2(flags: seq<bool>, A: Matrix, ys: seq<real>)
    requires Square(A, 2) && |flags| == 2 && !flags[0] && !flags[1]
    ensures Determinator.Cofactor(Determinator.Problem(A, ys, 0, false), flags) == Norm2(A)
  {
    var p := Determinator.Problem(A, ys, 0, false);
    var n: nat := |flags|;
    assert Determinator.Open(flags, n - 1) == [0] + Determinator.Open(flags, n - 2);
    var rows := [1, 0];
    assert Determinator.Open(flags, n) == rows;
    var cs := Determinator.Entries(p, rows);
    Det2(cs, rows);
  }

  lemma Det2(cs: seq<Vector>, rows: seq<int>)
    requires |cs| == |rows| == 2
    ensures Determinant.Det(cs, rows) == cs[0](rows[0]) * cs[1](rows[1]) - cs[0](rows[1]) * cs[1](rows[0])
  {
    hide Determinant.Det, Determinant.Terms;
    var f := Determinant.Terms(cs, rows);
    Determinant.DetUnfold(cs, rows);
    var n: nat := |rows|;
    assert Sum(n, f) == Sum(n - 1, f) + f(1) && Sum(n - 1, f) == Sum(n - 2, f) + f(0) && Sum(n - 2, f) == 0.0;
    Determinant.TermIs(cs, rows, 0);
    Determinant.TermIs(cs, rows, 1);
    assert cs[1..] == [cs[1]] && Determinant.Drop(rows, 0) == [rows[1]] && Determinant.Drop(rows, 1) == [rows[0]];
    Determinant.DetOne(cs[1], rows[0]);
    Determinant.DetOne(cs[1], rows[1]);
  }

  /** A nonzero answer is the cofactor determinant of the part in play. */
  lemma NormIsCofactor(flags: seq<bool>, A: Matrix, before: Matrix, norm: real, W: Matrix, ys: seq<real>)
    requires Square(A, |flags|) && Square(before, |flags|) && Square(W, |flags|)
    requires Computed(flags, A, before, norm, W) && norm != 0.0 && !Degenerate(flags)
    ensures norm == Determinator.Cofactor(Determinator.Problem(A, ys, 0, false), flags)
  {
    hide Elimination, Determinator.Cofactor;
    if i :| Single(flags, i) {
      CofactorSingle(flags, A, ys, i);
    } else if Shortcut(flags, A) {
      Cofactor2(flags, A, ys);
    } else {
      PivotDeterminant.NormIsDeterminant(flags, A, ys);
    }
  }

  lemma CofactorSingle(flags: seq<bool>, A: Matrix, ys: seq<real>, i: int)
    requires Square(A, |flags|) && Single(flags, i) && !Degenerate(flags)
    ensures Determinator.Cofactor(Determinator.Problem(A, ys, 0, false), flags) == A[i][i]
  {
    hide Determinant.Det;
    var p := Determinator.Problem(A, ys, 0, false);
    var n: nat := |flags|;
    OpenSingle(flags, i);
    var cs := Determinator.Entries(p, [i]);
    assert cs == [Determinator.Entry(p, i)];
    Determinant.DetOne(Determinator.Entry(p, i), i);
  }

  lemma OpenSingle(flags: seq<bool>, i: int)
    requires Single(flags, i) && !Degenerate(flags)
    ensures Determinator.Open(flags, |flags|) == [i] && !flags[i]
  {
    var n: nat := |flags|;
    assert Determinator.Open(flags, n) ==
      if flags[n - 1] then Determinator.Open(flags, n - 1) else [n - 1] + Determinator.Open(flags, n - 1);
    if n == 2 {
      assert Determinator.Open(flags, n - 1) ==
        if flags[n - 2] then Determinator.Open(flags, n - 2) else [n - 2] + Determinator.Open(flags, n - 2);
    }
  }

  /** Up to size 2 the answer, zero or not, is the cofactor determinant of the part in play. */
  lemma SmallIsCofactor(flags: seq<bool>, A: Matrix, before: Matrix, norm: real, W: Matrix, ys: seq<real>)
    requires Square(A, |flags|) && Square(before, |flags|) && Square(W, |flags|)
    requires Computed(flags, A, before, norm, W) && |flags| <= 2 && !Degenerate(flags)
    ensures norm == Determinator.Cofactor(Determinator.Problem(A, ys, 0, false), flags)
  {
    hide Elimination, Determinator.Cofactor;
    if i :| Single(flags, i) {
      CofactorSingle(flags, A, ys, i);
    } else if |flags| == 2 {
      assert !Single(flags, 0) && !Single(flags, 1);
      Cofactor2(flags, A, ys);
      if !Shortcut(flags, A) { TwoByTwoFails(flags, A); }
    } else {
      assert !Single(flags, 0);
      NothingEliminated(flags, A);
      PivotDeterminant.NormIsDeterminant(flags, A, ys);
    }
  }

  lemma NothingEliminated(flags: seq<bool>, A: Matrix)
    requires flags == [] && Square(A, |flags|)
    ensures Elimination(flags, A).ok
  {
  }

  /** What the gated recursion computes when the indices below k are ignored too. */
  ghost function TrailingDeterminant(flags: seq<bool>, A: Matrix, ys: seq<real>, k: int): real {
    Determinator.Cofactor(Determinator.Problem(A, ys, 0, false), PivotDeterminant.From(flags, k))
  }

  /** From size 3 on, the answer is nonzero exactly when every trailing principal submatrix that starts
      in play is nonsingular, which is to say that its cofactor determinant is not zero; a zero answer does not mean
      that the determinant of the whole is zero. */
  lemma AnswersExactly(flags: seq<bool>, A: Matrix, ys: seq<real>, before: Matrix, norm: real, W: Matrix)
    requires Square(A, |flags|) && Square(before, |flags|) && Square(W, |flags|)
    requires Computed(flags, A, before, norm, W) && |flags| > 2
    ensures norm != 0.0 <==> forall k :: Play(flags, k) ==> NonsingularFrom(flags, A, k)
    ensures norm != 0.0 <==> forall k :: Play(flags, k) ==> TrailingDeterminant(flags, A, ys, k) != 0.0
  {
    hide NonsingularFrom, PivotDeterminant.Leading, Determinator.Cofactor, PivotDeterminant.From;
    CompletesExactly(flags, A, |flags|);
    PivotDeterminant.CompletesByDeterminants(flags, A, |flags|);
    forall k | Play(flags, k)
      ensures TrailingDeterminant(flags, A, ys, k) ==
        PivotDeterminant.Leading(PivotDeterminant.From(flags, k), A, |flags|)
    {
      PivotDeterminant.CofactorIsLeading(PivotDeterminant.From(flags, k), A, ys);
    }
    if Elimination(flags, A).ok { PivotDeterminant.PivotsNonzero(flags, A, |flags|); }
  }

  /** On a positive definite matrix the answer is positive: no pivot search is needed. */
  lemma DefinitePositive(flags: seq<bool>, A: Matrix, before: Matrix, norm: real, W: Matrix)
    requires Square(A, |flags|) && Square(before, |flags|) && Square(W, |flags|)
    requires Computed(flags, A, before, norm, W) && !Degenerate(flags)
    requires PositiveDefinite(flags, A)
    ensures norm > 0.0
  {
    hide Elimination, PositiveDefinite, Determinator.Cofactor;
    DefiniteElimination(flags, A);
    PivotDeterminant.NormIsDeterminant(flags, A, []);
    if i :| Single(flags, i) {
      CofactorSingle(flags, A, [], i);
    } else if Shortcut(flags, A) {
      Cofactor2(flags, A, []);
    }
  }

  lemma DefiniteElimination(flags: seq<bool>, A: Matrix)
    requires Square(A, |flags|) && PositiveDefinite(flags, A)
    ensures Elimination(flags, A).ok && Elimination(flags, A).norm > 0.0
  {
    DefiniteCompletes(flags, A, |flags|);
  }

  /** Without pivot search an invertible matrix can be refused: this one is its own inverse. */
  lemma ZeroPivotOfInvertible()
    ensures var flags, A := [false, false, false], [[1.0, 0.0, 0.0], [0.0, 0.0, 1.0], [0.0, 1.0, 0.0]];
      Square(A, 3) && LeftInverse(flags, A, A) && !Elimination(flags, A).ok
  {
    var flags, A := [false, false, false], [[1.0, 0.0, 0.0], [0.0, 0.0, 1.0], [0.0, 1.0, 0.0]];
    var n: nat := |flags|;
    assert At(A, 2, 2) == 0.0;
    assert Sweep(flags, A, n - 3) == Swept(true, 1.0, A);
    assert !Sweep(flags, A, n - 2).ok;
    StopsHere(flags, A, n - 2);
    forall i, j | Play(flags, i) && Play(flags, j) ensures ProductAt(flags, A, A, i, j) == Unit(i)(j) {
      ThreeTerms(flags, A, A, i, j);
    }
  }

  lemma ThreeTerms(flags: seq<bool>, A: Matrix, B: Matrix, i: int, j: int)
    requires Square(A, 3) && Square(B, 3) && flags == [false, false, false]
    requires 0 <= i < 3 && 0 <= j < 3
    ensures ProductAt(flags, A, B, i, j) == A[i][0] * B[0][j] + A[i][1] * B[1][j] + A[i][2] * B[2][j]
  {
    hide Times;
    var f := Terms(flags, RowOf(A, i), B, j);
    var n: nat := |flags|;
    assert Sum(n, f) == Sum(n - 1, f) + f(2) && Sum(n - 1, f) == Sum(n - 2, f) + f(1);
    assert Sum(n - 2, f) == Sum(n - 3, f) + f(0) && Sum(n - 3, f) == 0.0;
    assert RowOf(A, i)(0) == A[i][0] && RowOf(A, i)(1) == A[i][1] && RowOf(A, i)(2) == A[i][2];
    assert f(0) == Times(A[i][0], B[0][j]) && f(1) == Times(A[i][1], B[1][j]) && f(2) == Times(A[i][2], B[2][j]);
    TimesIs(A[i][0], B[0][j]);
    TimesIs(A[i][1], B[1][j]);
    TimesIs(A[i][2], B[2][j]);
  }

  class MatrixInverter {
    const size: nat
    const xs: array2<real>
    const inv: array2<real>
    const ignore: array<bool>

    ghost predicate Valid() {
      && xs.Length0 == xs.Length1 == inv.Length0 == inv.Length1 == ignore.Length == size
      && xs != inv
    }

    ghost function Xs(): (g: Matrix)
      requires Valid()
      reads xs
      ensures Square(g, size)
      ensures forall i, j :: 0 <= i < size && 0 <= j < size ==> g[i][j] == xs[i, j]
    {
      Determinator.Grid(xs)
    }

    ghost function Inv(): (g: Matrix)
      requires Valid()
      reads inv
      ensures Square(g, size)
      ensures forall i, j :: 0 <= i < size && 0 <= j < size ==> g[i][j] == inv[i, j]
    {
      Determinator.Grid(inv)
    }

    constructor (size: nat)
      ensures Valid() && this.size == size
      ensures fresh(xs) && fresh(inv) && fresh(ignore)
      ensures forall i, j :: 0 <= i < size && 0 <= j < size ==> xs[i, j] == 0.0 && inv[i, j] == 0.0
      ensures forall i :: 0 <= i < size ==> !ignore[i]
    {
      this.size := size;
      xs := new real[size, size]((_, _) => 0.0);
      inv := new real[size, size]((_, _) => 0.0);
      ignore := new bool[size](_ => false);
    }

    predicate InPlay(rw: nat, focus: nat)
      requires Valid() && rw < size
      reads ignore
    {
      rw != focus && !ignore[rw]
    }

    method Clear()
      requires Valid()
      modifies xs
      ensures forall i, j :: 0 <= i < size && 0 <= j < size ==> xs[i, j] == 0.0
    {
      var rw := size;
      while rw > 0
        invariant 0 <= rw <= size
        invariant forall i, j :: rw <= i < size && 0 <= j < size ==> xs[i, j] == 0.0
      {
        rw := rw - 1;
        var cl := size;
        while cl > 0
          invariant 0 <= cl <= size
          invariant forall i, j :: rw < i < size && 0 <= j < size ==> xs[i, j] == 0.0
          invariant forall j :: cl <= j < size ==> xs[rw, j] == 0.0
        {
          cl := cl - 1;
          xs[rw, cl] := 0.0;
        }
      }
    }

    /** Scales the column of the pivot by `factor`, on the other rows in play. */
    method ScaleColumn(focus: nat, factor: real)
      requires Valid() && focus < size
      modifies inv
      ensures forall i, j :: 0 <= i < size && 0 <= j < size ==>
        inv[i, j] == if j == focus && InPlay(i, focus) then Times(old(inv[i, j]), factor) else old(inv[i, j])
    {
      var rw := size;
      while rw > 0
        invariant 0 <= rw <= size
        invariant forall i, j :: 0 <= i < size && 0 <= j < size ==>
          inv[i, j] ==
            if i >= rw && j == focus && InPlay(i, focus) then Times(old(inv[i, j]), factor) else old(inv[i, j])
      {
        rw := rw - 1;
        if InPlay(rw, focus) {
          inv[rw, focus] := inv[rw, focus] * factor;
        }
      }
    }

    /** Adds d times the pivot row to row rw, on the other columns in play. */
    method AddToRow(focus: nat, rw: nat, d: real)
      requires Valid() && focus < size && rw < size && rw != focus
      modifies inv
      ensures forall i, j :: 0 <= i < size && 0 <= j < size ==>
        inv[i, j] ==
          if i == rw && InPlay(j, focus) then old(inv[i, j]) + Times(old(inv[focus, j]), d) else old(inv[i, j])
    {
      var cl := size;
      while cl > 0
        invariant 0 <= cl <= size
        invariant forall i, j :: 0 <= i < size && 0 <= j < size ==>
          inv[i, j] ==
            if i == rw && j >= cl && InPlay(j, focus) then old(inv[i, j]) + Times(old(inv[focus, j]), d)
            else old(inv[i, j])
      {
        cl := cl - 1;
        if InPlay(cl, focus) {
          inv[rw, cl] := inv[rw, cl] + inv[focus, cl] * d;
        }
      }
    }

    /** Adds to every other row in play its multiple of the pivot row. */
    method AddMultiples(focus: nat)
      requires Valid() && focus < size
      modifies inv
      ensures forall i, j :: 0 <= i < size && 0 <= j < size ==>
        inv[i, j] == if InPlay(i, focus) && InPlay(j, focus)
                     then old(inv[i, j]) + Times(old(inv[focus, j]), old(inv[i, focus])) else old(inv[i, j])
    {
      var rw := size;
      while rw > 0
        invariant 0 <= rw <= size
        invariant forall i, j :: 0 <= i < size && 0 <= j < size ==>
          inv[i, j] == if i >= rw && InPlay(i, focus) && InPlay(j, focus)
                       then old(inv[i, j]) + Times(old(inv[focus, j]), old(inv[i, focus])) else old(inv[i, j])
      {
        rw := rw - 1;
        if InPlay(rw, focus) {
          var d := inv[rw, focus];
          forall a ensures Times(a, 0.0) == 0.0 { TimesUnit(a); }
          if d != 0.0 {
            AddToRow(focus, rw, d);
          }
        }
      }
    }

    /** Scales the row of the pivot by `factor`, on the other columns in play. */
    method ScaleRow(focus: nat, factor: real)
      requires Valid() && focus < size
      modifies inv
      ensures forall i, j :: 0 <= i < size && 0 <= j < size ==>
        inv[i, j] == if i == focus && InPlay(j, focus) then Times(old(inv[i, j]), factor) else old(inv[i, j])
    {
      var cl := size;
      while cl > 0
        invariant 0 <= cl <= size
        invariant forall i, j :: 0 <= i < size && 0 <= j < size ==>
          inv[i, j] ==
            if i == focus && j >= cl && InPlay(j, focus) then Times(old(inv[i, j]), factor) else old(inv[i, j])
      {
        cl := cl - 1;
        if InPlay(cl, focus) {
          inv[focus, cl] := inv[focus, cl] * factor;
        }
      }
    }

    /** One exchange on the diagonal element `focus`. */
    method PivotOn(focus: nat)
      requires Valid() && focus < size && !ignore[focus] && inv[focus, focus] != 0.0
      modifies inv
      ensures Inv() == Pivot(ignore[..], old(Inv()), focus)
    {
      hide Times, Update, PivotAt;
      ghost var W, flags := Inv(), ignore[..];
      var absmax := inv[focus, focus];
      var invmax := -1.0 / absmax;
      ghost var r := Reciprocal(absmax);
      NegatedReciprocal(absmax);
      ScaleColumn(focus, invmax);
      ghost var W1 := Inv();
      AddMultiples(focus);
      ghost var W2 := Inv();
      invmax := -invmax;
      ScaleRow(focus, invmax);
      ghost var W3 := Inv();
      inv[focus, focus] := invmax;
      forall i, j | 0 <= i < size && 0 <= j < size
        ensures Inv()[i][j] == PivotAt(flags, W, focus, i, j)
      {
        StagesAt(flags, focus, r, W, W1, W2, W3, i, j);
      }
      SameGrid(Inv(), Pivot(flags, W, focus), size);
    }

    method CopyXs()
      requires Valid()
      modifies inv
      ensures Inv() == Xs()
    {
      var rw := size;
      while rw > 0
        invariant 0 <= rw <= size
        invariant forall i, j :: rw <= i < size && 0 <= j < size ==> inv[i, j] == xs[i, j]
      {
        rw := rw - 1;
        var cl := size;
        while cl > 0
          invariant 0 <= cl <= size
          invariant forall i, j :: rw < i < size && 0 <= j < size ==> inv[i, j] == xs[i, j]
          invariant forall j :: cl <= j < size ==> inv[rw, j] == xs[rw, j]
        {
          cl := cl - 1;
          inv[rw, cl] := xs[rw, cl];
        }
      }
      SameGrid(Inv(), Xs(), size);
    }

    /** The general path: a pivot on every index that is not ignored, highest first. */
    method Eliminate() returns (norm: real)
      requires Valid()
      modifies inv
      ensures var s := Elimination(ignore[..], Xs());
        Inv() == s.W && norm == if s.ok then s.norm else 0.0
    {
      hide Pivot, At;
      ghost var A, flags := Xs(), ignore[..];
      CopyXs();
      norm := 1.0;
      var focus := size;
      while focus > 0
        invariant 0 <= focus <= size
        invariant Sweep(flags, A, size - focus) == Swept(true, norm, Inv())
      {
        focus := focus - 1;
        SweepStep(flags, A, size - focus);
        if ignore[focus] {
          continue;
        }
        var absmax := inv[focus, focus];
        assert absmax == At(Inv(), focus, focus) by { AtIs(Inv(), focus, focus); }
        if absmax != 0.0 {
          norm := norm * absmax;
          PivotOn(focus);
        } else {
          StopsHere(flags, A, size - focus);
          return 0.0;
        }
      }
    }

    /** Inverts the part of xs in play into inv and returns the product of the pivots; 0 when a pivot is 0. */
    method Compute() returns (norm: real)
      requires Valid()
      modifies inv
      ensures Computed(ignore[..], Xs(), old(Inv()), norm, Inv())
      ensures norm != 0.0 ==> (Inverses(ignore[..], Xs(), Inv()) <==> Faithful(ignore[..], Xs()))
      ensures PositiveDefinite(ignore[..], Xs()) && !Degenerate(ignore[..]) ==> norm > 0.0
    {
      hide Inverses, Elimination, LeftInverse, Ratio, PositiveDefinite;
      ghost var flags, A, before := ignore[..], Xs(), Inv();
      if size == 1 {
        norm := InvertOne(0);
      } else if size == 2 && ignore[1] {
        norm := InvertOne(0);
      } else if size == 2 && ignore[0] {
        norm := InvertOne(1);
      } else {
        norm := ComputeGeneral();
      }
      if norm != 0.0 { InverseExactly(flags, A, before, norm, Inv()); }
      if PositiveDefinite(flags, A) && !Degenerate(flags) { DefinitePositive(flags, A, before, norm, Inv()); }
    }

    /** The case of a single diagonal element. */
    method InvertOne(i: nat) returns (norm: real)
      requires Valid() && Single(ignore[..], i)
      modifies inv
      ensures Computed(ignore[..], Xs(), old(Inv()), norm, Inv())
    {
      ghost var before := Inv();
      norm := xs[i, i];
      inv[i, i] := Ratio(1.0, norm);
      SameGrid(Inv(), before[i := before[i][i := Ratio(1.0, norm)]], size);
    }

    /** Sizes above 2, and size 2 with nothing ignored. */
    method ComputeGeneral() returns (norm: real)
      requires Valid() && forall i :: !Single(ignore[..], i)
      modifies inv
      ensures Computed(ignore[..], Xs(), old(Inv()), norm, Inv())
    {
      hide Elimination;
      if size == 2 {
        norm := xs[0, 0] * xs[1, 1] - xs[0, 1] * xs[1, 0];
        assert norm == Norm2(Xs());
        if norm != 0.0 {
          assert !Single(ignore[..], 0) && !Single(ignore[..], 1);
          ScaleByNorm(norm);
          return;
        }
      }
      norm := Eliminate();
    }

    /** The size-2 shortcut: every element over the determinant, off-diagonal signs flipped. */
    method ScaleByNorm(norm: real)
      requires Valid() && size == 2 && norm != 0.0
      modifies inv
      ensures forall i, j :: 0 <= i < 2 && 0 <= j < 2 ==>
        inv[i, j] == if i == j then xs[i, j] / norm else -(xs[i, j] / norm)
    {
      var rw := size;
      while rw > 0
        invariant 0 <= rw <= 2
        invariant forall i, j :: rw <= i < 2 && 0 <= j < 2 ==>
          inv[i, j] == if i == j then xs[i, j] / norm else -(xs[i, j] / norm)
      {
        rw := rw - 1;
        var cl := size;
        while cl > 0
          invariant 0 <= cl <= 2
          invariant forall i, j :: rw < i < 2 && 0 <= j < 2 ==>
            inv[i, j] == if i == j then xs[i, j] / norm else -(xs[i, j] / norm)
          invariant forall j :: cl <= j < 2 ==>
            inv[rw, j] == if rw == j then xs[rw, j] / norm else -(xs[rw, j] / norm)
        {
          cl := cl - 1;
          inv[rw, cl] := Polarity(rw == cl) * Ratio(xs[rw, cl], norm);
        }
      }
    }
  }

  function Polarity(positive: bool): real { if positive then 1.0 else -1.0 }

  lemma AtIs(W: Matrix, i: nat, j: nat)
    requires i < |W| && j < |W[i]|
    ensures At(W, i, j) == W[i][j]
  {
  }

  lemma SweepStep(flags: seq<bool>, A: Matrix, m: nat)
    requires 0 < m <= |flags| && Square(A, |flags|)
    requires Sweep(flags, A, m - 1).ok
    ensures var s, focus := Sweep(flags, A, m - 1), |flags| - m;
      Sweep(flags, A, m) ==
      if flags[focus] then s
      else if At(s.W, focus, focus) == 0.0 then Swept(false, 0.0, s.W)
      else Swept(true, s.norm * At(s.W, focus, focus), Pivot(flags, s.W, focus))
  {
  }

  ghost predicate Other(flags: seq<bool>, f: int, i: int) { i != f && Play(flags, i) }

  /** The three scaling loops together, entry by entry. */
  lemma StagesAt(flags: seq<bool>, f: nat, r: real, W: Matrix, W1: Matrix, W2: Matrix, W3: Matrix, i: nat, j: nat)
    requires Square(W, |flags|) && Square(W1, |flags|) && Square(W2, |flags|) && Square(W3, |flags|)
    requires Play(flags, f) && i < |flags| && j < |flags|
    requires At(W, f, f) != 0.0 && r == Reciprocal(At(W, f, f))
    requires forall a, b {:trigger W1[a][b]} :: 0 <= a < |flags| && 0 <= b < |flags| ==>
      W1[a][b] == if b == f && Other(flags, f, a) then Times(W[a][b], -r) else W[a][b]
    requires forall a, b {:trigger W2[a][b]} :: 0 <= a < |flags| && 0 <= b < |flags| ==>
      W2[a][b] == if Other(flags, f, a) && Other(flags, f, b) then W1[a][b] + Times(W1[f][b], W1[a][f]) else W1[a][b]
    requires forall a, b {:trigger W3[a][b]} :: 0 <= a < |flags| && 0 <= b < |flags| ==>
      W3[a][b] == if a == f && Other(flags, f, b) then Times(W2[a][b], r) else W2[a][b]
    ensures (if i == f && j == f then r else W3[i][j]) == PivotAt(flags, W, f, i, j)
  {
  }

  /** Two rows and columns with determinant zero do not survive the elimination. */
  lemma TwoByTwoFails(flags: seq<bool>, A: Matrix)
    requires Square(A, 2) && |flags| == 2 && !flags[0] && !flags[1] && Norm2(A) == 0.0
    ensures !Elimination(flags, A).ok
  {
    hide Pivot, Norm2, Sweep;
    var p := A[1][1];
    if p != 0.0 {
      var V := Pivot(flags, A, 1);
      var r := Reciprocal(p);
      assert At(A, 1, 1) == p && At(V, 0, 0) == PivotAt(flags, A, 1, 0, 0);
      SchurZero(A, r);
      assert At(V, 0, 0) == 0.0;
    }
    TwoSteps(flags, A);
  }

  lemma TwoSteps(flags: seq<bool>, A: Matrix)
    requires Square(A, 2) && |flags| == 2 && !flags[0] && !flags[1]
    requires At(A, 1, 1) != 0.0 ==> At(Pivot(flags, A, 1), 0, 0) == 0.0
    ensures !Elimination(flags, A).ok
  {
    hide At, Pivot;
    var zero: nat, one: nat, two: nat := 0, 1, |flags|;
    assert Sweep(flags, A, two - 2) == Swept(true, 1.0, A);
    assert Elimination(flags, A) == Sweep(flags, A, two);
    assert two - 1 == 1;
    if At(A, 1, 1) != 0.0 {
      assert Sweep(flags, A, two - 1).W == Pivot(flags, A, 1);
    }
  }

  lemma SchurZero(A: Matrix, r: real)
    requires Square(A, 2) && A[1][1] * r == 1.0 && Norm2(A) == 0.0
    ensures Update(A[0][0], A[1][0], A[0][1], r) == 0.0
  {
    SchurAlgebra(A[0][0], A[0][1], A[1][0], A[1][1], r);
  }

  lemma SchurAlgebra(a: real, b: real, c: real, d: real, r: real)
    requires d * r == 1.0 && a * d - b * c == 0.0
    ensures a + c * (b * -r) == 0.0
  {
    assert a * (d * r) == b * c * r;
  }

  /** Once a pivot is zero the rest of the elimination changes nothing. */
  lemma {:induction false} StopsHere(flags: seq<bool>, A: Matrix, m: nat)
    requires m <= |flags| && Square(A, |flags|)
    requires !Sweep(flags, A, m).ok
    ensures Elimination(flags, A) == Sweep(flags, A, m)
    decreases |flags| - m
  {
    if m < |flags| { StopsHere(flags, A, m + 1); }
  }

  lemma NegatedReciprocal(p: real)
    requires p != 0.0
    ensures -1.0 / p == -Reciprocal(p)
  {
  }

  lemma SameGrid(V: Matrix, W: Matrix, n: nat)
    requires Square(V, n) && Square(W, n)
    requires forall i, j :: 0 <= i < n && 0 <= j < n ==> V[i][j] == W[i][j]
    ensures V == W
  {
    forall i | 0 <= i < n ensures V[i] == W[i] { }
  }
}
