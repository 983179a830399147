/** The algebra of Gauss-Jordan elimination by exchange: pivoting on a diagonal element makes the
    stored matrix answer the same linear equations with one input and one output traded.
    Vectors act from the left, x * A = y, which is the sign convention of system/matrixinverter.cpp. */
module Exchange {
  import opened Sums

  type Matrix = seq<seq<real>>

  ghost predicate Square(W: Matrix, n: nat) {
    |W| == n && forall i :: 0 <= i < n ==> |W[i]| == n
  }

  /** Index i takes part: it is in range and not ignored. */
  ghost predicate Play(flags: seq<bool>, i: int) { 0 <= i < |flags| && !flags[i] }

  ghost function At(W: Matrix, i: int, j: int): real {
    if 0 <= i < |W| && 0 <= j < |W[i]| then W[i][j] else 0.0
  }

  /** The summands of the j-th component of u * W. */
  ghost function Terms(flags: seq<bool>, u: Vector, W: Matrix, j: int): Vector {
    i => if Play(flags, i) then Times(u(i), At(W, i, j)) else 0.0
  }

  /** v = u * W on the indices in play. */
  ghost predicate Maps(flags: seq<bool>, W: Matrix, u: Vector, v: Vector) {
    forall j :: Play(flags, j) ==> v(j) == Sum(|flags|, Terms(flags, u, W, j))
  }

  /** Two in play: the equations x * A = y, written out. */
  lemma TwoInPlay(flags: seq<bool>, A: Matrix, x: Vector, y: Vector)
    requires Square(A, 2) && |flags| == 2 && !flags[0] && !flags[1]
    ensures Maps(flags, A, x, y) <==>
            y(0) == Times(x(0), A[0][0]) + Times(x(1), A[1][0]) && y(1) == Times(x(0), A[0][1]) + Times(x(1), A[1][1])
  {
  }

  ghost function Reciprocal(p: real): (r: real)
    requires p != 0.0
    ensures p * r == 1.0
  {
    1.0 / p
  }

  ghost function Update(w: real, a: real, b: real, r: real): real { w + a * (b * -r) }

  /** One pivot: entry (i, j) after exchanging on the diagonal element f. Ignored rows and columns stay. */
  ghost function PivotAt(flags: seq<bool>, W: Matrix, f: int, i: int, j: int): real
    requires At(W, f, f) != 0.0
  {
    var r := Reciprocal(At(W, f, f));
    if !Play(flags, i) || !Play(flags, j) then At(W, i, j)
    else if i == f && j == f then r
    else if i == f then Times(At(W, f, j), r)
    else if j == f then Times(At(W, i, f), -r)
    else Update(At(W, i, j), At(W, f, j), At(W, i, f), r)
  }

  ghost function Pivot(flags: seq<bool>, W: Matrix, f: int): (V: Matrix)
    requires At(W, f, f) != 0.0
    ensures Square(V, |flags|)
    ensures forall i, j :: 0 <= i < |flags| && 0 <= j < |flags| ==> V[i][j] == PivotAt(flags, W, f, i, j)
  {
    seq(|flags|, i requires 0 <= i < |flags| => seq(|flags|, j requires 0 <= j < |flags| => PivotAt(flags, W, f, i, j)))
  }

  ghost function Put(u: Vector, f: int, a: real): Vector { i => if i == f then a else u(i) }

  /** The part of the j-th component of u * W that does not come from input f. */
  ghost function Rest(flags: seq<bool>, u: Vector, W: Matrix, f: int, j: int): real {
    Sum(|flags|, Terms(flags, Put(u, f, 0.0), W, j))
  }

  lemma SplitInput(flags: seq<bool>, u: Vector, W: Matrix, f: int, j: int)
    requires Play(flags, f)
    ensures Sum(|flags|, Terms(flags, u, W, j)) == Times(u(f), At(W, f, j)) + Rest(flags, u, W, f, j)
  {
    hide Sum, At;
    assert Terms(flags, Put(u, f, 0.0), W, j)(f) == Times(0.0, At(W, f, j));
    SumSplit(|flags|, f, Terms(flags, u, W, j), Terms(flags, Put(u, f, 0.0), W, j));
  }

  lemma UpdateProduct(x: real, w: real, a: real, b: real, r: real)
    ensures Times(x, Update(w, a, b, r)) == Lin(1.0, Times(x, w), Times(a, -r), Times(x, b))
    ensures Times(x, Times(b, -r)) == Lin(-r, Times(x, b), 0.0, 0.0)
  {
  }

  /** How the rest changes under a pivot on f. */
  lemma PivotRest(flags: seq<bool>, u: Vector, W: Matrix, f: int, j: int)
    requires Play(flags, f) && Play(flags, j) && At(W, f, f) != 0.0
    ensures var r := Reciprocal(At(W, f, f));
      Rest(flags, u, Pivot(flags, W, f), f, j) ==
      if j == f then Lin(-r, Rest(flags, u, W, f, f), 0.0, 0.0)
      else Lin(1.0, Rest(flags, u, W, f, j), Times(At(W, f, j), -r), Rest(flags, u, W, f, f))
  {
    var r := Reciprocal(At(W, f, f));
    var z := Put(u, f, 0.0);
    var after, before, atF := Terms(flags, z, Pivot(flags, W, f), j), Terms(flags, z, W, j), Terms(flags, z, W, f);
    var zero := (i: int) => 0.0;
    forall i | 0 <= i < |flags|
      ensures after(i) ==
        if j == f then Lin(-r, atF(i), 0.0, zero(i)) else Lin(1.0, before(i), Times(At(W, f, j), -r), atF(i))
    {
      PivotTerm(flags, u, W, f, i, j);
    }
    if j == f {
      SumLinear(|flags|, -r, atF, 0.0, zero, after);
      SumZero(|flags|, zero);
    } else {
      SumLinear(|flags|, 1.0, before, Times(At(W, f, j), -r), atF, after);
    }
  }

  lemma PivotTerm(flags: seq<bool>, u: Vector, W: Matrix, f: int, i: int, j: int)
    requires Play(flags, f) && Play(flags, j) && At(W, f, f) != 0.0 && 0 <= i < |flags|
    ensures var r, z := Reciprocal(At(W, f, f)), Put(u, f, 0.0);
      Terms(flags, z, Pivot(flags, W, f), j)(i) ==
      if j == f then Lin(-r, Terms(flags, z, W, f)(i), 0.0, 0.0)
      else Lin(1.0, Terms(flags, z, W, j)(i), Times(At(W, f, j), -r), Terms(flags, z, W, f)(i))
  {
    hide Update, Times, Lin;
    var r, x := Reciprocal(At(W, f, f)), if i == f then 0.0 else u(i);
    assert At(Pivot(flags, W, f), i, j) == PivotAt(flags, W, f, i, j);
    if !Play(flags, i) {
      LinZero(-r, 0.0); LinZero(1.0, Times(At(W, f, j), -r));
    } else if i == f {
      TimesUnit(At(Pivot(flags, W, f), f, j)); TimesUnit(At(W, f, j)); TimesUnit(At(W, f, f));
      LinZero(-r, 0.0); LinZero(1.0, Times(At(W, f, j), -r));
    } else {
      UpdateProduct(x, At(W, i, j), At(W, f, j), At(W, i, f), r);
    }
  }

  lemma LinZero(s: real, t: real)
    ensures Lin(s, 0.0, t, 0.0) == 0.0
  {
  }

  lemma TimesUnit(a: real)
    ensures Times(0.0, a) == 0.0 && Times(a, 0.0) == 0.0 && Times(1.0, a) == a
  {
  }

  lemma SolveForward(u: real, v: real, p: real, r: real, rest: real)
    requires p * r == 1.0
    requires v == Times(u, p) + rest
    ensures u == Times(v, r) + Lin(-r, rest, 0.0, 0.0)
  {
    assert v * r == u * (p * r) + rest * r;
  }

  lemma SolveBackward(u: real, v: real, p: real, r: real, rest: real)
    requires p * r == 1.0
    requires u == Times(v, r) + Lin(-r, rest, 0.0, 0.0)
    ensures v == Times(u, p) + rest
  {
    assert u * p == v * (p * r) - (p * r) * rest;
  }

  lemma ExchangeOther(uf: real, vf: real, p: real, r: real, rest: real, w: real, vj: real, restJ: real)
    requires p * r == 1.0
    requires vf == Times(uf, p) + rest
    ensures vj == Times(uf, w) + restJ <==> vj == Times(vf, Times(w, r)) + Lin(1.0, restJ, Times(w, -r), rest)
  {
    assert vf * (w * r) == uf * w * (p * r) + rest * (w * r);
  }

  /** Trading input and output f: exactly the same equations hold after the pivot. */
  lemma ExchangeStep(flags: seq<bool>, W: Matrix, f: int, u: Vector, v: Vector)
    requires Play(flags, f) && At(W, f, f) != 0.0
    ensures Maps(flags, W, u, v) <==> Maps(flags, Pivot(flags, W, f), Put(u, f, v(f)), Put(v, f, u(f)))
  {
    hide Sum, Pivot, Terms, Lin, Times, Rest;
    var V, u', v' := Pivot(flags, W, f), Put(u, f, v(f)), Put(v, f, u(f));
    if Maps(flags, W, u, v) {
      forall j | Play(flags, j) ensures v'(j) == Sum(|flags|, Terms(flags, u', V, j)) {
        ExchangeAtFocus(flags, W, f, u, v);
        if j != f { ExchangeAtOther(flags, W, f, u, v, j); }
      }
    }
    if Maps(flags, V, u', v') {
      forall j | Play(flags, j) ensures v(j) == Sum(|flags|, Terms(flags, u, W, j)) {
        ExchangeAtFocus(flags, W, f, u, v);
        if j != f { ExchangeAtOther(flags, W, f, u, v, j); }
      }
    }
  }

  /** The summands after the pivot: what comes from input f, and the rest in terms of the matrix before. */
  lemma PivotedSum(flags: seq<bool>, W: Matrix, f: int, u: Vector, a: real, j: int)
    requires Play(flags, f) && Play(flags, j) && At(W, f, f) != 0.0
    ensures Sum(|flags|, Terms(flags, Put(u, f, a), Pivot(flags, W, f), j)) ==
            (var r, rest := Reciprocal(At(W, f, f)), Rest(flags, u, W, f, f);
             if j == f then Times(a, r) + Lin(-r, rest, 0.0, 0.0)
             else Times(a, Times(At(W, f, j), r)) + Lin(1.0, Rest(flags, u, W, f, j), Times(At(W, f, j), -r), rest))
  {
    hide Sum, Terms, Lin, Times, Rest;
    var V, u' := Pivot(flags, W, f), Put(u, f, a);
    SplitInput(flags, u', V, f, j);
    RestSame(flags, u, u', V, f, j);
    PivotRest(flags, u, W, f, j);
    assert At(V, f, j) == PivotAt(flags, W, f, f, j);
  }

  lemma ExchangeAtFocus(flags: seq<bool>, W: Matrix, f: int, u: Vector, v: Vector)
    requires Play(flags, f) && At(W, f, f) != 0.0
    ensures v(f) == Sum(|flags|, Terms(flags, u, W, f))
        <==> u(f) == Sum(|flags|, Terms(flags, Put(u, f, v(f)), Pivot(flags, W, f), f))
  {
    hide *;
    var p, r, rest := At(W, f, f), Reciprocal(At(W, f, f)), Rest(flags, u, W, f, f);
    SplitInput(flags, u, W, f, f);
    PivotedSum(flags, W, f, u, v(f), f);
    if v(f) == Times(u(f), p) + rest { SolveForward(u(f), v(f), p, r, rest); }
    if u(f) == Times(v(f), r) + Lin(-r, rest, 0.0, 0.0) { SolveBackward(u(f), v(f), p, r, rest); }
  }

  lemma ExchangeAtOther(flags: seq<bool>, W: Matrix, f: int, u: Vector, v: Vector, j: int)
    requires Play(flags, f) && Play(flags, j) && j != f && At(W, f, f) != 0.0
    requires v(f) == Sum(|flags|, Terms(flags, u, W, f))
    ensures v(j) == Sum(|flags|, Terms(flags, u, W, j))
        <==> v(j) == Sum(|flags|, Terms(flags, Put(u, f, v(f)), Pivot(flags, W, f), j))
  {
    hide *;
    SplitInput(flags, u, W, f, f);
    SplitInput(flags, u, W, f, j);
    PivotedSum(flags, W, f, u, v(f), j);
    ExchangeOther(u(f), v(f), At(W, f, f), Reciprocal(At(W, f, f)), Rest(flags, u, W, f, f),
      At(W, f, j), v(j), Rest(flags, u, W, f, j));
  }

  lemma RestSame(flags: seq<bool>, u: Vector, z: Vector, W: Matrix, f: int, j: int)
    requires forall i :: i != f ==> u(i) == z(i)
    ensures Rest(flags, u, W, f, j) == Rest(flags, z, W, f, j)
  {
    SumExt(|flags|, Terms(flags, Put(u, f, 0.0), W, j), Terms(flags, Put(z, f, 0.0), W, j));
  }

  // ----- the whole elimination -----

  datatype Swept = Swept(ok: bool, norm: real, W: Matrix)

  /** The state after the last m indices have been used as pivots, highest first. */
  ghost function Sweep(flags: seq<bool>, A: Matrix, m: nat): (s: Swept)
    requires m <= |flags| && Square(A, |flags|)
    ensures Square(s.W, |flags|)
  {
    if m == 0 then Swept(true, 1.0, A)
    else
      var s, focus := Sweep(flags, A, m - 1), |flags| - m;
      if !s.ok || flags[focus] then s
      else if At(s.W, focus, focus) == 0.0 then Swept(false, 0.0, s.W)
      else Swept(true, Times(s.norm, At(s.W, focus, focus)), Pivot(flags, s.W, focus))
  }

  ghost function Elimination(flags: seq<bool>, A: Matrix): Swept
    requires Square(A, |flags|)
  {
    Sweep(flags, A, |flags|)
  }

  /** a from index k on, b before it. */
  ghost function Mix(k: int, a: Vector, b: Vector): Vector { i => if i >= k then a(i) else b(i) }

  lemma MapsExt(flags: seq<bool>, W: Matrix, u: Vector, v: Vector, u': Vector, v': Vector)
    requires forall i :: Play(flags, i) ==> u(i) == u'(i) && v(i) == v'(i)
    ensures Maps(flags, W, u, v) <==> Maps(flags, W, u', v')
  {
    hide At, Times;
    forall j | Play(flags, j)
      ensures Sum(|flags|, Terms(flags, u, W, j)) == Sum(|flags|, Terms(flags, u', W, j))
    {
      SumExt(|flags|, Terms(flags, u, W, j), Terms(flags, u', W, j));
    }
  }

  /** The exchange invariant: after pivoting on every usable index from k on, the working matrix
      takes (y from k on, x before k) to (x from k on, y before k) exactly when x * A = y. */
  lemma {:induction false} ExchangeInvariant(flags: seq<bool>, A: Matrix, m: nat, x: Vector, y: Vector)
    requires m <= |flags| && Square(A, |flags|)
    requires Sweep(flags, A, m).ok
    ensures var k := |flags| - m;
      Maps(flags, A, x, y) <==> Maps(flags, Sweep(flags, A, m).W, Mix(k, y, x), Mix(k, x, y))
  {
    hide Maps, Pivot;
    var k := |flags| - m;
    if m == 0 {
      MapsExt(flags, A, x, y, Mix(k, y, x), Mix(k, x, y));
    } else {
      var W := Sweep(flags, A, m - 1).W;
      var u, v := Mix(k + 1, y, x), Mix(k + 1, x, y);
      ExchangeInvariant(flags, A, m - 1, x, y);
      if flags[k] {
        MapsExt(flags, W, u, v, Mix(k, y, x), Mix(k, x, y));
      } else {
        ExchangeStep(flags, W, k, u, v);
        MapsExt(flags, Pivot(flags, W, k), Put(u, k, v(k)), Put(v, k, u(k)), Mix(k, y, x), Mix(k, x, y));
      }
    }
  }

  ghost function Unit(i: int): Vector { j => if i == j then 1.0 else 0.0 }
  ghost function RowOf(W: Matrix, i: int): Vector { j => At(W, i, j) }

  lemma UnitMaps(flags: seq<bool>, W: Matrix, i: int)
    requires Play(flags, i)
    ensures Maps(flags, W, Unit(i), RowOf(W, i))
  {
    hide At, Times;
    forall a ensures Times(1.0, a) == a && Times(0.0, a) == 0.0 { TimesUnit(a); }
    forall j | Play(flags, j) ensures At(W, i, j) == Sum(|flags|, Terms(flags, Unit(i), W, j)) {
      SumOne(|flags|, i, Terms(flags, Unit(i), W, j));
    }
  }

  /** Entry (i, j) of the product of A and B over the indices in play. */
  ghost function ProductAt(flags: seq<bool>, A: Matrix, B: Matrix, i: int, j: int): real {
    Sum(|flags|, Terms(flags, RowOf(A, i), B, j))
  }

  /** A * B is the identity on the rows and columns in play. */
  ghost predicate LeftInverse(flags: seq<bool>, A: Matrix, B: Matrix) {
    forall i, j :: Play(flags, i) && Play(flags, j) ==> ProductAt(flags, A, B, i, j) == Unit(i)(j)
  }

  /** W answers the equations of A with input and output exchanged. */
  lemma Solved(flags: seq<bool>, A: Matrix, W: Matrix, x: Vector, y: Vector)
    requires Square(A, |flags|) && Elimination(flags, A).ok && W == Elimination(flags, A).W
    ensures Maps(flags, A, x, y) <==> Maps(flags, W, y, x)
  {
    hide Maps, Pivot, At;
    ExchangeInvariant(flags, A, |flags|, x, y);
    MapsExt(flags, W, Mix(0, y, x), Mix(0, x, y), y, x);
  }

  lemma RowsInvert(flags: seq<bool>, A: Matrix, W: Matrix, i: int, j: int)
    requires Play(flags, i) && Play(flags, j)
    requires Maps(flags, W, RowOf(A, i), Unit(i))
    ensures ProductAt(flags, A, W, i, j) == Unit(i)(j)
  {
  }

  /** A completed elimination leaves the two-sided inverse. */
  lemma SweepInverts(flags: seq<bool>, A: Matrix)
    requires Square(A, |flags|) && Elimination(flags, A).ok
    ensures LeftInverse(flags, A, Elimination(flags, A).W)
    ensures LeftInverse(flags, Elimination(flags, A).W, A)
  {
    hide Maps, Pivot, At, ProductAt;
    var W := Elimination(flags, A).W;
    forall i, j | Play(flags, i) && Play(flags, j)
      ensures ProductAt(flags, A, W, i, j) == Unit(i)(j)
      ensures ProductAt(flags, W, A, i, j) == Unit(i)(j)
    {
      UnitMaps(flags, A, i);
      Solved(flags, A, W, Unit(i), RowOf(A, i));
      RowsInvert(flags, A, W, i, j);
      UnitMaps(flags, W, i);
      Solved(flags, A, W, RowOf(W, i), Unit(i));
      RowsInvert(flags, W, A, i, j);
    }
  }

  /** Ignored rows and columns are never touched. */
  lemma {:induction false} SweepFrame(flags: seq<bool>, A: Matrix, m: nat, i: int, j: int)
    requires m <= |flags| && Square(A, |flags|)
    requires 0 <= i < |flags| && 0 <= j < |flags| && (flags[i] || flags[j])
    ensures Sweep(flags, A, m).W[i][j] == A[i][j]
  {
    if m > 0 { SweepFrame(flags, A, m - 1, i, j); }
  }
}
