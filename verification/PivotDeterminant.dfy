/** The product of the pivots is the cofactor determinant: system/matrixinverter.cpp and
    cppext/determinator.cpp compute the same number from the same matrix. */
module PivotDeterminant {
  import opened Sums
  import opened Exchange
  import Determinant
  import Determinator

  ghost function RowList(W: Matrix, open: seq<int>): (cs: seq<Vector>)
    ensures |cs| == |open|
    ensures forall i :: 0 <= i < |cs| ==> cs[i] == RowOf(W, open[i])
  {
    seq(|open|, i requires 0 <= i < |open| => RowOf(W, open[i]))
  }

  /** The determinant of the part of W in play below n. */
  ghost function Leading(flags: seq<bool>, W: Matrix, n: nat): real
    requires n <= |flags|
  {
    Determinant.Det(RowList(W, Determinator.Open(flags, n)), Determinator.Open(flags, n))
  }

  /** Row i less the multiple of row f that clears column f. */
  ghost function Cleared(W: Matrix, f: int, i: int): Vector
    requires At(W, f, f) != 0.0
  {
    j => Lin(1.0, At(W, i, j), Times(At(W, i, f), -Reciprocal(At(W, f, f))), At(W, f, j))
  }

  ghost function ClearedList(W: Matrix, f: int, open: seq<int>): (cs: seq<Vector>)
    requires At(W, f, f) != 0.0
    ensures |cs| == |open|
    ensures forall i :: 0 <= i < |cs| ==> cs[i] == Cleared(W, f, open[i])
  {
    seq(|open|, i requires 0 <= i < |open| => Cleared(W, f, open[i]))
  }

  /** Away from the pivot, a pivot leaves the cleared rows. */
  lemma PivotClears(flags: seq<bool>, W: Matrix, f: int, i: int, j: int)
    requires Play(flags, f) && Play(flags, i) && Play(flags, j) && i != f && j != f && At(W, f, f) != 0.0
    ensures RowOf(Pivot(flags, W, f), i)(j) == Cleared(W, f, i)(j)
  {
    UpdateIsLin(At(W, i, j), At(W, f, j), At(W, i, f), Reciprocal(At(W, f, f)));
  }

  lemma UpdateIsLin(w: real, a: real, b: real, r: real)
    ensures Update(w, a, b, r) == Lin(1.0, w, Times(b, -r), a)
  {
  }

  lemma ClearsPivotColumn(b: real, p: real)
    requires p != 0.0
    ensures Lin(1.0, b, Times(b, -Reciprocal(p)), p) == 0.0
  {
    assert b * -Reciprocal(p) * p == -b * (Reciprocal(p) * p);
  }

  /** Clearing the pivot column splits the pivot off the determinant. */
  lemma ClearedSplits(W: Matrix, f: int, rest: seq<int>)
    requires At(W, f, f) != 0.0
    ensures Determinant.Det(RowList(W, [f] + rest), [f] + rest) ==
            Times(At(W, f, f), Determinant.Det(ClearedList(W, f, rest), rest))
  {
    hide Determinant.Det, Times, Lin, At, Reciprocal;
    var rows := [f] + rest;
    var cs, ds := RowList(W, rows), [RowOf(W, f)] + ClearedList(W, f, rest);
    var t: Vector := i => if 0 <= i < |rows| then Times(At(W, rows[i], f), -Reciprocal(At(W, f, f))) else 0.0;
    forall i | 0 < i < |ds| ensures ds[i] == Cleared(W, f, rows[i]) && ds[i](f) == 0.0 {
      assert ds[i] == ClearedList(W, f, rest)[i - 1];
      ClearsPivotColumn(At(W, rows[i], f), At(W, f, f));
    }
    Determinant.DetReduced(cs, ds, t, |cs|, rows);
    Determinant.DetSplits(ds, rows);
    assert ds[1..] == ClearedList(W, f, rest) && rows[1..] == rest;
  }

  /** One pivot splits its own value off the determinant. */
  lemma PivotSplits(flags: seq<bool>, W: Matrix, f: nat)
    requires f < |flags| && !flags[f] && At(W, f, f) != 0.0
    ensures Leading(flags, W, f + 1) == Times(At(W, f, f), Leading(flags, Pivot(flags, W, f), f))
  {
    hide Determinant.Det, Times, Lin, At, PivotAt, Cleared;
    var rest := Determinator.Open(flags, f);
    assert Determinator.Open(flags, f + 1) == [f] + rest;
    ClearedSplits(W, f, rest);
    var V := Pivot(flags, W, f);
    forall i, k | 0 <= i < |rest| && 0 <= k < |rest|
      ensures ClearedList(W, f, rest)[i](rest[k]) == RowList(V, rest)[i](rest[k])
    {
      Determinator.OpenRange(flags, f, i);
      Determinator.OpenRange(flags, f, k);
      PivotClears(flags, W, f, rest[i], rest[k]);
    }
    Determinant.DetExt(ClearedList(W, f, rest), RowList(V, rest), rest);
  }

  /** While the elimination runs, the pivots so far times the determinant of what is left is constant. */
  lemma {:induction false} NormInvariant(flags: seq<bool>, A: Matrix, m: nat)
    requires m <= |flags| && Square(A, |flags|)
    requires Sweep(flags, A, m).ok
    ensures Leading(flags, A, |flags|) ==
      Times(Sweep(flags, A, m).norm, Leading(flags, Sweep(flags, A, m).W, |flags| - m))
  {
    hide Leading, Pivot, Times;
    if m == 0 {
      TimesUnit(Leading(flags, A, |flags|));
    } else {
      var s, f := Sweep(flags, A, m - 1), |flags| - m;
      NormInvariant(flags, A, m - 1);
      if flags[f] {
        LeadingSkips(flags, s.W, f);
      } else {
        PivotSplits(flags, s.W, f);
        TimesAssociates(s.norm, At(s.W, f, f), Leading(flags, Pivot(flags, s.W, f), f));
      }
    }
  }

  lemma LeadingSkips(flags: seq<bool>, W: Matrix, f: nat)
    requires f < |flags| && flags[f]
    ensures Leading(flags, W, f + 1) == Leading(flags, W, f)
  {
    assert Determinator.Open(flags, f + 1) == Determinator.Open(flags, f);
  }

  lemma CofactorIsLeading(flags: seq<bool>, A: Matrix, ys: seq<real>)
    requires Square(A, |flags|)
    ensures Leading(flags, A, |flags|) == Determinator.Cofactor(Determinator.Problem(A, ys, 0, false), flags)
  {
    hide Determinant.Det;
    var p, open := Determinator.Problem(A, ys, 0, false), Determinator.Open(flags, |flags|);
    forall i, k | 0 <= i < |open| && 0 <= k < |open|
      ensures RowList(A, open)[i](open[k]) == Determinator.Entries(p, open)[i](open[k])
    {
      Determinator.OpenRange(flags, |flags|, i);
      Determinator.OpenRange(flags, |flags|, k);
    }
    Determinant.DetExt(RowList(A, open), Determinator.Entries(p, open), open);
  }

  /** A completed elimination returns exactly the gated cofactor determinant. */
  lemma NormIsDeterminant(flags: seq<bool>, A: Matrix, ys: seq<real>)
    requires Square(A, |flags|) && Elimination(flags, A).ok
    ensures Elimination(flags, A).norm == Determinator.Cofactor(Determinator.Problem(A, ys, 0, false), flags)
  {
    hide Determinant.Det, Determinator.Cofactor;
    NormInvariant(flags, A, |flags|);
    CofactorIsLeading(flags, A, ys);
    NothingLeading(flags, Elimination(flags, A).W, 0);
    TimesIs(Elimination(flags, A).norm, 1.0);
  }

  lemma NothingLeading(flags: seq<bool>, W: Matrix, n: nat)
    requires n == 0
    ensures Leading(flags, W, n) == 1.0
  {
  }

  // ----- the trailing parts -----

  /** The indices below k are ignored as well. */
  ghost function From(flags: seq<bool>, k: int): (g: seq<bool>)
    ensures |g| == |flags| && forall i :: 0 <= i < |g| ==> g[i] == (i < k || flags[i])
  {
    seq(|flags|, i requires 0 <= i < |flags| => i < k || flags[i])
  }

  ghost predicate SameFrom(V: Matrix, W: Matrix, k: int, n: int) {
    forall i, j :: k <= i < n && k <= j < n ==> At(V, i, j) == At(W, i, j)
  }

  lemma SweepUnfold(flags: seq<bool>, A: Matrix, m: nat)
    requires 0 < m <= |flags| && Square(A, |flags|)
    ensures var s, f := Sweep(flags, A, m - 1), |flags| - m;
      Sweep(flags, A, m) ==
        if !s.ok || flags[f] then s
        else if At(s.W, f, f) == 0.0 then Swept(false, 0.0, s.W)
        else Swept(true, Times(s.norm, At(s.W, f, f)), Pivot(flags, s.W, f))
  {
    hide At, Pivot, Times;
  }

  /** On the part from k on, the elimination does the same whether or not what is before it is ignored. */
  lemma {:induction false} SweepFrom(flags: seq<bool>, A: Matrix, k: int, m: nat)
    requires m <= |flags| && 0 <= k <= |flags| - m && Square(A, |flags|)
    ensures var s, t := Sweep(flags, A, m), Sweep(From(flags, k), A, m);
      s.ok == t.ok && s.norm == t.norm && SameFrom(s.W, t.W, k, |flags|)
  {
    hide From, Times, At, Pivot, Sweep, SameFrom;
    var g := From(flags, k);
    if m == 0 {
      SameStart(flags, A, k, m);
    } else {
      SweepFrom(flags, A, k, m - 1);
      SweepUnfold(flags, A, m);
      SweepUnfold(g, A, m);
      var s, t, f := Sweep(flags, A, m - 1), Sweep(g, A, m - 1), |flags| - m;
      SameEntry(s.W, t.W, k, |flags|, f);
      if s.ok && !flags[f] && At(s.W, f, f) != 0.0 { SamePivot(flags, s.W, t.W, k, f); }
    }
  }

  lemma SameStart(flags: seq<bool>, A: Matrix, k: int, m: nat)
    requires m == 0 && Square(A, |flags|)
    ensures Sweep(flags, A, m) == Sweep(From(flags, k), A, m) && SameFrom(A, A, k, |flags|)
    ensures Sweep(flags, A, m).W == A
  {
  }

  lemma SameEntry(V: Matrix, W: Matrix, k: int, n: int, f: int)
    requires SameFrom(V, W, k, n) && k <= f < n
    ensures At(V, f, f) == At(W, f, f)
  {
  }

  lemma SamePivot(flags: seq<bool>, V: Matrix, W: Matrix, k: int, f: int)
    requires 0 <= k <= f < |flags| && At(V, f, f) == At(W, f, f) != 0.0
    requires SameFrom(V, W, k, |flags|)
    ensures SameFrom(Pivot(flags, V, f), Pivot(From(flags, k), W, f), k, |flags|)
  {
    hide At, Update, Times, Reciprocal, Pivot;
    var g := From(flags, k);
    forall i, j | k <= i < |flags| && k <= j < |flags|
      ensures At(Pivot(flags, V, f), i, j) == At(Pivot(g, W, f), i, j)
    {
      PivotEntry(flags, V, f, i, j);
      PivotEntry(g, W, f, i, j);
      assert Play(g, i) == Play(flags, i) && Play(g, j) == Play(flags, j);
    }
  }

  lemma PivotEntry(flags: seq<bool>, W: Matrix, f: int, i: int, j: int)
    requires At(W, f, f) != 0.0 && 0 <= i < |flags| && 0 <= j < |flags|
    ensures At(Pivot(flags, W, f), i, j) == PivotAt(flags, W, f, i, j)
  {
    hide PivotAt;
  }

  lemma {:induction false} OpenNothing(flags: seq<bool>, k: nat, n: nat)
    requires n <= k <= |flags|
    ensures Determinator.Open(From(flags, k), n) == []
  {
    if n > 0 { OpenNothing(flags, k, n - 1); }
  }

  /** A trailing determinant is the product of the pivots before its own times its own, zero or not. */
  lemma TrailingIsPivots(flags: seq<bool>, A: Matrix, m: nat)
    requires 0 < m <= |flags| && Square(A, |flags|) && Sweep(flags, A, m - 1).ok && !flags[|flags| - m]
    ensures var s, k := Sweep(flags, A, m - 1), |flags| - m;
      Leading(From(flags, k), A, |flags|) == Times(s.norm, At(s.W, k, k))
  {
    hide Determinant.Det, Times, At, Sweep;
    var k := |flags| - m;
    var g := From(flags, k);
    SweepFrom(flags, A, k, m - 1);
    SameEntry(Sweep(flags, A, m - 1).W, Sweep(g, A, m - 1).W, k, |flags|, k);
    NormInvariant(g, A, m - 1);
    OpenNothing(flags, k, k);
    var W := Sweep(g, A, m - 1).W;
    assert Determinator.Open(g, k + 1) == [k];
    assert RowList(W, [k]) == [RowOf(W, k)];
    Determinant.DetOne(RowOf(W, k), k);
  }

  lemma {:induction false} PivotsNonzero(flags: seq<bool>, A: Matrix, m: nat)
    requires m <= |flags| && Square(A, |flags|) && Sweep(flags, A, m).ok
    ensures Sweep(flags, A, m).norm != 0.0
  {
    hide Pivot, At;
    if m > 0 { PivotsNonzero(flags, A, m - 1); }
  }

  /** The elimination completes exactly when every trailing part in play has a determinant that is not zero. */
  lemma {:induction false} CompletesByDeterminants(flags: seq<bool>, A: Matrix, m: nat)
    requires m <= |flags| && Square(A, |flags|)
    ensures Sweep(flags, A, m).ok <==>
      forall k :: |flags| - m <= k && Play(flags, k) ==> Leading(From(flags, k), A, |flags|) != 0.0
  {
    hide Leading, Pivot, At, From;
    if m > 0 {
      CompletesByDeterminants(flags, A, m - 1);
      var k := |flags| - m;
      if Sweep(flags, A, m - 1).ok && !flags[k] {
        PivotsNonzero(flags, A, m - 1);
        TrailingIsPivots(flags, A, m);
      }
    }
  }
}
