/** The cofactor determinant of a list of columns over a list of rows, expanded along the
    first column, as an explicit-list reference for the flag-driven recursion. */
module Determinant {
  import opened Sums

  ghost function Drop(s: seq<int>, k: int): (r: seq<int>)
    requires 0 <= k < |s|
    ensures |r| == |s| - 1
  {
    s[..k] + s[k + 1..]
  }

  /** Kept behind a name so that proofs about the expansion stay linear. */
  ghost function Product(g: real, a: real, m: real): real { g * a * m }

  ghost predicate Odd(k: int) { k % 2 == 1 }

  ghost function Sign(k: int): real { if Odd(k) then -1.0 else 1.0 }

  ghost function Det(cs: seq<Vector>, rows: seq<int>): real
    decreases |cs|, 1
  {
    if cs == [] then 1.0 else Sum(|rows|, Terms(cs, rows))
  }

  /** The terms of the expansion along the first column. */
  ghost function Terms(cs: seq<Vector>, rows: seq<int>): Vector
    requires cs != []
    decreases |cs|, 0
  {
    k => if 0 <= k < |rows| then Product(Sign(k), cs[0](rows[k]), Det(cs[1..], Drop(rows, k))) else 0.0
  }

  lemma DetOne(c: Vector, r: int)
    ensures Det([c], [r]) == c(r)
  {
  }

  /** The determinant reads only the listed columns at the listed rows. */
  lemma {:induction false} DetExt(cs: seq<Vector>, ds: seq<Vector>, rows: seq<int>)
    requires |cs| == |ds|
    requires forall c, k :: 0 <= c < |cs| && 0 <= k < |rows| ==> cs[c](rows[k]) == ds[c](rows[k])
    ensures Det(cs, rows) == Det(ds, rows)
    decreases |cs|
  {
    if cs != [] {
      forall k | 0 <= k < |rows| ensures Terms(cs, rows)(k) == Terms(ds, rows)(k) {
        DetExt(cs[1..], ds[1..], Drop(rows, k));
      }
      SumExt(|rows|, Terms(cs, rows), Terms(ds, rows));
    }
  }

  lemma TermIs(cs: seq<Vector>, rows: seq<int>, k: int)
    requires cs != [] && 0 <= k < |rows|
    ensures Terms(cs, rows)(k) == Product(Sign(k), cs[0](rows[k]), Det(cs[1..], Drop(rows, k)))
  {
    hide Product, Det;
  }

  lemma TermHead(cs: seq<Vector>, v: Vector, rows: seq<int>, k: int)
    requires cs != [] && 0 <= k < |rows|
    ensures Terms(cs[0 := v], rows)(k) == Product(Sign(k), v(rows[k]), Det(cs[1..], Drop(rows, k)))
  {
  }

  lemma TermTail(cs: seq<Vector>, p: int, v: Vector, rows: seq<int>, k: int)
    requires 0 < p < |cs| && 0 <= k < |rows|
    ensures Terms(cs[p := v], rows)(k) == Product(Sign(k), cs[0](rows[k]), Det(cs[1..][p - 1 := v], Drop(rows, k)))
  {
  }

  lemma ProductLinear(g: real, s: real, a: real, t: real, b: real, m: real)
    ensures Product(g, Lin(s, a, t, b), m) == Lin(s, Product(g, a, m), t, Product(g, b, m))
    ensures Product(g, m, Lin(s, a, t, b)) == Lin(s, Product(g, m, a), t, Product(g, m, b))
  {
  }

  /** One term of the expansion is linear in each column when the minors are. */
  lemma TermLinear(cs: seq<Vector>, p: int, s: real, v: Vector, t: real, w: Vector, u: Vector, rows: seq<int>, k: int)
    requires 0 <= p < |cs| && 0 <= k < |rows|
    requires u(rows[k]) == Lin(s, v(rows[k]), t, w(rows[k]))
    requires p == 0 || Det(cs[1..][p - 1 := u], Drop(rows, k)) ==
                       Lin(s, Det(cs[1..][p - 1 := v], Drop(rows, k)), t, Det(cs[1..][p - 1 := w], Drop(rows, k)))
    ensures Terms(cs[p := u], rows)(k) == Lin(s, Terms(cs[p := v], rows)(k), t, Terms(cs[p := w], rows)(k))
  {
    hide *;
    if p == 0 {
      TermHead(cs, u, rows, k); TermHead(cs, v, rows, k); TermHead(cs, w, rows, k);
      ProductLinear(Sign(k), s, v(rows[k]), t, w(rows[k]), Det(cs[1..], Drop(rows, k)));
    } else {
      TermTail(cs, p, u, rows, k); TermTail(cs, p, v, rows, k); TermTail(cs, p, w, rows, k);
      ProductLinear(Sign(k), s, Det(cs[1..][p - 1 := v], Drop(rows, k)),
        t, Det(cs[1..][p - 1 := w], Drop(rows, k)), cs[0](rows[k]));
    }
  }

  /** Linear in each column. */
  lemma {:induction false} DetLinear(cs: seq<Vector>, p: int, s: real, v: Vector, t: real, w: Vector,
      u: Vector, rows: seq<int>)
    requires 0 <= p < |cs|
    requires forall k :: 0 <= k < |rows| ==> u(rows[k]) == Lin(s, v(rows[k]), t, w(rows[k]))
    ensures Det(cs[p := u], rows) == Lin(s, Det(cs[p := v], rows), t, Det(cs[p := w], rows))
    decreases |cs|
  {
    var fu, fv, fw := Terms(cs[p := u], rows), Terms(cs[p := v], rows), Terms(cs[p := w], rows);
    forall k | 0 <= k < |rows| ensures fu(k) == Lin(s, fv(k), t, fw(k)) {
      if p > 0 { DetLinear(cs[1..], p - 1, s, v, t, w, u, Drop(rows, k)); }
      TermLinear(cs, p, s, v, t, w, u, rows, k);
    }
    SumLinear(|rows|, s, fv, t, fw, fu);
  }

  // ----- exchanging two columns -----

  ghost function Quad(g: real, a: real, b: real, m: real): real { g * a * b * m }

  /** The sign of taking row i for the first column and row j for the second. */
  ghost function PairSign(i: int, j: int): real {
    if j < i then Sign(i) * Sign(j) else -Sign(i) * Sign(j)
  }

  ghost function DropPair(rows: seq<int>, i: int, j: int): seq<int>
    requires 0 <= i < |rows| && 0 <= j < |rows| && i != j
  {
    if j < i then Drop(Drop(rows, i), j) else Drop(Drop(rows, j), i)
  }

  /** The expansion along the first two columns a and b at once. */
  ghost function PairTerms(a: Vector, b: Vector, rest: seq<Vector>, rows: seq<int>): (int, int) -> real {
    (i, j) =>
      if 0 <= i < |rows| && 0 <= j < |rows| && i != j
      then Quad(PairSign(i, j), a(rows[i]), b(rows[j]), Det(rest, DropPair(rows, i, j)))
      else 0.0
  }

  lemma QuadIsNested(i: int, j: int, a: real, b: real, m: real)
    requires i != j
    ensures Quad(PairSign(i, j), a, b, m) == Product(Sign(i), a, Product(Sign(if j < i then j else j - 1), b, m))
  {
    assert j > i ==> Sign(j - 1) == -Sign(j);
  }

  lemma QuadFlips(i: int, j: int, a: real, b: real, m: real)
    requires i != j
    ensures Quad(PairSign(i, j), a, b, m) == -Quad(PairSign(j, i), b, a, m)
  {
  }

  /** A sum with a hole at place p, each summand a multiple of the f without the hole. */
  lemma {:induction false} SumProductSkip(n: nat, p: int, x: real, y: real, f: Vector, g: Vector)
    requires 0 <= p < n
    requires g(p) == 0.0
    requires forall l :: 0 <= l < n - 1 ==> g(Skip(p, l)) == Product(x, y, f(l))
    ensures Sum(n, g) == Product(x, y, Sum(n - 1, f))
  {
    var h := l => Product(x, y, f(l));
    SumSkip(n, p, h, g);
    SumProduct(n - 1, x, y, f, h);
  }

  lemma {:induction false} SumProduct(n: nat, x: real, y: real, f: Vector, h: Vector)
    requires forall i :: 0 <= i < n ==> h(i) == Product(x, y, f(i))
    ensures Sum(n, h) == Product(x, y, Sum(n, f))
  {
    if n > 0 { SumProduct(n - 1, x, y, f, h); }
  }

  lemma DropDrop(rows: seq<int>, i: int, l: int)
    requires 0 <= i < |rows| && 0 <= l < |rows| - 1
    ensures Drop(rows, i)[l] == rows[Skip(i, l)]
    ensures Drop(Drop(rows, i), l) == DropPair(rows, i, Skip(i, l))
  {
    if l >= i {
      var rest := rows[..i] + rows[i + 1..l + 1] + rows[l + 2..];
      assert Drop(Drop(rows, i), l) == rest;
      assert Drop(Drop(rows, l + 1), i) == rest;
    }
  }

  lemma NestedTerm(a: Vector, b: Vector, rest: seq<Vector>, rows: seq<int>, i: int, l: int)
    requires 0 <= i < |rows| && 0 <= l < |rows| - 1
    ensures Row(PairTerms(a, b, rest, rows), i)(Skip(i, l))
         == Product(Sign(i), a(rows[i]), Terms([b] + rest, Drop(rows, i))(l))
  {
    hide Product;
    var j := Skip(i, l);
    assert ([b] + rest)[1..] == rest;
    DropDrop(rows, i, l);
    QuadIsNested(i, j, a(rows[i]), b(rows[j]), Det(rest, DropPair(rows, i, j)));
  }

  lemma DetUnfold(cs: seq<Vector>, rows: seq<int>)
    requires cs != []
    ensures Det(cs, rows) == Sum(|rows|, Terms(cs, rows))
  {
  }

  lemma TermTop(a: Vector, b: Vector, rest: seq<Vector>, rows: seq<int>, i: int)
    requires 0 <= i < |rows|
    ensures Terms([a, b] + rest, rows)(i)
         == Product(Sign(i), a(rows[i]), Sum(|rows| - 1, Terms([b] + rest, Drop(rows, i))))
  {
    hide *;
    assert |Drop(rows, i)| == |rows| - 1;
    TermIs([a, b] + rest, rows, i);
    DetUnfold([b] + rest, Drop(rows, i));
    assert ([a, b] + rest)[1..] == [b] + rest;
  }

  lemma TermPair(a: Vector, b: Vector, rest: seq<Vector>, rows: seq<int>, i: int, g: Vector)
    requires 0 <= i < |rows|
    requires g == Row(PairTerms(a, b, rest, rows), i)
    ensures Terms([a, b] + rest, rows)(i) == Sum(|rows|, g)
  {
    hide Product, Det, Terms, Sum, Sign;
    var f := Terms([b] + rest, Drop(rows, i));
    TermTop(a, b, rest, rows, i);
    forall l | 0 <= l < |rows| - 1 ensures g(Skip(i, l)) == Product(Sign(i), a(rows[i]), f(l)) {
      NestedTerm(a, b, rest, rows, i, l);
    }
    SumProductSkip(|rows|, i, Sign(i), a(rows[i]), f, g);
  }

  lemma PairTermsFlip(a: Vector, b: Vector, rest: seq<Vector>, rows: seq<int>, i: int, j: int)
    ensures PairTerms(b, a, rest, rows)(i, j) == -PairTerms(a, b, rest, rows)(j, i)
  {
    if 0 <= i < |rows| && 0 <= j < |rows| && i != j {
      QuadFlips(i, j, b(rows[i]), a(rows[j]), Det(rest, DropPair(rows, i, j)));
    }
  }

  /** The expansion along b then a, at row i of b, is minus the i-th column of the expansion along a then b. */
  lemma TermFlip(a: Vector, b: Vector, rest: seq<Vector>, rows: seq<int>, i: int, c: Vector)
    requires 0 <= i < |rows|
    requires c == Column(PairTerms(a, b, rest, rows), i)
    ensures Terms([b, a] + rest, rows)(i) == -Sum(|rows|, c)
  {
    var g := Row(PairTerms(b, a, rest, rows), i);
    TermPair(b, a, rest, rows, i, g);
    forall j | 0 <= j < |rows| ensures g(j) == Lin(-1.0, c(j), 0.0, c(j)) { PairTermsFlip(a, b, rest, rows, i, j); }
    SumLinear(|rows|, -1.0, c, 0.0, c, g);
  }

  /** Exchanging the first two columns flips the sign. */
  lemma DetSwapTop(a: Vector, b: Vector, rest: seq<Vector>, rows: seq<int>)
    ensures Det([b, a] + rest, rows) == -Det([a, b] + rest, rows)
  {
    var n, F := |rows|, PairTerms(a, b, rest, rows);
    var f, g := Terms([a, b] + rest, rows), Terms([b, a] + rest, rows);
    var c := j => Sum(n, Column(F, j));
    forall i | 0 <= i < n ensures f(i) == Sum(n, Row(F, i)) { TermPair(a, b, rest, rows, i, Row(F, i)); }
    SumSwap(n, n, F, f, c);
    forall i | 0 <= i < n ensures g(i) == Lin(-1.0, c(i), 0.0, c(i)) { TermFlip(a, b, rest, rows, i, Column(F, i)); }
    SumLinear(n, -1.0, c, 0.0, c, g);
  }

  ghost function Swapped(cs: seq<Vector>, p: int): (ds: seq<Vector>)
    requires 0 <= p < |cs| - 1
    ensures |ds| == |cs|
  {
    cs[p := cs[p + 1]][p + 1 := cs[p]]
  }

  lemma ProductNegates(g: real, a: real, m: real)
    ensures Product(g, a, -m) == -Product(g, a, m)
  {
  }

  lemma TermNegates(cs: seq<Vector>, ds: seq<Vector>, rows: seq<int>, k: int)
    requires cs != [] && ds != [] && 0 <= k < |rows|
    requires ds[0] == cs[0]
    requires Det(ds[1..], Drop(rows, k)) == -Det(cs[1..], Drop(rows, k))
    ensures Terms(ds, rows)(k) == -Terms(cs, rows)(k)
  {
    hide Product, Det, Terms;
    TermIs(cs, rows, k);
    TermIs(ds, rows, k);
    ProductNegates(Sign(k), cs[0](rows[k]), Det(cs[1..], Drop(rows, k)));
  }

  lemma SwappedHead(cs: seq<Vector>)
    requires |cs| >= 2
    ensures cs == [cs[0], cs[1]] + cs[2..] && Swapped(cs, 0) == [cs[1], cs[0]] + cs[2..]
  {
    var ds := [cs[1], cs[0]] + cs[2..];
    assert forall i :: 2 <= i < |cs| ==> Swapped(cs, 0)[i] == ds[i];
  }

  lemma SwappedTail(cs: seq<Vector>, p: int)
    requires 0 < p < |cs| - 1
    ensures Swapped(cs, p)[0] == cs[0] && Swapped(cs, p)[1..] == Swapped(cs[1..], p - 1)
  {
  }

  /** Exchanging two neighbouring columns flips the sign. */
  lemma {:induction false} DetSwap(cs: seq<Vector>, p: int, rows: seq<int>)
    requires 0 <= p < |cs| - 1
    ensures Det(Swapped(cs, p), rows) == -Det(cs, rows)
    decreases |cs|
  {
    hide Product, Det, Terms, Sum, Sign, Swapped;
    if p == 0 {
      DetSwapTop(cs[0], cs[1], cs[2..], rows);
      SwappedHead(cs);
    } else {
      SwappedTail(cs, p);
      var f, g := Terms(cs, rows), Terms(Swapped(cs, p), rows);
      DetUnfold(cs, rows);
      DetUnfold(Swapped(cs, p), rows);
      forall k | 0 <= k < |rows| ensures g(k) == Lin(-1.0, f(k), 0.0, f(k)) {
        DetSwap(cs[1..], p - 1, Drop(rows, k));
        TermNegates(cs, Swapped(cs, p), rows, k);
      }
      SumLinear(|rows|, -1.0, f, 0.0, f, g);
    }
  }

  /** Two equal columns make the determinant vanish. */
  lemma {:induction false} DetTwins(cs: seq<Vector>, p: int, q: int, rows: seq<int>)
    requires 0 <= p < q < |cs|
    requires forall k :: 0 <= k < |rows| ==> cs[p](rows[k]) == cs[q](rows[k])
    ensures Det(cs, rows) == 0.0
    decreases q
  {
    DetSwap(cs, q - 1, rows);
    if q == p + 1 {
      DetExt(cs, Swapped(cs, p), rows);
    } else {
      DetTwins(Swapped(cs, q - 1), p, q - 1, rows);
    }
  }

  // ----- Cramer's rule -----

  ghost function BlendTerms(s: Vector, cs: seq<Vector>, r: int): Vector {
    i => if 0 <= i < |cs| then s(i) * cs[i](r) else 0.0
  }

  /** The combination of the first m columns with the weights s. */
  ghost function Blend(s: Vector, cs: seq<Vector>, m: nat): Vector {
    r => Sum(m, BlendTerms(s, cs, r))
  }

  lemma BlendStep(s: Vector, cs: seq<Vector>, m: nat, p: int, rows: seq<int>)
    requires m < |cs| && 0 <= p < |cs|
    ensures Det(cs[p := Blend(s, cs, m + 1)], rows)
         == Lin(1.0, Det(cs[p := Blend(s, cs, m)], rows), s(m), Det(cs[p := cs[m]], rows))
  {
    hide Det;
    var u, v, w := Blend(s, cs, m + 1), Blend(s, cs, m), cs[m];
    forall k | 0 <= k < |rows| ensures u(rows[k]) == Lin(1.0, v(rows[k]), s(m), w(rows[k])) {
    }
    DetLinear(cs, p, 1.0, v, s(m), w, u, rows);
  }

  /** Repeating another column in place p leaves no volume. */
  lemma DetRepeat(cs: seq<Vector>, p: int, q: int, rows: seq<int>)
    requires 0 <= p < |cs| && 0 <= q < |cs|
    ensures Det(cs[p := cs[q]], rows) == if p == q then Det(cs, rows) else 0.0
  {
    hide Det;
    if p == q {
      assert cs[p := cs[q]] == cs;
    } else {
      DetTwins(cs[p := cs[q]], if p < q then p else q, if p < q then q else p, rows);
    }
  }

  /** Replacing column p by a combination of the columns scales the determinant by the weight of column p. */
  lemma {:induction false} DetBlend(s: Vector, cs: seq<Vector>, m: nat, p: int, rows: seq<int>)
    requires m <= |cs| && 0 <= p < |cs|
    ensures Det(cs[p := Blend(s, cs, m)], rows) == if p < m then s(p) * Det(cs, rows) else 0.0
  {
    hide Det;
    if m == 0 {
      DetLinear(cs, p, 0.0, cs[p], 0.0, cs[p], Blend(s, cs, 0), rows);
    } else {
      DetBlend(s, cs, m - 1, p, rows);
      BlendStep(s, cs, m - 1, p, rows);
      DetRepeat(cs, p, m - 1, rows);
    }
  }

  // ----- elimination of a row -----

  lemma ProductZero(g: real, a: real)
    ensures Product(g, 0.0, a) == 0.0 && Product(g, a, 0.0) == 0.0
  {
  }

  /** A row of zeros makes a square determinant vanish. */
  lemma {:induction false} DetZeroRow(cs: seq<Vector>, rows: seq<int>, q: int)
    requires |cs| == |rows| && 0 <= q < |rows|
    requires forall i :: 0 <= i < |cs| ==> cs[i](rows[q]) == 0.0
    ensures Det(cs, rows) == 0.0
    decreases |cs|
  {
    hide Product, Terms;
    var f := Terms(cs, rows);
    forall k | 0 <= k < |rows| ensures f(k) == 0.0 {
      var minor := Drop(rows, k);
      TermIs(cs, rows, k);
      ProductZero(Sign(k), cs[0](rows[k]));
      ProductZero(Sign(k), Det(cs[1..], minor));
      if k != q {
        var q' := if q < k then q else q - 1;
        assert minor[q'] == rows[q];
        DetZeroRow(cs[1..], minor, q');
      }
    }
    SumZero(|rows|, f);
  }

  /** ds is cs with multiples of the first column taken off the columns 1 to m - 1. */
  ghost predicate Reduced(cs: seq<Vector>, ds: seq<Vector>, t: Vector, m: nat, rows: seq<int>) {
    && |cs| == |ds| > 0
    && ds[0] == cs[0]
    && (forall i :: m <= i < |cs| ==> ds[i] == cs[i])
    && (forall i, k :: 0 < i < m && i < |cs| && 0 <= k < |rows| ==>
         ds[i](rows[k]) == Lin(1.0, cs[i](rows[k]), t(i), cs[0](rows[k])))
  }

  /** Taking multiples of the first column off the others does not change the determinant. */
  lemma {:induction false} DetReduced(cs: seq<Vector>, ds: seq<Vector>, t: Vector, m: nat, rows: seq<int>)
    requires 1 <= m <= |cs| && Reduced(cs, ds, t, m, rows)
    ensures Det(ds, rows) == Det(cs, rows)
    decreases m
  {
    hide Det, Lin;
    if m == 1 {
      assert ds == cs;
    } else {
      var p := m - 1;
      var es := ds[p := cs[p]];
      DetReduced(cs, es, t, p, rows);
      assert es[p := ds[p]] == ds && es[p := cs[p]] == es;
      DetLinear(es, p, 1.0, cs[p], t(p), cs[0], ds[p], rows);
      assert es[0] == cs[0];
      DetRepeat(es, p, 0, rows);
      LinOne(Det(es, rows), t(p));
    }
  }

  lemma LinOne(a: real, t: real)
    ensures Lin(1.0, a, t, 0.0) == a
  {
  }

  /** When only the first column is nonzero in the first row, the determinant splits. */
  lemma DetSplits(ds: seq<Vector>, rows: seq<int>)
    requires |ds| == |rows| > 0
    requires forall i :: 0 < i < |ds| ==> ds[i](rows[0]) == 0.0
    ensures Det(ds, rows) == Times(ds[0](rows[0]), Det(ds[1..], rows[1..]))
  {
    hide Product, Terms, Det;
    var f := Terms(ds, rows);
    forall k | 0 < k < |rows| ensures f(k) == 0.0 {
      TermIs(ds, rows, k);
      assert Drop(rows, k)[0] == rows[0];
      DetZeroRow(ds[1..], Drop(rows, k), 0);
      ProductZero(Sign(k), ds[0](rows[k]));
    }
    SumOne(|rows|, 0, f);
    DetUnfold(ds, rows);
    TermIs(ds, rows, 0);
    assert Drop(rows, 0) == rows[1..];
    ProductFirst(ds[0](rows[0]), Det(ds[1..], rows[1..]));
  }

  lemma ProductFirst(a: real, m: real)
    ensures Product(Sign(0), a, m) == Times(a, m)
  {
  }
}
