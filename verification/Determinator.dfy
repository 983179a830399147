/** The gated recursive determinant of cppext/determinator.cpp: columns and rows are switched
    off in shared flag arrays instead of being copied into smaller matrices. */
module Determinator {
  import opened Sums
  import opened Determinant

  /** The indices below n whose flag is off, highest first: the order in which the loops meet them. */
  ghost function Open(flags: seq<bool>, n: nat): seq<int>
    requires n <= |flags|
  {
    if n == 0 then [] else if flags[n - 1] then Open(flags, n - 1) else [n - 1] + Open(flags, n - 1)
  }

  lemma {:induction false} OpenRange(flags: seq<bool>, n: nat, k: int)
    requires n <= |flags| && 0 <= k < |Open(flags, n)|
    ensures 0 <= Open(flags, n)[k] < n && !flags[Open(flags, n)[k]]
  {
    if flags[n - 1] {
      OpenRange(flags, n - 1, k);
    } else if k > 0 {
      OpenRange(flags, n - 1, k - 1);
      assert Open(flags, n)[k] == Open(flags, n - 1)[k - 1];
    }
  }

  /** Switching off the k-th open index drops it from the list. */
  lemma {:induction false} OpenDrop(flags: seq<bool>, n: nat, k: int, x: int)
    requires n <= |flags| && 0 <= k < |Open(flags, n)| && x == Open(flags, n)[k]
    ensures 0 <= x < n && Open(flags[x := true], n) == Drop(Open(flags, n), k)
  {
    OpenRange(flags, n, k);
    var rest := Open(flags, n - 1);
    if flags[n - 1] {
      OpenDrop(flags, n - 1, k, x);
    } else if k == 0 {
      OpenSame(flags, flags[x := true], n - 1);
      assert Drop(Open(flags, n), 0) == rest;
    } else {
      OpenDrop(flags, n - 1, k - 1, x);
      assert Drop([n - 1] + rest, k) == [n - 1] + Drop(rest, k - 1);
    }
  }

  lemma {:induction false} OpenSame(flags: seq<bool>, gates: seq<bool>, n: nat)
    requires n <= |flags| && n <= |gates|
    requires forall i :: 0 <= i < n ==> flags[i] == gates[i]
    ensures Open(flags, n) == Open(gates, n)
  {
    if n > 0 { OpenSame(flags, gates, n - 1); }
  }

  /** One step of a downward walk over the flags that has k of the open rows behind it. */
  lemma OpenNext(flags: seq<bool>, rows: seq<int>, rw: nat, k: nat)
    requires rw < |flags| && k <= |rows|
    requires rows[k..] == Open(flags, rw + 1)
    ensures flags[rw] ==> rows[k..] == Open(flags, rw)
    ensures !flags[rw] ==> k < |rows| && rows[k] == rw && rows[k + 1..] == Open(flags, rw)
  {
  }

  lemma {:induction false} OpenHas(flags: seq<bool>, n: nat, i: nat) returns (k: nat)
    requires i < n <= |flags| && !flags[i]
    ensures k < |Open(flags, n)| && Open(flags, n)[k] == i
  {
    if i == n - 1 {
      k := 0;
    } else {
      k := OpenHas(flags, n - 1, i);
      if !flags[n - 1] { k := k + 1; }
    }
  }

  ghost function SumOver(s: seq<int>, f: Vector): real {
    if s == [] then 0.0 else f(s[0]) + SumOver(s[1..], f)
  }

  lemma {:induction false} SumOverList(s: seq<int>, f: Vector, listed: Vector)
    requires forall k :: 0 <= k < |s| ==> listed(k) == f(s[k])
    ensures SumOver(s, f) == Sum(|s|, listed)
  {
    if s != [] {
      var shifted := k => listed(k + 1);
      SumOverList(s[1..], f, shifted);
      SumFront(|s| - 1, listed, shifted);
    }
  }

  /** A sum that skips the switched-off indices is a sum over the list of open ones. */
  lemma {:induction false} OpenSum(flags: seq<bool>, n: nat, masked: Vector)
    requires n <= |flags|
    requires forall i :: 0 <= i < n && flags[i] ==> masked(i) == 0.0
    ensures Sum(n, masked) == SumOver(Open(flags, n), masked)
  {
    if n > 0 {
      OpenSum(flags, n - 1, masked);
      assert ([n - 1] + Open(flags, n - 1))[1..] == Open(flags, n - 1);
    }
  }

  /** The numbers a determinant is computed from: X[column][row], and Y in place of column `which` when yish. */
  datatype Problem = Problem(X: seq<seq<real>>, Y: seq<real>, which: int, yish: bool)

  ghost function Entry(p: Problem, c: int): Vector {
    r => if p.yish && p.which == c then (if 0 <= r < |p.Y| then p.Y[r] else 0.0)
         else if 0 <= c < |p.X| && 0 <= r < |p.X[c]| then p.X[c][r] else 0.0
  }

  ghost function Entries(p: Problem, cols: seq<int>): (cs: seq<Vector>)
    ensures |cs| == |cols|
    ensures forall i :: 0 <= i < |cs| ==> cs[i] == Entry(p, cols[i])
  {
    seq(|cols|, i requires 0 <= i < |cols| => Entry(p, cols[i]))
  }

  lemma EntriesFront(p: Problem, cols: seq<int>)
    requires cols != []
    ensures Entries(p, cols) == [Entry(p, cols[0])] + Entries(p, Drop(cols, 0))
  {
    hide Entry;
  }

  /** The determinant of the rows and columns that are not ignored. */
  ghost function Cofactor(p: Problem, flags: seq<bool>): real {
    Det(Entries(p, Open(flags, |flags|)), Open(flags, |flags|))
  }

  ghost function Grid(m: array2<real>): (g: seq<seq<real>>)
    reads m
    ensures |g| == m.Length0
    ensures forall i :: 0 <= i < |g| ==> |g[i]| == m.Length1
    ensures forall i, j :: 0 <= i < |g| && 0 <= j < m.Length1 ==> g[i][j] == m[i, j]
  {
    seq(m.Length0, i requires 0 <= i < m.Length0 reads m =>
      seq(m.Length1, j requires 0 <= j < m.Length1 reads m => m[i, j]))
  }

  class DeterminatorCore {
    const size: nat
    const rower: array<bool>
    const columner: array<bool>
    const ignorer: array<bool>
    const Y: array<real>
    const X: array2<real>
    var which: nat
    var yish: bool

    ghost predicate Valid() {
      && rower.Length == columner.Length == ignorer.Length == size
      && Y.Length == X.Length0 == X.Length1 == size
      && rower != columner && rower != ignorer && columner != ignorer
    }

    ghost function Data(): Problem
      reads this, X, Y
    {
      Problem(Grid(X), Y[..], which, yish)
    }

    constructor (size: nat, rower: array<bool>, columner: array<bool>, ignorer: array<bool>, ys: array<real>,
        xs: array2<real>)
      requires rower.Length == columner.Length == ignorer.Length == size
      requires ys.Length == xs.Length0 == xs.Length1 == size
      requires rower != columner && rower != ignorer && columner != ignorer
      ensures Valid()
      ensures this.size == size && this.ignorer == ignorer && this.X == xs && this.Y == ys
      ensures this.rower == rower && this.columner == columner
    {
      this.size, this.rower, this.columner, this.ignorer := size, rower, columner, ignorer;
      Y, X := ys, xs;
    }

    /** The determinant of the usable columns over the usable rows. */
    ghost function Usable(): real
      requires Valid()
      reads this, X, Y, rower, columner
    {
      Det(Entries(Data(), Open(columner[..], size)), Open(rower[..], size))
    }

    /** The columns of the expansion along cl, once cl itself is switched off. */
    ghost predicate Expanding(cl: nat, cs: seq<Vector>, rows: seq<int>)
      requires Valid()
      reads this, X, Y, rower, columner
    {
      cs == [Entry(Data(), cl)] + Entries(Data(), Open(columner[..], size)) && rows == Open(rower[..], size)
    }

    /** The product for row rw, the k-th usable one, in the expansion along column cl. */
    method Term(cl: nat, rw: nat, ghost cs: seq<Vector>, ghost rows: seq<int>, ghost k: nat) returns (term: real)
      requires Valid() && cl < size && rw < size && Expanding(cl, cs, rows)
      requires k < |rows| && rows[k] == rw
      modifies rower, columner
      ensures rower[..] == old(rower[..]) && columner[..] == old(columner[..])
      ensures (if Odd(k) then -term else term) == Terms(cs, rows)(k)
      decreases |Open(columner[..], size)|, 1
    {
      hide Terms, Product, Det, Sum, Sign;
      ghost var gates := rower[..];
      ghost var minors := Entries(Data(), Open(columner[..], size));
      if yish && which == cl {
        term := Y[rw];
      } else {
        term := X[cl, rw];
      }
      assert term == Entry(Data(), cl)(rw);
      OpenDrop(gates, size, k, rw);
      rower[rw] := true;
      assert rower[..] == gates[rw := true];
      var minor := Descend();
      rower[rw] := false;
      OpenRange(gates, size, k);
      assert rower[..] == gates;
      TermIs(cs, rows, k);
      assert cs[1..] == minors;
      ghost var entry := term;
      term := term * minor;
      SignedProduct(k, entry, minor, term);
    }

    /** The alternating sum over the usable rows for column cl, which is already switched off. */
    method SumRows(cl: nat, ghost cs: seq<Vector>, ghost rows: seq<int>) returns (summer: real)
      requires Valid() && cl < size && Expanding(cl, cs, rows)
      modifies rower, columner
      ensures rower[..] == old(rower[..]) && columner[..] == old(columner[..])
      ensures summer == Det(cs, rows)
      decreases |Open(columner[..], size)|, 2
    {
      hide Terms, Product, Sign, Entry;
      ghost var flags, terms := rower[..], Terms(cs, rows);
      summer := 0.0;
      var flipper := false;
      ghost var k := 0;
      var rw := size;
      while rw > 0
        invariant 0 <= rw <= size
        invariant rower[..] == flags && columner[..] == old(columner[..])
        invariant 0 <= k <= |rows| && rows[k..] == Open(flags, rw)
        invariant flipper == Odd(k)
        invariant summer == Sum(k, terms)
      {
        rw := rw - 1;
        OpenNext(flags, rows, rw, k);
        if !rower[rw] {
          var term := Term(cl, rw, cs, rows, k);
          summer := summer + if flipper then -term else term;
          OddNext(k);
          flipper := !flipper;
          k := k + 1;
        }
      }
    }

    /** Expands along the highest usable column, and leaves both flag arrays as they were. */
    method Descend() returns (d: real)
      requires Valid()
      modifies rower, columner
      ensures rower[..] == old(rower[..]) && columner[..] == old(columner[..])
      ensures d == Usable()
      decreases |Open(columner[..], size)|, 0
    {
      hide Terms, Product, Det, Sum, Entry;
      ghost var gates := columner[..];
      ghost var cols := Open(gates, size);
      var cl := size;
      while cl > 0
        invariant 0 <= cl <= size
        invariant cols == Open(gates, cl)
      {
        cl := cl - 1;
        if !columner[cl] {
          OpenDrop(gates, size, 0, cl);
          ghost var cs := Entries(Data(), cols);
          EntriesFront(Data(), cols);
          columner[cl] := true;
          assert columner[..] == gates[cl := true];
          d := SumRows(cl, cs, Open(rower[..], size));
          columner[cl] := false;
          assert columner[..] == gates;
          return;
        }
      }
      DetNone(Open(rower[..], size));
      return 1.0;
    }

    /** The determinant of the submatrix that is not ignored, with column `which` replaced by Y on request. */
    method Compute(which: nat, yish: bool) returns (d: real)
      requires Valid()
      modifies this`which, this`yish, rower, columner
      ensures this.which == which && this.yish == yish
      ensures rower[..] == columner[..] == ignorer[..]
      ensures d == Cofactor(Problem(Grid(X), Y[..], which, yish), ignorer[..])
    {
      var rw := size;
      while rw > 0
        invariant 0 <= rw <= size
        invariant rower[rw..] == columner[rw..] == ignorer[rw..]
        invariant ignorer[..] == old(ignorer[..])
      {
        rw := rw - 1;
        rower[rw] := ignorer[rw];
        columner[rw] := rower[rw];
      }
      this.which := which;
      this.yish := yish;
      d := Descend();
    }
  }

  lemma DetNone(rows: seq<int>)
    ensures Det([], rows) == 1.0
  {
  }

  lemma OddNext(k: int)
    ensures Odd(k + 1) == !Odd(k)
  {
  }

  lemma SignedProduct(k: nat, a: real, m: real, p: real)
    requires p == a * m
    ensures Product(Sign(k), a, m) == if Odd(k) then -p else p
  {
  }

  lemma {:induction false} OpenDescends(flags: seq<bool>, n: nat, i: int, j: int)
    requires n <= |flags| && 0 <= i < j < |Open(flags, n)|
    ensures Open(flags, n)[i] > Open(flags, n)[j]
  {
    var rest := Open(flags, n - 1);
    if flags[n - 1] {
      OpenDescends(flags, n - 1, i, j);
    } else {
      assert Open(flags, n)[j] == rest[j - 1];
      if i == 0 {
        OpenRange(flags, n - 1, j - 1);
      } else {
        assert Open(flags, n)[i] == rest[i - 1];
        OpenDescends(flags, n - 1, i - 1, j - 1);
      }
    }
  }

  /** Row r of the system of equations X * s over the columns that are not ignored. */
  ghost function Equation(X: seq<seq<real>>, s: Vector, flags: seq<bool>, r: int): Vector {
    c => if 0 <= c < |X| && c < |flags| && !flags[c] && 0 <= r < |X[c]| then s(c) * X[c][r] else 0.0
  }

  ghost predicate Square(p: Problem, flags: seq<bool>) {
    |p.X| == |p.Y| == |flags| && forall c :: 0 <= c < |p.X| ==> |p.X[c]| == |flags|
  }

  /** s solves X * s = Y on the rows and columns that are not ignored. */
  ghost predicate Solves(p: Problem, flags: seq<bool>, s: Vector)
    requires Square(p, flags)
  {
    forall r :: 0 <= r < |flags| && !flags[r] ==> p.Y[r] == Sum(|flags|, Equation(p.X, s, flags, r))
  }

  /** Cramer's rule: putting Y in place of a column multiplies the determinant by that column's coefficient. */
  lemma CramersRule(p: Problem, flags: seq<bool>, s: Vector)
    requires Square(p, flags) && Solves(p, flags, s)
    requires 0 <= p.which < |flags| && !flags[p.which]
    ensures Cofactor(p.(yish := true), flags) == s(p.which) * Cofactor(p.(yish := false), flags)
  {
    hide Det, Blend, BlendTerms, Entry, Equation, Sum, Open;
    var open := Open(flags, |flags|);
    var k := OpenHas(flags, |flags|, p.which);
    var cs, ds := Entries(p.(yish := false), open), Entries(p.(yish := true), open);
    var t := i => if 0 <= i < |open| then s(open[i]) else 0.0;
    var es := cs[k := Blend(t, cs, |cs|)];
    forall c, r | 0 <= c < |ds| && 0 <= r < |open| ensures ds[c](open[r]) == es[c](open[r]) {
      if c == k {
        CramersColumn(p, flags, s, t, r);
      } else {
        CramersOther(p, flags, k, c, open[r]);
      }
    }
    DetExt(ds, es, open);
    DetBlend(t, cs, |cs|, k, open);
  }

  lemma CramersOther(p: Problem, flags: seq<bool>, k: nat, c: nat, r: int)
    requires k < |Open(flags, |flags|)| && c < |Open(flags, |flags|)| && k != c
    requires Open(flags, |flags|)[k] == p.which
    ensures Entry(p.(yish := true), Open(flags, |flags|)[c])(r) == Entry(p.(yish := false), Open(flags, |flags|)[c])(r)
  {
    OpenDescends(flags, |flags|, if k < c then k else c, if k < c then c else k);
  }

  lemma CramersTerm(p: Problem, flags: seq<bool>, s: Vector, t: Vector, r: nat, i: nat)
    requires Square(p, flags)
    requires r < |Open(flags, |flags|)| && i < |Open(flags, |flags|)| && t(i) == s(Open(flags, |flags|)[i])
    ensures var open := Open(flags, |flags|);
      BlendTerms(t, Entries(p.(yish := false), open), open[r])(i) == Equation(p.X, s, flags, open[r])(open[i])
  {
    OpenRange(flags, |flags|, r);
    OpenRange(flags, |flags|, i);
  }

  lemma CramersColumn(p: Problem, flags: seq<bool>, s: Vector, t: Vector, r: nat)
    requires Square(p, flags) && Solves(p, flags, s)
    requires 0 <= p.which < |flags| && r < |Open(flags, |flags|)|
    requires forall i :: 0 <= i < |Open(flags, |flags|)| ==> t(i) == s(Open(flags, |flags|)[i])
    ensures var open := Open(flags, |flags|);
      Entry(p.(yish := true), p.which)(open[r]) ==
      Blend(t, Entries(p.(yish := false), open), |open|)(open[r])
  {
    hide Sum, Open, BlendTerms;
    var open := Open(flags, |flags|);
    var masked, listed := Equation(p.X, s, flags, open[r]), BlendTerms(t, Entries(p.(yish := false), open), open[r]);
    OpenRange(flags, |flags|, r);
    OpenSum(flags, |flags|, masked);
    forall i | 0 <= i < |open| ensures listed(i) == masked(open[i]) { CramersTerm(p, flags, s, t, r, i); }
    SumOverList(open, masked, listed);
  }

  /** Which right side there is does not matter while it is not put in. */
  lemma CofactorPlain(p: Problem, q: Problem, flags: seq<bool>)
    requires p.X == q.X && !p.yish && !q.yish
    ensures Cofactor(p, flags) == Cofactor(q, flags)
  {
    hide Det, Open;
    var open := Open(flags, |flags|);
    DetExt(Entries(p, open), Entries(q, open), open);
  }

  /** With a determinant that is not zero, only zeros solve equations without a right side. */
  lemma NothingSolves(p: Problem, flags: seq<bool>, s: Vector, j: nat)
    requires Square(p, flags) && !p.yish && Cofactor(p, flags) != 0.0
    requires (forall r :: 0 <= r < |flags| ==> p.Y[r] == 0.0) && Solves(p, flags, s) && j < |flags| && !flags[j]
    ensures s(j) == 0.0
  {
    hide Cofactor, Sum, Equation;
    var q := p.(which := j);
    var zero: Vector := i => 0.0;
    forall r | 0 <= r < |flags| ensures Sum(|flags|, Equation(q.X, zero, flags, r)) == 0.0 {
      NoEquation(q, flags, zero, r);
    }
    CramersRule(q, flags, zero);
    CramersRule(q, flags, s);
    CofactorPlain(p, q.(yish := false), flags);
    ProductZero(s(j), Cofactor(p, flags));
  }

  lemma NoEquation(p: Problem, flags: seq<bool>, zero: Vector, r: nat)
    requires forall i :: zero(i) == 0.0
    ensures Sum(|flags|, Equation(p.X, zero, flags, r)) == 0.0
  {
    SumZero(|flags|, Equation(p.X, zero, flags, r));
  }

  lemma ProductZero(a: real, b: real)
    requires b != 0.0 && 0.0 == a * b
    ensures a == 0.0
  {
  }
}
