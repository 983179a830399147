/** Finite sums of reals indexed by an initial segment of the integers.
    Every law takes its summands as functions related point by point, so that callers
    never depend on two lambda expressions being recognised as equal. */
module Sums {

  type Vector = int -> real

  ghost function Sum(n: nat, f: Vector): real {
    if n == 0 then 0.0 else Sum(n - 1, f) + f(n - 1)
  }

  lemma {:induction false} SumExt(n: nat, f: Vector, g: Vector)
    requires forall i :: 0 <= i < n ==> f(i) == g(i)
    ensures Sum(n, f) == Sum(n, g)
  {
    if n > 0 { SumExt(n - 1, f, g); }
  }

  lemma {:induction false} SumZero(n: nat, f: Vector)
    requires forall i :: 0 <= i < n ==> f(i) == 0.0
    ensures Sum(n, f) == 0.0
  {
    if n > 0 { SumZero(n - 1, f); }
  }

  /** A linear combination, kept behind a name so that its users reason without multiplication. */
  ghost function Lin(s: real, a: real, t: real, b: real): real { s * a + t * b }

  ghost function Times(a: real, b: real): real { a * b }

  lemma TimesIs(a: real, b: real)
    ensures Times(a, b) == a * b
  {
  }

  lemma TimesAssociates(a: real, b: real, c: real)
    ensures Times(a, Times(b, c)) == Times(Times(a, b), c)
  {
  }

  /** Sum of a linear combination. */
  lemma {:induction false} SumLinear(n: nat, s: real, f: Vector, t: real, g: Vector, h: Vector)
    requires forall i :: 0 <= i < n ==> h(i) == Lin(s, f(i), t, g(i))
    ensures Sum(n, h) == Lin(s, Sum(n, f), t, Sum(n, g))
  {
    if n > 0 { SumLinear(n - 1, s, f, t, g, h); }
  }

  /** Only the summand at p differs from zero. */
  lemma {:induction false} SumOne(n: nat, p: int, f: Vector)
    requires 0 <= p < n
    requires forall i :: 0 <= i < n && i != p ==> f(i) == 0.0
    ensures Sum(n, f) == f(p)
  {
    if p == n - 1 { SumZero(n - 1, f); } else { SumOne(n - 1, p, f); }
  }

  /** g is f with the summand at p taken out. */
  lemma {:induction false} SumSplit(n: nat, p: int, f: Vector, g: Vector)
    requires 0 <= p < n
    requires g(p) == 0.0
    requires forall i :: 0 <= i < n && i != p ==> g(i) == f(i)
    ensures Sum(n, f) == f(p) + Sum(n, g)
  {
    if p == n - 1 { SumExt(n - 1, f, g); } else { SumSplit(n - 1, p, f, g); }
  }

  lemma {:induction false} SumNonNegative(n: nat, f: Vector)
    requires forall i :: 0 <= i < n ==> f(i) >= 0.0
    ensures Sum(n, f) >= 0.0
    ensures forall i :: 0 <= i < n ==> f(i) <= Sum(n, f)
  {
    if n > 0 { SumNonNegative(n - 1, f); }
  }

  ghost function Row(F: (int, int) -> real, i: int): Vector { j => F(i, j) }
  ghost function Column(F: (int, int) -> real, j: int): Vector { i => F(i, j) }

  /** The two orders of a double sum agree. */
  lemma {:induction false} SumSwap(n: nat, m: nat, F: (int, int) -> real, a: Vector, b: Vector)
    requires forall i :: 0 <= i < n ==> a(i) == Sum(m, Row(F, i))
    requires forall j :: 0 <= j < m ==> b(j) == Sum(n, Column(F, j))
    ensures Sum(n, a) == Sum(m, b)
  {
    if n == 0 {
      SumZero(m, b);
    } else {
      var b' := j => Sum(n - 1, Column(F, j));
      SumSwap(n - 1, m, F, a, b');
      SumLinear(m, 1.0, b', 1.0, Row(F, n - 1), b);
    }
  }

  /** The l-th place of a range when place p is left out. */
  function Skip(p: int, l: int): int { if l < p then l else l + 1 }

  /** A sum over n - 1 items spread over n places, leaving a zero at place p. */
  lemma {:induction false} SumSkip(n: nat, p: int, f: Vector, g: Vector)
    requires 0 <= p < n
    requires g(p) == 0.0
    requires forall l :: 0 <= l < n - 1 ==> g(Skip(p, l)) == f(l)
    ensures Sum(n, g) == Sum(n - 1, f)
  {
    if p == n - 1 {
      forall i | 0 <= i < n - 1 ensures g(i) == f(i) { assert Skip(p, i) == i; }
      SumExt(n - 1, f, g);
    } else {
      assert Skip(p, n - 2) == n - 1;
      SumSkip(n - 1, p, f, g);
    }
  }

  /** Taking the first summand out instead of the last. */
  lemma {:induction false} SumFront(n: nat, f: Vector, g: Vector)
    requires forall i :: 0 <= i < n ==> g(i) == f(i + 1)
    ensures Sum(n + 1, f) == f(0) + Sum(n, g)
  {
    if n > 0 { SumFront(n - 1, f, g); }
  }
}
