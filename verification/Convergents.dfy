/** Convergents of a continued fraction, expanded the way cppext/continuedfractionratiogenerator.cpp does it. */
module Convergents {
  import opened Minimath
  import opened Sums

  const MAX_WORKING_BITS := 32
  /** The 34th Fibonacci number: from this limit on, the step counter can end a run too early. */
  const LEAST_CUT_SHORT := 5702887
  /** 2 to the power -32, below which a fraction is taken for exhausted. */
  const EPSILON: real := 1.0 / 4294967296.0

  /** The last two numerators and denominators, and the fraction still to be expanded. */
  datatype State = State(f: real, h1: int, h2: int, k1: int, k2: int)

  ghost function Coefficient(f: real): int
    requires f > 0.0
  {
    (1.0 / f).Floor
  }

  ghost function Next(s: State): State
    requires s.f > 0.0
  {
    var a := Coefficient(s.f);
    State(1.0 / s.f - a as real, a * s.h1 + s.h2, s.h1, a * s.k1 + s.k2, s.k1)
  }

  /** How far q * x is from p. */
  ghost function Miss(x: real, p: int, q: int): real { q as real * x - p as real }

  ghost function Abs(a: real): real { if a < 0.0 then -a else a }

  /** The fraction not yet expanded accounts for all that the last two convergents of x lack. */
  ghost predicate Tracks(x: real, s: State) {
    && x > 0.0 && 0.0 <= s.f < 1.0
    && s.h1 >= 1 && s.h2 >= 0 && s.k1 >= 0 && s.k2 >= 0 && s.k1 + s.k2 >= 1
    && (s.h1 * s.k2 - s.h2 * s.k1 == 1 || s.h1 * s.k2 - s.h2 * s.k1 == -1)
    && Miss(x, s.h1, s.k1) + Times(s.f, Miss(x, s.h2, s.k2)) == 0.0
  }

  ghost function Start(x: real): State
    requires x > 0.0
  {
    State(1.0 / x - Coefficient(x) as real, 1, 0, Coefficient(x), 1)
  }

  lemma FloorBounds(y: real)
    ensures y.Floor as real <= y < y.Floor as real + 1.0
  {
  }

  lemma CoefficientBounds(f: real)
    requires f > 0.0
    ensures Coefficient(f) >= 0
    ensures Coefficient(f) as real <= 1.0 / f < Coefficient(f) as real + 1.0
    ensures f < 1.0 ==> Coefficient(f) >= 1
    ensures f * (1.0 / f) == 1.0
  {
  }

  lemma PositiveFactor(a: real, b: real)
    requires a > 0.0 && a * b > 0.0
    ensures b > 0.0
  {
  }

  lemma StartTracks(x: real)
    requires x > 0.0
    ensures Tracks(x, Start(x))
  {
  }

  lemma NextTracks(x: real, s: State)
    requires Tracks(x, s) && s.f > 0.0
    ensures Tracks(x, Next(s))
  {
    hide Miss, Coefficient, Times, Lin;
    CoefficientBounds(s.f);
    var a := Coefficient(s.f);
    NextIntegers(a, s);
    MissNext(x, a, s.h1, s.h2, s.k1, s.k2);
    TailNext(s.f, 1.0 / s.f, a as real, Miss(x, s.h1, s.k1), Miss(x, s.h2, s.k2));
  }

  lemma NextIntegers(a: int, s: State)
    requires a >= 1 && s.f > 0.0 && a == Coefficient(s.f)
    requires s.h1 >= 1 && s.h2 >= 0 && s.k1 >= 0 && s.k2 >= 0 && s.k1 + s.k2 >= 1
    ensures var n := Next(s);
      && n.h1 >= s.h1 + s.h2 && n.k1 >= s.k1 + s.k2 && n.h1 >= a
      && n.h1 * n.k2 - n.h2 * n.k1 == s.h2 * s.k1 - s.h1 * s.k2
  {
    hide Coefficient;
    GrowsBy(a, s.h1);
    GrowsBy(a, s.k1);
    Cross(a, s.h1, s.h2, s.k1, s.k2);
  }

  lemma GrowsBy(a: int, h: int)
    requires a >= 1 && h >= 0
    ensures a * h >= h && (h >= 1 ==> a * h >= a)
  {
  }

  lemma Cross(a: int, h1: int, h2: int, k1: int, k2: int)
    ensures (a * h1 + h2) * k1 - h1 * (a * k1 + k2) == h2 * k1 - h1 * k2
  {
  }

  lemma MissNext(x: real, a: int, h1: int, h2: int, k1: int, k2: int)
    ensures Miss(x, a * h1 + h2, a * k1 + k2) == Lin(a as real, Miss(x, h1, k1), 1.0, Miss(x, h2, k2))
  {
  }

  lemma TailNext(f: real, r: real, a: real, d1: real, d2: real)
    requires f * r == 1.0 && d1 + Times(f, d2) == 0.0
    ensures Lin(a, d1, 1.0, d2) + Times(r - a, d1) == 0.0
  {
    assert r * (d1 + f * d2) == r * d1 + (f * r) * d2;
  }

  // ----- approximation -----

  lemma AbsTimes(a: real, b: real)
    ensures Abs(Times(a, b)) == Times(Abs(a), Abs(b))
    ensures Abs(a) >= 0.0
    ensures Times(a, b) == Times(b, a)
  {
  }

  /** With one of u, v on each side of zero, u * d1 + v * d2 cannot fall below d2 when d1 = -f * d2. */
  lemma Opposed(u: int, v: int, f: real, d1: real, d2: real)
    requires 0.0 <= f && d1 + Times(f, d2) == 0.0
    requires v != 0 && ((u >= 0 && v <= 0) || (u <= 0 && v >= 0))
    ensures Abs(Lin(u as real, d1, v as real, d2)) >= Abs(d2)
  {
    hide Lin, Abs, Times;
    var w := v as real - Times(f, u as real);
    OpposedSum(u as real, v as real, f, d1, d2, w);
    OpposedWeight(u, v, f);
    AbsTimes(w, d2);
    AbsTimes(d2, w);
    AbsAtLeastOne(w);
    AtLeast(Abs(w), Abs(d2));
  }

  lemma OpposedSum(u: real, v: real, f: real, d1: real, d2: real, w: real)
    requires d1 + Times(f, d2) == 0.0 && w == v - Times(f, u)
    ensures Lin(u, d1, v, d2) == Times(w, d2)
  {
  }

  lemma OpposedWeight(u: int, v: int, f: real)
    requires 0.0 <= f
    requires v != 0 && ((u >= 0 && v <= 0) || (u <= 0 && v >= 0))
    ensures v as real - Times(f, u as real) >= 1.0 || v as real - Times(f, u as real) <= -1.0
  {
    if v > 0 { NonNegativeProduct(f, -(u as real)); } else { NonNegativeProduct(f, u as real); }
  }

  lemma AbsAtLeastOne(w: real)
    requires w >= 1.0 || w <= -1.0
    ensures Abs(w) >= 1.0
  {
  }

  lemma NonNegativeProduct(a: real, b: real)
    requires a >= 0.0 && b >= 0.0
    ensures a * b >= 0.0
  {
  }

  lemma AtLeast(a: real, b: real)
    requires a >= 1.0 && b >= 0.0
    ensures Times(a, b) >= b
  {
    NonNegativeProduct(a - 1.0, b);
  }

  lemma MissCombines(x: real, u: int, v: int, h1: int, h2: int, k1: int, k2: int)
    ensures Miss(x, u * h1 + v * h2, u * k1 + v * k2) == Lin(u as real, Miss(x, h1, k1), v as real, Miss(x, h2, k2))
  {
  }

  /** The two convergents form a basis of the integer pairs. */
  lemma Basis(s: State, p: int, q: int) returns (u: int, v: int)
    requires s.h1 * s.k2 - s.h2 * s.k1 == 1 || s.h1 * s.k2 - s.h2 * s.k1 == -1
    ensures u * s.h1 + v * s.h2 == p && u * s.k1 + v * s.k2 == q
  {
    var e := s.h1 * s.k2 - s.h2 * s.k1;
    u := e * (p * s.k2 - q * s.h2);
    v := e * (q * s.h1 - p * s.k1);
    assert u * s.h1 + v * s.h2 == e * (p * e);
    assert u * s.k1 + v * s.k2 == e * (q * e);
  }

  /** 0 < u * a + v * b < a with a, b not negative leaves u and v on different sides of zero, and v nonzero. */
  lemma Sides(u: int, v: int, a: int, b: int)
    requires a >= 0 && b >= 0 && 0 < u * a + v * b < a
    ensures v != 0 && ((u >= 0 && v <= 0) || (u <= 0 && v >= 0))
  {
  }

  /** No fraction with a smaller denominator, or a smaller numerator, misses x by less than the convergent before. */
  lemma BestBefore(x: real, s: State, p: int, q: int)
    requires Tracks(x, s)
    requires 0 < q < s.k1 || 0 < p < s.h1
    ensures Abs(Miss(x, p, q)) >= Abs(Miss(x, s.h2, s.k2))
  {
    hide Miss, Abs, Lin, Times;
    var u, v := Basis(s, p, q);
    if 0 < q < s.k1 { Sides(u, v, s.k1, s.k2); } else { Sides(u, v, s.h1, s.h2); }
    MissCombines(x, u, v, s.h1, s.h2, s.k1, s.k2);
    Opposed(u, v, s.f, Miss(x, s.h1, s.k1), Miss(x, s.h2, s.k2));
  }

  /** k1 + f * k2, the denominator the current fraction would complete. */
  ghost function Width(s: State): real { s.k1 as real + Times(s.f, s.k2 as real) }

  /** How large the two misses are: |d2| (k1 + f k2) = 1 and |d1| = f |d2|. */
  lemma MissSizes(x: real, s: State)
    requires Tracks(x, s)
    ensures Times(Abs(Miss(x, s.h2, s.k2)), Width(s)) == 1.0
    ensures Abs(Miss(x, s.h1, s.k1)) == Times(s.f, Abs(Miss(x, s.h2, s.k2)))
    ensures Width(s) > 0.0
  {
    hide Miss, Times, Abs;
    var d1, d2, w := Miss(x, s.h1, s.k1), Miss(x, s.h2, s.k2), Width(s);
    WidthPositive(s);
    WidthMiss(x, s);
    AbsTimes(w, d2);
    AbsTimes(d2, w);
    AbsTimes(s.f, d2);
    AbsOfSign(w);
    AbsOfSign(s.f);
    AbsOfUnit(Times(w, d2));
    AbsNegates(Times(s.f, d2));
    TimesSwap(Abs(d2), w);
  }

  lemma TimesSwap(a: real, b: real)
    ensures Times(a, b) == Times(b, a)
  {
  }

  lemma AbsOfSign(a: real)
    ensures a >= 0.0 ==> Abs(a) == a
  {
  }

  lemma AbsOfUnit(a: real)
    requires a == 1.0 || a == -1.0
    ensures Abs(a) == 1.0
  {
  }

  lemma AbsNegates(a: real)
    ensures Abs(-a) == Abs(a)
  {
  }

  lemma WidthPositive(s: State)
    requires 0.0 <= s.f && s.k1 >= 0 && s.k2 >= 0
    ensures Width(s) >= s.k1 as real && Width(s) >= 0.0
  {
    NonNegativeProduct(s.f, s.k2 as real);
  }

  lemma WidthMiss(x: real, s: State)
    requires Tracks(x, s)
    ensures Times(Width(s), Miss(x, s.h2, s.k2)) == 1.0 || Times(Width(s), Miss(x, s.h2, s.k2)) == -1.0
    ensures Width(s) != 0.0
  {
  }

  /** The convergent is within 1 / k1^2 of x. */
  lemma Closeness(x: real, s: State)
    requires Tracks(x, s) && s.k1 > 0
    ensures Times(Abs(x - s.h1 as real / s.k1 as real), Times(s.k1 as real, s.k1 as real)) < 1.0
  {
    hide Abs, Miss, Times, Tracks;
    var k1, z, d1 := s.k1 as real, x - s.h1 as real / s.k1 as real, Abs(Miss(x, s.h1, s.k1));
    assert 0.0 <= s.f < 1.0 && s.k2 >= 0 by { TracksRange(x, s); }
    MissSizes(x, s);
    AbsTimes(Miss(x, s.h2, s.k2), 0.0);
    CloseAlgebra(d1, Abs(Miss(x, s.h2, s.k2)), s);
    MissScaled(x, s.h1, s.k1);
    TimesAssociates(Abs(z), k1, k1);
  }

  lemma TracksRange(x: real, s: State)
    requires Tracks(x, s)
    ensures x > 0.0 && 0.0 <= s.f < 1.0 && s.h1 >= 1 && s.h2 >= 0 && s.k1 >= 0 && s.k2 >= 0
  {
  }

  lemma MissScaled(x: real, h: int, k: int)
    requires k > 0
    ensures Times(Abs(x - h as real / k as real), k as real) == Abs(Miss(x, h, k))
  {
  }

  lemma CloseAlgebra(a1: real, a2: real, s: State)
    requires Times(a2, Width(s)) == 1.0 && a1 == Times(s.f, a2)
    requires 0.0 <= s.f < 1.0 && s.k1 > 0 && s.k2 >= 0 && a2 >= 0.0
    ensures Times(a1, s.k1 as real) < 1.0
  {
    hide Times;
    var k1, k2 := s.k1 as real, s.k2 as real;
    TimesAssociates(s.f, a2, k1);
    TimesAdds(a2, k1, Times(s.f, k2));
    TimesNonNegative(s.f, k2);
    TimesNonNegative(a2, Times(s.f, k2));
    BelowOne(s.f, Times(a2, k1));
  }

  lemma TimesAdds(a: real, b: real, c: real)
    ensures Times(a, b + c) == Times(a, b) + Times(a, c)
  {
  }

  lemma TimesNonNegative(a: real, b: real)
    requires a >= 0.0 && b >= 0.0
    ensures Times(a, b) >= 0.0
  {
  }

  lemma BelowOne(f: real, t: real)
    requires 0.0 <= f < 1.0 && t <= 1.0
    ensures Times(f, t) < 1.0
  {
    NonNegativeProduct(f, 1.0 - t);
    assert f * (1.0 - t) == f - f * t;
  }

  /** No common divisor above one. */
  lemma LowestTerms(x: real, s: State, g: int, a: int, b: int)
    requires Tracks(x, s) && g > 0 && s.h1 == g * a && s.k1 == g * b
    ensures g == 1
  {
    var e := s.h1 * s.k2 - s.h2 * s.k1;
    assert e == g * (a * s.k2 - s.h2 * b);
    Divides(g, a * s.k2 - s.h2 * b);
  }

  ghost predicate CommonDivisor(g: int, h: int, k: int) { g > 0 && h % g == 0 && k % g == 0 }

  ghost predicate Reduced(h: int, k: int) {
    forall g :: CommonDivisor(g, h, k) ==> g == 1
  }

  lemma LowestTermsOf(x: real, s: State)
    requires Tracks(x, s)
    ensures Reduced(s.h1, s.k1)
  {
    hide Tracks;
    forall g | CommonDivisor(g, s.h1, s.k1) ensures g == 1 { LowestTerms(x, s, g, s.h1 / g, s.k1 / g); }
  }

  lemma Divides(g: int, m: int)
    requires g > 0 && (g * m == 1 || g * m == -1)
    ensures g == 1
  {
  }

  // ----- the whole run -----

  ghost predicate CanStep(s: State, limit: int) {
    s.f > 0.0 && s.f >= EPSILON && Next(s).h1 <= limit && Next(s).k1 <= limit
  }

  /** The state after n steps. */
  ghost function After(s: State, n: nat): State {
    if n == 0 then s else
      var t := After(s, n - 1);
      if t.f > 0.0 then Next(t) else t
  }

  /** Where a run from s ends: after n steps, because a step is refused or the counter runs out. */
  ghost predicate Ends(s: State, limit: int, n: nat) {
    && n <= MAX_WORKING_BITS
    && (forall i :: 0 <= i < n ==> CanStep(After(s, i), limit))
    && (n < MAX_WORKING_BITS ==> !CanStep(After(s, n), limit))
  }

  /** No p and q within the limit have a smaller |q * x - p|. That is not the distance of p / q from x, for which see
      NearestRatio. */
  ghost predicate LeastMiss(x: real, limit: int, h: int, k: int) {
    forall p, q :: 0 <= p <= limit && 0 < q <= limit ==> Abs(Miss(x, p, q)) >= Abs(Miss(x, h, k))
  }

  /** The n-th Fibonacci number and its successor. */
  ghost function FibPair(n: nat): (nat, nat) {
    if n == 0 then (0, 1) else
      var p := FibPair(n - 1);
      (p.1, p.0 + p.1)
  }

  ghost function Fib(n: nat): nat { FibPair(n).0 }

  /** Every state of a run tracks x, and both parts grow at least like Fibonacci numbers. */
  lemma {:induction false} AfterTracks(x: real, s: State, limit: int, n: nat)
    requires Tracks(x, s)
    requires forall i :: 0 <= i < n ==> CanStep(After(s, i), limit)
    ensures Tracks(x, After(s, n))
    ensures After(s, n).h1 >= Fib(n + 1) && After(s, n).h2 >= Fib(n) && After(s, n).k1 >= Fib(n)
    ensures n > 0 ==> After(s, n).k2 >= Fib(n - 1)
    ensures s.h1 <= limit && (s.k1 <= limit || n > 0) ==> After(s, n).h1 <= limit && After(s, n).k1 <= limit
  {
    hide Tracks;
    if n == 0 {
      TracksRange(x, s);
    } else {
      AfterTracks(x, s, limit, n - 1);
      var t := After(s, n - 1);
      TracksRange(x, t);
      assert CanStep(t, limit);
      NextTracks(x, t);
      CoefficientBounds(t.f);
      TracksOne(x, t);
      NextIntegers(Coefficient(t.f), t);
    }
  }

  lemma TracksOne(x: real, s: State)
    requires Tracks(x, s)
    ensures s.k1 + s.k2 >= 1
  {
  }

  /** Where the next convergent does not fit, nothing within the limit misses by less. */
  lemma StopsAtLeastMiss(x: real, s: State, limit: int)
    requires Tracks(x, s)
    requires s.f > 0.0 ==> Next(s).h1 > limit || Next(s).k1 > limit
    ensures LeastMiss(x, limit, s.h1, s.k1)
  {
    hide Tracks, Miss;
    TracksRange(x, s);
    forall p, q | 0 <= p <= limit && 0 < q <= limit ensures Abs(Miss(x, p, q)) >= Abs(Miss(x, s.h1, s.k1)) {
      if s.f == 0.0 {
        ExactMiss(x, s);
        AbsTimes(Miss(x, p, q), 0.0);
      } else if p == 0 && Next(s).k1 <= limit {
        NextTracks(x, s);
        ZeroNumerator(x, Next(s), q);
      } else {
        NextTracks(x, s);
        BestBefore(x, Next(s), p, q);
      }
    }
  }

  lemma ExactMiss(x: real, s: State)
    requires Tracks(x, s) && s.f == 0.0
    ensures Abs(Miss(x, s.h1, s.k1)) == 0.0
  {
    MissSizes(x, s);
  }

  /** Zero never misses by less than the convergent before. */
  lemma ZeroNumerator(x: real, s: State, q: int)
    requires Tracks(x, s) && q > 0
    ensures Abs(Miss(x, 0, q)) >= Abs(Miss(x, s.h2, s.k2))
  {
    var d2, w := Abs(Miss(x, s.h2, s.k2)), Width(s);
    MissSizes(x, s);
    AbsTimes(Miss(x, s.h2, s.k2), w);
    NumeratorWidth(x, s);
    ZeroAlgebra(x, w, d2, q as real);
  }

  /** x (k1 + f k2) = h1 + f h2 is at least 1. */
  lemma NumeratorWidth(x: real, s: State)
    requires Tracks(x, s)
    ensures Times(x, Width(s)) >= 1.0
  {
  }

  lemma ZeroAlgebra(x: real, w: real, d: real, q: real)
    requires Times(x, w) >= 1.0 && Times(d, w) == 1.0 && w > 0.0 && q >= 1.0 && x > 0.0
    ensures q * x >= d
  {
  }

  lemma FibStep(n: nat, a: int, b: int)
    requires FibPair(n) == (a, b)
    ensures FibPair(n + 1) == (b, a + b)
  {
  }

  lemma FibEight(n: nat, a: int, b: int)
    requires FibPair(n) == (a, b)
    ensures FibPair(n + 8) == (13 * a + 21 * b, 21 * a + 34 * b)
  {
    hide FibPair;
    FibStep(n, a, b);
    FibStep(n + 1, b, a + b);
    FibStep(n + 2, a + b, a + 2 * b);
    FibStep(n + 3, a + 2 * b, 2 * a + 3 * b);
    FibStep(n + 4, 2 * a + 3 * b, 3 * a + 5 * b);
    FibStep(n + 5, 3 * a + 5 * b, 5 * a + 8 * b);
    FibStep(n + 6, 5 * a + 8 * b, 8 * a + 13 * b);
    FibStep(n + 7, 8 * a + 13 * b, 13 * a + 21 * b);
  }

  lemma FibValues(n: nat)
    requires n == 32
    ensures Fib(n) == 2178309 && Fib(n + 1) == 3524578 && Fib(n + 2) == 5702887
  {
    var z := n - 32;
    FibEight(z, 0, 1);
    FibEight(z + 8, 21, 34);
    FibEight(z + 16, 987, 1597);
    FibEight(z + 24, 46368, 75025);
  }

  /** Past a convergent that still fits there is one within the limit that misses by less. */
  lemma NextMissesLess(x: real, s: State, limit: int)
    requires Tracks(x, s) && CanStep(s, limit)
    ensures !LeastMiss(x, limit, s.h1, s.k1)
  {
    hide Miss, Abs, Times, Width, Tracks;
    var t := Next(s);
    NextTracks(x, s);
    TracksRange(x, s);
    TracksRange(x, t);
    TracksOne(x, s);
    CoefficientBounds(s.f);
    NextIntegers(Coefficient(s.f), s);
    MissSizes(x, t);
    AbsTimes(Miss(x, t.h2, t.k2), 0.0);
    ProperPart(t.f, Abs(Miss(x, t.h2, t.k2)), Width(t));
    assert Abs(Miss(x, t.h1, t.k1)) < Abs(Miss(x, s.h1, s.k1));
  }

  lemma ProperPart(f: real, d: real, w: real)
    requires 0.0 <= f < 1.0 && d >= 0.0 && Times(d, w) == 1.0
    ensures Times(f, d) < d
  {
    assert d != 0.0;
  }

  /** For any ratio whose first coefficient fits and any limit: the result has the least miss within the limit
      exactly unless the step counter stopped the run where a step was still possible. */
  lemma RunLeastMissExactly(x: real, limit: int, n: nat)
    requires x > 0.0 && Coefficient(x) <= limit && 1 <= limit < WORD
    requires Ends(Start(x), limit, n)
    ensures LeastMiss(x, limit, After(Start(x), n).h1, After(Start(x), n).k1)
        <==> !(n == MAX_WORKING_BITS && CanStep(After(Start(x), n), limit))
  {
    hide Tracks, LeastMiss, Coefficient, Start, CanStep;
    StartTracks(x);
    StartIs(x);
    AfterTracks(x, Start(x), limit, n);
    var s := After(Start(x), n);
    if CanStep(s, limit) {
      NextMissesLess(x, s, limit);
    } else {
      TracksRange(x, s);
      if s.f > 0.0 { RefusedIsTooBig(x, s, limit); }
      StopsAtLeastMiss(x, s, limit);
    }
  }

  /** What a whole run achieves, for a first coefficient that fits: both parts within the limit, lowest terms,
      within 1 / k1^2, and the least miss within the limit, exactly unless the step counter cut the run short
      where a step was still possible; below the 34th Fibonacci number it never does. */
  lemma RunAchieves(x: real, limit: int, n: nat)
    requires x > 0.0 && Coefficient(x) <= limit && limit >= 1
    requires Ends(Start(x), limit, n)
    ensures var s := After(Start(x), n);
      && Tracks(x, s) && s.h1 <= limit && s.k1 <= limit && Reduced(s.h1, s.k1)
      && (s.k1 > 0 ==> Times(Abs(x - s.h1 as real / s.k1 as real), Times(s.k1 as real, s.k1 as real)) < 1.0)
      && (limit < WORD ==> (LeastMiss(x, limit, s.h1, s.k1) <==> !(n == MAX_WORKING_BITS && CanStep(s, limit))))
      && (limit < LEAST_CUT_SHORT ==> LeastMiss(x, limit, s.h1, s.k1))
  {
    hide Tracks, LeastMiss, Coefficient, Start, Reduced, Times;
    StartTracks(x);
    StartIs(x);
    AfterTracks(x, Start(x), limit, n);
    var s := After(Start(x), n);
    LowestTermsOf(x, s);
    if s.k1 > 0 { Closeness(x, s); }
    if limit < WORD { RunLeastMissExactly(x, limit, n); }
    if limit < LEAST_CUT_SHORT && n == MAX_WORKING_BITS { LastStepTooBig(x, limit, s, n); }
  }

  /** After as many steps as the counter allows the next convergent has grown past the 34th Fibonacci number. */
  lemma LastStepTooBig(x: real, limit: int, s: State, n: nat)
    requires Tracks(x, s) && s.h1 >= Fib(n + 1) && s.h2 >= Fib(n) && n == MAX_WORKING_BITS && limit < LEAST_CUT_SHORT
    ensures LeastMiss(x, limit, s.h1, s.k1)
  {
    hide Tracks, LeastMiss, Coefficient;
    TracksRange(x, s);
    if s.f > 0.0 {
      FibValues(n);
      TracksOne(x, s);
      CoefficientBounds(s.f);
      NextIntegers(Coefficient(s.f), s);
    }
    StopsAtLeastMiss(x, s, limit);
  }

  lemma StartIs(x: real)
    requires x > 0.0
    ensures Start(x).h1 == 1 && Start(x).k1 == Coefficient(x)
  {
  }

  /** A refused step, even one refused for a tiny fraction, has a next convergent beyond the limit. */
  lemma RefusedIsTooBig(x: real, s: State, limit: int)
    requires Tracks(x, s) && s.f > 0.0 && limit < WORD
    requires !CanStep(s, limit)
    ensures Next(s).h1 > limit || Next(s).k1 > limit
  {
    hide Coefficient, Tracks;
    if s.f < EPSILON {
      TracksOne(x, s);
      TracksRange(x, s);
      CoefficientBounds(s.f);
      TinyFraction(s.f, 1.0 / s.f);
      NextIntegers(Coefficient(s.f), s);
    }
  }

  lemma TinyFraction(f: real, r: real)
    requires 0.0 < f < EPSILON && f * r == 1.0
    ensures r > WORD as real
  {
  }

  /** A ratio of neighbouring Fibonacci numbers, the slowest kind to expand. */
  const GOLDEN: real := 165580141.0 / 102334155.0

  ghost function GoldenState(n: nat): State
    requires n <= 32 && Fib(41 - n) > 0
  {
    State(Fib(40 - n) as real / Fib(41 - n) as real, Fib(n + 1), Fib(n), Fib(n), if n == 0 then 1 else Fib(n - 1))
  }

  lemma {:induction false} FibPositive(n: nat)
    ensures n >= 1 ==> Fib(n) >= 1
    ensures Fib(n + 2) == Fib(n + 1) + Fib(n)
    ensures Fib(n) <= Fib(n + 1)
  {
    if n > 0 { FibPositive(n - 1); }
  }

  lemma {:induction false} FibMonotone(n: nat, m: nat)
    requires n <= m
    ensures Fib(n) <= Fib(m)
    decreases m
  {
    if n < m {
      FibMonotone(n, m - 1);
      if m >= 2 { FibPositive(m - 2); }
    }
  }

  lemma Fib40(n: nat)
    requires n == 40
    ensures Fib(n) == 102334155 && Fib(n + 1) == 165580141
  {
    var z := n - 40;
    FibEight(z, 0, 1);
    FibEight(z + 8, 21, 34);
    FibEight(z + 16, 987, 1597);
    FibEight(z + 24, 46368, 75025);
    FibEight(z + 32, 2178309, 3524578);
  }

  lemma GoldenNext(n: nat)
    requires n < 32 && Fib(41 - n) > 0 && Fib(40 - n) > 0
    ensures GoldenState(n).f > EPSILON && Next(GoldenState(n)) == GoldenState(n + 1)
  {
    hide Coefficient, Fib;
    var a, b, c := Fib(41 - n), Fib(40 - n), Fib(39 - n);
    GoldenFibs(n);
    GoldenFloor(a, b, c, b as real / a as real, c as real / b as real);
    NextIs(GoldenState(n), c as real / b as real);
  }

  lemma GoldenFibs(n: nat)
    requires n < 32
    ensures Fib(41 - n) == Fib(40 - n) + Fib(39 - n) && Fib(40 - n) > Fib(39 - n) > 0
    ensures Fib(41 - n) <= 2 * Fib(40 - n) + 1
    ensures Fib(n + 2) == Fib(n + 1) + Fib(n) && Fib(n + 1) == Fib(n) + if n == 0 then 1 else Fib(n - 1)
  {
    FibPositive(39 - n);
    FibPositive(38 - n);
    FibPositive(37 - n);
    FibPositive(41 - n);
  }

  lemma NextIs(s: State, g: real)
    requires s.f > 0.0 && Coefficient(s.f) == 1 && 1.0 / s.f == 1.0 + g
    ensures Next(s) == State(g, s.h1 + s.h2, s.h1, s.k1 + s.k2, s.k1)
  {
  }

  lemma GoldenFloor(a: int, b: int, c: int, f: real, g: real)
    requires a == b + c && b > c > 0 && a <= 2 * b + 1
    requires f == b as real / a as real && g == c as real / b as real
    ensures f > EPSILON && 1.0 / f == 1.0 + g && Coefficient(f) == 1
  {
    GoldenInverse(b as real, c as real, f, g);
    FloorBounds(1.0 / f);
  }

  lemma GoldenInverse(b: real, c: real, f: real, g: real)
    requires b > c > 0.0 && f == b / (b + c) && g == c / b
    ensures f > 0.5 && 0.0 < g < 1.0 && 1.0 / f == 1.0 + g
  {
    var r := 1.0 + g;
    QuotientBounds(c, b, g);
    assert Times(f, b + c) == b;
    TimesAdds(b, 1.0, g);
    assert b + c == Times(r, b);
    TimesAssociates(f, r, b);
    UnitFactor(Times(f, r), b);
    InverseIs(f, r);
  }

  lemma QuotientBounds(c: real, b: real, g: real)
    requires b > c > 0.0 && g == c / b
    ensures 0.0 < g < 1.0 && Times(b, g) == c
  {
    assert b * g == c;
    ProductBounds(b, c, g);
  }

  lemma ProductBounds(b: real, c: real, g: real)
    requires b > c > 0.0 && Times(b, g) == c
    ensures 0.0 < g < 1.0
  {
    PositiveFactor(b, g);
    assert b * (1.0 - g) == b - b * g;
    PositiveFactor(b, 1.0 - g);
  }

  lemma UnitFactor(t: real, b: real)
    requires b > 0.0 && Times(t, b) == b
    ensures t == 1.0
  {
  }

  lemma InverseIs(f: real, r: real)
    requires Times(f, r) == 1.0 && 1.0 < r < 2.0
    ensures f > 0.5 && 1.0 / f == r
  {
  }

  lemma GoldenStart()
    ensures GOLDEN > 0.0 && Coefficient(GOLDEN) == 0
    ensures Start(GOLDEN) == State(102334155.0 / 165580141.0, 1, 0, 0, 1)
  {
  }

  lemma {:induction false} GoldenRun(n: nat, limit: int)
    requires n <= 32 && limit >= LEAST_CUT_SHORT
    ensures Fib(41 - n) > 0 && After(Start(GOLDEN), n) == GoldenState(n)
    ensures forall i :: 0 <= i < n ==> CanStep(After(Start(GOLDEN), i), limit)
  {
    hide Start, Coefficient;
    if n == 0 {
      Fib40(40 - n);
      GoldenStart();
      assert Fib(n) == 0 && Fib(n + 1) == 1;
    } else {
      hide Start, Coefficient, Fib, GoldenState, CanStep;
      GoldenRun(n - 1, limit);
      GoldenFits(n - 1, limit);
    }
  }

  lemma GoldenFits(n: nat, limit: int)
    requires n < 32 && limit >= LEAST_CUT_SHORT && Fib(41 - n) > 0
    ensures CanStep(GoldenState(n), limit) && GoldenState(n).f > 0.0 && Next(GoldenState(n)) == GoldenState(n + 1)
    ensures Fib(40 - n) > 0
  {
    hide Next, Fib;
    GoldenFibs(n);
    GoldenNext(n);
    FibMonotone(n + 2, 34);
    FibMonotone(n + 1, 34);
    GoldenBound(34);
  }

  lemma GoldenBound(n: nat)
    requires n == 34
    ensures Fib(n) == LEAST_CUT_SHORT
  {
    FibValues(n - 2);
  }

  /** From the 34th Fibonacci number on, a limit of any size has a ratio whose run is cut short by the step
      counter at a result that has not the least miss within the limit: RunAchieves cannot be extended. */
  lemma CutShort(limit: int, n: nat)
    requires limit >= LEAST_CUT_SHORT && n == MAX_WORKING_BITS
    ensures Coefficient(GOLDEN) <= limit && Ends(Start(GOLDEN), limit, n)
    ensures var s := After(Start(GOLDEN), n); !LeastMiss(GOLDEN, limit, s.h1, s.k1)
  {
    hide Start, Coefficient, After, CanStep, Miss, Abs, Fib;
    GoldenStart();
    GoldenRun(n, limit);
    FibValues(n);
    var s := After(Start(GOLDEN), n);
    assert s.h1 == 3524578 && s.k1 == 2178309;
    GoldenMisses();
  }

  lemma GoldenMisses()
    ensures Abs(Miss(GOLDEN, 5702887, 3524578)) < Abs(Miss(GOLDEN, 3524578, 2178309))
  {
  }

  /** The least miss within the limit is certain, for every ratio whose first coefficient fits, exactly when
      the limit is below the 34th Fibonacci number. */
  lemma LeastMissExactly(limit: int)
    requires 1 <= limit < WORD
    ensures limit < LEAST_CUT_SHORT <==>
            forall x: real, n: nat :: x > 0.0 && Coefficient(x) <= limit && Ends(Start(x), limit, n) ==>
              LeastMiss(x, limit, After(Start(x), n).h1, After(Start(x), n).k1)
  {
    hide LeastMiss, Coefficient, Start, Ends, After;
    if limit < LEAST_CUT_SHORT {
      forall x: real, n: nat | x > 0.0 && Coefficient(x) <= limit && Ends(Start(x), limit, n)
        ensures LeastMiss(x, limit, After(Start(x), n).h1, After(Start(x), n).k1)
      {
        RunAchieves(x, limit, n);
      }
    } else {
      var n: nat := MAX_WORKING_BITS;
      CutShort(limit, n);
      GoldenStart();
    }
  }

  /** The denominator stays within the limit exactly when the first coefficient does, which nothing checks. */
  lemma FirstCoefficientDecides(x: real, limit: int, n: nat)
    requires x > 0.0 && limit >= 1 && Ends(Start(x), limit, n)
    ensures After(Start(x), n).k1 <= limit <==> Coefficient(x) <= limit
  {
    hide Tracks, Coefficient, Start;
    StartTracks(x);
    StartIs(x);
    if Coefficient(x) <= limit {
      AfterTracks(x, Start(x), limit, n);
    } else if n > 0 {
      var s := Start(x);
      assert CanStep(After(s, 0), limit);
      TracksRange(x, s);
      TracksOne(x, s);
      CoefficientBounds(s.f);
      NextIntegers(Coefficient(s.f), s);
    }
  }

  /** One thousandth with a limit of ten: the run stops at once, at the denominator 1000. */
  lemma DenominatorBeyondLimit()
    ensures Coefficient(0.001) == 1000 && Ends(Start(0.001), 10, 0)
    ensures After(Start(0.001), 0) == State(0.0, 1, 0, 1000, 1)
  {
  }
}
