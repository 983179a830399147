/** What a string of decimal digits means, and what is left of it when it is pushed through a 64 bit accumulator. */
module Decimal {

  /** Accumulators are 64 bits wide; past the cutoff there is no room to multiply by ten. */
  const WIDTH: nat := 0x1_0000_0000_0000_0000
  const CUTOFF: nat := 1844674407370955161

  predicate IsDigit(c: char) { '0' <= c <= '9' }

  function DigitOf(c: char): (d: nat)
    requires IsDigit(c)
    ensures d <= 9
  {
    c as int - '0' as int
  }

  predicate AllDigits(s: string) { forall i :: 0 <= i < |s| ==> IsDigit(s[i]) }

  ghost function Value(s: string): nat
    requires AllDigits(s)
  {
    if s == "" then 0 else 10 * Value(s[..|s| - 1]) + DigitOf(s[|s| - 1])
  }

  function Pow10(n: nat): (p: nat)
    ensures p > 0
  {
    if n == 0 then 1 else 10 * Pow10(n - 1)
  }

  // ----- the accumulator -----

  /** Takes a digit in, or says that there is no room for it. */
  function Applied(accum: nat, d: nat): (nat, bool) {
    if accum > CUTOFF then (accum, false) else ((10 * accum + d) % WIDTH, true)
  }

  /** The digits before the point: the first one without room rounds, and from then on they are only counted. */
  function Absorb(accum: nat, dropped: nat, d: nat): (nat, nat) {
    if dropped > 0 then (accum, dropped + 1)
    else
      var (next, fits) := Applied(accum, d);
      if fits then (next, 0) else (if d >= 5 then (accum + 1) % WIDTH else accum, 1)
  }

  ghost function Absorbed(s: string): (nat, nat)
    requires AllDigits(s)
  {
    if s == "" then (0, 0)
    else
      var (accum, dropped) := Absorbed(s[..|s| - 1]);
      Absorb(accum, dropped, DigitOf(s[|s| - 1]))
  }

  /** Somewhere in the string the accumulator is at its cutoff when a digit too large for the last place comes, or at
      its largest when a digit comes that it is rounded up for. */
  ghost predicate Wraps(s: string)
    requires AllDigits(s)
  {
    exists k :: 0 <= k < |s| && WrapsAt(s, k)
  }

  ghost predicate WrapsAt(s: string, k: nat)
    requires AllDigits(s) && k < |s|
  {
    || (Value(s[..k]) == CUTOFF && DigitOf(s[k]) >= 6)
    || (Value(s[..k]) == WIDTH - 1 && DigitOf(s[k]) >= 5)
  }

  ghost function Scaled(accum: nat, dropped: nat): nat { accum * Pow10(dropped) }

  /** Within half a unit of the last place kept. */
  ghost predicate Near(accum: nat, dropped: nat, value: nat) {
    && 2 * value <= 2 * Scaled(accum, dropped) + Pow10(dropped)
    && 2 * Scaled(accum, dropped) <= 2 * value + Pow10(dropped)
  }

  /** What holds while the accumulator has not wrapped: exact while nothing is dropped, properly rounded later. */
  ghost predicate Sound(accum: nat, dropped: nat, value: nat) {
    if dropped == 0 then accum == value < WIDTH
    else
      && 2 * value + 2 <= 2 * Scaled(accum, dropped) + Pow10(dropped)
      && 2 * Scaled(accum, dropped) <= 2 * value + Pow10(dropped)
      && value > WIDTH - 1
  }

  /** What holds ever after it has wrapped. */
  ghost predicate Lost(accum: nat, dropped: nat, value: nat) {
    if dropped == 0 then accum + WIDTH <= value
    else Scaled(accum, dropped) + Scaled(WIDTH - 1, dropped) <= value
  }

  lemma ScaledGrows(accum: nat, dropped: nat)
    ensures Scaled(accum, dropped + 1) == 10 * Scaled(accum, dropped)
    ensures dropped == 0 ==> Scaled(accum, dropped) == accum
  {
  }

  lemma Wrapped(x: nat)
    requires x < 2 * WIDTH
    ensures x % WIDTH == if x < WIDTH then x else x - WIDTH
  {
  }

  lemma SoundStep(accum: nat, dropped: nat, value: nat, d: nat)
    requires Sound(accum, dropped, value) && d <= 9
    ensures var (a, r) := Absorb(accum, dropped, d);
      if (value == CUTOFF && d >= 6) || (value == WIDTH - 1 && d >= 5) then Lost(a, r, 10 * value + d)
      else Sound(a, r, 10 * value + d)
  {
    hide Scaled;
    ScaledGrows(accum, dropped);
    ScaledGrows(WIDTH - 1, dropped);
    if dropped == 0 {
      if accum <= CUTOFF {
        Wrapped(10 * accum + d);
      } else {
        Wrapped(accum + 1);
        ScaledGrows((accum + 1) % WIDTH, dropped);
        var one := dropped + 1;
        assert Pow10(one) == 10 * Pow10(dropped);
      }
    }
  }

  lemma LostStep(accum: nat, dropped: nat, value: nat, d: nat)
    requires Lost(accum, dropped, value) && d <= 9
    ensures var (a, r) := Absorb(accum, dropped, d); Lost(a, r, 10 * value + d)
  {
  }

  lemma {:induction false} AbsorbedIs(s: string)
    requires AllDigits(s)
    ensures var (accum, dropped) := Absorbed(s);
      if Wraps(s) then Lost(accum, dropped, Value(s)) else Sound(accum, dropped, Value(s))
  {
    hide Sound, Lost, Absorb;
    if s == "" {
      SoundStart();
    } else {
      var n := |s| - 1;
      var front := s[..n];
      var (accum, dropped) := Absorbed(front);
      AbsorbedIs(front);
      forall k | 0 <= k < n ensures WrapsAt(s, k) <==> WrapsAt(front, k) { assert s[..k] == front[..k]; }
      if Wraps(front) {
        var k :| 0 <= k < n && WrapsAt(front, k);
        assert WrapsAt(s, k);
        LostStep(accum, dropped, Value(front), DigitOf(s[n]));
      } else {
        assert Wraps(s) <==> WrapsAt(s, n);
        SoundStep(accum, dropped, Value(front), DigitOf(s[n]));
      }
    }
  }

  lemma SoundStart()
    ensures Sound(0, 0, 0)
  {
  }

  lemma SoundIsNear(accum: nat, dropped: nat, value: nat)
    requires Sound(accum, dropped, value)
    ensures Near(accum, dropped, value)
  {
    hide Scaled;
    ScaledGrows(accum, dropped);
  }

  lemma LostIsFar(accum: nat, dropped: nat, value: nat)
    requires Lost(accum, dropped, value)
    ensures !Near(accum, dropped, value)
  {
  }

  /** The value kept is the exact value rounded to the places kept, exact if nothing was dropped, exactly if the
      accumulator does not wrap on the way. */
  lemma RoundsExactly(s: string)
    requires AllDigits(s)
    ensures Near(Absorbed(s).0, Absorbed(s).1, Value(s)) <==> !Wraps(s)
    ensures !Wraps(s) && Absorbed(s).1 == 0 ==> Absorbed(s).0 == Value(s)
  {
    hide Near, Lost, Absorb;
    var (accum, dropped) := Absorbed(s);
    AbsorbedIs(s);
    if Wraps(s) {
      LostIsFar(accum, dropped, Value(s));
    } else {
      SoundIsNear(accum, dropped, Value(s));
    }
  }

  /** Numbers of up to 19 digits below the cutoff come through whole. */
  lemma {:induction false} SmallAbsorbed(s: string)
    requires AllDigits(s) && Value(s) <= CUTOFF
    ensures Absorbed(s) == (Value(s), 0)
  {
    if s != "" { SmallAbsorbed(s[..|s| - 1]); }
  }

  lemma ThreePowers(n: nat)
    ensures Pow10(n + 3) == 1000 * Pow10(n)
  {
    assert Pow10(n + 3) == 10 * Pow10(n + 2) && Pow10(n + 2) == 10 * Pow10(n + 1) && Pow10(n + 1) == 10 * Pow10(n);
  }

  lemma NineteenPlaces(n: nat)
    requires n == 19
    ensures Pow10(n) > CUTOFF
  {
    hide Pow10;
    NoPlaces(n - 19);
    PowerStep(n - 18);
    ThreePowers(n - 3);
    ThreePowers(n - 6);
    ThreePowers(n - 9);
    ThreePowers(n - 12);
    ThreePowers(n - 15);
    ThreePowers(n - 18);
  }

  lemma NoPlaces(n: nat)
    requires n == 0
    ensures Pow10(n) == 1
  {
  }

  /** The first number that does not come through: the one digit too many makes a zero of it, with nothing dropped. */
  lemma WidthReadsAsZero(n: nat)
    requires n == 19
    ensures var s := Digits(CUTOFF, n) + "6";
      Value(s) == WIDTH && Absorbed(s) == (0, 0) && Wraps(s)
  {
    hide Digits, Pow10;
    NineteenPlaces(n);
    ValueOfDigits(CUTOFF, n);
    SmallAbsorbed(Digits(CUTOFF, n));
    var s := Digits(CUTOFF, n) + "6";
    assert s[..n] == Digits(CUTOFF, n) && s[n] == '6';
    assert WrapsAt(s, n);
  }

  // ----- the digits of a number -----

  function DigitChar(d: nat): (c: char)
    requires d <= 9
    ensures IsDigit(c) && DigitOf(c) == d
  {
    '0' + d as char
  }

  /** The last n decimal digits of v. */
  ghost function Digits(v: nat, n: nat): (s: string)
    ensures |s| == n && AllDigits(s)
  {
    if n == 0 then "" else Digits(v / 10, n - 1) + [DigitChar(v % 10)]
  }

  lemma {:induction false} ValueOfDigits(v: nat, n: nat)
    requires v < Pow10(n)
    ensures Value(Digits(v, n)) == v
  {
    hide Pow10;
    if n > 0 {
      PowerStep(n);
      ValueOfDigits(v / 10, n - 1);
      assert Digits(v, n)[..n - 1] == Digits(v / 10, n - 1);
    } else {
      NoPlaces(n);
    }
  }

  /** The digit in front, taken off by division. */
  lemma {:induction false} DigitsFront(v: nat, n: nat)
    requires n > 0 && v < Pow10(n)
    ensures v / Pow10(n - 1) <= 9 && v % Pow10(n - 1) < Pow10(n - 1)
    ensures Digits(v, n) == [DigitChar(v / Pow10(n - 1))] + Digits(v % Pow10(n - 1), n - 1)
  {
    hide Digits, Pow10;
    if n == 1 {
      FrontOfOne(v, n);
    } else {
      PowerStep(n);
      DigitsFront(v / 10, n - 1);
      PowerStep(n - 1);
      TenTimes(v, Pow10(n - 2), Pow10(n - 1));
      DigitsShift(v, n, v / Pow10(n - 1), v % Pow10(n - 1));
    }
  }

  lemma FrontOfOne(v: nat, n: nat)
    requires n == 1 && v < Pow10(n)
    ensures Pow10(n - 1) == 1 && v <= 9 && Digits(v, n) == [DigitChar(v)] + Digits(0, n - 1)
  {
    assert Digits(v / 10, n - 1) == "";
  }

  lemma PowerStep(n: nat)
    requires n > 0
    ensures Pow10(n) == 10 * Pow10(n - 1)
  {
  }

  /** The digit in front of v is the one in front of v / 10, if q and r are quotient and remainder of both. */
  lemma DigitsShift(v: nat, n: nat, q: nat, r: nat)
    requires n >= 2 && q <= 9 && r % 10 == v % 10
    requires Digits(v / 10, n - 1) == [DigitChar(q)] + Digits(r / 10, n - 2)
    ensures Digits(v, n) == [DigitChar(q)] + Digits(r, n - 1)
  {
  }

  lemma TenTimes(v: nat, p: nat, t: nat)
    requires p > 0 && t == 10 * p
    ensures v / t == v / 10 / p && v % t / 10 == v / 10 % p && v % t % 10 == v % 10
    ensures v % t < t
  {
    var q, r := v / 10, v % 10;
    var a, b := q / p, q % p;
    assert q == p * a + b;
    assert t * a == 10 * (p * a);
    DivMod(v, t, a, 10 * b + r);
  }

  lemma DivMod(v: nat, m: nat, q: nat, r: nat)
    requires v == m * q + r && r < m
    ensures v / m == q && v % m == r
  {
    var x, y := v / m, v % m;
    assert v == m * x + y;
    SmallMultiple(m, x - q);
  }

  lemma SmallMultiple(m: int, k: int)
    requires m > 0 && -m < m * k < m
    ensures k == 0
  {
    if k >= 1 { Product(m, k); } else if k <= -1 { Product(m, 0 - k); }
  }

  lemma Product(m: int, k: int)
    requires m > 0 && k >= 1
    ensures m * k >= m
  {
  }

  /** How many digits a number has when printed. */
  ghost predicate Length(v: nat, n: nat) { n > 0 && v < Pow10(n) && (n > 1 ==> Pow10(n - 1) <= v) }

  lemma {:induction false} Pow10Grows(m: nat, n: nat)
    requires m <= n
    ensures Pow10(m) <= Pow10(n)
    decreases n
  {
    if m < n { Pow10Grows(m, n - 1); }
  }

  /** A number of more than one digit does not begin with a zero. */
  lemma NoLeadingZero(v: nat, n: nat)
    requires Length(v, n) && v > 0
    ensures Digits(v, n)[0] != '0'
  {
    DigitsFront(v, n);
    AtLeastOnce(v, Pow10(n - 1));
  }

  lemma AtLeastOnce(v: nat, p: nat)
    requires 0 < p <= v
    ensures v / p > 0
  {
    assert v == p * (v / p) + v % p;
  }
}
