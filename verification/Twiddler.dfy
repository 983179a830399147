/** The integer pulse dither of cppext/twiddler.cpp. */
module Twiddler {

  import opened Minimath

  const INT_MAX := 0x7FFF_FFFF

  /** Division as the original's language does it, toward zero. */
  function Truncated(a: int, b: int): int
    requires b > 0
  {
    if a < 0 then -(-a / b) else a / b
  }

  /** One call from state t. */
  function Advance(above: int, below: int, t: int): int {
    if t >= 0 then t - below else t + above
  }

  /** The state after n calls. */
  function After(above: int, below: int, t: int, n: nat): int {
    if n == 0 then t else Advance(above, below, After(above, below, t, n - 1))
  }

  /** How many of the first n calls return true. */
  function Pulses(above: int, below: int, t: int, n: nat): nat {
    if n == 0 then 0
    else Pulses(above, below, t, n - 1) + if After(above, below, t, n - 1) >= 0 then 1 else 0
  }

  predicate InRange(above: int, below: int, t: int) { -below <= t < above }

  class IntegerTwiddler {
    var above: int
    var below: int
    var twiddle: int

    ghost predicate Valid()
      reads this
    {
      above >= 1 && below >= 0 && InRange(above, below, twiddle)
    }

    constructor ()
      ensures above == 0 && below == 0 && twiddle == -1
    {
      above, below, twiddle := 0, 0, -1;
    }

    /** From a centred start the state is in range whenever the two parts fit a signed word and the first is
        not zero; without centring an earlier state is only clipped to -above .. below, which is not that range. */
    method SetRatio(numer: nat, denom: nat, center: bool)
      requires numer < WORD && denom < WORD
      modifies this
      ensures above == Signed(numer, WORD) && below == Signed(denom, WORD)
      ensures center ==> twiddle == Truncated(above - below, 2)
      ensures !center ==> twiddle == if old(twiddle) > below then below
                                     else if old(twiddle) < -above then -above else old(twiddle)
      ensures center && 1 <= numer <= INT_MAX && denom <= INT_MAX ==> Valid()
    {
      above := Signed(numer, WORD);
      below := Signed(denom, WORD);
      if center {
        twiddle := Truncated(above - below, 2);
      } else {
        if twiddle > below {
          twiddle := below;
        } else if twiddle < -above {
          twiddle := -above;
        }
      }
    }

    /** A rate that is not positive freezes the output off, zero included. */
    method SetDivider(rate: int)
      requires -INT_MAX - 1 <= rate <= INT_MAX
      modifies this
      ensures rate <= 0 ==> above == 0 && below == 0 && twiddle == -1
      ensures rate <= 0 ==> forall n: nat :: After(above, below, twiddle, n) < 0
      ensures rate > 0 ==> above == 1 && below == rate && twiddle == Truncated(-rate, 2) && Valid()
    {
      if rate <= 0 {
        Freeze(false);
      } else {
        above := 1;
        below := rate;
        twiddle := Truncated(-rate, 2);
      }
    }

    /** Every later call returns `on`. */
    method Freeze(on: bool)
      modifies this
      ensures above == 0 && below == 0 && twiddle == if on then 0 else -1
      ensures forall n: nat :: (After(above, below, twiddle, n) >= 0) == on
    {
      above := 0;
      below := 0;
      twiddle := if on then 0 else -1;
      forall n: nat ensures After(0, 0, twiddle, n) == twiddle { Frozen(twiddle, n); }
    }

    /** One call; in range it stays in range, so nothing overflows. */
    method Pwm() returns (on: bool)
      modifies this`twiddle
      ensures on == (old(twiddle) >= 0)
      ensures twiddle == Advance(above, below, old(twiddle))
      ensures old(Valid()) ==> Valid()
    {
      if twiddle >= 0 {
        twiddle := twiddle - below;
        return true;
      } else {
        twiddle := twiddle + above;
        return false;
      }
    }
  }

  lemma {:induction false} Frozen(t: int, n: nat)
    ensures After(0, 0, t, n) == t
  {
    if n > 0 { Frozen(t, n - 1); }
  }

  /** Every call adds `above`, and every pulse takes a whole period off again. */
  lemma {:induction false} Balance(above: int, below: int, t: int, n: nat)
    ensures After(above, below, t, n) == t + n * above - (above + below) * Pulses(above, below, t, n)
  {
    if n > 0 {
      Balance(above, below, t, n - 1);
      OneCall(above, above + below, n, Pulses(above, below, t, n - 1));
    }
  }

  lemma OneCall(above: int, period: int, n: int, p: int)
    ensures n * above == (n - 1) * above + above && period * (p + 1) == period * p + period
  {
  }

  lemma {:induction false} StaysInRange(above: int, below: int, t: int, n: nat)
    requires above >= 1 && below >= 0 && InRange(above, below, t)
    ensures InRange(above, below, After(above, below, t, n))
  {
    if n > 0 { StaysInRange(above, below, t, n - 1); }
  }

  lemma QuotientUnique(x: int, n: int, q: int)
    requires n > 0 && n * q <= x < n * q + n
    ensures x / n == q
  {
    var r := x - n * q;
    assert x == n * (x / n) + x % n;
    Between(n, x / n - q, x % n - r);
  }

  lemma Between(n: int, d: int, e: int)
    requires n > 0 && -n < e < n && n * d + e == 0
    ensures d == 0
  {
  }

  lemma Steps(n: int, d: int)
    requires n > 0
    ensures d >= 1 ==> n * d >= n
  {
  }

  /** The number of pulses in closed form. */
  lemma PulseCount(above: int, below: int, t: int, n: nat)
    requires above >= 1 && below >= 0 && InRange(above, below, t)
    ensures Pulses(above, below, t, n) == (t + below + n * above) / (above + below)
  {
    Balance(above, below, t, n);
    StaysInRange(above, below, t, n);
    QuotientUnique(t + below + n * above, above + below, Pulses(above, below, t, n));
  }

  lemma {:induction false} AfterAdds(above: int, below: int, t: int, m: nat, n: nat)
    ensures After(above, below, t, m + n) == After(above, below, After(above, below, t, m), n)
    ensures Pulses(above, below, t, m + n) ==
      Pulses(above, below, t, m) + Pulses(above, below, After(above, below, t, m), n)
  {
    if n > 0 { AfterAdds(above, below, t, m, n - 1); }
  }

  /** Every window of n calls, wherever it starts, has the floor or the ceiling of n * above / (above + below)
      pulses; a window of above + below calls has exactly `above` and ends in the state it began in. */
  lemma EveryWindow(above: int, below: int, t: int, m: nat, n: nat)
    requires above >= 1 && below >= 0 && InRange(above, below, t)
    ensures var period, start := above + below, After(above, below, t, m);
      var pulses := Pulses(above, below, t, m + n) - Pulses(above, below, t, m);
      && (n * above) / period <= pulses <= (n * above + period - 1) / period
      && (n == period ==> pulses == above && After(above, below, t, m + n) == start)
  {
    var period, start := above + below, After(above, below, t, m);
    AfterAdds(above, below, t, m, n);
    StaysInRange(above, below, t, m);
    PulseCount(above, below, start, n);
    Balance(above, below, start, n);
    var phase := start + below;
    FloorCeiling(phase, n * above, period);
    if n == period { QuotientUnique(phase + period * above, period, above); }
  }

  lemma FloorCeiling(phase: int, x: int, n: int)
    requires n > 0 && 0 <= phase < n && x >= 0
    ensures x / n <= (phase + x) / n <= (x + n - 1) / n
  {
    QuotientOrder(x, phase + x, n);
    QuotientOrder(phase + x, x + n - 1, n);
  }

  lemma QuotientOrder(x: int, y: int, n: int)
    requires n > 0 && x <= y
    ensures x / n <= y / n
  {
    assert x == n * (x / n) + x % n && y == n * (y / n) + y % n;
    Steps(n, x / n - y / n);
  }

  lemma {:induction false} NeverAbove(above: int, below: int, t: int, n: nat)
    requires above >= 1 && below >= 1 && t >= above && n >= 1
    ensures After(above, below, t, n) < t
  {
    if n > 1 { NeverAbove(above, below, t, n - 1); }
  }

  lemma {:induction false} NeverBelow(above: int, below: int, t: int, n: nat)
    requires above >= 1 && below >= 1 && t < -below && n >= 1
    ensures After(above, below, t, n) > t
  {
    if n > 1 { NeverBelow(above, below, t, n - 1); }
  }

  /** With nothing below every call from a state that is not negative returns true, and only then. */
  lemma {:induction false} AllAbove(above: int, t: int, n: nat)
    requires above >= 1
    ensures t >= 0 ==> After(above, 0, t, n) == t && Pulses(above, 0, t, n) == n
    ensures t < 0 && n > 0 ==> Pulses(above, 0, t, n) < n
  {
    if n > 0 { AllAbove(above, t, n - 1); }
  }

  /** With nothing above no call from a negative state returns true, and the first from any other state does. */
  lemma {:induction false} NothingAbove(below: int, t: int, n: nat)
    ensures t < 0 ==> After(0, below, t, n) == t && Pulses(0, below, t, n) == 0
    ensures t >= 0 && n > 0 ==> Pulses(0, below, t, n) > 0
  {
    if n > 0 { NothingAbove(below, t, n - 1); }
  }

  /** The states from which a whole period has the promised pulses. */
  predicate Keeps(above: int, below: int, t: int) {
    if above == 0 then below == 0 || t < 0
    else if below == 0 then t >= 0
    else InRange(above, below, t)
  }

  /** The promised duty over one period is met exactly from the states in range; a state left over from another
      ratio can break it. With nothing above it is from a negative state, with nothing below from any other. */
  lemma ExactDuty(above: int, below: int, t: int)
    requires above >= 0 && below >= 0
    ensures Pulses(above, below, t, above + below) == above <==> Keeps(above, below, t)
  {
    var n: nat := above + below;
    if above == 0 {
      NothingAbove(below, t, n);
    } else {
      Balance(above, below, t, n);
      if below == 0 {
        AllAbove(above, t, n);
      } else if InRange(above, below, t) {
        EveryWindow(above, below, t, 0, n);
      } else if t >= above {
        NeverAbove(above, below, t, n);
      } else {
        NeverBelow(above, below, t, n);
      }
    }
  }

  /** After centring the promised duty is met for all ratios but 0 to 1, which gives one stray pulse. */
  lemma CentredDutyExactly(above: int, below: int)
    requires above >= 0 && below >= 0
    ensures var t := Truncated(above - below, 2);
      Pulses(above, below, t, above + below) == above <==> !(above == 0 && below == 1)
  {
    ExactDuty(above, below, Truncated(above - below, 2));
  }

  // ----- where centring starts -----

  /** Division toward zero: what is left is smaller than the divisor, and on the same side. */
  lemma TruncatedIs(a: int, b: int)
    requires b > 0
    ensures a >= 0 ==> 0 <= a - b * Truncated(a, b) < b && Truncated(a, b) >= 0
    ensures a <= 0 ==> -b < a - b * Truncated(a, b) <= 0 && Truncated(a, b) <= 0
  {
  }

  lemma {:induction false} PulsesRun(above: int, below: int, t: int, n: nat)
    requires below >= 1 && (n > 0 ==> t >= (n - 1) * below)
    ensures After(above, below, t, n) == t - n * below
    ensures forall i :: 0 <= i < n ==> After(above, below, t, i) >= 0
  {
    if n > 0 {
      assert (n - 1) * below == n * below - below;
      if n > 1 { assert (n - 2) * below == (n - 1) * below - below; }
      PulsesRun(above, below, t, n - 1);
    }
  }

  lemma {:induction false} PausesRun(above: int, below: int, t: int, n: nat)
    requires above >= 1 && (n > 0 ==> t + (n - 1) * above < 0)
    ensures After(above, below, t, n) == t + n * above
    ensures forall i :: 0 <= i < n ==> After(above, below, t, i) < 0
  {
    if n > 0 {
      assert (n - 1) * above == n * above - above;
      if n > 1 { assert (n - 2) * above == (n - 1) * above - above; }
      PausesRun(above, below, t, n - 1);
    }
  }

  /** The first k calls return true, the next one does not, and a whole run has twice as many, to within one. */
  ghost predicate StartsUp(above: int, below: int, t: int, k: nat)
    requires below >= 1
  {
    && above / below <= 2 * k <= above / below + 1
    && (forall i :: 0 <= i < k ==> After(above, below, t, i) >= 0) && After(above, below, t, k) < 0
  }

  ghost predicate StartsDown(above: int, below: int, t: int, k: nat)
    requires above >= 1
  {
    && below / above - 2 <= 2 * k <= below / above + 1
    && (forall i :: 0 <= i < k ==> After(above, below, t, i) < 0) && After(above, below, t, k) >= 0
  }

  /** Centring starts halfway through the range, and so about halfway through a run of the more frequent outcome. */
  lemma CentredHalfway(above: int, below: int) returns (k: nat)
    requires above >= 1 && below >= 1
    ensures var t := Truncated(above - below, 2);
      && -1 <= (t + below) - (above - t) <= 1
      && if above >= below then StartsUp(above, below, t, k) else StartsDown(above, below, t, k)
  {
    hide StartsUp, StartsDown, Truncated;
    var t := Truncated(above - below, 2);
    TruncatedIs(above - below, 2);
    if above >= below {
      k := t / below + 1;
      UpRun(above, below, t);
    } else {
      k := (-t + above - 1) / above;
      DownRun(above, below, t);
    }
  }

  lemma UpRun(above: int, below: int, t: int)
    requires above >= below >= 1 && above - below - 1 <= 2 * t <= above - below && t >= 0
    ensures StartsUp(above, below, t, t / below + 1)
  {
    hide After;
    var x := t / below;
    DividedBy(t, below);
    Commutes(x + 1, below);
    Commutes(x, below);
    PulsesRun(above, below, t, x + 1);
    HalfUp(above, below, t, x);
  }

  lemma DownRun(above: int, below: int, t: int)
    requires 1 <= above < below && below - above - 1 <= 2 * -t <= below - above
    ensures (-t + above - 1) / above >= 0 && StartsDown(above, below, t, (-t + above - 1) / above)
  {
    hide After;
    var k := (-t + above - 1) / above;
    DividedBy(-t + above - 1, above);
    Commutes(k, above);
    Commutes(k - 1, above);
    PausesRun(above, below, t, k);
    HalfDown(above, below, t, k);
  }

  lemma Commutes(k: int, d: int)
    ensures k * d == d * k && (k + 1) * d == d * k + d
  {
  }

  lemma DividedBy(n: int, d: int)
    requires d > 0 && n >= 0
    ensures n / d >= 0 && 0 <= n - d * (n / d) < d
  {
  }

  lemma HalfUp(a: int, b: int, t: int, x: int)
    requires a >= b >= 1 && x >= 0 && 0 <= t - b * x < b && a - b - 1 <= 2 * t <= a - b
    ensures a / b <= 2 * (x + 1) <= a / b + 1
  {
    assert b * (2 * x + 3) == 2 * (b * x) + 3 * b && b * (2 * x + 1) == 2 * (b * x) + b;
    QuotientAt(b, 2 * x + 3, a);
    QuotientAt(b, 2 * x + 1, a);
  }

  lemma HalfDown(a: int, b: int, t: int, k: int)
    requires 1 <= a < b && k >= 0 && 0 <= -t + a - 1 - a * k < a && b - a - 1 <= 2 * -t <= b - a
    ensures b / a - 2 <= 2 * k <= b / a + 1
  {
    assert a * (2 * k + 3) == 2 * (a * k) + 3 * a && a * (2 * k - 1) == 2 * (a * k) - a;
    QuotientAt(a, 2 * k + 3, b);
    QuotientAt(a, 2 * k - 1, b);
  }

  /** A quotient reaches m exactly if the number reaches m times the divisor. */
  lemma QuotientAt(d: int, m: int, n: int)
    requires d > 0 && n >= 0
    ensures n / d >= m <==> n >= d * m
  {
    var q := n / d;
    DividedBy(n, d);
    if q >= m {
      NotNegative(d, q - m);
      assert d * (q - m) == d * q - d * m;
    } else {
      NotNegative(d, m - q - 1);
      assert d * (m - q - 1) == d * m - d * q - d;
    }
  }

  lemma NotNegative(d: int, k: int)
    requires d > 0 && k >= 0
    ensures d * k >= 0
  {
  }

  /** A ratio set without centring after another one: the state is out of range, and the duty is missed. */
  method MissedDuty() returns (dither: IntegerTwiddler)
    ensures fresh(dither) && dither.above == 1 && dither.below == 10
    ensures !InRange(1, 10, dither.twiddle) && Pulses(1, 10, dither.twiddle, 11) != 1
  {
    dither := new IntegerTwiddler();
    dither.SetRatio(10, 1, true);
    dither.SetRatio(1, 10, false);
    ExactDuty(1, 10, dither.twiddle);
  }

  /** SetDivider(rate) gives one pulse in every rate + 1 calls, and after each pulse `rate` calls without one. */
  lemma DividerPeriod(rate: int, t: int, m: nat)
    requires rate >= 1 && InRange(1, rate, t)
    ensures Pulses(1, rate, t, m + rate + 1) == Pulses(1, rate, t, m) + 1
    ensures After(1, rate, t, m) >= 0 ==> Pulses(1, rate, t, m + 1 + rate) == Pulses(1, rate, t, m + 1)
  {
    EveryWindow(1, rate, t, m, rate + 1);
  }
}
