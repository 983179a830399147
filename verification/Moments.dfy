/** Moments of integer data over a window, and how they change when the window moves by one. */
module Moments {

  type Series = int -> int

  /** Sum of f over lo <= i < hi. */
  ghost function RangeSum(lo: int, hi: int, f: Series): int
    decreases hi - lo
  {
    if lo >= hi then 0 else RangeSum(lo, hi - 1, f) + f(hi - 1)
  }

  lemma {:induction false} RangeFront(lo: int, hi: int, f: Series)
    requires lo < hi
    ensures RangeSum(lo, hi, f) == f(lo) + RangeSum(lo + 1, hi, f)
    decreases hi - lo
  {
    if lo + 1 < hi { RangeFront(lo, hi - 1, f); }
  }

  lemma {:induction false} RangeExt(lo: int, hi: int, f: Series, g: Series)
    requires forall i :: lo <= i < hi ==> f(i) == g(i)
    ensures RangeSum(lo, hi, f) == RangeSum(lo, hi, g)
    decreases hi - lo
  {
    if lo < hi { RangeExt(lo, hi - 1, f, g); }
  }

  lemma {:induction false} RangeShift(lo: int, hi: int, f: Series, g: Series)
    requires forall i :: lo <= i < hi ==> f(i) == g(i + 1)
    ensures RangeSum(lo, hi, f) == RangeSum(lo + 1, hi + 1, g)
    decreases hi - lo
  {
    if lo < hi { RangeShift(lo, hi - 1, f, g); }
  }

  lemma {:induction false} RangeLinear(lo: int, hi: int, f: Series, g: Series, h: Series, s: int, t: int, k: Series)
    requires forall i :: lo <= i < hi ==> k(i) == f(i) + s * g(i) + t * h(i)
    ensures RangeSum(lo, hi, k) == RangeSum(lo, hi, f) + s * RangeSum(lo, hi, g) + t * RangeSum(lo, hi, h)
    decreases hi - lo
  {
    if lo < hi {
      RangeLinear(lo, hi - 1, f, g, h, s, t, k);
      Distribute(s, RangeSum(lo, hi - 1, g), g(hi - 1));
      Distribute(t, RangeSum(lo, hi - 1, h), h(hi - 1));
    }
  }

  lemma Distribute(s: int, a: int, b: int)
    ensures s * (a + b) == s * a + s * b
  {
  }

  /** The k-th power of i times the datum at i. */
  ghost function Weighted(k: nat, d: Series): Series { i => Power(i, k) * d(i) }

  ghost function Power(i: int, k: nat): int { if k == 0 then 1 else i * Power(i, k - 1) }

  /** The k-th moment of d over -hw .. hw. */
  ghost function Moment(k: nat, hw: int, d: Series): int { RangeSum(-hw, hw + 1, Weighted(k, d)) }

  lemma Powers(i: int)
    ensures Power(i, 0) == 1 && Power(i, 1) == i && Power(i, 2) == i * i
    ensures Power(i, 3) == i * i * i && Power(i, 4) == i * i * i * i
  {
  }

  /** Widening the window by one point on each side. */
  lemma MomentWidens(k: nat, hw: int, d: Series)
    requires hw > 0
    ensures Moment(k, hw, d) == Moment(k, hw - 1, d) + Power(hw, k) * d(hw) + Power(-hw, k) * d(-hw)
  {
    RangeFront(-hw, hw + 1, Weighted(k, d));
  }

  lemma MomentExt(k: nat, hw: int, d: Series, e: Series)
    requires forall i :: -hw <= i <= hw ==> d(i) == e(i)
    ensures Moment(k, hw, d) == Moment(k, hw, e)
  {
    RangeExt(-hw, hw + 1, Weighted(k, d), Weighted(k, e));
  }

  /** The sum of (i - 1)^k d(i) over the window, from the sum over the window moved up by one. */
  ghost function Lagged(k: nat, d: Series): Series { i => Power(i - 1, k) * d(i) }

  lemma SlidesToLagged(k: nat, hw: int, d: Series, e: Series)
    requires hw >= 0 && forall i :: -hw <= i <= hw ==> e(i) == d(i + 1)
    ensures Moment(k, hw, e) ==
      RangeSum(-hw, hw + 1, Lagged(k, d)) - Power(-hw - 1, k) * d(-hw) + Power(hw, k) * d(hw + 1)
  {
    hide Power;
    var g := Lagged(k, d);
    RangeShift(-hw, hw + 1, Weighted(k, e), g);
    RangeFront(-hw, hw + 2, g);
  }

  lemma LaggedIs(k: nat, i: int, d: Series)
    requires k <= 2
    ensures Lagged(k, d)(i) == Weighted(k, d)(i)
                             + (if k == 2 then -2 else if k == 1 then -1 else 0)
                               * Weighted(if k == 2 then 1 else 0, d)(i)
                             + (if k == 2 then 1 else 0) * Weighted(0, d)(i)
  {
    Powers(i);
    Powers(i - 1);
    Binomial(i, d(i));
  }

  lemma Binomial(i: int, x: int)
    ensures (i - 1) * x == i * x - x
    ensures ((i - 1) * (i - 1)) * x == (i * i) * x - 2 * (i * x) + x
  {
  }

  lemma LaggedSum(k: nat, hw: int, d: Series)
    requires k <= 2
    ensures RangeSum(-hw, hw + 1, Lagged(k, d)) ==
            Moment(k, hw, d) + (if k == 2 then -2 else if k == 1 then -1 else 0)
              * Moment(if k == 2 then 1 else 0, hw, d)
                             + (if k == 2 then 1 else 0) * Moment(0, hw, d)
  {
    hide Power, Lagged, Weighted;
    var s, t, j := if k == 2 then -2 else if k == 1 then -1 else 0, if k == 2 then 1 else 0, if k == 2 then 1 else 0;
    forall i ensures Lagged(k, d)(i) == Weighted(k, d)(i) + s * Weighted(j, d)(i) + t * Weighted(0, d)(i) {
      LaggedIs(k, i, d);
    }
    RangeLinear(-hw, hw + 1, Weighted(k, d), Weighted(j, d), Weighted(0, d), s, t, Lagged(k, d));
  }

  /** The window moved up by one: e(i) = d(i + 1). */
  lemma MomentSlides(hw: int, d: Series, e: Series)
    requires hw >= 0 && forall i :: -hw <= i <= hw ==> e(i) == d(i + 1)
    ensures var low, high := d(-hw), d(hw + 1);
      && Moment(0, hw, e) == Moment(0, hw, d) - low + high
      && Moment(1, hw, e) == Moment(1, hw, d) - Moment(0, hw, d) + (hw + 1) * low + hw * high
      && Moment(2, hw, e) == Moment(2, hw, d) - 2 * Moment(1, hw, d) + Moment(0, hw, d)
                             - (hw + 1) * (hw + 1) * low + hw * hw * high
  {
    hide Moment;
    SlidesToLagged(0, hw, d, e);
    SlidesToLagged(1, hw, d, e);
    SlidesToLagged(2, hw, d, e);
    LaggedSum(0, hw, d);
    LaggedSum(1, hw, d);
    LaggedSum(2, hw, d);
    Powers(hw);
    Powers(-hw - 1);
    Signs(hw, d(-hw));
  }

  lemma Signs(hw: int, low: int)
    ensures (-hw - 1) * low == -((hw + 1) * low)
    ensures ((-hw - 1) * (-hw - 1)) * low == (hw + 1) * (hw + 1) * low
  {
  }

  // ----- the window itself -----

  ghost function Ones(): Series { i => 1 }

  lemma EvenPowers(hw: int)
    ensures Power(-hw, 0) == 1 && Power(-hw, 1) == -hw && Power(-hw, 2) == hw * hw
    ensures Power(-hw, 3) == -(hw * hw * hw) && Power(-hw, 4) == hw * hw * hw * hw
  {
  }

  /** Sums of powers over the window, in closed form. */
  lemma {:induction false} PowerSums(hw: int)
    requires hw >= 0
    ensures Moment(0, hw, Ones()) == 2 * hw + 1
    ensures Moment(1, hw, Ones()) == 0 && Moment(3, hw, Ones()) == 0
    ensures 3 * Moment(2, hw, Ones()) == (2 * hw + 1) * (hw * hw + hw)
    ensures 15 * Moment(4, hw, Ones()) == (2 * hw + 1) * (hw * hw + hw) * (3 * (hw * hw + hw) - 1)
    decreases hw
  {
    hide Moment;
    if hw == 0 {
      PointSums();
    } else {
      PowerSums(hw - 1);
      Powers(hw);
      EvenPowers(hw);
      MomentWidens(0, hw, Ones());
      MomentWidens(1, hw, Ones());
      MomentWidens(2, hw, Ones());
      MomentWidens(3, hw, Ones());
      MomentWidens(4, hw, Ones());
      ClosedForms(hw);
    }
  }

  lemma PointSums()
    ensures Moment(0, 0, Ones()) == 1
    ensures Moment(1, 0, Ones()) == 0 && Moment(2, 0, Ones()) == 0
      && Moment(3, 0, Ones()) == 0 && Moment(4, 0, Ones()) == 0
  {
    hide Moment;
    Powers(0);
    OnePoint(0, 0, Ones());
    OnePoint(1, 0, Ones());
    OnePoint(2, 0, Ones());
    OnePoint(3, 0, Ones());
    OnePoint(4, 0, Ones());
  }

  lemma OnePoint(k: nat, hw: int, d: Series)
    requires hw == 0
    ensures Moment(k, hw, d) == Power(0, k) * d(0)
  {
    var f := Weighted(k, d);
    assert RangeSum(-hw, hw + 1, f) == RangeSum(-hw, hw, f) + f(hw);
  }

  lemma ClosedForms(h: int)
    ensures (2 * (h - 1) + 1) * ((h - 1) * (h - 1) + (h - 1)) + 3 * (h * h + h * h) == (2 * h + 1) * (h * h + h)
    ensures (2 * (h - 1) + 1) * ((h - 1) * (h - 1) + (h - 1)) * (3 * ((h - 1) * (h - 1) + (h - 1)) - 1)
            + 15 * (h * h * h * h + h * h * h * h) == (2 * h + 1) * (h * h + h) * (3 * (h * h + h) - 1)
  {
  }
}
