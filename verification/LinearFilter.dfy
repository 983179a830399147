/** The sliding line fit of system/linearfilter.cpp: the first two moments of the parabola filter. */
module LinearFilter {
  import opened Minimath
  import opened Moments
  import opened CenteredSlice
  import opened PolynomialFit
  import LinearSmoother
  import QuadraticFilter

  // ----- the filter's constants, by the constructor's formulas -----

  function S0(hw: nat): real { (2 * hw + 1) as real }
  function S2(hw: nat): real { S0(hw) * hw as real * (hw + 1) as real / 3.0 }

  function Amplitude(hw: nat, y0: int): real { Ratio(y0 as real, S0(hw)) }
  function Slope(hw: nat, y1: int): real { Ratio(y1 as real, S2(hw)) }

  class LinearFilter {
    const hw: int
    const Ys: array<int>
    const delta: array<int>

    ghost predicate Valid()
    {
      hw >= 0 && Ys.Length == delta.Length == 2 && Ys != delta
    }

    constructor (hw: nat)
      ensures Valid() && this.hw == hw && fresh(Ys) && fresh(delta)
    {
      this.hw := hw;
      Ys := new int[2](_ => 0);
      delta := new int[2](_ => 0);
    }

    /** The accumulators hold the moments of the slice. */
    ghost predicate Holds(slice: CenteredSlice)
      requires Valid()
      reads slice, Ys
    {
      forall k :: 0 <= k < 2 ==> Ys[k] == QuadraticFilter.Y(k, slice.mem, hw, slice.hwidth, slice.center)
    }

    /** Sums directly. */
    method Init(slice: CenteredSlice)
      requires Valid() && slice.Valid()
      modifies Ys
      ensures Holds(slice)
    {
      hide Moment;
      ghost var d := slice.View();
      Ys[1] := 0;
      Ys[0] := slice.Get(0);
      QuadraticFilter.FirstPoint(d, 0);
      var fi := 1;
      while fi <= hw
        invariant 1 <= fi <= hw + 1
        invariant Ys[0] == Moment(0, fi - 1, d) && Ys[1] == Moment(1, fi - 1, d)
      {
        var high := slice.Get(fi);
        var low := slice.Get(-fi);
        QuadraticFilter.Widen(fi, d);
        Ys[0] := Ys[0] + (high + low);
        Ys[1] := Ys[1] + fi * (high - low);
        fi := fi + 1;
      }
    }

    /** Moves the slice, as wide as the filter, up by one: the accumulators agree with the direct sums. */
    method Step(slice: CenteredSlice)
      requires Valid() && slice.Valid() && slice.center + 1 + slice.hwidth < |slice.mem|
      requires Holds(slice) && slice.hwidth == hw
      modifies slice, Ys, delta
      ensures slice.Valid() && slice.center == old(slice.center) + 1
      ensures Holds(slice)
      ensures forall k :: 0 <= k < 2 ==>
        delta[k] == QuadraticFilter.Delta(k, slice.mem, hw, slice.hwidth, slice.center)
    {
      hide QuadraticFilter.Y, QuadraticFilter.Delta, Window;
      ghost var mem, c := slice.mem, slice.center;
      QuadraticFilter.FastDeltas(mem, c, hw, Ys[0], Ys[1], QuadraticFilter.Y(2, mem, hw, hw, c));
      var low := slice.Lowest();
      slice.Step(true);
      var high := slice.Highest();
      delta[1] := hw * (high + low) - (Ys[0] - low);
      Ys[1] := Ys[1] + delta[1];
      delta[0] := high - low;
      Ys[0] := Ys[0] + delta[0];
    }
  }

  lemma SameLine(hw: nat, y0: int, y1: int)
    requires hw > 0
    ensures Amplitude(hw, y0) == LinearSmoother.Mean(hw, y0) && Slope(hw, y1) == LinearSmoother.Drift(hw, y1)
  {
    RealTimes(hw + 1, 2 * hw + 1);
    RealTimes(hw, LinearSmoother.S1(hw));
    LinearSmoother.S2Positive(hw);
    SameQuotient(y1 as real, S2(hw), LinearSmoother.S2(hw) as real);
  }

  lemma SameQuotient(y: real, s: real, t: real)
    requires t == 3.0 * s && t > 0.0
    ensures Ratio(y, s) == y * (3.0 / t)
  {
  }

  /** Amplitude and slope are the only least-squares line of the window. */
  lemma LineBest(hw: nat, d: Series)
    requires hw > 0
    ensures var line := [Amplitude(hw, Moment(0, hw, d)), Slope(hw, Moment(1, hw, d))];
      && Best(line, hw, d)
      && forall c: seq<real> :: |c| == 2 && c != line ==> Deviation(line, hw, d) < Deviation(c, hw, d)
  {
    hide *;
    SameLine(hw, Moment(0, hw, d), Moment(1, hw, d));
    LinearSmoother.LineBest(hw, d);
    LinearSmoother.LineIs(hw, d);
  }
}
