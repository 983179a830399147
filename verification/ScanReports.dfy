/** What the peak search of cppext/quadraticfilter.cpp reports, said of the data it searches. */
module ScanReports {
  import opened Moments
  import opened CenteredSlice
  import opened QuadraticFilter
  import opened SavitzkyGolay

  // ----- the estimates as sums over the window -----

  /** The sum of i * data over the window at a location. */
  ghost function Tilt(s: Search, loc: int): int { Moment(1, s.hw, Window(s.mem, s.center + loc, s.w)) }

  ghost function Height(s: Search, loc: int): int {
    var d := Window(s.mem, s.center + loc, s.w);
    (3 * (s.hw * s.hw + s.hw) - 1) * Moment(0, s.hw, d) - 5 * Moment(2, s.hw, d)
  }

  ghost function Bend(s: Search, loc: int): int {
    var d := Window(s.mem, s.center + loc, s.w);
    3 * Moment(2, s.hw, d) - (s.hw * s.hw + s.hw) * Moment(0, s.hw, d)
  }

  /** The bend that the one at a location is compared with: the data's, but for what the filter came with. */
  ghost function BendBefore(s: Search, loc: int): int { if loc == 1 - s.half then s.stale else Bend(s, loc - 1) }

  ghost predicate Scanned(s: Search, loc: int) { -s.half < loc <= s.half }

  /** The tilt passes from positive to negative. */
  ghost predicate Falls(s: Search, loc: int) { Tilt(s, loc - 1) > 0 && Tilt(s, loc) < 0 }

  /** The bend passes from positive to negative. */
  ghost predicate TurnsDown(s: Search, loc: int) { BendBefore(s, loc) > 0 && Bend(s, loc) < 0 }

  /** The bend becomes positive. */
  ghost predicate TurnsUp(s: Search, loc: int) { BendBefore(s, loc) <= 0 && Bend(s, loc) > 0 }

  lemma EstimatesAre(s: Search)
    ensures forall loc :: EstAt(0, s, loc) == Height(s, loc)
    ensures forall loc :: EstAt(1, s, loc) == Tilt(s, loc)
    ensures forall loc :: EstAt(2, s, loc) == Bend(s, loc)
  {
    hide Moment;
  }

  lemma CrossesAre(s: Search)
    ensures forall loc :: Cross(Top, s, loc) <==> Falls(s, loc)
    ensures forall loc :: Cross(Low, s, loc) <==> TurnsDown(s, loc)
    ensures forall loc :: Cross(High, s, loc) <==> TurnsUp(s, loc)
  {
    hide Est, Tilt, Bend, Height;
    EstimatesAre(s);
  }

  // ----- the three reports -----

  /** Top changes only to a place where the tilt falls through zero and the height beats what was remembered; of the
      highest such places it is the first; and where there is none it stays as it was. */
  lemma TopMeans(s: Search, before: Mark, after: Mark)
    requires Picked(Top, s, s.half, before, after)
    ensures after != before ==>
      var loc := after.point.location;
      && Scanned(s, loc) && Falls(s, loc) && after.point.amplitude == Height(s, loc) > before.point.amplitude
      && after.estimate == Tilt(s, loc) && after.delta == Tilt(s, loc) - Tilt(s, loc - 1)
      && forall l :: Scanned(s, l) && l < loc && Falls(s, l) ==> Height(s, l) < Height(s, loc)
    ensures forall loc :: Scanned(s, loc) && Falls(s, loc) ==> Height(s, loc) <= after.point.amplitude
    ensures (forall loc :: Scanned(s, loc) ==> !Falls(s, loc)) ==> after == before
  {
    hide Est, Tilt, Bend, Height, Cross, Falls, TurnsDown, TurnsUp;
    EstimatesAre(s);
    CrossesAre(s);
  }

  /** Low likewise, at the steepest rise where the curvature turns negative. */
  lemma LowMeans(s: Search, before: Mark, after: Mark)
    requires Picked(Low, s, s.half, before, after)
    ensures after != before ==>
      var loc := after.point.location;
      && Scanned(s, loc) && TurnsDown(s, loc) && after.point.amplitude == Tilt(s, loc) > before.point.amplitude
      && after.estimate == Bend(s, loc) && after.delta == Bend(s, loc) - Bend(s, loc - 1)
      && forall l :: Scanned(s, l) && l < loc && TurnsDown(s, l) ==> Tilt(s, l) < Tilt(s, loc)
    ensures forall loc :: Scanned(s, loc) && TurnsDown(s, loc) ==> Tilt(s, loc) <= after.point.amplitude
    ensures (forall loc :: Scanned(s, loc) ==> !TurnsDown(s, loc)) ==> after == before
  {
    hide Est, Tilt, Bend, Height, Cross, Falls, TurnsDown, TurnsUp;
    EstimatesAre(s);
    CrossesAre(s);
  }

  /** High likewise, at the steepest fall where the curvature turns positive. */
  lemma HighMeans(s: Search, before: Mark, after: Mark)
    requires Picked(High, s, s.half, before, after)
    ensures after != before ==>
      var loc := after.point.location;
      && Scanned(s, loc) && TurnsUp(s, loc) && after.point.amplitude == Tilt(s, loc) < before.point.amplitude
      && after.estimate == Bend(s, loc) && after.delta == Bend(s, loc) - Bend(s, loc - 1)
      && forall l :: Scanned(s, l) && l < loc && TurnsUp(s, l) ==> Tilt(s, l) > Tilt(s, loc)
    ensures forall loc :: Scanned(s, loc) && TurnsUp(s, loc) ==> Tilt(s, loc) >= after.point.amplitude
    ensures (forall loc :: Scanned(s, loc) ==> !TurnsUp(s, loc)) ==> after == before
  {
    hide Est, Tilt, Bend, Height, Cross, Falls, TurnsDown, TurnsUp;
    EstimatesAre(s);
    CrossesAre(s);
  }

  // ----- in terms of the fitted parabola -----

  /** The three estimates of any window are positive multiples of what is fitted there. */
  lemma EstimatesAreFitted(mem: seq<int>, hw: nat, w: int, c: int)
    requires hw > 0
    ensures var f := Fitted(hw, Window(mem, c, w));
      && S2(hw) * Est(0, mem, hw, w, c) as real == 5.0 * D4(hw) * f[0]
      && Est(1, mem, hw, w, c) as real == S2(hw) * f[1]
      && S0(hw) * Est(2, mem, hw, w, c) as real == 3.0 * D4(hw) * f[2]
    ensures S0(hw) > 0.0 && S2(hw) > 0.0 && D4(hw) > 0.0
  {
    hide S0, S2, D4, Moment, Window, AmpEstimate, Curvish, Amplitude, Slope, Curvature;
    var y0, y1, y2 := Y(0, mem, hw, w, c), Y(1, mem, hw, w, c), Y(2, mem, hw, w, c);
    FittedIs(hw, Window(mem, c, w));
    AmpEstimateIsMultiple(hw, y0, y2);
    SlopeIs(hw, y1);
    CurvishIsMultiple(hw, y0, y2);
  }

  /** A top is where the slope of the fitted parabola passes from positive to negative. */
  lemma FallsIsFitted(s: Search, loc: int)
    requires s.hw > 0
    ensures Falls(s, loc) <==>
      && Fitted(s.hw, Window(s.mem, s.center + loc - 1, s.w))[1] > 0.0
      && Fitted(s.hw, Window(s.mem, s.center + loc, s.w))[1] < 0.0
  {
    hide S0, S2, D4, Est, Fitted, Tilt, Bend, Height, Window;
    EstimatesAre(s);
    EstimatesAreFitted(s.mem, s.hw, s.w, s.center + loc - 1);
    EstimatesAreFitted(s.mem, s.hw, s.w, s.center + loc);
    FittedIs(s.hw, Window(s.mem, s.center + loc - 1, s.w));
    FittedIs(s.hw, Window(s.mem, s.center + loc, s.w));
    SameSign(S2(s.hw), Fitted(s.hw, Window(s.mem, s.center + loc - 1, s.w))[1], EstAt(1, s, loc - 1) as real);
    SameSign(S2(s.hw), Fitted(s.hw, Window(s.mem, s.center + loc, s.w))[1], EstAt(1, s, loc) as real);
  }

  lemma SameSign(k: real, a: real, e: real)
    requires k > 0.0 && e == k * a
    ensures (e > 0.0 <==> a > 0.0) && (e < 0.0 <==> a < 0.0)
  {
  }

  // ----- scans -----

  /** Searches this data for a window of three points around the middle of five, with a new filter and a new report. */
  method ScanFive(data: seq<int>) returns (report: ScanReport, ghost s: Search)
    requires |data| == 5
    ensures fresh(report) && s == Search(data, 1, 1, 2, 1, 0)
    ensures Picked(Top, s, s.half, Mark(Datum(0, 0), 0, 0), report.top.Value())
  {
    hide Picked;
    var filter := new QuadraticFilter(1);
    var slice := new CenteredSlice(data, 2, 1);
    report := new ScanReport();
    s := filter.Searching(slice);
    filter.Scan(slice, report);
  }

  lemma FiveTilts(data: seq<int>, s: Search, loc: int)
    requires |data| == 5 && s == Search(data, 1, 1, 2, 1, 0) && -1 <= loc <= 1
    ensures Tilt(s, loc) == data[3 + loc] - data[1 + loc]
    ensures Height(s, loc) == 5 * data[2 + loc]
  {
    hide Moment;
    ThreePoints(Window(data, 2 + loc, 1), 1);
  }

  /** Data that only falls has no top. */
  method FallingScan() returns (report: ScanReport)
    ensures report.top.Value() == Mark(Datum(0, 0), 0, 0)
  {
    hide Picked, Tilt, Height;
    var data := [40, 30, 20, 10, 0];
    ghost var s;
    report, s := ScanFive(data);
    forall loc | Scanned(s, loc) ensures !Falls(s, loc) { FiveTilts(data, s, loc - 1); }
    TopMeans(s, Mark(Datum(0, 0), 0, 0), report.top.Value());
  }

  /** A top is found where the data leans over it, */
  method LeaningScan() returns (report: ScanReport)
    ensures report.top.Value() == Mark(Datum(100, 0), -1, -21)
  {
    hide Picked, Tilt, Height;
    var data := [0, 10, 20, 9, 0];
    ghost var s;
    report, s := ScanFive(data);
    FiveTilts(data, s, -1);
    FiveTilts(data, s, 0);
    FiveTilts(data, s, 1);
    assert Falls(s, 0) && !Falls(s, 1) && Scanned(s, 0);
    TopMeans(s, Mark(Datum(0, 0), 0, 0), report.top.Value());
  }

  /** and missed where the data is the same on both sides, since the slope is then zero on the top itself. */
  method EvenScan() returns (report: ScanReport)
    ensures report.top.Value() == Mark(Datum(0, 0), 0, 0)
  {
    hide Picked, Tilt, Height;
    var data := [0, 10, 20, 10, 0];
    ghost var s;
    report, s := ScanFive(data);
    forall loc | Scanned(s, loc) ensures !Falls(s, loc) {
      FiveTilts(data, s, loc - 1);
      FiveTilts(data, s, loc);
    }
    TopMeans(s, Mark(Datum(0, 0), 0, 0), report.top.Value());
  }
}
