/** The sliding parabola fit of cppext/quadraticfilter.cpp and its peak search. */
module QuadraticFilter {
  import opened Moments
  import opened CenteredSlice

  datatype Datum = Datum(amplitude: int, location: int)

  /** What a scan remembers of a place it found. */
  datatype Mark = Mark(point: Datum, estimate: int, delta: int)

  /** The three integer estimates and moment changes of a filter of half width hw at centre c. */
  ghost function Y(k: nat, mem: seq<int>, hw: int, w: int, c: int): int { Moment(k, hw, Window(mem, c, w)) }

  ghost function Delta(k: nat, mem: seq<int>, hw: int, w: int, c: int): int {
    Y(k, mem, hw, w, c) - Y(k, mem, hw, w, c - 1)
  }

  function AmpEstimate(hw: int, y0: int, y2: int): int { (3 * (hw * hw + hw) - 1) * y0 - 5 * y2 }
  function Curvish(hw: int, y0: int, y2: int): int { 3 * y2 - (hw * hw + hw) * y0 }

  ghost function Est(k: nat, mem: seq<int>, hw: int, w: int, c: int): int {
    if k == 0 then AmpEstimate(hw, Y(0, mem, hw, w, c), Y(2, mem, hw, w, c))
    else if k == 1 then Y(1, mem, hw, w, c)
    else Curvish(hw, Y(0, mem, hw, w, c), Y(2, mem, hw, w, c))
  }

  // ----- what a scan looks for -----

  /** A scan of the locations -half < loc <= half around a centre; stale is the curvature estimate the filter
      holds when the scan begins, which is not computed from this data. */
  datatype Search = Search(mem: seq<int>, hw: int, w: int, center: int, half: int, stale: int)

  datatype Kind = Low | High | Top

  ghost function EstAt(k: nat, s: Search, loc: int): int { Est(k, s.mem, s.hw, s.w, s.center + loc) }

  ghost function Before(k: nat, s: Search, loc: int): int {
    if k == 2 && loc == 1 - s.half then s.stale else EstAt(k, s, loc - 1)
  }

  ghost function Order(kind: Kind): nat { if kind == Top then 1 else 2 }

  /** The estimate of the kind's order passes from positive to negative, or for High from not positive to positive. */
  ghost predicate Crosses(kind: Kind, before: int, now: int) {
    if kind == High then before <= 0 && now > 0 else before > 0 && now < 0
  }

  ghost predicate Cross(kind: Kind, s: Search, loc: int) {
    Crosses(kind, Before(Order(kind), s, loc), EstAt(Order(kind), s, loc))
  }

  /** The mark of a location: the estimate one order lower as its amplitude, the estimate, and how much it changed. */
  ghost function Found(kind: Kind, s: Search, loc: int): Mark {
    var k := Order(kind);
    Mark(Datum(EstAt(k - 1, s, loc), loc), EstAt(k, s, loc), EstAt(k, s, loc) - EstAt(k, s, loc - 1))
  }

  ghost function Amp(kind: Kind, s: Search, loc: int): int { EstAt(Order(kind) - 1, s, loc) }

  ghost predicate Beats(kind: Kind, a: int, b: int) { if kind == High then a < b else a > b }

  /** After is the mark of the first of the most extreme crossings at locations up to upto, provided it is
      more extreme than the mark there was before; otherwise nothing changed. */
  ghost predicate Picked(kind: Kind, s: Search, upto: int, before: Mark, after: Mark) {
    if forall loc :: -s.half < loc <= upto && Cross(kind, s, loc) ==>
      !Beats(kind, Amp(kind, s, loc), before.point.amplitude) then
      after == before
    else
      var best := after.point.location;
      && -s.half < best <= upto && Cross(kind, s, best) && after == Found(kind, s, best)
      && Beats(kind, Amp(kind, s, best), before.point.amplitude)
      && (forall loc :: -s.half < loc <= upto && Cross(kind, s, loc) ==>
            !Beats(kind, Amp(kind, s, loc), Amp(kind, s, best)))
      && (forall loc :: -s.half < loc < best && Cross(kind, s, loc) ==>
            Beats(kind, Amp(kind, s, best), Amp(kind, s, loc)))
  }

  class Inflection {
    var point: Datum
    var estimate: int
    var delta: int

    constructor ()
      ensures Value() == Mark(Datum(0, 0), 0, 0)
    {
      point, estimate, delta := Datum(0, 0), 0, 0;
    }

    ghost function Value(): Mark
      reads this
    {
      Mark(point, estimate, delta)
    }

    method RecordIf(changeit: bool, testpoint: Datum) returns (changed: bool)
      modifies this
      ensures changed == changeit
      ensures Value() == if changeit then old(Value()).(point := testpoint) else old(Value())
    {
      if changeit {
        point := testpoint;
      }
      changed := changeit;
    }

    method MorePositive(testpoint: Datum) returns (changed: bool)
      modifies this
      ensures changed == (old(point.amplitude) < testpoint.amplitude)
      ensures Value() == if changed then old(Value()).(point := testpoint) else old(Value())
    {
      changed := RecordIf(point.amplitude < testpoint.amplitude, testpoint);
    }

    method MoreNegative(testpoint: Datum) returns (changed: bool)
      modifies this
      ensures changed == (old(point.amplitude) > testpoint.amplitude)
      ensures Value() == if changed then old(Value()).(point := testpoint) else old(Value())
    {
      changed := RecordIf(point.amplitude > testpoint.amplitude, testpoint);
    }
  }

  class ScanReport {
    const low: Inflection
    const high: Inflection
    const top: Inflection

    ghost predicate Valid() { low != high && low != top && high != top }

    constructor ()
      ensures Valid() && fresh(low) && fresh(high) && fresh(top)
      ensures low.Value() == high.Value() == top.Value() == Mark(Datum(0, 0), 0, 0)
    {
      low := new Inflection();
      high := new Inflection();
      top := new Inflection();
    }
  }

  class QuadraticFilter {
    const hw: int
    /** Whether to step incrementally; the original never sets it. */
    var fastly: bool
    const Ys: array<int>
    const delta: array<int>
    const est: array<int>

    ghost predicate Valid()
    {
      && hw >= 0 && Ys.Length == delta.Length == est.Length == 3
      && Ys != delta && Ys != est && delta != est
    }

    constructor (hw: nat)
      ensures Valid() && this.hw == hw && !fastly
      ensures fresh(Ys) && fresh(delta) && fresh(est)
      ensures forall k :: 0 <= k < 3 ==> Ys[k] == 0 && delta[k] == 0 && est[k] == 0
    {
      this.hw, fastly := hw, false;
      Ys := new int[3](_ => 0);
      delta := new int[3](_ => 0);
      est := new int[3](_ => 0);
    }

    /** The accumulators hold the moments of the slice. */
    ghost predicate Holds(slice: CenteredSlice)
      requires Valid()
      reads slice, Ys
    {
      forall k :: 0 <= k < 3 ==> Ys[k] == Y(k, slice.mem, hw, slice.hwidth, slice.center)
    }

    /** Sums directly. */
    method Init(slice: CenteredSlice)
      requires Valid() && slice.Valid()
      modifies Ys
      ensures Holds(slice)
    {
      hide Moment;
      ghost var d := slice.View();
      Ys[2] := 0;
      Ys[1] := 0;
      Ys[0] := slice.Get(0);
      FirstPoint(d, 0);
      var fi := 1;
      while fi <= hw
        invariant 1 <= fi <= hw + 1
        invariant Ys[0] == Moment(0, fi - 1, d) && Ys[1] == Moment(1, fi - 1, d) && Ys[2] == Moment(2, fi - 1, d)
      {
        var high := slice.Get(fi);
        var low := slice.Get(-fi);
        var sum := high + low;
        var diff := high - low;
        Widen(fi, d);
        Ys[0] := Ys[0] + sum;
        Ys[1] := Ys[1] + fi * diff;
        Ys[2] := Ys[2] + fi * fi * sum;
        fi := fi + 1;
      }
    }

    /** Moves the slice up by one. The incremental branch and the direct one leave the same state, provided
        the slice is as wide as the filter. */
    method Step(slice: CenteredSlice)
      requires Valid() && slice.Valid() && slice.center + 1 + slice.hwidth < |slice.mem|
      requires Holds(slice) && (fastly ==> slice.hwidth == hw)
      modifies slice, Ys, delta, est
      ensures slice.Valid() && slice.center == old(slice.center) + 1
      ensures Holds(slice)
      ensures forall k :: 0 <= k < 3 ==> delta[k] == Delta(k, slice.mem, hw, slice.hwidth, slice.center)
      ensures forall k :: 0 <= k < 3 ==> est[k] == Est(k, slice.mem, hw, slice.hwidth, slice.center)
    {
      hide Moment, AmpEstimate, Curvish;
      if fastly {
        StepFast(slice);
      } else {
        StepSlow(slice);
      }
      est[0] := AmpEstimate(hw, Ys[0], Ys[2]);
      est[1] := Ys[1];
      est[2] := Curvish(hw, Ys[0], Ys[2]);
    }

    method StepFast(slice: CenteredSlice)
      requires Valid() && slice.Valid() && slice.center + 1 + slice.hwidth < |slice.mem|
      requires Holds(slice) && slice.hwidth == hw
      modifies slice, Ys, delta
      ensures slice.Valid() && slice.center == old(slice.center) + 1
      ensures Holds(slice)
      ensures forall k :: 0 <= k < 3 ==> delta[k] == Delta(k, slice.mem, hw, slice.hwidth, slice.center)
    {
      hide Y, Window, Delta;
      ghost var mem, c := slice.mem, slice.center;
      ghost var y0, y1, y2 := Ys[0], Ys[1], Ys[2];
      FastDeltas(mem, c, hw, y0, y1, y2);
      var low := slice.Lowest();
      slice.Step(true);
      var high := slice.Highest();
      var subavg := Ys[0] - low;
      var sum := high + low;
      var diff := high - low;
      delta[2] := hw * hw * diff - 2 * (Ys[1] + hw * low) + subavg;
      Ys[2] := Ys[2] + delta[2];
      delta[1] := hw * sum - subavg;
      Ys[1] := Ys[1] + delta[1];
      delta[0] := diff;
      Ys[0] := Ys[0] + delta[0];
    }

    method StepSlow(slice: CenteredSlice)
      requires Valid() && slice.Valid() && slice.center + 1 + slice.hwidth < |slice.mem|
      requires Holds(slice)
      modifies slice, Ys, delta
      ensures slice.Valid() && slice.center == old(slice.center) + 1
      ensures Holds(slice)
      ensures forall k :: 0 <= k < 3 ==> delta[k] == Delta(k, slice.mem, hw, slice.hwidth, slice.center)
    {
      hide Moment;
      delta[0], delta[1], delta[2] := Ys[0], Ys[1], Ys[2];
      slice.Step(true);
      Init(slice);
      delta[2] := Ys[2] - delta[2];
      delta[1] := Ys[1] - delta[1];
      delta[0] := Ys[0] - delta[0];
    }

    method RecordInflection(flect: Inflection)
      requires Valid()
      modifies flect
      ensures flect.Value() == Mark(old(flect.point), est[2], 3 * delta[2] - (hw * hw + hw) * delta[0])
    {
      flect.estimate := est[2];
      flect.delta := 3 * delta[2] - (hw * hw + hw) * delta[0];
    }

    /** Looks at one location: remembers it where an estimate changes sign and beats what is remembered. */
    method Look(report: ScanReport, location: int, y1waspos: bool, y2waspos: bool)
      requires Valid() && report.Valid()
      modifies report.low, report.high, report.top
      ensures var flect := Mark(Datum(est[1], location), est[2], 3 * delta[2] - (hw * hw + hw) * delta[0]);
        && report.low.Value() ==
          (if y2waspos && est[2] < 0 && est[1] > old(report.low.point.amplitude) then flect
           else old(report.low.Value()))
        && report.high.Value() ==
          (if !y2waspos && est[2] > 0 && est[1] < old(report.high.point.amplitude) then flect
           else old(report.high.Value()))
      ensures report.top.Value() == if y1waspos && est[1] < 0 && est[0] > old(report.top.point.amplitude)
        then Mark(Datum(est[0], location), est[1], delta[1]) else old(report.top.Value())
    {
      if y2waspos {
        if est[2] < 0 {
          var more := report.low.MorePositive(Datum(est[1], location));
          if more {
            RecordInflection(report.low);
          }
        }
      } else {
        if est[2] > 0 {
          var more := report.high.MoreNegative(Datum(est[1], location));
          if more {
            RecordInflection(report.high);
          }
        }
      }
      if y1waspos && est[1] < 0 {
        var more := report.top.MorePositive(Datum(est[0], location));
        if more {
          report.top.delta := delta[1];
          report.top.estimate := est[1];
        }
      }
    }

    ghost function Searching(slice: CenteredSlice): Search
      reads slice, est
      requires Valid()
    {
      Search(slice.mem, hw, if hw <= slice.hwidth then hw else slice.hwidth, slice.center, slice.hwidth, est[2])
    }

    /** Searches a slice that has the filter's width of data outside it on each side. */
    method Scan(slice: CenteredSlice, report: ScanReport)
      requires Valid() && slice.Valid() && report.Valid()
      requires var w := if hw <= slice.hwidth then hw else slice.hwidth;
        0 <= slice.center - slice.hwidth - w && slice.center + slice.hwidth + w < |slice.mem|
      requires fastly ==> hw <= slice.hwidth
      modifies report.low, report.high, report.top, Ys, delta, est
      ensures Picked(Low, old(Searching(slice)), slice.hwidth, old(report.low.Value()), report.low.Value())
      ensures Picked(High, old(Searching(slice)), slice.hwidth, old(report.high.Value()), report.high.Value())
      ensures Picked(Top, old(Searching(slice)), slice.hwidth, old(report.top.Value()), report.top.Value())
    {
      hide Y, Delta, Est, Picked;
      ghost var s := Searching(slice);
      var slider := slice.Endpoint(false, hw);
      Init(slider);
      var location := -slice.hwidth;
      NonePicked(s, report.low.Value(), report.high.Value(), report.top.Value());
      ghost var l0, h0, t0 := report.low.Value(), report.high.Value(), report.top.Value();
      while location < slice.hwidth
        invariant -slice.hwidth <= location <= slice.hwidth
        invariant fresh(slider) && slider.Valid()
          && slider.mem == s.mem && slider.hwidth == s.w && slider.center == s.center + location
        invariant Holds(slider)
        invariant est[2] == Before(2, s, location + 1)
        invariant Picked(Low, s, location, l0, report.low.Value())
        invariant Picked(High, s, location, h0, report.high.Value())
        invariant Picked(Top, s, location, t0, report.top.Value())
      {
        location := location + 1;
        var y2waspos := est[2] > 0;
        var y1waspos := Ys[1] > 0;
        Step(slider);
        MarkIs(s, location, delta[0], delta[1], delta[2]);
        ghost var l, h, t := report.low.Value(), report.high.Value(), report.top.Value();
        Look(report, location, y1waspos, y2waspos);
        PickNext(Low, s, location - 1, l0, l, report.low.Value());
        PickNext(High, s, location - 1, h0, h, report.high.Value());
        PickNext(Top, s, location - 1, t0, t, report.top.Value());
      }
    }
  }

  lemma NonePicked(s: Search, low: Mark, high: Mark, top: Mark)
    ensures Picked(Low, s, -s.half, low, low)
      && Picked(High, s, -s.half, high, high)
      && Picked(Top, s, -s.half, top, top)
  {
  }

  /** The recorded deltas are the changes of the recorded estimates. */
  lemma MarkIs(s: Search, loc: int, d0: int, d1: int, d2: int)
    requires d0 == Delta(0, s.mem, s.hw, s.w, s.center + loc) && d1 == Delta(1, s.mem, s.hw, s.w, s.center + loc)
    requires d2 == Delta(2, s.mem, s.hw, s.w, s.center + loc)
    ensures EstAt(2, s, loc) - EstAt(2, s, loc - 1) == 3 * d2 - (s.hw * s.hw + s.hw) * d0
    ensures EstAt(1, s, loc) - EstAt(1, s, loc - 1) == d1
    ensures EstAt(1, s, loc) == Y(1, s.mem, s.hw, s.w, s.center + loc)
    ensures EstAt(1, s, loc - 1) == Y(1, s.mem, s.hw, s.w, s.center + loc - 1)
  {
    hide Y;
    var r, c := s.hw * s.hw + s.hw, s.center + loc;
    MinusTimes(r, Y(0, s.mem, s.hw, s.w, c), Y(0, s.mem, s.hw, s.w, c - 1));
  }

  lemma MinusTimes(r: int, a: int, b: int)
    ensures r * (a - b) == r * a - r * b
  {
  }

  lemma PickNext(kind: Kind, s: Search, upto: int, before: Mark, mid: Mark, after: Mark)
    requires upto >= -s.half && Picked(kind, s, upto, before, mid)
    requires after == if Cross(kind, s, upto + 1) && Beats(kind, Amp(kind, s, upto + 1), mid.point.amplitude)
                      then Found(kind, s, upto + 1) else mid
    ensures Picked(kind, s, upto + 1, before, after)
  {
    hide Est, Cross;
  }

  /** A scan's outcome is determined by the data. */
  lemma PickedOnce(kind: Kind, s: Search, upto: int, before: Mark, one: Mark, two: Mark)
    requires Picked(kind, s, upto, before, one) && Picked(kind, s, upto, before, two)
    ensures one == two
  {
    hide Est, Cross;
  }

  /** The sign changes seen are those of the data itself exactly when the estimate left over from earlier use
      agrees in sign with the data, or the first estimate is zero, or there is nothing to scan. */
  lemma SeesTrulyExactly(s: Search)
    ensures (forall kind, loc :: -s.half < loc <= s.half && kind != Top ==>
               (Cross(kind, s, loc) <==> Crosses(kind, EstAt(2, s, loc - 1), EstAt(2, s, loc))))
        <==> s.half <= 0 || EstAt(2, s, 1 - s.half) == 0 || (s.stale > 0 <==> EstAt(2, s, -s.half) > 0)
  {
    hide Est;
    var first := 1 - s.half;
    var low := Crosses(Low, EstAt(2, s, -s.half), EstAt(2, s, first));
    var high := Crosses(High, EstAt(2, s, -s.half), EstAt(2, s, first));
    assert Cross(Low, s, first) <==> Crosses(Low, s.stale, EstAt(2, s, first));
    assert Cross(High, s, first) <==> Crosses(High, s.stale, EstAt(2, s, first));
  }

  /** Data whose curvature estimate is positive throughout: a filter that does not come with a positive estimate
      sees a sign change at the first location all the same, and reports it when the slope there is low enough. */
  lemma FalseHigh(s: Search, before: Mark, after: Mark)
    requires s.half > 0 && s.stale <= 0
    requires forall loc :: -s.half <= loc <= s.half ==> EstAt(2, s, loc) > 0
    requires Picked(High, s, s.half, before, after)
    ensures after == if EstAt(1, s, 1 - s.half) < before.point.amplitude then Found(High, s, 1 - s.half) else before
  {
    hide Est;
    var first := 1 - s.half;
    assert Cross(High, s, first);
    forall loc | -s.half < loc <= s.half && Cross(High, s, loc) ensures loc == first { }
    assert Amp(High, s, first) == EstAt(1, s, first);
  }

  /** The squares of 4 to 0. */
  const CONVEX: seq<int> := [16, 9, 4, 1, 0]
  const CONVEX_SEARCH := Search(CONVEX, 1, 1, 2, 1, 0)

  lemma ThreePoints(d: Series, hw: int)
    requires hw == 1
    ensures Moment(0, hw, d) == d(-1) + d(0) + d(1)
      && Moment(1, hw, d) == d(1) - d(-1)
      && Moment(2, hw, d) == d(-1) + d(1)
  {
    hide Moment;
    FirstPoint(d, 0);
    Widen(hw, d);
  }

  lemma ConvexEstimates(loc: int)
    requires -1 <= loc <= 1
    ensures EstAt(2, CONVEX_SEARCH, loc) == 2
    ensures loc == 0 ==> EstAt(1, CONVEX_SEARCH, loc) == -8
  {
    hide Moment;
    ThreePoints(Window(CONVEX, 2 + loc, 1), 1);
  }

  /** A fresh filter reports a high in data that never changes the sign of its curvature. */
  method FreshScan() returns (report: ScanReport)
    ensures fresh(report) && report.high.point == Datum(-8, 0)
    ensures forall loc :: -1 <= loc <= 1 ==> EstAt(2, CONVEX_SEARCH, loc) == 2
  {
    hide Picked, EstAt;
    var filter := new QuadraticFilter(1);
    var slice := new CenteredSlice(CONVEX, 2, 1);
    report := new ScanReport();
    ghost var s := filter.Searching(slice);
    assert s == CONVEX_SEARCH;
    filter.Scan(slice, report);
    forall loc | -1 <= loc <= 1 ensures EstAt(2, CONVEX_SEARCH, loc) == 2 { ConvexEstimates(loc); }
    ConvexEstimates(0);
    FalseHigh(CONVEX_SEARCH, Mark(Datum(0, 0), 0, 0), report.high.Value());
  }

  lemma FirstPoint(d: Series, hw: int)
    requires hw == 0
    ensures Moment(0, hw, d) == d(0) && Moment(1, hw, d) == 0 && Moment(2, hw, d) == 0
  {
  }

  lemma Widen(fi: int, d: Series)
    requires fi >= 1
    ensures Moment(0, fi, d) == Moment(0, fi - 1, d) + (d(fi) + d(-fi))
    ensures Moment(1, fi, d) == Moment(1, fi - 1, d) + fi * (d(fi) - d(-fi))
    ensures Moment(2, fi, d) == Moment(2, fi - 1, d) + fi * fi * (d(fi) + d(-fi))
  {
    hide Moment;
    MomentWidens(0, fi, d);
    MomentWidens(1, fi, d);
    MomentWidens(2, fi, d);
    Powers(fi);
    EvenPowers(fi);
    WidenAlgebra(fi, d(fi), d(-fi));
  }

  lemma WidenAlgebra(fi: int, high: int, low: int)
    ensures fi * high + -fi * low == fi * (high - low)
    ensures fi * fi * high + fi * fi * low == fi * fi * (high + low)
  {
  }

  /** The moments after a step, for a window as wide as the filter. */
  lemma WindowSlides(mem: seq<int>, c: int, hw: int)
    requires hw >= 0 && 0 <= c - hw && c + 1 + hw < |mem|
    ensures var low, high := mem[c - hw], mem[c + 1 + hw];
      && Y(0, mem, hw, hw, c + 1) == Y(0, mem, hw, hw, c) - low + high
      && Y(1, mem, hw, hw, c + 1) == Y(1, mem, hw, hw, c) - Y(0, mem, hw, hw, c) + (hw + 1) * low + hw * high
      && Y(2, mem, hw, hw, c + 1) == Y(2, mem, hw, hw, c) - 2 * Y(1, mem, hw, hw, c) + Y(0, mem, hw, hw, c)
                                     - (hw + 1) * (hw + 1) * low + hw * hw * high
  {
    hide Moment;
    var wide := Window(mem, c, hw + 1);
    forall k: nat ensures Moment(k, hw, wide) == Y(k, mem, hw, hw, c) {
      MomentExt(k, hw, wide, Window(mem, c, hw));
    }
    MomentSlides(hw, wide, Window(mem, c + 1, hw));
  }

  /** The incremental formulas give the changes of the moments. */
  lemma FastDeltas(mem: seq<int>, c: int, hw: int, y0: int, y1: int, y2: int)
    requires hw >= 0 && 0 <= c - hw && c + 1 + hw < |mem|
    requires y0 == Y(0, mem, hw, hw, c) && y1 == Y(1, mem, hw, hw, c) && y2 == Y(2, mem, hw, hw, c)
    ensures var low, high := mem[c - hw], mem[c + 1 + hw];
      && Delta(2, mem, hw, hw, c + 1) == hw * hw * (high - low) - 2 * (y1 + hw * low) + (y0 - low)
      && Delta(1, mem, hw, hw, c + 1) == hw * (high + low) - (y0 - low)
      && Delta(0, mem, hw, hw, c + 1) == high - low
    ensures Y(0, mem, hw, hw, c + 1) == y0 + Delta(0, mem, hw, hw, c + 1)
    ensures Y(1, mem, hw, hw, c + 1) == y1 + Delta(1, mem, hw, hw, c + 1)
    ensures Y(2, mem, hw, hw, c + 1) == y2 + Delta(2, mem, hw, hw, c + 1)
  {
    hide Y;
    WindowSlides(mem, c, hw);
    StepAlgebra(hw, mem[c - hw], mem[c + 1 + hw], y0, y1);
  }

  lemma StepAlgebra(hw: int, low: int, high: int, y0: int, y1: int)
    ensures hw * hw * (high - low) - 2 * (y1 + hw * low) + (y0 - low)
            == -2 * y1 + y0 - (hw + 1) * (hw + 1) * low + hw * hw * high
    ensures hw * (high + low) - (y0 - low) == -y0 + (hw + 1) * low + hw * high
  {
  }
}
