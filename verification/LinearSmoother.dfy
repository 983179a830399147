/** The smoother of cppext/linearsmoother.h: a ring of recent samples with two running moments, and the
    straight line it reads off them. */
module LinearSmoother {
  import opened Sums
  import opened Exchange
  import opened Pivots
  import opened Minimath
  import opened Moments
  import opened PolynomialFit

  /** The data of a window listed oldest first, centred. */
  ghost function Centred(r: seq<int>, hw: nat): Series { i => if 0 <= i + hw < |r| then r[i + hw] else 0 }

  /** Modular counter, cppext/cycler.cpp; one without a length stays at a marker. */
  class Cycler {
    const length: nat
    var value: nat

    ghost predicate Valid()
      reads this
    {
      if length == 0 then value == WORD - 1 else value < length
    }

    constructor (length: nat)
      ensures Valid() && this.length == length && (length > 0 ==> value == 0)
    {
      this.length, value := length, if length > 0 then 0 else WORD - 1;
    }

    method PostIncrement() returns (was: nat)
      requires Valid()
      modifies this
      ensures Valid() && was == old(value)
      ensures value == if length == 0 then was else if was + 1 == length then 0 else was + 1
    {
      was := value;
      if length > 0 {
        value := value + 1;
        if value >= length {
          value := 0;
        }
      }
    }
  }

  class LinearSmoother {
    const hwidth: nat
    var Y0: int
    var Y1: int
    const phaser: Cycler
    const memory: array<int>

    ghost predicate Valid()
      reads this, phaser
    {
      phaser.Valid() && phaser.length == memory.Length == 2 * hwidth + 1
    }

    /** The samples in the window, oldest first. */
    ghost function Recent(): (r: seq<int>)
      requires Valid()
      reads this, phaser, memory
      ensures |r| == 2 * hwidth + 1
    {
      memory[phaser.value..] + memory[..phaser.value]
    }

    /** The accumulators are the moments of the recent samples about the middle one. */
    ghost predicate Tracks()
      requires Valid()
      reads this, phaser, memory
    {
      Y0 == Moment(0, hwidth, Centred(Recent(), hwidth)) && Y1 == Moment(1, hwidth, Centred(Recent(), hwidth))
    }

    constructor (hwidth: nat)
      ensures Valid() && this.hwidth == hwidth && fresh(phaser) && fresh(memory)
      ensures Tracks() && forall i :: 0 <= i < |Recent()| ==> Recent()[i] == 0
    {
      this.hwidth := hwidth;
      phaser := new Cycler(2 * hwidth + 1);
      memory := new int[2 * hwidth + 1];
      new;
      Init(0);
    }

    /** As if the nominal value had been seen for as long as the window remembers. */
    method Init(dc: int)
      requires Valid()
      modifies this, memory
      ensures Valid() && Tracks()
      ensures forall i :: 0 <= i < |Recent()| ==> Recent()[i] == dc
    {
      hide Moment;
      Y0 := dc * memory.Length;
      Y1 := 0;
      var i := memory.Length;
      while i > 0
        invariant 0 <= i <= memory.Length
        invariant Y0 == dc * memory.Length && Y1 == 0
        invariant forall k :: i <= k < memory.Length ==> memory[k] == dc
      {
        i := i - 1;
        memory[i] := dc;
      }
      FlatMoments(Recent(), hwidth, dc);
    }

    /** Forgets the oldest sample and takes in a new one. */
    method Update(Ynew: int)
      requires Valid() && Tracks()
      modifies this, phaser, memory
      ensures Valid() && Tracks()
      ensures Recent() == old(Recent())[1..] + [Ynew]
    {
      hide Moment, Centred;
      ghost var r := Recent();
      var Yold := memory[phaser.value];
      var p := phaser.PostIncrement();
      memory[p] := Ynew;
      Y0 := Y0 - Yold;
      Y1 := Y1 - Y0;
      Y1 := Y1 + hwidth * (Ynew + Yold);
      Y0 := Y0 + Ynew;
      UpdatedMoments(r, hwidth, Ynew);
      assert Recent() == r[1..] + [Ynew];
    }
  }

  lemma FlatMoments(r: seq<int>, hw: nat, dc: int)
    requires |r| == 2 * hw + 1 && forall i :: 0 <= i < |r| ==> r[i] == dc
    ensures Moment(0, hw, Centred(r, hw)) == dc * |r| && Moment(1, hw, Centred(r, hw)) == 0
  {
    hide Moment;
    PowerSums(hw);
    ScaledMoment(0, hw, dc, Centred(r, hw));
    ScaledMoment(1, hw, dc, Centred(r, hw));
  }

  lemma ScaledMoment(k: nat, hw: int, dc: int, d: Series)
    requires forall i :: -hw <= i <= hw ==> d(i) == dc
    ensures Moment(k, hw, d) == dc * Moment(k, hw, Ones())
  {
    hide Power;
    RangeScaled(-hw, hw + 1, dc, Weighted(k, d), Weighted(k, Ones()));
  }

  lemma {:induction false} RangeScaled(lo: int, hi: int, c: int, f: Series, g: Series)
    requires forall i :: lo <= i < hi ==> f(i) == g(i) * c
    ensures RangeSum(lo, hi, f) == c * RangeSum(lo, hi, g)
    decreases hi - lo
  {
    if lo < hi {
      RangeScaled(lo, hi - 1, c, f, g);
      Distribute(c, RangeSum(lo, hi - 1, g), g(hi - 1));
    }
  }

  lemma UpdatedMoments(r: seq<int>, hw: int, y: int)
    requires hw >= 0 && |r| == 2 * hw + 1
    ensures var d, e := Centred(r, hw), Centred(r[1..] + [y], hw);
      && Moment(0, hw, e) == Moment(0, hw, d) - r[0] + y
      && Moment(1, hw, e) == Moment(1, hw, d) - (Moment(0, hw, d) - r[0]) + hw * (y + r[0])
  {
    hide Moment;
    var d, e, w := Centred(r, hw), Centred(r[1..] + [y], hw), Centred(r + [y], hw);
    MomentSlides(hw, w, e);
    MomentExt(0, hw, w, d);
    MomentExt(1, hw, w, d);
    Distribute(hw, y, r[0]);
  }

  // ----- whole runs -----

  /** The window after a run of updates. */
  ghost function After(r: seq<int>, samples: seq<int>): (s: seq<int>)
    requires |r| > 0
    ensures |s| == |r|
  {
    if samples == [] then r
    else After(r, samples[..|samples| - 1])[1..] + [samples[|samples| - 1]]
  }

  /** A run leaves the last samples of all there have been; once the window is full of new ones, nothing of
      the nominal value is left. */
  lemma {:induction false} AfterIsLast(r: seq<int>, samples: seq<int>)
    requires |r| > 0
    ensures After(r, samples) == (r + samples)[|samples|..]
    ensures |samples| >= |r| ==> After(r, samples) == samples[|samples| - |r|..]
  {
    if samples != [] {
      var n := |samples| - 1;
      AfterIsLast(r, samples[..n]);
      OneFurther(r, samples, n);
    }
  }

  lemma OneFurther(r: seq<int>, samples: seq<int>, n: nat)
    requires |r| > 0 && |samples| == n + 1
    ensures (r + samples[..n])[n..][1..] + [samples[n]] == (r + samples)[n + 1..]
  {
    assert (r + samples[..n])[n..][1..] == (r + samples[..n])[n + 1..];
  }

  // ----- the line -----

  function S1(hw: nat): int { (hw + 1) * (2 * hw + 1) }
  function S2(hw: nat): int { hw * S1(hw) }

  function Mean(hw: nat, y0: int): real { y0 as real * (1.0 / (2 * hw + 1) as real) }

  /** The slope read off the first moment with a factor of k; the original's is 3. */
  function Sloped(hw: nat, y1: int, k: real): real
    requires hw > 0
  {
    S2Positive(hw);
    y1 as real * (k / S2(hw) as real)
  }

  function Drift(hw: nat, y1: int): real
    requires hw > 0
  {
    Sloped(hw, y1, 3.0)
  }

  function Now(hw: nat, y0: int, y1: int): real {
    S1Positive(hw);
    (y0 * (hw + 1) + 3 * y1) as real * (1.0 / S1(hw) as real)
  }

  lemma S1Positive(hw: nat)
    ensures S1(hw) > 0
  {
  }

  lemma S2Positive(hw: nat)
    requires hw > 0
    ensures S2(hw) > 0
  {
  }

  /** The line the smoother reports for a window. */
  ghost function Line(hw: nat, d: Series): seq<real>
    requires hw > 0
  {
    [Mean(hw, Moment(0, hw, d)), Drift(hw, Moment(1, hw, d))]
  }

  lemma LineIs(hw: nat, d: Series)
    requires hw > 0
    ensures Line(hw, d) == [Mean(hw, Moment(0, hw, d)), Drift(hw, Moment(1, hw, d))]
  {
  }

  lemma SumOfTwo(f: Vector, n: nat)
    requires n == 2
    ensures Sum(n, f) == f(0) + f(1)
  {
  }

  lemma TwoEquations(c: seq<real>, hw: nat, d: Series)
    requires |c| == 2
    requires Moment(0, hw, d) as real == Times(c[0], Moment(0, hw, Ones()) as real)
    requires Moment(1, hw, d) as real == Times(c[1], Moment(2, hw, Ones()) as real)
    ensures Normal(c, hw, d)
  {
    hide Moment, Sum, PowerMatrix, AllIn, Times, At;
    var n := |c|;
    var flags, A := AllIn(n), PowerMatrix(n, hw);
    PowerSums(hw);
    forall j | 0 <= j < n ensures DataMoments(hw, d)(j) == Sum(n, Terms(flags, Of(c), A, j)) {
      var f := Terms(flags, Of(c), A, j);
      SumOfTwo(f, n);
      assert Play(flags, 0) && Play(flags, 1);
      assert At(A, 0, j) == Moment(0 + j, hw, Ones()) as real && At(A, 1, j) == Moment(1 + j, hw, Ones()) as real;
      TimesUnit(c[0]);
      TimesUnit(c[1]);
    }
  }

  lemma MeanIs(hw: nat, y0: int)
    ensures Times(Mean(hw, y0), (2 * hw + 1) as real) == y0 as real
  {
    Quotient(y0 as real, 1.0, (2 * hw + 1) as real);
  }

  lemma Quotient(y: real, k: real, n: real)
    requires n != 0.0
    ensures Times(y * (k / n), n) == y * k
  {
  }

  lemma DriftIs(hw: nat, y1: int, m2: int)
    requires hw > 0 && 3 * m2 == (2 * hw + 1) * (hw * hw + hw)
    ensures Times(Drift(hw, y1), m2 as real) == y1 as real
  {
  }

  lemma SlopedIs(hw: nat, y1: int, k: real)
    requires hw > 0
    ensures Times(Sloped(hw, y1, k), S2(hw) as real) == y1 as real * k
  {
  }

  lemma LineSolves(hw: nat, d: Series)
    requires hw > 0
    ensures Normal(Line(hw, d), hw, d)
  {
    hide Moment, Mean, Drift, Times, Normal;
    PowerSums(hw);
    MeanIs(hw, Moment(0, hw, d));
    DriftIs(hw, Moment(1, hw, d), Moment(2, hw, Ones()));
    TwoEquations(Line(hw, d), hw, d);
  }

  lemma LineSeparates(hw: nat)
    requires hw > 0
    ensures Separates(2, hw)
  {
    forall c: seq<real> | |c| == 2 && (forall i :: Inside(hw, i) ==> Poly(c, i) == 0.0)
      ensures forall k :: 0 <= k < 2 ==> c[k] == 0.0
    {
      assert Inside(hw, 0) && Inside(hw, 1);
      PolyOfTwo(c, 0);
      PolyOfTwo(c, 1);
    }
  }

  lemma PolyOfTwo(c: seq<real>, i: int)
    requires |c| == 2
    ensures Poly(c, i) == c[0] + Times(c[1], i as real)
  {
  }

  /** The reported line is the least-squares line of the window, and the only one; now is its value at the
      newest sample. */
  lemma LineBest(hw: nat, d: Series)
    requires hw > 0
    ensures Best(Line(hw, d), hw, d)
    ensures forall c: seq<real> :: |c| == 2 && c != Line(hw, d) ==> Deviation(Line(hw, d), hw, d) < Deviation(c, hw, d)
    ensures Now(hw, Moment(0, hw, d), Moment(1, hw, d)) == Poly(Line(hw, d), hw)
  {
    hide Best, Deviation, Moment, Mean, Drift, Now, Poly, Normal, Separates;
    var f := Line(hw, d);
    LineSolves(hw, d);
    NormalBest(f, hw, d);
    LineSeparates(hw);
    forall c: seq<real> | |c| == 2 && c != f ensures Deviation(f, hw, d) < Deviation(c, hw, d) {
      NormalOnlyBest(f, hw, d, c);
    }
    PolyOfTwo(f, hw);
    NowIs(hw, Moment(0, hw, d), Moment(1, hw, d));
  }

  lemma NowIs(hw: nat, y0: int, y1: int)
    requires hw > 0
    ensures Now(hw, y0, y1) == Mean(hw, y0) + Times(Drift(hw, y1), hw as real)
  {
  }

  /** Which factor belongs in the drift: 3, unless the first moment is zero. */
  lemma FactorExactly(hw: nat, d: Series, k: real)
    requires hw > 0
    ensures Best([Mean(hw, Moment(0, hw, d)), Sloped(hw, Moment(1, hw, d), k)], hw, d)
      <==> k == 3.0 || Moment(1, hw, d) == 0
  {
    hide Best, Deviation, Moment, Mean, Sloped;
    var f, g := Line(hw, d), [Mean(hw, Moment(0, hw, d)), Sloped(hw, Moment(1, hw, d), k)];
    LineBest(hw, d);
    SameSlope(hw, Moment(1, hw, d), k);
    if g != f { NotBest(f, g, hw, d); }
  }

  lemma SameSlope(hw: nat, y1: int, k: real)
    requires hw > 0
    ensures Sloped(hw, y1, k) == Sloped(hw, y1, 3.0) <==> k == 3.0 || y1 == 0
  {
    hide Sloped, S2, Times;
    S2Positive(hw);
    SlopedIs(hw, y1, k);
    SlopedIs(hw, y1, 3.0);
    SameProduct(Sloped(hw, y1, k), Sloped(hw, y1, 3.0), S2(hw) as real);
    if y1 != 0 && k != 3.0 { assert y1 as real * (k - 3.0) != 0.0; }
  }

  lemma SameProduct(a: real, b: real, s: real)
    requires s != 0.0
    ensures a == b <==> Times(a, s) == Times(b, s)
  {
    if Times(a, s) == Times(b, s) { assert (a - b) * s == 0.0; }
  }

  lemma NotBest(f: seq<real>, g: seq<real>, hw: nat, d: Series)
    requires |f| == |g| && Deviation(f, hw, d) < Deviation(g, hw, d)
    ensures !Best(g, hw, d)
  {
    hide Deviation;
  }
}
