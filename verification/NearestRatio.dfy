/** Which ratio within a limit is nearest to a number, and when it is the one that a run of
    cppext/continuedfractionratiogenerator.cpp ends with. */
module NearestRatio {
  import opened Convergents
  import opened Minimath
  import opened Sums

  /** The distance between a number and the value that a ratio is given. */
  ghost function Distance(x: real, h: int, k: int): real { Abs(x - Ratio(h as real, k as real)) }

  /** No ratio within the limit is nearer to x. */
  ghost predicate Nearest(x: real, limit: int, h: int, k: int) {
    forall p, q :: 0 <= p <= limit && 0 < q <= limit ==> Distance(x, p, q) >= Distance(x, h, k)
  }

  /** How often the last convergent can be added to the one before without going beyond the limit. */
  ghost function Room(s: State, limit: int): int
    requires s.h1 > 0 && s.k1 > 0
  {
    var t, u := (limit - s.h2) / s.h1, (limit - s.k2) / s.k1;
    if t <= u then t else u
  }

  /** The fraction still to be expanded is so small that no mixture of the last two convergents within the limit
      gets nearer than the last one. */
  ghost predicate Settled(s: State, limit: int)
    requires s.h1 > 0 && s.k1 > 0
  {
    s.f * (2 * Room(s, limit) * s.k1 + s.k2) as real <= s.k1 as real
  }

  // ----- comparing distances -----

  lemma DistanceMiss(x: real, h: int, k: int)
    requires k > 0
    ensures Times(Distance(x, h, k), k as real) == Abs(Miss(x, h, k))
  {
    MissScaled(x, h, k);
  }

  lemma Scale(a: real, b: real, c: real)
    requires c > 0.0
    ensures a < b <==> Times(a, c) < Times(b, c)
  {
    if a < b { Grows(a, b, c); } else { Grows(b, a, c); }
  }

  lemma Grows(a: real, b: real, c: real)
    requires c > 0.0
    ensures a <= b ==> Times(a, c) <= Times(b, c)
    ensures a < b ==> Times(a, c) < Times(b, c)
  {
    assert (b - a) * c == b * c - a * c;
  }

  /** Two distances, of which one is w * m / q and the other f * m / k. */
  lemma Compare(d: real, e: real, q: real, k: real, w: real, f: real, m: real)
    requires q > 0.0 && k > 0.0 && m > 0.0
    requires Times(d, q) == Times(w, m) && Times(e, k) == Times(f, m)
    ensures d < e <==> Times(k, w) < Times(f, q)
  {
    hide Times;
    Scale(d, e, q);
    Scale(Times(d, q), Times(e, q), k);
    TimesAssociates(e, q, k);
    TimesSwap(q, k);
    TimesAssociates(e, k, q);
    TimesAssociates(f, m, q);
    TimesSwap(m, q);
    TimesAssociates(f, q, m);
    TimesSwap(Times(w, m), k);
    TimesAssociates(k, w, m);
    Scale(Times(k, w), Times(f, q), m);
  }

  /** How far u and v steps along the last two convergents are from x, against the last one. */
  lemma NearerIf(x: real, s: State, u: int, v: int, p: int, q: int)
    requires Tracks(x, s) && s.k1 > 0 && q > 0
    requires p == u * s.h1 + v * s.h2 && q == u * s.k1 + v * s.k2
    ensures Distance(x, p, q) < Distance(x, s.h1, s.k1)
      <==> Times(s.k1 as real, Abs(v as real - Times(s.f, u as real))) < Times(s.f, q as real)
  {
    hide Tracks, Distance, Miss, Abs, Lin, Times;
    var d1, d2, w := Miss(x, s.h1, s.k1), Miss(x, s.h2, s.k2), v as real - Times(s.f, u as real);
    MissSizes(x, s);
    TracksTail(x, s);
    DistanceMiss(x, p, q);
    DistanceMiss(x, s.h1, s.k1);
    MissCombines(x, u, v, s.h1, s.h2, s.k1, s.k2);
    OpposedSum(u as real, v as real, s.f, d1, d2, w);
    AbsTimes(w, d2);
    AbsTimes(d2, w);
    NotZero(Abs(d2), Width(s));
    Compare(Distance(x, p, q), Distance(x, s.h1, s.k1), q as real, s.k1 as real, Abs(w), s.f, Abs(d2));
  }

  lemma TracksTail(x: real, s: State)
    requires Tracks(x, s)
    ensures Miss(x, s.h1, s.k1) + Times(s.f, Miss(x, s.h2, s.k2)) == 0.0
  {
  }

  lemma NotZero(d: real, w: real)
    requires Times(d, w) == 1.0 && d >= 0.0
    ensures d > 0.0
  {
  }

  // ----- the exact condition -----

  /** The comparison of NearerIf with a for f * k1 and b for f * k2. */
  ghost predicate Gains(u: int, v: int, a: real, b: real, k: real) {
    Abs(Times(v as real, k) - Times(u as real, a)) < Lin(u as real, a, v as real, b)
  }

  lemma GainsIf(s: State, u: int, v: int)
    requires s.k1 > 0
    ensures Times(s.k1 as real, Abs(v as real - Times(s.f, u as real)))
        < Times(s.f, (u * s.k1 + v * s.k2) as real)
      <==> Gains(u, v, Times(s.f, s.k1 as real), Times(s.f, s.k2 as real), s.k1 as real)
  {
    ScaledAbs(s.k1 as real, v as real, s.f, u as real);
    ScaledWidth(s.f, u, v, s.k1, s.k2);
  }

  lemma ScaledAbs(k: real, v: real, f: real, u: real)
    requires k > 0.0
    ensures Times(k, Abs(v - Times(f, u))) == Abs(Times(v, k) - Times(u, Times(f, k)))
  {
    var w := v - f * u;
    assert k * w == v * k - u * (f * k);
    AbsTimes(k, w);
  }

  lemma ScaledWidth(f: real, u: int, v: int, k1: int, k2: int)
    ensures Times(f, (u * k1 + v * k2) as real) == Lin(u as real, Times(f, k1 as real), v as real, Times(f, k2 as real))
  {
    assert (u * k1 + v * k2) as real == u as real * k1 as real + v as real * k2 as real;
  }

  /** Only mixtures with both convergents in them gain anything. */
  lemma GainsNothing(u: int, v: int, a: real, b: real, k: real)
    requires a >= 0.0 && 0.0 <= b < k && (u <= 0 || v <= 0)
    ensures !Gains(u, v, a, b, k)
  {
    var y, z := v as real, u as real;
    if v < 0 {
      assert -y * (k + b) >= 0.0;
    } else if v > 0 {
      assert y * (k - b) > 0.0;
      assert z * a <= 0.0;
    }
  }

  lemma GainsLittle(u: int, v: int, t: int, a: real, b: real, k: real)
    requires a >= 0.0 && 0.0 <= b < k && 1 <= u <= t && v >= 1
    requires 2.0 * Times(t as real, a) + b <= k
    ensures !Gains(u, v, a, b, k)
  {
    var y, z := v as real, u as real;
    Grows(z, t as real, a + 1.0);
    assert (t as real - z) * a >= 0.0;
    assert (y - 1.0) * (k - b) >= 0.0;
  }

  lemma GainsMuch(t: int, a: real, b: real, k: real)
    requires a >= 0.0 && b >= 0.0 && t >= 0 && k > 0.0
    requires 2.0 * Times(t as real, a) + b > k
    ensures Gains(t, 1, a, b, k)
  {
  }

  lemma RoomIs(s: State, limit: int)
    requires s.h1 > 0 && s.k1 > 0 && 0 <= s.h2 <= limit && 0 <= s.k2 <= limit
    ensures var t := Room(s, limit); t >= 0 && t * s.h1 + s.h2 <= limit && t * s.k1 + s.k2 <= limit
  {
    Divided(limit - s.h2, s.h1, Room(s, limit));
    Divided(limit - s.k2, s.k1, Room(s, limit));
  }

  lemma Divided(n: int, d: int, t: int)
    requires d > 0 && n >= 0
    ensures n / d >= 0 && (t <= n / d <==> t * d <= n)
  {
    var q, r := n / d, n % d;
    assert n == d * q + r;
    if t <= q { assert (q - t) * d >= 0; } else { assert (t - q - 1) * d >= 0; }
  }

  lemma RoomMost(s: State, limit: int, u: int, v: int)
    requires s.h1 > 0 && s.k1 > 0 && 0 <= s.h2 <= limit && 0 <= s.k2 <= limit && u >= 1 && v >= 1
    requires u * s.h1 + v * s.h2 <= limit && u * s.k1 + v * s.k2 <= limit
    ensures u <= Room(s, limit)
  {
    assert (v - 1) * s.h2 >= 0 && (v - 1) * s.k2 >= 0;
    Divided(limit - s.h2, s.h1, u);
    Divided(limit - s.k2, s.k1, u);
  }

  /** Settled in terms of a and b. */
  lemma SettledIf(s: State, limit: int)
    requires s.h1 > 0 && s.k1 > 0
    ensures Settled(s, limit) <==>
      2.0 * Times(Room(s, limit) as real, Times(s.f, s.k1 as real)) + Times(s.f, s.k2 as real) <= s.k1 as real
  {
    hide Room;
    var t := Room(s, limit);
    assert (2 * t * s.k1 + s.k2) as real == 2.0 * (t as real * s.k1 as real) + s.k2 as real;
  }

  /** What the tracking state and its order give for a and b. */
  lemma Parts(s: State)
    requires 0.0 <= s.f < 1.0 && s.k1 > 0 && 0 <= s.k2 <= s.k1
    ensures Times(s.f, s.k1 as real) >= 0.0 && 0.0 <= Times(s.f, s.k2 as real) < s.k1 as real
  {
    if s.k2 > 0 { Grows(s.f, 1.0, s.k2 as real); }
    NonNegativeProduct(s.f, s.k1 as real);
    NonNegativeProduct(s.f, s.k2 as real);
  }

  /** For any state of a run: its ratio is the nearest within the limit if and only if the fraction has settled. */
  lemma NearestExactly(x: real, s: State, limit: int)
    requires Tracks(x, s) && s.k1 > 0 && s.k2 <= s.k1 && s.h2 <= limit && s.k1 <= limit
    ensures Nearest(x, limit, s.h1, s.k1) <==> Settled(s, limit)
  {
    hide Tracks, Distance, Room, Settled, Gains;
    TracksRange(x, s);
    SettledIf(s, limit);
    Parts(s);
    RoomIs(s, limit);
    var t, a, b := Room(s, limit), Times(s.f, s.k1 as real), Times(s.f, s.k2 as real);
    if Settled(s, limit) {
      forall p, q | 0 <= p <= limit && 0 < q <= limit
        ensures Distance(x, p, q) >= Distance(x, s.h1, s.k1)
      {
        NothingNearer(x, s, limit, p, q);
      }
    } else {
      GainsMuch(t, a, b, s.k1 as real);
      NotEmpty(s, t);
      NearerIf(x, s, t, 1, t * s.h1 + s.h2, t * s.k1 + s.k2);
      GainsIf(s, t, 1);
    }
  }

  lemma NotEmpty(s: State, t: int)
    requires t >= 0 && s.h1 > 0 && s.k1 > 0 && s.h2 >= 0 && s.k2 >= 0
    requires 2.0 * Times(t as real, Times(s.f, s.k1 as real)) + Times(s.f, s.k2 as real) > s.k1 as real
    ensures t * s.k1 + s.k2 > 0 && t * s.h1 + s.h2 >= 0
  {
    assert t * s.k1 >= 0 && t * s.h1 >= 0;
    if t > 0 {
      assert t * s.k1 >= s.k1;
    } else {
      assert Times(0.0, Times(s.f, s.k1 as real)) == 0.0 && Times(s.f, 0.0) == 0.0;
    }
  }

  lemma NothingNearer(x: real, s: State, limit: int, p: int, q: int)
    requires Tracks(x, s) && s.k1 > 0 && s.k2 <= s.k1 && s.h1 > 0 && 0 <= s.h2 <= limit && s.k1 <= limit
    requires Settled(s, limit) && 0 <= p <= limit && 0 < q <= limit
    ensures Distance(x, p, q) >= Distance(x, s.h1, s.k1)
  {
    hide Distance, Room, Settled, Gains, Miss;
    TracksRange(x, s);
    SettledIf(s, limit);
    Parts(s);
    var a, b, k := Times(s.f, s.k1 as real), Times(s.f, s.k2 as real), s.k1 as real;
    var u, v := Basis(s, p, q);
    NearerIf(x, s, u, v, p, q);
    GainsIf(s, u, v);
    if u >= 1 && v >= 1 {
      RoomMost(s, limit, u, v);
      GainsLittle(u, v, Room(s, limit), a, b, k);
    } else {
      GainsNothing(u, v, a, b, k);
    }
  }

  // ----- whole runs -----

  /** The denominators of a run do not fall, once there is one. */
  ghost predicate Ordered(x: real, s: State)
    requires x > 0.0
  {
    s.h2 <= s.h1 && if s.k1 <= 0 then s == Start(x) else s.k2 <= s.k1
  }

  lemma {:induction false} AfterOrdered(x: real, n: nat)
    requires x > 0.0
    ensures Tracks(x, After(Start(x), n)) && Ordered(x, After(Start(x), n))
  {
    hide Tracks, Coefficient, Next;
    StartTracks(x);
    if n > 0 {
      AfterOrdered(x, n - 1);
      var t := After(Start(x), n - 1);
      if t.f > 0.0 {
        NextTracks(x, t);
        NextOrdered(x, t);
      }
    } else {
      TracksRange(x, Start(x));
      StartOrdered(x);
    }
  }

  lemma StartOrdered(x: real)
    requires x > 0.0
    ensures Ordered(x, Start(x))
  {
  }

  lemma NextOrdered(x: real, s: State)
    requires Tracks(x, s) && s.f > 0.0
    ensures var t := Next(s); t.k2 == s.k1 && t.h2 == s.h1 && t.k1 >= s.k1 && t.k1 > 0 && t.h1 >= s.h1
  {
    hide Tracks, Coefficient;
    TracksRange(x, s);
    TracksOne(x, s);
    CoefficientBounds(s.f);
    NextIntegers(Coefficient(s.f), s);
  }

  /** Without a first step the result is one over zero, which is given the value one. */
  lemma NearestAtOnce(x: real, limit: int)
    requires x > 0.0 && 1 <= limit < WORD && Coefficient(x) == 0 && !CanStep(Start(x), limit)
    ensures Nearest(x, limit, 1, 0) <==> limit == 1
  {
    hide Coefficient, CanStep, Tracks;
    StartTracks(x);
    FirstIsFloor(x);
    RefusedIsTooBig(x, Start(x), limit);
    BeyondLimit(x, limit);
    if limit == 1 {
      forall p, q | 0 <= p <= limit && 0 < q <= limit ensures Distance(x, p, q) >= Distance(x, 1, 0) {
        assert Ratio(p as real, 1.0) == p as real;
      }
    } else {
      assert Distance(x, limit, 1) == x - limit as real;
      assert Distance(x, limit, 1) < Distance(x, 1, 0);
    }
  }

  lemma FirstIsFloor(x: real)
    requires x > 0.0 && Coefficient(x) == 0
    ensures x > 1.0 && Start(x) == State(1.0 / x, 1, 0, 0, 1) && Start(x).f > 0.0
    ensures Next(Start(x)).h1 == x.Floor && Next(Start(x)).k1 == 1
  {
    var f := 1.0 / x;
    assert f * x == 1.0;
    assert 1.0 / f == x;
  }

  lemma BeyondLimit(x: real, limit: int)
    requires x.Floor > limit
    ensures x > limit as real
  {
    FloorBounds(x);
  }

  /** For any ratio whose first coefficient fits and any limit: the result of a run is the nearest ratio within
      the limit if and only if the fraction it leaves has settled; without any step, only for a limit of one. */
  lemma RunNearestExactly(x: real, limit: int, n: nat)
    requires x > 0.0 && Coefficient(x) <= limit && 1 <= limit < WORD && Ends(Start(x), limit, n)
    ensures var s := After(Start(x), n);
      && s.h1 > 0 && s.k1 >= 0
      && (Nearest(x, limit, s.h1, s.k1) <==> if s.k1 == 0 then limit == 1 else Settled(s, limit))
  {
    hide Tracks, Coefficient, Start, CanStep, Nearest, Settled;
    StartTracks(x);
    StartIs(x);
    AfterTracks(x, Start(x), limit, n);
    AfterOrdered(x, n);
    var s := After(Start(x), n);
    TracksRange(x, s);
    if s.k1 == 0 {
      NoStepYet(x, limit, n);
      NearestAtOnce(x, limit);
    } else {
      NearestExactly(x, s, limit);
    }
  }

  lemma NoStepYet(x: real, limit: int, n: nat)
    requires x > 0.0 && Ends(Start(x), limit, n) && After(Start(x), n).k1 == 0 && After(Start(x), n) == Start(x)
    ensures Coefficient(x) == 0 && !CanStep(Start(x), limit)
  {
    hide Coefficient;
    if n > 0 {
      assert CanStep(After(Start(x), 0), limit);
      FirstIsFloor(x);
      LaterPositive(x, limit, n);
    }
  }

  lemma {:induction false} LaterPositive(x: real, limit: int, n: nat)
    requires x > 0.0 && n > 0 && forall i :: 0 <= i < n ==> CanStep(After(Start(x), i), limit)
    ensures After(Start(x), n).k1 > 0
  {
    hide Coefficient, Next, Start;
    AfterOrdered(x, n - 1);
    assert CanStep(After(Start(x), n - 1), limit);
    NextOrdered(x, After(Start(x), n - 1));
  }

  // ----- the limits for which the nearest ratio is certain -----

  /** The run for limit / (limit + 1) ends at one, though (limit - 1) / limit is nearer. */
  lemma NearestMissed(limit: int)
    requires 2 <= limit < WORD
    ensures var x := limit as real / (limit + 1) as real;
      && x > 0.0 && Coefficient(x) == 1 && Ends(Start(x), limit, 0)
      && !Nearest(x, limit, After(Start(x), 0).h1, After(Start(x), 0).k1)
  {
    var x, f := limit as real / (limit + 1) as real, 1.0 / limit as real;
    AlmostOne(limit as real, x, f);
    assert Start(x) == State(f, 1, 0, 1, 1);
    assert Next(Start(x)).k1 == limit + 1;
    NearerToAlmostOne(limit as real, x);
    assert Distance(x, limit - 1, limit) < Distance(x, 1, 1);
  }

  lemma AlmostOne(n: real, x: real, f: real)
    requires n >= 2.0 && x == n / (n + 1.0) && f == 1.0 / n
    ensures x > 0.0 && 1.0 / x == 1.0 + f && 0.0 < f <= 0.5 && 1.0 / f == n
  {
    assert x * (n + 1.0) == n && f * n == 1.0;
    assert x * (1.0 + f) * n == n;
  }

  lemma Smaller(n: real, e: real, g: real)
    requires n >= 2.0 && e * (n + 1.0) == 1.0 && g * n == 1.0
    ensures 0.0 < g - e < e
  {
    assert (g - e) * n == e;
    assert e > 0.0;
  }

  lemma NearerToAlmostOne(n: real, x: real)
    requires n >= 2.0 && x == n / (n + 1.0)
    ensures x < 1.0 && Abs(x - (n - 1.0) / n) < 1.0 - x
  {
    var y := (n - 1.0) / n;
    var e, g := 1.0 - x, 1.0 - y;
    assert x * (n + 1.0) == n && y * n == n - 1.0;
    Smaller(n, e, g);
  }

  /** The nearest ratio is certain, for every ratio whose first coefficient fits, only for a limit of one. */
  lemma NearestCertainExactly(limit: int)
    requires 1 <= limit < WORD
    ensures limit == 1 <==>
            forall x: real, n: nat :: x > 0.0 && Coefficient(x) <= limit && Ends(Start(x), limit, n) ==>
              Nearest(x, limit, After(Start(x), n).h1, After(Start(x), n).k1)
  {
    hide Coefficient, Start, Ends, After, Nearest;
    if limit == 1 {
      forall x: real, n: nat | x > 0.0 && Coefficient(x) <= limit && Ends(Start(x), limit, n)
        ensures Nearest(x, limit, After(Start(x), n).h1, After(Start(x), n).k1)
      {
        NearestWithinOne(x, n);
      }
    } else {
      NearestMissed(limit);
    }
  }

  lemma NearestWithinOne(x: real, n: nat)
    requires x > 0.0 && Coefficient(x) <= 1 && Ends(Start(x), 1, n)
    ensures Nearest(x, 1, After(Start(x), n).h1, After(Start(x), n).k1)
  {
    hide Coefficient, Start, Nearest, CanStep;
    RunNearestExactly(x, 1, n);
    AfterOrdered(x, n);
    StartTracks(x);
    StartIs(x);
    AfterTracks(x, Start(x), 1, n);
    var s := After(Start(x), n);
    TracksRange(x, s);
    if s.k1 == 1 { UnitSettled(x, s); }
  }

  lemma UnitSettled(x: real, s: State)
    requires Tracks(x, s) && s.h1 == s.k1 == 1 && s.h2 <= 1 && s.k2 <= 1
    ensures Settled(s, 1)
  {
    assert s.h2 + s.k2 == 1 && Room(s, 1) == 0;
  }

  /** Four tenths with a limit of four: the run stops at one half, and one third is nearer. */
  lemma NearerThird()
    ensures Coefficient(0.4) == 2 && Ends(Start(0.4), 4, 0)
    ensures After(Start(0.4), 0) == State(0.5, 1, 0, 2, 1)
    ensures LeastMiss(0.4, 4, 1, 2) && !Nearest(0.4, 4, 1, 2)
    ensures Distance(0.4, 1, 3) < Distance(0.4, 1, 2)
  {
    hide LeastMiss, Tracks;
    var half := 0.5;
    assert Start(0.4) == State(half, 1, 0, 2, 1);
    assert Next(Start(0.4)).k1 == 5;
    StartTracks(0.4);
    StopsAtLeastMiss(0.4, Start(0.4), 4);
    assert Distance(0.4, 1, 3) < Distance(0.4, 1, 2);
  }

  // ----- the average of the last two convergents -----

  ghost function Average(s: State): real {
    (Ratio(s.h1 as real, s.k1 as real) + Ratio(s.h2 as real, s.k2 as real)) / 2.0
  }

  /** The average is closer to x than either of the two. */
  ghost predicate AverageCloser(x: real, s: State) {
    && Abs(x - Average(s)) < Distance(x, s.h1, s.k1)
    && Abs(x - Average(s)) < Distance(x, s.h2, s.k2)
  }

  /** It is so if and only if the last convergent is less than three times nearer than the one before. */
  lemma AverageCloserExactly(x: real, s: State)
    requires Tracks(x, s) && (s.k1 > 0 ==> s.k2 <= s.k1)
    ensures AverageCloser(x, s) <==> s.k1 > 0 && s.k1 as real < 3.0 * Times(s.f, s.k2 as real)
  {
    hide Tracks, Miss;
    TracksRange(x, s);
    if s.k1 == 0 {
      NoDenominator(x, s);
    } else if s.k2 == 0 {
      NoDenominatorBefore(x, s);
    } else {
      var e1, e2 := x - Ratio(s.h1 as real, s.k1 as real), x - Ratio(s.h2 as real, s.k2 as real);
      var r := Times(s.f, s.k2 as real) / s.k1 as real;
      MissSizes(x, s);
      TracksTail(x, s);
      ErrorMiss(x, s.h1, s.k1);
      ErrorMiss(x, s.h2, s.k2);
      NotZero(Abs(Miss(x, s.h2, s.k2)), Width(s));
      Opposite(e1, e2, s.f, s.k1 as real, s.k2 as real, r);
      Halfway(e1, e2, r);
      assert x - Average(s) == (e1 + e2) / 2.0;
    }
  }

  lemma ErrorMiss(x: real, h: int, k: int)
    requires k > 0
    ensures Times(x - Ratio(h as real, k as real), k as real) == Miss(x, h, k)
  {
  }

  /** The errors of the two are on opposite sides. */
  lemma Opposite(e1: real, e2: real, f: real, k1: real, k2: real, r: real)
    requires k1 > 0.0 && 0.0 < k2 <= k1 && 0.0 <= f < 1.0 && r == Times(f, k2) / k1
    requires Times(e1, k1) + Times(f, Times(e2, k2)) == 0.0
    ensures e1 == -Times(r, e2) && 0.0 <= r < 1.0 && (3.0 * r > 1.0 <==> k1 < 3.0 * Times(f, k2))
  {
    hide Times;
    QuotientTimes(Times(f, k2), k1, r);
    Grows(f, 1.0, k2);
    TimesNonNegative(f, k2);
    TimesIs(1.0, k2);
    RatioRange(r, k1, Times(f, k2));
    TimesAssociates(f, e2, k2);
    TimesSwap(f, e2);
    TimesAssociates(e2, f, k2);
    TimesAssociates(e2, r, k1);
    TimesSwap(e2, r);
    Cancels(e1, Times(r, e2), k1);
  }

  lemma QuotientTimes(a: real, k: real, r: real)
    requires k > 0.0 && r == a / k
    ensures Times(r, k) == a
  {
  }

  lemma RatioRange(r: real, k: real, a: real)
    requires k > 0.0 && Times(r, k) == a && 0.0 <= a < k
    ensures 0.0 <= r < 1.0 && (3.0 * r > 1.0 <==> k < 3.0 * a)
  {
    Scale(r, 1.0, k);
    Scale(r, 0.0, k);
    Scale(1.0, 3.0 * r, k);
  }

  lemma Cancels(a: real, b: real, k: real)
    requires k > 0.0 && Times(a, k) + Times(b, k) == 0.0
    ensures a == -b
  {
    Scale(a, -b, k);
    Scale(-b, a, k);
  }

  lemma Halfway(e1: real, e2: real, r: real)
    requires e1 == -Times(r, e2) && 0.0 <= r < 1.0 && e2 != 0.0
    ensures Abs((e1 + e2) / 2.0) < Abs(e1) && Abs((e1 + e2) / 2.0) < Abs(e2) <==> 3.0 * r > 1.0
  {
    AbsTimes(r, e2);
    AbsTimes(1.0 - r, e2);
    assert e1 + e2 == Times(1.0 - r, e2);
    Scale((1.0 - r) / 2.0, r, Abs(e2));
    Scale((1.0 - r) / 2.0, 1.0, Abs(e2));
  }

  lemma NoDenominator(x: real, s: State)
    requires Tracks(x, s) && s.k1 == 0
    ensures !AverageCloser(x, s)
  {
    UnitFactors(s.h1, s.k2);
    assert Times(s.f, x - s.h2 as real) == 1.0;
    FarBeyond(s.f, x - s.h2 as real);
    assert Average(s) == (1 + s.h2) as real / 2.0;
  }

  lemma UnitFactors(a: int, b: int)
    requires a >= 1 && b >= 0 && (a * b == 1 || a * b == -1)
    ensures a == b == 1
  {
  }

  lemma FarBeyond(f: real, d: real)
    requires 0.0 <= f < 1.0 && Times(f, d) == 1.0
    ensures d > 1.0
  {
    if d <= 1.0 { NonNegativeProduct(f, 1.0 - d); }
  }

  lemma NoDenominatorBefore(x: real, s: State)
    requires Tracks(x, s) && s.k1 > 0 && s.k2 == 0
    ensures !AverageCloser(x, s)
  {
  }

  /** After any number of steps. */
  lemma RunAverageExactly(x: real, n: nat)
    requires x > 0.0
    ensures var s := After(Start(x), n);
      AverageCloser(x, s) <==> s.k1 > 0 && s.k1 as real < 3.0 * Times(s.f, s.k2 as real)
  {
    hide Start, After, Tracks, AverageCloser;
    AfterOrdered(x, n);
    AverageCloserExactly(x, After(Start(x), n));
  }

  /** Four tenths again: the average of one half and zero is a quarter. */
  lemma AverageFarther()
    ensures var s := After(Start(0.4), 0); Average(s) == 0.25 && !AverageCloser(0.4, s)
  {
    NearerThird();
  }
}
