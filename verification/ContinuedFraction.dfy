/** The search for a ratio of integers close to a number, cppext/continuedfractionratiogenerator.cpp. */
module ContinuedFraction {
  import opened Convergents
  import opened Minimath
  import opened NearestRatio

  class ContinuedFractionRatioGenerator {
    /** What is left to expand. */
    var fraction: real
    /** The latest coefficient. */
    var an: nat
    var limit: nat
    /** Numerators and denominators: 0 provisional, 1 the latest, 2 the one before. */
    const h: array<nat>
    const k: array<nat>
    /** How many steps the latest run made. */
    ghost var steps: nat

    ghost predicate Valid()
      reads this, h, k
    {
      && h.Length == k.Length == 3 && h != k
      && 0.0 <= fraction && an <= WORD && 1 <= limit < WORD
      && (forall i :: 0 <= i < 3 ==> h[i] < WORD && k[i] < WORD)
    }

    ghost function Reached(): State
      requires Valid()
      reads this, h, k
    {
      State(fraction, h[1], h[2], k[1], k[2])
    }

    constructor ()
      ensures Valid() && fraction == 0.0 && fresh(h) && fresh(k)
    {
      fraction, an, limit, steps := 0.0, 0, WORD - 1, 0;
      h := new nat[3](_ => 0);
      k := new nat[3](_ => 0);
    }

    /** Takes the next coefficient off the fraction, unless too little is left. */
    method Split() returns (more: bool)
      requires Valid()
      modifies this`fraction, this`an
      ensures Valid()
      ensures more <==> old(fraction) >= EPSILON
      ensures more ==>
        an == Coefficient(old(fraction)) && fraction == 1.0 / old(fraction) - an as real && fraction < 1.0
      ensures !more ==> an == old(an) && fraction == old(fraction)
    {
      if fraction == 0.0 {
        return false;
      }
      if fraction < EPSILON {
        return false;
      }
      CoefficientBounds(fraction);
      CoefficientFits(fraction);
      var inverse := 1.0 / fraction;
      an := inverse.Floor;
      fraction := inverse - an as real;
      return true;
    }

    /** Forms the next numerator or denominator; within 64 bits this cannot overflow. */
    method Bump(hk: array<nat>) returns (fits: bool)
      requires Valid() && (hk == h || hk == k)
      modifies hk
      ensures fits <==> an * hk[1] + hk[2] <= limit
      ensures hk[0] == if fits then an * hk[1] + hk[2] else old(hk[0])
      ensures hk[1] == old(hk[1]) && hk[2] == old(hk[2])
    {
      assert an * hk[1] + hk[2] < WORD * WORD by { ProvisionalFits(an, hk[1], hk[2]); }
      var provisional := an * hk[1] + hk[2];
      if provisional <= limit {
        hk[0] := provisional;
        return true;
      }
      return false;
    }

    method Shift(hk: array<nat>)
      requires hk.Length == 3
      modifies hk
      ensures hk[2] == old(hk[1]) && hk[1] == old(hk[0]) && hk[0] == old(hk[0])
    {
      hk[2] := hk[1];
      hk[1] := hk[0];
    }

    /** One more convergent, kept only if both its parts fit the limit. */
    method Step() returns (stepped: bool)
      requires Valid()
      modifies this`fraction, this`an, h, k
      ensures Valid()
      ensures stepped <==> CanStep(old(Reached()), limit)
      ensures stepped ==> Reached() == Next(old(Reached()))
      ensures !stepped ==> h[1] == old(h[1]) && h[2] == old(h[2]) && k[1] == old(k[1]) && k[2] == old(k[2])
    {
      hide Coefficient;
      var more := Split();
      if more {
        var fits := Bump(h);
        if fits {
          fits := Bump(k);
        }
        if fits {
          Shift(h);
          Shift(k);
          return true;
        }
        return false;
      }
      return false;
    }

    /** Prepares to expand the magnitude of a ratio; a limit of 0 stands for all that a word holds. */
    method Restart(ratio: real, limit: nat) returns (ok: bool)
      requires Valid() && limit < WORD
      modifies this, h, k
      ensures Valid() && this.limit == if limit == 0 then WORD - 1 else limit
      ensures h[0] == k[0] == 0
      ensures ok <==> ratio != 0.0
      ensures !ok ==> an == 0 && fraction == 0.0
      ensures !ok ==> h[1] == old(h[1]) && h[2] == old(h[2]) && k[1] == old(k[1]) && k[2] == old(k[2])
      ensures ok ==> h[1] == 1 && h[2] == 0 && k[1] == an % WORD && k[2] == 1
      ensures Abs(ratio) > EPSILON ==> Reached() == Start(Abs(ratio))
      ensures ok && Abs(ratio) < EPSILON ==> an == old(an) && fraction == Abs(ratio)
    {
      hide Coefficient;
      this.limit := if limit == 0 then WORD - 1 else limit;
      h[0] := 0;
      k[0] := 0;
      if ratio == 0.0 {
        an := 0;
        fraction := 0.0;
        return false;
      }
      fraction := if ratio < 0.0 then -ratio else ratio;
      if fraction > EPSILON { CoefficientBelow(fraction); }
      var _ := Split();
      h[2] := 0;
      h[1] := 1;
      k[2] := 1;
      k[1] := an % WORD;
      return true;
    }

    /** Steps until one is refused, or the counter runs out. */
    method Run()
      requires Valid()
      modifies this`fraction, this`an, this`steps, h, k
      ensures Valid() && Ends(old(Reached()), limit, steps)
      ensures var s := After(old(Reached()), steps); h[1] == s.h1 && h[2] == s.h2 && k[1] == s.k1 && k[2] == s.k2
    {
      hide Coefficient, Next, CanStep;
      ghost var s := Reached();
      steps := 0;
      var left := MAX_WORKING_BITS;
      while left > 0
        invariant 0 <= left <= MAX_WORKING_BITS && steps == MAX_WORKING_BITS - left
        invariant Valid() && Reached() == After(s, steps) && limit == old(limit)
        invariant forall i :: 0 <= i < steps ==> CanStep(After(s, i), limit)
      {
        left := left - 1;
        var stepped := Step();
        if !stepped {
          return;
        }
        AfterStep(s, steps, limit);
        steps := steps + 1;
      }
    }

    method Approximation() returns (r: real)
      requires Valid()
      ensures r == Ratio(h[1] as real, k[1] as real)
    {
      r := Ratio(h[1] as real, k[1] as real);
    }

    /** Meant to be closer than the last two convergents; RunAverageExactly says when it is. */
    method Better() returns (r: real)
      requires Valid()
      ensures r == Average(Reached())
    {
      var approximation := Approximation();
      r := (approximation + Ratio(h[2] as real, k[2] as real)) / 2.0;
    }

    method Best() returns (r: real)
      requires Valid()
      modifies this`fraction, this`an, this`steps, h, k
      ensures Valid() && Ends(old(Reached()), limit, steps)
      ensures var s := After(old(Reached()), steps); h[1] == s.h1 && h[2] == s.h2 && k[1] == s.k1 && k[2] == s.k2
      ensures r == Ratio(h[1] as real, k[1] as real)
    {
      Run();
      r := Approximation();
    }

    /** The whole search. Provided the first coefficient fits, both parts are within the limit and in lowest
        terms. The result is the nearest ratio within the limit exactly if the fraction has settled (for one over
        zero: if the limit is one). It has the least |q * x - p| within the limit exactly unless the counter stopped
        the run where a step was still possible, which it never does for a limit below the 34th Fibonacci number. */
    constructor ForRatio(ratio: real, limit: nat)
      requires limit < WORD
      ensures Valid() && this.limit == if limit == 0 then WORD - 1 else limit
      ensures var x := Abs(ratio); x > EPSILON ==>
        && Ends(Start(x), this.limit, steps)
        && (k[1] <= this.limit <==> Coefficient(x) <= this.limit)
      ensures var x := Abs(ratio); x > EPSILON && Coefficient(x) <= this.limit ==>
        && h[1] <= this.limit && k[1] <= this.limit && Reduced(h[1], k[1])
        && Tracks(x, After(Start(x), steps)) && After(Start(x), steps).k1 == k[1]
        && (Nearest(x, this.limit, h[1], k[1]) <==>
            if k[1] == 0 then this.limit == 1 else Settled(After(Start(x), steps), this.limit))
        && (LeastMiss(x, this.limit, h[1], k[1])
            <==> !(steps == MAX_WORKING_BITS && CanStep(After(Start(x), steps), this.limit)))
        && (this.limit < LEAST_CUT_SHORT ==> LeastMiss(x, this.limit, h[1], k[1]))
    {
      fraction, an, this.limit, steps := 0.0, 0, WORD - 1, 0;
      h := new nat[3](_ => 0);
      k := new nat[3](_ => 0);
      new;
      hide Start, After, Ends, LeastMiss, Nearest, Settled, Coefficient, CanStep, Reduced;
      var ok := Restart(ratio, limit);
      var r := Best();
      ghost var x := Abs(ratio);
      if x > EPSILON { FirstCoefficientDecides(x, this.limit, steps); }
      if x > EPSILON && Coefficient(x) <= this.limit {
        RunAchieves(x, this.limit, steps);
        RunNearestExactly(x, this.limit, steps);
      }
    }
  }

  lemma AfterStep(s: State, n: nat, limit: int)
    requires CanStep(After(s, n), limit)
    ensures After(s, n + 1) == Next(After(s, n))
  {
  }

  lemma CoefficientFits(f: real)
    requires f >= EPSILON
    ensures Coefficient(f) <= WORD
  {
  }

  lemma CoefficientBelow(f: real)
    requires f > EPSILON
    ensures 0 <= Coefficient(f) < WORD
  {
  }

  lemma ProvisionalFits(a: nat, h1: nat, h2: nat)
    requires a <= WORD && h1 < WORD && h2 < WORD
    ensures a * h1 + h2 < WORD * WORD
  {
    assert a * h1 <= WORD * h1;
  }
}
