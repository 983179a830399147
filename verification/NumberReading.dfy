/** Which texts the parser of cppext/numberparser.cpp reads as which numbers, written out. */
module NumberReading {
  import opened Decimal
  import opened Minimath
  import opened NumberParser

  /** One more than the largest signed integer of 64 bits. */
  const HALF := 0x8000_0000_0000_0000

  /** The characters that mean something, by their codes. */
  lemma CharacterCodes(c: char)
    ensures IsSpace(c) <==> c as int == 0x20 || 0x09 <= c as int <= 0x0D
    ensures IsDigit(c) <==> 0x30 <= c as int <= 0x39
    ensures IsDigit(c) ==> DigitOf(c) == c as int - 0x30
    ensures IsExponentMarker(c) <==> c as int == 0x45 || c as int == 0x65
  {
  }

  predicate Spaces(text: string) { forall i :: 0 <= i < |text| ==> IsSpace(text[i]) }

  /** What may stand before a number. */
  predicate Leads(text: string) { forall i :: 0 <= i < |text| ==> IsSpace(text[i]) || text[i] == '+' }

  function Minus(minus: bool): string { if minus then "-" else "" }

  /** From one state the parser takes what comes before the rest of a text and is in another. */
  ghost predicate Moves(s: Pieces, text: string, t: Pieces, rest: string) {
    Run(s, text).0 == Run(t, rest).0 && Run(s, text).1 == Run(t, rest).1 + |text| - |rest|
  }

  lemma MovesOn(s: Pieces, a: string, t: Pieces, b: string, u: Pieces, c: string)
    requires Moves(s, a, t, b) && Moves(t, b, u, c)
    ensures Moves(s, a, u, c)
  {
    hide Run;
  }

  lemma MovesNowhere(s: Pieces, text: string)
    ensures Moves(s, text, s, text)
  {
    hide Run;
  }

  /** One character taken. */
  lemma Taken(s: Pieces, c: char, text: string)
    requires Step(s, c).1
    ensures Moves(s, [c] + text, Step(s, c).0, text)
  {
    hide Step;
    assert ([c] + text)[0] == c && ([c] + text)[1..] == text;
  }

  // ----- before the digits -----

  lemma {:induction false} SkipsLead(s: Pieces, lead: string, text: string)
    requires s.phase == Start && Leads(lead) && (s.negative ==> Spaces(lead))
    ensures Moves(s, lead + text, s, text)
    decreases |lead|
  {
    hide Moves;
    if lead == "" {
      assert lead + text == text;
      MovesNowhere(s, text);
    } else {
      SkipsLead(s, lead[1..], text);
      Skips(s, lead[0]);
      Taken(s, lead[0], lead[1..] + text);
      MovesOn(s, [lead[0]] + (lead[1..] + text), s, lead[1..] + text, s, text);
      assert [lead[0]] + (lead[1..] + text) == lead + text;
    }
  }

  lemma Skips(s: Pieces, c: char)
    requires s.phase == Start && (IsSpace(c) || (c == '+' && !s.negative))
    ensures Step(s, c) == (s, true)
  {
  }

  lemma TakesMinus(text: string)
    ensures Moves(FRESH, "-" + text, Begun(true), text)
  {
    hide Moves;
    Taken(FRESH, '-', text);
    assert ['-'] == "-";
  }

  /** After a minus there may be no other sign. */
  lemma RefusesSign(c: char, text: string)
    requires c == '-' || c == '+'
    ensures Run(Begun(true), [c] + text) == (Begun(true).(phase := Failed), 0)
  {
    assert ([c] + text)[0] == c;
  }

  /** Nothing else may stand at the start. */
  lemma RefusesOther(s: Pieces, text: string)
    requires s == FRESH.(negative := s.negative) && text != ""
    requires text[0] !in "-+." && !IsDigit(text[0]) && !IsSpace(text[0])
    ensures Run(s, text) == (s.(phase := Failed), 0)
  {
  }

  /** What stands before a number leaves its sign, and nothing else. */
  lemma LeadRun(lead: string, minus: bool, gap: string, text: string)
    requires Leads(lead) && Spaces(gap)
    ensures Moves(FRESH, lead + Minus(minus) + gap + text, Begun(minus), text)
  {
    hide Moves, Leads, Spaces;
    SpacesLead(gap);
    SkipsLead(Begun(minus), gap, text);
    SkipsLead(FRESH, lead, Minus(minus) + (gap + text));
    LeadText(lead, Minus(minus), gap, text);
    if minus {
      TakesMinus(gap + text);
    } else {
      assert Minus(minus) + (gap + text) == gap + text;
      MovesNowhere(FRESH, gap + text);
    }
    MovesOn(FRESH, Minus(minus) + (gap + text), Begun(minus), gap + text, Begun(minus), text);
    MovesOn(FRESH, lead + (Minus(minus) + (gap + text)), FRESH, Minus(minus) + (gap + text), Begun(minus), text);
  }

  lemma SpacesLead(text: string)
    requires Spaces(text)
    ensures Leads(text)
  {
  }

  lemma LeadText(a: string, b: string, c: string, d: string)
    ensures a + b + c + d == a + (b + (c + d))
  {
  }

  // ----- integers -----

  /** Digits below the width of the accumulator are all kept. */
  lemma AllKept(d: string)
    requires AllDigits(d) && Value(d) < WIDTH
    ensures Absorbed(d) == (Value(d), 0)
  {
    AbsorbedIs(d);
    var (accum, dropped) := Absorbed(d);
    if Wraps(d) { LostIsLarge(accum, dropped, Value(d)); }
  }

  lemma LostIsLarge(accum: nat, dropped: nat, value: nat)
    requires Lost(accum, dropped, value)
    ensures value >= WIDTH
  {
    if dropped > 0 { Decimal.PowerStep(dropped); LargeScale(Pow10(dropped)); }
  }

  lemma LargeScale(p: nat)
    requires p >= 10
    ensures (WIDTH - 1) * p >= WIDTH
  {
  }

  /** The pieces of a string of digits. */
  lemma DigitsRead(minus: bool, d: string, rest: string)
    requires AllDigits(d) && d != "" && d[0] != '0' && Ends(rest)
    ensures var (s, n) := Run(Begun(minus), d + rest);
      && n == |d| && !s.isZero && !s.hasEterm && s.negative == minus && s.postdecimal == 0
      && s.predecimal == Absorbed(d).0
  {
    hide Run, Absorbed;
    var (accum, dropped) := Absorbed(d);
    RunEnds(rest);
    RunDigits(minus, d, rest);
  }

  lemma NumberRun(lead: string, minus: bool, gap: string, d: string, rest: string)
    requires Leads(lead) && Spaces(gap)
    ensures Moves(FRESH, lead + Minus(minus) + gap + d + rest, Begun(minus), d + rest)
  {
    hide Moves;
    assert lead + Minus(minus) + gap + d + rest == lead + Minus(minus) + gap + (d + rest);
    LeadRun(lead, minus, gap, d + rest);
  }

  lemma PlainReads(s: Pieces, def: int, log: int)
    requires !s.isZero && !s.hasEterm && s.postdecimal == 0
    ensures Integer64(s, def, log) ==
      if s.predecimal == 0 then def else Signed(if s.negative then -(s.predecimal as int) else s.predecimal, WIDTH)
  {
  }

  /** What is left of a value in the accumulator is read as that value if and only if it fits. */
  lemma KeptReads(accum: nat, v: int, minus: bool, def: int)
    requires v > 0 && -HALF <= def < HALF && (v < WIDTH ==> accum == v)
    ensures (if accum == 0 then def else Signed(if minus then -(accum as int) else accum, WIDTH)) ==
        (if minus then -v else v)
      <==> v < HALF || (minus && v == HALF)
  {
    SignedRange(accum);
    SignedRange(-(accum as int));
  }

  /** An integer is read as its value if and only if that fits a signed integer of 64 bits; what stands before it gives
      the sign, and what cannot belong to it is left unread. */
  lemma IntegerReadsExactly(lead: string, minus: bool, gap: string, d: string, rest: string, def: int)
    requires Leads(lead) && Spaces(gap) && AllDigits(d) && d != "" && d[0] != '0' && Ends(rest)
    requires -HALF <= def < HALF
    ensures var text, v: int := lead + Minus(minus) + gap + d + rest, Value(d);
      && Run(FRESH, text).1 == |text| - |rest|
      && (Parsed(text, def) == (if minus then -v else v) <==> v < HALF || (minus && v == HALF))
  {
    hide Run, Absorbed, Log64From, Integer64, Value, Ends, Minus;
    NumberRun(lead, minus, gap, d, rest);
    DigitsRead(minus, d, rest);
    ValuePositive(d);
    if Value(d) < WIDTH { AllKept(d); }
    var s := Run(FRESH, lead + Minus(minus) + gap + d + rest).0;
    PlainReads(s, def, Log64From(s.predecimal, 20));
    KeptReads(s.predecimal, Value(d), minus, def);
  }

  lemma {:induction false} ValuePositive(d: string)
    requires AllDigits(d) && d != "" && d[0] != '0'
    ensures Value(d) > 0
  {
    if |d| > 1 { ValuePositive(d[..|d| - 1]); }
  }

  lemma SignedRange(x: int)
    ensures -HALF <= Signed(x, WIDTH) < HALF
    ensures -HALF <= x < HALF ==> Signed(x, WIDTH) == x
  {
  }

  /** As an unsigned word: the value if it is one, and otherwise the default. */
  lemma WordReads(lead: string, minus: bool, gap: string, d: string, rest: string, def: nat)
    requires Leads(lead) && Spaces(gap) && AllDigits(d) && d != "" && d[0] != '0' && Ends(rest) && def < WORD
    requires 0 < Value(d) < HALF
    ensures Unsigned(lead + Minus(minus) + gap + d + rest, def) == if minus || Value(d) >= WORD then def else Value(d)
  {
    hide Parsed, Ends, AllDigits;
    IntegerReadsExactly(lead, minus, gap, d, rest, def);
  }

  /** Zero has no sign, and ends where another digit follows. */
  lemma ZeroReads(lead: string, minus: bool, gap: string, rest: string, def: int)
    requires Leads(lead) && Spaces(gap) && (rest == "" || rest[0] != '.')
    ensures Parsed(lead + Minus(minus) + gap + "0" + rest, def) == 0
    ensures Run(FRESH, lead + Minus(minus) + gap + "0" + rest).1 == |lead + Minus(minus) + gap + "0"|
  {
    hide Log64From, Run, Minus;
    NumberRun(lead, minus, gap, "0", rest);
    ZeroRun(minus, rest);
  }

  lemma ZeroRun(minus: bool, rest: string)
    requires rest == "" || rest[0] != '.'
    ensures var (s, n) := Run(Begun(minus), "0" + rest);
      n == 1 && s.isZero && s.predecimal == 0 && !s.hasEterm
  {
    assert ("0" + rest)[0] == '0' && ("0" + rest)[1..] == rest;
    assert Run(Begun(minus), "0" + rest).0 == Run(Begun(minus).(phase := BeforeDecimal, isZero := true), rest).0;
  }

  /** A second sign after a minus, or anything that no number begins with, is read as no number. */
  lemma NoNumberReads(lead: string, minus: bool, gap: string, text: string, def: int)
    requires Leads(lead) && Spaces(gap) && text != ""
    requires if minus && (text[0] == '-' || text[0] == '+') then true
      else text[0] !in "-+." && !IsDigit(text[0]) && !IsSpace(text[0])
    ensures Parsed(lead + Minus(minus) + gap + text, def) == def
    ensures Run(FRESH, lead + Minus(minus) + gap + text).1 == |lead + Minus(minus) + gap|
  {
    hide Run, Step, Log64From;
    assert text == [text[0]] + text[1..];
    if minus && (text[0] == '-' || text[0] == '+') {
      RefusesSign(text[0], text[1..]);
    } else {
      RefusesOther(Begun(minus), text);
    }
    LeadRun(lead, minus, gap, text);
  }

  // ----- the logarithm -----

  /** The least entry of the wide power table that wrapped: ten to the power of 23, modulo 64 bits. */
  const LEAST_WRAPPED: nat := 200376420520689664

  lemma Wrapped(k: nat)
    requires k < 20
    ensures k >= 10 ==> DECIMAL2[k] >= LEAST_WRAPPED
    ensures k == 13 ==> DECIMAL2[k] == LEAST_WRAPPED
  {
  }

  lemma {:induction false} LogOfLarge(v: nat, k: nat)
    requires LEAST_WRAPPED <= v && 14 <= k <= 20
    ensures Log64From(v, k) >= 23
  {
    hide Decimal2;
    Decimal2Is(k - 1);
    if k == 14 { Wrapped(k - 1); } else { LogOfLarge(v, k - 1); }
  }

  lemma {:induction false} LogSkips(v: nat, k: nat)
    requires v < LEAST_WRAPPED && 10 <= k <= 20
    ensures Log64From(v, k) == Log64From(v, 10)
  {
    hide Decimal2;
    if k > 10 {
      Decimal2Is(k - 1);
      Wrapped(k - 1);
      LogSkips(v, k - 1);
    }
  }

  lemma Exact(k: nat)
    requires k < 10
    ensures Decimal2(k) == Pow10(10 + k)
  {
    hide Pow10;
    Pow10Grows(k, 9);
    Nineteen(19);
    Pow10Grows(10 + k, 19);
  }

  lemma Nineteen(n: nat)
    requires n == 19
    ensures Pow10(n) < WIDTH < Pow10(n + 1)
  {
    hide Pow10;
    NineteenPlaces(n);
    PowerStep(n + 1);
    Decimal2Is(n - 10);
    NoPlaces(n - 19);
    PowerStep(n - 18);
    ThreePowers(n - 3);
    ThreePowers(n - 6);
    ThreePowers(n - 9);
    ThreePowers(n - 12);
    ThreePowers(n - 15);
    ThreePowers(n - 18);
  }

  lemma {:induction false} LogMiddle(v: nat, k: nat)
    requires k <= 10 && v < Pow10(10 + k)
    ensures v >= 100_0000_0000 ==> Log64From(v, k) >= 0 && Length(v, Log64From(v, k) + 1)
    ensures v < 100_0000_0000 ==> Log64From(v, k) == Log32From(v % WORD, 10)
  {
    hide Pow10, Decimal2;
    TenPlaces(10);
    if k > 0 {
      Exact(k - 1);
      PowerStep(10 + k);
      if v < Pow10(9 + k) {
        LogMiddle(v, k - 1);
      } else {
        Pow10Grows(10, 9 + k);
      }
    }
  }

  lemma TenPlaces(n: nat)
    requires n == 10
    ensures Pow10(n) == 100_0000_0000
  {
    hide Pow10;
    PowerStep(n);
    I32Pow10Is(n - 1);
  }

  lemma {:induction false} LogSmall(w: nat, k: nat)
    requires w < WORD && 0 < k <= 10 && (k < 10 ==> w < I32Pow10(k))
    ensures w == 0 ==> Log32From(w, k) == -1
    ensures w > 0 ==> Log32From(w, k) >= 0 && Length(w, Log32From(w, k) + 1)
  {
    hide Length;
    if I32Pow10(k - 1) <= w {
      LogLength(w, k - 1);
    } else if k > 1 {
      LogSmall(w, k - 1);
    }
  }

  lemma LengthUnique(v: nat, a: nat, b: nat)
    requires Length(v, a) && Length(v, b)
    ensures a == b
  {
    hide Pow10;
    if a < b {
      Pow10Grows(a, b - 1);
    } else if b < a {
      Pow10Grows(b, a - 1);
    }
  }

  /** Whether the logarithm of a wide value is one less than the number of its digits. It is not between what 32 bits
      hold and ten to the tenth, where the value is cut to 32 bits, unless what is left still has ten digits; nor from
      the least entry of the table on that wrapped. */
  predicate LogHolds(v: nat) {
    || v < WORD
    || 100_0000_0000 <= v < LEAST_WRAPPED
    || (v < 100_0000_0000 && v % WORD >= 10_0000_0000)
  }

  lemma LogExactly(v: nat, n: nat)
    requires 0 < v < WIDTH && Length(v, n)
    ensures Log64From(v, 20) == n - 1 <==> LogHolds(v)
  {
    hide Pow10, Log64From, Log32From;
    if v >= LEAST_WRAPPED {
      LogOfLarge(v, 20);
      Nineteen(19);
      if n > 20 { Pow10Grows(20, n - 1); }
    } else {
      LogSkips(v, 20);
      Nineteen(19);
      Pow10Grows(19, 20);
      LogMiddle(v, 10);
      if v >= 100_0000_0000 {
        LengthUnique(v, n, Log64From(v, 10) + 1);
      } else {
        LogCut(v, n);
      }
    }
  }

  lemma LogCut(v: nat, n: nat)
    requires 0 < v < 100_0000_0000 && Length(v, n)
    ensures Log32From(v % WORD, 10) == n - 1 <==> v < WORD || v % WORD >= 10_0000_0000
  {
    hide Pow10, Log32From;
    var w := v % WORD;
    LogSmall(w, 10);
    TenPlaces(10);
    I32Pow10Is(9);
    if v < WORD {
      LengthUnique(v, n, Log32From(w, 10) + 1);
    } else {
      LengthUnique(v, n, 10);
      if w > 0 {
        var m := Log32From(w, 10) + 1;
        if w >= 10_0000_0000 { LengthUnique(w, m, 10); } else if m == 10 { assert false; }
      }
    }
  }

  // ----- decimals and exponents -----

  /** A digit is taken in exactly while the value stays within the accumulator. */
  lemma AppliedIs(accum: nat, d: nat)
    requires d <= 9 && 10 * accum + d < WIDTH
    ensures Applied(accum, d) == (10 * accum + d, true)
  {
  }

  /** Digits after the point are kept apart and counted. */
  lemma {:induction false} FractionReads(s: Pieces, digits: string, rest: string)
    requires s.phase == AfterDecimal && s.pow10 == 0 && s.postdecimal == 0 && s.postDigits == 0
    requires AllDigits(digits) && Value(digits) < WIDTH
    ensures Moves(s, digits + rest, s.(postdecimal := Value(digits), postDigits := |digits|), rest)
    decreases |digits|
  {
    hide Moves, Step;
    if digits == "" {
      assert digits + rest == rest;
      MovesNowhere(s, rest);
    } else {
      var last := |digits| - 1;
      var front, c := digits[..last], digits[last];
      assert digits + rest == front + ([c] + rest);
      FractionReads(s, front, [c] + rest);
      var t := s.(postdecimal := Value(front), postDigits := last);
      FractionDigit(t, c);
      Taken(t, c, rest);
      MovesOn(s, digits + rest, t, [c] + rest, Step(t, c).0, rest);
    }
  }

  lemma FractionDigit(s: Pieces, c: char)
    requires s.phase == AfterDecimal && s.pow10 == 0 && IsDigit(c) && 10 * s.postdecimal + DigitOf(c) < WIDTH
    ensures Step(s, c) == (s.(postdecimal := 10 * s.postdecimal + DigitOf(c), postDigits := s.postDigits + 1), true)
  {
    hide Applied;
    AppliedIs(s.postdecimal, DigitOf(c));
  }

  lemma ExponentDigit(s: Pieces, c: char)
    requires s.phase == AfterExponent && IsDigit(c) && 10 * s.exponent + DigitOf(c) < WIDTH
    ensures Step(s, c) == (s.(hasEterm := true, exponent := 10 * s.exponent + DigitOf(c)), true)
  {
    hide Applied;
    AppliedIs(s.exponent, DigitOf(c));
  }

  /** Digits of an exponent likewise. */
  lemma {:induction false} ExponentReads(s: Pieces, digits: string, rest: string)
    requires s.phase == AfterExponent && s.exponent == 0
    requires AllDigits(digits) && digits != "" && Value(digits) < WIDTH
    ensures Moves(s, digits + rest, s.(hasEterm := true, exponent := Value(digits)), rest)
    decreases |digits|
  {
    hide Moves, Step;
    var last := |digits| - 1;
    var front, c := digits[..last], digits[last];
    assert digits + rest == front + ([c] + rest);
    if front == "" {
      assert digits + rest == [c] + rest;
      ExponentDigit(s, c);
      Taken(s, c, rest);
    } else {
      ExponentReads(s, front, [c] + rest);
      var t := s.(hasEterm := true, exponent := Value(front));
      ExponentDigit(t, c);
      Taken(t, c, rest);
      MovesOn(s, digits + rest, t, [c] + rest, Step(t, c).0, rest);
    }
  }

  /** What ends an exponent: a value of zero does not count as one. */
  function Ended(s: Pieces, rest: string): Pieces {
    if rest == "" then s else s.(phase := if s.exponent > 0 then Done else Failed)
  }

  predicate EndsExponent(rest: string) { rest == "" || (!IsDigit(rest[0]) && rest[0] != '-') }

  lemma ExponentEnds(s: Pieces, rest: string)
    requires s.phase == AfterExponent && EndsExponent(rest)
    ensures Run(s, rest) == (Ended(s, rest), 0)
  {
  }

  /** An exponent with its marker and its sign. */
  lemma TermReads(s: Pieces, marker: char, minus: bool, digits: string, rest: string)
    requires (s.phase == BeforeDecimal && !s.isZero) || s.phase == AfterDecimal
    requires !s.negativeExponent && s.exponent == 0 && IsExponentMarker(marker)
    requires AllDigits(digits) && digits != "" && Value(digits) < WIDTH
    ensures Moves(s, [marker] + (Minus(minus) + (digits + rest)),
      s.(phase := AfterExponent, negativeExponent := minus, hasEterm := true, exponent := Value(digits)), rest)
  {
    hide Moves, Step, Value, Minus;
    var s1 := s.(phase := AfterExponent);
    var s2 := s1.(negativeExponent := minus);
    var t := s2.(hasEterm := true, exponent := Value(digits));
    var text := Minus(minus) + (digits + rest);
    MarkerStep(s, marker);
    Taken(s, marker, text);
    DownTaken(s1, minus, digits + rest);
    ExponentReads(s2, digits, rest);
    MovesOn(s, [marker] + text, s1, text, s2, digits + rest);
    MovesOn(s, [marker] + text, s2, digits + rest, t, rest);
  }

  lemma MarkerStep(s: Pieces, marker: char)
    requires (s.phase == BeforeDecimal && !s.isZero) || s.phase == AfterDecimal
    requires IsExponentMarker(marker)
    ensures Step(s, marker) == (s.(phase := AfterExponent), true)
  {
  }

  lemma DownTaken(s: Pieces, minus: bool, text: string)
    requires s.phase == AfterExponent && !s.negativeExponent
    ensures Moves(s, Minus(minus) + text, s.(negativeExponent := minus), text)
  {
    hide Moves;
    if minus {
      assert Step(s, '-') == (s.(negativeExponent := true), true);
      Taken(s, '-', text);
      assert ['-'] == "-";
    } else {
      assert Minus(minus) + text == text && s.(negativeExponent := minus) == s;
      MovesNowhere(s, text);
    }
  }

  lemma PointTaken(s: Pieces, text: string)
    requires s.phase == BeforeDecimal
    ensures Moves(s, "." + text, s.(phase := AfterDecimal, isZero := false, hadRadixPoint := true), text)
  {
    hide Moves;
    Taken(s, '.', text);
    assert ['.'] == ".";
  }

  lemma DigitsTaken(minus: bool, d: string, rest: string)
    requires AllDigits(d) && d != "" && d[0] != '0' && Value(d) < WIDTH
    ensures Moves(Begun(minus), d + rest, Begun(minus).(phase := BeforeDecimal, predecimal := Value(d)), rest)
  {
    hide Run, Absorbed, Value;
    AllKept(d);
    RunDigits(minus, d, rest);
  }

  /** Every piece of a number with a sign, a fraction and an exponent. */
  lemma DecimalReads(minus: bool, d: string, frac: string, marker: char, down: bool, e: string, rest: string)
    requires AllDigits(d) && d != "" && d[0] != '0' && Value(d) < WIDTH && AllDigits(frac) && Value(frac) < WIDTH
    requires AllDigits(e) && e != "" && Value(e) < WIDTH && IsExponentMarker(marker) && EndsExponent(rest)
    ensures var text := d + ("." + (frac + ([marker] + (Minus(down) + (e + rest)))));
      Run(Begun(minus), text) ==
        (Ended(Pieces(AfterExponent, false, minus, true, Value(d), 0, Value(frac), |frac|, true, down, Value(e)), rest),
         |text| - |rest|)
  {
    hide Run, Value, Ended, Moves, Minus;
    var term := [marker] + (Minus(down) + (e + rest));
    var text := d + ("." + (frac + term));
    DigitsTaken(minus, d, "." + (frac + term));
    var s := Begun(minus).(phase := BeforeDecimal, predecimal := Value(d));
    PointTaken(s, frac + term);
    var t := s.(phase := AfterDecimal, hadRadixPoint := true);
    FractionReads(t, frac, term);
    var u := t.(postdecimal := Value(frac), postDigits := |frac|);
    TermReads(u, marker, down, e, rest);
    var w := u.(phase := AfterExponent, negativeExponent := down, hasEterm := true, exponent := Value(e));
    MovesOn(Begun(minus), text, s, "." + (frac + term), t, frac + term);
    MovesOn(Begun(minus), text, t, frac + term, u, term);
    MovesOn(Begun(minus), text, u, term, w, rest);
    Arrives(Begun(minus), text, w, rest);
  }

  lemma Arrives(s: Pieces, text: string, t: Pieces, rest: string)
    requires Moves(s, text, t, rest) && EndsExponent(rest) && t.phase == AfterExponent
    ensures Run(s, text) == (Ended(t, rest), |text| - |rest|)
  {
    hide Run, Ended;
    ExponentEnds(t, rest);
  }

  /** A number that begins with its point is read as zero, or as none where its digits are all zero. */
  lemma PointReads(lead: string, minus: bool, gap: string, frac: string, rest: string, def: int)
    requires Leads(lead) && Spaces(gap) && AllDigits(frac) && Value(frac) < WIDTH && Ends(rest)
    ensures Parsed(lead + Minus(minus) + gap + "." + (frac + rest), def) == if Value(frac) == 0 then def else 0
  {
    hide Run, Value, Moves, Minus, Log64From, Parsed;
    var text := lead + Minus(minus) + gap + "." + (frac + rest);
    var s := Begun(minus).(phase := AfterDecimal);
    var t := s.(postdecimal := Value(frac), postDigits := |frac|);
    NumberRun(lead, minus, gap, ".", frac + rest);
    PointStep(minus);
    Taken(Begun(minus), '.', frac + rest);
    assert ['.'] == ".";
    FractionReads(s, frac, rest);
    MovesOn(FRESH, text, Begun(minus), "." + (frac + rest), s, frac + rest);
    MovesOn(FRESH, text, s, frac + rest, t, rest);
    SameEnd(FRESH, text, t, rest);
    FractionEnds(t, rest);
    ParsedIs(text, def);
  }

  lemma PointStep(minus: bool)
    ensures Step(Begun(minus), '.') == (Begun(minus).(phase := AfterDecimal), true)
  {
  }

  lemma FractionEnds(s: Pieces, rest: string)
    requires s.phase == AfterDecimal && Ends(rest)
    ensures Run(s, rest).0 == if rest == "" then s else s.(phase := Done)
  {
  }

  // ----- what an exponent does to an integer -----

  lemma {:induction false} ValueLength(d: string)
    requires AllDigits(d) && d != "" && d[0] != '0'
    ensures Length(Value(d), |d|)
    decreases |d|
  {
    hide Pow10;
    var n := |d|;
    PowerStep(n);
    if n == 1 {
      NoPlaces(n - 1);
      assert d[..0] == "";
    } else {
      ValueLength(d[..n - 1]);
      PowerStep(n - 1);
      if n == 2 { NoPlaces(n - 2); }
    }
  }

  /** What becomes of an integer with an exponent: the largest integer of 64 bits, up to sign, where digits and exponent
      together make no more than 19 places, which is where the product would fit; beyond them the product, wrapped; and
      zero when the table of powers ends. */
  function Scaled(v: int, places: nat, e: nat, minus: bool): int {
    if places - 1 + e <= 18 then (if minus then 1 - HALF else HALF - 1)
    else if e >= 30 then 0
    else Signed(if minus then -(v * Pow10(e)) else v * Pow10(e), WIDTH)
  }

  /** The sign of the exponent does not count. */
  lemma ScaledReads(lead: string, minus: bool, gap: string, d: string, marker: char, down: bool, e: string,
      rest: string, def: int)
    requires Leads(lead) && Spaces(gap) && AllDigits(d) && d != "" && d[0] != '0' && LogHolds(Value(d))
    requires AllDigits(e) && e != "" && Value(e) < 0x7000_0000 && IsExponentMarker(marker) && EndsExponent(rest)
    ensures Parsed(lead + Minus(minus) + gap + d + ([marker] + (Minus(down) + (e + rest))), def)
      == Scaled(Value(d), |d|, Value(e), minus)
  {
    hide *;
    var term := [marker] + (Minus(down) + (e + rest));
    var text := lead + Minus(minus) + gap + d + term;
    LogBelow(Value(d));
    ValueLength(d);
    ValuePositive(d);
    LogExactly(Value(d), |d|);
    NumberRun(lead, minus, gap, d, term);
    SameEnd(FRESH, text, Begun(minus), d + term);
    SmallerThanWidth(Value(e));
    TermRun(minus, d, marker, down, e, rest);
    ShortOf(Value(d), |d|);
    ParsedIs(text, def);
    ScaledInteger(Run(FRESH, text).0, def, |d| - 1);
  }

  lemma SameEnd(s: Pieces, text: string, t: Pieces, rest: string)
    requires Moves(s, text, t, rest)
    ensures Run(s, text).0 == Run(t, rest).0
  {
  }

  lemma SmallerThanWidth(e: nat)
    requires e < 0x7000_0000
    ensures e < WIDTH
  {
  }

  lemma ParsedIs(text: string, def: int)
    ensures var s := Run(FRESH, text).0; Parsed(text, def) == Integer64(s, def, Log64From(s.predecimal, 20))
  {
    hide Run, Integer64, Log64From;
  }

  lemma TermRun(minus: bool, d: string, marker: char, down: bool, e: string, rest: string)
    requires AllDigits(d) && d != "" && d[0] != '0' && Value(d) < WIDTH
    requires AllDigits(e) && e != "" && Value(e) < WIDTH && IsExponentMarker(marker) && EndsExponent(rest)
    ensures var r := Run(Begun(minus), d + ([marker] + (Minus(down) + (e + rest)))).0;
      r.predecimal == Value(d) && r.pow10 == 0 && r.hasEterm && r.exponent == Value(e) && r.negative == minus
  {
    hide Run, Value, Ended, Minus, Moves;
    var term := [marker] + (Minus(down) + (e + rest));
    DigitsTaken(minus, d, term);
    var s := Begun(minus).(phase := BeforeDecimal, predecimal := Value(d));
    TermReads(s, marker, down, e, rest);
    var t := s.(phase := AfterExponent, negativeExponent := down, hasEterm := true, exponent := Value(e));
    MovesOn(Begun(minus), d + term, s, term, t, rest);
    Arrives(Begun(minus), d + term, t, rest);
    EndedIs(t, rest);
  }

  lemma ShortOf(v: nat, n: nat)
    requires v < WIDTH && Length(v, n)
    ensures n <= 20
  {
    hide Pow10;
    Nineteen(19);
    if n > 20 { Pow10Grows(20, n - 1); }
  }

  lemma LogBelow(v: nat)
    requires LogHolds(v)
    ensures v < WIDTH
  {
  }

  lemma EndedIs(s: Pieces, rest: string)
    ensures var t := Ended(s, rest);
      && t.predecimal == s.predecimal && t.pow10 == s.pow10 && t.hasEterm == s.hasEterm && t.exponent == s.exponent
      && t.negative == s.negative && t.isZero == s.isZero && t.postdecimal == s.postdecimal
      && t.phase == if rest == "" then s.phase else if s.exponent == 0 then Failed else Done
  {
  }

  lemma ScaledInteger(s: Pieces, def: int, log: nat)
    requires s.predecimal > 0 && s.pow10 == 0 && s.hasEterm && s.exponent < 0x7000_0000 && log < 20
    ensures Integer64(s, def, log) == Scaled(s.predecimal, log + 1, s.exponent, s.negative)
  {
    hide Mul, I64Pow10, Pow10, Signed, Integer64;
    var v, e := s.predecimal, s.exponent;
    TermInteger(s, def, log);
    SignedRange(HALF - 1);
    SignedRange(1 - HALF);
    if log + e > 18 && e < 30 {
      PowerWrapped(e);
      MulWrapped(v, Pow10(e));
      SignedWrapped(Mul(v, I64Pow10(e)), v * Pow10(e), s.negative);
    } else if e >= 30 {
      NoPower(e);
      MulNothing(v, I64Pow10(e));
      SignedRange(0);
    }
  }

  lemma TermInteger(s: Pieces, def: int, log: nat)
    requires s.predecimal > 0 && s.pow10 == 0 && s.hasEterm && s.exponent < 0x7000_0000 && log < 20
    ensures var p: int := if log + s.exponent <= 18 then HALF - 1 else Mul(s.predecimal, I64Pow10(s.exponent)) % WIDTH;
      Integer64(s, def, log) == Signed(if s.negative then -p else p, WIDTH)
  {
    hide Mul, I64Pow10;
    SmallSigned(log + s.exponent);
  }

  lemma SmallSigned(x: int)
    requires 0 <= x < 0x8000_0000
    ensures Signed(x, WORD) == x
  {
  }

  lemma NoPower(e: nat)
    requires e >= 30
    ensures I64Pow10(e) == 0
  {
  }

  lemma MulNothing(v: int, p: int)
    requires p == 0
    ensures Mul(v, p) == 0
  {
  }

  lemma PowerWrapped(e: nat)
    requires e < 30
    ensures I64Pow10(e) == Pow10(e) % WIDTH
  {
    if e < 10 {
      I32Pow10Is(e);
      Pow10Grows(e, 10);
      TenPlaces(10);
    }
  }

  lemma MulWrapped(v: nat, p: nat)
    ensures Mul(v, p % WIDTH) % WIDTH == v * p % WIDTH
  {
    var q, r := p / WIDTH, p % WIDTH;
    assert v * p == v * r + WIDTH * (v * q);
    Congruent(v * r, v * q);
  }

  lemma Congruent(x: int, q: int)
    ensures (x + WIDTH * q) % WIDTH == x % WIDTH
  {
  }

  /** Reading a wrapped product as signed, negated or not, is reading the product. */
  lemma SignedWrapped(x: int, y: int, minus: bool)
    requires x % WIDTH == y % WIDTH
    ensures Signed(if minus then -(x % WIDTH) else x % WIDTH, WIDTH) == Signed(if minus then -y else y, WIDTH)
  {
    var q := y / WIDTH;
    assert y == WIDTH * q + x % WIDTH;
    Congruent(x % WIDTH, q);
    Congruent(-(x % WIDTH), -q);
  }
}
