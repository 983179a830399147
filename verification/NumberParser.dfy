/** Printing unsigned numbers, cppext/charformatter.cpp, and the parser that reads them back,
    cppext/numberparser.cpp. */
module NumberParser {
  import opened Buffer
  import opened Decimal
  import opened Minimath

  // ----- printing -----

  const DECIMAL1: seq<nat> := [1, 10, 100, 1000, 1_0000, 10_0000, 100_0000, 1000_0000, 1_0000_0000, 10_0000_0000]

  function I32Pow10(power: nat): nat { if power < |DECIMAL1| then DECIMAL1[power] else 0 }

  lemma I32Pow10Is(power: nat)
    requires power < 10
    ensures I32Pow10(power) == Pow10(power)
  {
  }

  /** One less than the number of digits, and -1 for zero. */
  method Ilog10(value: nat) returns (log: int)
    requires value < WORD
    ensures value == 0 ==> log == -1
    ensures value > 0 ==> 0 <= log < 10 && Length(value, log + 1)
  {
    log := |DECIMAL1|;
    while log > 0
      invariant 0 <= log <= |DECIMAL1|
      invariant log < |DECIMAL1| ==> value < I32Pow10(log)
    {
      log := log - 1;
      if DECIMAL1[log] <= value {
        LogLength(value, log);
        return;
      }
    }
    log := -1;
  }

  lemma LogLength(value: nat, log: nat)
    requires log < 10 && I32Pow10(log) <= value < WORD && (log < 9 ==> value < I32Pow10(log + 1))
    ensures Length(value, log + 1)
  {
    I32Pow10Is(log);
    if log < 9 {
      I32Pow10Is(log + 1);
    } else {
      var ten := log + 1;
      assert Pow10(ten) == 10 * Pow10(log);
    }
  }

  method PrintDigit(out: Packer, digit: nat) returns (ok: bool)
    requires out.Valid() && digit <= 9
    modifies out, out.buffer
    ensures out.Valid() && ok == (old(out.pointer) < out.length)
    ensures ok ==> out.pointer == old(out.pointer) + 1
    ensures ok ==> out.buffer[..] == Put(old(out.buffer[..]), old(out.pointer), [DigitChar(digit)])
    ensures !ok ==> out.pointer == old(out.pointer) && out.buffer[..] == old(out.buffer[..])
  {
    if out.HasNext() {
      out.Next(DigitChar(digit));
      ok := true;
    } else {
      ok := false;
    }
  }

  /** Takes the digit off the front of a number with more digits below it. */
  method FirstDigitOf(value: nat, below: nat) returns (digit: nat, rest: nat)
    requires below < 10 && value < Pow10(below + 1)
    ensures digit <= 9 && rest < Pow10(below)
    ensures Digits(value, below + 1) == [DigitChar(digit)] + Digits(rest, below)
  {
    DigitsFront(value, below + 1);
    I32Pow10Is(below);
    var length := I32Pow10(below);
    digit, rest := value / length, value % length;
  }

  /** Writes all the digits of the number, or nothing when there is not room for all of them. */
  method PrintUnsigned(out: Packer, number: nat) returns (ok: bool, ghost n: nat)
    requires out.Valid() && number < WORD
    modifies out, out.buffer
    ensures out.Valid() && Length(number, n) && ok == (out.length - old(out.pointer) >= n)
    ensures ok ==> out.pointer == old(out.pointer) + n
    ensures ok ==> out.buffer[..] == Put(old(out.buffer[..]), old(out.pointer), Digits(number, n))
    ensures !ok ==> out.pointer == old(out.pointer) && out.buffer[..] == old(out.buffer[..])
  {
    hide Put, Digits, Pow10;
    if number == 0 {
      n := 1;
      OneDigit(number);
      ok := PrintDigit(out, 0);
      return;
    }
    var log := Ilog10(number);
    var numDigits := log + 1;
    n := numDigits;
    if out.length - out.pointer < numDigits {
      return false, n;
    }
    ghost var was, start := out.buffer[..], out.pointer;
    ghost var done := "";
    var value: nat := number;
    PutNone(was, start);
    assert "" + Digits(number, n) == Digits(number, n);
    while numDigits > 0
      invariant 0 <= numDigits <= n && out.Valid() && out.pointer == start + n - numDigits && |done| == n - numDigits
      invariant value < Pow10(numDigits) && done + Digits(value, numDigits) == Digits(number, n)
      invariant out.buffer[..] == Put(was, start, done)
    {
      numDigits := numDigits - 1;
      var digit, rest := FirstDigitOf(value, numDigits);
      ghost var c := [DigitChar(digit)];
      assert done + (c + Digits(rest, numDigits)) == (done + c) + Digits(rest, numDigits);
      PutPut(was, start, done, c);
      value := rest;
      var printed := PrintDigit(out, digit);
      done := done + c;
    }
    assert done + "" == done;
    NoDigits(value, numDigits);
    ok := true;
  }

  lemma OneDigit(v: nat)
    requires v == 0
    ensures var n: nat := 1; Digits(v, n) == [DigitChar(v)] && Length(v, n)
  {
  }

  lemma NoDigits(v: nat, n: nat)
    requires n == 0
    ensures Digits(v, n) == ""
  {
  }

  // ----- the parser's state machine -----

  datatype Phase = Start | BeforeDecimal | AfterDecimal | AfterExponent | Done | Failed

  datatype Pieces = Pieces(
    phase: Phase, isZero: bool, negative: bool, hadRadixPoint: bool, predecimal: nat, pow10: nat,
    postdecimal: nat, postDigits: nat, hasEterm: bool, negativeExponent: bool, exponent: nat)

  const FRESH := Pieces(Start, false, false, false, 0, 0, 0, 0, false, false, 0)

  /** The start after a minus sign, or without one. */
  function Begun(minus: bool): Pieces { FRESH.(negative := minus) }

  predicate IsSpace(c: char) { c in " \t\n\r" || c as int == 11 || c as int == 12 }

  predicate IsExponentMarker(c: char) { c == 'e' || c == 'E' }

  /** Whether the pieces make a number: a plain zero, or some digits that are not all zero. */
  predicate SeemsOk(s: Pieces) { s.isZero || s.predecimal > 0 || s.postdecimal > 0 }

  function Fail(s: Pieces): (Pieces, bool) { (s.(phase := Failed), false) }

  function Finish(s: Pieces): (Pieces, bool) { (s.(phase := Done), false) }

  function StepStart(s: Pieces, u: char): (Pieces, bool) {
    if u == '-' then (if s.negative then Fail(s) else (s.(negative := true), true))
    else if u == '+' then (if s.negative then Fail(s) else (s, true))
    else if u == '.' then (s.(phase := AfterDecimal), true)
    else if u == '0' then (s.(phase := BeforeDecimal, isZero := true), true)
    else if IsDigit(u) then (s.(phase := BeforeDecimal, predecimal := Applied(s.predecimal, DigitOf(u)).0), true)
    else if IsSpace(u) then (s, true)
    else Fail(s)
  }

  function StepBefore(s: Pieces, u: char): (Pieces, bool) {
    if IsDigit(u) then
      if s.isZero then Fail(s)
      else
        var (accum, dropped) := Absorb(s.predecimal, s.pow10, DigitOf(u));
        (s.(predecimal := accum, pow10 := dropped), true)
    else if u == '.' then (s.(phase := AfterDecimal, isZero := false, hadRadixPoint := true), true)
    else if IsExponentMarker(u) then (if s.isZero then Fail(s) else (s.(phase := AfterExponent), true))
    else Finish(s)
  }

  function StepAfter(s: Pieces, u: char): (Pieces, bool) {
    if IsDigit(u) then
      var (accum, fits) := Applied(s.postdecimal, DigitOf(u));
      (if s.pow10 == 0 && fits then s.(postdecimal := accum, postDigits := s.postDigits + 1) else s, true)
    else if IsExponentMarker(u) then (s.(phase := AfterExponent), true)
    else Finish(s)
  }

  function StepExponent(s: Pieces, u: char): (Pieces, bool) {
    if IsDigit(u) then (s.(hasEterm := true, exponent := Applied(s.exponent, DigitOf(u)).0), true)
    else if u == '-' then (if s.negativeExponent then Fail(s) else (s.(negativeExponent := true), true))
    else if s.exponent > 0 then Finish(s)
    else Fail(s)
  }

  /** One character pushed at the parser: the new state, and whether it was taken. */
  function Step(s: Pieces, u: char): (Pieces, bool) {
    match s.phase
    case Start => StepStart(s, u)
    case BeforeDecimal => StepBefore(s, u)
    case AfterDecimal => StepAfter(s, u)
    case AfterExponent => StepExponent(s, u)
    case _ => Fail(s)
  }

  /** Pushes characters until one is not taken: the state, and how many were. */
  function Run(s: Pieces, text: string): (r: (Pieces, nat))
    ensures r.1 <= |text|
    decreases |text|
  {
    if text == "" then (s, 0)
    else
      var (t, more) := Step(s, text[0]);
      if more then var (r, n) := Run(t, text[1..]); (r, n + 1) else (t, 0)
  }

  const BASE: nat := 10

  class PushedNumberParser {
    var phase: Phase
    var isZero: bool
    var negative: bool
    var hadRadixPoint: bool
    var predecimal: nat
    var pow10: nat
    var postdecimal: nat
    var postDigits: nat
    var hasEterm: bool
    var negativeExponent: bool
    var exponent: nat

    function Value(): Pieces
      reads this
    {
      Pieces(phase, isZero, negative, hadRadixPoint, predecimal, pow10,
          postdecimal, postDigits, hasEterm, negativeExponent, exponent)
    }

    constructor ()
      ensures Value() == FRESH
    {
      phase, isZero, negative, hadRadixPoint, predecimal, pow10 := Start, false, false, false, 0, 0;
      postdecimal, postDigits, hasEterm, negativeExponent, exponent := 0, 0, false, false, 0;
    }

    /** Shifts a digit in unless the accumulator has no room for it; of the other characters one is taken for a digit:
        the one after nine counts as ten. */
    static method ApplyDigit(accum: nat, ch: char) returns (next: nat, fits: bool)
      ensures (next, fits) ==
        if ch == ':' || IsDigit(ch) then Applied(accum, ch as int - '0' as int) else (accum, false)
    {
      if accum > CUTOFF {
        return accum, false;
      }
      var digit := (ch as int - '0' as int) % WORD;
      if digit > BASE {
        return accum, false;
      }
      next := accum * BASE;
      next := (next + digit) % WIDTH;
      fits := true;
    }

    method Next(u: char) returns (more: bool)
      modifies this
      ensures (Value(), more) == Step(old(Value()), u)
    {
      match phase
      case Start =>
        more := InStart(u);
      case BeforeDecimal =>
        more := InBeforeDecimal(u);
      case AfterDecimal =>
        if IsDigit(u) {
          if pow10 == 0 {
            var fits;
            postdecimal, fits := ApplyDigit(postdecimal, u);
            if fits {
              postDigits := postDigits + 1;
            }
          }
          more := true;
        } else if IsExponentMarker(u) {
          phase, more := AfterExponent, true;
        } else {
          phase, more := Done, false;
        }
      case AfterExponent =>
        if IsDigit(u) {
          hasEterm := true;
          var fits;
          exponent, fits := ApplyDigit(exponent, u);
          more := true;
        } else if u == '-' {
          if !negativeExponent {
            negativeExponent, more := true, true;
          } else {
            phase, more := Failed, false;
          }
        } else if exponent > 0 {
          phase, more := Done, false;
        } else {
          phase, more := Failed, false;
        }
      case _ =>
        phase, more := Failed, false;
    }

    method InStart(u: char) returns (more: bool)
      requires phase == Start
      modifies this
      ensures (Value(), more) == Step(old(Value()), u)
    {
      more := true;
      if u == '-' {
        if negative {
          phase, more := Failed, false;
        } else {
          negative := true;
        }
      } else if u == '+' {
        if negative {
          phase, more := Failed, false;
        }
      } else if u == '.' {
        phase := AfterDecimal;
      } else if u == '0' {
        isZero := true;
        phase := BeforeDecimal;
      } else if IsDigit(u) {
        phase := BeforeDecimal;
        var fits;
        predecimal, fits := ApplyDigit(predecimal, u);
      } else if !IsSpace(u) {
        phase, more := Failed, false;
      }
    }

    method InBeforeDecimal(u: char) returns (more: bool)
      requires phase == BeforeDecimal
      modifies this
      ensures (Value(), more) == Step(old(Value()), u)
    {
      more := true;
      if IsDigit(u) {
        if isZero {
          phase, more := Failed, false;
        } else if pow10 > 0 {
          pow10 := pow10 + 1;
        } else {
          var fits;
          predecimal, fits := ApplyDigit(predecimal, u);
          if !fits {
            if u >= '5' {
              predecimal := (predecimal + 1) % WIDTH;
            }
            pow10 := pow10 + 1;
          }
        }
      } else if u == '.' {
        isZero := false;
        hadRadixPoint := true;
        phase := AfterDecimal;
      } else if IsExponentMarker(u) {
        if isZero {
          phase, more := Failed, false;
        } else {
          phase := AfterExponent;
        }
      } else {
        phase, more := Done, false;
      }
    }

    /** Takes characters until one is refused, which is left unread. */
    method ParseNumber(buf: Indexer<char>) returns (ok: bool)
      requires buf.Valid()
      modifies this, buf
      ensures buf.Valid()
      ensures var (s, n) := Run(old(Value()), old(buf.Remaining()));
        Value() == s && buf.pointer == old(buf.pointer) + n && ok == SeemsOk(s)
    {
      hide Step;
      ghost var whole := Run(Value(), buf.Remaining());
      ghost var taken: nat := 0;
      while buf.HasNext()
        invariant buf.Valid() && buf.pointer == old(buf.pointer) + taken
        invariant var (s, n) := Run(Value(), buf.Remaining()); whole == (s, n + taken)
        decreases |buf.buffer| - buf.pointer
      {
        assert buf.Remaining()[0] == buf.Peek() && buf.Remaining()[1..] == buf.buffer[buf.pointer + 1..];
        var more := Next(buf.Peek());
        if more {
          buf.Skip(1);
          taken := taken + 1;
        } else {
          ok := Ok();
          return;
        }
      }
      ok := Ok();
    }

    predicate Ok()
      reads this
    {
      SeemsOk(Value())
    }
  }

  // ----- integers -----

  /** The power table above 32 bits: 64 bit entries, the last ones wrapped. */
  function Decimal2(k: nat): nat { Pow10(10 + k) % WIDTH }

  function I64Pow10(power: nat): nat {
    if power < 10 then I32Pow10(power) else if power - 10 < 20 then Decimal2(power - 10) else 0
  }

  function Mul(x: int, y: int): int { x * y }

  /** What parse64 makes of the pieces, given what its logarithm says of the digits; an exponent is known to
      produce nonsense. */
  function Integer64(s: Pieces, def: int, log: int): int {
    if !SeemsOk(s) then def
    else
      var product := Signed(log + s.pow10 + s.exponent, WORD);
      var predecimal :=
        if !s.hasEterm then s.predecimal
        else if product <= 18 then 0x7FFF_FFFF_FFFF_FFFF
        else Mul(s.predecimal, I64Pow10(s.exponent % WORD)) % WIDTH;
      Signed(if s.negative then -predecimal else predecimal, WIDTH)
  }

  function Log64From(value: nat, k: nat): int
    decreases k
  {
    if k == 0 then Log32From(value % WORD, 10)
    else if Decimal2(k - 1) <= value then k - 1 + 10
    else Log64From(value, k - 1)
  }

  function Log32From(value: nat, k: nat): int {
    if k == 0 then -1 else if I32Pow10(k - 1) <= value then k - 1 else Log32From(value, k - 1)
  }

  method Ilog10Wide(value: nat) returns (log: int)
    ensures log == Log64From(value, 20)
  {
    hide Decimal2;
    var k := 20;
    while k > 0
      invariant 0 <= k <= 20 && Log64From(value, 20) == Log64From(value, k)
    {
      k := k - 1;
      if Decimal2(k) <= value {
        return k + 10;
      }
    }
    var low := value % WORD;
    var j := 10;
    while j > 0
      invariant 0 <= j <= 10 && Log64From(value, 20) == Log32From(low, j)
    {
      j := j - 1;
      if I32Pow10(j) <= low {
        return j;
      }
    }
    log := -1;
  }

  /** What parse64 makes of a text. */
  function Parsed(text: string, def: int): int {
    var s := Run(FRESH, text).0;
    Integer64(s, def, Log64From(s.predecimal, 20))
  }

  method Parse64(buf: Indexer<char>, def: int) returns (r: int)
    requires buf.Valid()
    modifies buf
    ensures buf.Valid()
    ensures buf.pointer == old(buf.pointer) + Run(FRESH, old(buf.Remaining())).1
    ensures r == Parsed(old(buf.Remaining()), def)
  {
    hide Run, Step, Log64From, I64Pow10;
    var n := new PushedNumberParser();
    var ok := n.ParseNumber(buf);
    if ok {
      var predecimal := n.predecimal;
      if n.hasEterm {
        var log := Ilog10Wide(n.predecimal);
        var logProduct := Signed(log + n.pow10 + n.exponent, WORD);
        if logProduct <= 18 {
          predecimal := 0x7FFF_FFFF_FFFF_FFFF;
        } else {
          predecimal := predecimal * I64Pow10(n.exponent % WORD) % WIDTH;
        }
      }
      r := Signed(if n.negative then -predecimal else predecimal, WIDTH);
    } else {
      r := def;
    }
  }

  /** What parseUnsigned makes of a text. */
  function Unsigned(text: string, def: nat): int {
    var dry := Parsed(text, def);
    if dry > 0xFFFF_FFFF then def else if dry < 0 then def else dry
  }

  method ParseUnsigned(buf: Indexer<char>, def: nat) returns (r: int)
    requires buf.Valid() && def < WORD
    modifies buf
    ensures buf.Valid() && r == Unsigned(old(buf.Remaining()), def)
    ensures 0 <= r < WORD
  {
    hide Parsed;
    var dry := Parse64(buf, def);
    r := if dry > 0xFFFF_FFFF then def else if dry < 0 then def else dry;
  }

  // ----- what parsing digits gives -----

  /** Digits are taken in one by one, whatever follows them. */
  lemma {:induction false} RunDigits(minus: bool, digits: string, rest: string)
    requires AllDigits(digits) && digits != "" && digits[0] != '0'
    ensures var (accum, dropped) := Absorbed(digits);
      var (s, n) := Run(Begun(minus).(phase := BeforeDecimal, predecimal := accum, pow10 := dropped), rest);
      Run(Begun(minus), digits + rest) == (s, n + |digits|)
    decreases |digits|
  {
    hide Absorb, Applied;
    var last := |digits| - 1;
    var front, c := digits[..last], digits[last];
    assert ([c] + rest)[0] == c && ([c] + rest)[1..] == rest;
    assert digits + rest == front + ([c] + rest);
    if front == "" {
      FirstDigit(minus, digits);
      assert digits + rest == [c] + rest;
    } else {
      RunDigits(minus, front, [c] + rest);
    }
  }

  lemma FirstDigit(minus: bool, digits: string)
    requires AllDigits(digits) && |digits| == 1 && digits[0] != '0'
    ensures Absorbed(digits) == (DigitOf(digits[0]), 0)
    ensures Step(Begun(minus), digits[0]) ==
      (Begun(minus).(phase := BeforeDecimal, predecimal := DigitOf(digits[0])), true)
  {
    assert digits[..0] == "";
  }

  /** Nothing follows, or something that cannot belong to a number. */
  predicate Ends(rest: string) {
    rest != "" ==> !IsDigit(rest[0]) && rest[0] != '.' && !IsExponentMarker(rest[0])
  }

  lemma RunEnds(rest: string)
    requires Ends(rest)
    ensures forall s: Pieces :: s.phase == BeforeDecimal ==>
      Run(s, rest) == (if rest == "" then s else s.(phase := Done), 0)
  {
  }

  /** For a digit string without a leading zero, of any length, the value kept is the exact value rounded to the
      places kept, exactly if the accumulator does not wrap. */
  lemma ParsedRoundsExactly(digits: string, rest: string)
    requires AllDigits(digits) && digits != "" && digits[0] != '0' && Ends(rest)
    ensures var (s, n) := Run(FRESH, digits + rest);
      && n == |digits| && !s.hasEterm && !s.negative && s.postdecimal == 0 && !s.isZero
      && (Near(s.predecimal, s.pow10, Value(digits)) <==> !Wraps(digits))
      && (!Wraps(digits) && s.pow10 == 0 ==> s.predecimal == Value(digits))
  {
    hide Near, Wraps, Absorbed, Run;
    RunEnds(rest);
    RunDigits(false, digits, rest);
    RoundsExactly(digits);
  }

  lemma Zero(n: nat, rest: string)
    requires Length(0, n)
    ensures Digits(0, n) == "0" && Run(FRESH, Digits(0, n) + rest)
        == (var (s, k) := Run(FRESH.(phase := BeforeDecimal, isZero := true), rest); (s, k + 1))
  {
  }

  // ----- a printed number before any further text -----

  /** What the accumulator keeps of the digits a text begins with. */
  function Kept(accum: nat, t: string): nat
    decreases |t|
  {
    if t == "" || !IsDigit(t[0]) then accum else Kept(Applied(accum, DigitOf(t[0])).0, t[1..])
  }

  /** The text past those digits. */
  function PastDigits(t: string): string
    decreases |t|
  {
    if t == "" || !IsDigit(t[0]) then t else PastDigits(t[1..])
  }

  /** The text after an exponent marker, if the text begins with one. */
  function Marked(t: string): string { if t != "" && IsExponentMarker(t[0]) then t[1..] else "" }

  /** Whether a text gives an exponent at least one digit; a single minus sign may precede it. */
  predicate Termed(signed: bool, t: string)
    decreases |t|
  {
    t != "" && (IsDigit(t[0]) || (t[0] == '-' && !signed && Termed(true, t[1..])))
  }

  /** What is kept of an exponent, in which one minus sign may stand anywhere. */
  function Exponent(accum: nat, signed: bool, t: string): nat
    decreases |t|
  {
    if t == "" then accum
    else if IsDigit(t[0]) then Exponent(Applied(accum, DigitOf(t[0])).0, signed, t[1..])
    else if t[0] == '-' && !signed then Exponent(accum, true, t[1..])
    else accum
  }

  predicate Pointed(rest: string) { rest != "" && rest[0] == '.' }

  /** Where the exponent of a number would be in the text that follows its integer digits. */
  function Term(rest: string): string { Marked(if Pointed(rest) then PastDigits(rest[1..]) else rest) }

  /** The pieces of an integer: what is read further on does not touch them. */
  predicate SameInteger(r: Pieces, s: Pieces) {
    r.predecimal == s.predecimal && r.pow10 == s.pow10 && r.isZero == s.isZero && r.negative == s.negative
  }

  lemma {:induction false} RunExponent(s: Pieces, t: string)
    requires s.phase == AfterExponent
    ensures var r := Run(s, t).0;
      && SameInteger(r, s) && r.postdecimal == s.postdecimal
      && r.hasEterm == (s.hasEterm || Termed(s.negativeExponent, t))
      && r.exponent == Exponent(s.exponent, s.negativeExponent, t)
    decreases |t|
  {
    hide Applied;
    if t != "" {
      var (next, more) := Step(s, t[0]);
      if more { RunExponent(next, t[1..]); }
    }
  }

  /** The digits after the point are kept apart, and an exponent may come after them. */
  lemma {:induction false} RunFraction(s: Pieces, t: string)
    requires s.phase == AfterDecimal && s.pow10 == 0 && !s.hasEterm && !s.negativeExponent && s.exponent == 0
    ensures var r := Run(s, t).0;
      && SameInteger(r, s) && r.postdecimal == Kept(s.postdecimal, t)
      && r.hasEterm == Termed(false, Marked(PastDigits(t)))
      && r.exponent == Exponent(s.exponent, false, Marked(PastDigits(t)))
    decreases |t|
  {
    if t != "" {
      if IsDigit(t[0]) {
        RunFraction(Step(s, t[0]).0, t[1..]);
      } else if IsExponentMarker(t[0]) {
        RunExponent(Step(s, t[0]).0, t[1..]);
      }
    }
  }

  /** What is made of the text after the digits of an integer. */
  lemma RunContinues(s: Pieces, rest: string)
    requires s == Begun(s.negative).(phase := BeforeDecimal, isZero := s.isZero, predecimal := s.predecimal)
    requires rest == "" || !IsDigit(rest[0])
    ensures var r := Run(s, rest).0;
      && r.predecimal == s.predecimal && r.pow10 == 0 && r.negative == s.negative
      && r.isZero == (s.isZero && !Pointed(rest))
      && r.postdecimal == (if Pointed(rest) then Kept(0, rest[1..]) else 0)
      && (!r.isZero ==> r.hasEterm == Termed(false, Term(rest)) && r.exponent == Exponent(0, false, Term(rest)))
      && (r.isZero ==> !r.hasEterm)
  {
    hide Kept, PastDigits, Termed, Exponent;
    Untermed();
    if rest != "" {
      var (next, more) := Step(s, rest[0]);
      if rest[0] == '.' {
        RunFraction(next, rest[1..]);
      } else if IsExponentMarker(rest[0]) && !s.isZero {
        RunExponent(next, rest[1..]);
      }
    }
  }

  lemma Untermed()
    ensures !Termed(false, "") && Exponent(0, false, "") == 0
  {
  }

  /** What the parser makes of a printed number and the text after it. */
  lemma RunPrinted(v: nat, n: nat, rest: string)
    requires v < WORD && Length(v, n) && (rest == "" || !IsDigit(rest[0]))
    ensures var r := Run(FRESH, Digits(v, n) + rest).0;
      && r.predecimal == v && r.pow10 == 0 && !r.negative
      && r.isZero == (v == 0 && !Pointed(rest))
      && r.postdecimal == (if Pointed(rest) then Kept(0, rest[1..]) else 0)
      && (!r.isZero ==> r.hasEterm == Termed(false, Term(rest)) && r.exponent == Exponent(0, false, Term(rest)))
      && (r.isZero ==> !r.hasEterm)
  {
    hide Digits, Absorbed, Run, Step, Kept, Term, Termed, Exponent;
    ValueOfDigits(v, n);
    if v == 0 {
      Zero(n, rest);
      RunContinues(FRESH.(phase := BeforeDecimal, isZero := true), rest);
    } else {
      NoLeadingZero(v, n);
      SmallAbsorbed(Digits(v, n));
      RunDigits(false, Digits(v, n), rest);
      RunContinues(FRESH.(phase := BeforeDecimal, predecimal := v), rest);
    }
  }

  /** Before any text that neither goes on with digits nor gives an exponent, a printed number comes back exactly if
      it is not a zero with a decimal point after it whose fraction is kept as zero: that is read as no number. */
  lemma PrintParseExactly(v: nat, n: nat, rest: string, def: nat)
    requires v < WORD && Length(v, n)
    requires (rest == "" || !IsDigit(rest[0])) && !Termed(false, Term(rest))
    ensures Unsigned(Digits(v, n) + rest, def) == v
      <==> !(v == 0 && def != 0 && Pointed(rest) && Kept(0, rest[1..]) == 0)
  {
    hide Digits, Log64From, Run, Kept, Term, Termed, Exponent;
    RunPrinted(v, n, rest);
  }

  /** A number printed and parsed again comes back, if what follows cannot belong to a number. */
  lemma PrintParse(v: nat, n: nat, rest: string, def: nat)
    requires v < WORD && Length(v, n) && Ends(rest)
    ensures Unsigned(Digits(v, n) + rest, def) == v
  {
    hide Digits, Unsigned;
    Untermed();
    PrintParseExactly(v, n, rest, def);
  }

  /** The entries of the wide power table, the last ten of them wrapped. */
  const DECIMAL2: seq<nat> := [
    10000000000, 100000000000, 1000000000000, 10000000000000, 100000000000000, 1000000000000000,
    10000000000000000, 100000000000000000, 1000000000000000000, 10000000000000000000,
    7766279631452241920, 3875820019684212736, 1864712049423024128, 200376420520689664,
    2003764205206896640, 1590897978359414784, 15908979783594147840, 11515845246265065472,
    4477988020393345024, 7886392056514347008]

  lemma {:induction false} Decimal2Is(k: nat)
    requires k < 20
    ensures Decimal2(k) == DECIMAL2[k]
  {
    hide Pow10;
    PowerStep(k + 10);
    if k == 0 {
      I32Pow10Is(k + 9);
    } else {
      Decimal2Is(k - 1);
      TenWrapped(Pow10(k + 9));
      NextEntry(k);
    }
  }

  lemma NextEntry(k: nat)
    requires 0 < k < 20
    ensures DECIMAL2[k] == 10 * DECIMAL2[k - 1] % WIDTH
  {
  }

  lemma TenWrapped(x: nat)
    ensures 10 * x % WIDTH == 10 * (x % WIDTH) % WIDTH
  {
    var q, r := x / WIDTH, x % WIDTH;
    assert 10 * x == WIDTH * (10 * q) + 10 * r;
    var a, b := 10 * r / WIDTH, 10 * r % WIDTH;
    DivMod(10 * x, WIDTH, 10 * q + a, b);
  }

  lemma {:induction false} SmallLog(v: nat, k: nat)
    requires v < WORD && k <= 20
    ensures -1 <= Log64From(v, k) <= 9
  {
    hide Decimal2;
    if k == 0 {
      SmallestLog(v, 10);
    } else {
      Decimal2Is(k - 1);
      SmallLog(v, k - 1);
    }
  }

  lemma {:induction false} SmallestLog(v: nat, k: nat)
    requires k <= 10
    ensures -1 <= Log32From(v, k) < k
  {
    if k > 0 { SmallestLog(v, k - 1); }
  }

  lemma EvenPower(e: nat)
    requires e > 0
    ensures I64Pow10(e) % 2 == 0 && 0 <= I64Pow10(e) < WIDTH
  {
    hide Decimal2;
    if e >= 10 {
      if e - 10 < 20 { Decimal2Is(e - 10); }
    }
  }

  function Twos(n: nat): (p: nat)
    ensures p > 0
  {
    if n == 0 then 1 else 2 * Twos(n - 1)
  }

  lemma ManyTwos(n: nat)
    ensures Twos(n + 4) == 16 * Twos(n)
  {
    assert Twos(n + 4) == 2 * Twos(n + 3) && Twos(n + 2) == 2 * Twos(n + 1);
  }

  lemma WordTwos(n: nat)
    requires n == 0
    ensures Twos(n + 32) == WORD
  {
    assert Twos(n) == 1;
    hide Twos;
    ManyTwos(n);
    ManyTwos(n + 4);
    ManyTwos(n + 8);
    ManyTwos(n + 12);
    ManyTwos(n + 16);
    ManyTwos(n + 20);
    ManyTwos(n + 24);
    ManyTwos(n + 28);
  }

  /** An odd factor leaves the twos of a product to the other factor. */
  lemma {:induction false} OddFactor(v: nat, m: nat, q: int, n: nat)
    requires m % 2 == 1 && Mul(v, m) == Mul(q, Twos(n))
    ensures v % Twos(n) == 0
  {
    hide Mul, Twos;
    if n == 0 {
      NoTwos(n);
    } else {
      var w := v / 2;
      TwiceTwos(q, n);
      OddTimes(v, m);
      OddFactor(w, m, q, n - 1);
      TwiceMultiple(w, Twos(n - 1));
    }
  }

  lemma NoTwos(n: nat)
    requires n == 0
    ensures Twos(n) == 1
  {
  }

  lemma TwiceTwos(q: int, n: nat)
    requires n > 0
    ensures Twos(n) == 2 * Twos(n - 1) && Mul(q, Twos(n)) == 2 * Mul(q, Twos(n - 1))
  {
  }

  lemma OddTimes(v: nat, m: nat)
    requires m % 2 == 1
    ensures Mul(v, m) % 2 == v % 2
    ensures v % 2 == 0 ==> Mul(v, m) == 2 * Mul(v / 2, m)
  {
    hide Mul;
    TwiceTimes(v / 2, m);
    if v % 2 == 1 { OnceMore(v - 1, m); }
  }

  lemma TwiceTimes(a: int, m: int)
    ensures Mul(2 * a, m) == 2 * Mul(a, m)
  {
  }

  lemma OnceMore(a: int, m: int)
    ensures Mul(a + 1, m) == Mul(a, m) + m
  {
  }

  lemma TwiceMultiple(w: nat, t: nat)
    requires t > 0 && w % t == 0
    ensures 2 * w % (2 * t) == 0
  {
    var a := w / t;
    assert w == t * a;
    DivMod(2 * w, 2 * t, a, 0);
  }

  /** A word times an even number is never again that word, even modulo the accumulator's width. */
  lemma EvenChanges(v: nat, p: nat)
    requires 0 < v < WORD && p % 2 == 0
    ensures Mul(v, p) % WIDTH != v
  {
    hide Mul, Twos;
    if p == 0 {
      NoneOf(v, p);
    } else if Mul(v, p) % WIDTH == v {
      OneLess(v, p - 1);
      WordTwos(0);
      TwiceWord(Mul(v, p), v);
      OddFactor(v, p - 1, Mul(v, p) / WIDTH * WORD, 32);
    }
  }

  lemma NoneOf(v: int, p: int)
    requires p == 0
    ensures Mul(v, p) == 0
  {
  }

  lemma OneLess(v: int, m: int)
    ensures Mul(v, m + 1) == Mul(v, m) + v
  {
  }

  lemma TwiceWord(x: int, v: int)
    requires x % WIDTH == v
    ensures x - v == Mul(x / WIDTH * WORD, WORD)
  {
  }

  lemma WrapsAway(log: int, e: nat)
    requires -1 <= log <= 9 && e % WORD == 0
    ensures Signed(log + e, WORD) == log
  {
    assert (log + e) % WORD == log % WORD;
  }

  /** What parse64 makes of a nonzero word with an exponent is another number. */
  lemma ExponentChanges(s: Pieces, def: int, log: int)
    requires 0 < s.predecimal < WORD && s.pow10 == 0 && !s.negative && s.hasEterm && -1 <= log <= 9
    ensures Integer64(s, def, log) != s.predecimal
  {
    hide I64Pow10, Mul;
    if s.exponent % WORD == 0 {
      WrapsAway(log, s.exponent);
    } else {
      var p := I64Pow10(s.exponent % WORD);
      EvenPower(s.exponent % WORD);
      EvenChanges(s.predecimal, p);
    }
  }

  /** With an exponent a nonzero number is never read back: only the default can be the same. */
  lemma ExponentSpoils(v: nat, n: nat, rest: string, def: nat)
    requires 0 < v < WORD && Length(v, n)
    requires (rest == "" || !IsDigit(rest[0])) && Termed(false, Term(rest))
    ensures Unsigned(Digits(v, n) + rest, def) == v ==> def == v
  {
    hide Digits, Log64From, Integer64, Run, Kept, Term, Termed, Exponent;
    RunPrinted(v, n, rest);
    SmallLog(v, 20);
    ExponentChanges(Run(FRESH, Digits(v, n) + rest).0, def, Log64From(v, 20));
  }

  /** Whether a zero comes back before a text: there is no point, or a fraction that is not kept as zero and no
      exponent or one so large that the product, which is zero, is computed. */
  predicate ZeroComesBack(rest: string) {
    Pointed(rest) ==>
      && Kept(0, rest[1..]) > 0
      && (Termed(false, Term(rest)) ==> Signed(Exponent(0, false, Term(rest)) - 1, WORD) > 18)
  }

  lemma {:induction false} ZeroLog(k: nat)
    requires k <= 20
    ensures Log64From(0, k) == -1
  {
    hide Decimal2;
    if k == 0 {
      ZeroSmallLog(10);
    } else {
      Decimal2Is(k - 1);
      ZeroLog(k - 1);
    }
  }

  lemma {:induction false} ZeroSmallLog(k: nat)
    requires k <= 10
    ensures Log32From(0, k) == -1
  {
    if k > 0 { ZeroSmallLog(k - 1); }
  }

  lemma ZeroParses(n: nat, rest: string, def: nat)
    requires def < WORD && Length(0, n) && (rest == "" || !IsDigit(rest[0]))
    ensures Unsigned(Digits(0, n) + rest, def) == 0 <==> def == 0 || ZeroComesBack(rest)
  {
    hide Digits, Run, Kept, Term, Termed, Exponent, I64Pow10, Decimal2;
    RunPrinted(0, n, rest);
    ZeroLog(20);
  }

  /** A zero with a bare point after it is no number, and with a fraction it is read as zero. */
  lemma ZeroWithPoint(n: nat, def: nat)
    requires n == 1 && def < WORD
    ensures Digits(0, n) + "." == "0." && Unsigned("0.", def) == def
    ensures Digits(0, n) + ".5" == "0.5" && Unsigned("0.5", def) == 0
  {
    hide Log64From, Digits, Run, Step;
    OneDigit(0);
    RunPrinted(0, n, ".");
    RunPrinted(0, n, ".5");
    assert Digits(0, n) + "." == "0." && Digits(0, n) + ".5" == "0.5";
    assert Kept(0, ".5"[1..]) == 5 && Term(".5") == "";
  }

  /** Before any text that does not go on with digits: a printed number comes back whatever the default, if and only
      if no exponent follows, or for a zero under the conditions above. */
  lemma PrintParseAlways(v: nat, n: nat, rest: string)
    requires v < WORD && Length(v, n) && (rest == "" || !IsDigit(rest[0]))
    ensures (forall def: nat :: def < WORD ==> Unsigned(Digits(v, n) + rest, def) == v)
      <==> if v == 0 then ZeroComesBack(rest) else !Termed(false, Term(rest))
  {
    hide Digits, Unsigned, Kept, Term, Termed, Exponent;
    if v == 0 {
      forall def: nat | def < WORD
        ensures Unsigned(Digits(v, n) + rest, def) == v <==> def == 0 || ZeroComesBack(rest)
      {
        ZeroParses(n, rest, def);
      }
      assert Unsigned(Digits(v, n) + rest, 1) == v <==> ZeroComesBack(rest);
    } else if Termed(false, Term(rest)) {
      ExponentSpoils(v, n, rest, 0);
      assert Unsigned(Digits(v, n) + rest, 0) != v;
    } else {
      forall def: nat | def < WORD ensures Unsigned(Digits(v, n) + rest, def) == v {
        PrintParseExactly(v, n, rest, def);
      }
    }
  }
}
