/** The Modbus CRC of cppext/crc16m.cpp: a table of precomputed octets against the bit-serial register of
    MODBUS over Serial Line Specification and Implementation Guide V1.02, section 6.2.2. */
module Crc16m {
  import opened Buffer

  // ----- the register, one bit at a time -----

  // Operations on words are kept behind names, so that proofs about runs do not reason about single bits.

  function Xor16(a: bv16, b: bv16): bv16 { a ^ b }
  function Xor8(a: bv8, b: bv8): bv8 { a ^ b }
  function Wide(b: bv8): bv16 { b as bv16 }
  function Upper(x: bv16): bv8 { (x >> 8) as bv8 }
  function Lower(x: bv16): bv8 { (x & 0xFF) as bv8 }
  function Join(upper: bv8, lower: bv8): bv16 { ((upper as bv16) << 8) | (lower as bv16) }
  predicate Low(b: bv8) { b & 1 == 1 }
  function Half(b: bv8): bv8 { b >> 1 }
  predicate Odd(x: bv16) { x & 1 == 1 }
  function Flip(x: bv16): bv16 { x ^ 1 }
  function Shift(x: bv16): bv16 { x >> 1 }
  function Double(x: bv16): bv16 { x << 1 }
  function Feedback(x: bv16): bv16 { x ^ 0xA001 }

  /** Takes in one transmitted bit; the register is reflected, so it shifts right. */
  function BitStep(reg: bv16, bit: bool): bv16 {
    var x := if bit then Flip(reg) else reg;
    if Odd(x) then Feedback(Shift(x)) else Shift(x)
  }

  function BitRun(reg: bv16, bits: seq<bool>): bv16
    decreases |bits|
  {
    if bits == [] then reg else BitRun(BitStep(reg, bits[0]), bits[1..])
  }

  /** Eight shifts without input. */
  function Octet(reg: bv16): bv16 {
    BitStep(BitStep(BitStep(BitStep(
      BitStep(BitStep(BitStep(BitStep(reg, false), false), false), false), false), false), false), false)
  }

  function ByteStep(reg: bv16, b: bv8): bv16 { Octet(Xor16(reg, Wide(b))) }

  /** The register after a whole message. */
  function Register(reg: bv16, message: seq<bv8>): bv16
    decreases |message|
  {
    if message == [] then reg else ByteStep(Register(reg, message[..|message| - 1]), message[|message| - 1])
  }

  function Swap(reg: bv16): bv16 { (reg << 8) | (reg >> 8) }

  /** The bit-serial definition of what the original returns: register started at all ones, octets exchanged. */
  function Crc(message: seq<bv8>): bv16 { Swap(Register(0xFFFF, message)) }

  // ----- the table, sixteen entries to a row -----

  const ROW_0: seq<bv16> :=
    [0x0000, 0xC1C0, 0x81C1, 0x4001, 0x01C3, 0xC003, 0x8002, 0x41C2,
     0x01C6, 0xC006, 0x8007, 0x41C7, 0x0005, 0xC1C5, 0x81C4, 0x4004]
  const ROW_1: seq<bv16> :=
    [0x01CC, 0xC00C, 0x800D, 0x41CD, 0x000F, 0xC1CF, 0x81CE, 0x400E,
     0x000A, 0xC1CA, 0x81CB, 0x400B, 0x01C9, 0xC009, 0x8008, 0x41C8]
  const ROW_2: seq<bv16> :=
    [0x01D8, 0xC018, 0x8019, 0x41D9, 0x001B, 0xC1DB, 0x81DA, 0x401A,
     0x001E, 0xC1DE, 0x81DF, 0x401F, 0x01DD, 0xC01D, 0x801C, 0x41DC]
  const ROW_3: seq<bv16> :=
    [0x0014, 0xC1D4, 0x81D5, 0x4015, 0x01D7, 0xC017, 0x8016, 0x41D6,
     0x01D2, 0xC012, 0x8013, 0x41D3, 0x0011, 0xC1D1, 0x81D0, 0x4010]
  const ROW_4: seq<bv16> :=
    [0x01F0, 0xC030, 0x8031, 0x41F1, 0x0033, 0xC1F3, 0x81F2, 0x4032,
     0x0036, 0xC1F6, 0x81F7, 0x4037, 0x01F5, 0xC035, 0x8034, 0x41F4]
  const ROW_5: seq<bv16> :=
    [0x003C, 0xC1FC, 0x81FD, 0x403D, 0x01FF, 0xC03F, 0x803E, 0x41FE,
     0x01FA, 0xC03A, 0x803B, 0x41FB, 0x0039, 0xC1F9, 0x81F8, 0x4038]
  const ROW_6: seq<bv16> :=
    [0x0028, 0xC1E8, 0x81E9, 0x4029, 0x01EB, 0xC02B, 0x802A, 0x41EA,
     0x01EE, 0xC02E, 0x802F, 0x41EF, 0x002D, 0xC1ED, 0x81EC, 0x402C]
  const ROW_7: seq<bv16> :=
    [0x01E4, 0xC024, 0x8025, 0x41E5, 0x0027, 0xC1E7, 0x81E6, 0x4026,
     0x0022, 0xC1E2, 0x81E3, 0x4023, 0x01E1, 0xC021, 0x8020, 0x41E0]
  const ROW_8: seq<bv16> :=
    [0x01A0, 0xC060, 0x8061, 0x41A1, 0x0063, 0xC1A3, 0x81A2, 0x4062,
     0x0066, 0xC1A6, 0x81A7, 0x4067, 0x01A5, 0xC065, 0x8064, 0x41A4]
  const ROW_9: seq<bv16> :=
    [0x006C, 0xC1AC, 0x81AD, 0x406D, 0x01AF, 0xC06F, 0x806E, 0x41AE,
     0x01AA, 0xC06A, 0x806B, 0x41AB, 0x0069, 0xC1A9, 0x81A8, 0x4068]
  const ROW_A: seq<bv16> :=
    [0x0078, 0xC1B8, 0x81B9, 0x4079, 0x01BB, 0xC07B, 0x807A, 0x41BA,
     0x01BE, 0xC07E, 0x807F, 0x41BF, 0x007D, 0xC1BD, 0x81BC, 0x407C]
  const ROW_B: seq<bv16> :=
    [0x01B4, 0xC074, 0x8075, 0x41B5, 0x0077, 0xC1B7, 0x81B6, 0x4076,
     0x0072, 0xC1B2, 0x81B3, 0x4073, 0x01B1, 0xC071, 0x8070, 0x41B0]
  const ROW_C: seq<bv16> :=
    [0x0050, 0xC190, 0x8191, 0x4051, 0x0193, 0xC053, 0x8052, 0x4192,
     0x0196, 0xC056, 0x8057, 0x4197, 0x0055, 0xC195, 0x8194, 0x4054]
  const ROW_D: seq<bv16> :=
    [0x019C, 0xC05C, 0x805D, 0x419D, 0x005F, 0xC19F, 0x819E, 0x405E,
     0x005A, 0xC19A, 0x819B, 0x405B, 0x0199, 0xC059, 0x8058, 0x4198]
  const ROW_E: seq<bv16> :=
    [0x0188, 0xC048, 0x8049, 0x4189, 0x004B, 0xC18B, 0x818A, 0x404A,
     0x004E, 0xC18E, 0x818F, 0x404F, 0x018D, 0xC04D, 0x804C, 0x418C]
  const ROW_F: seq<bv16> :=
    [0x0044, 0xC184, 0x8185, 0x4045, 0x0187, 0xC047, 0x8046, 0x4186,
     0x0182, 0xC042, 0x8043, 0x4183, 0x0041, 0xC181, 0x8180, 0x4040]

  lemma Nibble(b: bv8)
    ensures (b & 0xF) as nat < 16
  {
  }

  function TableRow(high: bv8): (row: seq<bv16>)
    ensures |row| == 16
  {
    if high == 0x0 then ROW_0
    else if high == 0x1 then ROW_1
    else if high == 0x2 then ROW_2
    else if high == 0x3 then ROW_3
    else if high == 0x4 then ROW_4
    else if high == 0x5 then ROW_5
    else if high == 0x6 then ROW_6
    else if high == 0x7 then ROW_7
    else if high == 0x8 then ROW_8
    else if high == 0x9 then ROW_9
    else if high == 0xA then ROW_A
    else if high == 0xB then ROW_B
    else if high == 0xC then ROW_C
    else if high == 0xD then ROW_D
    else if high == 0xE then ROW_E
    else ROW_F
  }

  function PrecomputedCrc(b: bv8): bv16 {
    Nibble(b);
    TableRow(b >> 4)[(b & 0xF) as nat]
  }

  lemma FirstRows(b: bv8)
    requires b < 0x40
    ensures PrecomputedCrc(b) == Swap(Octet(Wide(b)))
  {
  }

  lemma SecondRows(b: bv8)
    requires 0x40 <= b < 0x80
    ensures PrecomputedCrc(b) == Swap(Octet(Wide(b)))
  {
  }

  lemma ThirdRows(b: bv8)
    requires 0x80 <= b < 0xC0
    ensures PrecomputedCrc(b) == Swap(Octet(Wide(b)))
  {
  }

  lemma LastRows(b: bv8)
    requires 0xC0 <= b
    ensures PrecomputedCrc(b) == Swap(Octet(Wide(b)))
  {
  }

  /** Every table entry is its index shifted through the register eight times, octets exchanged. */
  lemma TableIsSerial(b: bv8)
    ensures PrecomputedCrc(b) == Swap(Octet(Wide(b)))
  {
    hide *;
    if b < 0x40 {
      FirstRows(b);
    } else if b < 0x80 {
      SecondRows(b);
    } else if b < 0xC0 {
      ThirdRows(b);
    } else {
      LastRows(b);
    }
  }

  // ----- linearity -----

  lemma OddXor(x: bv16, y: bv16)
    ensures Odd(Xor16(x, y)) == (Odd(x) != Odd(y))
  {
  }

  lemma ShiftXor(x: bv16, y: bv16)
    ensures Shift(Xor16(x, y)) == Xor16(Shift(x), Shift(y))
  {
  }

  lemma FeedbackXor(x: bv16, y: bv16)
    ensures Feedback(Xor16(x, y)) == Xor16(Feedback(x), y)
  {
  }

  lemma XorFeedback(x: bv16, y: bv16)
    ensures Feedback(Xor16(x, y)) == Xor16(x, Feedback(y))
  {
  }

  lemma FeedbackTwice(x: bv16)
    ensures Feedback(Feedback(x)) == x
  {
  }

  lemma StepLinear(x: bv16, y: bv16)
    ensures BitStep(Xor16(x, y), false) == Xor16(BitStep(x, false), BitStep(y, false))
  {
    hide Odd, Shift, Feedback, Xor16;
    OddXor(x, y);
    ShiftXor(x, y);
    FeedbackXor(Shift(x), Shift(y));
    XorFeedback(Shift(x), Shift(y));
    XorFeedback(Feedback(Shift(x)), Shift(y));
    FeedbackTwice(Xor16(Shift(x), Shift(y)));
  }

  function Shifts(reg: bv16, k: nat): bv16
    decreases k
  {
    if k == 0 then reg else Shifts(BitStep(reg, false), k - 1)
  }

  lemma OctetIsShifts(reg: bv16)
    ensures Octet(reg) == Shifts(reg, 8)
  {
  }

  lemma {:induction false} ShiftsLinear(x: bv16, y: bv16, k: nat)
    ensures Shifts(Xor16(x, y), k) == Xor16(Shifts(x, k), Shifts(y, k))
    decreases k
  {
    hide BitStep, Xor16;
    if k > 0 {
      StepLinear(x, y);
      ShiftsLinear(BitStep(x, false), BitStep(y, false), k - 1);
    }
  }

  lemma OctetLinear(x: bv16, y: bv16)
    ensures Octet(Xor16(x, y)) == Xor16(Octet(x), Octet(y))
  {
    hide *;
    OctetIsShifts(x);
    OctetIsShifts(y);
    OctetIsShifts(Xor16(x, y));
    ShiftsLinear(x, y, 8);
  }

  // ----- the table-driven loop -----

  /** The upper half comes out of eight shifts unchanged, as the lower half. */
  lemma OctetOfUpper(upper: bv8)
    ensures Octet(Join(upper, 0)) == Wide(upper)
  {
  }

  lemma Halves(low: bv8, high: bv8, b: bv8)
    ensures Xor16(Join(low, high), Wide(b)) == Xor16(Join(low, 0), Wide(Xor8(high, b)))
  {
  }

  lemma Recombine(o: bv16, low: bv8)
    ensures Join(Lower(Swap(o)), Xor8(low, Upper(Swap(o)))) == Xor16(Wide(low), o)
  {
  }

  /** One pass of the loop is one octet through the bit-serial register. */
  lemma TableStep(low: bv8, high: bv8, b: bv8)
    ensures var precomp := PrecomputedCrc(Xor8(high, b));
      Join(Lower(precomp), Xor8(low, Upper(precomp))) == ByteStep(Join(low, high), b)
  {
    hide Octet, PrecomputedCrc, Swap, Xor16, Xor8, Join, Lower, Upper, Wide;
    var i := Xor8(high, b);
    Halves(low, high, b);
    OctetLinear(Join(low, 0), Wide(i));
    OctetOfUpper(low);
    TableIsSerial(i);
    Recombine(Octet(Wide(i)), low);
  }

  /** Reads the rest of the buffer. The names low and high are the original's: high holds the half that
      meets the next octet. */
  method Compute(summer: Indexer<bv8>) returns (crc: bv16)
    requires summer.Valid()
    modifies summer
    ensures summer.Valid() && !summer.HasNext()
    ensures crc == Crc(old(summer.Remaining()))
  {
    hide ByteStep, PrecomputedCrc, Join, Xor8, Lower, Upper, Swap;
    ghost var start, message := summer.pointer, summer.Remaining();
    var low: bv8 := 255;
    var high: bv8 := 255;
    AllOnes();
    while summer.HasNext()
      invariant summer.Valid() && start <= summer.pointer
      invariant Join(low, high) == Register(0xFFFF, message[..summer.pointer - start])
      decreases |summer.buffer| - summer.pointer
    {
      ghost var k := summer.pointer - start;
      var b := summer.Next();
      TableStep(low, high, b);
      RegisterStep(message, k);
      var precomp := PrecomputedCrc(Xor8(high, b));
      high := Xor8(low, Upper(precomp));
      low := Lower(precomp);
    }
    assert message[..summer.pointer - start] == message;
    SwapHalves(low, high);
    return Join(high, low);
  }

  lemma AllOnes()
    ensures Join(255, 255) == 0xFFFF
  {
  }

  lemma RegisterStep(message: seq<bv8>, k: nat)
    requires k < |message|
    ensures Register(0xFFFF, message[..k + 1]) == ByteStep(Register(0xFFFF, message[..k]), message[k])
  {
    hide ByteStep;
    assert message[..k + 1][..k] == message[..k];
  }

  lemma SwapHalves(low: bv8, high: bv8)
    ensures Swap(Join(low, high)) == Join(high, low)
  {
  }

  // ----- the message as bits -----

  /** The k low bits of b, least significant first. */
  function BitsFrom(b: bv8, k: nat): (bits: seq<bool>)
    ensures |bits| == k
    decreases k
  {
    if k == 0 then [] else [Low(b)] + BitsFrom(Half(b), k - 1)
  }

  /** The transmitted bits of a message. */
  function Bits(message: seq<bv8>): (bits: seq<bool>)
    ensures |bits| == 8 * |message|
    decreases |message|
  {
    if message == [] then [] else Bits(message[..|message| - 1]) + BitsFrom(message[|message| - 1], 8)
  }

  function Tail(b: bv8, k: nat): bv8
    decreases k
  {
    if k == 0 then b else Tail(Half(b), k - 1)
  }

  lemma TailGone(b: bv8)
    ensures Tail(b, 8) == 0
  {
  }

  /** Bits taken in up front wait their turn in the lower half. */
  lemma FeedStep(reg: bv16, b: bv8)
    ensures BitStep(Xor16(reg, Wide(b)), false) == Xor16(BitStep(reg, Low(b)), Wide(Half(b)))
  {
    hide Xor16, Wide, Low, Half, Odd, Flip, Shift, Feedback;
    OddXor(reg, Wide(b));
    ShiftXor(reg, Wide(b));
    FlipKeeps(reg);
    WideHalf(b);
    FeedbackXor(Shift(reg), Wide(Half(b)));
  }

  lemma FlipKeeps(x: bv16)
    ensures Shift(Flip(x)) == Shift(x) && Odd(Flip(x)) == !Odd(x) && Flip(Flip(x)) == x
  {
  }

  lemma WideHalf(b: bv8)
    ensures Shift(Wide(b)) == Wide(Half(b)) && Odd(Wide(b)) == Low(b)
  {
  }

  lemma {:induction false} FeedRun(reg: bv16, b: bv8, k: nat)
    ensures Shifts(Xor16(reg, Wide(b)), k) == Xor16(BitRun(reg, BitsFrom(b, k)), Wide(Tail(b, k)))
    decreases k
  {
    hide BitStep, Xor16, Wide, Low, Half;
    if k > 0 {
      FeedStep(reg, b);
      FeedRun(BitStep(reg, Low(b)), Half(b), k - 1);
      assert BitsFrom(b, k)[1..] == BitsFrom(Half(b), k - 1);
    }
  }

  lemma XorNothing(x: bv16)
    ensures Xor16(x, Wide(0)) == Xor16(x, 0) == Xor16(0, x) == x && Xor16(x, x) == 0 && Xor16(0xFFFF, 0xFFFF) == 0
  {
  }

  lemma ByteIsBits(reg: bv16, b: bv8)
    ensures ByteStep(reg, b) == BitRun(reg, BitsFrom(b, 8))
  {
    hide BitStep, BitRun, Octet, Xor16, Wide, Tail, BitsFrom;
    OctetIsShifts(Xor16(reg, Wide(b)));
    FeedRun(reg, b, 8);
    TailGone(b);
    XorNothing(BitRun(reg, BitsFrom(b, 8)));
  }

  lemma {:induction false} RunSplits(reg: bv16, a: seq<bool>, b: seq<bool>)
    ensures BitRun(reg, a + b) == BitRun(BitRun(reg, a), b)
    decreases |a|
  {
    hide BitStep;
    if a == [] {
      assert a + b == b;
    } else {
      RunSplits(BitStep(reg, a[0]), a[1..], b);
      assert (a + b)[1..] == a[1..] + b;
    }
  }

  /** Octet by octet and bit by bit are the same register. */
  lemma {:induction false} RegisterIsBits(reg: bv16, message: seq<bv8>)
    ensures Register(reg, message) == BitRun(reg, Bits(message))
    decreases |message|
  {
    hide ByteStep, BitStep;
    if message != [] {
      var front, b := message[..|message| - 1], message[|message| - 1];
      RegisterIsBits(reg, front);
      ByteIsBits(BitRun(reg, Bits(front)), b);
      RunSplits(reg, Bits(front), BitsFrom(b, 8));
    }
  }

  // ----- affine over exclusive-or -----

  function Xor(m: seq<bv8>, n: seq<bv8>): (x: seq<bv8>)
    requires |m| == |n|
    ensures |x| == |m| && forall i :: 0 <= i < |m| ==> x[i] == Xor8(m[i], n[i])
  {
    seq(|m|, i requires 0 <= i < |m| => Xor8(m[i], n[i]))
  }

  lemma {:induction false} RegisterLinear(r: bv16, s: bv16, m: seq<bv8>, n: seq<bv8>)
    requires |m| == |n|
    ensures Register(Xor16(r, s), Xor(m, n)) == Xor16(Register(r, m), Register(s, n))
    decreases |m|
  {
    hide Octet, Xor16, Xor8, Wide;
    if m != [] {
      var k := |m| - 1;
      RegisterLinear(r, s, m[..k], n[..k]);
      assert Xor(m, n)[..k] == Xor(m[..k], n[..k]);
      var a, b := Register(r, m[..k]), Register(s, n[..k]);
      Regroup(a, b, m[k], n[k]);
      OctetLinear(Xor16(a, Wide(m[k])), Xor16(b, Wide(n[k])));
    }
  }

  lemma Regroup(a: bv16, b: bv16, x: bv8, y: bv8)
    ensures Xor16(Xor16(a, b), Wide(Xor8(x, y))) == Xor16(Xor16(a, Wide(x)), Xor16(b, Wide(y)))
  {
  }

  /** The difference of two checks depends only on the difference of the messages. */
  lemma CrcAffine(m: seq<bv8>, n: seq<bv8>)
    requires |m| == |n|
    ensures Xor16(Crc(m), Crc(n)) == Swap(Register(0, Xor(m, n)))
  {
    hide Register, Swap, Xor16;
    RegisterLinear(0xFFFF, 0xFFFF, m, n);
    XorNothing(0);
    SwapLinear(Register(0xFFFF, m), Register(0xFFFF, n));
  }

  lemma SwapLinear(x: bv16, y: bv16)
    ensures Swap(Xor16(x, y)) == Xor16(Swap(x), Swap(y))
  {
  }

  lemma SwapZero(x: bv16)
    ensures Swap(x) == 0 <==> x == 0
  {
    hide *;
    Nothing();
    SwapTwice(x);
  }

  // ----- what drives the register to zero -----

  function Append(p: bv16, bit: bool): bv16 { if bit then Double(p) | 1 else Double(p) }
  predicate Inside(p: bv16, mask: bv16) { p & !mask == 0 }
  predicate TopClear(p: bv16) { p & 0x8000 == 0 }

  /** Up to sixteen bits as the register that they cancel. */
  function Pack(bits: seq<bool>): bv16
    decreases |bits|
  {
    if bits == [] then 0 else Append(Pack(bits[1..]), bits[0])
  }

  function Mask(n: nat): bv16 { if n == 0 then 0 else Append(Mask(n - 1), true) }

  lemma MaskStep(p: bv16, m: bv16, bit: bool)
    requires Inside(p, m)
    ensures Inside(Append(p, bit), Append(m, true))
  {
    hide Inside, Append;
    if bit { MaskOne(p, m); } else { MaskZero(p, m); }
  }

  lemma MaskOne(p: bv16, m: bv16)
    requires Inside(p, m)
    ensures Inside(Append(p, true), Append(m, true))
  {
  }

  lemma MaskZero(p: bv16, m: bv16)
    requires Inside(p, m)
    ensures Inside(Append(p, false), Append(m, true))
  {
  }

  lemma NothingInside(m: bv16)
    ensures Inside(0, m)
  {
  }

  lemma {:induction false} PackMasked(bits: seq<bool>)
    ensures Inside(Pack(bits), Mask(|bits|))
    decreases |bits|
  {
    hide Inside, Append;
    if bits == [] {
      NothingInside(0);
    } else {
      PackMasked(bits[1..]);
      MaskStep(Pack(bits[1..]), Mask(|bits| - 1), bits[0]);
    }
  }

  lemma {:induction false} MaskMonotone(n: nat, m: nat)
    requires n <= m
    ensures Inside(Mask(n), Mask(m))
  {
    hide Inside, Append;
    if n == 0 {
      NothingInside(Mask(m));
    } else {
      MaskMonotone(n - 1, m - 1);
      MaskStep(Mask(n - 1), Mask(m - 1), true);
    }
  }

  /** Fifteen bits or fewer leave the top of the register clear. */
  lemma PackTop(bits: seq<bool>)
    requires |bits| <= 15
    ensures TopClear(Pack(bits))
  {
    hide Inside, Pack, TopClear;
    PackMasked(bits);
    MaskMonotone(|bits|, 15);
    Mask15(15);
    Within(Pack(bits), Mask(|bits|));
  }

  lemma Mask15(n: nat)
    requires n == 15
    ensures Mask(n) == 0x7FFF
  {
    assert Mask(n - 15) == 0;
    assert Mask(n - 14) == 0x1;
    assert Mask(n - 13) == 0x3;
    assert Mask(n - 12) == 0x7;
    assert Mask(n - 11) == 0xF;
    assert Mask(n - 10) == 0x1F;
    assert Mask(n - 9) == 0x3F;
    assert Mask(n - 8) == 0x7F;
    assert Mask(n - 7) == 0xFF;
    assert Mask(n - 6) == 0x1FF;
    assert Mask(n - 5) == 0x3FF;
    assert Mask(n - 4) == 0x7FF;
    assert Mask(n - 3) == 0xFFF;
    assert Mask(n - 2) == 0x1FFF;
    assert Mask(n - 1) == 0x3FFF;
  }

  lemma Within(p: bv16, m: bv16)
    requires Inside(p, m) && Inside(m, 0x7FFF)
    ensures TopClear(p)
  {
  }

  /** One bit leaves a register with a clear top only without feedback. */
  lemma CancelStep(reg: bv16, bit: bool, p: bv16)
    requires TopClear(p)
    ensures BitStep(reg, bit) == p <==> reg == Append(p, bit)
  {
    hide Odd, Flip, Shift, Feedback, Double, Append, TopClear;
    var x := if bit then Flip(reg) else reg;
    FeedbackShows(x);
    Appended(p);
    DoubleKeeps(p);
    FlipKeeps(reg);
    FlipKeeps(Double(p));
    if !Odd(x) { ShiftsBack(x); }
  }

  lemma FeedbackShows(x: bv16)
    ensures !TopClear(Feedback(Shift(x)))
  {
  }

  lemma Appended(p: bv16)
    ensures Append(p, false) == Double(p) && Append(p, true) == Flip(Double(p))
  {
  }

  lemma DoubleKeeps(p: bv16)
    requires TopClear(p)
    ensures Shift(Double(p)) == p && !Odd(Double(p))
  {
  }

  lemma ShiftsBack(x: bv16)
    requires !Odd(x)
    ensures Double(Shift(x)) == x
  {
  }

  /** At most sixteen bits clear the register exactly when they are its contents. */
  lemma {:induction false} ClearsExactly(reg: bv16, bits: seq<bool>)
    requires |bits| <= 16
    ensures BitRun(reg, bits) == 0 <==> reg == Pack(bits)
    decreases |bits|
  {
    hide BitStep, Append, TopClear;
    if bits != [] {
      ClearsExactly(BitStep(reg, bits[0]), bits[1..]);
      PackTop(bits[1..]);
      CancelStep(reg, bits[0], Pack(bits[1..]));
    }
  }

  lemma {:induction false} PackNonzero(bits: seq<bool>, k: nat)
    requires k < |bits| <= 16 && bits[k]
    ensures Pack(bits) != 0
    decreases |bits|
  {
    hide Append, TopClear;
    if k > 0 {
      PackNonzero(bits[1..], k - 1);
    }
    PackTop(bits[1..]);
    AppendNonzero(Pack(bits[1..]), bits[0]);
  }

  lemma AppendNonzero(p: bv16, bit: bool)
    requires TopClear(p)
    ensures Append(p, bit) != 0 <==> p != 0 || bit
  {
    hide Append, Double, Shift, Odd, Flip, TopClear;
    Appended(p);
    DoubleKeeps(p);
    FlipKeeps(Double(p));
    Nothing();
  }

  lemma Nothing()
    ensures Shift(0) == 0 && Double(0) == 0 && !Odd(0) && TopClear(0) && Swap(0) == 0
  {
  }

  lemma {:induction false} QuietRun(reg: bv16, bits: seq<bool>)
    requires forall i :: 0 <= i < |bits| ==> !bits[i]
    ensures BitRun(reg, bits) == 0 <==> reg == 0
    decreases |bits|
  {
    hide BitStep;
    if bits != [] {
      QuietStep(reg);
      QuietRun(BitStep(reg, false), bits[1..]);
    }
  }

  lemma QuietStep(reg: bv16)
    ensures BitStep(reg, false) == 0 <==> reg == 0
  {
    hide *;
    Nothing();
    CancelStep(reg, false, 0);
    Appended(0);
  }

  /** A disturbance inside sixteen consecutive bits never leaves a zero register clear. */
  lemma BurstShows(bits: seq<bool>, from: nat, k: nat)
    requires from <= k < from + 16 && k < |bits| && bits[k]
    requires forall i :: 0 <= i < |bits| && bits[i] ==> from <= i < from + 16
    ensures BitRun(0, bits) != 0
  {
    hide BitRun, Pack;
    var to := if from + 16 <= |bits| then from + 16 else |bits|;
    var before, burst, after := bits[..from], bits[from..to], bits[to..];
    assert bits == before + (burst + after);
    RunSplits(0, before, burst + after);
    QuietRun(0, before);
    RunSplits(0, burst, after);
    ClearsExactly(0, burst);
    PackNonzero(burst, k - from);
    QuietRun(BitRun(0, burst), after);
  }

  // ----- what the check detects -----

  lemma {:induction false} BitsAt(message: seq<bv8>, i: nat)
    requires i < 8 * |message|
    ensures Bits(message)[i] == BitsFrom(message[i / 8], 8)[i % 8]
    decreases |message|
  {
    hide BitsFrom;
    var k := |message| - 1;
    if i < 8 * k { BitsAt(message[..k], i); }
  }

  lemma {:induction false} BitsFromXor(x: bv8, y: bv8, k: nat, i: nat)
    requires i < k
    ensures BitsFrom(Xor8(x, y), k)[i] == (BitsFrom(x, k)[i] != BitsFrom(y, k)[i])
    decreases k
  {
    hide Xor8, Low, Half;
    HalfXor(x, y);
    if i > 0 { BitsFromXor(Half(x), Half(y), k - 1, i - 1); }
  }

  lemma HalfXor(x: bv8, y: bv8)
    ensures Half(Xor8(x, y)) == Xor8(Half(x), Half(y))
    ensures Low(Xor8(x, y)) == (Low(x) != Low(y))
  {
  }

  /** Two messages of the same length that differ somewhere, but only within sixteen consecutive
      transmitted bits, never have the same check. */
  lemma BurstDetected(m: seq<bv8>, n: seq<bv8>, from: nat, k: nat)
    requires |m| == |n|
    requires from <= k < from + 16 && k < 8 * |m| && Bits(m)[k] != Bits(n)[k]
    requires forall i :: 0 <= i < 8 * |m| && Bits(m)[i] != Bits(n)[i] ==> from <= i < from + 16
    ensures Crc(m) != Crc(n)
  {
    hide Bits, Register, BitRun, Swap, Xor16, Xor8, BitsFrom;
    var x := Xor(m, n);
    forall i | 0 <= i < 8 * |m| ensures Bits(x)[i] == (Bits(m)[i] != Bits(n)[i]) {
      BitsAt(m, i);
      BitsAt(n, i);
      BitsAt(x, i);
      BitsFromXor(m[i / 8], n[i / 8], 8, i % 8);
    }
    BurstShows(Bits(x), from, k);
    RegisterIsBits(0, x);
    CrcAffine(m, n);
    SwapZero(Register(0, x));
    XorNothing(Crc(m));
  }

  lemma XorAssociates(a: bv16, b: bv16, c: bv16)
    ensures Xor16(Xor16(a, b), c) == Xor16(a, Xor16(b, c))
  {
  }

  lemma XorCancels(a: bv16, b: bv16)
    ensures Xor16(a, b) == 0 <==> a == b
  {
    hide *;
    XorNothing(b);
    XorAssociates(a, b, b);
    XorNothing(a);
  }

  lemma XorJoins(x: bv8, y: bv8)
    ensures Xor16(Wide(x), Join(y, 0)) == Join(y, x)
  {
  }

  lemma SwapTwice(reg: bv16)
    ensures Swap(Swap(reg)) == reg
  {
  }

  lemma SwapJoined(reg: bv16, x: bv8, y: bv8)
    ensures Xor16(Xor16(reg, Wide(x)), Join(y, 0)) == 0 <==> Swap(reg) == Join(x, y)
  {
    hide *;
    XorAssociates(reg, Wide(x), Join(y, 0));
    XorCancels(reg, Join(y, x));
    XorJoins(x, y);
    SwapTwice(reg);
    SwapHalves(x, y);
    SwapHalves(y, x);
  }

  /** Two octets clear the register exactly when they are its lower and its upper half. */
  lemma TwoOctetsClear(reg: bv16, x: bv8, y: bv8)
    ensures ByteStep(ByteStep(reg, x), y) == 0 <==> Swap(reg) == Join(x, y)
  {
    hide Octet, Swap, Join, Wide, Xor16;
    OctetZero(Xor16(ByteStep(reg, x), Wide(y)));
    OctetOfUpper(y);
    OctetLinear(Xor16(reg, Wide(x)), Join(y, 0));
    OctetZero(Xor16(Xor16(reg, Wide(x)), Join(y, 0)));
    SwapJoined(reg, x, y);
  }

  lemma OctetZero(reg: bv16)
    ensures Octet(reg) == 0 <==> reg == 0
  {
    hide BitStep;
    OctetIsShifts(reg);
    ShiftsZero(reg, 8);
  }

  lemma {:induction false} ShiftsZero(reg: bv16, k: nat)
    ensures Shifts(reg, k) == 0 <==> reg == 0
    decreases k
  {
    hide BitStep;
    if k > 0 {
      QuietStep(reg);
      ShiftsZero(BitStep(reg, false), k - 1);
    }
  }

  /** A message followed by two octets checks to zero exactly when they are the high and the low octet
      of the check of the message. */
  lemma ResidueExactly(m: seq<bv8>, x: bv8, y: bv8)
    ensures Crc(m + [x, y]) == 0 <==> Crc(m) == Join(x, y)
  {
    hide ByteStep, Swap, Join;
    var n := m + [x, y];
    assert n[..|n| - 1] == m + [x] && (m + [x])[..|m|] == m;
    assert Register(0xFFFF, n) == ByteStep(Register(0xFFFF, m + [x]), y);
    assert Register(0xFFFF, m + [x]) == ByteStep(Register(0xFFFF, m), x);
    TwoOctetsClear(Register(0xFFFF, m), x, y);
    SwapZero(Register(0xFFFF, n));
  }

  // ----- what pins the start and the polynomial -----

  /** Two octets of ones bring the register from its start to zero, and from no other start. */
  lemma StartCleared(reg: bv16)
    ensures ByteStep(ByteStep(reg, 0xFF), 0xFF) == 0 <==> reg == 0xFFFF
  {
    hide ByteStep, Swap, Join;
    TwoOctetsClear(reg, 0xFF, 0xFF);
    OnesSwapped(reg);
  }

  lemma OnesSwapped(reg: bv16)
    ensures Swap(reg) == Join(0xFF, 0xFF) <==> reg == 0xFFFF
  {
  }

  lemma {:induction false} RegisterAfter(reg: bv16, a: seq<bv8>, b: seq<bv8>)
    ensures Register(reg, a + b) == Register(Register(reg, a), b)
    decreases |b|
  {
    hide ByteStep;
    if b == [] {
      assert a + b == a;
    } else {
      var k := |b| - 1;
      assert (a + b)[..|a + b| - 1] == a + b[..k];
      RegisterAfter(reg, a, b[..k]);
    }
  }

  lemma RegisterOfTwo(reg: bv16, x: bv8, y: bv8)
    ensures Register(reg, [x, y]) == ByteStep(ByteStep(reg, x), y)
  {
    hide ByteStep;
    assert [x, y][..1] == [x] && [x][..0] == [];
    assert Register(reg, [x]) == ByteStep(Register(reg, []), x);
  }

  /** After two octets of ones a message is checked from zero. */
  lemma StartIsOnes(m: seq<bv8>)
    ensures Crc([0xFF, 0xFF] + m) == Swap(Register(0, m))
  {
    hide Swap, ByteStep, Register;
    RegisterAfter(0xFFFF, [0xFF, 0xFF], m);
    RegisterOfTwo(0xFFFF, 0xFF, 0xFF);
    StartCleared(0xFFFF);
  }

  lemma RegisterNext(reg: bv16, m: seq<bv8>, b: bv8)
    ensures Register(reg, m + [b]) == ByteStep(Register(reg, m), b)
  {
    hide ByteStep;
    assert (m + [b])[..|m|] == m;
  }

  lemma NothingChecked()
    ensures Register(0xFFFF, []) == 0xFFFF && Crc([]) == 0xFFFF
  {
  }

  lemma CheckFirst()
    ensures ByteStep(0xFFFF, 0x31) == 0x947E
    ensures ByteStep(0x947E, 0x32) == 0xF595
    ensures ByteStep(0xF595, 0x33) == 0x7A75
  {
  }

  lemma CheckMiddle()
    ensures ByteStep(0x7A75, 0x34) == 0x30BA
    ensures ByteStep(0x30BA, 0x35) == 0xA471
    ensures ByteStep(0xA471, 0x36) == 0x32E4
  {
  }

  lemma CheckLast()
    ensures ByteStep(0x32E4, 0x37) == 0x9D73
    ensures ByteStep(0x9D73, 0x38) == 0x37DD
    ensures ByteStep(0x37DD, 0x39) == 0x4B37
  {
  }

  lemma RegisterOfThree(reg: bv16, x: bv8, y: bv8, z: bv8)
    ensures Register(reg, [x, y, z]) == ByteStep(ByteStep(ByteStep(reg, x), y), z)
  {
    hide ByteStep, Register;
    RegisterOfTwo(reg, x, y);
    RegisterNext(reg, [x, y], z);
    assert [x, y] + [z] == [x, y, z];
  }

  const DIGITS: seq<bv8> := [0x31, 0x32, 0x33, 0x34, 0x35, 0x36, 0x37, 0x38, 0x39]

  lemma CheckDigits()
    ensures Register(0xFFFF, DIGITS) == 0x4B37
  {
    hide ByteStep, Register;
    CheckFirst();
    CheckMiddle();
    CheckLast();
    RegisterOfThree(0xFFFF, 0x31, 0x32, 0x33);
    RegisterOfThree(0x7A75, 0x34, 0x35, 0x36);
    RegisterOfThree(0x32E4, 0x37, 0x38, 0x39);
    RegisterAfter(0xFFFF, [0x31, 0x32, 0x33], [0x34, 0x35, 0x36]);
    RegisterAfter(0xFFFF, [0x31, 0x32, 0x33] + [0x34, 0x35, 0x36], [0x37, 0x38, 0x39]);
    assert [0x31, 0x32, 0x33] + [0x34, 0x35, 0x36] + [0x37, 0x38, 0x39] == DIGITS;
  }

  /** The check of the text "123456789", of two octets, and of nothing. */
  lemma CheckValues()
    ensures Crc([0x31, 0x32, 0x33, 0x34, 0x35, 0x36, 0x37, 0x38, 0x39]) == 0x374B
    ensures Crc([0x02, 0x07]) == 0x4112 && Crc([]) == 0xFFFF
  {
    hide ByteStep, Register;
    CheckDigits();
    SwapDigits();
    NothingChecked();
    CheckTwo();
    RegisterOfTwo(0xFFFF, 0x02, 0x07);
  }

  lemma SwapDigits()
    ensures Swap(0x4B37) == 0x374B
  {
  }

  lemma CheckTwo()
    ensures Swap(ByteStep(ByteStep(0xFFFF, 0x02), 0x07)) == 0x4112
  {
  }
}
