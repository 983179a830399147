/** The bytes of cppext/utf8.cpp against the tables of section 3 of RFC 3629 and section 2 of RFC 2279, which are
    written out here. */
module Utf8Table {
  import opened Utf8

  /** A byte that is not the first. */
  predicate Later(b: int) { 0x80 <= b <= 0xBF }

  /** A byte without its marker. */
  function Past(b: int, marker: int): int { b - marker }

  /** A single byte, the value that the bits not used for marking make. */
  predicate IsOne(b: seq<Octet>, u: int) {
    && |b| == 1 && b[0] <= 0x7F
    && u == b[0]
  }

  /** A form of two bytes, the value that the bits not used for marking make. */
  predicate IsTwo(b: seq<Octet>, u: int) {
    && |b| == 2 && 0xC0 <= b[0] <= 0xDF && Later(b[1])
    && u == Past(b[0], 0xC0) * 0x40 + Past(b[1], 0x80)
  }

  /** A form of three bytes, the value that the bits not used for marking make. */
  predicate IsThree(b: seq<Octet>, u: int) {
    && |b| == 3 && 0xE0 <= b[0] <= 0xEF && Later(b[1]) && Later(b[2])
    && u == Past(b[0], 0xE0) * 0x1000 + Past(b[1], 0x80) * 0x40 + Past(b[2], 0x80)
  }

  /** A form of four bytes, the value that the bits not used for marking make. */
  predicate IsFour(b: seq<Octet>, u: int) {
    && |b| == 4 && 0xF0 <= b[0] <= 0xF7 && Later(b[1]) && Later(b[2]) && Later(b[3])
    && u == Past(b[0], 0xF0) * 0x4_0000 + Past(b[1], 0x80) * 0x1000 + Past(b[2], 0x80) * 0x40
        + Past(b[3], 0x80)
  }

  /** A form of five bytes, the value that the bits not used for marking make. */
  predicate IsFive(b: seq<Octet>, u: int) {
    && |b| == 5 && 0xF8 <= b[0] <= 0xFB && Later(b[1]) && Later(b[2]) && Later(b[3]) && Later(b[4])
    && u == Past(b[0], 0xF8) * 0x100_0000 + Past(b[1], 0x80) * 0x4_0000 + Past(b[2], 0x80) * 0x1000
        + Past(b[3], 0x80) * 0x40 + Past(b[4], 0x80)
  }

  /** A form of six bytes, the value that the bits not used for marking make. */
  predicate IsSix(b: seq<Octet>, u: int) {
    && |b| == 6 && 0xFC <= b[0] <= 0xFF && Later(b[1]) && Later(b[2]) && Later(b[3]) && Later(b[4]) && Later(b[5])
    && u == Past(b[0], 0xFC) * 0x4000_0000 + Past(b[1], 0x80) * 0x100_0000 + Past(b[2], 0x80) * 0x4_0000
        + Past(b[3], 0x80) * 0x1000 + Past(b[4], 0x80) * 0x40 + Past(b[5], 0x80)
  }

  /** The groups of six bits of a code point. */
  lemma Groups(u: Unichar, k: nat)
    requires k <= 4
    ensures Upper(u, k) == Upper(u, k + 1) * 0x40 + Past(NextByte(u, k), 0x80) && Later(NextByte(u, k))
  {
  }

  lemma TailNext(u: Unichar, k: nat)
    requires 0 < k <= 5
    ensures Tail(u, k) == [NextByte(u, k - 1)] + Tail(u, k - 1)
  {
  }

  lemma Ends(u: Unichar, k: nat)
    requires k == 0
    ensures Upper(u, k) == u && Tail(u, k) == []
  {
  }

  lemma TwoBytes(u: Unichar)
    requires 0x80 <= u < 0x800
    ensures IsTwo(Encoded(u), u)
  {
    hide NextByte, Upper, Tail;
    var z := 0;
    TailNext(u, z + 1);
    Ends(u, z);
    Groups(u, z);
    FirstTwo(u);
  }

  lemma FirstTwo(u: Unichar)
    requires 0x80 <= u < 0x800
    ensures FirstByte(u, 1) == 0xC0 + Upper(u, 1) && 0 <= Upper(u, 1) <= 0x1F
  {
  }

  lemma ThreeBytes(u: Unichar)
    requires 0x800 <= u < 0x1_0000
    ensures IsThree(Encoded(u), u)
  {
    hide NextByte, Upper, Tail;
    var z := 0;
    TailNext(u, z + 2);
    TailNext(u, z + 1);
    Ends(u, z);
    Groups(u, z);
    Groups(u, z + 1);
    FirstThree(u);
  }

  lemma FirstThree(u: Unichar)
    requires 0x800 <= u < 0x1_0000
    ensures FirstByte(u, 2) == 0xE0 + Upper(u, 2) && 0 <= Upper(u, 2) <= 0xF
  {
  }

  lemma FourBytes(u: Unichar)
    requires 0x1_0000 <= u < 0x20_0000
    ensures IsFour(Encoded(u), u)
  {
    hide NextByte, Upper, Tail;
    var z := 0;
    TailNext(u, z + 3);
    TailNext(u, z + 2);
    TailNext(u, z + 1);
    Ends(u, z);
    Groups(u, z);
    Groups(u, z + 1);
    Groups(u, z + 2);
    FirstFour(u);
  }

  lemma FirstFour(u: Unichar)
    requires 0x1_0000 <= u < 0x20_0000
    ensures FirstByte(u, 3) == 0xF0 + Upper(u, 3) && 0 <= Upper(u, 3) <= 0x7
  {
  }

  lemma FiveBytes(u: Unichar)
    requires 0x20_0000 <= u < 0x400_0000
    ensures IsFive(Encoded(u), u)
  {
    hide NextByte, Upper, Tail;
    var z := 0;
    TailNext(u, z + 4);
    TailNext(u, z + 3);
    TailNext(u, z + 2);
    TailNext(u, z + 1);
    Ends(u, z);
    Groups(u, z);
    Groups(u, z + 1);
    Groups(u, z + 2);
    Groups(u, z + 3);
    FirstFive(u);
  }

  lemma FirstFive(u: Unichar)
    requires 0x20_0000 <= u < 0x400_0000
    ensures FirstByte(u, 4) == 0xF8 + Upper(u, 4) && 0 <= Upper(u, 4) <= 0x3
  {
  }

  lemma SixBytes(u: Unichar)
    requires 0x400_0000 <= u
    ensures IsSix(Encoded(u), u)
  {
    hide NextByte, Upper, Tail;
    var z := 0;
    TailNext(u, z + 5);
    TailNext(u, z + 4);
    TailNext(u, z + 3);
    TailNext(u, z + 2);
    TailNext(u, z + 1);
    Ends(u, z);
    Groups(u, z);
    Groups(u, z + 1);
    Groups(u, z + 2);
    Groups(u, z + 3);
    Groups(u, z + 4);
    FirstSix(u);
  }

  lemma FirstSix(u: Unichar)
    requires 0x400_0000 <= u
    ensures FirstByte(u, 5) == 0xFC + Upper(u, 5) && 0 <= Upper(u, 5) <= 0x3
  {
  }

  /** The bytes of every code point, in the shortest form that holds it. */
  lemma EncodedByTable(u: Unichar)
    ensures var b := Encoded(u);
      if u < 0x80 then IsOne(b, u)
      else if u < 0x800 then IsTwo(b, u)
      else if u < 0x1_0000 then IsThree(b, u)
      else if u < 0x20_0000 then IsFour(b, u)
      else if u < 0x400_0000 then IsFive(b, u)
      else IsSix(b, u)
  {
    hide IsTwo, IsThree, IsFour, IsFive, IsSix, Encoded;
    if u < 0x80 {
      OneByte(u);
    } else if u < 0x800 {
      TwoBytes(u);
    } else if u < 0x1_0000 {
      ThreeBytes(u);
    } else if u < 0x20_0000 {
      FourBytes(u);
    } else if u < 0x400_0000 {
      FiveBytes(u);
    } else {
      SixBytes(u);
    }
  }

  lemma OneByte(u: Unichar)
    requires u < 0x80
    ensures IsOne(Encoded(u), u)
  {
    Ends(u, 0);
  }

  // ----- the other way -----

  /** Six more bits from every byte. */
  ghost function Weigh(u: int, tail: seq<Octet>): int
    decreases |tail|
  {
    if tail == [] then u else Weigh(u * 0x40 + Past(tail[0], 0x80), tail[1..])
  }

  lemma WeighNext(u: int, tail: seq<Octet>)
    requires tail != []
    ensures Weigh(u, tail) == Weigh(u * 0x40 + Past(tail[0], 0x80), tail[1..])
    ensures |tail| == 1 ==> Weigh(u, tail) == u * 0x40 + Past(tail[0], 0x80)
  {
  }

  lemma {:induction false} WeighGrows(u: int, tail: seq<Octet>)
    requires u >= 0 && forall i :: 0 <= i < |tail| ==> Later(tail[i])
    ensures Weigh(u, tail) >= u
    decreases |tail|
  {
    if tail != [] { WeighGrows(u * 0x40 + Past(tail[0], 0x80), tail[1..]); }
  }

  lemma {:induction false} GathersAll(u: Unichar, tail: seq<Octet>, rest: seq<Octet>)
    requires Weigh(u, tail) < LIMIT && forall i :: 0 <= i < |tail| ==> Later(tail[i])
    ensures 0 <= Weigh(u, tail) && Gathered(u, tail + rest, |tail|) == Some((Weigh(u, tail), rest))
    decreases |tail|
  {
    hide MoreBits;
    if tail == [] {
      assert tail + rest == rest;
    } else {
      var v := u * 0x40 + Past(tail[0], 0x80);
      WeighGrows(v, tail[1..]);
      SixBits(u, tail[0]);
      GathersAll(v, tail[1..], rest);
      assert (tail + rest)[0] == tail[0] && (tail + rest)[1..] == tail[1..] + rest;
    }
  }

  lemma SixBits(u: Unichar, b: Octet)
    requires u < 0x400_0000 && Later(b)
    ensures MoreBits(u, b) == u * 0x40 + Past(b, 0x80)
  {
  }

  lemma FirstOf(b: Octet)
    ensures 0xC0 <= b <= 0xDF ==> NumFollowersOf(b) == 1 && FirstBits(b, 1) == Past(b, 0xC0)
    ensures 0xE0 <= b <= 0xEF ==> NumFollowersOf(b) == 2 && FirstBits(b, 2) == Past(b, 0xE0)
    ensures 0xF0 <= b <= 0xF7 ==> NumFollowersOf(b) == 3 && FirstBits(b, 3) == Past(b, 0xF0)
    ensures 0xF8 <= b <= 0xFB ==> NumFollowersOf(b) == 4 && FirstBits(b, 4) == Past(b, 0xF8)
    ensures 0xFC <= b <= 0xFD ==> NumFollowersOf(b) == 5 && FirstBits(b, 5) == Past(b, 0xFC)
  {
  }

  lemma DecodesMarked(b: seq<Octet>, u: Unichar, rest: seq<Octet>)
    requires |b| > 1 && NumFollowersOf(b[0]) == |b| - 1 && Weigh(FirstBits(b[0], |b| - 1), b[1..]) == u < LIMIT
    requires forall i :: 1 <= i < |b| ==> Later(b[i])
    ensures Decoded(b + rest) == Some((u, rest))
  {
    hide NumFollowersOf, FirstBits, Gathered, Weigh;
    GathersAll(FirstBits(b[0], |b| - 1), b[1..], rest);
    assert (b + rest)[0] == b[0] && (b + rest)[1..] == b[1..] + rest;
  }

  lemma DecodesTwo(b: seq<Octet>, u: int, rest: seq<Octet>)
    requires IsTwo(b, u) && u < LIMIT
    ensures Decoded(b + rest) == Some((u, rest))
  {
    hide NumFollowersOf, FirstBits, Decoded, Weigh;
    FirstOf(b[0]);
    var u0 := Past(b[0], 0xC0);
    WeighNext(u0, b[1..]);
    DecodesMarked(b, u, rest);
  }

  lemma DecodesThree(b: seq<Octet>, u: int, rest: seq<Octet>)
    requires IsThree(b, u) && u < LIMIT
    ensures Decoded(b + rest) == Some((u, rest))
  {
    hide NumFollowersOf, FirstBits, Decoded, Weigh;
    FirstOf(b[0]);
    var u0 := Past(b[0], 0xE0);
    WeighNext(u0, b[1..]);
    var u1 := u0 * 0x40 + Past(b[1], 0x80);
    WeighNext(u1, b[2..]);
    DecodesMarked(b, u, rest);
  }

  lemma DecodesFour(b: seq<Octet>, u: int, rest: seq<Octet>)
    requires IsFour(b, u) && u < LIMIT
    ensures Decoded(b + rest) == Some((u, rest))
  {
    hide NumFollowersOf, FirstBits, Decoded, Weigh;
    FirstOf(b[0]);
    var u0 := Past(b[0], 0xF0);
    WeighNext(u0, b[1..]);
    var u1 := u0 * 0x40 + Past(b[1], 0x80);
    WeighNext(u1, b[2..]);
    var u2 := u1 * 0x40 + Past(b[2], 0x80);
    WeighNext(u2, b[3..]);
    DecodesMarked(b, u, rest);
  }

  lemma DecodesFive(b: seq<Octet>, u: int, rest: seq<Octet>)
    requires IsFive(b, u) && u < LIMIT
    ensures Decoded(b + rest) == Some((u, rest))
  {
    hide NumFollowersOf, FirstBits, Decoded, Weigh;
    FirstOf(b[0]);
    var u0 := Past(b[0], 0xF8);
    WeighNext(u0, b[1..]);
    var u1 := u0 * 0x40 + Past(b[1], 0x80);
    WeighNext(u1, b[2..]);
    var u2 := u1 * 0x40 + Past(b[2], 0x80);
    WeighNext(u2, b[3..]);
    var u3 := u2 * 0x40 + Past(b[3], 0x80);
    WeighNext(u3, b[4..]);
    DecodesMarked(b, u, rest);
  }

  lemma DecodesSix(b: seq<Octet>, u: int, rest: seq<Octet>)
    requires IsSix(b, u) && u < LIMIT
    ensures Decoded(b + rest) == Some((u, rest))
  {
    hide NumFollowersOf, FirstBits, Decoded, Weigh;
    FirstOf(b[0]);
    var u0 := Past(b[0], 0xFC);
    WeighNext(u0, b[1..]);
    var u1 := u0 * 0x40 + Past(b[1], 0x80);
    WeighNext(u1, b[2..]);
    var u2 := u1 * 0x40 + Past(b[2], 0x80);
    WeighNext(u2, b[3..]);
    var u3 := u2 * 0x40 + Past(b[3], 0x80);
    WeighNext(u3, b[4..]);
    var u4 := u3 * 0x40 + Past(b[4], 0x80);
    WeighNext(u4, b[5..]);
    DecodesMarked(b, u, rest);
  }

  /** Every well marked form is decoded to its value, the ones that are longer than need be too; a form of six bytes
      only below 31 bits. A byte that follows no first byte stands for itself. */
  lemma DecodedByTable(b: seq<Octet>, u: int, rest: seq<Octet>)
    requires u < LIMIT
    requires IsTwo(b, u) || IsThree(b, u) || IsFour(b, u) || IsFive(b, u) || IsSix(b, u)
      || (IsOne(b, u) || (|b| == 1 && Later(b[0]) && u == b[0]))
    ensures Decoded(b + rest) == Some((u, rest))
  {
    hide IsTwo, IsThree, IsFour, IsFive, IsSix, Decoded;
    if IsTwo(b, u) {
      DecodesTwo(b, u, rest);
    } else if IsThree(b, u) {
      DecodesThree(b, u, rest);
    } else if IsFour(b, u) {
      DecodesFour(b, u, rest);
    } else if IsFive(b, u) {
      DecodesFive(b, u, rest);
    } else if IsSix(b, u) {
      DecodesSix(b, u, rest);
    } else {
      DecodesAlone(b, rest);
    }
  }

  lemma DecodesAlone(b: seq<Octet>, rest: seq<Octet>)
    requires |b| == 1 && b[0] < 0xC0
    ensures Decoded(b + rest) == Some((b[0], rest))
  {
    assert (b + rest)[0] == b[0] && (b + rest)[1..] == rest;
  }
}
