/** The primitives of cppext/utf8.cpp: taking a code point apart into bytes and putting it together again
    (section 3 of RFC 3629; the forms of five and six bytes are those of section 2 of RFC 2279). Shifts are written
    as multiplication and division, masks as remainders, and the joining of bits that do not overlap as addition. */
module Utf8 {

  type Unichar = x: int | 0 <= x < 0x1_0000_0000

  type Octet = x: int | 0 <= x <= 0xFF

  datatype Option<T> = None | Some(value: T)

  /** What fits 31 bits can be encoded. */
  const LIMIT := 0x8000_0000

  // ----- encoding -----

  /** How many bytes follow the first one. */
  function NumFollowers(u: Unichar): (nf: nat)
    ensures nf <= 5
  {
    if u < 0x80 then 0
    else if u < 0x800 then 1
    else if u < 0x1_0000 then 2
    else if u < 0x20_0000 then 3
    else if u < 0x400_0000 then 4
    else 5
  }

  /** Two to the power of 6k. */
  function Unit(k: nat): (p: nat)
    requires k <= 5
    ensures p > 0
  {
    if k == 0 then 1 else if k == 1 then 0x40 else if k == 2 then 0x1000
    else if k == 3 then 0x4_0000 else if k == 4 then 0x100_0000 else 0x4000_0000
  }

  /** The code point without its last k groups of six bits. */
  function Upper(u: Unichar, k: nat): Unichar
    requires k <= 5
  {
    u / Unit(k)
  }

  function Prefix(nf: nat): nat
    requires nf <= 5
  {
    if nf == 0 then 0 else if nf == 1 then 0xC0 else if nf == 2 then 0xE0
    else if nf == 3 then 0xF0 else if nf == 4 then 0xF8 else 0xFC
  }

  function FirstByte(u: Unichar, nf: nat): Octet
    requires nf <= 5
  {
    (Prefix(nf) + Upper(u, nf)) % 0x100
  }

  function NextByte(u: Unichar, k: nat): Octet
    requires k <= 5
  {
    0x80 + Upper(u, k) % 0x40
  }

  ghost function Tail(u: Unichar, k: nat): seq<Octet>
    requires k <= 5
  {
    if k == 0 then [] else [NextByte(u, k - 1)] + Tail(u, k - 1)
  }

  ghost function Encoded(u: Unichar): seq<Octet> { [FirstByte(u, NumFollowers(u))] + Tail(u, NumFollowers(u)) }

  /** All the bytes of a code point, if there is room for them. */
  method Encode(u: Unichar, room: nat) returns (bytes: seq<Octet>)
    ensures bytes == if room > NumFollowers(u) then Encoded(u) else []
  {
    var nf := NumFollowers(u);
    bytes := [];
    if room >= nf + 1 {
      bytes := [FirstByte(u, nf)];
      while nf > 0
        invariant 0 <= nf <= NumFollowers(u) && bytes + Tail(u, nf) == Encoded(u)
      {
        nf := nf - 1;
        bytes := bytes + [NextByte(u, nf)];
      }
    }
  }

  // ----- decoding -----

  function NumFollowersOf(raw: Octet): (nf: nat)
    ensures nf <= 5
  {
    if raw < 0xC0 then 0
    else if raw < 0xE0 then 1
    else if raw < 0xF0 then 2
    else if raw < 0xF8 then 3
    else if raw < 0xFC then 4
    else 5
  }

  /** Keeps the last 6 - nf bits of a first byte. */
  function FirstBits(raw: Octet, nf: nat): Unichar
    requires nf <= 5
  {
    raw % (if nf == 0 then 0x40 else if nf == 1 then 0x20 else if nf == 2 then 0x10
           else if nf == 3 then 0x8 else if nf == 4 then 0x4 else 0x2)
  }

  function MoreBits(u: Unichar, raw: Octet): Unichar { (u * 0x40) % 0x1_0000_0000 + raw % 0x40 }

  /** Merges k more bytes into what has been read of a code point. */
  function Gathered(u: Unichar, bytes: seq<Octet>, k: nat): Option<(Unichar, seq<Octet>)>
    decreases k
  {
    if k == 0 then Some((u, bytes))
    else if bytes == [] then None
    else Gathered(MoreBits(u, bytes[0]), bytes[1..], k - 1)
  }

  /** The first code point and the bytes after it; a byte with no followers is its own code point. */
  function Decoded(bytes: seq<Octet>): Option<(Unichar, seq<Octet>)> {
    if bytes == [] then None
    else
      var nf := NumFollowersOf(bytes[0]);
      if nf == 0 then Some((bytes[0], bytes[1..])) else Gathered(FirstBits(bytes[0], nf), bytes[1..], nf)
  }

  // ----- round trips -----

  /** A first byte that does not hold all of the code point loses its top bit. */
  function Kept(u: Unichar): Unichar { u % LIMIT }

  lemma KeptIs(u: Unichar)
    ensures u == Kept(u) || u == Kept(u) + LIMIT
    ensures Kept(u) == u <==> u < LIMIT
  {
  }

  lemma KeptFits(u: Unichar)
    ensures Kept(u) < LIMIT
  {
  }

  /** The first byte of a code point with nf followers says so, and carries the bits that they do not. */
  ghost predicate Tells(u: Unichar, nf: nat)
    requires nf <= 5
  {
    var raw := FirstByte(u, nf);
    NumFollowersOf(raw) == nf && (if nf == 0 then raw == u else FirstBits(raw, nf) == Upper(Kept(u), nf))
  }

  lemma FirstByteTells(u: Unichar)
    ensures Tells(u, NumFollowers(u))
  {
    hide Tells;
    if u < 0x80 {
      NoFollower(u);
    } else if u < 0x800 {
      OneFollower(u);
    } else if u < 0x1_0000 {
      TwoFollowers(u);
    } else if u < 0x20_0000 {
      ThreeFollowers(u);
    } else if u < 0x400_0000 {
      FourFollowers(u);
    } else {
      FiveFollowers(u);
    }
  }

  lemma NoFollower(u: Unichar)
    requires u < 0x80
    ensures Tells(u, 0)
  {
  }

  lemma OneFollower(u: Unichar)
    requires u < 0x800
    ensures Tells(u, 1)
  {
    hide Kept;
    KeptIs(u);
    Room1(u / 0x40);
  }

  lemma Room1(x: int)
    requires 0 <= x < 0x20
    ensures (0xC0 + x) % 0x100 == 0xC0 + x && (0xC0 + x) % 0x20 == x
  {
  }

  lemma TwoFollowers(u: Unichar)
    requires u < 0x1_0000
    ensures Tells(u, 2)
  {
    hide Kept;
    KeptIs(u);
    Room2(u / 0x1000);
  }

  lemma Room2(x: int)
    requires 0 <= x < 0x10
    ensures (0xE0 + x) % 0x100 == 0xE0 + x && (0xE0 + x) % 0x10 == x
  {
  }

  lemma ThreeFollowers(u: Unichar)
    requires u < 0x20_0000
    ensures Tells(u, 3)
  {
    hide Kept;
    KeptIs(u);
    Room3(u / 0x4_0000);
  }

  lemma Room3(x: int)
    requires 0 <= x < 0x8
    ensures (0xF0 + x) % 0x100 == 0xF0 + x && (0xF0 + x) % 0x8 == x
  {
  }

  lemma FourFollowers(u: Unichar)
    requires u < 0x400_0000
    ensures Tells(u, 4)
  {
    hide Kept;
    KeptIs(u);
    Room4(u / 0x100_0000);
  }

  lemma Room4(x: int)
    requires 0 <= x < 0x4
    ensures (0xF8 + x) % 0x100 == 0xF8 + x && (0xF8 + x) % 0x4 == x
  {
  }

  lemma FiveFollowers(u: Unichar)
    ensures Tells(u, 5)
  {
    hide Kept;
    KeptIs(u);
    TopCarried(u, Kept(u));
  }

  lemma TopCarried(u: Unichar, v: Unichar)
    requires v < LIMIT && (u == v || u == v + LIMIT)
    ensures 0xFC <= (0xFC + u / 0x4000_0000) % 0x100 && (0xFC + u / 0x4000_0000) % 0x100 % 2 == v / 0x4000_0000
  {
  }

  /** Each following byte brings back six bits. */
  lemma NextByteBrings(u: Unichar, k: nat)
    requires k <= 4 && u < LIMIT
    ensures MoreBits(Upper(u, k + 1), NextByte(u, k)) == Upper(u, k)
  {
    hide Upper;
    SixFewer(u, k);
    SixMerged(Upper(u, k));
  }

  lemma SixFewer(u: Unichar, k: nat)
    requires k <= 4 && u < LIMIT
    ensures Upper(u, k + 1) == Upper(u, k) / 0x40 && Upper(u, k) < LIMIT
  {
  }

  lemma SixMerged(x: Unichar)
    requires x < LIMIT
    ensures MoreBits(x / 0x40, 0x80 + x % 0x40) == x
  {
  }

  /** The bytes that follow do not depend on the top bit. */
  lemma NextByteLow(u: Unichar, k: nat)
    requires k <= 4
    ensures NextByte(u, k) == NextByte(Kept(u), k)
  {
    hide Kept;
    KeptIs(u);
    TopBitHigh(Kept(u), k);
  }

  lemma TopBitHigh(v: int, k: nat)
    requires 0 <= v < LIMIT && k <= 4
    ensures (v + LIMIT) / Unit(k) % 0x40 == v / Unit(k) % 0x40
  {
    var c := if k == 0 then 0x8000_0000 else if k == 1 then 0x200_0000 else if k == 2 then 0x8_0000
             else if k == 3 then 0x2000 else 0x80;
    assert (v + LIMIT) / Unit(k) == v / Unit(k) + c by {
      if k == 1 {
        TopBit1(v);
      } else if k == 2 {
        TopBit2(v);
      } else if k == 3 {
        TopBit3(v);
      } else if k == 4 {
        TopBit4(v);
      }
    }
    WholeUnits(v / Unit(k), c / 0x40);
  }

  lemma WholeUnits(x: int, c: int)
    ensures (x + 0x40 * c) % 0x40 == x % 0x40
  {
  }

  lemma TopBit1(v: int)
    ensures (v + LIMIT) / 0x40 == v / 0x40 + 0x200_0000
  {
  }

  lemma TopBit2(v: int)
    ensures (v + LIMIT) / 0x1000 == v / 0x1000 + 0x8_0000
  {
  }

  lemma TopBit3(v: int)
    ensures (v + LIMIT) / 0x4_0000 == v / 0x4_0000 + 0x2000
  {
  }

  lemma TopBit4(v: int)
    ensures (v + LIMIT) / 0x100_0000 == v / 0x100_0000 + 0x80
  {
  }

  lemma {:induction false} TailGathers(u: Unichar, k: nat, rest: seq<Octet>)
    requires k <= 5
    ensures Gathered(Upper(Kept(u), k), Tail(u, k) + rest, k) == Some((Kept(u), rest))
  {
    hide Upper, NextByte, MoreBits, Kept;
    if k == 0 {
      assert Tail(u, k) + rest == rest;
      Whole(Kept(u), k);
    } else {
      var bytes := Tail(u, k) + rest;
      NextByteLow(u, k - 1);
      KeptFits(u);
      NextByteBrings(Kept(u), k - 1);
      assert bytes[0] == NextByte(u, k - 1) && bytes[1..] == Tail(u, k - 1) + rest;
      TailGathers(u, k - 1, rest);
    }
  }

  lemma Whole(u: Unichar, k: nat)
    requires k == 0
    ensures Upper(u, k) == u && Tail(u, k) == []
  {
  }

  /** A code point comes back from its bytes, whatever follows them, but for its top bit. */
  lemma DecodesBack(u: Unichar, rest: seq<Octet>)
    ensures Decoded(Encoded(u) + rest) == Some((Kept(u), rest))
  {
    hide FirstByte, NumFollowersOf, FirstBits, Upper, Tail, Gathered;
    var nf := NumFollowers(u);
    var bytes := Encoded(u) + rest;
    FirstByteTells(u);
    TailGathers(u, nf, rest);
    assert bytes[0] == FirstByte(u, nf) && bytes[1..] == Tail(u, nf) + rest;
    if nf == 0 {
      Whole(u, nf);
      assert [] + rest == rest;
    }
  }

  /** A code point comes back unchanged exactly if it fits 31 bits. */
  lemma DecodesBackExactly(u: Unichar, rest: seq<Octet>)
    ensures Decoded(Encoded(u) + rest) == Some((u, rest)) <==> u < LIMIT
  {
    hide Decoded, Encoded;
    DecodesBack(u, rest);
  }

  // ----- whole streams -----

  ghost function EncodedAll(us: seq<Unichar>): seq<Octet> {
    if us == [] then [] else Encoded(us[0]) + EncodedAll(us[1..])
  }

  ghost function DecodedAll(bytes: seq<Octet>): Option<seq<Unichar>>
    decreases |bytes|
  {
    if bytes == [] then Some([])
    else match Decoded(bytes)
      case None => None
      case Some(pair) =>
        if |pair.1| >= |bytes| then None
        else match DecodedAll(pair.1)
          case None => None
          case Some(us) => Some([pair.0] + us)
  }

  /** Every stream of code points of 31 bits comes back from its bytes. */
  lemma {:induction false} StreamDecodesBack(us: seq<Unichar>)
    requires forall i :: 0 <= i < |us| ==> us[i] < LIMIT
    ensures DecodedAll(EncodedAll(us)) == Some(us)
    decreases |us|
  {
    hide Decoded, Encoded;
    if us != [] {
      var rest := EncodedAll(us[1..]);
      StreamDecodesBack(us[1..]);
      DecodesBackExactly(us[0], rest);
      EncodedLonger(us[0]);
      assert us == [us[0]] + us[1..];
    }
  }

  lemma EncodedLonger(u: Unichar)
    ensures |Encoded(u)| > 0
  {
  }

  /** No two such streams have the same bytes. */
  lemma StreamsDiffer(us: seq<Unichar>, vs: seq<Unichar>)
    requires forall i :: 0 <= i < |us| ==> us[i] < LIMIT
    requires forall i :: 0 <= i < |vs| ==> vs[i] < LIMIT
    requires EncodedAll(us) == EncodedAll(vs)
    ensures us == vs
  {
    StreamDecodesBack(us);
    StreamDecodesBack(vs);
  }
}
