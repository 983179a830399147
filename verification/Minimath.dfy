/** Helpers that several components share, cppext/minimath.h, and the widths of the original's integers. */
module Minimath {

  /** One more than the largest unsigned word. */
  const WORD := 0x1_0000_0000

  /** A quotient, or the numerator when there is nothing to divide by. */
  function Ratio(num: real, denom: real): real {
    if denom == 0.0 then num else num / denom
  }

  /** One of width bit patterns read as a signed number. */
  function Signed(x: int, width: nat): int
    requires width > 0
  {
    if x % width >= (width + 1) / 2 then x % width - width else x % width
  }

  /** That is the number of the same pattern in the range about zero. */
  lemma SignedIs(x: int, width: nat)
    requires width > 0 && width % 2 == 0
    ensures -(width / 2) <= Signed(x, width) < width / 2
    ensures x - Signed(x, width) == width * (x / width) || x - Signed(x, width) == width * (x / width + 1)
  {
    assert x == width * (x / width) + x % width;
    assert width * (x / width + 1) == width * (x / width) + width;
  }
}
