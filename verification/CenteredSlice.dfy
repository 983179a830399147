/** A window into an array of integers, cppext/centeredslice.cpp. */
module CenteredSlice {
  import opened Moments

  /** What a window of half width w centred at c shows: zero outside itself. */
  ghost function Window(mem: seq<int>, c: int, w: int): Series {
    i => if -w <= i <= w && 0 <= c + i < |mem| then mem[c + i] else 0
  }

  class CenteredSlice {
    const mem: seq<int>
    var center: int
    const hwidth: int

    ghost predicate Valid()
      reads this
    {
      hwidth >= 0 && 0 <= center - hwidth && center + hwidth < |mem|
    }

    ghost function View(): Series
      reads this
    {
      Window(mem, center, hwidth)
    }

    constructor (mem: seq<int>, center: int, hwidth: int)
      ensures this.mem == mem && this.center == center && this.hwidth == hwidth
    {
      this.mem, this.center, this.hwidth := mem, center, hwidth;
    }

    function Get(i: int): (x: int)
      requires Valid()
      reads this
      ensures x == View()(i)
    {
      if i < -hwidth then 0
      else if i > hwidth then 0
      else mem[center + i]
    }

    function Lowest(): (x: int)
      requires Valid()
      reads this
      ensures x == View()(-hwidth)
    {
      mem[center - hwidth]
    }

    function Highest(): (x: int)
      requires Valid()
      reads this
      ensures x == View()(hwidth)
    {
      mem[center + hwidth]
    }

    method Step(up: bool)
      modifies this
      ensures center == if up then old(center) + 1 else old(center) - 1
    {
      if up {
        center := center + 1;
      } else {
        center := center - 1;
      }
    }

    /** A window of at most this half width around one end of this window. */
    method Endpoint(upper: bool, newwidth: nat) returns (s: CenteredSlice)
      requires hwidth >= 0
      ensures fresh(s) && s.mem == mem
      ensures s.center == if upper then center + hwidth else center - hwidth
      ensures s.hwidth == if newwidth <= hwidth then newwidth else hwidth
    {
      var clip: int := newwidth;
      if clip > hwidth {
        clip := hwidth;
      }
      s := new CenteredSlice(mem, if upper then center + hwidth else center - hwidth, clip);
    }
  }
}
