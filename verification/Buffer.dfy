/** The two sides of the bounded buffer that scanners and printers share, cppext/ordinator.h and cppext/buffer.h. */
module Buffer {
  import opened Minimath

  const NUL: char := '\0'
  /** All ones stands for no limit at all. */
  const BAD_LENGTH := WORD - 1

  /** A C string: what comes before the first NUL. */
  function Terminated(s: string): (t: string)
    ensures NUL !in t && t <= s && (NUL !in s ==> t == s)
  {
    if s == "" || s[0] == NUL then "" else [s[0]] + Terminated(s[1..])
  }

  /** The reading side. */
  class Indexer<T> {
    const buffer: seq<T>
    var pointer: nat

    constructor (buffer: seq<T>)
      ensures this.buffer == buffer && pointer == 0
    {
      this.buffer, pointer := buffer, 0;
    }

    ghost predicate Valid()
      reads this
    {
      pointer <= |buffer|
    }

    /** The unread part. */
    ghost function Remaining(): seq<T>
      requires Valid()
      reads this
    {
      buffer[pointer..]
    }

    predicate HasNext()
      reads this
    {
      |buffer| > 0 && pointer < |buffer|
    }

    function Peek(): T
      requires HasNext()
      reads this
    {
      buffer[pointer]
    }

    /** The next element, or the last one again when there is none left. */
    method Next() returns (x: T)
      requires Valid() && |buffer| > 0
      modifies this
      ensures Valid()
      ensures old(HasNext()) ==> pointer == old(pointer) + 1 && x == buffer[old(pointer)]
      ensures !old(HasNext()) ==> pointer == old(pointer) && x == buffer[|buffer| - 1]
    {
      if pointer < |buffer| {
        x := buffer[pointer];
        pointer := pointer + 1;
      } else {
        x := buffer[|buffer| - 1];
      }
    }

    /** Whether an index has been passed already. */
    predicate Contains(index: nat)
      reads this
    {
      index < pointer
    }

    method Skip(amount: nat)
      requires Valid()
      modifies this
      ensures Valid() && pointer == if old(pointer) + amount > |buffer| then |buffer| else old(pointer) + amount
    {
      pointer := pointer + amount;
      if pointer > |buffer| {
        pointer := |buffer|;
      }
    }
  }

  function Least(a: nat, b: nat): nat { if a <= b then a else b }

  /** The text with t written over it from p on. */
  ghost function Put(was: string, p: nat, t: string): string
    requires p + |t| <= |was|
  {
    was[..p] + t + was[p + |t|..]
  }

  lemma PutPut(was: string, p: nat, t: string, u: string)
    requires p + |t| + |u| <= |was|
    ensures |Put(was, p, t)| == |was| && Put(Put(was, p, t), p + |t|, u) == Put(was, p, t + u)
  {
  }

  lemma PutOne(was: string, p: nat, c: char)
    requires p < |was|
    ensures was[p := c] == Put(was, p, [c])
  {
  }

  lemma PutMore(was: string, p: nat, t: string, at: nat)
    requires at < |t| && p + at < |was|
    ensures |Put(was, p, t[..at])| == |was| && Put(was, p, t[..at])[p + at := t[at]] == Put(was, p, t[..at + 1])
  {
  }

  lemma PutNone(was: string, p: nat)
    requires p <= |was|
    ensures Put(was, p, "") == was
  {
  }

  /** The writing side of the bounded buffer: length is what it may fill, whatever was allocated. */
  class Packer {
    const buffer: array<char>
    const length: nat
    var pointer: nat

    constructor (buffer: array<char>, length: nat)
      ensures this.buffer == buffer && this.length == length && pointer == 0
    {
      this.buffer, this.length, pointer := buffer, length, 0;
    }

    ghost predicate Valid()
      reads this
    {
      pointer <= length <= buffer.Length
    }

    predicate HasNext()
      reads this
    {
      length > 0 && pointer < length
    }

    /** Assigns to the next place, or to the last again when there is none left. */
    method Next(c: char)
      requires Valid() && length > 0
      modifies this, buffer
      ensures Valid()
      ensures var p := if old(pointer) < length then old(pointer) else length - 1;
        pointer == p + 1 && buffer[..] == Put(old(buffer[..]), p, [c])
    {
      PutOne(buffer[..], if pointer < length then pointer else length - 1, c);
      if pointer < length {
        buffer[pointer] := c;
        pointer := pointer + 1;
      } else {
        buffer[length - 1] := c;
      }
    }

    /** Appends a C string without its NUL, as far as there is room and the limit allows. The answer is meant to
        tell whether that was all there was to copy, a text cut by the limit included; it is also yes when there
        is no limit and no room at all, since the count that was not decremented passes for an exhausted one. */
    method Cat(source: string, limit: nat := BAD_LENGTH) returns (whole: bool)
      requires Valid() && limit <= BAD_LENGTH
      modifies this, buffer
      ensures Valid()
      ensures var t, room := Terminated(source), length - old(pointer);
        var n := if limit == BAD_LENGTH then Least(|t|, room) else Least(|t|, Least(room, limit));
        && pointer == old(pointer) + n
        && buffer[..] == Put(old(buffer[..]), old(pointer), t[..n])
        && whole == (n == |t| || n < room || (limit == BAD_LENGTH && room == 0))
    {
      hide Put;
      ghost var was, p, t := buffer[..], pointer, Terminated(source);
      TerminatedStops(source);
      PutNone(was, p);
      var at, left: int, more := 0, limit, true;
      while pointer < length && at < |source| && source[at] != NUL && more
        invariant Valid() && 0 <= at <= |t| && (limit < BAD_LENGTH ==> at <= limit) && pointer == p + at
        invariant if more then left == limit - at
          else at == limit < BAD_LENGTH && left == BAD_LENGTH && pointer < length
        invariant buffer[..] == Put(was, p, t[..at])
        decreases |source| - at, more
      {
        more := limit == BAD_LENGTH || left > 0;
        left := if more then left - 1 else BAD_LENGTH;
        if more {
          PutMore(was, p, t, at);
          buffer[pointer] := source[at];
          pointer := pointer + 1;
          at := at + 1;
        }
      }
      whole := at >= |source| || source[at] == NUL || left == BAD_LENGTH;
    }
  }

  lemma {:induction false} TerminatedStops(s: string)
    ensures var n := |Terminated(s)|; n <= |s| && Terminated(s) == s[..n] && (n < |s| ==> s[n] == NUL)
  {
    if s != "" && s[0] != NUL { TerminatedStops(s[1..]); }
  }
}
