/** Packing path pieces into text and parsing them out again, system/pathparser.cpp, with its two scanners. */
module PathParser {
  import opened Buffer
  import opened Minimath
  import opened Splitting

  // ----- packing -----

  method Length(pieces: seq<string>, rule: Rules) returns (quantity: nat)
    ensures quantity == Needed(pieces, rule)
  {
    var indexer := new Indexer(pieces);
    if !indexer.HasNext() {
      return 0;
    }
    quantity := if rule.after then 1 else 0;
    while indexer.HasNext()
      invariant indexer.Valid()
      invariant quantity == (if rule.after then 1 else 0) + |Run(pieces[..indexer.pointer], rule.slash)|
      decreases |pieces| - indexer.pointer
    {
      var piece := indexer.Next();
      assert pieces[..indexer.pointer][..indexer.pointer - 1] == pieces[..indexer.pointer - 1];
      quantity := quantity + (1 + |Terminated(piece)|);
    }
    assert pieces[..indexer.pointer] == pieces;
    if !rule.before {
      quantity := quantity - 1;
    }
  }

  /** The part of the body that the first n pieces make. */
  ghost function Prefix(pieces: seq<string>, rule: Rules, n: nat): string
    requires n <= |pieces|
  {
    Body(pieces[..n], rule)
  }

  lemma PrefixStep(pieces: seq<string>, rule: Rules, n: nat)
    requires n < |pieces|
    ensures Prefix(pieces, rule, n + 1) ==
            Prefix(pieces, rule, n) + (if n > 0 || rule.before then [rule.slash] else "") + Terminated(pieces[n])
  {
    assert pieces[..n + 1][..n] == pieces[..n];
    assert Run(pieces[..n + 1], rule.slash) == Run(pieces[..n], rule.slash) + [rule.slash] + Terminated(pieces[n]);
  }

  lemma {:induction false} RunGrows(pieces: seq<string>, slash: char, n: nat)
    requires n <= |pieces|
    ensures |Run(pieces[..n], slash)| <= |Run(pieces, slash)|
    decreases |pieces|
  {
    if n < |pieces| {
      RunGrows(pieces[..|pieces| - 1], slash, n);
      assert pieces[..|pieces| - 1][..n] == pieces[..n];
    } else {
      assert pieces[..n] == pieces;
    }
  }

  lemma PrefixFits(pieces: seq<string>, rule: Rules, n: nat)
    requires n <= |pieces|
    ensures |Prefix(pieces, rule, n)| <= |Body(pieces, rule)| <= Needed(pieces, rule)
    ensures Prefix(pieces, rule, |pieces|) == Body(pieces, rule)
    ensures Prefix(pieces, rule, 0) == ""
  {
    RunGrows(pieces, rule.slash, n);
    assert pieces[..|pieces|] == pieces;
  }

  /** Writes exactly the packed path into a fresh buffer of at least the length reckoned, and a NUL after it if
      there is room for that too; nothing else changes. */
  method PackInto(packer: Packer, pieces: seq<string>, rule: Rules)
    requires packer.Valid() && packer.pointer == 0 && packer.length >= Needed(pieces, rule)
    modifies packer, packer.buffer
    ensures packer.Valid()
    ensures |Joined(pieces, rule)| <= packer.length
    ensures var joined := Joined(pieces, rule);
      packer.buffer[..] == Put(old(packer.buffer[..]), 0, if |joined| < packer.length then joined + [NUL] else joined)
    ensures packer.pointer == |Joined(pieces, rule)| + if |Joined(pieces, rule)| < packer.length then 1 else 0
  {
    hide Body, Needed, Prefix, Put;
    ghost var was := packer.buffer[..];
    ghost var body := Body(pieces, rule);
    var feeder := new Indexer(pieces);
    PrefixFits(pieces, rule, 0);
    PutNone(was, 0);
    while feeder.HasNext()
      invariant feeder.Valid() && packer.Valid()
      invariant packer.pointer == |Prefix(pieces, rule, feeder.pointer)|
      invariant packer.buffer[..] == Put(was, 0, Prefix(pieces, rule, feeder.pointer))
      decreases |pieces| - feeder.pointer
    {
      PackPiece(packer, feeder, pieces, rule, was);
    }
    NeededIs(pieces, rule);
    if rule.after && packer.pointer > 0 {
      PutPut(was, 0, body, [rule.slash]);
      packer.Next(rule.slash);
    }
    assert packer.buffer[..] == Put(was, 0, Joined(pieces, rule)) by { assert body + "" == body; }
    if packer.HasNext() {
      PutPut(was, 0, Joined(pieces, rule), [NUL]);
      packer.Next(NUL);
    }
  }

  lemma NeededIs(pieces: seq<string>, rule: Rules)
    ensures Needed(pieces, rule) == if pieces == [] then 0 else |Body(pieces, rule)| + if rule.after then 1 else 0
    ensures pieces == [] ==> Body(pieces, rule) == ""
  {
  }

  /** One turn of the packing loop. */
  method PackPiece(packer: Packer, feeder: Indexer<string>, pieces: seq<string>, rule: Rules, ghost was: seq<char>)
    requires packer.Valid() && packer.length >= Needed(pieces, rule) && feeder.Valid() && feeder.HasNext()
    requires feeder.buffer == pieces && packer.buffer.Length == |was|
    requires packer.pointer == |Prefix(pieces, rule, feeder.pointer)|
    requires packer.pointer <= |was| && packer.buffer[..] == Put(was, 0, Prefix(pieces, rule, feeder.pointer))
    modifies packer, packer.buffer, feeder
    ensures packer.Valid() && feeder.Valid() && feeder.pointer == old(feeder.pointer) + 1
    ensures packer.pointer == |Prefix(pieces, rule, feeder.pointer)|
    ensures packer.pointer <= |was| && packer.buffer[..] == Put(was, 0, Prefix(pieces, rule, feeder.pointer))
  {
    hide Body, Needed, Prefix, Put, Terminated;
    ghost var n := feeder.pointer;
    ghost var done, text := Prefix(pieces, rule, n), Terminated(pieces[n]);
    ghost var slash := if n > 0 || rule.before then [rule.slash] else "";
    PrefixStep(pieces, rule, n);
    PrefixFits(pieces, rule, n + 1);
    PutPut(was, 0, done, slash);
    PutPut(was, 0, done + slash, text);
    if feeder.pointer > 0 || rule.before {
      packer.Next(rule.slash);
    }
    assert packer.buffer[..] == Put(was, 0, done + slash) by { assert done + "" == done; }
    var piece := feeder.Next();
    var whole := packer.Cat(piece);
    assert text[..|text|] == text;
  }

  method Pack(pieces: seq<string>, rule: Rules) returns (text: string)
    ensures text == Terminated(Joined(pieces, rule))
  {
    hide Joined, Needed, Put, Terminated;
    var bytesNeeded := Length(pieces, rule);
    var buffer := new char[bytesNeeded + 1];
    buffer[bytesNeeded] := NUL;
    ghost var was, joined := buffer[..], Joined(pieces, rule);
    var packer := new Packer(buffer, bytesNeeded);
    PackInto(packer, pieces, rule);
    text := Terminated(buffer[..]);
    PutStarts(was, joined, bytesNeeded);
    TerminatedAt(joined, buffer[..]);
  }

  /** What is written at the front of a zero terminated buffer ends in a NUL, written or there before. */
  lemma PutStarts(was: string, joined: string, length: nat)
    requires |joined| <= length && |was| == length + 1 && was[length] == NUL
    ensures var s := Put(was, 0, if |joined| < length then joined + [NUL] else joined);
      joined < s && s[|joined|] == NUL
  {
  }

  /** Only what comes before a NUL matters. */
  lemma {:induction false} TerminatedAt(s: string, t: string)
    requires s < t && t[|s|] == NUL
    ensures Terminated(t) == Terminated(s)
  {
    if s != "" && s[0] != NUL { TerminatedAt(s[1..], t[1..]); }
  }

  // ----- parsing -----

  /** An array index, or the mark of none. */
  datatype Index = BadIndex | Index(raw: nat)

  class Span {
    var lowest: Index
    var highest: Index

    constructor ()
      ensures lowest == BadIndex && highest == BadIndex
    {
      lowest, highest := BadIndex, BadIndex;
    }

    predicate Ordered()
      reads this
    {
      lowest.Index? && highest.Index? && highest.raw >= lowest.raw
    }

    function Extent(): nat
      reads this
    {
      if Ordered() then highest.raw - lowest.raw else 0
    }

    predicate Empty()
      reads this
    {
      Extent() == 0
    }

    /** Moves to where the next span may start. The mark of no index is all ones, and wraps when added to. */
    method Leapfrog(skip: nat)
      modifies this
      ensures highest == BadIndex
      ensures old(highest).Index? ==> lowest == Index(old(highest.raw) + skip)
      ensures old(highest).BadIndex? ==> lowest == if skip % WORD == 0 then BadIndex else Index(skip % WORD - 1)
    {
      if highest.Index? {
        lowest := Index(highest.raw + skip);
      } else {
        lowest := if skip % WORD == 0 then BadIndex else Index(skip % WORD - 1);
      }
      highest := BadIndex;
    }

    /** Copies the part of the text that this spans, as a C string, and moves past it. A span out of order makes an
        empty copy. */
    method Cut(base: string, leap: nat) returns (piece: string)
      requires Ordered() ==> highest.raw <= |base|
      modifies this
      ensures piece == if old(Ordered()) then Copied(base, base[old(lowest.raw)..old(highest.raw)]) else ""
      ensures highest == BadIndex
      ensures old(highest).Index? ==> lowest == Index(old(highest.raw) + leap)
    {
      piece := if Ordered() then Copied(base, base[lowest.raw..highest.raw]) else "";
      Leapfrog(leap);
    }
  }

  /** A copy of part of a text ends at a NUL, and there is none to make of a text that begins with one. */
  function Copied(base: string, part: string): string {
    if base == "" || base[0] == NUL then "" else Terminated(part)
  }

  /** That is the part up to its first NUL. */
  lemma CopiedIs(base: string, part: string)
    ensures base == "" || base[0] == NUL ==> Copied(base, part) == ""
    ensures base != "" && base[0] != NUL ==>
      var c := Copied(base, part);
      c <= part && NUL !in c && (|c| < |part| ==> part[|c|] == NUL)
  {
    TerminatedStops(part);
  }

  ghost function Copies(base: string, parts: seq<string>): (s: seq<string>)
    ensures |s| == |parts|
    ensures forall k :: 0 <= k < |s| ==> s[k] == Copied(base, parts[k])
  {
    seq(|parts|, k requires 0 <= k < |parts| => Copied(base, parts[k]))
  }

  lemma CopiesOne(base: string, part: string)
    ensures Copies(base, []) == [] && Copies(base, [part]) == [Copied(base, part)]
  {
  }

  lemma CopiesConcat(base: string, a: seq<string>, b: seq<string>)
    ensures Copies(base, a + b) == Copies(base, a) + Copies(base, b)
  {
  }

  lemma OneCopied(base: string, had: seq<string>, todo: seq<string>)
    requires todo != []
    ensures had + Copies(base, todo) == had + [Copied(base, todo[0])] + Copies(base, todo[1..])
  {
    hide Copied;
  }

  /** The pieces of a text are copied as they stand. */
  lemma CopiesKept(text: string, sep: char)
    requires NUL !in text
    ensures Copies(text, Split(text, sep)) == Split(text, sep)
  {
    hide Split;
    var parts := Split(text, sep);
    forall k | 0 <= k < |parts| ensures Copied(text, parts[k]) == parts[k] {
      SplitProper(text, sep, k);
      if text == "" { SplitOfClean(text, sep); }
    }
  }

  class SegmentedName {
    var v: seq<string>

    constructor ()
      ensures v == []
    {
      v := [];
    }

    method Suffix(child: string)
      modifies this
      ensures v == old(v) + [child]
    {
      v := v + [child];
    }
  }

  /** The pieces known while the scan is at the end of s: all but the last field. */
  ghost function Closed(s: string, sep: char): seq<string> {
    var fs := Fields(s, sep);
    NonEmpty(fs[..|fs| - 1])
  }

  ghost function Open(s: string, sep: char): string {
    var fs := Fields(s, sep);
    fs[|fs| - 1]
  }

  lemma OpenStep(s: string, sep: char, c: char)
    ensures c == sep ==> Open(s + [c], sep) == "" && Closed(s + [c], sep) == Split(s, sep)
    ensures c != sep ==> Open(s + [c], sep) == Open(s, sep) + [c] && Closed(s + [c], sep) == Closed(s, sep)
    ensures Split(s, sep) == Closed(s, sep) + if Open(s, sep) == "" then [] else [Open(s, sep)]
  {
  }

  lemma OpenNothing(sep: char)
    ensures Open("", sep) == "" && Closed("", sep) == []
  {
    assert Fields("", sep)[..0] == [];
  }

  /** The open field is empty exactly at the start and after a separator. */
  lemma OpenEmpty(s: string, sep: char)
    ensures Open(s, sep) == "" <==> s == "" || s[|s| - 1] == sep
  {
  }

  /** The pieces of a text are the known ones and the open field, if there is anything in it. */
  lemma CopiesOfSplit(base: string, s: string, sep: char)
    ensures Copies(base, Split(s, sep)) ==
      Copies(base, Closed(s, sep)) + if Open(s, sep) == "" then [] else [Copied(base, Open(s, sep))]
  {
    hide Split, Closed, Open, Copies, Copied;
    OpenStep(s, sep, sep);
    CopiesConcat(base, Closed(s, sep), [Open(s, sep)]);
    CopiesOne(base, Open(s, sep));
    assert Closed(s, sep) + [] == Closed(s, sep);
    assert Copies(base, Closed(s, sep)) + [] == Copies(base, Closed(s, sep));
  }

  /** Between turns: the cutter starts at the open field of what has been scanned since start, and the pieces
      before it have been handed over. */
  ghost predicate Scanning(pieces: SegmentedName, scan: Indexer<char>, cutter: Span, was: seq<string>,
      start: nat, sep: char)
    reads pieces, scan, cutter
  {
    && scan.Valid() && start <= scan.pointer
    && cutter.lowest.Index? && start <= cutter.lowest.raw <= scan.pointer
    && scan.buffer[cutter.lowest.raw..scan.pointer] == Open(scan.buffer[start..scan.pointer], sep)
    && pieces.v == was + Copies(scan.buffer, Closed(scan.buffer[start..scan.pointer], sep))
  }

  /** One turn of the scan. */
  method ScanOne(pieces: SegmentedName, scan: Indexer<char>, cutter: Span, ghost was: seq<string>,
      ghost start: nat, seperator: char)
    requires Scanning(pieces, scan, cutter, was, start, seperator) && scan.HasNext()
    modifies pieces, scan, cutter
    ensures Scanning(pieces, scan, cutter, was, start, seperator) && scan.pointer == old(scan.pointer) + 1
  {
    hide Split, Closed, Open, Copies, Copied;
    ghost var pre, low := scan.buffer[start..scan.pointer], cutter.lowest.raw;
    var c := scan.Next();
    assert scan.buffer[start..scan.pointer] == pre + [c];
    OpenStep(pre, seperator, c);
    CopiesOfSplit(scan.buffer, pre, seperator);
    assert scan.buffer[low..scan.pointer] == scan.buffer[low..scan.pointer - 1] + [c];
    if c == seperator {
      cutter.highest := Index(scan.pointer - 1);
      if cutter.Empty() {
        cutter.lowest := Index(cutter.lowest.raw + 1);
      } else {
        var piece := cutter.Cut(scan.buffer, 1);
        pieces.Suffix(piece);
      }
    }
  }

  /** Hands over a last piece that no separator closes. */
  method ScanEnd(pieces: SegmentedName, scan: Indexer<char>, cutter: Span, ghost was: seq<string>,
      ghost start: nat, seperator: char)
    returns (after: bool)
    requires Scanning(pieces, scan, cutter, was, start, seperator) && !scan.HasNext()
    modifies pieces, cutter
    ensures pieces.v == was + Copies(scan.buffer, Split(scan.buffer[start..], seperator))
    ensures var text := scan.buffer[start..];
      after == (scan.buffer != "" && (text == "" || text[|text| - 1] == seperator))
  {
    hide Split, Closed, Open, Copies, Copied;
    var text := scan.buffer[start..];
    assert scan.buffer[start..scan.pointer] == text;
    CopiesOfSplit(scan.buffer, text, seperator);
    OpenEmpty(text, seperator);
    after := false;
    if scan.Contains(cutter.lowest.raw) {
      cutter.highest := Index(scan.pointer);
      if cutter.Empty() {
        after := true;
      } else {
        var piece := cutter.Cut(scan.buffer, 0);
        pieces.Suffix(piece);
      }
    } else {
      after := scan.pointer > 0;
    }
  }

  /** Splits what is left to scan, and tells whether separators led and trailed it. */
  method ScanInto(pieces: SegmentedName, scan: Indexer<char>, seperator: char) returns (bracket: Rules)
    requires scan.Valid()
    modifies pieces, scan
    ensures scan.Valid() && !scan.HasNext()
    ensures pieces.v == old(pieces.v) + Copies(scan.buffer, Split(old(scan.Remaining()), seperator))
    ensures old(scan.Remaining()) != "" ==> bracket == ParsedRules(old(scan.Remaining()), seperator)
    ensures old(scan.Remaining()) == "" ==> bracket == Rules(seperator, scan.buffer != "", false)
  {
    hide Split, Closed, Open, ParsedRules, Copies, Copied;
    CopiesOne(scan.buffer, "");
    ghost var rest, was := scan.Remaining(), pieces.v;
    ParsedIs(rest, seperator);
    bracket := Rules(seperator, false, false);
    var cutter := new Span();
    if scan.HasNext() && scan.Peek() == seperator {
      bracket := bracket.(before := true);
      var c := scan.Next();
      SplitTrims(scan.Remaining(), seperator);
      assert rest == [seperator] + scan.Remaining();
      if !scan.HasNext() {
        SplitOfClean("", seperator);
        return;
      }
    }
    ghost var start := scan.pointer;
    cutter.lowest := Index(scan.pointer);
    assert scan.buffer[start..start] == "";
    OpenNothing(seperator);
    while scan.HasNext()
      invariant fresh(cutter) && Scanning(pieces, scan, cutter, was, start, seperator)
      decreases |scan.buffer| - scan.pointer
    {
      ScanOne(pieces, scan, cutter, was, start, seperator);
    }
    var after := ScanEnd(pieces, scan, cutter, was, start, seperator);
    bracket := bracket.(after := after);
  }

  lemma ParsedIs(s: string, sep: char)
    ensures ParsedRules(s, sep) == Rules(sep, |s| > 1 && s[|s| - 1] == sep, s != "" && s[0] == sep)
  {
  }

  method ParseInto(pieces: SegmentedName, packed: string, seperator: char) returns (bracket: Rules)
    modifies pieces
    ensures pieces.v == old(pieces.v) + Split(Terminated(packed), seperator)
    ensures bracket == ParsedRules(Terminated(packed), seperator)
  {
    var scan := new Indexer(Terminated(packed));
    CopiesKept(Terminated(packed), seperator);
    bracket := ScanInto(pieces, scan, seperator);
  }

  // ----- the incremental scanner -----

  /** What one call leaves to do: the rest after a piece, with the separators burned. */
  lemma SplitTakes(w: string, sep: char, rest: string)
    requires w != "" && sep !in w
    ensures Split(w + [sep] + rest, sep) == [w] + Split(rest, sep)
  {
    SplitConcat(w, sep, rest);
    SplitOfClean(w, sep);
  }

  lemma SplitAfter(buffer: string, at: nat, sep: char)
    requires at < |buffer| && buffer[at] == sep
    ensures Split(buffer[at..], sep) == Split(buffer[at + 1..], sep)
  {
    assert buffer[at..] == [sep] + buffer[at + 1..];
    SplitTrims(buffer[at + 1..], sep);
  }

  class Chunker {
    var bracket: Rules

    constructor (seperator: char)
      ensures bracket == Rules(seperator, false, false)
    {
      bracket := Rules(seperator, false, false);
    }

    predicate IsSlash(token: char)
      reads this
    {
      token == bracket.slash
    }

    /** Passes over separators. */
    method Burn(scan: Indexer<char>) returns (count: nat)
      requires scan.Valid()
      modifies scan
      ensures scan.Valid() && old(scan.pointer) <= scan.pointer && count == scan.pointer - old(scan.pointer)
      ensures forall i :: old(scan.pointer) <= i < scan.pointer ==> scan.buffer[i] == bracket.slash
      ensures scan.HasNext() ==> scan.Peek() != bracket.slash
      ensures Split(scan.Remaining(), bracket.slash) == Split(old(scan.Remaining()), bracket.slash)
    {
      hide Split;
      count := 0;
      while scan.HasNext() && IsSlash(scan.Peek())
        invariant scan.Valid() && old(scan.pointer) <= scan.pointer && count == scan.pointer - old(scan.pointer)
        invariant forall i :: old(scan.pointer) <= i < scan.pointer ==> scan.buffer[i] == bracket.slash
        invariant Split(scan.Remaining(), bracket.slash) == Split(old(scan.Remaining()), bracket.slash)
        decreases |scan.buffer| - scan.pointer
      {
        SplitAfter(scan.buffer, scan.pointer, bracket.slash);
        count := count + 1;
        scan.Skip(1);
      }
    }

    /** Counts the leading separators and passes over them. */
    method Start(scan: Indexer<char>) returns (leading: nat)
      requires scan.Valid()
      modifies scan
      ensures scan.Valid() && old(scan.pointer) <= scan.pointer && leading == scan.pointer - old(scan.pointer)
      ensures forall i :: old(scan.pointer) <= i < scan.pointer ==> scan.buffer[i] == bracket.slash
      ensures leading > 0 <==> old(scan.Remaining()) != "" && old(scan.Remaining())[0] == bracket.slash
      ensures scan.HasNext() ==> scan.Peek() != bracket.slash
      ensures Split(scan.Remaining(), bracket.slash) == Split(old(scan.Remaining()), bracket.slash)
    {
      leading := Burn(scan);
    }

    /** Closes a piece at the separator just read, and burns the separators that follow. */
    method Close(scan: Indexer<char>, ghost low: nat)
      requires scan.Valid() && low + 1 < scan.pointer
      requires scan.buffer[scan.pointer - 1] == bracket.slash && bracket.slash !in scan.buffer[low..scan.pointer - 1]
      modifies this, scan
      ensures scan.Valid() && bracket == old(bracket).(after := !scan.HasNext())
      ensures !scan.HasNext() ==> scan.buffer[|scan.buffer| - 1] == bracket.slash
      ensures scan.HasNext() ==> scan.Peek() != bracket.slash
      ensures Split(scan.buffer[low..], bracket.slash)
           == [scan.buffer[low..old(scan.pointer) - 1]] + Split(scan.Remaining(), bracket.slash)
    {
      hide Split;
      ghost var w, rest := scan.buffer[low..scan.pointer - 1], scan.Remaining();
      assert scan.buffer[low..] == w + [bracket.slash] + rest;
      SplitTakes(w, bracket.slash, rest);
      var count := Burn(scan);
      bracket := bracket.(after := !scan.HasNext());
    }

    /** The next piece, as a span of the buffer; an empty span when there is no other. */
    method Next(scan: Indexer<char>) returns (cutter: Span)
      requires scan.Valid()
      modifies this, scan
      ensures scan.Valid() && fresh(cutter)
        && bracket.slash == old(bracket.slash) && bracket.before == old(bracket.before)
      ensures Delivers(scan, cutter, Split(old(scan.Remaining()), bracket.slash), bracket.slash)
      ensures scan.HasNext() ==> scan.Peek() != bracket.slash && !bracket.after
      ensures old(scan.Remaining()) == "" ==> bracket == old(bracket)
      ensures Split(old(scan.Remaining()), bracket.slash) != [] && !scan.HasNext() ==>
        bracket.after == if scan.buffer[|scan.buffer| - 1] == bracket.slash then true else old(bracket.after)
      ensures Split(old(scan.Remaining()), bracket.slash) == [] && old(scan.Remaining()) != "" ==>
        bracket.after == if |old(scan.Remaining())| == 1 then old(bracket.after) else true
    {
      hide Split, Delivers;
      ghost var slash := bracket.slash;
      ghost var todo := Split(scan.Remaining(), slash);
      SplitEmpty(scan.Remaining(), slash);
      cutter := new Span();
      SplitOfClean("", slash);
      if scan.HasNext() {
        if IsSlash(scan.Peek()) {
          SplitAfter(scan.buffer, scan.pointer, slash);
          var c := scan.Next();
          if !scan.HasNext() {
            DeliversNothing(scan, cutter, slash);
            assert todo == [];
            return;
          }
        }
      } else {
        DeliversNothing(scan, cutter, slash);
        return;
      }
      cutter.lowest := Index(scan.pointer);
      Find(scan, cutter, todo);
    }

    /** The search for the end of the piece that begins, after further separators perhaps, where the cutter does. */
    method Find(scan: Indexer<char>, cutter: Span, ghost todo: seq<string>)
      requires scan.Valid() && scan.HasNext() && cutter.lowest == Index(scan.pointer) && cutter.highest == BadIndex
      requires todo == Split(scan.Remaining(), bracket.slash)
      modifies this, scan, cutter
      ensures scan.Valid() && bracket.slash == old(bracket.slash) && bracket.before == old(bracket.before)
      ensures Delivers(scan, cutter, todo, bracket.slash)
      ensures scan.HasNext() ==> scan.Peek() != bracket.slash && !bracket.after
      ensures todo != [] && !scan.HasNext() ==>
        bracket.after == if scan.buffer[|scan.buffer| - 1] == bracket.slash then true else old(bracket.after)
      ensures todo == [] ==> bracket.after
    {
      hide Split, Delivers;
      ghost var slash := bracket.slash;
      while scan.HasNext()
        invariant Seeking(scan, cutter, todo, slash) && bracket == old(bracket) && scan.buffer != ""
        decreases |scan.buffer| - scan.pointer
      {
        ghost var low := cutter.lowest.raw;
        var c := scan.Next();
        assert scan.buffer[low..scan.pointer] == scan.buffer[low..scan.pointer - 1] + [c];
        if IsSlash(c) {
          cutter.highest := Index(scan.pointer - 1);
          if cutter.Empty() {
            SplitAfter(scan.buffer, low, slash);
            cutter.lowest := Index(scan.pointer);
          } else {
            Close(scan, low);
            DeliversPiece(scan, cutter, todo, slash);
            return;
          }
        }
      }
      End(scan, cutter, todo);
    }

    /** What the search leaves when no separator ends the piece. */
    method End(scan: Indexer<char>, cutter: Span, ghost todo: seq<string>)
      requires !scan.HasNext() && Seeking(scan, cutter, todo, bracket.slash) && scan.buffer != ""
      modifies this, cutter
      ensures bracket.slash == old(bracket.slash) && bracket.before == old(bracket.before)
      ensures Delivers(scan, cutter, todo, bracket.slash)
      ensures todo != [] ==>
        bracket.after == if scan.buffer[|scan.buffer| - 1] == bracket.slash then true else old(bracket.after)
      ensures todo == [] ==> bracket.after
    {
      hide Split, Delivers;
      ghost var slash := bracket.slash;
      ghost var last := scan.buffer[cutter.lowest.raw..];
      assert scan.buffer[cutter.lowest.raw..scan.pointer] == last;
      SplitOfClean(last, slash);
      SplitOfClean("", slash);
      assert scan.Remaining() == "";
      var after := bracket.after;
      if scan.Contains(cutter.lowest.raw) {
        cutter.highest := Index(scan.pointer);
        if cutter.Empty() {
          after := true;
        } else {
          assert last[|last| - 1] == scan.buffer[|scan.buffer| - 1];
          DeliversPiece(scan, cutter, todo, slash);
        }
      } else {
        DeliversNothing(scan, cutter, slash);
        after := scan.pointer > 0;
      }
      bracket := bracket.(after := after);
    }

    /** Hands over every piece there still is. */
    method Drain(pieces: SegmentedName, scan: Indexer<char>)
      requires scan.Valid() && !bracket.after && (scan.HasNext() ==> scan.Peek() != bracket.slash)
      modifies this, pieces, scan
      ensures scan.Valid() && bracket.slash == old(bracket.slash) && bracket.before == old(bracket.before)
      ensures pieces.v == old(pieces.v) + Copies(scan.buffer, Split(old(scan.Remaining()), bracket.slash))
      ensures bracket.after == (Split(old(scan.Remaining()), bracket.slash) != []
        && scan.buffer != "" && scan.buffer[|scan.buffer| - 1] == bracket.slash)
    {
      hide Split, Delivers, Copies, Copied;
      ghost var slash := bracket.slash;
      ghost var all := pieces.v + Copies(scan.buffer, Split(scan.Remaining(), slash));
      ghost var some := Split(scan.Remaining(), slash) != [];
      ghost var ends := scan.buffer != "" && scan.buffer[|scan.buffer| - 1] == slash;
      ghost var todo := Split(scan.Remaining(), slash);
      SplitOfClean("", slash);
      SplitEmpty(scan.Remaining(), slash);
      var span := Next(scan);
      while !span.Empty()
        invariant scan.Valid() && fresh(span) && bracket.slash == slash && bracket.before == old(bracket.before)
        invariant Delivers(scan, span, todo, slash) && pieces.v + Copies(scan.buffer, todo) == all
        invariant if scan.HasNext() then scan.Peek() != slash && !bracket.after else bracket.after == (some && ends)
        decreases |todo|
      {
        DeliveredPiece(scan, span, todo, slash);
        var segment := Copied(scan.buffer, scan.buffer[span.lowest.raw..span.highest.raw]);
        OneCopied(scan.buffer, pieces.v, todo);
        pieces.Suffix(segment);
        todo := todo[1..];
        SplitEmpty(scan.Remaining(), slash);
        span := Next(scan);
      }
      DeliveredNothing(scan, span, todo, slash);
      CopiesOne(scan.buffer, "");
    }

    static method ParseInto(pieces: SegmentedName, packed: string, seperator: char) returns (bracket: Rules)
      modifies pieces
      ensures pieces.v == old(pieces.v) + Split(Terminated(packed), seperator)
      ensures bracket == ChunkedRules(Terminated(packed), seperator)
    {
      hide Split, Copies, Copied, Terminated;
      ghost var text := Terminated(packed);
      var chunker := new Chunker(seperator);
      var buffer := new Indexer(Terminated(packed));
      assert buffer.Remaining() == text;
      var leading := chunker.Start(buffer);
      chunker.bracket := chunker.bracket.(before := leading > 0);
      assert Split(buffer.Remaining(), seperator) == Split(text, seperator);
      SplitOfClean("", seperator);
      chunker.Drain(pieces, buffer);
      CopiesKept(text, seperator);
      bracket := chunker.bracket;
    }
  }

  /** The span holds the first piece still to do, and the scan is left at the others; or there is none and nothing
      is left to scan. */
  ghost predicate Delivers(scan: Indexer<char>, cutter: Span, todo: seq<string>, slash: char)
    requires scan.Valid()
    reads scan, cutter
  {
    if todo == [] then
      cutter.Empty() && !scan.HasNext()
    else
      && !cutter.Empty() && cutter.highest.raw <= |scan.buffer|
      && scan.buffer[cutter.lowest.raw..cutter.highest.raw] == todo[0]
      && Split(scan.Remaining(), slash) == todo[1..]
  }

  lemma DeliversNothing(scan: Indexer<char>, cutter: Span, slash: char)
    requires scan.Valid() && cutter.Empty() && !scan.HasNext()
    ensures Delivers(scan, cutter, [], slash) && scan.Remaining() == ""
  {
  }

  lemma DeliversPiece(scan: Indexer<char>, cutter: Span, todo: seq<string>, slash: char)
    requires scan.Valid() && !cutter.Empty() && cutter.highest.raw <= |scan.buffer|
    requires todo == [scan.buffer[cutter.lowest.raw..cutter.highest.raw]] + Split(scan.Remaining(), slash)
    ensures Delivers(scan, cutter, todo, slash) && todo != []
  {
  }

  lemma DeliveredPiece(scan: Indexer<char>, cutter: Span, todo: seq<string>, slash: char)
    requires scan.Valid() && Delivers(scan, cutter, todo, slash) && !cutter.Empty()
    ensures todo != [] && cutter.highest.raw <= |scan.buffer| && Split(scan.Remaining(), slash) == todo[1..]
    ensures scan.buffer[cutter.lowest.raw..cutter.highest.raw] == todo[0]
  {
  }

  lemma DeliveredNothing(scan: Indexer<char>, cutter: Span, todo: seq<string>, slash: char)
    requires scan.Valid() && Delivers(scan, cutter, todo, slash) && cutter.Empty()
    ensures todo == [] && !scan.HasNext()
  {
  }

  /** Everything between the cutter and the scan is free of separators, and what there is to do begins at the cutter. */
  ghost predicate Seeking(scan: Indexer<char>, cutter: Span, todo: seq<string>, slash: char)
    reads scan, cutter
  {
    && scan.Valid() && cutter.lowest.Index? && cutter.lowest.raw <= scan.pointer
    && slash !in scan.buffer[cutter.lowest.raw..scan.pointer]
    && Split(scan.buffer[cutter.lowest.raw..], slash) == todo
    && (cutter.highest.Index? ==> cutter.highest.raw < cutter.lowest.raw)
  }
}
