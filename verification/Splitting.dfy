/** What a packed path means: splitting on a separator, dropping empty pieces, and putting pieces together. */
module Splitting {
  import opened Buffer

  /** Path description: the separator, and whether one trails and leads. */
  datatype Rules = Rules(slash: char, after: bool, before: bool)

  /** All the fields that the separators delimit, empty ones included. */
  ghost function Fields(s: string, sep: char): (fs: seq<string>)
    ensures |fs| > 0
  {
    if s == "" then [""]
    else
      var fs, last := Fields(s[..|s| - 1], sep), s[|s| - 1];
      if last == sep then fs + [""] else fs[|fs| - 1 := fs[|fs| - 1] + [last]]
  }

  ghost function NonEmpty(fs: seq<string>): seq<string> {
    if fs == [] then []
    else NonEmpty(fs[..|fs| - 1]) + if fs[|fs| - 1] == "" then [] else [fs[|fs| - 1]]
  }

  ghost function Split(s: string, sep: char): seq<string> { NonEmpty(Fields(s, sep)) }

  /** The fields with one separator between neighbours. */
  ghost function Delimited(fs: seq<string>, sep: char): string
    requires |fs| > 0
  {
    if |fs| == 1 then fs[0] else Delimited(fs[..|fs| - 1], sep) + [sep] + fs[|fs| - 1]
  }

  ghost predicate Free(fs: seq<string>, sep: char) { forall k :: 0 <= k < |fs| ==> sep !in fs[k] }

  /** A word as a path piece should be: something, and nothing in it that a path gives a meaning to. */
  ghost predicate Proper(w: string, sep: char) { w != "" && sep !in w && NUL !in w }

  // ----- Fields is the way to split -----

  lemma FieldsStep(s: string, sep: char, c: char)
    ensures Fields(s + [c], sep) ==
            (var fs := Fields(s, sep); if c == sep then fs + [""] else fs[|fs| - 1 := fs[|fs| - 1] + [c]])
  {
    assert (s + [c])[..|s|] == s;
  }

  /** The fields are free of the separator and give the string back. */
  lemma {:induction false} FieldsDelimit(s: string, sep: char)
    ensures Free(Fields(s, sep), sep) && Delimited(Fields(s, sep), sep) == s
  {
    if s != "" {
      var front, c := s[..|s| - 1], s[|s| - 1];
      var fs := Fields(front, sep);
      FieldsDelimit(front, sep);
      assert s == front + [c];
      if c == sep {
        assert (fs + [""])[..|fs|] == fs;
      } else {
        Lengthen(fs, sep, c);
      }
    }
  }

  lemma Lengthen(fs: seq<string>, sep: char, c: char)
    requires |fs| > 0
    ensures Delimited(fs[|fs| - 1 := fs[|fs| - 1] + [c]], sep) == Delimited(fs, sep) + [c]
  {
  }

  /** Splitting at a separator anywhere. */
  lemma {:induction false} FieldsConcat(a: string, sep: char, b: string)
    ensures Fields(a + [sep] + b, sep) == Fields(a, sep) + Fields(b, sep)
  {
    hide Fields;
    if b == "" {
      assert a + [sep] + b == a + [sep];
      FieldsStep(a, sep, sep);
      FieldsOfNothing(sep);
    } else {
      var front, c := b[..|b| - 1], b[|b| - 1];
      FieldsConcat(a, sep, front);
      assert b == front + [c];
      assert a + [sep] + b == (a + [sep] + front) + [c];
      FieldsStep(a + [sep] + front, sep, c);
      FieldsStep(front, sep, c);
    }
  }

  lemma FieldsOfNothing(sep: char)
    ensures Fields("", sep) == [""]
  {
  }

  lemma {:induction false} FieldsOfClean(w: string, sep: char)
    requires sep !in w
    ensures Fields(w, sep) == [w]
  {
    if w != "" {
      FieldsOfClean(w[..|w| - 1], sep);
      assert w == w[..|w| - 1] + [w[|w| - 1]];
    }
  }

  /** Nothing else is free of the separator and gives the string back. */
  lemma {:induction false} FieldsUnique(fs: seq<string>, sep: char)
    requires |fs| > 0 && Free(fs, sep)
    ensures Fields(Delimited(fs, sep), sep) == fs
  {
    var n := |fs| - 1;
    FieldsOfClean(fs[n], sep);
    if n > 0 {
      FieldsUnique(fs[..n], sep);
      FieldsConcat(Delimited(fs[..n], sep), sep, fs[n]);
    }
  }

  // ----- Split -----

  lemma {:induction false} NonEmptyConcat(f: seq<string>, g: seq<string>)
    ensures NonEmpty(f + g) == NonEmpty(f) + NonEmpty(g)
  {
    if g == [] {
      assert f + g == f;
    } else {
      var n := |g| - 1;
      NonEmptyConcat(f, g[..n]);
      assert (f + g)[..|f + g| - 1] == f + g[..n];
    }
  }

  lemma SplitConcat(a: string, sep: char, b: string)
    ensures Split(a + [sep] + b, sep) == Split(a, sep) + Split(b, sep)
  {
    FieldsConcat(a, sep, b);
    NonEmptyConcat(Fields(a, sep), Fields(b, sep));
  }

  lemma SplitOfClean(w: string, sep: char)
    requires sep !in w
    ensures Split(w, sep) == if w == "" then [] else [w]
  {
    FieldsOfClean(w, sep);
    assert NonEmpty([w]) == NonEmpty([w][..0]) + if w == "" then [] else [w];
  }

  /** A leading separator, and a trailing one, make no piece. */
  lemma SplitTrims(s: string, sep: char)
    ensures Split([sep] + s, sep) == Split(s, sep) && Split(s + [sep], sep) == Split(s, sep)
  {
    SplitOfClean("", sep);
    SplitConcat("", sep, s);
    SplitConcat(s, sep, "");
    assert "" + [sep] + s == [sep] + s && s + [sep] + "" == s + [sep];
  }

  lemma {:induction false} NonEmptyOnly(fs: seq<string>, k: int)
    requires 0 <= k < |NonEmpty(fs)|
    ensures NonEmpty(fs)[k] in fs && NonEmpty(fs)[k] != ""
  {
    if k < |NonEmpty(fs[..|fs| - 1])| {
      NonEmptyOnly(fs[..|fs| - 1], k);
    }
  }

  /** Pieces are not empty and hold no separator, nor any character the string does not. */
  lemma SplitProper(s: string, sep: char, k: int)
    requires 0 <= k < |Split(s, sep)| && NUL !in s
    ensures Proper(Split(s, sep)[k], sep)
  {
    FieldsDelimit(s, sep);
    var fs := Fields(s, sep);
    NonEmptyOnly(fs, k);
    var j :| 0 <= j < |fs| && fs[j] == Split(s, sep)[k];
    DelimitedHolds(fs, sep, j);
  }

  lemma {:induction false} DelimitedHolds(fs: seq<string>, sep: char, j: int)
    requires 0 <= j < |fs|
    ensures forall c :: c in fs[j] ==> c in Delimited(fs, sep)
  {
    if |fs| > 1 && j < |fs| - 1 { DelimitedHolds(fs[..|fs| - 1], sep, j); }
  }

  /** No piece at all means nothing but separators. */
  lemma {:induction false} SplitEmpty(s: string, sep: char)
    ensures Split(s, sep) == [] <==> forall i :: 0 <= i < |s| ==> s[i] == sep
  {
    if s == "" {
      SplitOfClean(s, sep);
    } else {
      var front, c := s[..|s| - 1], s[|s| - 1];
      assert s == front + [c];
      if c == sep {
        SplitTrims(front, sep);
        SplitEmpty(front, sep);
      } else {
        FieldsStep(front, sep, c);
      }
    }
  }

  // ----- putting together -----

  /** Every piece with a separator before it. */
  ghost function Run(pieces: seq<string>, slash: char): (s: string)
    ensures pieces != [] ==> |s| > 0 && s[0] == slash
  {
    if pieces == [] then ""
    else Run(pieces[..|pieces| - 1], slash) + [slash] + Terminated(pieces[|pieces| - 1])
  }

  /** The pieces with separators between them, and one before them if the rules say so. */
  ghost function Body(pieces: seq<string>, rule: Rules): string {
    if pieces == [] then "" else if rule.before then Run(pieces, rule.slash) else Run(pieces, rule.slash)[1..]
  }

  /** The packed path; a separator is put after it only if there is something to put it after. */
  ghost function Joined(pieces: seq<string>, rule: Rules): string {
    var body := Body(pieces, rule);
    body + if rule.after && body != "" then [rule.slash] else ""
  }

  /** A packed path is a lonely separator exactly if the rules put nothing after it and it is made of one empty piece
      with a separator before it, of two empty pieces without, or of one piece that is itself a separator. */
  lemma LonelyExactly(pieces: seq<string>, rule: Rules)
    ensures Joined(pieces, rule) == [rule.slash] <==>
      !rule.after && LonelyPieces(pieces, rule)
  {
    if pieces != [] {
      var n := |pieces| - 1;
      var front := pieces[..n];
      RunLast(pieces, rule.slash);
      if n > 0 { RunLast(front, rule.slash); }
      if n > 1 { RunLast(front[..n - 1], rule.slash); }
    }
  }

  ghost predicate LonelyPieces(pieces: seq<string>, rule: Rules) {
    || (|pieces| == 1 && Terminated(pieces[0]) == if rule.before then "" else [rule.slash])
    || (|pieces| == 2 && !rule.before && Terminated(pieces[0]) == "" && Terminated(pieces[1]) == "")
  }

  lemma RunLast(pieces: seq<string>, slash: char)
    requires pieces != []
    ensures var n := |pieces| - 1;
      Run(pieces, slash) == Run(pieces[..n], slash) + [slash] + Terminated(pieces[n])
  {
  }

  /** Against the promise, these are lonely separators. */
  lemma LonelySeparators()
    ensures Joined([""], Rules('/', false, true)) == "/" && Joined(["", ""], Rules('/', false, false)) == "/"
  {
    LonelyExactly([""], Rules('/', false, true));
    LonelyExactly(["", ""], Rules('/', false, false));
  }

  /** The length that is reckoned beforehand. */
  ghost function Needed(pieces: seq<string>, rule: Rules): nat {
    if pieces == [] then 0 else |Body(pieces, rule)| + if rule.after then 1 else 0
  }

  /** The reckoning is exact but for a single empty piece with a separator only after it: one too many then. */
  lemma NeededExactly(pieces: seq<string>, rule: Rules)
    ensures |Joined(pieces, rule)| <= Needed(pieces, rule) <= |Joined(pieces, rule)| + 1
    ensures Needed(pieces, rule) == |Joined(pieces, rule)|
        <==> !(|pieces| == 1 && Terminated(pieces[0]) == "" && rule.after && !rule.before)
  {
    if pieces != [] {
      var n := |pieces| - 1;
      assert Run(pieces, rule.slash) == Run(pieces[..n], rule.slash) + [rule.slash] + Terminated(pieces[n]);
    }
  }

  /** What parsing makes of a packed path: whether it begins with a separator, and whether another ends it. */
  ghost function ParsedRules(s: string, sep: char): Rules {
    Rules(sep, |s| > 1 && s[|s| - 1] == sep, s != "" && s[0] == sep)
  }

  /** Likewise for the incremental scanner. */
  ghost function ChunkedRules(s: string, sep: char): Rules {
    Rules(sep, Split(s, sep) != [] && s != "" && s[|s| - 1] == sep, s != "" && s[0] == sep)
  }

  /** The two scanners report the same rules except for two or more separators on their own. */
  lemma RulesAgreeExactly(s: string, sep: char)
    ensures ParsedRules(s, sep) == ChunkedRules(s, sep) <==> Split(s, sep) != [] || |s| <= 1
  {
    hide Split;
    SplitEmpty(s, sep);
    if |s| == 1 && s[0] != sep { assert Split(s, sep) != []; }
  }

  function Repeated(sep: char, n: nat): (s: string)
    ensures |s| == n && forall i :: 0 <= i < n ==> s[i] == sep
  {
    seq(n, i => sep)
  }

  /** Around anything else, separators in front and behind are what both scanners report, */
  lemma RulesAround(a: nat, core: string, b: nat, sep: char)
    requires core != "" && core[0] != sep && core[|core| - 1] != sep
    ensures var s := Repeated(sep, a) + core + Repeated(sep, b);
      ParsedRules(s, sep) == ChunkedRules(s, sep) == Rules(sep, b > 0, a > 0)
  {
    hide Split;
    var s := Repeated(sep, a) + core + Repeated(sep, b);
    assert s[a] == core[0];
    assert s[0] == if a > 0 then sep else core[0];
    assert s[|s| - 1] == if b > 0 then sep else core[|core| - 1];
    SplitEmpty(s, sep);
  }

  /** and on their own they lead; the one scanner says of two or more that they trail too. */
  lemma RulesAlone(a: nat, sep: char)
    ensures ParsedRules(Repeated(sep, a), sep) == Rules(sep, a > 1, a > 0)
    ensures ChunkedRules(Repeated(sep, a), sep) == Rules(sep, false, a > 0)
  {
    hide Split;
    SplitEmpty(Repeated(sep, a), sep);
  }

  /** Two separators and nothing else: the one scanner reports a trailing separator, the other does not. */
  lemma TwoSeparatorsDiffer()
    ensures ParsedRules("//", '/') == Rules('/', true, true) && ChunkedRules("//", '/') == Rules('/', false, true)
  {
    hide Split;
    SplitEmpty("//", '/');
  }

  /** A single empty piece with a trailing separator packs to nothing, and one character is reckoned for it. */
  lemma EmptyPieceNeedsNothing()
    ensures Joined([""], Rules('/', true, false)) == "" && Needed([""], Rules('/', true, false)) == 1
  {
    assert Run([""], '/') == Run([""][..0], '/') + "/" + Terminated("");
  }

  lemma {:induction false} SplitRun(pieces: seq<string>, slash: char)
    requires forall k :: 0 <= k < |pieces| ==> Proper(pieces[k], slash)
    ensures Split(Run(pieces, slash), slash) == pieces
  {
    hide Split;
    if pieces == [] {
      SplitOfClean("", slash);
    } else {
      var n := |pieces| - 1;
      SplitRun(pieces[..n], slash);
      assert pieces == pieces[..n] + [pieces[n]];
      SplitConcat(Run(pieces[..n], slash), slash, pieces[n]);
      SplitOfClean(pieces[n], slash);
    }
  }

  lemma SplitJoined(pieces: seq<string>, rule: Rules)
    requires forall k :: 0 <= k < |pieces| ==> Proper(pieces[k], rule.slash)
    ensures Split(Joined(pieces, rule), rule.slash) == pieces
  {
    hide Split;
    if pieces == [] {
      SplitOfClean("", rule.slash);
      assert Joined(pieces, rule) == "";
    } else {
      var run, sep := Run(pieces, rule.slash), rule.slash;
      SplitRun(pieces, sep);
      SplitTrims(run[1..], sep);
      assert run == [sep] + run[1..];
      var body := Body(pieces, rule);
      SplitTrims(body, sep);
      assert body + "" == body;
    }
  }

  /** The ends of a packed path tell the rules. */
  lemma JoinedEnds(pieces: seq<string>, rule: Rules)
    requires pieces != [] && forall k :: 0 <= k < |pieces| ==> Proper(pieces[k], rule.slash)
    ensures ParsedRules(Joined(pieces, rule), rule.slash) == rule
  {
    var n, sep := |pieces| - 1, rule.slash;
    var run, w := Run(pieces, sep), pieces[n];
    assert w == Terminated(w);
    assert run == Run(pieces[..n], sep) + [sep] + w;
    assert run[|run| - 1] == w[|w| - 1] != sep;
    RunStarts(pieces, sep);
  }

  lemma {:induction false} RunStarts(pieces: seq<string>, sep: char)
    requires pieces != [] && forall k :: 0 <= k < |pieces| ==> Proper(pieces[k], sep)
    ensures pieces[0] != "" && |Run(pieces, sep)| >= 2 && Run(pieces, sep)[1] == pieces[0][0]
  {
    var n := |pieces| - 1;
    assert Proper(pieces[0], sep);
    if n > 0 {
      RunStarts(pieces[..n], sep);
    } else {
      assert pieces[..n] == [];
    }
  }

  // ----- round trips -----

  lemma {:induction false} RunClean(pieces: seq<string>, slash: char)
    requires slash != NUL
    ensures NUL !in Run(pieces, slash)
  {
    if pieces != [] { RunClean(pieces[..|pieces| - 1], slash); }
  }

  lemma JoinedClean(pieces: seq<string>, rule: Rules)
    requires rule.slash != NUL
    ensures NUL !in Joined(pieces, rule)
  {
    RunClean(pieces, rule.slash);
  }

  /** What it takes for a list of pieces to survive being packed: every piece is proper, an empty list asks for no
      separators, and if the separator is NUL there is nothing to separate. */
  ghost predicate Packable(pieces: seq<string>, rule: Rules) {
    && (forall k :: 0 <= k < |pieces| ==> Proper(pieces[k], rule.slash))
    && (pieces == [] ==> !rule.after && !rule.before)
    && (rule.slash == NUL ==> |pieces| <= 1 && !rule.after && !rule.before)
  }

  lemma PackableSurvives(pieces: seq<string>, rule: Rules)
    requires Packable(pieces, rule)
    ensures var text := Terminated(Joined(pieces, rule));
      Split(text, rule.slash) == pieces && ParsedRules(text, rule.slash) == rule
  {
    hide Split;
    SplitOfClean("", rule.slash);
    if pieces == [] {
      assert Joined(pieces, rule) == "";
    } else if rule.slash == NUL {
      assert Run(pieces, rule.slash) == Run(pieces[..0], rule.slash) + [NUL] + Terminated(pieces[0]);
      assert Joined(pieces, rule) == pieces[0];
      SplitOfClean(pieces[0], NUL);
    } else {
      JoinedClean(pieces, rule);
      SplitJoined(pieces, rule);
      JoinedEnds(pieces, rule);
    }
  }

  /** Packing and then parsing gives back the pieces and the rules exactly if they are packable. */
  lemma RoundTripsExactly(pieces: seq<string>, rule: Rules)
    ensures var text := Terminated(Joined(pieces, rule));
      (Split(text, rule.slash) == pieces && ParsedRules(text, rule.slash) == rule) <==> Packable(pieces, rule)
  {
    hide Split;
    var text := Terminated(Joined(pieces, rule));
    if Packable(pieces, rule) {
      PackableSurvives(pieces, rule);
    } else if Split(text, rule.slash) == pieces {
      forall k | 0 <= k < |pieces| ensures Proper(pieces[k], rule.slash) { SplitProper(text, rule.slash, k); }
      if rule.slash == NUL { SplitOfClean(text, NUL); }
    }
  }

  /** A path parsed and packed again with what the parser reported. */
  ghost function Repacked(packed: string, sep: char): string {
    var text := Terminated(packed);
    Terminated(Joined(Split(text, sep), ParsedRules(text, sep)))
  }

  /** Packing a parsed path keeps its pieces, and doing it again changes nothing. */
  lemma RepackedOnce(packed: string, sep: char)
    ensures Split(Repacked(packed, sep), sep) == Split(Terminated(packed), sep)
    ensures Repacked(Repacked(packed, sep), sep) == Repacked(packed, sep)
  {
    hide Split;
    var text := Terminated(packed);
    var pieces, rule := Split(text, sep), ParsedRules(text, sep);
    SplitOfClean("", sep);
    assert ParsedRules("", sep) == Rules(sep, false, false);
    if pieces == [] {
      assert Repacked(packed, sep) == "" && Terminated("") == "";
      assert Joined([], ParsedRules("", sep)) == "";
    } else {
      forall k | 0 <= k < |pieces| ensures Proper(pieces[k], sep) { SplitProper(text, sep, k); }
      if sep == NUL { SplitOfClean(text, sep); }
      PackableSurvives(pieces, rule);
      assert Terminated(Repacked(packed, sep)) == Repacked(packed, sep);
    }
  }
}
