/** Reading back what the formatters write: a file-level event written by
    `formatCommonLine` is parsed back, by either dialect's parser, as the same
    event, and the lines after it are left as they were. */
module RoundTrip {
  import opened Wrappers
  import opened Text
  import opened Events
  import opened Patterns
  import opened Parser
  import opened Formatter

  /** Text and a line feed make one line. */
  lemma TextLine(p: string, x: string)
    requires '\n' !in p && '\n' !in x
    ensures IsLine(p + x + "\n")
  {
    LineCons(p + x, "\n");
  }

  lemma NotHunkHeader(s: string)
    requires |s| > 0 && s[0] != '@'
    ensures !IsHunkHeaderLine(s)
  {
    if |s| >= 2 {
      assert s[..2][0] == s[0];
    }
  }

  /** A line that begins with none of `@`, `-`, `s`, `r` nor a body prefix
      gets past the first five tests of the classifier. */
  lemma EarlyTestsFail(s: string, mode: Mode)
    requires |s| > 0 && s[0] !in "@-sr" && s[0] !in BodyPrefixes(mode)
    ensures !IsHunkHeaderLine(s)
    ensures MatchTagged(s, "--- ").None?
    ensures MatchSimilarity(s).None?
    ensures MatchTagged(s, "rename from ").None?
    ensures !LooksLikeBody(s, BodyPrefixes(mode))
  {
    NotHunkHeader(s);
    LiteralMismatch(s, "--- ", 0);
    LiteralMismatch(s, "similarity index ", 0);
    LiteralMismatch(s, "rename from ", 0);
  }

  /** A line that does not begin with `index ` is no `index` line. */
  lemma NotIndexLine(s: string)
    requires |s| > 0 && s[0] != 'i'
    ensures MatchIndexWithMode(s).None? && MatchIndex(s).None?
  {
    LiteralMismatch(s, "index ", 0);
  }

  lemma ClassifyLabels(l: string, mode: Mode)
    requires '\r' !in l
    ensures Classify("--- " + l + "\n", mode) == LabelsStart(l)
  {
    NotHunkHeader("--- " + l + "\n");
    TaggedOf("--- ", l);
  }

  lemma ClassifySimilarity(x: string, mode: Mode)
    requires |x| >= 2 && x[|x| - 1] == '%' && All(x[..|x| - 1], Digit)
    ensures Classify("similarity index " + x + "\n", mode) == FileLine(SimilarityIndex(x))
  {
    var s := "similarity index " + x + "\n";
    NotHunkHeader(s);
    LiteralMismatch(s, "--- ", 0);
    SimilarityOf(x);
  }

  lemma ClassifyRename(l: string, mode: Mode)
    requires '\r' !in l
    ensures Classify("rename from " + l + "\n", mode) == RenameStart(l)
  {
    var s := "rename from " + l + "\n";
    NotHunkHeader(s);
    LiteralMismatch(s, "--- ", 0);
    LiteralMismatch(s, "similarity index ", 0);
    TaggedOf("rename from ", l);
  }

  lemma ClassifyIndexWithMode(l: string, r: string, m: string, mode: Mode)
    requires |l| >= 7 && All(l, Hex) && |r| >= 7 && All(r, Hex)
    requires |m| == 6 && All(m, Octal)
    ensures Classify("index " + l + ".." + r + " " + m + "\n", mode) == FileLine(Index(l, r, Some(m)))
  {
    EarlyTestsFail("index " + l + ".." + r + " " + m + "\n", mode);
    IndexWithModeOf(l, r, m);
  }

  lemma ClassifyIndex(l: string, r: string, mode: Mode)
    requires |l| >= 7 && All(l, Hex) && |r| >= 7 && All(r, Hex)
    ensures Classify("index " + l + ".." + r + "\n", mode) == FileLine(Index(l, r, None))
  {
    EarlyTestsFail("index " + l + ".." + r + "\n", mode);
    IndexOf(l, r);
  }

  lemma ClassifyNewFileMode(m: string, mode: Mode)
    requires '\r' !in m
    ensures Classify("new file mode " + m + "\n", mode) == FileLine(FileMode(Right, m))
  {
    var s := "new file mode " + m + "\n";
    EarlyTestsFail(s, mode);
    NotIndexLine(s);
    TaggedOf("new file mode ", m);
  }

  lemma ClassifyDeletedFileMode(m: string, mode: Mode)
    requires '\r' !in m
    ensures Classify("deleted file mode " + m + "\n", mode) == FileLine(FileMode(Left, m))
  {
    var s := "deleted file mode " + m + "\n";
    EarlyTestsFail(s, mode);
    NotIndexLine(s);
    LiteralMismatch(s, "new file mode ", 0);
    TaggedOf("deleted file mode ", m);
  }

  lemma ClassifyDiffTitle(a: string, b: string, mode: Mode)
    requires |a| > 0 && ' ' !in a && |b| > 0 && ' ' !in b && '\r' !in b
    ensures Classify("diff --git " + a + " " + b + "\n", mode) == FileLine(DiffTitle(a, b))
  {
    var s := "diff --git " + a + " " + b + "\n";
    EarlyTestsFail(s, mode);
    NotIndexLine(s);
    LiteralMismatch(s, "new file mode ", 0);
    LiteralMismatch(s, "deleted file mode ", 1);
    DiffTitleOf(a, b);
  }

  /** A one-line file event read back from the front of a text. */
  lemma OneLineProduction(line: string, tail: string, e: Event, mode: Mode)
    requires IsLine(line) && Classify(line, mode) == FileLine(e)
    ensures Production(Lines(line + tail), mode) == Ok(([e], Lines(tail)))
  {
    LinesOfConcat(line, tail);
  }

  lemma LinesOfTwo(first: string, second: string, tail: string)
    requires IsLine(first) && IsLine(second)
    ensures Lines(first + (second + tail)) == [first, second] + Lines(tail)
  {
    LinesOfConcat(first, second + tail);
    LinesOfConcat(second, tail);
  }

  lemma TwoLines(first: string, second: string, rest: seq<string>)
    ensures var lines := [first, second] + rest;
      |lines| >= 2 && lines[0] == first && lines[1..] == [second] + rest && lines[1..][0] == second && lines[2..] == rest
  {
  }

  /** A `---` line followed by a `+++` line is read back as one labels event. */
  lemma LabelsProduction(first: string, second: string, rest: seq<string>, mode: Mode, left: string, right: string)
    requires Classify(first, mode) == LabelsStart(left) && MatchTagged(second, "+++ ") == Some(right)
    ensures Production([first, second] + rest, mode) == Ok(([Labels(left, right)], rest))
  {
    TwoLines(first, second, rest);
    assert SecondLine(([first, second] + rest)[1..], "+++ ", ExpectedPlusLine) == Ok(right);
  }

  /** A `rename from` line followed by a `rename to` line is read back as one
      rename event. */
  lemma RenameProduction(first: string, second: string, rest: seq<string>, mode: Mode, left: string, right: string)
    requires Classify(first, mode) == RenameStart(left) && MatchTagged(second, "rename to ") == Some(right)
    ensures Production([first, second] + rest, mode) == Ok(([Rename(left, right)], rest))
  {
    TwoLines(first, second, rest);
    assert SecondLine(([first, second] + rest)[1..], "rename to ", ExpectedRenameTo) == Ok(right);
  }

  lemma LabelsText(l: string, r: string, tail: string)
    ensures CommonLine(Labels(l, r)).Ok?
    ensures CommonLine(Labels(l, r)).value + tail == ("--- " + l + "\n") + (("+++ " + r + "\n") + tail)
  {
    var first := "--- " + l + "\n";
    var second := "+++ " + r + "\n";
    assert CommonLine(Labels(l, r)).value == first + second;
  }

  lemma LabelsRoundTrip(l: string, r: string, tail: string, mode: Mode)
    requires Canonical(Labels(l, r))
    ensures CommonLine(Labels(l, r)).Ok?
    ensures Production(Lines(CommonLine(Labels(l, r)).value + tail), mode) == Ok(([Labels(l, r)], Lines(tail)))
  {
    var first := "--- " + l + "\n";
    var second := "+++ " + r + "\n";
    TextLine("--- ", l);
    TextLine("+++ ", r);
    ClassifyLabels(l, mode);
    TaggedOf("+++ ", r);
    LabelsText(l, r, tail);
    LinesOfTwo(first, second, tail);
    LabelsProduction(first, second, Lines(tail), mode, l, r);
  }

  lemma RenameText(l: string, r: string, tail: string)
    ensures CommonLine(Rename(l, r)).Ok?
    ensures CommonLine(Rename(l, r)).value + tail == ("rename from " + l + "\n") + (("rename to " + r + "\n") + tail)
  {
    var first := "rename from " + l + "\n";
    var second := "rename to " + r + "\n";
    assert CommonLine(Rename(l, r)).value == first + second;
  }

  lemma RenameRoundTrip(l: string, r: string, tail: string, mode: Mode)
    requires Canonical(Rename(l, r))
    ensures CommonLine(Rename(l, r)).Ok?
    ensures Production(Lines(CommonLine(Rename(l, r)).value + tail), mode) == Ok(([Rename(l, r)], Lines(tail)))
  {
    var first := "rename from " + l + "\n";
    var second := "rename to " + r + "\n";
    TextLine("rename from ", l);
    TextLine("rename to ", r);
    ClassifyRename(l, mode);
    TaggedOf("rename to ", r);
    RenameText(l, r, tail);
    LinesOfTwo(first, second, tail);
    RenameProduction(first, second, Lines(tail), mode, l, r);
  }

  lemma DiffTitleRoundTrip(a: string, b: string, tail: string, mode: Mode)
    requires Canonical(DiffTitle(a, b))
    ensures CommonLine(DiffTitle(a, b)).Ok?
    ensures Production(Lines(CommonLine(DiffTitle(a, b)).value + tail), mode) == Ok(([DiffTitle(a, b)], Lines(tail)))
  {
    TextLine("diff --git " + a + " ", b);
    ClassifyDiffTitle(a, b, mode);
    OneLineProduction("diff --git " + a + " " + b + "\n", tail, DiffTitle(a, b), mode);
  }

  lemma IndexRoundTrip(l: string, r: string, m: Option<string>, tail: string, mode: Mode)
    requires Canonical(Index(l, r, m))
    ensures CommonLine(Index(l, r, m)).Ok?
    ensures Production(Lines(CommonLine(Index(l, r, m)).value + tail), mode) == Ok(([Index(l, r, m)], Lines(tail)))
  {
    assert '\n' !in l && '\n' !in r;
    if m.Some? {
      assert '\n' !in m.value;
      TextLine("index " + l + ".." + r + " ", m.value);
      ClassifyIndexWithMode(l, r, m.value, mode);
      OneLineProduction("index " + l + ".." + r + " " + m.value + "\n", tail, Index(l, r, m), mode);
    } else {
      TextLine("index " + l + "..", r);
      ClassifyIndex(l, r, mode);
      OneLineProduction("index " + l + ".." + r + "\n", tail, Index(l, r, m), mode);
    }
  }

  lemma SimilarityRoundTrip(x: string, tail: string, mode: Mode)
    requires Canonical(SimilarityIndex(x))
    ensures CommonLine(SimilarityIndex(x)).Ok?
    ensures Production(Lines(CommonLine(SimilarityIndex(x)).value + tail), mode) == Ok(([SimilarityIndex(x)], Lines(tail)))
  {
    forall i | 0 <= i < |x|
      ensures x[i] != '\n'
    {
      if i < |x| - 1 {
        assert x[..|x| - 1][i] == x[i];
      }
    }
    TextLine("similarity index ", x);
    ClassifySimilarity(x, mode);
    OneLineProduction("similarity index " + x + "\n", tail, SimilarityIndex(x), mode);
  }

  lemma FileModeLine(side: Side, m: string)
    ensures CommonLine(FileMode(side, m))
         == Ok((if side == Left then "deleted file mode " else "new file mode ") + m + "\n")
  {
    assert "deleted" + " file mode " == "deleted file mode ";
    assert "new" + " file mode " == "new file mode ";
  }

  lemma FileModeRoundTrip(side: Side, m: string, tail: string, mode: Mode)
    requires Canonical(FileMode(side, m))
    ensures CommonLine(FileMode(side, m)).Ok?
    ensures Production(Lines(CommonLine(FileMode(side, m)).value + tail), mode) == Ok(([FileMode(side, m)], Lines(tail)))
  {
    FileModeLine(side, m);
    var p := if side == Left then "deleted file mode " else "new file mode ";
    TextLine(p, m);
    if side == Left {
      ClassifyDeletedFileMode(m, mode);
    } else {
      ClassifyNewFileMode(m, mode);
    }
    OneLineProduction(p + m + "\n", tail, FileMode(side, m), mode);
  }

  /** `formatCommonLine` and the parser are inverse on file-level events:
      the lines written for a canonical event are read back, in either
      dialect, as that event, followed by whatever came after them. */
  lemma FileEventRoundTrip(e: Event, tail: string, mode: Mode)
    requires IsFileEvent(e) && Canonical(e)
    ensures CommonLine(e).Ok?
    ensures Production(Lines(CommonLine(e).value + tail), mode) == Ok(([e], Lines(tail)))
  {
    match e
    case DiffTitle(a, b) => DiffTitleRoundTrip(a, b, tail, mode);
    case Index(l, r, m) => IndexRoundTrip(l, r, m, tail, mode);
    case SimilarityIndex(x) => SimilarityRoundTrip(x, tail, mode);
    case FileMode(side, m) => FileModeRoundTrip(side, m, tail, mode);
    case Labels(l, r) => LabelsRoundTrip(l, r, tail, mode);
    case Rename(l, r) => RenameRoundTrip(l, r, tail, mode);
  }
}
