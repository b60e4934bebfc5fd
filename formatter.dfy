/** `formatCommonLine`, `formatUnifiedDiff` and `formatHintfulDiff`: events
    become the text of a unified or a hintful diff. The program yields the
    text piece by piece; here each event's text is one string and a stream's
    text is their concatenation. */
module Formatter {
  import opened Wrappers
  import opened Text
  import opened Events
  import opened Patterns
  import opened LineGlue
  import opened Parser

  // ---- file-level events -----------------------------------------------------

  /** `formatCommonLine`: the lines of a file-level event; `endhunk` has none,
      and any other operation cannot be written. */
  function CommonLine(e: Event): (r: Result<string>)
    ensures r.Ok? <==> IsFileEvent(e) || e.EndHunk?
    ensures r.Ok? ==> (r.value == "" <==> e.EndHunk?)
  {
    match e
    case EndHunk => Ok("")
    case Labels(left, right) => Ok("--- " + left + "\n" + "+++ " + right + "\n")
    case DiffTitle(leftFile, rightFile) => Ok("diff --git " + leftFile + " " + rightFile + "\n")
    case Index(left, right, mode) =>
      if mode.Some? then Ok("index " + left + ".." + right + " " + mode.value + "\n")
      else Ok("index " + left + ".." + right + "\n")
    case FileMode(side, mode) => Ok((if side == Left then "deleted" else "new") + " file mode " + mode + "\n")
    case SimilarityIndex(similarity) => Ok("similarity index " + similarity + "\n")
    case Rename(left, right) => Ok("rename from " + left + "\n" + "rename to " + right + "\n")
    case _ => Fail(CannotProcess)
  }

  /** The fields of a file-level event have the shapes the parser gives them,
      so that its lines read back as the same event. */
  predicate Canonical(e: Event)
  {
    match e
    case DiffTitle(a, b) =>
      |a| > 0 && ' ' !in a && '\n' !in a && |b| > 0 && ' ' !in b && '\r' !in b && '\n' !in b
    case Index(l, r, mode) =>
      |l| >= 7 && All(l, Hex) && |r| >= 7 && All(r, Hex) && (mode.Some? ==> |mode.value| == 6 && All(mode.value, Octal))
    case Labels(l, r) => '\r' !in l && '\n' !in l && '\r' !in r && '\n' !in r
    case SimilarityIndex(s) => |s| >= 2 && s[|s| - 1] == '%' && All(s[..|s| - 1], Digit)
    case Rename(l, r) => '\r' !in l && '\n' !in l && '\r' !in r && '\n' !in r
    case FileMode(_, m) => '\r' !in m && '\n' !in m
    case _ => false
  }

  // ---- hunk headers ----------------------------------------------------------

  /** The groups a header line was read from, as a `beginhunk` keeps them. */
  function GroupsOf(h: HunkHeader): HeaderGroups
  {
    HeaderGroups(h.leftStartRaw, h.leftCountRaw, h.hunkLineCountRaw, h.rightStartRaw, h.rightCountRaw, h.comment)
  }

  /** A `beginhunk` whose numbers are what its raw groups say. */
  predicate FromGroups(h: HunkHeader)
  {
    WellFormedGroups(GroupsOf(h)) && MakeHeader(GroupsOf(h)) == h
  }

  /** The header line written from the groups: the pieces the program
      yields, in order. */
  function HeaderLine(g: HeaderGroups): string
  {
    "@@ -" + (g.leftStart + (CountText(g.leftCount) + (LineCountText(g.lineCount)
      + (" +" + (g.rightStart + (CountText(g.rightCount) + (" @@" + (g.comment + "\n"))))))))
  }

  /** The `(N)` part of a hintful header. */
  function LineCountText(lineCount: Option<string>): string
  {
    if lineCount.Some? then " (" + lineCount.value + ")" else ""
  }

  /** The unified header never writes a hunk line count. */
  function UnifiedHeaderText(h: HunkHeader): string
  {
    HeaderLine(GroupsOf(h).(lineCount := None))
  }

  /** A hintful header needs the raw hunk line count; without it the program
      fails writing the absent value. */
  function HintfulHeaderText(h: HunkHeader): (r: Result<string>)
    ensures r.Fail? <==> h.hunkLineCountRaw.None?
  {
    if h.hunkLineCountRaw.None? then Fail(MissingLineCount)
    else Ok(HeaderLine(GroupsOf(h)))
  }

  // ---- unified body lines ----------------------------------------------------

  const NoNewlineMarker := "\\ No newline at end of file\n"

  /** The unified prefix of a content kind; ignored content has none, and the
      program fails looking it up. */
  function UnifiedPrefix(k: Kind): (r: Result<char>)
    ensures r.Fail? <==> k == IgnoreContent
    ensures r.Ok? ==> r.value in "-+ " && KindOfPrefix(r.value) == (if k == BothLowPriorityContent then BothContent else k)
  {
    match k
    case LeftContent => Ok('-')
    case RightContent => Ok('+')
    case BothContent => Ok(' ')
    case BothLowPriorityContent => Ok(' ')
    case IgnoreContent => Fail(CannotProcess)
  }

  function UnifiedContentText(k: Kind, content: string): Result<string>
  {
    var p :- UnifiedPrefix(k);
    if EndsWithNewline(content) then Ok([p] + content)
    else Ok([p] + content + "\n" + NoNewlineMarker)
  }

  /** The text `formatUnifiedDiff` writes for one event. */
  function UnifiedEventText(e: Event): Result<string>
  {
    match e
    case BeginHunk(h) => Ok(UnifiedHeaderText(h))
    case Content(k, content) => UnifiedContentText(k, content)
    case _ => CommonLine(e)
  }

  /** `formatUnifiedDiff`: the text of every event in order. */
  function FormatUnified(es: seq<Event>): Result<string>
  {
    if |es| == 0 then Ok("")
    else
      var t :- UnifiedEventText(es[0]);
      Prepend(t, FormatUnified(es[1..]))
  }

  // ---- hintful body lines ----------------------------------------------------

  function HintfulPrefix(k: Kind): (c: char)
    ensures c in "-+ _#" && KindOfPrefix(c) == k
  {
    match k
    case LeftContent => '-'
    case RightContent => '+'
    case BothContent => ' '
    case BothLowPriorityContent => '_'
    case IgnoreContent => '#'
  }

  /** `^(.*[^\r])?(\r*\n)$` on content that ends in a line feed: the text
      before the `$` marker, and the run of carriage returns and the line feed
      after it. Where the content has an earlier line feed, the first group
      can only end at that line feed, and the pattern matches the whole
      content only if what follows is carriage returns and the final line
      feed. If what follows is carriage returns and two line feeds, `$`
      matches before the last one and the match covers only a prefix;
      anything else does not match. */
  function SplitNewlineRun(content: string): (r: Result<(string, string)>)
    requires EndsWithNewline(content)
    ensures r.Ok? ==> content == r.value.0 + r.value.1
    ensures r.Fail? ==> r.error == PartialMatch || r.error == UnformattableContent
  {
    var k := NewlineIndex(content);
    if k == |content| - 1 then
      var m := content[..k];
      var n := CrSuffix(m);
      assert content == m[..k - n] + (m[k - n..] + "\n");
      Ok((m[..k - n], m[k - n..] + "\n"))
    else
      var run := content[k + 1..];
      if IsLine(run) && AllCr(run[..|run| - 1]) then
        assert content == content[..k + 1] + run;
        Ok((content[..k + 1], run))
      else if |run| >= 2 && run[|run| - 2..] == "\n\n" && AllCr(run[..|run| - 2]) then
        // the `$` matches before the final line feed: a match of all but it
        Fail(PartialMatch)
      else Fail(UnformattableContent)
  }

  /** What `formatHintfulDiff` writes for content of kind `k`. Content with a
      final line feed goes through the split above; where the pattern does
      not match, the program fails on the missing match, and where it
      matches only a prefix, `m()` stops it. */
  function HintfulContentText(k: Kind, content: string): Result<string>
  {
    if EndsWithNewline(content) then
      var (text, run) :- SplitNewlineRun(content);
      Ok([HintfulPrefix(k)] + text + "$" + run)
    else Ok([HintfulPrefix(k)] + content + "\\\n")
  }

  function SnippetText(s: Side, name: string): string
  {
    [if s == Left then '<' else '>'] + name + "\n"
  }

  /** The text `formatHintfulDiff` writes for one event. */
  function HintfulEventText(e: Event): Result<string>
  {
    match e
    case BeginHunk(h) => HintfulHeaderText(h)
    case Content(k, content) => HintfulContentText(k, content)
    case Snippet(s, name) => Ok(SnippetText(s, name))
    case _ => CommonLine(e)
  }

  /** `formatHintfulDiff`: the text of every event in order. */
  function FormatHintful(es: seq<Event>): Result<string>
  {
    if |es| == 0 then Ok("")
    else
      var t :- HintfulEventText(es[0]);
      Prepend(t, FormatHintful(es[1..]))
  }

  // ---- what is written reads back -------------------------------------------

  /** Content that is one line ending in a line feed splits at its last
      character that is not a carriage return. */
  lemma SplitNewlineRunOf(text: string, cr: string)
    requires '\n' !in text && (text == [] || text[|text| - 1] != '\r') && AllCr(cr)
    ensures SplitNewlineRun(text + cr + "\n") == Ok((text, cr + "\n"))
  {
    var c := text + cr + "\n";
    var m := text + cr;
    assert NewlineIndex(c) == |m| by {
      assert forall i :: 0 <= i < |text| ==> c[i] == text[i];
      assert forall i :: |text| <= i < |m| ==> c[i] == cr[i - |text|];
      assert forall i :: 0 <= i < |m| ==> c[i] != '\n';
      assert c[|m|] == '\n';
    }
    assert c[..|m|] == m;
    CrSuffixOfConcat(text, cr);
    assert m[..|text|] == text && m[|text|..] == cr;
  }

  /** Content whose first line feed is followed by carriage returns and the
      final line feed splits just after that first line feed. */
  lemma SplitNewlineRunInner(text: string, cr: string)
    requires '\n' !in text && AllCr(cr)
    ensures SplitNewlineRun(text + "\n" + cr + "\n") == Ok((text + "\n", cr + "\n"))
  {
    var c := text + "\n" + cr + "\n";
    assert NewlineIndex(c) == |text| by {
      assert forall i :: 0 <= i < |text| ==> c[i] == text[i];
      assert c[|text|] == '\n';
    }
    assert c[|text| + 1..] == cr + "\n";
    assert (cr + "\n")[..|cr|] == cr;
    assert c[..|text| + 1] == text + "\n";
  }

  /** Content whose first line feed is followed by carriage returns and two
      line feeds is matched only up to its last line feed, and `m()` stops
      the program. */
  lemma SplitNewlineRunPartial(text: string, cr: string)
    requires '\n' !in text && AllCr(cr)
    ensures SplitNewlineRun(text + "\n" + cr + "\n\n") == Fail(PartialMatch)
  {
    var c := text + "\n" + cr + "\n\n";
    assert NewlineIndex(c) == |text| by {
      assert forall i :: 0 <= i < |text| ==> c[i] == text[i];
      assert c[|text|] == '\n';
    }
    var run := c[|text| + 1..];
    assert run == cr + "\n\n";
    assert run[|run| - 2] == '\n';
    assert !AllCr(run[..|run| - 1]);
    assert run[|run| - 2..] == "\n\n" && run[..|run| - 2] == cr;
  }

  /** Writing such content in the hintful dialect stops with the partial
      match; content `a` followed by three line feeds is one case. */
  lemma PartialMatchFormatted(k: Kind, text: string, cr: string)
    requires '\n' !in text && AllCr(cr)
    ensures HintfulContentText(k, text + "\n" + cr + "\n\n") == Fail(PartialMatch)
  {
    SplitNewlineRunPartial(text, cr);
  }

  /** A content line written in the hintful dialect is one line, and parses
      back to the same operation and content. */
  lemma HintfulContentRoundTrip(k: Kind, content: string)
    requires NoInnerNewline(content)
    ensures HintfulContentText(k, content).Ok?
    ensures IsLine(HintfulContentText(k, content).value)
    ensures HintfulLine(HintfulContentText(k, content).value) == Ok(Content(k, content))
  {
    if EndsWithNewline(content) {
      TerminatedContentRoundTrip(k, content);
    } else {
      var p := HintfulPrefix(k);
      assert '\n' !in content;
      assert HintfulContentText(k, content).value == [p] + content + ['\\'] + "" + "\n";
      HintfulContentOf(p, content, '\\', "");
      LineCons([p] + content + ['\\'] + "", "\n");
    }
  }

  /** One line of content is its text, a run of carriage returns and the
      line feed, where the text does not end in a carriage return. */
  lemma SplitTerminated(content: string) returns (text: string, cr: string)
    requires NoInnerNewline(content) && EndsWithNewline(content)
    ensures content == text + cr + "\n" && AllCr(cr)
    ensures '\n' !in text && (text == [] || text[|text| - 1] != '\r')
  {
    var m := content[..|content| - 1];
    text := m[..|m| - CrSuffix(m)];
    cr := m[|m| - CrSuffix(m)..];
    assert content == m + "\n";
    assert m == text + cr;
    assert forall i :: 0 <= i < |text| ==> text[i] == content[i];
  }

  /** How content that is one line ending in a line feed is written. */
  lemma HintfulContentTextOf(k: Kind, text: string, cr: string)
    requires '\n' !in text && (text == [] || text[|text| - 1] != '\r') && AllCr(cr)
    ensures HintfulContentText(k, text + cr + "\n") == Ok([HintfulPrefix(k)] + text + ['$'] + cr + "\n")
  {
    SplitNewlineRunOf(text, cr);
    assert [HintfulPrefix(k)] + text + "$" + (cr + "\n") == [HintfulPrefix(k)] + text + ['$'] + cr + "\n";
  }

  lemma TerminatedContentRoundTrip(k: Kind, content: string)
    requires NoInnerNewline(content) && EndsWithNewline(content)
    ensures HintfulContentText(k, content).Ok?
    ensures IsLine(HintfulContentText(k, content).value)
    ensures HintfulLine(HintfulContentText(k, content).value) == Ok(Content(k, content))
  {
    var text, cr := SplitTerminated(content);
    var line := TerminatedContentLine(k, text, cr);
  }

  /** The line written for content ending in a line feed, and what it reads
      back as. */
  lemma TerminatedContentLine(k: Kind, text: string, cr: string) returns (line: string)
    requires '\n' !in text && (text == [] || text[|text| - 1] != '\r') && AllCr(cr)
    ensures HintfulContentText(k, text + cr + "\n") == Ok(line)
    ensures IsLine(line) && HintfulLine(line) == Ok(Content(k, text + cr + "\n"))
  {
    var p := HintfulPrefix(k);
    assert '\n' !in cr;
    LineCons([p] + text + ['$'] + cr, "\n");
    line := [p] + text + ['$'] + cr + "\n";
    HintfulContentTextOf(k, text, cr);
    HintfulLineOf(p, text, '$', cr, line);
  }

  /** Conversely, a hintful content line is written back exactly as it was
      read, unless carriage returns followed a `\` marker (those are dropped
      on reading). */
  lemma HintfulContentLineCanonical(line: string)
    requires HintfulLine(line).Ok? && HintfulLine(line).value.Content?
    requires MatchHintfulContent(line).value.2 == '\\' ==> MatchHintfulContent(line).value.3 == ""
    ensures HintfulEventText(HintfulLine(line).value) == Ok(line)
  {
    var (p, text, marker, cr) := MatchHintfulContent(line).value;
    var e := HintfulLine(line).value;
    assert HintfulPrefix(e.kind) == p by {
      assert p in "-+ _#";
    }
    if marker == '$' {
      assert e.content == text + cr + "\n";
      HintfulContentTextOf(e.kind, text, cr);
    } else {
      assert e.content == text;
      assert line == [p] + text + "\\\n";
    }
  }

  /** A snippet line written in the hintful dialect parses back to the same
      snippet. */
  lemma SnippetRoundTrip(s: Side, name: string)
    requires '\r' !in name && '\n' !in name
    ensures IsLine(SnippetText(s, name))
    ensures HintfulLine(SnippetText(s, name)) == Ok(Snippet(s, name))
  {
    var c := if s == Left then '<' else '>';
    SnippetLineOf(c, name);
    LineCons([c] + name, "\n");
  }

  /** A snippet line is written back exactly as it was read, unless carriage
      returns ended it (those are dropped on reading). */
  lemma SnippetLineCanonical(line: string)
    requires HintfulLine(line).Ok? && HintfulLine(line).value.Snippet?
    requires |line| < 2 || line[|line| - 2] != '\r'
    ensures HintfulEventText(HintfulLine(line).value) == Ok(line)
  {
    var (c, name) := MatchSnippetLine(line).value;
    var cr :| AllCr(cr) && line == [c] + name + cr + "\n";
    assert line == [c] + name + "\n";
  }

  /** The glued line a unified content line is read from. */
  predicate ReadsBackUnified(text: string, k: Kind, content: string)
  {
    var lines := Lines(text);
    && |Glue(lines)| == 1 && (forall j :: 0 <= j < |lines| ==> IsLine(lines[j]))
    && MatchUnifiedBody(Glue(lines)[0]).Some?
    && UnifiedContent(MatchUnifiedBody(Glue(lines)[0]).value)
       == Content(if k == BothLowPriorityContent then BothContent else k, content)
  }

  /** A content line written in the unified dialect, after gluing its
      `\ No newline at end of file` line, is one line that parses back to
      the same content; low-priority content comes back as common content. */
  lemma UnifiedContentRoundTrip(k: Kind, content: string)
    requires NoInnerNewline(content) && k != IgnoreContent
    ensures UnifiedContentText(k, content).Ok?
    ensures ReadsBackUnified(UnifiedContentText(k, content).value, k, content)
  {
    var p := UnifiedPrefix(k).value;
    if EndsWithNewline(content) {
      assert UnifiedContentText(k, content) == Ok([p] + content);
      TerminatedUnifiedLine(k, p, content);
    } else {
      assert '\n' !in content;
      assert UnifiedContentText(k, content) == Ok([p] + content + "\n" + NoNewlineMarker);
      NoNewlineMarkerShape();
      UnterminatedUnifiedLine(k, p, content, NoNewlineMarker);
    }
  }

  lemma TerminatedUnifiedLine(k: Kind, p: char, content: string)
    requires IsLine(content) && k != IgnoreContent && UnifiedPrefix(k) == Ok(p)
    ensures ReadsBackUnified([p] + content, k, content)
  {
    var t := [p] + content;
    LineCons([p], content);
    LinesOfLine(t);
    GlueOne(t);
    UnifiedBodyOf(p, content);
  }

  lemma NoNewlineMarkerShape()
    ensures IsLine(NoNewlineMarker) && IsMarker(NoNewlineMarker)
    ensures |NoNewlineMarker| >= 2 && NoNewlineMarker[..2] == "\\ " && IsLine(NoNewlineMarker[2..])
  {
    var text := "No newline at end of file\n";
    assert '\n' !in "No newline at end of file";
    LineCons("No newline at end of file", "\n");
    LineCons("\\ ", text);
    assert NoNewlineMarker == "\\ " + text;
    assert NoNewlineMarker[2..] == text;
  }

  lemma UnterminatedUnifiedLine(k: Kind, p: char, content: string, marker: string)
    requires '\n' !in content && k != IgnoreContent && UnifiedPrefix(k) == Ok(p)
    requires IsLine(marker) && IsMarker(marker) && |marker| >= 2 && marker[..2] == "\\ " && IsLine(marker[2..])
    ensures ReadsBackUnified([p] + content + "\n" + marker, k, content)
  {
    var first := [p] + content + "\n";
    var t := first + marker;
    LineCons([p] + content, "\n");
    LinesOfConcat(first, marker);
    LinesOfLine(marker);
    var lines := Lines(t);
    assert lines == [first, marker];
    assert forall j :: 0 <= j < |lines| ==> IsLine(lines[j]);
    GlueMarked(first, marker);
    assert Glue(lines) == [t];
    UnifiedBodyMarkedOf(p, content, marker);
    assert MatchUnifiedBody(Glue(lines)[0]) == Some((p, content));
  }

  /** The header line written from well-formed groups is one line that
      begins a hunk. */
  lemma HeaderLineIsLine(g: HeaderGroups)
    requires WellFormedGroups(g)
    ensures IsHunkHeaderLine(HeaderLine(g))
  {
    NoNewlineInGroups(g);
    var tail := " @@" + (g.comment + "\n");
    LineCons(" @@", g.comment + "\n");
    LineCons(CountText(g.rightCount), tail);
    LineCons(g.rightStart, CountText(g.rightCount) + tail);
    var right := " +" + (g.rightStart + (CountText(g.rightCount) + tail));
    LineCons(" +", g.rightStart + (CountText(g.rightCount) + tail));
    var count := LineCountText(g.lineCount);
    assert '\n' !in count;
    LineCons(count, right);
    LineCons(CountText(g.leftCount), count + right);
    var left := g.leftStart + (CountText(g.leftCount) + (count + right));
    LineCons(g.leftStart, CountText(g.leftCount) + (count + right));
    LineCons(" -", left);
    assert HeaderLine(g) == "@@" + (" -" + left);
    HunkHeaderLineOf(" -" + left);
  }

  lemma LineCountTextOf(hc: string, rest: string)
    ensures LineCountText(Some(hc)) + rest == " (" + (hc + (")" + rest))
  {
  }

  /** The header patterns read back the groups a header line was written
      from. */
  lemma ReadHeaderLine(g: HeaderGroups)
    requires WellFormedGroups(g)
    ensures g.lineCount.None? ==> MatchUnifiedHeader(HeaderLine(g)) == Some(g)
    ensures g.lineCount.Some? ==> MatchHintfulHeader(HeaderLine(g)) == Some(g)
  {
    var right := " +" + (g.rightStart + (CountText(g.rightCount) + (" @@" + (g.comment + "\n"))));
    var middle := LineCountText(g.lineCount) + right;
    LeftRangeOf(g.leftStart, g.leftCount, middle);
    RightRangeOf(g.rightStart, g.rightCount, " @@" + (g.comment + "\n"));
    HeaderTailOf(g.comment);
    if g.lineCount.Some? {
      LineCountTextOf(g.lineCount.value, right);
      LineCountGroupOf(g.lineCount.value, right);
    } else {
      assert middle == right;
    }
  }

  /** A hintful header is written from its raw groups and reads back as the
      same `beginhunk`. */
  lemma HintfulHeaderRoundTrip(h: HunkHeader)
    requires FromGroups(h) && h.hunkLineCountRaw.Some?
    ensures HintfulHeaderText(h).Ok?
    ensures IsHunkHeaderLine(HintfulHeaderText(h).value)
    ensures HintfulHeader(HintfulHeaderText(h).value) == Ok(h)
  {
    HeaderLineIsLine(GroupsOf(h));
    ReadHeaderLine(GroupsOf(h));
  }

  /** A unified header is written from its raw groups and reads back as the
      same `beginhunk`. */
  lemma UnifiedHeaderRoundTrip(h: HunkHeader)
    requires FromGroups(h) && h.hunkLineCountRaw.None?
    ensures IsHunkHeaderLine(UnifiedHeaderText(h))
    ensures UnifiedHeader(UnifiedHeaderText(h)) == Ok(h)
  {
    assert GroupsOf(h).(lineCount := None) == GroupsOf(h);
    HeaderLineIsLine(GroupsOf(h));
    ReadHeaderLine(GroupsOf(h));
  }
}
