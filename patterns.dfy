/** Recognisers for the line shapes the parser matches with regular
    expressions. Each recogniser decides whether the WHOLE line has the shape
    and returns its groups. Python's `$` also matches just before a final line
    feed; that difference only shows on text ending in two line feeds, which no
    line `readline` returns and no glued line is. */
module Patterns {
  import opened Wrappers
  import opened Text

  /** `s` with the literal `p` taken off its front. */
  function Literal(s: string, p: string): (r: Option<string>)
    ensures r.Some? <==> |p| <= |s| && s[..|p|] == p
    ensures r.Some? ==> s == p + r.value
  {
    if |p| <= |s| && s[..|p|] == p then Some(s[|p|..]) else None
  }

  /** ` +`: one or more spaces, as many as there are. */
  function Spaces(s: string): (r: Option<string>)
    ensures r.Some? ==> |r.value| < |s| && (r.value == [] || r.value[0] != ' ')
  {
    var n := Span(s, Space);
    if n == 0 then None else Some(s[n..])
  }

  /** `[0-9]+`: a numeral and what follows it. */
  function Numeral(s: string): (r: Option<(string, string)>)
    ensures r.Some? ==> IsNumeral(r.value.0) && s == r.value.0 + r.value.1
  {
    var n := Span(s, Digit);
    if n == 0 then None else Some((s[..n], s[n..]))
  }

  predicate IsNumeral(s: string)
  {
    |s| > 0 && All(s, Digit)
  }

  /** A `(,[0-9]+)` group: a comma and a numeral. */
  predicate IsCountGroup(g: Option<string>)
  {
    g.Some? ==> |g.value| > 1 && g.value[0] == ',' && All(g.value[1..], Digit)
  }

  /** `(,[0-9]+)?`: a count group if one is there, and what follows. */
  function OptionalCount(s: string): (r: (Option<string>, string))
    ensures IsCountGroup(r.0)
    ensures r.0.None? ==> r.1 == s
    ensures r.0.Some? ==> s == r.0.value + r.1
  {
    if |s| > 0 && s[0] == ',' && Span(s[1..], Digit) > 0 then
      var n := 1 + Span(s[1..], Digit);
      assert s[..n][1..] == s[1..][..n - 1];
      (Some(s[..n]), s[n..])
    else (None, s)
  }

  /** `(.*)\n$`: the text before the only line feed, which ends the line. */
  function LineRest(s: string): (r: Option<string>)
    ensures r.Some? <==> IsLine(s)
    ensures r.Some? ==> s == r.value + "\n" && '\n' !in r.value
  {
    if IsLine(s) then Some(s[..|s| - 1]) else None
  }

  /** `([^\r]*)\r*\n$`: the text before the final carriage returns and line
      feed; it may not contain a carriage return. */
  function CrTerminated(s: string): (r: Option<string>)
    ensures r.Some? ==> '\r' !in r.value
    ensures r.Some? ==> exists cr :: AllCr(cr) && s == r.value + cr + "\n"
  {
    if !EndsWithNewline(s) then None
    else
      var m := s[..|s| - 1];
      var a := m[..|m| - CrSuffix(m)];
      var cr := m[|m| - CrSuffix(m)..];
      assert s == a + cr + "\n";
      if '\r' in a then None else Some(a)
  }

  // ---- lines that begin a hunk ---------------------------------------------

  /** `^@@.*\n$` */
  predicate IsHunkHeaderLine(s: string)
  {
    |s| >= 2 && s[..2] == "@@" && IsLine(s[2..])
  }

  /** The groups of a hunk header line. */
  datatype HeaderGroups = HeaderGroups(
    leftStart: string,
    leftCount: Option<string>,
    lineCount: Option<string>,
    rightStart: string,
    rightCount: Option<string>,
    comment: string)

  predicate WellFormedGroups(g: HeaderGroups)
  {
    && IsNumeral(g.leftStart) && IsCountGroup(g.leftCount)
    && IsNumeral(g.rightStart) && IsCountGroup(g.rightCount)
    && (g.lineCount.Some? ==> IsNumeral(g.lineCount.value))
    && '\n' !in g.comment
  }

  /** `@@ +-([0-9]+)(,[0-9]+)?`: the left start and count, and what follows. */
  function LeftRange(s: string): (r: Option<(string, Option<string>, string)>)
    ensures r.Some? ==> IsNumeral(r.value.0) && IsCountGroup(r.value.1)
  {
    var s1 :- Literal(s, "@@");
    var s2 :- Spaces(s1);
    var s3 :- Literal(s2, "-");
    var ls :- Numeral(s3);
    var lc := OptionalCount(ls.1);
    Some((ls.0, lc.0, lc.1))
  }

  /** ` +\(([0-9]+)\)`: the hunk line count of a hintful header. */
  function LineCountGroup(s: string): (r: Option<(string, string)>)
    ensures r.Some? ==> IsNumeral(r.value.0)
  {
    var s1 :- Spaces(s);
    var s2 :- Literal(s1, "(");
    var hc :- Numeral(s2);
    var s3 :- Literal(hc.1, ")");
    Some((hc.0, s3))
  }

  /** ` +\+([0-9]+)(,[0-9]+)?`: the right start and count, and what follows. */
  function RightRange(s: string): (r: Option<(string, Option<string>, string)>)
    ensures r.Some? ==> IsNumeral(r.value.0) && IsCountGroup(r.value.1)
  {
    var s1 :- Spaces(s);
    var s2 :- Literal(s1, "+");
    var rs :- Numeral(s2);
    var rc := OptionalCount(rs.1);
    Some((rs.0, rc.0, rc.1))
  }

  /** ` +@@(.*)\n$`: the comment that ends a header line. */
  function HeaderTail(s: string): (r: Option<string>)
    ensures r.Some? ==> '\n' !in r.value
  {
    var s1 :- Spaces(s);
    var s2 :- Literal(s1, "@@");
    LineRest(s2)
  }

  /** `^@@ +-([0-9]+)(,[0-9]+)? +\+([0-9]+)(,[0-9]+)? +@@(.*)\n$` */
  function MatchUnifiedHeader(s: string): (r: Option<HeaderGroups>)
    ensures r.Some? ==> WellFormedGroups(r.value) && r.value.lineCount.None?
  {
    var (ls, lc, s1) :- LeftRange(s);
    var (rs, rc, s2) :- RightRange(s1);
    var comment :- HeaderTail(s2);
    Some(HeaderGroups(ls, lc, None, rs, rc, comment))
  }

  /** `^@@ +-([0-9]+)(,[0-9]+)? +\(([0-9]+)\) +\+([0-9]+)(,[0-9]+)? +@@(.*)\n$` */
  function MatchHintfulHeader(s: string): (r: Option<HeaderGroups>)
    ensures r.Some? ==> WellFormedGroups(r.value) && r.value.lineCount.Some?
  {
    var (ls, lc, s1) :- LeftRange(s);
    var (hc, s2) :- LineCountGroup(s1);
    var (rs, rc, s3) :- RightRange(s2);
    var comment :- HeaderTail(s3);
    Some(HeaderGroups(ls, lc, Some(hc), rs, rc, comment))
  }

  // ---- hunk body lines -----------------------------------------------------

  /** `^([-+ ])(.*)\n\\ .*\n$`, else `^([-+ ])(.*\n)$`: a unified body line,
      glued to its `\ No newline` line or not. The content keeps its line feed
      in the second shape and has none in the first. */
  function MatchUnifiedBody(s: string): (r: Option<(char, string)>)
    ensures r.Some? ==> r.value.0 in "-+ " && NoInnerNewline(r.value.1)
    ensures r.Some? ==> exists tail :: s == [r.value.0] + r.value.1 + tail
  {
    if |s| == 0 || s[0] !in "-+ " then None
    else
      var rest := s[1..];
      var k := NewlineIndex(rest);
      if k < |rest| && |rest[k + 1..]| >= 2 && rest[k + 1..][..2] == "\\ " && IsLine(rest[k + 1..][2..]) then
        assert s == [s[0]] + rest[..k] + rest[k..];
        Some((s[0], rest[..k]))
      else if IsLine(rest) then
        assert s == [s[0]] + rest + [];
        Some((s[0], rest))
      else None
  }

  /** `^([-+ _#])(.*)([$\\])(\r*)\n$`: prefix, text, newline marker and the
      carriage returns between the marker and the line feed. */
  function MatchHintfulContent(s: string): (r: Option<(char, string, char, string)>)
    ensures r.Some? ==> r.value.0 in "-+ _#" && r.value.2 in "$\\"
    ensures r.Some? ==> '\n' !in r.value.1 && AllCr(r.value.3)
    ensures r.Some? ==> s == [r.value.0] + r.value.1 + [r.value.2] + r.value.3 + "\n"
  {
    if |s| < 2 || s[0] !in "-+ _#" || !EndsWithNewline(s) then None
    else
      var body := s[1..|s| - 1];
      var n := CrSuffix(body);
      if n == |body| then None
      else
        var k := |body| - n - 1;
        if body[k] !in "$\\" || '\n' in body[..k] then None
        else
          assert body == body[..k] + [body[k]] + body[k + 1..];
          assert s == [s[0]] + body + "\n";
          Some((s[0], body[..k], body[k], body[k + 1..]))
  }

  /** `^([<>])([^\r]*)(\r*)\n$`: a snippet line and its name. */
  function MatchSnippetLine(s: string): (r: Option<(char, string)>)
    ensures r.Some? ==> r.value.0 in "<>" && '\r' !in r.value.1
    ensures r.Some? ==> exists cr :: AllCr(cr) && s == [r.value.0] + r.value.1 + cr + "\n"
  {
    if |s| < 2 || s[0] !in "<>" || !EndsWithNewline(s) then None
    else
      var body := s[1..|s| - 1];
      var n := CrSuffix(body);
      var name := body[..|body| - n];
      assert s == [s[0]] + name + body[|body| - n..] + "\n";
      if '\r' in name then None else Some((s[0], name))
  }

  /** `^[-+ ].*\n$` (unified) or `^[-+ _#<>].*\n$` (hintful): a body line. */
  predicate LooksLikeBody(s: string, prefixes: string)
  {
    |s| > 0 && s[0] in prefixes && IsLine(s[1..])
  }

  // ---- file-level lines ----------------------------------------------------

  /** `^<prefix>([^\r]*)\r*\n$` */
  function MatchTagged(s: string, prefix: string): (r: Option<string>)
    ensures r.Some? ==> '\r' !in r.value
  {
    var rest :- Literal(s, prefix);
    CrTerminated(rest)
  }

  /** `^similarity index ([0-9]+%)\r*\n$` */
  function MatchSimilarity(s: string): (r: Option<string>)
    ensures r.Some? ==> |r.value| >= 2 && r.value[|r.value| - 1] == '%'
  {
    var a :- MatchTagged(s, "similarity index ");
    if |a| >= 2 && a[|a| - 1] == '%' && All(a[..|a| - 1], Digit) then Some(a) else None
  }

  /** `[0-9a-f]{7,}`: an abbreviated object id, and what follows. */
  function ObjectId(s: string): (r: Option<(string, string)>)
    ensures r.Some? ==> |r.value.0| >= 7 && All(r.value.0, Hex) && s == r.value.0 + r.value.1
  {
    var n := Span(s, Hex);
    if n < 7 then None else Some((s[..n], s[n..]))
  }

  /** `^index ([0-9a-f]{7,})\.\.([0-9a-f]{7,}) +([0-7]{6})\r*\n$` */
  function MatchIndexWithMode(s: string): (r: Option<(string, string, string)>)
    ensures r.Some? ==> |r.value.2| == 6 && All(r.value.2, Octal)
  {
    var s1 :- Literal(s, "index ");
    var l :- ObjectId(s1);
    var s2 :- Literal(l.1, "..");
    var rt :- ObjectId(s2);
    var s3 :- Spaces(rt.1);
    if |s3| < 6 || !All(s3[..6], Octal) || CrTerminated(s3[6..]) != Some("") then None
    else Some((l.0, rt.0, s3[..6]))
  }

  /** `^index ([0-9a-f]{7,})\.\.([0-9a-f]{7,})\r*\n$` */
  function MatchIndex(s: string): (r: Option<(string, string)>)
    ensures r.Some? ==> |r.value.0| >= 7 && |r.value.1| >= 7
  {
    var s1 :- Literal(s, "index ");
    var l :- ObjectId(s1);
    var s2 :- Literal(l.1, "..");
    var rt :- ObjectId(s2);
    if CrTerminated(rt.1) != Some("") then None else Some((l.0, rt.0))
  }

  /** `^diff --git ([^ ]+) +([^ \r]+)\r*\n$` */
  function MatchDiffTitle(s: string): (r: Option<(string, string)>)
    ensures r.Some? ==> |r.value.0| > 0 && ' ' !in r.value.0
    ensures r.Some? ==> |r.value.1| > 0 && ' ' !in r.value.1 && '\r' !in r.value.1
  {
    var s1 :- Literal(s, "diff --git ");
    var n := Span(s1, NonSpace);
    if n == 0 then None
    else
      var s2 :- Spaces(s1[n..]);
      var b :- CrTerminated(s2);
      if |b| == 0 || ' ' in b then None
      else
        assert forall i :: 0 <= i < n ==> s1[..n][i] != ' ';
        Some((s1[..n], b))
  }

  /** A count group as written back: the group itself, or nothing. */
  function CountText(g: Option<string>): string
  {
    if g.Some? then g.value else ""
  }

  // ---- each recogniser reads back the text it would find ------------------

  lemma LiteralOf(p: string, s: string)
    ensures Literal(p + s, p) == Some(s)
  {
    assert (p + s)[..|p|] == p;
  }

  lemma SpacesOf(s: string)
    requires s == [] || s[0] != ' '
    ensures Spaces(" " + s) == Some(s)
  {
    SpanOfConcat(" ", s, Space);
  }

  lemma NumeralOf(d: string, s: string)
    requires IsNumeral(d)
    requires s == [] || !InClass(s[0], Digit)
    ensures Numeral(d + s) == Some((d, s))
  {
    SpanOfConcat(d, s, Digit);
    assert (d + s)[..|d|] == d;
  }

  lemma OptionalCountOf(g: Option<string>, s: string)
    requires IsCountGroup(g)
    requires s == [] || (s[0] != ',' && !InClass(s[0], Digit))
    ensures OptionalCount(CountText(g) + s) == (g, s)
  {
    var x := CountText(g) + s;
    if g.Some? {
      assert x[1..] == g.value[1..] + s;
      SpanOfConcat(g.value[1..], s, Digit);
      assert x[..|g.value|] == g.value;
    } else {
      assert x == s;
    }
  }

  lemma NoNewlineInGroups(g: HeaderGroups)
    requires WellFormedGroups(g)
    ensures '\n' !in g.leftStart && '\n' !in g.rightStart
    ensures '\n' !in CountText(g.leftCount) && '\n' !in CountText(g.rightCount)
    ensures g.lineCount.Some? ==> '\n' !in g.lineCount.value
  {
    NoNewlineInCount(g.leftCount);
    NoNewlineInCount(g.rightCount);
  }

  lemma NoNewlineInCount(g: Option<string>)
    requires IsCountGroup(g)
    ensures '\n' !in CountText(g)
  {
    if g.Some? {
      assert g.value == [','] + g.value[1..];
    }
  }

  lemma LeftRangeOf(ls: string, lc: Option<string>, rest: string)
    requires IsNumeral(ls) && IsCountGroup(lc) && |rest| > 0 && rest[0] == ' '
    ensures LeftRange("@@ -" + (ls + (CountText(lc) + rest))) == Some((ls, lc, rest))
  {
    var s3 := ls + (CountText(lc) + rest);
    assert "@@ -" + s3 == "@@" + (" " + ("-" + s3));
    LiteralOf("@@", " " + ("-" + s3));
    SpacesOf("-" + s3);
    LiteralOf("-", s3);
    OptionalCountOf(lc, rest);
    NumeralOf(ls, CountText(lc) + rest);
  }

  lemma LineCountGroupOf(hc: string, rest: string)
    requires IsNumeral(hc) && |rest| > 0 && rest[0] == ' '
    ensures LineCountGroup(" (" + (hc + (")" + rest))) == Some((hc, rest))
  {
    var s2 := hc + (")" + rest);
    assert " (" + s2 == " " + ("(" + s2);
    SpacesOf("(" + s2);
    LiteralOf("(", s2);
    NumeralOf(hc, ")" + rest);
    LiteralOf(")", rest);
  }

  lemma RightRangeOf(rs: string, rc: Option<string>, rest: string)
    requires IsNumeral(rs) && IsCountGroup(rc) && |rest| > 0 && rest[0] == ' '
    ensures RightRange(" +" + (rs + (CountText(rc) + rest))) == Some((rs, rc, rest))
  {
    var s2 := rs + (CountText(rc) + rest);
    assert " +" + s2 == " " + ("+" + s2);
    SpacesOf("+" + s2);
    LiteralOf("+", s2);
    OptionalCountOf(rc, rest);
    NumeralOf(rs, CountText(rc) + rest);
  }

  lemma HeaderTailOf(comment: string)
    requires '\n' !in comment
    ensures HeaderTail(" @@" + (comment + "\n")) == Some(comment)
  {
    var s2 := comment + "\n";
    assert " @@" + s2 == " " + ("@@" + s2);
    SpacesOf("@@" + s2);
    LiteralOf("@@", s2);
    LineRestOf(comment);
  }

  lemma UnifiedBodyOf(p: char, content: string)
    requires p in "-+ " && IsLine(content)
    ensures MatchUnifiedBody([p] + content) == Some((p, content))
  {
    var s := [p] + content;
    assert s[1..] == content;
    assert NewlineIndex(content) == |content| - 1;
  }

  lemma UnifiedBodyMarkedOf(p: char, content: string, marker: string)
    requires p in "-+ " && '\n' !in content
    requires |marker| >= 2 && marker[..2] == "\\ " && IsLine(marker[2..])
    ensures MatchUnifiedBody([p] + content + "\n" + marker) == Some((p, content))
  {
    var s := [p] + content + "\n" + marker;
    var rest := s[1..];
    assert rest == content + "\n" + marker;
    assert NewlineIndex(rest) == |content| by {
      assert forall i :: 0 <= i < |content| ==> rest[i] == content[i];
      assert rest[|content|] == '\n';
    }
    assert rest[|content| + 1..] == marker;
    assert rest[..|content|] == content;
  }

  lemma HintfulContentOf(p: char, text: string, marker: char, cr: string)
    requires p in "-+ _#" && marker in "$\\" && '\n' !in text && AllCr(cr)
    ensures MatchHintfulContent([p] + text + [marker] + cr + "\n") == Some((p, text, marker, cr))
  {
    var s := [p] + text + [marker] + cr + "\n";
    var body := s[1..|s| - 1];
    assert body == text + [marker] + cr;
    CrSuffixOfConcat(text + [marker], cr);
    var k := |text|;
    assert body[k] == marker;
    assert body[..k] == text;
    assert body[k + 1..] == cr;
  }

  lemma SnippetLineOf(c: char, name: string)
    requires c in "<>" && '\r' !in name
    ensures MatchHintfulContent([c] + name + "\n").None?
    ensures MatchSnippetLine([c] + name + "\n") == Some((c, name))
  {
    var s := [c] + name + "\n";
    var body := s[1..|s| - 1];
    assert body == name;
    assert name == [] || name[|name| - 1] != '\r';
    CrSuffixOfConcat(name, "");
    assert name + "" == name;
  }

  /** A literal does not match where the text differs from it. */
  lemma LiteralMismatch(s: string, p: string, i: nat)
    requires i < |s| && i < |p| && s[i] != p[i]
    ensures Literal(s, p).None?
  {
    if |p| <= |s| {
      assert s[..|p|][i] == s[i];
    }
  }

  lemma CrTerminatedOf(x: string)
    requires '\r' !in x
    ensures CrTerminated(x + "\n") == Some(x)
  {
    var s := x + "\n";
    assert s[..|s| - 1] == x;
    assert x == [] || x[|x| - 1] != '\r';
    assert x[..|x|] == x;
  }

  lemma TaggedOf(prefix: string, x: string)
    requires '\r' !in x
    ensures MatchTagged(prefix + x + "\n", prefix) == Some(x)
  {
    assert prefix + x + "\n" == prefix + (x + "\n");
    LiteralOf(prefix, x + "\n");
    CrTerminatedOf(x);
  }

  lemma ObjectIdOf(id: string, s: string)
    requires |id| >= 7 && All(id, Hex) && (s == [] || !InClass(s[0], Hex))
    ensures ObjectId(id + s) == Some((id, s))
  {
    SpanOfConcat(id, s, Hex);
    assert (id + s)[..|id|] == id;
  }

  /** ` +([0-7]{6})\r*\n$` after the right object id. */
  lemma ModeTailOf(mode: string)
    requires |mode| == 6 && All(mode, Octal)
    ensures Spaces(" " + (mode + "\n")) == Some(mode + "\n")
    ensures (mode + "\n")[..6] == mode
    ensures CrTerminated((mode + "\n")[6..]) == Some("")
  {
    SpacesOf(mode + "\n");
    assert (mode + "\n")[..6] == mode;
    assert (mode + "\n")[6..] == "\n";
    CrTerminatedOf("");
    assert "" + "\n" == "\n";
  }

  lemma IndexWithModeOf(l: string, r: string, mode: string)
    requires |l| >= 7 && All(l, Hex) && |r| >= 7 && All(r, Hex)
    requires |mode| == 6 && All(mode, Octal)
    ensures MatchIndexWithMode("index " + l + ".." + r + " " + mode + "\n") == Some((l, r, mode))
  {
    var tail := " " + (mode + "\n");
    var s2 := r + tail;
    var s1 := l + (".." + s2);
    assert "index " + l + ".." + r + " " + mode + "\n" == "index " + s1;
    LiteralOf("index ", s1);
    ObjectIdOf(l, ".." + s2);
    LiteralOf("..", s2);
    ObjectIdOf(r, tail);
    ModeTailOf(mode);
  }

  lemma IndexOf(l: string, r: string)
    requires |l| >= 7 && All(l, Hex) && |r| >= 7 && All(r, Hex)
    ensures MatchIndexWithMode("index " + l + ".." + r + "\n").None?
    ensures MatchIndex("index " + l + ".." + r + "\n") == Some((l, r))
  {
    var s2 := r + "\n";
    var s1 := l + (".." + s2);
    assert "index " + l + ".." + r + "\n" == "index " + s1;
    LiteralOf("index ", s1);
    ObjectIdOf(l, ".." + s2);
    LiteralOf("..", s2);
    ObjectIdOf(r, "\n");
    assert Span("\n", Space) == 0;
    CrTerminatedOf("");
    assert "" + "\n" == "\n";
  }

  lemma SimilarityOf(s: string)
    requires |s| >= 2 && s[|s| - 1] == '%' && All(s[..|s| - 1], Digit)
    ensures MatchSimilarity("similarity index " + s + "\n") == Some(s)
  {
    forall i | 0 <= i < |s|
      ensures s[i] != '\r'
    {
      if i < |s| - 1 {
        assert s[..|s| - 1][i] == s[i];
      }
    }
    TaggedOf("similarity index ", s);
  }

  lemma DiffTitleOf(a: string, b: string)
    requires |a| > 0 && ' ' !in a && |b| > 0 && ' ' !in b && '\r' !in b
    ensures MatchDiffTitle("diff --git " + a + " " + b + "\n") == Some((a, b))
  {
    var s2 := b + "\n";
    var s1 := a + (" " + s2);
    assert "diff --git " + a + " " + b + "\n" == "diff --git " + s1;
    LiteralOf("diff --git ", s1);
    assert All(a, NonSpace);
    SpanOfConcat(a, " " + s2, NonSpace);
    assert s1[..|a|] == a && s1[|a|..] == " " + s2;
    SpacesOf(s2);
    CrTerminatedOf(b);
  }

  lemma HunkHeaderLineOf(s: string)
    requires IsLine(s)
    ensures IsHunkHeaderLine("@@" + s)
  {
    assert ("@@" + s)[2..] == s;
  }

  lemma LineRestOf(c: string)
    requires '\n' !in c
    ensures LineRest(c + "\n") == Some(c)
  {
    assert (c + "\n")[..|c|] == c;
  }
}
