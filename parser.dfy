/** `parseDiff`, `parseUnifiedHunk` and `parseHintfulHunk`: lines of a unified
    or hintful diff become events. Each parser takes the lines still to be read
    and, where it stops before the end, returns the lines it left unread, as
    the program's shared line iterator does. */
module Parser {
  import opened Wrappers
  import opened Text
  import opened Events
  import opened Patterns

  datatype Mode = Unified | Hintful

  /** `int(raw[1:] if raw else '1')`: an omitted count means one line. */
  function CountValue(raw: Option<string>): (n: nat)
    requires IsCountGroup(raw)
    ensures raw.None? ==> n == 1
  {
    if raw.None? then 1 else ParseNat(raw.value[1..])
  }

  /** The `beginhunk` fields for the groups of a header line. */
  function MakeHeader(g: HeaderGroups): (h: HunkHeader)
    requires WellFormedGroups(g)
    ensures h.leftCountRaw == g.leftCount && h.rightCountRaw == g.rightCount
    ensures h.hunkLineCountRaw == g.lineCount
    ensures h.hunkLineCount.Some? <==> g.lineCount.Some?
    ensures h.leftCount == CountValue(g.leftCount) && h.rightCount == CountValue(g.rightCount)
  {
    HunkHeader(
      g.leftStart, g.leftCount, g.lineCount, g.rightStart, g.rightCount, g.comment,
      ParseNat(g.leftStart), ParseNat(g.rightStart),
      CountValue(g.leftCount), CountValue(g.rightCount),
      if g.lineCount.Some? then Some(ParseNat(g.lineCount.value)) else None)
  }

  /** The content operation a body-line prefix selects. */
  function KindOfPrefix(c: char): Kind
  {
    match c
    case '-' => LeftContent
    case '+' => RightContent
    case '_' => BothLowPriorityContent
    case '#' => IgnoreContent
    case _ => BothContent
  }

  /** How many lines of side `s` the event stands for. */
  function Use(e: Event, s: Side): nat
  {
    if e.Content? && OnSide(e.kind, s) then 1 else 0
  }

  /** How many lines of side `s` the events stand for. */
  function Used(es: seq<Event>, s: Side): nat
  {
    if |es| == 0 then 0 else Use(es[0], s) + Used(es[1..], s)
  }

  // ---- unified hunks -------------------------------------------------------

  function UnifiedContent(m: (char, string)): Event
  {
    Content(KindOfPrefix(m.0), m.1)
  }

  /** The body of a unified hunk that still expects `left` and `right` lines:
      its events up to and including `endhunk`, and the lines after it. */
  function UnifiedBody(lines: seq<string>, left: int, right: int): (r: Result<(seq<Event>, seq<string>)>)
    ensures r.Ok? ==> |r.value.1| <= |lines|
    decreases |lines|
  {
    if !(0 < left || 0 < right) then Ok(([EndHunk], lines))
    else if left < 0 || right < 0 then Fail(CorruptLineCount)
    else if |lines| == 0 then Fail(EndOfFileInHunk)
    else if lines[0] == "" then Fail(IncompleteHunk)
    else
      match MatchUnifiedBody(lines[0])
      case None => Fail(CorruptHunkLine)
      case Some(m) =>
        var left' := if (m.0 == '-' || m.0 == ' ') then left - 1 else left;
        var right' := if (m.0 == '+' || m.0 == ' ') then right - 1 else right;
        PrependFirst([UnifiedContent(m)], UnifiedBody(lines[1..], left', right'))
  }

  /** The `beginhunk` event of a unified hunk header line. */
  function UnifiedHeader(header: string): (r: Result<HunkHeader>)
    ensures r.Ok? ==> r.value.hunkLineCount.None?
  {
    match MatchUnifiedHeader(header)
    case None => Fail(CorruptUnifiedHeader)
    case Some(g) => Ok(MakeHeader(g))
  }

  /** `parseUnifiedHunk` as a function of the header line and the lines after it. */
  function UnifiedHunk(header: string, lines: seq<string>): (r: Result<(seq<Event>, seq<string>)>)
    ensures r.Ok? ==> IsHunkEvents(r.value.0) && r.value.0[0].header.hunkLineCount.None?
    ensures r.Ok? ==> |r.value.1| <= |lines| && r.value.1 == lines[|lines| - |r.value.1|..]
  {
    var h :- UnifiedHeader(header);
    UnifiedHunkAfter(h, lines)
  }

  /** A unified hunk once its header is read. */
  function UnifiedHunkAfter(h: HunkHeader, lines: seq<string>): (r: Result<(seq<Event>, seq<string>)>)
    ensures r.Ok? ==> IsHunkEvents(r.value.0) && r.value.0[0] == BeginHunk(h)
    ensures r.Ok? ==> |r.value.1| <= |lines| && r.value.1 == lines[|lines| - |r.value.1|..]
  {
    var body :- UnifiedBody(lines, h.leftCount, h.rightCount);
    UnifiedBodyReadsExactly(lines, h.leftCount, h.rightCount, body.0, body.1);
    Ok(([BeginHunk(h)] + body.0, body.1))
  }

  method ParseUnifiedHunk(header: string, lines: seq<string>) returns (r: Result<(seq<Event>, seq<string>)>)
    ensures r == UnifiedHunk(header, lines)
  {
    var h := UnifiedHeader(header);
    if h.Fail? {
      return Fail(h.error);
    }
    r := ReadUnifiedBody(h.value, lines);
  }

  /** The loop of `parseUnifiedHunk` after the header: body lines while
      either side still expects one. */
  method ReadUnifiedBody(h: HunkHeader, lines: seq<string>) returns (r: Result<(seq<Event>, seq<string>)>)
    ensures r == UnifiedHunkAfter(h, lines)
  {
    var out := [BeginHunk(h)];
    var leftLineCount: int := h.leftCount;
    var rightLineCount: int := h.rightCount;
    var rest := lines;
    while 0 < leftLineCount || 0 < rightLineCount
      invariant UnifiedHunkAfter(h, lines) == PrependFirst(out, UnifiedBody(rest, leftLineCount, rightLineCount))
      decreases |rest|
    {
      if leftLineCount < 0 || rightLineCount < 0 {
        return Fail(CorruptLineCount);
      }
      if |rest| == 0 {
        return Fail(EndOfFileInHunk);
      }
      var line := rest[0];
      if line == "" {
        return Fail(IncompleteHunk);
      }
      var linem := MatchUnifiedBody(line);
      if linem.None? {
        return Fail(CorruptHunkLine);
      }
      var prefix := linem.value.0;
      PrependFirstPrependFirst(out, [UnifiedContent(linem.value)],
        UnifiedBody(rest[1..],
          if (prefix == '-' || prefix == ' ') then leftLineCount - 1 else leftLineCount,
          if (prefix == '+' || prefix == ' ') then rightLineCount - 1 else rightLineCount));
      out := out + [UnifiedContent(linem.value)];
      rest := rest[1..];
      if (prefix == '-' || prefix == ' ') {
        leftLineCount := leftLineCount - 1;
      }
      if (prefix == '+' || prefix == ' ') {
        rightLineCount := rightLineCount - 1;
      }
    }
    r := Ok((out + [EndHunk], rest));
  }

  /** A unified hunk that expects `left` and `right` lines is exactly long
      enough: before each body line some side still expects a line and no side
      has gone below zero, and after the last no side expects one. */
  predicate ReadsExactly(body: seq<Event>, left: int, right: int)
  {
    && (forall k :: 0 <= k < |body| ==>
          var l := left - Used(body[..k], Left);
          var r := right - Used(body[..k], Right);
          (0 < l || 0 < r) && 0 <= l && 0 <= r)
    && !(0 < left - Used(body, Left) || 0 < right - Used(body, Right))
  }

  /** Every line is a unified body line. */
  predicate UnifiedLines(ls: seq<string>)
  {
    |ls| == 0 || (MatchUnifiedBody(ls[0]).Some? && UnifiedLines(ls[1..]))
  }

  /** The content events of unified body lines. */
  function UnifiedEvents(ls: seq<string>): (es: seq<Event>)
    requires UnifiedLines(ls)
    ensures |es| == |ls|
    ensures forall k :: 0 <= k < |es| ==> es[k].Content?
  {
    if |ls| == 0 then [] else [UnifiedContent(MatchUnifiedBody(ls[0]).value)] + UnifiedEvents(ls[1..])
  }

  /** The prefix decrements of `parseUnifiedHunk` are the side counts of the
      content operation the prefix selects. */
  lemma PrefixUse(m: (char, string))
    requires m.0 in "-+ "
    ensures Use(UnifiedContent(m), Left) == (if (m.0 == '-' || m.0 == ' ') then 1 else 0)
    ensures Use(UnifiedContent(m), Right) == (if (m.0 == '+' || m.0 == ' ') then 1 else 0)
  {
  }

  lemma UsedCons(e: Event, es: seq<Event>, s: Side)
    ensures Used([e] + es, s) == Use(e, s) + Used(es, s)
  {
    assert ([e] + es)[1..] == es;
  }

  /** Reading one more line first: the counts must be open before it, and
      the rest must fit what is left of them. */
  lemma ReadsExactlyCons(e: Event, body: seq<Event>, left: int, right: int)
    ensures ReadsExactly([e] + body, left, right) <==>
      && (0 < left || 0 < right) && 0 <= left && 0 <= right
      && ReadsExactly(body, left - Use(e, Left), right - Use(e, Right))
  {
    var all := [e] + body;
    assert all[..0] == [];
    UsedCons(e, body, Left);
    UsedCons(e, body, Right);
    forall k | 0 <= k < |body|
      ensures Used(all[..k + 1], Left) == Use(e, Left) + Used(body[..k], Left)
      ensures Used(all[..k + 1], Right) == Use(e, Right) + Used(body[..k], Right)
    {
      assert all[..k + 1] == [e] + body[..k];
      UsedCons(e, body[..k], Left);
      UsedCons(e, body[..k], Right);
    }
    if ReadsExactly(body, left - Use(e, Left), right - Use(e, Right)) && (0 < left || 0 < right) && 0 <= left && 0 <= right {
      forall k | 0 <= k < |all|
        ensures var l := left - Used(all[..k], Left);
          var r := right - Used(all[..k], Right);
          (0 < l || 0 < r) && 0 <= l && 0 <= r
      {
        if k > 0 {
          assert Used(all[..k], Left) == Use(e, Left) + Used(body[..k - 1], Left);
          assert Used(all[..k], Right) == Use(e, Right) + Used(body[..k - 1], Right);
        }
      }
    }
    if ReadsExactly(all, left, right) {
      assert Used(all[..0], Left) == 0 && Used(all[..0], Right) == 0;
      forall k | 0 <= k < |body|
        ensures var l := left - Use(e, Left) - Used(body[..k], Left);
          var r := right - Use(e, Right) - Used(body[..k], Right);
          (0 < l || 0 < r) && 0 <= l && 0 <= r
      {
        assert Used(all[..k + 1], Left) == Use(e, Left) + Used(body[..k], Left);
      }
    }
  }

  /** One step of a unified hunk body: a body line while the counts are open. */
  lemma UnifiedBodyUnfold(lines: seq<string>, left: int, right: int)
    requires (0 < left || 0 < right) && 0 <= left && 0 <= right
    requires |lines| > 0 && MatchUnifiedBody(lines[0]).Some?
    ensures var e := UnifiedContent(MatchUnifiedBody(lines[0]).value);
      UnifiedBody(lines, left, right) ==
        PrependFirst([e], UnifiedBody(lines[1..], left - Use(e, Left), right - Use(e, Right)))
  {
    PrefixUse(MatchUnifiedBody(lines[0]).value);
  }

  /** One step of a unified hunk body that parses. */
  lemma UnifiedBodyStep(lines: seq<string>, left: int, right: int)
    requires UnifiedBody(lines, left, right).Ok? && (0 < left || 0 < right)
    ensures 0 <= left && 0 <= right && |lines| > 0 && MatchUnifiedBody(lines[0]).Some?
    ensures var e := UnifiedContent(MatchUnifiedBody(lines[0]).value);
      UnifiedBody(lines, left, right) ==
        PrependFirst([e], UnifiedBody(lines[1..], left - Use(e, Left), right - Use(e, Right)))
  {
    PrefixUse(MatchUnifiedBody(lines[0]).value);
  }

  lemma UnifiedEventsCons(lines: seq<string>, n: nat)
    requires 1 <= n <= |lines|
    ensures UnifiedLines(lines[..n]) <==>
      MatchUnifiedBody(lines[0]).Some? && UnifiedLines(lines[1..][..n - 1])
    ensures UnifiedLines(lines[..n]) ==>
      UnifiedEvents(lines[..n]) ==
        [UnifiedContent(MatchUnifiedBody(lines[0]).value)] + UnifiedEvents(lines[1..][..n - 1])
  {
    assert lines[..n] == [lines[0]] + lines[1..][..n - 1];
  }

  /** A unified hunk body that parses reads body lines exactly as many as
      its counts ask for, and leaves the lines after them unread. */
  lemma {:induction false} UnifiedBodyReadsExactly(lines: seq<string>, left: int, right: int, evs: seq<Event>, rest: seq<string>)
    requires UnifiedBody(lines, left, right) == Ok((evs, rest))
    ensures |rest| <= |lines| && rest == lines[|lines| - |rest|..]
    ensures UnifiedLines(lines[..|lines| - |rest|])
    ensures evs == UnifiedEvents(lines[..|lines| - |rest|]) + [EndHunk]
    ensures ReadsExactly(UnifiedEvents(lines[..|lines| - |rest|]), left, right)
    decreases |lines|
  {
    var n := |lines| - |rest|;
    if !(0 < left || 0 < right) {
      assert lines[..n] == [];
    } else {
      var e, evs' := UnifiedReadStep(lines, left, right, evs, rest);
      var left' := left - Use(e, Left);
      var right' := right - Use(e, Right);
      UnifiedBodyReadsExactly(lines[1..], left', right', evs', rest);
      UnifiedEventsCons(lines, n);
      ReadsExactlyCons(e, UnifiedEvents(lines[1..][..n - 1]), left, right);
    }
  }

  /** The first line of a unified hunk body that parses while its counts
      are open. */
  lemma UnifiedReadStep(lines: seq<string>, left: int, right: int, evs: seq<Event>, rest: seq<string>)
    returns (e: Event, evs': seq<Event>)
    requires UnifiedBody(lines, left, right) == Ok((evs, rest)) && (0 < left || 0 < right)
    ensures 0 <= left && 0 <= right && |lines| > 0 && MatchUnifiedBody(lines[0]).Some?
    ensures e == UnifiedContent(MatchUnifiedBody(lines[0]).value) && evs == [e] + evs'
    ensures UnifiedBody(lines[1..], left - Use(e, Left), right - Use(e, Right)) == Ok((evs', rest))
  {
    UnifiedBodyStep(lines, left, right);
    e := UnifiedContent(MatchUnifiedBody(lines[0]).value);
    var t := UnifiedBody(lines[1..], left - Use(e, Left), right - Use(e, Right)).value;
    evs' := t.0;
  }

  /** Conversely, body lines that the counts ask for exactly parse into
      their content events, and the lines after them are left unread. */
  lemma {:induction false} UnifiedBodyComplete(body: seq<string>, rest: seq<string>, left: int, right: int)
    requires UnifiedLines(body)
    requires ReadsExactly(UnifiedEvents(body), left, right)
    ensures UnifiedBody(body + rest, left, right) == Ok((UnifiedEvents(body) + [EndHunk], rest))
    decreases |body|
  {
    if |body| == 0 {
      assert body + rest == rest;
      assert UnifiedEvents(body) + [EndHunk] == [EndHunk];
      assert !(0 < left || 0 < right) by {
        assert Used(UnifiedEvents(body), Left) == 0 && Used(UnifiedEvents(body), Right) == 0;
      }
    } else {
      var e := UnifiedCompleteStep(body, rest, left, right);
      UnifiedBodyComplete(body[1..], rest, left - Use(e, Left), right - Use(e, Right));
      assert [e] + (UnifiedEvents(body[1..]) + [EndHunk]) == UnifiedEvents(body) + [EndHunk];
    }
  }

  /** The first line of body lines that the counts ask for exactly. */
  lemma UnifiedCompleteStep(body: seq<string>, rest: seq<string>, left: int, right: int) returns (e: Event)
    requires |body| > 0 && UnifiedLines(body)
    requires ReadsExactly(UnifiedEvents(body), left, right)
    ensures UnifiedLines(body[1..]) && UnifiedEvents(body) == [e] + UnifiedEvents(body[1..])
    ensures ReadsExactly(UnifiedEvents(body[1..]), left - Use(e, Left), right - Use(e, Right))
    ensures UnifiedBody(body + rest, left, right)
         == PrependFirst([e], UnifiedBody(body[1..] + rest, left - Use(e, Left), right - Use(e, Right)))
  {
    var lines := body + rest;
    assert lines[0] == body[0] && lines[1..] == body[1..] + rest;
    e := UnifiedContent(MatchUnifiedBody(body[0]).value);
    ReadsExactlyCons(e, UnifiedEvents(body[1..]), left, right);
    UnifiedBodyUnfold(lines, left, right);
  }

  // ---- hintful hunks -------------------------------------------------------

  /** One body line of a hintful hunk. A `$` marker restores the carriage
      returns and the line feed; a `\` marker means the text has no line feed,
      and the carriage returns after it are dropped. */
  function HintfulLine(line: string): (r: Result<Event>)
    ensures r.Ok? ==> IsBodyEvent(r.value)
  {
    match MatchHintfulContent(line)
    case Some(m) =>
      var (prefix, text, marker, cr) := m;
      if marker == '$' then
        if |text| > 0 && text[|text| - 1] == '\r' then Fail(CrBeforeNewlineMarker)
        else Ok(Content(KindOfPrefix(prefix), text + cr + "\n"))
      else Ok(Content(KindOfPrefix(prefix), text))
    case None =>
      match MatchSnippetLine(line)
      case Some(s) => Ok(Snippet(if s.0 == '<' then Left else Right, s.1))
      case None => Fail(StrangeLine)
  }

  /** A content line with its prefix, text, marker and carriage returns is
      read back as that content. */
  lemma HintfulLineOf(p: char, text: string, marker: char, cr: string, line: string)
    requires p in "-+ _#" && marker in "$\\" && '\n' !in text && AllCr(cr)
    requires marker == '$' ==> text == [] || text[|text| - 1] != '\r'
    requires line == [p] + text + [marker] + cr + "\n"
    ensures HintfulLine(line) == Ok(Content(KindOfPrefix(p), if marker == '$' then text + cr + "\n" else text))
  {
    HintfulContentOf(p, text, marker, cr);
  }

  /** The next `count` lines as body events, then `endhunk`. */
  function HintfulBody(lines: seq<string>, count: nat): (r: Result<(seq<Event>, seq<string>)>)
    ensures r.Ok? ==> |r.value.1| <= |lines|
  {
    if count == 0 then Ok(([EndHunk], lines))
    else if |lines| == 0 then Fail(EndOfFileInHunk)
    else
      var e :- HintfulLine(lines[0]);
      PrependFirst([e], HintfulBody(lines[1..], count - 1))
  }

  lemma HintfulBodyUnfold(lines: seq<string>, count: nat)
    requires count > 0 && |lines| > 0
    ensures HintfulLine(lines[0]).Fail? ==> HintfulBody(lines, count) == Fail(HintfulLine(lines[0]).error)
    ensures HintfulLine(lines[0]).Ok? ==>
      HintfulBody(lines, count) == PrependFirst([HintfulLine(lines[0]).value], HintfulBody(lines[1..], count - 1))
  {
  }

  /** A hintful hunk body that parses is `count` body events and `endhunk`,
      and leaves the lines after its `count` lines unread. */
  lemma {:induction false} HintfulBodyShape(lines: seq<string>, count: nat, evs: seq<Event>, rest: seq<string>)
    requires HintfulBody(lines, count) == Ok((evs, rest))
    ensures count <= |lines| && rest == lines[count..]
    ensures |evs| == count + 1 && evs[count] == EndHunk
    ensures forall k :: 0 <= k < count ==> IsBodyEvent(evs[k])
    decreases count
  {
    if count > 0 {
      var e, evs' := HintfulShapeStep(lines, count, evs, rest);
      HintfulBodyShape(lines[1..], count - 1, evs', rest);
      assert lines[1..][count - 1..] == lines[count..];
    }
  }

  /** The first line of a hintful hunk body that parses. */
  lemma HintfulShapeStep(lines: seq<string>, count: nat, evs: seq<Event>, rest: seq<string>)
    returns (e: Event, evs': seq<Event>)
    requires count > 0 && HintfulBody(lines, count) == Ok((evs, rest))
    ensures |lines| > 0 && IsBodyEvent(e) && evs == [e] + evs'
    ensures HintfulBody(lines[1..], count - 1) == Ok((evs', rest))
  {
    HintfulBodyUnfold(lines, count);
    e := HintfulLine(lines[0]).value;
    evs' := HintfulBody(lines[1..], count - 1).value.0;
  }

  /** The `beginhunk` event of a hintful hunk header line. */
  function HintfulHeader(header: string): (r: Result<HunkHeader>)
    ensures r.Ok? ==> r.value.hunkLineCount.Some?
  {
    match MatchHintfulHeader(header)
    case None => Fail(CorruptHintfulHeader)
    case Some(g) => Ok(MakeHeader(g))
  }

  /** `parseHintfulHunk` as a function of the header line and the lines after it. */
  function HintfulHunk(header: string, lines: seq<string>): (r: Result<(seq<Event>, seq<string>)>)
    ensures r.Ok? ==> IsHunkEvents(r.value.0) && r.value.0[0].header.hunkLineCount.Some?
    ensures r.Ok? ==> |r.value.0| == r.value.0[0].header.hunkLineCount.value + 2
    ensures r.Ok? ==> |r.value.1| <= |lines| && r.value.1 == lines[|lines| - |r.value.1|..]
  {
    var h :- HintfulHeader(header);
    HintfulHunkAfter(h, lines)
  }

  /** A hintful hunk once its header is read. */
  function HintfulHunkAfter(h: HunkHeader, lines: seq<string>): (r: Result<(seq<Event>, seq<string>)>)
    requires h.hunkLineCount.Some?
    ensures r.Ok? ==> IsHunkEvents(r.value.0) && r.value.0[0] == BeginHunk(h)
    ensures r.Ok? ==> |r.value.0| == h.hunkLineCount.value + 2
    ensures r.Ok? ==> |r.value.1| <= |lines| && r.value.1 == lines[|lines| - |r.value.1|..]
  {
    var body :- HintfulBody(lines, h.hunkLineCount.value);
    HintfulBodyShape(lines, h.hunkLineCount.value, body.0, body.1);
    HunkEventsOf(h, body.0, h.hunkLineCount.value);
    Ok(([BeginHunk(h)] + body.0, body.1))
  }

  lemma HunkEventsOf(h: HunkHeader, body: seq<Event>, n: nat)
    requires |body| == n + 1 && body[n] == EndHunk
    requires forall k :: 0 <= k < n ==> IsBodyEvent(body[k])
    ensures IsHunkEvents([BeginHunk(h)] + body)
    ensures ([BeginHunk(h)] + body)[0] == BeginHunk(h) && |[BeginHunk(h)] + body| == n + 2
  {
    var evs := [BeginHunk(h)] + body;
    assert forall k :: 0 < k < |evs| ==> evs[k] == body[k - 1];
  }

  method ParseHintfulHunk(header: string, lines: seq<string>) returns (r: Result<(seq<Event>, seq<string>)>)
    ensures r == HintfulHunk(header, lines)
  {
    var h := HintfulHeader(header);
    if h.Fail? {
      return Fail(h.error);
    }
    r := ReadHintfulBody(h.value, lines);
  }

  /** The next body line of a hintful hunk as an event. */
  method NextHintfulLine(lines: seq<string>, count: nat) returns (e: Result<Event>)
    requires count > 0 && |lines| > 0
    ensures e.Fail? ==> HintfulBody(lines, count) == Fail(e.error)
    ensures e.Ok? ==> HintfulBody(lines, count) == PrependFirst([e.value], HintfulBody(lines[1..], count - 1))
  {
    HintfulBodyUnfold(lines, count);
    e := HintfulLine(lines[0]);
  }

  /** The loop of `parseHintfulHunk` after the header: exactly as many body
      lines as the header counts. */
  method ReadHintfulBody(h: HunkHeader, lines: seq<string>) returns (r: Result<(seq<Event>, seq<string>)>)
    requires h.hunkLineCount.Some?
    ensures r == HintfulHunkAfter(h, lines)
  {
    var remaining: nat := h.hunkLineCount.value;
    var out := [BeginHunk(h)];
    var rest := lines;
    while remaining > 0
      invariant HintfulHunkAfter(h, lines) == PrependFirst(out, HintfulBody(rest, remaining))
    {
      if |rest| == 0 {
        return Fail(EndOfFileInHunk);
      }
      var e := NextHintfulLine(rest, remaining);
      if e.Fail? {
        return Fail(e.error);
      }
      PrependFirstPrependFirst(out, [e.value], HintfulBody(rest[1..], remaining - 1));
      out := out + [e.value];
      rest := rest[1..];
      remaining := remaining - 1;
    }
    r := Ok((out + [EndHunk], rest));
  }

  /** A hintful hunk body of `count` lines parses exactly when there are that
      many lines and each is a body line; it then reads those lines and no more. */
  lemma {:induction false} HintfulBodyExactly(lines: seq<string>, count: nat)
    ensures HintfulBody(lines, count).Ok? <==>
      count <= |lines| && forall k :: 0 <= k < count ==> HintfulLine(lines[k]).Ok?
    decreases count
  {
    if count > 0 && |lines| > 0 {
      HintfulBodyUnfold(lines, count);
      HintfulBodyExactly(lines[1..], count - 1);
      assert forall k :: 1 <= k < count && k < |lines| ==> lines[k] == lines[1..][k - 1];
    }
  }

  // ---- whole diffs ---------------------------------------------------------

  /** What a line outside any hunk starts, in the order the parser tries the
      shapes. */
  datatype LineShape =
    | HunkStart
    | LabelsStart(left: string)      // a `---` line; a `+++` line must follow
    | RenameStart(left: string)      // a `rename from` line; `rename to` must follow
    | BodyOutsideHunk
    | FileLine(event: Event)
    | Unparseable

  function BodyPrefixes(mode: Mode): string
  {
    if mode == Unified then "-+ " else "-+ _#<>"
  }

  function Classify(line: string, mode: Mode): (r: LineShape)
    ensures r.FileLine? ==> IsFileEvent(r.event)
    ensures r.HunkStart? <==> IsHunkHeaderLine(line)
  {
    if IsHunkHeaderLine(line) then HunkStart
    else if MatchTagged(line, "--- ").Some? then LabelsStart(MatchTagged(line, "--- ").value)
    else if MatchSimilarity(line).Some? then FileLine(SimilarityIndex(MatchSimilarity(line).value))
    else if MatchTagged(line, "rename from ").Some? then RenameStart(MatchTagged(line, "rename from ").value)
    else if LooksLikeBody(line, BodyPrefixes(mode)) then BodyOutsideHunk
    else if MatchIndexWithMode(line).Some? then
      var m := MatchIndexWithMode(line).value;
      FileLine(Index(m.0, m.1, Some(m.2)))
    else if MatchIndex(line).Some? then
      var m := MatchIndex(line).value;
      FileLine(Index(m.0, m.1, None))
    else if MatchTagged(line, "new file mode ").Some? then FileLine(FileMode(Right, MatchTagged(line, "new file mode ").value))
    else if MatchTagged(line, "deleted file mode ").Some? then FileLine(FileMode(Left, MatchTagged(line, "deleted file mode ").value))
    else if MatchDiffTitle(line).Some? then
      var m := MatchDiffTitle(line).value;
      FileLine(DiffTitle(m.0, m.1))
    else Unparseable
  }

  /** The second line of a two-line production: its tagged text. */
  function SecondLine(rest: seq<string>, prefix: string, err: Error): (r: Result<string>)
    ensures r.Ok? ==> |rest| > 0 && MatchTagged(rest[0], prefix) == Some(r.value)
    ensures r.Fail? ==> r.error == (if |rest| == 0 then PrematureEnd else err)
  {
    if |rest| == 0 then Fail(PrematureEnd)
    else
      match MatchTagged(rest[0], prefix)
      case None => Fail(err)
      case Some(v) => Ok(v)
  }

  function HunkOf(mode: Mode, header: string, lines: seq<string>): (r: Result<(seq<Event>, seq<string>)>)
    ensures r.Ok? ==> IsHunkEvents(r.value.0)
    ensures r.Ok? ==> |r.value.1| <= |lines| && r.value.1 == lines[|lines| - |r.value.1|..]
  {
    if mode == Unified then UnifiedHunk(header, lines) else HintfulHunk(header, lines)
  }

  /** One production of `parseDiff`: the events for the lines at the front
      of `lines` (a hunk, a two-line or a one-line file event), and the lines
      after them. */
  function Production(lines: seq<string>, mode: Mode): (r: Result<(seq<Event>, seq<string>)>)
    requires |lines| > 0
    ensures r.Ok? ==> |r.value.1| < |lines|
    ensures r.Ok? ==> IsHunkEvents(r.value.0) || (|r.value.0| == 1 && IsFileEvent(r.value.0[0]))
  {
    match Classify(lines[0], mode)
    case HunkStart => HunkOf(mode, lines[0], lines[1..])
    case LabelsStart(left) =>
      var right :- SecondLine(lines[1..], "+++ ", ExpectedPlusLine);
      Ok(([Labels(left, right)], lines[2..]))
    case RenameStart(left) =>
      var right :- SecondLine(lines[1..], "rename to ", ExpectedRenameTo);
      Ok(([Rename(left, right)], lines[2..]))
    case BodyOutsideHunk => Fail(ContentWithoutHeader)
    case FileLine(e) => Ok(([e], lines[1..]))
    case Unparseable => Fail(CannotParseLine)
  }

  method ReadProduction(lines: seq<string>, mode: Mode) returns (r: Result<(seq<Event>, seq<string>)>)
    requires |lines| > 0
    ensures r == Production(lines, mode)
  {
    var line := lines[0];
    match Classify(line, mode)
    case HunkStart =>
      if mode == Unified {
        r := ParseUnifiedHunk(line, lines[1..]);
      } else {
        r := ParseHintfulHunk(line, lines[1..]);
      }
    case LabelsStart(left) =>
      var right := SecondLine(lines[1..], "+++ ", ExpectedPlusLine);
      if right.Fail? {
        return Fail(right.error);
      }
      r := Ok(([Labels(left, right.value)], lines[2..]));
    case RenameStart(left) =>
      var right := SecondLine(lines[1..], "rename to ", ExpectedRenameTo);
      if right.Fail? {
        return Fail(right.error);
      }
      r := Ok(([Rename(left, right.value)], lines[2..]));
    case BodyOutsideHunk =>
      r := Fail(ContentWithoutHeader);
    case FileLine(e) =>
      r := Ok(([e], lines[1..]));
    case Unparseable =>
      r := Fail(CannotParseLine);
  }

  /** `parseDiff` over the lines still to be read. */
  function ParseLines(lines: seq<string>, mode: Mode): Result<seq<Event>>
    decreases |lines|
  {
    if |lines| == 0 then Ok([])
    else
      var p :- Production(lines, mode);
      Prepend(p.0, ParseLines(p.1, mode))
  }

  method ParseDiff(lines: seq<string>, mode: Mode) returns (r: Result<seq<Event>>)
    ensures r == ParseLines(lines, mode)
  {
    var out := [];
    var rest := lines;
    PrependNothing(ParseLines(lines, mode));
    while |rest| > 0
      invariant ParseLines(lines, mode) == Prepend(out, ParseLines(rest, mode))
      decreases |rest|
    {
      var p := ReadProduction(rest, mode);
      if p.Fail? {
        return Fail(p.error);
      }
      PrependPrepend(out, p.value.0, ParseLines(p.value.1, mode));
      out := out + p.value.0;
      rest := p.value.1;
    }
    assert out + [] == out;
    r := Ok(out);
  }

  /** Whatever the parser yields is framed: file events between hunks, and
      every hunk opened by `beginhunk` and closed by `endhunk`. */
  lemma {:induction false} ParsedIsFramed(lines: seq<string>, mode: Mode)
    requires ParseLines(lines, mode).Ok?
    ensures Framed(ParseLines(lines, mode).value, false)
    decreases |lines|
  {
    if |lines| > 0 {
      var p := Production(lines, mode).value;
      ParsedIsFramed(p.1, mode);
      var tail := ParseLines(p.1, mode).value;
      if IsHunkEvents(p.0) {
        FramedHunk(p.0, tail);
      } else {
        assert (p.0 + tail)[1..] == tail;
      }
    }
  }
}
