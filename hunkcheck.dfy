/** `validateHunks` and `validateHunk`: the checks a grouped diff must pass.
    Between hunks only file events may appear; inside a hunk only content and
    snippet events. Each side's text outside snippets must have as many lines
    as the hunk header declares, must not split a `\r*\n` sequence between
    two events, and must not go on after a hunk of the same file ended that
    side without a newline. */
module HunkCheck {
  import opened Wrappers
  import opened Text
  import opened Events

  // ---- the pattern `^\r*\n$` -----------------------------------------------

  /** The number of carriage returns that begin `s`. */
  function LeadingCr(s: string): (n: nat)
    ensures n <= |s|
    ensures forall i :: 0 <= i < n ==> s[i] == '\r'
    ensures n < |s| ==> s[n] != '\r'
  {
    if |s| > 0 && s[0] == '\r' then 1 + LeadingCr(s[1..]) else 0
  }

  /** How Python's `re.match` with `^\r*\n$` ends, as the program's matcher
      sees it: a whole match, a match of a proper prefix (the `$` also
      matches before a final line feed, so `\r*\n\n` matches only its first
      line), or no match. */
  datatype CrNewline = WholeCrNewline | PartialCrNewline | NoCrNewline

  function MatchCrNewline(c: string): (r: CrNewline)
  {
    var n := LeadingCr(c);
    if n < |c| && c[n] == '\n' then
      if n + 1 == |c| then WholeCrNewline
      else if n + 2 == |c| && c[n + 1] == '\n' then PartialCrNewline
      else NoCrNewline
    else NoCrNewline
  }

  /** The whole match is exactly a run of carriage returns and a line feed. */
  lemma MatchCrNewlineWhole(c: string)
    ensures MatchCrNewline(c) == WholeCrNewline <==> (IsLine(c) && AllCr(c[..|c| - 1]))
  {
    var n := LeadingCr(c);
    if IsLine(c) && AllCr(c[..|c| - 1]) {
      assert forall i :: 0 <= i < |c| - 1 ==> c[..|c| - 1][i] == c[i];
    }
    if MatchCrNewline(c) == WholeCrNewline {
      assert forall i :: 0 <= i < |c| - 1 ==> c[..|c| - 1][i] == c[i];
      assert forall i :: 0 <= i < |c| - 1 ==> c[i] != '\n';
    }
  }

  // ---- one hunk ----------------------------------------------------------------

  /** What `validateHunk` keeps for one side: the snippet open on it, the text
      it has seen outside snippets, and whether it may still receive text. */
  datatype SideCheck = SideCheck(name: string, text: string, allowed: bool)

  datatype HunkState = HunkState(left: SideCheck, right: SideCheck)
  {
    function Of(s: Side): SideCheck
    {
      if s == Left then left else right
    }
  }

  /** Whether a side may still receive text, for each side. */
  datatype Allowed = Allowed(left: bool, right: bool)
  {
    function Of(s: Side): bool
    {
      if s == Left then left else right
    }
  }

  function Begin(a: Allowed): HunkState
  {
    HunkState(SideCheck("", "", a.left), SideCheck("", "", a.right))
  }

  /** A content event as one side sees it. */
  function ReceiveSide(sc: SideCheck, k: Kind, c: string, s: Side): Result<SideCheck>
  {
    if sc.name == "" && OnSide(k, s) then
      var m := if EndsWith(sc.text, '\r') then MatchCrNewline(c) else NoCrNewline;
      if m == WholeCrNewline then Fail(SplitCrLf)
      else if m == PartialCrNewline then Fail(PartialMatch)
      else
        var text := sc.text + c;
        if text != "" && !sc.allowed then Fail(ContentAfterNoNewline)
        else Ok(sc.(text := text))
    else Ok(sc)
  }

  predicate EndsWith(s: string, c: char)
  {
    |s| > 0 && s[|s| - 1] == c
  }

  /** One event inside a hunk. */
  function HunkStep(st: HunkState, e: Event): Result<HunkState>
  {
    match e
    case Content(k, c) =>
      var l :- ReceiveSide(st.left, k, c, Left);
      var r :- ReceiveSide(st.right, k, c, Right);
      Ok(HunkState(l, r))
    case Snippet(side, name) =>
      Ok(if side == Left then st.(left := st.left.(name := name)) else st.(right := st.right.(name := name)))
    case _ => Fail(NotAllowedInsideHunk)
  }

  function HunkFrom(st: HunkState, cs: seq<Event>): Result<HunkState>
    decreases |cs|
  {
    if |cs| == 0 then Ok(st)
    else
      var st' :- HunkStep(st, cs[0]);
      HunkFrom(st', cs[1..])
  }

  /** The end of the hunk for one side: no snippet may be open, the side's
      lines must number as declared, and a side that ends without a newline
      may receive no more text. */
  function CloseSide(sc: SideCheck, declared: nat): Result<bool>
  {
    if sc.name != "" then Fail(HunkEndedInsideSnippet)
    else
      var nonl := sc.text != "" && !EndsWithNewline(sc.text);
      var lineCount := |SplitNewlines(sc.text)| - (if nonl then 0 else 1);
      if lineCount != declared then Fail(LineCountMismatch)
      else Ok(sc.allowed && !nonl)
  }

  /** `validateHunk` of a grouped hunk with header `h` and events `cs`. */
  function CheckHunk(h: HunkHeader, cs: seq<Event>, a: Allowed): Result<Allowed>
  {
    var st :- HunkFrom(Begin(a), cs);
    var l :- CloseSide(st.left, h.leftCount);
    var r :- CloseSide(st.right, h.rightCount);
    Ok(Allowed(l, r))
  }

  /** The work `validateHunk` does for one side on a content event. */
  method Receive(sc: SideCheck, k: Kind, c: string, s: Side) returns (r: Result<SideCheck>)
    ensures r == ReceiveSide(sc, k, c, s)
  {
    r := Ok(sc);
    if sc.name == "" && OnSide(k, s) {
      if EndsWith(sc.text, '\r') {
        var m := MatchCrNewline(c);
        if m == WholeCrNewline {
          return Fail(SplitCrLf);
        } else if m == PartialCrNewline {
          return Fail(PartialMatch);
        }
      }
      var text := sc.text + c;
      if text != "" && !sc.allowed {
        return Fail(ContentAfterNoNewline);
      }
      r := Ok(sc.(text := text));
    }
  }

  /** The work `validateHunk` does for one side at the end of the hunk. */
  method Close(sc: SideCheck, declared: nat) returns (r: Result<bool>)
    ensures r == CloseSide(sc, declared)
  {
    if sc.name != "" {
      return Fail(HunkEndedInsideSnippet);
    }
    var allowed := sc.allowed;
    var nonl := sc.text != "" && !EndsWithNewline(sc.text);
    if nonl {
      allowed := false;
    }
    var lineCount := |SplitNewlines(sc.text)| - (if nonl then 0 else 1);
    if lineCount != declared {
      return Fail(LineCountMismatch);
    }
    r := Ok(allowed);
  }

  method ValidateHunk(h: HunkHeader, cs: seq<Event>, a: Allowed) returns (r: Result<Allowed>)
    ensures r == CheckHunk(h, cs, a)
  {
    var left := SideCheck("", "", a.left);
    var right := SideCheck("", "", a.right);
    for i := 0 to |cs|
      invariant HunkFrom(Begin(a), cs) == HunkFrom(HunkState(left, right), cs[i..])
    {
      var e := cs[i];
      assert cs[i..][0] == e && cs[i..][1..] == cs[i + 1..];
      match e {
        case Content(k, c) =>
          var l := Receive(left, k, c, Left);
          if l.Fail? {
            return Fail(l.error);
          }
          left := l.value;
          var rr := Receive(right, k, c, Right);
          if rr.Fail? {
            return Fail(rr.error);
          }
          right := rr.value;
        case Snippet(side, name) =>
          if side == Left {
            left := left.(name := name);
          } else {
            right := right.(name := name);
          }
        case _ =>
          return Fail(NotAllowedInsideHunk);
      }
    }
    assert cs[|cs|..] == [];
    var l := Close(left, h.leftCount);
    if l.Fail? {
      return Fail(l.error);
    }
    var rr := Close(right, h.rightCount);
    if rr.Fail? {
      return Fail(rr.error);
    }
    r := Ok(Allowed(l.value, rr.value));
  }

  // ---- what an accepted hunk satisfies ----------------------------------------

  /** A side's text ends cleanly when it is empty or ends with a newline. */
  predicate EndsClean(t: string)
  {
    t == "" || EndsWithNewline(t)
  }

  lemma ReceiveSideText(sc: SideCheck, k: Kind, c: string, s: Side)
    requires ReceiveSide(sc, k, c, s).Ok?
    ensures ReceiveSide(sc, k, c, s).value.name == sc.name
    ensures ReceiveSide(sc, k, c, s).value.allowed == sc.allowed
    ensures ReceiveSide(sc, k, c, s).value.text == sc.text + (if sc.name == "" && OnSide(k, s) then c else "")
    ensures !sc.allowed && sc.text == "" ==> ReceiveSide(sc, k, c, s).value.text == ""
  {
    if !(sc.name == "" && OnSide(k, s)) {
      assert sc.text + "" == sc.text;
    }
  }

  /** One accepted event: a content or snippet event that adds to side `s`
      the text it sees outside its snippet, or moves the side's snippet. */
  lemma HunkStepText(st: HunkState, e: Event, s: Side)
    requires HunkStep(st, e).Ok?
    ensures IsBodyEvent(e)
    ensures HunkStep(st, e).value.Of(s).name == (if e.Snippet? && e.side == s then e.name else st.Of(s).name)
    ensures HunkStep(st, e).value.Of(s).text
         == st.Of(s).text + (if e.Content? && st.Of(s).name == "" && OnSide(e.kind, s) then e.content else "")
    ensures HunkStep(st, e).value.Of(s).allowed == st.Of(s).allowed
    ensures !st.Of(s).allowed && st.Of(s).text == "" ==> HunkStep(st, e).value.Of(s).text == ""
  {
    match e
    case Content(k, c) =>
      ReceiveSideText(st.left, k, c, Left);
      ReceiveSideText(st.right, k, c, Right);
    case Snippet(side, name) =>
      assert st.Of(s).text + "" == st.Of(s).text;
  }

  /** Along an accepted hunk each side collects exactly the text it sees
      outside its snippets, every event is a content or snippet event, and a
      side that may not receive text receives none. */
  lemma {:induction false} HunkFromText(st: HunkState, cs: seq<Event>, s: Side)
    requires HunkFrom(st, cs).Ok?
    ensures HunkFrom(st, cs).value.Of(s).text == st.Of(s).text + VisibleFrom(st.Of(s).name, cs, s)
    ensures HunkFrom(st, cs).value.Of(s).name == OpenAfter(st.Of(s).name, cs, s)
    ensures HunkFrom(st, cs).value.Of(s).allowed == st.Of(s).allowed
    ensures !st.Of(s).allowed && st.Of(s).text == "" ==> HunkFrom(st, cs).value.Of(s).text == ""
    ensures forall i :: 0 <= i < |cs| ==> IsBodyEvent(cs[i])
    decreases |cs|
  {
    if |cs| == 0 {
      assert st.Of(s).text + "" == st.Of(s).text;
    } else {
      var st' := HunkStep(st, cs[0]).value;
      HunkStepText(st, cs[0], s);
      HunkFromText(st', cs[1..], s);
      assert forall i :: 1 <= i < |cs| ==> cs[i] == cs[1..][i - 1];
      var piece := if cs[0].Content? && st.Of(s).name == "" && OnSide(cs[0].kind, s) then cs[0].content else "";
      assert VisibleFrom(st.Of(s).name, cs, s) == piece + VisibleFrom(st'.Of(s).name, cs[1..], s);
      assert (st.Of(s).text + piece) + VisibleFrom(st'.Of(s).name, cs[1..], s)
          == st.Of(s).text + (piece + VisibleFrom(st'.Of(s).name, cs[1..], s));
    }
  }

  /** The line count `CloseSide` compares is the number of lines the text
      holds. */
  lemma CloseSideCounts(sc: SideCheck, declared: nat)
    requires CloseSide(sc, declared).Ok?
    ensures sc.name == "" && |Lines(sc.text)| == declared
    ensures CloseSide(sc, declared).value == (sc.allowed && EndsClean(sc.text))
  {
    SplitCountsLines(sc.text);
  }

  /** What an accepted hunk satisfies on each side: the text outside snippets
      has exactly the declared number of lines; the side may go on receiving
      text after the hunk exactly when it could before and its text ends
      cleanly; and a side that could not receive text received none. */
  lemma CheckHunkSound(h: HunkHeader, cs: seq<Event>, a: Allowed, s: Side)
    requires CheckHunk(h, cs, a).Ok?
    ensures forall i :: 0 <= i < |cs| ==> IsBodyEvent(cs[i])
    ensures |Lines(VisibleFrom("", cs, s))| == (if s == Left then h.leftCount else h.rightCount)
    ensures CheckHunk(h, cs, a).value.Of(s) == (a.Of(s) && EndsClean(VisibleFrom("", cs, s)))
    ensures !a.Of(s) ==> VisibleFrom("", cs, s) == ""
    ensures OpenAfter("", cs, s) == ""
  {
    var st := HunkFrom(Begin(a), cs).value;
    HunkFromText(Begin(a), cs, s);
    assert "" + VisibleFrom("", cs, s) == VisibleFrom("", cs, s);
    CloseSideCounts(st.left, h.leftCount);
    CloseSideCounts(st.right, h.rightCount);
  }

  /** A hunk whose events leave a snippet open on a side is refused; on the
      left side, which is closed first, with the ended-inside-snippet error. */
  lemma OpenSnippetRejected(h: HunkHeader, cs: seq<Event>, a: Allowed, s: Side)
    requires HunkFrom(Begin(a), cs).Ok? && OpenAfter("", cs, s) != ""
    ensures CheckHunk(h, cs, a).Fail?
    ensures s == Left ==> CheckHunk(h, cs, a) == Fail(HunkEndedInsideSnippet)
  {
    HunkFromText(Begin(a), cs, s);
  }

  /** A `\r*\n` event after side text that ends in `\r` is refused: the
      sequence would be split between two events. */
  lemma SplitCrLfRejected(st: HunkState, k: Kind, c: string, s: Side)
    requires st.Of(s).name == "" && OnSide(k, s) && EndsWith(st.Of(s).text, '\r')
    requires IsLine(c) && AllCr(c[..|c| - 1])
    ensures HunkStep(st, Content(k, c)).Fail?
    ensures s == Left ==> HunkStep(st, Content(k, c)) == Fail(SplitCrLf)
  {
    MatchCrNewlineWhole(c);
  }

  // ---- a whole grouped diff ---------------------------------------------------

  /** The events `validateHunks` lets through between hunks. */
  predicate OutsideHunk(e: Event)
  {
    e.DiffTitle? || e.Hunk? || e.Index? || e.Labels? || e.FileMode? || e.SimilarityIndex? || e.Rename?
  }

  /** One event of `validateHunks`: a new file resets both sides, a hunk is
      checked with the sides as the previous hunks of the file left them. */
  function HunksStep(a: Allowed, e: Event): Result<Allowed>
  {
    if !OutsideHunk(e) then Fail(NotAllowedOutsideHunk)
    else if e.DiffTitle? then Ok(Allowed(true, true))
    else if e.Hunk? then CheckHunk(e.header, e.contents, a)
    else Ok(a)
  }

  function HunksFrom(a: Allowed, es: seq<Event>): Result<Allowed>
    decreases |es|
  {
    if |es| == 0 then Ok(a)
    else
      var a' :- HunksStep(a, es[0]);
      HunksFrom(a', es[1..])
  }

  /** `validateHunks` yields every event it reads, so on success its output
      is its input. */
  method ValidateHunks(es: seq<Event>) returns (r: Result<seq<Event>>)
    ensures r.Ok? <==> HunksFrom(Allowed(true, true), es).Ok?
    ensures r.Ok? ==> r.value == es
    ensures r.Fail? ==> r.error == HunksFrom(Allowed(true, true), es).error
  {
    var sidesAllowed := Allowed(true, true);
    var out: seq<Event> := [];
    for i := 0 to |es|
      invariant out == es[..i]
      invariant HunksFrom(Allowed(true, true), es) == HunksFrom(sidesAllowed, es[i..])
    {
      var e := es[i];
      assert es[i..][0] == e && es[i..][1..] == es[i + 1..];
      if !OutsideHunk(e) {
        return Fail(NotAllowedOutsideHunk);
      }
      if e.DiffTitle? {
        sidesAllowed := Allowed(true, true);
      }
      if e.Hunk? {
        var checked := ValidateHunk(e.header, e.contents, sidesAllowed);
        if checked.Fail? {
          return Fail(checked.error);
        }
        sidesAllowed := checked.value;
      }
      out := out + [e];
    }
    assert es[|es|..] == [];
    assert es[..|es|] == es;
    return Ok(out);
  }

  /** Whether side `s` may receive text after `es`, computed from the texts
      alone: a new file resets it, and a hunk whose text on `s` does not end
      cleanly ends it. */
  function AllowedAfter(a: bool, es: seq<Event>, s: Side): bool
    decreases |es|
  {
    if |es| == 0 then a
    else
      var a' :=
        match es[0]
        case DiffTitle(_, _) => true
        case Hunk(_, cs) => a && EndsClean(VisibleFrom("", cs, s))
        case _ => a;
      AllowedAfter(a', es[1..], s)
  }

  /** One accepted event between hunks, on side `s`. */
  lemma HunksStepSound(a: Allowed, e: Event, s: Side)
    requires HunksStep(a, e).Ok?
    ensures OutsideHunk(e)
    ensures HunksStep(a, e).value.Of(s) == AllowedAfter(a.Of(s), [e], s)
    ensures e.Hunk? ==>
      |Lines(VisibleFrom("", e.contents, s))| == (if s == Left then e.header.leftCount else e.header.rightCount)
    ensures e.Hunk? && VisibleFrom("", e.contents, s) != "" ==> a.Of(s)
  {
    if e.Hunk? {
      CheckHunkSound(e.header, e.contents, a, s);
    }
    assert [e][1..] == [];
  }

  /** What an accepted grouped diff satisfies: every event belongs between
      hunks; every hunk's text on side `s` has as many lines as declared; and
      no hunk gives side `s` text after an earlier hunk of the same file ended
      that side without a newline. */
  lemma {:induction false} HunksSound(a: Allowed, es: seq<Event>, s: Side)
    requires HunksFrom(a, es).Ok?
    ensures HunksFrom(a, es).value.Of(s) == AllowedAfter(a.Of(s), es, s)
    ensures forall i :: 0 <= i < |es| ==> OutsideHunk(es[i])
    ensures forall i :: 0 <= i < |es| && es[i].Hunk? ==>
      |Lines(VisibleFrom("", es[i].contents, s))| == (if s == Left then es[i].header.leftCount else es[i].header.rightCount)
    ensures forall i :: 0 <= i < |es| && es[i].Hunk? && VisibleFrom("", es[i].contents, s) != "" ==>
      AllowedAfter(a.Of(s), es[..i], s)
    decreases |es|
  {
    if |es| > 0 {
      var a' := HunksStep(a, es[0]).value;
      HunksSound(a', es[1..], s);
      HunksStepSound(a, es[0], s);
      forall i | 1 <= i < |es|
        ensures es[i] == es[1..][i - 1]
        ensures AllowedAfter(a.Of(s), es[..i], s) == AllowedAfter(a'.Of(s), es[1..][..i - 1], s)
      {
        assert es[..i][0] == es[0] && es[..i][1..] == es[1..][..i - 1];
      }
      assert es[..0] == [];
    }
  }
}
