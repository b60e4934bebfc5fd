/** `collectLines`: the second half of turning a hintful diff into a unified
    one. Content arrives in arbitrary pieces; it is gathered per side and
    given out again one whole line at a time, as `leftcontent`,
    `rightcontent` or `bothcontent`. Text common to both sides stays common
    only while neither side has text of its own pending. */
module Collect {
  import opened Wrappers
  import opened Text
  import opened Events

  /** The text pending for the left side only, the right side only and both
      sides, and whether each side's last hunk ended without a line feed. */
  datatype Pending = Pending(left: string, right: string, both: string, leftEnded: bool, rightEnded: bool)
  {
    /** All text pending for side `s`. */
    function Of(s: Side): string
    {
      (if s == Left then left else right) + both
    }

    predicate Ended(s: Side)
    {
      if s == Left then leftEnded else rightEnded
    }

    predicate Empty()
    {
      left == "" && right == "" && both == ""
    }
  }

  const Start := Pending("", "", "", false, false)

  /** The invariant `collectLines` checks before and after flushing: common
      text is never pending beside one-sided text, and nothing is pending for
      a side whose last hunk ended without a line feed. */
  predicate Broken(p: Pending)
  {
    || (p.both != "" && (p.left != "" || p.right != ""))
    || (p.leftEnded && (p.left != "" || p.both != ""))
    || (p.rightEnded && (p.right != "" || p.both != ""))
  }

  /** The whole lines at the front of `text` as events of kind `k`, and the
      text after the last line feed. */
  function FlushText(k: Kind, text: string): (r: (seq<Event>, string))
    ensures '\n' !in r.1 && |r.1| <= |text|
    decreases |text|
  {
    var i := NewlineIndex(text);
    if i == |text| then ([], text)
    else
      var rest := FlushText(k, text[i + 1..]);
      ([Content(k, text[..i + 1])] + rest.0, rest.1)
  }

  method FlushPending(k: Kind, text: string) returns (lines: seq<Event>, rest: string)
    ensures (lines, rest) == FlushText(k, text)
  {
    lines := [];
    rest := text;
    assert [] + FlushText(k, text).0 == FlushText(k, text).0;
    while '\n' in rest
      invariant FlushText(k, text) == (lines + FlushText(k, rest).0, FlushText(k, rest).1)
      decreases |rest|
    {
      var i := NewlineIndex(rest);
      assert FlushText(k, rest) == ([Content(k, rest[..i + 1])] + FlushText(k, rest[i + 1..]).0, FlushText(k, rest[i + 1..]).1);
      assert lines + ([Content(k, rest[..i + 1])] + FlushText(k, rest[i + 1..]).0)
          == (lines + [Content(k, rest[..i + 1])]) + FlushText(k, rest[i + 1..]).0;
      lines := lines + [Content(k, rest[..i + 1])];
      rest := rest[i + 1..];
    }
    assert lines + [] == lines;
  }

  /** The flushing loops that start every step: left, then right, then
      common text. */
  function Flush(p: Pending): (seq<Event>, Pending)
  {
    var (l, lr) := FlushText(LeftContent, p.left);
    var (r, rr) := FlushText(RightContent, p.right);
    var (b, br) := FlushText(BothContent, p.both);
    (l + r + b, p.(left := lr, right := rr, both := br))
  }

  /** What `endhunk` gives out: whatever text is still pending. */
  function EndChunks(p: Pending): seq<Event>
  {
    (if p.left != "" then [Content(LeftContent, p.left)] else [])
    + (if p.right != "" then [Content(RightContent, p.right)] else [])
    + (if p.both != "" then [Content(BothContent, p.both)] else [])
  }

  /** Content of kind `k` arriving: one-sided text splits pending common
      text between the sides first; common text stays common only while
      neither side has text of its own. */
  function Receive(q: Pending, k: Kind, c: string): Pending
    requires k != IgnoreContent
  {
    if k == LeftContent || k == RightContent then
      var q' := if q.both != "" then q.(left := q.both, right := q.both, both := "") else q;
      if k == LeftContent then q'.(left := q'.left + c) else q'.(right := q'.right + c)
    else if q.left == "" && q.right == "" then q.(both := q.both + c)
    else q.(left := q.left + c, right := q.right + c)
  }

  /** One event of `collectLines`: what it yields and the state after it. */
  function CollectStep(p: Pending, e: Event): Result<(seq<Event>, Pending)>
  {
    if Broken(p) then Fail(BrokenInvariant)
    else
      var (flushed, q) := Flush(p);
      if Broken(q) then Fail(BrokenInvariant)
      else
        match e
        case Content(k, c) =>
          if k == IgnoreContent then Fail(CannotProcess) else Ok((flushed, Receive(q, k, c)))
        case EndHunk =>
          Ok((flushed + EndChunks(q) + [EndHunk],
              Pending("", "", "",
                      q.leftEnded || q.left != "" || q.both != "",
                      q.rightEnded || q.right != "" || q.both != "")))
        case DiffTitle(_, _) => Ok((flushed + [e], q.(leftEnded := false, rightEnded := false)))
        case Snippet(_, _) => Fail(CannotProcess)
        case Hunk(_, _) => Fail(CannotProcess)
        case _ => Ok((flushed + [e], q))
  }

  /** The events yielded for `es` from state `p`, and the state at the end. */
  function CollectFrom(p: Pending, es: seq<Event>): Result<(seq<Event>, Pending)>
    decreases |es|
  {
    if |es| == 0 then Ok(([], p))
    else
      var (out, q) :- CollectStep(p, es[0]);
      PrependFirst(out, CollectFrom(q, es[1..]))
  }

  function Collect(es: seq<Event>): Result<seq<Event>>
  {
    var (out, _) :- CollectFrom(Start, es);
    Ok(out)
  }

  lemma CollectFromUnfold(p: Pending, es: seq<Event>)
    requires |es| > 0
    ensures CollectStep(p, es[0]).Fail? ==> CollectFrom(p, es) == Fail(CollectStep(p, es[0]).error)
    ensures CollectStep(p, es[0]).Ok? ==>
      CollectFrom(p, es) == PrependFirst(CollectStep(p, es[0]).value.0, CollectFrom(CollectStep(p, es[0]).value.1, es[1..]))
  {
  }

  /** The body of the loop of `collectLines`: one event handled from state
      `p`. */
  method CollectEvent(p: Pending, e: Event) returns (r: Result<(seq<Event>, Pending)>)
    ensures r == CollectStep(p, e)
  {
    if Broken(p) {
      return Fail(BrokenInvariant);
    }
    var yielded, q := FlushAll(p);
    if Broken(q) {
      return Fail(BrokenInvariant);
    }
    match e {
      case Content(k, c) =>
        if k == IgnoreContent {
          return Fail(CannotProcess);
        }
        var q' := ReceiveContent(q, k, c);
        r := Ok((yielded, q'));
      case EndHunk =>
        var chunks, q' := CloseHunk(q);
        r := Ok((yielded + chunks + [e], q'));
      case DiffTitle(_, _) =>
        r := Ok((yielded + [e], q.(leftEnded := false, rightEnded := false)));
      case Snippet(_, _) =>
        return Fail(CannotProcess);
      case Hunk(_, _) =>
        return Fail(CannotProcess);
      case _ =>
        r := Ok((yielded + [e], q));
    }
  }

  /** The flushing loops: whole lines of left, then right, then common text. */
  method FlushAll(p: Pending) returns (yielded: seq<Event>, q: Pending)
    ensures (yielded, q) == Flush(p)
  {
    var l, left := FlushPending(LeftContent, p.left);
    var r, right := FlushPending(RightContent, p.right);
    var b, both := FlushPending(BothContent, p.both);
    yielded := l + r + b;
    q := Pending(left, right, both, p.leftEnded, p.rightEnded);
  }

  /** Content of kind `k` added to the pending text. */
  method ReceiveContent(q: Pending, k: Kind, c: string) returns (q': Pending)
    requires k != IgnoreContent
    ensures q' == Receive(q, k, c)
  {
    var left, right, both := q.left, q.right, q.both;
    if k == LeftContent || k == RightContent {
      if both != "" {
        left, right, both := both, both, "";
      }
      if k == LeftContent {
        left := left + c;
      } else {
        right := right + c;
      }
    } else {
      if left == "" && right == "" {
        both := both + c;
      } else {
        left, right := left + c, right + c;
      }
    }
    q' := Pending(left, right, both, q.leftEnded, q.rightEnded);
  }

  /** `endhunk`: the pending text given out, and the sides that had some
      marked as ended. */
  method CloseHunk(q: Pending) returns (chunks: seq<Event>, q': Pending)
    ensures chunks == EndChunks(q)
    ensures q' == Pending("", "", "", q.leftEnded || q.left != "" || q.both != "",
                          q.rightEnded || q.right != "" || q.both != "")
  {
    var leftEnded, rightEnded := q.leftEnded, q.rightEnded;
    chunks := [];
    if q.left != "" {
      chunks := chunks + [Content(LeftContent, q.left)];
      leftEnded := true;
    }
    if q.right != "" {
      chunks := chunks + [Content(RightContent, q.right)];
      rightEnded := true;
    }
    if q.both != "" {
      chunks := chunks + [Content(BothContent, q.both)];
      leftEnded, rightEnded := true, true;
    }
    q' := Pending("", "", "", leftEnded, rightEnded);
  }

  method CollectLines(es: seq<Event>) returns (r: Result<seq<Event>>)
    ensures r == Collect(es)
  {
    var state := Start;
    var out: seq<Event> := [];
    assert CollectFrom(Start, es) == PrependFirst(out, CollectFrom(Start, es)) by {
      if CollectFrom(Start, es).Ok? {
        assert [] + CollectFrom(Start, es).value.0 == CollectFrom(Start, es).value.0;
      }
    }
    for i := 0 to |es|
      invariant CollectFrom(Start, es) == PrependFirst(out, CollectFrom(state, es[i..]))
    {
      assert es[i..][0] == es[i] && es[i..][1..] == es[i + 1..];
      CollectFromUnfold(state, es[i..]);
      var step := CollectEvent(state, es[i]);
      if step.Fail? {
        return Fail(step.error);
      }
      PrependFirstPrependFirst(out, step.value.0, CollectFrom(step.value.1, es[i + 1..]));
      out := out + step.value.0;
      state := step.value.1;
    }
    assert es[|es|..] == [];
    assert out + [] == out;
    r := Ok(out);
  }

  // ---- flushing --------------------------------------------------------------

  /** Flushing gives out whole lines of kind `k` and keeps the rest. */
  lemma {:induction false} FlushTextLines(k: Kind, text: string)
    ensures forall i :: 0 <= i < |FlushText(k, text).0| ==>
      FlushText(k, text).0[i].Content? && FlushText(k, text).0[i].kind == k && IsLine(FlushText(k, text).0[i].content)
    decreases |text|
  {
    var i := NewlineIndex(text);
    if i < |text| {
      FlushTextLines(k, text[i + 1..]);
      assert IsLine(text[..i + 1]) by {
        assert forall j :: 0 <= j < i ==> text[..i + 1][j] == text[j];
      }
    }
  }

  lemma SideTextCons(e: Event, es: seq<Event>, s: Side)
    ensures SideText([e] + es, s) == (if e.Content? && OnSide(e.kind, s) then e.content else "") + SideText(es, s)
  {
    assert ([e] + es)[0] == e && ([e] + es)[1..] == es;
  }

  /** Flushing loses no text: the side's part of the lines given out, and
      the rest, spell the text again. */
  lemma {:induction false} FlushTextSide(k: Kind, text: string, s: Side)
    ensures SideText(FlushText(k, text).0, s) + (if OnSide(k, s) then FlushText(k, text).1 else "")
         == (if OnSide(k, s) then text else "")
    decreases |text|
  {
    var i := NewlineIndex(text);
    if i < |text| {
      var rest := FlushText(k, text[i + 1..]);
      FlushTextSide(k, text[i + 1..], s);
      SideTextCons(Content(k, text[..i + 1]), rest.0, s);
      assert text == text[..i + 1] + text[i + 1..];
    }
  }

  lemma FlushOfEmpty(k: Kind)
    ensures FlushText(k, "") == ([], "")
  {
  }

  /** Flushing from a sound state keeps each side's text: what it gives out
      for the side, then what stays pending, is what was pending. */
  lemma FlushSide(p: Pending, s: Side)
    requires !Broken(p)
    ensures SideText(Flush(p).0, s) + Flush(p).1.Of(s) == p.Of(s)
  {
    if s == Left {
      FlushSideLeft(p);
    } else {
      FlushSideRight(p);
    }
  }

  /** The string algebra of `FlushSideLeft` and `FlushSideRight`: the text
      given out for a side (its own lines `x` and the other side's `y`, in
      flushing order, then the common lines `z`), followed by the rests. */
  lemma KeepSide(x: string, y: string, z: string, xr: string, zr: string, own: string, both: string, ownFirst: bool)
    requires y == "" && x + xr == own && z + zr == both
    requires own == "" ==> x == "" && xr == ""
    requires both == "" ==> z == "" && zr == ""
    requires own == "" || both == ""
    ensures (if ownFirst then x + y else y + x) + z + (xr + zr) == own + both
  {
  }

  lemma FlushSideLeft(p: Pending)
    requires !Broken(p)
    ensures SideText(Flush(p).0, Left) + Flush(p).1.Of(Left) == p.Of(Left)
  {
    var l := FlushText(LeftContent, p.left);
    var r := FlushText(RightContent, p.right);
    var b := FlushText(BothContent, p.both);
    assert Flush(p).0 == l.0 + r.0 + b.0 && Flush(p).1.Of(Left) == l.1 + b.1;
    SideTextAppend(l.0 + r.0, b.0, Left);
    SideTextAppend(l.0, r.0, Left);
    FlushTextSide(RightContent, p.right, Left);
    FlushTextSide(LeftContent, p.left, Left);
    FlushTextSide(BothContent, p.both, Left);
    FlushOfEmpty(LeftContent);
    FlushOfEmpty(BothContent);
    KeepSide(SideText(l.0, Left), SideText(r.0, Left), SideText(b.0, Left), l.1, b.1, p.left, p.both, true);
  }

  lemma FlushSideRight(p: Pending)
    requires !Broken(p)
    ensures SideText(Flush(p).0, Right) + Flush(p).1.Of(Right) == p.Of(Right)
  {
    var l := FlushText(LeftContent, p.left);
    var r := FlushText(RightContent, p.right);
    var b := FlushText(BothContent, p.both);
    assert Flush(p).0 == l.0 + r.0 + b.0 && Flush(p).1.Of(Right) == r.1 + b.1;
    SideTextAppend(l.0 + r.0, b.0, Right);
    SideTextAppend(l.0, r.0, Right);
    FlushTextSide(LeftContent, p.left, Right);
    FlushTextSide(RightContent, p.right, Right);
    FlushTextSide(BothContent, p.both, Right);
    FlushOfEmpty(RightContent);
    FlushOfEmpty(BothContent);
    KeepSide(SideText(r.0, Right), SideText(l.0, Right), SideText(b.0, Right), r.1, b.1, p.right, p.both, false);
  }

  /** Flushing only takes text away, so the second check of the invariant in
      a step never fails when the first one passed. */
  lemma FlushKeepsInvariant(p: Pending)
    requires !Broken(p)
    ensures !Broken(Flush(p).1)
  {
  }

  // ---- conservation of text ----------------------------------------------

  /** Arriving content adds to the text pending for the sides it is on. */
  lemma ReceiveSide(q: Pending, k: Kind, c: string, s: Side)
    requires k != IgnoreContent && !Broken(q)
    ensures Receive(q, k, c).Of(s) == q.Of(s) + (if OnSide(k, s) then c else "")
  {
    if k == LeftContent || k == RightContent {
      if q.both != "" {
        assert q.left == "" && q.right == "";
      }
    } else if !(q.left == "" && q.right == "") {
      assert q.both == "";
    }
  }

  lemma PieceSide(k: Kind, text: string, s: Side)
    ensures SideText(if text != "" then [Content(k, text)] else [], s) == if OnSide(k, s) then text else ""
  {
    if text != "" {
      SideTextCons(Content(k, text), [], s);
      assert [Content(k, text)] + [] == [Content(k, text)];
    }
  }

  /** What `endhunk` gives out for a side is all that side had pending. */
  lemma EndChunksSide(q: Pending, s: Side)
    ensures SideText(EndChunks(q), s) == q.Of(s)
  {
    var a := if q.left != "" then [Content(LeftContent, q.left)] else [];
    var b := if q.right != "" then [Content(RightContent, q.right)] else [];
    var c := if q.both != "" then [Content(BothContent, q.both)] else [];
    assert EndChunks(q) == a + b + c;
    SideTextAppend(a + b, c, s);
    SideTextAppend(a, b, s);
    PieceSide(LeftContent, q.left, s);
    PieceSide(RightContent, q.right, s);
    PieceSide(BothContent, q.both, s);
    if s == Left {
      assert SideText(b, s) == "";
      assert SideText(a, s) + "" == q.left;
    } else {
      assert SideText(a, s) == "";
      assert "" + SideText(b, s) == q.right;
    }
  }

  lemma Chain(p: string, e: string, r: string, o1: string, q: string, o2: string, qf: string)
    requires p + e == o1 + q && q + r == o2 + qf
    ensures p + (e + r) == (o1 + o2) + qf
  {
    assert p + (e + r) == (p + e) + r;
    assert (o1 + q) + r == o1 + (q + r);
  }

  lemma Regroup(f: string, q0: string, t: string, q: string, p: string)
    requires f + q0 == p && q0 + t == q
    ensures p + t == f + q
  {
    assert p + t == f + (q0 + t);
  }

  /** One step loses no text: what was pending for a side, and the side's
      part of the event, is what the step gives out for the side and what
      stays pending. */
  lemma StepConserves(p: Pending, e: Event, s: Side)
    requires CollectStep(p, e).Ok?
    ensures p.Of(s) + SideText([e], s) == SideText(CollectStep(p, e).value.0, s) + CollectStep(p, e).value.1.Of(s)
  {
    FlushSide(p, s);
    SideTextCons(e, [], s);
    assert [e] + [] == [e];
    if e.Content? {
      ContentConserves(p, e, s);
    } else if e.EndHunk? {
      EndConserves(p, s);
    } else {
      OtherConserves(p, e, s);
    }
  }

  lemma ContentConserves(p: Pending, e: Event, s: Side)
    requires e.Content? && CollectStep(p, e).Ok?
    requires SideText(Flush(p).0, s) + Flush(p).1.Of(s) == p.Of(s)
    requires SideText([e], s) == if OnSide(e.kind, s) then e.content else ""
    ensures p.Of(s) + SideText([e], s) == SideText(CollectStep(p, e).value.0, s) + CollectStep(p, e).value.1.Of(s)
  {
    var f := Flush(p);
    assert CollectStep(p, e) == Ok((f.0, Receive(f.1, e.kind, e.content)));
    ReceiveSide(f.1, e.kind, e.content, s);
    Regroup(SideText(f.0, s), f.1.Of(s), SideText([e], s), Receive(f.1, e.kind, e.content).Of(s), p.Of(s));
  }

  lemma EndConserves(p: Pending, s: Side)
    requires CollectStep(p, EndHunk).Ok?
    requires SideText(Flush(p).0, s) + Flush(p).1.Of(s) == p.Of(s)
    ensures p.Of(s) + SideText([EndHunk], s) == SideText(CollectStep(p, EndHunk).value.0, s) + CollectStep(p, EndHunk).value.1.Of(s)
  {
    var f := Flush(p);
    var out := f.0 + EndChunks(f.1) + [EndHunk];
    assert CollectStep(p, EndHunk).value.0 == out;
    assert CollectStep(p, EndHunk).value.1.Of(s) == "";
    EndChunksSide(f.1, s);
    SideTextAppend(f.0 + EndChunks(f.1), [EndHunk], s);
    SideTextAppend(f.0, EndChunks(f.1), s);
    SideTextCons(EndHunk, [], s);
    assert [EndHunk] + [] == [EndHunk];
  }

  lemma OtherConserves(p: Pending, e: Event, s: Side)
    requires !e.Content? && !e.EndHunk? && CollectStep(p, e).Ok?
    requires SideText(Flush(p).0, s) + Flush(p).1.Of(s) == p.Of(s)
    requires SideText([e], s) == ""
    ensures p.Of(s) + SideText([e], s) == SideText(CollectStep(p, e).value.0, s) + CollectStep(p, e).value.1.Of(s)
  {
    var f := Flush(p);
    assert CollectStep(p, e).value.0 == f.0 + [e];
    assert CollectStep(p, e).value.1.Of(s) == f.1.Of(s);
    SideTextAppend(f.0, [e], s);
  }

  /** `collectLines` loses no text: for each side, what was pending and what
      arrives is what is given out and what is still pending at the end. */
  lemma {:induction false} CollectConserves(p: Pending, es: seq<Event>, s: Side)
    requires CollectFrom(p, es).Ok?
    ensures p.Of(s) + SideText(es, s) == SideText(CollectFrom(p, es).value.0, s) + CollectFrom(p, es).value.1.Of(s)
    decreases |es|
  {
    if |es| > 0 {
      CollectFromUnfold(p, es);
      var (out, q) := CollectStep(p, es[0]).value;
      CollectConserves(q, es[1..], s);
      StepConserves(p, es[0], s);
      assert [es[0]] + es[1..] == es;
      SideTextAppend([es[0]], es[1..], s);
      SideTextAppend(out, CollectFrom(q, es[1..]).value.0, s);
      Chain(p.Of(s), SideText([es[0]], s), SideText(es[1..], s), SideText(out, s), q.Of(s),
            SideText(CollectFrom(q, es[1..]).value.0, s), CollectFrom(q, es[1..]).value.1.Of(s));
    }
  }

  /** Between hunks nothing is pending: a stream whose every hunk ends with
      `endhunk` leaves nothing behind. */
  lemma {:induction false} FramedEndsEmpty(p: Pending, es: seq<Event>, inHunk: bool)
    requires Framed(es, inHunk) && (!inHunk ==> p.Empty())
    requires CollectFrom(p, es).Ok?
    ensures CollectFrom(p, es).value.1.Empty()
    decreases |es|
  {
    if |es| > 0 {
      CollectFromUnfold(p, es);
      var e := es[0];
      var q := CollectStep(p, e).value.1;
      if e.EndHunk? {
        assert q.Empty();
        FramedEndsEmpty(q, es[1..], false);
      } else if inHunk {
        FramedEndsEmpty(q, es[1..], true);
      } else {
        FlushOfEmpty(LeftContent);
        FlushOfEmpty(RightContent);
        FlushOfEmpty(BothContent);
        assert Flush(p).1 == p;
        FramedEndsEmpty(q, es[1..], e.BeginHunk?);
      }
    }
  }

  /** For a stream as the parser makes it, `collectLines` gives out for each
      side exactly the text that side received. */
  lemma CollectKeepsText(es: seq<Event>, s: Side)
    requires Framed(es, false) && Collect(es).Ok?
    ensures SideText(Collect(es).value, s) == SideText(es, s)
  {
    CollectConserves(Start, es, s);
    FramedEndsEmpty(Start, es, false);
    var out := CollectFrom(Start, es).value.0;
    assert Collect(es).value == out;
    assert Start.Of(s) == "" && CollectFrom(Start, es).value.1.Of(s) == "";
    assert "" + SideText(es, s) == SideText(out, s) + "";
    assert "" + SideText(es, s) == SideText(es, s) && SideText(out, s) + "" == SideText(out, s);
  }

  // ---- the invariant -------------------------------------------------------

  /** Text for side `s` arriving after the side's last hunk ended without a
      line feed. */
  predicate TextOnEndedSide(p: Pending, e: Event, s: Side)
  {
    e.Content? && e.content != "" && OnSide(e.kind, s) && p.Ended(s)
  }

  /** A step from any state it accepts keeps the invariant, unless text
      arrives for a side that has ended. */
  lemma StepKeepsInvariant(p: Pending, e: Event)
    requires CollectStep(p, e).Ok?
    requires !TextOnEndedSide(p, e, Left) && !TextOnEndedSide(p, e, Right)
    ensures !Broken(CollectStep(p, e).value.1)
  {
    var q0 := Flush(p).1;
    assert !Broken(q0) && q0.leftEnded == p.leftEnded && q0.rightEnded == p.rightEnded;
    if e.Content? {
      assert CollectStep(p, e).value.1 == Receive(q0, e.kind, e.content);
    }
  }

  /** ... and text arriving for a side that has ended breaks the invariant, so
      the next event is refused. */
  lemma EndedSideBreaksInvariant(p: Pending, e: Event, s: Side)
    requires CollectStep(p, e).Ok? && TextOnEndedSide(p, e, s)
    ensures Broken(CollectStep(p, e).value.1)
  {
    var q0 := Flush(p).1;
    assert !Broken(q0) && q0.Ended(s);
    assert CollectStep(p, e).value.1 == Receive(q0, e.kind, e.content);
  }

  lemma EndedSideRejected(p: Pending, e: Event, s: Side, next: Event, rest: seq<Event>)
    requires CollectStep(p, e).Ok? && TextOnEndedSide(p, e, s)
    ensures CollectFrom(p, [e, next] + rest) == Fail(BrokenInvariant)
  {
    var es := [e, next] + rest;
    assert es[0] == e && es[1..] == [next] + rest && ([next] + rest)[0] == next;
    CollectFromUnfold(p, es);
    EndedSideBreaksInvariant(p, e, s);
    CollectFromUnfold(CollectStep(p, e).value.1, [next] + rest);
  }

  // ---- output a line at a time ------------------------------------------------

  /** Content is given out one whole line at a time; a piece that is not a
      whole line has no line feed at all and is followed, through such pieces
      only, by `endhunk`. */
  predicate Chunked(es: seq<Event>)
    decreases |es|
  {
    if |es| == 0 then true
    else if es[0].Content? && !IsLine(es[0].content) then '\n' !in es[0].content && ClosingRun(es[1..])
    else Chunked(es[1..])
  }

  /** Pieces without a line feed, then `endhunk`, then a chunked stream. */
  predicate ClosingRun(es: seq<Event>)
    decreases |es|
  {
    && |es| > 0
    && ((es[0] == EndHunk && Chunked(es[1..]))
        || (es[0].Content? && '\n' !in es[0].content && ClosingRun(es[1..])))
  }

  lemma {:induction false} ChunkedAppend(a: seq<Event>, b: seq<Event>)
    requires Chunked(a) && Chunked(b)
    ensures Chunked(a + b)
    decreases |a|
  {
    if |a| > 0 {
      assert (a + b)[0] == a[0] && (a + b)[1..] == a[1..] + b;
      if a[0].Content? && !IsLine(a[0].content) {
        ClosingRunAppend(a[1..], b);
      } else {
        ChunkedAppend(a[1..], b);
      }
    } else {
      assert a + b == b;
    }
  }

  lemma {:induction false} ClosingRunAppend(a: seq<Event>, b: seq<Event>)
    requires ClosingRun(a) && Chunked(b)
    ensures ClosingRun(a + b)
    decreases |a|
  {
    assert (a + b)[0] == a[0] && (a + b)[1..] == a[1..] + b;
    if a[0] == EndHunk && Chunked(a[1..]) {
      ChunkedAppend(a[1..], b);
    } else {
      ClosingRunAppend(a[1..], b);
    }
  }

  /** Whole lines only. */
  lemma {:induction false} LinesChunked(es: seq<Event>)
    requires forall i :: 0 <= i < |es| ==> es[i].Content? && IsLine(es[i].content)
    ensures Chunked(es)
    decreases |es|
  {
    if |es| > 0 {
      LinesChunked(es[1..]);
    }
  }

  /** Pieces without a line feed, then `endhunk`. */
  lemma {:induction false} PiecesThenEnd(cs: seq<Event>)
    requires forall i :: 0 <= i < |cs| ==> cs[i].Content? && '\n' !in cs[i].content
    ensures ClosingRun(cs + [EndHunk]) && Chunked(cs + [EndHunk])
    decreases |cs|
  {
    if |cs| == 0 {
      assert cs + [EndHunk] == [EndHunk] && [EndHunk][1..] == [];
    } else {
      PiecesThenEnd(cs[1..]);
      assert (cs + [EndHunk])[1..] == cs[1..] + [EndHunk];
      assert !IsLine(cs[0].content) ==> Chunked(cs + [EndHunk]);
    }
  }

  lemma FlushChunked(p: Pending)
    ensures forall i :: 0 <= i < |Flush(p).0| ==> Flush(p).0[i].Content? && IsLine(Flush(p).0[i].content)
  {
    var l := FlushText(LeftContent, p.left);
    var r := FlushText(RightContent, p.right);
    var b := FlushText(BothContent, p.both);
    FlushTextLines(LeftContent, p.left);
    FlushTextLines(RightContent, p.right);
    FlushTextLines(BothContent, p.both);
    assert Flush(p).0 == l.0 + r.0 + b.0;
  }

  lemma StepChunked(p: Pending, e: Event)
    requires CollectStep(p, e).Ok?
    ensures Chunked(CollectStep(p, e).value.0)
  {
    var f := Flush(p);
    var tail := StepOutput(p, e);
    FlushChunked(p);
    LinesChunked(f.0);
    if e.EndHunk? {
      EndChunked(p);
    } else if !e.Content? {
      assert [e][1..] == [];
    }
    ChunkedAppend(f.0, tail);
  }

  /** What one step yields after its flushed lines. */
  lemma StepOutput(p: Pending, e: Event) returns (tail: seq<Event>)
    requires CollectStep(p, e).Ok?
    ensures CollectStep(p, e).value.0 == Flush(p).0 + tail
    ensures tail == if e.EndHunk? then EndChunks(Flush(p).1) + [EndHunk] else if e.Content? then [] else [e]
  {
    var f := Flush(p);
    tail := if e.EndHunk? then EndChunks(f.1) + [EndHunk] else if e.Content? then [] else [e];
    if e.EndHunk? {
      assert CollectStep(p, e).value.0 == f.0 + EndChunks(f.1) + [EndHunk];
    } else if e.Content? {
      assert f.0 + [] == f.0;
    }
  }

  /** The text still pending after flushing, given out at `endhunk`, is
      pieces without a line feed. */
  lemma EndChunked(p: Pending)
    ensures Chunked(EndChunks(Flush(p).1) + [EndHunk])
  {
    var cs := EndChunks(Flush(p).1);
    assert forall i :: 0 <= i < |cs| ==> cs[i].Content? && '\n' !in cs[i].content;
    PiecesThenEnd(cs);
  }

  /** Everything `collectLines` gives out is chunked. */
  lemma {:induction false} CollectChunked(p: Pending, es: seq<Event>)
    requires CollectFrom(p, es).Ok?
    ensures Chunked(CollectFrom(p, es).value.0)
    decreases |es|
  {
    if |es| > 0 {
      CollectFromUnfold(p, es);
      StepChunked(p, es[0]);
      CollectChunked(CollectStep(p, es[0]).value.1, es[1..]);
      ChunkedAppend(CollectStep(p, es[0]).value.0, CollectFrom(CollectStep(p, es[0]).value.1, es[1..]).value.0);
    }
  }
}
