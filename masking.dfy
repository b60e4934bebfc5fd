/** `removeSnippets`: the first half of turning a hintful diff into a unified
    one. Text inside a named snippet is masked on the side the snippet is on:
    a side's own content is dropped there, and content common to both sides
    is kept only for the other side. Ignored content and the snippet lines
    themselves disappear. */
module Masking {
  import opened Wrappers
  import opened Events

  /** The snippet names open on each side; the empty name means none is. */
  datatype Names = Names(left: string, right: string)
  {
    function Of(s: Side): string
    {
      if s == Left then left else right
    }
  }

  /** What `removeSnippets` yields for one event, and the names after it. */
  function MaskEvent(n: Names, e: Event): Result<(seq<Event>, Names)>
  {
    match e
    case Content(k, c) =>
      var out :=
        match k
        case LeftContent => if n.left == "" then [e] else []
        case RightContent => if n.right == "" then [e] else []
        case IgnoreContent => []
        case _ =>
          if n.left == "" && n.right == "" then [e]
          else if n.left == "" then [Content(LeftContent, c)]
          else if n.right == "" then [Content(RightContent, c)]
          else [];
      Ok((out, n))
    case Snippet(side, name) =>
      Ok(([], if side == Left then n.(left := name) else n.(right := name)))
    case EndHunk =>
      if n.left != "" || n.right != "" then Fail(HunkEndedInsideSnippet) else Ok(([e], n))
    case Hunk(_, _) => Fail(CannotProcess)
    case _ => Ok(([e], n))
  }

  /** The events `removeSnippets` yields for `es` with names `n` open. */
  function MaskFrom(n: Names, es: seq<Event>): Result<seq<Event>>
    decreases |es|
  {
    if |es| == 0 then Ok([])
    else
      var (out, n') :- MaskEvent(n, es[0]);
      Prepend(out, MaskFrom(n', es[1..]))
  }

  function Mask(es: seq<Event>): Result<seq<Event>>
  {
    MaskFrom(Names("", ""), es)
  }

  lemma MaskFromUnfold(n: Names, es: seq<Event>)
    requires |es| > 0
    ensures MaskEvent(n, es[0]).Fail? ==> MaskFrom(n, es) == Fail(MaskEvent(n, es[0]).error)
    ensures MaskEvent(n, es[0]).Ok? ==>
      MaskFrom(n, es) == Prepend(MaskEvent(n, es[0]).value.0, MaskFrom(MaskEvent(n, es[0]).value.1, es[1..]))
  {
  }

  method RemoveSnippets(es: seq<Event>) returns (r: Result<seq<Event>>)
    ensures r == Mask(es)
  {
    var leftName := "";
    var rightName := "";
    var out: seq<Event> := [];
    PrependNothing(Mask(es));
    for i := 0 to |es|
      invariant Mask(es) == Prepend(out, MaskFrom(Names(leftName, rightName), es[i..]))
    {
      var e := es[i];
      assert es[i..][0] == e && es[i..][1..] == es[i + 1..];
      MaskFromUnfold(Names(leftName, rightName), es[i..]);
      var yielded: seq<Event> := [];
      match e {
        case Content(k, c) =>
          if k == LeftContent {
            if leftName == "" {
              yielded := [e];
            }
          } else if k == RightContent {
            if rightName == "" {
              yielded := [e];
            }
          } else if k == BothContent || k == BothLowPriorityContent {
            if leftName == "" && rightName == "" {
              yielded := [e];
            } else if leftName == "" {
              yielded := [Content(LeftContent, c)];
            } else if rightName == "" {
              yielded := [Content(RightContent, c)];
            }
          }
        case Snippet(side, name) =>
          if side == Left {
            leftName := name;
          } else {
            rightName := name;
          }
        case EndHunk =>
          if leftName != "" || rightName != "" {
            return Fail(HunkEndedInsideSnippet);
          }
          yielded := [e];
        case Hunk(_, _) =>
          return Fail(CannotProcess);
        case _ =>
          yielded := [e];
      }
      PrependPrepend(out, yielded, MaskFrom(Names(leftName, rightName), es[i + 1..]));
      out := out + yielded;
    }
    assert es[|es|..] == [];
    assert out + [] == out;
    r := Ok(out);
  }

  // ---- what masking keeps --------------------------------------------------

  /** One event: what masking yields for it on side `s` is what that side
      sees of it outside its snippet. */
  lemma MaskEventVisible(n: Names, e: Event, rest: seq<Event>, s: Side)
    requires MaskEvent(n, e).Ok?
    ensures SideText(MaskEvent(n, e).value.0, s) + VisibleFrom(MaskEvent(n, e).value.1.Of(s), rest, s)
         == VisibleFrom(n.Of(s), [e] + rest, s)
  {
    var es := [e] + rest;
    assert es[0] == e && es[1..] == rest;
    var out := MaskEvent(n, e).value.0;
    assert out == [] ==> SideText(out, s) == "";
    if |out| == 1 {
      assert out[1..] == [];
    }
  }

  /** The text each side sees outside its snippets is exactly the text that
      side has after masking. */
  lemma {:induction false} MaskKeepsVisibleText(n: Names, es: seq<Event>, s: Side)
    requires MaskFrom(n, es).Ok?
    ensures SideText(MaskFrom(n, es).value, s) == VisibleFrom(n.Of(s), es, s)
    decreases |es|
  {
    if |es| > 0 {
      MaskFromUnfold(n, es);
      var (out, n') := MaskEvent(n, es[0]).value;
      MaskKeepsVisibleText(n', es[1..], s);
      SideTextAppend(out, MaskFrom(n', es[1..]).value, s);
      MaskEventVisible(n, es[0], es[1..], s);
      assert [es[0]] + es[1..] == es;
    }
  }

  /** After masking no snippet line, ignored content or grouped hunk is
      left; every other content line belongs to one side or both. */
  predicate Plain(e: Event)
  {
    !e.Snippet? && !e.Hunk? && !(e.Content? && e.kind == IgnoreContent)
  }

  lemma {:induction false} MaskedIsPlain(n: Names, es: seq<Event>)
    requires MaskFrom(n, es).Ok?
    ensures forall i :: 0 <= i < |MaskFrom(n, es).value| ==> Plain(MaskFrom(n, es).value[i])
    decreases |es|
  {
    if |es| > 0 {
      MaskFromUnfold(n, es);
      var (out, n') := MaskEvent(n, es[0]).value;
      MaskedIsPlain(n', es[1..]);
      var all := MaskFrom(n, es).value;
      assert all == out + MaskFrom(n', es[1..]).value;
      forall i | 0 <= i < |all|
        ensures Plain(all[i])
      {
        if i >= |out| {
          assert all[i] == MaskFrom(n', es[1..]).value[i - |out|];
        }
      }
    }
  }

  /** The events that are not hunk content. */
  function Skeleton(es: seq<Event>): seq<Event>
    decreases |es|
  {
    if |es| == 0 then []
    else (if IsBodyEvent(es[0]) then [] else [es[0]]) + Skeleton(es[1..])
  }

  lemma {:induction false} SkeletonAppend(a: seq<Event>, b: seq<Event>)
    ensures Skeleton(a + b) == Skeleton(a) + Skeleton(b)
    decreases |a|
  {
    if |a| == 0 {
      assert a + b == b;
    } else {
      assert (a + b)[1..] == a[1..] + b;
      SkeletonAppend(a[1..], b);
    }
  }

  /** Masking changes only hunk content: the file events, `beginhunk` and
      `endhunk` come out as they went in, in the same order. */
  lemma {:induction false} MaskKeepsSkeleton(n: Names, es: seq<Event>)
    requires MaskFrom(n, es).Ok?
    ensures Skeleton(MaskFrom(n, es).value) == Skeleton(es)
    decreases |es|
  {
    if |es| > 0 {
      MaskFromUnfold(n, es);
      var (out, n') := MaskEvent(n, es[0]).value;
      MaskKeepsSkeleton(n', es[1..]);
      SkeletonAppend(out, MaskFrom(n', es[1..]).value);
      MaskEventSkeleton(n, es[0]);
      SkeletonAppend([es[0]], es[1..]);
      assert [es[0]] + es[1..] == es;
    }
  }

  /** One event: masking keeps it if it is not hunk content. */
  lemma MaskEventSkeleton(n: Names, e: Event)
    requires MaskEvent(n, e).Ok?
    ensures Skeleton(MaskEvent(n, e).value.0) == Skeleton([e])
  {
    var out := MaskEvent(n, e).value.0;
    assert [e][1..] == [];
    if |out| == 1 {
      assert out[1..] == [];
    }
  }

  /** A hunk that ends with a snippet still open is an error. */
  lemma EndInsideSnippet(n: Names, rest: seq<Event>)
    requires n.left != "" || n.right != ""
    ensures MaskFrom(n, [EndHunk] + rest) == Fail(HunkEndedInsideSnippet)
  {
    MaskFromUnfold(n, [EndHunk] + rest);
  }
}
