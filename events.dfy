/** The events every stage of the toolkit consumes and produces. In the program
    an event is a dictionary keyed by `op`; here each operation is a
    constructor, and the operations that exist once per side carry a `Side`. */
module Events {
  import opened Wrappers

  datatype Side = Left | Right {
    function Flip(): Side
    {
      if this == Left then Right else Left
    }
  }

  /** The five content operations: `leftcontent`, `rightcontent`,
      `bothcontent`, `bothlowprioritycontent` and `ignorecontent`. */
  datatype Kind = LeftContent | RightContent | BothContent | BothLowPriorityContent | IgnoreContent

  /** The fields of a `beginhunk` event. The raw strings are the groups of the
      header line (a count group keeps its leading comma, and is absent when
      the header omits it); the numbers are what `int()` makes of them. The
      hunk line count exists only in the hintful dialect. */
  datatype HunkHeader = HunkHeader(
    leftStartRaw: string,
    leftCountRaw: Option<string>,
    hunkLineCountRaw: Option<string>,
    rightStartRaw: string,
    rightCountRaw: Option<string>,
    comment: string,
    leftStart: nat,
    rightStart: nat,
    leftCount: nat,
    rightCount: nat,
    hunkLineCount: Option<nat>)

  datatype Event =
    | DiffTitle(leftFile: string, rightFile: string)
    | Index(left: string, right: string, indexMode: Option<string>)
    | Labels(left: string, right: string)
    | SimilarityIndex(similarity: string)
    | Rename(left: string, right: string)
    | FileMode(side: Side, mode: string)     // `leftfilemode` (deleted) / `rightfilemode` (new)
    | BeginHunk(header: HunkHeader)
    | Content(kind: Kind, content: string)
    | Snippet(side: Side, name: string)      // `leftsnippet` / `rightsnippet`
    | EndHunk
    | Hunk(header: HunkHeader, contents: seq<Event>)   // produced by grouping

  /** The file-level events that may appear between hunks. */
  predicate IsFileEvent(e: Event)
  {
    e.DiffTitle? || e.Index? || e.Labels? || e.SimilarityIndex? || e.Rename? || e.FileMode?
  }

  /** The events a hunk parser yields between `beginhunk` and `endhunk`. */
  predicate IsBodyEvent(e: Event)
  {
    e.Content? || e.Snippet?
  }

  /** Whether content of kind `k` is text on side `s` (ignored content is on
      neither side). */
  predicate OnSide(k: Kind, s: Side)
  {
    match k
    case LeftContent => s == Left
    case RightContent => s == Right
    case BothContent => true
    case BothLowPriorityContent => true
    case IgnoreContent => false
  }

  function SideContent(s: Side): Kind
  {
    if s == Left then LeftContent else RightContent
  }

  function KindName(k: Kind): string
  {
    match k
    case LeftContent => "leftcontent"
    case RightContent => "rightcontent"
    case BothContent => "bothcontent"
    case BothLowPriorityContent => "bothlowprioritycontent"
    case IgnoreContent => "ignorecontent"
  }

  /** The operation name the program gives the event. */
  function OpName(e: Event): string
  {
    match e
    case DiffTitle(_, _) => "difftitle"
    case Index(_, _, _) => "index"
    case Labels(_, _) => "labels"
    case SimilarityIndex(_) => "similarity-index"
    case Rename(_, _) => "rename"
    case FileMode(s, _) => if s == Left then "leftfilemode" else "rightfilemode"
    case BeginHunk(_) => "beginhunk"
    case Content(k, _) => KindName(k)
    case Snippet(s, _) => if s == Left then "leftsnippet" else "rightsnippet"
    case EndHunk => "endhunk"
    case Hunk(_, _) => "hunk"
  }

  /** The shape of the parser's output: file events between hunks, and every
      hunk a `beginhunk`, its body events and an `endhunk`. `inHunk` says
      whether a hunk is open. */
  predicate Framed(es: seq<Event>, inHunk: bool)
    decreases |es|
  {
    if |es| == 0 then !inHunk
    else if inHunk then
      (IsBodyEvent(es[0]) && Framed(es[1..], true)) || (es[0].EndHunk? && Framed(es[1..], false))
    else
      (IsFileEvent(es[0]) && Framed(es[1..], false)) || (es[0].BeginHunk? && Framed(es[1..], true))
  }

  /** One hunk as a hunk parser yields it: `beginhunk`, body events, `endhunk`. */
  predicate IsHunkEvents(evs: seq<Event>)
  {
    && |evs| >= 2 && evs[0].BeginHunk? && evs[|evs| - 1] == EndHunk
    && forall k :: 0 < k < |evs| - 1 ==> IsBodyEvent(evs[k])
  }

  lemma {:induction false} FramedBody(body: seq<Event>, tail: seq<Event>)
    requires forall k :: 0 <= k < |body| ==> IsBodyEvent(body[k])
    requires Framed(tail, false)
    ensures Framed(body + [EndHunk] + tail, true)
    decreases |body|
  {
    if |body| == 0 {
      assert (body + [EndHunk] + tail)[1..] == tail;
    } else {
      FramedBody(body[1..], tail);
      assert (body + [EndHunk] + tail)[1..] == body[1..] + [EndHunk] + tail;
    }
  }

  /** A hunk followed by a framed stream is a framed stream. */
  lemma FramedHunk(evs: seq<Event>, tail: seq<Event>)
    requires IsHunkEvents(evs)
    requires Framed(tail, false)
    ensures Framed(evs + tail, false)
  {
    var body := evs[1..|evs| - 1];
    FramedBody(body, tail);
    assert evs == [evs[0]] + body + [EndHunk];
    assert (evs + tail)[1..] == body + [EndHunk] + tail;
  }

  // ---- the text each side sees ---------------------------------------------

  /** The text of the content events on side `s`, in order. */
  function SideText(es: seq<Event>, s: Side): string
    decreases |es|
  {
    if |es| == 0 then ""
    else (if es[0].Content? && OnSide(es[0].kind, s) then es[0].content else "") + SideText(es[1..], s)
  }

  lemma {:induction false} SideTextAppend(a: seq<Event>, b: seq<Event>, s: Side)
    ensures SideText(a + b, s) == SideText(a, s) + SideText(b, s)
    decreases |a|
  {
    if |a| == 0 {
      assert a + b == b;
    } else {
      assert (a + b)[1..] == a[1..] + b;
      SideTextAppend(a[1..], b, s);
    }
  }

  /** The text on side `s` outside named snippets: a `leftsnippet` or
      `rightsnippet` event names the snippet that the following lines of its
      side belong to, and an empty name closes it. `name` is the snippet open
      on side `s` before `es`. */
  function VisibleFrom(name: string, es: seq<Event>, s: Side): string
    decreases |es|
  {
    if |es| == 0 then ""
    else match es[0]
      case Snippet(side, n) => VisibleFrom(if side == s then n else name, es[1..], s)
      case Content(k, c) => (if name == "" && OnSide(k, s) then c else "") + VisibleFrom(name, es[1..], s)
      case _ => VisibleFrom(name, es[1..], s)
  }

  /** The snippet open on side `s` after `es`, when `name` was open before:
      the name of the last `leftsnippet` or `rightsnippet` event of that side,
      or `name` when there is none. */
  function OpenAfter(name: string, es: seq<Event>, s: Side): string
    decreases |es|
  {
    if |es| == 0 then name
    else OpenAfter(if es[0].Snippet? && es[0].side == s then es[0].name else name, es[1..], s)
  }
}
