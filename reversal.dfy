/** `switchleftright` and `reverse`: a diff read the other way round. An
    event whose operation names a side gets the other side's operation; any
    other event has the side-named keys of its fields swapped. */
module Reversal {
  import opened Events

  /** `switchleftright`: a leading `left` becomes `right` and the other way
      round; other text is left alone. */
  function SwitchLeftRight(text: string): string
  {
    if |text| >= 4 && text[..4] == "left" then "right" + text[4..]
    else if |text| >= 5 && text[..5] == "right" then "left" + text[5..]
    else text
  }

  /** Switching twice changes nothing. */
  lemma SwitchTwice(text: string)
    ensures SwitchLeftRight(SwitchLeftRight(text)) == text
  {
    if |text| >= 4 && text[..4] == "left" {
      var t := "right" + text[4..];
      assert t[..4] != "left" by {
        assert t[..4][0] == 'r';
      }
      assert t[..5] == "right";
      assert t[5..] == text[4..];
      assert "left" + text[4..] == text[..4] + text[4..];
    } else if |text| >= 5 && text[..5] == "right" {
      var t := "left" + text[5..];
      assert t[..4] == "left" && t[4..] == text[5..];
      assert "right" + text[5..] == text[..5] + text[5..];
    }
  }

  /** The fields of a `beginhunk` under their switched keys: the left start
      and count and the right ones change places. */
  function SwapHeader(h: HunkHeader): HunkHeader
  {
    h.(leftStartRaw := h.rightStartRaw, rightStartRaw := h.leftStartRaw,
       leftCountRaw := h.rightCountRaw, rightCountRaw := h.leftCountRaw,
       leftStart := h.rightStart, rightStart := h.leftStart,
       leftCount := h.rightCount, rightCount := h.leftCount)
  }

  /** `reverse` for one event. The `contents` of a grouped hunk is not a
      side-named key, so the events inside it are kept as they are. */
  function Reverse(e: Event): Event
  {
    match e
    case DiffTitle(a, b) => DiffTitle(b, a)
    case Index(l, r, mode) => Index(r, l, mode)
    case Labels(l, r) => Labels(r, l)
    case SimilarityIndex(s) => e
    case Rename(l, r) => Rename(r, l)
    case FileMode(side, mode) => FileMode(side.Flip(), mode)
    case BeginHunk(h) => BeginHunk(SwapHeader(h))
    case Content(k, c) =>
      if k == LeftContent then Content(RightContent, c)
      else if k == RightContent then Content(LeftContent, c)
      else e
    case Snippet(side, name) => Snippet(side.Flip(), name)
    case EndHunk => e
    case Hunk(h, contents) => Hunk(SwapHeader(h), contents)
  }

  function ReverseAll(es: seq<Event>): (r: seq<Event>)
    ensures |r| == |es|
    ensures forall i :: 0 <= i < |es| ==> r[i] == Reverse(es[i])
  {
    seq(|es|, i requires 0 <= i < |es| => Reverse(es[i]))
  }

  /** Reversing twice gives the event back. */
  lemma ReverseTwice(e: Event)
    ensures Reverse(Reverse(e)) == e
  {
  }

  lemma ReverseAllTwice(es: seq<Event>)
    ensures ReverseAll(ReverseAll(es)) == es
  {
    forall i | 0 <= i < |es|
      ensures ReverseAll(ReverseAll(es))[i] == es[i]
    {
      ReverseTwice(es[i]);
    }
  }

  lemma SwitchOf(prefix: string, rest: string)
    requires prefix == "left" || prefix == "right"
    ensures SwitchLeftRight(prefix + rest) == (if prefix == "left" then "right" else "left") + rest
  {
    var t := prefix + rest;
    if prefix == "left" {
      assert t[..4] == "left" && t[4..] == rest;
    } else {
      assert t[..4] != "left" by {
        assert t[0] == 'r';
      }
      assert t[..5] == "right" && t[5..] == rest;
    }
  }

  /** Text that begins with neither `left` nor `right`: its first letter is
      neither `l` nor `r`, or its second letter already tells it apart. */
  lemma SwitchOther(text: string)
    requires |text| > 1
    requires (text[0] != 'l' && text[0] != 'r') || (text[0] == 'l' && text[1] != 'e')
          || (text[0] == 'r' && text[1] != 'i')
    ensures SwitchLeftRight(text) == text
  {
    if |text| >= 4 {
      assert text[..4][0] == text[0];
    }
    if |text| >= 5 {
      assert text[..5][0] == text[0] && text[..5][1] == text[1];
    }
  }

  lemma SwitchOfKind(k: Kind)
    ensures SwitchLeftRight(KindName(k)) == KindName(if k == LeftContent then RightContent else if k == RightContent then LeftContent else k)
  {
    match k
    case LeftContent =>
      SwitchOf("left", "content");
      assert "left" + "content" == "leftcontent";
      assert "right" + "content" == "rightcontent";
    case RightContent =>
      SwitchOf("right", "content");
      assert "left" + "content" == "leftcontent";
      assert "right" + "content" == "rightcontent";
    case BothContent => SwitchOther("bothcontent");
    case BothLowPriorityContent => SwitchOther("bothlowprioritycontent");
    case IgnoreContent => SwitchOther("ignorecontent");
  }

  lemma SwitchFileMode(side: Side)
    ensures SwitchLeftRight(OpName(FileMode(side, ""))) == OpName(FileMode(side.Flip(), ""))
  {
    if side == Left {
      SwitchOf("left", "filemode");
      assert "left" + "filemode" == "leftfilemode";
      assert "right" + "filemode" == "rightfilemode";
    } else {
      SwitchOf("right", "filemode");
      assert "left" + "filemode" == "leftfilemode";
      assert "right" + "filemode" == "rightfilemode";
    }
  }

  lemma SwitchSnippet(side: Side)
    ensures SwitchLeftRight(OpName(Snippet(side, ""))) == OpName(Snippet(side.Flip(), ""))
  {
    if side == Left {
      SwitchOf("left", "snippet");
      assert "left" + "snippet" == "leftsnippet";
      assert "right" + "snippet" == "rightsnippet";
    } else {
      SwitchOf("right", "snippet");
      assert "left" + "snippet" == "leftsnippet";
      assert "right" + "snippet" == "rightsnippet";
    }
  }

  /** The events whose operation names no side. */
  lemma SwitchUnsided(e: Event)
    requires !e.FileMode? && !e.Snippet? && !e.Content?
    ensures SwitchLeftRight(OpName(e)) == OpName(e)
  {
    match e
    case DiffTitle(_, _) => SwitchOther("difftitle");
    case Index(_, _, _) => SwitchOther("index");
    case Labels(_, _) => SwitchOther("labels");
    case SimilarityIndex(_) => SwitchOther("similarity-index");
    case Rename(_, _) => SwitchOther("rename");
    case BeginHunk(_) => SwitchOther("beginhunk");
    case EndHunk => SwitchOther("endhunk");
    case Hunk(_, _) => SwitchOther("hunk");
  }

  /** The operation of a reversed event is the switched operation: events
      whose operation names a side move to the other side, all others keep
      their operation. */
  lemma ReverseOpName(e: Event)
    ensures OpName(Reverse(e)) == SwitchLeftRight(OpName(e))
  {
    match e
    case FileMode(side, _) => SwitchFileMode(side);
    case Snippet(side, _) => SwitchSnippet(side);
    case Content(k, _) => SwitchOfKind(k);
    case _ => SwitchUnsided(e);
  }

  /** Each side of a reversed stream has the text the other side had. */
  lemma {:induction false} ReverseSides(es: seq<Event>, s: Side)
    ensures SideText(ReverseAll(es), s) == SideText(es, s.Flip())
    decreases |es|
  {
    if |es| > 0 {
      ReverseSides(es[1..], s);
      assert ReverseAll(es)[1..] == ReverseAll(es[1..]);
    }
  }

  /** Reversing keeps a stream framed. */
  lemma {:induction false} ReverseFramed(es: seq<Event>, inHunk: bool)
    requires Framed(es, inHunk)
    ensures Framed(ReverseAll(es), inHunk)
    decreases |es|
  {
    if |es| > 0 {
      assert ReverseAll(es)[1..] == ReverseAll(es[1..]);
      if inHunk && IsBodyEvent(es[0]) && Framed(es[1..], true) {
        ReverseFramed(es[1..], true);
      } else if inHunk {
        ReverseFramed(es[1..], false);
      } else if IsFileEvent(es[0]) && Framed(es[1..], false) {
        ReverseFramed(es[1..], false);
      } else {
        ReverseFramed(es[1..], true);
      }
    }
  }
}
