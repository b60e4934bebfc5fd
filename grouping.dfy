/** `groupHunks`, `ungroupHunks` and `recountLines`: a hunk's events between
    `beginhunk` and `endhunk` gathered into one `hunk` event and spread out
    again, and a grouped hunk's line count set to the number of its events. */
module Grouping {
  import opened Wrappers
  import opened Text
  import opened Events
  import Parser

  /** The position of the first `endhunk` at or after `from`, or `|es|` when
      there is none. */
  function EndFrom(es: seq<Event>, from: nat): (k: nat)
    requires from <= |es|
    ensures from <= k <= |es|
    ensures k < |es| ==> es[k] == EndHunk
    ensures forall j :: from <= j < k ==> es[j] != EndHunk
    decreases |es| - from
  {
    if from == |es| || es[from] == EndHunk then from else EndFrom(es, from + 1)
  }

  /** `groupHunks`: a `beginhunk` and the events up to the next `endhunk`
      become one `hunk`; the input ending first is an error. Other events
      pass through. */
  function Group(es: seq<Event>): Result<seq<Event>>
    decreases |es|
  {
    if |es| == 0 then Ok([])
    else if es[0].BeginHunk? then
      var k := EndFrom(es, 1);
      if k == |es| then Fail(PrematureEnd)
      else Prepend([Hunk(es[0].header, es[1..k])], Group(es[k + 1..]))
    else Prepend([es[0]], Group(es[1..]))
  }

  /** `Group` at a `beginhunk` at position `i` whose first `endhunk` after it
      is at `k` (or which has none, `k == |es|`). */
  lemma GroupAtBegin(es: seq<Event>, i: nat, k: nat)
    requires i < k <= |es| && es[i].BeginHunk?
    requires k < |es| ==> es[k] == EndHunk
    requires forall m :: i < m < k ==> es[m] != EndHunk
    ensures k == |es| ==> Group(es[i..]) == Fail(PrematureEnd)
    ensures k < |es| ==> Group(es[i..]) == Prepend([Hunk(es[i].header, es[i + 1..k])], Group(es[k + 1..]))
  {
    var s := es[i..];
    var e := EndFrom(s, 1);
    assert forall m :: 0 <= m < |s| ==> s[m] == es[i + m];
    assert e == k - i;
    assert s[1..e] == es[i + 1..k];
    if k < |es| {
      assert s[e + 1..] == es[k + 1..];
    }
  }

  lemma GroupAtOther(es: seq<Event>, i: nat)
    requires i < |es| && !es[i].BeginHunk?
    ensures Group(es[i..]) == Prepend([es[i]], Group(es[i + 1..]))
  {
    assert es[i..][0] == es[i] && es[i..][1..] == es[i + 1..];
  }

  /** The inner loop of `groupHunks`: the events after a `beginhunk` up to
      the next `endhunk`, and that `endhunk`'s position (`|es|` when the input
      ends first). */
  method ReadContents(es: seq<Event>, from: nat) returns (contents: seq<Event>, j: nat)
    requires from <= |es|
    ensures j == EndFrom(es, from) && contents == es[from..j]
  {
    contents := [];
    j := from;
    while j < |es|
      invariant from <= j <= |es|
      invariant contents == es[from..j]
      invariant EndFrom(es, from) == EndFrom(es, j)
      decreases |es| - j
    {
      var next := es[j];
      if next == EndHunk {
        break;
      }
      contents := contents + [next];
      j := j + 1;
    }
  }

  /** One pass of the loop of `groupHunks` from position `i`: the event it
      yields and where the next pass starts. */
  method NextGroup(es: seq<Event>, i: nat) returns (r: Result<(Event, nat)>)
    requires i < |es|
    ensures r.Fail? ==> Group(es[i..]) == Fail(r.error)
    ensures r.Ok? ==> i < r.value.1 <= |es| && Group(es[i..]) == Prepend([r.value.0], Group(es[r.value.1..]))
  {
    var e := es[i];
    if e.BeginHunk? {
      var contents, j := ReadContents(es, i + 1);
      GroupAtBegin(es, i, j);
      if j == |es| {
        return Fail(PrematureEnd);
      }
      r := Ok((Hunk(e.header, contents), j + 1));
    } else {
      GroupAtOther(es, i);
      r := Ok((e, i + 1));
    }
  }

  method GroupHunks(es: seq<Event>) returns (r: Result<seq<Event>>)
    ensures r == Group(es)
  {
    var out: seq<Event> := [];
    var i := 0;
    PrependNothing(Group(es));
    while i < |es|
      invariant 0 <= i <= |es|
      invariant Group(es) == Prepend(out, Group(es[i..]))
      decreases |es| - i
    {
      var next := NextGroup(es, i);
      if next.Fail? {
        return Fail(next.error);
      }
      var (e, j) := next.value;
      PrependPrepend(out, [e], Group(es[j..]));
      out := out + [e];
      i := j;
    }
    assert es[|es|..] == [];
    assert out + [] == out;
    return Ok(out);
  }

  /** `ungroupHunks`: a `hunk` becomes its `beginhunk`, its events and an
      `endhunk`; other events pass through. */
  function Ungroup(es: seq<Event>): seq<Event>
    decreases |es|
  {
    if |es| == 0 then []
    else
      (match es[0]
       case Hunk(h, contents) => [BeginHunk(h)] + contents + [EndHunk]
       case _ => [es[0]])
      + Ungroup(es[1..])
  }

  /** `recountLines` for one event: a `hunk` gets the number of its events as
      its line count, written as a numeral in its raw form too. */
  function Recount(e: Event): Event
  {
    match e
    case Hunk(h, contents) =>
      Hunk(h.(hunkLineCount := Some(|contents|), hunkLineCountRaw := Some(NatToString(|contents|))), contents)
    case _ => e
  }

  function RecountAll(es: seq<Event>): (r: seq<Event>)
    ensures |r| == |es|
    ensures forall i :: 0 <= i < |es| ==> r[i] == Recount(es[i])
  {
    seq(|es|, i requires 0 <= i < |es| => Recount(es[i]))
  }

  // ---- grouping and ungrouping are inverse -----------------------------------

  /** Spreading out what grouping gathered gives the events back, for a stream
      that has no grouped hunk yet. */
  lemma {:induction false} UngroupGroup(es: seq<Event>)
    requires forall i :: 0 <= i < |es| ==> !es[i].Hunk?
    requires Group(es).Ok?
    ensures Ungroup(Group(es).value) == es
    decreases |es|
  {
    if |es| > 0 {
      var g := Group(es).value;
      if es[0].BeginHunk? {
        var k := EndFrom(es, 1);
        GroupAtBegin(es, 0, k);
        assert es[0..] == es;
        var tail := Group(es[k + 1..]).value;
        UngroupGroup(es[k + 1..]);
        assert g == [Hunk(es[0].header, es[1..k])] + tail;
        UngroupCons(Hunk(es[0].header, es[1..k]), tail);
        SpreadAgain(es, k);
      } else {
        GroupAtOther(es, 0);
        assert es[0..] == es;
        UngroupGroup(es[1..]);
        UngroupCons(es[0], Group(es[1..]).value);
        assert [es[0]] + es[1..] == es;
      }
    }
  }

  lemma SpreadAgain(es: seq<Event>, k: nat)
    requires 0 < k < |es| && es[0].BeginHunk? && es[k] == EndHunk
    ensures [BeginHunk(es[0].header)] + es[1..k] + [EndHunk] + es[k + 1..] == es
  {
    assert es == [es[0]] + es[1..k] + [es[k]] + es[k + 1..];
  }

  /** A grouped stream: no `beginhunk` or `endhunk` is left outside a hunk,
      and every hunk holds body events only. */
  predicate Grouped(g: seq<Event>)
  {
    forall i :: 0 <= i < |g| ==>
      !g[i].BeginHunk? && !g[i].EndHunk?
      && (g[i].Hunk? ==> forall m :: 0 <= m < |g[i].contents| ==> IsBodyEvent(g[i].contents[m]))
  }

  lemma GroupedCons(e: Event, g: seq<Event>)
    requires Grouped(g)
    requires !e.BeginHunk? && !e.EndHunk?
    requires e.Hunk? ==> forall m :: 0 <= m < |e.contents| ==> IsBodyEvent(e.contents[m])
    ensures Grouped([e] + g)
  {
    var all := [e] + g;
    forall i | 0 < i < |all|
      ensures all[i] == g[i - 1]
    {
    }
  }

  /** A framed hunk body ends at its first `endhunk`, holds body events only
      before it, and is followed by a framed stream. */
  lemma {:induction false} FramedBodyEnd(es: seq<Event>, from: nat)
    requires from <= |es| && Framed(es[from..], true)
    ensures EndFrom(es, from) < |es|
    ensures forall m :: from <= m < EndFrom(es, from) ==> IsBodyEvent(es[m])
    ensures Framed(es[EndFrom(es, from) + 1..], false)
    decreases |es| - from
  {
    assert es[from..][0] == es[from];
    assert es[from..][1..] == es[from + 1..];
    if es[from] != EndHunk {
      FramedBodyEnd(es, from + 1);
    }
  }

  /** Grouping never fails on what the parser yields, and leaves a grouped
      stream. */
  lemma {:induction false} GroupFramed(es: seq<Event>)
    requires Framed(es, false)
    ensures Group(es).Ok? && Grouped(Group(es).value)
    decreases |es|
  {
    if |es| > 0 {
      if es[0].BeginHunk? {
        assert es[1..] == es[1..];
        FramedBodyEnd(es, 1);
        var k := EndFrom(es, 1);
        GroupFramed(es[k + 1..]);
        var h := Hunk(es[0].header, es[1..k]);
        forall m | 0 <= m < |h.contents|
          ensures IsBodyEvent(h.contents[m])
        {
          assert h.contents[m] == es[1 + m];
        }
        GroupedCons(h, Group(es[k + 1..]).value);
      } else {
        GroupFramed(es[1..]);
        GroupedCons(es[0], Group(es[1..]).value);
      }
    }
  }

  /** One hunk spread out and followed by `tail` groups into that hunk. */
  lemma GroupSpreadHunk(h: HunkHeader, contents: seq<Event>, tail: seq<Event>)
    requires forall m :: 0 <= m < |contents| ==> IsBodyEvent(contents[m])
    ensures Group([BeginHunk(h)] + contents + [EndHunk] + tail) == Prepend([Hunk(h, contents)], Group(tail))
  {
    var es := [BeginHunk(h)] + contents + [EndHunk] + tail;
    var k := |contents| + 1;
    forall m | 0 < m < k
      ensures es[m] != EndHunk
    {
      assert es[m] == contents[m - 1];
    }
    GroupAtBegin(es, 0, k);
    assert es[0..] == es;
    assert es[1..k] == contents;
    assert es[k + 1..] == tail;
  }

  lemma UngroupCons(e: Event, g: seq<Event>)
    ensures Ungroup([e] + g) == (if e.Hunk? then [BeginHunk(e.header)] + e.contents + [EndHunk] else [e]) + Ungroup(g)
  {
    assert ([e] + g)[0] == e && ([e] + g)[1..] == g;
  }

  /** Gathering what ungrouping spread out gives the grouped stream back. */
  lemma {:induction false} GroupUngroup(g: seq<Event>)
    requires Grouped(g)
    ensures Group(Ungroup(g)) == Ok(g)
    decreases |g|
  {
    if |g| > 0 {
      assert Grouped(g[1..]) by {
        forall i | 0 <= i < |g[1..]|
          ensures g[1..][i] == g[i + 1]
        {
        }
      }
      GroupUngroup(g[1..]);
      assert [g[0]] + g[1..] == g;
      UngroupCons(g[0], g[1..]);
      if g[0].Hunk? {
        assert forall m :: 0 <= m < |g[0].contents| ==> IsBodyEvent(g[0].contents[m]);
        GroupSpreadHunk(g[0].header, g[0].contents, Ungroup(g[1..]));
      } else {
        var es := [g[0]] + Ungroup(g[1..]);
        assert es[0] == g[0] && es[1..] == Ungroup(g[1..]);
      }
    }
  }

  // ---- recounting --------------------------------------------------------------

  /** After `recountLines` every hunk declares as many lines as it holds
      events, in its count and in its raw numeral, and nothing else changes. */
  lemma RecountedCounts(es: seq<Event>)
    ensures forall i :: 0 <= i < |es| && es[i].Hunk? ==>
      var r := RecountAll(es)[i];
      && r.Hunk? && r.contents == es[i].contents
      && r.header.hunkLineCount == Some(|r.contents|)
      && r.header.hunkLineCountRaw.Some?
      && All(r.header.hunkLineCountRaw.value, Digit)
      && ParseNat(r.header.hunkLineCountRaw.value) == |r.contents|
      && r.header.(hunkLineCount := es[i].header.hunkLineCount, hunkLineCountRaw := es[i].header.hunkLineCountRaw) == es[i].header
    ensures forall i :: 0 <= i < |es| && !es[i].Hunk? ==> RecountAll(es)[i] == es[i]
  {
  }

  /** One hunk as a hunk parser yields it groups into one `hunk` event
      holding its body events. */
  lemma GroupHunkEvents(evs: seq<Event>)
    requires IsHunkEvents(evs)
    ensures Group(evs) == Ok([Hunk(evs[0].header, evs[1..|evs| - 1])])
  {
    var k := |evs| - 1;
    assert forall m :: 0 < m < k ==> evs[m] != EndHunk;
    GroupAtBegin(evs, 0, k);
    assert evs[0..] == evs && evs[k + 1..] == [];
    assert Group(evs[k + 1..]) == Ok([]);
    assert [Hunk(evs[0].header, evs[1..k])] + [] == [Hunk(evs[0].header, evs[1..k])];
  }

  /** The line count a hintful hunk header declares is the number of body
      lines `parseHintfulHunk` reads, so grouping the hunk it yields and
      recounting leaves the declared count as it was. */
  lemma HintfulHunkRecount(h: HunkHeader, lines: seq<string>)
    requires h.hunkLineCount.Some? && Parser.HintfulHunkAfter(h, lines).Ok?
    ensures var evs := Parser.HintfulHunkAfter(h, lines).value.0;
      && Group(evs) == Ok([Hunk(h, evs[1..|evs| - 1])])
      && Recount(Hunk(h, evs[1..|evs| - 1])).header.hunkLineCount == h.hunkLineCount
  {
    var evs := Parser.HintfulHunkAfter(h, lines).value.0;
    GroupHunkEvents(evs);
    assert evs[0].header == h;
    assert |evs[1..|evs| - 1]| == h.hunkLineCount.value;
  }

  /** Recounting twice is recounting once. */
  lemma RecountTwice(es: seq<Event>)
    ensures RecountAll(RecountAll(es)) == RecountAll(es)
  {
  }

  /** Recounting keeps a stream grouped. */
  lemma RecountGrouped(g: seq<Event>)
    requires Grouped(g)
    ensures Grouped(RecountAll(g))
  {
  }
}
