/** `glueNonewline`: a `\ No newline at end of file` line is joined to the line
    before it, so that the unified parser sees the content line and its marker
    as one line. */
module LineGlue {
  import opened Text

  /** `^\\.*\n$`: a marker line. */
  predicate IsMarker(s: string)
  {
    |s| > 0 && s[0] == '\\' && IsLine(s)
  }

  /** The lines still to be yielded when the pending line is `prev` and
      `lines` are still to be read. */
  function GlueFrom(prev: string, lines: seq<string>): seq<string>
    decreases |lines|
  {
    if |lines| == 0 then (if prev != "" then [prev] else [])
    else if IsMarker(lines[0]) then [prev + lines[0]] + GlueFrom("", lines[1..])
    else (if prev != "" then [prev] else []) + GlueFrom(lines[0], lines[1..])
  }

  function Glue(lines: seq<string>): seq<string>
  {
    GlueFrom("", lines)
  }

  method GlueNonewline(lines: seq<string>) returns (out: seq<string>)
    ensures out == Glue(lines)
  {
    var prevLine := "";
    out := [];
    var i := 0;
    while i < |lines|
      invariant 0 <= i <= |lines|
      invariant Glue(lines) == out + GlueFrom(prevLine, lines[i..])
    {
      var line := lines[i];
      assert lines[i..][1..] == lines[i + 1..];
      if IsMarker(line) {
        out := out + [prevLine + line];
        prevLine := "";
      } else {
        if prevLine != "" {
          out := out + [prevLine];
        }
        prevLine := line;
      }
      i := i + 1;
    }
    if prevLine != "" {
      out := out + [prevLine];
    }
  }

  lemma GlueOne(a: string)
    requires a != ""
    ensures Glue([a]) == [a]
  {
    assert [a][1..] == [];
    assert GlueFrom("", []) == [] && GlueFrom(a, []) == [a];
    assert "" + a == a;
  }

  lemma GlueMarked(a: string, marker: string)
    requires a != "" && !IsMarker(a) && IsMarker(marker)
    ensures Glue([a, marker]) == [a + marker]
  {
    assert [a, marker][1..] == [marker];
    assert [marker][1..] == [];
    assert GlueFrom("", []) == [];
    assert GlueFrom(a, [marker]) == [a + marker];
  }

  /** Gluing loses no text: the glued lines spell the input again. */
  lemma {:induction false} GlueKeepsText(prev: string, lines: seq<string>)
    ensures Concat(GlueFrom(prev, lines)) == prev + Concat(lines)
    decreases |lines|
  {
    if |lines| == 0 {
    } else if IsMarker(lines[0]) {
      GlueKeepsText("", lines[1..]);
    } else {
      GlueKeepsText(lines[0], lines[1..]);
      var head := if prev != "" then [prev] else [];
      ConcatAppend(head, GlueFrom(lines[0], lines[1..]));
    }
  }

  /** Which input lines make up each glued line: a line on its own, a line
      followed by its marker, or a marker with no line before it. */
  function GroupsFrom(prev: seq<string>, lines: seq<string>): seq<seq<string>>
    decreases |lines|
  {
    if |lines| == 0 then (if prev != [] then [prev] else [])
    else if IsMarker(lines[0]) then [prev + [lines[0]]] + GroupsFrom([], lines[1..])
    else (if prev != [] then [prev] else []) + GroupsFrom([lines[0]], lines[1..])
  }

  function Flatten(gs: seq<seq<string>>): seq<string>
  {
    if |gs| == 0 then [] else gs[0] + Flatten(gs[1..])
  }

  lemma {:induction false} FlattenAppend(a: seq<seq<string>>, b: seq<seq<string>>)
    ensures Flatten(a + b) == Flatten(a) + Flatten(b)
  {
    if |a| > 0 {
      assert (a + b)[1..] == a[1..] + b;
      FlattenAppend(a[1..], b);
    } else {
      assert a + b == b;
    }
  }

  function MapConcat(gs: seq<seq<string>>): seq<string>
  {
    if |gs| == 0 then [] else [Concat(gs[0])] + MapConcat(gs[1..])
  }

  lemma {:induction false} MapConcatAppend(a: seq<seq<string>>, b: seq<seq<string>>)
    ensures MapConcat(a + b) == MapConcat(a) + MapConcat(b)
  {
    if |a| > 0 {
      assert (a + b)[1..] == a[1..] + b;
      MapConcatAppend(a[1..], b);
    } else {
      assert a + b == b;
    }
  }

  predicate GroupShape(g: seq<string>)
  {
    || (|g| == 1 && !IsMarker(g[0]))
    || (|g| == 2 && !IsMarker(g[0]) && IsMarker(g[1]))
    || (|g| == 1 && IsMarker(g[0]))
  }

  /** Every non-empty input line lands in exactly one glued line, in order;
      each glued line is one line, or one line and the marker line after it,
      or a marker alone. */
  lemma {:induction false} GlueGroups(prev: seq<string>, lines: seq<string>)
    requires prev == [] || (|prev| == 1 && prev[0] != "" && !IsMarker(prev[0]))
    requires forall j :: 0 <= j < |lines| ==> lines[j] != ""
    ensures GlueFrom(if prev == [] then "" else prev[0], lines) == MapConcat(GroupsFrom(prev, lines))
    ensures Flatten(GroupsFrom(prev, lines)) == prev + lines
    ensures forall k :: 0 <= k < |GroupsFrom(prev, lines)| ==> GroupShape(GroupsFrom(prev, lines)[k])
    decreases |lines|
  {
    if |lines| == 0 {
      if prev != [] {
        SingleGroup(prev);
      }
    } else if IsMarker(lines[0]) {
      GlueGroups([], lines[1..]);
      GroupsMarkerStep(prev, lines);
    } else {
      GlueGroups([lines[0]], lines[1..]);
      GroupsLineStep(prev, lines);
    }
  }

  /** The groups of the lines after a pending line `prev`, as `GlueGroups`
      states them. */
  predicate GroupsAgree(prev: seq<string>, lines: seq<string>)
  {
    && GlueFrom(if prev == [] then "" else prev[0], lines) == MapConcat(GroupsFrom(prev, lines))
    && Flatten(GroupsFrom(prev, lines)) == prev + lines
    && forall k :: 0 <= k < |GroupsFrom(prev, lines)| ==> GroupShape(GroupsFrom(prev, lines)[k])
  }

  /** A marker line closes the group of the line pending before it. */
  lemma GroupsMarkerStep(prev: seq<string>, lines: seq<string>)
    requires prev == [] || (|prev| == 1 && prev[0] != "" && !IsMarker(prev[0]))
    requires |lines| > 0 && IsMarker(lines[0]) && GroupsAgree([], lines[1..])
    ensures GroupsAgree(prev, lines)
  {
    var g := prev + [lines[0]];
    MarkedGroup(prev, lines[0]);
    assert lines == [lines[0]] + lines[1..];
    MapConcatAppend([g], GroupsFrom([], lines[1..]));
    FlattenAppend([g], GroupsFrom([], lines[1..]));
  }

  /** Any other line closes the group pending before it and is pending
      itself. */
  lemma GroupsLineStep(prev: seq<string>, lines: seq<string>)
    requires prev == [] || (|prev| == 1 && prev[0] != "" && !IsMarker(prev[0]))
    requires |lines| > 0 && !IsMarker(lines[0]) && GroupsAgree([lines[0]], lines[1..])
    ensures GroupsAgree(prev, lines)
  {
    var head := if prev != [] then [prev] else [];
    assert head == [] ==> prev == [];
    if prev != [] {
      SingleGroup(prev);
    }
    assert lines == [lines[0]] + lines[1..];
    MapConcatAppend(head, GroupsFrom([lines[0]], lines[1..]));
    FlattenAppend(head, GroupsFrom([lines[0]], lines[1..]));
  }

  /** A line on its own as a group. */
  lemma SingleGroup(prev: seq<string>)
    requires |prev| == 1
    ensures Concat(prev) == prev[0] && MapConcat([prev]) == [prev[0]] && Flatten([prev]) == prev
  {
    assert Concat(prev[1..]) == "";
    assert [prev][1..] == [];
  }

  /** A marker glued to the line before it, if there is one. */
  lemma MarkedGroup(prev: seq<string>, marker: string)
    requires |prev| <= 1
    ensures Concat(prev + [marker]) == (if prev == [] then "" else prev[0]) + marker
  {
    var g := prev + [marker];
    if prev == [] {
      assert Concat(g) == marker + Concat(g[1..]);
    } else {
      assert Concat(g) == prev[0] + Concat(g[1..]);
      assert Concat(g[1..]) == marker + Concat(g[2..]);
    }
  }

  /** Without marker lines, gluing changes nothing. */
  lemma {:induction false} GlueWithoutMarkers(prev: string, lines: seq<string>)
    requires forall j :: 0 <= j < |lines| ==> lines[j] != "" && !IsMarker(lines[j])
    ensures GlueFrom(prev, lines) == (if prev != "" then [prev] else []) + lines
    decreases |lines|
  {
    if |lines| > 0 {
      GlueWithoutMarkers(lines[0], lines[1..]);
      assert lines == [lines[0]] + lines[1..];
    }
  }

  /** No glued line ends in two line feeds when the input lines are as
      `readline` returns them, so the line patterns see whole lines only. */
  lemma {:induction false} GluedLinesEndCleanly(prev: string, lines: seq<string>)
    requires NoInnerNewline(prev)
    requires forall j :: 0 <= j < |lines| ==> NoInnerNewline(lines[j])
    ensures forall k :: 0 <= k < |GlueFrom(prev, lines)| ==>
      var g := GlueFrom(prev, lines)[k];
      !(|g| >= 2 && g[|g| - 2] == '\n' && g[|g| - 1] == '\n')
    decreases |lines|
  {
    if |lines| > 0 {
      if IsMarker(lines[0]) {
        GluedLinesEndCleanly("", lines[1..]);
        var g := prev + lines[0];
        assert g[|g| - 2] == lines[0][|lines[0]| - 2];
      } else {
        GluedLinesEndCleanly(lines[0], lines[1..]);
      }
    }
  }
}
