# diff-format toolkit core, modelled in Dafny

This project models the stages of the diff-format toolkit
(`implementations/python3/implementation.py`). The toolkit works on two dialects of diff:

- **Plain unified diff.**
- **Hintful diff.** This dialect adds three things:
  - a `(N)` body-line count in every hunk header;
  - the `_` (low-priority both-sides) and `#` (ignored) content kinds;
  - `<name` / `>name` lines. These open a named snippet on the left or right side; a bare `<` or `>` closes it.

Every stage reads a stream of *events* and writes a stream of events or of text. In the program an event is a dictionary keyed by `op`. Here it is the datatype `Events.Event`: one constructor per operation, with a `Side` for the operations that exist once per side.

The stages modelled are:

- **`LineGlue`** (`glueNonewline`): joins a `\ No newline at end of file` line onto the line before it.
- **`Patterns`**: hand-written recognisers for every line shape the program matches with a regular expression. Each recogniser matches the whole string, as `m()` requires.
- **`Parser`** (`parseDiff`, `parseUnifiedHunk`, `parseHintfulHunk`):
  - the line-classifying reader of file-level lines;
  - the two hunk readers, driven by their counters.
- **`Formatter`** (`formatCommonLine`, `formatUnifiedDiff`, `formatHintfulDiff`): turns events back into text.
- **`RoundTrip`**: proves that every file-level line the formatter writes parses back to the same event.
- **`Masking`** (`removeSnippets`) and **`Collect`** (`collectLines`): together they convert a hintful diff into a unified one.
- **`Reversal`** (`switchleftright`, `reverse`).
- **`Grouping`** (`groupHunks`, `ungroupHunks`, `recountLines`).
- **`Snippets`** (`validateSnippets`).
- **`HunkCheck`** (`validateHunk`, `validateHunks`).

Every stage whose code runs a loop over mutable state has two parts:

- a specification function that folds one step function over the events;
- a `method` with that loop, whose `ensures` says it computes the fold.

The properties the program relies on are lemmas about the fold. A call to `die` is a `Fail(Error)` result, and so is an exception that ends the program (`KeyError`, `StopIteration`, `TypeError`). Input is a sequence of lines as `readline` returns them: `Text.Lines` cuts a text into such lines.

## Model

| member | source | states |
|---|---|---|
| Text.Lines | implementations/python3/implementation.py:22-27 | the lines that `readline` returns concatenate back to the text; none is empty; a newline occurs only as a line's last character; every line but the last ends in a newline |
| Text.SplitCountsLines | implementations/python3/implementation.py:529-532 | `len(text.split('\n'))` minus 1, or minus 0 when the text is non-empty without a final newline, is the number of readline lines in the text |
| Text.NatToString | implementations/python3/implementation.py:486 | `str(n)` is a non-empty string of digits that reads back as `n` and has no leading zero unless it is `0` |
| LineGlue.GlueNonewline | implementations/python3/implementation.py:104-115 | the loop with its `prevLine` buffer yields exactly the glued line sequence `Glue` |
| LineGlue.GlueOne | implementations/python3/implementation.py:110-115 | a single non-empty line is yielded unchanged at the end of input |
| LineGlue.GlueMarked | implementations/python3/implementation.py:107-109 | a `\…` line is appended to the ordinary line before it, giving one output line |
| LineGlue.GlueKeepsText | implementations/python3/implementation.py:104-115 | concatenating the outputs gives the pending line followed by all input lines: no text is lost, duplicated or reordered |
| LineGlue.GlueGroups | implementations/python3/implementation.py:104-115 | the input splits into consecutive groups; each output is the concatenation of one group; flattening the groups gives back the input in order; each group is one ordinary line, a marker, or an ordinary line followed by a marker |
| LineGlue.GlueWithoutMarkers | implementations/python3/implementation.py:110-115 | without `\…` lines the output is the input itself |
| LineGlue.GluedLinesEndCleanly | implementations/python3/implementation.py:104-115 | no glued line ends in two newlines |
| Patterns.Literal | implementations/python3/implementation.py:7-16 | matches exactly when the text starts with the literal, and returns the rest of the text |
| Patterns.Numeral | implementations/python3/implementation.py:125 | the `[0-9]+` group is a maximal digit run at the front of the text |
| Patterns.OptionalCount | implementations/python3/implementation.py:125 | the optional `(,[0-9]+)?` group is absent, or is a comma and digits at the front of the text |
| Patterns.LineRest | implementations/python3/implementation.py:125 | the header's trailing `(.*)\n$` succeeds exactly on a line (one newline, at the end) and returns the text before the newline |
| Patterns.CrTerminated | implementations/python3/implementation.py:34 | `([^\r]*)\r*\n$`: the group has no CR, and the text is the group, a run of CRs and a newline |
| Patterns.MatchUnifiedHeader | implementations/python3/implementation.py:125 | a recognised unified header has well-formed groups and no hunk line count |
| Patterns.MatchHintfulHeader | implementations/python3/implementation.py:172 | a recognised hintful header has well-formed groups and a `(N)` hunk line count |
| Patterns.MatchUnifiedBody | implementations/python3/implementation.py:155 | a body line is a `-`, `+` or space prefix and content with no inner newline, optionally followed by a `\ …` line |
| Patterns.MatchHintfulContent | implementations/python3/implementation.py:202 | a content line is the prefix, text without newline, a `$` or `\` marker, a CR run and a newline, exactly in that order |
| Patterns.MatchSnippetLine | implementations/python3/implementation.py:202 | a snippet line is `<` or `>`, a name without CR, a CR run and a newline |
| Patterns.MatchTagged | implementations/python3/implementation.py:34-37 | the text of a tagged line has no CR |
| Patterns.MatchSimilarity | implementations/python3/implementation.py:46 | a similarity value ends in `%` |
| Patterns.ObjectId | implementations/python3/implementation.py:67 | an object id has at least seven lower-case hex digits |
| Patterns.MatchIndexWithMode | implementations/python3/implementation.py:67 | the mode of an `index` line is six octal digits |
| Patterns.MatchIndex | implementations/python3/implementation.py:76 | both ids of an `index` line have at least seven characters |
| Patterns.MatchDiffTitle | implementations/python3/implementation.py:92 | both file names are non-empty and contain no space; the right one contains no CR |
| Patterns.UnifiedBodyMarkedOf | implementations/python3/implementation.py:155 | content with a `\ …` line after it is read without that marker line |
| Patterns.HintfulContentOf | implementations/python3/implementation.py:202 | every assembled content line is recognised with exactly the parts it was built from |
| Patterns.SnippetLineOf | implementations/python3/implementation.py:202 | a `<name` / `>name` line is not a content line, and the snippet recogniser returns the name |
| Patterns.IndexOf | implementations/python3/implementation.py:67-83 | an `index` line without a mode fails the with-mode shape and matches the plain one |
| Patterns.DiffTitleOf | implementations/python3/implementation.py:92 | a title line built from two space-free names gives those names back |
| Parser.CountValue | implementations/python3/implementation.py:135-136 | an omitted `,count` means 1 |
| Parser.MakeHeader | implementations/python3/implementation.py:128-148 | the `beginhunk` keeps the raw groups, and its counts are the values of the count groups (1 when omitted); it has a hunk line count exactly when the header had one |
| Parser.UnifiedHeader | implementations/python3/implementation.py:125-127 | a unified header yields no hunk line count |
| Parser.UnifiedHunk | implementations/python3/implementation.py:124-169 | a parsed unified hunk is `beginhunk`, body events, `endhunk`, and consumes a prefix of the input |
| Parser.ParseUnifiedHunk | implementations/python3/implementation.py:124-169 | the reader with its counters computes `UnifiedHunk` |
| Parser.ReadUnifiedBody | implementations/python3/implementation.py:149-169 | the counting loop computes the specification `UnifiedHunkAfter` |
| Parser.PrefixUse | implementations/python3/implementation.py:163-164 | `-` uses one left line, `+` one right line, and a space one of each |
| Parser.ReadsExactlyCons | implementations/python3/implementation.py:149-151 | a line is read only while some counter is positive and neither is negative |
| Parser.UnifiedBodyStep | implementations/python3/implementation.py:149-166 | a successful read with a positive counter consumed a well-formed first line and charged its sides |
| Parser.UnifiedBodyReadsExactly | implementations/python3/implementation.py:149-169 | a successful read consumes well-formed body lines, each read while some counter is positive and neither is negative, whose uses bring both counters to zero or below (a space line may leave one side at −1), and then yields `endhunk` |
| Parser.UnifiedBodyComplete | implementations/python3/implementation.py:149-169 | conversely, well-formed lines read under those conditions that bring both counters to zero or below are read as one hunk, whatever follows them |
| Parser.HintfulLine | implementations/python3/implementation.py:201-225 | a recognised hintful body line yields a content or snippet event |
| Parser.HintfulLineOf | implementations/python3/implementation.py:202-217 | a content line reads back with its kind; after `$` the CR run and the newline belong to the content; after `\` they do not |
| Parser.HintfulBodyShape | implementations/python3/implementation.py:200-228 | a read of N body lines consumes exactly N lines and yields N body events and then `endhunk` |
| Parser.HintfulBodyExactly | implementations/python3/implementation.py:200-204 | the read succeeds exactly when N lines remain and each of the first N is a recognised body line |
| Parser.HintfulHeader | implementations/python3/implementation.py:172-199 | a hintful header always yields a hunk line count |
| Parser.HintfulHunk | implementations/python3/implementation.py:171-228 | a parsed hintful hunk is framed and has exactly `(N)` + 2 events |
| Parser.HintfulHunkAfter | implementations/python3/implementation.py:186-228 | it starts with the given `beginhunk`, is framed, has N + 2 events, and consumes a prefix of the input |
| Parser.ParseHintfulHunk | implementations/python3/implementation.py:171-228 | the counting loop computes `HintfulHunk` |
| Parser.NextHintfulLine | implementations/python3/implementation.py:201-225 | one loop step either fails with the step's error or adds the line's event in front of the rest of the read |
| Parser.ReadHintfulBody | implementations/python3/implementation.py:200-228 | the `range(hunklinecount)` loop computes the specification `HintfulHunkAfter` |
| Parser.Classify | implementations/python3/implementation.py:31-100 | a line is classified as a hunk start exactly when it is an `@@…` line; a one-line production yields a file-level event |
| Parser.SecondLine | implementations/python3/implementation.py:36-39 | the second line of a labels or rename pair must exist (otherwise premature end) and have the expected tag (otherwise the pair's own error) |
| Parser.Production | implementations/python3/implementation.py:29-100 | each production consumes at least one line and yields one framed hunk or one file-level event |
| Parser.ReadProduction | implementations/python3/implementation.py:31-100 | one iteration of the parser loop computes `Production` |
| Parser.ParseDiff | implementations/python3/implementation.py:29-100 | the parser loop computes the fold of productions `ParseLines` |
| Parser.ParsedIsFramed | implementations/python3/implementation.py:29-100 | the parser's output is framed: file events between hunks, every hunk opened by `beginhunk` and closed by `endhunk` |
| Formatter.CommonLine | implementations/python3/implementation.py:230-256 | `formatCommonLine` succeeds exactly on file-level events and `endhunk`, and writes nothing exactly for `endhunk` |
| Formatter.HintfulHeaderText | implementations/python3/implementation.py:284-297 | a hintful header fails exactly when the event has no raw hunk line count |
| Formatter.UnifiedPrefix | implementations/python3/implementation.py:274 | only ignored content has no unified prefix; the prefix reads back as the kind, with low-priority content becoming both-sides content |
| Formatter.HintfulPrefix | implementations/python3/implementation.py:299 | the hintful prefix reads back as the same kind |
| Formatter.SplitNewlineRun | implementations/python3/implementation.py:302 | the `^(.*[^\r])?(\r*\n)$` split, where it matches the whole content, cuts it into two parts that concatenate back to it; otherwise it fails, either with a partial match or because nothing matched |
| Formatter.SplitNewlineRunInner | implementations/python3/implementation.py:302 | content whose first newline is followed only by CRs and the final newline splits just after that first newline |
| Formatter.SplitNewlineRunPartial | implementations/python3/implementation.py:11-12 | content whose first newline is followed by CRs and two newlines is matched only up to its last newline, so the program stops with the partial-match error |
| Formatter.PartialMatchFormatted | implementations/python3/implementation.py:300-303 | writing content made of a text without newlines, a newline, carriage returns and two newlines (`a` and three newlines, say) stops with the partial-match error |
| Formatter.HintfulContentRoundTrip | implementations/python3/implementation.py:298-308 | content without an inner newline is written as one line, and that line parses back to the same kind and content |
| Formatter.TerminatedContentRoundTrip | implementations/python3/implementation.py:301-305 | the same for newline-terminated content: the `\r*\n` run goes after the `$` and is read back into the content |
| Formatter.HintfulContentLineCanonical | implementations/python3/implementation.py:202-217 | writing a parsed content line gives back the same line, unless a `\` marker was followed by CRs |
| Formatter.SnippetRoundTrip | implementations/python3/implementation.py:309-314 | a snippet line parses back to the same side and name |
| Formatter.SnippetLineCanonical | implementations/python3/implementation.py:202-223 | writing a parsed snippet line gives back the same line, unless CRs came before its newline |
| Formatter.UnifiedContentRoundTrip | implementations/python3/implementation.py:273-277 | unified content, with the `\ No newline at end of file` line when unterminated, is read back by the unified hunk reader with its prefix and content |
| Formatter.UnterminatedUnifiedLine | implementations/python3/implementation.py:276-277 | once glued, unterminated content with its marker line parses back to the content |
| Formatter.HeaderLineIsLine | implementations/python3/implementation.py:262-272 | a header written from well-formed raw groups is an `@@…` line |
| Formatter.HintfulHeaderRoundTrip | implementations/python3/implementation.py:284-297 | a hintful header written from the raw strings parses back to the same `beginhunk` |
| Formatter.UnifiedHeaderRoundTrip | implementations/python3/implementation.py:261-272 | a unified header written from the raw strings parses back to the same `beginhunk`; omitted counts stay omitted |
| RoundTrip.LabelsRoundTrip | implementations/python3/implementation.py:234-235 | the `---`/`+++` pair parses back to the same labels and consumes exactly its two lines |
| RoundTrip.RenameRoundTrip | implementations/python3/implementation.py:252-254 | the `rename from`/`rename to` pair parses back to the same rename |
| RoundTrip.DiffTitleRoundTrip | implementations/python3/implementation.py:236-237 | a `diff --git` line parses back to the same title |
| RoundTrip.IndexRoundTrip | implementations/python3/implementation.py:238-242 | an `index` line, with or without a mode, parses back to the same event |
| RoundTrip.SimilarityRoundTrip | implementations/python3/implementation.py:250-251 | a `similarity index` line parses back to the same event |
| RoundTrip.FileModeRoundTrip | implementations/python3/implementation.py:243-249 | a `deleted`/`new file mode` line parses back to the same side and mode |
| RoundTrip.FileEventRoundTrip | implementations/python3/implementation.py:230-256 | every canonical file-level event formats to text that `Production` reads back as that event, in either mode, leaving exactly the text after it |
| Masking.RemoveSnippets | implementations/python3/implementation.py:318-349 | the loop with its two snippet names computes the fold `Mask` |
| Masking.MaskKeepsVisibleText | implementations/python3/implementation.py:318-345 | the text each side receives is that side's text outside its named snippets |
| Masking.MaskedIsPlain | implementations/python3/implementation.py:323-341 | no snippet and no ignored content survives the stage |
| Masking.MaskKeepsSkeleton | implementations/python3/implementation.py:342-347 | the events other than content and snippets pass through unchanged, in order |
| Masking.EndInsideSnippet | implementations/python3/implementation.py:342-345 | `endhunk` with a snippet open on either side fails |
| Collect.FlushText | implementations/python3/implementation.py:370-376 | after the flush loop no newline is left in the accumulator |
| Collect.FlushPending | implementations/python3/implementation.py:369-376 | the `while '\n' in …` loop computes `FlushText` |
| Collect.CollectEvent | implementations/python3/implementation.py:366-410 | one iteration (check, flush, then update the state) computes the step function `CollectStep` |
| Collect.CollectLines | implementations/python3/implementation.py:351-410 | the loop over events computes the fold `Collect` |
| Collect.FlushTextLines | implementations/python3/implementation.py:370-376 | every flushed chunk is one newline-terminated line of the accumulator's kind |
| Collect.FlushTextSide | implementations/python3/implementation.py:369-376 | flushing loses no text: the chunks and what remains concatenate to the accumulator |
| Collect.CollectConserves | implementations/python3/implementation.py:351-410 | on each side, the pending text plus the text received equals the text emitted plus the text still pending |
| Collect.CollectKeepsText | implementations/python3/implementation.py:351-410 | on a well-formed stream, each side's emitted text equals that side's received text |
| Collect.StepKeepsInvariant | implementations/python3/implementation.py:359-389 | unless text arrives for a side that has ended, pending both-text and pending side text never coexist, and an ended side holds nothing |
| Collect.EndedSideBreaksInvariant | implementations/python3/implementation.py:390-401 | after `endhunk` marks a side ended, text for that side breaks the invariant |
| Collect.EndedSideRejected | implementations/python3/implementation.py:359-368 | such text makes the stage fail with the broken-invariant error at the next event |
| Collect.CollectChunked | implementations/python3/implementation.py:369-402 | every chunk emitted before an `endhunk` is exactly one newline-terminated line; only the chunks just before `endhunk` may be unterminated |
| Reversal.SwitchTwice | implementations/python3/implementation.py:412-415 | `switchleftright` is its own inverse |
| Reversal.SwitchOfKind | implementations/python3/implementation.py:420-421 | switching a content op name swaps `leftcontent` and `rightcontent` and keeps the others |
| Reversal.ReverseOpName | implementations/python3/implementation.py:417-426 | the op of a reversed event is the switched op of the event |
| Reversal.ReverseTwice | implementations/python3/implementation.py:417-426 | reversing an event twice gives it back |
| Reversal.ReverseAllTwice | implementations/python3/implementation.py:417-426 | reversing a stream twice gives it back |
| Reversal.ReverseSides | implementations/python3/implementation.py:417-426 | the text on a side of the reversed stream is the text on the other side of the original |
| Reversal.ReverseFramed | implementations/python3/implementation.py:417-426 | reversal keeps a stream framed |
| Snippets.ValidateSnippets | implementations/python3/implementation.py:428-455 | the stage succeeds exactly when the snippet fold succeeds, fails with the fold's error, and passes every event through unchanged |
| Snippets.SnippetsMatchUses | implementations/python3/implementation.py:436-454 | the cache check succeeds exactly when the uses of closed snippets can be listed, agree with the cache, and agree with each other |
| Snippets.SnippetsConsistent | implementations/python3/implementation.py:428-455 | from the start, validation succeeds exactly when no `endhunk` comes with a snippet open and every two uses of the same name carry the same text |
| Grouping.EndFrom | implementations/python3/implementation.py:462-466 | the scan for `endhunk` stops at the first `endhunk`, or at the end of the stream |
| Grouping.ReadContents | implementations/python3/implementation.py:461-466 | the inner loop collects exactly the events before the next `endhunk` |
| Grouping.NextGroup | implementations/python3/implementation.py:458-469 | one outer iteration yields one grouped event, or fails when `endhunk` is missing |
| Grouping.GroupHunks | implementations/python3/implementation.py:457-469 | the loop computes the specification `Group` |
| Grouping.RecountedCounts | implementations/python3/implementation.py:482-488 | every recounted `hunk` keeps its events, and its hunk line count and raw numeral both equal the number of its events; no other header field changes, and every other event passes through unchanged |
| Grouping.UngroupGroup | implementations/python3/implementation.py:457-480 | ungrouping a grouped stream gives the original stream back |
| Grouping.GroupFramed | implementations/python3/implementation.py:457-469 | grouping a framed stream succeeds and leaves only file events and hunks of body events |
| Grouping.GroupUngroup | implementations/python3/implementation.py:457-480 | grouping an ungrouped stream gives back the grouped one |
| Grouping.GroupHunkEvents | implementations/python3/implementation.py:459-467 | the events of one parsed hunk group into one `hunk` with its body |
| Grouping.HintfulHunkRecount | implementations/python3/implementation.py:482-488 | recounting a parsed hintful hunk gives back the `(N)` count it was parsed with, which is the number of body lines the reader consumed |
| HunkCheck.LeadingCr | implementations/python3/implementation.py:520 | the CR run at the front of the text is maximal |
| HunkCheck.MatchCrNewlineWhole | implementations/python3/implementation.py:520 | `^\r*\n$` matches the whole content exactly when the content is CRs followed by a newline |
| HunkCheck.Receive | implementations/python3/implementation.py:518-524 | the per-side update computes the specification `ReceiveSide` |
| HunkCheck.Close | implementations/python3/implementation.py:525-534 | the per-side check at the end computes `CloseSide` |
| HunkCheck.ValidateHunk | implementations/python3/implementation.py:502-535 | the loop computes the specification `CheckHunk` |
| HunkCheck.HunkFromText | implementations/python3/implementation.py:511-524 | each side accumulates exactly its visible text; the snippet it ends with is the last one opened on that side; its allowed flag does not change inside the hunk |
| HunkCheck.CloseSideCounts | implementations/python3/implementation.py:525-534 | closing succeeds only with no snippet open and the declared count equal to the text's line count; afterwards the side stays allowed exactly when its text ends cleanly |
| HunkCheck.CheckHunkSound | implementations/python3/implementation.py:502-535 | a hunk that passes holds only body events; it leaves no snippet open on either side; each side's visible line count is the declared one; a side that was not allowed receives no text |
| HunkCheck.OpenSnippetRejected | implementations/python3/implementation.py:525-527 | a hunk whose events leave a snippet open on a side fails; on the left side, checked first, with the ended-inside-snippet error |
| HunkCheck.SplitCrLfRejected | implementations/python3/implementation.py:520-521 | a `\r*\n` piece after text ending in CR is rejected |
| HunkCheck.ValidateHunks | implementations/python3/implementation.py:490-501 | the stage succeeds exactly when the fold succeeds, fails with the fold's error, and passes every event through unchanged |
| HunkCheck.HunksStepSound | implementations/python3/implementation.py:494-499 | one accepted event is a file event or a hunk; a hunk's counts match, and content only appears on allowed sides |
| HunkCheck.HunksSound | implementations/python3/implementation.py:490-501 | over a whole stream: only file events and hunks are accepted; every hunk's counts match; no hunk puts text on a side that ended without a newline since the last `difftitle` |

## Left out

- Input and output: `getInputLines`, `p`, `output` and `sink` (lines 4-5, 22-27, 537-543). The model starts from the sequence of lines that `readline` returns, and it stops at the events or the text a stage yields.
- `main`: the choice of pipeline by program name, and the `functools.reduce` that chains the stages (lines 545-590). A pipeline is the composition of the modelled functions.
- Python's regular-expression engine inside `m()` (lines 7-16). Each pattern is a recogniser for its line shape.
- Python's `$` also matches just before a final newline, so a pattern can match only part of a string that ends in two newlines. `m()` then fails.
  - The parser's patterns only ever see `readline` lines, and `LineGlue.GluedLinesEndCleanly` shows that glue never yields a line ending in two newlines. Their recognisers therefore require the newline to be last.
  - Content can end in two newlines. In `validateHunk` (`^\r*\n$`) and in `formatHintfulDiff` (`^(.*[^\r])?(\r*\n)$`) the pattern is modelled with its partial match, which fails with `PartialMatch`.
- The program writes its message and exits; it does not return a status. Every such stop is a `Fail` with one error value per message, without the message text.
  - `StopIteration` escaping `next(...)` in `parseDiff` and `groupHunks` is `PrematureEnd`.
  - In `nextLine` it is `EndOfFileInHunk`.
  - A `KeyError` or `TypeError` in a formatter is a failure too: `CannotProcess`, `MissingLineCount` or `UnformattableContent` (the pattern at line 302 did not match).
- Stages are generators, so the program writes every event or line produced before a failure. The model's failure carries no partial output.
- The order in which `collectLines` reports two errors that the same event would trigger is the program's order. The model does not prove anything about that order.
- Parser.ParseDiff: the round trip is proved for each line and each event, not for a whole formatted stream parsed back.
- Formatter.HintfulContentRoundTrip: content with a newline before its last character is not covered. The formatter cannot write such content as one line; `Formatter.SplitNewlineRun` models how its split then keeps the inner newline, matches partially or fails.
- Grouping.RecountedCounts: `str(len(contents))` replaces the raw numeral. A count written `007` comes back as `7`; the model does the same.
- Reversal.Reverse: inside a grouped `hunk` the `contents` key is not side-named, so the events in it are not reversed. The model does the same as the code.
- Reversal.Reverse swaps the ops of left and right lines but keeps their order: a `-foo`, `+bar` pair becomes `+foo`, `-bar`.
- RoundTrip.FileEventRoundTrip: the unified reader first glues each `\…` line onto the line before it. When the text after a file-level line begins with such a line, glue joins the two, and that event is not read back. The lemma reads the lines with `Production` directly, without glue.
