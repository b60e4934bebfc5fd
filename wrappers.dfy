/** Failure-compatible result types, and the reasons for which a stage of the
    diff toolkit stops. In the program every such stop writes a message and
    exits (or raises an exception that ends the process); here it is a value. */
module Wrappers {

  datatype Option<+T> = None | Some(value: T) {
    predicate IsFailure() { None? }
    function PropagateFailure<U>(): Option<U>
      requires None?
    { None }
    function Extract(): T
      requires Some?
    { value }
  }

  /** Why a stage stopped. */
  datatype Error =
    // parseDiff
    | ExpectedPlusLine            // a `---` line not followed by a `+++` line
    | ExpectedRenameTo            // a `rename from` line not followed by `rename to`
    | PrematureEnd                // the input ended where one more line or event was needed
    | ContentWithoutHeader        // a body-shaped line outside any hunk
    | CannotParseLine             // no production matches the line
    // hunk parsers
    | EndOfFileInHunk
    | CorruptUnifiedHeader
    | CorruptHintfulHeader
    | CorruptLineCount            // a side counter went negative while lines remain
    | IncompleteHunk              // an empty line inside a hunk
    | CorruptHunkLine             // a unified body line that is not `[-+ ]...`
    | StrangeLine                 // a hintful body line of no known shape
    | CrBeforeNewlineMarker       // `\r$` in a hintful body line
    // formatters and the stages that reject an operation they do not know
    | CannotProcess
    | UnformattableContent        // content `^(.*[^\r])?(\r*\n)$` does not match
    | MissingLineCount            // a hintful header without its `(N)` count
    // transforms and validators
    | HunkEndedInsideSnippet
    | BrokenInvariant
    | SnippetMismatch
    | NotAllowedOutsideHunk
    | NotAllowedInsideHunk
    | SplitCrLf                   // a `\r*\n` piece after text ending in `\r`
    | ContentAfterNoNewline
    | LineCountMismatch
    | PartialMatch                // a pattern matched only a prefix of the text

  datatype Result<+T> = Ok(value: T) | Fail(error: Error) {
    predicate IsFailure() { Fail? }
    function PropagateFailure<U>(): Result<U>
      requires Fail?
    { Fail(error) }
    function Extract(): T
      requires Ok?
    { value }
  }

  /** A result whose value, when there is one, gets `prefix` in front. */
  function Prepend<T>(prefix: seq<T>, r: Result<seq<T>>): (p: Result<seq<T>>)
    ensures p.Ok? <==> r.Ok?
    ensures p.Ok? ==> p.value == prefix + r.value
    ensures p.Fail? ==> p.error == r.error
  {
    match r
    case Ok(v) => Ok(prefix + v)
    case Fail(e) => Fail(e)
  }

  lemma PrependNothing<T>(r: Result<seq<T>>)
    ensures Prepend([], r) == r
  {
    if r.Ok? {
      assert [] + r.value == r.value;
    }
  }

  lemma PrependPrepend<T>(a: seq<T>, b: seq<T>, r: Result<seq<T>>)
    ensures Prepend(a, Prepend(b, r)) == Prepend(a + b, r)
  {
    if r.Ok? {
      assert a + (b + r.value) == (a + b) + r.value;
    }
  }

  /** The same for a result that also carries what is left of the input. */
  function PrependFirst<T, U>(prefix: seq<T>, r: Result<(seq<T>, U)>): (p: Result<(seq<T>, U)>)
    ensures p.Ok? <==> r.Ok?
    ensures p.Ok? ==> p.value.0 == prefix + r.value.0 && p.value.1 == r.value.1
    ensures p.Fail? ==> p.error == r.error
  {
    match r
    case Ok(v) => Ok((prefix + v.0, v.1))
    case Fail(e) => Fail(e)
  }

  lemma PrependFirstPrependFirst<T, U>(a: seq<T>, b: seq<T>, r: Result<(seq<T>, U)>)
    ensures PrependFirst(a, PrependFirst(b, r)) == PrependFirst(a + b, r)
  {
    if r.Ok? {
      assert a + (b + r.value.0) == (a + b) + r.value.0;
    }
  }
}
