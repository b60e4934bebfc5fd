/** Strings as the toolkit sees them: lines as `readline` returns them, runs of
    character classes (the building blocks of the line patterns), trailing
    carriage returns, and decimal numerals as `int()` and `str()` read and write
    them. */
module Text {

  /** The text obtained by writing every piece in order. */
  function Concat(ss: seq<string>): string
  {
    if |ss| == 0 then "" else ss[0] + Concat(ss[1..])
  }

  lemma {:induction false} ConcatAppend(a: seq<string>, b: seq<string>)
    ensures Concat(a + b) == Concat(a) + Concat(b)
  {
    if |a| == 0 {
      assert a + b == b;
    } else {
      assert (a + b)[1..] == a[1..] + b;
      ConcatAppend(a[1..], b);
    }
  }

  /** No line feed anywhere but possibly at the very end. */
  predicate NoInnerNewline(s: string)
  {
    forall i :: 0 <= i < |s| - 1 ==> s[i] != '\n'
  }

  /** One whole line: text without line feeds, then one line feed. */
  predicate IsLine(s: string)
  {
    |s| > 0 && s[|s| - 1] == '\n' && NoInnerNewline(s)
  }

  /** Text without line feeds in front of a line is still one line. */
  lemma LineCons(a: string, b: string)
    requires '\n' !in a && IsLine(b)
    ensures IsLine(a + b)
  {
    var s := a + b;
    assert forall i :: 0 <= i < |a| ==> s[i] == a[i];
    assert forall i :: |a| <= i < |s| ==> s[i] == b[i - |a|];
  }

  predicate EndsWithNewline(s: string)
  {
    |s| > 0 && s[|s| - 1] == '\n'
  }

  /** The position of the first line feed, or |s| when there is none. */
  function NewlineIndex(s: string): (k: nat)
    ensures k <= |s|
    ensures k < |s| ==> s[k] == '\n'
    ensures forall i :: 0 <= i < k ==> s[i] != '\n'
  {
    if |s| == 0 then 0 else if s[0] == '\n' then 0 else 1 + NewlineIndex(s[1..])
  }

  /** The lines `readline` returns for the text `s`: each keeps its line feed,
      and only the last may lack one. Together they spell `s` again. */
  function Lines(s: string): (r: seq<string>)
    ensures Concat(r) == s
    ensures forall j :: 0 <= j < |r| ==> r[j] != "" && NoInnerNewline(r[j])
    ensures forall j :: 0 <= j < |r| - 1 ==> IsLine(r[j])
    decreases |s|
  {
    if |s| == 0 then []
    else
      var k := NewlineIndex(s);
      if k == |s| then [s]
      else
        assert s == s[..k + 1] + s[k + 1..];
        [s[..k + 1]] + Lines(s[k + 1..])
  }

  lemma LinesOfLine(s: string)
    requires IsLine(s)
    ensures Lines(s) == [s]
  {
    assert NewlineIndex(s) == |s| - 1;
    assert s[..|s|] == s;
    assert Lines(s[|s|..]) == [];
  }

  lemma {:induction false} LinesOfConcat(a: string, b: string)
    requires IsLine(a)
    ensures Lines(a + b) == [a] + Lines(b)
  {
    var s := a + b;
    assert NewlineIndex(s) == |a| - 1 by {
      assert s[|a| - 1] == '\n';
      assert forall i :: 0 <= i < |a| - 1 ==> s[i] == a[i];
    }
    assert s[..|a|] == a;
    assert s[|a|..] == b;
  }

  /** Python's `s.split('\n')`: the pieces between line feeds. */
  function SplitNewlines(s: string): (r: seq<string>)
    decreases |s|
  {
    var k := NewlineIndex(s);
    if k == |s| then [s] else [s[..k]] + SplitNewlines(s[k + 1..])
  }

  /** Splitting on line feeds gives one piece more than `s` has line feeds;
      taking one off unless `s` ends in an unterminated line counts exactly
      the lines `readline` would return. */
  lemma {:induction false} SplitCountsLines(s: string)
    ensures |SplitNewlines(s)| - (if s != "" && !EndsWithNewline(s) then 0 else 1) == |Lines(s)|
    decreases |s|
  {
    var k := NewlineIndex(s);
    if k < |s| {
      var rest := s[k + 1..];
      SplitCountsLines(rest);
      if rest != "" {
        assert s[|s| - 1] == rest[|rest| - 1];
      }
    }
  }

  // ---- character classes and maximal runs -------------------------------

  datatype CharClass = Space | Digit | Hex | Octal | NonSpace

  predicate InClass(c: char, k: CharClass)
  {
    match k
    case Space => c == ' '
    case Digit => '0' <= c <= '9'
    case Hex => '0' <= c <= '9' || 'a' <= c <= 'f'
    case Octal => '0' <= c <= '7'
    case NonSpace => c != ' '
  }

  predicate All(s: string, k: CharClass)
  {
    forall i :: 0 <= i < |s| ==> InClass(s[i], k)
  }

  /** The length of the longest prefix of `s` in class `k`. */
  function Span(s: string, k: CharClass): (n: nat)
    ensures n <= |s|
    ensures All(s[..n], k)
    ensures n < |s| ==> !InClass(s[n], k)
  {
    if |s| > 0 && InClass(s[0], k) then 1 + Span(s[1..], k) else 0
  }

  lemma {:induction false} SpanOfConcat(a: string, b: string, k: CharClass)
    requires All(a, k)
    requires b == [] || !InClass(b[0], k)
    ensures Span(a + b, k) == |a|
  {
    var s := a + b;
    assert forall i :: 0 <= i < |a| ==> s[i] == a[i];
    assert |a| < |s| ==> s[|a|] == b[0];
  }

  /** The number of carriage returns that end `s`. */
  function CrSuffix(s: string): (n: nat)
    ensures n <= |s|
    ensures forall i :: |s| - n <= i < |s| ==> s[i] == '\r'
    ensures n < |s| ==> s[|s| - n - 1] != '\r'
  {
    if |s| > 0 && s[|s| - 1] == '\r' then 1 + CrSuffix(s[..|s| - 1]) else 0
  }

  predicate AllCr(s: string)
  {
    forall i :: 0 <= i < |s| ==> s[i] == '\r'
  }

  lemma {:induction false} CrSuffixOfConcat(a: string, r: string)
    requires AllCr(r)
    requires a == [] || a[|a| - 1] != '\r'
    ensures CrSuffix(a + r) == |r|
  {
    var s := a + r;
    assert forall i :: |a| <= i < |s| ==> s[i] == r[i - |a|];
    assert |a| > 0 ==> s[|a| - 1] == a[|a| - 1];
  }

  // ---- decimal numerals ----------------------------------------------------

  function DigitValue(c: char): nat
    requires InClass(c, Digit)
  {
    (c as int) - ('0' as int)
  }

  function DigitChar(d: nat): char
    requires d < 10
  {
    (('0' as int) + d) as char
  }

  /** Python's `int(s)` on a numeral (leading zeros allowed). */
  function ParseNat(s: string): nat
    requires All(s, Digit)
  {
    if |s| == 0 then 0 else ParseNat(s[..|s| - 1]) * 10 + DigitValue(s[|s| - 1])
  }

  /** Python's `str(n)`: a non-empty numeral that reads back as `n`, with
      no leading zero unless it is `0` itself. */
  function NatToString(n: nat): (r: string)
    ensures |r| > 0 && All(r, Digit)
    ensures ParseNat(r) == n
    ensures r[0] == '0' ==> r == "0"
  {
    if n < 10 then [DigitChar(n)]
    else
      var r := NatToString(n / 10) + [DigitChar(n % 10)];
      assert r[..|r| - 1] == NatToString(n / 10);
      assert r[0] == NatToString(n / 10)[0];
      r
  }
}
