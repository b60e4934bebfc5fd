/** `validateSnippets`: every use of a named snippet must hold the same text.
    The stage passes its events through unchanged; it stops when a snippet
    closes with text other than an earlier use of its name had, or when a
    hunk ends with a snippet still open. */
module Snippets {
  import opened Wrappers
  import opened Events

  /** The snippet open on one side (the empty name when none is) and the
      text it has received so far. */
  datatype OpenSnippet = OpenSnippet(name: string, text: string)

  const Closed := OpenSnippet("", "")

  /** The texts of closed snippets by name, and the snippet open on each side. */
  datatype SnippetState = SnippetState(cache: map<string, string>, left: OpenSnippet, right: OpenSnippet)
  {
    function Of(s: Side): OpenSnippet
    {
      if s == Left then left else right
    }
  }

  const Start := SnippetState(map[], Closed, Closed)

  /** An open snippet on side `s` receives the content that side sees. */
  function Grow(o: OpenSnippet, k: Kind, c: string, s: Side): OpenSnippet
  {
    if o.name != "" && OnSide(k, s) then o.(text := o.text + c) else o
  }

  /** One event of `validateSnippets`. A snippet event closes the snippet open
      on its side, checking and recording its text, and opens the one it
      names. */
  function SnippetStep(st: SnippetState, e: Event): Result<SnippetState>
  {
    match e
    case Snippet(side, name) =>
      var o := st.Of(side);
      if o.name != "" && o.name in st.cache && st.cache[o.name] != o.text then Fail(SnippetMismatch)
      else
        var cache := if o.name != "" then st.cache[o.name := o.text] else st.cache;
        var newOpen := OpenSnippet(name, "");
        Ok(if side == Left then SnippetState(cache, newOpen, st.right) else SnippetState(cache, st.left, newOpen))
    case Content(k, c) =>
      Ok(st.(left := Grow(st.left, k, c, Left), right := Grow(st.right, k, c, Right)))
    case EndHunk =>
      if st.left.name != "" || st.right.name != "" then Fail(HunkEndedInsideSnippet) else Ok(st)
    case _ => Ok(st)
  }

  function SnippetsFrom(st: SnippetState, es: seq<Event>): Result<SnippetState>
    decreases |es|
  {
    if |es| == 0 then Ok(st)
    else
      var st' :- SnippetStep(st, es[0]);
      SnippetsFrom(st', es[1..])
  }

  /** The stage yields every event it reads, so on success its output is its
      input; it fails exactly when the fold over the events fails, and for
      the same reason. */
  method ValidateSnippets(es: seq<Event>) returns (r: Result<seq<Event>>)
    ensures r.Ok? <==> SnippetsFrom(Start, es).Ok?
    ensures r.Ok? ==> r.value == es
    ensures r.Fail? ==> r.error == SnippetsFrom(Start, es).error
  {
    var cache: map<string, string> := map[];
    var leftName, leftText, rightName, rightText := "", "", "", "";
    var out: seq<Event> := [];
    for i := 0 to |es|
      invariant out == es[..i]
      invariant SnippetsFrom(Start, es)
             == SnippetsFrom(SnippetState(cache, OpenSnippet(leftName, leftText), OpenSnippet(rightName, rightText)), es[i..])
    {
      var e := es[i];
      assert es[i..][0] == e && es[i..][1..] == es[i + 1..];
      match e {
        case Snippet(side, newName) =>
          var oldName := if side == Left then leftName else rightName;
          var oldText := if side == Left then leftText else rightText;
          if oldName != "" {
            if oldName in cache && cache[oldName] != oldText {
              return Fail(SnippetMismatch);
            }
            cache := cache[oldName := oldText];
          }
          if side == Left {
            leftName, leftText := newName, "";
          } else {
            rightName, rightText := newName, "";
          }
        case Content(k, c) =>
          if leftName != "" && OnSide(k, Left) {
            leftText := leftText + c;
          }
          if rightName != "" && OnSide(k, Right) {
            rightText := rightText + c;
          }
        case EndHunk =>
          if leftName != "" || rightName != "" {
            return Fail(HunkEndedInsideSnippet);
          }
        case _ =>
      }
      out := out + [e];
    }
    assert es[|es|..] == [];
    assert es[..|es|] == es;
    return Ok(out);
  }

  // ---- what the cache checks -------------------------------------------------

  /** One closed use of a snippet: its name and the text it held. */
  datatype Use = Use(name: string, text: string)

  /** The uses of snippets in the order they close, found without any cache;
      fails, as the stage does, on a hunk that ends inside a snippet. */
  function UsesFrom(left: OpenSnippet, right: OpenSnippet, es: seq<Event>): Result<seq<Use>>
    decreases |es|
  {
    if |es| == 0 then Ok([])
    else match es[0]
      case Snippet(side, name) =>
        var o := if side == Left then left else right;
        var closed := if o.name != "" then [Use(o.name, o.text)] else [];
        var newOpen := OpenSnippet(name, "");
        Prepend(closed, if side == Left then UsesFrom(newOpen, right, es[1..]) else UsesFrom(left, newOpen, es[1..]))
      case Content(k, c) => UsesFrom(Grow(left, k, c, Left), Grow(right, k, c, Right), es[1..])
      case EndHunk =>
        if left.name != "" || right.name != "" then Fail(HunkEndedInsideSnippet) else UsesFrom(left, right, es[1..])
      case _ => UsesFrom(left, right, es[1..])
  }

  /** Every use of a name holds the same text. */
  predicate Consistent(uses: seq<Use>)
  {
    forall i, j :: 0 <= i < |uses| && 0 <= j < |uses| && uses[i].name == uses[j].name ==> uses[i].text == uses[j].text
  }

  /** Every use of a cached name holds the cached text. */
  predicate Agrees(cache: map<string, string>, uses: seq<Use>)
  {
    forall i :: 0 <= i < |uses| && uses[i].name in cache ==> cache[uses[i].name] == uses[i].text
  }

  /** Checking one use against the cache and then recording it is the same as
      asking the cache and all later uses to agree with it. */
  lemma AgreesCons(cache: map<string, string>, u: Use, us: seq<Use>)
    ensures (Agrees(cache, [u] + us) && Consistent([u] + us))
        <==> ((u.name !in cache || cache[u.name] == u.text) && Agrees(cache[u.name := u.text], us) && Consistent(us))
  {
    if Agrees(cache, [u] + us) && Consistent([u] + us) {
      AgreesConsSplit(cache, u, us);
    }
    if (u.name !in cache || cache[u.name] == u.text) && Agrees(cache[u.name := u.text], us) && Consistent(us) {
      AgreesConsJoin(cache, u, us);
    }
  }

  lemma AgreesConsSplit(cache: map<string, string>, u: Use, us: seq<Use>)
    requires Agrees(cache, [u] + us) && Consistent([u] + us)
    ensures u.name !in cache || cache[u.name] == u.text
    ensures Agrees(cache[u.name := u.text], us) && Consistent(us)
  {
    var all := [u] + us;
    assert all[0] == u;
    forall i | 0 <= i < |us| && us[i].name in cache[u.name := u.text]
      ensures cache[u.name := u.text][us[i].name] == us[i].text
    {
      assert all[i + 1] == us[i];
    }
    forall i, j | 0 <= i < |us| && 0 <= j < |us| && us[i].name == us[j].name
      ensures us[i].text == us[j].text
    {
      assert all[i + 1] == us[i] && all[j + 1] == us[j];
    }
  }

  lemma AgreesConsJoin(cache: map<string, string>, u: Use, us: seq<Use>)
    requires u.name !in cache || cache[u.name] == u.text
    requires Agrees(cache[u.name := u.text], us) && Consistent(us)
    ensures Agrees(cache, [u] + us) && Consistent([u] + us)
  {
    var all := [u] + us;
    forall i | 0 <= i < |all| && all[i].name in cache
      ensures cache[all[i].name] == all[i].text
    {
      if i > 0 {
        assert all[i] == us[i - 1];
      }
    }
    forall i, j | 0 <= i < |all| && 0 <= j < |all| && all[i].name == all[j].name
      ensures all[i].text == all[j].text
    {
      if i > 0 {
        assert all[i] == us[i - 1];
      }
      if j > 0 {
        assert all[j] == us[j - 1];
      }
    }
  }

  lemma AgreesNothing(cache: map<string, string>, us: seq<Use>)
    ensures Agrees(cache, us) <==> Agrees(cache, [] + us)
    ensures Consistent(us) <==> Consistent([] + us)
  {
    assert [] + us == us;
  }

  /** The stage succeeds from a state exactly when the snippets closed from
      there on agree with the cache and with each other, and no hunk ends
      inside a snippet. */
  lemma {:induction false} SnippetsMatchUses(st: SnippetState, es: seq<Event>)
    ensures SnippetsFrom(st, es).Ok?
        <==> (UsesFrom(st.left, st.right, es).Ok?
              && Agrees(st.cache, UsesFrom(st.left, st.right, es).value)
              && Consistent(UsesFrom(st.left, st.right, es).value))
    decreases |es|
  {
    if |es| > 0 {
      match es[0]
      case Snippet(side, name) =>
        var o := st.Of(side);
        var newOpen := OpenSnippet(name, "");
        var rest := if side == Left then UsesFrom(newOpen, st.right, es[1..]) else UsesFrom(st.left, newOpen, es[1..]);
        assert UsesFrom(st.left, st.right, es) == Prepend(if o.name != "" then [Use(o.name, o.text)] else [], rest);
        var cache := if o.name != "" then st.cache[o.name := o.text] else st.cache;
        var st' := if side == Left then SnippetState(cache, newOpen, st.right) else SnippetState(cache, st.left, newOpen);
        SnippetsMatchUses(st', es[1..]);
        if o.name != "" {
          if rest.Ok? {
            AgreesCons(st.cache, Use(o.name, o.text), rest.value);
          }
        } else if rest.Ok? {
          AgreesNothing(st.cache, rest.value);
        }
      case Content(k, c) =>
        SnippetsMatchUses(st.(left := Grow(st.left, k, c, Left), right := Grow(st.right, k, c, Right)), es[1..]);
      case EndHunk =>
        SnippetsMatchUses(st, es[1..]);
      case DiffTitle(_, _) => SnippetsMatchUses(st, es[1..]);
      case Index(_, _, _) => SnippetsMatchUses(st, es[1..]);
      case Labels(_, _) => SnippetsMatchUses(st, es[1..]);
      case SimilarityIndex(_) => SnippetsMatchUses(st, es[1..]);
      case Rename(_, _) => SnippetsMatchUses(st, es[1..]);
      case FileMode(_, _) => SnippetsMatchUses(st, es[1..]);
      case BeginHunk(_) => SnippetsMatchUses(st, es[1..]);
      case Hunk(_, _) => SnippetsMatchUses(st, es[1..]);
    }
  }

  /** What the stage promises: it accepts a diff exactly when all uses of
      each snippet name hold the same text and no hunk ends inside a snippet. */
  lemma SnippetsConsistent(es: seq<Event>)
    ensures SnippetsFrom(Start, es).Ok?
        <==> (UsesFrom(Closed, Closed, es).Ok? && Consistent(UsesFrom(Closed, Closed, es).value))
  {
    SnippetsMatchUses(Start, es);
  }
}
