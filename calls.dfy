/**
 * The macro call syntax `[[<keyword>(<argument>)]]` shared by the anchor
 * definitions, the attachment references and the Date, Picture,
 * TableOfContents and Span macros: how a call is recognised by the
 * minimal regexes `\[\[kw\(.*\)\]\]` and `\[\[kw\(.+\)\]\]`, and how its
 * argument is recovered by removing the opening and the closer.
 */
module Calls {
  import opened Text
  import opened Rewrite

  function CallOpening(kw: string): string { "[[" + kw + "(" }

  /** The call spelled with keyword `kw` and argument `arg`. */
  function CallText(kw: string, arg: string): string { CallOpening(kw) + arg + ")]]" }

  /**
   * The argument of a call as the handlers compute it: every occurrence of
   * the opening (compared exactly), then every `)]]`, removed.
   */
  function CallArgument(call: string, kw: string): string {
    RemoveAll(RemoveAll(call, CallOpening(kw)), ")]]")
  }

  lemma {:induction false} RemoveTrailing(arg: string)
    requires ')' !in arg
    ensures RemoveAll(arg + ")]]", ")]]") == arg
    decreases |arg|
  {
    var s := arg + ")]]";
    if arg == [] {
      assert s[..3] == ")]]";
      assert s[3..] == [];
      assert ReplaceAll(s[3..], ")]]", "") == [];
    } else {
      assert s[..3] != ")]]" by { assert s[0] == arg[0]; }
      assert s[1..] == arg[1..] + ")]]";
      RemoveTrailing(arg[1..]);
      assert [arg[0]] + arg[1..] == arg;
    }
  }

  /**
   * Opening and closer removed from a call give back its argument when
   * the argument holds no `[` and no `)`, so that nothing else is taken.
   */
  lemma {:induction false} ArgumentOfCall(kw: string, arg: string)
    requires '[' !in arg && ')' !in arg
    ensures CallArgument(CallText(kw, arg), kw) == arg
  {
    var p := CallOpening(kw);
    assert p[0] == '[';
    assert p + arg + ")]]" == p + (arg + ")]]");
    RemoveLeading(p, arg + ")]]");
    RemoveTrailing(arg);
  }

  predicate CloserAt(s: string, j: nat) { j + 3 <= |s| && s[j..j + 3] == ")]]" }

  /** The first `)]]` at or after `k`. */
  function CloserFrom(s: string, k: nat): (r: Option<nat>)
    ensures r.Some? ==> k <= r.value && CloserAt(s, r.value)
    decreases |s| - k
  {
    if k + 3 > |s| then None
    else if s[k..k + 3] == ")]]" then Some(k)
    else CloserFrom(s, k + 1)
  }

  lemma {:induction false} CloserFromShift(pre: string, s: string, k: nat)
    ensures CloserFrom(pre + s, |pre| + k) == Shift(CloserFrom(s, k), |pre|)
    decreases |s| - k
  {
    if k + 3 <= |s| {
      SliceShift(pre, s, k, 3);
      CloserFromShift(pre, s, k + 1);
    }
  }

  /** The first closer from `k` on is the one at `e` when there is none before it. */
  lemma {:induction false} FindCloser(s: string, k: nat, e: nat)
    requires k <= e && CloserAt(s, e)
    requires forall j :: k <= j < e ==> !CloserAt(s, j)
    ensures CloserFrom(s, k) == Some(e)
    decreases e - k
  {
    if k < e {
      assert !CloserAt(s, k);
      FindCloser(s, k + 1, e);
    }
  }

  /**
   * The macro regex set minimal matches at `i`: the opening (compared
   * ignoring case when `fold`), at least `min` characters of argument (0
   * for `.*`, 1 for `.+`), and then the FIRST `)]]` from there on.
   */
  predicate MacroCallAt(s: string, i: nat, kw: string, fold: bool, min: nat) {
    OpeningAt(s, i, kw, fold) && CloserFrom(s, i + |CallOpening(kw)| + min).Some?
  }

  /** The opening `[[kw(` at `i`, compared ignoring case when `fold`. */
  predicate OpeningAt(s: string, i: nat, kw: string, fold: bool) {
    var p := CallOpening(kw);
    i + |p| <= |s| && (if fold then EqualsIgnoreCase(s[i..i + |p|], p) else s[i..i + |p|] == p)
  }

  lemma {:induction false} OpeningAtShift(pre: string, s: string, j: nat, kw: string, fold: bool)
    ensures OpeningAt(pre + s, |pre| + j, kw, fold) == OpeningAt(s, j, kw, fold)
  {
    var p := CallOpening(kw);
    if j + |p| <= |s| { SliceShift(pre, s, j, |p|); }
  }

  function MacroCall(kw: string, fold: bool, min: nat): Pattern {
    (s: string, j: nat) => MacroCallAt(s, j, kw, fold, min)
  }

  /** The length of the call matched at `i`, up to and including its `)]]`. */
  function MacroCallLength(s: string, i: nat, kw: string, fold: bool, min: nat): (n: nat)
    requires MacroCallAt(s, i, kw, fold, min)
    ensures |CallOpening(kw)| + min + 3 <= n && i + n <= |s|
  {
    CloserFrom(s, i + |CallOpening(kw)| + min).value + 3 - i
  }

  /** The text of the call matched at `i` (the regex's `cap(0)`). */
  function MacroCallText(s: string, i: nat, kw: string, fold: bool, min: nat): string
    requires MacroCallAt(s, i, kw, fold, min)
  {
    s[i..i + MacroCallLength(s, i, kw, fold, min)]
  }

  /** Whether a call matches does not depend on the text before it. */
  lemma {:induction false} MacroCallAtShift(pre: string, s: string, j: nat, kw: string, fold: bool, min: nat)
    ensures MacroCallAt(pre + s, |pre| + j, kw, fold, min) == MacroCallAt(s, j, kw, fold, min)
    ensures CloserFrom(pre + s, |pre| + j + |CallOpening(kw)| + min)
         == Shift(CloserFrom(s, j + |CallOpening(kw)| + min), |pre|)
  {
    OpeningAtShift(pre, s, j, kw, fold);
    CloserFromShift(pre, s, j + |CallOpening(kw)| + min);
  }

  lemma {:induction false} MacroCallLengthIs(s: string, i: nat, kw: string, fold: bool, min: nat)
    requires MacroCallAt(s, i, kw, fold, min)
    ensures MacroCallLength(s, i, kw, fold, min) + i == CloserFrom(s, i + |CallOpening(kw)| + min).value + 3
  {
  }

  /** Nor does the length of the call. */
  lemma {:induction false} MacroCallLengthShift(pre: string, s: string, j: nat, kw: string, fold: bool, min: nat)
    requires MacroCallAt(s, j, kw, fold, min)
    ensures MacroCallAt(pre + s, |pre| + j, kw, fold, min)
    ensures MacroCallLength(pre + s, |pre| + j, kw, fold, min) == MacroCallLength(s, j, kw, fold, min)
  {
    MacroCallAtShift(pre, s, j, kw, fold, min);
    MacroCallLengthIs(s, j, kw, fold, min);
    MacroCallLengthIs(pre + s, |pre| + j, kw, fold, min);
  }

  /** Nor does the text of the call. */
  lemma {:induction false} MacroCallTextShift(pre: string, s: string, j: nat, kw: string, fold: bool, min: nat)
    requires MacroCallAt(s, j, kw, fold, min)
    ensures MacroCallAt(pre + s, |pre| + j, kw, fold, min)
    ensures MacroCallText(pre + s, |pre| + j, kw, fold, min) == MacroCallText(s, j, kw, fold, min)
  {
    MacroCallLengthShift(pre, s, j, kw, fold, min);
    var n := MacroCallLength(s, j, kw, fold, min);
    SliceShift(pre, s, j, n);
  }

  lemma {:induction false} MacroCallOpens(kw: string, fold: bool, min: nat)
    ensures OpensWithBracket(MacroCall(kw, fold, min))
  {
    forall s: string, j: nat | MacroCall(kw, fold, min)(s, j) ensures j < |s| && s[j] == '[' {
      var p := CallOpening(kw);
      if fold {
        assert FoldCase(s[j..j + |p|][0]) == FoldCase(p[0]);
      } else {
        assert s[j..j + |p|][0] == p[0];
      }
    }
  }

  /**
   * A call written out with an argument of at least `min` characters and
   * no `)` matches at its start and spans exactly its own text.
   */
  lemma {:induction false} MacroCallOf(kw: string, arg: string, post: string, fold: bool, min: nat)
    requires ')' !in arg && min <= |arg|
    ensures MacroCallAt(CallText(kw, arg) + post, 0, kw, fold, min)
    ensures MacroCallText(CallText(kw, arg) + post, 0, kw, fold, min) == CallText(kw, arg)
  {
    var p := CallOpening(kw);
    var s := CallText(kw, arg) + post;
    var e := |p| + |arg|;
    assert s[..|p|] == p;
    assert s[0..|p|] == p;
    assert EqualsIgnoreCase(s[0..|p|], p);
    assert s[e..e + 3] == ")]]";
    forall j | |p| + min <= j < e ensures !CloserAt(s, j) {
      assert s[j..j + 3][0] == arg[j - |p|];
    }
    FindCloser(s, |p| + min, e);
    assert s[0..e + 3] == CallText(kw, arg);
  }

  // ---------------------------------------------------------------------
  // Handlers that replace every call and resume after the inserted text

  /** What a handler puts in place of a call, from the call's text and its state. */
  type CallRender<!S> = (string, S) -> (string, S)

  /** The rewriter of such a handler: every matched call is replaced whole. */
  function CallRewriter<S>(kw: string, fold: bool, min: nat, render: CallRender<S>): Rewriter<S> {
    (s: string, i: nat, st: S) =>
      if MacroCallAt(s, i, kw, fold, min) then
        var out := render(MacroCallText(s, i, kw, fold, min), st);
        (Replace(MacroCallLength(s, i, kw, fold, min), out.0), out.1)
      else (Keep(1), st)
  }

  lemma {:induction false} CallRewriterLocal<S(!new)>(kw: string, fold: bool, min: nat, render: CallRender<S>)
    ensures ProperAfter(MacroCall(kw, fold, min), CallRewriter(kw, fold, min, render))
    ensures Local(MacroCall(kw, fold, min), CallRewriter(kw, fold, min, render))
  {
    var p, f := MacroCall(kw, fold, min), CallRewriter(kw, fold, min, render);
    CallRewriterFits(kw, fold, min, render);
    forall pre: string, s: string, j: nat ensures p(pre + s, At(pre, j)) == p(s, j) {
      MacroCallAtShift(pre, s, j, kw, fold, min);
    }
    forall pre: string, s: string, j: nat, st: S | p(s, j) ensures f(pre + s, At(pre, j), st) == f(s, j, st) {
      CallRewriterShift(pre, s, j, st, kw, fold, min, render);
    }
  }

  lemma {:induction false} CallRewriterShift<S>(pre: string, s: string, j: nat, st: S,
                                                kw: string, fold: bool, min: nat, render: CallRender<S>)
    requires MacroCallAt(s, j, kw, fold, min)
    ensures CallRewriter(kw, fold, min, render)(pre + s, |pre| + j, st) == CallRewriter(kw, fold, min, render)(s, j, st)
  {
    MacroCallLengthShift(pre, s, j, kw, fold, min);
    MacroCallTextShift(pre, s, j, kw, fold, min);
  }

  lemma {:induction false} CallRewriterFits<S(!new)>(kw: string, fold: bool, min: nat, render: CallRender<S>)
    ensures ProperAfter(MacroCall(kw, fold, min), CallRewriter(kw, fold, min, render))
  {
    var p, f := MacroCall(kw, fold, min), CallRewriter(kw, fold, min, render);
    forall s: string, i: nat, st: S | p(s, i) ensures FitsAfter(s, i, f(s, i, st).0) {
      var n := MacroCallLength(s, i, kw, fold, min);
      assert f(s, i, st).0.len == n;
    }
  }

  /** The pass of such a handler from `cursor` on: the final buffer and state. */
  function CallScan<S(!new)>(doc: string, cursor: nat, st: S, kw: string, fold: bool, min: nat, render: CallRender<S>): (string, S) {
    CallRewriterLocal(kw, fold, min, render);
    PassAfter(doc, cursor, st, MacroCall(kw, fold, min), CallRewriter(kw, fold, min, render))
  }

  /**
   * A call at the cursor is replaced by what the handler renders from
   * its text, and the scan goes on right after that: nothing inserted is
   * looked at again, and nothing after the call is skipped.
   */
  lemma {:induction false} CallScanAt<S(!new)>(pre: string, kw: string, arg: string, post: string, st: S,
                                               fold: bool, min: nat, render: CallRender<S>, r: string, st': S)
    requires ')' !in arg && min <= |arg|
    requires render(CallText(kw, arg), st) == (r, st')
    ensures var rest := CallScan(post, 0, st', kw, fold, min, render);
      CallScan(pre + CallText(kw, arg) + post, |pre|, st, kw, fold, min, render) == (pre + r + rest.0, rest.1)
  {
    var t := CallText(kw, arg);
    var p, f := MacroCall(kw, fold, min), CallRewriter(kw, fold, min, render);
    CallRewriterLocal(kw, fold, min, render);
    CallAtCursor(pre, kw, arg, post, st, fold, min, render);
    PassAfterReplaceAt(pre, t, post, |pre|, st, p, f, r, st');
  }

  /** At a call at the cursor the search stops there and the rewriter replaces the whole call. */
  lemma {:induction false} CallAtCursor<S(!new)>(pre: string, kw: string, arg: string, post: string, st: S,
                                                 fold: bool, min: nat, render: CallRender<S>)
    requires ')' !in arg && min <= |arg|
    ensures var t := CallText(kw, arg);
      var out := render(t, st);
      && FindFirst(pre + t + post, |pre|, MacroCall(kw, fold, min)) == Some(|pre|)
      && CallRewriter(kw, fold, min, render)(pre + t + post, |pre|, st) == (Replace(|t|, out.0), out.1)
  {
    var t := CallText(kw, arg);
    var u := t + post;
    assert pre + t + post == pre + u;
    MacroCallOf(kw, arg, post, fold, min);
    MacroCallLengthShift(pre, u, 0, kw, fold, min);
    MacroCallTextShift(pre, u, 0, kw, fold, min);
    assert MacroCallLength(pre + u, |pre|, kw, fold, min) == |t|;
    FindAtCursor(pre, u, MacroCall(kw, fold, min));
  }

  /** With no call from the cursor on the handler changes nothing. */
  lemma {:induction false} CallScanNone<S(!new)>(doc: string, cursor: nat, st: S, kw: string, fold: bool, min: nat, render: CallRender<S>)
    requires forall j :: cursor <= j < |doc| ==> !OpeningAt(doc, j, kw, fold)
    ensures CallScan(doc, cursor, st, kw, fold, min, render) == (doc, st)
  {
    FindFirstNone(doc, cursor, MacroCall(kw, fold, min));
  }

  /**
   * The pass of a handler that resumes where the CALL ended, so that the
   * inserted text is looked at again; bounded by `fuel` calls.
   */
  function CallScanFuel<S(!new)>(doc: string, cursor: nat, st: S, kw: string, fold: bool, min: nat,
                                 render: CallRender<S>, fuel: nat): (string, S) {
    CallRewriterFits(kw, fold, min, render);
    PassFuel(doc, cursor, st, MacroCall(kw, fold, min), CallRewriter(kw, fold, min, render), fuel)
  }

  /**
   * A call at the cursor is replaced by what the handler renders, and the
   * scan goes on `|call|` characters later, inside or after that text.
   */
  lemma {:induction false} CallScanFuelAt<S(!new)>(pre: string, kw: string, arg: string, post: string, st: S,
                                                   fold: bool, min: nat, render: CallRender<S>, r: string, st': S, fuel: nat)
    requires ')' !in arg && min <= |arg| && fuel > 0
    requires render(CallText(kw, arg), st) == (r, st')
    ensures var t := CallText(kw, arg);
      CallScanFuel(pre + t + post, |pre|, st, kw, fold, min, render, fuel)
      == CallScanFuel(pre + r + post, |pre| + |t|, st', kw, fold, min, render, fuel - 1)
  {
    CallAtCursor(pre, kw, arg, post, st, fold, min, render);
    CallScanFuelStep(pre, CallText(kw, arg), post, st, kw, fold, min, render, r, st', fuel);
  }

  lemma {:induction false} CallScanFuelStep<S(!new)>(pre: string, t: string, post: string, st: S, kw: string,
                                                     fold: bool, min: nat, render: CallRender<S>, r: string, st': S, fuel: nat)
    requires fuel > 0
    requires FindFirst(pre + t + post, |pre|, MacroCall(kw, fold, min)) == Some(|pre|)
    requires CallRewriter(kw, fold, min, render)(pre + t + post, |pre|, st) == (Replace(|t|, r), st')
    ensures CallScanFuel(pre + t + post, |pre|, st, kw, fold, min, render, fuel)
         == CallScanFuel(pre + r + post, |pre| + |t|, st', kw, fold, min, render, fuel - 1)
  {
    CallRewriterFits(kw, fold, min, render);
    PassFuelReplaceAt(pre, t, post, |pre|, st, MacroCall(kw, fold, min), CallRewriter(kw, fold, min, render), r, st', fuel);
  }

  lemma {:induction false} CallScanFuelNone<S(!new)>(doc: string, cursor: nat, st: S, kw: string, fold: bool, min: nat,
                                                     render: CallRender<S>, fuel: nat)
    requires forall j :: cursor <= j < |doc| ==> !OpeningAt(doc, j, kw, fold)
    ensures CallScanFuel(doc, cursor, st, kw, fold, min, render, fuel) == (doc, st)
  {
    CallRewriterFits(kw, fold, min, render);
    FindFirstNone(doc, cursor, MacroCall(kw, fold, min));
    PassFuelNone(doc, cursor, st, MacroCall(kw, fold, min), CallRewriter(kw, fold, min, render), fuel);
  }

  lemma {:induction false} OpeningsDiffer(kw: string, other: string)
    requires other != kw && |other| == |kw|
    ensures CallOpening(kw) != CallOpening(other)
  {
    assert CallOpening(kw)[2..2 + |kw|] == kw;
    assert CallOpening(other)[2..2 + |kw|] == other;
  }

  /**
   * The argument removal compares the opening exactly: a call whose
   * keyword is spelled `other` (say, in another case) keeps its whole
   * opening in front of the argument.
   */
  lemma {:induction false} ArgumentOfOtherSpelling(kw: string, other: string, arg: string)
    requires other != kw && |other| == |kw|
    requires '[' !in other && ')' !in other && '[' !in arg && ')' !in arg
    ensures CallArgument(CallText(other, arg), kw) == CallOpening(other) + arg
  {
    var p := CallOpening(kw);
    var q := CallOpening(other);
    var s := CallText(other, arg);
    assert s == (q + arg) + ")]]";
    assert s[0..|q|] == q;
    OpeningsDiffer(kw, other);
    forall k: nat ensures !OccursAt(s, p, k) {
      OccursAtSlice(s, p, k);
    }
    ReplaceAllAbsent(s, p, "");
    assert q + arg + ")]]" == s;
    RemoveTrailing(q + arg);
  }

  /**
   * The name an attachment call refers to: its argument with every double
   * quote removed.
   */
  function AttachmentName(call: string, kw: string): string {
    RemoveChar(CallArgument(call, kw), '"')
  }

  /** The link an attachment call becomes. */
  function AttachmentHtml(href: string, name: string): string {
    "<a href=\"" + href + "\" class=\"crosslink\">" + name + "</a>"
  }
}
