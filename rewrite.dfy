/**
 * The find-and-splice loop every pass of the parser runs: search for the
 * leftmost match of a pattern from a cursor, decide on an edit there,
 * splice it into the buffer and search again from a new cursor.
 *
 * Two resume disciplines occur in the source. The link passes, the
 * Anchor macro and the Picture macro continue at match start + length of
 * the ORIGINAL span (`Pass`; the Picture macro, whose replacement may
 * hold another call, runs the fuel-bounded `PassFuel`); the attachment,
 * Date, TableOfContents and Span handlers continue after the INSERTED
 * text (`PassAfter`).
 */
module Rewrite {
  import opened Text

  /** What a pass does at a match: leave `len` characters as they are, or put `text` in their place. */
  datatype Edit = Keep(len: nat) | Replace(len: nat, text: string)

  /**
   * The decision a pass takes at a match, from the buffer, the position
   * and the pass's own state (the wiki link pass carries a CSS class
   * addition from one link to the next); it also yields the next state.
   */
  type Rewriter<!S> = (string, nat, S) -> (Edit, S)

  function Splice(s: string, i: nat, e: Edit): string
    requires i + e.len <= |s|
  {
    if e.Keep? then s else s[..i] + e.text + s[i + e.len..]
  }

  /** The length of what is left after the cursor. */
  function Remaining(s: string, cursor: nat): nat {
    if cursor <= |s| then |s| - cursor else 0
  }

  lemma {:induction false} SplicePrefix(pre: string, s: string, i: nat, e: Edit)
    requires i + e.len <= |s|
    ensures Splice(pre + s, |pre| + i, e) == pre + Splice(s, i, e)
  {
    if e.Replace? {
      assert (pre + s)[..|pre| + i] == pre + s[..i];
      assert (pre + s)[|pre| + i + e.len..] == s[i + e.len..];
    }
  }

  /** A position `j` characters into `s`, in `pre + s`. */
  function At(pre: string, j: nat): nat { |pre| + j }

  // ---------------------------------------------------------------------
  // Resuming at match start + original length

  /**
   * An edit the original-length discipline can live with: it consumes at
   * least one character, and a replacement consumes a span ending in `]`
   * and contains no `]` itself, so the number of `]` at or after the
   * cursor drops.
   */
  predicate Fits(s: string, i: nat, e: Edit) {
    0 < e.len && i + e.len <= |s|
    && (e.Replace? ==> s[i + e.len - 1] == ']' && ']' !in e.text)
  }

  ghost predicate Proper<S(!new)>(p: Pattern, f: Rewriter<S>) {
    forall s: string, i: nat, st: S :: p(s, i) ==> Fits(s, i, f(s, i, st).0)
  }

  lemma {:induction false} EditProgress(doc: string, cursor: nat, i: nat, e: Edit)
    requires cursor <= i && Fits(doc, i, e)
    ensures var next := Splice(doc, i, e);
      Closers(next, i + e.len) < Closers(doc, cursor)
      || (Closers(next, i + e.len) <= Closers(doc, cursor)
          && Remaining(next, i + e.len) < Remaining(doc, cursor))
  {
    if e.Keep? {
      ClosersMono(doc, cursor, i + e.len);
    } else {
      SpliceUsesCloser(doc, cursor, i, i + e.len, e.text, i + e.len);
    }
  }

  /**
   * The pass from `cursor` on: the final buffer and state. It ends when
   * no match is left.
   */
  function Pass<S(!new)>(doc: string, cursor: nat, st: S, p: Pattern, f: Rewriter<S>): (string, S)
    requires Proper(p, f)
    decreases Closers(doc, cursor), Remaining(doc, cursor), 1
  {
    var next := FindFirst(doc, cursor, p);
    if next.Some? then
      FindFirstHit(doc, cursor, p);
      ClosersMono(doc, cursor, next.value);
      PassAt(doc, next.value, st, p, f)
    else (doc, st)
  }

  /** The pass once its next match has been found at `i`. */
  function PassAt<S(!new)>(doc: string, i: nat, st: S, p: Pattern, f: Rewriter<S>): (string, S)
    requires Proper(p, f) && p(doc, i)
    decreases Closers(doc, i), Remaining(doc, i), 0
  {
    var (e, st') := f(doc, i, st);
    EditProgress(doc, i, i, e);
    Pass(Splice(doc, i, e), i + e.len, st', p, f)
  }

  lemma {:induction false} PassStep<S(!new)>(doc: string, cursor: nat, st: S, p: Pattern, f: Rewriter<S>, i: nat)
    requires Proper(p, f) && FindFirst(doc, cursor, p) == Some(i)
    ensures p(doc, i) && Fits(doc, i, f(doc, i, st).0)
    ensures Pass(doc, cursor, st, p, f) == Pass(Splice(doc, i, f(doc, i, st).0), i + f(doc, i, st).0.len, f(doc, i, st).1, p, f)
  {
    FindFirstHit(doc, cursor, p);
  }

  /** A step that replaces `len` characters at `i` by `text`; the scan resumes behind the original length. */
  lemma {:induction false} PassReplaced<S(!new)>(doc: string, cursor: nat, st: S, p: Pattern, f: Rewriter<S>, i: nat, len: nat, text: string, st': S)
    requires Proper(p, f) && FindFirst(doc, cursor, p) == Some(i)
    requires f(doc, i, st) == (Replace(len, text), st')
    ensures i + len <= |doc|
    ensures Pass(doc, cursor, st, p, f) == Pass(doc[..i] + text + doc[i + len..], i + len, st', p, f)
  {
    PassStep(doc, cursor, st, p, f, i);
    assert Splice(doc, i, Replace(len, text)) == doc[..i] + text + doc[i + len..];
  }

  /** A step that keeps `k` characters at `i`: the scan resumes behind them. */
  lemma {:induction false} PassKept<S(!new)>(doc: string, cursor: nat, st: S, p: Pattern, f: Rewriter<S>, i: nat, k: nat, st': S)
    requires Proper(p, f) && FindFirst(doc, cursor, p) == Some(i)
    requires f(doc, i, st) == (Keep(k), st')
    ensures Pass(doc, cursor, st, p, f) == Pass(doc, i + k, st', p, f)
  {
    PassStep(doc, cursor, st, p, f, i);
  }

  lemma {:induction false} PassNone<S(!new)>(doc: string, cursor: nat, st: S, p: Pattern, f: Rewriter<S>)
    requires Proper(p, f) && FindFirst(doc, cursor, p) == None
    ensures Pass(doc, cursor, st, p, f) == (doc, st)
  {
  }

  /** The pass depends on its cursor only through the next match. */
  lemma {:induction false} PassSameNext<S(!new)>(doc: string, c1: nat, c2: nat, st: S, p: Pattern, f: Rewriter<S>)
    requires Proper(p, f) && FindFirst(doc, c1, p) == FindFirst(doc, c2, p)
    ensures Pass(doc, c1, st, p, f) == Pass(doc, c2, st, p, f)
  {
  }

  /**
   * Pattern and rewriter look only at the text from the position on, so
   * text in front of it changes nothing.
   */
  ghost predicate Local<S(!new)>(p: Pattern, f: Rewriter<S>) {
    (forall pre: string, s: string, j: nat :: p(pre + s, At(pre, j)) == p(s, j))
    && (forall pre: string, s: string, j: nat, st: S ::
          p(s, j) ==> f(pre + s, At(pre, j), st) == f(s, j, st))
  }

  lemma {:induction false} LocalPattern<S(!new)>(pre: string, s: string, p: Pattern, f: Rewriter<S>)
    requires Local(p, f)
    ensures forall j :: 0 <= j < |s| ==> p(pre + s, |pre| + j) == p(s, j)
  {
    forall j | 0 <= j < |s| ensures p(pre + s, |pre| + j) == p(s, j) {
      assert p(pre + s, At(pre, j)) == p(s, j);
    }
  }

  /** Text in front of the cursor does not move the next match, only shifts it. */
  lemma {:induction false} PrefixNext<S(!new)>(pre: string, s: string, c: nat, p: Pattern, f: Rewriter<S>)
    requires Local(p, f)
    ensures FindFirst(pre + s, |pre| + c, p) == Shift(FindFirst(s, c, p), |pre|)
  {
    LocalPattern(pre, s, p, f);
    FindFirstShift(pre, s, c, p);
  }

  /** The scan never looks behind its cursor: text in front is carried along unchanged. */
  lemma {:induction false} PassPrefix<S(!new)>(pre: string, s: string, c: nat, st: S, p: Pattern, f: Rewriter<S>)
    requires Proper(p, f) && Local(p, f)
    ensures var r := Pass(s, c, st, p, f);
      Pass(pre + s, |pre| + c, st, p, f) == (pre + r.0, r.1)
    decreases Closers(s, c), Remaining(s, c), 1
  {
    PrefixNext(pre, s, c, p, f);
    match FindFirst(s, c, p)
    case None =>
    case Some(i) =>
      FindFirstHit(s, c, p);
      ClosersMono(s, c, i);
      PassAtPrefix(pre, s, i, st, p, f);
  }

  /** `PassPrefix` once the next match has been found at `i`. */
  lemma {:induction false} PassAtPrefix<S(!new)>(pre: string, s: string, i: nat, st: S, p: Pattern, f: Rewriter<S>)
    requires Proper(p, f) && Local(p, f) && p(s, i)
    ensures p(pre + s, At(pre, i))
    ensures var r := PassAt(s, i, st, p, f);
      PassAt(pre + s, At(pre, i), st, p, f) == (pre + r.0, r.1)
    decreases Closers(s, i), Remaining(s, i), 0
  {
    PrefixEdit(pre, s, i, st, p, f);
    var e, st1 := f(s, i, st).0, f(s, i, st).1;
    PassAtUnfold(s, i, st, p, f);
    var s' := Splice(s, i, e);
    assert PassAt(s, i, st, p, f) == Pass(s', i + e.len, st1, p, f);
    assert PassAt(pre + s, At(pre, i), st, p, f) == Pass(pre + s', |pre| + (i + e.len), st1, p, f) by {
      SplicePrefix(pre, s, i, e);
      PassAtUnfold(pre + s, At(pre, i), st, p, f);
    }
    EditProgress(s, i, i, e);
    PassPrefix(pre, s', i + e.len, st1, p, f);
  }

  /** At a match, text in front does not change the pattern or the rewriter's decision. */
  lemma {:induction false} PrefixEdit<S(!new)>(pre: string, s: string, i: nat, st: S, p: Pattern, f: Rewriter<S>)
    requires Local(p, f) && p(s, i)
    ensures p(pre + s, At(pre, i)) && f(pre + s, At(pre, i), st) == f(s, i, st)
  {
  }

  lemma {:induction false} PassAtUnfold<S(!new)>(doc: string, i: nat, st: S, p: Pattern, f: Rewriter<S>)
    requires Proper(p, f) && p(doc, i)
    ensures Fits(doc, i, f(doc, i, st).0)
    ensures PassAt(doc, i, st, p, f)
         == Pass(Splice(doc, i, f(doc, i, st).0), i + f(doc, i, st).0.len, f(doc, i, st).1, p, f)
  {
  }

  /**
   * A match at the end of `pre` that is replaced by `r`, with neither the
   * pattern able to start inside `r` nor `r` holding a `[`: the result is
   * `pre`, then `r`, then the pass over the text after the span, entered
   * `Overhang(|t|, |r|)` characters in.
   */
  lemma {:induction false} PassReplaceAt<S(!new)>(pre: string, t: string, post: string, c: nat, st: S, p: Pattern, f: Rewriter<S>, r: string, st': S)
    requires Proper(p, f) && Local(p, f) && OpensWithBracket(p)
    requires FindFirst(pre + t + post, c, p) == Some(|pre|)
    requires f(pre + t + post, |pre|, st) == (Replace(|t|, r), st')
    requires '[' !in r
    ensures var rest := Pass(post, Overhang(|t|, |r|), st', p, f);
      Pass(pre + t + post, c, st, p, f) == (pre + r + rest.0, rest.1)
  {
    PassReplaceSplice(pre, t, post, c, st, p, f, r, st');
    PassResume(pre, r, post, |t|, st', p, f);
  }

  lemma {:induction false} PassReplaceSplice<S(!new)>(pre: string, t: string, post: string, c: nat, st: S, p: Pattern, f: Rewriter<S>, r: string, st': S)
    requires Proper(p, f)
    requires FindFirst(pre + t + post, c, p) == Some(|pre|)
    requires f(pre + t + post, |pre|, st) == (Replace(|t|, r), st')
    ensures Pass(pre + t + post, c, st, p, f) == Pass(pre + r + post, |pre| + |t|, st', p, f)
  {
    var d := pre + t + post;
    assert d[..|pre|] + r + d[|pre| + |t|..] == pre + r + post by {
      assert d[..|pre|] == pre;
      assert d[|pre| + |t|..] == post;
    }
    PassReplaced(d, c, st, p, f, |pre|, |t|, r, st');
  }

  /** Resuming inside a `[`-free replacement finds the same match as resuming after it. */
  lemma {:induction false} ResumeNext<S(!new)>(pre: string, r: string, post: string, n: nat, p: Pattern, f: Rewriter<S>)
    requires Local(p, f) && OpensWithBracket(p) && '[' !in r
    ensures FindFirst(pre + r + post, |pre| + n, p)
         == FindFirst(pre + r + post, |pre + r| + Overhang(n, |r|), p)
  {
    LocalPattern(pre + r, post, p, f);
    ResumeAfterReplacement(pre, r, post, n, p);
    FindFirstShift(pre + r, post, Overhang(n, |r|), p);
  }

  lemma {:induction false} PassResume<S(!new)>(pre: string, r: string, post: string, n: nat, st: S, p: Pattern, f: Rewriter<S>)
    requires Proper(p, f) && Local(p, f) && OpensWithBracket(p)
    requires '[' !in r
    ensures var rest := Pass(post, Overhang(n, |r|), st, p, f);
      Pass(pre + r + post, |pre| + n, st, p, f) == (pre + r + rest.0, rest.1)
  {
    var a := pre + r;
    var ov := Overhang(n, |r|);
    ResumeNext(pre, r, post, n, p, f);
    PassSameNext(a + post, |pre| + n, |a| + ov, st, p, f);
    PassPrefix(a, post, ov, st, p, f);
  }

  /** A match at the end of `pre` that is kept as it is: the pass goes on `k` characters further. */
  lemma {:induction false} PassKeepAt<S(!new)>(pre: string, s: string, c: nat, st: S, p: Pattern, f: Rewriter<S>, k: nat, st': S)
    requires Proper(p, f) && Local(p, f)
    requires FindFirst(pre + s, c, p) == Some(|pre|)
    requires f(pre + s, |pre|, st) == (Keep(k), st')
    ensures var rest := Pass(s, k, st', p, f);
      Pass(pre + s, c, st, p, f) == (pre + rest.0, rest.1)
  {
    PassKept(pre + s, c, st, p, f, |pre|, k, st');
    PassPrefix(pre, s, k, st', p, f);
  }

  /** A match at the end of `pre` that keeps the whole of `t`: the pass goes on after `t`. */
  lemma {:induction false} PassKeepSpan<S(!new)>(pre: string, t: string, post: string, c: nat, st: S, p: Pattern, f: Rewriter<S>, st': S)
    requires Proper(p, f) && Local(p, f)
    requires FindFirst(pre + t + post, c, p) == Some(|pre|)
    requires f(pre + t + post, |pre|, st) == (Keep(|t|), st')
    ensures var rest := Pass(post, 0, st', p, f);
      Pass(pre + t + post, c, st, p, f) == (pre + t + rest.0, rest.1)
  {
    Regroup3(pre, t, post);
    PassKeepAt(pre, t + post, c, st, p, f, |t|, st');
    PassPrefix(t, post, 0, st', p, f);
    Regroup3(pre, t, Pass(post, 0, st', p, f).0);
  }

  /**
   * A rewriter that keeps one character and its state at every match
   * from the cursor on: the pass leaves buffer and state as they are.
   */
  lemma {:induction false} PassKeepsAll<S(!new)>(doc: string, cursor: nat, st: S, p: Pattern, f: Rewriter<S>)
    requires Proper(p, f)
    requires forall j :: cursor <= j && p(doc, j) ==> f(doc, j, st) == (Keep(1), st)
    ensures Pass(doc, cursor, st, p, f) == (doc, st)
    decreases Remaining(doc, cursor)
  {
    match FindFirst(doc, cursor, p)
    case None =>
    case Some(i) =>
      PassStep(doc, cursor, st, p, f, i);
      PassKeepsAll(doc, i + 1, st, p, f);
  }

  /** A scan finds its first match at the cursor when the pattern matches there. */
  lemma {:induction false} FindAtCursor(pre: string, s: string, p: Pattern)
    requires |s| > 0 && p(pre + s, |pre|)
    ensures FindFirst(pre + s, |pre|, p) == Some(|pre|)
  {
    FindFirstIs(pre + s, |pre|, p, |pre|);
  }

  /** A property of the state that every rewrite at a match keeps holds of the final state. */
  lemma {:induction false} PassKeeps<S(!new)>(doc: string, cursor: nat, st: S, p: Pattern, f: Rewriter<S>, inv: S -> bool)
    requires Proper(p, f) && inv(st)
    requires forall s: string, i: nat, x: S :: p(s, i) && inv(x) ==> inv(f(s, i, x).1)
    ensures inv(Pass(doc, cursor, st, p, f).1)
    decreases Closers(doc, cursor), Remaining(doc, cursor)
  {
    match FindFirst(doc, cursor, p)
    case None =>
    case Some(i) =>
      PassStep(doc, cursor, st, p, f, i);
      FindFirstHit(doc, cursor, p);
      var (e, st') := f(doc, i, st);
      EditProgress(doc, cursor, i, e);
      PassKeeps(Splice(doc, i, e), i + e.len, st', p, f, inv);
  }

  /**
   * The loop of a pass that resumes at the original length, over a
   * buffer and a state.
   */
  method RunPass<S(!new)>(doc: string, st0: S, p: Pattern, f: Rewriter<S>) returns (out: string, st: S)
    requires Proper(p, f)
    ensures (out, st) == Pass(doc, 0, st0, p, f)
  {
    var s := doc;
    var cursor: nat := 0;
    st := st0;
    var next := FindFirst(s, cursor, p);
    while next.Some?
      invariant next == FindFirst(s, cursor, p)
      invariant Pass(s, cursor, st, p, f) == Pass(doc, 0, st0, p, f)
      decreases Closers(s, cursor), Remaining(s, cursor)
    {
      var i := next.value;
      PassStep(s, cursor, st, p, f, i);
      var (e, st') := f(s, i, st);
      EditProgress(s, cursor, i, e);
      s := Splice(s, i, e);
      cursor := i + e.len;
      st := st';
      next := FindFirst(s, cursor, p);
    }
    PassNone(s, cursor, st, p, f);
    out := s;
  }

  // ---------------------------------------------------------------------
  // Resuming after the inserted text

  predicate FitsAfter(s: string, i: nat, e: Edit) {
    0 < e.len && i + e.len <= |s|
  }

  ghost predicate ProperAfter<S(!new)>(p: Pattern, f: Rewriter<S>) {
    forall s: string, i: nat, st: S :: p(s, i) ==> FitsAfter(s, i, f(s, i, st).0)
  }

  /** Where the scan goes on: after the kept span, or after the inserted text. */
  function Resume(i: nat, e: Edit): nat {
    i + (if e.Keep? then e.len else |e.text|)
  }

  function PassAfter<S(!new)>(doc: string, cursor: nat, st: S, p: Pattern, f: Rewriter<S>): (string, S)
    requires ProperAfter(p, f)
    decreases Remaining(doc, cursor), 1
  {
    var next := FindFirst(doc, cursor, p);
    if next.Some? then
      FindFirstHit(doc, cursor, p);
      PassAfterAt(doc, next.value, st, p, f)
    else (doc, st)
  }

  function PassAfterAt<S(!new)>(doc: string, i: nat, st: S, p: Pattern, f: Rewriter<S>): (string, S)
    requires ProperAfter(p, f) && p(doc, i)
    decreases Remaining(doc, i), 0
  {
    var (e, st') := f(doc, i, st);
    PassAfter(Splice(doc, i, e), Resume(i, e), st', p, f)
  }

  lemma {:induction false} PassAfterStep<S(!new)>(doc: string, cursor: nat, st: S, p: Pattern, f: Rewriter<S>, i: nat)
    requires ProperAfter(p, f) && FindFirst(doc, cursor, p) == Some(i)
    ensures p(doc, i) && FitsAfter(doc, i, f(doc, i, st).0)
    ensures PassAfter(doc, cursor, st, p, f) == PassAfter(Splice(doc, i, f(doc, i, st).0), Resume(i, f(doc, i, st).0), f(doc, i, st).1, p, f)
  {
    FindFirstHit(doc, cursor, p);
  }

  /** A step that replaces `len` characters at `i` by `text`, spelled out for a caller's loop. */
  lemma {:induction false} PassAfterReplaced<S(!new)>(doc: string, cursor: nat, st: S, p: Pattern, f: Rewriter<S>, i: nat, len: nat, text: string, st': S)
    requires ProperAfter(p, f) && FindFirst(doc, cursor, p) == Some(i)
    requires f(doc, i, st) == (Replace(len, text), st')
    ensures i + len <= |doc|
    ensures PassAfter(doc, cursor, st, p, f) == PassAfter(doc[..i] + text + doc[i + len..], i + |text|, st', p, f)
  {
    PassAfterStep(doc, cursor, st, p, f, i);
    assert Splice(doc, i, Replace(len, text)) == doc[..i] + text + doc[i + len..];
    assert Resume(i, Replace(len, text)) == i + |text|;
  }

  lemma {:induction false} PassAfterSameNext<S(!new)>(doc: string, c1: nat, c2: nat, st: S, p: Pattern, f: Rewriter<S>)
    requires ProperAfter(p, f) && FindFirst(doc, c1, p) == FindFirst(doc, c2, p)
    ensures PassAfter(doc, c1, st, p, f) == PassAfter(doc, c2, st, p, f)
  {
  }

  lemma {:induction false} PassAfterPrefix<S(!new)>(pre: string, s: string, c: nat, st: S, p: Pattern, f: Rewriter<S>)
    requires ProperAfter(p, f) && Local(p, f)
    ensures var r := PassAfter(s, c, st, p, f);
      PassAfter(pre + s, |pre| + c, st, p, f) == (pre + r.0, r.1)
    decreases Remaining(s, c)
  {
    LocalPattern(pre, s, p, f);
    FindFirstShift(pre, s, c, p);
    match FindFirst(s, c, p)
    case None =>
    case Some(i) =>
      PassAfterStep(s, c, st, p, f, i);
      PassAfterStep(pre + s, |pre| + c, st, p, f, |pre| + i);
      assert f(pre + s, At(pre, i), st) == f(s, i, st);
      var (e, st') := f(s, i, st);
      SplicePrefix(pre, s, i, e);
      PassAfterPrefix(pre, Splice(s, i, e), Resume(i, e), st', p, f);
  }

  /**
   * A match at the end of `pre` replaced by `r`: the result is `pre`,
   * then `r`, then the pass over the text after the span from its start.
   * Nothing of `r` is scanned again and nothing after it is skipped.
   */
  lemma {:induction false} PassAfterReplaceAt<S(!new)>(pre: string, t: string, post: string, c: nat, st: S, p: Pattern, f: Rewriter<S>, r: string, st': S)
    requires ProperAfter(p, f) && Local(p, f)
    requires FindFirst(pre + t + post, c, p) == Some(|pre|)
    requires f(pre + t + post, |pre|, st) == (Replace(|t|, r), st')
    ensures var rest := PassAfter(post, 0, st', p, f);
      PassAfter(pre + t + post, c, st, p, f) == (pre + r + rest.0, rest.1)
  {
    var d := pre + t + post;
    PassAfterStep(d, c, st, p, f, |pre|);
    assert d[..|pre|] == pre;
    assert d[|pre| + |t|..] == post;
    assert Splice(d, |pre|, Replace(|t|, r)) == (pre + r) + post;
    PassAfterPrefix(pre + r, post, 0, st', p, f);
  }

  /** A property of the state that every rewrite at a match keeps holds of the final state. */
  lemma {:induction false} PassAfterKeeps<S(!new)>(doc: string, cursor: nat, st: S, p: Pattern, f: Rewriter<S>, inv: S -> bool)
    requires ProperAfter(p, f) && inv(st)
    requires forall s: string, i: nat, x: S :: p(s, i) && inv(x) ==> inv(f(s, i, x).1)
    ensures inv(PassAfter(doc, cursor, st, p, f).1)
    decreases Remaining(doc, cursor)
  {
    match FindFirst(doc, cursor, p)
    case None =>
    case Some(i) =>
      PassAfterStep(doc, cursor, st, p, f, i);
      FindFirstHit(doc, cursor, p);
      var (e, st') := f(doc, i, st);
      PassAfterKeeps(Splice(doc, i, e), Resume(i, e), st', p, f, inv);
  }

  /** The loop of a pass that resumes after the inserted text. */
  method RunPassAfter<S(!new)>(doc: string, st0: S, p: Pattern, f: Rewriter<S>) returns (out: string, st: S)
    requires ProperAfter(p, f)
    ensures (out, st) == PassAfter(doc, 0, st0, p, f)
  {
    var s := doc;
    var cursor: nat := 0;
    st := st0;
    var next := FindFirst(s, cursor, p);
    while next.Some?
      invariant next == FindFirst(s, cursor, p)
      invariant PassAfter(s, cursor, st, p, f) == PassAfter(doc, 0, st0, p, f)
      decreases Remaining(s, cursor)
    {
      var i := next.value;
      PassAfterStep(s, cursor, st, p, f, i);
      var (e, st') := f(s, i, st);
      s := Splice(s, i, e);
      cursor := Resume(i, e);
      st := st';
      next := FindFirst(s, cursor, p);
    }
    out := s;
  }

  // ---------------------------------------------------------------------
  // Resuming at match start + original length, with a fuel bound

  /**
   * The original-length discipline for a rewriter whose replacement may
   * repeat text of the span (so it may hold `]` or a new match): no count
   * of the text is known to drop, and the pass is bounded by `fuel`
   * matches. With the fuel used up the text is left as it is.
   */
  function PassFuel<S(!new)>(doc: string, cursor: nat, st: S, p: Pattern, f: Rewriter<S>, fuel: nat): (string, S)
    requires ProperAfter(p, f)
    decreases fuel
  {
    if fuel == 0 then (doc, st)
    else
      var next := FindFirst(doc, cursor, p);
      if next.Some? then
        FindFirstHit(doc, cursor, p);
        var (e, st') := f(doc, next.value, st);
        PassFuel(Splice(doc, next.value, e), next.value + e.len, st', p, f, fuel - 1)
      else (doc, st)
  }

  lemma {:induction false} PassFuelNone<S(!new)>(doc: string, cursor: nat, st: S, p: Pattern, f: Rewriter<S>, fuel: nat)
    requires ProperAfter(p, f) && FindFirst(doc, cursor, p) == None
    ensures PassFuel(doc, cursor, st, p, f, fuel) == (doc, st)
  {
  }

  /**
   * A match at the end of `pre` replaced by `r`: the pass goes on over
   * `pre + r + post` at the position where the ORIGINAL span ended, with
   * one unit of fuel less.
   */
  lemma {:induction false} PassFuelReplaceAt<S(!new)>(pre: string, t: string, post: string, c: nat, st: S, p: Pattern, f: Rewriter<S>,
                                                     r: string, st': S, fuel: nat)
    requires ProperAfter(p, f) && fuel > 0
    requires FindFirst(pre + t + post, c, p) == Some(|pre|)
    requires f(pre + t + post, |pre|, st) == (Replace(|t|, r), st')
    ensures PassFuel(pre + t + post, c, st, p, f, fuel) == PassFuel(pre + r + post, |pre| + |t|, st', p, f, fuel - 1)
  {
    var d := pre + t + post;
    FindFirstHit(d, c, p);
    assert d[..|pre|] == pre;
    assert d[|pre| + |t|..] == post;
    assert Splice(d, |pre|, Replace(|t|, r)) == pre + r + post;
  }

  /** The loop of a fuel-bounded pass: one unit of fuel per match. */
  method RunPassFuel<S(!new)>(doc: string, st0: S, p: Pattern, f: Rewriter<S>, fuel: nat) returns (out: string, st: S)
    requires ProperAfter(p, f)
    ensures (out, st) == PassFuel(doc, 0, st0, p, f, fuel)
  {
    var s := doc;
    var cursor: nat := 0;
    var left := fuel;
    var done := false;
    st := st0;
    while left > 0 && !done
      invariant PassFuel(s, cursor, st, p, f, left) == PassFuel(doc, 0, st0, p, f, fuel)
      invariant done ==> FindFirst(s, cursor, p) == None
      decreases left, !done
    {
      var next := FindFirst(s, cursor, p);
      if next.None? {
        done := true;
      } else {
        var i := next.value;
        FindFirstHit(s, cursor, p);
        var (e, st') := f(s, i, st);
        s := Splice(s, i, e);
        cursor := i + e.len;
        st := st';
        left := left - 1;
      }
    }
    out := s;
  }
}
