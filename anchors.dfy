/**
 * Anchor definitions `[[<keyword>(Name)]]`: the call grammar, the id
 * derived from the name (trimmed, spaces to hyphens, German umlauts
 * transliterated) and the scan that rewrites every call. The link resolver
 * runs it with its configured anchor keyword, the macro engine with each
 * keyword of its `Anchor` macro; the table of contents derives its link
 * targets with the same transliteration.
 */
module Anchors {
  import opened Text
  import opened Rewrite
  import opened Calls

  /** The six replacements after the space-to-hyphen step, in source order. */
  const UpperAe: char := '\U{C4}'
  const UpperUe: char := '\U{DC}'
  const UpperOe: char := '\U{D6}'
  const LowerAe: char := '\U{E4}'
  const LowerUe: char := '\U{FC}'
  const LowerOe: char := '\U{F6}'

  /** The seven `QString::replace` calls, applied one after another. */
  function Transliterate(s: string): string {
    var s1 := ReplaceAll(s, " ", "-");
    var s2 := ReplaceAll(s1, [UpperAe], "Ae");
    var s3 := ReplaceAll(s2, [UpperUe], "Ue");
    var s4 := ReplaceAll(s3, [UpperOe], "Oe");
    var s5 := ReplaceAll(s4, [LowerAe], "ae");
    var s6 := ReplaceAll(s5, [LowerUe], "ue");
    ReplaceAll(s6, [LowerOe], "oe")
  }

  /** What one character of a name becomes in an anchor id. */
  function TransliterateChar(c: char): string {
    if c == ' ' then "-"
    else if c == UpperAe then "Ae"
    else if c == UpperUe then "Ue"
    else if c == UpperOe then "Oe"
    else if c == LowerAe then "ae"
    else if c == LowerUe then "ue"
    else if c == LowerOe then "oe"
    else [c]
  }

  /** The reference definition: every character replaced independently. */
  function TransliterateEach(s: string): string
    decreases |s|
  {
    if s == [] then [] else TransliterateChar(s[0]) + TransliterateEach(s[1..])
  }

  function Chain(s: string): string {
    var s1 := MapChar(s, ' ', "-");
    var s2 := MapChar(s1, UpperAe, "Ae");
    var s3 := MapChar(s2, UpperUe, "Ue");
    var s4 := MapChar(s3, UpperOe, "Oe");
    var s5 := MapChar(s4, LowerAe, "ae");
    var s6 := MapChar(s5, LowerUe, "ue");
    MapChar(s6, LowerOe, "oe")
  }

  lemma {:induction false} ChainAppend(a: string, b: string)
    ensures Chain(a + b) == Chain(a) + Chain(b)
  {
    var a1, b1 := MapChar(a, ' ', "-"), MapChar(b, ' ', "-");
    MapCharAppend(a, b, ' ', "-");
    var a2, b2 := MapChar(a1, UpperAe, "Ae"), MapChar(b1, UpperAe, "Ae");
    MapCharAppend(a1, b1, UpperAe, "Ae");
    var a3, b3 := MapChar(a2, UpperUe, "Ue"), MapChar(b2, UpperUe, "Ue");
    MapCharAppend(a2, b2, UpperUe, "Ue");
    var a4, b4 := MapChar(a3, UpperOe, "Oe"), MapChar(b3, UpperOe, "Oe");
    MapCharAppend(a3, b3, UpperOe, "Oe");
    var a5, b5 := MapChar(a4, LowerAe, "ae"), MapChar(b4, LowerAe, "ae");
    MapCharAppend(a4, b4, LowerAe, "ae");
    var a6, b6 := MapChar(a5, LowerUe, "ue"), MapChar(b5, LowerUe, "ue");
    MapCharAppend(a5, b5, LowerUe, "ue");
    MapCharAppend(a6, b6, LowerOe, "oe");
  }

  lemma {:induction false} MapCharOther(s: string, c: char, rep: string)
    requires c !in s
    ensures MapChar(s, c, rep) == s
  {
    if s != [] {
      MapCharOther(s[1..], c, rep);
      assert [s[0]] + s[1..] == s;
    }
  }

  lemma {:induction false} MapCharOne(x: char, c: char, rep: string)
    ensures MapChar([x], c, rep) == if x == c then rep else [x]
  {
    assert [x][1..] == [];
  }

  lemma {:induction false} ChainSpace()
    ensures Chain([' ']) == "-"
  {
    MapCharOne(' ', ' ', "-");
    MapCharOther("-", UpperAe, "Ae");
    MapCharOther("-", UpperUe, "Ue");
    MapCharOther("-", UpperOe, "Oe");
    MapCharOther("-", LowerAe, "ae");
    MapCharOther("-", LowerUe, "ue");
    MapCharOther("-", LowerOe, "oe");
  }

  lemma {:induction false} ChainUpperAe()
    ensures Chain([UpperAe]) == "Ae"
  {
    MapCharOne(UpperAe, ' ', "-");
    MapCharOne(UpperAe, UpperAe, "Ae");
    MapCharOther("Ae", UpperUe, "Ue");
    MapCharOther("Ae", UpperOe, "Oe");
    MapCharOther("Ae", LowerAe, "ae");
    MapCharOther("Ae", LowerUe, "ue");
    MapCharOther("Ae", LowerOe, "oe");
  }

  lemma {:induction false} ChainUpperUe()
    ensures Chain([UpperUe]) == "Ue"
  {
    MapCharOne(UpperUe, ' ', "-");
    MapCharOne(UpperUe, UpperAe, "Ae");
    MapCharOne(UpperUe, UpperUe, "Ue");
    MapCharOther("Ue", UpperOe, "Oe");
    MapCharOther("Ue", LowerAe, "ae");
    MapCharOther("Ue", LowerUe, "ue");
    MapCharOther("Ue", LowerOe, "oe");
  }

  lemma {:induction false} ChainUpperOe()
    ensures Chain([UpperOe]) == "Oe"
  {
    MapCharOne(UpperOe, ' ', "-");
    MapCharOne(UpperOe, UpperAe, "Ae");
    MapCharOne(UpperOe, UpperUe, "Ue");
    MapCharOne(UpperOe, UpperOe, "Oe");
    MapCharOther("Oe", LowerAe, "ae");
    MapCharOther("Oe", LowerUe, "ue");
    MapCharOther("Oe", LowerOe, "oe");
  }

  lemma {:induction false} ChainLowerAe()
    ensures Chain([LowerAe]) == "ae"
  {
    MapCharOne(LowerAe, ' ', "-");
    MapCharOne(LowerAe, UpperAe, "Ae");
    MapCharOne(LowerAe, UpperUe, "Ue");
    MapCharOne(LowerAe, UpperOe, "Oe");
    MapCharOne(LowerAe, LowerAe, "ae");
    MapCharOther("ae", LowerUe, "ue");
    MapCharOther("ae", LowerOe, "oe");
  }

  lemma {:induction false} ChainLowerUe()
    ensures Chain([LowerUe]) == "ue"
  {
    MapCharOne(LowerUe, ' ', "-");
    MapCharOne(LowerUe, UpperAe, "Ae");
    MapCharOne(LowerUe, UpperUe, "Ue");
    MapCharOne(LowerUe, UpperOe, "Oe");
    MapCharOne(LowerUe, LowerAe, "ae");
    MapCharOne(LowerUe, LowerUe, "ue");
    MapCharOther("ue", LowerOe, "oe");
  }

  lemma {:induction false} ChainLowerOe()
    ensures Chain([LowerOe]) == "oe"
  {
    MapCharOne(LowerOe, ' ', "-");
    MapCharOne(LowerOe, UpperAe, "Ae");
    MapCharOne(LowerOe, UpperUe, "Ue");
    MapCharOne(LowerOe, UpperOe, "Oe");
    MapCharOne(LowerOe, LowerAe, "ae");
    MapCharOne(LowerOe, LowerUe, "ue");
    MapCharOne(LowerOe, LowerOe, "oe");
  }

  /** A character that is neither a space nor an umlaut passes every stage unchanged. */
  lemma {:induction false} ChainOther(x: char)
    requires TransliterateChar(x) == [x]
    ensures Chain([x]) == [x]
  {
    MapCharOne(x, ' ', "-");
    MapCharOne(x, UpperAe, "Ae");
    MapCharOne(x, UpperUe, "Ue");
    MapCharOne(x, UpperOe, "Oe");
    MapCharOne(x, LowerAe, "ae");
    MapCharOne(x, LowerUe, "ue");
    MapCharOne(x, LowerOe, "oe");
  }

  lemma {:induction false} ChainChar(x: char)
    ensures Chain([x]) == TransliterateChar(x)
  {
    if x == ' ' {
      ChainSpace();
    } else if x == UpperAe {
      ChainUpperAe();
    } else if x == UpperUe {
      ChainUpperUe();
    } else if x == UpperOe {
      ChainUpperOe();
    } else if x == LowerAe {
      ChainLowerAe();
    } else if x == LowerUe {
      ChainLowerUe();
    } else if x == LowerOe {
      ChainLowerOe();
    } else {
      ChainOther(x);
    }
  }

  /**
   * The seven sequential replacements never feed each other (no
   * replacement text contains a later search character), so they amount
   * to replacing every character independently.
   */
  lemma {:induction false} TransliterateIsCharwise(s: string)
    ensures Transliterate(s) == TransliterateEach(s)
    decreases |s|
  {
    ReplaceCharIsMap(s, ' ', "-");
    var s1 := MapChar(s, ' ', "-");
    ReplaceCharIsMap(s1, UpperAe, "Ae");
    var s2 := MapChar(s1, UpperAe, "Ae");
    ReplaceCharIsMap(s2, UpperUe, "Ue");
    var s3 := MapChar(s2, UpperUe, "Ue");
    ReplaceCharIsMap(s3, UpperOe, "Oe");
    var s4 := MapChar(s3, UpperOe, "Oe");
    ReplaceCharIsMap(s4, LowerAe, "ae");
    var s5 := MapChar(s4, LowerAe, "ae");
    ReplaceCharIsMap(s5, LowerUe, "ue");
    var s6 := MapChar(s5, LowerUe, "ue");
    ReplaceCharIsMap(s6, LowerOe, "oe");
    assert Transliterate(s) == Chain(s);
    ChainEach(s);
  }

  lemma {:induction false} ChainEach(s: string)
    ensures Chain(s) == TransliterateEach(s)
    decreases |s|
  {
    if s == [] {
      assert MapChar([], ' ', "-") == [];
    } else {
      assert s == [s[0]] + s[1..];
      ChainAppend([s[0]], s[1..]);
      ChainChar(s[0]);
      ChainEach(s[1..]);
    }
  }

  /** Text without spaces or umlauts is its own anchor id. */
  lemma {:induction false} TransliteratePlain(s: string)
    requires forall k :: 0 <= k < |s| ==> TransliterateChar(s[k]) == [s[k]]
    ensures Transliterate(s) == s
    decreases |s|
  {
    TransliterateIsCharwise(s);
    EachPlain(s);
  }

  lemma {:induction false} EachPlain(s: string)
    requires forall k :: 0 <= k < |s| ==> TransliterateChar(s[k]) == [s[k]]
    ensures TransliterateEach(s) == s
    decreases |s|
  {
    if s != [] {
      EachPlain(s[1..]);
      assert [s[0]] + s[1..] == s;
    }
  }

  lemma {:induction false} EachKeepsOut(s: string, c: char)
    requires c !in s
    requires c != '-' && c != 'A' && c != 'U' && c != 'O' && c != 'a' && c != 'u' && c != 'o' && c != 'e'
    ensures c !in TransliterateEach(s)
    decreases |s|
  {
    if s != [] { EachKeepsOut(s[1..], c); }
  }

  /** `[A-Za-z_\s-0-9]`: the characters an anchor name may consist of. */
  predicate IsNameChar(c: char) {
    IsLetter(c) || IsDigit(c) || c == '_' || c == '-' || IsSpace(c)
  }

  predicate AllNameChars(s: string) {
    forall k :: 0 <= k < |s| ==> IsNameChar(s[k])
  }

  /** The length of the run of name characters starting at `k`. */
  function NameRun(s: string, k: nat): (n: nat)
    ensures k + n <= |s| || n == 0
    decreases |s| - k
  {
    if k < |s| && IsNameChar(s[k]) then 1 + NameRun(s, k + 1) else 0
  }

  /** The run holds name characters only, and stops before the first other one. */
  lemma {:induction false} NameRunChars(s: string, k: nat)
    ensures forall j :: k <= j < k + NameRun(s, k) ==> IsNameChar(s[j])
    ensures k + NameRun(s, k) < |s| ==> !IsNameChar(s[k + NameRun(s, k)])
    decreases |s| - k
  {
    if k < |s| && IsNameChar(s[k]) {
      NameRunChars(s, k + 1);
    }
  }

  lemma {:induction false} NameRunShift(pre: string, s: string, k: nat)
    ensures NameRun(pre + s, |pre| + k) == NameRun(s, k)
    decreases |s| - k
  {
    if k < |s| {
      assert (pre + s)[|pre| + k] == s[k];
      NameRunShift(pre, s, k + 1);
    }
  }

  /**
   * The anchor regex `\[{2}\b(kw)\([A-Za-z_\s-0-9]+\)\]{2}` matches at `i`:
   * `\b` needs a word character at the start of the keyword, and the name
   * is the longest run of name characters, which must be followed by `)]]`.
   */
  predicate AnchorCallAt(s: string, i: nat, kw: string) {
    var p := CallOpening(kw);
    |kw| > 0 && IsWordChar(kw[0]) && OccursAt(s, p, i)
    && NameRun(s, i + |p|) > 0 && OccursAt(s, ")]]", i + |p| + NameRun(s, i + |p|))
  }

  function AnchorCall(kw: string): Pattern {
    (s: string, j: nat) => AnchorCallAt(s, j, kw)
  }

  /** The length of the call matched at `i`. */
  function CallLength(s: string, i: nat, kw: string): (n: nat)
    requires AnchorCallAt(s, i, kw)
    ensures 0 < n && i + n <= |s| && s[i + n - 1] == ']'
  {
    var p := CallOpening(kw);
    assert s[i + |p| + NameRun(s, i + |p|)..][2] == ']';
    |p| + NameRun(s, i + |p|) + 3
  }

  /** Whether a call matches at a position does not depend on the text before it. */
  lemma {:induction false} AnchorCallShift(pre: string, s: string, j: nat, kw: string)
    ensures AnchorCallAt(pre + s, |pre| + j, kw) == AnchorCallAt(s, j, kw)
    ensures AnchorCallAt(s, j, kw) ==> CallLength(pre + s, |pre| + j, kw) == CallLength(s, j, kw)
  {
    var p := CallOpening(kw);
    OccursAtShift(pre, s, p, j);
    NameRunShift(pre, s, j + |p|);
    OccursAtShift(pre, s, ")]]", j + |p| + NameRun(s, j + |p|));
  }

  lemma {:induction false} AnchorCallOpens(kw: string)
    ensures OpensWithBracket(AnchorCall(kw))
  {
    forall s: string, j: nat | AnchorCall(kw)(s, j) ensures j < |s| && s[j] == '[' {
      assert s[j..j + |CallOpening(kw)|][0] == '[';
    }
  }

  /**
   * The anchor id computed from a matched call: the opening and `)]]`
   * removed, trimmed, transliterated. The transliteration is taken
   * character by character; `TransliterateIsCharwise` shows this is the
   * source's chain of seven replacements.
   */
  function AnchorId(call: string, kw: string): string {
    TransliterateEach(Trimmed(CallArgument(call, kw)))
  }

  /** The element a call becomes: the id serves as `id` and as the `#` target. */
  function AnchorHtml(id: string): string {
    "<a id=\"" + id + "\" href=\"#" + id + "\" class=\"crosslink anchor\"> </a>"
  }

  /**
   * For a matched call the two removals leave exactly the name: the name
   * holds neither `[` nor `)`, so no other occurrence is removed.
   */
  lemma {:induction false} CallName(kw: string, name: string)
    requires AllNameChars(name)
    ensures CallArgument(CallOpening(kw) + name + ")]]", kw) == name
  {
    NameCharsNoBrackets(name);
    assert ')' !in name by {
      forall k | 0 <= k < |name| ensures name[k] != ')' { assert IsNameChar(name[k]); }
    }
    ArgumentOfCall(kw, name);
  }

  /** The name of the call matched at `i`. */
  function CallNameText(s: string, i: nat, kw: string): string
    requires AnchorCallAt(s, i, kw)
  {
    s[i + |CallOpening(kw)|..i + CallLength(s, i, kw) - 3]
  }

  /** A call spelled out: the keyword's opening, a name, `)]]`. */
  lemma {:induction false} CallShape(s: string, i: nat, kw: string)
    requires AnchorCallAt(s, i, kw)
    ensures var n := CallLength(s, i, kw);
      s[i..i + n] == CallOpening(kw) + CallNameText(s, i, kw) + ")]]"
      && AllNameChars(CallNameText(s, i, kw))
  {
    var p := CallOpening(kw);
    var n := CallLength(s, i, kw);
    NameRunChars(s, i + |p|);
    OccursAtSlice(s, p, i);
    OccursAtSlice(s, ")]]", i + n - 3);
    assert s[i..i + |p|] == p;
    assert s[i + n - 3..i + n] == ")]]";
    assert s[i..i + n] == s[i..i + |p|] + s[i + |p|..i + n - 3] + s[i + n - 3..i + n];
  }

  lemma {:induction false} TrimmedNameChars(s: string)
    requires AllNameChars(s)
    ensures AllNameChars(Trimmed(s))
  {
    var a := TrimStart(s);
    assert AllNameChars(a) by {
      forall k | 0 <= k < |a| ensures IsNameChar(a[k]) { assert a[k] == s[|s| - |a| + k]; }
    }
    var b := TrimEnd(a);
    forall k | 0 <= k < |b| ensures IsNameChar(b[k]) { assert b[k] == a[k]; }
  }

  lemma {:induction false} NameCharsNoBrackets(s: string)
    requires AllNameChars(s)
    ensures ']' !in s && '[' !in s
  {
    forall k | 0 <= k < |s| ensures s[k] != ']' && s[k] != '[' { assert IsNameChar(s[k]); }
  }

  /** The id of a matched call is its trimmed name, transliterated character by character. */
  lemma {:induction false} AnchorIdOfCall(s: string, i: nat, kw: string)
    requires AnchorCallAt(s, i, kw)
    ensures AnchorId(s[i..i + CallLength(s, i, kw)], kw)
         == TransliterateEach(Trimmed(CallNameText(s, i, kw)))
  {
    var name := CallNameText(s, i, kw);
    CallShape(s, i, kw);
    CallName(kw, name);
  }

  /** The id of a matched call carries no bracket of either kind. */
  lemma {:induction false} AnchorIdNoBrackets(s: string, i: nat, kw: string)
    requires AnchorCallAt(s, i, kw)
    ensures var id := AnchorId(s[i..i + CallLength(s, i, kw)], kw); ']' !in id && '[' !in id
  {
    var name := CallNameText(s, i, kw);
    AnchorIdOfCall(s, i, kw);
    CallShape(s, i, kw);
    var tr := Trimmed(name);
    TrimmedNameChars(name);
    NameCharsNoBrackets(tr);
    EachKeepsOut(tr, ']');
    EachKeepsOut(tr, '[');
  }

  lemma {:induction false} AnchorHtmlNoBrackets(id: string)
    requires ']' !in id && '[' !in id
    ensures ']' !in AnchorHtml(id) && '[' !in AnchorHtml(id)
  {
    var a, b, c := "<a id=\"", "\" href=\"#", "\" class=\"crosslink anchor\"> </a>";
    assert Plain(a) && Plain(b) && Plain(c);
    assert AnchorHtml(id) == a + id + b + id + c;
  }

  /** The anchor element that replaces the call matched at `i` holds no bracket. */
  lemma {:induction false} AnchorReplacementFree(s: string, i: nat, kw: string)
    requires AnchorCallAt(s, i, kw)
    ensures var r := AnchorHtml(AnchorId(s[i..i + CallLength(s, i, kw)], kw)); ']' !in r && '[' !in r
  {
    AnchorIdNoBrackets(s, i, kw);
    AnchorHtmlNoBrackets(AnchorId(s[i..i + CallLength(s, i, kw)], kw));
  }

  /** What the pass does at a position: a call becomes its anchor element. */
  function AnchorEdit(s: string, i: nat, kw: string): Edit {
    if AnchorCallAt(s, i, kw) then
      var n := CallLength(s, i, kw);
      Replace(n, AnchorHtml(AnchorId(s[i..i + n], kw)))
    else Keep(1)
  }

  function AnchorRewriter(kw: string): Rewriter<()> {
    (s: string, i: nat, u: ()) => (AnchorEdit(s, i, kw), u)
  }

  lemma {:induction false} CallSliceShift(pre: string, s: string, j: nat, kw: string)
    requires AnchorCallAt(s, j, kw)
    ensures AnchorCallAt(pre + s, |pre| + j, kw)
    ensures CallLength(pre + s, |pre| + j, kw) == CallLength(s, j, kw)
    ensures (pre + s)[|pre| + j..|pre| + j + CallLength(s, j, kw)] == s[j..j + CallLength(s, j, kw)]
  {
    AnchorCallShift(pre, s, j, kw);
  }

  lemma {:induction false} AnchorReplacementShift(pre: string, s: string, j: nat, kw: string)
    requires AnchorCallAt(s, j, kw)
    ensures AnchorCallAt(pre + s, |pre| + j, kw)
    ensures AnchorEdit(pre + s, |pre| + j, kw) == AnchorEdit(s, j, kw)
  {
    CallSliceShift(pre, s, j, kw);
    AnchorEditSame(pre + s, |pre| + j, s, j, kw, CallLength(s, j, kw));
  }

  /** Two matched calls with the same text make the same edit. */
  lemma {:induction false} AnchorEditSame(s1: string, i1: nat, s2: string, i2: nat, kw: string, n: nat)
    requires AnchorCallAt(s1, i1, kw) && AnchorCallAt(s2, i2, kw)
    requires n == CallLength(s1, i1, kw) == CallLength(s2, i2, kw)
    requires s1[i1..i1 + n] == s2[i2..i2 + n]
    ensures AnchorEdit(s1, i1, kw) == AnchorEdit(s2, i2, kw)
  {
    AnchorEditAt(s1, i1, kw, n);
    AnchorEditAt(s2, i2, kw, n);
  }

  /** The edit at a matched call of length `n`: the call's text becomes its anchor element. */
  lemma {:induction false} AnchorEditAt(s: string, i: nat, kw: string, n: nat)
    requires AnchorCallAt(s, i, kw) && n == CallLength(s, i, kw)
    ensures i + n <= |s|
    ensures AnchorEdit(s, i, kw) == Replace(n, AnchorHtml(AnchorId(s[i..i + n], kw)))
  {
  }

  /** The anchor pass meets the conditions of the original-length scan. */
  lemma {:induction false} AnchorPassProper(kw: string)
    ensures Proper(AnchorCall(kw), AnchorRewriter(kw))
    ensures Local(AnchorCall(kw), AnchorRewriter(kw))
    ensures OpensWithBracket(AnchorCall(kw))
  {
    AnchorFits(kw);
    AnchorLocal(kw);
    AnchorCallOpens(kw);
  }

  lemma {:induction false} AnchorFits(kw: string)
    ensures Proper(AnchorCall(kw), AnchorRewriter(kw))
  {
    var p, f := AnchorCall(kw), AnchorRewriter(kw);
    forall s: string, i: nat, st: () | p(s, i) ensures Fits(s, i, f(s, i, st).0) {
      AnchorReplacementFree(s, i, kw);
    }
  }

  lemma {:induction false} AnchorLocal(kw: string)
    ensures Local(AnchorCall(kw), AnchorRewriter(kw))
  {
    AnchorMatchLocal(kw);
    AnchorEditLocal(kw);
  }

  lemma {:induction false} AnchorMatchLocal(kw: string)
    ensures forall pre: string, s: string, j: nat
      :: AnchorCall(kw)(pre + s, At(pre, j)) == AnchorCall(kw)(s, j)
  {
    forall pre: string, s: string, j: nat
      ensures AnchorCall(kw)(pre + s, At(pre, j)) == AnchorCall(kw)(s, j)
    {
      AnchorCallShift(pre, s, j, kw);
    }
  }

  lemma {:induction false} AnchorEditLocal(kw: string)
    ensures forall pre: string, s: string, j: nat, st: () | AnchorCall(kw)(s, j)
      :: AnchorRewriter(kw)(pre + s, At(pre, j), st) == AnchorRewriter(kw)(s, j, st)
  {
    forall pre: string, s: string, j: nat, st: () | AnchorCall(kw)(s, j)
      ensures AnchorRewriter(kw)(pre + s, At(pre, j), st) == AnchorRewriter(kw)(s, j, st)
    {
      AnchorReplacementShift(pre, s, j, kw);
    }
  }

  /**
   * The scan of `createAnchor` and `replaceAnchors` from `cursor` on:
   * every call found is replaced by its anchor element, and the search
   * resumes at the call's start plus the length of the CALL, not of the
   * element.
   */
  function AnchorScan(doc: string, cursor: nat, kw: string): string {
    AnchorPassProper(kw);
    Pass(doc, cursor, (), AnchorCall(kw), AnchorRewriter(kw)).0
  }

  lemma {:induction false} NameRunExact(s: string, k: nat, m: nat)
    requires k + m < |s| && !IsNameChar(s[k + m])
    requires forall j :: k <= j < k + m ==> IsNameChar(s[j])
    ensures NameRun(s, k) == m
    decreases m
  {
    if m > 0 { NameRunExact(s, k + 1, m - 1); }
  }

  predicate ValidKeyword(kw: string) { |kw| > 0 && IsWordChar(kw[0]) }

  /**
   * A call with a non-empty name of name characters matches, spans
   * exactly its text, and becomes the element whose id is the trimmed
   * name with spaces and umlauts replaced.
   */
  lemma {:induction false} AnchorOfName(kw: string, name: string, post: string)
    requires ValidKeyword(kw) && |name| > 0 && AllNameChars(name)
    ensures AnchorCallAt(CallText(kw, name) + post, 0, kw)
    ensures AnchorEdit(CallText(kw, name) + post, 0, kw)
         == Replace(|CallText(kw, name)|, AnchorHtml(TransliterateEach(Trimmed(name))))
  {
    var p := CallOpening(kw);
    var t := CallText(kw, name);
    var s := t + post;
    assert s[..|t|] == t;
    assert s[0..|p|] == p;
    assert s[|p| + |name|] == ')';
    forall j | |p| <= j < |p| + |name| ensures IsNameChar(s[j]) {
      assert s[j] == name[j - |p|];
    }
    NameRunExact(s, |p|, |name|);
    assert s[|p| + |name|..|p| + |name| + 3] == ")]]";
    OccursAtSlice(s, p, 0);
    OccursAtSlice(s, ")]]", |p| + |name|);
    assert CallNameText(s, 0, kw) == name;
    AnchorIdOfCall(s, 0, kw);
    assert CallLength(s, 0, kw) == |t|;
  }


  /**
   * A well-formed call at the cursor is replaced by its element; the scan
   * then continues in the text after the call, skipping its first
   * `Overhang` characters when the element is shorter than the call.
   */
  lemma {:induction false} AnchorScanCall(pre: string, kw: string, name: string, post: string)
    requires ValidKeyword(kw) && |name| > 0 && AllNameChars(name)
    ensures var html := AnchorHtml(TransliterateEach(Trimmed(name)));
      AnchorScan(pre + CallText(kw, name) + post, |pre|, kw)
      == pre + html + AnchorScan(post, Overhang(|CallText(kw, name)|, |html|), kw)
  {
    var t := CallText(kw, name);
    var html := AnchorHtml(TransliterateEach(Trimmed(name)));
    var p, f := AnchorCall(kw), AnchorRewriter(kw);
    AnchorPassProper(kw);
    AnchorAtCall(pre, kw, name, post);
    FindAtCursor(pre, t + post, p);
    PassReplaceAt(pre, t, post, |pre|, (), p, f, html, ());
  }

  /** The pattern and the rewriter at a well-formed call behind some text. */
  lemma {:induction false} AnchorAtCall(pre: string, kw: string, name: string, post: string)
    requires ValidKeyword(kw) && |name| > 0 && AllNameChars(name)
    ensures var t := CallText(kw, name);
      var html := AnchorHtml(TransliterateEach(Trimmed(name)));
      && pre + t + post == pre + (t + post)
      && AnchorCall(kw)(pre + (t + post), |pre|)
      && AnchorRewriter(kw)(pre + t + post, |pre|, ()) == (Replace(|t|, html), ())
      && '[' !in html
  {
    var t := CallText(kw, name);
    AnchorOfName(kw, name, post);
    AnchorReplacementShift(pre, t + post, 0, kw);
    assert pre + t + post == pre + (t + post);
    AnchorReplacementFree(t + post, 0, kw);
  }
}
