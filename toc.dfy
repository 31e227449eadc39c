/**
 * The `TableOfContents` macro: `[[Inhaltsverzeichnis(2)]]`. Every call is
 * replaced by a block that lists the document's headlines down to the
 * depth given as argument (3 when it is blank), one wiki list line
 * `1. [#link text]` per headline; the link pass turns those lines into
 * anchor links later.
 *
 * The headlines come from the caller as a list in which every entry
 * carries its level as a marker such as `#2#` in front of its text. The
 * handler rewrites that caller-owned list in place: every entry it looks
 * at is overwritten by the digits of its marker, so that a second table
 * in the same document lists nothing.
 */
module TableOfContents {
  import opened Text
  import opened Rewrite
  import opened Calls
  import Anchors

  // ---------------------------------------------------------------------
  // The level marker `#{1,5}\d#{1,5}`

  /** The number of `#` from `i` on. */
  function HashRun(s: string, i: nat): (n: nat)
    requires i <= |s|
    ensures i + n <= |s| && (i + n == |s| || s[i + n] != '#')
    decreases |s| - i
  {
    if i < |s| && s[i] == '#' then 1 + HashRun(s, i + 1) else 0
  }

  /**
   * The marker regex matches at `p`: one to five `#` (all of the run
   * that starts there, since a `#` is no digit), a digit, and a `#`.
   */
  predicate MarkAt(s: string, p: nat) {
    p <= |s| &&
    var r := HashRun(s, p);
    1 <= r <= 5 && p + r + 1 < |s| && IsDigit(s[p + r]) && s[p + r + 1] == '#'
  }

  /** The length of the match at `p`: the greedy `#{1,5}` after the digit takes at most five `#`. */
  function MarkLength(s: string, p: nat): (n: nat)
    requires MarkAt(s, p)
    ensures 3 <= n && p + n <= |s|
  {
    var r := HashRun(s, p);
    var after := HashRun(s, p + r + 1);
    r + 1 + (if after < 5 then after else 5)
  }

  /** `QString::remove(QRegExp)` with the marker regex, from `i` on: matches found left to right are dropped. */
  function RemoveMarksFrom(s: string, i: nat): (r: string)
    requires i <= |s|
    ensures |r| <= |s| - i
    decreases |s| - i
  {
    if i == |s| then []
    else if MarkAt(s, i) then RemoveMarksFrom(s, i + MarkLength(s, i))
    else [s[i]] + RemoveMarksFrom(s, i + 1)
  }

  function RemoveMarks(s: string): (r: string)
    ensures |r| <= |s|
  {
    RemoveMarksFrom(s, 0)
  }

  /** Text without `#` holds no marker and is left as it is. */
  lemma {:induction false} RemoveMarksFree(s: string, i: nat)
    requires i <= |s| && forall k :: i <= k < |s| ==> s[k] != '#'
    ensures RemoveMarksFrom(s, i) == s[i..]
    decreases |s| - i
  {
    if i < |s| {
      assert HashRun(s, i) == 0;
      RemoveMarksFree(s, i + 1);
      assert s[i..] == [s[i]] + s[i + 1..];
    }
  }

  /** A headline `#<d>#<text>` loses exactly its marker. */
  lemma {:induction false} RemoveMarksLeading(d: char, text: string)
    requires IsDigit(d) && '#' !in text
    ensures RemoveMarks("#" + [d] + "#" + text) == text
  {
    var h := "#" + [d] + "#" + text;
    assert h[0] == '#' && h[1] == d && h[2] == '#';
    assert HashRun(h, 1) == 0;
    assert HashRun(h, 0) == 1;
    assert HashRun(h, 3) == 0 by {
      if 3 < |h| { assert h[3] == text[0]; }
    }
    assert MarkAt(h, 0);
    assert MarkLength(h, 0) == 3;
    RemoveMarksFree(h, 3);
    assert h[3..] == text;
  }

  // ---------------------------------------------------------------------
  // One headline

  /** The anchor a headline links to: the anchor transliteration, then the marker removed. */
  function HeadlineLink(h: string): string {
    RemoveMarks(Anchors.Transliterate(h))
  }

  /** The links of all headlines, computed once when the handler starts. */
  function HeadlineLinks(hs: seq<string>): (links: seq<string>)
    ensures |links| == |hs|
  {
    seq(|hs|, k requires 0 <= k < |hs| => HeadlineLink(hs[k]))
  }

  /**
   * What a headline entry is overwritten with: the characters the marker
   * removal took away, counted from the front, without their `#`.
   */
  function LevelText(h: string): (r: string)
    ensures '#' !in r
  {
    var tmp := RemoveMarks(h);
    RemoveChar(h[..|h| - |tmp|], '#')
  }

  /** The level of a headline (`quint16`, 0 when the digits do not convert). */
  function Level(h: string): nat {
    ToUShort(LevelText(h))
  }

  /** `#<d>#<text>` loses its marker, and the entry is overwritten by `d`. */
  lemma {:induction false} MarkedLevelText(d: char, text: string)
    requires IsDigit(d) && '#' !in text
    ensures RemoveMarks("#" + [d] + "#" + text) == text
    ensures LevelText("#" + [d] + "#" + text) == [d]
  {
    var h := "#" + [d] + "#" + text;
    RemoveMarksLeading(d, text);
    assert h[..|h| - |text|] == "#" + ([d] + "#");
    RemoveCharAppend("#", [d] + "#", '#');
    RemoveCharAppend([d], "#", '#');
    assert RemoveChar("#", '#') == [];
    assert RemoveChar([d], '#') == [d];
  }

  /** `#<d>#<text>` is at level `d`. */
  lemma {:induction false} MarkedHeadline(d: char, text: string)
    requires IsDigit(d) && '#' !in text
    ensures RemoveMarks("#" + [d] + "#" + text) == text
    ensures Level("#" + [d] + "#" + text) == DigitValue(d)
  {
    MarkedLevelText(d, text);
    DecimalDigit(d);
    ToUShortDigits([d]);
  }

  /** An entry without `#` (one the handler has already rewritten) is at level 0 and becomes empty. */
  lemma {:induction false} UnmarkedHeadline(h: string)
    requires '#' !in h
    ensures LevelText(h) == [] && Level(h) == 0
  {
    RemoveMarksFree(h, 0);
    assert h[0..] == h;
    assert h[..0] == [];
    assert Trimmed([]) == [];
  }

  /** The level of every entry. */
  function Levels(hs: seq<string>): (r: seq<nat>)
    ensures |r| == |hs|
  {
    if hs == [] then [] else [Level(hs[0])] + Levels(hs[1..])
  }

  lemma {:induction false} LevelsAt(hs: seq<string>, k: nat)
    requires k < |hs|
    ensures Levels(hs)[k] == Level(hs[k])
  {
    if k > 0 {
      LevelsAt(hs[1..], k - 1);
    }
  }

  /** The text of every entry, its marker removed. */
  function Titles(hs: seq<string>): (r: seq<string>)
    ensures |r| == |hs|
  {
    if hs == [] then [] else [RemoveMarks(hs[0])] + Titles(hs[1..])
  }

  lemma {:induction false} TitlesAt(hs: seq<string>, k: nat)
    requires k < |hs|
    ensures Titles(hs)[k] == RemoveMarks(hs[k])
  {
    if k > 0 {
      TitlesAt(hs[1..], k - 1);
    }
  }

  /** The list line of a headline, or nothing when its level is 0 or deeper than `depth`. */
  function TocLine(link: string, level: nat, title: string, depth: nat): string {
    if 0 < level <= depth then Spaces(level) + "1. [#" + link + " " + title + "]\n" else ""
  }

  /** A marked headline is listed, indented by its level, exactly when that level is between 1 and `depth`. */
  lemma {:induction false} TocLineOfMarked(link: string, d: char, text: string, depth: nat)
    requires IsDigit(d) && '#' !in text
    ensures var h := "#" + [d] + "#" + text;
      TocLine(link, Level(h), RemoveMarks(h), depth)
      == if 1 <= DigitValue(d) <= depth then Spaces(DigitValue(d)) + "1. [#" + link + " " + text + "]\n" else ""
  {
    MarkedHeadline(d, text);
  }

  // ---------------------------------------------------------------------
  // One call

  /** The depth a call asks for: the trimmed argument as `quint16`, or 3 when it is blank. */
  function Depth(arg: string): nat {
    if |Trimmed(arg)| > 0 then ToUShort(Trimmed(arg)) else 3
  }

  lemma {:induction false} DepthBlank(arg: string)
    requires forall k :: 0 <= k < |arg| ==> IsSpace(arg[k])
    ensures Depth(arg) == 3
  {
    var a := TrimStart(arg);
    assert Trimmed(arg) == TrimEnd(a) == [];
  }

  /** A signed number `+d` asks for the depth `d`, as `toUShort` accepts the sign. */
  lemma {:induction false} DepthSigned(d: string)
    requires |d| > 0 && AllDigits(d)
    ensures Depth("+" + d) == if Decimal(d) <= MaxUShort then Decimal(d) else 0
  {
    var t := "+" + d;
    assert Trimmed(t) == t by {
      assert forall k :: 0 <= k < |t| ==> !IsSpace(t[k]);
      TrimmedNoSpace(t);
    }
    ToUShortSigned(d);
  }

  lemma {:induction false} DepthDigits(arg: string)
    requires |arg| > 0 && AllDigits(arg)
    ensures Depth(arg) == if Decimal(arg) <= MaxUShort then Decimal(arg) else 0
  {
    assert Trimmed(arg) == arg by {
      assert forall k :: 0 <= k < |arg| ==> !IsSpace(arg[k]);
      TrimmedNoSpace(arg);
    }
    ToUShortDigits(arg);
  }

  /** The lines of the first `n` headlines, in list order. */
  function TocLines(links: seq<string>, levels: seq<nat>, titles: seq<string>, depth: nat, n: nat): string
    requires n <= |links| && n <= |levels| && n <= |titles|
  {
    if n == 0 then "" else TocLines(links, levels, titles, depth, n - 1) + TocLine(links[n - 1], levels[n - 1], titles[n - 1], depth)
  }

  /** Headlines at level 0 are never listed. */
  lemma {:induction false} NothingListed(links: seq<string>, levels: seq<nat>, titles: seq<string>, depth: nat, n: nat)
    requires n <= |links| && n <= |levels| && n <= |titles|
    requires forall k :: 0 <= k < n ==> levels[k] == 0
    ensures TocLines(links, levels, titles, depth, n) == ""
  {
    if n > 0 {
      NothingListed(links, levels, titles, depth, n - 1);
    }
  }

  /** Every entry overwritten by its level digits. */
  function Overwritten(hs: seq<string>): (r: seq<string>)
    ensures |r| == |hs|
  {
    if hs == [] then [] else [LevelText(hs[0])] + Overwritten(hs[1..])
  }

  lemma {:induction false} OverwrittenAt(hs: seq<string>, k: nat)
    requires k < |hs|
    ensures Overwritten(hs)[k] == LevelText(hs[k])
  {
    if k > 0 {
      OverwrittenAt(hs[1..], k - 1);
    }
  }

  const TocOpen: string := "<div class=\"toc\">\n<div class=\"head\">"

  /** The block a call becomes: the keyword as head, then the lines. */
  function TocHtml(kw: string, lines: string): string {
    TocOpen + kw + "</div>\n" + lines + "\n</div>\n"
  }

  /**
   * A matched call with the current entries: the block, and the entries
   * overwritten. The two lists have the same length (the links are
   * computed from the entries); the lines stop at the shorter one.
   */
  function TocStep(links: seq<string>, kw: string, call: string, hs: seq<string>): (string, seq<string>) {
    var n := if |links| < |hs| then |links| else |hs|;
    (TocHtml(kw, TocLines(links, Levels(hs), Titles(hs), Depth(CallArgument(call, kw)), n)), Overwritten(hs))
  }

  function TocRender(links: seq<string>, kw: string): CallRender<seq<string>> {
    (call: string, hs: seq<string>) => TocStep(links, kw, call, hs)
  }

  /**
   * `Macros::replaceTableOfContents`: the final buffer and the final
   * entries. The opening is matched ignoring case, the argument may be
   * empty, and the scan goes on after the inserted block.
   */
  function TocScan(doc: string, kw: string, hs: seq<string>): (string, seq<string>) {
    CallScan(doc, 0, hs, kw, true, 0, TocRender(HeadlineLinks(hs), kw))
  }

  /** The handler overwrites entries of the caller's list but never adds or drops one. */
  lemma {:induction false} TocScanLength(doc: string, kw: string, hs: seq<string>)
    ensures |TocScan(doc, kw, hs).1| == |hs|
  {
    var p, f := MacroCall(kw, true, 0), CallRewriter(kw, true, 0, TocRender(HeadlineLinks(hs), kw));
    var inv := (x: seq<string>) => |x| == |hs|;
    CallRewriterLocal(kw, true, 0, TocRender(HeadlineLinks(hs), kw));
    forall s: string, i: nat, x: seq<string> | p(s, i) && inv(x) ensures inv(f(s, i, x).1) {
      assert MacroCallAt(s, i, kw, true, 0);
      var links := HeadlineLinks(hs);
      assert f(s, i, x).1 == TocStep(links, kw, MacroCallText(s, i, kw, true, 0), x).1;
    }
    PassAfterKeeps(doc, 0, hs, p, f, inv);
  }

  /** Every overwritten entry is at level 0. */
  lemma {:induction false} OverwrittenLevels(hs: seq<string>)
    ensures forall k :: 0 <= k < |hs| ==> Levels(Overwritten(hs))[k] == 0
  {
    forall k | 0 <= k < |hs| ensures Levels(Overwritten(hs))[k] == 0 {
      LevelsAt(Overwritten(hs), k);
      OverwrittenAt(hs, k);
      UnmarkedHeadline(Overwritten(hs)[k]);
    }
  }

  /** A block lists nothing once its entries have been overwritten: a second table comes out empty. */
  lemma {:induction false} SecondTableEmpty(links: seq<string>, hs: seq<string>, depth: nat)
    requires |links| == |hs|
    ensures var o := Overwritten(hs); TocLines(links, Levels(o), Titles(o), depth, |hs|) == ""
  {
    OverwrittenLevels(hs);
    var o := Overwritten(hs);
    NothingListed(links, Levels(o), Titles(o), depth, |hs|);
  }

  /** Overwriting twice leaves every entry empty. */
  lemma {:induction false} OverwrittenTwice(hs: seq<string>)
    ensures forall k :: 0 <= k < |hs| ==> Overwritten(Overwritten(hs))[k] == []
  {
    forall k | 0 <= k < |hs| ensures Overwritten(Overwritten(hs))[k] == [] {
      OverwrittenAt(hs, k);
      OverwrittenAt(Overwritten(hs), k);
      UnmarkedHeadline(Overwritten(hs)[k]);
    }
  }

  /**
   * A call at the cursor becomes the block of its depth over the current
   * entries, the entries are overwritten, and the scan goes on after the
   * block with the overwritten entries.
   */
  lemma {:induction false} TocScanCall(pre: string, kw: string, arg: string, post: string,
                                       links: seq<string>, hs: seq<string>)
    requires '[' !in arg && ')' !in arg && |links| == |hs|
    ensures var rest := CallScan(post, 0, Overwritten(hs), kw, true, 0, TocRender(links, kw));
      CallScan(pre + CallText(kw, arg) + post, |pre|, hs, kw, true, 0, TocRender(links, kw))
      == (pre + TocHtml(kw, TocLines(links, Levels(hs), Titles(hs), Depth(arg), |hs|)) + rest.0, rest.1)
  {
    ArgumentOfCall(kw, arg);
    var r := TocHtml(kw, TocLines(links, Levels(hs), Titles(hs), Depth(arg), |hs|));
    assert TocRender(links, kw)(CallText(kw, arg), hs) == (r, Overwritten(hs));
    CallScanAt(pre, kw, arg, post, hs, true, 0, TocRender(links, kw), r, Overwritten(hs));
  }

  // ---------------------------------------------------------------------
  // The handler, over the caller's list

  /** The loop that builds the links before the first call is looked at. */
  method ComputeLinks(headlines: array<string>) returns (links: seq<string>)
    ensures links == HeadlineLinks(headlines[..])
  {
    links := [];
    for i := 0 to headlines.Length
      invariant |links| == i
      invariant forall k :: 0 <= k < i ==> links[k] == HeadlineLink(headlines[k])
    {
      links := links + [HeadlineLink(headlines[i])];
    }
  }

  /**
   * The inner loop for one call: every entry is read, overwritten by its
   * level digits, and listed when its level is between 1 and `depth`.
   */
  method ListHeadlines(links: seq<string>, headlines: array<string>, depth: nat) returns (lines: string)
    requires |links| == headlines.Length
    modifies headlines
    ensures lines == TocLines(links, Levels(old(headlines[..])), Titles(old(headlines[..])), depth, headlines.Length)
    ensures headlines[..] == Overwritten(old(headlines[..]))
  {
    ghost var hs := headlines[..];
    EntriesAt(hs);
    lines := ListLoop(links, headlines, depth, hs, Levels(hs), Titles(hs), Overwritten(hs));
  }

  /** The level, the title and the overwritten text of every entry, one index at a time. */
  lemma {:induction false} EntriesAt(hs: seq<string>)
    ensures forall k :: 0 <= k < |hs| ==> Levels(hs)[k] == Level(hs[k])
    ensures forall k :: 0 <= k < |hs| ==> Titles(hs)[k] == RemoveMarks(hs[k])
    ensures forall k :: 0 <= k < |hs| ==> Overwritten(hs)[k] == LevelText(hs[k])
  {
    forall k | 0 <= k < |hs|
      ensures Levels(hs)[k] == Level(hs[k])
      ensures Titles(hs)[k] == RemoveMarks(hs[k])
      ensures Overwritten(hs)[k] == LevelText(hs[k])
    {
      LevelsAt(hs, k);
      TitlesAt(hs, k);
      OverwrittenAt(hs, k);
    }
  }

  /**
   * The loop itself, against the level, title and overwritten text of
   * every entry as they were when the loop started.
   */
  method ListLoop(links: seq<string>, headlines: array<string>, depth: nat, ghost hs: seq<string>,
                  ghost levels: seq<nat>, ghost titles: seq<string>, ghost ov: seq<string>) returns (lines: string)
    requires headlines[..] == hs
    requires |links| == |hs| == |levels| == |titles| == |ov|
    requires forall k {:trigger Level(hs[k])} :: 0 <= k < |hs| ==> levels[k] == Level(hs[k])
    requires forall k {:trigger RemoveMarks(hs[k])} :: 0 <= k < |hs| ==> titles[k] == RemoveMarks(hs[k])
    requires forall k {:trigger LevelText(hs[k])} :: 0 <= k < |hs| ==> ov[k] == LevelText(hs[k])
    modifies headlines
    ensures lines == TocLines(links, levels, titles, depth, |hs|)
    ensures headlines[..] == ov
  {
    lines := "";
    for i := 0 to headlines.Length
      invariant lines == TocLines(links, levels, titles, depth, i)
      invariant headlines[..] == ov[..i] + hs[i..]
    {
      ListedPrefix(ov, hs, i);
      lines := ListStep(links, headlines, depth, i, hs, levels, titles, lines);
    }
    assert ov[..headlines.Length] + hs[headlines.Length..] == ov;
  }

  /** One turn of the inner loop, stated against the lines so far. */
  method ListStep(links: seq<string>, headlines: array<string>, depth: nat, i: nat, ghost hs: seq<string>,
                  ghost levels: seq<nat>, ghost titles: seq<string>, lines: string) returns (lines': string)
    requires i < |links| == headlines.Length == |hs| == |levels| == |titles| && headlines[i] == hs[i]
    requires forall k {:trigger Level(hs[k])} :: 0 <= k < |hs| ==> levels[k] == Level(hs[k])
    requires forall k {:trigger RemoveMarks(hs[k])} :: 0 <= k < |hs| ==> titles[k] == RemoveMarks(hs[k])
    requires lines == TocLines(links, levels, titles, depth, i)
    modifies headlines
    ensures lines' == TocLines(links, levels, titles, depth, i + 1)
    ensures headlines[..] == old(headlines[..])[i := LevelText(hs[i])]
  {
    ghost var before := headlines[..];
    var line := ListEntry(headlines, i, links[i], depth, hs[i]);
    lines' := lines + line;
    assert forall k :: 0 <= k < headlines.Length ==> headlines[..][k] == before[i := LevelText(hs[i])][k];
  }

  /** Overwriting entry `i` moves the boundary between overwritten and original entries by one. */
  lemma {:induction false} ListedPrefix(ov: seq<string>, hs: seq<string>, i: nat)
    requires |ov| == |hs| && i < |hs|
    ensures (ov[..i] + hs[i..])[i] == hs[i]
    ensures (ov[..i] + hs[i..])[i := ov[i]] == ov[..i + 1] + hs[i + 1..]
  {
    var a := (ov[..i] + hs[i..])[i := ov[i]];
    assert forall k :: 0 <= k < |a| ==> a[k] == (ov[..i + 1] + hs[i + 1..])[k];
  }

  /**
   * One step of the inner loop: the entry at `i` is overwritten by its
   * level digits, and its list line is returned.
   */
  method ListEntry(headlines: array<string>, i: nat, link: string, depth: nat, ghost h: string) returns (line: string)
    requires i < headlines.Length && headlines[i] == h
    modifies headlines
    ensures headlines[i] == LevelText(h)
    ensures forall k :: 0 <= k < headlines.Length && k != i ==> headlines[k] == old(headlines[k])
    ensures line == TocLine(link, Level(h), RemoveMarks(h), depth)
  {
    var entry := headlines[i];
    var tmp := RemoveMarks(entry);
    headlines[i] := RemoveChar(entry[..|entry| - |tmp|], '#');
    var level := ToUShort(headlines[i]);
    line := "";
    if 0 < level <= depth {
      line := Spaces(level) + "1. [#" + link + " " + tmp + "]\n";
    }
  }

  /** What the rewriter does at a matched call, spelled out. */
  lemma {:induction false} TocRewriteAt(s: string, i: nat, kw: string, links: seq<string>, hs: seq<string>)
    requires MacroCallAt(s, i, kw, true, 0)
    ensures var out := TocStep(links, kw, MacroCallText(s, i, kw, true, 0), hs);
      CallRewriter(kw, true, 0, TocRender(links, kw))(s, i, hs) == (Replace(MacroCallLength(s, i, kw, true, 0), out.0), out.1)
  {
  }

  /**
   * One matched call: its block over the current entries, which are
   * overwritten, and the length of the call text it replaces.
   */
  method ExpandCall(s: string, i: nat, kw: string, links: seq<string>, headlines: array<string>)
      returns (block: string, len: nat)
    requires MacroCallAt(s, i, kw, true, 0) && |links| == headlines.Length
    modifies headlines
    ensures CallRewriter(kw, true, 0, TocRender(links, kw))(s, i, old(headlines[..])) == (Replace(len, block), headlines[..])
  {
    TocRewriteAt(s, i, kw, links, headlines[..]);
    var call := MacroCallText(s, i, kw, true, 0);
    len := MacroCallLength(s, i, kw, true, 0);
    var lines := ListHeadlines(links, headlines, Depth(CallArgument(call, kw)));
    block := TocHtml(kw, lines);
  }

  /** `Macros::replaceTableOfContents` on the buffer `doc` and the caller's list `headlines`. */
  method ReplaceTableOfContents(doc: string, kw: string, headlines: array<string>) returns (out: string)
    modifies headlines
    ensures (out, headlines[..]) == TocScan(doc, kw, old(headlines[..]))
  {
    ghost var hs0 := headlines[..];
    var links := ComputeLinks(headlines);
    ghost var p, f := MacroCall(kw, true, 0), CallRewriter(kw, true, 0, TocRender(links, kw));
    CallRewriterLocal(kw, true, 0, TocRender(links, kw));
    var s := doc;
    var cursor: nat := 0;
    var next := FindFirst(s, cursor, MacroCall(kw, true, 0));
    while next.Some?
      invariant |links| == headlines.Length
      invariant next == FindFirst(s, cursor, p)
      invariant PassAfter(s, cursor, headlines[..], p, f) == PassAfter(doc, 0, hs0, p, f)
      decreases Remaining(s, cursor)
    {
      var i := next.value;
      ghost var h := headlines[..];
      FindFirstHit(s, cursor, p);
      var block, len := ExpandCall(s, i, kw, links, headlines);
      PassAfterReplaced(s, cursor, h, p, f, i, len, block, headlines[..]);
      s := s[..i] + block + s[i + len..];
      cursor := i + |block|;
      next := FindFirst(s, cursor, MacroCall(kw, true, 0));
    }
    out := s;
  }
}
