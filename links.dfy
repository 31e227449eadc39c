/**
 * The bracket links of the markup and the HTML the link resolver puts in
 * their place, decided one match at a time: external hyperlinks, Inyoka
 * wiki links, interwiki links, links to anchors, knowledge box references
 * and attachment references.
 *
 * The four passes over `[...]` links all take the span from the match to
 * the first `]` after it; a match without such a `]` is skipped by one
 * character.
 */
module Links {
  import opened Text
  import opened Rewrite
  import opened Calls

  // ---------------------------------------------------------------------
  // The span from a match to the first `]`

  /** A span that ends at its first `]`. */
  predicate Closed(t: string) {
    |t| > 0 && t[|t| - 1] == ']' && ']' !in t[..|t| - 1]
  }

  /** The text from `i` up to and including the first `]` at or after it. */
  function ClosedSpan(s: string, i: nat): (r: Option<string>)
    ensures r.Some? ==> Closed(r.value) && i + |r.value| <= |s| && s[i..i + |r.value|] == r.value
    ensures r.None? <==> i >= |s| || ']' !in s[i..]
  {
    match IndexOf(s, ']', i)
    case None => None
    case Some(k) =>
      assert s[i..k + 1][..k - i] == s[i..k];
      assert s[k] == s[i..][k - i];
      Some(s[i..k + 1])
  }

  lemma {:induction false} ClosedSpanShift(pre: string, s: string, j: nat)
    ensures ClosedSpan(pre + s, |pre| + j) == ClosedSpan(s, j)
  {
    IndexOfShift(pre, s, ']', j);
    match IndexOf(s, ']', j)
    case None =>
    case Some(k) => SliceShift(pre, s, j, k + 1 - j);
  }

  /** A closed span written at the position is the span found there. */
  lemma {:induction false} ClosedSpanOf(t: string, post: string)
    requires Closed(t)
    ensures ClosedSpan(t + post, 0) == Some(t)
  {
    var s := t + post;
    assert s[0..|t| - 1] == t[..|t| - 1];
    IndexOfIs(s, ']', 0, |t| - 1);
    assert s[0..|t|] == t;
  }

  /** No `]` from `c` on: no span is closed at any position from there. */
  lemma {:induction false} ClosedSpanUnclosed(s: string, c: nat, j: nat)
    requires c <= j && c <= |s| && ']' !in s[c..]
    ensures ClosedSpan(s, j) == None
  {
    if j < |s| {
      assert s[j..] == s[c..][j - c..];
    }
  }

  // ---------------------------------------------------------------------
  // Passes that decide from the span alone

  /** What a bracket pass does with the span it found, and its next state. */
  type SpanDecision<!S> = (string, S) -> (Edit, S)

  /** The rewriter of a bracket pass: an unclosed match is skipped by one character. */
  function SpanRewriter<S>(decide: SpanDecision<S>): Rewriter<S> {
    (s: string, i: nat, st: S) =>
      match ClosedSpan(s, i)
      case None => (Keep(1), st)
      case Some(t) => decide(t, st)
  }

  /** A decision that keeps part of the span, or replaces all of it by `]`-free text. */
  predicate SpanFits(t: string, e: Edit) {
    match e
    case Keep(n) => 0 < n <= |t|
    case Replace(n, r) => n == |t| && ']' !in r
  }

  ghost predicate Decides<S(!new)>(decide: SpanDecision<S>) {
    forall t: string, st: S :: Closed(t) ==> SpanFits(t, decide(t, st).0)
  }

  /** The pattern does not look at the text in front of the position. */
  ghost predicate Anchored(p: Pattern) {
    forall pre: string, s: string, j: nat :: p(pre + s, At(pre, j)) == p(s, j)
  }

  lemma {:induction false} SpanProper<S(!new)>(p: Pattern, decide: SpanDecision<S>)
    requires OpensWithBracket(p) && Decides(decide)
    ensures Proper(p, SpanRewriter(decide))
  {
    var f := SpanRewriter(decide);
    forall s: string, i: nat, st: S | p(s, i) ensures Fits(s, i, f(s, i, st).0) {
      match ClosedSpan(s, i)
      case None =>
      case Some(t) =>
        assert SpanFits(t, decide(t, st).0);
        assert s[i + |t| - 1] == t[|t| - 1];
    }
  }

  lemma {:induction false} SpanLocal<S(!new)>(p: Pattern, decide: SpanDecision<S>)
    requires Anchored(p)
    ensures Local(p, SpanRewriter(decide))
  {
    var f := SpanRewriter(decide);
    forall pre: string, s: string, j: nat, st: S | p(s, j)
      ensures f(pre + s, At(pre, j), st) == f(s, j, st)
    {
      ClosedSpanShift(pre, s, j);
    }
  }

  /** With no `]` left after the cursor a bracket pass changes nothing. */
  lemma {:induction false} SpanUnclosed<S(!new)>(doc: string, c: nat, st: S, p: Pattern, decide: SpanDecision<S>)
    requires Proper(p, SpanRewriter(decide))
    requires c <= |doc| && ']' !in doc[c..]
    ensures Pass(doc, c, st, p, SpanRewriter(decide)) == (doc, st)
  {
    var f := SpanRewriter(decide);
    forall j | c <= j && p(doc, j) ensures f(doc, j, st) == (Keep(1), st) {
      ClosedSpanUnclosed(doc, c, j);
    }
    PassKeepsAll(doc, c, st, p, f);
  }

  /** The pass at a closed span at the cursor finds it there and asks the decision. */
  lemma {:induction false} SpanAtCursor<S(!new)>(pre: string, t: string, post: string, st: S, p: Pattern, decide: SpanDecision<S>)
    requires OpensWithBracket(p) && Anchored(p) && Decides(decide)
    requires Closed(t) && p(t + post, 0)
    ensures Proper(p, SpanRewriter(decide)) && Local(p, SpanRewriter(decide))
    ensures pre + t + post == pre + (t + post)
    ensures FindFirst(pre + (t + post), |pre|, p) == Some(|pre|)
    ensures SpanRewriter(decide)(pre + t + post, |pre|, st) == decide(t, st)
  {
    SpanProper(p, decide);
    SpanLocal(p, decide);
    assert pre + t + post == pre + (t + post);
    assert p(pre + (t + post), At(pre, 0));
    FindAtCursor(pre, t + post, p);
    ClosedSpanOf(t, post);
    ClosedSpanShift(pre, t + post, 0);
  }

  /**
   * A closed span at the cursor that the decision replaces by `[`-free
   * text `r`: the result is the text before, `r`, and the pass over the
   * text after the span, entered `Overhang(|t|, |r|)` characters in.
   */
  lemma {:induction false} SpanReplaceAt<S(!new)>(pre: string, t: string, post: string, st: S, p: Pattern, decide: SpanDecision<S>, r: string, st': S)
    requires OpensWithBracket(p) && Anchored(p) && Decides(decide)
    requires Closed(t) && p(t + post, 0)
    requires decide(t, st) == (Replace(|t|, r), st') && '[' !in r
    ensures Proper(p, SpanRewriter(decide))
    ensures var rest := Pass(post, Overhang(|t|, |r|), st', p, SpanRewriter(decide));
      Pass(pre + t + post, |pre|, st, p, SpanRewriter(decide)) == (pre + r + rest.0, rest.1)
  {
    SpanAtCursor(pre, t, post, st, p, decide);
    PassReplaceAt(pre, t, post, |pre|, st, p, SpanRewriter(decide), r, st');
  }

  /**
   * A closed span at the cursor that the decision keeps whole: the text
   * up to its end stays, and the pass goes on behind it.
   */
  lemma {:induction false} SpanKeepAt<S(!new)>(pre: string, t: string, post: string, st: S, p: Pattern, decide: SpanDecision<S>, st': S)
    requires OpensWithBracket(p) && Anchored(p) && Decides(decide)
    requires Closed(t) && p(t + post, 0)
    requires decide(t, st) == (Keep(|t|), st')
    ensures Proper(p, SpanRewriter(decide))
    ensures var rest := Pass(post, 0, st', p, SpanRewriter(decide));
      Pass(pre + t + post, |pre|, st, p, SpanRewriter(decide)) == (pre + t + rest.0, rest.1)
  {
    var f := SpanRewriter(decide);
    SpanAtCursor(pre, t, post, st, p, decide);
    PassKeepSpan(pre, t, post, |pre|, st, p, f, st');
  }

  /** The span's text with every `[` and `]` removed. */
  function StripBrackets(t: string): (r: string)
    ensures Plain(r)
  {
    RemoveCharFree(RemoveChar(t, '['), ']', '[');
    RemoveChar(RemoveChar(t, '['), ']')
  }

  lemma {:induction false} StripBracketsAround(link: string)
    requires Plain(link)
    ensures StripBrackets("[" + link + "]") == link
  {
    var t := "[" + link + "]";
    assert t == "[" + (link + "]");
    RemoveCharAppend("[", link + "]", '[');
    assert RemoveChar("[", '[') == [];
    RemoveCharAbsent(link + "]", '[');
    assert RemoveChar(t, '[') == link + "]";
    RemoveCharAppend(link, "]", ']');
    assert RemoveChar("]", ']') == [];
    RemoveCharAbsent(link, ']');
  }

  lemma {:induction false} ClosedAround(link: string)
    requires ']' !in link
    ensures Closed("[" + link + "]")
  {
    var t := "[" + link + "]";
    assert t[..|t| - 1] == "[" + link;
  }

  /** A text that starts with `c + d`, wrapped and followed by more, starts with `a + c + d`. */
  lemma {:induction false} PrefixThrough(a: string, c: string, d: string, link: string, b: string, post: string)
    requires StartsWith(link, c + d)
    ensures |a + c + d| <= |(a + link + b) + post|
    ensures ((a + link + b) + post)[0..|a + c + d|] == a + c + d
  {
    var s := (a + link + b) + post;
    forall j | 0 <= j < |a + c + d| ensures s[j] == (a + c + d)[j] {
      if j >= |a| { assert link[..|c + d|][j - |a|] == (c + d)[j - |a|]; }
    }
  }

  // ---------------------------------------------------------------------
  // The fixed pieces of the generated elements

  const LinkOpen := "<a href=\""
  const LinkClose := "</a>"
  const TagEnd := "\">"
  const ExternalMid := "\" rel=\"nofollow\" class=\"external\">"
  const InternalMid := "\" class=\"internal"
  const MissingClass := " missing"
  const ClassMid := "\" class=\""
  const AnchorLinkOpen := "<a href=\"#"
  const CrossLinkMid := "\" class=\"crosslink\">"
  const CitationOpen := "<sup><a href=\"#source-"
  const CitationMid := "\">&#091;"
  const CitationClose := "&#093;</a></sup>"

  lemma {:induction false} PlainLinkPieces()
    ensures Plain(LinkOpen) && Plain(LinkClose) && Plain(TagEnd)
  { }

  lemma {:induction false} PlainExternalMid() ensures Plain(ExternalMid) { }

  lemma {:induction false} PlainInternalPieces()
    ensures Plain(InternalMid) && Plain(MissingClass) && Plain(ClassMid)
  { }

  lemma {:induction false} PlainCrossLinkPieces()
    ensures Plain(AnchorLinkOpen) && Plain(CrossLinkMid)
  { }

  lemma {:induction false} PlainCitationPieces()
    ensures Plain(CitationOpen) && Plain(CitationMid) && Plain(CitationClose)
  { }

  // ---------------------------------------------------------------------
  // External links: `[http://www.ubuntu.com Ubuntu]`

  /** The schemes an external link starts with. */
  const Schemes: seq<string> := ["http", "https", "ftp", "ftps", "file", "ssh", "mms", "svn",
                                 "git", "dict", "nntp", "irc", "rsync", "smb", "apt"]

  predicate SchemeAt(s: string, i: nat, scheme: string) {
    var w := "[" + scheme + "://";
    i + |w| <= |s| && s[i..i + |w|] == w
  }

  /** `[`, one of the schemes and `://` at `i`. */
  predicate HyperlinkAt(s: string, i: nat) {
    exists k :: 0 <= k < |Schemes| && SchemeAt(s, i, Schemes[k])
  }

  function Hyperlink(): Pattern { (s: string, i: nat) => HyperlinkAt(s, i) }

  /** The element of an external link; it holds a bracket only where its parts do. */
  function ExternalLink(href: string, text: string): (r: string)
    ensures Plain(href) && Plain(text) ==> Plain(r)
  {
    PlainLinkPieces();
    PlainExternalMid();
    LinkOpen + href + ExternalMid + text + LinkClose
  }

  /**
   * The element for a link's text: up to the first space the target and
   * after it the description, or the whole text as both when it has no
   * space.
   */
  function HyperlinkHtml(link: string): (r: string)
    ensures Plain(link) ==> Plain(r)
  {
    match IndexOf(link, ' ', 0)
    case Some(sp) =>
      assert link == link[..sp] + [link[sp]] + link[sp + 1..];
      ExternalLink(link[..sp], link[sp + 1..])
    case None => ExternalLink(link, link)
  }

  /** The edit `replaceHyperlinks` makes for a closed span `t`. */
  function HyperlinkEdit(t: string): (e: Edit)
    ensures e.Replace? && SpanFits(t, e)
  {
    Replace(|t|, HyperlinkHtml(StripBrackets(t)))
  }

  function HyperlinkDecision(): SpanDecision<()> {
    (t: string, u: ()) => (HyperlinkEdit(t), u)
  }

  lemma {:induction false} HyperlinkPass()
    ensures OpensWithBracket(Hyperlink()) && Anchored(Hyperlink())
    ensures Decides(HyperlinkDecision())
    ensures Proper(Hyperlink(), SpanRewriter(HyperlinkDecision()))
  {
    HyperlinkOpens();
    HyperlinkAnchored();
    HyperlinkDecides();
    SpanProper(Hyperlink(), HyperlinkDecision());
  }

  lemma {:induction false} HyperlinkOpens()
    ensures OpensWithBracket(Hyperlink())
  {
    forall s: string, j: nat | Hyperlink()(s, j) ensures j < |s| && s[j] == '[' {
      var k :| 0 <= k < |Schemes| && SchemeAt(s, j, Schemes[k]);
      assert s[j..j + |Schemes[k]| + 4][0] == '[';
    }
  }

  lemma {:induction false} SchemeAtShift(pre: string, s: string, j: nat, scheme: string)
    ensures SchemeAt(pre + s, |pre| + j, scheme) == SchemeAt(s, j, scheme)
  {
    var w := "[" + scheme + "://";
    if j + |w| <= |s| { SliceShift(pre, s, j, |w|); }
  }

  lemma {:induction false} HyperlinkAnchored()
    ensures Anchored(Hyperlink())
  {
    forall pre: string, s: string, j: nat ensures HyperlinkAt(pre + s, At(pre, j)) == HyperlinkAt(s, j) {
      forall k | 0 <= k < |Schemes| ensures SchemeAt(pre + s, |pre| + j, Schemes[k]) == SchemeAt(s, j, Schemes[k]) {
        SchemeAtShift(pre, s, j, Schemes[k]);
      }
    }
  }

  lemma {:induction false} HyperlinkDecides()
    ensures Decides(HyperlinkDecision())
  {
    forall t: string, u: () | Closed(t) ensures SpanFits(t, HyperlinkDecision()(t, u).0) {
      var e := HyperlinkEdit(t);
    }
  }

  /**
   * The pass of `replaceHyperlinks` from `cursor` on; it resumes at the
   * match plus the length of the span it replaced.
   */
  function HyperlinkScan(doc: string, cursor: nat): string {
    HyperlinkPass();
    Pass(doc, cursor, (), Hyperlink(), SpanRewriter(HyperlinkDecision())).0
  }

  /** A link with a description: up to the first space is the target. */
  lemma {:induction false} HyperlinkWithText(href: string, text: string)
    requires ' ' !in href
    ensures HyperlinkHtml(href + " " + text) == ExternalLink(href, text)
  {
    var link := href + " " + text;
    assert link[..|href|] == href;
    IndexOfIs(link, ' ', 0, |href|);
    assert link[|href| + 1..] == text;
  }

  /** A bracket-free link text that starts with a scheme and `://`. */
  predicate IsHyperlinkText(link: string) {
    && Plain(link)
    && exists k :: 0 <= k < |Schemes| && StartsWith(link, Schemes[k] + "://")
  }

  /**
   * A link at the cursor is replaced by its element and the scan goes on
   * in the text after the link.
   */
  lemma {:induction false} HyperlinkScanLink(pre: string, link: string, post: string)
    requires IsHyperlinkText(link)
    ensures var html := HyperlinkHtml(link);
      HyperlinkScan(pre + ("[" + link + "]") + post, |pre|)
      == pre + html + HyperlinkScan(post, Overhang(|link| + 2, |html|))
  {
    HyperlinkPass();
    HyperlinkAtLink(link, post);
    HyperlinkDecisionAt(link);
    SpanReplaceAt(pre, "[" + link + "]", post, (), Hyperlink(), HyperlinkDecision(), HyperlinkHtml(link), ());
  }

  lemma {:induction false} HyperlinkDecisionAt(link: string)
    requires Plain(link)
    ensures HyperlinkDecision()("[" + link + "]", ()) == (Replace(|link| + 2, HyperlinkHtml(link)), ())
    ensures '[' !in HyperlinkHtml(link)
  {
    StripBracketsAround(link);
  }

  /** A link text in brackets is a closed span the pattern matches at its start. */
  lemma {:induction false} HyperlinkAtLink(link: string, post: string)
    requires IsHyperlinkText(link)
    ensures Closed("[" + link + "]") && Hyperlink()(("[" + link + "]") + post, 0)
  {
    var k :| 0 <= k < |Schemes| && StartsWith(link, Schemes[k] + "://");
    PrefixThrough("[", Schemes[k], "://", link, "]", post);
    ClosedAround(link);
  }

  /** With no `]` after the cursor the hyperlink pass changes nothing. */
  lemma {:induction false} HyperlinkUnclosed(doc: string, c: nat)
    requires c <= |doc| && ']' !in doc[c..]
    ensures HyperlinkScan(doc, c) == doc
  {
    HyperlinkPass();
    SpanUnclosed(doc, c, (), Hyperlink(), HyperlinkDecision());
  }

  // ---------------------------------------------------------------------
  // Inyoka wiki links: `[:Seite:]` and `[:Seite:Beschreibung]`

  /**
   * Where internal links point and whether their pages exist: `check`
   * holds when the editor is online and link checking is switched on, and
   * `found` answers the request for a page's meta data.
   */
  datatype WikiSite = WikiSite(url: string, check: bool, found: string -> bool)

  /** The address requested to learn whether the page at `url` exists. */
  function PageProbe(url: string): string { url + "/a/export/meta/" }

  /** A checked page is missing when the request for its meta data fails. */
  predicate Probe(site: WikiSite, url: string) { !site.found(PageProbe(url)) }

  predicate WikiLinkChar(c: char) { IsDigit(c) || IsLetter(c) || c == ':' || c == '.' }

  /** `[:` and a letter, digit, `:` or `.` at `i`. */
  predicate WikiLinkAt(s: string, i: nat) {
    i + 3 <= |s| && s[i] == '[' && s[i + 1] == ':' && WikiLinkChar(s[i + 2])
  }

  function WikiLink(): Pattern { (s: string, i: nat) => WikiLinkAt(s, i) }

  /** An internal link; `missing` adds the class of a page that does not exist. */
  function InternalLink(url: string, missing: bool, text: string): (r: string)
    ensures ']' !in url && ']' !in text ==> ']' !in r
    ensures Plain(url) && Plain(text) ==> Plain(r)
  {
    PlainLinkPieces();
    PlainInternalPieces();
    LinkOpen + url + InternalMid + (if missing then MissingClass else "") + TagEnd + text + LinkClose
  }

  /**
   * A link without description, `page` being its text with `[:` and `:]`
   * removed; underscores are shown as spaces. The class is reset before
   * the check, so a link that is not checked is never missing.
   */
  function WikiBare(page: string, site: WikiSite): (r: (string, bool))
    ensures ']' !in page && ']' !in site.url ==> ']' !in r.0
    ensures r.1 <==> site.check && Probe(site, site.url + "/" + page)
  {
    var url := site.url + "/" + page;
    var missing := site.check && Probe(site, url);
    MapCharFree(page, '_', " ", ']');
    (InternalLink(url, missing, MapChar(page, '_', " ")), missing)
  }

  /** A titled link's text cut at its first `:`, or the whole text twice without one. */
  function TitleSplit(page: string): (r: (string, string))
    ensures ']' !in page ==> ']' !in r.0 && ']' !in r.1
    ensures ':' !in r.0
  {
    match IndexOf(page, ':', 0)
    case None => (page, page)
    case Some(k) =>
      assert page == page[..k] + [page[k]] + page[k + 1..];
      (page[..k], page[k + 1..])
  }

  /**
   * A link with description, `page` being its text with `[:` and every
   * `]` removed: up to the first `:` the page, after it the description,
   * trimmed. A link that is not checked keeps the class of the link
   * before it.
   */
  function WikiTitled(page: string, site: WikiSite, missing: bool): (r: (string, bool))
    ensures ']' !in page && ']' !in site.url ==> ']' !in r.0
    ensures site.check ==> (r.1 <==> Probe(site, site.url + "/" + TitleSplit(page).0))
    ensures !site.check ==> r.1 == missing
  {
    var parts := TitleSplit(page);
    var url := site.url + "/" + parts.0;
    var m := if site.check then Probe(site, url) else missing;
    TrimmedFree(parts.1, ']');
    (InternalLink(url, m, Trimmed(parts.1)), m)
  }

  /** Removing `[:` keeps a closed span's only `]` at its end. */
  lemma {:induction false} WikiSpanText(t: string)
    requires Closed(t)
    ensures var l := RemoveAll(t, "[:");
      |l| > 0 && l[|l| - 1] == ']' && ']' !in l[..|l| - 1]
  {
    var x := t[..|t| - 1];
    assert t == x + [']'];
    ReplaceAllAppendChar(x, ']', "[:", "");
    ReplaceAllFree(x, "[:", "", ']');
    var l := RemoveAll(t, "[:");
    assert l[..|l| - 1] == RemoveAll(x, "[:");
  }

  /** The page of a link without description holds no `]`. */
  lemma {:induction false} WikiBarePage(t: string)
    ensures Closed(t) && EndsWith(RemoveAll(t, "[:"), ":]") ==> ']' !in RemoveAll(RemoveAll(t, "[:"), ":]")
  {
    var l := RemoveAll(t, "[:");
    if Closed(t) && EndsWith(l, ":]") {
      WikiSpanText(t);
      var y := l[..|l| - 2];
      assert l == y + ":]";
      assert y == l[..|l| - 1][..|l| - 2];
      ReplaceAllTail(y, ":]", "");
    }
  }

  /**
   * What `replaceInyokaWikiLinks` makes of the span `t`: a span with fewer
   * than two colons is left as it is, the others become internal links.
   * `missing` is the class carried over from the link before.
   */
  function WikiEdit(t: string, site: WikiSite, missing: bool): (r: (Edit, bool))
    ensures r.0.Keep? <==> Count(t, ':') < 2
    ensures r.0.Keep? ==> r.1 == missing
    ensures Closed(t) && ']' !in site.url ==> SpanFits(t, r.0)
  {
    if Count(t, ':') < 2 then (Keep(|t|), missing)
    else
      var l := RemoveAll(t, "[:");
      if EndsWith(l, ":]") then
        WikiBarePage(t);
        var b := WikiBare(RemoveAll(l, ":]"), site);
        (Replace(|t|, b.0), b.1)
      else
        var w := WikiTitled(RemoveChar(l, ']'), site, missing);
        (Replace(|t|, w.0), w.1)
  }

  function WikiDecision(site: WikiSite): SpanDecision<bool> {
    (t: string, missing: bool) => WikiEdit(t, site, missing)
  }

  lemma {:induction false} WikiPass(site: WikiSite)
    requires ']' !in site.url
    ensures OpensWithBracket(WikiLink()) && Anchored(WikiLink())
    ensures Decides(WikiDecision(site))
    ensures Proper(WikiLink(), SpanRewriter(WikiDecision(site)))
  {
    WikiOpens();
    WikiAnchored();
    WikiDecides(site);
    SpanProper(WikiLink(), WikiDecision(site));
  }

  lemma {:induction false} WikiOpens()
    ensures OpensWithBracket(WikiLink())
  {
  }

  lemma {:induction false} WikiAnchored()
    ensures Anchored(WikiLink())
  {
    forall pre: string, s: string, j: nat ensures WikiLinkAt(pre + s, At(pre, j)) == WikiLinkAt(s, j) {
      if j + 3 <= |s| {
        assert (pre + s)[|pre| + j..|pre| + j + 3] == s[j..j + 3];
      }
    }
  }

  lemma {:induction false} WikiDecides(site: WikiSite)
    requires ']' !in site.url
    ensures Decides(WikiDecision(site))
  {
    forall t: string, m: bool | Closed(t) ensures SpanFits(t, WikiDecision(site)(t, m).0) {
      var e := WikiEdit(t, site, m);
    }
  }

  /**
   * The pass of `replaceInyokaWikiLinks` from `cursor` on, starting with
   * the class `missing`; it yields the text and the class it ends with.
   */
  function WikiScan(doc: string, cursor: nat, site: WikiSite, missing: bool): (string, bool)
    requires ']' !in site.url
  {
    WikiPass(site);
    Pass(doc, cursor, missing, WikiLink(), SpanRewriter(WikiDecision(site)))
  }

  /**
   * Without the existence check no link is newly marked missing: the
   * class after the pass is the missing class only if it was so before.
   */
  lemma {:induction false} WikiScanUnchecked(doc: string, cursor: nat, site: WikiSite, missing: bool)
    requires ']' !in site.url && !site.check
    ensures WikiScan(doc, cursor, site, missing).1 ==> missing
  {
    var p, f := WikiLink(), SpanRewriter(WikiDecision(site));
    var inv := (m: bool) => m ==> missing;
    WikiPass(site);
    forall s: string, i: nat, x: bool | p(s, i) && inv(x) ensures inv(f(s, i, x).1) {
      match ClosedSpan(s, i)
      case None =>
      case Some(t) =>
        assert f(s, i, x) == WikiEdit(t, site, x);
    }
    PassKeeps(doc, cursor, missing, p, f, inv);
  }

  /** Removing `[:` from a text that starts with it and holds no other `[`. */
  lemma {:induction false} WikiOpenRemoved(rest: string)
    requires '[' !in rest
    ensures RemoveAll("[:" + rest, "[:") == rest
    ensures Count("[:" + rest, ':') == Count(rest, ':') + 1
  {
    var t := "[:" + rest;
    assert t[..2] == "[:" && t[2..] == rest;
    ReplaceAllNoStart(rest, "[:", "");
    CountAppend("[:", rest, ':');
  }

  lemma {:induction false} WikiEditBare(t: string, site: WikiSite, missing: bool, page: string)
    requires Count(t, ':') >= 2
    requires EndsWith(RemoveAll(t, "[:"), ":]") && RemoveAll(RemoveAll(t, "[:"), ":]") == page
    ensures WikiEdit(t, site, missing) == (Replace(|t|, WikiBare(page, site).0), WikiBare(page, site).1)
  {
  }

  lemma {:induction false} WikiEditTitled(t: string, site: WikiSite, missing: bool, page: string)
    requires Count(t, ':') >= 2
    requires !EndsWith(RemoveAll(t, "[:"), ":]") && RemoveChar(RemoveAll(t, "[:"), ']') == page
    ensures WikiEdit(t, site, missing)
      == (Replace(|t|, WikiTitled(page, site, missing).0), WikiTitled(page, site, missing).1)
  {
  }

  /** `[:Seite:]`: a link to the page, named by the page with spaces for underscores. */
  lemma {:induction false} WikiBareLink(page: string, site: WikiSite, missing: bool)
    requires Plain(page)
    ensures var t := "[:" + page + ":]";
      var m := site.check && Probe(site, site.url + "/" + page);
      WikiEdit(t, site, missing) == (Replace(|t|, InternalLink(site.url + "/" + page, m, MapChar(page, '_', " "))), m)
  {
    var rest := page + ":]";
    CountAppend(page, ":]", ':');
    WikiOpenRemoved(rest);
    ReplaceAllTail(page, ":]", "");
    WikiEditBare("[:" + rest, site, missing, page);
    Regroup3("[:", page, ":]");
  }

  /**
   * `[:Seite:Beschreibung]`: a link to the page up to the first colon,
   * described by the rest, trimmed.
   */
  lemma {:induction false} WikiTitledLink(page: string, text: string, site: WikiSite, missing: bool)
    requires Plain(page) && ':' !in page && Plain(text)
    requires text != [] && text[|text| - 1] != ':'
    ensures var t := "[:" + page + ":" + text + "]";
      var m := if site.check then Probe(site, site.url + "/" + page) else missing;
      WikiEdit(t, site, missing) == (Replace(|t|, InternalLink(site.url + "/" + page, m, Trimmed(text))), m)
  {
    var rest := page + ":" + text + "]";
    TitledRest(page, text);
    TitleSplitAt(page, text);
    WikiTitledRest(rest, page + ":" + text, page, text, site, missing);
    Regroup5("[:", page, ":", text, "]");
  }


  lemma {:induction false} WikiTitledRest(rest: string, body: string, page: string, text: string,
                                          site: WikiSite, missing: bool)
    requires '[' !in rest && Count(rest, ':') >= 1 && !EndsWith(rest, ":]")
    requires RemoveChar(rest, ']') == body && TitleSplit(body) == (page, text)
    ensures var m := if site.check then Probe(site, site.url + "/" + page) else missing;
      WikiEdit("[:" + rest, site, missing)
      == (Replace(|"[:" + rest|, InternalLink(site.url + "/" + page, m, Trimmed(text))), m)
  {
    WikiOpenRemoved(rest);
    WikiEditTitled("[:" + rest, site, missing, body);
  }

  lemma {:induction false} TitledRest(page: string, text: string)
    requires Plain(page) && ':' !in page && Plain(text)
    requires text != [] && text[|text| - 1] != ':'
    ensures var rest := page + ":" + text + "]";
      '[' !in rest && Count(rest, ':') >= 1 && !EndsWith(rest, ":]")
      && RemoveChar(rest, ']') == page + ":" + text
  {
    var body := page + ":" + text;
    var rest := body + "]";
    CountAppend(body, "]", ':');
    CountAppend(page + ":", text, ':');
    CountAppend(page, ":", ':');
    assert !EndsWith(rest, ":]") by {
      assert rest[|rest| - 2] == text[|text| - 1];
    }
    RemoveCharAppend(body, "]", ']');
    RemoveCharAbsent(body, ']');
    assert RemoveChar("]", ']') == [];
  }

  /** A text whose first colon follows `page` splits there. */
  lemma {:induction false} TitleSplitAt(page: string, text: string)
    requires ':' !in page
    ensures TitleSplit(page + ":" + text) == (page, text)
  {
    var body := page + ":" + text;
    assert body[0..|page|] == page;
    IndexOfIs(body, ':', 0, |page|);
    assert body[..|page|] == page && body[|page| + 1..] == text;
  }

  /** A link in `[:` ... `]` whose text starts as the pattern asks is a closed span it matches. */
  lemma {:induction false} WikiAt(rest: string, post: string)
    requires |rest| >= 2 && rest[|rest| - 1] == ']' && ']' !in rest[..|rest| - 1]
    requires WikiLinkChar(rest[0])
    ensures Closed("[:" + rest) && WikiLink()(("[:" + rest) + post, 0)
  {
    var t := "[:" + rest;
    assert t[..|t| - 1] == "[:" + rest[..|rest| - 1];
    assert (t + post)[2] == rest[0];
  }

  /** The element of a bracket-free link to a bracket-free address holds no bracket. */
  lemma {:induction false} InternalLinkPlain(site: WikiSite, page: string, m: bool, text: string)
    requires Plain(site.url) && Plain(page) && Plain(text)
    ensures Plain(InternalLink(site.url + "/" + page, m, text))
  {
  }

  /**
   * A link without description at the cursor becomes its element; the
   * scan goes on in the text after it with the class this link set.
   */
  lemma {:induction false} WikiScanBare(pre: string, page: string, post: string, site: WikiSite, missing: bool)
    requires Plain(site.url) && Plain(page)
    requires page == [] || WikiLinkChar(page[0])
    ensures var t := "[:" + page + ":]";
      var m := site.check && Probe(site, site.url + "/" + page);
      var html := InternalLink(site.url + "/" + page, m, MapChar(page, '_', " "));
      var rest := WikiScan(post, Overhang(|t|, |html|), site, m);
      WikiScan(pre + t + post, |pre|, site, missing) == (pre + html + rest.0, rest.1)
  {
    var t := "[:" + page + ":]";
    var m := site.check && Probe(site, site.url + "/" + page);
    var html := InternalLink(site.url + "/" + page, m, MapChar(page, '_', " "));
    Regroup3("[:", page, ":]");
    assert (page + ":]")[..|page| + 1] == page + ":";
    WikiAt(page + ":]", post);
    WikiPass(site);
    WikiBareLink(page, site, missing);
    MapCharFree(page, '_', " ", '[');
    MapCharFree(page, '_', " ", ']');
    InternalLinkPlain(site, page, m, MapChar(page, '_', " "));
    SpanReplaceAt(pre, t, post, missing, WikiLink(), WikiDecision(site), html, m);
  }

  /**
   * A link with description at the cursor becomes its element; the scan
   * goes on in the text after it with the class this link set.
   */
  lemma {:induction false} WikiScanTitled(pre: string, page: string, text: string, post: string,
                                          site: WikiSite, missing: bool)
    requires Plain(site.url) && Plain(page) && ':' !in page && Plain(text)
    requires text != [] && text[|text| - 1] != ':'
    requires WikiLinkChar((page + ":")[0])
    ensures var t := "[:" + page + ":" + text + "]";
      var m := if site.check then Probe(site, site.url + "/" + page) else missing;
      var html := InternalLink(site.url + "/" + page, m, Trimmed(text));
      var rest := WikiScan(post, Overhang(|t|, |html|), site, m);
      WikiScan(pre + t + post, |pre|, site, missing) == (pre + html + rest.0, rest.1)
  {
    var rest := page + ":" + text + "]";
    var t := "[:" + page + ":" + text + "]";
    var m := if site.check then Probe(site, site.url + "/" + page) else missing;
    var html := InternalLink(site.url + "/" + page, m, Trimmed(text));
    Regroup5("[:", page, ":", text, "]");
    assert rest[..|rest| - 1] == page + ":" + text;
    assert rest[0] == (page + ":")[0];
    WikiAt(rest, post);
    WikiPass(site);
    WikiTitledLink(page, text, site, missing);
    TrimmedFree(text, '[');
    TrimmedFree(text, ']');
    InternalLinkPlain(site, page, m, Trimmed(text));
    SpanReplaceAt(pre, t, post, missing, WikiLink(), WikiDecision(site), html, m);
  }

  /** A span with a single colon is left as it is, and so is the class. */
  lemma {:induction false} WikiScanKeep(pre: string, name: string, post: string, site: WikiSite, missing: bool)
    requires Plain(site.url) && Plain(name) && ':' !in name
    requires name != [] && WikiLinkChar(name[0])
    ensures var t := "[:" + name + "]";
      var rest := WikiScan(post, 0, site, missing);
      WikiScan(pre + t + post, |pre|, site, missing) == (pre + t + rest.0, rest.1)
  {
    var t := "[:" + name + "]";
    Regroup3("[:", name, "]");
    assert (name + "]")[..|name|] == name;
    WikiAt(name + "]", post);
    WikiPass(site);
    CountAppend("[:", name + "]", ':');
    CountAppend(name, "]", ':');
    CountAbsent(name, ':');
    var e := WikiEdit(t, site, missing);
    SpanKeepAt(pre, t, post, missing, WikiLink(), WikiDecision(site), missing);
  }

  /** With no `]` after the cursor the wiki link pass changes nothing. */
  lemma {:induction false} WikiUnclosed(doc: string, c: nat, site: WikiSite, missing: bool)
    requires ']' !in site.url
    requires c <= |doc| && ']' !in doc[c..]
    ensures WikiScan(doc, c, site, missing) == (doc, missing)
  {
    WikiPass(site);
    SpanUnclosed(doc, c, missing, WikiLink(), WikiDecision(site));
  }

  // ---------------------------------------------------------------------
  // Interwiki links: `[wikipedia:Seite:Beschreibung]`

  const UserKey := "user"
  const IkhayaKey := "ikhaya"
  const UserClass := "crosslink user"
  const IkhayaClass := "crosslink ikhaya"
  const InterwikiClassPrefix := "interwiki interwiki-"
  /** The placeholder for the page in an address template, found ignoring case. */
  const PagePlaceholder := "$Page"

  lemma {:induction false} PlainInterwikiClasses()
    ensures Plain(UserClass) && Plain(IkhayaClass)
  { }

  lemma {:induction false} PlainInterwikiPrefix() ensures Plain(InterwikiClassPrefix) { }

  /**
   * A key the pattern `\[\b(key|...)\b:` can match: word boundaries on
   * both sides ask for a word character at each end. Keys are taken as
   * literal text.
   */
  predicate IsKey(key: string) {
    |key| > 0 && IsWordChar(key[0]) && IsWordChar(key[|key| - 1])
  }

  predicate KeyAt(s: string, i: nat, key: string) {
    var w := "[" + key + ":";
    IsKey(key) && i + |w| <= |s| && s[i..i + |w|] == w
  }

  /** `[`, one of the keys and `:` at `i`. */
  predicate InterwikiAt(keys: seq<string>, s: string, i: nat) {
    exists k :: 0 <= k < |keys| && KeyAt(s, i, keys[k])
  }

  function InterwikiLink(keys: seq<string>): Pattern {
    (s: string, i: nat) => InterwikiAt(keys, s, i)
  }

  /** QStringList::indexOf: the first position of `key`. */
  function KeyIndex(keys: seq<string>, key: string, from: nat): (r: Option<nat>)
    ensures r.Some? ==>
      from <= r.value < |keys| && keys[r.value] == key && forall j :: from <= j < r.value ==> keys[j] != key
    ensures r.None? ==> forall j :: from <= j < |keys| ==> keys[j] != key
    decreases |keys| - from
  {
    if from >= |keys| then None
    else if keys[from] == key then Some(from)
    else KeyIndex(keys, key, from + 1)
  }

  /** The class of the link: users and Ikhaya articles are cross links. */
  function InterwikiClass(key: string): (r: string)
    ensures Plain(key) ==> Plain(r)
  {
    PlainInterwikiClasses();
    PlainInterwikiPrefix();
    if key == UserKey then UserClass
    else if key == IkhayaKey then IkhayaClass
    else InterwikiClassPrefix + key
  }

  /**
   * The address of a page: every placeholder in the template replaced by
   * the page, or the page appended when the template has none.
   */
  function InterwikiUrl(template: string, page: string): (r: string)
    ensures ']' !in template && ']' !in page ==> ']' !in r
    ensures '[' !in template && '[' !in page ==> '[' !in r
  {
    if ContainsIgnoreCase(template, PagePlaceholder) then
      ReplaceAllIgnoreCaseFree(template, PagePlaceholder, page, ']');
      ReplaceAllIgnoreCaseFree(template, PagePlaceholder, page, '[');
      ReplaceAllIgnoreCase(template, PagePlaceholder, page)
    else template + page
  }

  /**
   * The description: the pieces from the third on, joined by colons again,
   * or the page when the third piece is empty.
   */
  function Description(parts: seq<string>): (r: string)
    requires |parts| >= 3
    ensures (forall k :: 0 <= k < |parts| ==> ']' !in parts[k]) ==> ']' !in r
    ensures (forall k :: 0 <= k < |parts| ==> '[' !in parts[k]) ==> '[' !in r
  {
    JoinFree(parts[2..], ':', ']');
    JoinFree(parts[2..], ':', '[');
    if parts[2] != [] then Join(parts[2..], ':') else parts[1]
  }

  /** The element of an interwiki link. */
  function InterwikiHtml(url: string, style: string, text: string): (r: string)
    ensures ']' !in url && ']' !in style && ']' !in text ==> ']' !in r
    ensures Plain(url) && Plain(style) && Plain(text) ==> Plain(r)
  {
    PlainLinkPieces();
    PlainInternalPieces();
    LinkOpen + url + ClassMid + style + TagEnd + text + LinkClose
  }

  /** The element for the pieces of a link's text, when its key is configured. */
  function InterwikiOf(parts: seq<string>, keys: seq<string>, links: seq<string>): (r: Option<string>)
    requires |parts| >= 3 && |links| >= |keys|
    ensures r.Some? <==> parts[0] in keys
    ensures r.Some? ==>
      (forall k :: 0 <= k < |parts| ==> ']' !in parts[k]) ==>
      (forall k :: 0 <= k < |links| ==> ']' !in links[k]) ==>
      ']' !in r.value
  {
    match KeyIndex(keys, parts[0], 0)
    case None => None
    case Some(k) =>
      assert ']' !in parts[0] && ']' !in parts[1] ==> ']' !in InterwikiClass(parts[0]) by {
        if ']' !in parts[0] && ']' !in parts[1] && ']' in InterwikiClass(parts[0]) {
          assert InterwikiClass(parts[0]) == InterwikiClassPrefix + parts[0];
          PlainInterwikiPrefix();
        }
      }
      Some(InterwikiHtml(InterwikiUrl(links[k], parts[1]), InterwikiClass(parts[0]), Description(parts)))
  }

  /**
   * What `replaceInterwikiLinks` makes of the span `t`: a span with at
   * least two colons is split at its colons once its brackets are gone
   * and becomes a link to the configured site. When the first piece is
   * not a configured key, which happens for a key holding `:` or a
   * bracket, the source indexes the URL list at -1; the model keeps the
   * span.
   */
  function InterwikiEdit(t: string, keys: seq<string>, links: seq<string>): (e: Edit)
    requires |links| >= |keys|
    ensures e.Replace? ==> Count(t, ':') >= 2
    ensures Closed(t) && (forall k :: 0 <= k < |links| ==> ']' !in links[k]) ==> SpanFits(t, e)
  {
    if Count(t, ':') < 2 then Keep(|t|)
    else
      var parts := Split(StripBrackets(t), ':');
      SplitFree(StripBrackets(t), ':', ']');
      if |parts| < 3 then Keep(|t|)
      else match InterwikiOf(parts, keys, links)
        case None => Keep(|t|)
        case Some(html) => Replace(|t|, html)
  }

  function InterwikiDecision(keys: seq<string>, links: seq<string>): SpanDecision<()>
    requires |links| >= |keys|
  {
    (t: string, u: ()) => (InterwikiEdit(t, keys, links), u)
  }

  /** Address templates without `]`, one for each key. */
  predicate Templates(keys: seq<string>, links: seq<string>) {
    |links| >= |keys| && forall k :: 0 <= k < |links| ==> ']' !in links[k]
  }

  lemma {:induction false} InterwikiPass(keys: seq<string>, links: seq<string>)
    requires Templates(keys, links)
    ensures OpensWithBracket(InterwikiLink(keys)) && Anchored(InterwikiLink(keys))
    ensures Decides(InterwikiDecision(keys, links))
    ensures Proper(InterwikiLink(keys), SpanRewriter(InterwikiDecision(keys, links)))
  {
    InterwikiOpens(keys);
    InterwikiAnchored(keys);
    InterwikiDecides(keys, links);
    SpanProper(InterwikiLink(keys), InterwikiDecision(keys, links));
  }

  lemma {:induction false} InterwikiOpens(keys: seq<string>)
    ensures OpensWithBracket(InterwikiLink(keys))
  {
    forall s: string, j: nat | InterwikiLink(keys)(s, j) ensures j < |s| && s[j] == '[' {
      var k :| 0 <= k < |keys| && KeyAt(s, j, keys[k]);
      assert s[j..j + |keys[k]| + 2][0] == '[';
    }
  }

  lemma {:induction false} KeyAtShift(pre: string, s: string, j: nat, key: string)
    ensures KeyAt(pre + s, |pre| + j, key) == KeyAt(s, j, key)
  {
    var w := "[" + key + ":";
    if j + |w| <= |s| { SliceShift(pre, s, j, |w|); }
  }

  lemma {:induction false} InterwikiAnchored(keys: seq<string>)
    ensures Anchored(InterwikiLink(keys))
  {
    forall pre: string, s: string, j: nat ensures InterwikiAt(keys, pre + s, At(pre, j)) == InterwikiAt(keys, s, j) {
      forall k | 0 <= k < |keys| ensures KeyAt(pre + s, |pre| + j, keys[k]) == KeyAt(s, j, keys[k]) {
        KeyAtShift(pre, s, j, keys[k]);
      }
    }
  }

  lemma {:induction false} InterwikiDecides(keys: seq<string>, links: seq<string>)
    requires Templates(keys, links)
    ensures Decides(InterwikiDecision(keys, links))
  {
    forall t: string, u: () | Closed(t) ensures SpanFits(t, InterwikiDecision(keys, links)(t, u).0) {
      var e := InterwikiEdit(t, keys, links);
    }
  }

  /** The pass of `replaceInterwikiLinks` from `cursor` on. */
  function InterwikiScan(doc: string, cursor: nat, keys: seq<string>, links: seq<string>): string
    requires Templates(keys, links)
  {
    InterwikiPass(keys, links);
    Pass(doc, cursor, (), InterwikiLink(keys), SpanRewriter(InterwikiDecision(keys, links))).0
  }

  /** A key made of word characters only, as the configured keys are. */
  predicate IsWord(s: string) {
    |s| > 0 && forall k :: 0 <= k < |s| ==> IsWordChar(s[k])
  }

  lemma {:induction false} WordPlain(s: string)
    requires IsWord(s)
    ensures Plain(s) && ':' !in s && IsKey(s)
  {
    forall k | 0 <= k < |s| ensures s[k] != '[' && s[k] != ']' && s[k] != ':' { assert IsWordChar(s[k]); }
  }

  /** The edit for a span whose pieces name a configured key. */
  lemma {:induction false} InterwikiEditAt(t: string, keys: seq<string>, links: seq<string>, parts: seq<string>, k: nat)
    requires |links| >= |keys| && Count(t, ':') >= 2
    requires Split(StripBrackets(t), ':') == parts && |parts| >= 3
    requires KeyIndex(keys, parts[0], 0) == Some(k)
    ensures InterwikiEdit(t, keys, links)
      == Replace(|t|, InterwikiHtml(InterwikiUrl(links[k], parts[1]), InterwikiClass(parts[0]), Description(parts)))
  {
  }

  /** The pieces of `key:page:text`: the key, the page, and the pieces of the text. */
  lemma {:induction false} InterwikiParts(key: string, page: string, text: string)
    requires Plain(key) && ':' !in key && Plain(page) && ':' !in page && Plain(text)
    ensures var link := key + ":" + page + ":" + text;
      StripBrackets("[" + link + "]") == link
      && Split(link, ':') == [key, page] + Split(text, ':')
      && Count("[" + link + "]", ':') >= 2
  {
    var link := key + ":" + page + ":" + text;
    assert StripBrackets("[" + link + "]") == link by {
      assert Plain(link);
      StripBracketsAround(link);
    }
    assert Split(link, ':') == [key, page] + Split(text, ':') by {
      assert link == key + [':'] + (page + [':'] + text);
      SplitAfterPrefix(key, page + [':'] + text, ':');
      SplitAfterPrefix(page, text, ':');
    }
    InterwikiColons(key, page, text);
  }

  /** `[key:page:text]` holds at least the two colons after the key and the page. */
  lemma {:induction false} InterwikiColons(key: string, page: string, text: string)
    ensures Count("[" + (key + ":" + page + ":" + text) + "]", ':') >= 2
  {
    var link := key + ":" + page + ":" + text;
    CountAppend("[" + link, "]", ':');
    CountAppend("[", link, ':');
    CountAppend(key + ":" + page + ":", text, ':');
    CountAppend(key + ":" + page, ":", ':');
    CountAppend(key + ":", page, ':');
    CountAppend(key, ":", ':');
  }

  /** The description is the text, or the page when the text is empty or starts with a colon. */
  lemma {:induction false} DescriptionOf(key: string, page: string, text: string)
    ensures Description([key, page] + Split(text, ':'))
      == if text == [] || text[0] == ':' then page else text
  {
    var parts := [key, page] + Split(text, ':');
    assert parts[2..] == Split(text, ':');
    SplitFirstEmpty(text, ':');
    SplitJoin(text, ':');
  }

  /**
   * `[key:Seite:Beschreibung]` with a configured key: a link to the
   * page's address on that site, with the class for the key, described
   * by the text (colons in it included) or, when that is empty or starts
   * with a colon, by the page.
   */
  lemma {:induction false} InterwikiLinkText(keys: seq<string>, links: seq<string>, key: string, k: nat,
                                             page: string, text: string)
    requires |links| >= |keys| && IsWord(key) && KeyIndex(keys, key, 0) == Some(k)
    requires Plain(page) && ':' !in page && Plain(text)
    ensures var t := "[" + key + ":" + page + ":" + text + "]";
      var description := if text == [] || text[0] == ':' then page else text;
      InterwikiEdit(t, keys, links)
      == Replace(|t|, InterwikiHtml(InterwikiUrl(links[k], page), InterwikiClass(key), description))
  {
    WordPlain(key);
    var link := key + ":" + page + ":" + text;
    InterwikiParts(key, page, text);
    DescriptionOf(key, page, text);
    InterwikiEditAt("[" + link + "]", keys, links, [key, page] + Split(text, ':'), k);
    Regroup7("[", key, ":", page, ":", text, "]");
  }

  /** A configured key written in brackets before a bracket-free rest is a closed span the pattern matches. */
  lemma {:induction false} InterwikiAtLink(keys: seq<string>, k: nat, link: string, post: string)
    requires 0 <= k < |keys| && IsKey(keys[k]) && Plain(link) && StartsWith(link, keys[k] + ":")
    ensures Closed("[" + link + "]") && InterwikiLink(keys)(("[" + link + "]") + post, 0)
  {
    PrefixThrough("[", keys[k], ":", link, "]", post);
    ClosedAround(link);
    assert KeyAt(("[" + link + "]") + post, 0, keys[k]);
  }

  /**
   * A link at the cursor is replaced by its element and the scan goes on
   * in the text after the link.
   */
  lemma {:induction false} InterwikiScanLink(pre: string, keys: seq<string>, links: seq<string>, key: string, k: nat,
                                             page: string, text: string, post: string)
    requires Templates(keys, links) && IsWord(key) && KeyIndex(keys, key, 0) == Some(k)
    requires Plain(links[k])
    requires Plain(page) && ':' !in page && Plain(text)
    ensures var t := "[" + key + ":" + page + ":" + text + "]";
      var description := if text == [] || text[0] == ':' then page else text;
      var html := InterwikiHtml(InterwikiUrl(links[k], page), InterwikiClass(key), description);
      InterwikiScan(pre + t + post, |pre|, keys, links)
      == pre + html + InterwikiScan(post, Overhang(|t|, |html|), keys, links)
  {
    WordPlain(key);
    var link := key + ":" + page + ":" + text;
    var t := "[" + key + ":" + page + ":" + text + "]";
    var description := if text == [] || text[0] == ':' then page else text;
    var html := InterwikiHtml(InterwikiUrl(links[k], page), InterwikiClass(key), description);
    Regroup7("[", key, ":", page, ":", text, "]");
    assert Plain(link);
    assert link == (key + ":") + (page + ":" + text);
    InterwikiAtLink(keys, k, link, post);
    InterwikiPass(keys, links);
    InterwikiLinkText(keys, links, key, k, page, text);
    SpanReplaceAt(pre, t, post, (), InterwikiLink(keys), InterwikiDecision(keys, links), html, ());
  }

  /** A span with a single colon has one colon. */
  lemma {:induction false} OneColon(key: string, page: string)
    requires ':' !in key && ':' !in page
    ensures Count("[" + key + ":" + page + "]", ':') == 1
  {
    CountAppend("[" + key + ":" + page, "]", ':');
    CountAppend("[" + key + ":", page, ':');
    CountAppend("[" + key, ":", ':');
    CountAppend("[", key, ':');
    CountAbsent(key, ':');
    CountAbsent(page, ':');
    CountAbsent("[", ':');
    CountAbsent("]", ':');
  }

  /** A span with fewer than two colons is kept. */
  lemma {:induction false} InterwikiFewColons(t: string, keys: seq<string>, links: seq<string>)
    requires |links| >= |keys| && Count(t, ':') < 2
    ensures InterwikiEdit(t, keys, links) == Keep(|t|)
  {
  }

  /** A span with a single colon is left as it is. */
  lemma {:induction false} InterwikiScanKeep(pre: string, keys: seq<string>, links: seq<string>, k: nat,
                                             page: string, post: string)
    requires Templates(keys, links) && 0 <= k < |keys| && IsWord(keys[k])
    requires Plain(page) && ':' !in page
    ensures var t := "[" + keys[k] + ":" + page + "]";
      InterwikiScan(pre + t + post, |pre|, keys, links) == pre + t + InterwikiScan(post, 0, keys, links)
  {
    var key := keys[k];
    WordPlain(key);
    var link := key + ":" + page;
    var t := "[" + key + ":" + page + "]";
    Regroup5("[", key, ":", page, "]");
    assert Plain(link);
    assert link == (key + ":") + page;
    InterwikiAtLink(keys, k, link, post);
    OneColon(key, page);
    InterwikiKeepAt(pre, t, post, keys, links);
  }

  /** A matched span with fewer than two colons at the cursor is kept whole. */
  lemma {:induction false} InterwikiKeepAt(pre: string, t: string, post: string, keys: seq<string>, links: seq<string>)
    requires Templates(keys, links) && Closed(t) && InterwikiLink(keys)(t + post, 0) && Count(t, ':') < 2
    ensures InterwikiScan(pre + t + post, |pre|, keys, links) == pre + t + InterwikiScan(post, 0, keys, links)
  {
    InterwikiPass(keys, links);
    InterwikiFewColons(t, keys, links);
    SpanKeepAt(pre, t, post, (), InterwikiLink(keys), InterwikiDecision(keys, links), ());
  }

  /** With no `]` after the cursor the interwiki pass changes nothing. */
  lemma {:induction false} InterwikiUnclosed(doc: string, c: nat, keys: seq<string>, links: seq<string>)
    requires Templates(keys, links)
    requires c <= |doc| && ']' !in doc[c..]
    ensures InterwikiScan(doc, c, keys, links) == doc
  {
    InterwikiPass(keys, links);
    SpanUnclosed(doc, c, (), InterwikiLink(keys), InterwikiDecision(keys, links));
  }

  /** The brackets removed from a span that opens with bracket-free text. */
  lemma {:induction false} StripOpening(w: string, rest: string)
    requires Plain(w)
    ensures StripBrackets("[" + w + rest) == w + StripBrackets(rest)
  {
    var r := RemoveChar(rest, '[');
    RemoveCharAppend("[" + w, rest, '[');
    RemoveCharAppend("[", w, '[');
    assert RemoveChar("[", '[') == [];
    RemoveCharAbsent(w, '[');
    assert RemoveChar("[" + w, '[') == w;
    assert RemoveChar("[" + w + rest, '[') == w + r;
    RemoveCharAppend(w, r, ']');
    RemoveCharAbsent(w, ']');
  }

  /** The brackets removed from a span that opens with a key. */
  lemma {:induction false} StripKeyed(key: string, rest: string)
    requires Plain(key)
    ensures StripBrackets("[" + key + ":" + rest) == key + ":" + StripBrackets(rest)
  {
    Regroup3("[", key + ":", rest);
    assert "[" + key + ":" + rest == "[" + (key + ":") + rest;
    StripOpening(key + ":", rest);
  }

  /**
   * With keys made of word characters, every matched span with at least
   * two colons is replaced: its first piece is the matched key, which is
   * configured, and it has at least three pieces.
   */
  lemma {:induction false} InterwikiMatchReplaces(t: string, post: string, keys: seq<string>, links: seq<string>)
    requires |links| >= |keys| && forall k :: 0 <= k < |keys| ==> IsWord(keys[k])
    requires Closed(t) && InterwikiLink(keys)(t + post, 0)
    ensures InterwikiEdit(t, keys, links).Replace? <==> Count(t, ':') >= 2
  {
    if Count(t, ':') >= 2 {
      var k :| 0 <= k < |keys| && KeyAt(t + post, 0, keys[k]);
      var key := keys[k];
      WordPlain(key);
      var w := "[" + key + ":";
      assert (t + post)[..|w|] == w;
      assert ']' !in w;
      var i := |t| - 1;
      assert (t + post)[i] == ']';
      assert forall j :: 0 <= j < |w| ==> w[j] == (t + post)[j];
      assert |w| <= |t|;
      var rest := t[|w|..];
      assert t == w + rest by { assert t[..|w|] == (t + post)[..|w|]; }
      StripKeyed(key, rest);
      SplitAfterPrefix(key, StripBrackets(rest), ':');
      CountRemoveChar(t, ':', '[');
      CountRemoveChar(RemoveChar(t, '['), ':', ']');
      SplitCount(StripBrackets(t), ':');
      var parts := Split(StripBrackets(t), ':');
      assert parts[0] == key;
      assert KeyIndex(keys, key, 0).Some?;
    }
  }

  // ---------------------------------------------------------------------
  // Links to a headline of the same page: `[#Überschrift Text]`

  predicate AnchorLinkAt(s: string, i: nat) { i + 2 <= |s| && s[i] == '[' && s[i + 1] == '#' }

  function AnchorLink(): Pattern { (s: string, i: nat) => AnchorLinkAt(s, i) }

  /**
   * The element for the link text: up to the first space is the anchor
   * and the rest the description; without a space the anchor itself,
   * behind a `#`, is the description.
   */
  function AnchorLinkHtml(name: string): (r: string)
    ensures ']' !in name ==> ']' !in r
    ensures '[' !in name ==> '[' !in r
  {
    PlainLinkPieces();
    PlainCrossLinkPieces();
    match IndexOf(name, ' ', 0)
    case Some(sp) =>
      assert name == name[..sp] + [name[sp]] + name[sp + 1..];
      AnchorLinkOpen + name[..sp] + CrossLinkMid + name[sp + 1..] + LinkClose
    case None => AnchorLinkOpen + name + CrossLinkMid + "#" + name + LinkClose
  }

  /** The link text of a span: every `[#` and every `]` removed. */
  function AnchorLinkName(t: string): (r: string)
    ensures ']' !in r
  {
    RemoveChar(RemoveAll(t, "[#"), ']')
  }

  /** The edit `replaceAnchorLinks` makes for a closed span `t`. */
  function AnchorLinkEdit(t: string): (e: Edit)
    ensures e.Replace? && SpanFits(t, e)
  {
    Replace(|t|, AnchorLinkHtml(AnchorLinkName(t)))
  }

  function AnchorLinkDecision(): SpanDecision<()> {
    (t: string, u: ()) => (AnchorLinkEdit(t), u)
  }

  lemma {:induction false} AnchorLinkPass()
    ensures OpensWithBracket(AnchorLink()) && Anchored(AnchorLink())
    ensures Decides(AnchorLinkDecision())
    ensures Proper(AnchorLink(), SpanRewriter(AnchorLinkDecision()))
  {
    forall pre: string, s: string, j: nat ensures AnchorLinkAt(pre + s, At(pre, j)) == AnchorLinkAt(s, j) {
      if j + 2 <= |s| {
        assert (pre + s)[|pre| + j] == s[j] && (pre + s)[|pre| + j + 1] == s[j + 1];
      }
    }
    forall t: string, u: () | Closed(t) ensures SpanFits(t, AnchorLinkDecision()(t, u).0) {
      var e := AnchorLinkEdit(t);
    }
    SpanProper(AnchorLink(), AnchorLinkDecision());
  }

  /**
   * The pass of `replaceAnchorLinks` from `cursor` on; it resumes at the
   * match plus the length of the span it replaced.
   */
  function AnchorLinkScan(doc: string, cursor: nat): string {
    AnchorLinkPass();
    Pass(doc, cursor, (), AnchorLink(), SpanRewriter(AnchorLinkDecision())).0
  }

  /** `[#anker Text]`: the anchor up to the first space, described by the rest. */
  lemma {:induction false} AnchorLinkWithText(anchor: string, text: string)
    requires ' ' !in anchor
    ensures AnchorLinkHtml(anchor + " " + text) == AnchorLinkOpen + anchor + CrossLinkMid + text + LinkClose
  {
    var name := anchor + " " + text;
    assert name[..|anchor|] == anchor;
    IndexOfIs(name, ' ', 0, |anchor|);
    assert name[|anchor| + 1..] == text;
  }

  /** `[#anker]`: the anchor, described by itself behind `#`. */
  lemma {:induction false} AnchorLinkBare(anchor: string)
    requires ' ' !in anchor
    ensures AnchorLinkHtml(anchor) == AnchorLinkOpen + anchor + CrossLinkMid + "#" + anchor + LinkClose
  {
  }

  /** The link text of `[#` + a bracket-free name + `]` is the name. */
  lemma {:induction false} AnchorLinkNameOf(name: string)
    requires Plain(name)
    ensures AnchorLinkName("[#" + name + "]") == name
  {
    assert "[#" + name + "]" == "[#" + (name + "]");
    RemoveLeading("[#", name + "]");
    RemoveLastChar(name, ']');
  }

  /**
   * A link at the cursor is replaced by its element and the scan goes on
   * in the text after the link.
   */
  lemma {:induction false} AnchorLinkScanLink(pre: string, name: string, post: string)
    requires Plain(name)
    ensures var t := "[#" + name + "]";
      var html := AnchorLinkHtml(name);
      AnchorLinkScan(pre + t + post, |pre|) == pre + html + AnchorLinkScan(post, Overhang(|t|, |html|))
  {
    var t := "[#" + name + "]";
    AnchorLinkPass();
    AnchorLinkNameOf(name);
    assert t == "[" + ("#" + name) + "]";
    ClosedAround("#" + name);
    assert (t + post)[0] == '[' && (t + post)[1] == '#';
    SpanReplaceAt(pre, t, post, (), AnchorLink(), AnchorLinkDecision(), AnchorLinkHtml(name), ());
  }

  /** With no `]` after the cursor the anchor link pass changes nothing. */
  lemma {:induction false} AnchorLinkUnclosed(doc: string, c: nat)
    requires c <= |doc| && ']' !in doc[c..]
    ensures AnchorLinkScan(doc, c) == doc
  {
    AnchorLinkPass();
    SpanUnclosed(doc, c, (), AnchorLink(), AnchorLinkDecision());
  }

  // ---------------------------------------------------------------------
  // Links to knowledge box entries: `[1]`

  /** The length of the run of digits starting at `k`. */
  function DigitRun(s: string, k: nat): (n: nat)
    ensures k + n <= |s| || n == 0
    ensures forall j :: k <= j < k + n ==> IsDigit(s[j])
    ensures k + n < |s| ==> !IsDigit(s[k + n])
    decreases |s| - k
  {
    if k < |s| && IsDigit(s[k]) then 1 + DigitRun(s, k + 1) else 0
  }

  lemma {:induction false} DigitRunShift(pre: string, s: string, k: nat)
    ensures DigitRun(pre + s, |pre| + k) == DigitRun(s, k)
    decreases |s| - k
  {
    if k < |s| {
      assert (pre + s)[|pre| + k] == s[k];
      DigitRunShift(pre, s, k + 1);
    }
  }

  lemma {:induction false} DigitRunExact(s: string, k: nat, m: nat)
    requires k + m < |s| && !IsDigit(s[k + m])
    requires forall j :: k <= j < k + m ==> IsDigit(s[j])
    ensures DigitRun(s, k) == m
    decreases m
  {
    if m > 0 { DigitRunExact(s, k + 1, m - 1); }
  }

  /** `\[[0-9]+\]` matches at `i`: a `[`, at least one digit, and a `]` right behind them. */
  predicate KnowledgeBoxAt(s: string, i: nat) {
    var n := DigitRun(s, i + 1);
    i < |s| && s[i] == '[' && n > 0 && i + 1 + n < |s| && s[i + 1 + n] == ']'
  }

  function KnowledgeBoxLink(): Pattern { (s: string, i: nat) => KnowledgeBoxAt(s, i) }

  /** The citation element for an entry number. */
  function CitationHtml(number: string): (r: string)
    ensures Plain(number) ==> Plain(r)
  {
    PlainCitationPieces();
    CitationOpen + number + CitationMid + number + CitationClose
  }

  /**
   * The edit `replaceKnowledgeBoxLinks` makes for a matched span: a number
   * that converts to a non-zero unsigned short becomes a citation, any
   * other (zero, or too large) stays.
   */
  function KnowledgeBoxEdit(t: string): (e: Edit)
    ensures Closed(t) ==> SpanFits(t, e)
    ensures e.Replace? <==> ToUShort(StripBrackets(t)) != 0
  {
    var number := StripBrackets(t);
    if ToUShort(number) != 0 then Replace(|t|, CitationHtml(number)) else Keep(|t|)
  }

  function KnowledgeBoxDecision(): SpanDecision<()> {
    (t: string, u: ()) => (KnowledgeBoxEdit(t), u)
  }

  lemma {:induction false} KnowledgeBoxPass()
    ensures OpensWithBracket(KnowledgeBoxLink()) && Anchored(KnowledgeBoxLink())
    ensures Decides(KnowledgeBoxDecision())
    ensures Proper(KnowledgeBoxLink(), SpanRewriter(KnowledgeBoxDecision()))
  {
    forall pre: string, s: string, j: nat ensures KnowledgeBoxAt(pre + s, At(pre, j)) == KnowledgeBoxAt(s, j) {
      KnowledgeBoxShift(pre, s, j);
    }
    forall t: string, u: () | Closed(t) ensures SpanFits(t, KnowledgeBoxDecision()(t, u).0) {
      var e := KnowledgeBoxEdit(t);
    }
    SpanProper(KnowledgeBoxLink(), KnowledgeBoxDecision());
  }

  /** Text in front does not change whether a span matches. */
  lemma {:induction false} KnowledgeBoxShift(pre: string, s: string, j: nat)
    ensures KnowledgeBoxAt(pre + s, |pre| + j) == KnowledgeBoxAt(s, j)
  {
    DigitRunShift(pre, s, j + 1);
    var n := DigitRun(s, j + 1);
    if j < |s| { assert (pre + s)[|pre| + j] == s[j]; }
    if j + 1 + n < |s| { assert (pre + s)[|pre| + j + 1 + n] == s[j + 1 + n]; }
  }

  /**
   * The pass of `replaceKnowledgeBoxLinks` from `cursor` on. A match ends
   * at the first `]` behind its `[`, so the span of a bracket pass is the
   * match; the search resumes behind the match's original length.
   */
  function KnowledgeBoxScan(doc: string, cursor: nat): string {
    KnowledgeBoxPass();
    Pass(doc, cursor, (), KnowledgeBoxLink(), SpanRewriter(KnowledgeBoxDecision())).0
  }

  /** Exactly the digit strings in brackets are matched, up to their `]`. */
  lemma {:induction false} KnowledgeBoxOf(number: string, post: string)
    requires |number| > 0 && AllDigits(number)
    ensures var t := "[" + number + "]";
      Closed(t) && KnowledgeBoxLink()(t + post, 0)
  {
    var t := "[" + number + "]";
    var s := t + post;
    forall j | 1 <= j < 1 + |number| ensures IsDigit(s[j]) {
      assert s[j] == number[j - 1];
    }
    assert s[1 + |number|] == ']';
    DigitRunExact(s, 1, |number|);
    ClosedAround(number);
  }

  /** A bracketed number is cited exactly when it is between 1 and 65535. */
  lemma {:induction false} KnowledgeBoxNumber(number: string)
    requires |number| > 0 && AllDigits(number)
    ensures var t := "[" + number + "]";
      KnowledgeBoxEdit(t) == if 1 <= Decimal(number) <= MaxUShort then Replace(|t|, CitationHtml(number)) else Keep(|t|)
  {
    DigitsPlain(number);
    StripBracketsAround(number);
    ToUShortDigits(number);
  }

  lemma {:induction false} DigitsPlain(number: string)
    requires AllDigits(number)
    ensures Plain(number)
  {
    assert forall k :: 0 <= k < |number| ==> number[k] != '[' && number[k] != ']';
  }

  /**
   * A numbered link at the cursor becomes a citation when its number
   * is between 1 and 65535, and stays otherwise; the scan goes on in the
   * text after it.
   */
  lemma {:induction false} KnowledgeBoxScanLink(pre: string, number: string, post: string)
    requires |number| > 0 && AllDigits(number)
    ensures var t := "[" + number + "]";
      var html := CitationHtml(number);
      KnowledgeBoxScan(pre + t + post, |pre|)
      == if 1 <= Decimal(number) <= MaxUShort
         then pre + html + KnowledgeBoxScan(post, Overhang(|t|, |html|))
         else pre + t + KnowledgeBoxScan(post, 0)
  {
    var t := "[" + number + "]";
    KnowledgeBoxPass();
    KnowledgeBoxOf(number, post);
    KnowledgeBoxNumber(number);
    if 1 <= Decimal(number) <= MaxUShort {
      DigitsPlain(number);
      SpanReplaceAt(pre, t, post, (), KnowledgeBoxLink(), KnowledgeBoxDecision(), CitationHtml(number), ());
    } else {
      SpanKeepAt(pre, t, post, (), KnowledgeBoxLink(), KnowledgeBoxDecision(), ());
    }
  }

  // ---------------------------------------------------------------------
  // Attachments: `[[Anhang(datei.txt)]]`

  /** The link an attachment call becomes: the file in the temporary directory, named by itself. */
  function AttachmentLinkOf(tmp: string, kw: string, call: string): string {
    AttachmentHtml(tmp + "/" + AttachmentName(call, kw), AttachmentName(call, kw))
  }

  function AttachmentLinkRender(tmp: string, kw: string): CallRender<()> {
    (call: string, u: ()) => (AttachmentLinkOf(tmp, kw, call), u)
  }

  /**
   * The pass of `CParseLinks::replaceAttachments` from `cursor` on: the
   * opening is matched ignoring case, the argument may be empty, and the
   * search goes on after the inserted link.
   */
  function AttachmentLinkScan(doc: string, cursor: nat, tmp: string, kw: string): string {
    CallScan(doc, cursor, (), kw, true, 0, AttachmentLinkRender(tmp, kw)).0
  }

  /** The name of an attachment call is its argument without double quotes. */
  lemma {:induction false} AttachmentNameOf(kw: string, arg: string)
    requires '[' !in arg && ')' !in arg
    ensures AttachmentName(CallText(kw, arg), kw) == RemoveChar(arg, '"')
  {
    ArgumentOfCall(kw, arg);
  }

  /**
   * A call at the cursor becomes a link to the quote-free argument in the
   * temporary directory; the scan goes on behind the link, so nothing of
   * it is looked at again.
   */
  lemma {:induction false} AttachmentLinkScanCall(pre: string, kw: string, arg: string, post: string, tmp: string)
    requires '[' !in arg && ')' !in arg
    ensures var name := RemoveChar(arg, '"');
      AttachmentLinkScan(pre + CallText(kw, arg) + post, |pre|, tmp, kw)
      == pre + AttachmentHtml(tmp + "/" + name, name) + AttachmentLinkScan(post, 0, tmp, kw)
  {
    var name := RemoveChar(arg, '"');
    AttachmentRenderOf(tmp, kw, arg);
    CallScanAt(pre, kw, arg, post, (), true, 0, AttachmentLinkRender(tmp, kw), AttachmentHtml(tmp + "/" + name, name), ());
  }

  lemma {:induction false} AttachmentRenderOf(tmp: string, kw: string, arg: string)
    requires '[' !in arg && ')' !in arg
    ensures var name := RemoveChar(arg, '"');
      AttachmentLinkRender(tmp, kw)(CallText(kw, arg), ()) == (AttachmentHtml(tmp + "/" + name, name), ())
  {
    AttachmentNameOf(kw, arg);
  }

  /**
   * A call whose keyword is spelled differently (another case, which the
   * match allows) keeps its opening: the link points at the opening and
   * the argument together.
   */
  lemma {:induction false} AttachmentOtherSpelling(kw: string, other: string, arg: string)
    requires other != kw && |other| == |kw| && EqualsIgnoreCase(other, kw)
    requires '[' !in other && ')' !in other && '[' !in arg && ')' !in arg
    ensures AttachmentName(CallText(other, arg), kw) == RemoveChar(CallOpening(other) + arg, '"')
  {
    ArgumentOfOtherSpelling(kw, other, arg);
  }
}
