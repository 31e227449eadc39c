/**
 * `CParseLinks`: the link resolver. It keeps the wiki address, whether
 * links are checked, the keywords of the anchor and attachment macros,
 * the directory of attachments, and the interwiki keys with their URL
 * templates flattened from the per-file lists it is given. Resolving a
 * document runs seven passes in a fixed order: external links, wiki
 * links, interwiki links, anchor links, knowledge-box links, anchors,
 * attachments.
 *
 * The class of a missing page (`m_sLinkClassAddition`) is a field: it
 * persists from one wiki link to the next and from one document to the
 * next, and is modelled as `linkMissing`.
 */
module LinkResolver {
  import opened Text
  import opened Rewrite
  import opened Calls
  import Anchors
  import opened Links

  // ---------------------------------------------------------------------
  // The interwiki lists

  /** The lists one after another. */
  function Flatten(xss: seq<seq<string>>): seq<string>
    decreases |xss|
  {
    if xss == [] then [] else Flatten(xss[..|xss| - 1]) + xss[|xss| - 1]
  }

  /** URL lists at least as long as the key lists, list by list: what the copy loop reads. */
  predicate Parallel(keys: seq<seq<string>>, urls: seq<seq<string>>) {
    |urls| >= |keys| && forall i :: 0 <= i < |keys| ==> |urls[i]| >= |keys[i]|
  }

  /** For every key, the URL at the same list and position, in the order of the keys. */
  function Aligned(keys: seq<seq<string>>, urls: seq<seq<string>>): (r: seq<string>)
    requires Parallel(keys, urls)
    ensures |r| == |Flatten(keys)|
    decreases |keys|
  {
    if keys == [] then []
    else
      var n := |keys| - 1;
      Aligned(keys[..n], urls) + urls[n][..|keys[n]|]
  }

  /** Where list `i` starts in the flattened list. */
  function Offset(keys: seq<seq<string>>, i: nat): nat
    requires i <= |keys|
  {
    |Flatten(keys[..i])|
  }

  /**
   * Key `j` of list `i` sits at `Offset(keys, i) + j` of the flattened
   * keys, and the URL paired with it there is URL `j` of list `i`.
   */
  lemma {:induction false} AlignedPairs(keys: seq<seq<string>>, urls: seq<seq<string>>, i: nat, j: nat)
    requires Parallel(keys, urls) && i < |keys| && j < |keys[i]|
    ensures Offset(keys, i) + j < |Flatten(keys)|
    ensures Flatten(keys)[Offset(keys, i) + j] == keys[i][j]
    ensures Aligned(keys, urls)[Offset(keys, i) + j] == urls[i][j]
    decreases |keys|
  {
    var n := |keys| - 1;
    var init := keys[..n];
    assert Parallel(init, urls);
    if i == n {
      assert init == keys[..i];
    } else {
      assert init[..i] == keys[..i];
      assert init[i] == keys[i];
      AlignedPairs(init, urls, i, j);
      OffsetWithin(keys, i);
    }
  }

  /** List `i` ends within the flattened lists before the last one. */
  lemma {:induction false} OffsetWithin(keys: seq<seq<string>>, i: nat)
    requires i < |keys| - 1
    ensures Offset(keys, i) + |keys[i]| <= |Flatten(keys[..|keys| - 1])|
    decreases |keys|
  {
    var n := |keys| - 1;
    var init := keys[..n];
    if i < n - 1 {
      assert init[..n - 1] == keys[..n - 1];
      assert init[..i] == keys[..i];
      assert init[i] == keys[i];
      OffsetWithin(init, i);
    } else {
      assert keys[..i + 1][..i] == keys[..i];
      assert init == keys[..i + 1];
    }
  }

  /** Every URL paired with a key comes from the URL lists. */
  lemma {:induction false} AlignedFrom(keys: seq<seq<string>>, urls: seq<seq<string>>, c: char)
    requires Parallel(keys, urls)
    requires forall i, j :: 0 <= i < |keys| && 0 <= j < |urls[i]| ==> c !in urls[i][j]
    ensures forall k :: 0 <= k < |Aligned(keys, urls)| ==> c !in Aligned(keys, urls)[k]
    decreases |keys|
  {
    if keys != [] {
      var n := |keys| - 1;
      assert Parallel(keys[..n], urls);
      AlignedFrom(keys[..n], urls, c);
    }
  }

  /** The flattened lists grow by one list at a time. */
  lemma {:induction false} FlattenNext(keys: seq<seq<string>>, urls: seq<seq<string>>, i: nat)
    requires Parallel(keys, urls) && i < |keys|
    ensures Parallel(keys[..i], urls) && Parallel(keys[..i + 1], urls)
    ensures Flatten(keys[..i + 1]) == Flatten(keys[..i]) + keys[i]
    ensures Aligned(keys[..i + 1], urls) == Aligned(keys[..i], urls) + urls[i][..|keys[i]|]
  {
    var next := keys[..i + 1];
    assert next[..i] == keys[..i];
    assert next[i] == keys[i];
    assert Parallel(keys[..i], urls);
  }

  /** The loop of the constructor that copies the interwiki keys and their URLs into two flat lists. */
  method CopyInterwiki(keys: seq<seq<string>>, urls: seq<seq<string>>) returns (flatKeys: seq<string>, flatUrls: seq<string>)
    requires Parallel(keys, urls)
    ensures flatKeys == Flatten(keys) && flatUrls == Aligned(keys, urls)
  {
    flatKeys, flatUrls := [], [];
    for i := 0 to |keys|
      invariant Parallel(keys[..i], urls)
      invariant flatKeys == Flatten(keys[..i]) && flatUrls == Aligned(keys[..i], urls)
    {
      FlattenNext(keys, urls, i);
      flatKeys, flatUrls := CopyList(flatKeys, flatUrls, keys[i], urls[i]);
    }
    assert keys[..|keys|] == keys;
  }

  /** The inner loop: the keys of one list, and the URL at the same position for each. */
  method CopyList(flatKeys: seq<string>, flatUrls: seq<string>, list: seq<string>, listUrls: seq<string>)
      returns (keys': seq<string>, urls': seq<string>)
    requires |list| <= |listUrls|
    ensures keys' == flatKeys + list && urls' == flatUrls + listUrls[..|list|]
  {
    keys', urls' := flatKeys, flatUrls;
    for j := 0 to |list|
      invariant keys' == flatKeys + list[..j]
      invariant urls' == flatUrls + listUrls[..j]
    {
      assert list[..j + 1] == list[..j] + [list[j]];
      assert listUrls[..j + 1] == listUrls[..j] + [listUrls[j]];
      keys' := keys' + [list[j]];
      urls' := urls' + [listUrls[j]];
    }
    assert list[..|list|] == list;
  }

  // ---------------------------------------------------------------------
  // The seven passes

  /**
   * `startParsing`: the passes in their order, over the document and the
   * missing-page class; the wiki pass is the only one with a state.
   */
  function Resolve(doc: string, site: WikiSite, missing: bool, keys: seq<string>, links: seq<string>,
                   transAnchor: string, transAttach: string, tmp: string): (string, bool)
    requires ']' !in site.url && Templates(keys, links)
  {
    var d1 := HyperlinkScan(doc, 0);
    var (d2, m) := WikiScan(d1, 0, site, missing);
    var d3 := InterwikiScan(d2, 0, keys, links);
    var d4 := AnchorLinkScan(d3, 0);
    var d5 := KnowledgeBoxScan(d4, 0);
    var d6 := Anchors.AnchorScan(d5, 0, transAnchor);
    (AttachmentLinkScan(d6, 0, tmp, transAttach), m)
  }

  /** Every link form starts with `[`: a document without one is left as it is, and so is the class. */
  lemma {:induction false} ResolvePlain(doc: string, site: WikiSite, missing: bool, keys: seq<string>, links: seq<string>,
                                        transAnchor: string, transAttach: string, tmp: string)
    requires ']' !in site.url && Templates(keys, links)
    requires '[' !in doc
    ensures Resolve(doc, site, missing, keys, links, transAnchor, transAttach, tmp) == (doc, missing)
  {
    HyperlinkPass();
    FindFirstNoBracket(doc, 0, Hyperlink());
    assert HyperlinkScan(doc, 0) == doc;
    WikiPass(site);
    FindFirstNoBracket(doc, 0, WikiLink());
    assert WikiScan(doc, 0, site, missing) == (doc, missing);
    InterwikiPass(keys, links);
    FindFirstNoBracket(doc, 0, InterwikiLink(keys));
    assert InterwikiScan(doc, 0, keys, links) == doc;
    AnchorLinkPass();
    FindFirstNoBracket(doc, 0, AnchorLink());
    assert AnchorLinkScan(doc, 0) == doc;
    KnowledgeBoxPass();
    FindFirstNoBracket(doc, 0, KnowledgeBoxLink());
    assert KnowledgeBoxScan(doc, 0) == doc;
    Anchors.AnchorPassProper(transAnchor);
    FindFirstNoBracket(doc, 0, Anchors.AnchorCall(transAnchor));
    assert Anchors.AnchorScan(doc, 0, transAnchor) == doc;
    MacroCallOpens(transAttach, true, 0);
    FindFirstNoBracket(doc, 0, MacroCall(transAttach, true, 0));
    CallRewriterLocal(transAttach, true, 0, AttachmentLinkRender(tmp, transAttach));
  }

  /** Without the existence check the resolver never marks a page missing that was not so before. */
  lemma {:induction false} ResolveUnchecked(doc: string, site: WikiSite, missing: bool, keys: seq<string>, links: seq<string>,
                                            transAnchor: string, transAttach: string, tmp: string)
    requires ']' !in site.url && Templates(keys, links) && !site.check
    ensures Resolve(doc, site, missing, keys, links, transAnchor, transAttach, tmp).1 ==> missing
  {
    WikiScanUnchecked(HyperlinkScan(doc, 0), 0, site, missing);
  }

  // ---------------------------------------------------------------------
  // The object

  class CParseLinks {
    var wikiUrl: string
    var checkLinks: bool
    const transAnchor: string
    const transAttach: string
    const tmpFilePath: string
    const interwikiKeys: seq<string>
    const interwikiLinks: seq<string>
    var linkMissing: bool

    /** The addresses inserted into the document hold no `]`. */
    predicate Valid()
      reads this
    {
      ']' !in wikiUrl && Templates(interwikiKeys, interwikiLinks)
    }

    constructor (url: string, keys: seq<seq<string>>, urls: seq<seq<string>>, check: bool,
                 anchorKeyword: string, attachKeyword: string, tmp: string)
      requires ']' !in url && Parallel(keys, urls)
      requires forall i, j :: 0 <= i < |keys| && 0 <= j < |urls[i]| ==> ']' !in urls[i][j]
      ensures Valid()
      ensures wikiUrl == url && checkLinks == check && !linkMissing
      ensures transAnchor == anchorKeyword && transAttach == attachKeyword && tmpFilePath == tmp
      ensures interwikiKeys == Flatten(keys) && interwikiLinks == Aligned(keys, urls)
    {
      var ks, ls := CopyInterwiki(keys, urls);
      AlignedFrom(keys, urls, ']');
      wikiUrl := url;
      checkLinks := check;
      transAnchor := anchorKeyword;
      transAttach := attachKeyword;
      tmpFilePath := tmp;
      interwikiKeys := ks;
      interwikiLinks := ls;
      linkMissing := false;
    }

    /** `updateSettings`: a new wiki address and check setting; the rest stays. */
    method UpdateSettings(url: string, check: bool)
      requires Valid() && ']' !in url
      modifies this
      ensures Valid()
      ensures wikiUrl == url && checkLinks == check && linkMissing == old(linkMissing)
    {
      wikiUrl := url;
      checkLinks := check;
    }

    /** The wiki as the wiki pass sees it: checked only when online and checking is on. */
    function Site(online: bool, found: string -> bool): WikiSite
      reads this
    {
      WikiSite(wikiUrl, online && checkLinks, found)
    }

    static method ReplaceHyperlinks(doc: string) returns (out: string)
      ensures out == HyperlinkScan(doc, 0)
    {
      HyperlinkPass();
      var u;
      out, u := RunPass(doc, (), Hyperlink(), SpanRewriter(HyperlinkDecision()));
    }

    /** The wiki pass; it updates the missing-page class. */
    method ReplaceInyokaWikiLinks(doc: string, online: bool, found: string -> bool) returns (out: string)
      requires Valid()
      modifies this
      ensures Valid() && wikiUrl == old(wikiUrl) && checkLinks == old(checkLinks)
      ensures (out, linkMissing) == WikiScan(doc, 0, old(Site(online, found)), old(linkMissing))
    {
      var site := Site(online, found);
      WikiPass(site);
      out, linkMissing := RunPass(doc, linkMissing, WikiLink(), SpanRewriter(WikiDecision(site)));
    }

    method ReplaceInterwikiLinks(doc: string) returns (out: string)
      requires Valid()
      ensures out == InterwikiScan(doc, 0, interwikiKeys, interwikiLinks)
    {
      InterwikiPass(interwikiKeys, interwikiLinks);
      var u;
      out, u := RunPass(doc, (), InterwikiLink(interwikiKeys), SpanRewriter(InterwikiDecision(interwikiKeys, interwikiLinks)));
    }

    static method ReplaceAnchorLinks(doc: string) returns (out: string)
      ensures out == AnchorLinkScan(doc, 0)
    {
      AnchorLinkPass();
      var u;
      out, u := RunPass(doc, (), AnchorLink(), SpanRewriter(AnchorLinkDecision()));
    }

    static method ReplaceKnowledgeBoxLinks(doc: string) returns (out: string)
      ensures out == KnowledgeBoxScan(doc, 0)
    {
      KnowledgeBoxPass();
      var u;
      out, u := RunPass(doc, (), KnowledgeBoxLink(), SpanRewriter(KnowledgeBoxDecision()));
    }

    method CreateAnchor(doc: string) returns (out: string)
      ensures out == Anchors.AnchorScan(doc, 0, transAnchor)
    {
      Anchors.AnchorPassProper(transAnchor);
      var u;
      out, u := RunPass(doc, (), Anchors.AnchorCall(transAnchor), Anchors.AnchorRewriter(transAnchor));
    }

    method ReplaceAttachments(doc: string) returns (out: string)
      ensures out == AttachmentLinkScan(doc, 0, tmpFilePath, transAttach)
    {
      var render := AttachmentLinkRender(tmpFilePath, transAttach);
      CallRewriterLocal(transAttach, true, 0, render);
      var u;
      out, u := RunPassAfter(doc, (), MacroCall(transAttach, true, 0), CallRewriter(transAttach, true, 0, render));
    }

    /**
     * `startParsing`: the seven passes in order. `online` is whether the
     * system reports a network connection, `found` whether a request for
     * an address succeeds.
     */
    method StartParsing(doc: string, online: bool, found: string -> bool) returns (out: string)
      requires Valid()
      modifies this
      ensures Valid() && wikiUrl == old(wikiUrl) && checkLinks == old(checkLinks)
      ensures (out, linkMissing)
           == Resolve(doc, old(Site(online, found)), old(linkMissing), interwikiKeys, interwikiLinks,
                      transAnchor, transAttach, tmpFilePath)
    {
      var d1 := ReplaceHyperlinks(doc);
      var d2 := ReplaceInyokaWikiLinks(d1, online, found);
      var d3 := ReplaceInterwikiLinks(d2);
      var d4 := ReplaceAnchorLinks(d3);
      var d5 := ReplaceKnowledgeBoxLinks(d4);
      var d6 := CreateAnchor(d5);
      out := ReplaceAttachments(d6);
    }
  }
}
