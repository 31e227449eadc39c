/**
 * The `Picture` macro: `[[Bild(name.png, 200x100, left)]]`. The argument
 * is split at commas; the first piece names the image, the others set
 * width, height and alignment. The call becomes a linked `<img>`.
 *
 * The opening is matched case-sensitively, the argument must not be
 * empty, and the scan resumes where the CALL ended, inside or after the
 * inserted element. The element repeats the argument three times, so it
 * may hold a new call and text to match; the scan is bounded by a fuel
 * parameter.
 */
module Pictures {
  import opened Text
  import opened Rewrite
  import opened Calls

  /**
   * Where images are looked for and how the page refers to them.
   * `articleDir` is the directory of the article being edited, "" when
   * there is none; `ext` is `file:///` on Windows and "" elsewhere;
   * `fileExists` asks the file system; `size` turns the resolved path and
   * the width and height asked for (0 when not given) into the height
   * and width written into the element (the pixel size of the image and
   * the aspect-ratio arithmetic).
   */
  datatype PictureSite = PictureSite(share: string, community: string, articleDir: string,
                                     tmpImgDir: string, ext: string,
                                     fileExists: string -> bool,
                                     size: (string, nat, nat) -> (string, string))

  /**
   * The path an image reference resolves to: images of the community's
   * web directory for `Wiki/` and `img/`, then the article's directory
   * when the file is there, else the directory of downloaded images.
   */
  function PictureUrl(site: PictureSite, ref: string): string {
    if StartsWith(ref, "Wiki/") || StartsWith(ref, "img/") then
      site.share + "/community/" + site.community + "/web/" + ref
    else if site.articleDir != "" && site.fileExists(site.articleDir + "/" + ref) then
      site.articleDir + "/" + ref
    else
      site.tmpImgDir + "/" + ref
  }

  /** Every resolution keeps the reference whole, as the last component after a `/`. */
  lemma {:induction false} UrlKeepsReference(site: PictureSite, ref: string)
    ensures EndsWith(PictureUrl(site, ref), "/" + ref)
  {
    var url := PictureUrl(site, ref);
    var dir := url[..|url| - |ref| - 1];
    assert url == dir + "/" + ref;
    assert url[|url| - |ref| - 1..] == "/" + ref;
  }

  // ---------------------------------------------------------------------
  // Modifiers

  /** The size asked for (0 = not given) and the alignment. */
  datatype Layout = Layout(width: nat, height: nat, align: string)

  const DefaultLayout: Layout := Layout(0, 0, "default")

  /**
   * What one modifier does, tested in the source's order: a non-zero
   * number is the width, `x<n>` the height, `<w>x<h>` both, and the six
   * alignment words set the alignment; anything else is ignored.
   */
  function ApplyModifier(l: Layout, m: string): Layout {
    var t := Trimmed(m);
    if ToUInt(t) != 0 then l.(width := ToUInt(t))
    else if StartsWith(t, "x") then l.(height := ToUInt(Trimmed(RemoveChar(m, 'x'))))
    else if IndexOf(m, 'x', 0).Some? then
      var at := IndexOf(m, 'x', 0).value;
      l.(width := ToUInt(Trimmed(m[..at])), height := ToUInt(Trimmed(m[at + 1..])))
    else if t == "left" || t == "align=left" then l.(align := "left")
    else if t == "right" || t == "align=right" then l.(align := "right")
    else if t == "center" || t == "align=center" then l.(align := "center")
    else l
  }

  /**
   * The modifiers `pieces[1..n]` applied one after another, from the
   * default layout (`pieces[0]` names the image).
   */
  function Modifiers(pieces: seq<string>, n: nat): Layout
    requires n <= |pieces|
  {
    if n <= 1 then DefaultLayout else ApplyModifier(Modifiers(pieces, n - 1), pieces[n - 1])
  }

  /** The loop over the pieces after the image name. */
  method ReadModifiers(pieces: seq<string>) returns (l: Layout)
    requires |pieces| > 0
    ensures l == Modifiers(pieces, |pieces|)
  {
    l := DefaultLayout;
    var i := 1;
    while i < |pieces|
      invariant 1 <= i <= |pieces|
      invariant l == Modifiers(pieces, i)
    {
      l := ApplyModifier(l, pieces[i]);
      i := i + 1;
    }
  }

  /** A number other than 0 sets the width and nothing else. */
  lemma {:induction false} ModifierWidth(l: Layout, d: string)
    requires |d| > 0 && AllDigits(d) && 0 < Decimal(d) <= MaxUInt
    ensures ApplyModifier(l, d) == l.(width := Decimal(d))
  {
    assert Trimmed(d) == d by {
      assert forall k :: 0 <= k < |d| ==> !IsSpace(d[k]);
      TrimmedNoSpace(d);
    }
    ToUIntDigits(d);
  }

  /** A signed number `+d` other than 0 sets the width as well. */
  lemma {:induction false} ModifierSignedWidth(l: Layout, d: string)
    requires |d| > 0 && AllDigits(d) && 0 < Decimal(d) <= MaxUInt
    ensures ApplyModifier(l, "+" + d) == l.(width := Decimal(d))
  {
    var t := "+" + d;
    assert Trimmed(t) == t by {
      assert forall k :: 0 <= k < |t| ==> !IsSpace(t[k]);
      TrimmedNoSpace(t);
    }
    ToUIntSigned(d);
  }

  /** `x<n>` sets the height and nothing else. */
  lemma {:induction false} ModifierHeight(l: Layout, d: string)
    requires |d| > 0 && AllDigits(d)
    ensures ApplyModifier(l, "x" + d) == l.(height := ToUInt(d))
  {
    HeightText(d);
    HeightBranch(l, "x" + d);
  }

  /** `x<n>` is already trimmed, is no number, and without its `x` is the digits. */
  lemma {:induction false} HeightText(d: string)
    requires |d| > 0 && AllDigits(d)
    ensures var m := "x" + d;
      Trimmed(m) == m && ToUInt(m) == 0 && StartsWith(m, "x") && RemoveChar(m, 'x') == d && Trimmed(d) == d
  {
    var m := "x" + d;
    assert forall k :: 0 <= k < |m| ==> !IsSpace(m[k]) by {
      forall k | 0 <= k < |m| ensures !IsSpace(m[k]) {
        if k > 0 { assert m[k] == d[k - 1]; }
      }
    }
    assert RemoveChar(m, 'x') == d by {
      assert 'x' !in d by {
        forall k | 0 <= k < |d| ensures d[k] != 'x' { assert IsDigit(d[k]); }
      }
      RemoveCharAppend("x", d, 'x');
      assert RemoveChar("x", 'x') == [];
      RemoveCharAbsent(d, 'x');
    }
    assert Trimmed(d) == d by {
      assert forall k :: 0 <= k < |d| ==> !IsSpace(d[k]);
      TrimmedNoSpace(d);
    }
    TrimmedNoSpace(m);
    assert ToUInt(m) == 0 by {
      assert !IsDigit(m[0]);
    }
    assert StartsWith(m, "x") by { assert m[..1] == "x"; }
  }

  /** The second branch: a modifier that is no number but starts with `x`. */
  lemma {:induction false} HeightBranch(l: Layout, m: string)
    requires Trimmed(m) == m && ToUInt(m) == 0 && StartsWith(m, "x")
    ensures ApplyModifier(l, m) == l.(height := ToUInt(Trimmed(RemoveChar(m, 'x'))))
  {
  }

  /** `<w>x<h>` sets both, the width from the digits before the `x` and the height from those after. */
  lemma {:induction false} ModifierBoth(l: Layout, w: string, h: string)
    requires |w| > 0 && AllDigits(w) && AllDigits(h)
    ensures ApplyModifier(l, w + "x" + h) == l.(width := ToUInt(w), height := ToUInt(h))
  {
    var m := w + "x" + h;
    assert 'x' !in w by {
      forall k | 0 <= k < |w| ensures w[k] != 'x' { assert IsDigit(w[k]); }
    }
    assert m[|w|] == 'x' && m[0] == w[0];
    assert forall k :: 0 <= k < |m| ==> !IsSpace(m[k]) by {
      forall k | 0 <= k < |m| ensures !IsSpace(m[k]) {
        if k < |w| { assert m[k] == w[k]; } else if k > |w| { assert m[k] == h[k - |w| - 1]; }
      }
    }
    assert Trimmed(m) == m by { TrimmedNoSpace(m); }
    assert ToUInt(m) == 0 by {
      assert Trimmed(m) == m by { TrimmedNoSpace(m); }
      assert !IsDigit(m[|w|]);
    }
    assert !StartsWith(m, "x") by { assert IsDigit(m[0]); }
    assert m[..|w|] == w;
    IndexOfIs(m, 'x', 0, |w|);
    assert m[|w| + 1..] == h;
    assert Trimmed(w) == w by {
      assert forall k :: 0 <= k < |w| ==> !IsSpace(w[k]);
      TrimmedNoSpace(w);
    }
    assert Trimmed(h) == h by {
      assert forall k :: 0 <= k < |h| ==> !IsSpace(h[k]);
      TrimmedNoSpace(h);
    }
  }

  predicate IsAlignment(word: string) { word == "left" || word == "right" || word == "center" }

  /** An alignment word, alone or after `align=`, sets the alignment and nothing else. */
  lemma {:induction false} ModifierAlign(l: Layout, word: string)
    requires IsAlignment(word)
    ensures ApplyModifier(l, word) == l.(align := word)
    ensures ApplyModifier(l, "align=" + word) == l.(align := word)
  {
    var m := "align=" + word;
    AlignText(word);
    AlignText(m);
    WordBranch(l, word);
    WordBranch(l, m);
  }

  /** The six alignment modifiers are neither numbers nor sizes. */
  lemma {:induction false} AlignText(m: string)
    requires m == "left" || m == "right" || m == "center" || m == "align=left" || m == "align=right" || m == "align=center"
    ensures Trimmed(m) == m && ToUInt(m) == 0 && !StartsWith(m, "x") && IndexOf(m, 'x', 0).None?
  {
    NoNumber(m);
  }

  /** The last branches: a modifier that is neither a number nor a size. */
  lemma {:induction false} WordBranch(l: Layout, m: string)
    requires Trimmed(m) == m && ToUInt(m) == 0 && !StartsWith(m, "x") && IndexOf(m, 'x', 0).None?
    ensures ApplyModifier(l, m) == if m == "left" || m == "align=left" then l.(align := "left")
                                   else if m == "right" || m == "align=right" then l.(align := "right")
                                   else if m == "center" || m == "align=center" then l.(align := "center")
                                   else l
  {
  }

  /**
   * A word of letters and `=` without an `x` is neither a number nor a
   * size, and trimming leaves it as it is.
   */
  lemma {:induction false} NoNumber(m: string)
    requires |m| > 0 && forall k :: 0 <= k < |m| ==> (IsLetter(m[k]) || m[k] == '=') && m[k] != 'x'
    ensures Trimmed(m) == m && ToUInt(m) == 0 && !StartsWith(m, "x") && IndexOf(m, 'x', 0).None?
  {
    TrimmedNoSpace(m);
    assert !IsDigit(m[0]);
  }

  // ---------------------------------------------------------------------
  // The element

  function PictureHtml(ext: string, url: string, height: string, width: string, align: string): string {
    "<a href=\"" + ext + url + "\" class=\"crosslink\">"
    + "<img src=\"" + ext + url + "\" alt=\"" + url + "\" height=\"" + height + "\" width=\"" + width + "\" "
    + "class=\"image-" + align + "\" /></a>"
  }

  /** The element for an argument already split at commas. */
  function PictureOfPieces(site: PictureSite, pieces: seq<string>): string
    requires |pieces| > 0
  {
    var url := PictureUrl(site, Trimmed(pieces[0]));
    var l := Modifiers(pieces, |pieces|);
    var dims := site.size(url, l.width, l.height);
    PictureHtml(site.ext, url, dims.0, dims.1, l.align)
  }

  /** The element a matched call becomes. */
  function PictureOf(site: PictureSite, kw: string, call: string): string {
    PictureOfPieces(site, Split(CallArgument(call, kw), ','))
  }

  function PictureRender(site: PictureSite, kw: string): CallRender<()> {
    (call: string, u: ()) => (PictureOf(site, kw, call), u)
  }

  /** `Macros::replacePictures` from `cursor` on, for at most `fuel` calls. */
  function PictureScan(doc: string, cursor: nat, site: PictureSite, kw: string, fuel: nat): string {
    CallScanFuel(doc, cursor, (), kw, false, 1, PictureRender(site, kw), fuel).0
  }

  /**
   * A call written as comma-separated pieces renders the first piece
   * (trimmed) as the image and the others as modifiers, in order.
   */
  lemma {:induction false} PictureOfCall(site: PictureSite, kw: string, pieces: seq<string>)
    requires |pieces| > 0 && forall k :: 0 <= k < |pieces| ==> ',' !in pieces[k]
    requires '[' !in Join(pieces, ',') && ')' !in Join(pieces, ',')
    ensures PictureOf(site, kw, CallText(kw, Join(pieces, ','))) == PictureOfPieces(site, pieces)
  {
    ArgumentOfCall(kw, Join(pieces, ','));
    JoinSplit(pieces, ',');
  }

  /**
   * A call at the cursor is replaced by its element, and the scan goes
   * on where the call ended: `|call|` characters into the element and
   * the text after it.
   */
  lemma {:induction false} PictureScanCall(pre: string, kw: string, arg: string, post: string, site: PictureSite, fuel: nat)
    requires fuel > 0 && '[' !in arg && ')' !in arg && |arg| > 0
    ensures var t := CallText(kw, arg);
      PictureScan(pre + t + post, |pre|, site, kw, fuel)
      == PictureScan(pre + PictureOf(site, kw, t) + post, |pre| + |t|, site, kw, fuel - 1)
  {
    var t := CallText(kw, arg);
    CallScanFuelAt(pre, kw, arg, post, (), false, 1, PictureRender(site, kw), PictureOf(site, kw, t), (), fuel);
  }

  /** Text without the opening is left as it is. */
  lemma {:induction false} PictureScanNone(doc: string, cursor: nat, site: PictureSite, kw: string, fuel: nat)
    requires forall j :: cursor <= j < |doc| ==> !OpeningAt(doc, j, kw, false)
    ensures PictureScan(doc, cursor, site, kw, fuel) == doc
  {
    CallScanFuelNone(doc, cursor, (), kw, false, 1, PictureRender(site, kw), fuel);
  }
}
