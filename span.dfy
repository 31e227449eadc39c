/**
 * The `Span` macro: `[[Span(Hallo, "meine Klasse", "color:red")]]`. The
 * argument is cut at double quotes; the pieces outside quotes are split
 * at runs of commas (empty pieces dropped), the pieces inside quotes are
 * kept whole, so a comma inside quotes separates nothing. Arguments that
 * are a single space are dropped. The first argument is the content, the
 * second the `class`, the third the `style` of the element.
 *
 * The opening is matched ignoring case, the argument may be empty, and
 * the scan goes on after the inserted element.
 */
module SpanMacro {
  import opened Text
  import opened Rewrite
  import opened Calls

  // ---------------------------------------------------------------------
  // The argument splitter

  /** The pieces that are not empty, in order (`SkipEmptyParts`). */
  function NonEmpty(pieces: seq<string>): (r: seq<string>)
    ensures |r| <= |pieces|
    ensures forall k :: 0 <= k < |r| ==> r[k] != [] && r[k] in pieces
    decreases |pieces|
  {
    if pieces == [] then []
    else (if pieces[0] == [] then [] else [pieces[0]]) + NonEmpty(pieces[1..])
  }

  /** `split(QRegExp(",+"), SkipEmptyParts)`: the comma-free, non-empty stretches of `s`. */
  function CommaPieces(s: string): (r: seq<string>)
    ensures forall k :: 0 <= k < |r| ==> r[k] != [] && ',' !in r[k]
  {
    NonEmpty(Split(s, ','))
  }

  /**
   * The arguments collected from the pieces of the argument cut at `"`:
   * the first piece lies outside quotes, and every piece toggles.
   */
  function ArgPieces(pieces: seq<string>, inside: bool): seq<string>
    decreases |pieces|
  {
    if pieces == [] then []
    else (if inside then [pieces[0]] else CommaPieces(pieces[0])) + ArgPieces(pieces[1..], !inside)
  }

  /** `QStringList::removeAll(" ")`. */
  function DropBlank(args: seq<string>): (r: seq<string>)
    ensures |r| <= |args|
    ensures forall k :: 0 <= k < |r| ==> r[k] != " " && r[k] in args
    decreases |args|
  {
    if args == [] then []
    else (if args[0] == " " then [] else [args[0]]) + DropBlank(args[1..])
  }

  /** The arguments of a span call. */
  function SpanArgs(arg: string): seq<string> {
    DropBlank(ArgPieces(Split(arg, '"'), false))
  }

  /** Pieces without `c` give arguments without `c`. */
  lemma {:induction false} ArgPiecesFree(pieces: seq<string>, inside: bool, c: char)
    requires forall k :: 0 <= k < |pieces| ==> c !in pieces[k]
    ensures forall k :: 0 <= k < |ArgPieces(pieces, inside)| ==> c !in ArgPieces(pieces, inside)[k]
    decreases |pieces|
  {
    if pieces != [] {
      ArgPiecesFree(pieces[1..], !inside, c);
      if !inside {
        SplitFree(pieces[0], ',', c);
      }
    }
  }

  /** No argument holds a double quote: the quotes only delimit. */
  lemma {:induction false} SpanArgsQuoteFree(arg: string)
    ensures forall k :: 0 <= k < |SpanArgs(arg)| ==> '"' !in SpanArgs(arg)[k]
  {
    ArgPiecesFree(Split(arg, '"'), false, '"');
  }

  /** An argument list without a lone space is left whole by the removal. */
  lemma {:induction false} DropBlankNone(args: seq<string>)
    requires forall k :: 0 <= k < |args| ==> args[k] != " "
    ensures DropBlank(args) == args
    decreases |args|
  {
    if args != [] {
      DropBlankNone(args[1..]);
      assert [args[0]] + args[1..] == args;
    }
  }

  /** A text without commas is one piece, or none when it is empty. */
  lemma {:induction false} CommaPiecesPlain(s: string)
    requires ',' !in s
    ensures CommaPieces(s) == if s == [] then [] else [s]
  {
    SplitAbsent(s, ',');
  }

  /** Two pieces cut at one comma, the empty ones dropped. */
  lemma {:induction false} CommaPiecesPair(a: string, b: string)
    requires ',' !in a && ',' !in b
    ensures CommaPieces(a + "," + b) == (if a == [] then [] else [a]) + (if b == [] then [] else [b])
  {
    assert Join([a, b], ',') == a + "," + b;
    JoinSplit([a, b], ',');
    assert NonEmpty([b]) == (if b == [] then [] else [b]) + NonEmpty([]);
  }

  /**
   * The arguments written each in double quotes, separated by commas:
   * `"a","b","c"`.
   */
  function Quoted(args: seq<string>): string
    decreases |args|
  {
    if args == [] then ""
    else "\"" + args[0] + "\"" + (if |args| == 1 then "" else "," + Quoted(args[1..]))
  }

  /** The pieces of the quoted list after the opening quote: `a`, `,`, `b`, ..., the last argument, "". */
  function QuotedInner(args: seq<string>): seq<string>
    requires |args| > 0
    decreases |args|
  {
    if |args| == 1 then [args[0], ""] else [args[0], ","] + QuotedInner(args[1..])
  }

  lemma {:induction false} QuotedInnerJoin(args: seq<string>)
    requires |args| > 0
    ensures "\"" + Join(QuotedInner(args), '"') == Quoted(args)
    ensures forall k :: 0 <= k < |QuotedInner(args)| ==> QuotedInner(args)[k] == "," || QuotedInner(args)[k] == "" || QuotedInner(args)[k] in args
    decreases |args|
  {
    if |args| > 1 {
      var rest := QuotedInner(args[1..]);
      QuotedInnerJoin(args[1..]);
      var inner := [args[0], ","] + rest;
      assert inner[1..] == [","] + rest;
      assert ([","] + rest)[1..] == rest;
      assert Join(inner, '"') == args[0] + "\"" + ("," + "\"" + Join(rest, '"'));
      forall k | 0 <= k < |inner| ensures inner[k] == "," || inner[k] == "" || inner[k] in args {
        if k >= 2 { assert inner[k] == rest[k - 2]; }
      }
    }
  }

  lemma {:induction false} QuotedSplit(args: seq<string>)
    requires |args| > 0 && forall k :: 0 <= k < |args| ==> '"' !in args[k]
    ensures Split(Quoted(args), '"') == [""] + QuotedInner(args)
  {
    QuotedInnerJoin(args);
    var parts := [""] + QuotedInner(args);
    assert parts[1..] == QuotedInner(args);
    assert Join(parts, '"') == Quoted(args);
    forall k | 0 <= k < |parts| ensures '"' !in parts[k] {
      if k > 0 { assert parts[k] == QuotedInner(args)[k - 1]; }
    }
    JoinSplit(parts, '"');
  }

  lemma {:induction false} QuotedInnerArgs(args: seq<string>)
    requires |args| > 0
    ensures ArgPieces(QuotedInner(args), true) == args
    decreases |args|
  {
    if |args| == 1 {
      QuotedPiece(args[0], "", []);
    } else {
      QuotedPiece(args[0], ",", QuotedInner(args[1..]));
      QuotedInnerArgs(args[1..]);
      assert [args[0]] + args[1..] == args;
    }
  }

  /** A quoted argument followed by a piece that holds no argument: the comma between two quotes, or the end. */
  lemma {:induction false} QuotedPiece(a: string, sep: string, rest: seq<string>)
    requires sep == "" || sep == ","
    ensures ArgPieces([a, sep] + rest, true) == [a] + ArgPieces(rest, true)
  {
    var ps := [a, sep] + rest;
    assert ps[0] == a;
    assert ps[1..] == [sep] + rest;
    assert ([sep] + rest)[0] == sep;
    assert ([sep] + rest)[1..] == rest;
    if sep == "" {
      CommaPiecesPlain("");
    } else {
      CommaPiecesPair("", "");
      assert "" + "," + "" == sep;
    }
    assert ArgPieces([sep] + rest, false) == CommaPieces(sep) + ArgPieces(rest, true);
  }

  /**
   * Arguments written each in double quotes and separated by commas are
   * read back exactly, commas inside them included, as long as none holds
   * a quote or is a lone space.
   */
  lemma {:induction false} SpanArgsQuoted(args: seq<string>)
    requires forall k :: 0 <= k < |args| ==> '"' !in args[k] && args[k] != " "
    ensures SpanArgs(Quoted(args)) == args
  {
    if args == [] {
      assert Split("", '"') == [""];
      assert ArgPieces([""], false) == CommaPieces("") + ArgPieces([], true);
      CommaPiecesPlain("");
    } else {
      QuotedSplit(args);
      QuotedInnerArgs(args);
      var parts := [""] + QuotedInner(args);
      assert parts[1..] == QuotedInner(args);
      CommaPiecesPlain("");
      assert ArgPieces(parts, false) == args;
      DropBlankNone(args);
    }
  }

  /** The pieces of `text, "cls", "style"` cut at the quotes. */
  lemma {:induction false} SpacedSplit(text: string, cls: string, style: string)
    requires '"' !in text && '"' !in cls && '"' !in style
    ensures Split(text + ", \"" + cls + "\", \"" + style + "\"", '"') == [text + ", ", cls, ", ", style, ""]
  {
    var parts := [text + ", ", cls, ", ", style, ""];
    assert Join(parts[3..], '"') == style + "\"" + "";
    assert Join(parts[2..], '"') == ", " + "\"" + (style + "\"");
    assert Join(parts[1..], '"') == cls + "\"" + (", " + "\"" + (style + "\""));
    assert Join(parts, '"') == text + ", \"" + cls + "\", \"" + style + "\"";
    assert '"' !in text + ", ";
    assert '"' !in ", ";
    JoinSplit(parts, '"');
  }

  /** The arguments collected from those pieces, the spaces after the commas still among them. */
  lemma {:induction false} SpacedPieces(text: string, cls: string, style: string)
    requires |text| > 0 && ',' !in text
    ensures ArgPieces([text + ", ", cls, ", ", style, ""], false) == [text, " ", cls, " ", style]
  {
    var parts := [text + ", ", cls, ", ", style, ""];
    CommaPiecesPair(text, " ");
    CommaPiecesPair("", " ");
    assert text + ", " == text + "," + " ";
    assert ", " == "" + "," + " ";
    CommaPiecesPlain("");
    var p1, p2, p3, p4 := parts[1..], parts[2..], parts[3..], parts[4..];
    assert p4 == [""] && p4[1..] == [];
    assert ArgPieces(p4, false) == CommaPieces("") + ArgPieces([], true) == [];
    assert p3 == [style, ""] && p3[1..] == p4;
    assert ArgPieces(p3, true) == [style];
    assert p2 == [", ", style, ""] && p2[1..] == p3;
    assert ArgPieces(p2, false) == [" ", style];
    assert p1 == [cls, ", ", style, ""] && p1[1..] == p2;
    assert ArgPieces(p1, true) == [cls, " ", style];
    assert ArgPieces(parts, false) == [text, " "] + [cls, " ", style];
  }

  /**
   * The usual way of writing a span, `text, "class", "style"`: the spaces
   * after the commas are dropped as lone-space arguments.
   */
  lemma {:induction false} SpanArgsSpaced(text: string, cls: string, style: string)
    requires |text| > 0 && ',' !in text && '"' !in text && text != " "
    requires '"' !in cls && cls != " " && '"' !in style && style != " "
    ensures SpanArgs(text + ", \"" + cls + "\", \"" + style + "\"") == [text, cls, style]
  {
    var arg := text + ", \"" + cls + "\", \"" + style + "\"";
    var parts := [text + ", ", cls, ", ", style, ""];
    SpacedSplit(text, cls, style);
    assert Split(arg, '"') == parts;
    SpacedPieces(text, cls, style);
    DropSpaces(text, cls, style);
  }

  lemma {:induction false} DropSpaces(text: string, cls: string, style: string)
    requires text != " " && cls != " " && style != " "
    ensures DropBlank([text, " ", cls, " ", style]) == [text, cls, style]
  {
    var all := [text, " ", cls, " ", style];
    assert all[4..][1..] == [];
    assert DropBlank(all[4..]) == [style];
    assert all[3..][1..] == all[4..];
    assert DropBlank(all[3..]) == [style];
    assert all[2..][1..] == all[3..];
    assert DropBlank(all[2..]) == [cls, style];
    assert all[1..][1..] == all[2..];
    assert DropBlank(all[1..]) == [cls, style];
  }

  /** How `replaceSpan` reads the arguments: cut at every quote, collected, blank ones dropped. */
  method SplitArguments(arg: string) returns (args: seq<string>)
    ensures args == SpanArgs(arg)
  {
    var pieces := Split(arg, '"');
    var collected := CollectArguments(pieces);
    args := DropBlank(collected);
  }

  /** The loop of `replaceSpan` that collects the arguments, toggling at every quote. */
  method CollectArguments(pieces: seq<string>) returns (collected: seq<string>)
    ensures collected == ArgPieces(pieces, false)
  {
    collected := [];
    var inside := false;
    var i := 0;
    while i < |pieces|
      invariant 0 <= i <= |pieces|
      invariant collected + ArgPieces(pieces[i..], inside) == ArgPieces(pieces, false)
    {
      collected := CollectPiece(collected, pieces, i, inside);
      inside := !inside;
      i := i + 1;
    }
    assert pieces[i..] == [];
  }

  /** One turn of the loop: piece `i` as one argument inside quotes, or cut at commas outside them. */
  method CollectPiece(collected: seq<string>, pieces: seq<string>, i: nat, inside: bool) returns (collected': seq<string>)
    requires i < |pieces|
    ensures collected' + ArgPieces(pieces[i + 1..], !inside) == collected + ArgPieces(pieces[i..], inside)
  {
    ArgPiecesNext(pieces, i, inside);
    ghost var rest := ArgPieces(pieces[i + 1..], !inside);
    var found: seq<string>;
    if inside {
      found := [pieces[i]];
    } else {
      found := CommaPieces(pieces[i]);
    }
    collected' := collected + found;
    Regroup3(collected, found, rest);
  }

  /** The pieces from `i` on: the arguments of piece `i`, then those of the rest with the other parity. */
  lemma {:induction false} ArgPiecesNext(pieces: seq<string>, i: nat, inside: bool)
    requires i < |pieces|
    ensures ArgPieces(pieces[i..], inside)
         == (if inside then [pieces[i]] else CommaPieces(pieces[i])) + ArgPieces(pieces[i + 1..], !inside)
  {
    assert pieces[i..][1..] == pieces[i + 1..];
  }

  // ---------------------------------------------------------------------
  // The element

  const StyleOpen := " style=\""
  const ClassOpen := " class=\""

  /** The attribute opened by `open` taken from argument `k`, quotes removed; nothing when there is no such argument. */
  function Attribute(open: string, args: seq<string>, k: nat): string {
    if k < |args| then open + RemoveChar(args[k], '"') + "\"" else ""
  }

  /**
   * The element for the arguments: the first is the content, the second
   * the class, the third the style; an attribute that is not given is
   * left out.
   */
  function SpanHtml(args: seq<string>): string {
    "<span" + Attribute(StyleOpen, args, 2) + Attribute(ClassOpen, args, 1) + ">"
      + (if |args| > 0 then args[0] else "") + "</span>"
  }

  /** The element a matched call becomes. */
  function SpanOf(kw: string, call: string): string {
    SpanHtml(SpanArgs(CallArgument(call, kw)))
  }

  function SpanRender(kw: string): CallRender<()> {
    (call: string, u: ()) => (SpanOf(kw, call), u)
  }

  /** `Macros::replaceSpan` from `cursor` on. */
  function SpanScan(doc: string, cursor: nat, kw: string): string {
    CallScan(doc, cursor, (), kw, true, 0, SpanRender(kw)).0
  }

  /** Three arguments give content, class and style, the style written first. */
  lemma {:induction false} SpanHtmlOfThree(text: string, cls: string, style: string)
    requires '"' !in cls && '"' !in style
    ensures SpanHtml([text, cls, style])
         == "<span" + StyleOpen + style + "\"" + ClassOpen + cls + "\"" + ">" + text + "</span>"
  {
    var args := [text, cls, style];
    var st, cl := StyleOpen + style + "\"", ClassOpen + cls + "\"";
    assert Attribute(StyleOpen, args, 2) == st by { RemoveCharAbsent(style, '"'); }
    assert Attribute(ClassOpen, args, 1) == cl by { RemoveCharAbsent(cls, '"'); }
    assert SpanHtml(args) == "<span" + st + cl + ">" + text + "</span>";
  }

  /** Without arguments the element is empty and has no attributes. */
  lemma {:induction false} SpanHtmlOfNone()
    ensures SpanHtml([]) == "<span></span>"
  {
  }

  /**
   * `[[Span(text, "class", "style")]]` becomes
   * `<span style="style" class="class">text</span>`.
   */
  lemma {:induction false} SpanOfCall(kw: string, text: string, cls: string, style: string)
    requires |text| > 0 && ',' !in text && '"' !in text && text != " "
    requires '"' !in cls && cls != " " && '"' !in style && style != " "
    requires '[' !in text + cls + style && ')' !in text + cls + style
    ensures SpanOf(kw, CallText(kw, text + ", \"" + cls + "\", \"" + style + "\""))
         == "<span" + StyleOpen + style + "\"" + ClassOpen + cls + "\"" + ">" + text + "</span>"
  {
    var arg := text + ", \"" + cls + "\", \"" + style + "\"";
    assert forall c :: c in arg ==> c in text || c in cls || c in style || c in ", \"";
    assert forall c :: c in text || c in cls || c in style ==> c in text + cls + style;
    ArgumentOfCall(kw, arg);
    SpanArgsSpaced(text, cls, style);
    SpanHtmlOfThree(text, cls, style);
  }

  /** A call at the cursor becomes its element; the scan goes on behind it. */
  lemma {:induction false} SpanScanCall(pre: string, kw: string, arg: string, post: string)
    requires '[' !in arg && ')' !in arg
    ensures SpanScan(pre + CallText(kw, arg) + post, |pre|, kw)
         == pre + SpanHtml(SpanArgs(arg)) + SpanScan(post, 0, kw)
  {
    ArgumentOfCall(kw, arg);
    assert SpanRender(kw)(CallText(kw, arg), ()) == (SpanHtml(SpanArgs(arg)), ());
    CallScanAt(pre, kw, arg, post, (), true, 0, SpanRender(kw), SpanHtml(SpanArgs(arg)), ());
  }

  /** Text without the opening in any spelling is left as it is. */
  lemma {:induction false} SpanScanNone(doc: string, cursor: nat, kw: string)
    requires forall j :: cursor <= j < |doc| ==> !OpeningAt(doc, j, kw, true)
    ensures SpanScan(doc, cursor, kw) == doc
  {
    CallScanNone(doc, cursor, (), kw, true, 0, SpanRender(kw));
  }

  // ---------------------------------------------------------------------
  // The handler

  /** What the rewriter does at a matched call, spelled out. */
  lemma {:induction false} SpanRewriteAt(s: string, i: nat, kw: string)
    requires MacroCallAt(s, i, kw, true, 0)
    ensures CallRewriter(kw, true, 0, SpanRender(kw))(s, i, ())
         == (Replace(MacroCallLength(s, i, kw, true, 0), SpanOf(kw, MacroCallText(s, i, kw, true, 0))), ())
  {
  }

  /** What the handler does at a matched call: the element and the length of the call it replaces. */
  method ExpandSpan(s: string, i: nat, kw: string) returns (element: string, len: nat)
    requires MacroCallAt(s, i, kw, true, 0)
    ensures len == MacroCallLength(s, i, kw, true, 0)
    ensures CallRewriter(kw, true, 0, SpanRender(kw))(s, i, ()) == (Replace(len, element), ())
  {
    SpanRewriteAt(s, i, kw);
    var call := MacroCallText(s, i, kw, true, 0);
    len := MacroCallLength(s, i, kw, true, 0);
    var args := SplitArguments(CallArgument(call, kw));
    element := SpanHtml(args);
  }

  /** `Macros::replaceSpan` on the buffer `doc`. */
  method ReplaceSpan(doc: string, kw: string) returns (out: string)
    ensures out == SpanScan(doc, 0, kw)
  {
    var s := doc;
    var cursor: nat := 0;
    var next := FindFirst(s, cursor, MacroCall(kw, true, 0));
    while next.Some?
      invariant next == FindFirst(s, cursor, MacroCall(kw, true, 0))
      invariant SpanScan(s, cursor, kw) == SpanScan(doc, 0, kw)
      decreases Remaining(s, cursor)
    {
      s, cursor := SpanStep(s, cursor, kw, next.value);
      next := FindFirst(s, cursor, MacroCall(kw, true, 0));
    }
    out := s;
  }

  /** One turn of the handler's loop: the call found at `i` is replaced and the search resumes after it. */
  method SpanStep(s: string, cursor: nat, kw: string, i: nat) returns (s': string, cursor': nat)
    requires FindFirst(s, cursor, MacroCall(kw, true, 0)) == Some(i)
    ensures SpanScan(s', cursor', kw) == SpanScan(s, cursor, kw)
    ensures Remaining(s', cursor') < Remaining(s, cursor)
  {
    ghost var p, f := MacroCall(kw, true, 0), CallRewriter(kw, true, 0, SpanRender(kw));
    CallRewriterFits(kw, true, 0, SpanRender(kw));
    FindFirstHit(s, cursor, p);
    var element, len := ExpandSpan(s, i, kw);
    PassAfterReplaced(s, cursor, (), p, f, i, len, element, ());
    s', cursor' := s[..i] + element + s[i + len..], i + |element|;
  }



}
