/**
 * The built-in macros as a whole: the macro table read from the
 * `macros.conf` resource at construction, and `startParsing`, which runs
 * the handler of every table entry once per keyword, in table order,
 * over the document and the caller's list of headlines.
 *
 * A table line is `Name = keyword1, keyword2, ...`. Lines are trimmed;
 * lines starting with `Code` and blank lines are ignored, and so is
 * every line that does not hold exactly one `=`. The entry named
 * `Template` is not a macro: its keywords are the template keywords.
 */
module MacroEngine {
  import opened Text
  import opened Rewrite
  import opened Calls
  import Anchors
  import MacroHandlers
  import Pictures
  import TableOfContents
  import SpanMacro

  // ---------------------------------------------------------------------
  // The macro table

  /** A macro: its name and the keywords that call it, in file order. */
  datatype Macro = Macro(name: string, keywords: seq<string>)

  /** What one line of the table file contributes. */
  datatype Entry = Ignored | MacroEntry(macro: Macro) | TemplateEntry(keywords: seq<string>)

  /** The table read so far: the macros and the template keywords. */
  datatype Table = Table(macros: seq<Macro>, templates: seq<string>)

  const TemplateName := "Template"
  const CodePrefix := "Code"

  function TrimAll(pieces: seq<string>): (r: seq<string>)
    ensures |r| == |pieces|
    ensures forall k :: 0 <= k < |r| ==> r[k] == Trimmed(pieces[k])
    decreases |pieces|
  {
    if pieces == [] then [] else [Trimmed(pieces[0])] + TrimAll(pieces[1..])
  }

  /** The keywords of a line: the text after `=` cut at commas, each piece trimmed. */
  function Keywords(list: string): seq<string> {
    TrimAll(Split(list, ','))
  }

  /** One line of the table file. */
  function EntryOf(raw: string): Entry {
    var line := Trimmed(raw);
    if StartsWith(line, CodePrefix) || line == [] then Ignored
    else
      var parts := Split(line, '=');
      if |parts| != 2 then Ignored
      else
        var name := Trimmed(parts[0]);
        if name == TemplateName then TemplateEntry(Keywords(parts[1]))
        else MacroEntry(Macro(name, Keywords(parts[1])))
  }

  function Add(t: Table, e: Entry): Table {
    match e
    case Ignored => t
    case MacroEntry(m) => t.(macros := t.macros + [m])
    case TemplateEntry(kws) => t.(templates := t.templates + kws)
  }

  /** The table read from the lines of the file, first line first. */
  function ReadTable(lines: seq<string>): Table
    decreases |lines|
  {
    if lines == [] then Table([], [])
    else Add(ReadTable(lines[..|lines| - 1]), EntryOf(lines[|lines| - 1]))
  }

  /** The table of the file, or the empty table when the file cannot be opened. */
  function LoadTable(file: Option<seq<string>>): Table {
    if file.None? then Table([], []) else ReadTable(file.value)
  }

  /**
   * A line is ignored exactly when, trimmed, it is blank, starts with
   * `Code`, or does not hold exactly one `=`.
   */
  lemma {:induction false} EntryIgnored(raw: string)
    ensures var line := Trimmed(raw);
      EntryOf(raw) == Ignored <==> (line == [] || StartsWith(line, CodePrefix) || Count(line, '=') != 1)
  {
    SplitCount(Trimmed(raw), '=');
  }

  /** No keyword read from a line has whitespace at its ends, a comma or an `=`. */
  lemma {:induction false} KeywordsClean(list: string)
    requires '=' !in list
    ensures forall k :: 0 <= k < |Keywords(list)| ==> Clean(Keywords(list)[k])
    ensures |Keywords(list)| == Count(list, ',') + 1
  {
    SplitCount(list, ',');
    var pieces := Split(list, ',');
    SplitFree(list, ',', '=');
    forall k | 0 <= k < |pieces| ensures Clean(Trimmed(pieces[k])) {
      TrimmedFree(pieces[k], ',');
      TrimmedFree(pieces[k], '=');
    }
  }

  /** A name or keyword as the table gives it: no whitespace at its ends, no `=` and no comma. */
  predicate Clean(w: string) {
    (w == [] || (!IsSpace(w[0]) && !IsSpace(w[|w| - 1]))) && '=' !in w && ',' !in w
  }

  /**
   * A macro entry never carries the name `Template`; its name has no
   * whitespace at its ends and no `=`, and it has one keyword more than
   * the line has commas after the `=`.
   */
  lemma {:induction false} EntryShape(raw: string)
    ensures EntryOf(raw).MacroEntry? ==>
      var m := EntryOf(raw).macro;
      && m.name != TemplateName
      && (m.name == [] || (!IsSpace(m.name[0]) && !IsSpace(m.name[|m.name| - 1]))) && '=' !in m.name
      && (forall k :: 0 <= k < |m.keywords| ==> Clean(m.keywords[k]))
      && |m.keywords| == Count(Split(Trimmed(raw), '=')[1], ',') + 1
  {
    var parts := Split(Trimmed(raw), '=');
    if EntryOf(raw).MacroEntry? {
      TrimmedFree(parts[0], '=');
      KeywordsClean(parts[1]);
    }
  }

  /** The line that declares a macro: `name=kw1,kw2,...`. */
  function ConfigLine(name: string, keywords: seq<string>): string {
    name + "=" + Join(keywords, ',')
  }

  /** A macro the table file can declare: a clean name that is not `Template` and does not start with `Code`, and clean non-empty keywords. */
  predicate Declarable(m: Macro) {
    && m.name != [] && Clean(m.name) && m.name != TemplateName && !StartsWith(m.name, CodePrefix)
    && m.keywords != []
    && forall k :: 0 <= k < |m.keywords| ==> m.keywords[k] != [] && Clean(m.keywords[k])
  }

  lemma {:induction false} JoinEnds(keywords: seq<string>)
    requires keywords != []
    requires forall k :: 0 <= k < |keywords| ==> keywords[k] != [] && Clean(keywords[k])
    ensures var j := Join(keywords, ','); j != [] && j[|j| - 1] == keywords[|keywords| - 1][|keywords[|keywords| - 1]| - 1]
    decreases |keywords|
  {
    if |keywords| > 1 {
      JoinEnds(keywords[1..]);
    }
  }

  lemma {:induction false} KeywordsOfJoin(keywords: seq<string>)
    requires keywords != []
    requires forall k :: 0 <= k < |keywords| ==> Clean(keywords[k])
    ensures Keywords(Join(keywords, ',')) == keywords
  {
    JoinSplit(keywords, ',');
    forall k | 0 <= k < |keywords| ensures Trimmed(keywords[k]) == keywords[k] {
      TrimmedEnds(keywords[k]);
    }
  }

  /** A line that starts with a name not starting with `Code`, followed by `=`, does not start with `Code`. */
  lemma {:induction false} NotCode(name: string, rest: string)
    requires !StartsWith(name, CodePrefix)
    ensures !StartsWith(name + "=" + rest, CodePrefix)
  {
    var line := name + "=" + rest;
    if |name| >= 4 {
      assert line[..4] == name[..4];
    } else {
      assert line[|name|] == '=';
    }
  }

  /** Reading the line that declares a macro gives that macro back. */
  lemma {:induction false} EntryOfConfigLine(m: Macro)
    requires Declarable(m)
    ensures EntryOf(ConfigLine(m.name, m.keywords)) == MacroEntry(m)
  {
    var j := Join(m.keywords, ',');
    var line := ConfigLine(m.name, m.keywords);
    assert Trimmed(line) == line by {
      JoinEnds(m.keywords);
      assert line[|line| - 1] == j[|j| - 1];
      TrimmedEnds(line);
    }
    NotCode(m.name, j);
    assert Split(line, '=') == [m.name, j] by {
      JoinFree(m.keywords, ',', '=');
      SplitAbsent(j, '=');
      assert line == m.name + ['='] + j;
      SplitAfterPrefix(m.name, j, '=');
    }
    TrimmedEnds(m.name);
    KeywordsOfJoin(m.keywords);
  }

  /** The lines that declare the macros, in order. */
  function ConfigLines(ms: seq<Macro>): (r: seq<string>)
    ensures |r| == |ms|
    decreases |ms|
  {
    if ms == [] then [] else ConfigLines(ms[..|ms| - 1]) + [ConfigLine(ms[|ms| - 1].name, ms[|ms| - 1].keywords)]
  }

  /** One more line adds its entry to the table. */
  lemma {:induction false} ReadTableSnoc(lines: seq<string>, line: string)
    ensures ReadTable(lines + [line]) == Add(ReadTable(lines), EntryOf(line))
  {
    assert (lines + [line])[..|lines|] == lines;
  }

  /** A file of macro declarations is read back as exactly those macros, in order, with no template keywords. */
  lemma {:induction false} ReadConfigLines(ms: seq<Macro>)
    requires forall k :: 0 <= k < |ms| ==> Declarable(ms[k])
    ensures ReadTable(ConfigLines(ms)) == Table(ms, [])
    decreases |ms|
  {
    if ms != [] {
      var init, m := ms[..|ms| - 1], ms[|ms| - 1];
      assert ms == init + [m];
      ReadConfigLines(init);
      ReadConfigStep(init, m);
    }
  }

  /** A declaration line appended to a file read back as its macros adds that macro. */
  lemma {:induction false} ReadConfigStep(ms: seq<Macro>, m: Macro)
    requires Declarable(m) && ReadTable(ConfigLines(ms)) == Table(ms, [])
    ensures ReadTable(ConfigLines(ms + [m])) == Table(ms + [m], [])
  {
    assert (ms + [m])[..|ms|] == ms;
    ReadTableSnoc(ConfigLines(ms), ConfigLine(m.name, m.keywords));
    EntryOfConfigLine(m);
  }

  /** No macro of a read table is named `Template`. */
  lemma {:induction false} ReadTableNoTemplate(lines: seq<string>)
    ensures forall k :: 0 <= k < |ReadTable(lines).macros| ==> ReadTable(lines).macros[k].name != TemplateName
    decreases |lines|
  {
    if lines != [] {
      ReadTableNoTemplate(lines[..|lines| - 1]);
      EntryShape(lines[|lines| - 1]);
    }
  }

  /** A file with more lines after it gives the table of the first part, extended by the rest. */
  lemma {:induction false} ReadTableAppend(a: seq<string>, b: seq<string>)
    ensures StartsWithAll(ReadTable(a + b), ReadTable(a))
    decreases |b|
  {
    if b == [] {
      assert a + b == a;
    } else {
      var init := b[..|b| - 1];
      assert (a + b)[..|a + b| - 1] == a + init;
      ReadTableAppend(a, init);
      AddExtends(ReadTable(a + init), ReadTable(a), EntryOf(b[|b| - 1]));
    }
  }

  /** Adding an entry keeps a table an extension of the tables it extended. */
  lemma {:induction false} AddExtends(t: Table, u: Table, e: Entry)
    requires StartsWithAll(t, u)
    ensures StartsWithAll(Add(t, e), u)
  {
    match e
    case Ignored =>
    case MacroEntry(m) =>
      assert (t.macros + [m])[..|u.macros|] == t.macros[..|u.macros|];
    case TemplateEntry(kws) =>
      assert (t.templates + kws)[..|u.templates|] == t.templates[..|u.templates|];
  }

  /** Both lists of `t` extend those of `u`. */
  predicate StartsWithAll(t: Table, u: Table) {
    |u.macros| <= |t.macros| && t.macros[..|u.macros|] == u.macros
    && |u.templates| <= |t.templates| && t.templates[..|u.templates|] == u.templates
  }

  // ---------------------------------------------------------------------
  // Running the macros

  /** What the caller's system supplies: date conversion, file system, and the platform's file-URL prefix. */
  datatype Host = Host(iso: string -> Option<string>, epoch: nat -> string, ext: string,
                       absolutePath: string -> string, fileExists: string -> bool,
                       size: (string, nat, nat) -> (string, string), fuel: nat)

  /** Where pictures are looked up for a document: images next to the current file, if there is one. */
  function SiteOf(share: string, tmpImgDir: string, currentFile: string, community: string, host: Host): Pictures.PictureSite {
    Pictures.PictureSite(share, community, if currentFile == "" then "" else host.absolutePath(currentFile),
                         tmpImgDir, host.ext, host.fileExists, host.size)
  }

  /** The macro names with a handler. */
  predicate Known(name: string) {
    name == "Anchor" || name == "Attachment" || name == "Date" || name == "Newline"
    || name == "Picture" || name == "TableOfContents" || name == "Span"
  }

  /** One handler run with one keyword: the buffer and the caller's headline list after it. */
  function Apply(name: string, kw: string, doc: string, hs: seq<string>, site: Pictures.PictureSite, host: Host): (string, seq<string>) {
    if name == "Anchor" then (Anchors.AnchorScan(doc, 0, kw), hs)
    else if name == "Attachment" then (MacroHandlers.AttachmentMacroScan(doc, 0, kw), hs)
    else if name == "Date" then (MacroHandlers.DateScan(doc, 0, kw, host.iso, host.epoch), hs)
    else if name == "Newline" then (MacroHandlers.NewlineText(doc, kw), hs)
    else if name == "Picture" then (Pictures.PictureScan(doc, 0, site, kw, host.fuel), hs)
    else if name == "TableOfContents" then TableOfContents.TocScan(doc, kw, hs)
    else if name == "Span" then (SpanMacro.SpanScan(doc, 0, kw), hs)
    else (doc, hs)
  }

  /** One macro with each of its keywords in turn. */
  function ApplyAll(name: string, kws: seq<string>, doc: string, hs: seq<string>, site: Pictures.PictureSite, host: Host): (string, seq<string>)
    decreases |kws|
  {
    if kws == [] then (doc, hs)
    else
      var (d, h) := Apply(name, kws[0], doc, hs, site, host);
      ApplyAll(name, kws[1..], d, h, site, host)
  }

  /** `startParsing`: every macro of the table, in order. */
  function Expand(ms: seq<Macro>, doc: string, hs: seq<string>, site: Pictures.PictureSite, host: Host): (string, seq<string>)
    decreases |ms|
  {
    if ms == [] then (doc, hs)
    else
      var (d, h) := ApplyAll(ms[0].name, ms[0].keywords, doc, hs, site, host);
      Expand(ms[1..], d, h, site, host)
  }

  /** Macros are run one after another: the table split in two runs as its first part, then its second on the result. */
  lemma {:induction false} ExpandConcat(a: seq<Macro>, b: seq<Macro>, doc: string, hs: seq<string>, site: Pictures.PictureSite, host: Host)
    ensures var (d, h) := Expand(a, doc, hs, site, host);
      Expand(a + b, doc, hs, site, host) == Expand(b, d, h, site, host)
    decreases |a|
  {
    if a == [] {
      assert a + b == b;
    } else {
      assert (a + b)[0] == a[0];
      assert (a + b)[1..] == a[1..] + b;
      var (d, h) := ApplyAll(a[0].name, a[0].keywords, doc, hs, site, host);
      ExpandConcat(a[1..], b, d, h, site, host);
    }
  }

  /** A macro without a handler changes nothing, with any keywords. */
  lemma {:induction false} ApplyAllUnknown(name: string, kws: seq<string>, doc: string, hs: seq<string>, site: Pictures.PictureSite, host: Host)
    requires !Known(name)
    ensures ApplyAll(name, kws, doc, hs, site, host) == (doc, hs)
    decreases |kws|
  {
    if kws != [] {
      ApplyAllUnknown(name, kws[1..], doc, hs, site, host);
    }
  }

  /** A table of macros without handlers leaves the document and the headline list as they are. */
  lemma {:induction false} ExpandUnknown(ms: seq<Macro>, doc: string, hs: seq<string>, site: Pictures.PictureSite, host: Host)
    requires forall k :: 0 <= k < |ms| ==> !Known(ms[k].name)
    ensures Expand(ms, doc, hs, site, host) == (doc, hs)
    decreases |ms|
  {
    if ms != [] {
      ApplyAllUnknown(ms[0].name, ms[0].keywords, doc, hs, site, host);
      ExpandUnknown(ms[1..], doc, hs, site, host);
    }
  }

  /** One macro keeps the number of headlines, and leaves the list as it is unless it is the table of contents. */
  lemma {:induction false} ApplyAllHeadlines(name: string, kws: seq<string>, doc: string, hs: seq<string>, site: Pictures.PictureSite, host: Host)
    ensures |ApplyAll(name, kws, doc, hs, site, host).1| == |hs|
    ensures name != "TableOfContents" ==> ApplyAll(name, kws, doc, hs, site, host).1 == hs
    decreases |kws|
  {
    if kws != [] {
      var (d, h) := Apply(name, kws[0], doc, hs, site, host);
      if name == "TableOfContents" {
        TableOfContents.TocScanLength(doc, kws[0], hs);
      }
      ApplyAllHeadlines(name, kws[1..], d, h, site, host);
    }
  }

  /**
   * The headline list keeps its length through the whole run, and only a
   * table-of-contents entry in the table changes it.
   */
  lemma {:induction false} ExpandHeadlines(ms: seq<Macro>, doc: string, hs: seq<string>, site: Pictures.PictureSite, host: Host)
    ensures |Expand(ms, doc, hs, site, host).1| == |hs|
    ensures (forall k :: 0 <= k < |ms| ==> ms[k].name != "TableOfContents") ==> Expand(ms, doc, hs, site, host).1 == hs
    decreases |ms|
  {
    if ms != [] {
      var (d, h) := ApplyAll(ms[0].name, ms[0].keywords, doc, hs, site, host);
      ApplyAllHeadlines(ms[0].name, ms[0].keywords, doc, hs, site, host);
      ExpandHeadlines(ms[1..], d, h, site, host);
    }
  }

  /** A `Newline` macro with one keyword turns the keyword call and every `\\` into a line break. */
  lemma {:induction false} ExpandNewline(kw: string, doc: string, hs: seq<string>, site: Pictures.PictureSite, host: Host)
    ensures Expand([Macro("Newline", [kw])], doc, hs, site, host) == (MacroHandlers.NewlineText(doc, kw), hs)
    ensures MacroHandlers.NoPair(Expand([Macro("Newline", [kw])], doc, hs, site, host).0, '\\')
  {
    var ms := [Macro("Newline", [kw])];
    var out := MacroHandlers.NewlineText(doc, kw);
    assert ms[1..] == [];
    assert [kw][1..] == [];
    assert Apply("Newline", kw, doc, hs, site, host) == (out, hs);
    assert ApplyAll("Newline", [kw], doc, hs, site, host) == ApplyAll("Newline", [], out, hs, site, host);
    assert Expand(ms, doc, hs, site, host) == Expand([], out, hs, site, host);
    MacroHandlers.NewlineLeavesNoDoubleBackslash(doc, kw);
  }

  // ---------------------------------------------------------------------
  // The object

  /** `Macros`: the table read at construction and the handlers. */
  class Macros {
    const macros: seq<Macro>
    const templates: seq<string>
    const share: string
    const tmpImgDir: string

    /**
     * Reads the table line by line; `file` is `None` when the resource
     * cannot be opened, and the table stays empty.
     */
    constructor (file: Option<seq<string>>, share: string, tmpImgDir: string)
      ensures Table(macros, templates) == LoadTable(file)
      ensures this.share == share && this.tmpImgDir == tmpImgDir
    {
      var t := Table([], []);
      if file.Some? {
        var lines := file.value;
        for i := 0 to |lines|
          invariant t == ReadTable(lines[..i])
        {
          assert lines[..i + 1][..i] == lines[..i];
          t := Add(t, EntryOf(lines[i]));
        }
        assert lines[..|lines|] == lines;
      }
      macros := t.macros;
      templates := t.templates;
      this.share := share;
      this.tmpImgDir := tmpImgDir;
    }

    /** `Macros::replaceAnchors`. */
    static method ReplaceAnchors(doc: string, kw: string) returns (out: string)
      ensures out == Anchors.AnchorScan(doc, 0, kw)
    {
      Anchors.AnchorPassProper(kw);
      var u;
      out, u := RunPass(doc, (), Anchors.AnchorCall(kw), Anchors.AnchorRewriter(kw));
    }

    /** `Macros::replaceAttachments`. */
    static method ReplaceAttachments(doc: string, kw: string) returns (out: string)
      ensures out == MacroHandlers.AttachmentMacroScan(doc, 0, kw)
    {
      CallRewriterLocal(kw, true, 0, MacroHandlers.AttachmentMacroRender(kw));
      var u;
      out, u := RunPassAfter(doc, (), MacroCall(kw, true, 0), CallRewriter(kw, true, 0, MacroHandlers.AttachmentMacroRender(kw)));
    }

    /** `Macros::replaceDates`. */
    static method ReplaceDates(doc: string, kw: string, iso: string -> Option<string>, epoch: nat -> string) returns (out: string)
      ensures out == MacroHandlers.DateScan(doc, 0, kw, iso, epoch)
    {
      CallRewriterLocal(kw, true, 0, MacroHandlers.DateRender(kw, iso, epoch));
      var u;
      out, u := RunPassAfter(doc, (), MacroCall(kw, true, 0), CallRewriter(kw, true, 0, MacroHandlers.DateRender(kw, iso, epoch)));
    }

    /** `Macros::replacePictures`, for the document `currentFile` of `community`. */
    method ReplacePictures(doc: string, kw: string, currentFile: string, community: string, host: Host) returns (out: string)
      ensures out == Pictures.PictureScan(doc, 0, SiteOf(share, tmpImgDir, currentFile, community, host), kw, host.fuel)
    {
      var site := SiteOf(share, tmpImgDir, currentFile, community, host);
      CallRewriterFits(kw, false, 1, Pictures.PictureRender(site, kw));
      var u;
      out, u := RunPassFuel(doc, (), MacroCall(kw, false, 1), CallRewriter(kw, false, 1, Pictures.PictureRender(site, kw)), host.fuel);
    }

    /** One handler with one keyword, chosen by the macro's name. */
    method Dispatch(name: string, kw: string, doc: string, headlines: array<string>,
                    currentFile: string, community: string, host: Host) returns (out: string)
      modifies headlines
      ensures (out, headlines[..])
           == Apply(name, kw, doc, old(headlines[..]), SiteOf(share, tmpImgDir, currentFile, community, host), host)
    {
      if name == "Anchor" {
        out := ReplaceAnchors(doc, kw);
      } else if name == "Attachment" {
        out := ReplaceAttachments(doc, kw);
      } else if name == "Date" {
        out := ReplaceDates(doc, kw, host.iso, host.epoch);
      } else if name == "Newline" {
        out := MacroHandlers.NewlineText(doc, kw);
      } else if name == "Picture" {
        out := ReplacePictures(doc, kw, currentFile, community, host);
      } else if name == "TableOfContents" {
        out := TableOfContents.ReplaceTableOfContents(doc, kw, headlines);
      } else if name == "Span" {
        out := SpanMacro.ReplaceSpan(doc, kw);
      } else {
        out := doc;
      }
    }

    /**
     * `Macros::startParsing`: every macro of the table with each of its
     * keywords, in order, over the document and the caller's headlines.
     */
    method StartParsing(doc: string, currentFile: string, community: string, headlines: array<string>, host: Host)
        returns (out: string)
      modifies headlines
      ensures (out, headlines[..])
           == Expand(macros, doc, old(headlines[..]), SiteOf(share, tmpImgDir, currentFile, community, host), host)
    {
      ghost var site := SiteOf(share, tmpImgDir, currentFile, community, host);
      ghost var hs0 := headlines[..];
      out := doc;
      for i := 0 to |macros|
        invariant Expand(macros[i..], out, headlines[..], site, host) == Expand(macros, doc, hs0, site, host)
      {
        var m := macros[i];
        ghost var d0, h0 := out, headlines[..];
        assert macros[i..][1..] == macros[i + 1..];
        for j := 0 to |m.keywords|
          invariant ApplyAll(m.name, m.keywords[j..], out, headlines[..], site, host) == ApplyAll(m.name, m.keywords, d0, h0, site, host)
        {
          assert m.keywords[j..][1..] == m.keywords[j + 1..];
          out := Dispatch(m.name, m.keywords[j], out, headlines, currentFile, community, host);
        }
        assert m.keywords[|m.keywords|..] == [];
      }
    }
  }
}
