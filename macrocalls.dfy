/**
 * The handlers of the macro engine that rewrite each call on its own:
 * `Attachment`, `Date` and `Newline`. The first two match the opening
 * ignoring case, let the argument be empty and go on after the inserted
 * text; `Newline` is two plain replace-alls over the whole buffer.
 */
module MacroHandlers {
  import opened Text
  import opened Rewrite
  import opened Calls

  // ---------------------------------------------------------------------
  // Attachment: `[[Anhang("datei.txt")]]`

  /** The link an attachment macro call becomes: the quote-free argument as target and as text. */
  function AttachmentMacroOf(kw: string, call: string): string {
    AttachmentHtml(AttachmentName(call, kw), AttachmentName(call, kw))
  }

  function AttachmentMacroRender(kw: string): CallRender<()> {
    (call: string, u: ()) => (AttachmentMacroOf(kw, call), u)
  }

  /** `Macros::replaceAttachments` from `cursor` on. */
  function AttachmentMacroScan(doc: string, cursor: nat, kw: string): string {
    CallScan(doc, cursor, (), kw, true, 0, AttachmentMacroRender(kw)).0
  }

  lemma {:induction false} AttachmentMacroRenderOf(kw: string, arg: string)
    requires '[' !in arg && ')' !in arg
    ensures var name := RemoveChar(arg, '"');
      AttachmentMacroRender(kw)(CallText(kw, arg), ()) == (AttachmentHtml(name, name), ())
  {
    ArgumentOfCall(kw, arg);
  }

  /**
   * A call at the cursor becomes a link whose target and text are both
   * the argument without double quotes, with no directory in front; the
   * scan goes on behind the link.
   */
  lemma {:induction false} AttachmentMacroScanCall(pre: string, kw: string, arg: string, post: string)
    requires '[' !in arg && ')' !in arg
    ensures var name := RemoveChar(arg, '"');
      AttachmentMacroScan(pre + CallText(kw, arg) + post, |pre|, kw)
      == pre + AttachmentHtml(name, name) + AttachmentMacroScan(post, 0, kw)
  {
    var name := RemoveChar(arg, '"');
    AttachmentMacroRenderOf(kw, arg);
    CallScanAt(pre, kw, arg, post, (), true, 0, AttachmentMacroRender(kw), AttachmentHtml(name, name), ());
  }

  /** Text without an opening in any spelling is left as it is. */
  lemma {:induction false} AttachmentMacroScanNone(doc: string, cursor: nat, kw: string)
    requires forall j :: cursor <= j < |doc| ==> !OpeningAt(doc, j, kw, true)
    ensures AttachmentMacroScan(doc, cursor, kw) == doc
  {
    CallScanNone(doc, cursor, (), kw, true, 0, AttachmentMacroRender(kw));
  }

  // ---------------------------------------------------------------------
  // Date: `[[Datum(2021-01-01T12:00:00)]]`, `[[Datum(1609502400)]]`

  const InvalidDate: string := "Invalid date"

  /**
   * What a date argument becomes. `iso` is the ISO 8601 reading followed
   * by the short locale format (None when the text is no valid ISO date);
   * `epoch` renders a count of seconds since 1970 in the same format.
   * Failing both, the fixed text `Invalid date`.
   */
  function DateText(arg: string, iso: string -> Option<string>, epoch: nat -> string): string {
    match iso(arg)
    case Some(shown) => shown
    case None =>
      match ParseUnsigned(arg, MaxUInt)
      case Some(secs) => epoch(secs)
      case None => InvalidDate
  }

  function DateOf(kw: string, iso: string -> Option<string>, epoch: nat -> string, call: string): string {
    DateText(CallArgument(call, kw), iso, epoch)
  }

  function DateRender(kw: string, iso: string -> Option<string>, epoch: nat -> string): CallRender<()> {
    (call: string, u: ()) => (DateOf(kw, iso, epoch, call), u)
  }

  /** `Macros::replaceDates` from `cursor` on. */
  function DateScan(doc: string, cursor: nat, kw: string, iso: string -> Option<string>, epoch: nat -> string): string {
    CallScan(doc, cursor, (), kw, true, 0, DateRender(kw, iso, epoch)).0
  }

  /**
   * An argument that is no ISO date but a run of digits is a time stamp
   * when it fits 32 bits unsigned and invalid when it does not.
   */
  lemma {:induction false} DateOfDigits(arg: string, iso: string -> Option<string>, epoch: nat -> string)
    requires iso(arg).None? && |arg| > 0 && AllDigits(arg)
    ensures DateText(arg, iso, epoch) == if Decimal(arg) <= MaxUInt then epoch(Decimal(arg)) else InvalidDate
  {
    assert ParseUnsigned(arg, MaxUInt) == ParseDigits(arg, MaxUInt) by {
      assert forall k :: 0 <= k < |arg| ==> !IsSpace(arg[k]);
      TrimmedNoSpace(arg);
    }
  }

  /** A signed number `+d` that is no ISO date is read as the time stamp `d`. */
  lemma {:induction false} DateOfSigned(d: string, iso: string -> Option<string>, epoch: nat -> string)
    requires iso("+" + d).None? && |d| > 0 && AllDigits(d)
    ensures DateText("+" + d, iso, epoch) == if Decimal(d) <= MaxUInt then epoch(Decimal(d)) else InvalidDate
  {
    ParseSigned(d, MaxUInt);
  }

  /** A blank argument that is no ISO date gives exactly `Invalid date`. */
  lemma {:induction false} DateOfBlank(arg: string, iso: string -> Option<string>, epoch: nat -> string)
    requires iso(arg).None? && forall k :: 0 <= k < |arg| ==> IsSpace(arg[k])
    ensures DateText(arg, iso, epoch) == InvalidDate
  {
    var a := TrimStart(arg);
    assert Trimmed(arg) == TrimEnd(a) == [];
  }

  /** A call at the cursor becomes the date text of its argument; the scan goes on behind it. */
  lemma {:induction false} DateScanCall(pre: string, kw: string, arg: string, post: string,
                                        iso: string -> Option<string>, epoch: nat -> string)
    requires '[' !in arg && ')' !in arg
    ensures DateScan(pre + CallText(kw, arg) + post, |pre|, kw, iso, epoch)
         == pre + DateText(arg, iso, epoch) + DateScan(post, 0, kw, iso, epoch)
  {
    ArgumentOfCall(kw, arg);
    assert DateRender(kw, iso, epoch)(CallText(kw, arg), ()) == (DateText(arg, iso, epoch), ());
    CallScanAt(pre, kw, arg, post, (), true, 0, DateRender(kw, iso, epoch), DateText(arg, iso, epoch), ());
  }

  // ---------------------------------------------------------------------
  // Newline: `[[BR]]` and `\\`

  const LineBreak: string := "<br />"

  /** The two backslashes of a forced line break. */
  const DoubleBackslash: string := "\\\\"

  /** `Macros::replaceNewline`: first every `[[kw]]`, then every `\\`, becomes `<br />`. */
  function NewlineText(doc: string, kw: string): string {
    ReplaceAll(ReplaceAll(doc, "[[" + kw + "]]", LineBreak), DoubleBackslash, LineBreak)
  }

  /** No two neighbouring characters are both `c`. */
  predicate NoPair(s: string, c: char) {
    forall k :: 0 <= k < |s| - 1 ==> !(s[k] == c && s[k + 1] == c)
  }

  /**
   * Replacing every `cc` by a text without `c` leaves no `cc` behind, and
   * the result starts with `c` only where the text did.
   */
  lemma {:induction false} ReplacePairGone(s: string, c: char, rep: string)
    requires c !in rep
    ensures NoPair(ReplaceAll(s, [c, c], rep), c)
    ensures var r := ReplaceAll(s, [c, c], rep); |r| > 0 && r[0] == c ==> |s| > 0 && s[0] == c
    decreases |s|
  {
    var r := ReplaceAll(s, [c, c], rep);
    if |s| < 2 {
    } else if s[..2] == [c, c] {
      var tail := ReplaceAll(s[2..], [c, c], rep);
      ReplacePairGone(s[2..], c, rep);
      assert r == rep + tail;
      forall k | 0 <= k < |r| - 1 ensures !(r[k] == c && r[k + 1] == c) {
        if k < |rep| {
          assert r[k] == rep[k];
        } else {
          assert r[k] == tail[k - |rep|] && r[k + 1] == tail[k - |rep| + 1];
        }
      }
      if |r| > 0 && r[0] == c {
        assert s[0] == s[..2][0];
      }
    } else {
      var tail := ReplaceAll(s[1..], [c, c], rep);
      ReplacePairGone(s[1..], c, rep);
      assert r == [s[0]] + tail;
      assert s[..2] == [s[0], s[1]];
      assert s[1..][0] == s[1];
      forall k | 0 <= k < |r| - 1 ensures !(r[k] == c && r[k + 1] == c) {
        if k == 0 {
          assert r[1] == tail[0];
        } else {
          assert r[k] == tail[k - 1] && r[k + 1] == tail[k];
        }
      }
    }
  }

  /** After the Newline macro no `\\` is left anywhere in the buffer. */
  lemma {:induction false} NewlineLeavesNoDoubleBackslash(doc: string, kw: string)
    ensures NoPair(NewlineText(doc, kw), '\\')
  {
    assert DoubleBackslash == ['\\', '\\'];
    ReplacePairGone(ReplaceAll(doc, "[[" + kw + "]]", LineBreak), '\\', LineBreak);
  }

  /** A buffer without `[[` and without a backslash is left as it is. */
  lemma {:induction false} NewlineUnchanged(doc: string, kw: string)
    requires '\\' !in doc && forall k :: 0 <= k < |doc| - 1 ==> !(doc[k] == '[' && doc[k + 1] == '[')
    ensures NewlineText(doc, kw) == doc
  {
    var call := "[[" + kw + "]]";
    forall k: nat ensures !OccursAt(doc, call, k) {
      OccursAtSlice(doc, call, k);
      assert k + |call| <= |doc| ==> doc[k..k + |call|][0] == doc[k] && doc[k..k + |call|][1] == doc[k + 1];
    }
    ReplaceAllAbsent(doc, call, LineBreak);
    ReplaceAllNoStart(doc, DoubleBackslash, LineBreak);
  }

  /** A call on its own becomes exactly one `<br />`. */
  lemma {:induction false} NewlineOfCall(kw: string)
    ensures NewlineText("[[" + kw + "]]", kw) == LineBreak
  {
    var call := "[[" + kw + "]]";
    assert call[..|call|] == call;
    assert call[|call|..] == [];
    assert ReplaceAll([], call, LineBreak) == [];
    assert ReplaceAll(call, call, LineBreak) == LineBreak + [] == LineBreak;
    assert '\\' !in LineBreak;
    ReplaceAllNoStart(LineBreak, DoubleBackslash, LineBreak);
    assert NewlineText(call, kw) == ReplaceAll(LineBreak, DoubleBackslash, LineBreak);
  }
}
