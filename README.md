# inyokaedit parser core in Dafny

A model of the two parts of inyokaedit's wiki-markup parser that turn Inyoka markup into HTML before the rest of the pipeline runs: the link resolver `CParseLinks` and the built-in macros `Macros`.

- `CParseLinks` (`application/parser/CParseLinks.cpp`) rewrites the document in seven passes, always in the same order: external links `[http://… text]`, wiki links `[:Page:text]`, interwiki links `[key:page:text]`, anchor links `[#anchor text]`, knowledge-box references `[3]`, anchor and attachment macro calls `[[keyword(argument)]]`, with the keywords the object is given. The wiki pass may probe each page over the network and mark the link `missing`. That class is a field of the object, so it carries over from one link to the next and from one document to the next.
- `Macros` (`application/parser/macros.cpp`) reads the macro table (`Name = keyword1, keyword2`) when it is built. `startParsing` runs the handler of every macro in the table once per keyword, in table order. The handlers are Anchor, Attachment, Date, Newline, Picture, TableOfContents and Span. The TableOfContents handler overwrites the caller's list of headlines in place.

Every pass is a regular-expression scan over a text buffer. It finds the leftmost match from a cursor, replaces the match by HTML or keeps it, and moves the cursor on. Where the cursor goes next differs from pass to pass:
- The bracket passes of `CParseLinks`, the anchor macro and the Picture macro resume at the match position plus the length of the ORIGINAL match. That point can be inside the inserted HTML, or past its end.
- The other macro handlers resume after the inserted text.
- An opening without a closing `]` is skipped by one character.

Two consequences of the code are kept in the model:
- Resuming at the match plus the original length (`CParseLinks.cpp:119`, `macros.cpp:146`, `macros.cpp:338`) lets a scan start inside text it has just inserted.
- The missing-page class (`m_sLinkClassAddition`) is not reset by a link with a description when checking is off (`CParseLinks.cpp:192-212`). It carries over between links and between documents.

Modules, one per file:

| module | file | what |
|---|---|---|
| `Text` | text.dfy | `QString` operations used by the source (`trimmed`, `split`, `remove`, `replace`, `indexOf`, `toUShort`, `toUInt`) and the leftmost-match search |
| `Rewrite` | rewrite.dfy | the generic scan-and-replace loop in its two resume disciplines (after the original length, after the inserted text), with a fuel-bounded variant |
| `Calls` | calls.dfy | the macro call `[[Keyword(argument)]]` with a minimal `(.*)` or `(.+)`, matched with or without case, and the handler that replaces one call |
| `Anchors` | anchors.dfy | the anchor macro: the name pattern, the transliteration of umlauts and blanks, and the element |
| `Links` | links.dfy | the bracket passes of `CParseLinks` as decisions on a span from `[` to the first `]` |
| `MacroHandlers` | macrocalls.dfy | the Attachment, Date and Newline macros |
| `Pictures` | pictures.dfy | the Picture macro: path resolution, modifiers and the element |
| `TableOfContents` | toc.dfy | the TableOfContents macro over a headline `array` the handler mutates |
| `SpanMacro` | span.dfy | the Span macro and its quote-aware argument split |
| `MacroEngine` | macros.dfy | the macro table, the dispatch, and class `Macros` |
| `LinkResolver` | parselinks.dfy | the interwiki table copy, the seven passes in order, and class `CParseLinks` |

Each scan is a function, and each loop of the source is a method proved to compute that function. The properties the source relies on are lemmas about the functions:
- what one link or call at the cursor becomes, and where the scan resumes;
- that text without an opening is left alone;
- that the configuration file reads back as the table it declares;
- that a second table of contents lists nothing.

## Model

| member | source | states |
|---|---|---|
| Text.Trimmed | application/parser/macros.cpp:53 | the result is the input with only whitespace removed, from the front and the back; it neither starts nor ends with whitespace, whitespace being the `QChar::isSpace` set: tab to carriage return, blank, U+0085, the no-break space and the Unicode space, line and paragraph separators |
| Text.TrimmedNoSpace | application/parser/macros.cpp:58 | text without whitespace is left as it is by trimming |
| Text.TrimmedEnds | application/parser/macros.cpp:58 | text that neither starts nor ends with whitespace is its own trimmed form |
| Text.Split | application/parser/macros.cpp:56 | splitting at a separator gives at least one piece and no piece holds the separator |
| Text.SplitCount | application/parser/macros.cpp:57 | the number of pieces is the number of separators plus one |
| Text.SplitJoin | application/parser/CParseLinks.cpp:262 | joining the pieces with the separator gives the text back |
| Text.JoinSplit | application/parser/macros.cpp:60 | pieces free of the separator, joined and split again, are the same pieces |
| Text.SplitAfterPrefix | application/parser/CParseLinks.cpp:262 | a separator-free head followed by the separator is the first piece, the rest is split on its own |
| Text.ToUShort | application/parser/CParseLinks.cpp:386 | the 16-bit conversion never exceeds 65535 |
| Text.ToUShortDigits | application/parser/CParseLinks.cpp:386 | a digit string converts to its value when that fits in 16 bits and to 0 otherwise |
| Text.ToUInt | application/parser/macros.cpp:283 | the 32-bit conversion never exceeds 4294967295 |
| Text.ParseSigned | application/parser/macros.cpp:283 | one leading `+` before the digits is accepted by `toUInt` and `toUShort` and does not change the value |
| Text.ToUShortSigned | application/parser/macros.cpp:382 | `+digits` converts to the value of the digits when that fits in 16 bits and to 0 otherwise |
| Text.ToUIntSigned | application/parser/macros.cpp:203 | `+digits` converts to the value of the digits when that fits in 32 bits and to 0 otherwise |
| Text.Spaces | application/parser/macros.cpp:398 | the fill has length n and every character is a blank |
| Text.FindFirst | application/parser/CParseLinks.cpp:91 | a match found by the regex search lies at or after the start position and inside the text |
| Text.FindFirstHit | application/parser/CParseLinks.cpp:91 | the position found is a match of the pattern |
| Text.FindFirstLeftmost | application/parser/CParseLinks.cpp:91 | no position between the start and the one found (or the end) matches: the search finds the leftmost match |
| Text.FindFirstIs | application/parser/CParseLinks.cpp:91 | the first matching position from the start is the one found |
| Text.FindFirstNone | application/parser/CParseLinks.cpp:91 | with no matching position from the start the search returns -1 (None) |
| Text.IndexOf | application/parser/CParseLinks.cpp:94-95 | the index found holds the character, none before it from the start does; None means the character does not occur from the start on |
| Text.IndexOfIs | application/parser/CParseLinks.cpp:94-95 | the first occurrence from the start is the index returned |
| Text.RemoveChar | application/parser/CParseLinks.cpp:99-100 | removing every copy of a character leaves none and never lengthens the text |
| Text.RemoveLeading | application/parser/CParseLinks.cpp:335 | removing a pattern from text that starts with it and has no other start of it leaves the rest |
| Text.RemoveLastChar | application/parser/CParseLinks.cpp:336 | removing a character from text without it followed by that character gives the text back |
| Text.ReplaceCharIsMap | application/parser/macros.cpp:134 | replacing one character by a string is replacing it at every position |
| Text.FindFirstNoBracket | application/parser/CParseLinks.cpp:83-84 | a pattern whose every match starts with `[` finds nothing in text without `[` |
| Text.ResumeAfterReplacement | application/parser/CParseLinks.cpp:119 | searching again at the old start plus the old length, after a replacement without `[`, finds the first match in the text after the replacement, at the offset the length overhangs it |
| Text.ResumeInside | application/parser/CParseLinks.cpp:119 | a search resumed inside a replacement without `[` finds what a search from the end of the replacement finds |
| Text.ClosersCount | application/parser/CParseLinks.cpp:94-95 | the measure of a bracket pass is the number of `]` after the cursor |
| Text.SpanCount | application/parser/CParseLinks.cpp:95 | a span ending in `]` holds at least one `]`, so removing it lowers the count |
| Rewrite.EditProgress | application/parser/CParseLinks.cpp:119 | resuming after an edit that fits lowers the count of `]` after the cursor, or keeps it and moves the cursor on: the scan loop ends |
| Rewrite.PassStep | application/parser/CParseLinks.cpp:91-124 | the scan at the first match applies the edit there and goes on at the match plus the length of the matched text |
| Rewrite.PassNone | application/parser/CParseLinks.cpp:91-92 | with no match from the cursor the scan leaves the text and the state as they are |
| Rewrite.PassKeepsAll | application/parser/CParseLinks.cpp:120-123 | when every match is skipped by one character the scan changes nothing |
| Rewrite.PassKeeps | application/parser/CParseLinks.cpp:166-181 | a property of the state that every edit keeps holds after the whole scan |
| Rewrite.PassPrefix | application/parser/CParseLinks.cpp:91-124 | text in front of the cursor is never touched: the scan of `pre + s` is `pre` followed by the scan of `s` |
| Rewrite.PassReplaceAt | application/parser/CParseLinks.cpp:106-119 | a match right after `pre`, replaced by `r` gives `pre + r`, followed by the scan of the rest started where the old length overhangs the replacement |
| Rewrite.PassKeepSpan | application/parser/CParseLinks.cpp:154-219 | a matched span that is kept is copied and the scan goes on after it |
| Rewrite.RunPass | application/parser/CParseLinks.cpp:85-126 | the loop (search, edit, search again at index plus length) computes the scan from position 0, text and state |
| Rewrite.PassAfterStep | application/parser/macros.cpp:163-175 | a handler loop replaces the first match and resumes after the inserted text |
| Rewrite.PassAfterKeeps | application/parser/macros.cpp:163-175 | a property of the state that every edit keeps holds after the whole handler loop |
| Rewrite.PassAfterReplaceAt | application/parser/macros.cpp:172-174 | a match right after `pre`, replaced by `r` gives `pre + r` followed by the handler loop over the rest from its start |
| Rewrite.RunPassAfter | application/parser/macros.cpp:156-177 | the loop `while ((nPos = indexIn(sDoc, nPos)) != -1) { ...; nPos += length of the replacement }` computes the handler's scan from 0 |
| Rewrite.PassFuelNone | application/parser/macros.cpp:253-254 | with no match the picture loop leaves the text as it is |
| Rewrite.PassFuelReplaceAt | application/parser/macros.cpp:336-338 | a replaced match makes the picture loop go on where the matched call ended, with one unit of fuel less |
| Rewrite.RunPassFuel | application/parser/macros.cpp:252-339 | the picture loop (search, replace, search again at index plus matched length) computes the fuel-bounded scan |
| Calls.ArgumentOfCall | application/parser/macros.cpp:165-166 | removing the opening `[[kw(` and every `)]]` from a call whose argument has no `[` and no `)` gives the argument back |
| Calls.RemoveTrailing | application/parser/macros.cpp:166 | removing `)]]` from an argument without `)` followed by `)]]` leaves the argument |
| Calls.CloserFrom | application/parser/macros.cpp:157-159 | the closer the minimal regex ends at lies at or after the position asked and is a `)]]` |
| Calls.FindCloser | application/parser/macros.cpp:157-159 | the first `)]]` from a position is the one the minimal match ends with |
| Calls.MacroCallLength | application/parser/macros.cpp:172 | the matched length covers the opening, the minimum argument and `)]]`, and stays inside the text |
| Calls.MacroCallLengthIs | application/parser/macros.cpp:172 | the matched length runs from the match to the end of the first `)]]` after the opening and minimum argument |
| Calls.MacroCallAtShift | application/parser/macros.cpp:157-163 | whether a call matches at a position does not depend on the text before it |
| Calls.OpeningAtShift | application/parser/macros.cpp:157-158 | whether the (case-folded or exact) opening occurs at a position does not depend on the text before it |
| Calls.MacroCallLengthShift | application/parser/macros.cpp:172 | the matched length does not depend on the text before the call |
| Calls.MacroCallTextShift | application/parser/macros.cpp:164 | the captured text `cap(0)` does not depend on the text before the call |
| Calls.MacroCallOpens | application/parser/macros.cpp:157 | every match of `\[\[kw\(.*\)\]\]` starts with `[` |
| Calls.MacroCallOf | application/parser/macros.cpp:157-164 | a call written out with an argument without `)` and at least the minimum length matches at its start and captures exactly itself |
| Calls.CallRewriterLocal | application/parser/macros.cpp:163-175 | a handler's edit at a match replaces exactly the call and does not depend on the text before it |
| Calls.CallRewriterShift | application/parser/macros.cpp:164-172 | a handler's edit at a call is the same whatever text precedes it |
| Calls.CallRewriterFits | application/parser/macros.cpp:172 | a handler's replacement covers exactly the matched call |
| Calls.CallScanAt | application/parser/macros.cpp:163-175 | a call at the cursor is replaced by what the handler renders from it, and the loop goes on after the inserted text with the new state |
| Calls.CallAtCursor | application/parser/macros.cpp:163-172 | at a call at the cursor the search stops there and the handler replaces the whole call by its rendering |
| Calls.CallScanNone | application/parser/macros.cpp:163 | with no opening from the cursor on the handler changes nothing |
| Calls.CallScanFuelAt | application/parser/macros.cpp:253-338 | in the picture-style loop a call at the cursor is replaced and the search resumes where the call ended, with one unit of fuel less |
| Calls.CallScanFuelNone | application/parser/macros.cpp:253-254 | with no opening from the cursor the picture-style loop changes nothing |
| Calls.OpeningsDiffer | application/parser/macros.cpp:157-165 | two different keywords of one length give different openings |
| Calls.ArgumentOfOtherSpelling | application/parser/macros.cpp:158-165 | a call spelt with another keyword of the same length (which the case-insensitive regex matches) keeps its opening in front of the argument: the removal compares exactly |
| Anchors.ChainAppend | application/parser/macros.cpp:134-140 | the chain of seven replacements (space, Ä, Ü, Ö, ä, ü, ö) works piece by piece over concatenation |
| Anchors.ChainChar | application/parser/macros.cpp:134-140 | on one character the chain of replacements is the per-character transliteration (space to `-`, Ä Ü Ö ä ü ö to Ae Ue Oe ae ue oe) |
| Anchors.ChainEach | application/parser/macros.cpp:134-140 | the chain of replacements over a whole string is the transliteration of each character in turn |
| Anchors.ChainSpace | application/parser/macros.cpp:134 | a blank becomes `-` |
| Anchors.ChainUpperAe | application/parser/macros.cpp:135 | Ä becomes Ae and no later replacement touches it |
| Anchors.ChainUpperUe | application/parser/macros.cpp:136 | Ü becomes Ue |
| Anchors.ChainUpperOe | application/parser/macros.cpp:137 | Ö becomes Oe |
| Anchors.ChainLowerAe | application/parser/macros.cpp:138 | ä becomes ae |
| Anchors.ChainLowerUe | application/parser/macros.cpp:139 | ü becomes ue |
| Anchors.ChainLowerOe | application/parser/macros.cpp:140 | ö becomes oe |
| Anchors.ChainOther | application/parser/macros.cpp:134-140 | every other character is kept |
| Anchors.MapCharOther | application/parser/macros.cpp:134 | replacing a character that does not occur changes nothing |
| Anchors.MapCharOne | application/parser/macros.cpp:134 | on one character a replacement gives the replacement text or the character |
| Anchors.TransliterateIsCharwise | application/parser/macros.cpp:134-140 | the replacement chain and the per-character transliteration agree on every string |
| Anchors.TransliteratePlain | application/parser/macros.cpp:134-140 | text whose characters are all kept is unchanged by the chain |
| Anchors.EachPlain | application/parser/macros.cpp:134-140 | text whose characters are all kept is unchanged by the transliteration |
| Anchors.EachKeepsOut | application/parser/macros.cpp:134-140 | the transliteration adds no character other than `-`, A, U, O, a, u, o and e |
| Anchors.NameRun | application/parser/macros.cpp:119 | the run of `[A-Za-z_\s-0-9]` characters stays inside the text |
| Anchors.NameRunChars | application/parser/macros.cpp:119 | every character of the run is a name character (ASCII letter, digit, `_`, `-` or `QChar::isSpace` whitespace, as `\s` means) and the one after it is not: the greedy `+` takes the longest run |
| Anchors.NameRunShift | application/parser/macros.cpp:119 | the run does not depend on the text before it |
| Anchors.NameRunExact | application/parser/macros.cpp:119 | a run of name characters ended by another character is the run found |
| Anchors.CallLength | application/parser/macros.cpp:125 | the matched length of an anchor call is positive, inside the text, and ends with `]` |
| Anchors.AnchorCallShift | application/parser/macros.cpp:119-125 | whether an anchor call matches and its length do not depend on the text before it |
| Anchors.AnchorCallOpens | application/parser/macros.cpp:119 | every anchor match starts with `[` |
| Anchors.CallName | application/parser/macros.cpp:129-130 | removing the opening and `)]]` from a call with a name made of name characters gives the name |
| Anchors.CallShape | application/parser/macros.cpp:119-126 | a matched anchor call is the opening, a run of name characters and `)]]` |
| Anchors.TrimmedNameChars | application/parser/macros.cpp:131 | trimming keeps a name made of name characters so |
| Anchors.NameCharsNoBrackets | application/parser/macros.cpp:119 | name characters include no bracket |
| Anchors.AnchorIdOfCall | application/parser/macros.cpp:126-140 | the id of a matched call is the transliteration of its trimmed name |
| Anchors.AnchorIdNoBrackets | application/parser/macros.cpp:126-140 | the id holds no bracket |
| Anchors.AnchorHtmlNoBrackets | application/parser/macros.cpp:142-144 | the anchor element of a bracket-free id holds no bracket |
| Anchors.AnchorReplacementFree | application/parser/macros.cpp:142-144 | what replaces an anchor call holds no bracket, so the pass never matches its own output |
| Anchors.CallSliceShift | application/parser/macros.cpp:125-126 | the matched call and its text do not depend on the text before it |
| Anchors.AnchorReplacementShift | application/parser/macros.cpp:142-144 | the edit at an anchor call is the same whatever precedes it |
| Anchors.AnchorEditSame | application/parser/macros.cpp:125-144 | two matches with the same length and text give the same edit |
| Anchors.AnchorEditAt | application/parser/macros.cpp:142-144 | the edit replaces the matched length by the element built from the matched text |
| Anchors.AnchorPassProper | application/parser/macros.cpp:123-147 | the anchor pass is a well-formed scan: its edits fit, do not look behind the match, and every match starts with `[` |
| Anchors.AnchorFits | application/parser/macros.cpp:142-146 | every anchor edit replaces exactly the matched call by bracket-free text |
| Anchors.AnchorLocal | application/parser/macros.cpp:119-144 | the anchor match and edit do not depend on the text before the match |
| Anchors.AnchorOfName | application/parser/macros.cpp:119-144 | `[[kw(name)]]` matches at its start and is replaced by `<a id="id" href="#id" class="crosslink anchor"> </a>` with id the transliterated trimmed name |
| Anchors.AnchorScanCall | application/parser/macros.cpp:123-147 | an anchor call at the cursor becomes its element, and the scan resumes at the old position plus the CALL's length: inside the element or in the text after it |
| Anchors.AnchorAtCall | application/parser/macros.cpp:123-144 | at an anchor call the regex matches at the cursor and the edit replaces the call by its element, which holds no `[` |
| Links.ClosedSpan | application/parser/CParseLinks.cpp:94-96 | the span from a match to the first `]` is a closed slice of the text at the match; there is none exactly when no `]` follows |
| Links.ClosedSpanShift | application/parser/CParseLinks.cpp:94-96 | the span does not depend on the text before the match |
| Links.ClosedSpanOf | application/parser/CParseLinks.cpp:94-96 | a span with its only `]` at the end, at the start of the text, is the span taken |
| Links.ClosedSpanUnclosed | application/parser/CParseLinks.cpp:120-123 | with no `]` after the cursor no span is taken |
| Links.SpanProper | application/parser/CParseLinks.cpp:91-124 | a bracket pass whose decisions fit its spans is a well-formed scan |
| Links.SpanLocal | application/parser/CParseLinks.cpp:91-124 | a bracket pass whose pattern does not look behind has edits that do not either |
| Links.SpanUnclosed | application/parser/CParseLinks.cpp:120-123 | with no `]` after the cursor a bracket pass skips every match by one character and changes nothing |
| Links.SpanAtCursor | application/parser/CParseLinks.cpp:91-96 | at a match at the cursor the search stops there and the edit is the decision on the span up to the first `]` |
| Links.SpanReplaceAt | application/parser/CParseLinks.cpp:106-119 | a span replaced by bracket-free text gives the text in front, the replacement, then the pass over the rest from where the span's length overhangs the replacement |
| Links.SpanKeepAt | application/parser/CParseLinks.cpp:154-219 | a span that is kept is copied and the pass goes on after it |
| Links.StripBrackets | application/parser/CParseLinks.cpp:99-100 | removing every `[` and `]` leaves neither |
| Links.StripBracketsAround | application/parser/CParseLinks.cpp:99-100 | `[link]` with a bracket-free link strips to the link |
| Links.ClosedAround | application/parser/CParseLinks.cpp:94-95 | `[link]` with a `]`-free link is a closed span |
| Links.ExternalLink | application/parser/CParseLinks.cpp:106-115 | the external link element of bracket-free parts has no bracket |
| Links.HyperlinkHtml | application/parser/CParseLinks.cpp:102-116 | the element of a bracket-free link has no bracket |
| Links.HyperlinkEdit | application/parser/CParseLinks.cpp:96-116 | every closed span is replaced, over its whole length, by text without `]`: an external link never keeps its span |
| Links.HyperlinkPass | application/parser/CParseLinks.cpp:82-124 | the hyperlink pass is well formed: matches start with `[`, do not look behind, and every span gets a fitting edit |
| Links.HyperlinkOpens | application/parser/CParseLinks.cpp:83-84 | every match of the hyperlink pattern starts with `[` |
| Links.SchemeAtShift | application/parser/CParseLinks.cpp:83-84 | whether `[scheme://` matches does not depend on the text before it |
| Links.HyperlinkAnchored | application/parser/CParseLinks.cpp:83-84 | the hyperlink pattern does not look behind the match |
| Links.HyperlinkDecides | application/parser/CParseLinks.cpp:96-116 | every closed span gets an edit that replaces it by bracket-free text |
| Links.HyperlinkWithText | application/parser/CParseLinks.cpp:102-109 | a link with a blank becomes `<a href="address" rel="nofollow" class="external">text</a>`, the address before the first blank, the text after it |
| Links.HyperlinkScanLink | application/parser/CParseLinks.cpp:91-119 | a link at the cursor becomes its element and the pass resumes where the link's length overhangs the element |
| Links.HyperlinkDecisionAt | application/parser/CParseLinks.cpp:96-116 | the decision on `[link]` replaces its full length by the element of the link, which holds no `[` |
| Links.HyperlinkAtLink | application/parser/CParseLinks.cpp:83-95 | a bracketed address with a known scheme matches and is a closed span |
| Links.HyperlinkUnclosed | application/parser/CParseLinks.cpp:120-123 | with no `]` after the cursor the hyperlink pass changes nothing |
| Links.InternalLink | application/parser/CParseLinks.cpp:182-186 | the wiki link element holds no `]` when its address and text hold none, and no bracket at all when they hold neither |
| Links.WikiBare | application/parser/CParseLinks.cpp:159-186 | a link without description resets the missing class, then sets it exactly when checking is on and the page's probe fails |
| Links.TitleSplit | application/parser/CParseLinks.cpp:192-214 | the page part ends at the first colon and holds none |
| Links.WikiTitled | application/parser/CParseLinks.cpp:187-215 | a described link sets the missing class from the probe of the page when checking, and keeps the previous link's class otherwise |
| Links.WikiSpanText | application/parser/CParseLinks.cpp:156 | a closed span with `[:` removed still ends with its only `]` |
| Links.WikiBarePage | application/parser/CParseLinks.cpp:159-160 | the page of a bare link holds no `]` |
| Links.WikiEdit | application/parser/CParseLinks.cpp:154-215 | a span with fewer than two colons is kept (class unchanged), any other span is replaced, and the edit fits a closed span |
| Links.WikiPass | application/parser/CParseLinks.cpp:133-224 | the wiki pass is well formed for a wiki address without `]` |
| Links.WikiOpens | application/parser/CParseLinks.cpp:134 | every match of `\[\:[0-9A-Za-z:.]` starts with `[` |
| Links.WikiAnchored | application/parser/CParseLinks.cpp:134 | the wiki pattern does not look behind the match |
| Links.WikiDecides | application/parser/CParseLinks.cpp:154-215 | every closed span gets an edit that keeps it or replaces it by bracket-free text |
| Links.WikiScanUnchecked | application/parser/CParseLinks.cpp:166-207 | when links are not checked the pass never sets the missing class |
| Links.WikiOpenRemoved | application/parser/CParseLinks.cpp:154-156 | `[:` followed by bracket-free text: removing `[:` leaves the text, and the colon count is one more |
| Links.WikiEditBare | application/parser/CParseLinks.cpp:159-186 | a span ending in `:]` is replaced by the bare link element of its page |
| Links.WikiEditTitled | application/parser/CParseLinks.cpp:187-215 | any other span with two colons is replaced by the described link element |
| Links.WikiBareLink | application/parser/CParseLinks.cpp:159-186 | `[:page:]` becomes a link to `url/page` with underscores shown as blanks, missing exactly when checked and the probe fails |
| Links.WikiTitledLink | application/parser/CParseLinks.cpp:187-215 | `[:page:text]` becomes a link to `url/page` showing the trimmed text, class from the probe when checked and from the previous link otherwise |
| Links.WikiTitledRest | application/parser/CParseLinks.cpp:187-215 | the described-link edit for a span given by its parts |
| Links.TitledRest | application/parser/CParseLinks.cpp:187-188 | the text after `[:` of a described link has a colon, no `[`, does not end in `:]` and loses only its `]` |
| Links.TitleSplitAt | application/parser/CParseLinks.cpp:192-214 | `page:text` with a colon-free page splits into page and text |
| Links.WikiAt | application/parser/CParseLinks.cpp:134-152 | `[:` followed by a link character and a text ending in its only `]` matches and is closed |
| Links.InternalLinkPlain | application/parser/CParseLinks.cpp:182-186 | the element of a link to `url/page` is bracket-free when the wiki address, the page and the shown text are |
| Links.WikiScanBare | application/parser/CParseLinks.cpp:149-219 | `[:page:]` at the cursor becomes its element and the pass resumes where the link's length overhangs it, with the new class |
| Links.WikiScanTitled | application/parser/CParseLinks.cpp:149-219 | `[:page:text]` at the cursor becomes its element and the pass resumes likewise, with the new class |
| Links.WikiScanKeep | application/parser/CParseLinks.cpp:154 | `[:name]` with one colon is kept and the pass goes on after it |
| Links.WikiUnclosed | application/parser/CParseLinks.cpp:220-223 | with no `]` after the cursor the wiki pass changes neither the text nor the class |
| Links.KeyIndex | application/parser/CParseLinks.cpp:276 | `indexOf` gives the first position of the key, or none when the key is absent |
| Links.InterwikiClass | application/parser/CParseLinks.cpp:265-273 | the class of a bracket-free key is bracket-free |
| Links.InterwikiUrl | application/parser/CParseLinks.cpp:275-283 | the address built from a template and a page has no bracket the two lack |
| Links.Description | application/parser/CParseLinks.cpp:285-295 | the description built from bracket-free pieces is bracket-free |
| Links.InterwikiHtml | application/parser/CParseLinks.cpp:298-300 | the interwiki element of bracket-free parts is bracket-free |
| Links.InterwikiOf | application/parser/CParseLinks.cpp:274-300 | a link is rendered exactly when its key is a configured key, and the element is `]`-free when its parts and the templates are |
| Links.InterwikiEdit | application/parser/CParseLinks.cpp:256-303 | a span is replaced only when it has two colons, and every edit fits a closed span |
| Links.InterwikiPass | application/parser/CParseLinks.cpp:233-311 | the interwiki pass is well formed for templates without `]` |
| Links.InterwikiOpens | application/parser/CParseLinks.cpp:242-250 | every match of `\[\b(keys)\b:` starts with `[` |
| Links.KeyAtShift | application/parser/CParseLinks.cpp:242-250 | whether a key matches does not depend on the text before it |
| Links.InterwikiAnchored | application/parser/CParseLinks.cpp:242-250 | the interwiki pattern does not look behind the match |
| Links.InterwikiDecides | application/parser/CParseLinks.cpp:256-303 | every closed span gets a fitting edit |
| Links.WordPlain | application/parser/CParseLinks.cpp:242-250 | a key of word characters has no bracket or colon and can match |
| Links.InterwikiEditAt | application/parser/CParseLinks.cpp:259-300 | a span with two colons and a configured key is replaced by the element of the template at the key's first index, the key's class and the description |
| Links.InterwikiParts | application/parser/CParseLinks.cpp:259-262 | `[key:page:text]` strips to `key:page:text`, splits into key, page and the pieces of the text, and has at least two colons |
| Links.InterwikiColons | application/parser/CParseLinks.cpp:259 | `[key:page:text]` has at least two colons |
| Links.DescriptionOf | application/parser/CParseLinks.cpp:285-295 | the description is the text with its colons, or the page when the text is empty or starts with a colon |
| Links.InterwikiLinkText | application/parser/CParseLinks.cpp:259-300 | `[key:page:text]` with a configured key becomes `<a href="url" class="class">description</a>` |
| Links.InterwikiAtLink | application/parser/CParseLinks.cpp:242-258 | a bracketed link starting with a configured key and a colon matches and is closed |
| Links.InterwikiScanLink | application/parser/CParseLinks.cpp:253-306 | such a link at the cursor becomes its element and the pass resumes where its length overhangs it |
| Links.OneColon | application/parser/CParseLinks.cpp:259 | `[key:page]` has exactly one colon |
| Links.InterwikiFewColons | application/parser/CParseLinks.cpp:259 | a span with fewer than two colons is kept |
| Links.InterwikiScanKeep | application/parser/CParseLinks.cpp:259-306 | `[key:page]` is kept and the pass goes on after it |
| Links.InterwikiKeepAt | application/parser/CParseLinks.cpp:259-306 | any matched span with fewer than two colons is kept and the pass goes on after it |
| Links.InterwikiUnclosed | application/parser/CParseLinks.cpp:307-310 | with no `]` after the cursor the interwiki pass changes nothing |
| Links.StripOpening | application/parser/CParseLinks.cpp:260-261 | stripping brackets from `[` + bracket-free word + rest keeps the word in front |
| Links.StripKeyed | application/parser/CParseLinks.cpp:260-261 | stripping brackets from `[key:rest` keeps `key:` in front |
| Links.InterwikiMatchReplaces | application/parser/CParseLinks.cpp:256-303 | for keys made of word characters, a matched span is replaced exactly when it has at least two colons, because the first piece of such a match is always a configured key |
| Links.AnchorLinkHtml | application/parser/CParseLinks.cpp:337-353 | the anchor link element of a bracket-free name is bracket-free |
| Links.AnchorLinkName | application/parser/CParseLinks.cpp:335-336 | the name left after removing `[#` and `]` holds no `]` |
| Links.AnchorLinkEdit | application/parser/CParseLinks.cpp:333-353 | every closed span is replaced, over its whole length, by text without `]`: an anchor link never keeps its span |
| Links.AnchorLinkPass | application/parser/CParseLinks.cpp:320-361 | the anchor link pass is well formed |
| Links.AnchorLinkWithText | application/parser/CParseLinks.cpp:342-346 | `anchor text` becomes `<a href="#anchor" class="crosslink">text</a>` |
| Links.AnchorLinkBare | application/parser/CParseLinks.cpp:347-352 | an anchor without blank becomes `<a href="#anchor" class="crosslink">#anchor</a>` |
| Links.AnchorLinkNameOf | application/parser/CParseLinks.cpp:335-336 | the name of `[#name]` with a bracket-free name is the name |
| Links.AnchorLinkScanLink | application/parser/CParseLinks.cpp:328-356 | `[#name]` at the cursor becomes its element and the pass resumes where its length overhangs it |
| Links.AnchorLinkUnclosed | application/parser/CParseLinks.cpp:357-360 | with no `]` after the cursor the anchor link pass changes nothing |
| Links.DigitRun | application/parser/CParseLinks.cpp:371 | the run of digits of `[0-9]{1,}` is maximal: digits up to it and a non-digit after it |
| Links.DigitRunShift | application/parser/CParseLinks.cpp:371 | the run does not depend on the text before it |
| Links.DigitRunExact | application/parser/CParseLinks.cpp:371 | a run of digits ended by a non-digit is the run found |
| Links.CitationHtml | application/parser/CParseLinks.cpp:387-389 | the citation element of a bracket-free number is bracket-free (the brackets are written as `&#091;` and `&#093;`) |
| Links.KnowledgeBoxEdit | application/parser/CParseLinks.cpp:379-390 | a reference is replaced exactly when its number converts to a non-zero 16-bit value, and the edit fits the match |
| Links.KnowledgeBoxPass | application/parser/CParseLinks.cpp:370-394 | the knowledge box pass is well formed |
| Links.KnowledgeBoxShift | application/parser/CParseLinks.cpp:371 | whether `[digits]` matches does not depend on the text before it |
| Links.KnowledgeBoxOf | application/parser/CParseLinks.cpp:371 | `[digits]` matches at its start |
| Links.KnowledgeBoxNumber | application/parser/CParseLinks.cpp:383-390 | `[number]` becomes a citation when 1 <= number <= 65535 and is kept otherwise (0 and numbers that overflow `toUShort`) |
| Links.KnowledgeBoxScanLink | application/parser/CParseLinks.cpp:377-394 | `[number]` at the cursor becomes its citation and the pass resumes past it, or is kept and the pass goes on after it |
| Links.AttachmentNameOf | application/parser/CParseLinks.cpp:454-457 | the name of `[[kw(arg)]]` is the argument with its double quotes removed |
| Links.AttachmentLinkScanCall | application/parser/CParseLinks.cpp:453-464 | a call at the cursor becomes `<a href="tmp/name" class="crosslink">name</a>` and the loop resumes after it |
| Links.AttachmentRenderOf | application/parser/CParseLinks.cpp:454-460 | the rendering of a call links the name under the temporary file path |
| Links.AttachmentOtherSpelling | application/parser/CParseLinks.cpp:447-457 | a call spelt in another case matches, but its opening is not removed: it stays in the name |
| MacroHandlers.AttachmentMacroRenderOf | application/parser/macros.cpp:164-170 | a call `[[kw(arg)]]` renders as `<a href="name" class="crosslink">name</a>`, the name being the argument without double quotes |
| MacroHandlers.AttachmentMacroScanCall | application/parser/macros.cpp:163-174 | a call at the cursor is replaced by that link and the scan goes on after the inserted element |
| MacroHandlers.AttachmentMacroScanNone | application/parser/macros.cpp:163 | text where no opening `[[kw(` (in any case) follows the cursor is left as it is |
| MacroHandlers.DateOfDigits | application/parser/macros.cpp:199-210 | an argument that is no ISO 8601 date but a decimal number is shown as that epoch second when it fits `toUInt`, and as `Invalid date` when it overflows |
| MacroHandlers.DateOfSigned | application/parser/macros.cpp:199-210 | an argument `+digits` that is no ISO date is shown as that epoch second when it fits `toUInt`, and as `Invalid date` when it overflows |
| MacroHandlers.DateOfBlank | application/parser/macros.cpp:199-210 | an argument of blanks that is no ISO date fails `toUInt` and becomes `Invalid date` |
| MacroHandlers.DateScanCall | application/parser/macros.cpp:193-214 | a call at the cursor is replaced by its date text and the scan goes on after that text |
| MacroHandlers.ReplacePairGone | application/parser/macros.cpp:226 | replacing every `cc` by text without `c` leaves no two adjacent `c`, and the result starts with `c` only if the input did |
| MacroHandlers.NewlineLeavesNoDoubleBackslash | application/parser/macros.cpp:225-226 | after the Newline handler no `\\` pair is left in the document |
| MacroHandlers.NewlineUnchanged | application/parser/macros.cpp:225-226 | a document without a backslash and without `[[` is left as it is |
| MacroHandlers.NewlineOfCall | application/parser/macros.cpp:225 | `[[kw]]` alone becomes `<br />` |
| Pictures.UrlKeepsReference | application/parser/macros.cpp:269-279 | every resolution of an image reference ends with `/` and the reference itself |
| Pictures.ReadModifiers | application/parser/macros.cpp:281-309 | the loop over the pieces after the image name yields the layout of applying every modifier in order to width 0, height 0, alignment `default` |
| Pictures.ModifierWidth | application/parser/macros.cpp:283-284 | a positive number that fits `toUInt` sets the width only |
| Pictures.ModifierSignedWidth | application/parser/macros.cpp:283-284 | a signed number `+n` with n positive and fitting `toUInt` sets the width only |
| Pictures.ModifierHeight | application/parser/macros.cpp:285-289 | `x<digits>` sets the height only, to the digits' `toUInt` value |
| Pictures.HeightBranch | application/parser/macros.cpp:285-289 | a trimmed modifier that is no positive number and starts with `x` sets the height from the rest with every `x` removed |
| Pictures.ModifierBoth | application/parser/macros.cpp:290-297 | `<w>x<h>` with a non-empty width sets both width and height to the two numbers |
| Pictures.ModifierAlign | application/parser/macros.cpp:298-307 | `left`, `right`, `center` and their `align=` forms set the alignment only |
| Pictures.WordBranch | application/parser/macros.cpp:298-308 | a modifier that is no number and has no `x` sets the alignment when it is one of the six alignment words and changes nothing otherwise |
| Pictures.PictureOfCall | application/parser/macros.cpp:256-334 | a call whose argument is a comma-separated list renders the trimmed first piece as the image and applies the other pieces as modifiers |
| Pictures.PictureScanCall | application/parser/macros.cpp:253-338 | a call at the cursor is replaced by its element and the search resumes at the position where the call ended, which lies inside the element or after it |
| Pictures.PictureScanNone | application/parser/macros.cpp:253 | text where no opening `[[kw(` (case as written) follows the cursor is left as it is |
| TableOfContents.HashRun | application/parser/macros.cpp:373 | the run of `#` from a position is maximal: it stops at the end or at a character other than `#` |
| TableOfContents.MarkLength | application/parser/macros.cpp:373 | a match of `#{1,5}\d#{1,5}` is at least three characters long and lies inside the text |
| TableOfContents.RemoveMarksFrom | application/parser/macros.cpp:372-373 | removing the level markers never makes the text longer |
| TableOfContents.RemoveMarks | application/parser/macros.cpp:372-373 | removing the level markers never makes the text longer |
| TableOfContents.RemoveMarksFree | application/parser/macros.cpp:372-373 | text without `#` holds no marker and is left as it is |
| TableOfContents.RemoveMarksLeading | application/parser/macros.cpp:392 | `#d#text` with a digit `d` and a `#`-free text loses exactly the marker |
| TableOfContents.HeadlineLinks | application/parser/macros.cpp:362-374 | there is one link per headline, computed before any entry is overwritten |
| TableOfContents.LevelText | application/parser/macros.cpp:393-395 | what an entry is overwritten with holds no `#` |
| TableOfContents.MarkedLevelText | application/parser/macros.cpp:391-395 | for `#d#text` the title is the text and the entry becomes the digit `d` |
| TableOfContents.MarkedHeadline | application/parser/macros.cpp:391-397 | `#d#text` has the title text and the level of the digit `d` |
| TableOfContents.UnmarkedHeadline | application/parser/macros.cpp:393-405 | a headline without `#` has level 0 and is overwritten with the empty text |
| TableOfContents.Levels | application/parser/macros.cpp:397 | there is one level per headline |
| TableOfContents.LevelsAt | application/parser/macros.cpp:393-397 | the level of entry k is the `toUShort` value of what remains of entry k after the title is cut off and `#` removed |
| TableOfContents.Titles | application/parser/macros.cpp:391-392 | there is one title per headline |
| TableOfContents.TitlesAt | application/parser/macros.cpp:391-392 | the title of entry k is entry k with its markers removed |
| TableOfContents.TocLineOfMarked | application/parser/macros.cpp:398-405 | `#d#text` is listed as `d` blanks, `1. [#link text]` and a line break when 1 <= d <= depth, and not listed otherwise |
| TableOfContents.DepthBlank | application/parser/macros.cpp:381-385 | a blank argument asks for depth 3 |
| TableOfContents.DepthDigits | application/parser/macros.cpp:381-382 | a decimal argument is the depth when it fits 16 bits and 0 (nothing listed) when it overflows |
| TableOfContents.DepthSigned | application/parser/macros.cpp:381-382 | an argument `+digits` asks for the depth of the digits, and 0 when they overflow 16 bits |
| TableOfContents.NothingListed | application/parser/macros.cpp:400-405 | headlines of level 0 give no list line at all |
| TableOfContents.Overwritten | application/parser/macros.cpp:393-395 | overwriting keeps the number of entries |
| TableOfContents.OverwrittenAt | application/parser/macros.cpp:393-395 | entry k is overwritten with the level text of entry k |
| TableOfContents.TocScanLength | application/parser/macros.cpp:376-412 | the handler never adds or drops an entry of the caller's headline list |
| TableOfContents.OverwrittenLevels | application/parser/macros.cpp:393-400 | every overwritten entry has level 0 |
| TableOfContents.SecondTableEmpty | application/parser/macros.cpp:390-407 | a second table in the same document lists no headline: the first one overwrote them all |
| TableOfContents.OverwrittenTwice | application/parser/macros.cpp:393-395 | overwriting the entries twice leaves every entry empty |
| TableOfContents.TocScanCall | application/parser/macros.cpp:376-411 | a call at the cursor becomes the block with the keyword as head and the list lines of all headlines at the call's depth, and the scan goes on after the block with the overwritten entries |
| TableOfContents.ComputeLinks | application/parser/macros.cpp:362-374 | the loop computes the link of every headline, in order |
| TableOfContents.ListHeadlines | application/parser/macros.cpp:390-406 | the loop yields the list lines of the original entries and leaves every entry overwritten by its level text |
| TableOfContents.EntriesAt | application/parser/macros.cpp:390-397 | levels, titles and overwritten entries agree with the original entry at every index |
| TableOfContents.ListLoop | application/parser/macros.cpp:390-406 | the loop over all entries builds every list line in order and overwrites every entry |
| TableOfContents.ListStep | application/parser/macros.cpp:391-405 | one iteration adds the line of entry i and overwrites entry i only |
| TableOfContents.ListEntry | application/parser/macros.cpp:391-405 | one entry: its list line from its level and title, the entry overwritten by its level text and no other entry touched |
| TableOfContents.TocRewriteAt | application/parser/macros.cpp:376-411 | a call at a position is replaced, over its full length, by the block built from the current entries, which it overwrites |
| TableOfContents.ExpandCall | application/parser/macros.cpp:377-409 | handling one call gives the block and the matched length, and leaves the entries as the rewrite says |
| TableOfContents.ReplaceTableOfContents | application/parser/macros.cpp:347-415 | the handler's output and final entries are those of the scan over the document with the original entries |
| SpanMacro.NonEmpty | application/parser/macros.cpp:450-452 | `SkipEmptyParts`: the pieces kept are non-empty pieces of the input, no more of them |
| SpanMacro.CommaPieces | application/parser/macros.cpp:450-452 | splitting at runs of commas gives non-empty pieces without a comma |
| SpanMacro.DropBlank | application/parser/macros.cpp:457 | `removeAll(" ")`: no argument left is a single blank, and every one left was an argument |
| SpanMacro.ArgPiecesFree | application/parser/macros.cpp:441-456 | the collected arguments hold no character the pieces lack |
| SpanMacro.SpanArgsQuoteFree | application/parser/macros.cpp:441-457 | no argument holds a double quote (the quotes are the split points) |
| SpanMacro.DropBlankNone | application/parser/macros.cpp:457 | arguments none of which is a single blank are kept as they are |
| SpanMacro.CommaPiecesPlain | application/parser/macros.cpp:450-452 | a comma-free piece is kept whole, or dropped when empty |
| SpanMacro.CommaPiecesPair | application/parser/macros.cpp:450-452 | `a,b` splits into a and b, each dropped when empty |
| SpanMacro.QuotedInnerJoin | application/parser/macros.cpp:441 | the pieces between the quotes of a fully quoted argument list rebuild it |
| SpanMacro.QuotedSplit | application/parser/macros.cpp:441 | splitting a fully quoted list at `"` gives an empty first piece, then the quoted arguments and separators |
| SpanMacro.QuotedInnerArgs | application/parser/macros.cpp:443-456 | collecting those pieces gives back the quoted arguments |
| SpanMacro.QuotedPiece | application/parser/macros.cpp:443-456 | an inside piece is kept whole and the separator after it contributes nothing |
| SpanMacro.SpanArgsQuoted | application/parser/macros.cpp:441-457 | `"a","b","c"` yields the arguments a, b, c: commas inside quotes do not split |
| SpanMacro.SpacedSplit | application/parser/macros.cpp:441 | `text, "cls", "style"` splits at the quotes into text with `, `, cls, `, `, style and an empty piece |
| SpanMacro.SpacedPieces | application/parser/macros.cpp:443-456 | those pieces collect to text, blank, cls, blank, style |
| SpanMacro.SpanArgsSpaced | application/parser/macros.cpp:441-457 | `text, "cls", "style"` yields the arguments text, cls, style: the blanks after the commas are dropped |
| SpanMacro.DropSpaces | application/parser/macros.cpp:457 | the single blanks between the arguments are removed and nothing else |
| SpanMacro.SplitArguments | application/parser/macros.cpp:441-457 | the argument loop yields the arguments the split defines |
| SpanMacro.CollectArguments | application/parser/macros.cpp:442-456 | the loop over the quote pieces collects, alternately, comma pieces outside and whole pieces inside quotes |
| SpanMacro.CollectPiece | application/parser/macros.cpp:444-455 | one iteration adds what the piece at i contributes and flips inside and outside |
| SpanMacro.ArgPiecesNext | application/parser/macros.cpp:443-456 | collecting from piece i is piece i's contribution followed by collecting from piece i+1 on the other side of a quote |
| SpanMacro.SpanHtmlOfThree | application/parser/macros.cpp:459-469 | three arguments give `<span style="style" class="cls">text</span>`: style before class |
| SpanMacro.SpanHtmlOfNone | application/parser/macros.cpp:459-469 | no argument gives an empty `<span></span>` |
| SpanMacro.SpanOfCall | application/parser/macros.cpp:432-469 | the call `[[kw(text, "cls", "style")]]` renders as that span |
| SpanMacro.SpanScanCall | application/parser/macros.cpp:431-473 | a call at the cursor is replaced by the span of its arguments and the scan goes on after the inserted element |
| SpanMacro.SpanScanNone | application/parser/macros.cpp:431 | text where no opening `[[kw(` (in any case) follows the cursor is left as it is |
| SpanMacro.SpanRewriteAt | application/parser/macros.cpp:431-471 | a call at a position is replaced, over its matched length, by its span element |
| SpanMacro.ExpandSpan | application/parser/macros.cpp:432-469 | handling one call gives its element and its matched length, as the rewrite defines |
| SpanMacro.ReplaceSpan | application/parser/macros.cpp:420-477 | the handler's loop yields the scan over the whole document |
| SpanMacro.SpanStep | application/parser/macros.cpp:431-473 | one iteration keeps the scan's result the same and moves the cursor closer to the end |
| MacroEngine.TrimAll | application/parser/macros.cpp:62-64 | every keyword is trimmed, and none is dropped |
| MacroEngine.EntryIgnored | application/parser/macros.cpp:53-57 | a line is ignored exactly when, trimmed, it is empty, starts with `Code` or does not hold exactly one `=` |
| MacroEngine.KeywordsClean | application/parser/macros.cpp:60-64 | keywords have no blank at either end, no `=` or comma, and there is one more than there are commas |
| MacroEngine.EntryShape | application/parser/macros.cpp:53-65 | a macro entry is never named `Template`, its name is trimmed and free of `=`, and its keywords are clean, one per comma-separated piece |
| MacroEngine.KeywordsOfJoin | application/parser/macros.cpp:60-64 | keywords written with commas read back as the same keywords |
| MacroEngine.EntryOfConfigLine | application/parser/macros.cpp:53-65 | the line `name=kw1,kw2` of a declarable macro reads back as that macro |
| MacroEngine.ConfigLines | application/parser/macros.cpp:52-73 | one table line per macro |
| MacroEngine.ReadTableSnoc | application/parser/macros.cpp:52-73 | reading one more line adds that line's entry to the table read so far |
| MacroEngine.ReadConfigLines | application/parser/macros.cpp:52-73 | the table lines of declarable macros read back as those macros in order, with no templates |
| MacroEngine.ReadConfigStep | application/parser/macros.cpp:52-73 | the round trip extends from a list of macros to one more |
| MacroEngine.ReadTableNoTemplate | application/parser/macros.cpp:61-69 | no macro of a table read from any lines is named `Template` |
| MacroEngine.ReadTableAppend | application/parser/macros.cpp:52-73 | reading more lines only appends macros and template keywords to what was read |
| MacroEngine.AddExtends | application/parser/macros.cpp:58-69 | adding an entry keeps what the table already held in front |
| MacroEngine.ExpandConcat | application/parser/macros.cpp:85-105 | running the table's first part and then its second on the result is running the whole table |
| MacroEngine.ApplyAllUnknown | application/parser/macros.cpp:101-103 | a macro without a handler changes nothing, with any keywords |
| MacroEngine.ExpandUnknown | application/parser/macros.cpp:85-105 | a table of unknown macros leaves the document and the headlines unchanged |
| MacroEngine.ApplyAllHeadlines | application/parser/macros.cpp:85-104 | a macro keeps the number of headlines, and only `TableOfContents` changes them |
| MacroEngine.ExpandHeadlines | application/parser/macros.cpp:85-105 | the whole run keeps the number of headlines and changes none without a `TableOfContents` entry |
| MacroEngine.ExpandNewline | application/parser/macros.cpp:93-94 | a table holding only `Newline` runs the newline replacement, keeps the headlines and leaves no `\\` pair |
| MacroEngine.Macros.constructor | application/parser/macros.cpp:36-76 | the macros and template keywords are those the table file defines, and nothing when it cannot be opened |
| MacroEngine.Macros.ReplaceAnchors | application/parser/macros.cpp:118-150 | the handler's loop yields the anchor scan over the whole document |
| MacroEngine.Macros.ReplaceAttachments | application/parser/macros.cpp:155-178 | the handler's loop yields the attachment scan over the whole document |
| MacroEngine.Macros.ReplaceDates | application/parser/macros.cpp:183-218 | the handler's loop yields the date scan over the whole document |
| MacroEngine.Macros.ReplacePictures | application/parser/macros.cpp:233-342 | the handler's loop yields the picture scan with the article's directory resolved from the current file |
| MacroEngine.Macros.Dispatch | application/parser/macros.cpp:86-103 | one keyword of one macro runs the handler its name selects, and nothing for an unknown name |
| MacroEngine.Macros.StartParsing | application/parser/macros.cpp:81-106 | every macro of the table runs with every keyword, in table order, over the document and the headlines |
| LinkResolver.Aligned | application/parser/CParseLinks.cpp:45-51 | there is one URL per copied key |
| LinkResolver.AlignedPairs | application/parser/CParseLinks.cpp:45-51 | key j of list i and URL j of list i end up at the same position of the flat lists |
| LinkResolver.AlignedFrom | application/parser/CParseLinks.cpp:45-51 | the flat URLs hold no character the given URLs lack |
| LinkResolver.FlattenNext | application/parser/CParseLinks.cpp:46-50 | one more list appends its keys and the URLs at the same positions |
| LinkResolver.CopyInterwiki | application/parser/CParseLinks.cpp:45-51 | the copy loop flattens the key lists and takes, for each key, the URL at the same list and position |
| LinkResolver.CopyList | application/parser/CParseLinks.cpp:47-50 | the inner loop appends the keys of one list and the URLs at the same positions |
| LinkResolver.ResolvePlain | application/parser/CParseLinks.cpp:68-76 | a document without `[` passes all seven passes unchanged, and so does the missing-page class |
| LinkResolver.ResolveUnchecked | application/parser/CParseLinks.cpp:68-76 | with link checking off the missing-page class is never set |
| LinkResolver.CParseLinks.constructor | application/parser/CParseLinks.cpp:30-54 | the settings are stored, the missing-page class is clear, and the interwiki keys and URLs are the flattened, aligned lists |
| LinkResolver.CParseLinks.UpdateSettings | application/parser/CParseLinks.cpp:59-63 | the wiki address and the checking flag are replaced, the missing-page class is kept |
| LinkResolver.CParseLinks.ReplaceHyperlinks | application/parser/CParseLinks.cpp:82-127 | the loop yields the hyperlink scan over the whole document |
| LinkResolver.CParseLinks.ReplaceInyokaWikiLinks | application/parser/CParseLinks.cpp:133-227 | the loop yields the wiki link scan, with checking on only when online, and stores the final missing-page class |
| LinkResolver.CParseLinks.ReplaceInterwikiLinks | application/parser/CParseLinks.cpp:233-314 | the loop yields the interwiki scan with the stored keys and URL templates |
| LinkResolver.CParseLinks.ReplaceAnchorLinks | application/parser/CParseLinks.cpp:320-364 | the loop yields the anchor link scan over the whole document |
| LinkResolver.CParseLinks.ReplaceKnowledgeBoxLinks | application/parser/CParseLinks.cpp:370-397 | the loop yields the knowledge box scan over the whole document |
| LinkResolver.CParseLinks.CreateAnchor | application/parser/CParseLinks.cpp:403-441 | the loop yields the anchor macro scan with the stored anchor keyword |
| LinkResolver.CParseLinks.ReplaceAttachments | application/parser/CParseLinks.cpp:445-468 | the loop yields the attachment link scan with the stored directory and keyword |
| LinkResolver.CParseLinks.StartParsing | application/parser/CParseLinks.cpp:68-76 | the document goes through the seven passes in order and the missing-page class carries over from the wiki pass |

## Left out

- The network probe of `replaceInyokaWikiLinks` (a request to `page/a/export/meta/` run in a nested event loop) and `CDownload::isOnline` are oracles. They are the `found` and `online` parameters of the wiki pass.
- `QDateTime::fromString(…, Qt::ISODate)` and the locale's short date format are oracles. They are the `iso` and `epoch` functions of a `Host`. Whether an epoch second gives a valid date is left to `epoch`.
- The sizes written into a picture element are the `size` oracle. It stands for reading the image with `QImage` and for the floating-point aspect-ratio arithmetic and `QString::number` formatting.
- `QFile::exists` and `QFileInfo::absolutePath` are the `fileExists` and `absolutePath` oracles.
- The Windows-only `file:///` prefix of picture addresses is the `ext` parameter.
- The `QTextDocument` round trip (`toPlainText`, then `setPlainText`) is treated as the identity on the text.
- Logging (`qDebug`, `qWarning`) and the `QMessageBox` shown when the macro table cannot be opened are left out.
- `macros.conf` is given as its lines, or as `None` when it cannot be opened. Its UTF-8 decoding and `QTextStream::readLine` are left out.
- MacroEngine.Macros.ReplacePictures: the Picture scan can re-match inside the element it inserts, because that element repeats the argument. It therefore has no measure and is bounded by `host.fuel` calls. After that many calls the model stops replacing, while the source would go on.
- Keywords are spliced into the regular expressions as literal text. A keyword holding regular-expression metacharacters is not modelled.
- Case-insensitive matching folds ASCII letters only. `Qt::CaseInsensitive` also folds other letters.
- LinkResolver.CParseLinks.constructor: it requires, like `UpdateSettings`, a wiki address and interwiki URL templates without `]`. The source's passes also end on addresses that hold `]` but no `[`. The requirement comes from the model's termination measure for the bracket passes, which counts the `]` after the cursor. A URL list shorter than its key list, which the source would index out of range, is excluded as well.
- Links.InterwikiEdit: a configured key holding `:`, such as `a:b`, matches `[a:b:c]`. The first piece after the split is then `a`, which is not a key, and the source indexes the URL list at -1 (`CParseLinks.cpp:274-275`). That is an out-of-range access with no defined result. The model keeps such a span unchanged instead. A key holding a bracket has the same problem, because the brackets are stripped before the split. Keys made of word characters are not affected (`Links.InterwikiMatchReplaces`).
- Word boundaries `\b` count only ASCII letters, digits and `_` as word characters, and the `\d` of the headline marker `#{1,5}\d#{1,5}` is an ASCII digit. `QRegExp` also counts other Unicode letters and digits. An interwiki key or macro keyword that begins or ends with a non-ASCII letter, and a level marker with a non-ASCII digit, are not modelled.
- `getTplTranslations` returns a copy of a list. It is modelled as the field `templates` of `Macros`, which the constructor's contract determines.
- `CSettings`, `CDownload`, the translation catalogues and the rest of the parser pipeline are not part of this model.
