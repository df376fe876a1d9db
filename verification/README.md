# Markor Markdown toolbar: link following and table rows

A Dafny model of the text logic inside Markor's Markdown toolbar
(`MarkdownActionButtons`): finding the Markdown link under the cursor and
deciding whether to open it as a web page or as a file, building the text
of an empty table row with an optional header separator, and the switch
that maps toolbar buttons to commands.

Modules:

- `Options`, `Strings`: an option type and character-level helpers (first
  index, counts, repeat, join, split) the rest is stated in.
- `LinkPattern`: the `MARKDOWN_LINK` pattern `\[([^\]]*)\]\(([^)]+)\)` as a
  hand-coded scanner, proved to accept exactly the spans `[text](target)`
  with no `]` in the text and a non-empty target without `)`; the
  `Matcher.find()` walk over a line (each search resumes at the previous
  match's end), proved ordered and non-overlapping; and the link whose span
  `start <= cursor < end` contains the cursor.
- `WebUrl`: the `WEB_URL` pattern `https?://[^\s/$.?#].[^\s]*` under
  `matches()`, with Java's default meanings of `\s` and `.`, proved equal
  to the regex language.
- `LinkFollow`: `followLinkUnderCursor`, both as the source's loop (a method
  that keeps calling `find()` after a containing link whose file cannot be
  created) and as a reference function (the single containing link decides),
  proved equal.
- `TableRow`: `insertTableRow`'s string building, both loops as methods
  proved equal to a reference built from `Repeat` and `Join`, plus the
  shape of the snippet (line breaks, pipes, dashes, cells per row). The
  leading line break is added exactly when the current line is empty, but
  with one column and a header the data row is empty, so the snippet still
  begins with the header's line break on a non-empty line;
  `TableSnippetStart` states that case separately.
- `Actions`: `onActionClick` / `onActionLongClick` dispatch, its inverse on
  the Markdown buttons, and the open-link fall-through to the common handler.

Editor queries are parameters: the selection start, the current line and
the offset where it starts (`TextViewUtils.getSelection`,
`getSelectedLines`, `getLineStart`), and the line selection pair
(`getLineSelection`). Resolving a link target against the document's folder
and asking whether it can be created (`GsFileUtils.makeAbsolute` +
`canCreate`) is the predicate `canCreate` on the raw target. The common
handlers (`runCommonAction`, `runCommonLongPressAction`) are the parameters
`runCommon` / `runCommonLong`. The unordered-list character setting
(`getUnorderedListCharacter`) is the parameter `listChar`.

## Model

| member | source | states |
|---|---|---|
| LinkPattern.MatchAt | app/src/main/java/net/gsantner/markor/format/markdown/MarkdownActionButtons.java:37-38 | a match found at index i starts at i and covers exactly `[` text `](` target `)` of the line, text free of `]`, target non-empty and free of `)` |
| LinkPattern.MatchAtComplete | app/src/main/java/net/gsantner/markor/format/markdown/MarkdownActionButtons.java:38 | every span of the line of the form `[` text `](` target `)` with those character-class restrictions is found by the scanner at its start index |
| LinkPattern.MatchUniqueAtStart | app/src/main/java/net/gsantner/markor/format/markdown/MarkdownActionButtons.java:38 | the pattern has at most one match per start index, so regex backtracking cannot choose between groupings |
| LinkPattern.FindFrom | app/src/main/java/net/gsantner/markor/format/markdown/MarkdownActionButtons.java:195-196 | one `find()` from index `from` returns a match at or after `from` with no match starting in between, and none only if no match starts at or after `from` |
| LinkPattern.FindFromIsLeftmost | app/src/main/java/net/gsantner/markor/format/markdown/MarkdownActionButtons.java:195-196 | if any match starts at or after `from`, `find()` succeeds and its match starts no later than it |
| LinkPattern.Matches | app/src/main/java/net/gsantner/markor/format/markdown/MarkdownActionButtons.java:195-197 | the matches the `while (m.find())` loop visits: each is a genuine match starting at or after the search start, the first is the first `find()` result, and the walk is empty iff the first `find()` fails |
| LinkPattern.MatchesNonOverlapping | app/src/main/java/net/gsantner/markor/format/markdown/MarkdownActionButtons.java:195-197 | each visited match ends at or before the start of every later one |
| LinkPattern.MatchesOrdered | app/src/main/java/net/gsantner/markor/format/markdown/MarkdownActionButtons.java:195-197 | the matches the `while (m.find())` loop visits are genuine matches, in increasing order, and never overlap |
| LinkPattern.AtMostOneContains | app/src/main/java/net/gsantner/markor/format/markdown/MarkdownActionButtons.java:196-198 | at most one visited match has `start <= cursor < end` |
| LinkPattern.FindLinkFrom | app/src/main/java/net/gsantner/markor/format/markdown/MarkdownActionButtons.java:196-198 | the returned link is one of the visited matches and contains the cursor; none is returned only when no visited match contains it |
| LinkPattern.FindLinkAt | app/src/main/java/net/gsantner/markor/format/markdown/MarkdownActionButtons.java:193-198 | the link under the line-relative cursor is a well-formed match containing the cursor and the only such visited match; none exactly when no visited span contains the cursor |
| LinkPattern.NothingPastCursor | app/src/main/java/net/gsantner/markor/format/markdown/MarkdownActionButtons.java:196-198 | once the search has passed the cursor, no later match can contain it |
| WebUrl.IsWebUrl | app/src/main/java/net/gsantner/markor/format/markdown/MarkdownActionButtons.java:40 | `WEB_URL.matcher(t).matches()`: true iff `t` is in the regex's language, i.e. `http://` or `https://`, one character outside whitespace and `/$.?#`, one non-line-terminator, then only non-whitespace |
| WebUrl.ScannerMatchesRegex | app/src/main/java/net/gsantner/markor/format/markdown/MarkdownActionButtons.java:40 | recognising the longer scheme first and then scanning the rest decides that language, so the optional `s` never needs backtracking |
| LinkFollow.Classify | app/src/main/java/net/gsantner/markor/format/markdown/MarkdownActionButtons.java:199-208 | a web target opens in the browser with that exact URL; otherwise a creatable target opens as a file; otherwise nothing is handled |
| LinkFollow.FollowLink | app/src/main/java/net/gsantner/markor/format/markdown/MarkdownActionButtons.java:186-211 | a negative selection is not handled; a web outcome names a web URL; a file outcome names a target that is not a web URL and can be created |
| LinkFollow.FollowLinkMeaning | app/src/main/java/net/gsantner/markor/format/markdown/MarkdownActionButtons.java:193-211 | a web or file outcome names the target of a visited link containing `sel - lineStart`; not handled iff the selection is negative or every visited link containing the cursor is neither web nor creatable |
| LinkFollow.ContainingLinkDecides | app/src/main/java/net/gsantner/markor/format/markdown/MarkdownActionButtons.java:193-208 | for any line, a visited link whose span holds `sel - lineStart` (with `sel >= 0`) decides the outcome: web if its target is a web URL, else file if creatable, else not handled |
| LinkFollow.UnclosedParenSwallowsLink | app/src/main/java/net/gsantner/markor/format/markdown/MarkdownActionButtons.java:38 | on `[a](b [t](http://x.y)` with the cursor on the inner link, the found match starts at 0 with target `b [t](http://x.y`, which is not a web URL: the `(` at index 3 has no `)` before the inner link, so `[^)]+` runs on to the inner link's `)` |
| LinkFollow.UnclosedBracketKeepsTarget | app/src/main/java/net/gsantner/markor/format/markdown/MarkdownActionButtons.java:186-211 | on `[x [t](http://x.y)` the found match starts at 0 with text `x [t`, yet its target is still `http://x.y` and the cursor on the inner link opens it: an unclosed `[` alone moves only the start |
| LinkFollow.FollowLinkUnderCursor | app/src/main/java/net/gsantner/markor/format/markdown/MarkdownActionButtons.java:186-211 | the source's loop, which keeps searching after a containing link that cannot be opened, gives the same outcome as the reference FollowLink |
| LinkFollow.LinkUnderCursorIsFound | app/src/main/java/net/gsantner/markor/format/markdown/MarkdownActionButtons.java:192-198 | on a line `prefix [text](target) suffix` with no `[` in the prefix, every cursor inside the link's span finds exactly that link |
| LinkFollow.WebLinkIsOpened | app/src/main/java/net/gsantner/markor/format/markdown/MarkdownActionButtons.java:199-201 | with the cursor inside such a link whose target is a web URL, the browser is opened on exactly that URL |
| LinkFollow.FileLinkIsOpened | app/src/main/java/net/gsantner/markor/format/markdown/MarkdownActionButtons.java:202-206 | with the cursor inside such a link whose target is not a web URL but can be created, the file is opened |
| LinkFollow.ExampleComIsWeb | app/src/main/java/net/gsantner/markor/format/markdown/MarkdownActionButtons.java:40 | `http://example.com` is a web URL |
| TableRow.BuildDataRow | app/src/main/java/net/gsantner/markor/format/markdown/MarkdownActionButtons.java:224-226 | the first loop appends exactly `cols - 1` copies of `"  | "`, none when `cols <= 1` |
| TableRow.BuildSeparatorRow | app/src/main/java/net/gsantner/markor/format/markdown/MarkdownActionButtons.java:229-234 | the second loop produces `cols` cells `---` joined by `|` separators |
| TableRow.SeparatorRowLength | app/src/main/java/net/gsantner/markor/format/markdown/MarkdownActionButtons.java:229-234 | the separator row is `4 * cols - 1` characters long for `cols >= 1` and empty otherwise |
| TableRow.TableSnippet | app/src/main/java/net/gsantner/markor/format/markdown/MarkdownActionButtons.java:219-235 | the snippet's length: one for the leading line break, four per data-row separator, and with a header one line break plus `4 * cols - 1` characters for `cols >= 1` (the bare line break for `cols <= 0`) |
| TableRow.InsertTableRow | app/src/main/java/net/gsantner/markor/format/markdown/MarkdownActionButtons.java:214-241 | the snippet is the leading line break iff `sel[0] != -1 && sel[0] == sel[1]`, the data row, then `\n` and the separator row iff the header is enabled; the cursor moves up iff the header is enabled |
| TableRow.SeparatorRowCells | app/src/main/java/net/gsantner/markor/format/markdown/MarkdownActionButtons.java:229-234 | read back as `|`-separated cells, the separator row is exactly `cols` cells `---` |
| TableRow.DataRowCells | app/src/main/java/net/gsantner/markor/format/markdown/MarkdownActionButtons.java:224-226 | read back as `|`-separated cells, the data row has `cols` cells, matching the header row |
| TableRow.TableSnippetLineBreaks | app/src/main/java/net/gsantner/markor/format/markdown/MarkdownActionButtons.java:219-228 | the snippet holds one line break for an empty current line plus one before the header row, and no others |
| TableRow.TableSnippetPipes | app/src/main/java/net/gsantner/markor/format/markdown/MarkdownActionButtons.java:224-234 | the snippet holds `max(cols - 1, 0)` pipes, twice that many with a header |
| TableRow.TableSnippetDashes | app/src/main/java/net/gsantner/markor/format/markdown/MarkdownActionButtons.java:227-235 | dashes appear only with a header, `3 * cols` of them; without a header no `---` appears |
| TableRow.TableSnippetStart | app/src/main/java/net/gsantner/markor/format/markdown/MarkdownActionButtons.java:219-235 | on an empty line the snippet starts with a line break; on a non-empty line it starts with the first cell `"  | "` when there are two or more columns, and is only the header part (itself starting with a line break) when there are fewer |
| TableRow.ThreeColumnsWithHeader | app/src/main/java/net/gsantner/markor/format/markdown/MarkdownActionButtons.java:224-235 | three columns with a header on a non-empty line give `"  |   | \n---|---|---"` |
| Actions.Dispatch | app/src/main/java/net/gsantner/markor/format/markdown/MarkdownActionButtons.java:95-161 | inline actions use only the five fixed delimiters, heading levels are 1 to 3, the list rules carry the configured unordered-list character, only the ordered list renumbers, only the open-link button follows links, and exactly the unnamed buttons go to the common handler |
| Actions.DispatchRoundTrip | app/src/main/java/net/gsantner/markor/format/markdown/MarkdownActionButtons.java:96-156 | each named button's command identifies the button, and every command that names a button is what that button produces with the list character the command carries |
| Actions.InlineDelimitersCovered | app/src/main/java/net/gsantner/markor/format/markdown/MarkdownActionButtons.java:128-147 | a delimiter is used by some inline button iff it is one of `**`, `_`, `~~`, `` ` ``, `----\n` |
| Actions.HeadingLevels | app/src/main/java/net/gsantner/markor/format/markdown/MarkdownActionButtons.java:101-112 | the heading command with level n comes from exactly the h-n button, n in 1..3 |
| Actions.DispatchLong | app/src/main/java/net/gsantner/markor/format/markdown/MarkdownActionButtons.java:165-184 | long-press opens the table dialog with its flag set only for the table button, the code fence only for inline code, and the common handler for all else |
| Actions.LongPressPartnersClick | app/src/main/java/net/gsantner/markor/format/markdown/MarkdownActionButtons.java:140-182 | the table button opens the same dialog on click and long press, the two differing only in the long-press flag; inline code is the backtick wrap on click and the code fence on long press; every other button the click switch consumes goes to the common long-press handler |
| Actions.OnActionClick | app/src/main/java/net/gsantner/markor/format/markdown/MarkdownActionButtons.java:95-161 | the open-link button opens a link iff following it is handled and otherwise falls through to the common handler; unnamed buttons go to the common handler; all other buttons are consumed; a click is unhandled only when the common handler says so |
| Actions.OnActionLongClick | app/src/main/java/net/gsantner/markor/format/markdown/MarkdownActionButtons.java:165-184 | only the table and inline-code buttons are consumed by the Markdown long-press switch; the rest take the common long-press handler's answer |

## Left out

- Editor widget effects (`requestFocus`, `moveCursorToEndOfLine`, `insertOrReplaceTextOnCursor`, `moveCursorToBeginOfLine`, `simulateKeyPress`): only the inserted text and the move-up decision are modelled.
- The inline-code long-press code fence (lines 171-177): its result depends on the editor's `Editable` insertion and selection shifting, which are not part of this model; the dispatch to it is modelled.
- `runRegexReplaceAction`, `MarkdownReplacePatternGenerator` (including `PREFIX_ATX_HEADING` in `runTitleClick`) and `AutoTextFormatter.renumberOrderedList`: the patterns live in files that are not part of this model, so commands only name the rule requested.
- `runTitleClick` and the heading dialog with its disabled-heading set: a dialog of `MarkorDialogFactory`, not part of this model.
- `getActiveActionList` and `getFormatActionsKey`: resource and drawable constants with no behaviour.
- Browser launching, `DocumentActivity.handleFileClick`, `GsFileUtils.makeAbsolute` and `canCreate`: foreign calls, replaced by the `LinkOutcome` constructors and the `canCreate` predicate on the raw target.
- The `group != null` test of line 198: group 2 of a successful match is never null, so it is always true and is not modelled.
- Character offsets: Java indexes strings by UTF-16 units and its regex classes consume whole code points; the model indexes by characters and does not model supplementary characters (surrogate pairs).
- TableRow.DataRow: `cols` is an unbounded integer. In Java `cols - 1` wraps when `cols` is `Integer.MIN_VALUE`, and the loop then runs about 2^31 times; the model returns the empty row. The table dialog is expected to supply only small positive counts.
- TableRow.BuildDataRow: same `int` wrap-around at `cols == Integer.MIN_VALUE` is not modelled.
- LinkFollow.LinkUnderCursorIsFound: requires that no `[` precede the link on the line. Without that the statement is false of the source: an earlier unclosed `[` moves the match start before the link, so the found match is not exactly that link (`UnclosedBracketKeepsTarget`). `ContainingLinkDecides` is the unrestricted form.
- LinkFollow.WebLinkIsOpened: requires no `[` before the link. That is sufficient but not necessary: the target changes only when an earlier `[…](` has no `)` before the link, so that `[^)]+` takes the link into its target (`UnclosedParenSwallowsLink`); an unclosed `[` alone keeps the target (`UnclosedBracketKeepsTarget`).
- LinkFollow.FileLinkIsOpened: requires no `[` before the link; as for `WebLinkIsOpened`, only an earlier `[…](` with no `)` before the link changes the target.
- The `TextViewUtils` queries (selection, current line, line start, line selection) are inputs rather than functions of the document text.
