# AnimeJS preview extension: the preview content provider, in Dafny

This project models the core of an editor extension that shows a live preview of
an anime.js animation script. The model covers the part of `src/extension.ts`
that turns the active editor's state into the preview page's HTML.

- **Source sanitizer** (`AnimeRegex`, `Sanitizer`). The module-level regular
  expression `.*animejs.*` with the `g` flag is modelled as an explicit scan.
  The scan finds the first `animejs` and widens it to its line, stopping at
  line terminators. It is proved equal to the regex's own meaning: the match at
  the least start position, and there the longest one (greedy `.*`). The
  regex's `lastIndex` is state on a `GlobalRegex` object. `exec` reads and
  updates it by ECMAScript's rules. `extractSnippet` splices the match out with
  two `substr` calls, and `Js.Substr` follows Annex B's clamping rules. Strings
  are sequences of characters (see "Left out").
- **Language gate** (`Provider.Render`, `ContentProvider.CreateCssSnippet`).
  There are three cases: no active editor, a non-JavaScript document, and a
  JavaScript document.
- **HTML templates** (`Template`). `errorSnippet` and `snippet` are reproduced
  character for character, including tabs and trailing spaces. Nothing
  interpolated is escaped.
- **Provider state and listeners** (`Provider`).
  - `ContentProvider` holds the `_uri` field and the change emitter.
  - The emitter is represented by the list of URIs fired on it.
  - The two change listeners fire an update only for the active editor.
  - The reveal command decorates the matching visible editors with the range
    `propStart .. propEnd + 1`.

Files: `js.dfy`, `anime_regex.dfy`, `sanitizer.dfy`, `template.dfy`, `provider.dfy`.

The page's `<head>` holds three scripts: the inline loader, the `<script src=...>`
tag for `webviewJS` and the inlined text. Its `<body>` holds an empty `div#root`
and a `textarea#html`. The pattern is case-sensitive, as the regex literal is.

## Model

| member | source | states |
|---|---|---|
| `Js.Substr` | src/extension.ts:60 | `substr` with a start inside the string returns a slice of it starting there, never longer than the string |
| `Js.SubstrRemainder` | src/extension.ts:60 | `text.substr(i, text.length)` is the whole remainder `text[i..]`, because the length is clamped |
| `AnimeRegex.FindKeyword` | src/extension.ts:9 | returns the first occurrence of `animejs` at or after `from`; no earlier occurrence exists; `None` only when there is none at all |
| `AnimeRegex.SegmentStart` | src/extension.ts:9 | the left end of the match: `lo` or just after a line terminator, with no terminator between it and the keyword |
| `AnimeRegex.LineEnd` | src/extension.ts:9 | the right end of the match: the next line terminator or the end of the text, with no terminator before it |
| `AnimeRegex.FirstMatch` | src/extension.ts:66-69 | the match found searching from `lastIndex` starts at or after it, holds at least the keyword's length and lies inside the text |
| `AnimeRegex.FirstMatchIsExecResult` | src/extension.ts:9 | the scan returns what `exec` of `.*animejs.*` returns: the leftmost match, and there the longest; `None` exactly when no span matches |
| `AnimeRegex.ExecResultIsFirstMatch` | src/extension.ts:9 | conversely, any result meeting the regex's leftmost-longest meaning is the scan's result, so `exec` has exactly one answer |
| `AnimeRegex.FirstMatchFoundIff` | src/extension.ts:57-59 | a match exists exactly when the text contains `animejs` |
| `AnimeRegex.FirstMatchIsFirstKeywordLine` | src/extension.ts:9 | the match is the whole first line holding `animejs`: bounded by terminators or the text's ends, terminator-free, with no `animejs` before it |
| `AnimeRegex.FirstKeywordLineIsFirstMatch` | src/extension.ts:9 | conversely, the first line holding `animejs` is exactly the span the scan returns |
| `AnimeRegex.GlobalRegex.constructor` | src/extension.ts:9 | the regex literal `.*animejs.*` (flag `g`) is created with `lastIndex` 0 |
| `AnimeRegex.GlobalRegex.Exec` | src/extension.ts:68 | `exec` on the global regex searches from `lastIndex`, then sets `lastIndex` to the match's end, or to 0 when nothing is found |
| `AnimeRegex.SecondExecMovesOn` | src/extension.ts:66-69 | without the reset, a second `exec` on the same text never returns the first match again; it starts at or after that match's end |
| `AnimeRegex.SecondExecWithoutReset` | src/extension.ts:66-69 | on the text `animejs`, a first `exec` matches the whole text and a second one without the reset finds nothing |
| `Sanitizer.Sanitize` | src/extension.ts:55-63 | the sanitized text is never longer than the document text |
| `Sanitizer.SanitizeSplices` | src/extension.ts:57-60 | with a match, the result is `text[..index] + text[index + length..]`, and it is shorter by the match's length, which is at least 7 |
| `Sanitizer.SanitizeUnchangedIff` | src/extension.ts:57-63 | the text comes back unchanged if and only if it contains no `animejs` |
| `Sanitizer.SanitizeRemovesFirstKeywordLine` | src/extension.ts:57-60 | when the text holds `animejs`, the result is the text minus exactly the first line that holds it; prefix and suffix are kept byte for byte |
| `Sanitizer.SanitizeKeepsLineCount` | src/extension.ts:60 | the number of line terminators, and so of lines, is unchanged |
| `Sanitizer.SanitizeKeepsLaterKeywords` | src/extension.ts:57-60 | every `animejs` after the removed line is still in the result, shifted left by the removed length |
| `Sanitizer.SanitizeFromAnyExecResult` | src/extension.ts:57-60 | any result meeting `exec`'s meaning for a search from index 0 gives `Sanitize`'s splice, so the output depends on the text alone |
| `Template.ErrorSnippet` | src/extension.ts:71-76 | `errorSnippet`: the page opens with the `<body>` markup, and its message can be read back unaltered |
| `Template.Snippet` | src/extension.ts:78-104 | `snippet`: the inlined text can be read back unaltered from the page, since no escaping happens |
| `Template.SnippetInjective` | src/extension.ts:78-104 | two different texts never give the same page |
| `Template.SnippetOpensHtml` | src/extension.ts:82 | the page opens with `<html>` |
| `Template.SnippetClosesHtml` | src/extension.ts:103 | the page closes with `</html>` |
| `Template.SnippetLoadsAsset` | src/extension.ts:94 | the page holds `<script src=` + `webviewJS` + `></script>` right after the loader script |
| `Template.InlineScriptShape` | src/extension.ts:95-97 | the inline script element opens with `<script>`, closes with `</script>` and holds the text verbatim after a line break and indentation |
| `Template.SnippetInlinesText` | src/extension.ts:95-97 | the page holds that inline script element right after its head |
| `Provider.Render` | src/extension.ts:41-64 | `createCssSnippet` with `extractSnippet`: the page is empty if and only if there is no active editor; for another language it is the error page with the fixed message; for JavaScript its inlined text is the sanitized document text |
| `Provider.RenderRejectsOtherLanguages` | src/extension.ts:43-45 | for a non-JavaScript document the page is the error page, opening with its `<body>` markup; neither the document nor `webviewJS` affects it |
| `Provider.RenderInlinesJavaScript` | src/extension.ts:49-63 | for a JavaScript document the page loads `webviewJS` and holds the inline script element with the sanitized text, which can be read back; that text is the document text when it has no `animejs` |
| `Provider.ContentProvider.constructor` | src/extension.ts:23-24 | a new provider has no `_uri` yet and has fired nothing on its emitter; it shares the module's regex and keeps the given `webviewJS` |
| `Provider.ContentProvider.ProvideTextDocumentContent` | src/extension.ts:27-31 | records the requested URI in `_uri`, fires nothing, and returns the page for the editor state, whatever earlier calls left in `lastIndex`; `lastIndex` ends at the match's end, at 0 without a match, and is untouched unless a JavaScript document is shown |
| `Provider.ContentProvider.Update` | src/extension.ts:37-39 | fires exactly the given URI on the emitter and leaves `_uri` alone |
| `Provider.ContentProvider.CreateCssSnippet` | src/extension.ts:41-47 | the language gate: the error page for other languages, otherwise `extractSnippet`; `lastIndex` is only touched for a JavaScript document, and then ends at the match's end or 0 |
| `Provider.ContentProvider.ExtractSnippet` | src/extension.ts:49-64 | `''` without an editor, leaving `lastIndex` alone; otherwise the page around the sanitized text, with `lastIndex` at the match's end or 0 |
| `Provider.ContentProvider.Exec` | src/extension.ts:66-69 | after resetting `lastIndex`, the result is the leftmost-longest match from index 0 |
| `Provider.OnDidChangeTextDocument` | src/extension.ts:110-114 | fires the preview URI once if the edited document is the active editor's, and otherwise fires nothing |
| `Provider.OnDidChangeTextEditorSelection` | src/extension.ts:116-120 | fires the preview URI once if the selection changed in the active editor, and otherwise fires nothing |
| `Provider.HighlightRange` | src/extension.ts:136 | the decorated range covers exactly the offsets `propStart` through `propEnd`, both included |
| `Provider.RevealAnimeJs` | src/extension.ts:131-142 | every visible editor whose URI string equals the argument gets the highlight range; the others keep their decorations |

## Left out

- The host API plumbing is not modelled: provider registration, `executeCommand('vscode.previewHtml', ...)` with its promise and error notification, command registration and `context.subscriptions` (src/extension.ts:107-108, 122-127, 144). These are host calls with no visible semantics here.
- `getMiscPath` (src/extension.ts:16-21) is not modelled, because it only calls `Uri.file`, `asAbsolutePath` and `path.join`. `webviewJS` is a string parameter.
- The `console.log` calls (src/extension.ts:28, 80) are I/O and are left out.
- The inline loader script inside the page (src/extension.ts:84-93) is emitted as exact text. Its DOM behaviour at run time is not modelled.
- `src/media/main.js` only drives the external anime.js library and has no logic of its own. It is not part of this model.
- A general regular-expression engine is not modelled. Only the first-match behaviour of `.*animejs.*` is, written as a scan.
- The editor state is a parameter, read once. The source reads `vscode.window.activeTextEditor` twice, at lines 42 and 50. Lines 41-64 run synchronously, with nothing awaited between the two reads, so both see the same value.
- Editor and document identities (`===` on host objects) are modelled as numbers.
- `Provider.RevealAnimeJs`: `positionAt` (src/extension.ts:135-136) is not modelled. It turns offsets into positions and clamps them to the document. So the model keeps raw offsets.
- `Provider.RevealAnimeJs`: the `setTimeout` that clears the highlight after 1.5 s (src/extension.ts:139) is a timer and is left out.
- `Provider.HighlightRange`: `new vscode.Range(start, end)` (src/extension.ts:138) swaps reversed ends, so with `propEnd + 1 < propStart` the host highlights `propEnd + 1 .. propStart`; the model's range is then empty. Like the `positionAt` clamping, this host behaviour is not modelled.
- `Provider.HighlightRange`: the model takes integer offsets; fractional JavaScript numbers are not modelled.
- `Js.Substr`: the arguments are integers. `ToIntegerOrInfinity` on non-integral or infinite numbers is not modelled, because the source only passes indices and lengths.
- Strings are sequences of characters: `lastIndex`, `index`, `[0].length` and `substr` count characters here, not UTF-16 code units as in JavaScript, and lone surrogates (which a JavaScript string and `.` without the `u` flag can hold) are not modelled. For well-formed text the spliced output is the same.
