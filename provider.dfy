/** The preview content provider of src/extension.ts and the listeners that
    `activate` wires to it: which page is shown for which editor state, when the
    preview is told to reload, and the highlight the reveal command applies. */
module Provider {
  import opened Js
  import opened AnimeRegex
  import opened Sanitizer
  import opened Template

  /** The fixed address of the one preview pane. */
  const PreviewUri: string := "animejs-preview://authority/animejs-preview"

  /** The only language id the provider previews. */
  const JavaScript: string := "javascript"

  /** What the provider reads of `vscode.window.activeTextEditor`: the document's
      language id and its text. `None` is "no active editor". */
  datatype Document = Document(languageId: string, text: string)

  /** The page `provideTextDocumentContent` returns for the active editor state,
      with `webviewJS` the path of the bundled runtime script: empty exactly when
      there is no active editor, the error page for another language, and
      otherwise a page whose inlined text is the sanitized document text. */
  function Render(active: Option<Document>, webviewJS: string): (html: string)
    ensures html == "" <==> active.None?
    ensures active.Some? && active.value.languageId != JavaScript ==>
      |ErrorOpen| + |ErrorClose| <= |html| && ErrorMessageOf(html) == NotAnimeJsMessage
    ensures active.Some? && active.value.languageId == JavaScript ==>
      |SnippetHead(webviewJS)| + |InlineOpen| + |InlineClose| + |PageClose| <= |html|
      && InlinedText(webviewJS, html) == Sanitize(active.value.text)
  {
    if active.Some? && active.value.languageId != JavaScript then ErrorSnippet(NotAnimeJsMessage)
    else if active.None? then ""
    else Snippet(webviewJS, Sanitize(active.value.text))
  }

  /** For a document in another language the page is the error page with the fixed
      message, and nothing of the document or of `webviewJS` reaches it: two such
      states always give the same page. */
  lemma RenderRejectsOtherLanguages(d1: Document, d2: Document, webviewJS1: string, webviewJS2: string)
    requires d1.languageId != JavaScript && d2.languageId != JavaScript
    ensures Render(Some(d1), webviewJS1) == Render(Some(d2), webviewJS2)
    ensures HasAt(Render(Some(d1), webviewJS1), 0, ErrorOpen)
  {
  }

  /** For a JavaScript document the page loads `webviewJS` in a `<script src=...>`
      tag and inlines the sanitized text verbatim in its last `<script>` element;
      a text without `animejs` is inlined as it is. */
  lemma RenderInlinesJavaScript(d: Document, webviewJS: string)
    requires d.languageId == JavaScript
    ensures var html := Render(Some(d), webviewJS);
      && HasAt(html, |PageOpen + LoaderScript + TagIndent|, AssetTag(webviewJS))
      && HasAt(html, |SnippetHead(webviewJS)|, InlineScript(Sanitize(d.text)))
      && |SnippetHead(webviewJS)| + |InlineOpen| + |InlineClose| + |PageClose| <= |html|
      && InlinedText(webviewJS, html) == Sanitize(d.text)
      && (!ContainsKeyword(d.text) ==> InlinedText(webviewJS, html) == d.text)
  {
    SnippetLoadsAsset(webviewJS, Sanitize(d.text));
    SnippetInlinesText(webviewJS, Sanitize(d.text));
    SanitizeUnchangedIff(d.text);
  }

  /** The `TextDocumentContentProvider` instance. `uri` is the `_uri` field; the
      `_onDidChange` emitter is represented by the URIs fired on it so far. */
  class ContentProvider {
    var uri: Option<string>
    var fired: seq<string>
    /** The module-level `animeRegex`, shared by every call. */
    const animeRegex: GlobalRegex
    /** The path of the bundled runtime script, fixed at activation. */
    const webviewJS: string

    constructor (animeRegex: GlobalRegex, webviewJS: string)
      ensures uri == None && fired == []
      ensures this.animeRegex == animeRegex && this.webviewJS == webviewJS
    {
      uri := None;
      fired := [];
      this.animeRegex := animeRegex;
      this.webviewJS := webviewJS;
    }

    /** `provideTextDocumentContent`: records the requested URI and renders. The
        page does not depend on what earlier calls left in `animeRegex.lastIndex`. */
    method ProvideTextDocumentContent(requested: string, active: Option<Document>) returns (html: string)
      modifies this, animeRegex
      ensures uri == Some(requested) && fired == old(fired)
      ensures html == Render(active, webviewJS)
      ensures animeRegex.lastIndex ==
        if active.Some? && active.value.languageId == JavaScript then
          (if FirstMatch(active.value.text, 0).Some? then FirstMatch(active.value.text, 0).value.end else 0)
        else old(animeRegex.lastIndex)
    {
      uri := Some(requested);
      html := CreateCssSnippet(active);
    }

    /** `update`: fires `target` on the change emitter. */
    method Update(target: string)
      modifies this
      ensures fired == old(fired) + [target]
      ensures uri == old(uri)
    {
      fired := fired + [target];
    }

    /** `createCssSnippet`: the language gate in front of `extractSnippet`. */
    method CreateCssSnippet(active: Option<Document>) returns (html: string)
      modifies animeRegex
      ensures html == Render(active, webviewJS)
      ensures animeRegex.lastIndex ==
        if active.Some? && active.value.languageId == JavaScript then
          (if FirstMatch(active.value.text, 0).Some? then FirstMatch(active.value.text, 0).value.end else 0)
        else old(animeRegex.lastIndex)
    {
      if active.Some? && active.value.languageId != JavaScript {
        html := ErrorSnippet(NotAnimeJsMessage);
        return;
      }
      html := ExtractSnippet(active);
    }

    /** `extractSnippet`: splices the first `animejs` line out of the text and
        wraps the rest in the page. */
    method ExtractSnippet(active: Option<Document>) returns (html: string)
      modifies animeRegex
      ensures active.None? ==> html == ""
      ensures active.Some? ==> html == Snippet(webviewJS, Sanitize(active.value.text))
      ensures animeRegex.lastIndex ==
        if active.Some? then
          (if FirstMatch(active.value.text, 0).Some? then FirstMatch(active.value.text, 0).value.end else 0)
        else old(animeRegex.lastIndex)
    {
      if active.None? {
        return "";
      }
      var text := active.value.text;
      var r := Exec(text);
      if r.Some? {
        var m := r.value;
        text := Substr(text, 0, m.start) + Substr(text, m.start + (m.end - m.start), |text|);
      }
      html := Snippet(webviewJS, text);
    }

    /** `exec`: resets `lastIndex` and runs the regex, so the search always starts
        at index 0 whatever the previous call left behind. */
    method Exec(s: string) returns (r: Option<Match>)
      modifies animeRegex
      ensures IsExecResult(s, 0, r)
      ensures r == FirstMatch(s, 0)
      ensures animeRegex.lastIndex == if r.Some? then r.value.end else 0
    {
      animeRegex.lastIndex := 0;
      r := animeRegex.Exec(s);
    }
  }

  /** Host identities of editors and documents, compared as `===` compares them. */
  type EditorId = nat
  type DocumentId = nat

  /** The active editor as the listeners see it: which editor, showing which document. */
  datatype ActiveEditor = ActiveEditor(editor: EditorId, document: DocumentId)

  /** An edit calls for a reload when it is to the active editor's document. */
  predicate EditAffectsPreview(active: Option<ActiveEditor>, changed: DocumentId) {
    active.Some? && changed == active.value.document
  }

  /** A selection change calls for a reload when it is in the active editor. */
  predicate SelectionAffectsPreview(active: Option<ActiveEditor>, editor: EditorId) {
    active.Some? && editor == active.value.editor
  }

  /** The `onDidChangeTextDocument` listener. */
  method OnDidChangeTextDocument(provider: ContentProvider, active: Option<ActiveEditor>, changed: DocumentId)
    modifies provider
    ensures provider.fired == old(provider.fired) + if EditAffectsPreview(active, changed) then [PreviewUri] else []
    ensures provider.uri == old(provider.uri)
  {
    if active.Some? && changed == active.value.document {
      provider.Update(PreviewUri);
    }
  }

  /** The `onDidChangeTextEditorSelection` listener. */
  method OnDidChangeTextEditorSelection(provider: ContentProvider, active: Option<ActiveEditor>, editor: EditorId)
    modifies provider
    ensures provider.fired == old(provider.fired) + if SelectionAffectsPreview(active, editor) then [PreviewUri] else []
    ensures provider.uri == old(provider.uri)
  {
    if active.Some? && editor == active.value.editor {
      provider.Update(PreviewUri);
    }
  }

  /** A range of document offsets, `start` included and `end` excluded. Unlike
      `vscode.Range`, it does not swap reversed ends: with `end < start` it is
      empty. */
  datatype OffsetRange = OffsetRange(start: int, end: int)

  predicate Covers(r: OffsetRange, offset: int) {
    r.start <= offset < r.end
  }

  /** The range the reveal command decorates for `propStart` and `propEnd`: it ends
      at `propEnd + 1`, so `propEnd` itself is highlighted. */
  function HighlightRange(propStart: int, propEnd: int): (r: OffsetRange)
    ensures forall o :: Covers(r, o) <==> propStart <= o <= propEnd
  {
    OffsetRange(propStart, propEnd + 1)
  }

  /** A visible text editor: the string form of its document's URI, and the ranges
      it shows with the highlight decoration. */
  class TextEditor {
    const uri: string
    var highlights: seq<OffsetRange>

    constructor (uri: string)
      ensures this.uri == uri && highlights == []
    {
      this.uri := uri;
      highlights := [];
    }
  }

  /** The `extension.revealAnimeJS` command: every visible editor whose URI string
      equals `uri` gets the highlight on `propStart .. propEnd`; the others keep
      their decorations. */
  method RevealAnimeJs(visible: seq<TextEditor>, uri: string, propStart: int, propEnd: int)
    modifies set e | e in visible
    ensures forall e :: e in visible && e.uri == uri ==> e.highlights == [HighlightRange(propStart, propEnd)]
    ensures forall e :: e in visible && e.uri != uri ==> e.highlights == old(e.highlights)
  {
    var i := 0;
    while i < |visible|
      invariant 0 <= i <= |visible|
      invariant forall j :: 0 <= j < i && visible[j].uri == uri ==> visible[j].highlights == [HighlightRange(propStart, propEnd)]
      invariant forall e :: e in visible && e.uri != uri ==> e.highlights == old(e.highlights)
    {
      var editor := visible[i];
      if editor.uri == uri {
        editor.highlights := [HighlightRange(propStart, propEnd)];
      }
      i := i + 1;
    }
  }
}
