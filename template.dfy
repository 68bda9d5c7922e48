/** The two HTML templates of the preview provider, `errorSnippet` and `snippet`.
    Both are plain concatenation: nothing interpolated is escaped. */
module Template {

  /** The text `createCssSnippet` shows for a document that is not JavaScript. */
  const NotAnimeJsMessage: string :=
    "Active editor doesn't show a AnimeJS document - no properties to preview."

  /** `errorSnippet` around its message. */
  const ErrorOpen: string := "\n\t\t\t\t<body>\n\t\t\t\t\t"
  const ErrorClose: string := "\n\t\t\t\t</body>"

  const HtmlOpen: string := "<html>"
  const HtmlClose: string := "</html>"
  const ScriptOpen: string := "<script>"
  const ScriptClose: string := "</script>"

  /** Indentation of the tags inside `<head>`, and of the inlined text. */
  const TagIndent: string := "                    "
  const TextIndent: string := "                        "

  /** The opening of the page, up to the first inline script. */
  const PageOpen: string := HtmlOpen + HeadOpen
  const HeadOpen: string := "\n                <head>\n"

  /** The inline loader script: when the page loads, it wires the `#html` text
      area to re-render `#root` and re-dispatch `load`. Emitted as text only. */
  const LoaderScript: string :=
    TagIndent + ScriptOpen + "\n" +
    "                        window.addEventListener('load', function () {\n" +
    "                            document.querySelector('#html').addEventListener('change', function () {\n" +
    "                                document.querySelector('#root').innerHTML = this.value;\n" +
    "                                var evt = document.createEvent('Event');  \n" +
    "                                evt.initEvent('load', false, false);  \n" +
    "                                window.dispatchEvent(evt);\n" +
    "                            });\n" +
    "                        });\n" +
    TagIndent + ScriptClose + "\n"

  /** The inline script element that carries the document text, around that text. */
  const InlineOpen: string := ScriptOpen + "\n" + TextIndent
  const InlineClose: string := "\n" + TagIndent + ScriptClose

  /** The rest of the page after the inline script. */
  const PageClose: string := BodyMarkup + HtmlClose

  /** The end of `<head>` and the `<body>` with its two elements. */
  const BodyMarkup: string :=
    "\n                </head>" +
    "\n                <body>" +
    "\n                    <div id=\"root\"></div>" +
    "\n\t\t\t\t\t<textarea id=\"html\"></textarea>" +
    "\n                </body>" +
    "\n            "

  /** The tag that loads the bundled runtime script from `webviewJS`, unquoted. */
  function AssetTag(webviewJS: string): string {
    "<script src=" + webviewJS + ">" + ScriptClose
  }


  /** Everything `snippet` emits before the inline script that carries the text. */
  function SnippetHead(webviewJS: string): string {
    PageOpen + LoaderScript + TagIndent + AssetTag(webviewJS) + "\n" + TagIndent
  }

  /** The inline `<script>` element holding `str`. */
  function InlineScript(str: string): string {
    InlineOpen + str + InlineClose
  }


  /** The message inside an error page, read back by position. */
  function ErrorMessageOf(html: string): (message: string)
    requires |ErrorOpen| + |ErrorClose| <= |html|
  {
    html[|ErrorOpen| .. |html| - |ErrorClose|]
  }

  /** The text inside the page's last inline script, read back by position. */
  function InlinedText(webviewJS: string, html: string): (str: string)
    requires |SnippetHead(webviewJS)| + |InlineOpen| + |InlineClose| + |PageClose| <= |html|
  {
    html[|SnippetHead(webviewJS)| + |InlineOpen| .. |html| - |InlineClose| - |PageClose|]
  }

  /** `piece` occurs in `s` at index `i`. */
  predicate HasAt(s: string, i: int, piece: string) {
    0 <= i && i + |piece| <= |s| && s[i..i + |piece|] == piece
  }

  lemma HasAtLeft(a: string, b: string)
    ensures HasAt(a + b, 0, a)
  {
    assert (a + b)[..|a|] == a;
  }

  lemma HasAtMiddle(a: string, b: string, c: string)
    ensures HasAt(a + b + c, |a|, b)
  {
    assert (a + b + c)[|a|..|a| + |b|] == (a + b)[|a|..];
  }

  lemma HasAtEnd(a: string, b: string, c: string)
    ensures HasAt(a + (b + c), |a + (b + c)| - |c|, c)
  {
    assert (a + (b + c))[|a + (b + c)| - |c|..] == c;
  }

  /** An occurrence at the front survives appending. */
  lemma HasAtAppend(a: string, b: string, i: int, piece: string)
    requires HasAt(a, i, piece)
    ensures HasAt(a + b, i, piece)
  {
    assert (a + b)[i..i + |piece|] == a[i..i + |piece|];
  }

  /** `b` comes back from `a + b + c` by cutting off as much as `a` and `c` hold. */
  lemma Between(a: string, b: string, c: string)
    ensures |a| + |c| <= |a + b + c|
    ensures (a + b + c)[|a|..|a + b + c| - |c|] == b
  {
    assert (a + b + c)[|a|..|a + b + c| - |c|] == (a + b)[|a|..];
  }

  /** `c` comes back from `a + (b + c + d) + e` by cutting off the rest. */
  lemma Enclosed(a: string, b: string, c: string, d: string, e: string)
    ensures |a| + |b| + |d| + |e| <= |a + (b + c + d) + e|
    ensures (a + (b + c + d) + e)[|a| + |b|..|a + (b + c + d) + e| - |d| - |e|] == c
  {
    var s := a + (b + c + d) + e;
    assert s[|a| + |b|..|s| - |d| - |e|] == (b + c + d)[|b|..|b| + |c|];
    Between(b, c, d);
  }

  /** `errorSnippet(error)`: a bare `<body>` holding the message. The page opens
      with the `<body>` markup and gives the message back unaltered. */
  function ErrorSnippet(error: string): (html: string)
    ensures |ErrorOpen| + |ErrorClose| <= |html| && ErrorMessageOf(html) == error
    ensures HasAt(html, 0, ErrorOpen)
  {
    Between(ErrorOpen, error, ErrorClose);
    HasAtLeft(ErrorOpen, error);
    HasAtAppend(ErrorOpen + error, ErrorClose, 0, ErrorOpen);
    ErrorOpen + error + ErrorClose
  }

  /** `snippet(str)`: the preview page, with `webviewJS` as the runtime script's
      path and `str` as the body of the last inline script. Nothing is escaped,
      so the text can be read back unaltered. */
  function Snippet(webviewJS: string, str: string): (html: string)
    ensures |SnippetHead(webviewJS)| + |InlineOpen| + |InlineClose| + |PageClose| <= |html|
      && InlinedText(webviewJS, html) == str
  {
    Enclosed(SnippetHead(webviewJS), InlineOpen, str, InlineClose, PageClose);
    SnippetHead(webviewJS) + InlineScript(str) + PageClose
  }

  /** Two different texts never give the same page. */
  lemma SnippetInjective(webviewJS: string, str1: string, str2: string)
    requires Snippet(webviewJS, str1) == Snippet(webviewJS, str2)
    ensures str1 == str2
  {
  }

  /** The page opens with `<html>`. */
  lemma SnippetOpensHtml(webviewJS: string, str: string)
    ensures HasAt(Snippet(webviewJS, str), 0, HtmlOpen)
  {
    var tag := AssetTag(webviewJS);
    HasAtLeft(HtmlOpen, HeadOpen);
    HasAtAppend(PageOpen, LoaderScript, 0, HtmlOpen);
    HasAtAppend(PageOpen + LoaderScript, TagIndent, 0, HtmlOpen);
    HasAtAppend(PageOpen + LoaderScript + TagIndent, tag, 0, HtmlOpen);
    HasAtAppend(PageOpen + LoaderScript + TagIndent + tag, "\n", 0, HtmlOpen);
    HasAtAppend(PageOpen + LoaderScript + TagIndent + tag + "\n", TagIndent, 0, HtmlOpen);
    HasAtAppend(SnippetHead(webviewJS), InlineScript(str), 0, HtmlOpen);
    HasAtAppend(SnippetHead(webviewJS) + InlineScript(str), PageClose, 0, HtmlOpen);
  }

  /** The page closes with `</html>`. */
  lemma SnippetClosesHtml(webviewJS: string, str: string)
    ensures var html := Snippet(webviewJS, str);
      HasAt(html, |html| - |HtmlClose|, HtmlClose)
  {
    HasAtEnd(SnippetHead(webviewJS) + InlineScript(str), BodyMarkup, HtmlClose);
  }

  /** Inside `<head>`, after the loader script, comes the tag `<script src=...>`
      that loads `webviewJS`. */
  lemma SnippetLoadsAsset(webviewJS: string, str: string)
    ensures HasAt(Snippet(webviewJS, str), |PageOpen + LoaderScript + TagIndent|, AssetTag(webviewJS))
  {
    var front := PageOpen + LoaderScript + TagIndent;
    var tag := AssetTag(webviewJS);
    HasAtMiddle(front, tag, "\n");
    HasAtAppend(front + tag + "\n", TagIndent, |front|, tag);
    HasAtAppend(SnippetHead(webviewJS), InlineScript(str), |front|, tag);
    HasAtAppend(SnippetHead(webviewJS) + InlineScript(str), PageClose, |front|, tag);
  }

  /** The inline script element starts with `<script>`, ends with `</script>`, and
      holds the text verbatim after a line break and indentation. */
  lemma InlineScriptShape(str: string)
    ensures var element := InlineScript(str);
      && HasAt(element, 0, ScriptOpen)
      && HasAt(element, |InlineOpen|, str)
      && HasAt(element, |element| - |ScriptClose|, ScriptClose)
  {
    HasAtLeft(ScriptOpen, "\n");
    HasAtAppend(ScriptOpen + "\n", TextIndent, 0, ScriptOpen);
    HasAtAppend(InlineOpen, str, 0, ScriptOpen);
    HasAtAppend(InlineOpen + str, InlineClose, 0, ScriptOpen);
    HasAtMiddle(InlineOpen, str, InlineClose);
    HasAtEnd(InlineOpen + str, "\n" + TagIndent, ScriptClose);
  }

  /** The page holds that inline script element right after its head. */
  lemma SnippetInlinesText(webviewJS: string, str: string)
    ensures HasAt(Snippet(webviewJS, str), |SnippetHead(webviewJS)|, InlineScript(str))
  {
    HasAtMiddle(SnippetHead(webviewJS), InlineScript(str), PageClose);
  }
}
