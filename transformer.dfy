/**
 * `src/transformer.tsx`: the TypeScript entry point. It initialises the WebAssembly module once,
 * picks the JavaScript or the HTML path by the file extension, wraps what the Rust transpiler
 * returns in a React module (or in a fallback scaffold) and optionally formats the result.
 *
 * Outside the model, and inputs here: what `init()` does, what the exported transpiler does
 * with a piece of code, what the HTML parser finds in the document (its scripts and its markup
 * with the scripts already stripped) and what the formatter returns (`None` when it throws).
 */
module Transformer {
  import opened Wrappers
  import opened Strings
  import opened Regex
  import opened WasmInterface

  // ---------------------------------------------------------------------------
  // extension dispatch

  /** `filePath.split('.').pop()?.toLowerCase()`: the lower-cased text after the last `.`. */
  function Extension(path: string): string {
    var parts := Split(path, {'.'});
    ToLowerAscii(parts[|parts| - 1])
  }

  /** The HTML path is taken for the extensions `html` and `htm`, in any case. */
  predicate IsHtmlPath(path: string) {
    Extension(path) == "html" || Extension(path) == "htm"
  }

  /** Splitting `a` + `c` + `b`, with no `c` in `b`, ends with the part `b`. */
  lemma {:induction false} SplitLastPart(a: string, c: char, b: string)
    requires NoneIn(b, {c})
    ensures var parts := Split(a + [c] + b, {c});
            |parts| >= 2 && parts[|parts| - 1] == b
    decreases |a|
  {
    SplitPrefix(b, "", {c});
    assert b + "" == b;
    if a == [] {
      assert a + [c] + b == [c] + b;
      assert ([c] + b)[1..] == b;
    } else {
      SplitLastPart(a[1..], c, b);
      assert (a + [c] + b)[1..] == a[1..] + [c] + b;
    }
  }

  /** The extension of a path with a dot is the lower-cased text after its last dot. */
  lemma ExtensionAfterLastDot(prefix: string, ext: string)
    requires '.' !in ext
    ensures Extension(prefix + "." + ext) == ToLowerAscii(ext)
  {
    assert NoneIn(ext, {'.'});
    SplitLastPart(prefix, '.', ext);
  }

  /** The extension of a path without a dot is the whole path, lower-cased. */
  lemma ExtensionWithoutDot(path: string)
    requires '.' !in path
    ensures Extension(path) == ToLowerAscii(path)
  {
    assert NoneIn(path, {'.'});
    SplitPrefix(path, "", {'.'});
    assert path + "" == path;
  }

  /** `page.HTML` takes the HTML path. */
  lemma UpperCaseHtmlExtension()
    ensures IsHtmlPath("page.HTML")
  {
    ExtensionAfterLastDot("page", "HTML");
    assert "page" + "." + "HTML" == "page.HTML";
    var low := ToLowerAscii("HTML");
    assert low[0] == 'h' && low[1] == 't' && low[2] == 'm' && low[3] == 'l';
    assert low == "html";
  }

  /** `app.html.js` does not: only the text after the last dot counts. */
  lemma InnerHtmlSegmentIgnored()
    ensures !IsHtmlPath("app.html.js")
  {
    ExtensionAfterLastDot("app.html", "js");
    assert "app.html" + "." + "js" == "app.html.js";
    assert |ToLowerAscii("js")| == 2;
  }

  // ---------------------------------------------------------------------------
  // the jQuery signature

  /** `/\$\(/` */
  const DollarCall: Pattern := Literal("$(")
  /** `/\bjQuery\b/` */
  const JQueryWord: Pattern := [WordBoundary] + Literal("jQuery") + [WordBoundary]

  /** `/\$\(|\bjQuery\b/.test(s)` */
  predicate HasJQuerySignature(s: string) {
    Test(DollarCall, s) || Test(JQueryWord, s)
  }

  /** `w` occurs in `s` with no word character right before or right after it. */
  predicate ContainsWord(s: string, w: string) {
    exists i: nat | i <= |s| :: OccursAt(s, w, i) && !WordAt(s, i - 1) && !WordAt(s, i + |w|)
  }

  lemma JQueryWordAt(s: string, i: nat)
    requires i <= |s|
    ensures MatchesAt(JQueryWord, s, i) <==>
              OccursAt(s, "jQuery", i) && !WordAt(s, i - 1) && !WordAt(s, i + 6)
  {
    var w := "jQuery";
    assert JQueryWord[0] == WordBoundary;
    assert JQueryWord[1..] == Literal(w) + [WordBoundary];
    LiteralThen(w, [WordBoundary], s, i);
    if i + 6 <= |s| {
      assert MatchesAt([WordBoundary], s, i + 6) <==> WordAt(s, i + 5) != WordAt(s, i + 6) by {
        assert [WordBoundary][1..] == [];
      }
    }
    if OccursAt(s, w, i) {
      assert s[i] == s[i..i + 6][0] == 'j';
      assert s[i + 5] == s[i..i + 6][5] == 'y';
    }
  }

  /** The signature test holds exactly when `$(` occurs or `jQuery` occurs as a whole word. */
  lemma SignatureMeaning(s: string)
    ensures HasJQuerySignature(s) <==> Contains(s, "$(") || ContainsWord(s, "jQuery")
  {
    LiteralTest("$(", s);
    forall i: nat | i <= |s|
      ensures MatchesAt(JQueryWord, s, i) <==> OccursAt(s, "jQuery", i) && !WordAt(s, i - 1) && !WordAt(s, i + 6)
    {
      JQueryWordAt(s, i);
    }
  }

  /** `jQueryUI` or `myjQuery` alone is not a signature; `jQuery(` is. */
  lemma SignatureExamples()
    ensures !ContainsWord("jQueryUI", "jQuery")
    ensures ContainsWord("jQuery(", "jQuery")
  {
    assert OccursAt("jQuery(", "jQuery", 0);
    forall i: nat | i <= 8 ensures !(OccursAt("jQueryUI", "jQuery", i) && !WordAt("jQueryUI", i + 6)) {
      if i > 0 && i + 6 <= 8 {
        assert "jQueryUI"[i] != 'j';
        assert "jQueryUI"[i..i + 6][0] == "jQueryUI"[i];
      }
    }
  }

  // ---------------------------------------------------------------------------
  // text pieces

  /** `content.slice(0, 300)` followed by `...` when the content is longer. */
  function Excerpt(content: string): (r: string)
    ensures |content| <= 300 ==> r == content
    ensures |content| > 300 ==> |r| == 303 && StartsWith(content, r[..300]) && r[300..] == "..."
  {
    if |content| > 300 then content[..300] + "..." else content
  }

  const ScaffoldHead: string := "import React from 'react';\n\n"
  const ScaffoldOpen: string := " {\n  return (\n    <div className=\"jquereact-component\">\n      <p>"
  const ScaffoldClose: string := "에서 변환된 컴포넌트</p>\n    </div>\n  );\n}\n\n"

  /** `createEmptyComponent`: the scaffold module with `comment` above a placeholder component. */
  function CreateEmptyComponent(name: string, comment: string): string {
    ScaffoldHead + comment + "\n\n" + ("function " + name + "()") + ScaffoldOpen + "jQuery" + ScaffoldClose
      + ("export default " + name + ";\n")
  }

  /**
   * The scaffold holds the comment verbatim, declares `function <name>()` and ends with its
   * default export.
   */
  lemma ScaffoldContents(name: string, comment: string)
    ensures var r := CreateEmptyComponent(name, comment);
            && Contains(r, comment)
            && Contains(r, "function " + name + "()")
            && EndsWith(r, "export default " + name + ";\n")
  {
    var decl := "function " + name + "()";
    var exportLine := "export default " + name + ";\n";
    var rest := ScaffoldOpen + "jQuery" + ScaffoldClose;
    ContainsSelf(comment);
    ContainsExtend(comment, comment, ScaffoldHead);
    ContainsExtend(ScaffoldHead + comment, comment, "\n\n");
    ContainsExtend(ScaffoldHead + comment + "\n\n", comment, decl);
    ContainsExtend(ScaffoldHead + comment + "\n\n" + decl, comment, ScaffoldOpen);
    ContainsExtend(ScaffoldHead + comment + "\n\n" + decl + ScaffoldOpen, comment, "jQuery");
    ContainsExtend(ScaffoldHead + comment + "\n\n" + decl + ScaffoldOpen + "jQuery", comment, ScaffoldClose);
    ContainsExtend(ScaffoldHead + comment + "\n\n" + decl + ScaffoldOpen + "jQuery" + ScaffoldClose, comment, exportLine);
    ContainsSelf(decl);
    ContainsExtend(decl, decl, ScaffoldHead + comment + "\n\n");
    ContainsExtend(ScaffoldHead + comment + "\n\n" + decl, decl, ScaffoldOpen);
    ContainsExtend(ScaffoldHead + comment + "\n\n" + decl + ScaffoldOpen, decl, "jQuery");
    ContainsExtend(ScaffoldHead + comment + "\n\n" + decl + ScaffoldOpen + "jQuery", decl, ScaffoldClose);
    ContainsExtend(ScaffoldHead + comment + "\n\n" + decl + ScaffoldOpen + "jQuery" + ScaffoldClose, decl, exportLine);
    EndsWithAppend(ScaffoldHead + comment + "\n\n" + decl + ScaffoldOpen + "jQuery" + ScaffoldClose, exportLine);
  }

  /**
   * The scaffold itself mentions `jQuery` as a word, in its placeholder paragraph, so whatever
   * the comment, running the scaffold through the JavaScript path again does not end in the
   * "no jQuery detected" branch.
   */
  lemma ScaffoldHasSignature(name: string, comment: string)
    ensures HasJQuerySignature(CreateEmptyComponent(name, comment))
  {
    var r := CreateEmptyComponent(name, comment);
    var pre := ScaffoldHead + comment + "\n\n" + ("function " + name + "()") + ScaffoldOpen;
    var post := ScaffoldClose + ("export default " + name + ";\n");
    assert r == pre + "jQuery" + post;
    var k := |pre|;
    assert ScaffoldOpen[|ScaffoldOpen| - 1] == '>' && ScaffoldClose[0] == '에';
    assert r[k..k + 6] == "jQuery";
    assert r[k - 1] == pre[k - 1] == ScaffoldOpen[|ScaffoldOpen| - 1];
    assert r[k + 6] == post[0] == ScaffoldClose[0];
    assert OccursAt(r, "jQuery", k) && !WordAt(r, k - 1) && !WordAt(r, k + 6);
    SignatureMeaning(r);
  }

  /** The comment when no jQuery is detected: the whole content, in a block comment. */
  function NoJQueryComment(content: string): string {
    "// jQuery 코드가 감지되지 않았습니다.\n// 원본 코드:\n/*\n" + content + "\n*/"
  }

  /** The comment when the transpiler reports a parse error or no usage. */
  function FailureComment(content: string): string {
    "// jQuery -> React 변환 실패\n// 원본 코드:\n/*\n" + content + "\n*/"
  }

  /** The comment when the JavaScript path throws: the error, then the excerpt. */
  function JsErrorComment(error: string, content: string): string {
    "// 변환 중 오류 발생: " + error + "\n// 원본 코드:\n/*\n" + Excerpt(content) + "\n*/"
  }

  /** `${error}` for an `Error`: its name, then its message. */
  function ErrorText(message: string): string {
    "Error: " + message
  }

  const RustComponent: string := "function MyComponent"

  /** `code.replace(/function MyComponent/, replacement)`: only the first occurrence changes. */
  function RenameComponent(code: string, replacement: string): string {
    ReplaceFirst(code, RustComponent, replacement)
  }

  /** The module wrapped around a successful conversion. */
  function JsSuccess(content: string, name: string, renamed: string): (r: string)
    ensures EndsWith(r, "export default " + name + ";\n")
  {
    var head := "import React from 'react';\n\n// 원본 jQuery 코드에서 변환됨:\n/*\n" + Excerpt(content) + "\n*/\n\n" + renamed + "\n\n";
    var tail := "export default " + name + ";\n";
    assert (head + tail)[|head + tail| - |tail|..] == tail;
    head + tail
  }

  /** The transpiler's answer is one of the two failure sentinels. */
  predicate IsFailure(code: string) {
    StartsWith(code, "// parse error") || Contains(code, "No usage found")
  }

  // ---------------------------------------------------------------------------
  // the JavaScript path

  /**
   * `transformJsFile`. Without the signature the transpiler is not asked; a failure sentinel
   * gives the scaffold with the whole content; an error thrown by `transpile` gives the scaffold
   * with the error and the excerpt; otherwise the renamed component is wrapped in a module.
   */
  function TransformJsFile(content: string, name: string, wasm: WasmModule, backend: Backend): string
    reads wasm
  {
    if !HasJQuerySignature(content) then
      CreateEmptyComponent(name, NoJQueryComment(content))
    else
      match wasm.Transpile(content, backend)
      case Err(message) => CreateEmptyComponent(name, JsErrorComment(ErrorText(message), content))
      case Ok(code) =>
        if IsFailure(code) then CreateEmptyComponent(name, FailureComment(content))
        else JsSuccess(content, name, RenameComponent(code, "function " + name))
  }

  /** Without the signature the result is the scaffold with the content, whatever the transpiler does. */
  lemma NoSignatureSkipsTranspiler(content: string, name: string, wasm: WasmModule, b1: Backend, b2: Backend)
    requires !HasJQuerySignature(content)
    ensures TransformJsFile(content, name, wasm, b1) == CreateEmptyComponent(name, NoJQueryComment(content))
    ensures TransformJsFile(content, name, wasm, b1) == TransformJsFile(content, name, wasm, b2)
    ensures Contains(TransformJsFile(content, name, wasm, b1), content)
  {
    var c := NoJQueryComment(content);
    ContainsSelf(content);
    ContainsExtend(content, content, "// jQuery 코드가 감지되지 않았습니다.\n// 원본 코드:\n/*\n");
    ContainsExtend("// jQuery 코드가 감지되지 않았습니다.\n// 원본 코드:\n/*\n" + content, content, "\n*/");
    ScaffoldContents(name, c);
    ContainsTrans(CreateEmptyComponent(name, c), c, content);
  }

  /** A failure sentinel from the transpiler gives the scaffold with the whole content. */
  lemma FailureGivesScaffold(content: string, name: string, wasm: WasmModule, backend: Backend)
    requires HasJQuerySignature(content) && wasm.initialized
    requires backend(content).Returned? && IsFailure(backend(content).value)
    ensures TransformJsFile(content, name, wasm, backend) == CreateEmptyComponent(name, FailureComment(content))
  {
  }

  /**
   * On success the module ends with the default export of the component, and only the first
   * `function MyComponent` of the transpiler's output is renamed.
   */
  lemma SuccessShape(content: string, name: string, wasm: WasmModule, backend: Backend, i: nat)
    requires HasJQuerySignature(content) && wasm.initialized
    requires backend(content).Returned? && !IsFailure(backend(content).value)
    requires OccursAt(backend(content).value, RustComponent, i)
    requires forall j: nat :: j < i ==> !OccursAt(backend(content).value, RustComponent, j)
    ensures var code := backend(content).value;
            && TransformJsFile(content, name, wasm, backend) ==
                 JsSuccess(content, name, code[..i] + ("function " + name) + code[i + |RustComponent|..])
            && EndsWith(TransformJsFile(content, name, wasm, backend), "export default " + name + ";\n")
  {
    ReplaceFirstAt(backend(content).value, RustComponent, "function " + name, i);
  }

  /** A transpiler output without `function MyComponent` is wrapped unchanged. */
  lemma SuccessWithoutComponent(content: string, name: string, wasm: WasmModule, backend: Backend)
    requires HasJQuerySignature(content) && wasm.initialized
    requires backend(content).Returned? && !IsFailure(backend(content).value)
    requires !Contains(backend(content).value, RustComponent)
    ensures TransformJsFile(content, name, wasm, backend) == JsSuccess(content, name, backend(content).value)
  {
    ReplaceFirstAbsent(backend(content).value, RustComponent, "function " + name);
  }

  // ---------------------------------------------------------------------------
  // the HTML path

  /** A `<script>` element as the HTML parser reports it. */
  datatype Script = Script(src: Option<string>, text: string)

  /** What the HTML parser makes of the document. */
  datatype HtmlDocument = HtmlDocument(scripts: seq<Script>, markupWithoutScripts: string)

  /** `!src`: an absent or empty `src` attribute marks an inline script. */
  predicate IsInline(s: Script) {
    s.src == None || s.src == Some("")
  }

  /** The script's text is collected when it is inline, non-empty and has the signature. */
  predicate Collected(s: Script) {
    IsInline(s) && s.text != "" && HasJQuerySignature(s.text)
  }

  /** The collected code: the collected scripts' texts in document order, each followed by `\n`. */
  function InlineJQueryCode(scripts: seq<Script>): string {
    if scripts == [] then ""
    else
      var last := scripts[|scripts| - 1];
      InlineJQueryCode(scripts[..|scripts| - 1]) + (if Collected(last) then last.text + "\n" else "")
  }

  /** The collected code is empty exactly when no script is collected. */
  lemma {:induction false} InlineCodeEmpty(scripts: seq<Script>)
    ensures InlineJQueryCode(scripts) == "" <==> forall k :: 0 <= k < |scripts| ==> !Collected(scripts[k])
  {
    if scripts != [] {
      var n := |scripts| - 1;
      InlineCodeEmpty(scripts[..n]);
      assert forall k :: 0 <= k < n ==> scripts[..n][k] == scripts[k];
    }
  }

  /** The `forEach` over the scripts. */
  method CollectInlineScripts(scripts: seq<Script>) returns (code: string)
    ensures code == InlineJQueryCode(scripts)
  {
    code := "";
    for i := 0 to |scripts|
      invariant code == InlineJQueryCode(scripts[..i])
    {
      assert scripts[..i + 1][..i] == scripts[..i];
      var script := scripts[i];
      if script.src == None || script.src == Some("") {
        var scriptContent := script.text;
        if scriptContent != "" && HasJQuerySignature(scriptContent) {
          code := code + scriptContent + "\n";
        }
      }
    }
    assert scripts[..|scripts|] == scripts;
  }

  const OmittedMarker: string := "{/* ... 추가 HTML 생략 ... */}"

  /** The markup after `class=` and then `for=` are renamed everywhere. */
  function RenameAttributes(markup: string): string {
    ReplaceAll(ReplaceAll(markup, "class=", "className="), "for=", "htmlFor=")
  }

  /** At most the first five of `lines`, then the marker when there are more. */
  function CapLines(lines: seq<string>): seq<string> {
    if |lines| > 5 then lines[..5] + [OmittedMarker] else lines
  }

  /** `convertHtmlToJsx` on the markup with the scripts already stripped. */
  function ConvertHtmlToJsx(markup: string): string {
    Join(CapLines(Split(RenameAttributes(markup), {'\n'})), "\n")
  }

  /**
   * The output has at most six lines: the first five lines of the renamed markup (all of them
   * when there are fewer), followed by the marker exactly when there were more than five.
   */
  lemma ConvertedLines(markup: string)
    ensures var lines := Split(RenameAttributes(markup), {'\n'});
            var out := Split(ConvertHtmlToJsx(markup), {'\n'});
            && |out| <= 6
            && (|lines| <= 5 ==> out == lines)
            && (|lines| > 5 ==> out == lines[..5] + [OmittedMarker])
  {
    var lines := Split(RenameAttributes(markup), {'\n'});
    var kept := CapLines(lines);
    assert forall k :: 0 <= k < |kept| ==> NoneIn(kept[k], {'\n'}) by {
      if |lines| > 5 {
        forall k | 0 <= k < |kept| ensures NoneIn(kept[k], {'\n'}) {
          if k < 5 {
            assert kept[k] == lines[k];
          } else {
            assert kept[k] == OmittedMarker;
          }
        }
      }
    }
    JoinThenSplit(kept, '\n');
  }

  /** Neither `class=` nor `for=` is left in the renamed markup. */
  lemma RenamedMarkupClean(markup: string)
    ensures !Contains(RenameAttributes(markup), "class=")
    ensures !Contains(RenameAttributes(markup), "for=")
  {
    var once := ReplaceAll(markup, "class=", "className=");
    assert "className="[..6][5] == 'N' && "className="[1..] == "lassName=";
    assert "htmlFor="[..4][0] == 'h' && "htmlFor="[1..] == "tmlFor=";
    ReplaceAllRemoves(markup, "class=", "className=");
    ReplaceAllKeepsAbsent(once, "class=", "for=", "htmlFor=");
    ReplaceAllRemoves(once, "for=", "htmlFor=");
  }

  lemma MarkerClean(q: string)
    requires q == "class=" || q == "for="
    ensures !Contains(OmittedMarker, q)
  {
    forall k: nat | k <= |OmittedMarker| ensures !OccursAt(OmittedMarker, q, k) {
      if k + |q| <= |OmittedMarker| {
        assert OmittedMarker[k..k + |q|][1] == OmittedMarker[k + 1];
      }
    }
  }

  /** No `class=` or `for=` substring remains in the converted markup. */
  lemma ConvertedClean(markup: string, q: string)
    requires q == "class=" || q == "for="
    ensures !Contains(ConvertHtmlToJsx(markup), q)
  {
    var html := RenameAttributes(markup);
    var lines := Split(html, {'\n'});
    RenamedMarkupClean(markup);
    SplitThenJoin(html, '\n');
    if |lines| <= 5 {
      assert ConvertHtmlToJsx(markup) == html;
    } else {
      JoinPrefix(lines, 5, "\n");
      var head := Join(lines[..5], "\n");
      NoOccPrefix(html, q, head);
      MarkerClean(q);
      JoinSnoc(lines[..5], OmittedMarker, "\n");
      NoOccAcross(head, '\n', OmittedMarker, q);
      assert ConvertHtmlToJsx(markup) == head + ['\n'] + OmittedMarker;
    }
  }

  const HtmlHead: string := "import React, { useEffect, useRef } from 'react';\n\n// 원본 HTML에서 변환됨:\n/*\n"
  const HtmlComponentBody: string :=
    "() {\n  const containerRef = useRef(null);\n  \n  useEffect(() => {\n    // jQuery 초기화 로직을 여기에 추가할 수 있습니다.\n    if (containerRef.current) {\n      // ...\n    }\n    \n    return () => {\n      // 정리 로직\n    };\n  }, []);\n  \n  return (\n    <div ref={containerRef}>\n      "
  const HtmlContentNote: string := "Content 컴포넌트를 여기에 포함할 수 있습니다 */}\n    </div>\n  );\n}\n\nexport default "

  /** The module built for an HTML document. */
  function HtmlModule(content: string, name: string, components: string, jsx: string): string {
    HtmlHead + Excerpt(content) + "\n*/\n\n" + components + "\n\nfunction " + name + HtmlComponentBody
      + jsx + "\n      {/* " + name + HtmlContentNote + name + ";\n"
  }

  /** The comment when the HTML path throws. */
  function HtmlErrorComment(error: string): string {
    "// HTML 변환 중 오류 발생: " + error
  }

  /**
   * `transformHtmlFile`: the transpiler runs only on non-empty collected code, and its
   * `function MyComponent` becomes `function <name>Content`; an error thrown by the parser or by
   * `transpile` gives the scaffold with the error.
   */
  function TransformHtmlFileResult(content: string, name: string, doc: Result<HtmlDocument, string>,
                                   wasm: WasmModule, backend: Backend): string
    reads wasm
  {
    match doc
    case Err(error) => CreateEmptyComponent(name, HtmlErrorComment(error))
    case Ok(d) =>
      var code := InlineJQueryCode(d.scripts);
      if code == "" then HtmlModule(content, name, "", ConvertHtmlToJsx(d.markupWithoutScripts))
      else
        match wasm.Transpile(code, backend)
        case Err(message) => CreateEmptyComponent(name, HtmlErrorComment(ErrorText(message)))
        case Ok(out) =>
          HtmlModule(content, name, RenameComponent(out, "function " + name + "Content"),
                     ConvertHtmlToJsx(d.markupWithoutScripts))
  }

  method TransformHtmlFile(content: string, name: string, doc: Result<HtmlDocument, string>,
                           wasm: WasmModule, backend: Backend) returns (out: string)
    ensures out == TransformHtmlFileResult(content, name, doc, wasm, backend)
  {
    if doc.Err? {
      return CreateEmptyComponent(name, HtmlErrorComment(doc.error));
    }
    var root := doc.value;
    var jQueryCode := CollectInlineScripts(root.scripts);
    var reactComponents := "";
    if jQueryCode != "" {
      var r := wasm.Transpile(jQueryCode, backend);
      if r.Err? {
        return CreateEmptyComponent(name, HtmlErrorComment(ErrorText(r.error)));
      }
      reactComponents := RenameComponent(r.value, "function " + name + "Content");
    }
    var jsxStructure := ConvertHtmlToJsx(root.markupWithoutScripts);
    out := HtmlModule(content, name, reactComponents, jsxStructure);
  }

  /** Without a collected script the transpiler is never asked. */
  lemma HtmlWithoutScriptsSkipsTranspiler(content: string, name: string, d: HtmlDocument,
                                          wasm: WasmModule, b1: Backend, b2: Backend)
    requires forall k :: 0 <= k < |d.scripts| ==> !Collected(d.scripts[k])
    ensures TransformHtmlFileResult(content, name, Ok(d), wasm, b1) ==
              HtmlModule(content, name, "", ConvertHtmlToJsx(d.markupWithoutScripts))
    ensures TransformHtmlFileResult(content, name, Ok(d), wasm, b1) ==
              TransformHtmlFileResult(content, name, Ok(d), wasm, b2)
  {
    InlineCodeEmpty(d.scripts);
    var code := InlineJQueryCode(d.scripts);
    assert code == "";
  }

  // ---------------------------------------------------------------------------
  // the entry point

  datatype TransformOptions = TransformOptions(
    filePath: string,
    prettier: Option<bool>,
    componentName: Option<string>,
    useHooks: Option<bool>)

  const DefaultComponentName: string := "JQueryComponent"

  function ComponentName(options: TransformOptions): string {
    options.componentName.GetOr(DefaultComponentName)
  }

  /** Formatting runs unless `prettier` is `false`; when the formatter throws the code is kept. */
  function Formatted(code: string, options: TransformOptions, format: string -> Option<string>): (r: string)
    ensures options.prettier == Some(false) ==> r == code
    ensures format(code).None? ==> r == code
    ensures options.prettier != Some(false) && format(code).Some? ==> r == format(code).value
  {
    if options.prettier.GetOr(true) then format(code).GetOr(code) else code
  }

  /** The module-level `wasmInitialized` flag, over the interface module it guards. */
  class Transformer {
    var wasmInitialized: bool
    const wasm: WasmModule

    /** The flag is only set after the interface module has been initialised. */
    ghost predicate Valid()
      reads this, wasm
    {
      wasmInitialized ==> wasm.initialized
    }

    constructor (w: WasmModule)
      ensures !wasmInitialized && wasm == w
      ensures Valid()
    {
      wasmInitialized := false;
      wasm := w;
    }

    /**
     * `transformJQueryToReact`. A failed initialisation rejects with its error and leaves both
     * flags down. Otherwise the content goes down the HTML or the JavaScript path according to
     * its extension and the result is formatted.
     */
    method TransformJQueryToReact(content: string, options: TransformOptions, init: Completion,
                                  doc: Result<HtmlDocument, string>, backend: Backend,
                                  format: string -> Option<string>) returns (r: Result<string, string>)
      requires Valid()
      modifies this, wasm
      ensures Valid()
      ensures r.Err? <==> !old(wasmInitialized) && !old(wasm.initialized) && init.Threw?
      ensures r.Err? ==> r.error == init.error && !wasmInitialized && !wasm.initialized
      ensures r.Ok? ==> wasmInitialized && wasm.initialized
      ensures old(wasmInitialized) ==> wasm.initCalls == old(wasm.initCalls)
      ensures wasm.initCalls <= old(wasm.initCalls) + 1
      ensures r.Ok? && IsHtmlPath(options.filePath) ==>
                r.value == Formatted(TransformHtmlFileResult(content, ComponentName(options), doc, wasm, backend), options, format)
      ensures r.Ok? && !IsHtmlPath(options.filePath) ==>
                r.value == Formatted(TransformJsFile(content, ComponentName(options), wasm, backend), options, format)
    {
      if !wasmInitialized {
        var c := wasm.InitWasm(init);
        if c.Threw? {
          return Err(c.error);
        }
        wasmInitialized := true;
      }
      var name := ComponentName(options);
      var transformedCode := "";
      var ext := Extension(options.filePath);
      if ext == "html" || ext == "htm" {
        transformedCode := TransformHtmlFile(content, name, doc, wasm, backend);
      } else {
        transformedCode := TransformJsFile(content, name, wasm, backend);
      }
      if options.prettier.GetOr(true) {
        match format(transformedCode)
        case Some(formatted) => transformedCode := formatted;
        case None =>
      }
      r := Ok(transformedCode);
    }
  }
}
