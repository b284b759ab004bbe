# jQueReact in Dafny

A model of the core of jQueReact, a tool that turns jQuery code into React components, with
proofs of what the code promises.

- **Rust side** (compiled to WebAssembly).
  - `transpile` parses a script.
  - `JqueryCollector` walks its top-level statements and folds each chain such as
    `$("div.box").css("color", "red").text("Hi").on("click", f)` into a `JqDomNode` record.
  - The generator renders the first node as one JSX element inside a `MyComponent` function.
- **TypeScript side.**
  - `transformJQueryToReact` initialises the WebAssembly module once. It sends HTML files and
    script files down two paths:
    - the signature check (`$(` or the word `jQuery`);
    - the fallback scaffold;
    - the renaming of `MyComponent`;
    - the 300-character source excerpt;
    - the HTML-to-JSX attribute rename with its five-line cap.
  - Beside it are:
    - the pattern stubs;
    - the init-once flag in front of the WebAssembly module;
    - the Vite plugin's naming, output path and include/exclude decision;
    - the command-line tool's naming and success tally.

## Modules

| file | module | models |
|---|---|---|
| `wrappers.dfy` | `Wrappers` | `Option` and `Result` |
| `strings.dfy` | `Strings` | JavaScript string operations used by the code: `includes`, `startsWith`, `split`, `join`, `replace` of the first or of every occurrence, ASCII case mapping |
| `regex.dfy` | `Regex` | the fragment of JavaScript regular expressions the code uses, with `test` |
| `dom_node.dfy` | `DomNode` | `JqDomNode` and `new`; the `rust/` and `core/` copies are the same struct |
| `js_ast.dfy` | `JsAst` | the part of the swc syntax tree the collector looks at |
| `transform.dfy` | `Transform` | the handlers, `parse_chain_expr`, `get_selector_from_args`, the `JqueryCollector` class |
| `generator.dfy` | `Generator` | `parse_selector`, `node_to_jsx` (as methods with loops), `generate_react_code` |
| `lib.dfy` | `Lib` | `transpile` |
| `wasm_interface.dfy` | `WasmInterface` | the `initialized` flag, `initWasm`, `transpile` |
| `transformer.dfy` | `Transformer` | `transformJQueryToReact`, `transformJsFile`, `transformHtmlFile`, `convertHtmlToJsx`, `createEmptyComponent` |
| `patterns.dfy` | `Patterns` | `jQueryPatterns`: `delegatedEvents`, `ajaxCall`, `jqueryPlugin` |
| `vite_plugin.dfy` | `VitePlugin` | `toComponentName`, `getOutputPath`, the include/exclude decision, the `transform` hook |
| `cli.dfy` | `Cli` | the command's `toComponentName` and its `transform` action |

Each specification function has a partner.

- The chain walk is compared with a source-order list of the chain's steps.
- `toComponentName` is compared with a character-by-character reference definition.
- The loops (`collect_from_module`, `visit_expr`, `node_to_jsx`, the inline-script collection,
  the command's tally) are methods. Each is proved equal to the function it computes, and lemmas
  about those functions state the promised properties.

Calls into code outside the core are parameters:

- the parser's outcome;
- the debug rendering of a callback;
- what `init()` and the exported transpiler do;
- Prettier;
- the parsed HTML document;
- glob matching and the file system.

## Model

| member | source | states |
|---|---|---|
| DomNode.New | rust/src/dom_node.rs:13-23 | `new(s)` keeps `s` as the selector and leaves every list empty and the text unset |
| DomNode.BlankIsNew | core/src/dom_node.rs:1-23 | a node with empty lists and no text is exactly `new` of its selector, so the one datatype serves both copies of the struct |
| Transform.GetSelectorFromArgs | rust/src/transform.rs:135-142 | the first argument's value when it is a string literal; `unknown_selector` when there is no argument or it is not a literal |
| Transform.HandleCss | rust/src/transform.rs:145-153 | appends `(k, v)` to `styles` exactly when there are two arguments, both string literals; otherwise the node is unchanged; no other field ever changes |
| Transform.HandleText | rust/src/transform.rs:155-161 | sets the text to a literal first argument, otherwise leaves the node unchanged; touches nothing else |
| Transform.HandleAppend | rust/src/transform.rs:163-169 | appends a literal first argument to the children, otherwise no change; nothing else changes |
| Transform.HandleAddClass | rust/src/transform.rs:171-177 | appends a literal first argument to the class list, otherwise no change; nothing else changes |
| Transform.HandleAttr | rust/src/transform.rs:179-187 | appends `(k, v)` to `attributes` exactly for two literal arguments; otherwise no change |
| Transform.HandleOn | rust/src/transform.rs:189-200 | with at least two arguments and a literal first one, appends the event name with the rendering of the second argument; otherwise no change |
| Transform.ApplyMethod | rust/src/transform.rs:113-121 | a method other than css, text, append, addClass, attr and on leaves the node unchanged; no handler changes the selector |
| Transform.ChainOrder | rust/src/transform.rs:99-132 | the outermost-first walk yields each list as the node's own list followed by the chain's entries in reverse source order, and the earliest literal `.text` wins over the node's text |
| Transform.FreshWalk | rust/src/transform.rs:99-132 | on a fresh node: styles, attributes, classes, children and events are the reverse of their source order, and the text is that of the innermost `.text` call |
| Transform.GreetingChain | rust/src/transform.rs:99-161 | `$("#greeting").css(color).css(font-size).text("Hi").text("Bye")` gives styles font-size then color, and text `Hi` |
| Transform.OnlyExpressionStatements | rust/src/transform.rs:17-39 | the collected nodes are those of the top-level expression statements, in order; declarations and other statements add nothing |
| Transform.DollarCallRecorded | rust/src/transform.rs:54-63 | a call whose callee is the identifier `$` is always recorded, as a fresh node with the argument's selector |
| Transform.QualifiesInChainTerms | rust/src/transform.rs:75-77 | the recording test holds iff the chain sets the selector, a style, the text or an event; attributes, classes and children alone do not count |
| Transform.MemberChainRecorded | rust/src/transform.rs:67-90 | a method-call chain that qualifies is recorded as one node and its arguments are not visited; otherwise only the nodes inside its arguments are collected |
| Transform.ReadyHandlerNotRecorded | rust/src/transform.rs:67-93 | `$(document).ready(function ...)` records no node: non-literal selector, nothing set, and a function argument is not descended into |
| Transform.ArgsNodesAppend | rust/src/transform.rs:88-90 | visiting arguments in sequence collects the nodes of each in order |
| Transform.JqueryCollector.CollectFromModule | rust/src/transform.rs:17-28 | the loop appends exactly the nodes of the module's items, in order, to what was there |
| Transform.JqueryCollector.VisitStmt | rust/src/transform.rs:30-39 | only an expression statement adds nodes |
| Transform.JqueryCollector.VisitExprStmt | rust/src/transform.rs:41-44 | adds the nodes of the statement's expression |
| Transform.JqueryCollector.VisitExpr | rust/src/transform.rs:47-94 | appends the nodes of the expression, recursing through call arguments |
| Transform.JqueryCollector.constructor | rust/src/lib.rs:39 | a collector starts with no nodes |
| Generator.ParseSelector | rust/src/generator.rs:67-76 | splits at the first `.`: the tag has no dot, and tag, dot and the one class give back the selector; without a dot, the selector and no class |
| Generator.MergedProperties | rust/src/generator.rs:14-20 | the merged list starts with the selector's classes, holds exactly the classes of both, and is duplicate-free when the start is |
| Generator.MergedOrder | rust/src/generator.rs:14-20 | the classes appended after the selector's are node classes the selector lacks, in the order of their first occurrence in the node's list |
| Generator.SelectorClassFirst | rust/src/generator.rs:14-20 | with a dotted selector, the merged list starts with the selector's class and has no duplicates |
| Generator.MergeClasses | rust/src/generator.rs:14-20 | the loop computes the merged class list |
| Generator.ClassAttr | rust/src/generator.rs:51-55 | `className` is emitted iff the merged list is non-empty |
| Generator.StylePairs | rust/src/generator.rs:23-25 | one `k: "v"` text per style, in order |
| Generator.StyleAttr | rust/src/generator.rs:22-29 | a `style` attribute is emitted iff there are styles |
| Generator.StylePart | rust/src/generator.rs:22-29 | computes the style attribute |
| Generator.ConcatAppend | rust/src/generator.rs:37-39 | appending the children one after another concatenates them |
| Generator.InnerContent | rust/src/generator.rs:31-39 | the loop builds the text (when set) followed by every child in order |
| Generator.ReactEventName | rust/src/generator.rs:44-47 | every event name maps to `onClick` |
| Generator.OneHandlerPerEvent | rust/src/generator.rs:43-49 | one event gives exactly one `onClick` handler holding its callback |
| Generator.EventNamesIgnored | rust/src/generator.rs:43-49 | two event lists with the same callbacks render the same, whatever the names |
| Generator.EventAttrsAppend | rust/src/generator.rs:43-49 | handlers for a list are the handlers of its parts, in order |
| Generator.EventPart | rust/src/generator.rs:42-49 | the loop builds one handler per event, in order |
| Generator.JsxShape | rust/src/generator.rs:57-64 | the element opens with `<tag` and closes with the inner content and `</tag>` for the same tag |
| Generator.BareElement | rust/src/generator.rs:13-65 | a fresh node with a plain selector renders as `<sel></sel>` |
| Generator.JsxIgnoresAttributes | rust/src/generator.rs:13-65 | the node's attributes never affect the output |
| Generator.NodeToJsx | rust/src/generator.rs:13-65 | the method builds the element |
| Generator.ReactCodeShape | rust/src/generator.rs:3-11 | the output starts with `function MyComponent() {` and ends with the element's content, closing tag and the function's close |
| Generator.GenerateReactCode | rust/src/generator.rs:3-11 | computes the component text |
| Lib.Transpile | rust/src/lib.rs:27-52 | a fresh collector is filled from the parsed module; parse error, no node, or the first node's component |
| Lib.ParseFailure | rust/src/lib.rs:29-34 | a parse failure yields `// parse error: ` followed by the error text |
| Lib.ParsedOutcomes | rust/src/lib.rs:42-51 | no node gives exactly the no-usage text; otherwise the first node's component, starting with `function MyComponent() {` |
| Lib.OnlyFirstNodeMatters | rust/src/lib.rs:47-51 | modules whose first nodes agree give the same output, whatever the later nodes |
| Lib.SentinelsDistinct | rust/src/lib.rs:27-52 | the parse-error and no-usage outcomes never look like a component, and the reverse |
| WasmInterface.WasmModule.constructor | src/wasm-interface.ts:4 | the flag starts down |
| WasmInterface.WasmModule.InitWasm | src/wasm-interface.ts:6-17 | already initialised: returns without calling `init`; otherwise calls it once, raises the flag iff it succeeds, and passes its error on |
| WasmInterface.WasmModule.Transpile | src/wasm-interface.ts:19-30 | throws iff not initialised; otherwise the backend's result, or the conversion-error comment with its message |
| WasmInterface.RetryAfterFailure | src/wasm-interface.ts:6-17 | after a failed `init` a later call tries again; once it succeeds, later calls do not call `init` |
| Transformer.ExtensionAfterLastDot | src/transformer.tsx:29 | the extension is the lower-cased text after the last `.` |
| Transformer.ExtensionWithoutDot | src/transformer.tsx:29 | a path without a dot is its own (lower-cased) extension |
| Transformer.UpperCaseHtmlExtension | src/transformer.tsx:29-31 | `page.HTML` takes the HTML path |
| Transformer.InnerHtmlSegmentIgnored | src/transformer.tsx:29-31 | `app.html.js` takes the script path |
| Transformer.JQueryWordAt | src/transformer.tsx:60 | `\bjQuery\b` matches at an index iff `jQuery` is there with no word character on either side |
| Transformer.SignatureMeaning | src/transformer.tsx:60 | the signature test holds iff the text contains `$(` or the whole word `jQuery` |
| Transformer.SignatureExamples | src/transformer.tsx:60 | `jQueryUI` is not the word `jQuery`, `jQuery(` is |
| Transformer.Excerpt | src/transformer.tsx:96 | content of at most 300 characters is kept whole; longer content is cut to its first 300 characters followed by `...` |
| Transformer.ScaffoldContents | src/transformer.tsx:208-223 | the scaffold contains the comment, `function <name>()`, and ends with `export default <name>;` |
| Transformer.ScaffoldHasSignature | src/transformer.tsx:216 | the scaffold itself contains the word `jQuery` |
| Transformer.JsSuccess | src/transformer.tsx:92-102 | the success text ends with `export default <name>;` |
| Transformer.NoSignatureSkipsTranspiler | src/transformer.tsx:60-71 | without the signature: the scaffold carrying the full content, whatever the transpiler would do |
| Transformer.FailureGivesScaffold | src/transformer.tsx:77-86 | a parse-error or no-usage result gives the failure scaffold |
| Transformer.SuccessShape | src/transformer.tsx:89-102 | only the first `function MyComponent` is renamed, and the output ends with the default export |
| Transformer.SuccessWithoutComponent | src/transformer.tsx:89-102 | with no `function MyComponent` in the result, the code is kept as it is |
| Transformer.InlineCodeEmpty | src/transformer.tsx:126-138 | the collected code is empty, so the transpiler is skipped, iff no script is inline, non-empty and has the signature |
| Transformer.CollectInlineScripts | src/transformer.tsx:126-134 | the loop appends, in document order, each inline script with the signature followed by a newline |
| Transformer.ConvertedLines | src/transformer.tsx:198-204 | at most five lines of the renamed markup are kept, plus the marker line exactly when there were more than five |
| Transformer.RenamedMarkupClean | src/transformer.tsx:195-196 | after the rename no `class=` and no `for=` remains |
| Transformer.MarkerClean | src/transformer.tsx:201 | the marker line holds neither `class=` nor `for=` |
| Transformer.ConvertedClean | src/transformer.tsx:195-204 | the converted markup holds neither `class=` nor `for=` |
| Transformer.TransformHtmlFile | src/transformer.tsx:117-187 | computes the HTML module, or the error scaffold when the document cannot be parsed |
| Transformer.HtmlWithoutScriptsSkipsTranspiler | src/transformer.tsx:136-145 | with no collected script the module has no components part, whatever the transpiler would do |
| Transformer.Formatted | src/transformer.tsx:37-51 | with `prettier: false`, or when formatting fails, the code is unchanged; otherwise the formatted text |
| Transformer.Transformer.constructor | src/transformer.tsx:13 | the flag starts down |
| Transformer.Transformer.TransformJQueryToReact | src/transformer.tsx:15-54 | fails iff the first initialisation fails; on success both flags are up, and the result is the formatted HTML or script path; once initialised, the module's `init` is not called again, and one call makes at most one `init` call |
| Patterns.DelegatedDetectNeeds | src/patterns/index.ts:4 | a detected delegated handler has `$(`, then `).on(` at least two characters later, then `, function` after it, in that order |
| Patterns.DelegatedPlaceholder | src/patterns/index.ts:5-8 | the delegated-event transform is a constant placeholder |
| Patterns.AjaxDetectMeaning | src/patterns/index.ts:13 | the ajax detector fires iff the code contains `$.ajax(` |
| Patterns.AjaxTransform | src/patterns/index.ts:14-17 | the axios placeholder iff `ajaxHandler` is `axios`, the fetch one otherwise |
| Patterns.PluginDetectEmptyList | src/patterns/index.ts:22-24 | an empty plugin list detects nothing |
| Patterns.PluginDetectNeverFires | src/patterns/index.ts:23 | as written, the plugin detector is false for every code and every list |
| Patterns.PluginCallMissed | src/patterns/index.ts:23 | `$("#carousel").slick()` is not detected for `slick` |
| Patterns.IntendedPluginSound | src/patterns/index.ts:23 | where the corrected pattern matches, `$(` is followed on the same line by `).` and the plugin name |
| Patterns.IntendedPluginComplete | src/patterns/index.ts:23 | such a call is matched by the corrected pattern from its `$(` |
| Patterns.IntendedPluginMeaning | src/patterns/index.ts:23 | the corrected pattern matches iff `$(` is followed on the same line by `).` and the plugin name |
| Patterns.IntendedPluginFindsCall | src/patterns/index.ts:22-24 | the corrected detector finds `$("#carousel").slick()` for `slick` |
| Patterns.PluginPlaceholder | src/patterns/index.ts:25-28 | the plugin transform is a constant placeholder |
| VitePlugin.CamelCase | plugins/vite-plugin.ts:116-121 | the reference definition drops separators and is never longer than its input |
| VitePlugin.TwoWordName | plugins/vite-plugin.ts:116-121 | two words around one separator give both words capitalised and joined, the separator dropped |
| VitePlugin.ComponentNameIsCamelCase | plugins/vite-plugin.ts:116-121 | split/capitalise/join equals dropping separators and upper-casing the first character and each character after a separator |
| VitePlugin.ComponentNameHasNoSeparators | plugins/vite-plugin.ts:116-121 | the name holds none of `-`, `_` and `.` |
| VitePlugin.ComponentNameLength | plugins/vite-plugin.ts:116-121 | the name's length is the input's minus its separators |
| VitePlugin.EmptyPartsVanish | plugins/vite-plugin.ts:117-120 | leading, trailing and doubled separators contribute nothing |
| VitePlugin.ComponentNameIdempotent | plugins/vite-plugin.ts:116-121 | converting a converted name changes nothing |
| VitePlugin.OutputNameStripsFirstJquery | plugins/vite-plugin.ts:106 | only the first `.jquery` of the base name is removed |
| VitePlugin.OutputNameWithoutJquery | plugins/vite-plugin.ts:106-110 | a base name without `.jquery` is converted as it is |
| VitePlugin.CustomNameOverrides | plugins/vite-plugin.ts:108-110 | for every base name, including `*.jquery.*` ones, a custom naming function gives the name from the file path alone |
| VitePlugin.OutputPathEnd | plugins/vite-plugin.ts:112 | the path ends in `/<name>.tsx`, and without a custom function the name has no `.` |
| VitePlugin.AnyMatchMeaning | plugins/vite-plugin.ts:40 | `some` holds iff some pattern matches |
| VitePlugin.ShouldProcessMeaning | plugins/vite-plugin.ts:71-73 | a module is processed iff it matches some include pattern and no exclude pattern |
| VitePlugin.DefaultsSkip | plugins/vite-plugin.ts:17-23 | with the defaults, `node_modules` and `dist` matches, and anything outside the two include patterns, are not processed |
| VitePlugin.TransformHook | plugins/vite-plugin.ts:69-94 | always returns null; writes exactly when the module is processed, the conversion succeeds and the output directory is made, to the output path, with the text converted under the `prettier` setting and with the output path's base name without extension as the component name |
| VitePlugin.HookWritesComponentFile | plugins/vite-plugin.ts:77-85 | a written component goes to a path ending in `/<name>.tsx` for the name chosen by `getOutputPath`; without a custom function that name holds no `.` |
| Cli.StripJquerySuffix | bin/cli.ts:68 | `.jquery` is removed only as a suffix; otherwise the name is unchanged |
| Cli.ComponentNameHasNoSeparators | bin/cli.ts:66-72 | the command's names hold no separators |
| Cli.MiddleJqueryKept | bin/cli.ts:66-72 | the command strips `.jquery` only at the end: `a.jquery.b` becomes `AJqueryB` |
| Cli.MiddleJqueryDroppedByPlugin | plugins/vite-plugin.ts:106 | the plugin drops the first `.jquery` wherever it is: `a.jquery.b` becomes `AB` |
| Cli.FinalJqueryStripped | bin/cli.ts:66-72 | for every stem, `<stem>.jquery` gets the same component name as the stem |
| Cli.OtherNamesKept | bin/cli.ts:66-72 | a name not ending in `.jquery` goes to the split-and-capitalise step unchanged |
| Cli.FinalJqueryExample | bin/cli.ts:66-72 | `my-widget.jquery` becomes `MyWidget` |
| Cli.Converted | bin/cli.ts:34-54 | the files counted are files of the list that succeeded, no more than there are files |
| Cli.RunTransform | bin/cli.ts:17-61 | the loop counts exactly the files whose read, conversion and write all succeed; glob or mkdir errors exit; no files returns early |
| Cli.KeptAll | bin/cli.ts:33-56 | every file is counted exactly when every file passes the per-file test |
| Cli.KeptNone | bin/cli.ts:33-56 | no file is counted exactly when no file passes the per-file test |
| Cli.TallyBounds | bin/cli.ts:33-56 | the tally is at most the file count, equal to it iff every file succeeds, zero iff none does |
| Cli.NoFilesReturnsEarly | bin/cli.ts:22-25 | an empty glob result converts nothing |
| Cli.OutputFileName | bin/cli.ts:46 | each file is written to `<output>/<Name>.tsx` |

## Left out

- I/O and console output: reading and writing files, `mkdir`, `console.log`/`error`/`warn`, and `process.exit` are inputs or outcomes, not effects.
- VitePlugin.TransformHook: a `writeFile` that throws is not told apart from one that succeeds; `written` is the write the hook issues once `mkdir` has succeeded.
- Promises: every `await` is modelled as a sequential call. Concurrent callers sharing one initialisation are not modelled; the code does not share one either.
- The swc parser (`parse_js`, `core/src/parser.rs`): its outcome is an input.
- The `{:?}` debug rendering of a callback: it is the `render` parameter.
- Prettier: its outcome is the `format` parameter; only "unchanged on failure" is stated.
- node-html-parser: the parsed document is an input. It gives the scripts with their `src` and text, and the markup after the script-removing regex. `root.toString()` and that regex are part of this input.
- minimatch, glob, `path.basename` (with `path.extname`: the hook's `stem` parameter), `path.dirname`, `path.relative`, `process.cwd()` and commander: they are parameters. `path.join` is joining with `/`, without normalisation of `.`, `..` or repeated slashes.
- Unicode case mapping: `toUpperCase`/`toLowerCase` are modelled for ASCII letters only.
- Lengths and slices count UTF-16 code units in JavaScript; the model counts characters.
- Replacement strings are taken literally; `$` patterns in them are not interpreted.
- Regular-expression metacharacters in plugin names are taken literally.
- The Vite plugin's `buildStart` and `handleHotUpdate` hooks: directory creation, file reading and module invalidation only.
- `src/config.ts` is not part of this model. It names the ajax option `handleAjax`, while the pattern reads `ajaxHandler`; the model follows the pattern's key.
- The fallback scaffold contains the word `jQuery` (`Transformer.ScaffoldHasSignature`). So transforming the scaffold's output again takes the signature path and calls the transpiler.
- `src/App.tsx`, `pkg/index.ts`, `server.js`, `vite.config.ts` and `src/index.ts` are not part of this model: UI, demo and wiring only.

## Findings

| source | as written | input that shows it | evidently intended | confidence | as-written member | corrected member |
|---|---|---|---|---|---|---|
| src/patterns/index.ts:23 | ``new RegExp(`\$\\(.*\\)\\.${plugin}`)``: in a template literal `\$` is just `$`, so the expression starts with the end-of-input anchor followed by `(`, which can never match | `$("#carousel").slick()` with the plugin list `["slick"]`: not detected | a literal `$(`, anything on the line, `).` and the plugin name | not executed | Patterns.PluginCallMissed | Patterns.IntendedPluginFindsCall |
