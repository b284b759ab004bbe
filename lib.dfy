/**
 * `transpile` of `rust/src/lib.rs`: parse, collect the chains, render the first node.
 *
 * The parser is outside the model: its outcome is an input, a parsed module or the debug text of
 * the parse error. Logging to the console is left out.
 */
module Lib {
  import opened Strings
  import opened DomNode
  import opened JsAst
  import opened Transform
  import opened Generator

  datatype ParseResult = Parsed(ast: Module) | ParseError(debugText: string)

  const ParseErrorPrefix: string := "// parse error: "
  const NoUsage: string := "// No usage found\nfunction MyComponent(){}"

  /** What `transpile` returns for a given parse outcome. */
  function TranspileResult(parsed: ParseResult, render: Render): string {
    match parsed
    case ParseError(msg) => ParseErrorPrefix + msg
    case Parsed(m) =>
      var nodes := ItemsNodes(m.body, render);
      if nodes == [] then NoUsage else ReactCode(nodes[0])
  }

  /** `transpile`: a fresh collector is filled from the module and its first node rendered. */
  method Transpile(parsed: ParseResult, render: Render) returns (out: string)
    ensures out == TranspileResult(parsed, render)
  {
    if parsed.ParseError? {
      return ParseErrorPrefix + parsed.debugText;
    }
    var collector := new JqueryCollector();
    collector.CollectFromModule(parsed.ast, render);
    if collector.nodes == [] {
      return NoUsage;
    }
    var node := collector.nodes[0];
    out := GenerateReactCode(node);
  }

  /** A parse failure yields the parse-error sentinel followed by the error's text. */
  lemma ParseFailure(msg: string, render: Render)
    ensures StartsWith(TranspileResult(ParseError(msg), render), "// parse error: ")
    ensures TranspileResult(ParseError(msg), render)[|ParseErrorPrefix|..] == msg
  {
    var r := ParseErrorPrefix + msg;
    assert r[..|ParseErrorPrefix|] == ParseErrorPrefix;
  }

  /**
   * A module with no recorded chain yields the no-usage sentinel; otherwise the output is the
   * component of the first node, and it begins with `function MyComponent() {`.
   */
  lemma ParsedOutcomes(m: Module, render: Render)
    ensures ItemsNodes(m.body, render) == [] ==> TranspileResult(Parsed(m), render) == NoUsage
    ensures ItemsNodes(m.body, render) != [] ==>
              && TranspileResult(Parsed(m), render) == ReactCode(ItemsNodes(m.body, render)[0])
              && StartsWith(TranspileResult(Parsed(m), render), "function MyComponent() {")
  {
    if ItemsNodes(m.body, render) != [] {
      ReactCodeShape(ItemsNodes(m.body, render)[0]);
    }
  }

  /** Nodes after the first never affect the output. */
  lemma OnlyFirstNodeMatters(m1: Module, m2: Module, render: Render)
    requires ItemsNodes(m1.body, render) != [] && ItemsNodes(m2.body, render) != []
    requires ItemsNodes(m1.body, render)[0] == ItemsNodes(m2.body, render)[0]
    ensures TranspileResult(Parsed(m1), render) == TranspileResult(Parsed(m2), render)
  {
  }

  /** The sentinels are told apart from a rendered component by their first characters. */
  lemma SentinelsDistinct(node: JqDomNode, msg: string)
    ensures ReactCode(node) != NoUsage
    ensures !StartsWith(ReactCode(node), "// parse error")
    ensures !StartsWith(ParseErrorPrefix + msg, "function MyComponent() {")
  {
    var r := ReactCode(node);
    ReactCodeShape(node);
    assert r[..|"function MyComponent() {"|] == "function MyComponent() {";
    assert r[0] == r[..|"function MyComponent() {"|][0] == 'f';
    assert NoUsage[0] == '/';
    var e := ParseErrorPrefix + msg;
    assert e[0] == '/';
  }
}
