/**
 * The jQuery chain collector of `rust/src/transform.rs`.
 *
 * `parse_chain_expr` walks a chain such as `$("div").css("color", "red").text("Hi")` from the
 * outermost call inwards, letting each recognised method update the node through
 * `&mut JqDomNode`; the node is a plain value, so each update is modelled as a function from the
 * old node to the new one. `JqueryCollector` owns the list of collected nodes and appends to it
 * while it scans a module; it is a class whose methods extend `nodes`.
 *
 * The source-order view of a chain (`ChainSteps`, `ChainRoot`) is the independent description
 * against which the outermost-first walk is proved: lists come out reversed and the innermost
 * `.text(...)` wins.
 */
module Transform {
  import opened Wrappers
  import opened DomNode
  import opened JsAst

  const UnknownSelector: string := "unknown_selector"

  /** The `{:?}` rendering of a callback expression, which the model does not interpret. */
  type Render = Expr -> string

  /** `get_selector_from_args`: the first argument when it is a string literal. */
  function GetSelectorFromArgs(args: seq<Expr>): (sel: string)
    ensures |args| > 0 && args[0].StrLit? ==> sel == args[0].value
    ensures |args| == 0 || !args[0].StrLit? ==> sel == UnknownSelector
  {
    if |args| > 0 && args[0].StrLit? then args[0].value else UnknownSelector
  }

  // ---------------------------------------------------------------------------
  // what one call contributes

  /** The `(key, value)` pair of a call with exactly two string-literal arguments, if it is one. */
  function LiteralPair(args: seq<Expr>): seq<(string, string)> {
    if |args| == 2 && args[0].StrLit? && args[1].StrLit? then [(args[0].value, args[1].value)] else []
  }

  /** The value of a string-literal first argument, if there is one. */
  function FirstLiteral(args: seq<Expr>): seq<string> {
    if |args| >= 1 && args[0].StrLit? then [args[0].value] else []
  }

  /** The `(event, rendered callback)` pair of an `.on(...)` call, if it has one. */
  function EventOf(args: seq<Expr>, render: Render): seq<(string, string)> {
    if |args| >= 2 && args[0].StrLit? then [(args[0].value, render(args[1]))] else []
  }

  // ---------------------------------------------------------------------------
  // the handlers

  /** `handle_css`: only `styles` changes, and only for two string-literal arguments. */
  function HandleCss(args: seq<Expr>, node: JqDomNode): (r: JqDomNode)
    ensures r.(styles := node.styles) == node
    ensures |args| == 2 && args[0].StrLit? && args[1].StrLit? ==>
              r.styles == node.styles + [(args[0].value, args[1].value)]
    ensures !(|args| == 2 && args[0].StrLit? && args[1].StrLit?) ==> r == node
  {
    node.(styles := node.styles + LiteralPair(args))
  }

  /** `handle_attr`: only `attributes` changes, and only for two string-literal arguments. */
  function HandleAttr(args: seq<Expr>, node: JqDomNode): (r: JqDomNode)
    ensures r.(attributes := node.attributes) == node
    ensures |args| == 2 && args[0].StrLit? && args[1].StrLit? ==>
              r.attributes == node.attributes + [(args[0].value, args[1].value)]
    ensures !(|args| == 2 && args[0].StrLit? && args[1].StrLit?) ==> r == node
  {
    node.(attributes := node.attributes + LiteralPair(args))
  }

  /** `handle_text`: a string-literal first argument replaces the text; nothing else changes. */
  function HandleText(args: seq<Expr>, node: JqDomNode): (r: JqDomNode)
    ensures r.(textContent := node.textContent) == node
    ensures |args| >= 1 && args[0].StrLit? ==> r.textContent == Some(args[0].value)
    ensures !(|args| >= 1 && args[0].StrLit?) ==> r == node
  {
    if FirstLiteral(args) != [] then node.(textContent := Some(FirstLiteral(args)[0])) else node
  }

  /** `handle_append`: a string-literal first argument is appended to the raw children. */
  function HandleAppend(args: seq<Expr>, node: JqDomNode): (r: JqDomNode)
    ensures r.(childrenRawHtml := node.childrenRawHtml) == node
    ensures |args| >= 1 && args[0].StrLit? ==> r.childrenRawHtml == node.childrenRawHtml + [args[0].value]
    ensures !(|args| >= 1 && args[0].StrLit?) ==> r == node
  {
    node.(childrenRawHtml := node.childrenRawHtml + FirstLiteral(args))
  }

  /** `handle_add_class`: a string-literal first argument is appended to the class list. */
  function HandleAddClass(args: seq<Expr>, node: JqDomNode): (r: JqDomNode)
    ensures r.(classList := node.classList) == node
    ensures |args| >= 1 && args[0].StrLit? ==> r.classList == node.classList + [args[0].value]
    ensures !(|args| >= 1 && args[0].StrLit?) ==> r == node
  {
    node.(classList := node.classList + FirstLiteral(args))
  }

  /**
   * `handle_on`: with at least two arguments and a string-literal first one, the event name and
   * the rendering of the second argument are appended; the callback need not be a literal.
   */
  function HandleOn(args: seq<Expr>, node: JqDomNode, render: Render): (r: JqDomNode)
    ensures r.(events := node.events) == node
    ensures |args| >= 2 && args[0].StrLit? ==> r.events == node.events + [(args[0].value, render(args[1]))]
    ensures !(|args| >= 2 && args[0].StrLit?) ==> r == node
  {
    node.(events := node.events + EventOf(args, render))
  }

  /** The six recognised method names. */
  predicate IsHandled(name: string) {
    name in {"css", "text", "append", "addClass", "attr", "on"}
  }

  /** The `match method` of `parse_chain_expr`: any other method leaves the node as it is. */
  function ApplyMethod(name: string, args: seq<Expr>, node: JqDomNode, render: Render): (r: JqDomNode)
    ensures !IsHandled(name) ==> r == node
    ensures r.selector == node.selector
  {
    if name == "css" then HandleCss(args, node)
    else if name == "text" then HandleText(args, node)
    else if name == "append" then HandleAppend(args, node)
    else if name == "addClass" then HandleAddClass(args, node)
    else if name == "attr" then HandleAttr(args, node)
    else if name == "on" then HandleOn(args, node, render)
    else node
  }

  /**
   * `parse_chain_expr`: at a call on `.method`, apply the method and continue into the receiver;
   * at the root call `$(...)`, take the selector; stop at anything else.
   */
  function ParseChainExpr(e: Expr, node: JqDomNode, render: Render): JqDomNode
    decreases e
  {
    match e
    case Call(Ident(id), args) =>
      if id == "$" then node.(selector := GetSelectorFromArgs(args)) else node
    case Call(Member(obj, PropIdent(name)), args) =>
      ParseChainExpr(obj, ApplyMethod(name, args, node, render), render)
    case _ => node
  }

  // ---------------------------------------------------------------------------
  // the chain in source order

  datatype Step = Step(name: string, args: seq<Expr>)

  /** The method calls of a chain in source order, the one nearest `$(...)` first. */
  function ChainSteps(e: Expr): seq<Step> {
    match e
    case Call(Member(obj, PropIdent(name)), args) => ChainSteps(obj) + [Step(name, args)]
    case _ => []
  }

  /** The arguments of the `$(...)` call the chain starts from, if it starts from one. */
  function ChainRoot(e: Expr): Option<seq<Expr>> {
    match e
    case Call(Ident(id), args) => if id == "$" then Some(args) else None
    case Call(Member(obj, PropIdent(_)), _) => ChainRoot(obj)
    case _ => None
  }

  /** What one step contributes to the list of pairs of method `mname` (`css` or `attr`). */
  function PairsOf(st: Step, mname: string): seq<(string, string)> {
    if st.name == mname then LiteralPair(st.args) else []
  }

  /** What one step contributes to the list of strings of method `mname` (`addClass` or `append`). */
  function StringsOf(st: Step, mname: string): seq<string> {
    if st.name == mname then FirstLiteral(st.args) else []
  }

  /** What one step contributes to the events. */
  function EventsOf(st: Step, render: Render): seq<(string, string)> {
    if st.name == "on" then EventOf(st.args, render) else []
  }

  /** The literal text one step sets, if it sets one. */
  function TextOf(st: Step): Option<string> {
    if st.name == "text" && FirstLiteral(st.args) != [] then Some(st.args[0].value) else None
  }

  /** The literal pairs of the calls to `mname` (`css` or `attr`), in source order. */
  function PairsIn(steps: seq<Step>, mname: string): seq<(string, string)> {
    if steps == [] then []
    else
      var last := steps[|steps| - 1];
      PairsIn(steps[..|steps| - 1], mname) + PairsOf(last, mname)
  }

  /** The literal first arguments of the calls to `mname` (`addClass` or `append`), in source order. */
  function StringsIn(steps: seq<Step>, mname: string): seq<string> {
    if steps == [] then []
    else
      var last := steps[|steps| - 1];
      StringsIn(steps[..|steps| - 1], mname) + StringsOf(last, mname)
  }

  /** The events of the `.on(...)` calls, in source order. */
  function EventsIn(steps: seq<Step>, render: Render): seq<(string, string)> {
    if steps == [] then []
    else
      var last := steps[|steps| - 1];
      EventsIn(steps[..|steps| - 1], render) + EventsOf(last, render)
  }

  /** The literal text of the first `.text(...)` call in source order that has one. */
  function FirstText(steps: seq<Step>): Option<string> {
    if steps == [] then None
    else if TextOf(steps[0]).Some? then TextOf(steps[0])
    else FirstText(steps[1..])
  }

  function Reverse<T>(s: seq<T>): seq<T> {
    if s == [] then [] else [s[|s| - 1]] + Reverse(s[..|s| - 1])
  }

  lemma ReverseSnoc<T>(s: seq<T>, c: seq<T>)
    requires |c| <= 1
    ensures Reverse(s + c) == c + Reverse(s)
  {
    if c != [] {
      assert (s + c)[..|s|] == s;
    } else {
      assert s + c == s;
    }
  }

  lemma {:induction false} FirstTextSnoc(steps: seq<Step>, st: Step)
    ensures FirstText(steps + [st]) ==
              if FirstText(steps).Some? then FirstText(steps) else TextOf(st)
  {
    if steps != [] {
      assert (steps + [st])[1..] == steps[1..] + [st];
      FirstTextSnoc(steps[1..], st);
    } else {
      assert steps + [st] == [st];
    }
  }

  /** The node that walking `e` from `node` produces, described by the chain in source order. */
  ghost predicate WalkResult(e: Expr, node: JqDomNode, render: Render, r: JqDomNode) {
    var steps := ChainSteps(e);
    && r.selector == (if ChainRoot(e).Some? then GetSelectorFromArgs(ChainRoot(e).value) else node.selector)
    && r.styles == node.styles + Reverse(PairsIn(steps, "css"))
    && r.attributes == node.attributes + Reverse(PairsIn(steps, "attr"))
    && r.classList == node.classList + Reverse(StringsIn(steps, "addClass"))
    && r.childrenRawHtml == node.childrenRawHtml + Reverse(StringsIn(steps, "append"))
    && r.events == node.events + Reverse(EventsIn(steps, render))
    && r.textContent == (if FirstText(steps).Some? then FirstText(steps) else node.textContent)
  }

  /** `n2` is `node` with the effect of step `st` on each field. */
  ghost predicate StepEffect(st: Step, node: JqDomNode, render: Render, n2: JqDomNode) {
    && n2.selector == node.selector
    && n2.styles == node.styles + PairsOf(st, "css")
    && n2.attributes == node.attributes + PairsOf(st, "attr")
    && n2.classList == node.classList + StringsOf(st, "addClass")
    && n2.childrenRawHtml == node.childrenRawHtml + StringsOf(st, "append")
    && n2.events == node.events + EventsOf(st, render)
    && n2.textContent == (if TextOf(st).Some? then TextOf(st) else node.textContent)
  }

  /** What one call adds to each field of the node. */
  lemma ApplyMethodEffect(st: Step, node: JqDomNode, render: Render)
    ensures StepEffect(st, node, render, ApplyMethod(st.name, st.args, node, render))
  {
  }

  /** The source-order lists of a chain with one more call at its end. */
  lemma LastStep(steps: seq<Step>, st: Step, render: Render)
    ensures PairsIn(steps + [st], "css") == PairsIn(steps, "css") + PairsOf(st, "css")
    ensures PairsIn(steps + [st], "attr") == PairsIn(steps, "attr") + PairsOf(st, "attr")
    ensures StringsIn(steps + [st], "addClass") == StringsIn(steps, "addClass") + StringsOf(st, "addClass")
    ensures StringsIn(steps + [st], "append") == StringsIn(steps, "append") + StringsOf(st, "append")
    ensures EventsIn(steps + [st], render) == EventsIn(steps, render) + EventsOf(st, render)
  {
    assert (steps + [st])[..|steps + [st]| - 1] == steps;
  }

  /** Adding one step's contribution before the reversed remainder. */
  lemma AppendStep<T>(prefix: seq<T>, c: seq<T>, tail: seq<T>, r: seq<T>)
    requires |c| <= 1 && r == (prefix + c) + Reverse(tail)
    ensures r == prefix + Reverse(tail + c)
  {
    ReverseSnoc(tail, c);
    assert (prefix + c) + Reverse(tail) == prefix + (c + Reverse(tail));
  }

  /** One step of `ChainOrder`: the walk of the receiver, started from the updated node. */
  lemma ChainOrderStep(obj: Expr, st: Step, node: JqDomNode, n2: JqDomNode, render: Render, r: JqDomNode)
    requires StepEffect(st, node, render, n2) && WalkResult(obj, n2, render, r)
    ensures WalkResult(Call(Member(obj, PropIdent(st.name)), st.args), node, render, r)
  {
    var e := Call(Member(obj, PropIdent(st.name)), st.args);
    var s := ChainSteps(obj);
    assert ChainSteps(e) == s + [st];
    assert ChainRoot(e) == ChainRoot(obj);
    LastStep(s, st, render);
    AppendStep(node.styles, PairsOf(st, "css"), PairsIn(s, "css"), r.styles);
    AppendStep(node.attributes, PairsOf(st, "attr"), PairsIn(s, "attr"), r.attributes);
    AppendStep(node.classList, StringsOf(st, "addClass"), StringsIn(s, "addClass"), r.classList);
    AppendStep(node.childrenRawHtml, StringsOf(st, "append"), StringsIn(s, "append"), r.childrenRawHtml);
    AppendStep(node.events, EventsOf(st, render), EventsIn(s, render), r.events);
    FirstTextSnoc(s, st);
  }

  /**
   * The outermost-first walk appends every list in reverse source order and leaves the text of
   * the earliest literal `.text(...)`, which is visited last; the selector comes from the root
   * `$(...)` when there is one.
   */
  lemma {:induction false} ChainOrder(e: Expr, node: JqDomNode, render: Render)
    ensures WalkResult(e, node, render, ParseChainExpr(e, node, render))
    decreases e
  {
    match e
    case Call(Member(obj, PropIdent(name)), args) =>
      var node' := ApplyMethod(name, args, node, render);
      ChainOrder(obj, node', render);
      assert ParseChainExpr(e, node, render) == ParseChainExpr(obj, node', render);
      ApplyMethodEffect(Step(name, args), node, render);
      ChainOrderStep(obj, Step(name, args), node, node', render, ParseChainExpr(obj, node', render));
    case Call(Ident(id), args) =>
    case _ =>
  }

  /** Walking from a fresh node, in terms of the chain alone. */
  lemma FreshWalk(e: Expr, sel: string, render: Render)
    ensures var r := ParseChainExpr(e, New(sel), render);
            var steps := ChainSteps(e);
            && r.styles == Reverse(PairsIn(steps, "css"))
            && r.attributes == Reverse(PairsIn(steps, "attr"))
            && r.classList == Reverse(StringsIn(steps, "addClass"))
            && r.childrenRawHtml == Reverse(StringsIn(steps, "append"))
            && r.events == Reverse(EventsIn(steps, render))
            && r.textContent == FirstText(steps)
  {
    ChainOrder(e, New(sel), render);
  }

  // ---------------------------------------------------------------------------
  // the collector

  /** The test a chain that does not start with a bare `$(...)` call must pass to be recorded. */
  predicate Qualifies(n: JqDomNode) {
    n.selector != UnknownSelector || n.styles != [] || n.textContent.Some? || n.events != []
  }

  /** The nodes `visit_expr` records for `e`, in order. */
  function ExprNodes(e: Expr, render: Render): seq<JqDomNode>
    decreases e
  {
    match e
    case Call(callee, args) =>
      if callee.Ident? && callee.name == "$" then
        [ParseChainExpr(e, New(GetSelectorFromArgs(args)), render)]
      else if callee.Member? && Qualifies(ParseChainExpr(e, New(UnknownSelector), render)) then
        [ParseChainExpr(e, New(UnknownSelector), render)]
      else
        ArgsNodes(args, render)
    case _ => []
  }

  /** The nodes recorded for a list of call arguments, visited left to right. */
  function ArgsNodes(args: seq<Expr>, render: Render): seq<JqDomNode>
    decreases args
  {
    if args == [] then []
    else ArgsNodes(args[..|args| - 1], render) + ExprNodes(args[|args| - 1], render)
  }

  function StmtNodes(stmt: Stmt, render: Render): seq<JqDomNode> {
    match stmt
    case ExprStatement(es) => ExprNodes(es.expr, render)
    case OtherStmt => []
  }

  function ItemNodes(item: ModuleItem, render: Render): seq<JqDomNode> {
    match item
    case StmtItem(stmt) => StmtNodes(stmt, render)
    case ModuleDecl => []
  }

  /** The nodes recorded for the items of a module, in order. */
  function ItemsNodes(items: seq<ModuleItem>, render: Render): seq<JqDomNode> {
    if items == [] then []
    else ItemsNodes(items[..|items| - 1], render) + ItemNodes(items[|items| - 1], render)
  }

  /** The expressions of the expression statements among `items`, in order. */
  function TopLevelExprs(items: seq<ModuleItem>): seq<Expr> {
    if items == [] then []
    else
      var last := items[|items| - 1];
      TopLevelExprs(items[..|items| - 1]) +
        (if last.StmtItem? && last.stmt.ExprStatement? then [last.stmt.exprStmt.expr] else [])
  }

  lemma ArgsNodesAppend(xs: seq<Expr>, ys: seq<Expr>, render: Render)
    ensures ArgsNodes(xs + ys, render) == ArgsNodes(xs, render) + ArgsNodes(ys, render)
    decreases |ys|
  {
    if ys == [] {
      assert xs + ys == xs;
    } else {
      var n := |ys| - 1;
      assert (xs + ys)[..|xs + ys| - 1] == xs + ys[..n];
      ArgsNodesAppend(xs, ys[..n], render);
    }
  }

  /**
   * Only expression statements are visited: the module's nodes are exactly those of its
   * top-level expression statements' expressions, in order; declarations and other statements
   * contribute nothing.
   */
  lemma {:induction false} OnlyExpressionStatements(items: seq<ModuleItem>, render: Render)
    ensures ItemsNodes(items, render) == ArgsNodes(TopLevelExprs(items), render)
  {
    if items != [] {
      var n := |items| - 1;
      OnlyExpressionStatements(items[..n], render);
      var last := items[n];
      var extra := if last.StmtItem? && last.stmt.ExprStatement? then [last.stmt.exprStmt.expr] else [];
      ArgsNodesAppend(TopLevelExprs(items[..n]), extra, render);
      if extra != [] {
        assert ArgsNodes(extra, render) == ExprNodes(extra[0], render) by {
          assert extra[..0] == [];
        }
      }
    }
  }

  /** A bare `$(...)` call always yields exactly one node: a blank one for its selector. */
  lemma DollarCallRecorded(args: seq<Expr>, render: Render)
    ensures ExprNodes(Call(Ident("$"), args), render) == [New(GetSelectorFromArgs(args))]
  {
    var e := Call(Ident("$"), args);
    assert ParseChainExpr(e, New(GetSelectorFromArgs(args)), render) == New(GetSelectorFromArgs(args));
  }

  /**
   * The qualifying test in the chain's own terms: its root selector is known, or it sets a
   * style, a literal text or an event. Attributes, classes and appended children do not count.
   */
  ghost predicate ChainQualifies(e: Expr, render: Render) {
    var steps := ChainSteps(e);
    || (ChainRoot(e).Some? && GetSelectorFromArgs(ChainRoot(e).value) != UnknownSelector)
    || PairsIn(steps, "css") != []
    || FirstText(steps).Some?
    || EventsIn(steps, render) != []
  }

  lemma QualifiesInChainTerms(e: Expr, render: Render)
    ensures Qualifies(ParseChainExpr(e, New(UnknownSelector), render)) <==> ChainQualifies(e, render)
  {
    ChainOrder(e, New(UnknownSelector), render);
    ReverseEmpty(PairsIn(ChainSteps(e), "css"));
    ReverseEmpty(EventsIn(ChainSteps(e), render));
  }

  /**
   * A chain on `.method(...)` is recorded, as the node its walk builds, exactly when it
   * qualifies; otherwise its own arguments are scanned instead.
   */
  lemma MemberChainRecorded(obj: Expr, prop: MemberProp, args: seq<Expr>, render: Render)
    ensures var e := Call(Member(obj, prop), args);
            && (ChainQualifies(e, render) ==> ExprNodes(e, render) == [ParseChainExpr(e, New(UnknownSelector), render)])
            && (!ChainQualifies(e, render) ==> ExprNodes(e, render) == ArgsNodes(args, render))
  {
    QualifiesInChainTerms(Call(Member(obj, prop), args), render);
  }

  /**
   * `$("#greeting").css("color", "red").css("font-size", "20px").text("Hi").text("Bye")`
   * becomes one node whose styles are listed last call first and whose text is the first one.
   */
  lemma GreetingChain(render: Render)
    ensures var root := Call(Ident("$"), [StrLit("#greeting")]);
            var c1 := Call(Member(root, PropIdent("css")), [StrLit("color"), StrLit("red")]);
            var c2 := Call(Member(c1, PropIdent("css")), [StrLit("font-size"), StrLit("20px")]);
            var c3 := Call(Member(c2, PropIdent("text")), [StrLit("Hi")]);
            var c4 := Call(Member(c3, PropIdent("text")), [StrLit("Bye")]);
            ExprNodes(c4, render) ==
              [JqDomNode("#greeting", [("font-size", "20px"), ("color", "red")], [], [], Some("Hi"), [], [])]
  {
    var root := Call(Ident("$"), [StrLit("#greeting")]);
    var c1 := Call(Member(root, PropIdent("css")), [StrLit("color"), StrLit("red")]);
    var c2 := Call(Member(c1, PropIdent("css")), [StrLit("font-size"), StrLit("20px")]);
    var c3 := Call(Member(c2, PropIdent("text")), [StrLit("Hi")]);
    var c4 := Call(Member(c3, PropIdent("text")), [StrLit("Bye")]);
    var n1 := New(UnknownSelector).(textContent := Some("Bye"));
    var n2 := n1.(textContent := Some("Hi"));
    var n3 := n2.(styles := [("font-size", "20px")]);
    var n4 := n3.(styles := [("font-size", "20px"), ("color", "red")]);
    calc {
      ParseChainExpr(c4, New(UnknownSelector), render);
      ParseChainExpr(c3, n1, render);
      ParseChainExpr(c2, n2, render);
      ParseChainExpr(c1, n3, render);
      ParseChainExpr(root, n4, render);
      n4.(selector := "#greeting");
    }
  }

  /**
   * `$(document).ready(function () { ... })`: the selector is not a literal and the chain sets
   * no style, text or event, so nothing is recorded, and the function argument is not entered.
   */
  lemma ReadyHandlerNotRecorded(render: Render)
    ensures ExprNodes(Call(Member(Call(Ident("$"), [Ident("document")]), PropIdent("ready")), [Other("function")]), render) == []
  {
    var e := Call(Member(Call(Ident("$"), [Ident("document")]), PropIdent("ready")), [Other("function")]);
    MemberChainRecorded(Call(Ident("$"), [Ident("document")]), PropIdent("ready"), [Other("function")], render);
    assert ArgsNodes([Other("function")], render) == [] by {
      assert [Other("function")][..0] == [];
    }
  }

  lemma ReverseEmpty<T>(s: seq<T>)
    ensures Reverse(s) == [] <==> s == []
  {
  }

  /**
   * `JqueryCollector`: the list of nodes found so far. Each visiting method appends what its
   * specification function says and never removes anything.
   */
  class JqueryCollector {
    var nodes: seq<JqDomNode>

    constructor ()
      ensures nodes == []
    {
      nodes := [];
    }

    /** `collect_from_module`: visit the statements among the module items, in order. */
    method CollectFromModule(m: Module, render: Render)
      modifies this
      ensures nodes == old(nodes) + ItemsNodes(m.body, render)
    {
      for i := 0 to |m.body|
        invariant nodes == old(nodes) + ItemsNodes(m.body[..i], render)
      {
        if m.body[i].StmtItem? {
          VisitStmt(m.body[i].stmt, render);
        }
        assert m.body[..i + 1][..i] == m.body[..i];
      }
      assert m.body[..|m.body|] == m.body;
    }

    /** `visit_stmt`: only expression statements are looked at. */
    method VisitStmt(stmt: Stmt, render: Render)
      modifies this
      ensures nodes == old(nodes) + StmtNodes(stmt, render)
    {
      match stmt
      case ExprStatement(es) => VisitExprStmt(es, render);
      case OtherStmt =>
    }

    method VisitExprStmt(stmt: ExprStmt, render: Render)
      modifies this
      ensures nodes == old(nodes) + ExprNodes(stmt.expr, render)
    {
      VisitExpr(stmt.expr, render);
    }

    /**
     * `visit_expr`: a call on `$` is recorded; a call on a member is recorded when its chain
     * qualifies; otherwise the call's arguments are visited left to right. Expressions that are
     * not calls are not entered.
     */
    method VisitExpr(e: Expr, render: Render)
      modifies this
      ensures nodes == old(nodes) + ExprNodes(e, render)
      decreases e
    {
      if e.Call? {
        var callee, args := e.callee, e.args;
        if callee.Ident? && callee.name == "$" {
          var node := New(GetSelectorFromArgs(args));
          node := ParseChainExpr(e, node, render);
          nodes := nodes + [node];
          return;
        } else if callee.Member? {
          var node := New(UnknownSelector);
          node := ParseChainExpr(e, node, render);
          if Qualifies(node) {
            nodes := nodes + [node];
            return;
          }
        }
        for i := 0 to |args|
          invariant nodes == old(nodes) + ArgsNodes(args[..i], render)
        {
          VisitExpr(args[i], render);
          assert args[..i + 1][..i] == args[..i];
        }
        assert args[..|args|] == args;
      }
    }
  }
}
