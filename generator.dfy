/**
 * The JSX generator of `rust/src/generator.rs`: one `JqDomNode` becomes one JSX element wrapped
 * in a `MyComponent` function.
 *
 * `node_to_jsx` builds its output with loops over the node's lists, so `NodeToJsx` is a method;
 * it is proved against the specification function `Jsx`, about which the properties of the
 * output are proved.
 */
module Generator {
  import opened Wrappers
  import opened Strings
  import opened DomNode

  // ---------------------------------------------------------------------------
  // selector

  /**
   * `parse_selector`: split at the first `.`; the tag is what comes before it and the single
   * class is all that comes after it, further dots included. Without a dot the whole selector is
   * the tag and there is no class.
   */
  function ParseSelector(sel: string): (r: (string, seq<string>))
    ensures '.' !in r.0
    ensures '.' in sel ==> |r.1| == 1 && r.0 + "." + r.1[0] == sel
    ensures '.' !in sel ==> r == (sel, [])
  {
    if sel == [] then ("", [])
    else if sel[0] == '.' then ("", [sel[1..]])
    else
      var rest := ParseSelector(sel[1..]);
      assert '.' in sel[1..] <==> '.' in sel by {
        assert sel == [sel[0]] + sel[1..];
      }
      assert '.' !in sel ==> [sel[0]] + sel[1..] == sel;
      ([sel[0]] + rest.0, rest.1)
  }

  // ---------------------------------------------------------------------------
  // classes

  predicate NoDuplicates<T(==)>(s: seq<T>) {
    forall i, j :: 0 <= i < j < |s| ==> s[i] != s[j]
  }

  /** The class list after visiting `cs` in order and appending each one not yet present. */
  function Merged(base: seq<string>, cs: seq<string>): seq<string> {
    if cs == [] then base
    else
      var m := Merged(base, cs[..|cs| - 1]);
      if cs[|cs| - 1] in m then m else m + [cs[|cs| - 1]]
  }

  /**
   * The merged list starts with `base`, holds exactly the classes of `base` and `cs`, and has no
   * duplicates when `base` has none.
   */
  lemma {:induction false} MergedProperties(base: seq<string>, cs: seq<string>)
    ensures var m := Merged(base, cs);
            && |base| <= |m| && m[..|base|] == base
            && (forall c :: c in m <==> c in base || c in cs)
            && (NoDuplicates(base) ==> NoDuplicates(m))
  {
    if cs != [] {
      var init := cs[..|cs| - 1];
      MergedProperties(base, init);
      assert cs == init + [cs[|cs| - 1]];
      var m := Merged(base, init);
      if cs[|cs| - 1] !in m {
        assert (m + [cs[|cs| - 1]])[..|base|] == m[..|base|];
      }
    }
  }

  /** The index of the first occurrence of `x` in `s`. */
  function FirstIndex(s: seq<string>, x: string): (k: nat)
    requires x in s
    ensures k < |s| && s[k] == x && x !in s[..k]
  {
    if s[0] == x then 0 else FirstIndex(s[1..], x) + 1
  }

  lemma {:induction false} FirstIndexSnoc(s: seq<string>, y: string, x: string)
    requires x in s + [y]
    ensures x in s ==> FirstIndex(s + [y], x) == FirstIndex(s, x)
    ensures x !in s ==> FirstIndex(s + [y], x) == |s|
  {
    if s != [] && s[0] != x {
      assert (s + [y])[1..] == s[1..] + [y];
      FirstIndexSnoc(s[1..], y, x);
    }
  }

  /** Elements of `m` from `lo` on lie in `cs`, in the order of their first occurrence there. */
  predicate InFirstOrder(m: seq<string>, lo: nat, cs: seq<string>)
    requires lo <= |m|
  {
    && (forall i :: lo <= i < |m| ==> m[i] in cs)
    && (forall i, j :: lo <= i < j < |m| ==> FirstIndex(cs, m[i]) < FirstIndex(cs, m[j]))
  }

  /** Appending to `cs` keeps the order; appending a new element to both extends it. */
  lemma InFirstOrderSnoc(m: seq<string>, lo: nat, cs: seq<string>, c: string)
    requires lo <= |m| && InFirstOrder(m, lo, cs)
    ensures InFirstOrder(m, lo, cs + [c])
    ensures c !in cs ==> InFirstOrder(m + [c], lo, cs + [c])
  {
    forall i | lo <= i < |m| ensures m[i] in cs + [c] && FirstIndex(cs + [c], m[i]) == FirstIndex(cs, m[i]) {
      FirstIndexSnoc(cs, c, m[i]);
    }
    if c !in cs {
      FirstIndexSnoc(cs, c, c);
      var m' := m + [c];
      forall i | lo <= i < |m'| ensures m'[i] in cs + [c] {
        if i < |m| {
          assert m'[i] == m[i];
        }
      }
      forall i, j | lo <= i < j < |m'| ensures FirstIndex(cs + [c], m'[i]) < FirstIndex(cs + [c], m'[j]) {
        assert m'[i] == m[i];
        if j < |m| {
          assert m'[j] == m[j];
        }
      }
    }
  }

  /**
   * The classes appended after `base` are classes of `cs` that `base` lacks, in the order of
   * their first occurrence in `cs`.
   */
  lemma {:induction false} MergedOrder(base: seq<string>, cs: seq<string>)
    ensures var m := Merged(base, cs);
            forall i :: |base| <= i < |m| ==> m[i] !in base
    ensures var m := Merged(base, cs);
            |base| <= |m| && InFirstOrder(m, |base|, cs)
  {
    MergedProperties(base, cs);
    if cs != [] {
      var init := cs[..|cs| - 1];
      var c := cs[|cs| - 1];
      MergedOrder(base, init);
      MergedProperties(base, init);
      assert cs == init + [c];
      var m := Merged(base, init);
      InFirstOrderSnoc(m, |base|, init, c);
      if c !in m {
        assert c !in init;
        forall i | |base| <= i < |m + [c]| ensures (m + [c])[i] !in base {
          if i < |m| {
            assert (m + [c])[i] == m[i];
          }
        }
      }
    }
  }

  /** The selector's class, if any, comes first among the merged classes. */
  lemma SelectorClassFirst(sel: string, cs: seq<string>)
    requires '.' in sel
    ensures var (tag, classes) := ParseSelector(sel);
            var m := Merged(classes, cs);
            |m| >= 1 && tag + "." + m[0] == sel && NoDuplicates(m)
  {
    var (tag, classes) := ParseSelector(sel);
    MergedProperties(classes, cs);
  }

  /** `className="..."`, space-separated, present exactly when there is a class. */
  function ClassAttr(all: seq<string>): (r: string)
    ensures r == "" <==> all == []
  {
    if all == [] then "" else " className=\"" + Join(all, " ") + "\""
  }

  // ---------------------------------------------------------------------------
  // style

  function StylePair(kv: (string, string)): string {
    kv.0 + ": \"" + kv.1 + "\""
  }

  /** One `key: "value"` per style, in order. */
  function StylePairs(styles: seq<(string, string)>): (r: seq<string>)
    ensures |r| == |styles|
    ensures forall i :: 0 <= i < |styles| ==> r[i] == StylePair(styles[i])
  {
    if styles == [] then []
    else StylePairs(styles[..|styles| - 1]) + [StylePair(styles[|styles| - 1])]
  }

  /** The `style` attribute, present exactly when there is a style. */
  function StyleAttr(styles: seq<(string, string)>): (r: string)
    ensures r == "" <==> styles == []
  {
    if styles == [] then "" else " style={ { " + Join(StylePairs(styles), ", ") + " } }"
  }

  // ---------------------------------------------------------------------------
  // content and events

  function Concat(ss: seq<string>): string {
    if ss == [] then "" else Concat(ss[..|ss| - 1]) + ss[|ss| - 1]
  }

  lemma {:induction false} ConcatAppend(a: seq<string>, b: seq<string>)
    ensures Concat(a + b) == Concat(a) + Concat(b)
    decreases |b|
  {
    if b == [] {
      assert a + b == a;
    } else {
      var n := |b| - 1;
      assert (a + b)[..|a + b| - 1] == a + b[..n];
      ConcatAppend(a, b[..n]);
    }
  }

  /** The element's content: the text, if any, then every raw child in order. */
  function Inner(node: JqDomNode): string {
    (if node.textContent.Some? then node.textContent.value else "") + Concat(node.childrenRawHtml)
  }

  /** The React prop for an event: `onClick`, whatever the event. */
  function ReactEventName(evt: string): (r: string)
    ensures r == "onClick"
  {
    match evt
    case "click" => "onClick"
    case _ => "onClick"
  }

  function Handler(evt: string, cb: string): string {
    " " + ReactEventName(evt) + "={(e) => { " + cb + " } }"
  }

  /** One handler attribute per event, in order. */
  function EventAttrs(events: seq<(string, string)>): string {
    if events == [] then ""
    else
      var last := events[|events| - 1];
      EventAttrs(events[..|events| - 1]) + Handler(last.0, last.1)
  }

  /** Event attributes of a concatenation are the concatenation of the event attributes. */
  lemma {:induction false} EventAttrsAppend(a: seq<(string, string)>, b: seq<(string, string)>)
    ensures EventAttrs(a + b) == EventAttrs(a) + EventAttrs(b)
    decreases |b|
  {
    if b == [] {
      assert a + b == a;
    } else {
      var n := |b| - 1;
      var c := a + b;
      assert c[..|c| - 1] == a + b[..n];
      assert c[|c| - 1] == b[n];
      var h := Handler(b[n].0, b[n].1);
      assert EventAttrs(c) == EventAttrs(a + b[..n]) + h;
      assert EventAttrs(b) == EventAttrs(b[..n]) + h;
      EventAttrsAppend(a, b[..n]);
      assert EventAttrs(c) == (EventAttrs(a) + EventAttrs(b[..n])) + h;
    }
  }

  /** Each event yields exactly one `onClick` handler carrying its callback. */
  lemma OneHandlerPerEvent(evt: string, cb: string)
    ensures EventAttrs([(evt, cb)]) == " onClick={(e) => { " + cb + " } }"
  {
    assert [(evt, cb)][..0] == [];
  }

  /** Event names are never read: two event lists with the same callbacks give the same output. */
  lemma {:induction false} EventNamesIgnored(e1: seq<(string, string)>, e2: seq<(string, string)>)
    requires |e1| == |e2|
    requires forall i :: 0 <= i < |e1| ==> e1[i].1 == e2[i].1
    ensures EventAttrs(e1) == EventAttrs(e2)
  {
    if e1 != [] {
      var n := |e1| - 1;
      EventNamesIgnored(e1[..n], e2[..n]);
    }
  }

  // ---------------------------------------------------------------------------
  // the element

  /** The attributes of the element and the `>` that ends its opening tag. */
  function OpenRest(node: JqDomNode, classes: seq<string>): string {
    ClassAttr(Merged(classes, node.classList)) + StyleAttr(node.styles) + EventAttrs(node.events) + ">"
  }

  /** An element with a tag, the rest of its opening tag, and its content. */
  function Element(tag: string, rest: string, inner: string): string {
    ("<" + tag) + (rest + (inner + ("</" + tag + ">")))
  }

  lemma ElementShape(tag: string, rest: string, inner: string)
    ensures StartsWith(Element(tag, rest, inner), "<" + tag)
    ensures EndsWith(Element(tag, rest, inner), inner + "</" + tag + ">")
  {
    var p := "<" + tag;
    var close := inner + ("</" + tag + ">");
    assert StartsWith(p, p);
    EndsWithAppend(rest, close);
    Wrapped(p, rest + close, "", p, close);
    assert rest + close + "" == rest + close;
    assert close + "" == inner + "</" + tag + ">";
  }

  /** The element `node_to_jsx` produces. */
  function Jsx(node: JqDomNode): string {
    var sel := ParseSelector(node.selector);
    Element(sel.0, OpenRest(node, sel.1), Inner(node))
  }

  /**
   * The element opens and closes with the tag of the selector, and its content, right before
   * the closing tag, is the text followed by the raw children.
   */
  lemma JsxShape(node: JqDomNode)
    ensures var tag := ParseSelector(node.selector).0;
            && StartsWith(Jsx(node), "<" + tag)
            && EndsWith(Jsx(node), Inner(node) + "</" + tag + ">")
  {
    var sel := ParseSelector(node.selector);
    ElementShape(sel.0, OpenRest(node, sel.1), Inner(node));
  }

  /** A node with no class, style, event, text or child renders as a bare element. */
  lemma BareElement(node: JqDomNode)
    requires IsBlank(node) && '.' !in node.selector
    ensures Jsx(node) == "<" + node.selector + "></" + node.selector + ">"
  {
  }

  /** `node.attributes` is never read. */
  lemma JsxIgnoresAttributes(node: JqDomNode, attrs: seq<(string, string)>)
    ensures Jsx(node.(attributes := attrs)) == Jsx(node)
  {
  }

  /** The class-merging loop of `node_to_jsx`. */
  method MergeClasses(classes: seq<string>, classList: seq<string>) returns (allClasses: seq<string>)
    ensures allClasses == Merged(classes, classList)
  {
    allClasses := classes;
    for i := 0 to |classList|
      invariant allClasses == Merged(classes, classList[..i])
    {
      var c := classList[i];
      assert classList[..i + 1][..i] == classList[..i];
      if c !in allClasses {
        allClasses := allClasses + [c];
      }
    }
    assert classList[..|classList|] == classList;
  }

  /** The style part of `node_to_jsx`. */
  method StylePart(styles: seq<(string, string)>) returns (part: string)
    ensures part == StyleAttr(styles)
  {
    part := "";
    if styles != [] {
      var pairs := [];
      for i := 0 to |styles|
        invariant pairs == StylePairs(styles[..i])
      {
        assert styles[..i + 1][..i] == styles[..i];
        pairs := pairs + [StylePair(styles[i])];
      }
      assert styles[..|styles|] == styles;
      part := " style={ { " + Join(pairs, ", ") + " } }";
    }
  }

  /** The inner-content buffer of `node_to_jsx`. */
  method InnerContent(node: JqDomNode) returns (inner: string)
    ensures inner == Inner(node)
  {
    inner := "";
    if node.textContent.Some? {
      inner := inner + node.textContent.value;
    }
    ghost var text := inner;
    for i := 0 to |node.childrenRawHtml|
      invariant inner == text + Concat(node.childrenRawHtml[..i])
    {
      assert node.childrenRawHtml[..i + 1][..i] == node.childrenRawHtml[..i];
      inner := inner + node.childrenRawHtml[i];
    }
    assert node.childrenRawHtml[..|node.childrenRawHtml|] == node.childrenRawHtml;
  }

  /** The event buffer of `node_to_jsx`. */
  method EventPart(events: seq<(string, string)>) returns (eventStr: string)
    ensures eventStr == EventAttrs(events)
  {
    eventStr := "";
    for i := 0 to |events|
      invariant eventStr == EventAttrs(events[..i])
    {
      var (evt, cb) := events[i];
      assert events[..i + 1][..i] == events[..i];
      eventStr := eventStr + (" " + ReactEventName(evt) + "={(e) => { " + cb + " } }");
    }
    assert events[..|events|] == events;
  }

  /** `node_to_jsx`. */
  method NodeToJsx(node: JqDomNode) returns (jsx: string)
    ensures jsx == Jsx(node)
  {
    var (tag, classes) := ParseSelector(node.selector);
    var allClasses := MergeClasses(classes, node.classList);
    var stylePart := StylePart(node.styles);
    var inner := InnerContent(node);
    var eventStr := EventPart(node.events);
    var classStr := "";
    if allClasses != [] {
      classStr := " className=\"" + Join(allClasses, " ") + "\"";
    }
    var rest := classStr + stylePart + eventStr + ">";
    assert rest == OpenRest(node, classes);
    jsx := ("<" + tag) + (rest + (inner + ("</" + tag + ">")));
    assert jsx == Element(tag, rest, inner);
  }

  // ---------------------------------------------------------------------------
  // the component

  const ComponentHead: string := "function MyComponent() {\n        return (\n            "
  const ComponentTail: string := "\n        );\n    }"

  lemma HeadStartsComponent()
    ensures StartsWith(ComponentHead, "function MyComponent() {")
  {
    assert ComponentHead[..24] == "function MyComponent() {";
  }

  /** The text `generate_react_code` returns for a node. */
  function ReactCode(node: JqDomNode): string {
    ComponentHead + (Jsx(node) + ComponentTail)
  }

  /**
   * The component starts with `function MyComponent() {` and ends with the element's content,
   * its closing tag and the end of the function.
   */
  lemma ReactCodeShape(node: JqDomNode)
    ensures StartsWith(ReactCode(node), "function MyComponent() {")
    ensures EndsWith(ReactCode(node), Inner(node) + "</" + ParseSelector(node.selector).0 + ">" + ComponentTail)
  {
    JsxShape(node);
    HeadStartsComponent();
    Wrapped(ComponentHead, Jsx(node), ComponentTail, "function MyComponent() {",
            Inner(node) + "</" + ParseSelector(node.selector).0 + ">");
  }

  /** `generate_react_code`: the element inside a `MyComponent` function. */
  method GenerateReactCode(node: JqDomNode) returns (code: string)
    ensures code == ReactCode(node)
  {
    var jsx := NodeToJsx(node);
    code := ComponentHead + (jsx + ComponentTail);
  }
}
