/**
 * `JqDomNode`: the record one jQuery chain is folded into. The crate `rust/` and the crate
 * `core/` declare the same struct with the same fields and the same constructor, so one
 * datatype stands for both.
 */
module DomNode {
  import opened Wrappers

  datatype JqDomNode = JqDomNode(
    selector: string,                      // argument of `$("...")`
    styles: seq<(string, string)>,         // from `.css("key", "value")`
    attributes: seq<(string, string)>,     // from `.attr("key", "value")`
    classList: seq<string>,                // from `.addClass("name")`
    textContent: Option<string>,           // from `.text("...")`
    childrenRawHtml: seq<string>,          // from `.append("<span>...</span>")`
    events: seq<(string, string)>)         // from `.on("click", handler)`

  /** Nothing has been collected into the node: every list is empty and there is no text. */
  predicate IsBlank(n: JqDomNode) {
    && n.styles == []
    && n.attributes == []
    && n.classList == []
    && n.textContent == None
    && n.childrenRawHtml == []
    && n.events == []
  }

  /** `JqDomNode::new`: a node for `selector` with nothing collected yet. */
  function New(selector: string): (n: JqDomNode)
    ensures n.selector == selector
    ensures IsBlank(n)
  {
    JqDomNode(selector, [], [], [], None, [], [])
  }

  /** A blank node is determined by its selector alone. */
  lemma BlankIsNew(n: JqDomNode)
    requires IsBlank(n)
    ensures n == New(n.selector)
  {
  }
}
