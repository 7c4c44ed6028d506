/**
 * An abstract view of a parsed theme document. A node keeps its optional
 * `name` attribute, its text content (what `text().as_string()` yields, ""
 * when there is none) and, for every child tag, the first child element
 * carrying that tag (what `child(tag)` finds).
 */
module Xml {
  import opened Wrappers

  datatype Node = Node(nameAttr: Option<string>, text: string, children: map<string, Node>)

  /** `child(tag)` on a node that may be the null node: null in, null out. */
  function Child(n: Option<Node>, tag: string): (c: Option<Node>)
    ensures c.Some? <==> n.Some? && tag in n.value.children
    ensures c.Some? ==> c.value == n.value.children[tag]
  {
    if n.Some? && tag in n.value.children then Some(n.value.children[tag]) else None
  }

  predicate HasChild(n: Option<Node>, tag: string)
  {
    n.Some? && tag in n.value.children
  }

  /** `child(tag).text().as_string()` of a child that is present. */
  function ChildText(n: Option<Node>, tag: string): string
    requires HasChild(n, tag)
  {
    n.value.children[tag].text
  }
}
