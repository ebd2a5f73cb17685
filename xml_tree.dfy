/**
 * A loaded XML document as a tree of nodes: what `XmlDocument.LoadXml` hands
 * to the codec and what `XmlWriter` is asked to write. Parsing and printing of
 * the text itself are not modelled.
 */
module XmlTree {
  import opened Wrappers

  /** An element (tag name, attributes, child nodes) or a text node. */
  datatype Node =
    | Element(name: string, attrs: map<string, string>, children: seq<Node>)
    | Text(content: string)

  function Concat(parts: seq<string>): string {
    if parts == [] then "" else parts[0] + Concat(parts[1..])
  }

  /** `XmlNode.InnerText`: the text of all descendant text nodes, in order. */
  function InnerText(n: Node): string {
    match n
    case Text(s) => s
    case Element(_, _, children) =>
      Concat(seq(|children|, k requires 0 <= k < |children| => InnerText(children[k])))
  }

  /**
   * `n.Attributes[key]`: the attribute's value, or `None` where the library
   * gives null (a text node has no attribute collection, an element may lack
   * the attribute).
   */
  function Attribute(n: Node, key: string): (r: Option<string>)
    ensures r.Some? <==> n.Element? && key in n.attrs
  {
    if n.Element? && key in n.attrs then Some(n.attrs[key]) else None
  }

  /** True when `n` is an element with tag name `tag`. */
  predicate IsTag(n: Node, tag: string) {
    n.Element? && n.name == tag
  }

  /**
   * An element with attributes `attrs` holding `s` as text, as
   * `WriteStartElement`, `WriteAttributeString`, `WriteString(s)`,
   * `WriteEndElement()` write it: an empty string writes no text node.
   */
  function TextElement(tag: string, attrs: map<string, string>, s: string): (r: Node)
    ensures IsTag(r, tag) && r.attrs == attrs
    ensures InnerText(r) == s
  {
    if s == "" then Element(tag, attrs, [])
    else
      var children := [Text(s)];
      assert seq(|children|, k requires 0 <= k < |children| => InnerText(children[k])) == [s];
      assert [s][1..] == [] && Concat([s]) == s;
      Element(tag, attrs, children)
  }

  /** An element with attributes and no content. */
  function EmptyElement(tag: string, attrs: map<string, string>): (r: Node)
    ensures IsTag(r, tag) && r.attrs == attrs && InnerText(r) == ""
  {
    Element(tag, attrs, [])
  }
}
