/** The document tree: elements, text, comments, template content and shadow roots. */
module Dom {
  import opened Text

  datatype Attr = Attr(name: Str, value: Str)

  /** A node. `content` holds the children of a
      template's content fragment, `shadow` an observed shadow root.
      `OtherNode` is any node that is not an element, text, comment or doctype. */
  datatype Node =
    | Element(ns: Option<Str>, name: Str, attrs: seq<Attr>,
              children: seq<Node>, content: seq<Node>, shadow: Shadow)
    | TextNode(value: Str)
    | Comment(value: Str)
    | Doctype(doctypeName: Str)
    | OtherNode(value: Str)

  datatype Shadow = NoShadow | ShadowRoot(nodes: seq<Node>)

  const HTML_NAMESPACE: Str := Ascii("http://www.w3.org/1999/xhtml")
  const TEMPLATE: Str := Ascii("template")

  predicate IsHtml(node: Node)
    requires node.Element?
  {
    node.ns == Some(HTML_NAMESPACE)
  }

  predicate IsTemplate(node: Node)
    requires node.Element?
  {
    IsHtml(node) && node.name == TEMPLATE
  }

  /** Children of the content fragment of a template, none for other elements. */
  function TemplateChildren(node: Node): seq<Node>
    requires node.Element?
  {
    if IsTemplate(node) then node.content else []
  }

  /** `getAttribute`: the value of the first attribute with the name. */
  function GetAttribute(attrs: seq<Attr>, name: Str): Option<Str> {
    if attrs == [] then None
    else if attrs[0].name == name then Some(attrs[0].value)
    else GetAttribute(attrs[1..], name)
  }
}
