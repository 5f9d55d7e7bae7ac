/** The parsed document as the mapper sees it. Parsing and the XPath query are done
    by libxml and are not modelled: the mapper receives their outcome. */
module Xml {

  import opened Text

  /** An attribute. `value` is `None` when libxml gives the attribute no text child,
      which is what stops the attribute scan of a sky condition. */
  datatype Attr = Attr(name: string, value: Option<string>)

  /** An element with its attributes and children in document order, or a text node. */
  datatype Node =
    | Element(name: string, attrs: seq<Attr>, children: seq<Node>)
    | TextNode(text: string)

  /** The node's name as libxml reports it; text nodes are called "text". */
  function Name(n: Node): string
  {
    match n
    case Element(name, _, _) => name
    case TextNode(_) => "text"
  }

  function Children(n: Node): seq<Node>
  {
    match n
    case Element(_, _, children) => children
    case TextNode(_) => []
  }

  function Concat(ss: seq<string>): string
    decreases |ss|
  {
    if |ss| == 0 then "" else ss[0] + Concat(ss[1..])
  }

  /** xmlNodeGetContent: the text of the node and of all its descendants, in order. */
  function Content(n: Node): string
    decreases n
  {
    match n
    case TextNode(t) => t
    case Element(_, _, children) =>
      Concat(seq(|children|, i requires 0 <= i < |children| => Content(children[i])))
  }

  /** What libxml hands the mapper: the document could not be parsed, the XPath
      context or the expression could not be built, or the node set selected by
      `//response/data/METAR`, in document order. */
  datatype QueryResult =
    | NoDocument
    | NoContext
    | NoExpression
    | NodeSet(nodes: seq<Node>)
}
