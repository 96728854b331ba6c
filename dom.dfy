/**
 * The document tree of src/dom.rs: nodes are text, elements or comments, and
 * only elements carry attributes. The tree is a value; a document pairs its
 * root with the stylesheets that apply to it.
 */
module Dom {
  import Css

  /** Attribute name to attribute value. */
  type AttrMap = map<string, string>

  datatype ElementData = ElementData(tagName: string, attrs: AttrMap)

  datatype NodeType =
    | Text(text: string)
    | Element(data: ElementData)
    | Comment(comment: string)

  datatype Node = Node(nodeType: NodeType, children: seq<Node>)

  /** A parsed page: the root node and its stylesheets, lowest priority first. */
  datatype Document = Document(root: Node, stylesheets: seq<Css.Stylesheet>)

  /** `text`: a text node holding `data`. */
  function TextNode(data: string): (n: Node)
    ensures n.nodeType.Text? && n.nodeType.text == data
    ensures n.children == []
  {
    Node(Text(data), [])
  }

  /** `element`: an element node; name, attributes and children are kept as given, in order. */
  function ElementNode(name: string, attrs: AttrMap, children: seq<Node>): (n: Node)
    ensures n.nodeType.Element? && n.nodeType.data.tagName == name && n.nodeType.data.attrs == attrs
    ensures n.children == children
  {
    Node(Element(ElementData(name, attrs)), children)
  }

  /** `comment`: a comment node holding `content`. */
  function CommentNode(content: string): (n: Node)
    ensures n.nodeType.Comment? && n.nodeType.comment == content
    ensures n.children == []
  {
    Node(Comment(content), [])
  }

  /**
   * `dom::style(name, attrs, source)`, used by the HTML parser for a `<style>`
   * element; its definition is not part of this model, and here it is the
   * element holding its raw source as its one text child.
   */
  function StyleNode(name: string, attrs: AttrMap, source: string): (n: Node)
    ensures n.nodeType.Element? && n.nodeType.data.tagName == name && n.nodeType.data.attrs == attrs
    ensures n.children == [TextNode(source)]
  {
    ElementNode(name, attrs, [TextNode(source)])
  }

  /** Of the three constructors, only `element` yields a node with children. */
  lemma OnlyElementsHaveChildren(data: string, name: string, attrs: AttrMap, children: seq<Node>)
    ensures TextNode(data).children == [] && CommentNode(data).children == []
    ensures ElementNode(name, attrs, children).children != [] <==> children != []
    ensures TextNode(data) != CommentNode(data)
  {
  }

  /** The pieces of `s` between occurrences of `sep`, like Rust's `str::split` on a character. */
  function Split(s: string, sep: char): (pieces: seq<string>)
    ensures |pieces| >= 1
    ensures forall k :: 0 <= k < |pieces| ==> sep !in pieces[k]
    decreases |s|
  {
    if s == [] then [""]
    else
      var rest := Split(s[1..], sep);
      if s[0] == sep then [""] + rest
      else [[s[0]] + rest[0]] + rest[1..]
  }

  /** Joining the pieces with the separator gives back the text. */
  function Join(pieces: seq<string>, sep: char): string
    requires |pieces| >= 1
  {
    if |pieces| == 1 then pieces[0] else pieces[0] + [sep] + Join(pieces[1..], sep)
  }

  lemma {:induction false} SplitJoin(s: string, sep: char)
    ensures Join(Split(s, sep), sep) == s
    decreases |s|
  {
    if s != [] {
      SplitJoin(s[1..], sep);
      var rest := Split(s[1..], sep);
      if s[0] != sep {
        if |rest| == 1 {
          assert Split(s, sep) == [[s[0]] + rest[0]];
        } else {
          var pieces := Split(s, sep);
          assert pieces[1..] == rest[1..];
          assert Join(pieces, sep) == [s[0]] + rest[0] + [sep] + Join(rest[1..], sep);
        }
      }
    }
  }

  /** The words of an attribute, split on ' '; a missing attribute has none. */
  function AttrWords(e: ElementData, attr: string): set<string> {
    if attr in e.attrs then (set w | w in Split(e.attrs[attr], ' ')) else {}
  }

  /**
   * `ElementData::classes` and `ElementData::ids`, used by selector matching;
   * their definitions are not part of this model, and here they are the words
   * of the `class` and the `id` attribute.
   */
  function Classes(e: ElementData): (r: set<string>)
    ensures "class" !in e.attrs ==> r == {}
  {
    AttrWords(e, "class")
  }

  function Ids(e: ElementData): (r: set<string>)
    ensures "id" !in e.attrs ==> r == {}
  {
    AttrWords(e, "id")
  }
}
