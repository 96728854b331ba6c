/**
 * The HTML-subset parser of src/html.rs. It handles elements with quoted
 * attributes, text, comments and `<style>` blocks, whose content goes through
 * the CSS parser.
 *
 * As in module `Css`, each grammar production is a pure function from a
 * source text and a start position to what it parses, the stylesheets its
 * `<style>` elements add, and where it stops. `Parser` is the cursor-based
 * parser of the source: each of its methods is proved to compute that
 * function and to append those stylesheets.
 */
module Html {
  import opened Common
  import opened Dom
  import Css

  /** The characters of a tag name: ASCII letters and digits. */
  predicate IsTagChar(c: char) { IsAlphanumeric(c) }

  predicate NotLt(c: char) { c != '<' }

  // ---------------------------------------------------------------------------
  // The grammar

  /** `parse_tag_name`: the maximal run of ASCII letters and digits. */
  function TagNameAt(input: string, pos: nat): (r: (string, nat))
    requires pos <= |input|
    ensures pos <= r.1 <= |input| && r.0 == input[pos..r.1]
    ensures forall k :: 0 <= k < |r.0| ==> IsTagChar(r.0[k])
    ensures r.1 == |input| || !IsTagChar(input[r.1])
  {
    var e := SpanEnd(input, pos, IsTagChar);
    (input[pos..e], e)
  }

  /** `parse_text`: a text node holding everything up to the next '<'. */
  function TextAt(input: string, pos: nat): (r: (Node, nat))
    requires pos <= |input|
    ensures pos <= r.1 <= |input|
  {
    var e := SpanEnd(input, pos, NotLt);
    (TextNode(input[pos..e]), e)
  }

  /** `parse_attr_val`: a value between matching single or double quotes. */
  function AttrValAt(input: string, pos: nat): (r: Result<(string, nat)>)
    requires pos <= |input|
    ensures r.Ok? ==> pos + 2 <= r.value.1 <= |input|
  {
    if pos == |input| then Err(UnexpectedEof)
    else
      var quote := input[pos];
      if quote != '"' && quote != '\'' then Err(BadQuote(quote))
      else
        var e := SpanEnd(input, pos + 1, Unequal(quote));
        var close :- ExpectAt(input, e, quote);
        Ok((input[pos + 1..e], close))
  }

  /** `parse_attr`: `name=value`. */
  function AttrAt(input: string, pos: nat): (r: Result<((string, string), nat)>)
    requires pos <= |input|
    ensures r.Ok? ==> pos < r.value.1 <= |input|
  {
    var name := TagNameAt(input, pos);
    var eq :- ExpectAt(input, name.1, '=');
    var val :- AttrValAt(input, eq);
    Ok(((name.0, val.0), val.1))
  }

  /** The loop of `parse_attrs`, having collected `attrs`; it stops in front of '>'. */
  function AttrsLoop(input: string, pos: nat, attrs: AttrMap): (r: Result<(AttrMap, nat)>)
    requires pos <= |input|
    ensures r.Ok? ==> pos <= r.value.1 < |input| && input[r.value.1] == '>'
    decreases |input| - pos
  {
    var p := SpanEnd(input, pos, IsWhitespace);
    if p == |input| then Err(UnexpectedEof)
    else if input[p] == '>' then Ok((attrs, p))
    else
      var attr :- AttrAt(input, p);
      AttrsLoop(input, attr.1, attrs[attr.0.0 := attr.0.1])
  }

  /** `parse_style`: the raw text up to the next '<' and the stylesheet parsed from it. */
  function StyleAt(input: string, pos: nat): (r: Result<(string, Css.Stylesheet, nat)>)
    requires pos <= |input|
    ensures r.Ok? ==> pos <= r.value.2 <= |input| && r.value.0 == input[pos..r.value.2]
  {
    var e := SpanEnd(input, pos, NotLt);
    var content := input[pos..e];
    var sheet :- Css.StylesheetOf(content);
    Ok((content, sheet, e))
  }

  /** The loop of `parse_comment` from `pos`: the first position at which "-->" starts. */
  function CommentEndAt(input: string, pos: nat): (r: Result<nat>)
    requires pos <= |input|
    ensures r.Ok? ==> pos <= r.value <= |input| && StartsWith(input, r.value, "-->")
    decreases |input| - pos
  {
    if StartsWith(input, pos, "-->") then Ok(pos)
    else if pos == |input| then Err(UnexpectedEof)
    else CommentEndAt(input, pos + 1)
  }

  /** `parse_comment`: "<!--", the text up to the first "-->", and "-->". */
  function CommentAt(input: string, pos: nat): (r: Result<(Node, nat)>)
    requires pos <= |input|
    ensures r.Ok? ==> pos + 7 <= r.value.1 <= |input|
  {
    var p1 :- ExpectAt(input, pos, '<');
    var p2 :- ExpectAt(input, p1, '!');
    var p3 :- ExpectAt(input, p2, '-');
    var p4 :- ExpectAt(input, p3, '-');
    var e :- CommentEndAt(input, p4);
    Ok((CommentNode(input[p4..e]), e + 3))
  }

  /** The opening tag of `parse_element`: '<', the name, the attributes and '>'. */
  function OpenTagAt(input: string, pos: nat): (r: Result<((string, AttrMap), nat)>)
    requires pos <= |input|
    ensures r.Ok? ==> pos < r.value.1 <= |input|
  {
    var open :- ExpectAt(input, pos, '<');
    var name := TagNameAt(input, open);
    var attrs :- AttrsLoop(input, name.1, map[]);
    // the attribute loop stops in front of '>', so this `assert!` always holds
    Ok(((name.0, attrs.0), attrs.1 + 1))
  }

  /** The closing tag of `parse_element`: "</", a name that must be `name`, and '>'. */
  function CloseTagAt(input: string, pos: nat, name: string): (r: Result<nat>)
    requires pos <= |input|
    ensures r.Ok? ==> pos < r.value <= |input|
  {
    var lt :- ExpectAt(input, pos, '<');
    var slash :- ExpectAt(input, lt, '/');
    var close := TagNameAt(input, slash);
    if close.0 != name then Err(TagMismatch(name, close.0))
    else ExpectAt(input, close.1, '>')
  }

  /**
   * `parse_element`: an opening tag with attributes, then the content (raw
   * text for `style`, child nodes otherwise), then a closing tag whose name
   * must equal the opening one. Alongside the node it yields the stylesheets
   * of the `<style>` elements it contains, in document order.
   */
  function ElementAt(input: string, pos: nat): (r: Result<(Node, seq<Css.Stylesheet>, nat)>)
    requires pos <= |input|
    ensures r.Ok? ==> pos < r.value.2 <= |input|
    decreases |input| - pos, 0
  {
    var open :- OpenTagAt(input, pos);
    var body :- ContentAt(input, open.1, open.0.0, open.0.1);
    var close :- CloseTagAt(input, body.2, open.0.0);
    Ok((body.0, body.1, close))
  }

  /** The part of `parse_element` between the tags. */
  function ContentAt(input: string, pos: nat, name: string, attrs: AttrMap): (r: Result<(Node, seq<Css.Stylesheet>, nat)>)
    requires 0 < pos <= |input|
    ensures r.Ok? ==> pos <= r.value.2 <= |input|
    decreases |input| - pos, 3
  {
    if name == "style" then
      var style :- StyleAt(input, pos);
      Ok((StyleNode(name, attrs, style.0), [style.1], style.2))
    else
      var children :- NodesLoop(input, pos, [], []);
      Ok((ElementNode(name, attrs, children.0), children.1, children.2))
  }

  /** `parse_node`: a comment, an element or a text, by what the cursor is at. */
  function NodeAt(input: string, pos: nat): (r: Result<(Node, seq<Css.Stylesheet>, nat)>)
    requires pos <= |input|
    ensures r.Ok? ==> pos < r.value.2 <= |input|
    decreases |input| - pos, 1
  {
    if pos == |input| then Err(UnexpectedEof)
    else if input[pos] == '<' then
      if StartsWith(input, pos, "<!--") then
        var comment :- CommentAt(input, pos);
        Ok((comment.0, [], comment.1))
      else ElementAt(input, pos)
    else
      var text := TextAt(input, pos);
      Ok((text.0, [], text.1))
  }

  /**
   * The loop of `parse_nodes`, having collected `nodes` and `sheets`: it skips
   * whitespace and stops at the end of input or in front of "</".
   */
  function NodesLoop(input: string, pos: nat, nodes: seq<Node>, sheets: seq<Css.Stylesheet>)
    : (r: Result<(seq<Node>, seq<Css.Stylesheet>, nat)>)
    requires pos <= |input|
    ensures r.Ok? ==> pos <= r.value.2 <= |input|
    ensures r.Ok? ==> r.value.2 == |input| || StartsWith(input, r.value.2, "</")
    decreases |input| - pos, 2
  {
    var p := SpanEnd(input, pos, IsWhitespace);
    if p == |input| || StartsWith(input, p, "</") then Ok((nodes, sheets, p))
    else
      var node :- NodeAt(input, p);
      NodesLoop(input, node.2, nodes + [node.0], sheets + node.1)
  }

  /** The top of `html::parse`: one node is the root, several are wrapped in an `html` element. */
  function RootOf(nodes: seq<Node>): Node {
    if |nodes| == 1 then nodes[0] else ElementNode("html", map[], nodes)
  }

  /**
   * `html::parse`: the document of `source`. The default stylesheet, which the
   * source reads from a file, is given; it comes first, so it has the lowest
   * priority.
   */
  function DocumentOf(source: string, defaultSheet: Css.Stylesheet): Result<Document> {
    var parsed :- NodesLoop(source, 0, [], []);
    Ok(Document(RootOf(parsed.0), [defaultSheet] + parsed.1))
  }

  // ---------------------------------------------------------------------------
  // The parser

  class Parser {
    /** The source text. */
    const input: string
    /** The cursor: index of the next character to read. */
    var pos: nat
    /** The stylesheets of the `<style>` elements parsed so far, in document order. */
    var stylesheets: seq<Css.Stylesheet>

    ghost predicate Valid()
      reads this
    {
      pos <= |input|
    }

    constructor (source: string)
      ensures Valid() && input == source && pos == 0 && stylesheets == []
    {
      input := source;
      pos := 0;
      stylesheets := [];
    }

    /** `eof`. */
    function Eof(): (b: bool)
      reads this
      ensures b <==> pos >= |input|
    {
      pos >= |input|
    }

    /** `next_char`: the character at the cursor; at the end of input the source panics. */
    function NextChar(): (r: Result<char>)
      reads this
      ensures r.Ok? <==> pos < |input|
      ensures r.Ok? ==> r.value == input[pos]
    {
      if pos < |input| then Ok(input[pos]) else Err(UnexpectedEof)
    }

    /** `starts_with`. */
    function StartsWithText(s: string): (b: bool)
      reads this
      requires Valid()
      ensures b <==> pos + |s| <= |input| && input[pos..pos + |s|] == s
    {
      StartsWith(input, pos, s)
    }

    /** `consume_char`: read the character at the cursor and step past it. */
    method ConsumeChar() returns (r: Result<char>)
      requires Valid()
      modifies this
      ensures Valid() && stylesheets == old(stylesheets)
      ensures old(pos) < |input| ==> r == Ok(input[old(pos)]) && pos == old(pos) + 1
      ensures old(pos) == |input| ==> r == Err(UnexpectedEof) && pos == old(pos)
    {
      if pos == |input| {
        return Err(UnexpectedEof);
      }
      r := Ok(input[pos]);
      pos := pos + 1;
    }

    /** `assert!(self.consume_char() == c)`. */
    method Expect(c: char) returns (r: Result<char>)
      requires Valid()
      modifies this
      ensures Valid() && stylesheets == old(stylesheets)
      ensures match ExpectAt(input, old(pos), c)
              case Ok(p) => r == Ok(c) && pos == p
              case Err(e) => r == Err(e)
    {
      var found :- ConsumeChar();
      if found != c {
        return Err(UnexpectedChar(c, found));
      }
      return Ok(c);
    }

    /** `consume_while`: the longest run from the cursor on whose characters satisfy `test`. */
    method ConsumeWhile(test: char -> bool) returns (s: string)
      requires Valid()
      modifies this
      ensures Valid() && stylesheets == old(stylesheets)
      ensures pos == SpanEnd(input, old(pos), test)
      ensures s == input[old(pos)..pos]
    {
      s := "";
      ghost var end := SpanEnd(input, pos, test);
      while !Eof() && test(NextChar().value)
        invariant old(pos) <= pos <= |input| && stylesheets == old(stylesheets)
        invariant s == input[old(pos)..pos]
        invariant SpanEnd(input, pos, test) == end
        decreases |input| - pos
      {
        var c := ConsumeChar();
        s := s + [c.value];
      }
    }

    /** `consume_whitespace`. */
    method ConsumeWhitespace()
      requires Valid()
      modifies this
      ensures Valid() && stylesheets == old(stylesheets)
      ensures pos == SpanEnd(input, old(pos), IsWhitespace)
    {
      var skipped := ConsumeWhile(IsWhitespace);
    }

    /** `parse_tag_name`. */
    method ParseTagName() returns (name: string)
      requires Valid()
      modifies this
      ensures Valid() && stylesheets == old(stylesheets)
      ensures (name, pos) == TagNameAt(input, old(pos))
    {
      name := ConsumeWhile(IsTagChar);
    }

    /** `parse_text`. */
    method ParseText() returns (node: Node)
      requires Valid()
      modifies this
      ensures Valid() && stylesheets == old(stylesheets)
      ensures (node, pos) == TextAt(input, old(pos))
    {
      var text := ConsumeWhile(NotLt);
      node := TextNode(text);
    }

    /** `parse_attr_val`. */
    method ParseAttrVal() returns (r: Result<string>)
      requires Valid()
      modifies this
      ensures Valid() && stylesheets == old(stylesheets)
      ensures Agrees(r, pos, AttrValAt(input, old(pos)))
    {
      var quote :- ConsumeChar();
      if quote != '"' && quote != '\'' {
        return Err(BadQuote(quote));
      }
      var val := ConsumeWhile(Unequal(quote));
      var close :- Expect(quote);
      return Ok(val);
    }

    /** `parse_attr`. */
    method ParseAttr() returns (r: Result<(string, string)>)
      requires Valid()
      modifies this
      ensures Valid() && stylesheets == old(stylesheets)
      ensures Agrees(r, pos, AttrAt(input, old(pos)))
    {
      var name := ParseTagName();
      var eq :- Expect('=');
      var val :- ParseAttrVal();
      return Ok((name, val));
    }

    /** `parse_attrs`. */
    method ParseAttrs() returns (r: Result<AttrMap>)
      requires Valid()
      modifies this
      ensures Valid() && stylesheets == old(stylesheets)
      ensures Agrees(r, pos, AttrsLoop(input, old(pos), map[]))
    {
      var attrs: AttrMap := map[];
      ghost var parsed := AttrsLoop(input, pos, attrs);
      while true
        invariant Valid() && old(pos) <= pos && stylesheets == old(stylesheets)
        invariant AttrsLoop(input, pos, attrs) == parsed
        decreases |input| - pos
      {
        ConsumeWhitespace();
        var c :- NextChar();
        if c == '>' {
          break;
        }
        var attr :- ParseAttr();
        attrs := attrs[attr.0 := attr.1];
      }
      return Ok(attrs);
    }

    /** `parse_style`: also appends the parsed stylesheet. */
    method ParseStyle() returns (r: Result<string>)
      requires Valid()
      modifies this
      ensures Valid()
      ensures match StyleAt(input, old(pos))
              case Ok(v) => r == Ok(v.0) && pos == v.2 && stylesheets == old(stylesheets) + [v.1]
              case Err(e) => r == Err(e)
    {
      var content := ConsumeWhile(NotLt);
      var sheet :- Css.Parse(content);
      stylesheets := stylesheets + [sheet];
      return Ok(content);
    }

    /** The opening tag of `parse_element`. */
    method ParseOpenTag() returns (r: Result<(string, AttrMap)>)
      requires Valid()
      modifies this
      ensures Valid() && stylesheets == old(stylesheets)
      ensures Agrees(r, pos, OpenTagAt(input, old(pos)))
    {
      var open :- Expect('<');
      var name := ParseTagName();
      var attrs :- ParseAttrs();
      var gt := Expect('>');
      assert gt == Ok('>');
      return Ok((name, attrs));
    }

    /** The closing tag of `parse_element`, which must carry the name `name`. */
    method ParseCloseTag(name: string) returns (r: Result<char>)
      requires Valid()
      modifies this
      ensures Valid() && stylesheets == old(stylesheets)
      ensures match CloseTagAt(input, old(pos), name)
              case Ok(p) => r.Ok? && pos == p
              case Err(e) => r == Err(e)
    {
      var lt :- Expect('<');
      var slash :- Expect('/');
      var close := ParseTagName();
      if close != name {
        return Err(TagMismatch(name, close));
      }
      r := Expect('>');
    }

    /** `parse_element`. */
    method ParseElement() returns (r: Result<Node>)
      requires Valid()
      modifies this
      ensures Valid()
      ensures match ElementAt(input, old(pos))
              case Ok(v) => r == Ok(v.0) && pos == v.2 && stylesheets == old(stylesheets) + v.1
              case Err(e) => r == Err(e)
      decreases |input| - pos, 0
    {
      var tag :- ParseOpenTag();
      var name, attrs := tag.0, tag.1;
      ghost var contentStart, before := pos, stylesheets;
      var res: Node;
      if name == "style" {
        var source :- ParseStyle();
        res := StyleNode(name, attrs, source);
      } else {
        var children :- ParseNodes();
        res := ElementNode(name, attrs, children);
      }
      assert ContentAt(input, contentStart, name, attrs) == Ok((res, stylesheets[|before|..], pos));
      var close :- ParseCloseTag(name);
      return Ok(res);
    }

    /** `parse_comment`. */
    method ParseComment() returns (r: Result<Node>)
      requires Valid()
      modifies this
      ensures Valid() && stylesheets == old(stylesheets)
      ensures Agrees(r, pos, CommentAt(input, old(pos)))
    {
      var c1 :- Expect('<');
      var c2 :- Expect('!');
      var c3 :- Expect('-');
      var c4 :- Expect('-');
      var content :- ParseCommentText();
      var d1 := ConsumeChar();
      var d2 := ConsumeChar();
      var d3 := ConsumeChar();
      return Ok(CommentNode(content));
    }

    /** The loop of `parse_comment`: the text up to the first "-->", which it leaves unconsumed. */
    method ParseCommentText() returns (r: Result<string>)
      requires Valid()
      modifies this
      ensures Valid() && stylesheets == old(stylesheets)
      ensures match CommentEndAt(input, old(pos))
              case Ok(e) => r == Ok(input[old(pos)..e]) && pos == e
              case Err(err) => r == Err(err)
    {
      var content := "";
      ghost var start := pos;
      ghost var parsed := CommentEndAt(input, pos);
      while true
        invariant Valid() && start <= pos && stylesheets == old(stylesheets)
        invariant content == input[start..pos]
        invariant CommentEndAt(input, pos) == parsed
        decreases |input| - pos
      {
        if StartsWithText("-->") {
          break;
        }
        var c :- ConsumeChar();
        content := content + [c];
      }
      return Ok(content);
    }

    /** `parse_node`. */
    method ParseNode() returns (r: Result<Node>)
      requires Valid()
      modifies this
      ensures Valid()
      ensures match NodeAt(input, old(pos))
              case Ok(v) => r == Ok(v.0) && pos == v.2 && stylesheets == old(stylesheets) + v.1
              case Err(e) => r == Err(e)
      decreases |input| - pos, 1
    {
      var c :- NextChar();
      if c == '<' {
        if StartsWithText("<!--") {
          r := ParseComment();
        } else {
          r := ParseElement();
        }
      } else {
        var text := ParseText();
        r := Ok(text);
      }
    }

    /** `parse_nodes`. */
    method ParseNodes() returns (r: Result<seq<Node>>)
      requires Valid()
      modifies this
      ensures Valid()
      ensures match NodesLoop(input, old(pos), [], [])
              case Ok(v) => r == Ok(v.0) && pos == v.2 && stylesheets == old(stylesheets) + v.1
              case Err(e) => r == Err(e)
      decreases |input| - pos, 2
    {
      var nodes := [];
      ghost var sheets := [];
      ghost var parsed := NodesLoop(input, pos, [], []);
      while true
        invariant Valid() && old(pos) <= pos
        invariant stylesheets == old(stylesheets) + sheets
        invariant NodesLoop(input, pos, nodes, sheets) == parsed
        decreases |input| - pos
      {
        ConsumeWhitespace();
        if Eof() || StartsWithText("</") {
          break;
        }
        ghost var p := pos;
        assert NodesLoop(input, p, nodes, sheets) == parsed;
        var node :- ParseNode();
        ghost var v := NodeAt(input, p).value;
        assert NodesLoop(input, p, nodes, sheets) == NodesLoop(input, v.2, nodes + [v.0], sheets + v.1);
        AppendAssoc(old(stylesheets), sheets, v.1);
        nodes := nodes + [node];
        sheets := sheets + v.1;
      }
      return Ok(nodes);
    }
  }

  /** `html::parse`, with the default stylesheet given. */
  method Parse(source: string, defaultSheet: Css.Stylesheet) returns (r: Result<Document>)
    ensures r == DocumentOf(source, defaultSheet)
  {
    var parser := new Parser(source);
    var parsed := parser.ParseNodes();
    if parsed.Err? {
      return Err(parsed.error);
    }
    assert parser.stylesheets == NodesLoop(source, 0, [], []).value.1 by {
      assert [] + NodesLoop(source, 0, [], []).value.1 == NodesLoop(source, 0, [], []).value.1;
    }
    var nodes := parsed.value;
    var root: Node;
    if |nodes| == 1 {
      root := nodes[0];
    } else {
      root := ElementNode("html", map[], nodes);
    }
    return Ok(Document(root, [defaultSheet] + parser.stylesheets));
  }
}
