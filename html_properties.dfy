/**
 * Properties of the HTML grammar of src/html.rs, proved about the grammar
 * functions of module `Html` (and so, through the methods' postconditions,
 * about the cursor-based `Html.Parser`).
 */
module HtmlProperties {
  import opened Common
  import opened Dom
  import opened Html
  import Css

  /** `parse_text` stops only at '<' or at the end, so a text node never holds '<'. */
  lemma TextSpec(input: string, pos: nat)
    requires pos <= |input|
    ensures var r := TextAt(input, pos);
            && r.0.nodeType == Text(input[pos..r.1]) && r.0.children == []
            && '<' !in r.0.nodeType.text
            && (r.1 == |input| || input[r.1] == '<')
  {
  }

  predicate IsQuote(c: char) { c == '"' || c == '\'' }

  /**
   * `parse_attr_val` succeeds exactly when the cursor is at a quote that
   * occurs again later; the value is what lies between the two, so it never
   * holds that quote, and both quotes are consumed.
   */
  lemma AttrValSpec(input: string, pos: nat)
    requires pos <= |input|
    ensures AttrValAt(input, pos).Ok? <==>
              pos < |input| && IsQuote(input[pos]) && exists k :: pos < k < |input| && input[k] == input[pos]
    ensures pos < |input| && !IsQuote(input[pos]) ==> AttrValAt(input, pos) == Err(BadQuote(input[pos]))
    ensures var r := AttrValAt(input, pos);
            r.Ok? ==>
              && input[r.value.1 - 1] == input[pos]
              && r.value.0 == input[pos + 1..r.value.1 - 1]
              && input[pos] !in r.value.0
  {
    if pos < |input| && IsQuote(input[pos]) {
      var e := SpanEnd(input, pos + 1, Unequal(input[pos]));
      if e < |input| {
        assert input[e] == input[pos];
      }
    }
  }

  // ---------------------------------------------------------------------------
  // Attributes: a later attribute overwrites an earlier one of the same name

  /** The attributes of a tag as a list, in source order, without merging them into a map. */
  function AttrList(input: string, pos: nat): (r: Result<(seq<(string, string)>, nat)>)
    requires pos <= |input|
    decreases |input| - pos
  {
    var p := SpanEnd(input, pos, IsWhitespace);
    if p == |input| then Err(UnexpectedEof)
    else if input[p] == '>' then Ok(([], p))
    else
      var attr :- AttrAt(input, p);
      var rest :- AttrList(input, attr.1);
      Ok(([attr.0] + rest.0, rest.1))
  }

  /** Insert the pairs into `m` one after the other, as `HashMap::insert` does. */
  function InsertAll(m: AttrMap, pairs: seq<(string, string)>): AttrMap
    decreases |pairs|
  {
    if pairs == [] then m else InsertAll(m[pairs[0].0 := pairs[0].1], pairs[1..])
  }

  /**
   * `parse_attrs` fails exactly when listing the attributes does, and
   * otherwise computes the map that inserting the listed attributes in order
   * gives.
   */
  lemma {:induction false} AttrsLoopInserts(input: string, pos: nat, m: AttrMap)
    requires pos <= |input|
    ensures AttrsLoop(input, pos, m).Ok? <==> AttrList(input, pos).Ok?
    ensures AttrList(input, pos).Ok? ==>
              AttrsLoop(input, pos, m) == Ok((InsertAll(m, AttrList(input, pos).value.0), AttrList(input, pos).value.1))
    decreases |input| - pos
  {
    var p := SpanEnd(input, pos, IsWhitespace);
    if p < |input| && input[p] != '>' && AttrAt(input, p).Ok? {
      var attr := AttrAt(input, p).value;
      AttrsLoopInserts(input, attr.1, m[attr.0.0 := attr.0.1]);
      if AttrList(input, attr.1).Ok? {
        var rest := AttrList(input, attr.1).value.0;
        assert ([attr.0] + rest)[1..] == rest;
      }
    }
  }

  /** The value of `key` after the inserts: that of the last pair named `key`, else the old one. */
  lemma {:induction false} InsertAllLastWins(m: AttrMap, pairs: seq<(string, string)>, key: string)
    ensures key in InsertAll(m, pairs) <==> key in m || exists k :: 0 <= k < |pairs| && pairs[k].0 == key
    ensures forall k :: 0 <= k < |pairs| && pairs[k].0 == key && (forall j :: k < j < |pairs| ==> pairs[j].0 != key) ==>
              InsertAll(m, pairs)[key] == pairs[k].1
    ensures (forall k :: 0 <= k < |pairs| ==> pairs[k].0 != key) && key in m ==> InsertAll(m, pairs)[key] == m[key]
    decreases |pairs|
  {
    if pairs != [] {
      var m' := m[pairs[0].0 := pairs[0].1];
      InsertAllLastWins(m', pairs[1..], key);
      forall k | 0 <= k < |pairs| && pairs[k].0 == key && (forall j :: k < j < |pairs| ==> pairs[j].0 != key)
        ensures InsertAll(m, pairs)[key] == pairs[k].1
      {
        if k > 0 {
          assert pairs[1..][k - 1] == pairs[k];
        } else {
          assert forall j :: 0 <= j < |pairs[1..]| ==> pairs[1..][j].0 != key by {
            forall j | 0 <= j < |pairs[1..]| ensures pairs[1..][j].0 != key {
              assert pairs[1..][j] == pairs[j + 1];
            }
          }
        }
      }
      if exists k :: 0 <= k < |pairs| && pairs[k].0 == key {
        var k :| 0 <= k < |pairs| && pairs[k].0 == key;
        if k > 0 {
          assert pairs[1..][k - 1].0 == key;
        }
      }
    }
  }

  // ---------------------------------------------------------------------------
  // Elements and comments

  /** `"</" + name + ">"` ends at `end`. */
  predicate ClosingTagBefore(input: string, end: nat, name: string) {
    |name| + 3 <= end <= |input| && input[end - |name| - 3..end] == "</" + name + ">"
  }

  /** A closing tag parsed at `pos` is exactly `"</" + name + ">"`. */
  lemma CloseTagSpec(input: string, pos: nat, name: string)
    requires pos <= |input|
    ensures CloseTagAt(input, pos, name).Ok? ==> ClosingTagBefore(input, CloseTagAt(input, pos, name).value, name)
  {
    if CloseTagAt(input, pos, name).Ok? {
      var close := TagNameAt(input, pos + 2);
      var e := close.1 + 1;
      assert input[e - |name| - 3..e] == [input[pos], input[pos + 1]] + input[pos + 2..close.1] + [input[close.1]];
    }
  }

  /**
   * A parsed element is closed by the tag of its own name; a closing tag with
   * another name is an error.
   */
  lemma ElementClosed(input: string, pos: nat)
    requires pos <= |input|
    ensures var r := ElementAt(input, pos);
            r.Ok? ==>
              && pos < |input| && input[pos] == '<'
              && r.value.0.nodeType.Element?
              && r.value.0.nodeType.data.tagName == TagNameAt(input, pos + 1).0
              && ClosingTagBefore(input, r.value.2, r.value.0.nodeType.data.tagName)
  {
    if ElementAt(input, pos).Ok? {
      var open := OpenTagAt(input, pos).value;
      var body := ContentAt(input, open.1, open.0.0, open.0.1).value;
      CloseTagSpec(input, body.2, open.0.0);
    }
  }

  /** A closing tag that names another element is the error `TagMismatch`. */
  lemma CloseTagMismatch(input: string, pos: nat, name: string)
    requires pos + 2 <= |input| && input[pos..pos + 2] == "</"
    requires TagNameAt(input, pos + 2).0 != name
    ensures CloseTagAt(input, pos, name) == Err(TagMismatch(name, TagNameAt(input, pos + 2).0))
  {
    assert input[pos] == '<' && input[pos + 1] == '/';
  }

  /** `"-->"` starts nowhere in `[lo, hi)`. */
  predicate NoCommentEnd(input: string, lo: nat, hi: nat)
    requires lo <= hi <= |input|
  {
    forall k :: lo <= k < hi ==> !StartsWith(input, k, "-->")
  }

  /** The comment loop finds the first "-->", and fails when there is none. */
  lemma {:induction false} CommentEndFirst(input: string, pos: nat)
    requires pos <= |input|
    ensures CommentEndAt(input, pos).Ok? ==> NoCommentEnd(input, pos, CommentEndAt(input, pos).value)
    ensures CommentEndAt(input, pos).Err? <==> NoCommentEnd(input, pos, |input|)
    decreases |input| - pos
  {
    if !StartsWith(input, pos, "-->") && pos < |input| {
      CommentEndFirst(input, pos + 1);
    }
  }

  /**
   * `parse_comment` yields exactly the text between "<!--" and the first
   * "-->", and fails when the input ends before a "-->".
   */
  lemma CommentSpec(input: string, pos: nat)
    requires pos <= |input| && StartsWith(input, pos, "<!--")
    ensures CommentAt(input, pos).Err? <==> NoCommentEnd(input, pos + 4, |input|)
    ensures var r := CommentAt(input, pos);
            r.Ok? ==>
              && r.value.0 == CommentNode(input[pos + 4..r.value.1 - 3])
              && input[r.value.1 - 3..r.value.1] == "-->"
              && NoCommentEnd(input, pos + 4, r.value.1 - 3)
  {
    assert input[pos..pos + 4] == "<!--";
    assert input[pos] == '<' && input[pos + 1] == '!' && input[pos + 2] == '-' && input[pos + 3] == '-';
    CommentEndFirst(input, pos + 4);
  }

  // ---------------------------------------------------------------------------
  // Stylesheets in document order

  /** The stylesheet of a `<style>` element, if its text parses. */
  function StyleSheetOfText(source: string): seq<Css.Stylesheet> {
    match Css.StylesheetOf(source)
    case Ok(sheet) => [sheet]
    case Err(_) => []
  }

  /** The stylesheets of the `<style>` elements of a tree, in document order. */
  function SheetsOfNode(n: Node): seq<Css.Stylesheet>
    decreases n, 1
  {
    match n.nodeType
    case Element(data) =>
      if data.tagName == "style" && |n.children| == 1 && n.children[0].nodeType.Text? then
        StyleSheetOfText(n.children[0].nodeType.text)
      else SheetsOfNodes(n.children)
    case _ => []
  }

  function SheetsOfNodes(nodes: seq<Node>): seq<Css.Stylesheet>
    decreases nodes, 0
  {
    if nodes == [] then [] else SheetsOfNodes(nodes[..|nodes| - 1]) + SheetsOfNode(nodes[|nodes| - 1])
  }

  lemma {:induction false} ElementSheets(input: string, pos: nat)
    requires pos <= |input|
    ensures ElementAt(input, pos).Ok? ==> ElementAt(input, pos).value.1 == SheetsOfNode(ElementAt(input, pos).value.0)
    decreases |input| - pos, 0
  {
    if ElementAt(input, pos).Ok? {
      var open := OpenTagAt(input, pos).value;
      ContentSheets(input, open.1, open.0.0, open.0.1);
    }
  }

  lemma {:induction false} ContentSheets(input: string, pos: nat, name: string, attrs: AttrMap)
    requires 0 < pos <= |input|
    ensures ContentAt(input, pos, name, attrs).Ok? ==>
              ContentAt(input, pos, name, attrs).value.1 == SheetsOfNode(ContentAt(input, pos, name, attrs).value.0)
    decreases |input| - pos, 3
  {
    if name != "style" {
      NodesSheets(input, pos, [], []);
    }
  }

  lemma {:induction false} NodeSheets(input: string, pos: nat)
    requires pos <= |input|
    ensures NodeAt(input, pos).Ok? ==> NodeAt(input, pos).value.1 == SheetsOfNode(NodeAt(input, pos).value.0)
    decreases |input| - pos, 1
  {
    if pos < |input| && input[pos] == '<' && !StartsWith(input, pos, "<!--") {
      ElementSheets(input, pos);
    }
  }

  lemma {:induction false} NodesSheets(input: string, pos: nat, nodes: seq<Node>, sheets: seq<Css.Stylesheet>)
    requires pos <= |input| && sheets == SheetsOfNodes(nodes)
    ensures NodesLoop(input, pos, nodes, sheets).Ok? ==>
              NodesLoop(input, pos, nodes, sheets).value.1 == SheetsOfNodes(NodesLoop(input, pos, nodes, sheets).value.0)
    decreases |input| - pos, 2
  {
    var p := SpanEnd(input, pos, IsWhitespace);
    if !(p == |input| || StartsWith(input, p, "</")) && NodeAt(input, p).Ok? {
      var node := NodeAt(input, p).value;
      NodeSheets(input, p);
      assert (nodes + [node.0])[..|nodes|] == nodes;
      NodesSheets(input, node.2, nodes + [node.0], sheets + node.1);
    }
  }

  /**
   * `html::parse`: a single top-level node is the root, and otherwise the
   * nodes are wrapped in an `html` element without attributes. The default
   * stylesheet comes first, followed by the stylesheets of the `<style>`
   * elements in document order. Top-level parsing stops at the end of input or
   * in front of "</".
   */
  lemma DocumentSpec(source: string, defaultSheet: Css.Stylesheet)
    ensures DocumentOf(source, defaultSheet).Ok? <==> NodesLoop(source, 0, [], []).Ok?
    ensures var r := DocumentOf(source, defaultSheet);
            r.Ok? ==>
              var parsed := NodesLoop(source, 0, [], []).value;
              && (|parsed.0| == 1 ==> r.value.root == parsed.0[0])
              && (|parsed.0| != 1 ==> r.value.root == ElementNode("html", map[], parsed.0))
              && r.value.stylesheets[0] == defaultSheet
              && r.value.stylesheets[1..] == SheetsOfNodes(parsed.0)
              && (parsed.2 == |source| || StartsWith(source, parsed.2, "</"))
  {
    NodesSheets(source, 0, [], []);
  }
}
