/**
 * The layout tree of src/layout.rs. Every styled node that is displayed gets
 * a box: a block box or an inline box according to its `display`. Runs of
 * inline children of a block box are gathered into anonymous block boxes.
 * No sizes or positions are computed: every box keeps the default, all-zero
 * box model.
 *
 * The tree is a value here. The source builds it by pushing into the
 * children of the box under construction; `GetLayoutTree` does the same
 * with a local box it reassigns.
 */
module Layout {
  import Style
  import opened Common

  /** Widths of the four edges of a box. Pixels, as integers. */
  datatype EdgeSizes = EdgeSizes(top: int, right: int, bottom: int, left: int)

  /** A rectangle: its top-left corner, its width and its height. */
  datatype RectArea = RectArea(x: int, y: int, width: int, height: int)

  /** The box model: the content box and the padding, border and margin around it. */
  datatype BoxModel = BoxModel(content: RectArea, padding: EdgeSizes, border: EdgeSizes, margin: EdgeSizes)

  /** A box built for a block-level styled node, for an inline one, or an anonymous block holding inline boxes. */
  datatype BoxType =
    | Block(node: Style.StyledNode)
    | Inline(node: Style.StyledNode)
    | AnonymousBlock

  datatype LayoutBox = LayoutBox(boxModel: BoxModel, boxType: BoxType, children: seq<LayoutBox>)

  function DefaultEdges(): (e: EdgeSizes)
    ensures e.top == 0 && e.right == 0 && e.bottom == 0 && e.left == 0
  {
    EdgeSizes(0, 0, 0, 0)
  }

  function DefaultRect(): (r: RectArea)
    ensures r.x == 0 && r.y == 0 && r.width == 0 && r.height == 0
  {
    RectArea(0, 0, 0, 0)
  }

  function DefaultBox(): (b: BoxModel)
    ensures b.content == DefaultRect()
    ensures b.padding == DefaultEdges() && b.border == DefaultEdges() && b.margin == DefaultEdges()
  {
    BoxModel(DefaultRect(), DefaultEdges(), DefaultEdges(), DefaultEdges())
  }

  /** `LayoutBox::new`: a box of the given type with no children and the all-zero box model. */
  function NewLayoutBox(boxType: BoxType): (b: LayoutBox)
    ensures b.boxType == boxType && b.children == []
    ensures b.boxModel.content.width == 0 && b.boxModel.content.height == 0
    ensures b.boxModel == DefaultBox()
  {
    LayoutBox(DefaultBox(), boxType, [])
  }

  /** Where `get_inline_container` found the box that takes inline children. */
  datatype Container = Itself | LastChild

  /**
   * `get_inline_container`: an inline or anonymous box takes inline
   * children itself. A block box takes them into its last child, appending a
   * new anonymous block first unless the last child already is one. The
   * result is the box after that update and which box is the container.
   */
  function GetInlineContainer(b: LayoutBox): (r: (LayoutBox, Container))
    ensures r.0.boxModel == b.boxModel && r.0.boxType == b.boxType
    ensures r.1 == LastChild <==> b.boxType.Block?
    ensures r.1 == LastChild ==> r.0.children != [] && r.0.children[|r.0.children| - 1].boxType.AnonymousBlock?
  {
    if !b.boxType.Block? then (b, Itself)
    else if b.children != [] && b.children[|b.children| - 1].boxType.AnonymousBlock? then (b, LastChild)
    else (b.(children := b.children + [NewLayoutBox(AnonymousBlock)]), LastChild)
  }

  /** `container.children.push(child)` on the container `GetInlineContainer` chose. */
  function PushInto(b: LayoutBox, which: Container, child: LayoutBox): (r: LayoutBox)
    requires which == LastChild ==> b.children != []
    ensures r.boxModel == b.boxModel && r.boxType == b.boxType
  {
    match which
    case Itself => b.(children := b.children + [child])
    case LastChild =>
      var n := |b.children|;
      b.(children := b.children[..n - 1] + [b.children[n - 1].(children := b.children[n - 1].children + [child])])
  }

  /** `root.get_inline_container().children.push(child)`. */
  function PushInline(root: LayoutBox, child: LayoutBox): LayoutBox {
    var (updated, which) := GetInlineContainer(root);
    PushInto(updated, which, child)
  }

  /**
   * `get_inline_container` on an inline or anonymous box returns that box
   * unchanged. On a block box it either reuses an anonymous last child,
   * changing nothing, or appends exactly one new, empty anonymous block; so
   * earlier children are untouched and the count grows by at most one.
   */
  lemma InlineContainerCases(b: LayoutBox)
    ensures !b.boxType.Block? ==> GetInlineContainer(b) == (b, Itself)
    ensures b.boxType.Block? ==>
              (b.children != [] && b.children[|b.children| - 1].boxType.AnonymousBlock? &&
               GetInlineContainer(b).0 == b) ||
              GetInlineContainer(b).0 == b.(children := b.children + [NewLayoutBox(AnonymousBlock)])
    ensures var r := GetInlineContainer(b).0;
            r.boxModel == b.boxModel && r.boxType == b.boxType &&
            |b.children| <= |r.children| <= |b.children| + 1 && r.children[..|b.children|] == b.children
  {
  }

  /** The box built for a displayed styled node: its type follows its `display`. */
  function Build(s: Style.StyledNode): LayoutBox
    requires Style.GetDisplay(s) != Style.DisplayNone
    decreases s, 1
  {
    var root := NewLayoutBox(if Style.GetDisplay(s) == Style.Block then Block(s) else Inline(s));
    BuildChildren(s, 0, root)
  }

  /** The loop of `get_layout_tree` over the children of `s` from the `i`-th on. */
  function BuildChildren(s: Style.StyledNode, i: nat, root: LayoutBox): LayoutBox
    requires i <= |s.children|
    decreases s, 0, |s.children| - i
  {
    if i == |s.children| then root
    else BuildChildren(s, i + 1, Step(root, s.children[i]))
  }

  /** One turn of that loop: a block child is pushed, an inline one goes into the inline container, a hidden one is skipped. */
  function Step(root: LayoutBox, child: Style.StyledNode): LayoutBox
    decreases child, 2
  {
    match Style.GetDisplay(child)
    case Block => root.(children := root.children + [Build(child)])
    case Inline => PushInline(root, Build(child))
    case DisplayNone => root
  }

  /** `get_layout_tree`, with `None` for the panic on a root whose `display` is `none`. */
  function LayoutTree(s: Style.StyledNode): (r: Option<LayoutBox>)
    ensures r.None? <==> Style.GetDisplay(s) == Style.DisplayNone
  {
    if Style.GetDisplay(s) == Style.DisplayNone then None else Some(Build(s))
  }

  /** `get_layout_tree`, building the root's children in a loop. */
  method GetLayoutTree(s: Style.StyledNode) returns (r: Option<LayoutBox>)
    ensures r == LayoutTree(s)
    decreases s
  {
    var display := Style.GetDisplay(s);
    if display == Style.DisplayNone {
      return None;
    }
    var root := NewLayoutBox(if display == Style.Block then Block(s) else Inline(s));
    ghost var built := BuildChildren(s, 0, root);
    for i := 0 to |s.children|
      invariant BuildChildren(s, i, root) == built
    {
      var child := s.children[i];
      match Style.GetDisplay(child)
      case Block =>
        var sub := GetLayoutTree(child);
        root := root.(children := root.children + [sub.value]);
      case Inline =>
        var sub := GetLayoutTree(child);
        var (updated, which) := GetInlineContainer(root);
        root := PushInto(updated, which, sub.value);
      case DisplayNone =>
    }
    return Some(root);
  }

  /** Among a block box's children no two anonymous blocks are adjacent. */
  predicate NoAdjacentAnonymous(cs: seq<LayoutBox>) {
    forall i :: 0 <= i < |cs| - 1 ==> !(cs[i].boxType.AnonymousBlock? && cs[i + 1].boxType.AnonymousBlock?)
  }

  /**
   * The shape of one box of the layout tree: it has the default box model;
   * a block or inline box was built for a node of that `display`; a block
   * box has no two adjacent anonymous children; an inline box has no
   * anonymous child; an anonymous block is non-empty and holds inline boxes only.
   */
  predicate LocalOk(b: LayoutBox) {
    b.boxModel == DefaultBox() &&
    match b.boxType
    case Block(n) => Style.GetDisplay(n) == Style.Block && NoAdjacentAnonymous(b.children)
    case Inline(n) =>
      Style.GetDisplay(n) == Style.Inline && forall i :: 0 <= i < |b.children| ==> !b.children[i].boxType.AnonymousBlock?
    case AnonymousBlock => b.children != [] && forall i :: 0 <= i < |b.children| ==> b.children[i].boxType.Inline?
  }

  /** Every box of the tree has the shape `LocalOk` describes. */
  predicate WellFormed(b: LayoutBox)
    decreases b
  {
    LocalOk(b) && forall i :: 0 <= i < |b.children| ==> WellFormed(b.children[i])
  }

  /** The loop over the children keeps the type and the box model of the box it builds. */
  lemma {:induction false} BuildChildrenKeepsType(s: Style.StyledNode, i: nat, root: LayoutBox)
    requires i <= |s.children|
    ensures BuildChildren(s, i, root).boxType == root.boxType
    ensures BuildChildren(s, i, root).boxModel == root.boxModel
    decreases |s.children| - i
  {
    if i < |s.children| {
      BuildChildrenKeepsType(s, i + 1, Step(root, s.children[i]));
    }
  }

  /** The root's box type follows its `display`, and its box model is the default. */
  lemma BuildType(s: Style.StyledNode)
    requires Style.GetDisplay(s) != Style.DisplayNone
    ensures Build(s).boxType == (if Style.GetDisplay(s) == Style.Block then Block(s) else Inline(s))
    ensures Build(s).boxModel == DefaultBox()
  {
    BuildChildrenKeepsType(s, 0, NewLayoutBox(if Style.GetDisplay(s) == Style.Block then Block(s) else Inline(s)));
  }

  /** `get_layout_tree` fails exactly on a hidden root; otherwise its root is typed by `display`. */
  lemma LayoutTreeRoot(s: Style.StyledNode)
    ensures LayoutTree(s).None? <==> Style.GetDisplay(s) == Style.DisplayNone
    ensures Style.GetDisplay(s) == Style.Block ==> LayoutTree(s) == Some(Build(s)) && Build(s).boxType == Block(s)
    ensures Style.GetDisplay(s) == Style.Inline ==> LayoutTree(s) == Some(Build(s)) && Build(s).boxType == Inline(s)
  {
    if Style.GetDisplay(s) != Style.DisplayNone {
      BuildType(s);
    }
  }

  /** One turn of the loop keeps the box under construction well formed. */
  lemma {:induction false} StepWellFormed(root: LayoutBox, child: Style.StyledNode)
    requires WellFormed(root) && !root.boxType.AnonymousBlock?
    ensures WellFormed(Step(root, child)) && Step(root, child).boxType == root.boxType
    decreases child, 2
  {
    var d := Style.GetDisplay(child);
    if d != Style.DisplayNone {
      BuildWellFormed(child);
      BuildType(child);
      var x := Build(child);
      if d == Style.Block || root.boxType.Inline? {
        assert Step(root, child) == root.(children := root.children + [x]);
        AppendWellFormed(root, x);
      } else {
        var n := |root.children|;
        if n > 0 && root.children[n - 1].boxType.AnonymousBlock? {
          assert Step(root, child) == PushInto(root, LastChild, x);
          ExtendLastWellFormed(root, x);
        } else {
          var anon := NewLayoutBox(AnonymousBlock).(children := [x]);
          var grown := root.children + [NewLayoutBox(AnonymousBlock)];
          assert GetInlineContainer(root).0.children == grown;
          assert grown[..n] == root.children && [] + [x] == [x];
          assert Step(root, child) == root.(children := root.children + [anon]);
          assert WellFormed(anon);
          AppendWellFormed(root, anon);
        }
      }
    }
  }

  /** Appending a well-formed child that is allowed next to the last one keeps a box well formed. */
  lemma AppendWellFormed(root: LayoutBox, x: LayoutBox)
    requires WellFormed(root) && WellFormed(x)
    requires root.boxType.Block? || (root.boxType.Inline? && !x.boxType.AnonymousBlock?)
    requires x.boxType.AnonymousBlock? ==>
               root.children == [] || !root.children[|root.children| - 1].boxType.AnonymousBlock?
    ensures WellFormed(root.(children := root.children + [x]))
  {
    var grown := root.children + [x];
    assert forall i :: 0 <= i < |root.children| ==> grown[i] == root.children[i];
  }

  /** Appending an inline box to an anonymous last child keeps a block box well formed. */
  lemma ExtendLastWellFormed(root: LayoutBox, x: LayoutBox)
    requires WellFormed(root) && WellFormed(x) && x.boxType.Inline? && root.boxType.Block?
    requires root.children != [] && root.children[|root.children| - 1].boxType.AnonymousBlock?
    ensures WellFormed(PushInto(root, LastChild, x))
  {
    var n := |root.children|;
    var last := root.children[n - 1];
    var last' := last.(children := last.children + [x]);
    assert WellFormed(last);
    assert WellFormed(last');
    var grown := root.children[..n - 1] + [last'];
    assert forall i :: 0 <= i < n - 1 ==> grown[i] == root.children[i];
  }

  /** The loop over the children keeps the box under construction well formed. */
  lemma {:induction false} BuildChildrenWellFormed(s: Style.StyledNode, i: nat, root: LayoutBox)
    requires i <= |s.children|
    requires WellFormed(root) && !root.boxType.AnonymousBlock?
    ensures WellFormed(BuildChildren(s, i, root))
    decreases s, 0, |s.children| - i
  {
    if i < |s.children| {
      StepWellFormed(root, s.children[i]);
      BuildChildrenWellFormed(s, i + 1, Step(root, s.children[i]));
    }
  }

  /** Every box `get_layout_tree` builds is well formed. */
  lemma {:induction false} BuildWellFormed(s: Style.StyledNode)
    requires Style.GetDisplay(s) != Style.DisplayNone
    ensures WellFormed(Build(s))
    decreases s, 1
  {
    var root := NewLayoutBox(if Style.GetDisplay(s) == Style.Block then Block(s) else Inline(s));
    assert WellFormed(root);
    BuildChildrenWellFormed(s, 0, root);
  }

  /** The children with anonymous blocks replaced by their contents. */
  function Flatten(cs: seq<LayoutBox>): seq<LayoutBox>
    decreases |cs|
  {
    if cs == [] then []
    else
      var last := cs[|cs| - 1];
      Flatten(cs[..|cs| - 1]) + (if last.boxType.AnonymousBlock? then last.children else [last])
  }

  /** The boxes of the displayed nodes among `cs`, in order; hidden nodes have none. */
  function BoxesOf(cs: seq<Style.StyledNode>): (r: seq<LayoutBox>)
    ensures |r| <= |cs|
  {
    if cs == [] then []
    else (if Style.GetDisplay(cs[0]) == Style.DisplayNone then [] else [Build(cs[0])]) + BoxesOf(cs[1..])
  }

  /** One turn of the loop adds exactly the child's box, if any, to the flattened children. */
  lemma StepFlatten(root: LayoutBox, child: Style.StyledNode)
    requires !root.boxType.AnonymousBlock?
    ensures Flatten(Step(root, child).children) ==
              Flatten(root.children) + (if Style.GetDisplay(child) == Style.DisplayNone then [] else [Build(child)])
  {
    var d := Style.GetDisplay(child);
    if d != Style.DisplayNone {
      BuildType(child);
      var x := Build(child);
      var cs := root.children;
      if d == Style.Block || root.boxType.Inline? {
        assert (cs + [x])[..|cs|] == cs;
      } else {
        var n := |cs|;
        if n > 0 && cs[n - 1].boxType.AnonymousBlock? {
          var last := cs[n - 1];
          var cs' := cs[..n - 1] + [last.(children := last.children + [x])];
          assert cs'[..n - 1] == cs[..n - 1];
          calc {
            Flatten(cs');
            Flatten(cs[..n - 1]) + (last.children + [x]);
            { AppendAssoc(Flatten(cs[..n - 1]), last.children, [x]); }
            Flatten(cs) + [x];
          }
        } else {
          var anon := NewLayoutBox(AnonymousBlock).(children := [x]);
          assert (cs + [anon])[..n] == cs;
        }
      }
    }
  }

  /** The loop over the children adds the boxes of the remaining children, in order. */
  lemma {:induction false} BuildChildrenFlatten(s: Style.StyledNode, i: nat, root: LayoutBox)
    requires i <= |s.children|
    requires !root.boxType.AnonymousBlock?
    ensures Flatten(BuildChildren(s, i, root).children) == Flatten(root.children) + BoxesOf(s.children[i..])
    decreases |s.children| - i
  {
    if i == |s.children| {
      assert s.children[i..] == [];
    } else {
      var c := s.children[i];
      var next := Step(root, c);
      StepFlatten(root, c);
      BuildChildrenKeepsType(s, i, root);
      assert next.boxType == root.boxType by {
        if Style.GetDisplay(c) != Style.DisplayNone && !root.boxType.Block? {
        }
      }
      BuildChildrenFlatten(s, i + 1, next);
      assert s.children[i..][1..] == s.children[i + 1..];
      AppendAssoc(Flatten(root.children), if Style.GetDisplay(c) == Style.DisplayNone then [] else [Build(c)],
                  BoxesOf(s.children[i + 1..]));
    }
  }

  /**
   * Flattening the anonymous blocks of a box's children gives back the boxes
   * of the node's displayed children in source order: hidden children get
   * no box, and every other child exactly one.
   */
  lemma BuildFlattens(s: Style.StyledNode)
    requires Style.GetDisplay(s) != Style.DisplayNone
    ensures Flatten(Build(s).children) == BoxesOf(s.children)
  {
    BuildChildrenFlatten(s, 0, NewLayoutBox(if Style.GetDisplay(s) == Style.Block then Block(s) else Inline(s)));
    assert s.children[0..] == s.children;
  }
}
