/**
 * Painting, as in src/raster.rs. A layout tree becomes a display list: for
 * every box in pre-order, its border rectangles and then its background
 * rectangle. The list is then drawn in order onto a canvas, a row-major
 * buffer of colours that starts out opaque white.
 */
module Raster {
  import opened Common
  import Css
  import Style
  import opened Layout

  const White := Css.CssColor(255, 255, 255, 255)
  const Transparent := Css.CssColor(0, 0, 0, 0)

  datatype DisplayCommand = Rectangle(color: Css.CssColor, rect: RectArea)

  // Box geometry

  /**
   * A rectangle grown by the given edges. `Box::padding_box`, `border_box`
   * and `margin_box` are called by the painter but their definitions are not
   * part of this model; here each grows the previous box by its edges.
   */
  function ExpandedBy(r: RectArea, e: EdgeSizes): (g: RectArea)
    ensures g.x == r.x - e.left && g.y == r.y - e.top
    ensures g.x + g.width == r.x + r.width + e.right
    ensures g.y + g.height == r.y + r.height + e.bottom
  {
    RectArea(r.x - e.left, r.y - e.top, r.width + e.left + e.right, r.height + e.top + e.bottom)
  }

  function PaddingBox(m: BoxModel): RectArea {
    ExpandedBy(m.content, m.padding)
  }

  function BorderBox(m: BoxModel): RectArea {
    ExpandedBy(PaddingBox(m), m.border)
  }

  function MarginBox(m: BoxModel): RectArea {
    ExpandedBy(BorderBox(m), m.margin)
  }

  /** Whether the point (px, py) lies in the rectangle. */
  predicate InRect(r: RectArea, px: int, py: int) {
    r.x <= px < r.x + r.width && r.y <= py < r.y + r.height
  }

  // The canvas

  /** `f32::clamp(0, hi)`: the point of [0, hi] nearest to `v`. */
  function Clamp(v: int, hi: nat): (c: nat)
    ensures c <= hi
    ensures 0 <= v <= hi ==> c == v
    ensures v < 0 ==> c == 0
    ensures hi < v ==> c == hi
  {
    if v < 0 then 0 else if v > hi then hi else v
  }

  /** The index of pixel (x, y) in a row-major buffer of rows of `w` pixels. */
  function Idx(w: nat, h: nat, x: nat, y: nat): (i: nat)
    requires x < w && y < h
    ensures i < w * h
  {
    assert (y + 1) * w <= h * w by {
      MulMono(y + 1, h, w);
    }
    y * w + x
  }

  lemma MulMono(a: nat, b: nat, w: nat)
    requires a <= b
    ensures a * w <= b * w
  {
  }

  /** Distinct pixels have distinct indices. */
  lemma IdxInjective(w: nat, h: nat, x: nat, y: nat, x': nat, y': nat)
    requires x < w && y < h && x' < w && y' < h
    ensures Idx(w, h, x, y) == Idx(w, h, x', y') <==> x == x' && y == y'
  {
    if y < y' {
      MulMono(y + 1, y', w);
    } else if y' < y {
      MulMono(y' + 1, y, w);
    }
  }

  /** Every index of the buffer is the index of one pixel. */
  lemma IdxOnto(w: nat, h: nat, i: nat)
    requires i < w * h
    ensures 0 < w && i % w < w && i / w < h && Idx(w, h, i % w, i / w) == i
  {
    if w > 0 && i / w >= h {
      MulMono(h, i / w, w);
    }
  }

  /**
   * Whether `draw_rect` paints pixel (x, y): the rectangle's edges are first
   * clamped to the canvas.
   */
  predicate Covers(r: RectArea, w: nat, h: nat, x: nat, y: nat) {
    Clamp(r.x, w) <= x < Clamp(r.x + r.width, w) && Clamp(r.y, h) <= y < Clamp(r.y + r.height, h)
  }

  /** On the canvas, clamping changes nothing: a pixel is painted exactly when it lies in the rectangle. */
  lemma CoversInRect(r: RectArea, w: nat, h: nat, x: nat, y: nat)
    requires x < w && y < h
    ensures Covers(r, w, h, x, y) <==> InRect(r, x, y)
  {
  }

  /** A rectangle of no width or height, or one entirely off the canvas, paints nothing. */
  lemma EmptyRectCoversNothing(r: RectArea, w: nat, h: nat, x: nat, y: nat)
    requires r.width <= 0 || r.height <= 0 || r.x >= w || r.y >= h || r.x + r.width <= 0 || r.y + r.height <= 0
    ensures !Covers(r, w, h, x, y)
  {
  }

  /** A canvas of `width` by `height` pixels, stored row by row. */
  class Canvas {
    const width: nat
    const height: nat
    const pixels: array<Css.CssColor>

    ghost predicate Valid()
      reads this
    {
      pixels.Length == width * height
    }

    /** `Canvas::new`: `width * height` pixels, all opaque white. */
    constructor (width: nat, height: nat)
      ensures this.width == width && this.height == height && Valid()
      ensures fresh(pixels)
      ensures forall i :: 0 <= i < pixels.Length ==> pixels[i] == White
    {
      this.width := width;
      this.height := height;
      pixels := new Css.CssColor[width * height](_ => White);
    }

    /** The colour of pixel (x, y). */
    function At(x: nat, y: nat): Css.CssColor
      requires Valid() && x < width && y < height
      reads this, pixels
    {
      pixels[Idx(width, height, x, y)]
    }

    /**
     * `draw_rect`: every pixel the clamped rectangle covers takes the colour,
     * every other pixel keeps its colour; every index written is in the buffer.
     */
    method DrawRect(color: Css.CssColor, rect: RectArea)
      requires Valid()
      modifies pixels
      ensures forall x: nat, y: nat :: x < width && y < height ==>
                At(x, y) == if Covers(rect, width, height, x, y) then color else old(At(x, y))
    {
      var startX := Clamp(rect.x, width);
      var endX := Clamp(rect.x + rect.width, width);
      var startY := Clamp(rect.y, height);
      var endY := Clamp(rect.y + rect.height, height);
      ghost var before := pixels[..];
      var x := startX;
      while x < endX
        invariant startX <= x && (x <= endX || x == startX)
        invariant forall px: nat, py: nat :: px < width && py < height ==>
                    pixels[Idx(width, height, px, py)] ==
                      if startX <= px < x && startY <= py < endY then color else before[Idx(width, height, px, py)]
      {
        var y := startY;
        while y < endY
          invariant startY <= y && (y <= endY || y == startY)
          invariant forall px: nat, py: nat :: px < width && py < height ==>
                      pixels[Idx(width, height, px, py)] ==
                        if (startX <= px < x && startY <= py < endY) || (px == x && startY <= py < y) then color
                        else before[Idx(width, height, px, py)]
        {
          forall px: nat, py: nat | px < width && py < height
            ensures Idx(width, height, px, py) == Idx(width, height, x, y) ==> px == x && py == y
          {
            IdxInjective(width, height, px, py, x, y);
          }
          pixels[Idx(width, height, x, y)] := color;
          y := y + 1;
        }
        x := x + 1;
      }
    }
  }

  /**
   * The colour of pixel (x, y) after drawing `cmds` in order over `base`: that
   * of the last command covering it, or `base` when none does.
   */
  function Paint(cmds: seq<DisplayCommand>, w: nat, h: nat, x: nat, y: nat, base: Css.CssColor): Css.CssColor
    decreases |cmds|
  {
    if cmds == [] then base
    else
      var last := cmds[|cmds| - 1];
      if Covers(last.rect, w, h, x, y) then last.color else Paint(cmds[..|cmds| - 1], w, h, x, y, base)
  }

  /** The index of the last command covering pixel (x, y), or -1 when none does. */
  function LastCovering(cmds: seq<DisplayCommand>, w: nat, h: nat, x: nat, y: nat): (k: int)
    ensures -1 <= k < |cmds|
    ensures k >= 0 ==> Covers(cmds[k].rect, w, h, x, y)
    ensures forall j :: k < j < |cmds| ==> !Covers(cmds[j].rect, w, h, x, y)
    decreases |cmds|
  {
    if cmds == [] then -1
    else if Covers(cmds[|cmds| - 1].rect, w, h, x, y) then |cmds| - 1
    else LastCovering(cmds[..|cmds| - 1], w, h, x, y)
  }

  /** Each pixel ends with the colour of the last command covering it, or keeps its colour. */
  lemma {:induction false} LastCommandWins(cmds: seq<DisplayCommand>, w: nat, h: nat, x: nat, y: nat, base: Css.CssColor)
    ensures var k := LastCovering(cmds, w, h, x, y);
            Paint(cmds, w, h, x, y, base) == if k >= 0 then cmds[k].color else base
    decreases |cmds|
  {
    if cmds != [] && !Covers(cmds[|cmds| - 1].rect, w, h, x, y) {
      var init := cmds[..|cmds| - 1];
      LastCommandWins(init, w, h, x, y, base);
      var k := LastCovering(init, w, h, x, y);
      if k >= 0 {
        assert cmds[k] == init[k];
      }
    }
  }

  /** `draw_commands`: the commands are drawn in list order. */
  method DrawCommands(cmds: seq<DisplayCommand>, canvas: Canvas)
    requires canvas.Valid()
    modifies canvas.pixels
    ensures forall x: nat, y: nat :: x < canvas.width && y < canvas.height ==>
              canvas.At(x, y) == Paint(cmds, canvas.width, canvas.height, x, y, old(canvas.At(x, y)))
  {
    ghost var before := canvas.pixels[..];
    for i := 0 to |cmds|
      invariant forall x: nat, y: nat :: x < canvas.width && y < canvas.height ==>
                  canvas.At(x, y) ==
                    Paint(cmds[..i], canvas.width, canvas.height, x, y, before[Idx(canvas.width, canvas.height, x, y)])
    {
      canvas.DrawRect(cmds[i].color, cmds[i].rect);
      assert cmds[..i + 1][..i] == cmds[..i];
    }
    assert cmds[..|cmds|] == cmds;
  }

  // The display list

  /** `get_color`: the colour a block or inline box's style gives `name`; anonymous boxes have none. */
  function GetColor(b: LayoutBox, name: string): (c: Option<Css.CssColor>)
    ensures b.boxType.AnonymousBlock? ==> c.None?
    ensures !b.boxType.AnonymousBlock? ==>
              (c.Some? <==> Style.GetVal(b.boxType.node, name).Some? && Style.GetVal(b.boxType.node, name).value.Color?)
    ensures c.Some? ==> Style.GetVal(b.boxType.node, name) == Some(Css.Color(c.value))
  {
    if b.boxType.AnonymousBlock? then None
    else
      match Style.GetVal(b.boxType.node, name)
      case Some(Color(color)) => Some(color)
      case _ => None
  }

  /** The colour of one border side: its own colour, else `border-color`, else transparent. */
  function SideColor(b: LayoutBox, name: string): (c: Css.CssColor)
    ensures GetColor(b, name).Some? ==> c == GetColor(b, name).value
    ensures GetColor(b, name).None? && GetColor(b, "border-color").Some? ==> c == GetColor(b, "border-color").value
    ensures GetColor(b, name).None? && GetColor(b, "border-color").None? ==> c == Transparent
  {
    match GetColor(b, name)
    case Some(color) => color
    case None =>
      match GetColor(b, "border-color")
      case Some(color) => color
      case None => Transparent
  }

  /** One side of the border: a rectangle in its colour, or nothing when that colour is transparent. */
  function SideCommands(b: LayoutBox, name: string, rect: RectArea): (cmds: seq<DisplayCommand>)
    ensures |cmds| <= 1
    ensures cmds == [] <==> SideColor(b, name) == Transparent
    ensures cmds != [] ==> cmds[0] == Rectangle(SideColor(b, name), rect)
  {
    var color := SideColor(b, name);
    if color != Transparent then [Rectangle(color, rect)] else []
  }

  function TopRect(m: BoxModel): RectArea {
    var bb := BorderBox(m);
    RectArea(bb.x, bb.y, bb.width, m.border.top)
  }

  function RightRect(m: BoxModel): RectArea {
    var bb := BorderBox(m);
    RectArea(bb.x + bb.width - m.border.right, bb.y, m.border.right, bb.height)
  }

  function BottomRect(m: BoxModel): RectArea {
    var bb := BorderBox(m);
    RectArea(bb.x, bb.y + bb.height - m.border.bottom, bb.width, m.border.bottom)
  }

  function LeftRect(m: BoxModel): RectArea {
    var bb := BorderBox(m);
    RectArea(bb.x, bb.y, m.border.left, bb.height)
  }

  /** The commands of `draw_border`: the top, right, bottom and left sides, in that order. */
  function BorderCommands(b: LayoutBox): (cmds: seq<DisplayCommand>)
    ensures |cmds| <= 4
  {
    var m := b.boxModel;
    SideCommands(b, "border-top-color", TopRect(m)) + SideCommands(b, "border-right-color", RightRect(m)) +
    SideCommands(b, "border-bottom-color", BottomRect(m)) + SideCommands(b, "border-left-color", LeftRect(m))
  }

  /** Whether `r` is one of the four border rectangles of the box model. */
  predicate IsBorderRect(m: BoxModel, r: RectArea) {
    r == TopRect(m) || r == RightRect(m) || r == BottomRect(m) || r == LeftRect(m)
  }

  /**
   * `draw_border` emits at most four rectangles, each one of the border
   * sides and none in the transparent colour; when every side has a visible
   * colour they are the top, right, bottom and left sides, in that order.
   */
  lemma BorderCommandsSpec(b: LayoutBox)
    ensures var cmds := BorderCommands(b);
            forall k :: 0 <= k < |cmds| ==> cmds[k].color != Transparent && IsBorderRect(b.boxModel, cmds[k].rect)
    ensures var m := b.boxModel;
            SideColor(b, "border-top-color") != Transparent && SideColor(b, "border-right-color") != Transparent &&
            SideColor(b, "border-bottom-color") != Transparent && SideColor(b, "border-left-color") != Transparent ==>
            BorderCommands(b) ==
              [Rectangle(SideColor(b, "border-top-color"), TopRect(m)), Rectangle(SideColor(b, "border-right-color"), RightRect(m)),
               Rectangle(SideColor(b, "border-bottom-color"), BottomRect(m)), Rectangle(SideColor(b, "border-left-color"), LeftRect(m))]
  {
    var m := b.boxModel;
    var t := SideCommands(b, "border-top-color", TopRect(m));
    var r := SideCommands(b, "border-right-color", RightRect(m));
    var bo := SideCommands(b, "border-bottom-color", BottomRect(m));
    var l := SideCommands(b, "border-left-color", LeftRect(m));
    var cmds := t + r + bo + l;
    assert forall k :: 0 <= k < |cmds| ==> cmds[k] in t || cmds[k] in r || cmds[k] in bo || cmds[k] in l;
  }

  /**
   * With edges and sizes that are not negative, the four border rectangles
   * cover exactly the border box outside the padding box.
   */
  lemma BorderRectsFrame(m: BoxModel, px: int, py: int)
    requires m.border.top >= 0 && m.border.right >= 0 && m.border.bottom >= 0 && m.border.left >= 0
    requires PaddingBox(m).width >= 0 && PaddingBox(m).height >= 0
    ensures InRect(TopRect(m), px, py) || InRect(RightRect(m), px, py) ||
            InRect(BottomRect(m), px, py) || InRect(LeftRect(m), px, py)
            <==>
            InRect(BorderBox(m), px, py) && !InRect(PaddingBox(m), px, py)
  {
  }

  /** The commands of `draw_background`: the padding box in the background colour, if there is one. */
  function BackgroundCommands(b: LayoutBox): (cmds: seq<DisplayCommand>)
    ensures |cmds| <= 1
    ensures cmds != [] <==> GetColor(b, "background-color").Some?
    ensures cmds != [] ==> cmds[0] == Rectangle(GetColor(b, "background-color").value, PaddingBox(b.boxModel))
  {
    match GetColor(b, "background-color")
    case Some(color) => [Rectangle(color, PaddingBox(b.boxModel))]
    case None => []
  }

  /** The commands a box paints itself: its border, then its background. */
  function OwnCommands(b: LayoutBox): (cmds: seq<DisplayCommand>)
    ensures |cmds| <= 5
    ensures b.boxType.AnonymousBlock? ==> cmds == []
  {
    BorderCommands(b) + BackgroundCommands(b)
  }

  /** The display list of a box: its own commands, then its children's lists in order. */
  function DisplayList(b: LayoutBox): seq<DisplayCommand>
    decreases b, 1
  {
    OwnCommands(b) + ChildrenCommands(b, |b.children|)
  }

  /** The display lists of the first `i` children of `b`, one after another. */
  function ChildrenCommands(b: LayoutBox, i: nat): seq<DisplayCommand>
    requires i <= |b.children|
    decreases b, 0, i
  {
    if i == 0 then [] else ChildrenCommands(b, i - 1) + DisplayList(b.children[i - 1])
  }

  /** Each child's list is a prefix of the lists of the children up to it. */
  lemma {:induction false} ChildrenCommandsPrefix(b: LayoutBox, i: nat, j: nat)
    requires i <= j <= |b.children|
    ensures ChildrenCommands(b, i) <= ChildrenCommands(b, j)
    decreases j - i
  {
    if i < j {
      ChildrenCommandsPrefix(b, i, j - 1);
    }
  }

  /**
   * The list is in pre-order: it starts with the box's own border and
   * background commands, then come the lists of its children one after
   * another, each as one contiguous run after those of the earlier children.
   */
  lemma {:induction false} DisplayListPreorder(b: LayoutBox, i: nat)
    requires i < |b.children|
    ensures OwnCommands(b) + ChildrenCommands(b, i) + DisplayList(b.children[i]) <= DisplayList(b)
  {
    ChildrenCommandsPrefix(b, i + 1, |b.children|);
    PrefixChain(OwnCommands(b), ChildrenCommands(b, i), DisplayList(b.children[i]),
                ChildrenCommands(b, i + 1), ChildrenCommands(b, |b.children|));
  }

  lemma PrefixChain<T>(own: seq<T>, pre: seq<T>, run: seq<T>, upTo: seq<T>, all: seq<T>)
    requires upTo == pre + run && upTo <= all
    ensures own + pre + run <= own + all
  {
    PrefixExtend(own, pre + run, all);
    AppendAssoc(own, pre, run);
  }

  lemma PrefixExtend<T>(own: seq<T>, p: seq<T>, q: seq<T>)
    requires p <= q
    ensures own + p <= own + q
  {
    assert (own + q)[..|own + p|] == own + p;
  }

  /** An anonymous block paints nothing itself; its list is its children's. */
  lemma AnonymousPaintsChildren(b: LayoutBox)
    requires b.boxType.AnonymousBlock?
    ensures DisplayList(b) == ChildrenCommands(b, |b.children|)
  {
    assert OwnCommands(b) == [];
  }

  /** The closure `draw_one_border`: pushes one side's rectangle unless its colour is transparent. */
  method DrawOneBorder(b: LayoutBox, name: string, rect: RectArea, list: seq<DisplayCommand>)
    returns (out: seq<DisplayCommand>)
    ensures out == list + SideCommands(b, name, rect)
  {
    var color := SideColor(b, name);
    out := list;
    if color != Transparent {
      out := out + [Rectangle(color, rect)];
    }
  }

  /** `draw_border`: pushes the border commands onto the list. */
  method DrawBorder(b: LayoutBox, list: seq<DisplayCommand>) returns (out: seq<DisplayCommand>)
    ensures out == list + BorderCommands(b)
  {
    var m := b.boxModel;
    var top := DrawOneBorder(b, "border-top-color", TopRect(m), list);
    var right := DrawOneBorder(b, "border-right-color", RightRect(m), top);
    var bottom := DrawOneBorder(b, "border-bottom-color", BottomRect(m), right);
    out := DrawOneBorder(b, "border-left-color", LeftRect(m), bottom);
  }

  /** `draw_background`: pushes the background command, if any, onto the list. */
  method DrawBackground(b: LayoutBox, list: seq<DisplayCommand>) returns (out: seq<DisplayCommand>)
    ensures out == list + BackgroundCommands(b)
  {
    out := list;
    match GetColor(b, "background-color")
    case Some(color) =>
      out := out + [Rectangle(color, PaddingBox(b.boxModel))];
    case None =>
  }

  /** `get_display_command`: pushes the display list of `b` onto the list. */
  method GetDisplayCommand(b: LayoutBox, list: seq<DisplayCommand>) returns (out: seq<DisplayCommand>)
    ensures out == list + DisplayList(b)
    decreases b
  {
    out := DrawBorder(b, list);
    out := DrawBackground(b, out);
    var own := OwnCommands(b);
    AppendAssoc(list, BorderCommands(b), BackgroundCommands(b));
    for i := 0 to |b.children|
      invariant out == list + own + ChildrenCommands(b, i)
    {
      out := GetDisplayCommand(b.children[i], out);
      AppendAssoc(list + own, ChildrenCommands(b, i), DisplayList(b.children[i]));
      assert ChildrenCommands(b, i + 1) == ChildrenCommands(b, i) + DisplayList(b.children[i]);
    }
    AppendAssoc(list, own, ChildrenCommands(b, |b.children|));
    assert DisplayList(b) == own + ChildrenCommands(b, |b.children|);
  }

  /** `get_display_list`: the display list of the whole tree. */
  method GetDisplayList(b: LayoutBox) returns (list: seq<DisplayCommand>)
    ensures list == DisplayList(b)
  {
    list := GetDisplayCommand(b, []);
    assert [] + DisplayList(b) == DisplayList(b);
  }

  /** `f32 as usize`: negative sizes become 0. */
  function ToSize(v: int): (n: nat)
    ensures v >= 0 ==> n == v
    ensures v < 0 ==> n == 0
  {
    if v < 0 then 0 else v
  }

  /**
   * `raster`: a canvas the size of the root's margin box, with the display
   * list drawn over white; each pixel shows the last command covering it.
   */
  method Rasterize(tree: LayoutBox) returns (canvas: Canvas)
    ensures canvas.Valid() && fresh(canvas.pixels)
    ensures canvas.width == ToSize(MarginBox(tree.boxModel).width)
    ensures canvas.height == ToSize(MarginBox(tree.boxModel).height)
    ensures forall x: nat, y: nat :: x < canvas.width && y < canvas.height ==>
              canvas.At(x, y) == Paint(DisplayList(tree), canvas.width, canvas.height, x, y, White)
  {
    var margin := MarginBox(tree.boxModel);
    canvas := new Canvas(ToSize(margin.width), ToSize(margin.height));
    var list := GetDisplayList(tree);
    DrawCommands(list, canvas);
  }

  /**
   * The layout tree never sizes its boxes: the box built for any displayed
   * styled node has an empty margin box, so its canvas has no pixels.
   */
  lemma LaidOutCanvasIsEmpty(s: Style.StyledNode)
    requires Style.GetDisplay(s) != Style.DisplayNone
    ensures ToSize(MarginBox(Build(s).boxModel).width) == 0 && ToSize(MarginBox(Build(s).boxModel).height) == 0
  {
    BuildType(s);
  }
}
