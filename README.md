# toy-browser rendering pipeline in Dafny

This project models the rendering core of a small Rust browser. Markup text is
parsed into a DOM tree, together with the stylesheets of its `<style>`
elements. Stylesheet text is parsed into rules. Each element gets its specified
values by selector matching and the cascade. The styled tree becomes a tree of
layout boxes. That tree becomes a display list of rectangles, which is painted
into a row-major pixel buffer.

Modules, one per source file:

- `Common` (common.dfy): the `Result`/`ParseError` type that replaces the
  source's panics (`assert!`, `unwrap`, indexing past the end), character
  classes, and `SpanEnd`, the specification of `consume_while`.
- `Dom` (dom.rs): nodes, elements and documents as values.
- `Css` (css.rs): the stylesheet parser is a class `Parser` with the input and
  a cursor `pos`. Each method is proved against a pure grammar function over
  `(input, pos)` (`IdentifierAt`, `RuleAt`, `RulesLoop`, …).
  `CssProperties` holds the lemmas about those functions.
- `Html` (html.rs): the markup parser, in the same style, with the
  `stylesheets` list as a field its methods append to. `HtmlProperties` holds
  its lemmas.
- `Style` (style.rs): selector matching, the stable sort by specificity, the
  cascade (`SpecifiedValues`, a method with the source's loops, proved equal to
  the function `Specified`), and the style tree.
- `Layout` (layout.rs): box types, `get_inline_container` and the layout-tree
  builder `GetLayoutTree`, proved equal to the function `LayoutTree`.
- `Raster` (raster.rs): the canvas, a class over an `array` of colours, with
  `DrawRect` filling a clamped rectangle in place; the display list; and
  `Rasterize`.

A consequence of the source as written: `get_layout_tree` never computes sizes
or positions. Every box keeps the all-zero box model, so the canvas that
`raster` makes for a laid-out tree has no pixels (`Raster.LaidOutCanvasIsEmpty`).

## Model

| member | source | states |
|---|---|---|
| Common.ExpectAt | src/html.rs:129 | `assert!(consume_char() == c)` succeeds exactly when the cursor is at `c`, and then steps past it |
| Common.SpanEnd | src/css.rs:110-116 | where `consume_while` stops: every character of the run satisfies the test, and the next one, if any, does not |
| Common.SpanEndUnique | src/css.rs:110-116 | that run end is unique, so `consume_while` has exactly one outcome |
| Dom.TextNode | src/dom.rs:22-27 | a text node holds its data and has no children |
| Dom.ElementNode | src/dom.rs:30-40 | an element node keeps its name, attributes and children, in order |
| Dom.CommentNode | src/dom.rs:43-48 | a comment node holds its content and has no children |
| Dom.StyleNode | src/html.rs:134-136 | a `style` element keeps its name and attributes, and holds its source as one text child |
| Dom.OnlyElementsHaveChildren | src/dom.rs:22-48 | text and comment nodes are leaves; an element has children exactly when it was given some |
| Dom.Split | src/style.rs:35-41 | splitting an attribute value on a separator yields at least one piece, and no piece contains the separator |
| Dom.SplitJoin | src/style.rs:35-41 | joining the pieces with the separator gives back the attribute value |
| Dom.Classes | src/style.rs:35-37 | an element without a `class` attribute has no classes |
| Dom.Ids | src/style.rs:41-44 | an element without an `id` attribute has no ids |
| Css.ParseSingleChannel | src/css.rs:68-70 | two hexadecimal digits give 16·high + low; empty text, a lone sign or a non-digit gives 0 |
| Css.HexValuePair | src/css.rs:68-70 | the value of a two-digit hexadecimal string is 16·first + second |
| Css.GetSpecificity | src/css.rs:74-76 | specificity is (number of ids, number of classes, 1 if there is a tag else 0) |
| Css.IdentifierAt | src/css.rs:124-134 | an identifier is the text it consumed, and it is non-empty exactly when the first character is an identifier character |
| Css.ValueLengthAt | src/css.rs:137-154 | a length stays inside the input |
| Css.HexColorAt | src/css.rs:157-173 | a hex colour consumes exactly six characters |
| Css.ValueAt | src/css.rs:176-185 | a value stays inside the input |
| Css.PropValueAt | src/css.rs:188-198 | a declaration consumes at least one character |
| Css.PropValuesLoop | src/css.rs:201-213 | the declaration loop stops in front of '}' |
| Css.PropValueSetAt | src/css.rs:201-213 | a declaration block consumes at least its two braces |
| Css.SelectorPartAt | src/css.rs:227-245 | each pass of the selector loop consumes at least one character |
| Css.SimpleSelectorLoop | src/css.rs:216-248 | a simple selector stops in front of '{', ',' or whitespace |
| Css.SelectorStart | src/css.rs:254-262 | the next selector starts after a ',' and the whitespace after it |
| Css.SelectorsLoop | src/css.rs:251-267 | the selector list stops in front of '{' |
| Css.RuleAt | src/css.rs:270-277 | a rule consumes at least one character |
| Css.RulesLoop | src/css.rs:280-292 | the stylesheet loop runs to the end of the input |
| Css.Parser.constructor | src/css.rs:296-301 | a parser starts at position 0 of its source |
| Css.Parser.Eof | src/css.rs:96-98 | end of input exactly when the cursor is at or past the end |
| Css.Parser.NextChar | src/css.rs:86-88 | the character at the cursor; an error at the end of input |
| Css.Parser.StartsWithText | src/css.rs:91-93 | true exactly when the rest of the input begins with the text |
| Css.Parser.ConsumeChar | src/css.rs:101-107 | returns the character at the cursor and advances by one; an error at the end of input |
| Css.Parser.ConsumeWhile | src/css.rs:110-116 | moves the cursor to `SpanEnd` and returns the text passed over |
| Css.Parser.ConsumeWhitespace | src/css.rs:119-121 | moves the cursor past the run of whitespace |
| Css.Parser.ParseIdentifier | src/css.rs:124-134 | agrees with `IdentifierAt`, in result and in final position |
| Css.Parser.ParseValueLength | src/css.rs:137-154 | agrees with `ValueLengthAt` |
| Css.Parser.ParseHexColor | src/css.rs:157-173 | agrees with `HexColorAt` |
| Css.Parser.ParseValue | src/css.rs:176-185 | agrees with `ValueAt` |
| Css.Parser.ParsePropValue | src/css.rs:188-198 | agrees with `PropValueAt` |
| Css.Parser.ParsePropValueSet | src/css.rs:201-213 | agrees with `PropValueSetAt` |
| Css.Parser.ParseSimpleSelector | src/css.rs:216-248 | agrees with `SimpleSelectorLoop` from the empty selector |
| Css.Parser.ParseSelectorPart | src/css.rs:227-245 | one pass of the loop at a non-stop character agrees with `SelectorPartAt`: `#` and `.` append an identifier to the ids or classes, `*` only advances, a lower-case letter sets the tag, anything else is an error |
| Css.Parser.ParseSelectors | src/css.rs:251-267 | agrees with `SelectorsLoop` |
| Css.Parser.ParseRule | src/css.rs:270-277 | agrees with `RuleAt` |
| Css.Parser.ParseStylesheet | src/css.rs:280-292 | agrees with `RulesLoop` from no rules |
| Css.Parse | src/css.rs:296-302 | the result is `StylesheetOf(source)` |
| Css.ParseInlineStyle | src/css.rs:305-312 | the result is `InlineStyleOf(style)` |
| CssProperties.IdentifierSpec | src/css.rs:124-134 | an identifier fails at the end of input, on a leading digit or on a leading '-'; otherwise it is the maximal run of `[A-Za-z0-9-]` |
| CssProperties.HexColorSpec | src/css.rs:157-173 | a hex colour is accepted exactly when six hex digits follow, not a seventh; r, g and b come from the digit pairs, and alpha is 255 |
| CssProperties.ValueDispatch | src/css.rs:176-185 | a digit starts a length (unit em, rem or px), '#' a colour, anything else an `Unknown` value up to ';'; a `Keyword` is never produced |
| CssProperties.SelectorPartCounts | src/css.rs:227-245 | one pass of the selector loop adds one id after '#', one class after '.', nothing for '*', and a tag for a lower-case letter |
| CssProperties.SimpleSelectorStops | src/css.rs:216-248 | the selector stops without consuming its stop character; any other unexpected character is an error |
| CssProperties.PropValuesOpaque | src/css.rs:201-213 | every colour among the declarations is opaque |
| CssProperties.RuleOpaque | src/css.rs:270-277 | every colour in a rule is opaque |
| CssProperties.RulesOpaque | src/css.rs:280-292 | every colour in the rules is opaque |
| CssProperties.StylesheetOpaque | src/css.rs:296-302 | every colour in a parsed stylesheet has alpha 255 |
| CssProperties.SimpleSelectorParts | src/css.rs:216-248 | the selector loop from `sel` yields `sel`'s ids followed by the identifier after each `#`, and `sel`'s classes followed by the identifier after each `.`, both in the order written. The tag is the last tag name written, or `sel`'s tag when none is. The loop stops, or fails, exactly where the head-first list of parts `PartsAt` does |
| CssProperties.LastTagWins | src/css.rs:239-241 | when several tag names are written, the last one is the tag |
| CssProperties.LastTagNone | src/css.rs:217-221 | with no tag name written, the tag keeps its starting value (`None` in `parse_simple_selector`) |
| CssProperties.PropValuesInOrder | src/css.rs:201-213 | the declaration loop returns what it started with followed by the declarations parsed one after another from the cursor, first written first, up to the '}'; it fails exactly when one of them fails |
| CssProperties.SelectorsInOrder | src/css.rs:251-267 | the selector loop returns what it started with followed by the simple selectors, first written first, each parsed at its comma-skipping start position, up to the '{'; it fails exactly when one of them fails |
| CssProperties.RulesInOrder | src/css.rs:280-292 | the stylesheet loop returns what it started with followed by the rules, first written first, up to the end of input; it fails exactly when one of them fails |
| CssProperties.PropValueSetExtend | src/css.rs:201-213 | a declaration block that parses gives the same declarations and end position whatever text follows it |
| CssProperties.InlineStyleIgnoresTail | src/css.rs:305-312 | when `style` parses, `style + "}" + tail` gives the same declarations: parsing stops at the brace that closes the block and ignores the rest |
| Html.TagNameAt | src/html.rs:74-81 | a tag name is the maximal run of ASCII letters and digits |
| Html.TextAt | src/html.rs:84-86 | a text node stays inside the input |
| Html.AttrValAt | src/html.rs:89-95 | an attribute value consumes at least its two quotes |
| Html.AttrAt | src/html.rs:98-103 | an attribute consumes at least one character |
| Html.AttrsLoop | src/html.rs:106-117 | the attribute loop stops in front of '>' |
| Html.StyleAt | src/html.rs:120-124 | the style text is exactly the input it consumed |
| Html.CommentEndAt | src/html.rs:156-161 | the comment loop stops where "-->" starts |
| Html.CommentAt | src/html.rs:149-167 | a comment consumes at least "<!--" and "-->" |
| Html.OpenTagAt | src/html.rs:129-133 | an opening tag consumes at least one character |
| Html.CloseTagAt | src/html.rs:141-144 | a closing tag consumes at least one character |
| Html.ElementAt | src/html.rs:127-146 | an element consumes at least one character |
| Html.ContentAt | src/html.rs:134-140 | the content of an element stays inside the input |
| Html.NodeAt | src/html.rs:170-180 | a node consumes at least one character |
| Html.NodesLoop | src/html.rs:183-193 | the node loop stops at the end of input or in front of "</" |
| Html.Parser.constructor | src/html.rs:210-214 | a parser starts at position 0 with no stylesheets |
| Html.Parser.Eof | src/html.rs:46-48 | end of input exactly when the cursor is at or past the end |
| Html.Parser.NextChar | src/html.rs:23-25 | the character at the cursor; an error at the end of input |
| Html.Parser.StartsWithText | src/html.rs:41-43 | true exactly when the rest of the input begins with the text |
| Html.Parser.ConsumeChar | src/html.rs:51-57 | returns the character at the cursor and advances by one; an error at the end of input |
| Html.Parser.Expect | src/html.rs:129 | agrees with `ExpectAt` |
| Html.Parser.ConsumeWhile | src/html.rs:60-66 | moves the cursor to `SpanEnd` and returns the text passed over |
| Html.Parser.ConsumeWhitespace | src/html.rs:69-71 | moves the cursor past the run of whitespace |
| Html.Parser.ParseTagName | src/html.rs:74-81 | agrees with `TagNameAt` |
| Html.Parser.ParseText | src/html.rs:84-86 | agrees with `TextAt` |
| Html.Parser.ParseAttrVal | src/html.rs:89-95 | agrees with `AttrValAt` |
| Html.Parser.ParseAttr | src/html.rs:98-103 | agrees with `AttrAt` |
| Html.Parser.ParseAttrs | src/html.rs:106-117 | agrees with `AttrsLoop` from the empty map |
| Html.Parser.ParseStyle | src/html.rs:120-124 | agrees with `StyleAt`, and appends the parsed stylesheet to `stylesheets` |
| Html.Parser.ParseOpenTag | src/html.rs:129-133 | agrees with `OpenTagAt` |
| Html.Parser.ParseCloseTag | src/html.rs:141-144 | agrees with `CloseTagAt` |
| Html.Parser.ParseElement | src/html.rs:127-146 | agrees with `ElementAt`, and appends the element's stylesheets to `stylesheets` |
| Html.Parser.ParseComment | src/html.rs:149-167 | agrees with `CommentAt` |
| Html.Parser.ParseCommentText | src/html.rs:155-161 | the loop collects exactly the text up to the first "-->" and stops in front of it; without a "-->" it fails at the end of input |
| Html.Parser.ParseNode | src/html.rs:170-180 | agrees with `NodeAt`, and appends its stylesheets |
| Html.Parser.ParseNodes | src/html.rs:183-193 | agrees with `NodesLoop`, and appends the stylesheets of all parsed nodes |
| Html.Parse | src/html.rs:209-227 | the result is `DocumentOf(source, defaultSheet)` |
| HtmlProperties.TextSpec | src/html.rs:84-86 | a text node stops only at '<' or the end of input, so it never holds '<' |
| HtmlProperties.AttrValSpec | src/html.rs:89-95 | an attribute value succeeds exactly at a quote that occurs again; the value lies between the two quotes and never holds that quote; any other first character is an error |
| HtmlProperties.AttrsLoopInserts | src/html.rs:106-117 | the attribute loop fails exactly when listing the attributes fails, and its map is the listed pairs inserted in order |
| HtmlProperties.InsertAllLastWins | src/html.rs:114 | after the inserts, a repeated attribute has the value of its last occurrence; the keys are the old ones plus the inserted names |
| HtmlProperties.CloseTagSpec | src/html.rs:141-144 | a parsed closing tag is exactly `</name>` |
| HtmlProperties.ElementClosed | src/html.rs:127-146 | a parsed element is closed by the tag of its own name |
| HtmlProperties.CloseTagMismatch | src/html.rs:143 | a closing tag with another name is the error `TagMismatch` |
| HtmlProperties.CommentEndFirst | src/html.rs:156-161 | the comment loop stops at the first "-->", and fails when there is none |
| HtmlProperties.CommentSpec | src/html.rs:149-167 | a comment holds exactly the text between "<!--" and the first "-->", and fails when there is no "-->" |
| HtmlProperties.ElementSheets | src/html.rs:127-146 | the stylesheets an element yields are those of its `<style>` elements, in document order |
| HtmlProperties.ContentSheets | src/html.rs:134-140 | the same for the content of an element |
| HtmlProperties.NodeSheets | src/html.rs:170-180 | the same for one node |
| HtmlProperties.NodesSheets | src/html.rs:183-193 | the same for a list of nodes |
| HtmlProperties.DocumentSpec | src/html.rs:209-227 | one top-level node is the root, and several are wrapped in an `html` element; the default stylesheet comes first, then the `<style>` sheets in document order |
| Style.AnyMissingSpec | src/style.rs:37 | `any(!contains)` holds exactly when some item is missing |
| Style.MatchSelectorSpec | src/style.rs:30-49 | a selector matches exactly when its tag is absent or equal, and all its classes and ids are the element's |
| Style.EmptySelectorMatchesAll | src/style.rs:30-49 | the universal selector matches every element |
| Style.FirstMatchSpec | src/style.rs:53-55 | `find` returns the first matching selector, or none when no selector matches |
| Style.MatchRuleSpec | src/style.rs:52-57 | a rule matches exactly when one of its selectors does, with the specificity of the first matching selector |
| Style.MatchRules | src/style.rs:60-65 | every matched rule comes from the list, with the specificity `match_rule` gives it |
| Style.MatchRulesAppend | src/style.rs:60-65 | matching keeps list order across concatenation |
| Style.MatchRulesComplete | src/style.rs:60-65 | every rule that matches is kept |
| Style.SpecificityTotalOrder | src/style.rs:75 | the tuple comparison is a total order |
| Style.Insert | src/style.rs:75 | inserting adds exactly one element |
| Style.SortBySpecificity | src/style.rs:75 | the sort is a permutation |
| Style.InsertSorted | src/style.rs:75 | inserting into a sorted list keeps it sorted |
| Style.SortSorted | src/style.rs:75 | the sorted rules ascend by specificity |
| Style.WithSpecificityAppend | src/style.rs:75 | selecting by specificity distributes over concatenation |
| Style.InsertStable | src/style.rs:75 | inserting keeps the order among equally specific rules |
| Style.SortStable | src/style.rs:75 | the sort is stable, as Rust's `sort_by` is |
| Style.InsertDeclsSpec | src/style.rs:77-79 | after the inserts a property holds its last declared value, or keeps its old value |
| Style.LastDeclaring | src/style.rs:76-80 | the index of the last rule declaring a property: it declares it, and no later rule does |
| Style.CascadeLastRuleWins | src/style.rs:76-80 | the cascade has exactly the declared properties, each with its value in the last rule that declares it |
| Style.CascadeHighestWins | src/style.rs:75-80 | on sorted rules, the winner is at least as specific as every rule declaring the property |
| Style.SortKeepsRules | src/style.rs:75 | sorting neither adds nor drops a rule |
| Style.SpecifiedKeys | src/style.rs:68-82 | the specified values have exactly the properties some matched rule declares |
| Style.SpecifiedHighestWins | src/style.rs:68-82 | each specified value comes from a matched rule of the highest specificity among those declaring it |
| Style.SpecifiedValues | src/style.rs:68-82 | the loops compute `Specified(element, sheets)` |
| Style.GatherEach | src/style.rs:71-74 | the first loop appends each stylesheet's matched rules in stylesheet order, computing `Gather` |
| Style.CascadeEach | src/style.rs:76-80 | the second loop inserts the declarations of the rules one rule after another, computing `CascadeRules` |
| Style.InsertEach | src/style.rs:77-79 | the inner loop inserts one rule's declarations in order, a later one replacing an earlier one of the same name |
| Style.NodeStyle | src/style.rs:88-92 | text and comment nodes get an empty style |
| Style.StyleTreeMirrors | src/style.rs:85-95 | the style tree mirrors the document, node for node and in order, with each node's style |
| Style.GetStyleTree | src/style.rs:98-100 | the style tree of a document mirrors its root |
| Style.GetVal | src/layout.rs:118 | a property's value is present exactly when the style map has it |
| Style.GetDisplay | src/layout.rs:118 | a node without `display` is inline |
| Layout.DefaultEdges | src/layout.rs:56-63 | all four edges are 0 |
| Layout.DefaultRect | src/layout.rs:67-74 | position and size are 0 |
| Layout.DefaultBox | src/layout.rs:78-85 | content, padding, border and margin are all zero |
| Layout.NewLayoutBox | src/layout.rs:89-95 | a new box has the given type, no children and the all-zero box model |
| Layout.GetInlineContainer | src/layout.rs:100-112 | only a block box delegates to its last child, which is then an anonymous block; box model and type are unchanged |
| Layout.PushInto | src/layout.rs:128 | pushing a child keeps the box's model and type |
| Layout.InlineContainerCases | src/layout.rs:100-112 | an inline or anonymous box is its own container and is unchanged; a block box reuses an anonymous last child or appends exactly one new empty one; earlier children are untouched |
| Layout.LayoutTree | src/layout.rs:116-123 | the tree is missing exactly when the root's `display` is `none` |
| Layout.GetLayoutTree | src/layout.rs:116-134 | the loop over the children computes `LayoutTree` |
| Layout.BuildChildrenKeepsType | src/layout.rs:125-131 | the loop keeps the type and box model of the box it fills |
| Layout.BuildType | src/layout.rs:117-123 | the box type follows the node's `display`, and the box model stays zero |
| Layout.LayoutTreeRoot | src/layout.rs:117-123 | a `none` root is an error; a block root gives a block box, an inline root an inline box |
| Layout.StepWellFormed | src/layout.rs:126-130 | one turn of the loop keeps the box well formed |
| Layout.BuildChildrenWellFormed | src/layout.rs:125-131 | the loop keeps the box well formed |
| Layout.BuildWellFormed | src/layout.rs:100-134 | every box built is well formed. No two anonymous blocks are adjacent. Every anonymous block is non-empty and holds only inline boxes. No anonymous block sits under an inline box. Each box matches its node's `display` and has the zero box model |
| Layout.BoxesOf | src/layout.rs:125-131 | hidden children have no box, and each other child has one |
| Layout.StepFlatten | src/layout.rs:126-130 | one turn adds exactly the child's box, if any, to the flattened children |
| Layout.BuildChildrenFlatten | src/layout.rs:125-131 | the loop adds the boxes of the remaining children in order |
| Layout.BuildFlattens | src/layout.rs:125-131 | flattening the anonymous blocks gives the boxes of the displayed children in source order; hidden children get none |
| Raster.ExpandedBy | src/raster.rs:125 | growing a rectangle moves each side out by its edge |
| Raster.Clamp | src/raster.rs:47-50 | the clamped value lies in [0, hi]; a value already in range is unchanged |
| Raster.Idx | src/raster.rs:54 | every pixel index `y·width + x` lies inside the buffer |
| Raster.IdxInjective | src/raster.rs:54 | distinct pixels have distinct indices |
| Raster.IdxOnto | src/raster.rs:54 | every index of the buffer is some pixel's index |
| Raster.CoversInRect | src/raster.rs:47-56 | on the canvas, a pixel is painted exactly when it lies in the unclamped rectangle |
| Raster.EmptyRectCoversNothing | src/raster.rs:47-56 | a zero-sized or off-canvas rectangle paints nothing |
| Raster.Canvas.constructor | src/raster.rs:31-43 | a new canvas has width·height pixels, all opaque white |
| Raster.Canvas.DrawRect | src/raster.rs:46-57 | every pixel in the clamped rectangle takes the colour, and every other pixel keeps its colour |
| Raster.LastCovering | src/raster.rs:160-171 | the index of the last command covering a pixel; no later command covers it |
| Raster.LastCommandWins | src/raster.rs:160-171 | each pixel ends with the colour of the last command covering it, or keeps its colour |
| Raster.DrawCommands | src/raster.rs:160-171 | drawing the commands in order leaves each pixel as `Paint` says |
| Raster.GetColor | src/raster.rs:97-107 | a colour exists only for a block or inline box whose style has a `Color` value for the name |
| Raster.SideColor | src/raster.rs:118-119 | a side's colour is its own, else `border-color`, else transparent |
| Raster.SideCommands | src/raster.rs:117-123 | a side emits one rectangle in its colour, or nothing when the colour is transparent |
| Raster.BorderCommands | src/raster.rs:110-150 | at most four rectangles are emitted |
| Raster.BorderCommandsSpec | src/raster.rs:110-150 | every border rectangle is visible and one of the four sides; with all sides visible they come top, right, bottom, left |
| Raster.BorderRectsFrame | src/raster.rs:126-149 | with non-negative sizes, the four rectangles cover exactly the border box outside the padding box |
| Raster.BackgroundCommands | src/raster.rs:153-157 | exactly one padding-box rectangle when `background-color` is a colour, else nothing |
| Raster.OwnCommands | src/raster.rs:88-90 | a box emits at most five commands itself, and an anonymous block none |
| Raster.ChildrenCommandsPrefix | src/raster.rs:91-93 | the commands of earlier children form a prefix of those of later ones |
| Raster.DisplayListPreorder | src/raster.rs:88-94 | a box's own commands come first; each child's list follows those of the earlier children as one run |
| Raster.AnonymousPaintsChildren | src/raster.rs:98-106 | an anonymous block's list is just its children's |
| Raster.DrawOneBorder | src/raster.rs:117-123 | pushes exactly that side's commands |
| Raster.DrawBorder | src/raster.rs:110-150 | pushes exactly `BorderCommands` |
| Raster.DrawBackground | src/raster.rs:153-157 | pushes exactly `BackgroundCommands` |
| Raster.GetDisplayCommand | src/raster.rs:88-94 | appends the box's display list to the list |
| Raster.GetDisplayList | src/raster.rs:81-85 | the result is the tree's display list |
| Raster.ToSize | src/raster.rs:176 | a negative size becomes 0 |
| Raster.Rasterize | src/raster.rs:174-181 | the canvas has the size of the root's margin box, and each pixel shows the last display command covering it, or white |
| Raster.LaidOutCanvasIsEmpty | src/raster.rs:175-176 | for a tree from `get_layout_tree`, the margin box is empty, so the canvas has no pixels |

## Left out

- src/thread.rs, src/font.rs, src/parser.rs, src/main.rs and the programs under example/ are not part of this model. They cover threads and channels, glyph rendering through a library, an uncompiled trait, and program start-up.
- `get_default_stylesheet` (src/html.rs:197-206) reads a file. `Html.Parse` takes the default stylesheet as a parameter instead, which covers both the file's sheet and the empty-sheet fallback.
- `Canvas::save` (src/raster.rs:60-77) encodes an image file, and the `println!` calls print debug output. Neither is modelled.
- Panics become errors: `assert!`, `unwrap` on the end of input, and `next_char` past the end return `Err` with a `ParseError`. Which error is reported is a modelling choice; whether parsing fails matches the source.
- Css.ValueLengthAt: the number of a length is kept as its text. Parsing it as `f32` is not modelled.
- Geometry uses integers. The `f32` arithmetic, and the truncation of the clamped `f32` coordinates to `usize` in `draw_rect`, are not modelled.
- Raster.Canvas.constructor: `width * height` is an unbounded integer. A `usize` overflow is not modelled.
- Positions are character indices over the input. `consume_char`'s byte offsets, and its `unwrap_or((1, ' '))` fallback, agree with them on ASCII input only.
- `dom::style`, `ElementData::classes` and `ElementData::ids`, `StyledNode::get_val` and `get_display`, and `Box::padding_box`, `border_box` and `margin_box` are not part of this model. Each is given a plain definition, stated at its declaration.
- The layout and display trees are values. The source pushes into `root.children` and into the container that `get_inline_container` returns by `&mut`. Here the same updates make new values, so aliasing and in-place update of boxes are not captured. `Canvas.pixels` is the one buffer updated in place.
- `rules.sort_by` is modelled as a stable insertion sort. A stable sort by a total order has a single result, so this is the result Rust's sort gives.
- The `_` arm of `draw_commands` (src/raster.rs:166-168) cannot be reached, because there is only one display command. It is not modelled.
