/**
 * The style cascade of src/style.rs: selector matching, the gathering and
 * stable sorting of matched rules by specificity, the map of declared values
 * in which later and stronger declarations overwrite earlier ones, and the
 * styled tree that mirrors the document tree.
 */
module Style {
  import opened Common
  import opened Dom
  import opened Css

  /** Property name to value (`NodeStyle`). */
  type StyleMap = map<string, CssValue>

  /** A node of the style tree: the document node, its styled children and its specified values. */
  datatype StyledNode = StyledNode(node: Node, children: seq<StyledNode>, style: StyleMap)

  /** A rule that matched, with the specificity of the selector that matched it. */
  type MatchedRule = (Specificity, Rule)

  // ---------------------------------------------------------------------------
  // Matching

  /** `iter().any(|x| !set.contains(x))`: some item of `items` is missing from `present`. */
  predicate AnyMissing(items: seq<string>, present: set<string>)
    decreases |items|
  {
    items != [] && (items[0] !in present || AnyMissing(items[1..], present))
  }

  lemma {:induction false} AnyMissingSpec(items: seq<string>, present: set<string>)
    ensures AnyMissing(items, present) <==> exists k :: 0 <= k < |items| && items[k] !in present
    decreases |items|
  {
    if items != [] {
      AnyMissingSpec(items[1..], present);
      if exists k :: 0 <= k < |items| && items[k] !in present {
        var k :| 0 <= k < |items| && items[k] !in present;
        if k > 0 {
          assert items[1..][k - 1] !in present;
        }
      }
    }
  }

  /** `match_selector`: the tag, the classes and the ids of the selector are each checked in turn. */
  predicate MatchSelector(element: ElementData, selector: SimpleSelector) {
    if selector.tag.Some? && element.tagName != selector.tag.value then false
    else if AnyMissing(selector.classes, Classes(element)) then false
    else if AnyMissing(selector.ids, Ids(element)) then false
    else true
  }

  /**
   * A selector matches exactly when its tag is absent or equal to the
   * element's, and each of its classes and ids is among the element's.
   */
  lemma MatchSelectorSpec(element: ElementData, selector: SimpleSelector)
    ensures MatchSelector(element, selector) <==>
              && (selector.tag.None? || selector.tag.value == element.tagName)
              && (forall k :: 0 <= k < |selector.classes| ==> selector.classes[k] in Classes(element))
              && (forall k :: 0 <= k < |selector.ids| ==> selector.ids[k] in Ids(element))
  {
    AnyMissingSpec(selector.classes, Classes(element));
    AnyMissingSpec(selector.ids, Ids(element));
  }

  /** The universal selector matches every element. */
  lemma EmptySelectorMatchesAll(element: ElementData)
    ensures MatchSelector(element, EmptySelector)
  {
  }

  /** `find(|selector| match_selector(element, selector))`: the first matching selector. */
  function FirstMatch(element: ElementData, selectors: seq<SimpleSelector>): Option<SimpleSelector>
    decreases |selectors|
  {
    if selectors == [] then None
    else if MatchSelector(element, selectors[0]) then Some(selectors[0])
    else FirstMatch(element, selectors[1..])
  }

  /** `match_rule`: the rule with the specificity of its first matching selector, if any. */
  function MatchRule(element: ElementData, rule: Rule): Option<MatchedRule> {
    match FirstMatch(element, rule.selectors)
    case None => None
    case Some(selector) => Some((GetSpecificity(selector), rule))
  }

  lemma {:induction false} FirstMatchSpec(element: ElementData, selectors: seq<SimpleSelector>)
    ensures FirstMatch(element, selectors).None? <==> forall k :: 0 <= k < |selectors| ==> !MatchSelector(element, selectors[k])
    ensures FirstMatch(element, selectors).Some? ==>
              exists i :: 0 <= i < |selectors| && FirstMatch(element, selectors) == Some(selectors[i]) &&
                MatchSelector(element, selectors[i]) &&
                forall j :: 0 <= j < i ==> !MatchSelector(element, selectors[j])
    decreases |selectors|
  {
    if selectors != [] && !MatchSelector(element, selectors[0]) {
      FirstMatchSpec(element, selectors[1..]);
      if FirstMatch(element, selectors).Some? {
        var i :| 0 <= i < |selectors[1..]| && FirstMatch(element, selectors[1..]) == Some(selectors[1..][i]) &&
                 MatchSelector(element, selectors[1..][i]) &&
                 forall j :: 0 <= j < i ==> !MatchSelector(element, selectors[1..][j]);
        forall j | 0 <= j < i + 1 ensures !MatchSelector(element, selectors[j]) {
          if j > 0 {
            assert selectors[j] == selectors[1..][j - 1];
          }
        }
      } else {
        forall k | 0 <= k < |selectors| ensures !MatchSelector(element, selectors[k]) {
          if k > 0 {
            assert selectors[k] == selectors[1..][k - 1];
          }
        }
      }
    }
  }

  /**
   * `match_rule` succeeds exactly when some selector of the rule matches; the
   * specificity it reports is that of the FIRST matching selector in list
   * order, which need not be the highest.
   */
  lemma MatchRuleSpec(element: ElementData, rule: Rule)
    ensures MatchRule(element, rule).Some? <==> exists k :: 0 <= k < |rule.selectors| && MatchSelector(element, rule.selectors[k])
    ensures MatchRule(element, rule).Some? ==>
              MatchRule(element, rule).value.1 == rule &&
              exists i :: 0 <= i < |rule.selectors| && MatchSelector(element, rule.selectors[i]) &&
                MatchRule(element, rule).value.0 == GetSpecificity(rule.selectors[i]) &&
                forall j :: 0 <= j < i ==> !MatchSelector(element, rule.selectors[j])
  {
    FirstMatchSpec(element, rule.selectors);
  }

  /** `match_rules` over a list of rules: the matched ones, in list order. */
  function MatchRules(element: ElementData, rules: seq<Rule>): (r: seq<MatchedRule>)
    ensures |r| <= |rules|
    ensures forall k :: 0 <= k < |r| ==> r[k].1 in rules && MatchRule(element, r[k].1) == Some(r[k])
    decreases |rules|
  {
    if rules == [] then []
    else
      var last := rules[|rules| - 1];
      MatchRules(element, rules[..|rules| - 1]) + (match MatchRule(element, last) case Some(m) => [m] case None => [])
  }

  /** Every matching rule is kept, and matching two lists of rules one after the other keeps their order. */
  lemma {:induction false} MatchRulesAppend(element: ElementData, a: seq<Rule>, b: seq<Rule>)
    ensures MatchRules(element, a + b) == MatchRules(element, a) + MatchRules(element, b)
    decreases |b|
  {
    if b != [] {
      assert (a + b)[..|a + b| - 1] == a + b[..|b| - 1];
      MatchRulesAppend(element, a, b[..|b| - 1]);
    } else {
      assert a + b == a;
    }
  }

  lemma {:induction false} MatchRulesComplete(element: ElementData, rules: seq<Rule>)
    ensures forall k :: 0 <= k < |rules| && MatchRule(element, rules[k]).Some? ==>
              MatchRule(element, rules[k]).value in MatchRules(element, rules)
    decreases |rules|
  {
    if rules != [] {
      MatchRulesComplete(element, rules[..|rules| - 1]);
      forall k | 0 <= k < |rules| && MatchRule(element, rules[k]).Some?
        ensures MatchRule(element, rules[k]).value in MatchRules(element, rules)
      {
        if k < |rules| - 1 {
          assert rules[k] == rules[..|rules| - 1][k];
        }
      }
    }
  }

  /** The gathering loop of `specified_values`: the matched rules of each stylesheet, stylesheet by stylesheet. */
  function Gather(element: ElementData, sheets: seq<Stylesheet>): seq<MatchedRule>
    decreases |sheets|
  {
    if sheets == [] then []
    else Gather(element, sheets[..|sheets| - 1]) + MatchRules(element, sheets[|sheets| - 1].rules)
  }

  // ---------------------------------------------------------------------------
  // Sorting by specificity

  /** Specificities compare lexicographically, as Rust tuples do. */
  lemma SpecificityTotalOrder(a: Specificity, b: Specificity, c: Specificity)
    ensures SpecificityLe(a, a)
    ensures SpecificityLe(a, b) || SpecificityLe(b, a)
    ensures SpecificityLe(a, b) && SpecificityLe(b, a) ==> a == b
    ensures SpecificityLe(a, b) && SpecificityLe(b, c) ==> SpecificityLe(a, c)
  {
  }

  predicate Sorted(s: seq<MatchedRule>) {
    forall i, j :: 0 <= i < j < |s| ==> SpecificityLe(s[i].0, s[j].0)
  }

  /** Insert `x` after every element whose specificity is at most its own. */
  function Insert(sorted: seq<MatchedRule>, x: MatchedRule): (r: seq<MatchedRule>)
    ensures |r| == |sorted| + 1
    ensures multiset(r) == multiset(sorted) + multiset{x}
    decreases |sorted|
  {
    if sorted == [] || SpecificityLe(sorted[|sorted| - 1].0, x.0) then sorted + [x]
    else
      var init := sorted[..|sorted| - 1];
      assert sorted == init + [sorted[|sorted| - 1]];
      Insert(init, x) + [sorted[|sorted| - 1]]
  }

  /**
   * `rules.sort_by(|&(a, _), &(b, _)| a.cmp(&b))`: Rust's `sort_by` is stable,
   * and so is this insertion sort; a stable sort has only one possible result.
   */
  function SortBySpecificity(s: seq<MatchedRule>): (r: seq<MatchedRule>)
    ensures multiset(r) == multiset(s)
    decreases |s|
  {
    if s == [] then []
    else
      var init := s[..|s| - 1];
      assert s == init + [s[|s| - 1]];
      Insert(SortBySpecificity(init), s[|s| - 1])
  }

  lemma {:induction false} InsertSorted(sorted: seq<MatchedRule>, x: MatchedRule)
    requires Sorted(sorted)
    ensures Sorted(Insert(sorted, x))
    ensures forall k :: 0 <= k < |sorted| ==> sorted[k] in Insert(sorted, x)
    decreases |sorted|
  {
    if sorted != [] && !SpecificityLe(sorted[|sorted| - 1].0, x.0) {
      var init := sorted[..|sorted| - 1];
      var last := sorted[|sorted| - 1];
      InsertSorted(init, x);
      var r := Insert(init, x);
      assert multiset(r) == multiset(init) + multiset{x};
      forall i | 0 <= i < |r| ensures SpecificityLe(r[i].0, last.0) {
        assert r[i] in multiset(r);
        if r[i] == x {
        } else {
          assert r[i] in multiset(init);
          var k :| 0 <= k < |init| && init[k] == r[i];
          assert SpecificityLe(sorted[k].0, last.0);
        }
      }
    }
  }

  /** The sorted rules are ascending by specificity. */
  lemma {:induction false} SortSorted(s: seq<MatchedRule>)
    ensures Sorted(SortBySpecificity(s))
    decreases |s|
  {
    if s != [] {
      SortSorted(s[..|s| - 1]);
      InsertSorted(SortBySpecificity(s[..|s| - 1]), s[|s| - 1]);
    }
  }

  /** The rules of specificity `key`, in order. */
  function WithSpecificity(s: seq<MatchedRule>, key: Specificity): (r: seq<MatchedRule>)
    decreases |s|
  {
    if s == [] then []
    else WithSpecificity(s[..|s| - 1], key) + (if s[|s| - 1].0 == key then [s[|s| - 1]] else [])
  }

  lemma {:induction false} WithSpecificityAppend(a: seq<MatchedRule>, b: seq<MatchedRule>, key: Specificity)
    ensures WithSpecificity(a + b, key) == WithSpecificity(a, key) + WithSpecificity(b, key)
    decreases |b|
  {
    if b == [] {
      assert a + b == a;
    } else {
      assert (a + b)[..|a + b| - 1] == a + b[..|b| - 1];
      WithSpecificityAppend(a, b[..|b| - 1], key);
    }
  }

  lemma WithSpecificitySingle(y: MatchedRule, key: Specificity)
    ensures WithSpecificity([y], key) == if y.0 == key then [y] else []
  {
    assert [y][..0] == [];
  }

  lemma {:induction false} InsertStable(sorted: seq<MatchedRule>, x: MatchedRule, key: Specificity)
    ensures WithSpecificity(Insert(sorted, x), key) == WithSpecificity(sorted, key) + (if x.0 == key then [x] else [])
    decreases |sorted|
  {
    WithSpecificitySingle(x, key);
    if sorted == [] || SpecificityLe(sorted[|sorted| - 1].0, x.0) {
      WithSpecificityAppend(sorted, [x], key);
    } else {
      var init := sorted[..|sorted| - 1];
      var last := sorted[|sorted| - 1];
      assert sorted == init + [last];
      InsertStable(init, x, key);
      WithSpecificityAppend(Insert(init, x), [last], key);
      WithSpecificityAppend(init, [last], key);
      WithSpecificitySingle(last, key);
      assert last.0 != x.0;
      SwapAroundEmpty(WithSpecificity(init, key), WithSpecificity([last], key), WithSpecificity([x], key));
    }
  }

  lemma SwapAroundEmpty<T>(a: seq<T>, p: seq<T>, q: seq<T>)
    requires p == [] || q == []
    ensures a + p + q == a + q + p
  {
    if p == [] {
      assert a + p == a;
    } else {
      assert a + q == a;
    }
  }

  /**
   * The sort is stable: the rules of each specificity keep their gathered
   * order, so among equally specific rules the later stylesheet, and within
   * it the later rule, comes later.
   */
  lemma {:induction false} SortStable(s: seq<MatchedRule>, key: Specificity)
    ensures WithSpecificity(SortBySpecificity(s), key) == WithSpecificity(s, key)
    decreases |s|
  {
    if s != [] {
      SortStable(s[..|s| - 1], key);
      InsertStable(SortBySpecificity(s[..|s| - 1]), s[|s| - 1], key);
    }
  }

  // ---------------------------------------------------------------------------
  // The cascade

  /** `style.insert(prop, value)` for each declaration in order. */
  function InsertDecls(style: StyleMap, decls: seq<PropValue>): StyleMap
    decreases |decls|
  {
    if decls == [] then style
    else
      var last := decls[|decls| - 1];
      InsertDecls(style, decls[..|decls| - 1])[last.prop := last.value]
  }

  /** The declarations of the sorted rules inserted one rule after the other. */
  function CascadeRules(rules: seq<MatchedRule>): StyleMap
    decreases |rules|
  {
    if rules == [] then map[]
    else InsertDecls(CascadeRules(rules[..|rules| - 1]), rules[|rules| - 1].1.propValues)
  }

  /** `specified_values`: the specified values of an element under the given stylesheets. */
  function Specified(element: ElementData, sheets: seq<Stylesheet>): StyleMap {
    CascadeRules(SortBySpecificity(Gather(element, sheets)))
  }

  predicate Declares(decls: seq<PropValue>, prop: string) {
    exists k :: 0 <= k < |decls| && decls[k].prop == prop
  }

  /** The value of the last declaration of `prop`. */
  function LastValue(decls: seq<PropValue>, prop: string): CssValue
    requires Declares(decls, prop)
    decreases |decls|
  {
    var last := decls[|decls| - 1];
    if last.prop == prop then last.value
    else
      assert Declares(decls[..|decls| - 1], prop) by {
        var k :| 0 <= k < |decls| && decls[k].prop == prop;
        assert decls[..|decls| - 1][k].prop == prop;
      }
      LastValue(decls[..|decls| - 1], prop)
  }

  /** After the inserts, `prop` holds its last declared value, or its old value if it is not declared. */
  lemma {:induction false} InsertDeclsSpec(style: StyleMap, decls: seq<PropValue>, prop: string)
    ensures prop in InsertDecls(style, decls) <==> prop in style || Declares(decls, prop)
    ensures Declares(decls, prop) ==> InsertDecls(style, decls)[prop] == LastValue(decls, prop)
    ensures !Declares(decls, prop) && prop in style ==> InsertDecls(style, decls)[prop] == style[prop]
    decreases |decls|
  {
    if decls != [] {
      var init := decls[..|decls| - 1];
      InsertDeclsSpec(style, init, prop);
      if Declares(init, prop) {
        var k :| 0 <= k < |init| && init[k].prop == prop;
        assert decls[k].prop == prop;
      }
      if Declares(decls, prop) && decls[|decls| - 1].prop != prop {
        var k :| 0 <= k < |decls| && decls[k].prop == prop;
        assert init[k].prop == prop;
      }
    }
  }

  /** The index of the last rule that declares `prop`, or -1 when none does. */
  function LastDeclaring(rules: seq<MatchedRule>, prop: string): (i: int)
    ensures -1 <= i < |rules|
    ensures i >= 0 ==> Declares(rules[i].1.propValues, prop)
    ensures forall j :: i < j < |rules| ==> !Declares(rules[j].1.propValues, prop)
    decreases |rules|
  {
    if rules == [] then -1
    else if Declares(rules[|rules| - 1].1.propValues, prop) then |rules| - 1
    else LastDeclaring(rules[..|rules| - 1], prop)
  }

  /**
   * The cascade declares exactly the properties some rule declares, and each
   * takes the value of its last declaration in the LAST rule that declares it.
   */
  lemma {:induction false} CascadeLastRuleWins(rules: seq<MatchedRule>, prop: string)
    ensures prop in CascadeRules(rules) <==> LastDeclaring(rules, prop) >= 0
    ensures prop in CascadeRules(rules) ==>
              CascadeRules(rules)[prop] == LastValue(rules[LastDeclaring(rules, prop)].1.propValues, prop)
    decreases |rules|
  {
    if rules != [] {
      var init := rules[..|rules| - 1];
      CascadeLastRuleWins(init, prop);
      InsertDeclsSpec(CascadeRules(init), rules[|rules| - 1].1.propValues, prop);
      var i := LastDeclaring(init, prop);
      if i >= 0 {
        assert rules[i] == init[i];
      }
    }
  }

  /**
   * On rules sorted by specificity the winning rule has the highest
   * specificity among the rules that declare the property, and of those
   * equally specific it is the last.
   */
  lemma CascadeHighestWins(rules: seq<MatchedRule>, prop: string, j: nat)
    requires Sorted(rules)
    requires j < |rules| && Declares(rules[j].1.propValues, prop)
    ensures LastDeclaring(rules, prop) >= j
    ensures SpecificityLe(rules[j].0, rules[LastDeclaring(rules, prop)].0)
  {
  }

  /** Sorting neither adds nor drops a matched rule. */
  lemma SortKeepsRules(s: seq<MatchedRule>, m: MatchedRule)
    ensures m in SortBySpecificity(s) <==> m in s
  {
    var sorted := SortBySpecificity(s);
    assert multiset(sorted) == multiset(s);
    assert m in sorted <==> m in multiset(sorted);
    assert m in s <==> m in multiset(s);
  }

  /** The specified values declare exactly the properties that some matched rule declares. */
  lemma SpecifiedKeys(element: ElementData, sheets: seq<Stylesheet>, prop: string)
    ensures prop in Specified(element, sheets) <==>
              exists m :: m in Gather(element, sheets) && Declares(m.1.propValues, prop)
  {
    var gathered := Gather(element, sheets);
    var sorted := SortBySpecificity(gathered);
    CascadeLastRuleWins(sorted, prop);
    var i := LastDeclaring(sorted, prop);
    if i >= 0 {
      SortKeepsRules(gathered, sorted[i]);
    }
    if exists m :: m in gathered && Declares(m.1.propValues, prop) {
      var m :| m in gathered && Declares(m.1.propValues, prop);
      SortKeepsRules(gathered, m);
      var j :| 0 <= j < |sorted| && sorted[j] == m;
    }
  }

  /**
   * The winner of each property has the highest specificity among the
   * matched rules that declare it.
   */
  lemma SpecifiedHighestWins(element: ElementData, sheets: seq<Stylesheet>, prop: string)
    requires prop in Specified(element, sheets)
    ensures exists w :: w in Gather(element, sheets) && Declares(w.1.propValues, prop) &&
              Specified(element, sheets)[prop] == LastValue(w.1.propValues, prop) &&
              forall m :: m in Gather(element, sheets) && Declares(m.1.propValues, prop) ==> SpecificityLe(m.0, w.0)
  {
    var gathered := Gather(element, sheets);
    var sorted := SortBySpecificity(gathered);
    SortSorted(gathered);
    CascadeLastRuleWins(sorted, prop);
    var w := sorted[LastDeclaring(sorted, prop)];
    SortKeepsRules(gathered, w);
    forall m | m in gathered && Declares(m.1.propValues, prop) ensures SpecificityLe(m.0, w.0) {
      SortKeepsRules(gathered, m);
      var j :| 0 <= j < |sorted| && sorted[j] == m;
      CascadeHighestWins(sorted, prop, j);
    }
  }

  /** `specified_values`, as the source computes it. */
  method SpecifiedValues(element: ElementData, sheets: seq<Stylesheet>) returns (style: StyleMap)
    ensures style == Specified(element, sheets)
  {
    var rules := GatherEach(element, sheets);
    var sorted := SortBySpecificity(rules);
    style := CascadeEach(sorted);
  }

  /** The second loop of `specified_values`: the declarations of the sorted rules, rule after rule. */
  method CascadeEach(rules: seq<MatchedRule>) returns (style: StyleMap)
    ensures style == CascadeRules(rules)
  {
    style := map[];
    for i := 0 to |rules|
      invariant style == CascadeRules(rules[..i])
    {
      assert rules[..i + 1][..i] == rules[..i];
      style := InsertEach(style, rules[i].1.propValues);
    }
    assert rules[..|rules|] == rules;
  }

  /** The first loop of `specified_values`: appends the matched rules of each stylesheet in turn. */
  method GatherEach(element: ElementData, sheets: seq<Stylesheet>) returns (rules: seq<MatchedRule>)
    ensures rules == Gather(element, sheets)
  {
    rules := [];
    for i := 0 to |sheets|
      invariant rules == Gather(element, sheets[..i])
    {
      assert sheets[..i + 1][..i] == sheets[..i];
      rules := rules + MatchRules(element, sheets[i].rules);
    }
    assert sheets[..|sheets|] == sheets;
  }

  /** The inner loop of `specified_values`: inserts the declarations of one rule in order. */
  method InsertEach(style: StyleMap, decls: seq<PropValue>) returns (out: StyleMap)
    ensures out == InsertDecls(style, decls)
  {
    out := style;
    for j := 0 to |decls|
      invariant out == InsertDecls(style, decls[..j])
    {
      assert decls[..j + 1][..j] == decls[..j];
      out := out[decls[j].prop := decls[j].value];
    }
    assert decls[..|decls|] == decls;
  }

  // ---------------------------------------------------------------------------
  // The style tree

  /** The specified values of a node: an element's, and none for text and comments. */
  function NodeStyle(node: Node, sheets: seq<Stylesheet>): (style: StyleMap)
    ensures !node.nodeType.Element? ==> style == map[]
  {
    match node.nodeType
    case Element(data) => Specified(data, sheets)
    case _ => map[]
  }

  /** `style_tree`: the styled node of `root` and, recursively, of its children. */
  function StyleTree(root: Node, sheets: seq<Stylesheet>): StyledNode
    decreases root
  {
    StyledNode(
      root,
      seq(|root.children|, i requires 0 <= i < |root.children| => StyleTree(root.children[i], sheets)),
      NodeStyle(root, sheets))
  }

  /** The style tree has the document tree's shape, node for node. */
  predicate Mirrors(styled: StyledNode, node: Node)
    decreases node
  {
    && styled.node == node
    && |styled.children| == |node.children|
    && forall i :: 0 <= i < |node.children| ==> Mirrors(styled.children[i], node.children[i])
  }

  /**
   * `style_tree` mirrors the document: each styled node refers to its
   * document node and has its children in the same order, and its style is
   * the element's specified values, or empty for text and comments.
   */
  lemma {:induction false} StyleTreeMirrors(root: Node, sheets: seq<Stylesheet>)
    ensures Mirrors(StyleTree(root, sheets), root)
    ensures StyleTree(root, sheets).style == NodeStyle(root, sheets)
    decreases root
  {
    forall i | 0 <= i < |root.children|
      ensures Mirrors(StyleTree(root, sheets).children[i], root.children[i])
    {
      StyleTreeMirrors(root.children[i], sheets);
    }
  }

  /** `get_style_tree`: the style tree of a document under its own stylesheets. */
  function GetStyleTree(document: Document): (r: StyledNode)
    ensures Mirrors(r, document.root)
  {
    StyleTreeMirrors(document.root, document.stylesheets);
    StyleTree(document.root, document.stylesheets)
  }

  // ---------------------------------------------------------------------------
  // Reading the styled node

  /**
   * `StyledNode::get_val`, used by layout and painting; its definition is not
   * part of this model, and here it is the lookup in the node's style map.
   */
  function GetVal(styled: StyledNode, name: string): (r: Option<CssValue>)
    ensures r.Some? <==> name in styled.style
    ensures r.Some? ==> r.value == styled.style[name]
  {
    if name in styled.style then Some(styled.style[name]) else None
  }

  datatype Display = Inline | Block | DisplayNone

  /**
   * `StyledNode::get_display`; its definition is not part of this model. Here
   * `display` given as the word "block" or "none" (as the CSS parser yields it,
   * an unknown value, or as a keyword) selects Block or DisplayNone, and
   * anything else, or no `display` at all, means Inline.
   */
  function GetDisplay(styled: StyledNode): (d: Display)
    ensures GetVal(styled, "display").None? ==> d == Inline
  {
    match GetVal(styled, "display")
    case Some(Keyword(s)) => DisplayOf(s)
    case Some(Unknown(s)) => DisplayOf(s)
    case _ => Inline
  }

  function DisplayOf(word: string): Display {
    if word == "block" then Block else if word == "none" then DisplayNone else Inline
  }
}
