/**
 * Properties of the CSS grammar of src/css.rs, proved about the grammar
 * functions of module `Css` (and so, through the methods' postconditions,
 * about the cursor-based `Css.Parser`).
 */
module CssProperties {
  import opened Common
  import opened Css

  /** `parse_identifier` fails at the end of input or on a leading digit or '-'; otherwise it takes the maximal run of `[A-Za-z0-9-]`. */
  lemma IdentifierSpec(input: string, pos: nat)
    requires pos <= |input|
    ensures IdentifierAt(input, pos).Err? <==> pos == |input| || IsDigit(input[pos]) || input[pos] == '-'
    ensures var r := IdentifierAt(input, pos);
            r.Ok? ==>
              (forall k :: 0 <= k < |r.value.0| ==> IsIdentChar(r.value.0[k])) &&
              (r.value.1 == |input| || !IsIdentChar(input[r.value.1]))
  {
  }

  /** Exactly six hexadecimal digits at `pos`, not followed by a seventh. */
  predicate SixHexDigits(input: string, pos: nat) {
    pos + 6 <= |input| &&
    (forall k :: pos <= k < pos + 6 ==> IsHexDigit(input[k])) &&
    (pos + 6 == |input| || !IsHexDigit(input[pos + 6]))
  }

  function Channel(input: string, k: nat): Byte
    requires k + 1 < |input| && IsHexDigit(input[k]) && IsHexDigit(input[k + 1])
  {
    16 * HexDigitValue(input[k]) + HexDigitValue(input[k + 1])
  }

  /**
   * `parse_hex_color` accepts exactly six hexadecimal digits; red, green and
   * blue come from the digit pairs 0-1, 2-3 and 4-5, and alpha is always 255.
   */
  lemma {:induction false} HexColorSpec(input: string, pos: nat)
    requires pos <= |input|
    ensures HexColorAt(input, pos).Ok? <==> SixHexDigits(input, pos)
    ensures SixHexDigits(input, pos) ==>
              HexColorAt(input, pos).value ==
                (Color(CssColor(Channel(input, pos), Channel(input, pos + 2), Channel(input, pos + 4), 255)), pos + 6)
  {
    if SixHexDigits(input, pos) {
      SpanEndUnique(input, pos, IsHexDigit, pos + 6);
      ChannelOf(input, pos, 0);
      ChannelOf(input, pos, 2);
      ChannelOf(input, pos, 4);
    }
  }

  /** The digit pair at offset `k` of the six digits is parsed as `Channel`. */
  lemma ChannelOf(input: string, pos: nat, k: nat)
    requires SixHexDigits(input, pos) && k <= 4
    ensures ParseSingleChannel(input[pos..pos + 6][k..k + 2]) == Channel(input, pos + k)
  {
    var pair := input[pos..pos + 6][k..k + 2];
    assert pair[0] == input[pos + k] && pair[1] == input[pos + k + 1];
    assert |pair| == 2;
  }

  /**
   * `parse_value` dispatches on its first character: a digit gives a length
   * whose unit is Em for "em", Rem for "rem" and Px for any other text up to
   * ';'; '#' gives a colour or fails; anything else gives Unknown holding the
   * text up to the next ';'. It never yields a Keyword.
   */
  lemma ValueDispatch(input: string, pos: nat)
    requires pos <= |input|
    ensures ValueAt(input, pos).Err? <==> pos == |input| || (input[pos] == '#' && HexColorAt(input, pos + 1).Err?)
    ensures var r := ValueAt(input, pos);
            r.Ok? ==>
              && (r.value.0.Length? <==> IsDigit(input[pos]))
              && (r.value.0.Color? <==> input[pos] == '#')
              && !r.value.0.Keyword?
    ensures var r := ValueAt(input, pos);
            r.Ok? && r.value.0.Unknown? ==>
              && r.value.0.text == input[pos..r.value.1]
              && (forall k :: pos <= k < r.value.1 ==> input[k] != ';')
              && (r.value.1 == |input| || input[r.value.1] == ';')
    ensures var r := ValueAt(input, pos);
            r.Ok? && r.value.0.Length? ==>
              var unitStart := SpanEnd(input, pos, IsNumberChar);
              && unitStart <= r.value.1
              && (forall k :: unitStart <= k < r.value.1 ==> input[k] != ';')
              && (r.value.1 == |input| || input[r.value.1] == ';')
              && (r.value.0.unit == Em <==> input[unitStart..r.value.1] == "em")
              && (r.value.0.unit == Rem <==> input[unitStart..r.value.1] == "rem")
  {
  }

  /** Number of occurrences of `c` in `input[lo..hi]`. */
  function Occurrences(input: string, lo: nat, hi: nat, c: char): nat
    requires lo <= hi <= |input|
    decreases hi - lo
  {
    if lo == hi then 0 else (if input[lo] == c then 1 else 0) + Occurrences(input, lo + 1, hi, c)
  }

  lemma {:induction false} OccurrencesSplit(input: string, lo: nat, mid: nat, hi: nat, c: char)
    requires lo <= mid <= hi <= |input|
    ensures Occurrences(input, lo, hi, c) == Occurrences(input, lo, mid, c) + Occurrences(input, mid, hi, c)
    decreases mid - lo
  {
    if lo < mid {
      OccurrencesSplit(input, lo + 1, mid, hi, c);
    }
  }

  lemma {:induction false} OccurrencesNone(input: string, lo: nat, hi: nat, c: char)
    requires lo <= hi <= |input|
    requires forall k :: lo <= k < hi ==> input[k] != c
    ensures Occurrences(input, lo, hi, c) == 0
    decreases hi - lo
  {
    if lo < hi {
      OccurrencesNone(input, lo + 1, hi, c);
    }
  }

  /** Facts about one pass of the selector loop, by the character it starts at. */
  lemma SelectorPartCounts(input: string, pos: nat, sel: SimpleSelector)
    requires pos < |input| && !IsSelectorStop(input[pos])
    requires SelectorPartAt(input, pos, sel).Ok?
    ensures var part := SelectorPartAt(input, pos, sel).value;
            && sel.ids <= part.0.ids && sel.classes <= part.0.classes
            && |part.0.ids| == |sel.ids| + Occurrences(input, pos, part.1, '#')
            && |part.0.classes| == |sel.classes| + Occurrences(input, pos, part.1, '.')
            && (part.0.tag == sel.tag || (IsLower(input[pos]) && part.0.tag.Some?))
  {
    var part := SelectorPartAt(input, pos, sel).value;
    if input[pos] == '#' || input[pos] == '.' {
      var e := part.1;
      assert e == SpanEnd(input, pos + 1, IsIdentChar);
      OccurrencesNone(input, pos + 1, e, '#');
      OccurrencesNone(input, pos + 1, e, '.');
    } else if input[pos] == '*' {
    } else {
      var e := part.1;
      assert e == SpanEnd(input, pos, IsIdentChar);
      OccurrencesNone(input, pos, e, '#');
      OccurrencesNone(input, pos, e, '.');
    }
  }

  /** A simple selector stops, without consuming it, at '{', ',' or whitespace. */
  lemma SimpleSelectorStops(input: string, pos: nat)
    requires pos <= |input|
    ensures var r := SimpleSelectorLoop(input, pos, EmptySelector);
            r.Ok? ==> r.value.1 < |input| && (input[r.value.1] == '{' || input[r.value.1] == ',' || IsWhitespace(input[r.value.1]))
    ensures pos < |input| && !IsSelectorStop(input[pos]) && input[pos] !in "#.*" && !IsLower(input[pos]) ==>
              SimpleSelectorLoop(input, pos, EmptySelector) == Err(UnsupportedSelectorChar(input[pos]))
  {
  }

  /** Every colour in a list of declarations is opaque. */
  predicate OpaqueDecls(decls: seq<PropValue>) {
    forall k :: 0 <= k < |decls| && decls[k].value.Color? ==> decls[k].value.color.a == 255
  }

  predicate OpaqueRules(rules: seq<Rule>) {
    forall k :: 0 <= k < |rules| ==> OpaqueDecls(rules[k].propValues)
  }

  lemma {:induction false} PropValuesOpaque(input: string, pos: nat, acc: seq<PropValue>)
    requires pos <= |input| && OpaqueDecls(acc)
    ensures PropValuesLoop(input, pos, acc).Ok? ==> OpaqueDecls(PropValuesLoop(input, pos, acc).value.0)
    decreases |input| - pos
  {
    var p := SpanEnd(input, pos, IsWhitespace);
    if PropValuesLoop(input, pos, acc).Ok? && input[p] != '}' {
      var decl := PropValueAt(input, p).value;
      DeclOpaque(input, p);
      assert OpaqueDecls(acc + [decl.0]);
      PropValuesOpaque(input, decl.1, acc + [decl.0]);
    }
  }

  lemma DeclOpaque(input: string, pos: nat)
    requires pos <= |input| && PropValueAt(input, pos).Ok?
    ensures var v := PropValueAt(input, pos).value.0.value; v.Color? ==> v.color.a == 255
  {
    var prop := IdentifierAt(input, pos).value;
    var afterColon := ExpectAt(input, prop.1, ':').value;
    ValueOpaque(input, SpanEnd(input, afterColon, IsWhitespace));
  }

  lemma ValueOpaque(input: string, pos: nat)
    requires pos <= |input| && ValueAt(input, pos).Ok?
    ensures var v := ValueAt(input, pos).value.0; v.Color? ==> v.color.a == 255
  {
  }

  lemma RuleOpaque(input: string, pos: nat)
    requires pos <= |input|
    requires RuleAt(input, pos).Ok?
    ensures OpaqueDecls(RuleAt(input, pos).value.0.propValues)
  {
    var selectors := SelectorsLoop(input, pos, []).value;
    var open := ExpectAt(input, selectors.1, '{').value;
    PropValuesOpaque(input, open, []);
  }

  lemma {:induction false} RulesOpaque(input: string, pos: nat, acc: seq<Rule>)
    requires pos <= |input| && OpaqueRules(acc)
    requires RulesLoop(input, pos, acc).Ok?
    ensures OpaqueRules(RulesLoop(input, pos, acc).value.0)
    decreases |input| - pos
  {
    var p := SpanEnd(input, pos, IsWhitespace);
    if p < |input| {
      var rule := RuleAt(input, p).value;
      RuleOpaque(input, p);
      assert OpaqueRules(acc + [rule.0]);
      RulesOpaque(input, rule.1, acc + [rule.0]);
    }
  }

  /**
   * Every colour the stylesheet parser produces has alpha 255: colours only
   * come from six-digit hex notation.
   */
  lemma StylesheetOpaque(source: string)
    requires StylesheetOf(source).Ok?
    ensures OpaqueRules(StylesheetOf(source).value.rules)
  {
    RulesOpaque(source, 0, []);
  }

  // ---------------------------------------------------------------------------
  // The loops in source order
  //
  // Each loop of the parser carries what it has collected so far. The
  // functions below describe the same text head first, without an accumulator:
  // the first item is the one written first. The lemmas show that each loop
  // returns what it started with followed by exactly that list.

  /** One part of a simple selector as written: `#id`, `.class`, `*` or a tag name. */
  datatype SelectorPart = IdPart(name: string) | ClassPart(name: string) | StarPart | TagPart(name: string)

  /** The part written at `pos`. */
  function PartAt(input: string, pos: nat): (r: Result<(SelectorPart, nat)>)
    requires pos < |input|
    ensures r.Ok? ==> pos < r.value.1 <= |input|
    ensures r.Ok? && r.value.0.IdPart? ==> input[pos] == '#' && IdentifierAt(input, pos + 1) == Ok((r.value.0.name, r.value.1))
    ensures r.Ok? && r.value.0.ClassPart? ==> input[pos] == '.' && IdentifierAt(input, pos + 1) == Ok((r.value.0.name, r.value.1))
    ensures r.Ok? && r.value.0.TagPart? ==> IsLower(input[pos]) && IdentifierAt(input, pos) == Ok((r.value.0.name, r.value.1))
  {
    var c := input[pos];
    if c == '#' then
      var id :- IdentifierAt(input, pos + 1);
      Ok((IdPart(id.0), id.1))
    else if c == '.' then
      var className :- IdentifierAt(input, pos + 1);
      Ok((ClassPart(className.0), className.1))
    else if c == '*' then Ok((StarPart, pos + 1))
    else if IsLower(c) then
      var tag :- IdentifierAt(input, pos);
      Ok((TagPart(tag.0), tag.1))
    else Err(UnsupportedSelectorChar(c))
  }

  /** The parts of a simple selector from `pos` up to the character that ends it, first part first. */
  function PartsAt(input: string, pos: nat): (r: Result<(seq<SelectorPart>, nat)>)
    requires pos <= |input|
    ensures r.Ok? ==> pos <= r.value.1 < |input| && IsSelectorStop(input[r.value.1])
    decreases |input| - pos
  {
    if pos == |input| then Err(UnexpectedEof)
    else if IsSelectorStop(input[pos]) then Ok(([], pos))
    else
      var part :- PartAt(input, pos);
      var rest :- PartsAt(input, part.1);
      Ok(([part.0] + rest.0, rest.1))
  }

  /** The names of the id parts, in the order written. */
  function IdsOf(parts: seq<SelectorPart>): seq<string> {
    if parts == [] then [] else (if parts[0].IdPart? then [parts[0].name] else []) + IdsOf(parts[1..])
  }

  /** The names of the class parts, in the order written. */
  function ClassesOf(parts: seq<SelectorPart>): seq<string> {
    if parts == [] then [] else (if parts[0].ClassPart? then [parts[0].name] else []) + ClassesOf(parts[1..])
  }

  /** The tag after reading `parts` from left to right, starting from `tag`: each tag part replaces it. */
  function LastTag(parts: seq<SelectorPart>, tag: Option<string>): Option<string> {
    if parts == [] then tag else LastTag(parts[1..], if parts[0].TagPart? then Some(parts[0].name) else tag)
  }

  /** When the `k`-th part is the last tag part, its name is the tag. */
  lemma {:induction false} LastTagWins(parts: seq<SelectorPart>, tag: Option<string>, k: nat)
    requires k < |parts| && parts[k].TagPart?
    requires forall j :: k < j < |parts| ==> !parts[j].TagPart?
    ensures LastTag(parts, tag) == Some(parts[k].name)
    decreases |parts|
  {
    var next := if parts[0].TagPart? then Some(parts[0].name) else tag;
    if k == 0 {
      LastTagNone(parts[1..], next);
    } else {
      LastTagWins(parts[1..], next, k - 1);
    }
  }

  /** Without a tag part the tag stays as it was. */
  lemma {:induction false} LastTagNone(parts: seq<SelectorPart>, tag: Option<string>)
    requires forall j :: 0 <= j < |parts| ==> !parts[j].TagPart?
    ensures LastTag(parts, tag) == tag
    decreases |parts|
  {
    if parts != [] {
      LastTagNone(parts[1..], tag);
    }
  }

  lemma {:induction false} ConsParts(p: SelectorPart, rest: seq<SelectorPart>, sel: SimpleSelector)
    ensures sel.ids + IdsOf([p] + rest) == (sel.ids + (if p.IdPart? then [p.name] else [])) + IdsOf(rest)
    ensures sel.classes + ClassesOf([p] + rest) == (sel.classes + (if p.ClassPart? then [p.name] else [])) + ClassesOf(rest)
    ensures LastTag([p] + rest, sel.tag) == LastTag(rest, if p.TagPart? then Some(p.name) else sel.tag)
  {
    assert ([p] + rest)[1..] == rest;
    AppendAssoc(sel.ids, if p.IdPart? then [p.name] else [], IdsOf(rest));
    AppendAssoc(sel.classes, if p.ClassPart? then [p.name] else [], ClassesOf(rest));
  }

  /**
   * `parse_simple_selector` from `sel`: each `#x` appends x to the ids and each
   * `.x` appends x to the classes, in the order written; each tag name replaces
   * the tag, so the last one written wins; it stops where `PartsAt` stops and
   * fails where it fails.
   */
  lemma {:induction false} SimpleSelectorParts(input: string, pos: nat, sel: SimpleSelector)
    requires pos <= |input|
    ensures SimpleSelectorLoop(input, pos, sel) ==
              match PartsAt(input, pos)
              case Ok(v) => Ok((SimpleSelector(sel.ids + IdsOf(v.0), sel.classes + ClassesOf(v.0), LastTag(v.0, sel.tag)), v.1))
              case Err(e) => Err(e)
    decreases |input| - pos
  {
    if pos == |input| {
    } else if IsSelectorStop(input[pos]) {
      assert sel.ids + [] == sel.ids && sel.classes + [] == sel.classes;
    } else if PartAt(input, pos).Ok? {
      var part := PartAt(input, pos).value;
      var next := SelectorPartAt(input, pos, sel).value;
      assert next.1 == part.1;
      assert next.0 == SimpleSelector(sel.ids + (if part.0.IdPart? then [part.0.name] else []),
                                      sel.classes + (if part.0.ClassPart? then [part.0.name] else []),
                                      if part.0.TagPart? then Some(part.0.name) else sel.tag);
      SimpleSelectorParts(input, part.1, next.0);
      if PartsAt(input, part.1).Ok? {
        ConsParts(part.0, PartsAt(input, part.1).value.0, sel);
      }
    }
  }

  /** The declarations from `pos` up to the closing '}', first declaration first. */
  function DeclListAt(input: string, pos: nat): (r: Result<(seq<PropValue>, nat)>)
    requires pos <= |input|
    ensures r.Ok? ==> pos <= r.value.1 < |input| && input[r.value.1] == '}'
    decreases |input| - pos
  {
    var p := SpanEnd(input, pos, IsWhitespace);
    if p == |input| then Err(UnexpectedEof)
    else if input[p] == '}' then Ok(([], p))
    else
      var decl :- PropValueAt(input, p);
      var rest :- DeclListAt(input, decl.1);
      Ok(([decl.0] + rest.0, rest.1))
  }

  /** The declaration loop returns what it had collected followed by the declarations in source order. */
  lemma {:induction false} PropValuesInOrder(input: string, pos: nat, acc: seq<PropValue>)
    requires pos <= |input|
    ensures PropValuesLoop(input, pos, acc) ==
              match DeclListAt(input, pos)
              case Ok(v) => Ok((acc + v.0, v.1))
              case Err(e) => Err(e)
    decreases |input| - pos
  {
    var p := SpanEnd(input, pos, IsWhitespace);
    if p == |input| {
    } else if input[p] == '}' {
      assert acc + [] == acc;
    } else if PropValueAt(input, p).Ok? {
      var decl := PropValueAt(input, p).value;
      PropValuesInOrder(input, decl.1, acc + [decl.0]);
      if DeclListAt(input, decl.1).Ok? {
        AppendAssoc(acc, [decl.0], DeclListAt(input, decl.1).value.0);
      }
    }
  }

  /** The simple selectors from `pos` up to the '{', first selector first, each starting past an optional ','. */
  function SelectorListAt(input: string, pos: nat): (r: Result<(seq<SimpleSelector>, nat)>)
    requires pos <= |input|
    ensures r.Ok? ==> pos <= r.value.1 < |input| && input[r.value.1] == '{'
    decreases |input| - pos
  {
    var p := SpanEnd(input, pos, IsWhitespace);
    if p == |input| then Err(UnexpectedEof)
    else if input[p] == '{' then Ok(([], p))
    else
      var sel :- SimpleSelectorLoop(input, SelectorStart(input, p), EmptySelector);
      var rest :- SelectorListAt(input, sel.1);
      Ok(([sel.0] + rest.0, rest.1))
  }

  /** The selector loop returns what it had collected followed by the simple selectors in source order. */
  lemma {:induction false} SelectorsInOrder(input: string, pos: nat, acc: seq<SimpleSelector>)
    requires pos <= |input|
    ensures SelectorsLoop(input, pos, acc) ==
              match SelectorListAt(input, pos)
              case Ok(v) => Ok((acc + v.0, v.1))
              case Err(e) => Err(e)
    decreases |input| - pos
  {
    var p := SpanEnd(input, pos, IsWhitespace);
    if p == |input| {
    } else if input[p] == '{' {
      assert acc + [] == acc;
    } else if SimpleSelectorLoop(input, SelectorStart(input, p), EmptySelector).Ok? {
      var sel := SimpleSelectorLoop(input, SelectorStart(input, p), EmptySelector).value;
      SelectorsInOrder(input, sel.1, acc + [sel.0]);
      if SelectorListAt(input, sel.1).Ok? {
        AppendAssoc(acc, [sel.0], SelectorListAt(input, sel.1).value.0);
      }
    }
  }

  /** The rules from `pos` to the end of the input, first rule first. */
  function RuleListAt(input: string, pos: nat): (r: Result<(seq<Rule>, nat)>)
    requires pos <= |input|
    ensures r.Ok? ==> r.value.1 == |input|
    decreases |input| - pos
  {
    var p := SpanEnd(input, pos, IsWhitespace);
    if p == |input| then Ok(([], p))
    else
      var rule :- RuleAt(input, p);
      var rest :- RuleListAt(input, rule.1);
      Ok(([rule.0] + rest.0, rest.1))
  }

  /** The stylesheet loop returns what it had collected followed by the rules in source order. */
  lemma {:induction false} RulesInOrder(input: string, pos: nat, acc: seq<Rule>)
    requires pos <= |input|
    ensures RulesLoop(input, pos, acc) ==
              match RuleListAt(input, pos)
              case Ok(v) => Ok((acc + v.0, v.1))
              case Err(e) => Err(e)
    decreases |input| - pos
  {
    var p := SpanEnd(input, pos, IsWhitespace);
    if p == |input| {
      assert acc + [] == acc;
    } else if RuleAt(input, p).Ok? {
      var rule := RuleAt(input, p).value;
      RulesInOrder(input, rule.1, acc + [rule.0]);
      if RuleListAt(input, rule.1).Ok? {
        AppendAssoc(acc, [rule.0], RuleListAt(input, rule.1).value.0);
      }
    }
  }

  // ---------------------------------------------------------------------------
  // Text after a declaration block

  /** A run that ends before the end of the input ends at the same place when more text follows. */
  lemma {:induction false} SpanEndExtend(input: string, tail: string, pos: nat, test: char -> bool)
    requires pos <= |input| && SpanEnd(input, pos, test) < |input|
    ensures SpanEnd(input + tail, pos, test) == SpanEnd(input, pos, test)
  {
    var e := SpanEnd(input, pos, test);
    var ext := input + tail;
    assert forall k :: pos <= k <= e ==> ext[k] == input[k];
    SpanEndUnique(ext, pos, test, e);
  }

  lemma {:induction false} IdentifierExtend(input: string, tail: string, pos: nat)
    requires pos <= |input| && IdentifierAt(input, pos).Ok? && IdentifierAt(input, pos).value.1 < |input|
    ensures IdentifierAt(input + tail, pos) == IdentifierAt(input, pos)
  {
    var e := IdentifierAt(input, pos).value.1;
    SpanEndExtend(input, tail, pos, IsIdentChar);
    assert (input + tail)[pos..e] == input[pos..e];
  }

  lemma {:induction false} ExpectExtend(input: string, tail: string, pos: nat, c: char)
    requires pos < |input|
    ensures ExpectAt(input + tail, pos, c) == ExpectAt(input, pos, c)
  {
    assert (input + tail)[pos] == input[pos];
  }

  lemma {:induction false} ValueExtend(input: string, tail: string, pos: nat)
    requires pos <= |input| && ValueAt(input, pos).Ok? && ValueAt(input, pos).value.1 < |input|
    ensures ValueAt(input + tail, pos) == ValueAt(input, pos)
  {
    assert (input + tail)[pos] == input[pos];
    if IsDigit(input[pos]) {
      LengthExtend(input, tail, pos);
    } else if input[pos] == '#' {
      HexColorExtend(input, tail, pos + 1);
    } else {
      var e := SpanEnd(input, pos, NotSemicolon);
      SpanEndExtend(input, tail, pos, NotSemicolon);
      assert (input + tail)[pos..e] == input[pos..e];
    }
  }

  lemma {:induction false} LengthExtend(input: string, tail: string, pos: nat)
    requires pos <= |input| && ValueLengthAt(input, pos).1 < |input|
    ensures ValueLengthAt(input + tail, pos) == ValueLengthAt(input, pos)
  {
    var ext := input + tail;
    var numberEnd := SpanEnd(input, pos, IsNumberChar);
    var unitEnd := SpanEnd(input, numberEnd, NotSemicolon);
    SpanEndExtend(input, tail, pos, IsNumberChar);
    SpanEndExtend(input, tail, numberEnd, NotSemicolon);
    assert ext[pos..numberEnd] == input[pos..numberEnd];
    assert ext[numberEnd..unitEnd] == input[numberEnd..unitEnd];
  }

  lemma {:induction false} HexColorExtend(input: string, tail: string, pos: nat)
    requires pos <= |input| && HexColorAt(input, pos).Ok? && HexColorAt(input, pos).value.1 < |input|
    ensures HexColorAt(input + tail, pos) == HexColorAt(input, pos)
  {
    var e := SpanEnd(input, pos, IsHexDigit);
    SpanEndExtend(input, tail, pos, IsHexDigit);
    assert (input + tail)[pos..e] == input[pos..e];
  }

  lemma {:induction false} PropValueExtend(input: string, tail: string, pos: nat)
    requires pos <= |input| && PropValueAt(input, pos).Ok?
    ensures PropValueAt(input + tail, pos) == PropValueAt(input, pos)
  {
    var prop := IdentifierAt(input, pos).value;
    var valueStart := SpanEnd(input, prop.1 + 1, IsWhitespace);
    var value := ValueAt(input, valueStart).value;
    PropValueFrom(input, pos, prop, valueStart, value);
    IdentifierExtend(input, tail, pos);
    ExpectExtend(input, tail, prop.1, ':');
    SpanEndExtend(input, tail, prop.1 + 1, IsWhitespace);
    ValueExtend(input, tail, valueStart);
    ExpectExtend(input, tail, value.1, ';');
    PropValueFrom(input + tail, pos, prop, valueStart, value);
  }

  /** `PropValueAt` from the results of its steps. */
  lemma PropValueFrom(s: string, pos: nat, prop: (string, nat), valueStart: nat, value: (CssValue, nat))
    requires pos <= |s| && IdentifierAt(s, pos) == Ok(prop) && ExpectAt(s, prop.1, ':') == Ok(prop.1 + 1)
    requires SpanEnd(s, prop.1 + 1, IsWhitespace) == valueStart
    requires ValueAt(s, valueStart) == Ok(value) && ExpectAt(s, value.1, ';') == Ok(value.1 + 1)
    ensures PropValueAt(s, pos) == Ok((PropValue(prop.0, value.0), value.1 + 1))
  {
  }

  lemma {:induction false} PropValuesExtend(input: string, tail: string, pos: nat, acc: seq<PropValue>)
    requires pos <= |input| && PropValuesLoop(input, pos, acc).Ok?
    ensures PropValuesLoop(input + tail, pos, acc) == PropValuesLoop(input, pos, acc)
    decreases |input| - pos
  {
    var p := SpanEnd(input, pos, IsWhitespace);
    SpanEndExtend(input, tail, pos, IsWhitespace);
    assert (input + tail)[p] == input[p];
    if input[p] != '}' {
      var decl := PropValueAt(input, p).value;
      PropValueExtend(input, tail, p);
      PropValuesExtend(input, tail, decl.1, acc + [decl.0]);
    }
  }

  /** A declaration block that parses parses the same, to the same end, whatever text follows it. */
  lemma {:induction false} PropValueSetExtend(input: string, tail: string, pos: nat)
    requires pos <= |input| && PropValueSetAt(input, pos).Ok?
    ensures PropValueSetAt(input + tail, pos) == PropValueSetAt(input, pos)
  {
    assert (input + tail)[pos] == input[pos];
    PropValuesExtend(input, tail, pos + 1, []);
  }

  /**
   * `parse_inline_style` stops at the '}' that closes the declarations and
   * ignores whatever follows it: when `style` parses, appending a '}' and any
   * text does not change the result.
   */
  lemma {:induction false} InlineStyleIgnoresTail(style: string, tail: string)
    requires InlineStyleOf(style).Ok?
    ensures InlineStyleOf(style + "}" + tail) == InlineStyleOf(style)
  {
    var block := "{" + style + "}";
    assert "{" + (style + "}" + tail) + "}" == block + (tail + "}");
    PropValueSetExtend(block, tail + "}", 0);
  }
}
