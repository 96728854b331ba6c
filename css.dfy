/**
 * The CSS subset parser of src/css.rs.
 *
 * The grammar is stated twice: once as pure functions over `(input, pos)`
 * (`IdentifierAt`, `ValueAt`, ..., `StylesheetOf`), which say what each step
 * yields and where it leaves the cursor, and once as the `Parser` class, whose
 * methods advance the cursor field `pos` in loops as the source does and are
 * proved to compute exactly what the functions say. Properties of the parser
 * are proved as lemmas about the functions.
 */
module Css {
  import opened Common

  type Byte = x: int | 0 <= x < 256

  datatype CssColor = CssColor(r: Byte, g: Byte, b: Byte, a: Byte)

  datatype Unit = Px | Em | Rem

  /** A declared value; a length keeps the text of its number. */
  datatype CssValue =
    | Color(color: CssColor)
    | Keyword(keyword: string)
    | Length(number: string, unit: Unit)
    | Unknown(text: string)

  /** One declaration `prop: value;`. */
  datatype PropValue = PropValue(prop: string, value: CssValue)

  /** A simple selector: ids, classes and an optional tag name, with no combinators. */
  datatype SimpleSelector = SimpleSelector(ids: seq<string>, classes: seq<string>, tag: Option<string>)

  datatype Rule = Rule(selectors: seq<SimpleSelector>, propValues: seq<PropValue>)

  datatype Stylesheet = Stylesheet(rules: seq<Rule>)

  /** (number of ids, number of classes, number of tags), compared lexicographically. */
  type Specificity = (nat, nat, nat)

  const EmptySelector := SimpleSelector([], [], None)

  // ---------------------------------------------------------------------------
  // Pure helpers

  predicate AllHexDigits(s: string) {
    forall k :: 0 <= k < |s| ==> IsHexDigit(s[k])
  }

  /** The number written by the hexadecimal digits `s`, most significant first. */
  function HexValue(s: string): nat
    requires AllHexDigits(s)
  {
    if s == [] then 0 else 16 * HexValue(s[..|s| - 1]) + HexDigitValue(s[|s| - 1])
  }

  lemma HexValuePair(s: string)
    ensures |s| == 2 && AllHexDigits(s) ==> HexValue(s) == 16 * HexDigitValue(s[0]) + HexDigitValue(s[1])
  {
    if |s| == 2 && AllHexDigits(s) {
      var first := s[..1];
      assert AllHexDigits(first) && first[..0] == [] && first[0] == s[0];
      assert HexValue(first) == HexDigitValue(s[0]);
    }
  }

  /**
   * `u8::from_str_radix(val, 16).unwrap_or(0)`: an optional leading '+', then one
   * or more hexadecimal digits whose value fits in a byte; anything else is 0.
   */
  function ParseSingleChannel(val: string): (r: Byte)
    ensures |val| == 2 && IsHexDigit(val[0]) && IsHexDigit(val[1]) ==>
              r == 16 * HexDigitValue(val[0]) + HexDigitValue(val[1])
    ensures val == [] || val == "+" ==> r == 0
    ensures (exists k :: 0 < k < |val| && !IsHexDigit(val[k])) ==> r == 0
    ensures |val| > 0 && val[0] != '+' && !IsHexDigit(val[0]) ==> r == 0
  {
    var digits := if |val| > 0 && val[0] == '+' then val[1..] else val;
    HexValuePair(val);
    if digits == [] || !AllHexDigits(digits) then 0
    else
      var v := HexValue(digits);
      if v < 256 then v else 0
  }

  /** `get_specificity`. */
  function GetSpecificity(selector: SimpleSelector): (s: Specificity)
    ensures s.0 == |selector.ids| && s.1 == |selector.classes|
    ensures s.2 <= 1 && (s.2 == 1 <==> selector.tag.Some?)
  {
    (|selector.ids|, |selector.classes|, if selector.tag.Some? then 1 else 0)
  }

  /** The derived ordering of Rust tuples: lexicographic. */
  predicate SpecificityLe(a: Specificity, b: Specificity) {
    a.0 < b.0 || (a.0 == b.0 && (a.1 < b.1 || (a.1 == b.1 && a.2 <= b.2)))
  }

  predicate IsIdentChar(c: char) { IsAlphanumeric(c) || c == '-' }

  predicate IsNumberChar(c: char) { IsDigit(c) || c == '.' }

  predicate NotSemicolon(c: char) { c != ';' }

  /** A selector stops at '{', ',' or whitespace. */
  predicate IsSelectorStop(c: char) { c == '{' || c == ',' || IsWhitespace(c) }

  function UnitOf(unit: string): Unit {
    if unit == "px" then Px else if unit == "em" then Em else if unit == "rem" then Rem else Px
  }

  // ---------------------------------------------------------------------------
  // The grammar, as functions of the input and the cursor position

  /** `parse_identifier`. */
  function IdentifierAt(input: string, pos: nat): (r: Result<(string, nat)>)
    requires pos <= |input|
    ensures r.Ok? ==> pos < |input| && pos <= r.value.1 <= |input|
    ensures r.Ok? ==> r.value.0 == input[pos..r.value.1]
    ensures r.Ok? ==> (r.value.1 > pos <==> IsIdentChar(input[pos]))
  {
    if pos == |input| then Err(UnexpectedEof)
    else if IsDigit(input[pos]) || input[pos] == '-' then Err(IdentifierStart(input[pos]))
    else
      var e := SpanEnd(input, pos, IsIdentChar);
      Ok((input[pos..e], e))
  }

  /** `parse_value_length`: the number's text, then a unit running up to ';'. */
  function ValueLengthAt(input: string, pos: nat): (r: (CssValue, nat))
    requires pos <= |input|
    ensures pos <= r.1 <= |input|
  {
    var numberEnd := SpanEnd(input, pos, IsNumberChar);
    var unitEnd := SpanEnd(input, numberEnd, NotSemicolon);
    (Length(input[pos..numberEnd], UnitOf(input[numberEnd..unitEnd])), unitEnd)
  }

  /** `parse_hex_color`, entered after the '#'. */
  function HexColorAt(input: string, pos: nat): (r: Result<(CssValue, nat)>)
    requires pos <= |input|
    ensures r.Ok? ==> r.value.1 == pos + 6 <= |input|
  {
    var e := SpanEnd(input, pos, IsHexDigit);
    if e - pos != 6 then Err(HexColorLength(e - pos))
    else
      var hex := input[pos..e];
      Ok((Color(CssColor(ParseSingleChannel(hex[0..2]), ParseSingleChannel(hex[2..4]),
                         ParseSingleChannel(hex[4..6]), 255)), e))
  }

  /** `parse_value`: dispatch on the first character. */
  function ValueAt(input: string, pos: nat): (r: Result<(CssValue, nat)>)
    requires pos <= |input|
    ensures r.Ok? ==> pos <= r.value.1 <= |input|
  {
    if pos == |input| then Err(UnexpectedEof)
    else if IsDigit(input[pos]) then Ok(ValueLengthAt(input, pos))
    else if input[pos] == '#' then HexColorAt(input, pos + 1)
    else
      var e := SpanEnd(input, pos, NotSemicolon);
      Ok((Unknown(input[pos..e]), e))
  }

  /** `parse_prop_value`: `identifier ':' whitespace value ';'`. */
  function PropValueAt(input: string, pos: nat): (r: Result<(PropValue, nat)>)
    requires pos <= |input|
    ensures r.Ok? ==> pos < r.value.1 <= |input|
  {
    var prop :- IdentifierAt(input, pos);
    var afterColon :- ExpectAt(input, prop.1, ':');
    var valueStart := SpanEnd(input, afterColon, IsWhitespace);
    var value :- ValueAt(input, valueStart);
    var end :- ExpectAt(input, value.1, ';');
    Ok((PropValue(prop.0, value.0), end))
  }

  /** The loop of `parse_prop_value_set`, having collected `acc`; it stops before '}'. */
  function PropValuesLoop(input: string, pos: nat, acc: seq<PropValue>): (r: Result<(seq<PropValue>, nat)>)
    requires pos <= |input|
    ensures r.Ok? ==> pos <= r.value.1 < |input| && input[r.value.1] == '}'
    decreases |input| - pos
  {
    var p := SpanEnd(input, pos, IsWhitespace);
    if p == |input| then Err(UnexpectedEof)
    else if input[p] == '}' then Ok((acc, p))
    else
      var decl :- PropValueAt(input, p);
      PropValuesLoop(input, decl.1, acc + [decl.0])
  }

  /** `parse_prop_value_set`: `'{' declarations '}'`. */
  function PropValueSetAt(input: string, pos: nat): (r: Result<(seq<PropValue>, nat)>)
    requires pos <= |input|
    ensures r.Ok? ==> pos + 2 <= r.value.1 <= |input|
  {
    var open :- ExpectAt(input, pos, '{');
    var decls :- PropValuesLoop(input, open, []);
    // the loop stops at '}', so the closing `assert!` of the source always holds
    Ok((decls.0, decls.1 + 1))
  }

  /** One pass of the loop of `parse_simple_selector`, at a character that does not end the selector. */
  function SelectorPartAt(input: string, pos: nat, sel: SimpleSelector): (r: Result<(SimpleSelector, nat)>)
    requires pos < |input| && !IsSelectorStop(input[pos])
    ensures r.Ok? ==> pos < r.value.1 <= |input|
  {
    var c := input[pos];
    if c == '#' then
      var id :- IdentifierAt(input, pos + 1);
      Ok((sel.(ids := sel.ids + [id.0]), id.1))
    else if c == '.' then
      var className :- IdentifierAt(input, pos + 1);
      Ok((sel.(classes := sel.classes + [className.0]), className.1))
    else if c == '*' then
      Ok((sel, pos + 1))
    else if IsLower(c) then
      var tag :- IdentifierAt(input, pos);
      Ok((sel.(tag := Some(tag.0)), tag.1))
    else Err(UnsupportedSelectorChar(c))
  }

  /** The loop of `parse_simple_selector`, having built `sel` so far. */
  function SimpleSelectorLoop(input: string, pos: nat, sel: SimpleSelector): (r: Result<(SimpleSelector, nat)>)
    requires pos <= |input|
    ensures r.Ok? ==> pos <= r.value.1 < |input| && IsSelectorStop(input[r.value.1])
    decreases |input| - pos
  {
    if pos == |input| then Err(UnexpectedEof)
    else if IsSelectorStop(input[pos]) then Ok((sel, pos))
    else
      var part :- SelectorPartAt(input, pos, sel);
      SimpleSelectorLoop(input, part.1, part.0)
  }

  /** Where the next simple selector starts: past a ',' and the whitespace after it. */
  function SelectorStart(input: string, p: nat): (start: nat)
    requires p < |input|
    ensures p <= start <= |input|
    ensures start == p ==> input[p] != ','
  {
    if input[p] == ',' then SpanEnd(input, p + 1, IsWhitespace) else p
  }

  /** The loop of `parse_selectors`, having collected `acc`; it stops before '{'. */
  function SelectorsLoop(input: string, pos: nat, acc: seq<SimpleSelector>): (r: Result<(seq<SimpleSelector>, nat)>)
    requires pos <= |input|
    ensures r.Ok? ==> pos <= r.value.1 < |input| && input[r.value.1] == '{'
    decreases |input| - pos
  {
    var p := SpanEnd(input, pos, IsWhitespace);
    if p == |input| then Err(UnexpectedEof)
    else if input[p] == '{' then Ok((acc, p))
    else
      var sel :- SimpleSelectorLoop(input, SelectorStart(input, p), EmptySelector);
      SelectorsLoop(input, sel.1, acc + [sel.0])
  }

  /** `parse_rule`: selectors, then a declaration block. */
  function RuleAt(input: string, pos: nat): (r: Result<(Rule, nat)>)
    requires pos <= |input|
    ensures r.Ok? ==> pos < r.value.1 <= |input|
  {
    var selectors :- SelectorsLoop(input, pos, []);
    var decls :- PropValueSetAt(input, selectors.1);
    Ok((Rule(selectors.0, decls.0), decls.1))
  }

  /** The loop of `parse_stylesheet`, having collected `acc`; it runs to the end of the input. */
  function RulesLoop(input: string, pos: nat, acc: seq<Rule>): (r: Result<(seq<Rule>, nat)>)
    requires pos <= |input|
    ensures r.Ok? ==> r.value.1 == |input|
    decreases |input| - pos
  {
    var p := SpanEnd(input, pos, IsWhitespace);
    if p == |input| then Ok((acc, p))
    else
      var rule :- RuleAt(input, p);
      RulesLoop(input, rule.1, acc + [rule.0])
  }

  /** `css::parse`: the whole source as a stylesheet. */
  function StylesheetOf(source: string): Result<Stylesheet> {
    var rules :- RulesLoop(source, 0, []);
    Ok(Stylesheet(rules.0))
  }

  /** `parse_inline_style`: the declarations of `"{" + style + "}"`. */
  function InlineStyleOf(style: string): Result<seq<PropValue>> {
    var decls :- PropValueSetAt("{" + style + "}", 0);
    Ok(decls.0)
  }

  // ---------------------------------------------------------------------------
  // The cursor-based parser

  class Parser {
    /** The source text. */
    const input: string
    /** The cursor: index of the next character to read. */
    var pos: nat

    ghost predicate Valid()
      reads this
    {
      pos <= |input|
    }

    constructor (source: string)
      ensures Valid() && input == source && pos == 0
    {
      input := source;
      pos := 0;
    }

    /** `eof`. */
    function Eof(): (b: bool)
      reads this
      ensures b <==> pos >= |input|
    {
      pos >= |input|
    }

    /** `next_char`: the character at the cursor; at the end of input the source panics. */
    function NextChar(): (r: Result<char>)
      reads this
      ensures r.Ok? <==> pos < |input|
      ensures r.Ok? ==> r.value == input[pos]
    {
      if pos < |input| then Ok(input[pos]) else Err(UnexpectedEof)
    }

    /** `starts_with`. */
    function StartsWithText(s: string): (b: bool)
      reads this
      requires Valid()
      ensures b <==> pos + |s| <= |input| && input[pos..pos + |s|] == s
    {
      StartsWith(input, pos, s)
    }

    /** `consume_char`: read the character at the cursor and step past it. */
    method ConsumeChar() returns (r: Result<char>)
      requires Valid()
      modifies this
      ensures Valid()
      ensures old(pos) < |input| ==> r == Ok(input[old(pos)]) && pos == old(pos) + 1
      ensures old(pos) == |input| ==> r == Err(UnexpectedEof) && pos == old(pos)
    {
      if pos == |input| {
        return Err(UnexpectedEof);
      }
      r := Ok(input[pos]);
      pos := pos + 1;
    }

    /** `consume_while`: the longest run from the cursor on whose characters satisfy `test`. */
    method ConsumeWhile(test: char -> bool) returns (s: string)
      requires Valid()
      modifies this
      ensures Valid()
      ensures pos == SpanEnd(input, old(pos), test)
      ensures s == input[old(pos)..pos]
    {
      s := "";
      ghost var end := SpanEnd(input, pos, test);
      while !Eof() && test(NextChar().value)
        invariant old(pos) <= pos <= |input|
        invariant s == input[old(pos)..pos]
        invariant SpanEnd(input, pos, test) == end
        decreases |input| - pos
      {
        var c := ConsumeChar();
        s := s + [c.value];
      }
    }

    /** `consume_whitespace`. */
    method ConsumeWhitespace()
      requires Valid()
      modifies this
      ensures Valid()
      ensures pos == SpanEnd(input, old(pos), IsWhitespace)
    {
      var skipped := ConsumeWhile(IsWhitespace);
    }

    /** `parse_identifier`. */
    method ParseIdentifier() returns (r: Result<string>)
      requires Valid()
      modifies this
      ensures Valid()
      ensures Agrees(r, pos, IdentifierAt(input, old(pos)))
    {
      var c :- NextChar();
      if IsDigit(c) || c == '-' {
        return Err(IdentifierStart(c));
      }
      var name := ConsumeWhile(IsIdentChar);
      return Ok(name);
    }

    /** `parse_value_length`. */
    method ParseValueLength() returns (v: CssValue)
      requires Valid()
      modifies this
      ensures Valid()
      ensures (v, pos) == ValueLengthAt(input, old(pos))
    {
      var number := ConsumeWhile(IsNumberChar);
      var unit := ConsumeWhile(NotSemicolon);
      var cssUnit := Px;
      if unit == "px" {
        cssUnit := Px;
      } else if unit == "em" {
        cssUnit := Em;
      } else if unit == "rem" {
        cssUnit := Rem;
      }
      v := Length(number, cssUnit);
    }

    /** `parse_hex_color`. */
    method ParseHexColor() returns (r: Result<CssValue>)
      requires Valid()
      modifies this
      ensures Valid()
      ensures Agrees(r, pos, HexColorAt(input, old(pos)))
    {
      var hex := ConsumeWhile(IsHexDigit);
      if |hex| != 6 {
        return Err(HexColorLength(|hex|));
      }
      var red := ParseSingleChannel(hex[0..2]);
      var green := ParseSingleChannel(hex[2..4]);
      var blue := ParseSingleChannel(hex[4..6]);
      return Ok(Color(CssColor(red, green, blue, 255)));
    }

    /** `parse_value`. */
    method ParseValue() returns (r: Result<CssValue>)
      requires Valid()
      modifies this
      ensures Valid()
      ensures Agrees(r, pos, ValueAt(input, old(pos)))
    {
      var c :- NextChar();
      if IsDigit(c) {
        var v := ParseValueLength();
        return Ok(v);
      } else if c == '#' {
        var hash := ConsumeChar();
        r := ParseHexColor();
      } else {
        var text := ConsumeWhile(NotSemicolon);
        return Ok(Unknown(text));
      }
    }

    /** `parse_prop_value`. */
    method ParsePropValue() returns (r: Result<PropValue>)
      requires Valid()
      modifies this
      ensures Valid()
      ensures Agrees(r, pos, PropValueAt(input, old(pos)))
    {
      var prop :- ParseIdentifier();
      var colon :- ConsumeChar();
      if colon != ':' {
        return Err(UnexpectedChar(':', colon));
      }
      ConsumeWhitespace();
      var value :- ParseValue();
      var semicolon :- ConsumeChar();
      if semicolon != ';' {
        return Err(UnexpectedChar(';', semicolon));
      }
      return Ok(PropValue(prop, value));
    }

    /** `parse_prop_value_set`. */
    method ParsePropValueSet() returns (r: Result<seq<PropValue>>)
      requires Valid()
      modifies this
      ensures Valid()
      ensures Agrees(r, pos, PropValueSetAt(input, old(pos)))
    {
      var open :- ConsumeChar();
      if open != '{' {
        return Err(UnexpectedChar('{', open));
      }
      var sets := [];
      ghost var parsed := PropValuesLoop(input, pos, []);
      while true
        invariant Valid() && old(pos) < pos
        invariant PropValuesLoop(input, pos, sets) == parsed
        decreases |input| - pos
      {
        ConsumeWhitespace();
        var c :- NextChar();
        if c == '}' {
          break;
        }
        var decl :- ParsePropValue();
        sets := sets + [decl];
      }
      var close := ConsumeChar();
      assert close == Ok('}');
      return Ok(sets);
    }

    /** `parse_simple_selector`. */
    method ParseSimpleSelector() returns (r: Result<SimpleSelector>)
      requires Valid()
      modifies this
      ensures Valid()
      ensures Agrees(r, pos, SimpleSelectorLoop(input, old(pos), EmptySelector))
    {
      var selector := EmptySelector;
      ghost var parsed := SimpleSelectorLoop(input, pos, selector);
      while true
        invariant Valid() && old(pos) <= pos
        invariant SimpleSelectorLoop(input, pos, selector) == parsed
        decreases |input| - pos
      {
        var c :- NextChar();
        if c == '{' || c == ',' || IsWhitespace(c) {
          break;
        }
        selector :- ParseSelectorPart(c, selector);
      }
      return Ok(selector);
    }

    /** One pass of the loop of `parse_simple_selector`, at `c`, the character under the cursor. */
    method ParseSelectorPart(c: char, selector: SimpleSelector) returns (r: Result<SimpleSelector>)
      requires Valid() && pos < |input| && c == input[pos] && !IsSelectorStop(c)
      modifies this
      ensures Valid()
      ensures Agrees(r, pos, SelectorPartAt(input, old(pos), selector))
    {
      if c == '#' {
        var hash := ConsumeChar();
        var id :- ParseIdentifier();
        return Ok(selector.(ids := selector.ids + [id]));
      } else if c == '.' {
        var dot := ConsumeChar();
        var className :- ParseIdentifier();
        return Ok(selector.(classes := selector.classes + [className]));
      } else if c == '*' {
        var star := ConsumeChar();
        return Ok(selector);
      } else if 'a' <= c <= 'z' {
        var tag :- ParseIdentifier();
        return Ok(selector.(tag := Some(tag)));
      } else {
        return Err(UnsupportedSelectorChar(c));
      }
    }

    /** `parse_selectors`. */
    method ParseSelectors() returns (r: Result<seq<SimpleSelector>>)
      requires Valid()
      modifies this
      ensures Valid()
      ensures Agrees(r, pos, SelectorsLoop(input, old(pos), []))
    {
      var selectors := [];
      ghost var parsed := SelectorsLoop(input, pos, []);
      while true
        invariant Valid() && old(pos) <= pos
        invariant SelectorsLoop(input, pos, selectors) == parsed
        decreases |input| - pos
      {
        ghost var loopStart := pos;
        ConsumeWhitespace();
        var c :- NextChar();
        if c == '{' {
          break;
        }
        ghost var p := pos;
        if c == ',' {
          var comma := ConsumeChar();
          ConsumeWhitespace();
        }
        assert pos == SelectorStart(input, p);
        assert SelectorsLoop(input, loopStart, selectors) ==
          (match SimpleSelectorLoop(input, pos, EmptySelector)
           case Err(e) => Err(e)
           case Ok(sel) => SelectorsLoop(input, sel.1, selectors + [sel.0]));
        var selector :- ParseSimpleSelector();
        selectors := selectors + [selector];
      }
      return Ok(selectors);
    }

    /** `parse_rule`. */
    method ParseRule() returns (r: Result<Rule>)
      requires Valid()
      modifies this
      ensures Valid()
      ensures Agrees(r, pos, RuleAt(input, old(pos)))
    {
      var selectors :- ParseSelectors();
      var sets :- ParsePropValueSet();
      return Ok(Rule(selectors, sets));
    }

    /** `parse_stylesheet`. */
    method ParseStylesheet() returns (r: Result<Stylesheet>)
      requires Valid()
      modifies this
      ensures Valid()
      ensures match RulesLoop(input, old(pos), [])
              case Ok(v) => r == Ok(Stylesheet(v.0)) && pos == v.1
              case Err(e) => r == Err(e)
    {
      var rules := [];
      ghost var parsed := RulesLoop(input, pos, []);
      while true
        invariant Valid() && old(pos) <= pos
        invariant RulesLoop(input, pos, rules) == parsed
        decreases |input| - pos
      {
        ConsumeWhitespace();
        if Eof() {
          break;
        }
        var rule :- ParseRule();
        rules := rules + [rule];
      }
      return Ok(Stylesheet(rules));
    }
  }

  /** `css::parse`. */
  method Parse(source: string) returns (r: Result<Stylesheet>)
    ensures r == StylesheetOf(source)
  {
    var parser := new Parser(source);
    r := parser.ParseStylesheet();
  }

  /** `parse_inline_style`: the source wraps the text in braces and parses one declaration block. */
  method ParseInlineStyle(style: string) returns (r: Result<seq<PropValue>>)
    ensures r == InlineStyleOf(style)
  {
    var source := "{" + style + "}";
    var parser := new Parser(source);
    r := parser.ParsePropValueSet();
  }
}
