/**
 * Definitions shared by the CSS and HTML parsers: the error outcome that
 * replaces the parsers' panics, character classes, and the specification of
 * the character cursor (`consume_while`, `starts_with`, `consume_char`).
 *
 * Inputs are sequences of characters and cursor positions are character
 * indices into them.
 */
module Common {

  datatype Option<+T> = None | Some(value: T)

  /** Why a parse stopped; each variant stands for one panic of the parsers. */
  datatype ParseError =
    | UnexpectedEof                                  // `next_char`/`consume_char` unwrap at end of input
    | UnexpectedChar(expected: char, found: char)    // `assert!(self.consume_char() == c)`
    | IdentifierStart(found: char)                   // identifier starting with a digit or '-'
    | HexColorLength(digits: nat)                    // hex colour without exactly 6 digits
    | UnsupportedSelectorChar(found: char)           // unsupported character in a selector
    | BadQuote(found: char)                          // attribute value not opened by a quote
    | TagMismatch(open: string, close: string)       // closing tag name differs from opening one

  /** The outcome of a parse step; `:-` propagates the error as the panics did. */
  datatype Result<+T> = Ok(value: T) | Err(error: ParseError) {
    predicate IsFailure() { Err? }
    function PropagateFailure<U>(): Result<U>
      requires Err?
    {
      Err(error)
    }
    function Extract(): T
      requires Ok?
    {
      value
    }
  }

  /** A method result `r` with cursor `pos` is exactly what the grammar function computed. */
  predicate Agrees<T(==)>(r: Result<T>, pos: nat, spec: Result<(T, nat)>) {
    match spec
    case Ok(v) => r == Ok(v.0) && pos == v.1
    case Err(e) => r == Err(e)
  }

  /** Concatenation is associative; stated once so that loops appending to a field need not re-derive it. */
  lemma AppendAssoc<T>(a: seq<T>, b: seq<T>, c: seq<T>)
    ensures a + b + c == a + (b + c)
  {
  }

  // ---------------------------------------------------------------------------
  // Character classes

  /** Rust's `char::is_whitespace`: the Unicode White_Space property. */
  predicate IsWhitespace(c: char) {
    ('\t' <= c <= '\r') || c == ' ' || c == '\U{85}' || c == '\U{A0}' || c == '\U{1680}'
    || ('\U{2000}' <= c <= '\U{200A}') || c == '\U{2028}' || c == '\U{2029}' || c == '\U{202F}'
    || c == '\U{205F}' || c == '\U{3000}'
  }

  predicate IsDigit(c: char) { '0' <= c <= '9' }

  predicate IsLower(c: char) { 'a' <= c <= 'z' }

  predicate IsAlphanumeric(c: char) { IsLower(c) || ('A' <= c <= 'Z') || IsDigit(c) }

  predicate IsHexDigit(c: char) { IsDigit(c) || ('a' <= c <= 'f') || ('A' <= c <= 'F') }

  function HexDigitValue(c: char): (v: nat)
    requires IsHexDigit(c)
    ensures v < 16
  {
    if IsDigit(c) then c as nat - '0' as nat
    else if 'a' <= c <= 'f' then c as nat - 'a' as nat + 10
    else c as nat - 'A' as nat + 10
  }

  /** The test `|c| c != q` of a closure capturing `q`. */
  function Unequal(q: char): char -> bool {
    c => c != q
  }

  // ---------------------------------------------------------------------------
  // The cursor

  /**
   * Where `consume_while(test)` leaves a cursor that starts at `pos`: the end of
   * the longest run of characters from `pos` on that all satisfy `test`.
   */
  function SpanEnd(input: string, pos: nat, test: char -> bool): (e: nat)
    requires pos <= |input|
    ensures pos <= e <= |input|
    ensures forall k :: pos <= k < e ==> test(input[k])
    ensures e == |input| || !test(input[e])
    decreases |input| - pos
  {
    if pos == |input| || !test(input[pos]) then pos else SpanEnd(input, pos + 1, test)
  }

  /** The two properties of `SpanEnd` determine it: it is the only maximal run end. */
  lemma {:induction false} SpanEndUnique(input: string, pos: nat, test: char -> bool, e: nat)
    requires pos <= e <= |input|
    requires forall k :: pos <= k < e ==> test(input[k])
    requires e == |input| || !test(input[e])
    ensures SpanEnd(input, pos, test) == e
    decreases e - pos
  {
    if pos < e {
      SpanEndUnique(input, pos + 1, test, e);
    }
  }

  /** `starts_with(s)` on the rest of the input. */
  predicate StartsWith(input: string, pos: nat, s: string)
    requires pos <= |input|
  {
    pos + |s| <= |input| && input[pos..pos + |s|] == s
  }

  /** `assert!(self.consume_char() == c)`: the position after `c`, or why it is not there. */
  function ExpectAt(input: string, pos: nat, c: char): (r: Result<nat>)
    requires pos <= |input|
    ensures r.Ok? <==> pos < |input| && input[pos] == c
    ensures r.Ok? ==> r.value == pos + 1
  {
    if pos == |input| then Err(UnexpectedEof)
    else if input[pos] != c then Err(UnexpectedChar(c, input[pos]))
    else Ok(pos + 1)
  }
}
