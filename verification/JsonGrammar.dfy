/** What the JSON parser of src/builtins/json.rs accepts, as functions of the text and a position.
    The parser itself, which advances its position step by step, is the class in JsonParsing.dfy. */
module JsonGrammar {
  import opened Options
  import opened JsonText
  import opened Properties
  import opened Values

  datatype JsonError =
    | UnexpectedEnd
    | TrailingText(c: char, pos: nat)
    | UnexpectedToken(c: char, pos: nat)
    | ExpectedKey(pos: nat)
    | ExpectedColon(pos: nat)
    | TrailingComma(close: char, pos: nat)
    | ExpectedCommaOr(close: char, pos: nat)
    | UnterminatedEscape
    | IncompleteHexEscape
    | InvalidHexEscape(hex: string)
    | InvalidEscape(c: char)
    | UnescapedControlCharacter
    | UnterminatedString
    | InvalidToken(pos: nat)
    | InvalidNumber(pos: nat)
    | InvalidFraction(pos: nat)
    | InvalidExponent(pos: nat)

  /** A value and the position behind it. */
  datatype Parsed<+T> = Parsed(value: T, next: nat) | Failed(error: JsonError)

  predicate IsSpace(c: char) {
    c == ' ' || c == '\t' || c == '\n' || c == '\r'
  }

  predicate IsDigit(c: char) {
    '0' <= c <= '9'
  }

  predicate Sees(chars: string, pos: nat, c: char) {
    pos < |chars| && chars[pos] == c
  }

  /** The text `t` stands at `pos`. */
  predicate At(chars: string, pos: nat, t: string) {
    pos + |t| <= |chars| && chars[pos..pos + |t|] == t
  }

  function SkipSpace(chars: string, pos: nat): (next: nat)
    requires pos <= |chars|
    ensures pos <= next <= |chars|
    decreases |chars| - pos
  {
    if pos < |chars| && IsSpace(chars[pos]) then SkipSpace(chars, pos + 1) else pos
  }

  function SkipDigits(chars: string, pos: nat): (next: nat)
    requires pos <= |chars|
    ensures pos <= next <= |chars|
    decreases |chars| - pos
  {
    if pos < |chars| && IsDigit(chars[pos]) then SkipDigits(chars, pos + 1) else pos
  }

  // ---- Strings ------------------------------------------------------------------------------

  function HexValue(c: char): (r: Option<nat>)
    ensures r.Some? ==> r.value < 16
  {
    if '0' <= c <= '9' then Some(c as int - '0' as int)
    else if 'a' <= c <= 'f' then Some(c as int - 'a' as int + 10)
    else if 'A' <= c <= 'F' then Some(c as int - 'A' as int + 10)
    else None
  }

  /** `u32::from_str_radix(_, 16)` on the four characters of an escape: the first may be a plus sign. */
  function FromHex(hex: string): (r: Option<nat>)
    requires |hex| == 4
    ensures r.Some? ==> r.value < 0x1_0000
  {
    assert Power16(4) == 16 * (16 * (16 * Power16(1)));
    HexNumber(if hex[0] == '+' then hex[1..] else hex)
  }

  function Power16(n: nat): (p: nat)
    ensures p > 0
  {
    if n == 0 then 1 else 16 * Power16(n - 1)
  }

  function HexNumber(digits: string): (r: Option<nat>)
    ensures r.Some? ==> r.value < Power16(|digits|)
  {
    if digits == "" then Some(0)
    else
      var last := HexValue(digits[|digits| - 1]);
      var front := HexNumber(digits[..|digits| - 1]);
      if last.Some? && front.Some? then Some(front.value * 16 + last.value) else None
  }

  /** `char::from_u32`, with U+FFFD for the surrogates, which are no characters. */
  function CharOf(code: nat): char
    requires code < 0x1_0000
  {
    if code < 0xD800 || 0xE000 <= code then code as char else 0xFFFD as char
  }

  /** Behind a backslash. */
  function ParseEscape(chars: string, pos: nat): (r: Parsed<char>)
    requires pos <= |chars|
    ensures r.Parsed? ==> pos < r.next <= |chars|
  {
    if pos == |chars| then Failed(UnterminatedEscape)
    else
      match chars[pos]
      case '"' => Parsed('"', pos + 1)
      case '\\' => Parsed('\\', pos + 1)
      case '/' => Parsed('/', pos + 1)
      case 'b' => Parsed(BACKSPACE, pos + 1)
      case 'f' => Parsed(FORM_FEED, pos + 1)
      case 'n' => Parsed('\n', pos + 1)
      case 'r' => Parsed('\r', pos + 1)
      case 't' => Parsed('\t', pos + 1)
      case 'u' => ParseHexEscape(chars, pos + 1)
      case c => Failed(InvalidEscape(c))
  }

  function ParseHexEscape(chars: string, pos: nat): (r: Parsed<char>)
    requires pos <= |chars|
    ensures r.Parsed? ==> pos < r.next <= |chars|
  {
    if |chars| < pos + 4 then Failed(IncompleteHexEscape)
    else
      var hex := chars[pos..pos + 4];
      match FromHex(hex)
      case None => Failed(InvalidHexEscape(hex))
      case Some(code) => Parsed(CharOf(code), pos + 4)
  }

  /** Behind the opening quote, with the characters read so far. */
  function ParseString(chars: string, pos: nat, s: string): (r: Parsed<string>)
    requires pos <= |chars|
    ensures r.Parsed? ==> pos < r.next <= |chars|
    decreases |chars| - pos
  {
    if pos == |chars| then Failed(UnterminatedString)
    else
      match chars[pos]
      case '"' => Parsed(s, pos + 1)
      case '\\' =>
        (match ParseEscape(chars, pos + 1)
         case Failed(e) => Failed(e)
         case Parsed(c, next) => ParseString(chars, next, s + [c]))
      case '\n' => Failed(UnescapedControlCharacter)
      case '\r' => Failed(UnescapedControlCharacter)
      case c => ParseString(chars, pos + 1, s + [c])
  }

  // ---- Numbers ------------------------------------------------------------------------------

  function DigitsValue(digits: string): nat
    requires forall i :: 0 <= i < |digits| ==> IsDigit(digits[i])
  {
    if digits == "" then 0
    else
      assert IsDigit(digits[|digits| - 1]);
      DigitsValue(digits[..|digits| - 1]) * 10 + (digits[|digits| - 1] as int - '0' as int)
  }

  lemma {:induction false} SkippedAreDigits(chars: string, pos: nat)
    requires pos <= |chars|
    ensures forall i :: pos <= i < SkipDigits(chars, pos) ==> IsDigit(chars[i])
    decreases |chars| - pos
  {
    if pos < |chars| && IsDigit(chars[pos]) { SkippedAreDigits(chars, pos + 1); }
  }

  /** A literal without fraction and exponent: an `i32` if it fits, or else a float. */
  function IntegerLiteral(negative: bool, digits: string): Json
    requires forall i :: 0 <= i < |digits| ==> IsDigit(digits[i])
  {
    var magnitude: int := DigitsValue(digits);
    var n := if negative then -magnitude else magnitude;
    if MIN_SMI <= n <= MAX_SMI then Json.Smi(n as int32)
    else Json.Number((if negative then "-" else "") + digits)
  }

  /** The position behind a fraction, if one stands at `pos`. */
  function ParseFraction(chars: string, pos: nat, start: nat): (r: Parsed<bool>)
    requires pos <= |chars|
    ensures r.Parsed? ==> pos <= r.next <= |chars|
  {
    if !Sees(chars, pos, '.') then Parsed(false, pos)
    else if SkipDigits(chars, pos + 1) == pos + 1 then Failed(InvalidFraction(start))
    else Parsed(true, SkipDigits(chars, pos + 1))
  }

  function ParseExponent(chars: string, pos: nat, start: nat): (r: Parsed<bool>)
    requires pos <= |chars|
    ensures r.Parsed? ==> pos <= r.next <= |chars|
  {
    if !Sees(chars, pos, 'e') && !Sees(chars, pos, 'E') then Parsed(false, pos)
    else
      var digits := if Sees(chars, pos + 1, '+') || Sees(chars, pos + 1, '-') then pos + 2 else pos + 1;
      if SkipDigits(chars, digits) == digits then Failed(InvalidExponent(start))
      else Parsed(true, SkipDigits(chars, digits))
  }

  function ParseNumber(chars: string, start: nat): (r: Parsed<Json>)
    requires start <= |chars|
    ensures r.Parsed? ==> start < r.next <= |chars|
  {
    var digits := if Sees(chars, start, '-') then start + 1 else start;
    var end := SkipDigits(chars, digits);
    if end == digits then Failed(InvalidNumber(start))
    else
      match ParseFraction(chars, end, start)
      case Failed(e) => Failed(e)
      case Parsed(hasFraction, fraction) =>
        match ParseExponent(chars, fraction, start)
        case Failed(e) => Failed(e)
        case Parsed(hasExponent, next) =>
          if hasFraction || hasExponent then Parsed(Json.Number(chars[start..next]), next)
          else
            SkippedAreDigits(chars, digits);
            Parsed(IntegerLiteral(digits > start, chars[digits..end]), end)
  }

  // ---- Values -------------------------------------------------------------------------------

  function ParseBoolean(chars: string, pos: nat): (r: Parsed<Json>)
    ensures r.Parsed? ==> pos < r.next <= |chars|
  {
    if At(chars, pos, "true") then Parsed(Bool(true), pos + 4)
    else if At(chars, pos, "false") then Parsed(Bool(false), pos + 5)
    else Failed(InvalidToken(pos))
  }

  function ParseNull(chars: string, pos: nat): (r: Parsed<Json>)
    ensures r.Parsed? ==> pos < r.next <= |chars|
  {
    if At(chars, pos, "null") then Parsed(Json.Null, pos + 4) else Failed(InvalidToken(pos))
  }

  /** Behind an item of an object or array: whether another item follows. */
  function ParseSeparator(chars: string, pos: nat, close: char): (r: Parsed<bool>)
    requires pos <= |chars|
    ensures r.Parsed? ==> pos < r.next <= |chars|
  {
    var q := SkipSpace(chars, pos);
    if Sees(chars, q, ',') then
      var after := SkipSpace(chars, q + 1);
      if Sees(chars, after, close) then Failed(TrailingComma(close, after)) else Parsed(true, after)
    else if Sees(chars, q, close) then Parsed(false, q + 1)
    else Failed(ExpectedCommaOr(close, q))
  }

  function ParseValue(chars: string, pos: nat): (r: Parsed<Json>)
    requires pos <= |chars|
    ensures r.Parsed? ==> pos < r.next <= |chars|
    decreases |chars| - pos, 1
  {
    var p := SkipSpace(chars, pos);
    if p == |chars| then Failed(UnexpectedEnd)
    else
      var c := chars[p];
      if c == '{' then ParseObject(chars, p)
      else if c == '[' then ParseArray(chars, p)
      else if c == '"' then
        match ParseString(chars, p + 1, "")
        case Failed(e) => Failed(e)
        case Parsed(s, next) => Parsed(Json.Str(s), next)
      else if c == 't' || c == 'f' then ParseBoolean(chars, p)
      else if c == 'n' then ParseNull(chars, p)
      else if c == '-' || IsDigit(c) then ParseNumber(chars, p)
      else Failed(UnexpectedToken(c, p))
  }

  function ParseObject(chars: string, pos: nat): (r: Parsed<Json>)
    requires pos < |chars|
    ensures r.Parsed? ==> pos < r.next <= |chars|
    decreases |chars| - pos, 0
  {
    var p := SkipSpace(chars, pos + 1);
    if Sees(chars, p, '}') then Parsed(Obj([]), p + 1) else ParseMembers(chars, p, [])
  }

  /** A name, a colon and a value. */
  function ParseMember(chars: string, pos: nat): (r: Parsed<Property<Json>>)
    requires pos <= |chars|
    ensures r.Parsed? ==> pos < r.next <= |chars|
    decreases |chars| - pos, 2
  {
    var p := SkipSpace(chars, pos);
    if !Sees(chars, p, '"') then Failed(ExpectedKey(p))
    else
      match ParseString(chars, p + 1, "")
      case Failed(e) => Failed(e)
      case Parsed(name, k) =>
        var colon := SkipSpace(chars, k);
        if !Sees(chars, colon, ':') then Failed(ExpectedColon(colon))
        else
          match ParseValue(chars, colon + 1)
          case Failed(e) => Failed(e)
          case Parsed(v, next) => Parsed(Property(name, v), next)
  }

  /** A member and what follows it, behind the members read so far. */
  function ParseMembers(chars: string, pos: nat, members: seq<Property<Json>>): (r: Parsed<Json>)
    requires pos <= |chars|
    ensures r.Parsed? ==> pos < r.next <= |chars|
    decreases |chars| - pos, 3
  {
    match ParseMember(chars, pos)
    case Failed(e) => Failed(e)
    case Parsed(m, next) =>
      var longer := SetProperty(members, m.name, m.value);
      match ParseSeparator(chars, next, '}')
      case Failed(e) => Failed(e)
      case Parsed(more, after) => if more then ParseMembers(chars, after, longer) else Parsed(Obj(longer), after)
  }

  function ParseArray(chars: string, pos: nat): (r: Parsed<Json>)
    requires pos < |chars|
    ensures r.Parsed? ==> pos < r.next <= |chars|
    decreases |chars| - pos, 0
  {
    var p := SkipSpace(chars, pos + 1);
    if Sees(chars, p, ']') then Parsed(Arr([]), p + 1) else ParseElements(chars, p, [])
  }

  function ParseElements(chars: string, pos: nat, elements: seq<Json>): (r: Parsed<Json>)
    requires pos <= |chars|
    ensures r.Parsed? ==> pos < r.next <= |chars|
    decreases |chars| - pos, 2
  {
    match ParseValue(chars, pos)
    case Failed(e) => Failed(e)
    case Parsed(v, next) =>
      var longer := elements + [v];
      match ParseSeparator(chars, next, ']')
      case Failed(e) => Failed(e)
      case Parsed(more, after) => if more then ParseElements(chars, after, longer) else Parsed(Arr(longer), after)
  }

  /** `JSON.parse`: one value and nothing but white space around it. */
  function Parse(text: string): Parsed<Json> {
    var start := SkipSpace(text, 0);
    if start == |text| then Failed(UnexpectedEnd)
    else
      match ParseValue(text, start)
      case Failed(e) => Failed(e)
      case Parsed(v, next) =>
        var end := SkipSpace(text, next);
        if end < |text| then Failed(TrailingText(text[end], end)) else Parsed(v, end)
  }
}
