module JsonConformance {
  // What the parser reads and the printer writes, character by character (sections 2, 6 and 7 of RFC 8259).
  // Said with the characters themselves: hexadecimal and decimal digits are positions in a string.

  import opened Options
  import opened JsonGrammar
  import opened JsonText
  import JsonReading
  import opened JsonRoundTrip
  import opened Properties
  import opened Values

  const LOWER := "0123456789abcdef"
  const UPPER := "0123456789ABCDEF"

  // ---- Escapes that are read ----------------------------------------------------------------

  /** The character is the hexadecimal digit `v`, in either case. */
  predicate IsNibble(c: char, v: nat) {
    v < 16 && (c == LOWER[v] || c == UPPER[v])
  }

  lemma NibbleValue(c: char, v: nat)
    requires IsNibble(c, v)
    ensures HexValue(c) == Some(v)
  {
  }

  lemma ValueIsNibble(c: char)
    ensures HexValue(c).Some? ==> IsNibble(c, HexValue(c).value)
  {
  }

  /** The character with this code; the surrogates are no characters. */
  predicate HasCode(c: char, code: nat) {
    if 0xD800 <= code < 0xE000 then c as int == 0xFFFD else c as int == code
  }

  lemma FourNibbles(hex: string, a: nat, b: nat, c: nat, d: nat)
    requires |hex| == 4 && IsNibble(hex[0], a) && IsNibble(hex[1], b) && IsNibble(hex[2], c) && IsNibble(hex[3], d)
    ensures HexNumber(hex) == Some(4096 * a + 256 * b + 16 * c + d)
  {
    NibbleValue(hex[0], a);
    NibbleValue(hex[1], b);
    NibbleValue(hex[2], c);
    NibbleValue(hex[3], d);
    assert hex[..3][..2] == hex[..2] && hex[..2][..1] == hex[..1] && hex[..1][..0] == "";
    assert HexNumber(hex[..1]) == Some(a);
    assert HexNumber(hex[..2]) == Some(16 * a + b);
    assert HexNumber(hex[..3]) == Some(256 * a + 16 * b + c);
  }

  lemma FourDigitsValue(hex: string, i: nat, j: nat, k: nat, l: nat)
    requires |hex| == 4 && IsNibble(hex[0], i) && IsNibble(hex[1], j) && IsNibble(hex[2], k) && IsNibble(hex[3], l)
    ensures FromHex(hex) == Some(4096 * i + 256 * j + 16 * k + l)
  {
    hide HexNumber;
    FourNibbles(hex, i, j, k, l);
    NibbleIsNoSign(hex[0], i);
  }

  lemma NibbleIsNoSign(c: char, v: nat)
    requires IsNibble(c, v)
    ensures c != '+' && v < 16
  {
  }

  /** Inside a string, `\\u` and four hexadecimal digits of either case stand for the character with that code. */
  lemma HexEscapeReads(chars: string, pos: nat, s: string, a: nat, b: nat, c: nat, d: nat, read: char)
    requires pos + 6 <= |chars| && chars[pos] == '\\' && chars[pos + 1] == 'u'
    requires IsNibble(chars[pos + 2], a) && IsNibble(chars[pos + 3], b)
    requires IsNibble(chars[pos + 4], c) && IsNibble(chars[pos + 5], d)
    requires HasCode(read, 4096 * a + 256 * b + 16 * c + d)
    ensures ParseString(chars, pos, s) == ParseString(chars, pos + 6, s + [read])
  {
    HexEscapeParses(chars, pos + 2, a, b, c, d, read);
    ReadsEscape(chars, pos, read, pos + 6, s);
  }

  lemma HexEscapeParses(chars: string, pos: nat, a: nat, b: nat, c: nat, d: nat, read: char)
    requires pos + 4 <= |chars| && IsNibble(chars[pos], a) && IsNibble(chars[pos + 1], b)
    requires IsNibble(chars[pos + 2], c) && IsNibble(chars[pos + 3], d)
    requires HasCode(read, 4096 * a + 256 * b + 16 * c + d)
    ensures ParseHexEscape(chars, pos) == Parsed(read, pos + 4)
  {
    hide FromHex, IsNibble;
    FourDigitsValue(chars[pos..pos + 4], a, b, c, d);
  }

  predicate IsHexDigit(c: char) {
    '0' <= c <= '9' || 'a' <= c <= 'f' || 'A' <= c <= 'F'
  }

  predicate AllHexDigits(digits: string) {
    forall i :: 0 <= i < |digits| ==> IsHexDigit(digits[i])
  }

  lemma {:induction false} HexNumberIff(digits: string)
    ensures HexNumber(digits).Some? <==> AllHexDigits(digits)
  {
    if digits != "" {
      var n := |digits| - 1;
      HexNumberIff(digits[..n]);
      assert forall i :: 0 <= i < n ==> digits[..n][i] == digits[i];
    }
  }

  /** Four digits, or a plus sign and three. */
  lemma FromHexIff(hex: string)
    requires |hex| == 4
    ensures FromHex(hex).Some? <==> AllHexDigits(hex) || (hex[0] == '+' && AllHexDigits(hex[1..]))
  {
    HexNumberIff(hex);
    HexNumberIff(hex[1..]);
    assert AllHexDigits(hex) ==> IsHexDigit(hex[0]);
  }

  /** Any other four characters are refused. */
  lemma OtherHexEscapeFails(chars: string, pos: nat, s: string)
    requires pos + 6 <= |chars| && chars[pos] == '\\' && chars[pos + 1] == 'u'
    requires !AllHexDigits(chars[pos + 2..pos + 6])
    requires chars[pos + 2] == '+' ==> !AllHexDigits(chars[pos + 3..pos + 6])
    ensures ParseString(chars, pos, s) == Failed(InvalidHexEscape(chars[pos + 2..pos + 6]))
  {
    var hex := chars[pos + 2..pos + 6];
    assert hex[1..] == chars[pos + 3..pos + 6];
    FromHexIff(hex);
    assert ParseHexEscape(chars, pos + 2) == Failed(InvalidHexEscape(hex));
  }

  /** The escapes of one character, and what they stand for. */
  predicate ShortEscape(c: char, code: int) {
    || (c == '"' && code == 0x22) || (c == '\\' && code == 0x5C) || (c == '/' && code == 0x2F)
    || (c == 'b' && code == 0x08) || (c == 'f' && code == 0x0C) || (c == 'n' && code == 0x0A)
    || (c == 'r' && code == 0x0D) || (c == 't' && code == 0x09)
  }

  lemma ShortEscapeReads(chars: string, pos: nat, s: string, read: char)
    requires pos + 2 <= |chars| && chars[pos] == '\\' && ShortEscape(chars[pos + 1], read as int)
    ensures ParseString(chars, pos, s) == ParseString(chars, pos + 2, s + [read])
  {
  }

  lemma OtherEscapeFails(chars: string, pos: nat, s: string)
    requires pos + 2 <= |chars| && chars[pos] == '\\' && chars[pos + 1] != 'u'
    requires chars[pos + 1] !in {'"', '\\', '/', 'b', 'f', 'n', 'r', 't'}
    ensures ParseString(chars, pos, s) == Failed(InvalidEscape(chars[pos + 1]))
  {
  }

  /** Every other character stands for itself, but for the two line ends. */
  lemma PlainCharacterReads(chars: string, pos: nat, s: string)
    requires pos < |chars|
    ensures chars[pos] == '"' ==> ParseString(chars, pos, s) == Parsed(s, pos + 1)
    ensures chars[pos] as int == 0x0A || chars[pos] as int == 0x0D ==>
      ParseString(chars, pos, s) == Failed(UnescapedControlCharacter)
    ensures chars[pos] !in {'"', '\\', 0x0A as char, 0x0D as char} ==>
      ParseString(chars, pos, s) == ParseString(chars, pos + 1, s + [chars[pos]])
  {
  }

  // ---- Escapes that are written -------------------------------------------------------------

  /** Only what has to be is escaped; control characters are written with lower-case digits. */
  lemma EscapeWritten(c: char)
    ensures EscapedChar(c) ==
      match c as int
      case 0x22 => "\\\""
      case 0x5C => "\\\\"
      case 0x0A => "\\n"
      case 0x0D => "\\r"
      case 0x09 => "\\t"
      case 0x08 => "\\b"
      case 0x0C => "\\f"
      case code =>
        if code < 0x20 || 0x7F <= code <= 0x9F then "\\u00" + [LOWER[code / 16], LOWER[code % 16]] else [c]
  {
  }

  // ---- Integers -----------------------------------------------------------------------------

  predicate AreDigits(digits: seq<nat>) {
    forall i :: 0 <= i < |digits| ==> digits[i] < 10
  }

  function Numeral(digits: seq<nat>): (text: string)
    requires AreDigits(digits)
    ensures |text| == |digits|
  {
    seq(|digits|, i requires 0 <= i < |digits| => LOWER[digits[i]])
  }

  /** The number with these decimal digits. */
  function Positional(digits: seq<nat>): nat {
    if digits == [] then 0 else Positional(digits[..|digits| - 1]) * 10 + digits[|digits| - 1]
  }

  lemma {:induction false} NumeralIsPositional(digits: seq<nat>)
    requires AreDigits(digits)
    ensures forall i :: 0 <= i < |digits| ==> IsDigit(Numeral(digits)[i])
    ensures DigitsValue(Numeral(digits)) == Positional(digits)
  {
    forall i | 0 <= i < |digits| ensures IsDigit(Numeral(digits)[i]) {
      assert Numeral(digits)[i] == LOWER[digits[i]];
    }
    if digits != [] {
      var n := |digits| - 1;
      NumeralIsPositional(digits[..n]);
      assert Numeral(digits)[..n] == Numeral(digits[..n]);
    }
  }

  /** A literal of digits reads as the number it spells, or as a float beside the small integers. */
  lemma NumeralReads(chars: string, pos: nat, negative: bool, digits: seq<nat>)
    requires digits != [] && AreDigits(digits)
    requires At(chars, pos, (if negative then "-" else "") + Numeral(digits))
    requires JsonReading.NumberEnds(chars, pos + (if negative then 1 else 0) + |digits|)
    ensures
      var n := if negative then -(Positional(digits) as int) else Positional(digits);
      var text := (if negative then "-" else "") + Numeral(digits);
      ParseNumber(chars, pos) ==
        Parsed(if -0x8000_0000 <= n < 0x8000_0000 then Json.Smi(n as int32) else Json.Number(text), pos + |text|)
  {
    hide DigitsValue, ParseNumber, JsonReading.NumberEnds;
    var text := (if negative then "-" else "") + Numeral(digits);
    NumeralIsPositional(digits);
    AtChar(chars, pos, text, 0);
    AtParts(chars, pos, if negative then "-" else "", Numeral(digits));
    LiteralWithoutFraction(chars, pos, if negative then pos + 1 else pos, Numeral(digits));
  }

  /** An integer is written with its digits and no leading zero. */
  lemma {:induction false} DecimalWritten(n: nat) returns (digits: seq<nat>)
    ensures digits != [] && AreDigits(digits) && Positional(digits) == n && (|digits| > 1 ==> digits[0] != 0)
    ensures Decimal(n) == Numeral(digits)
  {
    if n < 10 {
      digits := [n];
      assert Positional(digits[..0]) == 0;
    } else {
      var front := DecimalWritten(n / 10);
      digits := front + [n % 10];
      OneMoreDigit(front, n % 10);
      assert |front| == 1 ==> Positional(front[..0]) == 0;
    }
  }

  lemma OneMoreDigit(front: seq<nat>, d: nat)
    requires AreDigits(front) && d < 10
    ensures AreDigits(front + [d]) && Numeral(front + [d]) == Numeral(front) + [Digit(d)]
    ensures Positional(front + [d]) == Positional(front) * 10 + d
  {
    assert (front + [d])[..|front|] == front;
    assert LOWER[d] == Digit(d);
  }

  lemma IntegerWritten(n: int) returns (digits: seq<nat>)
    ensures digits != [] && AreDigits(digits) && (|digits| > 1 ==> digits[0] != 0)
    ensures n < 0 ==> Positional(digits) == -n && IntegerText(n) == "-" + Numeral(digits)
    ensures n >= 0 ==> Positional(digits) == n && IntegerText(n) == Numeral(digits)
  {
    digits := DecimalWritten(if n < 0 then -n else n);
  }

  // ---- Texts that are refused ---------------------------------------------------------------

  lemma MalformedStructures()
    ensures Parse("") == Failed(UnexpectedEnd) && Parse(" ") == Failed(UnexpectedEnd)
    ensures Parse("[]]") == Failed(TrailingText(']', 2))
    ensures Parse("?") == Failed(UnexpectedToken('?', 0))
    ensures Parse("{1") == Failed(ExpectedKey(1))
    ensures Parse("nul") == Failed(InvalidToken(0)) && Parse("tru") == Failed(InvalidToken(0))
    ensures Parse("-") == Failed(InvalidNumber(0))
  {
  }

  lemma MalformedNumbers()
    ensures Parse("1.") == Failed(InvalidFraction(0)) && Parse("1e") == Failed(InvalidExponent(0))
  {
  }

  lemma MissingComma()
    ensures Parse("[1 2") == Failed(ExpectedCommaOr(']', 3))
  {
  }

  lemma CommaBeforeBracket()
    ensures Parse("[1,]") == Failed(TrailingComma(']', 3))
  {
  }
}
