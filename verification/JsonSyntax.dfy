/** The grammar of JSON (RFC 8259) on stretches of a text, and what a stretch denotes. */
module JsonSyntax {
  // Nothing here reads from left to right: a stretch is divided wherever that fits. The dialect of the parser
  // allows leading zeros, control characters in strings other than the two line ends, and a plus sign in place
  // of the first hexadecimal digit; the rest is as the standard has it. A surrogate stands for U+FFFD in both.

  import opened JsonConformance
  import opened JsonText
  import opened Properties
  import opened Values

  datatype Dialect = Standard | Lenient

  ghost predicate Blank(chars: string, a: nat, b: nat) {
    a <= b <= |chars| && forall i :: a <= i < b ==> chars[i] as int in {0x20, 0x09, 0x0A, 0x0D}
  }

  // ---- Strings (section 7) ------------------------------------------------------------------

  predicate IsPlain(d: Dialect, c: char) {
    && c !in {'"', '\\'} && c as int !in {0x0A, 0x0D}
    && (d.Standard? ==> c as int >= 0x20)
  }

  predicate FirstNibble(d: Dialect, c: char, v: nat) {
    IsNibble(c, v) || (d.Lenient? && c == '+' && v == 0)
  }

  /** Four hexadecimal digits and the character with their code. */
  ghost predicate FourDigits(d: Dialect, hex: string, read: char) {
    && |hex| == 4
    && exists i: nat, j: nat, k: nat, l: nat ::
         && FirstNibble(d, hex[0], i) && IsNibble(hex[1], j) && IsNibble(hex[2], k) && IsNibble(hex[3], l)
         && HasCode(read, 4096 * i + 256 * j + 16 * k + l)
  }

  /** The stretch is one character of a string. */
  ghost predicate Character(d: Dialect, chars: string, a: nat, b: nat, read: char) {
    && a < b <= |chars|
    && (|| (b == a + 1 && chars[a] == read && IsPlain(d, read))
        || (b == a + 2 && chars[a] == '\\' && ShortEscape(chars[a + 1], read as int))
        || (b == a + 6 && chars[a] == '\\' && chars[a + 1] == 'u' && FourDigits(d, chars[a + 2..b], read)))
  }

  ghost predicate Characters(d: Dialect, chars: string, a: nat, b: nat, s: string)
    decreases |s|
  {
    if s == "" then a == b
    else exists c: nat :: a < c <= b && Character(d, chars, a, c, s[0]) && Characters(d, chars, c, b, s[1..])
  }

  ghost predicate StringText(d: Dialect, chars: string, a: nat, b: nat, s: string) {
    a + 2 <= b <= |chars| && chars[a] == '"' && chars[b - 1] == '"' && Characters(d, chars, a + 1, b - 1, s)
  }

  // ---- Numbers (section 6) ------------------------------------------------------------------

  ghost predicate Digits(chars: string, a: nat, b: nat) {
    a < b <= |chars| && forall i :: a <= i < b ==> '0' <= chars[i] <= '9'
  }

  ghost predicate Fraction(chars: string, a: nat, b: nat) {
    a == b || (a < b <= |chars| && chars[a] == '.' && Digits(chars, a + 1, b))
  }

  ghost predicate Exponent(chars: string, a: nat, b: nat) {
    || a == b
    || (&& a + 1 < b <= |chars| && chars[a] in {'e', 'E'}
        && (Digits(chars, a + 1, b) || (chars[a + 1] in {'+', '-'} && Digits(chars, a + 2, b))))
  }

  /** The digits denote a small integer if the number is in range, and a float otherwise. */
  ghost predicate IntegerDenotes(text: string, negative: bool, digits: seq<nat>, v: Json) {
    && AreDigits(digits) && text == (if negative then "-" else "") + Numeral(digits)
    && var n := if negative then -(Positional(digits) as int) else Positional(digits);
       v == if -0x8000_0000 <= n < 0x8000_0000 then Json.Smi(n as int32) else Json.Number(text)
  }

  ghost predicate DigitsDenote(text: string, negative: bool, v: Json) {
    exists digits :: IntegerDenotes(text, negative, digits, v)
  }

  /** Sign, digits up to `e`, fraction up to `f` and exponent. */
  ghost predicate NumberParts(d: Dialect, chars: string, a: nat, first: nat, e: nat, f: nat, b: nat) {
    && a <= first <= e <= f <= b <= |chars|
    && (if first == a then a < |chars| && chars[a] != '-' else first == a + 1 && chars[a] == '-')
    && Digits(chars, first, e) && (d.Standard? ==> e == first + 1 || chars[first] != '0')
    && Fraction(chars, e, f) && Exponent(chars, f, b)
  }

  ghost predicate NumberText(d: Dialect, chars: string, a: nat, b: nat, v: Json) {
    exists first: nat, e: nat, f: nat ::
      NumberParts(d, chars, a, first, e, f, b) && NumberDenotes(chars, a, first, e, b, v)
  }

  ghost predicate NumberDenotes(chars: string, a: nat, first: nat, e: nat, b: nat, v: Json)
    requires a <= b <= |chars|
  {
    if e == b then DigitsDenote(chars[a..b], first > a, v) else v == Json.Number(chars[a..b])
  }

  // ---- Values (sections 3 to 5) -------------------------------------------------------------

  ghost predicate ValueText(d: Dialect, chars: string, a: nat, b: nat, v: Json)
    requires a <= b
    decreases b - a, 0
  {
    && a < b <= |chars|
    && match v
       case Null => chars[a..b] == "null"
       case Bool(t) => chars[a..b] == if t then "true" else "false"
       case Smi(_) => NumberText(d, chars, a, b, v)
       case Number(_) => NumberText(d, chars, a, b, v)
       case Str(s) => StringText(d, chars, a, b, s)
       case Arr(elements) =>
         a + 2 <= b && chars[a] == '[' && chars[b - 1] == ']' && ElementsText(d, chars, a + 1, b - 1, elements)
       case Obj(members) =>
         && a + 2 <= b && chars[a] == '{' && chars[b - 1] == '}'
         && exists all :: MembersText(d, chars, a + 1, b - 1, all) && members == MergedInto([], all)
  }

  /** A value with white space around it. */
  ghost predicate SpacedValue(d: Dialect, chars: string, a: nat, b: nat, v: Json)
    requires a <= b
    decreases b - a, 1
  {
    exists x: nat, y: nat ::
      a <= x <= y <= b && Blank(chars, a, x) && ValueText(d, chars, x, y, v) && Blank(chars, y, b)
  }

  /** Values with commas in between. */
  ghost predicate ElementsText(d: Dialect, chars: string, a: nat, b: nat, elements: seq<Json>)
    requires a <= b
    decreases b - a, 2
  {
    if elements == [] then Blank(chars, a, b)
    else if |elements| == 1 then SpacedValue(d, chars, a, b, elements[0])
    else exists c: nat :: CommaAt(chars, a, c, b) && SpacedValue(d, chars, a, c, elements[0])
                  && ElementsText(d, chars, c + 1, b, elements[1..])
  }

  ghost predicate CommaAt(chars: string, a: nat, c: nat, b: nat) {
    a <= c < b <= |chars| && chars[c] == ','
  }

  /** A name, a colon and a value. */
  ghost predicate MemberText(d: Dialect, chars: string, a: nat, b: nat, m: Property<Json>)
    requires a <= b
    decreases b - a, 3
  {
    exists x: nat, y: nat, c: nat ::
      NameText(d, chars, a, x, y, c, b, m.name) && SpacedValue(d, chars, c + 1, b, m.value)
  }

  ghost predicate NameText(d: Dialect, chars: string, a: nat, x: nat, y: nat, c: nat, b: nat, name: string) {
    && a <= x <= y <= c < b <= |chars|
    && Blank(chars, a, x) && StringText(d, chars, x, y, name) && Blank(chars, y, c) && chars[c] == ':'
  }

  ghost predicate MembersText(d: Dialect, chars: string, a: nat, b: nat, members: seq<Property<Json>>)
    requires a <= b
    decreases b - a, 4
  {
    if members == [] then Blank(chars, a, b)
    else if |members| == 1 then MemberText(d, chars, a, b, members[0])
    else exists c: nat :: CommaAt(chars, a, c, b) && MemberText(d, chars, a, c, members[0])
                  && MembersText(d, chars, c + 1, b, members[1..])
  }

  /** The members after those of `done`; a repeated name has its last value where it stood first. */
  function MergedInto(done: seq<Property<Json>>, members: seq<Property<Json>>): seq<Property<Json>>
    decreases |members|
  {
    if members == [] then done
    else MergedInto(SetProperty(done, members[0].name, members[0].value), members[1..])
  }
}
