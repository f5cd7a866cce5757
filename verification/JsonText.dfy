/** JSON values and the text `JSON.stringify` prints for them (src/builtins/json.rs). Characters are
    Unicode scalar values, as in the source. */
module JsonText {
  import opened Options
  import opened Properties
  import opened Values

  /** `Number` is a floating-point literal as it stands in the text: the parser recognises it, and
      the printer here leaves it out. */
  datatype Json =
    | Null
    | Bool(b: bool)
    | Smi(n: int32)
    | Number(literal: string)
    | Str(s: string)
    | Arr(elements: seq<Json>)
    | Obj(members: seq<Property<Json>>)

  const RAW_MARK := "__is_raw_json__"

  /** Trees without floats in which every object has distinct names and none is marked as raw text. */
  ghost predicate Printable(v: Json) {
    match v
    case Number(_) => false
    case Arr(elements) => forall e :: e in elements ==> Printable(e)
    case Obj(members) =>
      && DistinctNames(members) && GetProperty(members, RAW_MARK) != Some(Bool(true))
      && (forall m :: m in members ==> Printable(m.value))
    case _ => true
  }

  // ---- Integers -----------------------------------------------------------------------------

  function Digit(d: nat): char
    requires d < 10
  {
    ('0' as int + d) as char
  }

  function Decimal(n: nat): (s: string)
    ensures |s| > 0
  {
    if n < 10 then [Digit(n)] else Decimal(n / 10) + [Digit(n % 10)]
  }

  function IntegerText(n: int): string {
    if n < 0 then "-" + Decimal(-n) else Decimal(n)
  }

  // ---- Strings ------------------------------------------------------------------------------

  const BACKSPACE := 8 as char
  const FORM_FEED := 12 as char

  predicate IsControl(c: char) {
    c as int < 0x20 || 0x7F <= c as int < 0xA0
  }

  function HexDigit(d: nat): char
    requires d < 16
  {
    if d < 10 then ('0' as int + d) as char else ('a' as int + (d - 10)) as char
  }

  /** Four lower-case hexadecimal digits. */
  function Hex4(code: nat): string
    requires code < 0x1_0000
  {
    [HexDigit(code / 0x1000), HexDigit(code / 0x100 % 0x10), HexDigit(code / 0x10 % 0x10), HexDigit(code % 0x10)]
  }

  function EscapedChar(c: char): string {
    if c == '"' then "\\\""
    else if c == '\\' then "\\\\"
    else if c == '\n' then "\\n"
    else if c == '\r' then "\\r"
    else if c == '\t' then "\\t"
    else if c == BACKSPACE then "\\b"
    else if c == FORM_FEED then "\\f"
    else if IsControl(c) then "\\u" + Hex4(c as int)
    else [c]
  }

  function EscapedChars(s: string): string {
    if s == [] then [] else EscapedChar(s[0]) + EscapedChars(s[1..])
  }

  function Quoted(s: string): string {
    "\"" + EscapedChars(s) + "\""
  }

  lemma {:induction false} EscapedCharsAppend(s: string, c: char)
    ensures EscapedChars(s + [c]) == EscapedChars(s) + EscapedChar(c)
  {
    if s == [] {
      assert [c][1..] == [];
      assert s + [c] == [c];
      assert EscapedChars([c]) == EscapedChar(c) + [];
    } else {
      assert (s + [c])[1..] == s[1..] + [c];
      EscapedCharsAppend(s[1..], c);
    }
  }

  lemma OneMoreEscape(s: string, i: nat, out: string)
    requires i < |s| && out == "\"" + EscapedChars(s[..i])
    ensures out + EscapedChar(s[i]) == "\"" + EscapedChars(s[..i + 1])
  {
    assert s[..i + 1] == s[..i] + [s[i]];
    EscapedCharsAppend(s[..i], s[i]);
  }

  method EscapeJsonString(s: string) returns (out: string)
    ensures out == Quoted(s)
  {
    out := "\"";
    for i := 0 to |s|
      invariant out == "\"" + EscapedChars(s[..i])
    {
      OneMoreEscape(s, i, out);
      var c := s[i];
      if c == '"' {
        out := out + "\\\"";
      } else if c == '\\' {
        out := out + "\\\\";
      } else if c == '\n' {
        out := out + "\\n";
      } else if c == '\r' {
        out := out + "\\r";
      } else if c == '\t' {
        out := out + "\\t";
      } else if c == BACKSPACE {
        out := out + "\\b";
      } else if c == FORM_FEED {
        out := out + "\\f";
      } else if IsControl(c) {
        out := out + ("\\u" + Hex4(c as int));
      } else {
        out := out + [c];
      }
    }
    assert s[..|s|] == s;
    out := out + "\"";
  }

  // ---- Values -------------------------------------------------------------------------------

  function Repeat(step: string, n: nat): string {
    if n == 0 then "" else step + Repeat(step, n - 1)
  }

  function Join(items: seq<string>, separator: string): string {
    if items == [] then ""
    else if |items| == 1 then items[0]
    else items[0] + separator + Join(items[1..], separator)
  }

  /** The line break and indentation before an item at `depth`; nothing in compact form. */
  function Gap(indent: Option<string>, depth: nat): string {
    match indent
    case None => ""
    case Some(step) => "\n" + Repeat(step, depth)
  }

  function Enclosed(open: char, items: seq<string>, close: char, indent: Option<string>, depth: nat): string {
    [open] + (Gap(indent, depth + 1) + (Join(items, "," + Gap(indent, depth + 1)) + (Gap(indent, depth) + [close])))
  }

  function Colon(indent: Option<string>): string {
    if indent.Some? then ": " else ":"
  }

  function Stringify(v: Json, indent: Option<string>, depth: nat): string
    requires Printable(v)
  {
    match v
    case Null => "null"
    case Bool(b) => if b then "true" else "false"
    case Smi(n) => IntegerText(n as int)
    case Str(s) => Quoted(s)
    case Arr(elements) =>
      if elements == [] then "[]" else Enclosed('[', Items(elements, indent, depth + 1), ']', indent, depth)
    case Obj(members) =>
      if members == [] then "{}" else Enclosed('{', Entries(members, indent, depth + 1), '}', indent, depth)
  }

  function Items(elements: seq<Json>, indent: Option<string>, depth: nat): (r: seq<string>)
    requires forall e :: e in elements ==> Printable(e)
    ensures |r| == |elements|
  {
    if elements == [] then [] else [Stringify(elements[0], indent, depth)] + Items(elements[1..], indent, depth)
  }

  function Entry(name: string, text: string, indent: Option<string>): string {
    Quoted(name) + (Colon(indent) + text)
  }

  function Entries(members: seq<Property<Json>>, indent: Option<string>, depth: nat): (r: seq<string>)
    requires forall m :: m in members ==> Printable(m.value)
    ensures |r| == |members|
  {
    if members == [] then []
    else
      assert members[0] in members;
      [Entry(members[0].name, Stringify(members[0].value, indent, depth), indent)]
      + Entries(members[1..], indent, depth)
  }

  /** The third argument of `JSON.stringify` when it is an integer: at most ten spaces. */
  function SpaceArgument(n: int32): Option<string> {
    if n <= 0 then None else Some(Repeat(" ", if n > 10 then 10 else n as nat))
  }
}
