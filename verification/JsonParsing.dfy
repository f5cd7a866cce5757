/** The recursive-descent parser of src/builtins/json.rs, which advances a position. */
module JsonParsing {
  import opened Options
  import G = JsonGrammar
  import opened JsonText
  import opened Properties

  datatype Result<+T> = Ok(value: T) | Err(error: G.JsonError)

  /** The parser returned what the grammar says, and stands behind it. */
  ghost predicate Agrees<T>(expected: G.Parsed<T>, r: Result<T>, pos: nat) {
    match expected
    case Parsed(v, next) => r == Ok(v) && pos == next
    case Failed(e) => r == Err(e)
  }

  class JsonParser {
    const chars: string
    var pos: nat

    constructor (input: string)
      ensures chars == input && pos == 0
    {
      chars := input;
      pos := 0;
    }

    function Peek(): (c: Option<char>)
      reads this
      ensures c.Some? <==> pos < |chars|
    {
      if pos < |chars| then Some(chars[pos]) else None
    }

    method Advance() returns (c: Option<char>)
      requires pos <= |chars|
      modifies this
      ensures c == old(Peek()) && pos == old(pos) + if c.Some? then 1 else 0
    {
      c := Peek();
      if c.Some? {
        pos := pos + 1;
      }
    }

    method SkipWhitespace()
      requires pos <= |chars|
      modifies this
      ensures pos == G.SkipSpace(chars, old(pos))
    {
      while pos < |chars| && G.IsSpace(chars[pos])
        invariant pos <= |chars| && G.SkipSpace(chars, pos) == G.SkipSpace(chars, old(pos))
      {
        pos := pos + 1;
      }
    }

    method SkipDigits()
      requires pos <= |chars|
      modifies this
      ensures pos == G.SkipDigits(chars, old(pos))
    {
      while pos < |chars| && G.IsDigit(chars[pos])
        invariant pos <= |chars| && G.SkipDigits(chars, pos) == G.SkipDigits(chars, old(pos))
      {
        pos := pos + 1;
      }
    }

    method Parse() returns (r: Result<Json>)
      requires pos == 0
      modifies this
      ensures pos <= |chars| && Agrees(G.Parse(chars), r, pos)
    {
      SkipWhitespace();
      if pos >= |chars| {
        return Err(G.UnexpectedEnd);
      }
      r := ParseValue();
      if r.Err? {
        return;
      }
      SkipWhitespace();
      if pos < |chars| {
        return Err(G.TrailingText(chars[pos], pos));
      }
    }

    method ParseValue() returns (r: Result<Json>)
      requires pos <= |chars|
      modifies this
      ensures pos <= |chars| && Agrees(G.ParseValue(chars, old(pos)), r, pos)
      decreases |chars| - pos, 1
    {
      SkipWhitespace();
      match Peek() {
        case None => return Err(G.UnexpectedEnd);
        case Some(c) =>
          if c == '{' {
            r := ParseObject();
          } else if c == '[' {
            r := ParseArray();
          } else if c == '"' {
            var s := ParseString();
            r := match s case Ok(text) => Ok(Json.Str(text)) case Err(e) => Err(e);
          } else if c == 't' || c == 'f' {
            r := ParseBoolean();
          } else if c == 'n' {
            r := ParseNull();
          } else if c == '-' || G.IsDigit(c) {
            r := ParseNumber();
          } else {
            r := Err(G.UnexpectedToken(c, pos));
          }
      }
    }

    /** The end of the loops of `parse_object` and `parse_array`: whether another item follows. */
    method ParseSeparator(close: char) returns (r: Result<bool>)
      requires pos <= |chars|
      modifies this
      ensures pos <= |chars| && Agrees(G.ParseSeparator(chars, old(pos), close), r, pos)
    {
      SkipWhitespace();
      if Peek() == Some(',') {
        var _ := Advance();
        SkipWhitespace();
        r := if Peek() == Some(close) then Err(G.TrailingComma(close, pos)) else Ok(true);
      } else if Peek() == Some(close) {
        var _ := Advance();
        r := Ok(false);
      } else {
        r := Err(G.ExpectedCommaOr(close, pos));
      }
    }

    method ParseObject() returns (r: Result<Json>)
      requires pos < |chars|
      modifies this
      ensures pos <= |chars| && Agrees(G.ParseObject(chars, old(pos)), r, pos)
      decreases |chars| - pos, 0
    {
      var _ := Advance();
      SkipWhitespace();
      if Peek() == Some('}') {
        var _ := Advance();
        return Ok(Obj([]));
      }
      var members: seq<Property<Json>> := [];
      ghost var expected := G.ParseObject(chars, old(pos));
      while true
        invariant old(pos) < pos <= |chars|
        invariant G.ParseMembers(chars, pos, members) == expected
        decreases |chars| - pos
      {
        var m := ParseMember();
        if m.Err? {
          return Err(m.error);
        }
        members := SetProperty(members, m.value.name, m.value.value);
        var more := ParseSeparator('}');
        if more.Err? {
          return Err(more.error);
        }
        if !more.value {
          return Ok(Obj(members));
        }
      }
    }

    /** The part of the loop of `parse_object` that reads a name, a colon and a value. */
    method ParseMember() returns (r: Result<Property<Json>>)
      requires pos <= |chars|
      modifies this
      ensures pos <= |chars| && Agrees(G.ParseMember(chars, old(pos)), r, pos)
      decreases |chars| - pos, 2
    {
      SkipWhitespace();
      if Peek() != Some('"') {
        return Err(G.ExpectedKey(pos));
      }
      var name := ParseString();
      if name.Err? {
        return Err(name.error);
      }
      SkipWhitespace();
      if Peek() != Some(':') {
        return Err(G.ExpectedColon(pos));
      }
      var _ := Advance();
      var v := ParseValue();
      r := match v case Ok(value) => Ok(Property(name.value, value)) case Err(e) => Err(e);
    }

    method ParseArray() returns (r: Result<Json>)
      requires pos < |chars|
      modifies this
      ensures pos <= |chars| && Agrees(G.ParseArray(chars, old(pos)), r, pos)
      decreases |chars| - pos, 0
    {
      var _ := Advance();
      SkipWhitespace();
      if Peek() == Some(']') {
        var _ := Advance();
        return Ok(Arr([]));
      }
      var elements: seq<Json> := [];
      ghost var expected := G.ParseArray(chars, old(pos));
      while true
        invariant old(pos) < pos <= |chars|
        invariant G.ParseElements(chars, pos, elements) == expected
        decreases |chars| - pos
      {
        var element := ParseValue();
        if element.Err? {
          return Err(element.error);
        }
        elements := elements + [element.value];
        var more := ParseSeparator(']');
        if more.Err? {
          return Err(more.error);
        }
        if !more.value {
          return Ok(Arr(elements));
        }
      }
    }

    method ParseString() returns (r: Result<string>)
      requires pos < |chars|
      modifies this
      ensures pos <= |chars| && Agrees(G.ParseString(chars, old(pos) + 1, ""), r, pos)
    {
      var _ := Advance();
      var s := "";
      while pos < |chars|
        invariant old(pos) < pos <= |chars|
        invariant G.ParseString(chars, pos, s) == G.ParseString(chars, old(pos) + 1, "")
        decreases |chars| - pos
      {
        var c := chars[pos];
        pos := pos + 1;
        if c == '"' {
          return Ok(s);
        } else if c == '\\' {
          var escaped := ParseEscape();
          if escaped.Err? {
            return Err(escaped.error);
          }
          s := s + [escaped.value];
        } else if c == '\n' || c == '\r' {
          return Err(G.UnescapedControlCharacter);
        } else {
          s := s + [c];
        }
      }
      r := Err(G.UnterminatedString);
    }

    /** The part of the loop of `parse_string` behind a backslash. */
    method ParseEscape() returns (r: Result<char>)
      requires pos <= |chars|
      modifies this
      ensures pos <= |chars| && Agrees(G.ParseEscape(chars, old(pos)), r, pos)
    {
      var c := Advance();
      match c {
        case None => return Err(G.UnterminatedEscape);
        case Some(e) =>
          match e {
            case '"' => r := Ok('"');
            case '\\' => r := Ok('\\');
            case '/' => r := Ok('/');
            case 'b' => r := Ok(BACKSPACE);
            case 'f' => r := Ok(FORM_FEED);
            case 'n' => r := Ok('\n');
            case 'r' => r := Ok('\r');
            case 't' => r := Ok('\t');
            case 'u' => r := ParseHexEscape();
            case _ => r := Err(G.InvalidEscape(e));
          }
      }
    }

    method ParseHexEscape() returns (r: Result<char>)
      requires pos <= |chars|
      modifies this
      ensures pos <= |chars| && Agrees(G.ParseHexEscape(chars, old(pos)), r, pos)
    {
      var hex := "";
      for i := 0 to 4
        invariant pos == old(pos) + i <= |chars| && hex == chars[old(pos)..pos]
      {
        var h := Advance();
        if h.None? {
          return Err(G.IncompleteHexEscape);
        }
        hex := hex + [h.value];
      }
      match G.FromHex(hex) {
        case None => r := Err(G.InvalidHexEscape(hex));
        case Some(code) => r := Ok(G.CharOf(code));
      }
    }

    method StartsWith(word: string) returns (yes: bool)
      requires pos <= |chars|
      ensures yes == G.At(chars, pos, word)
    {
      yes := pos + |word| <= |chars| && chars[pos..pos + |word|] == word;
    }

    method ParseBoolean() returns (r: Result<Json>)
      requires pos <= |chars|
      modifies this
      ensures pos <= |chars| && Agrees(G.ParseBoolean(chars, old(pos)), r, pos)
    {
      var isTrue := StartsWith("true");
      var isFalse := StartsWith("false");
      if isTrue {
        pos := pos + 4;
        r := Ok(Bool(true));
      } else if isFalse {
        pos := pos + 5;
        r := Ok(Bool(false));
      } else {
        r := Err(G.InvalidToken(pos));
      }
    }

    method ParseNull() returns (r: Result<Json>)
      requires pos <= |chars|
      modifies this
      ensures pos <= |chars| && Agrees(G.ParseNull(chars, old(pos)), r, pos)
    {
      var isNull := StartsWith("null");
      if isNull {
        pos := pos + 4;
        r := Ok(Json.Null);
      } else {
        r := Err(G.InvalidToken(pos));
      }
    }

    /** The part of `parse_number` that reads a fraction, if there is one. */
    method ParseFraction(start: nat) returns (r: Result<bool>)
      requires pos <= |chars|
      modifies this
      ensures pos <= |chars| && Agrees(G.ParseFraction(chars, old(pos), start), r, pos)
    {
      if Peek() != Some('.') {
        return Ok(false);
      }
      var _ := Advance();
      var fraction := pos;
      SkipDigits();
      r := if pos == fraction then Err(G.InvalidFraction(start)) else Ok(true);
    }

    /** The part of `parse_number` that reads an exponent, if there is one. */
    method ParseExponent(start: nat) returns (r: Result<bool>)
      requires pos <= |chars|
      modifies this
      ensures pos <= |chars| && Agrees(G.ParseExponent(chars, old(pos), start), r, pos)
    {
      if Peek() != Some('e') && Peek() != Some('E') {
        return Ok(false);
      }
      var _ := Advance();
      if Peek() == Some('+') || Peek() == Some('-') {
        var _ := Advance();
      }
      var exponent := pos;
      SkipDigits();
      r := if pos == exponent then Err(G.InvalidExponent(start)) else Ok(true);
    }

    method ParseNumber() returns (r: Result<Json>)
      requires pos <= |chars|
      modifies this
      ensures pos <= |chars| && Agrees(G.ParseNumber(chars, old(pos)), r, pos)
    {
      var start := pos;
      if Peek() == Some('-') {
        var _ := Advance();
      }
      var digits := pos;
      SkipDigits();
      if pos == digits {
        return Err(G.InvalidNumber(start));
      }
      var end := pos;
      var fraction := ParseFraction(start);
      if fraction.Err? {
        return Err(fraction.error);
      }
      var exponent := ParseExponent(start);
      if exponent.Err? {
        return Err(exponent.error);
      }
      if fraction.value || exponent.value {
        r := Ok(Json.Number(chars[start..pos]));
      } else {
        G.SkippedAreDigits(chars, digits);
        r := Ok(G.IntegerLiteral(digits > start, chars[digits..end]));
      }
    }
  }
}
