/** The parser accepts exactly the texts of the grammar, and reads what they denote. */
module JsonAcceptance {
  import opened Options
  import opened JsonConformance
  import opened JsonGrammar
  import opened JsonReading
  import opened JsonRoundTrip
  import opened JsonSyntax
  import opened JsonText
  import opened Properties
  import opened Values

  // ---- White space --------------------------------------------------------------------------

  lemma {:induction false} BlankIsSkipped(chars: string, a: nat, b: nat)
    requires Blank(chars, a, b) && (b < |chars| ==> !IsSpace(chars[b]))
    ensures SkipSpace(chars, a) == b
    decreases b - a
  {
    if a < b { BlankIsSkipped(chars, a + 1, b); }
  }

  lemma {:induction false} SkippedIsBlank(chars: string, a: nat)
    requires a <= |chars|
    ensures Blank(chars, a, SkipSpace(chars, a))
    ensures SkipSpace(chars, a) < |chars| ==> !IsSpace(chars[SkipSpace(chars, a)])
    decreases |chars| - a
  {
    if a < |chars| && IsSpace(chars[a]) { SkippedIsBlank(chars, a + 1); }
  }

  // ---- Strings ------------------------------------------------------------------------------

  lemma PlusDigits(hex: string, j: nat, k: nat, l: nat)
    requires |hex| == 4 && hex[0] == '+' && IsNibble(hex[1], j) && IsNibble(hex[2], k) && IsNibble(hex[3], l)
    ensures FromHex(hex) == Some(256 * j + 16 * k + l)
  {
    var digits := "0" + hex[1..];
    assert IsNibble('0', 0);
    FourNibbles(digits, 0, j, k, l);
    LeadingZeroDigit(hex[1..]);
  }

  lemma {:induction false} LeadingZeroDigit(digits: string)
    ensures HexNumber("0" + digits) == HexNumber(digits)
  {
    if digits == "" {
      assert ("0" + digits)[..0] == "";
    } else {
      var n := |digits| - 1;
      assert ("0" + digits)[..n + 1] == "0" + digits[..n];
      LeadingZeroDigit(digits[..n]);
    }
  }

  lemma FourDigitsRead(d: Dialect, hex: string, read: char)
    requires FourDigits(d, hex, read)
    ensures FromHex(hex).Some? && CharOf(FromHex(hex).value) == read
  {
    hide FromHex, IsNibble;
    var i: nat, j: nat, k: nat, l: nat :|
      && FirstNibble(d, hex[0], i) && IsNibble(hex[1], j) && IsNibble(hex[2], k) && IsNibble(hex[3], l)
      && HasCode(read, 4096 * i + 256 * j + 16 * k + l);
    if IsNibble(hex[0], i) {
      FourDigitsValue(hex, i, j, k, l);
    } else {
      PlusDigits(hex, j, k, l);
    }
  }

  /** The next character of a string. */
  lemma CharacterRead(d: Dialect, chars: string, a: nat, b: nat, read: char, s: string)
    requires Character(d, chars, a, b, read)
    ensures ParseString(chars, a, s) == ParseString(chars, b, s + [read])
  {
    if b == a + 1 {
      PlainCharacterReads(chars, a, s);
    } else if b == a + 2 {
      ShortEscapeReads(chars, a, s, read);
    } else {
      FourDigitsRead(d, chars[a + 2..b], read);
      assert ParseHexEscape(chars, a + 2) == Parsed(read, a + 6);
      ReadsEscape(chars, a, read, a + 6, s);
    }
  }

  lemma {:induction false} CharactersRead(d: Dialect, chars: string, a: nat, b: nat, s: string, done: string)
    requires Characters(d, chars, a, b, s) && Sees(chars, b, '"')
    ensures ReadsString(chars, a, done, done + s, b + 1)
    decreases |s|
  {
    if s == "" {
      assert done + s == done;
      ClosingQuote(chars, a, done);
    } else {
      var c: nat :| a < c <= b && Character(d, chars, a, c, s[0]) && Characters(d, chars, c, b, s[1..]);
      CharacterRead(d, chars, a, c, s[0], done);
      CharactersRead(d, chars, c, b, s[1..], done + [s[0]]);
      MoveFirst(done, s);
    }
  }

  lemma StringRead(d: Dialect, chars: string, a: nat, b: nat, s: string)
    requires StringText(d, chars, a, b, s)
    ensures Sees(chars, a, '"') && ReadsString(chars, a + 1, "", s, b)
  {
    CharactersRead(d, chars, a + 1, b - 1, s, "");
    NothingDone(s);
  }

  // ---- Numbers ------------------------------------------------------------------------------

  lemma {:induction false} DigitsAreSkipped(chars: string, a: nat, b: nat)
    requires a <= b <= |chars| && (forall i :: a <= i < b ==> '0' <= chars[i] <= '9')
    requires b < |chars| ==> !IsDigit(chars[b])
    ensures SkipDigits(chars, a) == b
    decreases b - a
  {
    if a < b { DigitsAreSkipped(chars, a + 1, b); }
  }

  lemma FractionRead(chars: string, a: nat, b: nat, start: nat)
    requires a <= b <= |chars| && Fraction(chars, a, b)
    requires b < |chars| ==> !IsDigit(chars[b]) && chars[b] != '.'
    ensures ParseFraction(chars, a, start) == Parsed(a < b, b)
  {
    if a < b { DigitsAreSkipped(chars, a + 1, b); }
  }

  lemma ExponentRead(chars: string, a: nat, b: nat, start: nat)
    requires a <= b <= |chars| && Exponent(chars, a, b) && NumberEnds(chars, b)
    ensures ParseExponent(chars, a, start) == Parsed(a < b, b)
  {
    if a < b {
      if chars[a + 1] in {'+', '-'} {
        DigitsAreSkipped(chars, a + 2, b);
      } else {
        DigitsAreSkipped(chars, a + 1, b);
      }
    }
  }

  lemma DigitsRead(text: string, digits: string, negative: bool, v: Json)
    requires DigitsDenote(text, negative, v) && text == (if negative then "-" else "") + digits
    ensures forall i :: 0 <= i < |digits| ==> IsDigit(digits[i])
    ensures IntegerLiteral(negative, digits) == v
  {
    var ds :| IntegerDenotes(text, negative, ds, v);
    NumeralIsPositional(ds);
    assert text[if negative then 1 else 0..] == digits == Numeral(ds);
  }

  lemma NumberPartsRead(d: Dialect, chars: string, a: nat, first: nat, e: nat, f: nat, b: nat, v: Json)
    requires NumberParts(d, chars, a, first, e, f, b) && NumberDenotes(chars, a, first, e, b, v)
    requires NumberEnds(chars, b)
    ensures ParseNumber(chars, a) == Parsed(v, b)
  {
    DigitsAreSkipped(chars, first, e);
    FractionRead(chars, e, f, a);
    ExponentRead(chars, f, b, a);
    if e == b {
      assert chars[a..b] == (if first > a then "-" else "") + chars[first..e];
      DigitsRead(chars[a..b], chars[first..e], first > a, v);
    }
  }

  lemma NumberRead(d: Dialect, chars: string, a: nat, b: nat, v: Json)
    requires NumberText(d, chars, a, b, v) && NumberEnds(chars, b)
    ensures ReadsValue(chars, a, v, b)
  {
    var first: nat, e: nat, f: nat :|
      NumberParts(d, chars, a, first, e, f, b) && NumberDenotes(chars, a, first, e, b, v);
    NumberPartsRead(d, chars, a, first, e, f, b, v);
    NumberValue(chars, a);
  }

  // ---- Values -------------------------------------------------------------------------------

  /** A value starts with no character that the parser skips or stops at. */
  lemma ValueStartsHere(d: Dialect, chars: string, a: nat, b: nat, v: Json)
    requires a <= b && ValueText(d, chars, a, b, v)
    ensures a < b <= |chars| && !IsSpace(chars[a]) && !IsCloser(chars[a])
  {
    match v
    case Null => assert chars[a] == chars[a..b][0];
    case Bool(_) => assert chars[a] == chars[a..b][0];
    case _ =>
  }

  lemma LiteralRead(d: Dialect, chars: string, a: nat, b: nat, v: Json)
    requires a <= b && (v.Null? || v.Bool?) && ValueText(d, chars, a, b, v)
    ensures ReadsValue(chars, a, v, b)
  {
    if v.Null? {
      assert At(chars, a, "null");
      NullRoundTrip(chars, a);
    } else {
      assert At(chars, a, if v.b then "true" else "false");
      BoolRoundTrip(chars, a, v.b);
    }
  }

  lemma PunctuationEndsNumbers(chars: string, a: nat)
    requires a < |chars| && chars[a] in {',', ']', '}'}
    ensures NumberEnds(chars, a)
  {
  }

  lemma SpaceEndsNumbers(chars: string, a: nat, b: nat)
    requires Blank(chars, a, b) && NumberEnds(chars, b)
    ensures NumberEnds(chars, a)
  {
  }

  lemma SameValue(chars: string, a: nat)
    requires a <= |chars|
    ensures ParseValue(chars, SkipSpace(chars, a)) == ParseValue(chars, a)
  {
    SkippedIsBlank(chars, a);
  }

  /** The parser reads the elements alike from behind the leading white space. */
  lemma ElementsBehindSpace(chars: string, a: nat, first: nat, done: seq<Json>, v: Json, next: nat)
    requires a <= |chars| && first == SkipSpace(chars, a) && ReadsElements(chars, a, done, v, next)
    ensures ReadsElements(chars, first, done, v, next)
  {
    hide ParseValue, ParseSeparator;
    SameValue(chars, a);
  }

  lemma SameMember(chars: string, a: nat)
    requires a <= |chars|
    ensures ParseMember(chars, SkipSpace(chars, a)) == ParseMember(chars, a)
  {
    hide ParseString, ParseValue;
    SkippedIsBlank(chars, a);
  }

  lemma MembersBehindSpace(chars: string, a: nat, first: nat, done: seq<Property<Json>>, v: Json, next: nat)
    requires a <= |chars| && first == SkipSpace(chars, a) && ReadsMembers(chars, a, done, v, next)
    ensures ReadsMembers(chars, first, done, v, next)
  {
    hide ParseMember, ParseSeparator;
    SameMember(chars, a);
  }

  lemma ClosesBehindSpace(chars: string, y: nat, b: nat, close: char)
    requires Blank(chars, y, b) && Sees(chars, b, close) && IsCloser(close)
    ensures Closes(chars, y, close, b + 1)
  {
    BlankIsSkipped(chars, y, b);
  }

  lemma ContinuesBehindSpace(chars: string, y: nat, c: nat, close: char, after: nat)
    requires Blank(chars, y, c) && Sees(chars, c, ',') && after == SkipSpace(chars, c + 1) && !Sees(chars, after, close)
    ensures Continues(chars, y, close, after)
  {
    BlankIsSkipped(chars, y, c);
  }

  lemma SpacedStarts(d: Dialect, chars: string, a: nat, b: nat, v: Json)
    requires a <= b && SpacedValue(d, chars, a, b, v)
    ensures b <= |chars| && SkipSpace(chars, a) < b && !IsCloser(chars[SkipSpace(chars, a)])
  {
    var x: nat, y: nat :| a <= x <= y <= b && Blank(chars, a, x) && ValueText(d, chars, x, y, v) && Blank(chars, y, b);
    ValueStartsHere(d, chars, x, y, v);
    BlankIsSkipped(chars, a, x);
  }

  lemma ElementsStart(d: Dialect, chars: string, a: nat, b: nat, elements: seq<Json>)
    requires a <= b && elements != [] && ElementsText(d, chars, a, b, elements)
    ensures b <= |chars| && SkipSpace(chars, a) < |chars| && !IsCloser(chars[SkipSpace(chars, a)])
  {
    if |elements| == 1 {
      SpacedStarts(d, chars, a, b, elements[0]);
    } else {
      var c: nat :| CommaAt(chars, a, c, b) && SpacedValue(d, chars, a, c, elements[0])
                    && ElementsText(d, chars, c + 1, b, elements[1..]);
      SpacedStarts(d, chars, a, c, elements[0]);
    }
  }

  lemma MemberStarts(d: Dialect, chars: string, a: nat, b: nat, m: Property<Json>)
    requires a <= b && MemberText(d, chars, a, b, m)
    ensures b <= |chars| && Sees(chars, SkipSpace(chars, a), '"')
  {
    var x: nat, y: nat, c: nat :| NameText(d, chars, a, x, y, c, b, m.name) && SpacedValue(d, chars, c + 1, b, m.value);
    BlankIsSkipped(chars, a, x);
  }

  lemma MembersStart(d: Dialect, chars: string, a: nat, b: nat, members: seq<Property<Json>>)
    requires a <= b && members != [] && MembersText(d, chars, a, b, members)
    ensures b <= |chars| && Sees(chars, SkipSpace(chars, a), '"')
  {
    if |members| == 1 {
      MemberStarts(d, chars, a, b, members[0]);
    } else {
      var c: nat :| CommaAt(chars, a, c, b) && MemberText(d, chars, a, c, members[0])
                    && MembersText(d, chars, c + 1, b, members[1..]);
      MemberStarts(d, chars, a, c, members[0]);
    }
  }

  /** A value of the grammar is read, wherever it stands, if it is not a number that goes on. */
  lemma {:induction false} ValueRead(d: Dialect, chars: string, a: nat, b: nat, v: Json)
    requires a <= b && ValueText(d, chars, a, b, v) && NumberEnds(chars, b)
    ensures ReadsValue(chars, a, v, b)
    decreases b - a, 1
  {
    match v
    case Null => LiteralRead(d, chars, a, b, v);
    case Bool(_) => LiteralRead(d, chars, a, b, v);
    case Smi(_) => NumberRead(d, chars, a, b, v);
    case Number(_) => NumberRead(d, chars, a, b, v);
    case Str(s) =>
      StringRead(d, chars, a, b, s);
      StringValue(chars, a, s, b);
    case Arr(elements) => ArrayRead(d, chars, a, b, elements);
    case Obj(members) =>
      var all :| MembersText(d, chars, a + 1, b - 1, all) && members == MergedInto([], all);
      ObjectRead(d, chars, a, b, all);
  }

  /** `y` is where the value ends and white space up to `b` begins. */
  lemma {:induction false} SpacedRead(d: Dialect, chars: string, a: nat, b: nat, v: Json) returns (y: nat)
    requires a <= b && SpacedValue(d, chars, a, b, v) && NumberEnds(chars, b)
    ensures ReadsValue(chars, a, v, y) && Blank(chars, y, b)
    decreases b - a, 2
  {
    hide ReadsValue, NumberEnds, ValueText;
    var x: nat, z: nat :| a <= x <= z <= b && Blank(chars, a, x) && ValueText(d, chars, x, z, v) && Blank(chars, z, b);
    y := z;
    SpaceEndsNumbers(chars, y, b);
    ValueRead(d, chars, x, y, v);
    ValueStartsHere(d, chars, x, y, v);
    BlankIsSkipped(chars, a, x);
    BlankIsSkipped(chars, x, x);
    ValueBehindSpace(chars, a, x, v, y);
  }

  lemma {:induction false} ElementsRead(d: Dialect, chars: string, a: nat, b: nat, elements: seq<Json>, done: seq<Json>)
    requires a <= b && elements != [] && ElementsText(d, chars, a, b, elements) && Sees(chars, b, ']')
    ensures ReadsElements(chars, a, done, Arr(done + elements), b + 1)
    decreases b - a, 3
  {
    hide ReadsValue, ReadsElements, NumberEnds, SpacedValue, Closes, Continues;
    MoveFirst(done, elements);
    if |elements| == 1 {
      PunctuationEndsNumbers(chars, b);
      var y := SpacedRead(d, chars, a, b, elements[0]);
      ClosesBehindSpace(chars, y, b, ']');
      LastElement(chars, a, done, elements[0], y, b + 1);
    } else {
      var c: nat :| CommaAt(chars, a, c, b) && SpacedValue(d, chars, a, c, elements[0])
                    && ElementsText(d, chars, c + 1, b, elements[1..]);
      PunctuationEndsNumbers(chars, c);
      var y := SpacedRead(d, chars, a, c, elements[0]);
      var after := SkipSpace(chars, c + 1);
      ElementsStart(d, chars, c + 1, b, elements[1..]);
      ContinuesBehindSpace(chars, y, c, ']', after);
      ElementsRead(d, chars, c + 1, b, elements[1..], done + [elements[0]]);
      ElementsBehindSpace(chars, c + 1, after, done + [elements[0]], Arr(done + elements), b + 1);
      NextElement(chars, a, done, elements[0], y, after, Arr(done + elements), b + 1);
    }
  }

  lemma {:induction false} ArrayRead(d: Dialect, chars: string, a: nat, b: nat, elements: seq<Json>)
    requires a + 2 <= b <= |chars| && chars[a] == '[' && chars[b - 1] == ']'
    requires ElementsText(d, chars, a + 1, b - 1, elements)
    ensures ReadsValue(chars, a, Arr(elements), b)
    decreases b - a, 0
  {
    var first := SkipSpace(chars, a + 1);
    if elements == [] {
      BlankIsSkipped(chars, a + 1, b - 1);
      EmptyArrayRead(chars, a, b);
    } else {
      ElementsStart(d, chars, a + 1, b - 1, elements);
      ElementsRead(d, chars, a + 1, b - 1, elements, []);
      NothingDone(elements);
      ElementsBehindSpace(chars, a + 1, first, [], Arr(elements), b);
      ArrayValue(chars, a, first, Arr(elements), b);
    }
  }

  lemma EmptyArrayRead(chars: string, a: nat, b: nat)
    requires a + 2 <= b <= |chars| && chars[a] == '[' && chars[b - 1] == ']' && SkipSpace(chars, a + 1) == b - 1
    ensures ReadsValue(chars, a, Arr([]), b)
  {
    assert ParseArray(chars, a) == Parsed(Arr([]), b);
  }

  lemma EmptyObjectRead(chars: string, a: nat, b: nat)
    requires a + 2 <= b <= |chars| && chars[a] == '{' && chars[b - 1] == '}' && SkipSpace(chars, a + 1) == b - 1
    ensures ReadsValue(chars, a, Obj([]), b)
  {
    assert ParseObject(chars, a) == Parsed(Obj([]), b);
  }

  lemma {:induction false} MemberRead(d: Dialect, chars: string, a: nat, b: nat, m: Property<Json>) returns (y: nat)
    requires a <= b && MemberText(d, chars, a, b, m) && NumberEnds(chars, b)
    ensures ReadsMember(chars, a, m, y) && Blank(chars, y, b)
    decreases b - a, 4
  {
    hide ReadsValue, ReadsMember, NumberEnds, SpacedValue, StringText, Blank;
    var x: nat, z: nat, c: nat :| NameText(d, chars, a, x, z, c, b, m.name) && SpacedValue(d, chars, c + 1, b, m.value);
    y := SpacedRead(d, chars, c + 1, b, m.value);
    NameRead(d, chars, a, x, z, c, b, m, y);
  }

  lemma NameRead(d: Dialect, chars: string, a: nat, x: nat, z: nat, c: nat, b: nat, m: Property<Json>, y: nat)
    requires NameText(d, chars, a, x, z, c, b, m.name) && ReadsValue(chars, c + 1, m.value, y)
    ensures ReadsMember(chars, a, m, y)
  {
    hide ReadsMember, ReadsValue;
    StringRead(d, chars, x, z, m.name);
    BlankIsSkipped(chars, a, x);
    BlankIsSkipped(chars, z, c);
    hide *;
    SpacedMemberParts(chars, a, x, m.name, z, c, m.value, y);
    assert Property(m.name, m.value) == m;
  }

  lemma SpacedMemberParts(chars: string, a: nat, x: nat, name: string, z: nat, c: nat, v: Json, y: nat)
    requires a <= |chars| && SkipSpace(chars, a) == x && Sees(chars, x, '"') && ReadsString(chars, x + 1, "", name, z)
    requires z <= |chars| && SkipSpace(chars, z) == c && Sees(chars, c, ':') && ReadsValue(chars, c + 1, v, y)
    ensures ReadsMember(chars, a, Property(name, v), y)
  {
  }

  lemma {:induction false} MembersRead(d: Dialect, chars: string, a: nat, b: nat, members: seq<Property<Json>>,
                                       done: seq<Property<Json>>)
    requires a <= b && members != [] && MembersText(d, chars, a, b, members) && Sees(chars, b, '}')
    ensures ReadsMembers(chars, a, done, Obj(MergedInto(done, members)), b + 1)
    decreases b - a, 5
  {
    hide ReadsMember, ReadsMembers, NumberEnds, MemberText, Closes, Continues;
    var all := Obj(MergedInto(done, members));
    var more := SetProperty(done, members[0].name, members[0].value);
    if |members| == 1 {
      PunctuationEndsNumbers(chars, b);
      var y := MemberRead(d, chars, a, b, members[0]);
      ClosesBehindSpace(chars, y, b, '}');
      LastMember(chars, a, done, members[0], y, b + 1);
    } else {
      var c: nat :| CommaAt(chars, a, c, b) && MemberText(d, chars, a, c, members[0])
                    && MembersText(d, chars, c + 1, b, members[1..]);
      PunctuationEndsNumbers(chars, c);
      var y := MemberRead(d, chars, a, c, members[0]);
      var after := SkipSpace(chars, c + 1);
      MembersStart(d, chars, c + 1, b, members[1..]);
      ContinuesBehindSpace(chars, y, c, '}', after);
      MembersRead(d, chars, c + 1, b, members[1..], more);
      MembersBehindSpace(chars, c + 1, after, more, all, b + 1);
      NextMember(chars, a, done, members[0], y, after, all, b + 1);
    }
  }

  lemma {:induction false} ObjectRead(d: Dialect, chars: string, a: nat, b: nat, all: seq<Property<Json>>)
    requires a + 2 <= b <= |chars| && chars[a] == '{' && chars[b - 1] == '}'
    requires MembersText(d, chars, a + 1, b - 1, all)
    ensures ReadsValue(chars, a, Obj(MergedInto([], all)), b)
    decreases b - a, 0
  {
    var first := SkipSpace(chars, a + 1);
    if all == [] {
      BlankIsSkipped(chars, a + 1, b - 1);
      EmptyObjectRead(chars, a, b);
    } else {
      MembersStart(d, chars, a + 1, b - 1, all);
      MembersRead(d, chars, a + 1, b - 1, all, []);
      MembersBehindSpace(chars, a + 1, first, [], Obj(MergedInto([], all)), b);
      ObjectValue(chars, a, first, Obj(MergedInto([], all)), b);
    }
  }
}
