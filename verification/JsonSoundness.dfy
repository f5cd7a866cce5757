module JsonSoundness {
  // What the parser accepts is a text of the grammar, and it reads what the text denotes.

  import opened Options
  import opened JsonAcceptance
  import opened JsonConformance
  import opened JsonGrammar
  import opened JsonReading
  import opened JsonRoundTrip
  import opened JsonSyntax
  import opened JsonText
  import opened Properties
  import opened Values

  // ---- Strings ------------------------------------------------------------------------------

  lemma DigitHasNibble(hex: string, i: nat) returns (v: nat)
    requires i < |hex| && IsHexDigit(hex[i])
    ensures IsNibble(hex[i], v)
  {
    ValueIsNibble(hex[i]);
    v := HexValue(hex[i]).value;
  }

  lemma HexIsFourDigits(hex: string, code: nat)
    requires |hex| == 4 && FromHex(hex) == Some(code)
    ensures FourDigits(Lenient, hex, CharOf(code))
  {
    hide FromHex, HexNumber, HexValue, IsNibble;
    FromHexIff(hex);
    assert hex[0] == '+' || IsHexDigit(hex[0]);
    assert IsHexDigit(hex[1]) && IsHexDigit(hex[2]) && IsHexDigit(hex[3]) by {
      assert AllHexDigits(hex[1..]) ==> IsHexDigit(hex[1..][0]) && IsHexDigit(hex[1..][1]) && IsHexDigit(hex[1..][2]);
    }
    var j := DigitHasNibble(hex, 1);
    var k := DigitHasNibble(hex, 2);
    var l := DigitHasNibble(hex, 3);
    if hex[0] == '+' {
      PlusDigits(hex, j, k, l);
      assert FirstNibble(Lenient, hex[0], 0) && HasCode(CharOf(code), 4096 * 0 + 256 * j + 16 * k + l);
    } else {
      var i := DigitHasNibble(hex, 0);
      FourDigitsValue(hex, i, j, k, l);
      assert FirstNibble(Lenient, hex[0], i) && HasCode(CharOf(code), 4096 * i + 256 * j + 16 * k + l);
    }
  }

  lemma EscapeIsCharacter(chars: string, a: nat, c: char, b: nat)
    requires Sees(chars, a, '\\') && ParseEscape(chars, a + 1) == Parsed(c, b)
    ensures Character(Lenient, chars, a, b, c)
  {
    if chars[a + 1] == 'u' {
      var hex := chars[a + 2..a + 6];
      HexIsFourDigits(hex, FromHex(hex).value);
    }
  }

  lemma {:induction false} StringIsCharacters(chars: string, a: nat, done: string) returns (s: string)
    requires a <= |chars| && ParseString(chars, a, done).Parsed?
    ensures
      var r := ParseString(chars, a, done);
      && a < r.next && r.value == done + s && Sees(chars, r.next - 1, '"')
      && Characters(Lenient, chars, a, r.next - 1, s)
    decreases |chars| - a
  {
    hide ParseEscape, Character;
    if chars[a] == '"' {
      s := "";
    } else {
      var c, b := NextCharacter(chars, a, done);
      var rest := StringIsCharacters(chars, b, done + [c]);
      s := [c] + rest;
      assert s[1..] == rest && (done + [c]) + rest == done + s;
    }
  }

  lemma NextCharacter(chars: string, a: nat, done: string) returns (c: char, b: nat)
    requires a < |chars| && chars[a] != '"' && ParseString(chars, a, done).Parsed?
    ensures a < b <= |chars| && Character(Lenient, chars, a, b, c)
    ensures ParseString(chars, a, done) == ParseString(chars, b, done + [c])
  {
    if chars[a] == '\\' {
      c, b := ParseEscape(chars, a + 1).value, ParseEscape(chars, a + 1).next;
      EscapeIsCharacter(chars, a, c, b);
    } else {
      c, b := chars[a], a + 1;
    }
  }

  // ---- Numbers ------------------------------------------------------------------------------

  lemma SkippedDigits(chars: string, a: nat)
    requires a <= |chars| && SkipDigits(chars, a) != a
    ensures Digits(chars, a, SkipDigits(chars, a))
  {
    SkippedAreDigits(chars, a);
  }

  lemma FractionIsText(chars: string, a: nat, start: nat)
    requires a <= |chars| && ParseFraction(chars, a, start).Parsed?
    ensures Fraction(chars, a, ParseFraction(chars, a, start).next)
    ensures ParseFraction(chars, a, start).value <==> a < ParseFraction(chars, a, start).next
  {
    if Sees(chars, a, '.') { SkippedDigits(chars, a + 1); }
  }

  lemma ExponentIsText(chars: string, a: nat, start: nat)
    requires a <= |chars| && ParseExponent(chars, a, start).Parsed?
    ensures Exponent(chars, a, ParseExponent(chars, a, start).next)
    ensures ParseExponent(chars, a, start).value <==> a < ParseExponent(chars, a, start).next
  {
    if Sees(chars, a, 'e') || Sees(chars, a, 'E') {
      SkippedDigits(chars, if Sees(chars, a + 1, '+') || Sees(chars, a + 1, '-') then a + 2 else a + 1);
    }
  }

  lemma {:induction false} DigitsAreNumeral(digits: string) returns (ds: seq<nat>)
    requires forall i :: 0 <= i < |digits| ==> IsDigit(digits[i])
    ensures AreDigits(ds) && Numeral(ds) == digits && Positional(ds) == DigitsValue(digits)
  {
    ds := seq(|digits|, i requires 0 <= i < |digits| => digits[i] as int - '0' as int);
    forall i | 0 <= i < |digits| ensures Numeral(ds)[i] == digits[i] {
      assert LOWER[ds[i]] == digits[i];
    }
    NumeralIsPositional(ds);
  }

  lemma LiteralDenotes(text: string, digits: string, negative: bool)
    requires text == (if negative then "-" else "") + digits
    requires forall i :: 0 <= i < |digits| ==> IsDigit(digits[i])
    ensures DigitsDenote(text, negative, IntegerLiteral(negative, digits))
  {
    var ds := DigitsAreNumeral(digits);
    assert IntegerDenotes(text, negative, ds, IntegerLiteral(negative, digits));
  }

  lemma NumberIsText(chars: string, a: nat)
    requires a < |chars| && ParseNumber(chars, a).Parsed?
    ensures
      var r := ParseNumber(chars, a);
      && a < r.next <= |chars| && (r.value.Smi? || r.value.Number?)
      && NumberText(Lenient, chars, a, r.next, r.value)
  {
    var first := if Sees(chars, a, '-') then a + 1 else a;
    var e := SkipDigits(chars, first);
    var f := ParseFraction(chars, e, a).next;
    var r := ParseNumber(chars, a);
    SkippedDigits(chars, first);
    FractionIsText(chars, e, a);
    ExponentIsText(chars, f, a);
    assert NumberParts(Lenient, chars, a, first, e, f, r.next);
    NumberIsDenoted(chars, a, first, e, r);
    assert NumberDenotes(chars, a, first, e, r.next, r.value);
  }

  lemma NumberIsRead(chars: string, a: nat, first: nat, e: nat, r: Parsed<Json>)
    requires a < |chars| && r == ParseNumber(chars, a) && r.Parsed?
    requires first == (if Sees(chars, a, '-') then a + 1 else a) && e == SkipDigits(chars, first)
    ensures a <= first <= e <= r.next <= |chars|
    ensures forall i :: 0 <= i < |chars[first..e]| ==> IsDigit(chars[first..e][i])
    ensures r.value == if e == r.next then IntegerLiteral(first > a, chars[first..e]) else Json.Number(chars[a..r.next])
  {
    SkippedAreDigits(chars, first);
    var f := ParseFraction(chars, e, a);
    FractionIsText(chars, e, a);
    ExponentIsText(chars, f.next, a);
  }

  lemma NumberIsDenoted(chars: string, a: nat, first: nat, e: nat, r: Parsed<Json>)
    requires a < |chars| && r == ParseNumber(chars, a) && r.Parsed?
    requires first == (if Sees(chars, a, '-') then a + 1 else a) && e == SkipDigits(chars, first)
    ensures a <= r.next <= |chars| && NumberDenotes(chars, a, first, e, r.next, r.value)
  {
    hide ParseNumber, IntegerLiteral, SkipDigits;
    NumberIsRead(chars, a, first, e, r);
    if e == r.next {
      assert chars[a..e] == (if first > a then "-" else "") + chars[first..e];
      LiteralDenotes(chars[a..e], chars[first..e], first > a);
    }
  }

  // ---- Values -------------------------------------------------------------------------------

  lemma BlankTwice(chars: string, a: nat, b: nat, c: nat)
    requires Blank(chars, a, b) && Blank(chars, b, c)
    ensures Blank(chars, a, c)
  {
  }

  /** White space in front belongs to a value, to a member and so to a list of either. */
  lemma SpaceBeforeValue(chars: string, a: nat, first: nat, b: nat, v: Json)
    requires first <= b && Blank(chars, a, first) && SpacedValue(Lenient, chars, first, b, v)
    ensures SpacedValue(Lenient, chars, a, b, v)
  {
    hide ValueText;
    var x: nat, y: nat :| first <= x <= y <= b && Blank(chars, first, x) && ValueText(Lenient, chars, x, y, v)
                          && Blank(chars, y, b);
    BlankTwice(chars, a, first, x);
  }

  lemma SpaceBeforeElements(chars: string, a: nat, first: nat, b: nat, elements: seq<Json>)
    requires first <= b && Blank(chars, a, first) && elements != [] && ElementsText(Lenient, chars, first, b, elements)
    ensures ElementsText(Lenient, chars, a, b, elements)
  {
    hide SpacedValue;
    if |elements| == 1 {
      SpaceBeforeValue(chars, a, first, b, elements[0]);
    } else {
      var c: nat :| CommaAt(chars, first, c, b) && SpacedValue(Lenient, chars, first, c, elements[0])
                    && ElementsText(Lenient, chars, c + 1, b, elements[1..]);
      SpaceBeforeValue(chars, a, first, c, elements[0]);
      assert CommaAt(chars, a, c, b);
    }
  }

  lemma SpaceBeforeMember(chars: string, a: nat, first: nat, b: nat, m: Property<Json>)
    requires first <= b && Blank(chars, a, first) && MemberText(Lenient, chars, first, b, m)
    ensures MemberText(Lenient, chars, a, b, m)
  {
    hide SpacedValue, StringText;
    var x: nat, y: nat, c: nat :| NameText(Lenient, chars, first, x, y, c, b, m.name)
                                  && SpacedValue(Lenient, chars, c + 1, b, m.value);
    BlankTwice(chars, a, first, x);
    assert NameText(Lenient, chars, a, x, y, c, b, m.name);
  }

  lemma SpaceBeforeMembers(chars: string, a: nat, first: nat, b: nat, members: seq<Property<Json>>)
    requires first <= b && Blank(chars, a, first) && members != [] && MembersText(Lenient, chars, first, b, members)
    ensures MembersText(Lenient, chars, a, b, members)
  {
    hide MemberText;
    if |members| == 1 {
      SpaceBeforeMember(chars, a, first, b, members[0]);
    } else {
      var c: nat :| CommaAt(chars, first, c, b) && MemberText(Lenient, chars, first, c, members[0])
                    && MembersText(Lenient, chars, c + 1, b, members[1..]);
      SpaceBeforeMember(chars, a, first, c, members[0]);
      assert CommaAt(chars, a, c, b);
    }
  }

  /** What the separator is: white space up to `q` and there a comma or the closing bracket. */
  lemma SeparatorIs(chars: string, y: nat, close: char) returns (q: nat)
    requires y <= |chars| && ParseSeparator(chars, y, close).Parsed? && close != ','
    ensures
      var r := ParseSeparator(chars, y, close);
      && q < r.next <= |chars| && Blank(chars, y, q)
      && (r.value ==> chars[q] == ',' && Blank(chars, q + 1, r.next))
      && (!r.value ==> chars[q] == close && r.next == q + 1)
  {
    q := SkipSpace(chars, y);
    SkippedIsBlank(chars, y);
    if q < |chars| { SkippedIsBlank(chars, q + 1); }
  }

  /** The predicates of the grammar, for what has been read. */
  ghost predicate IsValue(chars: string, a: nat, b: nat, v: Json) {
    a < b <= |chars| && ValueText(Lenient, chars, a, b, v)
  }

  ghost predicate IsSpacedValue(chars: string, a: nat, b: nat, v: Json) {
    a <= b <= |chars| && SpacedValue(Lenient, chars, a, b, v)
  }

  ghost predicate IsMember(chars: string, a: nat, b: nat, m: Property<Json>) {
    a <= b <= |chars| && MemberText(Lenient, chars, a, b, m)
  }

  ghost predicate AreElements(chars: string, a: nat, b: nat, elements: seq<Json>) {
    a <= b < |chars| && chars[b] == ']' && elements != [] && ElementsText(Lenient, chars, a, b, elements)
  }

  ghost predicate AreMembers(chars: string, a: nat, b: nat, members: seq<Property<Json>>) {
    a <= b < |chars| && chars[b] == '}' && members != [] && MembersText(Lenient, chars, a, b, members)
  }

  lemma ValueInSpace(chars: string, a: nat, x: nat, y: nat, b: nat, v: Json)
    requires Blank(chars, a, x) && IsValue(chars, x, y, v) && Blank(chars, y, b)
    ensures IsSpacedValue(chars, a, b, v)
  {
    hide ValueText;
  }

  lemma OneElement(chars: string, a: nat, b: nat, v: Json)
    requires IsSpacedValue(chars, a, b, v) && Sees(chars, b, ']')
    ensures AreElements(chars, a, b, [v])
  {
    hide SpacedValue;
  }

  lemma MoreElements(chars: string, a: nat, c: nat, after: nat, b: nat, v: Json, rest: seq<Json>)
    requires IsSpacedValue(chars, a, c, v) && Sees(chars, c, ',') && Blank(chars, c + 1, after)
    requires AreElements(chars, after, b, rest)
    ensures AreElements(chars, a, b, [v] + rest)
  {
    hide SpacedValue;
    SpaceBeforeElements(chars, c + 1, after, b, rest);
    assert ([v] + rest)[1..] == rest && CommaAt(chars, a, c, b);
  }

  lemma OneMember(chars: string, a: nat, b: nat, m: Property<Json>)
    requires IsMember(chars, a, b, m) && Sees(chars, b, '}')
    ensures AreMembers(chars, a, b, [m])
  {
    hide MemberText;
  }

  lemma MoreMembers(chars: string, a: nat, c: nat, after: nat, b: nat, m: Property<Json>, rest: seq<Property<Json>>)
    requires IsMember(chars, a, c, m) && Sees(chars, c, ',') && Blank(chars, c + 1, after)
    requires AreMembers(chars, after, b, rest)
    ensures AreMembers(chars, a, b, [m] + rest)
  {
    hide MemberText;
    SpaceBeforeMembers(chars, c + 1, after, b, rest);
    assert ([m] + rest)[1..] == rest && CommaAt(chars, a, c, b);
  }

  lemma NameAndValue(chars: string, a: nat, x: nat, z: nat, c: nat, b: nat, m: Property<Json>)
    requires a <= x <= z <= c < b && Blank(chars, a, x) && StringText(Lenient, chars, x, z, m.name)
    requires Blank(chars, z, c) && Sees(chars, c, ':') && IsSpacedValue(chars, c + 1, b, m.value)
    ensures IsMember(chars, a, b, m)
  {
    hide SpacedValue, StringText;
    assert NameText(Lenient, chars, a, x, z, c, b, m.name);
  }

  lemma ArrayIsValue(chars: string, a: nat, first: nat, b: nat, elements: seq<Json>)
    requires Sees(chars, a, '[') && Blank(chars, a + 1, first) && AreElements(chars, first, b, elements)
    ensures IsValue(chars, a, b + 1, Arr(elements))
  {
    SpaceBeforeElements(chars, a + 1, first, b, elements);
    hide ElementsText;
  }

  lemma ObjectIsValue(chars: string, a: nat, first: nat, b: nat, all: seq<Property<Json>>)
    requires Sees(chars, a, '{') && Blank(chars, a + 1, first) && AreMembers(chars, first, b, all)
    ensures IsValue(chars, a, b + 1, Obj(MergedInto([], all)))
  {
    SpaceBeforeMembers(chars, a + 1, first, b, all);
    hide MembersText;
  }

  lemma SpaceBehindValue(chars: string, a: nat, b: nat, q: nat, v: Json)
    requires a <= b && SpacedValue(Lenient, chars, a, b, v) && Blank(chars, b, q)
    ensures SpacedValue(Lenient, chars, a, q, v)
  {
    hide ValueText;
    var x: nat, y: nat :| a <= x <= y <= b && Blank(chars, a, x) && ValueText(Lenient, chars, x, y, v)
                          && Blank(chars, y, b);
    BlankTwice(chars, y, b, q);
  }

  lemma SpaceBehindMember(chars: string, a: nat, b: nat, q: nat, m: Property<Json>)
    requires IsMember(chars, a, b, m) && Blank(chars, b, q)
    ensures IsMember(chars, a, q, m)
  {
    hide SpacedValue, StringText;
    var x: nat, z: nat, c: nat :| NameText(Lenient, chars, a, x, z, c, b, m.name)
                                  && SpacedValue(Lenient, chars, c + 1, b, m.value);
    SpaceBehindValue(chars, c + 1, b, q, m.value);
    assert NameText(Lenient, chars, a, x, z, c, q, m.name);
  }

  lemma LiteralIsValue(chars: string, x: nat, r: Parsed<Json>)
    requires x < |chars| && r.Parsed?
    requires r == ParseBoolean(chars, x) || r == ParseNull(chars, x)
    ensures IsValue(chars, x, r.next, r.value)
  {
  }

  lemma StringIsValue(chars: string, x: nat, r: Parsed<string>)
    requires Sees(chars, x, '"') && r == ParseString(chars, x + 1, "") && r.Parsed?
    ensures StringText(Lenient, chars, x, r.next, r.value) && IsValue(chars, x, r.next, Json.Str(r.value))
  {
    hide ParseString, Characters;
    var s := StringIsCharacters(chars, x + 1, "");
    NothingDone(s);
  }

  /** Whatever the parser reads is a value of the grammar, behind white space. */
  lemma {:induction false} ReadIsValue(chars: string, a: nat, r: Parsed<Json>)
    requires a <= |chars| && r == ParseValue(chars, a) && r.Parsed?
    ensures SkipSpace(chars, a) < r.next <= |chars| && Blank(chars, a, SkipSpace(chars, a))
    ensures IsValue(chars, SkipSpace(chars, a), r.next, r.value)
    decreases |chars| - a, 1
  {
    hide IsValue, ParseNumber, ParseString, ParseNull, ParseBoolean, ParseElements, ParseMembers;
    var x := SkipSpace(chars, a);
    SkippedIsBlank(chars, a);
    var c := chars[x];
    if c == '{' {
      ReadIsObject(chars, x, r);
    } else if c == '[' {
      ReadIsArray(chars, x, r);
    } else if c == '"' {
      StringIsValue(chars, x, ParseString(chars, x + 1, ""));
    } else if c in {'t', 'f', 'n'} {
      LiteralIsValue(chars, x, r);
    } else {
      ReadIsNumber(chars, x);
    }
  }

  lemma ReadIsNumber(chars: string, x: nat)
    requires x < |chars| && ParseNumber(chars, x).Parsed?
    ensures IsValue(chars, x, ParseNumber(chars, x).next, ParseNumber(chars, x).value)
  {
    hide NumberText, ParseNumber;
    NumberIsText(chars, x);
  }

  lemma EmptyIsValue(chars: string, x: nat)
    requires x < |chars|
    ensures
      var first := SkipSpace(chars, x + 1);
      && (chars[x] == '[' && Sees(chars, first, ']') ==> IsValue(chars, x, first + 1, Arr([])))
      && (chars[x] == '{' && Sees(chars, first, '}') ==> IsValue(chars, x, first + 1, Obj([])))
  {
    SkippedIsBlank(chars, x + 1);
    var none: seq<Property<Json>> := [];
    assert MergedInto([], none) == [];
    if chars[x] == '{' && Sees(chars, SkipSpace(chars, x + 1), '}') {
      assert MembersText(Lenient, chars, x + 1, SkipSpace(chars, x + 1), none);
    }
  }

  lemma {:induction false} ReadIsArray(chars: string, x: nat, r: Parsed<Json>)
    requires Sees(chars, x, '[') && r == ParseArray(chars, x) && r.Parsed?
    ensures IsValue(chars, x, r.next, r.value)
    decreases |chars| - x, 0
  {
    hide IsValue, ParseElements;
    var first := SkipSpace(chars, x + 1);
    EmptyIsValue(chars, x);
    if !Sees(chars, first, ']') {
      SkippedIsBlank(chars, x + 1);
      var elements := ReadAreElements(chars, first, [], r);
      NothingDone(elements);
      ArrayIsValue(chars, x, first, r.next - 1, elements);
    }
  }

  lemma {:induction false} ReadAreElements(chars: string, a: nat, done: seq<Json>, r: Parsed<Json>)
    returns (elements: seq<Json>)
    requires a <= |chars| && r == ParseElements(chars, a, done) && r.Parsed?
    ensures a < r.next && r.value == Arr(done + elements) && AreElements(chars, a, r.next - 1, elements)
    decreases |chars| - a, 2
  {
    hide IsValue, IsSpacedValue, AreElements, ParseValue, ParseSeparator;
    var v := ParseValue(chars, a);
    ReadIsValue(chars, a, v);
    var separator := ParseSeparator(chars, v.next, ']');
    var q := SeparatorIs(chars, v.next, ']');
    ValueInSpace(chars, a, SkipSpace(chars, a), v.next, q, v.value);
    if separator.value {
      var rest := ReadAreElements(chars, separator.next, done + [v.value], r);
      elements := [v.value] + rest;
      assert (done + [v.value]) + rest == done + elements;
      MoreElements(chars, a, q, separator.next, r.next - 1, v.value, rest);
    } else {
      elements := [v.value];
      OneElement(chars, a, q, v.value);
    }
  }

  lemma {:induction false} ReadIsMember(chars: string, a: nat, r: Parsed<Property<Json>>)
    requires a <= |chars| && r == ParseMember(chars, a) && r.Parsed?
    ensures IsMember(chars, a, r.next, r.value)
    decreases |chars| - a, 2
  {
    hide IsValue, IsSpacedValue, IsMember, StringText, ParseString, ParseValue;
    var x := SkipSpace(chars, a);
    var name := ParseString(chars, x + 1, "");
    var c := SkipSpace(chars, name.next);
    var v := ParseValue(chars, c + 1);
    SkippedIsBlank(chars, a);
    StringIsValue(chars, x, name);
    SkippedIsBlank(chars, name.next);
    ReadIsValue(chars, c + 1, v);
    ValueInSpace(chars, c + 1, SkipSpace(chars, c + 1), v.next, v.next, v.value);
    NameAndValue(chars, a, x, name.next, c, v.next, r.value);
  }

  lemma {:induction false} ReadIsObject(chars: string, x: nat, r: Parsed<Json>)
    requires Sees(chars, x, '{') && r == ParseObject(chars, x) && r.Parsed?
    ensures IsValue(chars, x, r.next, r.value)
    decreases |chars| - x, 0
  {
    hide IsValue, ParseMembers;
    var first := SkipSpace(chars, x + 1);
    EmptyIsValue(chars, x);
    if !Sees(chars, first, '}') {
      SkippedIsBlank(chars, x + 1);
      var all := ReadAreMembers(chars, first, [], r);
      ObjectIsValue(chars, x, first, r.next - 1, all);
    }
  }

  lemma {:induction false} ReadAreMembers(chars: string, a: nat, done: seq<Property<Json>>, r: Parsed<Json>)
    returns (all: seq<Property<Json>>)
    requires a <= |chars| && r == ParseMembers(chars, a, done) && r.Parsed?
    ensures a < r.next && r.value == Obj(MergedInto(done, all)) && AreMembers(chars, a, r.next - 1, all)
    decreases |chars| - a, 3
  {
    hide IsMember, AreMembers, ParseMember, ParseSeparator;
    var m := ParseMember(chars, a);
    ReadIsMember(chars, a, m);
    var separator := ParseSeparator(chars, m.next, '}');
    var q := SeparatorIs(chars, m.next, '}');
    SpaceBehindMember(chars, a, m.next, q, m.value);
    if separator.value {
      var longer := SetProperty(done, m.value.name, m.value.value);
      var rest := ReadAreMembers(chars, separator.next, longer, r);
      all := [m.value] + rest;
      assert all[1..] == rest;
      MoreMembers(chars, a, q, separator.next, r.next - 1, m.value, rest);
    } else {
      all := [m.value];
      OneMember(chars, a, q, m.value);
    }
  }

  // ---- Whole texts --------------------------------------------------------------------------

  /** `JSON.parse` succeeds exactly on the texts of the dialect, with the value that the text denotes. */
  lemma AcceptsIff(text: string, v: Json)
    ensures Parse(text) == Parsed(v, |text|) <==> SpacedValue(Lenient, text, 0, |text|, v)
    ensures Parse(text).Parsed? ==> Parse(text).next == |text|
  {
    var start := SkipSpace(text, 0);
    SkippedIsBlank(text, 0);
    if Parse(text).Parsed? {
      var r := ParseValue(text, start);
      SkippedIsBlank(text, r.next);
      ReadIsValue(text, 0, r);
      ValueInSpace(text, 0, start, r.next, |text|, r.value);
    }
    if SpacedValue(Lenient, text, 0, |text|, v) { GrammarIsAccepted(Lenient, text, v); }
  }

  lemma GrammarIsAccepted(d: Dialect, text: string, v: Json)
    requires SpacedValue(d, text, 0, |text|, v)
    ensures Parse(text) == Parsed(v, |text|)
  {
    hide ValueText, ParseValue;
    SpacedStarts(d, text, 0, |text|, v);
    var y := SpacedRead(d, text, 0, |text|, v);
    var start := SkipSpace(text, 0);
    BlankIsSkipped(text, y, |text|);
    SkippedIsBlank(text, 0);
    SameValue(text, 0);
  }

  // ---- The standard -------------------------------------------------------------------------

  /** Every text of the standard is accepted, whatever its white space and the spelling of its strings ... */
  lemma StandardIsAccepted(text: string, v: Json)
    requires SpacedValue(Standard, text, 0, |text|, v)
    ensures Parse(text) == Parsed(v, |text|)
  {
    GrammarIsAccepted(Standard, text, v);
  }

  /** ... and some that are not: a number with a leading zero is one. */
  lemma LeadingZeroIsAccepted(text: string)
    requires text == "07"
    ensures Parse(text) == Parsed(Json.Smi(7), 2)
  {
    assert IntegerDenotes(text[0..2], false, [0, 7], Json.Smi(7)) by {
      assert Positional([0, 7][..1]) == 0;
    }
    assert NumberParts(Lenient, text, 0, 0, 2, 2, 2);
    assert NumberDenotes(text, 0, 0, 2, 2, Json.Smi(7));
    assert ValueText(Lenient, text, 0, 2, Json.Smi(7));
    GrammarIsAccepted(Lenient, text, Json.Smi(7));
  }

  lemma LeadingZeroIsNotStandard(text: string, v: Json)
    requires text == "07"
    ensures !SpacedValue(Standard, text, 0, |text|, v)
  {
    assert text[0] == '0' && text[1] == '7';
    forall x: nat, y: nat | x <= y <= 2 && Blank(text, 0, x) && Blank(text, y, 2)
      ensures !ValueText(Standard, text, x, y, v)
    {
      assert x == 0 && y == 2;
    }
  }

  // ---- Repeated names -----------------------------------------------------------------------

  lemma {:induction false} AbsentNameStays(done: seq<Property<Json>>, members: seq<Property<Json>>, name: string)
    requires forall j :: 0 <= j < |members| ==> members[j].name != name
    ensures GetProperty(MergedInto(done, members), name) == GetProperty(done, name)
    decreases |members|
  {
    if members != [] {
      var m := members[0];
      GetAfterSet(done, m.name, m.value, name);
      AbsentNameStays(SetProperty(done, m.name, m.value), members[1..], name);
    }
  }

  /** Of the members with one name the last gives the value, and no other name is there. */
  lemma {:induction false} LastMemberCounts(done: seq<Property<Json>>, members: seq<Property<Json>>, i: nat)
    requires i < |members| && forall j :: i < j < |members| ==> members[j].name != members[i].name
    ensures GetProperty(MergedInto(done, members), members[i].name) == Some(members[i].value)
    decreases |members|
  {
    var m := members[0];
    var longer := SetProperty(done, m.name, m.value);
    if i == 0 {
      GetAfterSet(done, m.name, m.value, m.name);
      AbsentNameStays(longer, members[1..], m.name);
    } else {
      assert members[1..][i - 1] == members[i];
      LastMemberCounts(longer, members[1..], i - 1);
    }
  }

  lemma OnlyNamesCount(members: seq<Property<Json>>, name: string)
    requires forall j :: 0 <= j < |members| ==> members[j].name != name
    ensures GetProperty(MergedInto([], members), name) == None
  {
    AbsentNameStays([], members, name);
  }
}
