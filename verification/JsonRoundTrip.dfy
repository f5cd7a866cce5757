/** Parsing undoes printing (RFC 8259), compact or with any indentation made of white space. */
module JsonRoundTrip {
  import opened Options
  import opened JsonGrammar
  import opened JsonReading
  import opened JsonText
  import opened Properties
  import opened Values

  // ---- Texts at positions -------------------------------------------------------------------

  lemma AtParts(chars: string, pos: nat, a: string, b: string)
    requires At(chars, pos, a + b)
    ensures At(chars, pos, a) && At(chars, pos + |a|, b)
  {
    var t := a + b;
    assert chars[pos..pos + |t|][..|a|] == a && chars[pos..pos + |t|][|a|..] == b;
  }

  lemma AtChar(chars: string, pos: nat, t: string, i: nat)
    requires At(chars, pos, t) && i < |t|
    ensures pos + i < |chars| && chars[pos + i] == t[i]
  {
    assert chars[pos..pos + |t|][i] == chars[pos + i];
  }

  lemma AtTail(chars: string, pos: nat, t: string)
    requires At(chars, pos, t) && t != ""
    ensures chars[pos] == t[0] && At(chars, pos + 1, t[1..])
  {
    assert t == [t[0]] + t[1..];
    AtParts(chars, pos, [t[0]], t[1..]);
  }

  /** Skipping stops at the first character that is no white space. */
  lemma {:induction false} SkipsSpace(chars: string, pos: nat, gap: string)
    requires At(chars, pos, gap) && AllSpace(gap)
    requires pos + |gap| < |chars| ==> !IsSpace(chars[pos + |gap|])
    ensures SkipSpace(chars, pos) == pos + |gap|
    decreases |gap|
  {
    if gap != "" {
      AtTail(chars, pos, gap);
      SkipsSpace(chars, pos + 1, gap[1..]);
    }
  }

  lemma {:induction false} RepeatIsSpace(step: string, n: nat)
    requires AllSpace(step)
    ensures AllSpace(Repeat(step, n))
  {
    if n > 0 { RepeatIsSpace(step, n - 1); }
  }

  lemma GapIsSpace(indent: Option<string>, depth: nat)
    requires SpaceIndent(indent)
    ensures AllSpace(Gap(indent, depth))
  {
    if indent.Some? { RepeatIsSpace(indent.value, depth); }
  }

  // ---- Integers -----------------------------------------------------------------------------

  lemma {:induction false} DecimalValue(n: nat)
    ensures forall i :: 0 <= i < |Decimal(n)| ==> IsDigit(Decimal(n)[i])
    ensures DigitsValue(Decimal(n)) == n
  {
    if n >= 10 {
      DecimalValue(n / 10);
      assert Decimal(n)[..|Decimal(n)| - 1] == Decimal(n / 10);
    } else {
      assert DigitsValue("") == 0;
      assert Decimal(n)[..0] == "";
    }
  }

  lemma {:induction false} SkipsDigits(chars: string, pos: nat, digits: string)
    requires At(chars, pos, digits) && forall i :: 0 <= i < |digits| ==> IsDigit(digits[i])
    requires pos + |digits| < |chars| ==> !IsDigit(chars[pos + |digits|])
    ensures SkipDigits(chars, pos) == pos + |digits|
    decreases |digits|
  {
    if digits != "" {
      AtTail(chars, pos, digits);
      SkipsDigits(chars, pos + 1, digits[1..]);
    }
  }

  lemma LiteralWithoutFraction(chars: string, start: nat, first: nat, digits: string)
    requires start <= first && first == (if Sees(chars, start, '-') then start + 1 else start)
    requires digits != "" && At(chars, first, digits) && forall i :: 0 <= i < |digits| ==> IsDigit(digits[i])
    requires NumberEnds(chars, first + |digits|)
    ensures ParseNumber(chars, start) == Parsed(IntegerLiteral(first > start, digits), first + |digits|)
  {
    SkipsDigits(chars, first, digits);
  }

  lemma DecimalLiteral(n: int32)
    ensures (DecimalValue(if n < 0 then -(n as int) else n as int);
             IntegerLiteral(n < 0, Decimal(if n < 0 then -(n as int) else n as int)) == Json.Smi(n))
  {
    DecimalValue(if n < 0 then -(n as int) else n as int);
  }

  lemma IntegerRoundTrip(chars: string, pos: nat, n: int32)
    requires At(chars, pos, IntegerText(n as int)) && NumberEnds(chars, pos + |IntegerText(n as int)|)
    ensures ParseNumber(chars, pos) == Parsed(Json.Smi(n), pos + |IntegerText(n as int)|)
  {
    var magnitude: nat := if n < 0 then -(n as int) else n as int;
    var digits := Decimal(magnitude);
    DecimalValue(magnitude);
    var first := if n < 0 then pos + 1 else pos;
    AtChar(chars, pos, IntegerText(n as int), 0);
    if n < 0 { AtParts(chars, pos, "-", digits); }
    LiteralWithoutFraction(chars, pos, first, digits);
    DecimalLiteral(n);
  }

  // ---- Strings (section 7 of RFC 8259) ------------------------------------------------------

  lemma HexDigitValue(d: nat)
    requires d < 16
    ensures HexValue(HexDigit(d)) == Some(d)
  {
  }

  lemma OneMoreHexDigit(digits: string, d: nat)
    requires d < 16 && HexNumber(digits).Some?
    ensures HexNumber(digits + [HexDigit(d)]) == Some(HexNumber(digits).value * 16 + d)
  {
    HexDigitValue(d);
    assert (digits + [HexDigit(d)])[..|digits|] == digits;
  }

  lemma FourHexDigits(a: nat, b: nat, c: nat, d: nat)
    requires a < 16 && b < 16 && c < 16 && d < 16
    ensures HexNumber([HexDigit(a), HexDigit(b), HexDigit(c), HexDigit(d)]) == Some(((a * 16 + b) * 16 + c) * 16 + d)
  {
    var ha := "" + [HexDigit(a)];
    var hb := ha + [HexDigit(b)];
    var hc := hb + [HexDigit(c)];
    OneMoreHexDigit("", a);
    OneMoreHexDigit(ha, b);
    OneMoreHexDigit(hb, c);
    OneMoreHexDigit(hc, d);
    assert [HexDigit(a), HexDigit(b), HexDigit(c), HexDigit(d)] == hc + [HexDigit(d)];
  }

  lemma HexDigitsOf(code: nat)
    requires code < 0x1_0000
    ensures code == ((code / 0x1000 * 16 + code / 0x100 % 0x10) * 16 + code / 0x10 % 0x10) * 16 + code % 0x10
  {
  }

  lemma Hex4Value(code: nat)
    requires code < 0x1_0000
    ensures FromHex(Hex4(code)) == Some(code)
  {
    HexDigitsOf(code);
    FourHexDigits(code / 0x1000, code / 0x100 % 0x10, code / 0x10 % 0x10, code % 0x10);
  }

  lemma EscapeRoundTrip(chars: string, pos: nat, c: char)
    requires At(chars, pos, EscapedChar(c)) && EscapedChar(c)[0] == '\\'
    ensures ParseEscape(chars, pos + 1) == Parsed(c, pos + |EscapedChar(c)|)
  {
    AtTail(chars, pos, EscapedChar(c));
    AtTail(chars, pos + 1, EscapedChar(c)[1..]);
    if EscapedChar(c) == "\\u" + Hex4(c as int) {
      AtParts(chars, pos, "\\u", Hex4(c as int));
      Hex4Value(c as int);
    }
  }

  lemma ReadsEscape(chars: string, pos: nat, c: char, next: nat, s: string)
    requires Sees(chars, pos, '\\') && ParseEscape(chars, pos + 1) == Parsed(c, next)
    ensures next <= |chars| && ParseString(chars, pos, s) == ParseString(chars, next, s + [c])
  {
  }

  /** Reading one escaped character. */
  lemma CharRoundTrip(chars: string, pos: nat, c: char, s: string)
    requires At(chars, pos, EscapedChar(c))
    ensures ParseString(chars, pos, s) == ParseString(chars, pos + |EscapedChar(c)|, s + [c])
  {
    AtTail(chars, pos, EscapedChar(c));
    if EscapedChar(c)[0] == '\\' {
      EscapeRoundTrip(chars, pos, c);
      ReadsEscape(chars, pos, c, pos + |EscapedChar(c)|, s);
    }
  }

  lemma EscapeSpellsChar(chars: string, c: char, e: string)
    requires e == EscapedChar(c)
    ensures SpellsChar(chars, c, e)
  {
    forall pos: nat, s: string, t: string, next: nat |
        At(chars, pos, e) && ReadsString(chars, pos + |e|, s + [c], t, next)
      ensures ReadsString(chars, pos, s, t, next)
    {
      CharRoundTrip(chars, pos, c, s);
    }
  }

  function Concatenated(pieces: seq<string>): string {
    if pieces == [] then "" else pieces[0] + Concatenated(pieces[1..])
  }

  lemma FirstPiece(chars: string, pos: nat, pieces: seq<string>, tail: string)
    requires pieces != [] && At(chars, pos, Concatenated(pieces) + tail)
    ensures At(chars, pos, pieces[0]) && At(chars, pos + |pieces[0]|, Concatenated(pieces[1..]) + tail)
  {
    Regroup3(pieces[0], Concatenated(pieces[1..]), tail);
    AtParts(chars, pos, pieces[0], Concatenated(pieces[1..]) + tail);
  }

  lemma Regroup3(a: string, b: string, c: string)
    ensures (a + b) + c == a + (b + c)
  {
  }

  /** A string is read piece by piece, up to the closing quote. */
  lemma {:induction false} PiecesRoundTrip(chars: string, pos: nat, s: string, t: string, pieces: seq<string>,
                                           next: nat)
    requires |pieces| == |t| && forall i :: 0 <= i < |t| ==> SpellsChar(chars, t[i], pieces[i])
    requires At(chars, pos, Concatenated(pieces) + "\"") && next == pos + |Concatenated(pieces)| + 1
    ensures ReadsString(chars, pos, s, s + t, next)
    decreases |t|
  {
    if t == "" {
      assert Concatenated(pieces) + "\"" == "\"" && s + t == s;
      AtChar(chars, pos, "\"", 0);
      ClosingQuote(chars, pos, s);
    } else {
      FirstPiece(chars, pos, pieces, "\"");
      PiecesRoundTrip(chars, pos + |pieces[0]|, s + [t[0]], t[1..], pieces[1..], next);
      MoveFirst(s, t);
      SpelledChar(chars, pos, s, t[0], pieces[0], s + t, next);
    }
  }

  function Pieces(s: string): (r: seq<string>)
    ensures |r| == |s|
  {
    if s == "" then [] else [EscapedChar(s[0])] + Pieces(s[1..])
  }

  lemma {:induction false} PiecesAreEscapes(s: string)
    ensures Concatenated(Pieces(s)) == EscapedChars(s)
    ensures forall i :: 0 <= i < |s| ==> Pieces(s)[i] == EscapedChar(s[i])
  {
    if s != "" {
      PiecesAreEscapes(s[1..]);
      assert Pieces(s)[1..] == Pieces(s[1..]);
    }
  }

  lemma PiecesSpellChars(chars: string, s: string)
    ensures forall i :: 0 <= i < |s| ==> SpellsChar(chars, s[i], Pieces(s)[i])
  {
    PiecesAreEscapes(s);
    forall i | 0 <= i < |s| ensures SpellsChar(chars, s[i], Pieces(s)[i]) {
      EscapeSpellsChar(chars, s[i], Pieces(s)[i]);
    }
  }

  lemma OpeningQuote(chars: string, pos: nat, escaped: string)
    requires At(chars, pos, "\"" + escaped + "\"")
    ensures Sees(chars, pos, '"') && At(chars, pos + 1, escaped + "\"")
  {
    Regroup3("\"", escaped, "\"");
    AtParts(chars, pos, "\"", escaped + "\"");
    AtChar(chars, pos, "\"", 0);
  }

  lemma QuotedRoundTrip(chars: string, s: string)
    ensures SpellsString(chars, s, Quoted(s))
  {
    PiecesSpellChars(chars, s);
    PiecesAreEscapes(s);
    forall pos: nat | At(chars, pos, Quoted(s))
      ensures Sees(chars, pos, '"') && ReadsString(chars, pos + 1, "", s, pos + |Quoted(s)|)
    {
      OpeningQuote(chars, pos, EscapedChars(s));
      PiecesRoundTrip(chars, pos + 1, "", s, Pieces(s), pos + |Quoted(s)|);
      NothingDone(s);
    }
  }

  lemma MoveFirst<T>(done: seq<T>, todo: seq<T>)
    requires todo != []
    ensures (done + [todo[0]]) + todo[1..] == done + todo
    ensures |todo| == 1 ==> done + [todo[0]] == done + todo
  {
  }

  lemma NothingDone<T>(todo: seq<T>)
    ensures [] + todo == todo
  {
  }

  // ---- Scalars ------------------------------------------------------------------------------

  lemma DecimalStarts(n: nat)
    ensures IsDigit(Decimal(n)[0])
  {
    DecimalValue(n);
  }

  lemma ValueStarts(v: Json, indent: Option<string>, depth: nat)
    requires Printable(v)
    ensures StartsValue(Stringify(v, indent, depth))
  {
    match v
    case Smi(n) => DecimalStarts(if n < 0 then -(n as int) else n as int);
    case _ =>
  }

  lemma NullRoundTrip(chars: string, pos: nat)
    requires At(chars, pos, "null")
    ensures ReadsValue(chars, pos, Json.Null, pos + 4)
  {
    AtChar(chars, pos, "null", 0);
    assert SkipSpace(chars, pos) == pos && ParseValue(chars, pos) == ParseNull(chars, pos);
  }

  lemma BoolRoundTrip(chars: string, pos: nat, b: bool)
    requires At(chars, pos, if b then "true" else "false")
    ensures ReadsValue(chars, pos, Bool(b), pos + if b then 4 else 5)
  {
    AtChar(chars, pos, if b then "true" else "false", 0);
    if At(chars, pos, "true") { AtChar(chars, pos, "true", 0); }
    assert SkipSpace(chars, pos) == pos && ParseValue(chars, pos) == ParseBoolean(chars, pos);
  }

  lemma SmiRoundTrip(chars: string, pos: nat, n: int32)
    requires Stands(chars, pos, IntegerText(n as int))
    ensures ReadsValue(chars, pos, Json.Smi(n), pos + |IntegerText(n as int)|)
  {
    AtChar(chars, pos, IntegerText(n as int), 0);
    DecimalStarts(if n < 0 then -(n as int) else n as int);
    NumberValue(chars, pos);
    IntegerRoundTrip(chars, pos, n);
  }

  lemma ScalarRoundTrip(chars: string, v: Json, text: string, indent: Option<string>, depth: nat)
    requires (v.Null? || v.Bool? || v.Smi? || v.Str?) && text == Stringify(v, indent, depth)
    ensures Spells(chars, v, text)
  {
    forall pos: nat | Stands(chars, pos, text) ensures ReadsValue(chars, pos, v, pos + |text|) {
      match v
      case Null => NullRoundTrip(chars, pos);
      case Bool(b) => BoolRoundTrip(chars, pos, b);
      case Smi(n) => SmiRoundTrip(chars, pos, n);
      case Str(s) =>
        QuotedRoundTrip(chars, s);
        SpelledString(chars, pos, s, text);
        StringValue(chars, pos, s, pos + |text|);
    }
  }

  // ---- Items between brackets ---------------------------------------------------------------

  /** What stands between the opening and the closing bracket, and the latter: `gap` before every
      item but the first, `last` before the bracket. */
  function Rest(items: seq<string>, close: char, gap: string, last: string): (r: string)
    requires items != []
    ensures StartsValue(items[0]) ==> StartsValue(r)
  {
    if |items| == 1 then items[0] + (last + [close])
    else items[0] + ("," + (gap + Rest(items[1..], close, gap, last)))
  }

  lemma {:induction false} JoinIsRest(items: seq<string>, close: char, gap: string, last: string)
    requires items != []
    ensures Join(items, "," + gap) + (last + [close]) == Rest(items, close, gap, last)
  {
    if |items| > 1 {
      JoinIsRest(items[1..], close, gap, last);
      Regroup5(items[0], ",", gap, Join(items[1..], "," + gap), last + [close]);
    }
  }

  lemma Regroup5(a: string, b: string, c: string, d: string, e: string)
    ensures (a + (b + c) + d) + e == a + (b + (c + (d + e)))
  {
  }

  lemma SkipsToText(chars: string, pos: nat, gap: string, t: string)
    requires At(chars, pos, gap + t) && AllSpace(gap) && t != "" && !IsSpace(t[0])
    ensures SkipSpace(chars, pos) == pos + |gap| && Sees(chars, pos + |gap|, t[0])
    ensures At(chars, pos + |gap|, t)
  {
    AtParts(chars, pos, gap, t);
    AtChar(chars, pos + |gap|, t, 0);
    SkipsSpace(chars, pos, gap);
  }

  /** The closing bracket, behind white space, follows the last item. */
  lemma LastItem(chars: string, pos: nat, item: string, close: char, last: string)
    requires At(chars, pos, item + (last + [close])) && AllSpace(last) && IsCloser(close)
    ensures Stands(chars, pos, item) && Closes(chars, pos + |item|, close, pos + |item| + |last| + 1)
  {
    AtParts(chars, pos, item, last + [close]);
    AtChar(chars, pos + |item|, last + [close], 0);
    SkipsToText(chars, pos + |item|, last, [close]);
  }

  lemma Comma(chars: string, pos: nat, close: char, gap: string, rest: string)
    requires At(chars, pos, "," + (gap + rest)) && AllSpace(gap) && StartsValue(rest) && IsCloser(close)
    ensures NumberEnds(chars, pos) && Continues(chars, pos, close, pos + 1 + |gap|) && At(chars, pos + 1 + |gap|, rest)
  {
    AtParts(chars, pos, ",", gap + rest);
    AtChar(chars, pos, ",", 0);
    SkipsToText(chars, pos + 1, gap, rest);
  }

  /** A comma and, behind white space, the next item follow every other item. */
  lemma NextItem(chars: string, pos: nat, item: string, close: char, gap: string, rest: string)
    requires At(chars, pos, item + ("," + (gap + rest))) && AllSpace(gap) && StartsValue(rest) && IsCloser(close)
    ensures Stands(chars, pos, item) && Continues(chars, pos + |item|, close, pos + |item| + 1 + |gap|)
    ensures At(chars, pos + |item| + 1 + |gap|, rest)
  {
    AtParts(chars, pos, item, "," + (gap + rest));
    Comma(chars, pos + |item|, close, gap, rest);
  }

  lemma {:induction false} RestIsLaidOut(chars: string, pos: nat, items: seq<string>, close: char, gap: string,
                                         last: string, end: nat)
    requires items != [] && AllStartValues(items) && AllSpace(gap) && AllSpace(last) && IsCloser(close)
    requires At(chars, pos, Rest(items, close, gap, last)) && end == pos + |Rest(items, close, gap, last)|
    ensures LaidOut(chars, pos, items, close, end)
    decreases |items|
  {
    if |items| == 1 {
      LastItem(chars, pos, items[0], close, last);
      LastIsLaidOut(chars, pos, items, close, end);
    } else {
      var after := pos + |items[0]| + 1 + |gap|;
      NextItem(chars, pos, items[0], close, gap, Rest(items[1..], close, gap, last));
      RestIsLaidOut(chars, after, items[1..], close, gap, last, end);
      hide *;
      NextIsLaidOut(chars, pos, items, close, after, end);
    }
  }

  lemma OpeningBracket(chars: string, pos: nat, open: char, close: char, gap: string, rest: string)
    requires At(chars, pos, [open] + (gap + rest)) && AllSpace(gap) && StartsValue(rest) && IsCloser(close)
    ensures Opens(chars, pos, open, close, pos + 1 + |gap|) && At(chars, pos + 1 + |gap|, rest)
  {
    AtParts(chars, pos, [open], gap + rest);
    AtChar(chars, pos, [open], 0);
    SkipsToText(chars, pos + 1, gap, rest);
  }

  /** The opening bracket, white space, and the items from `first` on. */
  lemma BracketedIsLaidOut(chars: string, pos: nat, text: string, open: char, items: seq<string>, close: char,
                           gap: string, last: string) returns (first: nat)
    requires items != [] && AllStartValues(items) && AllSpace(gap) && AllSpace(last) && IsCloser(close)
    requires At(chars, pos, text) && text == [open] + (gap + Rest(items, close, gap, last))
    ensures Opens(chars, pos, open, close, first) && LaidOut(chars, first, items, close, pos + |text|)
  {
    first := pos + 1 + |gap|;
    OpeningBracket(chars, pos, open, close, gap, Rest(items, close, gap, last));
    RestIsLaidOut(chars, first, items, close, gap, last, pos + |text|);
  }

  lemma EnclosedIs(open: char, items: seq<string>, close: char, indent: Option<string>, depth: nat)
    requires items != []
    ensures Enclosed(open, items, close, indent, depth) ==
            [open] + (Gap(indent, depth + 1) + Rest(items, close, Gap(indent, depth + 1), Gap(indent, depth)))
  {
    JoinIsRest(items, close, Gap(indent, depth + 1), Gap(indent, depth));
  }

  // ---- Arrays -------------------------------------------------------------------------------

  lemma {:induction false} ElementsRoundTrip(chars: string, pos: nat, done: seq<Json>, elements: seq<Json>,
                                             items: seq<string>, all: seq<Json>, end: nat)
    requires elements != [] && AllSpell(chars, elements, items) && LaidOut(chars, pos, items, ']', end)
    requires all == done + elements
    ensures ReadsElements(chars, pos, done, Arr(all), end)
    decreases |elements|
  {
    hide *;
    FirstSpells(chars, elements, items);
    var v, next := elements[0], pos + |items[0]|;
    var after := FirstOfLayout(chars, pos, items, ']', end);
    Spelled(chars, pos, v, items[0]);
    MoveFirst(done, elements);
    if |elements| == 1 {
      LastElement(chars, pos, done, v, next, end);
    } else {
      ElementsRoundTrip(chars, after, done + [v], elements[1..], items[1..], all, end);
      NextElement(chars, pos, done, v, next, after, Arr(all), end);
    }
  }

  lemma ArrayRoundTrip(chars: string, elements: seq<Json>, items: seq<string>, text: string, gap: string, last: string)
    requires elements != [] && |items| == |elements| && AllStartValues(items) && AllSpace(gap) && AllSpace(last)
    requires forall i :: 0 <= i < |items| ==> Spells(chars, elements[i], items[i])
    requires text == ['['] + (gap + Rest(items, ']', gap, last))
    ensures Spells(chars, Arr(elements), text)
  {
    forall pos: nat | Stands(chars, pos, text) ensures ReadsValue(chars, pos, Arr(elements), pos + |text|) {
      ArrayReadAt(chars, pos, elements, items, text, gap, last);
    }
  }

  lemma ArrayReadAt(chars: string, pos: nat, elements: seq<Json>, items: seq<string>, text: string,
                    gap: string, last: string)
    requires elements != [] && AllSpell(chars, elements, items)
    requires AllStartValues(items) && AllSpace(gap) && AllSpace(last)
    requires text == ['['] + (gap + Rest(items, ']', gap, last)) && Stands(chars, pos, text)
    ensures ReadsValue(chars, pos, Arr(elements), pos + |text|)
  {
    assert items != [] && IsCloser(']') && At(chars, pos, text);
    hide *;
    var first := BracketedIsLaidOut(chars, pos, text, '[', items, ']', gap, last);
    NothingDone(elements);
    ElementsRoundTrip(chars, first, [], elements, items, elements, pos + |text|);
    ArrayValue(chars, pos, first, Arr(elements), pos + |text|);
  }

  lemma EmptyArrayRoundTrip(chars: string)
    ensures Spells(chars, Arr([]), "[]")
  {
    forall pos: nat | Stands(chars, pos, "[]") ensures ReadsValue(chars, pos, Arr([]), pos + 2) {
      AtChar(chars, pos, "[]", 0);
      AtChar(chars, pos, "[]", 1);
    }
  }

  // ---- Objects ------------------------------------------------------------------------------

  lemma EntryStarts(name: string, text: string, indent: Option<string>)
    ensures StartsValue(Entry(name, text, indent))
  {
  }

  lemma ValueBehindColon(chars: string, pos: nat, colon: string, text: string, v: Json, end: nat)
    requires Stands(chars, pos, colon + text) && (colon == ":" || colon == ": ") && StartsValue(text)
    requires Spells(chars, v, text) && end == pos + |colon| + |text|
    ensures Sees(chars, pos, ':') && ReadsValue(chars, pos + 1, v, end)
  {
    AtParts(chars, pos, colon, text);
    AtChar(chars, pos, colon, 0);
    AtChar(chars, pos + |colon|, text, 0);
    if colon == ": " { AtChar(chars, pos, colon, 1); }
    Spelled(chars, pos + |colon|, v, text);
    ValueBehindSpace(chars, pos + 1, pos + |colon|, v, end);
  }

  lemma MemberRoundTrip(chars: string, m: Property<Json>, quoted: string, colon: string, text: string, entry: string)
    requires SpellsString(chars, m.name, quoted) && (colon == ":" || colon == ": ")
    requires StartsValue(text) && Spells(chars, m.value, text) && entry == quoted + (colon + text)
    ensures SpellsMember(chars, m, entry)
  {
    forall pos: nat | Stands(chars, pos, entry) ensures ReadsMember(chars, pos, m, pos + |entry|) {
      MemberReadAt(chars, pos, m, quoted, colon, text, entry);
    }
  }

  lemma MemberReadAt(chars: string, pos: nat, m: Property<Json>, quoted: string, colon: string, text: string,
                     entry: string)
    requires SpellsString(chars, m.name, quoted) && (colon == ":" || colon == ": ")
    requires StartsValue(text) && Spells(chars, m.value, text) && entry == quoted + (colon + text)
    requires Stands(chars, pos, entry)
    ensures ReadsMember(chars, pos, m, pos + |entry|)
  {
    AtParts(chars, pos, quoted, colon + text);
    assert Stands(chars, pos + |quoted|, colon + text);
    hide *;
    SpelledString(chars, pos, m.name, quoted);
    ValueBehindColon(chars, pos + |quoted|, colon, text, m.value, pos + |entry|);
    MemberParts(chars, pos, m.name, pos + |quoted|, m.value, pos + |entry|);
  }

  lemma NextNameIsNew(done: seq<Property<Json>>, members: seq<Property<Json>>)
    requires members != [] && DistinctNames(done + members)
    ensures SetProperty(done, members[0].name, members[0].value) == done + [members[0]]
  {
    forall i | 0 <= i < |done| ensures done[i].name != members[0].name {
      assert (done + members)[i] == done[i] && (done + members)[|done|] == members[0];
    }
    SetNewProperty(done, members[0].name, members[0].value);
  }

  lemma {:induction false} MembersRoundTrip(chars: string, pos: nat, done: seq<Property<Json>>,
                                            members: seq<Property<Json>>, items: seq<string>,
                                            all: seq<Property<Json>>, end: nat)
    requires members != [] && AllSpellMembers(chars, members, items) && LaidOut(chars, pos, items, '}', end)
    requires all == done + members && DistinctNames(all)
    ensures ReadsMembers(chars, pos, done, Obj(all), end)
    decreases |members|
  {
    hide *;
    FirstMemberSpells(chars, members, items);
    var m, next := members[0], pos + |items[0]|;
    var after := FirstOfLayout(chars, pos, items, '}', end);
    SpelledMember(chars, pos, m, items[0]);
    NextNameIsNew(done, members);
    MoveFirst(done, members);
    if |members| == 1 {
      LastMember(chars, pos, done, m, next, end);
    } else {
      MembersRoundTrip(chars, after, done + [m], members[1..], items[1..], all, end);
      NextMember(chars, pos, done, m, next, after, Obj(all), end);
    }
  }

  lemma ObjectReadAt(chars: string, pos: nat, members: seq<Property<Json>>, items: seq<string>, text: string,
                     gap: string, last: string)
    requires members != [] && AllSpellMembers(chars, members, items)
    requires AllStartValues(items) && AllSpace(gap) && AllSpace(last)
    requires DistinctNames(members) && text == ['{'] + (gap + Rest(items, '}', gap, last))
    requires Stands(chars, pos, text)
    ensures ReadsValue(chars, pos, Obj(members), pos + |text|)
  {
    assert items != [] && IsCloser('}') && At(chars, pos, text);
    hide *;
    var first := BracketedIsLaidOut(chars, pos, text, '{', items, '}', gap, last);
    NothingDone(members);
    MembersRoundTrip(chars, first, [], members, items, members, pos + |text|);
    ObjectValue(chars, pos, first, Obj(members), pos + |text|);
  }

  lemma ObjectRoundTrip(chars: string, members: seq<Property<Json>>, items: seq<string>, text: string,
                        gap: string, last: string)
    requires members != [] && |items| == |members| && AllStartValues(items) && AllSpace(gap) && AllSpace(last)
    requires forall i :: 0 <= i < |items| ==> SpellsMember(chars, members[i], items[i])
    requires DistinctNames(members) && text == ['{'] + (gap + Rest(items, '}', gap, last))
    ensures Spells(chars, Obj(members), text)
  {
    forall pos: nat | Stands(chars, pos, text) ensures ReadsValue(chars, pos, Obj(members), pos + |text|) {
      ObjectReadAt(chars, pos, members, items, text, gap, last);
    }
  }

  lemma EmptyObjectRoundTrip(chars: string)
    ensures Spells(chars, Obj([]), "{}")
  {
    forall pos: nat | Stands(chars, pos, "{}") ensures ReadsValue(chars, pos, Obj([]), pos + 2) {
      AtChar(chars, pos, "{}", 0);
      AtChar(chars, pos, "{}", 1);
    }
  }

  // ---- All values ---------------------------------------------------------------------------

  lemma {:induction false} ItemsAre(elements: seq<Json>, indent: Option<string>, depth: nat, i: nat)
    requires i < |elements| && forall e :: e in elements ==> Printable(e)
    ensures Items(elements, indent, depth)[i] == Stringify(elements[i], indent, depth)
  {
    if i > 0 { ItemsAre(elements[1..], indent, depth, i - 1); }
  }

  lemma {:induction false} EntriesAre(members: seq<Property<Json>>, indent: Option<string>, depth: nat, i: nat)
    requires i < |members| && forall m :: m in members ==> Printable(m.value)
    ensures Printable(members[i].value)
    ensures Entries(members, indent, depth)[i] ==
            Entry(members[i].name, Stringify(members[i].value, indent, depth), indent)
  {
    if i > 0 { EntriesAre(members[1..], indent, depth, i - 1); }
  }

  lemma GapsAreSpace(indent: Option<string>, depth: nat)
    requires SpaceIndent(indent)
    ensures AllSpace(Gap(indent, depth)) && AllSpace(Gap(indent, depth + 1))
  {
    GapIsSpace(indent, depth);
    GapIsSpace(indent, depth + 1);
  }

  lemma ElementsAreSpelled(chars: string, elements: seq<Json>, indent: Option<string>, depth: nat)
    requires (forall e :: e in elements ==> Printable(e)) && SpaceIndent(indent)
    ensures AllStartValues(Items(elements, indent, depth))
    ensures forall i :: 0 <= i < |elements| ==> Spells(chars, elements[i], Items(elements, indent, depth)[i])
    decreases elements, 0
  {
    forall i | 0 <= i < |elements|
      ensures StartsValue(Items(elements, indent, depth)[i])
      ensures Spells(chars, elements[i], Items(elements, indent, depth)[i])
    {
      ItemsAre(elements, indent, depth, i);
      ValueStarts(elements[i], indent, depth);
      ValueRoundTrip(chars, elements[i], indent, depth);
    }
  }

  lemma MembersAreSpelled(chars: string, members: seq<Property<Json>>, indent: Option<string>, depth: nat)
    requires (forall m :: m in members ==> Printable(m.value)) && SpaceIndent(indent)
    ensures AllStartValues(Entries(members, indent, depth))
    ensures forall i :: 0 <= i < |members| ==> SpellsMember(chars, members[i], Entries(members, indent, depth)[i])
    decreases members, 0
  {
    forall i | 0 <= i < |members|
      ensures StartsValue(Entries(members, indent, depth)[i])
      ensures SpellsMember(chars, members[i], Entries(members, indent, depth)[i])
    {
      EntriesAre(members, indent, depth, i);
      var text := Stringify(members[i].value, indent, depth);
      EntryStarts(members[i].name, text, indent);
      ValueStarts(members[i].value, indent, depth);
      ValueRoundTrip(chars, members[i].value, indent, depth);
      QuotedRoundTrip(chars, members[i].name);
      MemberRoundTrip(chars, members[i], Quoted(members[i].name), Colon(indent), text,
                      Entry(members[i].name, text, indent));
    }
  }

  /** Wherever the text of a value stands, the parser reads the value and stops behind it. */
  lemma {:induction false} ValueRoundTrip(chars: string, v: Json, indent: Option<string>, depth: nat)
    requires Printable(v) && SpaceIndent(indent)
    ensures Spells(chars, v, Stringify(v, indent, depth))
    decreases v
  {
    match v
    case Arr(elements) =>
      if elements != [] {
        ElementsAreSpelled(chars, elements, indent, depth + 1);
        var items := Items(elements, indent, depth + 1);
        GapsAreSpace(indent, depth);
        EnclosedIs('[', items, ']', indent, depth);
        ArrayRoundTrip(chars, elements, items, Stringify(v, indent, depth), Gap(indent, depth + 1), Gap(indent, depth));
      } else {
        EmptyArrayRoundTrip(chars);
      }
    case Obj(members) =>
      if members != [] {
        MembersAreSpelled(chars, members, indent, depth + 1);
        var items := Entries(members, indent, depth + 1);
        GapsAreSpace(indent, depth);
        EnclosedIs('{', items, '}', indent, depth);
        ObjectRoundTrip(chars, members, items, Stringify(v, indent, depth), Gap(indent, depth + 1), Gap(indent, depth));
      } else {
        EmptyObjectRoundTrip(chars);
      }
    case Null => ScalarRoundTrip(chars, v, "null", indent, depth);
    case Bool(b) => ScalarRoundTrip(chars, v, if b then "true" else "false", indent, depth);
    case Smi(n) => ScalarRoundTrip(chars, v, IntegerText(n as int), indent, depth);
    case Str(s) => ScalarRoundTrip(chars, v, Quoted(s), indent, depth);
  }

  /** Parsing the printed text returns the tree and consumes all of it. */
  lemma ParseUndoesStringify(v: Json, indent: Option<string>)
    requires Printable(v) && SpaceIndent(indent)
    ensures Parse(Stringify(v, indent, 0)) == Parsed(v, |Stringify(v, indent, 0)|)
  {
    var text := Stringify(v, indent, 0);
    assert text[0..0 + |text|] == text;
    ValueStarts(v, indent, 0);
    ValueRoundTrip(text, v, indent, 0);
    Spelled(text, 0, v, text);
  }

  /** In particular with any integer as the third argument of `JSON.stringify`. */
  lemma ParseUndoesSpacedStringify(v: Json, space: int32)
    requires Printable(v)
    ensures Parse(Stringify(v, SpaceArgument(space), 0)).Parsed?
    ensures Parse(Stringify(v, SpaceArgument(space), 0)).value == v
  {
    RepeatIsSpace(" ", if space > 10 then 10 else if space < 0 then 0 else space as nat);
    ParseUndoesStringify(v, SpaceArgument(space));
  }

  // ---- Parsed trees can be printed ----------------------------------------------------------

  /** No floats and no raw text at any depth: what the printer here covers. */
  ghost predicate Covered(v: Json) {
    match v
    case Number(_) => false
    case Arr(elements) => forall e :: e in elements ==> Covered(e)
    case Obj(members) =>
      GetProperty(members, RAW_MARK) != Some(Bool(true)) && forall m :: m in members ==> Covered(m.value)
    case _ => true
  }

  /** Every object at any depth has distinct names. */
  ghost predicate NamesAreDistinct(v: Json) {
    match v
    case Arr(elements) => forall e :: e in elements ==> NamesAreDistinct(e)
    case Obj(members) => DistinctNames(members) && forall m :: m in members ==> NamesAreDistinct(m.value)
    case _ => true
  }

  lemma {:induction false} CoveredIsPrintable(v: Json)
    requires Covered(v) && NamesAreDistinct(v)
    ensures Printable(v)
    decreases v
  {
    match v
    case Arr(elements) =>
      forall e | e in elements ensures Printable(e) { CoveredIsPrintable(e); }
    case Obj(members) =>
      forall m | m in members ensures Printable(m.value) { CoveredIsPrintable(m.value); }
    case _ =>
  }

  lemma {:induction false} SetKeepsValuesDistinct(members: seq<Property<Json>>, name: string, v: Json)
    requires (forall m :: m in members ==> NamesAreDistinct(m.value)) && NamesAreDistinct(v)
    ensures forall m :: m in SetProperty(members, name, v) ==> NamesAreDistinct(m.value)
  {
    if members != [] && members[0].name != name { SetKeepsValuesDistinct(members[1..], name, v); }
  }

  /** Whatever the text, a parsed tree has distinct names in every object: a repeated name replaces
      the earlier value. */
  lemma {:induction false} ParsedNamesAreDistinct(chars: string, pos: nat)
    requires pos <= |chars|
    ensures ParseValue(chars, pos).Parsed? ==> NamesAreDistinct(ParseValue(chars, pos).value)
    decreases |chars| - pos, 1
  {
    var p := SkipSpace(chars, pos);
    if Sees(chars, p, '{') {
      var first := SkipSpace(chars, p + 1);
      if !Sees(chars, first, '}') { ParsedMembersAreDistinct(chars, first, []); }
    } else if Sees(chars, p, '[') {
      var first := SkipSpace(chars, p + 1);
      if !Sees(chars, first, ']') { ParsedElementsAreDistinct(chars, first, []); }
    }
  }

  lemma {:induction false} ParsedElementsAreDistinct(chars: string, pos: nat, done: seq<Json>)
    requires pos <= |chars| && forall e :: e in done ==> NamesAreDistinct(e)
    ensures ParseElements(chars, pos, done).Parsed? ==> NamesAreDistinct(ParseElements(chars, pos, done).value)
    decreases |chars| - pos, 2
  {
    ParsedNamesAreDistinct(chars, pos);
    var r := ParseValue(chars, pos);
    if r.Parsed? {
      var separator := ParseSeparator(chars, r.next, ']');
      if separator.Parsed? && separator.value {
        ParsedElementsAreDistinct(chars, separator.next, done + [r.value]);
      }
    }
  }

  lemma {:induction false} ParsedMembersAreDistinct(chars: string, pos: nat, done: seq<Property<Json>>)
    requires pos <= |chars| && DistinctNames(done) && forall m :: m in done ==> NamesAreDistinct(m.value)
    ensures ParseMembers(chars, pos, done).Parsed? ==> NamesAreDistinct(ParseMembers(chars, pos, done).value)
    decreases |chars| - pos, 3
  {
    ParsedMemberIsDistinct(chars, pos);
    var r := ParseMember(chars, pos);
    if r.Parsed? {
      SetKeepsNamesDistinct(done, r.value.name, r.value.value);
      SetKeepsValuesDistinct(done, r.value.name, r.value.value);
      var separator := ParseSeparator(chars, r.next, '}');
      if separator.Parsed? && separator.value {
        ParsedMembersAreDistinct(chars, separator.next, SetProperty(done, r.value.name, r.value.value));
      }
    }
  }

  lemma ParsedMemberIsDistinct(chars: string, pos: nat)
    requires pos <= |chars|
    ensures ParseMember(chars, pos).Parsed? ==> NamesAreDistinct(ParseMember(chars, pos).value.value)
    decreases |chars| - pos, 2
  {
    var p := SkipSpace(chars, pos);
    if Sees(chars, p, '"') {
      var name := ParseString(chars, p + 1, "");
      if name.Parsed? && Sees(chars, SkipSpace(chars, name.next), ':') {
        ParsedNamesAreDistinct(chars, SkipSpace(chars, name.next) + 1);
      }
    }
  }

  /** Parsing, printing and parsing again gives the first tree, whatever the text was. */
  lemma ParsePrintParse(text: string, indent: Option<string>)
    requires Parse(text).Parsed? && Covered(Parse(text).value) && SpaceIndent(indent)
    ensures Printable(Parse(text).value)
    ensures Parse(Stringify(Parse(text).value, indent, 0)).Parsed?
    ensures Parse(Stringify(Parse(text).value, indent, 0)).value == Parse(text).value
  {
    ParsedNamesAreDistinct(text, SkipSpace(text, 0));
    CoveredIsPrintable(Parse(text).value);
    ParseUndoesStringify(Parse(text).value, indent);
  }
}
