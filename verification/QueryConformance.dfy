module QueryConformance {
  // What percent coding and query strings (src/builtins/url.rs) do character by character, in literal characters and
  // for every text around them.

  import opened Options
  import opened Utf8
  import opened Query

  const UPPER := "0123456789ABCDEF"
  const LOWER := "0123456789abcdef"

  // ---- Encoding -----------------------------------------------------------------------------

  ghost predicate IsAlphanumeric(b: Byte) {
    'a' as int <= b <= 'z' as int || 'A' as int <= b <= 'Z' as int || '0' as int <= b <= '9' as int
  }

  lemma UpperDigit(d: int)
    requires 0 <= d < 16
    ensures UpperHexDigit(d) == UPPER[d] as int
  {
  }

  /** Which bytes are written as they are, and how the others are. */
  lemma ByteWritten(b: Byte, isComponent: bool, rest: seq<Byte>)
    ensures
      var plain :=
        || IsAlphanumeric(b) || b as char in "-_.~"
        || (!isComponent && b as char in ";,/?:@&=+$#");
      var written := if plain then [b] else ['%' as int, UPPER[b / 16] as int, UPPER[b % 16] as int];
      Encoded([b] + rest, isComponent) == written + Encoded(rest, isComponent)
  {
    hide UpperHexDigit;
    UpperDigit(b / 16);
    UpperDigit(b % 16);
    assert ([b] + rest)[1..] == rest;
  }

  // ---- Decoding -----------------------------------------------------------------------------

  /** The character is a hexadecimal digit, in either case, with the value `d`. */
  ghost predicate Spells(c: Byte, d: int) {
    0 <= d < 16 && (c == UPPER[d] as int || c == LOWER[d] as int)
  }

  lemma SpelledDigit(c: Byte, d: int)
    requires Spells(c, d)
    ensures HexValue(c) == Some(d) && c != PLUS
  {
  }

  lemma DigitSpelled(c: Byte)
    requires HexValue(c).Some?
    ensures Spells(c, HexValue(c).value)
  {
  }

  lemma EscapeByte(high: int, low: int, h: Byte, l: Byte)
    requires Spells(h, high) && Spells(l, low)
    ensures 0 <= 16 * high + low < 0x100 && FromHex(h, l) == Some(16 * high + low)
  {
    hide HexValue;
    SpelledDigit(h, high);
    SpelledDigit(l, low);
  }

  /** An escape with two digits is the byte they spell ... */
  lemma EscapeDecodes(high: int, low: int, h: Byte, l: Byte, rest: seq<Byte>, plusAsSpace: bool)
    requires Spells(h, high) && Spells(l, low)
    ensures DecodedBytes(['%' as int, h, l] + rest, plusAsSpace) ==
            Cons(16 * high + low, DecodedBytes(rest, plusAsSpace))
  {
    hide FromHex;
    EscapeByte(high, low, h, l);
    assert (['%' as int, h, l] + rest)[3..] == rest;
  }

  /** ... one with a plus sign and a digit is the byte that the digit spells ... */
  lemma PlusEscapeDecodes(low: int, l: Byte, rest: seq<Byte>, plusAsSpace: bool)
    requires Spells(l, low)
    ensures DecodedBytes(['%' as int, '+' as int, l] + rest, plusAsSpace) == Cons(low, DecodedBytes(rest, plusAsSpace))
  {
    SpelledDigit(l, low);
    assert (['%' as int, '+' as int, l] + rest)[3..] == rest;
  }

  /** ... and nothing else may follow a percent sign. */
  lemma OtherEscapeFails(s: seq<Byte>, plusAsSpace: bool)
    requires s != [] && s[0] == '%' as int
    requires |s| >= 3 ==> !(exists d :: Spells(s[2], d)) || (s[1] != '+' as int && !(exists d :: Spells(s[1], d)))
    ensures DecodedBytes(s, plusAsSpace) == None && Decoded(s, plusAsSpace) == Err(MalformedUri)
  {
    if |s| >= 3 {
      if HexValue(s[1]).Some? { DigitSpelled(s[1]); }
      if HexValue(s[2]).Some? { DigitSpelled(s[2]); }
    }
  }

  /** A plus sign is a space on request; every other byte stands for itself. */
  lemma PlainByteDecodes(b: Byte, rest: seq<Byte>, plusAsSpace: bool)
    requires b != '%' as int
    ensures DecodedBytes([b] + rest, plusAsSpace) ==
            Cons(if b == '+' as int && plusAsSpace then ' ' as int else b, DecodedBytes(rest, plusAsSpace))
  {
    assert ([b] + rest)[1..] == rest;
  }

  /** Decoded bytes are a result exactly if they are the encoding of scalar values. */
  lemma DecodedIff(s: seq<Byte>, bytes: seq<Byte>, plusAsSpace: bool)
    requires DecodedBytes(s, plusAsSpace) == Some(bytes)
    ensures Decoded(s, plusAsSpace) == Ok(bytes)
      <==> exists cs: seq<int> :: (forall c :: c in cs ==> IsScalar(c)) && EncodedScalars(cs) == bytes
    ensures Decoded(s, plusAsSpace) != Ok(bytes) ==> Decoded(s, plusAsSpace) == Err(MalformedSequence)
  {
    if IsText(bytes) {
      var cs := TextHasScalars(bytes);
    }
    forall cs: seq<int> | (forall c :: c in cs ==> IsScalar(c)) && EncodedScalars(cs) == bytes
      ensures IsText(bytes)
    {
      ScalarsAreText(cs);
    }
  }

  // ---- Query strings ------------------------------------------------------------------------

  ghost function OneOf(s: seq<Byte>): seq<Byte> {
    if Decoded(s, true).Ok? then Decoded(s, true).value else s
  }

  lemma DecodedOne(s: seq<Byte>)
    ensures DecodedOrRaw(s) == OneOf(s)
  {
  }

  lemma NothingDecodes()
    ensures DecodedOrRaw([]) == []
  {
  }

  /** A part without an equals sign is a key with an empty value; an empty part is no pair. */
  lemma KeyParses(key: seq<Byte>)
    requires '&' as int !in key && '=' as int !in key && (key != [] ==> key[0] != '?' as int)
    ensures Parsed(key) == if key == [] then [] else [Pair(OneOf(key), [])]
  {
    hide DecodedOrRaw, OneOf;
    DecodedOne(key);
    NothingDecodes();
    FindAbsent(key, EQUALS);
    FindAbsent(key, AMPERSAND);
    assert key[..|key|] == key;
    if key != [] { OnePart(key); }
  }

  lemma OnePart(part: seq<Byte>)
    requires part != []
    ensures PairsOf([part]) == [PairOf(part)]
  {
    assert [part][1..] == [];
    assert [PairOf(part)] + [] == [PairOf(part)];
  }

  /** The first equals sign of a part separates key and value. */
  lemma PairParses(key: seq<Byte>, value: seq<Byte>)
    requires '&' as int !in key && '&' as int !in value && '=' as int !in key
    requires key != [] ==> key[0] != '?' as int
    ensures Parsed(key + (['=' as int] + value)) == [Pair(OneOf(key), OneOf(value))]
  {
    hide DecodedOrRaw, OneOf, Find;
    var part := key + ([EQUALS] + value);
    PairSplits(key, value);
    FindAbsent(part, AMPERSAND);
    OnePart(part);
  }

  lemma PairSplits(key: seq<Byte>, value: seq<Byte>)
    requires '=' as int !in key
    ensures PairOf(key + ([EQUALS] + value)) == Pair(OneOf(key), OneOf(value))
  {
    hide DecodedOrRaw, OneOf, Find;
    var part := key + ([EQUALS] + value);
    DecodedOne(key);
    DecodedOne(value);
    FindBehind(key, EQUALS, value);
    assert part[..|key|] == key && part[|key| + 1..] == value;
  }

  /** An ampersand separates parts. */
  lemma AmpersandSeparates(part: seq<Byte>, rest: seq<Byte>)
    requires '&' as int !in part && (part != [] ==> part[0] != '?' as int) && (rest != [] ==> rest[0] != '?' as int)
    ensures Parsed(part + (['&' as int] + rest)) == Parsed(part) + Parsed(rest)
  {
    hide PairOf, Find;
    SplitCons(part, rest);
    PartsParse(part, Split(rest, AMPERSAND));
    UnaskedParses(part);
    UnaskedParses(rest);
    FindAbsent(part, AMPERSAND);
    var whole := part + ([AMPERSAND] + rest);
    assert part != [] ==> whole[0] == part[0];
  }

  /** Parsing is the pairs of the parts, also of the empty text. */
  lemma UnaskedParses(q: seq<Byte>)
    requires q != [] ==> q[0] != QUESTION
    ensures Parsed(q) == PairsOf(Split(q, AMPERSAND))
  {
    if q == [] {
      var parts := Split(q, AMPERSAND);
      assert parts == [q] && parts[1..] == [];
    }
  }

  lemma PartsParse(part: seq<Byte>, parts: seq<seq<Byte>>)
    ensures PairsOf([part] + parts) == PairsOf([part]) + PairsOf(parts)
  {
    assert ([part] + parts)[1..] == parts;
    if part == [] { assert [part][1..] == []; } else { OnePart(part); }
  }

  /** One leading question mark is skipped. */
  lemma QuestionIsSkipped(q: seq<Byte>)
    requires q != [] ==> q[0] != '?' as int
    ensures Parsed(['?' as int] + q) == Parsed(q)
  {
    assert (['?' as int] + q)[1..] == q;
  }

  /** Printing writes an equals sign within a pair and an ampersand between pairs. */
  lemma PairsPrint(p: Pair, rest: seq<Pair>)
    ensures
      var text := Encoded(p.key, true) + (['=' as int] + Encoded(p.value, true));
      QueryString([p] + rest) == if rest == [] then text else text + (['&' as int] + QueryString(rest))
    ensures QueryString([]) == []
  {
    assert ([p] + rest)[1..] == rest;
    assert ([EncodedPair(p)] + EncodedPairs(rest))[1..] == EncodedPairs(rest);
  }
}
