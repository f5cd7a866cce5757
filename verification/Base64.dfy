/** `btoa` and `atob` (src/builtins/base64.rs), with the alphabet of section 4 of RFC 4648. */
module Base64 {
  // Encoded text is given by its UTF-8 bytes.

  import opened Options
  import opened Bytes

  datatype Error = OutsideLatin1 | NotCorrectlyEncoded | InvalidPadding | InvalidCharacter

  datatype Result<+T> = Ok(value: T) | Err(error: Error)

  const PAD: bv8 := 61

  // ---- The alphabet -------------------------------------------------------------------------

  /** A-Z, a-z, 0-9, plus and slash. */
  function Symbol(v: bv8): bv8
    requires v < 64
  {
    if v < 26 then 65 + v
    else if v < 52 then 97 + (v - 26)
    else if v < 62 then 48 + (v - 52)
    else if v == 62 then 43
    else 47
  }

  function SymbolValue(ch: bv8): Option<bv8> {
    if 65 <= ch <= 90 then Some(ch - 65)
    else if 97 <= ch <= 122 then Some(ch - 97 + 26)
    else if 48 <= ch <= 57 then Some(ch - 48 + 52)
    else if ch == 43 then Some(62)
    else if ch == 47 then Some(63)
    else None
  }

  predicate IsSpace(b: bv8) {
    b == 32 || b == 9 || b == 10 || b == 13 || b == 12
  }

  lemma SymbolsAreValues(v: bv8)
    requires v < 64
    ensures SymbolValue(Symbol(v)) == Some(v) && Symbol(v) != PAD && !IsSpace(Symbol(v))
  {
  }

  lemma ValuesAreSymbols(ch: bv8)
    requires SymbolValue(ch).Some?
    ensures SymbolValue(ch).value < 64 && Symbol(SymbolValue(ch).value) == ch && ch != PAD && !IsSpace(ch)
  {
  }

  // ---- Encoding -----------------------------------------------------------------------------

  function First(b0: bv8): (v: bv8)
    ensures v < 64
  {
    b0 >> 2
  }

  function Second(b0: bv8, b1: bv8): (v: bv8)
    ensures v < 64
  {
    ((b0 & 0x03) << 4) | (b1 >> 4)
  }

  function Third(b1: bv8, b2: bv8): (v: bv8)
    ensures v < 64
  {
    ((b1 & 0x0f) << 2) | (b2 >> 6)
  }

  function Fourth(b2: bv8): (v: bv8)
    ensures v < 64
  {
    b2 & 0x3f
  }

  function Quad(b0: bv8, b1: bv8, b2: bv8): seq<bv8> {
    [Symbol(First(b0)), Symbol(Second(b0, b1)), Symbol(Third(b1, b2)), Symbol(Fourth(b2))]
  }

  /** The last one or two bytes: zero bits fill up the last symbol. */
  function LastOne(b0: bv8): seq<bv8> {
    [Symbol(First(b0)), Symbol(Second(b0, 0)), PAD, PAD]
  }

  function LastTwo(b0: bv8, b1: bv8): seq<bv8> {
    [Symbol(First(b0)), Symbol(Second(b0, b1)), Symbol(Third(b1, 0)), PAD]
  }

  function Encoded(bytes: seq<bv8>): (text: seq<bv8>)
    ensures |text| % 4 == 0
  {
    if |bytes| == 0 then []
    else if |bytes| == 1 then LastOne(bytes[0])
    else if |bytes| == 2 then LastTwo(bytes[0], bytes[1])
    else Quad(bytes[0], bytes[1], bytes[2]) + Encoded(bytes[3..])
  }

  lemma EncodedChunk(bytes: seq<bv8>, i: nat, result: seq<bv8>)
    requires i + 3 <= |bytes|
    ensures result + Encoded(bytes[i..]) ==
            (result + Quad(bytes[i], bytes[i + 1], bytes[i + 2])) + Encoded(bytes[i + 3..])
  {
    assert bytes[i..][3..] == bytes[i + 3..];
  }

  lemma EncodedEnd(bytes: seq<bv8>, i: nat)
    requires i <= |bytes| < i + 3
    ensures |bytes| - i == 0 ==> Encoded(bytes[i..]) == []
    ensures |bytes| - i == 1 ==> Encoded(bytes[i..]) == LastOne(bytes[i])
    ensures |bytes| - i == 2 ==> Encoded(bytes[i..]) == LastTwo(bytes[i], bytes[i + 1])
  {
  }

  /** The symbols as the encoder writes them, with the missing bytes left out. */
  lemma EndsWithZeroBits(b0: bv8, b1: bv8)
    ensures (b0 & 0x03) << 4 == Second(b0, 0) && (b1 & 0x0f) << 2 == Third(b1, 0)
  {
  }

  method Base64Encode(bytes: seq<bv8>) returns (result: seq<bv8>)
    ensures result == Encoded(bytes)
  {
    result := [];
    var i := 0;
    assert bytes[0..] == bytes && [] + Encoded(bytes) == Encoded(bytes);
    while i + 3 <= |bytes|
      invariant i <= |bytes| && result + Encoded(bytes[i..]) == Encoded(bytes)
    {
      EncodedChunk(bytes, i, result);
      var b0, b1, b2 := bytes[i], bytes[i + 1], bytes[i + 2];
      var quad := EncodeChunk(b0, b1, b2);
      result := result + quad;
      i := i + 3;
    }
    EncodedEnd(bytes, i);
    if |bytes| - i == 1 {
      var b0 := bytes[i];
      EndsWithZeroBits(b0, 0);
      result := result + [Symbol(b0 >> 2), Symbol((b0 & 0x03) << 4), PAD, PAD];
    } else if |bytes| - i == 2 {
      var b0, b1 := bytes[i], bytes[i + 1];
      EndsWithZeroBits(b0, b1);
      result := result + [Symbol(b0 >> 2), Symbol(((b0 & 0x03) << 4) | (b1 >> 4)), Symbol((b1 & 0x0f) << 2), PAD];
    } else {
      assert result + [] == result;
    }
  }

  method EncodeChunk(b0: bv8, b1: bv8, b2: bv8) returns (quad: seq<bv8>)
    ensures quad == Quad(b0, b1, b2)
  {
    quad := [Symbol(b0 >> 2)];
    quad := quad + [Symbol(((b0 & 0x03) << 4) | (b1 >> 4))];
    quad := quad + [Symbol(((b1 & 0x0f) << 2) | (b2 >> 6))];
    quad := quad + [Symbol(b2 & 0x3f)];
  }

  // ---- Decoding -----------------------------------------------------------------------------

  function Stripped(text: seq<bv8>): seq<bv8> {
    if text == [] then []
    else if IsSpace(text[0]) then Stripped(text[1..])
    else [text[0]] + Stripped(text[1..])
  }

  function Byte0(v0: bv8, v1: bv8): bv8 {
    (v0 << 2) | (v1 >> 4)
  }

  function Byte1(v1: bv8, v2: bv8): bv8 {
    ((v1 & 0x0f) << 4) | (v2 >> 2)
  }

  function Byte2(v2: bv8, v3: bv8): bv8 {
    ((v2 & 0x03) << 6) | v3
  }

  /** The one to three bytes that four symbols stand for. */
  function DecodedQuad(c0: bv8, c1: bv8, c2: bv8, c3: bv8): Result<seq<bv8>> {
    if c0 == PAD || c1 == PAD then Err(InvalidPadding)
    else if SymbolValue(c0).None? || SymbolValue(c1).None? then Err(InvalidCharacter)
    else
      var v0, v1 := SymbolValue(c0).value, SymbolValue(c1).value;
      if c2 == PAD then
        if c3 == PAD then Ok([Byte0(v0, v1)]) else Err(InvalidPadding)
      else if SymbolValue(c2).None? then Err(InvalidCharacter)
      else
        var v2 := SymbolValue(c2).value;
        if c3 == PAD then Ok([Byte0(v0, v1), Byte1(v1, v2)])
        else if SymbolValue(c3).None? then Err(InvalidCharacter)
        else Ok([Byte0(v0, v1), Byte1(v1, v2), Byte2(v2, SymbolValue(c3).value)])
  }

  /** The bytes of one part and those of the rest, or the first error. */
  function Chained(part: Result<seq<bv8>>, rest: Result<seq<bv8>>): Result<seq<bv8>> {
    match part
    case Err(e) => Err(e)
    case Ok(bytes) => Prefixed(bytes, rest)
  }

  function Prefixed(before: seq<bv8>, r: Result<seq<bv8>>): Result<seq<bv8>> {
    match r
    case Ok(rest) => Ok(before + rest)
    case Err(e) => Err(e)
  }

  /** Quad by quad; the first one that cannot be decoded decides the error. */
  function DecodedQuads(text: seq<bv8>): Result<seq<bv8>>
    requires |text| % 4 == 0
  {
    if text == [] then Ok([])
    else
      Chained(DecodedQuad(text[0], text[1], text[2], text[3]), DecodedQuads(text[4..]))
  }

  function Decoded(text: seq<bv8>): Result<seq<bv8>> {
    if |Stripped(text)| % 4 != 0 then Err(NotCorrectlyEncoded) else DecodedQuads(Stripped(text))
  }

  lemma {:induction false} StrippedAppend(text: seq<bv8>, b: bv8)
    ensures Stripped(text + [b]) == Stripped(text) + if IsSpace(b) then [] else [b]
  {
    if text == [] {
      assert text + [b] == [b] && [b][1..] == [];
    } else {
      assert (text + [b])[1..] == text[1..] + [b];
      StrippedAppend(text[1..], b);
    }
  }

  method Strip(text: seq<bv8>) returns (filtered: seq<bv8>)
    ensures filtered == Stripped(text)
  {
    filtered := [];
    for i := 0 to |text|
      invariant filtered == Stripped(text[..i])
    {
      assert text[..i + 1] == text[..i] + [text[i]];
      StrippedAppend(text[..i], text[i]);
      if !IsSpace(text[i]) {
        filtered := filtered + [text[i]];
      }
    }
    assert text[..|text|] == text;
  }

  method Base64Decode(text: seq<bv8>) returns (r: Result<seq<bv8>>)
    ensures r == Decoded(text)
  {
    var filtered := Strip(text);
    if |filtered| % 4 != 0 {
      return Err(NotCorrectlyEncoded);
    }
    r := DecodeQuads(filtered);
  }

  method DecodeQuads(filtered: seq<bv8>) returns (r: Result<seq<bv8>>)
    requires |filtered| % 4 == 0
    ensures r == DecodedQuads(filtered)
  {
    var decoded, chunks: seq<bv8> := [], filtered;
    ghost var expected := DecodedQuads(filtered);
    NothingPrefixed(expected);
    while chunks != []
      invariant |chunks| % 4 == 0 && expected == Prefixed(decoded, DecodedQuads(chunks))
      decreases |chunks|
    {
      var quad := DecodeQuad(chunks[0], chunks[1], chunks[2], chunks[3]);
      PrefixedChain(decoded, quad, DecodedQuads(chunks[4..]));
      if quad.Err? {
        return Err(quad.error);
      }
      decoded, chunks := decoded + quad.value, chunks[4..];
    }
    assert decoded + [] == decoded;
    r := Ok(decoded);
  }

  lemma PrefixedChain(decoded: seq<bv8>, quad: Result<seq<bv8>>, rest: Result<seq<bv8>>)
    ensures quad.Err? ==> Prefixed(decoded, Chained(quad, rest)) == quad
    ensures quad.Ok? ==> Prefixed(decoded, Chained(quad, rest)) == Prefixed(decoded + quad.value, rest)
  {
    if quad.Ok? { PrefixedTwice(decoded, quad.value, rest); }
  }

  lemma NothingPrefixed(r: Result<seq<bv8>>)
    ensures Prefixed([], r) == r
  {
    if r.Ok? { assert [] + r.value == r.value; }
  }

  lemma PrefixedTwice(a: seq<bv8>, b: seq<bv8>, r: Result<seq<bv8>>)
    ensures Prefixed(a, Prefixed(b, r)) == Prefixed(a + b, r)
  {
    if r.Ok? { assert a + (b + r.value) == (a + b) + r.value; }
  }

  method DecodeQuad(c0: bv8, c1: bv8, c2: bv8, c3: bv8) returns (r: Result<seq<bv8>>)
    ensures r == DecodedQuad(c0, c1, c2, c3)
  {
    if c0 == PAD || c1 == PAD {
      return Err(InvalidPadding);
    }
    var v0, v1 := SymbolValue(c0), SymbolValue(c1);
    if v0.None? || v1.None? {
      return Err(InvalidCharacter);
    }
    var b0 := (v0.value << 2) | (v1.value >> 4);
    assert b0 == Byte0(v0.value, v1.value);
    if c2 == PAD {
      return if c3 == PAD then Ok([b0]) else Err(InvalidPadding);
    }
    var v2 := SymbolValue(c2);
    if v2.None? {
      return Err(InvalidCharacter);
    }
    var b1 := ((v1.value & 0x0f) << 4) | (v2.value >> 2);
    assert b1 == Byte1(v1.value, v2.value);
    if c3 == PAD {
      return Ok([b0, b1]);
    }
    var v3 := SymbolValue(c3);
    if v3.None? {
      return Err(InvalidCharacter);
    }
    var b2 := ((v2.value & 0x03) << 6) | v3.value;
    assert b2 == Byte2(v2.value, v3.value);
    r := Ok([b0, b1, b2]);
  }

  // ---- Strings ------------------------------------------------------------------------------

  /** The bytes of a Latin-1 string. */
  function Latin1Bytes(s: string): Result<seq<bv8>> {
    if s == "" then Ok([])
    else if s[0] as int > 0xff then Err(OutsideLatin1)
    else Prefixed([s[0] as int as bv8], Latin1Bytes(s[1..]))
  }

  function Latin1String(bytes: seq<bv8>): (s: string)
    ensures |s| == |bytes|
  {
    seq(|bytes|, i requires 0 <= i < |bytes| => bytes[i] as int as char)
  }

  lemma Latin1Prepend(b: bv8, rest: seq<bv8>)
    ensures Latin1String([b] + rest) == [b as int as char] + Latin1String(rest)
  {
  }

  lemma ByteOfChar(c: char)
    requires c as int <= 0xff
    ensures (c as int as bv8) as int as char == c
  {
    ByteOfNumber(c as int);
  }

  lemma {:induction false} StringOfBytes(s: string)
    requires Latin1Bytes(s).Ok?
    ensures Latin1String(Latin1Bytes(s).value) == s
  {
    if s != "" {
      StringOfBytes(s[1..]);
      ByteOfChar(s[0]);
      Latin1Prepend(s[0] as int as bv8, Latin1Bytes(s[1..]).value);
      assert [s[0]] + s[1..] == s;
    }
  }

  lemma {:induction false} BytesOfString(bytes: seq<bv8>)
    ensures Latin1Bytes(Latin1String(bytes)) == Ok(bytes)
  {
    if bytes != [] {
      BytesOfString(bytes[1..]);
      assert Latin1String(bytes)[1..] == Latin1String(bytes[1..]);
      assert [bytes[0]] + bytes[1..] == bytes;
    }
  }

  /** Exactly the strings with a character above U+00FF have no bytes. */
  lemma {:induction false} OnlyLatin1HasBytes(s: string)
    ensures Latin1Bytes(s).Ok? <==> forall i :: 0 <= i < |s| ==> s[i] as int <= 0xff
    ensures Latin1Bytes(s).Err? ==> Latin1Bytes(s).error == OutsideLatin1
  {
    if s != "" {
      OnlyLatin1HasBytes(s[1..]);
      assert forall i :: 0 < i < |s| ==> s[i] == s[1..][i - 1];
      assert forall i :: 0 <= i < |s[1..]| ==> s[1..][i] == s[i + 1];
    }
  }

  function Btoa(input: string): Result<seq<bv8>> {
    match Latin1Bytes(input)
    case Err(e) => Err(e)
    case Ok(bytes) => Ok(Encoded(bytes))
  }

  function Atob(text: seq<bv8>): Result<string> {
    match Decoded(text)
    case Err(e) => Err(e)
    case Ok(bytes) => Ok(Latin1String(bytes))
  }

  method BtoaEncode(input: string) returns (r: Result<seq<bv8>>)
    ensures r == Btoa(input)
  {
    var bytes: seq<bv8> := [];
    assert input[0..] == input;
    NothingPrefixed(Latin1Bytes(input));
    for i := 0 to |input|
      invariant Latin1Bytes(input) == Prefixed(bytes, Latin1Bytes(input[i..]))
    {
      assert input[i..][1..] == input[i + 1..];
      if input[i] as int > 0xff {
        return Err(OutsideLatin1);
      }
      PrefixedTwice(bytes, [input[i] as int as bv8], Latin1Bytes(input[i + 1..]));
      bytes := bytes + [input[i] as int as bv8];
    }
    assert bytes + [] == bytes;
    var encoded := Base64Encode(bytes);
    r := Ok(encoded);
  }

  method AtobDecode(text: seq<bv8>) returns (r: Result<string>)
    ensures r == Atob(text)
  {
    var bytes := Base64Decode(text);
    match bytes {
      case Err(e) => r := Err(e);
      case Ok(decoded) => r := Ok(Latin1String(decoded));
    }
  }

  // ---- Decoding undoes encoding -------------------------------------------------------------

  lemma QuadRoundTrip(b0: bv8, b1: bv8, b2: bv8)
    ensures DecodedQuad(Symbol(First(b0)), Symbol(Second(b0, b1)), Symbol(Third(b1, b2)), Symbol(Fourth(b2))) ==
            Ok([b0, b1, b2])
  {
    SymbolsAreValues(First(b0));
    SymbolsAreValues(Second(b0, b1));
    SymbolsAreValues(Third(b1, b2));
    SymbolsAreValues(Fourth(b2));
  }

  lemma LastOneRoundTrip(b0: bv8)
    ensures DecodedQuad(Symbol(First(b0)), Symbol(Second(b0, 0)), PAD, PAD) == Ok([b0])
  {
    SymbolsAreValues(First(b0));
    SymbolsAreValues(Second(b0, 0));
  }

  lemma LastTwoRoundTrip(b0: bv8, b1: bv8)
    ensures DecodedQuad(Symbol(First(b0)), Symbol(Second(b0, b1)), Symbol(Third(b1, 0)), PAD) == Ok([b0, b1])
  {
    SymbolsAreValues(First(b0));
    SymbolsAreValues(Second(b0, b1));
    SymbolsAreValues(Third(b1, 0));
  }

  lemma QuadThenRest(quad: seq<bv8>, rest: seq<bv8>)
    requires |quad| == 4 && |rest| % 4 == 0
    ensures DecodedQuads(quad + rest) ==
            Chained(DecodedQuad(quad[0], quad[1], quad[2], quad[3]), DecodedQuads(rest))
  {
    assert (quad + rest)[4..] == rest;
  }

  lemma {:induction false} DecodeUndoesEncode(bytes: seq<bv8>)
    ensures DecodedQuads(Encoded(bytes)) == Ok(bytes)
  {
    if |bytes| == 1 {
      LastOneRoundTrip(bytes[0]);
      QuadThenRest(LastOne(bytes[0]), []);
      assert LastOne(bytes[0]) + [] == LastOne(bytes[0]) && [bytes[0]] + [] == bytes;
    } else if |bytes| == 2 {
      LastTwoRoundTrip(bytes[0], bytes[1]);
      QuadThenRest(LastTwo(bytes[0], bytes[1]), []);
      assert LastTwo(bytes[0], bytes[1]) + [] == LastTwo(bytes[0], bytes[1]) && [bytes[0], bytes[1]] + [] == bytes;
    } else if |bytes| > 2 {
      QuadRoundTrip(bytes[0], bytes[1], bytes[2]);
      QuadThenRest(Quad(bytes[0], bytes[1], bytes[2]), Encoded(bytes[3..]));
      DecodeUndoesEncode(bytes[3..]);
      assert [bytes[0], bytes[1], bytes[2]] + bytes[3..] == bytes;
    }
  }

  /** Decoding returns the string that was encoded, also with white space put in anywhere. */
  lemma AtobUndoesBtoa(s: string, text: seq<bv8>)
    requires Btoa(s).Ok? && Stripped(text) == Btoa(s).value
    ensures Atob(text) == Ok(s)
  {
    DecodeUndoesEncode(Latin1Bytes(s).value);
    StringOfBytes(s);
  }

  ghost predicate HasNoSpace(text: seq<bv8>) {
    forall i :: 0 <= i < |text| ==> !IsSpace(text[i])
  }

  lemma {:induction false} StrippedOfNoSpace(text: seq<bv8>)
    requires HasNoSpace(text)
    ensures Stripped(text) == text
  {
    if text != [] {
      forall i | 0 <= i < |text| - 1 ensures !IsSpace(text[1..][i]) {
        assert text[1..][i] == text[i + 1];
      }
      StrippedOfNoSpace(text[1..]);
      assert [text[0]] + text[1..] == text;
    }
  }

  /** Encoded text holds no white space, and inserting some anywhere is undone by stripping. */
  lemma {:induction false} EncodedHasNoSpace(bytes: seq<bv8>)
    ensures HasNoSpace(Encoded(bytes))
  {
    if |bytes| >= 3 {
      QuadHasNoSpace(bytes[0], bytes[1], bytes[2]);
      EncodedHasNoSpace(bytes[3..]);
    } else if |bytes| > 0 {
      LastHasNoSpace(bytes[0], if |bytes| == 2 then bytes[1] else 0);
    }
  }

  lemma QuadHasNoSpace(b0: bv8, b1: bv8, b2: bv8)
    ensures HasNoSpace(Quad(b0, b1, b2))
  {
    SymbolsAreValues(First(b0));
    SymbolsAreValues(Second(b0, b1));
    SymbolsAreValues(Third(b1, b2));
    SymbolsAreValues(Fourth(b2));
  }

  lemma LastHasNoSpace(b0: bv8, b1: bv8)
    ensures HasNoSpace(LastOne(b0)) && HasNoSpace(LastTwo(b0, b1))
  {
    SymbolsAreValues(First(b0));
    SymbolsAreValues(Second(b0, 0));
    SymbolsAreValues(Second(b0, b1));
    SymbolsAreValues(Third(b1, 0));
  }

  lemma {:induction false} StrippedInsert(before: seq<bv8>, space: bv8, after: seq<bv8>)
    requires IsSpace(space)
    ensures Stripped(before + [space] + after) == Stripped(before + after)
  {
    var text := before + [space] + after;
    if before == [] {
      assert text[0] == space && text[1..] == after == before + after;
    } else {
      assert text[1..] == before[1..] + [space] + after;
      assert (before + after)[1..] == before[1..] + after;
      StrippedInsert(before[1..], space, after);
    }
  }

  lemma AtobUndoesBtoaDirectly(s: string)
    requires forall i :: 0 <= i < |s| ==> s[i] as int <= 0xff
    ensures Btoa(s).Ok? && Atob(Btoa(s).value) == Ok(s)
  {
    OnlyLatin1HasBytes(s);
    EncodedHasNoSpace(Latin1Bytes(s).value);
    StrippedOfNoSpace(Btoa(s).value);
    AtobUndoesBtoa(s, Btoa(s).value);
  }

  // ---- Canonical text: the image of the encoder ---------------------------------------------

  /** Padding only in the last quad, and the bits that stand for no byte are zero. */
  ghost predicate Canonical(text: seq<bv8>) {
    if text == [] then true
    else
      && |text| >= 4 && SymbolValue(text[0]).Some? && SymbolValue(text[1]).Some?
      && if |text| > 4 || text[3] != PAD then
           SymbolValue(text[2]).Some? && SymbolValue(text[3]).Some? && Canonical(text[4..])
         else if text[2] != PAD then SymbolValue(text[2]).Some? && SymbolValue(text[2]).value & 0x03 == 0
         else SymbolValue(text[1]).value & 0x0f == 0
  }

  lemma QuadOfSymbols(v0: bv8, v1: bv8, v2: bv8, v3: bv8)
    requires v0 < 64 && v1 < 64 && v2 < 64 && v3 < 64
    ensures First(Byte0(v0, v1)) == v0 && Second(Byte0(v0, v1), Byte1(v1, v2)) == v1
    ensures Third(Byte1(v1, v2), Byte2(v2, v3)) == v2 && Fourth(Byte2(v2, v3)) == v3
  {
  }

  lemma LastTwoOfSymbols(v0: bv8, v1: bv8, v2: bv8)
    requires v0 < 64 && v1 < 64 && v2 < 64 && v2 & 0x03 == 0
    ensures First(Byte0(v0, v1)) == v0 && Second(Byte0(v0, v1), Byte1(v1, v2)) == v1 && Third(Byte1(v1, v2), 0) == v2
  {
  }

  lemma LastOneOfSymbols(v0: bv8, v1: bv8)
    requires v0 < 64 && v1 < 64 && v1 & 0x0f == 0
    ensures First(Byte0(v0, v1)) == v0 && Second(Byte0(v0, v1), 0) == v1
  {
  }

  lemma FullQuad(c0: bv8, c1: bv8, c2: bv8, c3: bv8)
    requires SymbolValue(c0).Some? && SymbolValue(c1).Some? && SymbolValue(c2).Some? && SymbolValue(c3).Some?
    ensures DecodedQuad(c0, c1, c2, c3).Ok? && |DecodedQuad(c0, c1, c2, c3).value| == 3
    ensures var b := DecodedQuad(c0, c1, c2, c3).value; Quad(b[0], b[1], b[2]) == [c0, c1, c2, c3]
  {
    var v0, v1, v2, v3 := SymbolValue(c0).value, SymbolValue(c1).value, SymbolValue(c2).value, SymbolValue(c3).value;
    ThreeBytes(c0, c1, c2, c3);
    ValuesAreSymbols(c0);
    ValuesAreSymbols(c1);
    ValuesAreSymbols(c2);
    ValuesAreSymbols(c3);
    QuadOfSymbols(v0, v1, v2, v3);
  }

  lemma ThreeBytes(c0: bv8, c1: bv8, c2: bv8, c3: bv8)
    requires SymbolValue(c0).Some? && SymbolValue(c1).Some? && SymbolValue(c2).Some? && SymbolValue(c3).Some?
    ensures
      var v0, v1, v2, v3 := SymbolValue(c0).value, SymbolValue(c1).value, SymbolValue(c2).value, SymbolValue(c3).value;
      DecodedQuad(c0, c1, c2, c3) == Ok([Byte0(v0, v1), Byte1(v1, v2), Byte2(v2, v3)])
  {
    NoSymbolIsPad(c0);
    NoSymbolIsPad(c1);
    NoSymbolIsPad(c2);
    NoSymbolIsPad(c3);
  }

  lemma TwoBytes(c0: bv8, c1: bv8, c2: bv8)
    requires SymbolValue(c0).Some? && SymbolValue(c1).Some? && SymbolValue(c2).Some?
    ensures
      var v0, v1, v2 := SymbolValue(c0).value, SymbolValue(c1).value, SymbolValue(c2).value;
      DecodedQuad(c0, c1, c2, PAD) == Ok([Byte0(v0, v1), Byte1(v1, v2)])
  {
    NoSymbolIsPad(c0);
    NoSymbolIsPad(c1);
    NoSymbolIsPad(c2);
  }

  lemma NoSymbolIsPad(c: bv8)
    requires SymbolValue(c).Some?
    ensures c != PAD
  {
  }

  lemma PaddedQuad(c0: bv8, c1: bv8, c2: bv8)
    requires SymbolValue(c0).Some? && SymbolValue(c1).Some? && SymbolValue(c2).Some?
    requires SymbolValue(c2).value & 0x03 == 0
    ensures DecodedQuad(c0, c1, c2, PAD).Ok? && |DecodedQuad(c0, c1, c2, PAD).value| == 2
    ensures var b := DecodedQuad(c0, c1, c2, PAD).value; LastTwo(b[0], b[1]) == [c0, c1, c2, PAD]
  {
    TwoBytes(c0, c1, c2);
    ValuesAreSymbols(c0);
    ValuesAreSymbols(c1);
    ValuesAreSymbols(c2);
    LastTwoOfSymbols(SymbolValue(c0).value, SymbolValue(c1).value, SymbolValue(c2).value);
  }

  lemma TwicePaddedQuad(c0: bv8, c1: bv8)
    requires SymbolValue(c0).Some? && SymbolValue(c1).Some? && SymbolValue(c1).value & 0x0f == 0
    ensures DecodedQuad(c0, c1, PAD, PAD).Ok? && |DecodedQuad(c0, c1, PAD, PAD).value| == 1
    ensures LastOne(DecodedQuad(c0, c1, PAD, PAD).value[0]) == [c0, c1, PAD, PAD]
  {
    ValuesAreSymbols(c0);
    ValuesAreSymbols(c1);
    LastOneOfSymbols(SymbolValue(c0).value, SymbolValue(c1).value);
  }

  /** The last quad of a canonical text. */
  lemma LastQuad(text: seq<bv8>)
    requires |text| == 4 && Canonical(text) && text[3] == PAD
    ensures DecodedQuad(text[0], text[1], text[2], text[3]).Ok?
    ensures Encoded(DecodedQuad(text[0], text[1], text[2], text[3]).value) == [text[0], text[1], text[2], text[3]]
  {
    if text[2] == PAD {
      TwicePaddedQuad(text[0], text[1]);
    } else {
      PaddedQuad(text[0], text[1], text[2]);
    }
  }

  /** A canonical text is decoded, and encoding the bytes gives the text back. */
  lemma {:induction false} EncodeUndoesDecode(text: seq<bv8>)
    requires |text| % 4 == 0 && Canonical(text)
    ensures DecodedQuads(text).Ok? && Encoded(DecodedQuads(text).value) == text
  {
    if text != [] {
      var quad := [text[0], text[1], text[2], text[3]];
      assert text == quad + text[4..];
      if |text| > 4 || text[3] != PAD {
        FullQuad(text[0], text[1], text[2], text[3]);
        EncodeUndoesDecode(text[4..]);
        ChunkThenRest(DecodedQuad(text[0], text[1], text[2], text[3]).value, DecodedQuads(text[4..]).value);
      } else {
        LastQuad(text);
        var bytes := DecodedQuad(text[0], text[1], text[2], text[3]).value;
        assert text[4..] == [] && bytes + [] == bytes && quad + [] == quad;
      }
    }
  }

  lemma ChunkThenRest(chunk: seq<bv8>, rest: seq<bv8>)
    requires |chunk| == 3
    ensures Encoded(chunk + rest) == Quad(chunk[0], chunk[1], chunk[2]) + Encoded(rest)
  {
    assert (chunk + rest)[3..] == rest;
  }

  lemma {:induction false} EncodedIsCanonical(bytes: seq<bv8>)
    ensures Canonical(Encoded(bytes))
  {
    var text := Encoded(bytes);
    if |bytes| == 1 {
      SymbolsAreValues(First(bytes[0]));
      SymbolsAreValues(Second(bytes[0], 0));
    } else if |bytes| == 2 {
      SymbolsAreValues(First(bytes[0]));
      SymbolsAreValues(Second(bytes[0], bytes[1]));
      SymbolsAreValues(Third(bytes[1], 0));
    } else if |bytes| >= 3 {
      SymbolsAreValues(First(bytes[0]));
      SymbolsAreValues(Second(bytes[0], bytes[1]));
      SymbolsAreValues(Third(bytes[1], bytes[2]));
      SymbolsAreValues(Fourth(bytes[2]));
      EncodedIsCanonical(bytes[3..]);
      assert text[4..] == Encoded(bytes[3..]);
    }
  }

  /** `atob` followed by `btoa` gives a text back (but for white space) exactly if it is canonical:
      on canonical texts the two are inverse bijections. */
  lemma BtoaUndoesAtobIff(text: seq<bv8>)
    ensures Atob(text).Ok? && Btoa(Atob(text).value) == Ok(Stripped(text)) <==>
            |Stripped(text)| % 4 == 0 && Canonical(Stripped(text))
  {
    if |Stripped(text)| % 4 == 0 && Canonical(Stripped(text)) {
      EncodeUndoesDecode(Stripped(text));
      BytesOfString(Decoded(text).value);
    }
    if Atob(text).Ok? && Btoa(Atob(text).value) == Ok(Stripped(text)) {
      BytesOfString(Decoded(text).value);
      EncodedIsCanonical(Decoded(text).value);
    }
  }

  // ---- What the decoder accepts besides -----------------------------------------------------

  /** Quads of symbols, each of which may end in padding, with any unused bits. */
  ghost predicate Readable(text: seq<bv8>) {
    text == [] ||
    (&& |text| >= 4 && SymbolValue(text[0]).Some? && SymbolValue(text[1]).Some?
     && (text[2] == PAD || SymbolValue(text[2]).Some?) && (text[3] == PAD || SymbolValue(text[3]).Some?)
     && (text[2] == PAD ==> text[3] == PAD)
     && Readable(text[4..]))
  }

  lemma QuadIsReadIff(c0: bv8, c1: bv8, c2: bv8, c3: bv8)
    ensures DecodedQuad(c0, c1, c2, c3).Ok? <==>
      && SymbolValue(c0).Some? && SymbolValue(c1).Some? && (c2 == PAD || SymbolValue(c2).Some?)
      && (c3 == PAD || SymbolValue(c3).Some?) && (c2 == PAD ==> c3 == PAD)
  {
    if SymbolValue(c0).Some? { NoSymbolIsPad(c0); }
    if SymbolValue(c1).Some? { NoSymbolIsPad(c1); }
    if c3 == PAD && SymbolValue(c3).Some? { NoSymbolIsPad(c3); }
  }

  lemma {:induction false} QuadsAreReadIff(text: seq<bv8>)
    requires |text| % 4 == 0
    ensures DecodedQuads(text).Ok? <==> Readable(text)
  {
    if text != [] {
      QuadIsReadIff(text[0], text[1], text[2], text[3]);
      QuadsAreReadIff(text[4..]);
    }
  }

  /** `atob` accepts exactly the readable texts ... */
  lemma AtobAcceptsIff(text: seq<bv8>)
    ensures Atob(text).Ok? <==> |Stripped(text)| % 4 == 0 && Readable(Stripped(text))
  {
    if |Stripped(text)| % 4 == 0 { QuadsAreReadIff(Stripped(text)); }
  }

  const SYMBOL_A: bv8 := 65
  const SYMBOL_B: bv8 := 66

  /** ... among them `AA==AAAA`, padded before its last quad ... */
  lemma AtobAcceptsInnerPadding()
    ensures
      var text := [SYMBOL_A, SYMBOL_A, PAD, PAD] + [SYMBOL_A, SYMBOL_A, SYMBOL_A, SYMBOL_A];
      Atob(text).Ok? && !Canonical(Stripped(text)) && Btoa(Atob(text).value) != Ok(Stripped(text))
  {
    var last := [SYMBOL_A, SYMBOL_A, SYMBOL_A, SYMBOL_A];
    var text := [SYMBOL_A, SYMBOL_A, PAD, PAD] + last;
    SpacelessText(text);
    assert text[4..] == last && last[4..] == [];
    assert Readable(last);
    assert Readable(text);
    AtobAcceptsIff(text);
    NoSymbolIsPad(SYMBOL_A);
    BtoaUndoesAtobIff(text);
  }

  /** ... and `AB==`, whose unused bits are not zero. */
  lemma AtobAcceptsUnusedBits()
    ensures
      var text := [SYMBOL_A, SYMBOL_B, PAD, PAD];
      Atob(text).Ok? && !Canonical(Stripped(text)) && Btoa(Atob(text).value) != Ok(Stripped(text))
  {
    var text := [SYMBOL_A, SYMBOL_B, PAD, PAD];
    SpacelessText(text);
    assert text[4..] == [];
    assert Readable(text);
    AtobAcceptsIff(text);
    assert SymbolValue(SYMBOL_B) == Some(1);
    BtoaUndoesAtobIff(text);
  }

  lemma SpacelessText(text: seq<bv8>)
    requires forall i :: 0 <= i < |text| ==> text[i] == SYMBOL_A || text[i] == SYMBOL_B || text[i] == PAD
    ensures Stripped(text) == text
  {
    StrippedOfNoSpace(text);
  }
}
