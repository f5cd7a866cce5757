module Base64Conformance {
  // What `btoa` and `atob` (src/builtins/base64.rs) do chunk by chunk: which characters are written and read, in
  // ASCII, and the 24 bits of a chunk.

  import opened Options
  import opened Base64

  /** The character stands for six bits: A to Z, a to z, 0 to 9, plus, slash (table 1 of RFC 4648). */
  ghost predicate Stands(c: bv8, d: bv8) {
    || (d < 26 && c == 0x41 + d)
    || (26 <= d < 52 && c == 0x61 + (d - 26))
    || (52 <= d < 62 && c == 0x30 + (d - 52))
    || (d == 62 && c == 0x2B)
    || (d == 63 && c == 0x2F)
  }

  ghost predicate IsSymbol(c: bv8) {
    exists d :: Stands(c, d)
  }

  /** The bits of four characters, and of three bytes. */
  ghost function OfCharacters(d0: bv8, d1: bv8, d2: bv8, d3: bv8): bv32 {
    ((d0 as bv32) << 18) | ((d1 as bv32) << 12) | ((d2 as bv32) << 6) | (d3 as bv32)
  }

  ghost function OfBytes(b0: bv8, b1: bv8, b2: bv8): bv32 {
    ((b0 as bv32) << 16) | ((b1 as bv32) << 8) | (b2 as bv32)
  }

  lemma SymbolStands(v: bv8)
    requires v < 64
    ensures Stands(Symbol(v), v)
  {
  }

  lemma StandsForValue(c: bv8, d: bv8)
    requires Stands(c, d)
    ensures d < 64 && SymbolValue(c) == Some(d) && c != PAD
  {
  }

  lemma ValueStands(c: bv8)
    requires SymbolValue(c).Some?
    ensures Stands(c, SymbolValue(c).value)
  {
  }

  lemma SymbolIff(c: bv8)
    ensures IsSymbol(c) <==> SymbolValue(c).Some?
    ensures IsSymbol(c) ==> c != PAD
  {
    hide Stands, SymbolValue;
    if SymbolValue(c).Some? { ValueStands(c); }
    forall d | Stands(c, d) ensures SymbolValue(c).Some? && c != PAD { StandsForValue(c, d); }
  }

  // ---- Encoding -----------------------------------------------------------------------------

  lemma ChunkBits(b0: bv8, b1: bv8, b2: bv8)
    ensures OfCharacters(First(b0), Second(b0, b1), Third(b1, b2), Fourth(b2)) == OfBytes(b0, b1, b2)
  {
  }

  /** Three bytes are written as the four characters that stand for their 24 bits ... */
  lemma ChunkWritten(b0: bv8, b1: bv8, b2: bv8, rest: seq<bv8>)
    returns (c0: bv8, c1: bv8, c2: bv8, c3: bv8, d0: bv8, d1: bv8, d2: bv8, d3: bv8)
    ensures Encoded([b0, b1, b2] + rest) == [c0, c1, c2, c3] + Encoded(rest)
    ensures Stands(c0, d0) && Stands(c1, d1) && Stands(c2, d2) && Stands(c3, d3)
    ensures OfCharacters(d0, d1, d2, d3) == OfBytes(b0, b1, b2)
  {
    hide First, Second, Third, Fourth, Symbol, Stands, OfCharacters, OfBytes;
    d0, d1, d2, d3 := First(b0), Second(b0, b1), Third(b1, b2), Fourth(b2);
    c0, c1, c2, c3 := Symbol(d0), Symbol(d1), Symbol(d2), Symbol(d3);
    assert ([b0, b1, b2] + rest)[3..] == rest;
    SymbolStands(d0);
    SymbolStands(d1);
    SymbolStands(d2);
    SymbolStands(d3);
    ChunkBits(b0, b1, b2);
  }

  /** ... two bytes at the end as three characters and an equals sign, as if a zero byte followed ... */
  lemma TwoWritten(b0: bv8, b1: bv8) returns (c0: bv8, c1: bv8, c2: bv8, d0: bv8, d1: bv8, d2: bv8)
    ensures Encoded([b0, b1]) == [c0, c1, c2, 0x3D]
    ensures Stands(c0, d0) && Stands(c1, d1) && Stands(c2, d2)
    ensures OfCharacters(d0, d1, d2, 0) == OfBytes(b0, b1, 0)
  {
    hide First, Second, Third, Fourth, Symbol, Stands, OfCharacters, OfBytes;
    d0, d1, d2 := First(b0), Second(b0, b1), Third(b1, 0);
    c0, c1, c2 := Symbol(d0), Symbol(d1), Symbol(d2);
    SymbolStands(d0);
    SymbolStands(d1);
    SymbolStands(d2);
    ChunkBits(b0, b1, 0);
    NoBits();
  }

  lemma NoBits()
    ensures First(0) == Second(0, 0) == Third(0, 0) == Fourth(0) == 0
  {
  }

  /** ... and one byte as two characters and two equals signs. */
  lemma OneWritten(b0: bv8) returns (c0: bv8, c1: bv8, d0: bv8, d1: bv8)
    ensures Encoded([b0]) == [c0, c1, 0x3D, 0x3D]
    ensures Stands(c0, d0) && Stands(c1, d1) && OfCharacters(d0, d1, 0, 0) == OfBytes(b0, 0, 0)
  {
    hide First, Second, Third, Fourth, Symbol, Stands, OfCharacters, OfBytes;
    d0, d1 := First(b0), Second(b0, 0);
    c0, c1 := Symbol(d0), Symbol(d1);
    SymbolStands(d0);
    SymbolStands(d1);
    ChunkBits(b0, 0, 0);
    NoBits();
  }

  // ---- Decoding -----------------------------------------------------------------------------

  /** Space, tab, line feed, form feed and carriage return are skipped, and nothing else. */
  lemma SpaceIsSkipped(b: bv8, rest: seq<bv8>)
    ensures Stripped([b] + rest) ==
            if b in {0x20, 0x09, 0x0A, 0x0C, 0x0D} then Stripped(rest) else [b] + Stripped(rest)
    ensures Stripped([]) == []
  {
    assert ([b] + rest)[1..] == rest;
  }

  /** The text stands for `bytes` and then for what `rest` stands for. */
  ghost predicate ReadsThen(text: seq<bv8>, bytes: seq<bv8>, rest: seq<bv8>) {
    && |text| % 4 == 0 && |rest| % 4 == 0
    && DecodedQuads(text) == match DecodedQuads(rest) case Ok(more) => Ok(bytes + more) case Err(e) => Err(e)
  }

  lemma QuadReads(c0: bv8, c1: bv8, c2: bv8, c3: bv8, bytes: seq<bv8>, rest: seq<bv8>)
    requires |rest| % 4 == 0 && DecodedQuad(c0, c1, c2, c3) == Ok(bytes)
    ensures ReadsThen([c0, c1, c2, c3] + rest, bytes, rest)
  {
    QuadThenRest([c0, c1, c2, c3], rest);
  }

  lemma BytesBits(d0: bv8, d1: bv8, d2: bv8, d3: bv8)
    requires d0 < 64 && d1 < 64 && d2 < 64 && d3 < 64
    ensures OfBytes(Byte0(d0, d1), Byte1(d1, d2), Byte2(d2, d3)) == OfCharacters(d0, d1, d2, d3)
  {
  }

  /** Four characters are read as the three bytes with their 24 bits ... */
  lemma ChunkRead(c0: bv8, c1: bv8, c2: bv8, c3: bv8, d0: bv8, d1: bv8, d2: bv8, d3: bv8, rest: seq<bv8>)
    returns (b0: bv8, b1: bv8, b2: bv8)
    requires Stands(c0, d0) && Stands(c1, d1) && Stands(c2, d2) && Stands(c3, d3) && |rest| % 4 == 0
    ensures ReadsThen([c0, c1, c2, c3] + rest, [b0, b1, b2], rest)
    ensures OfBytes(b0, b1, b2) == OfCharacters(d0, d1, d2, d3)
  {
    hide Byte0, Byte1, Byte2, SymbolValue, Stands, OfCharacters, OfBytes, ReadsThen;
    StandsForValue(c0, d0);
    StandsForValue(c1, d1);
    StandsForValue(c2, d2);
    StandsForValue(c3, d3);
    b0, b1, b2 := Byte0(d0, d1), Byte1(d1, d2), Byte2(d2, d3);
    QuadReads(c0, c1, c2, c3, [b0, b1, b2], rest);
    BytesBits(d0, d1, d2, d3);
  }

  /** ... three and an equals sign as the first two bytes, whatever the last two bits are ... */
  lemma TwoRead(c0: bv8, c1: bv8, c2: bv8, d0: bv8, d1: bv8, d2: bv8, rest: seq<bv8>)
    returns (b0: bv8, b1: bv8, unused: bv8)
    requires Stands(c0, d0) && Stands(c1, d1) && Stands(c2, d2) && |rest| % 4 == 0
    ensures ReadsThen([c0, c1, c2, 0x3D] + rest, [b0, b1], rest)
    ensures OfBytes(b0, b1, unused) == OfCharacters(d0, d1, d2, 0)
  {
    hide Byte0, Byte1, Byte2, SymbolValue, Stands, OfCharacters, OfBytes, ReadsThen;
    StandsForValue(c0, d0);
    StandsForValue(c1, d1);
    StandsForValue(c2, d2);
    b0, b1, unused := Byte0(d0, d1), Byte1(d1, d2), Byte2(d2, 0);
    QuadReads(c0, c1, c2, PAD, [b0, b1], rest);
    BytesBits(d0, d1, d2, 0);
  }

  /** ... and two and two equals signs as the first byte. */
  lemma OneRead(c0: bv8, c1: bv8, d0: bv8, d1: bv8, rest: seq<bv8>) returns (b0: bv8, unused: bv8)
    requires Stands(c0, d0) && Stands(c1, d1) && |rest| % 4 == 0
    ensures ReadsThen([c0, c1, 0x3D, 0x3D] + rest, [b0], rest)
    ensures OfBytes(b0, unused, 0) == OfCharacters(d0, d1, 0, 0)
  {
    hide Byte0, Byte1, Byte2, SymbolValue, Stands, OfCharacters, OfBytes, ReadsThen;
    StandsForValue(c0, d0);
    StandsForValue(c1, d1);
    b0, unused := Byte0(d0, d1), Byte1(d1, 0);
    QuadReads(c0, c1, PAD, PAD, [b0], rest);
    BytesBits(d0, d1, 0, 0);
    NoByte();
  }

  lemma NoByte()
    ensures Byte2(0, 0) == 0
  {
  }

  /** What is wrong with the first four characters decides the error. */
  lemma FirstError(c0: bv8, c1: bv8, c2: bv8, c3: bv8, rest: seq<bv8>)
    requires |rest| % 4 == 0
    ensures
      var r := DecodedQuads([c0, c1, c2, c3] + rest);
      if c0 == 0x3D || c1 == 0x3D then r == Err(InvalidPadding)
      else if !IsSymbol(c0) || !IsSymbol(c1) then r == Err(InvalidCharacter)
      else if c2 == 0x3D then c3 != 0x3D ==> r == Err(InvalidPadding)
      else !IsSymbol(c2) || (c3 != 0x3D && !IsSymbol(c3)) ==> r == Err(InvalidCharacter)
  {
    hide SymbolValue, IsSymbol;
    QuadThenRest([c0, c1, c2, c3], rest);
    SymbolIff(c0);
    SymbolIff(c1);
    SymbolIff(c2);
    SymbolIff(c3);
  }

  /** A text is refused for its length exactly if what is left without white space is no multiple of four. */
  lemma LengthError(text: seq<bv8>)
    ensures Decoded(text) == Err(NotCorrectlyEncoded) <==> |Stripped(text)| % 4 != 0
  {
    if |Stripped(text)| % 4 == 0 { QuadsErrors(Stripped(text)); }
  }

  lemma {:induction false} QuadsErrors(text: seq<bv8>)
    requires |text| % 4 == 0
    ensures DecodedQuads(text) != Err(NotCorrectlyEncoded)
  {
    if text != [] { QuadsErrors(text[4..]); }
  }
}
