/** Percent coding and query strings (src/builtins/url.rs). Strings are given by their bytes. */
module Query {
  import opened Options
  import opened Utf8

  datatype Error = MalformedUri | MalformedSequence

  datatype Result<+T> = Ok(value: T) | Err(error: Error)

  const PERCENT: Byte := 0x25
  const PLUS: Byte := 0x2B
  const SPACE: Byte := 0x20
  const AMPERSAND: Byte := 0x26
  const EQUALS: Byte := 0x3D
  const QUESTION: Byte := 0x3F

  // ---- Encoding (section 2.1 of RFC 3986) ---------------------------------------------------

  /** Letters, digits, and the four marks - _ . ~ */
  predicate IsUnreserved(b: Byte) {
    || 0x30 <= b <= 0x39 || 0x41 <= b <= 0x5A || 0x61 <= b <= 0x7A
    || b == 0x2D || b == 0x5F || b == 0x2E || b == 0x7E
  }

  /** The marks ; , / ? : @ & = + $ # which `encodeURI` leaves alone. */
  predicate IsReserved(b: Byte) {
    || b == 0x3B || b == 0x2C || b == 0x2F || b == QUESTION || b == 0x3A || b == 0x40
    || b == AMPERSAND || b == EQUALS || b == PLUS || b == 0x24 || b == 0x23
  }

  function UpperHexDigit(d: int): Byte
    requires 0 <= d < 16
  {
    if d < 10 then 0x30 + d else 0x41 + (d - 10)
  }

  function EncodedByte(b: Byte, isComponent: bool): seq<Byte> {
    if IsUnreserved(b) || (!isComponent && IsReserved(b)) then [b]
    else [PERCENT, UpperHexDigit(b / 16), UpperHexDigit(b % 16)]
  }

  function Encoded(s: seq<Byte>, isComponent: bool): seq<Byte> {
    if s == [] then [] else EncodedByte(s[0], isComponent) + Encoded(s[1..], isComponent)
  }

  lemma {:induction false} EncodedAppend(s: seq<Byte>, b: Byte, isComponent: bool)
    ensures Encoded(s + [b], isComponent) == Encoded(s, isComponent) + EncodedByte(b, isComponent)
  {
    if s == [] {
      assert s + [b] == [b] && [b][1..] == [];
      assert EncodedByte(b, isComponent) + [] == EncodedByte(b, isComponent);
    } else {
      assert (s + [b])[1..] == s[1..] + [b];
      EncodedAppend(s[1..], b, isComponent);
      assert EncodedByte(s[0], isComponent) + (Encoded(s[1..], isComponent) + EncodedByte(b, isComponent))
          == (EncodedByte(s[0], isComponent) + Encoded(s[1..], isComponent)) + EncodedByte(b, isComponent);
    }
  }

  method PercentEncode(s: seq<Byte>, isComponent: bool) returns (out: seq<Byte>)
    ensures out == Encoded(s, isComponent)
  {
    out := [];
    for i := 0 to |s|
      invariant out == Encoded(s[..i], isComponent)
    {
      var b := s[i];
      assert s[..i + 1] == s[..i] + [b];
      EncodedAppend(s[..i], b, isComponent);
      if IsUnreserved(b) || (!isComponent && IsReserved(b)) {
        out := out + [b];
      } else {
        out := out + [PERCENT, UpperHexDigit(b / 16), UpperHexDigit(b % 16)];
      }
    }
    assert s[..|s|] == s;
  }

  // ---- Decoding -----------------------------------------------------------------------------

  function HexValue(b: Byte): (r: Option<int>)
    ensures r.Some? ==> 0 <= r.value < 16
  {
    if 0x30 <= b <= 0x39 then Some(b - 0x30)
    else if 0x41 <= b <= 0x46 then Some(b - 0x41 + 10)
    else if 0x61 <= b <= 0x66 then Some(b - 0x61 + 10)
    else None
  }

  /** `u8::from_str_radix(_, 16)` on two characters: the first may be a plus sign. */
  function FromHex(h1: Byte, h2: Byte): Option<Byte> {
    if h1 == PLUS then
      match HexValue(h2)
      case None => None
      case Some(low) => Some(low)
    else if HexValue(h1).Some? && HexValue(h2).Some? then Some(HexValue(h1).value * 16 + HexValue(h2).value)
    else None
  }

  function Cons(b: Byte, r: Option<seq<Byte>>): Option<seq<Byte>> {
    match r
    case None => None
    case Some(rest) => Some([b] + rest)
  }

  /** The bytes that a text stands for, if its percent signs are all followed by two digits. */
  function DecodedBytes(s: seq<Byte>, plusAsSpace: bool): Option<seq<Byte>> {
    if s == [] then Some([])
    else if s[0] == PLUS && plusAsSpace then Cons(SPACE, DecodedBytes(s[1..], plusAsSpace))
    else if s[0] == PERCENT then
      if |s| < 3 || FromHex(s[1], s[2]).None? then None
      else Cons(FromHex(s[1], s[2]).value, DecodedBytes(s[3..], plusAsSpace))
    else Cons(s[0], DecodedBytes(s[1..], plusAsSpace))
  }

  function Decoded(s: seq<Byte>, plusAsSpace: bool): Result<seq<Byte>> {
    match DecodedBytes(s, plusAsSpace)
    case None => Err(MalformedUri)
    case Some(bytes) => if IsText(bytes) then Ok(bytes) else Err(MalformedSequence)
  }

  ghost function Prefixed(before: seq<Byte>, r: Option<seq<Byte>>): Option<seq<Byte>> {
    match r
    case None => None
    case Some(rest) => Some(before + rest)
  }

  lemma PrefixedCons(before: seq<Byte>, b: Byte, r: Option<seq<Byte>>)
    ensures Prefixed(before, Cons(b, r)) == Prefixed(before + [b], r)
  {
    if r.Some? { assert before + ([b] + r.value) == (before + [b]) + r.value; }
  }

  method PercentDecode(s: seq<Byte>, plusAsSpace: bool) returns (r: Result<seq<Byte>>)
    ensures r == Decoded(s, plusAsSpace)
  {
    var bytes, chars: seq<Byte> := [], s;
    ghost var expected := DecodedBytes(s, plusAsSpace);
    assert Prefixed([], expected) == expected by {
      if expected.Some? { assert [] + expected.value == expected.value; }
    }
    while chars != []
      invariant expected == Prefixed(bytes, DecodedBytes(chars, plusAsSpace))
      decreases |chars|
    {
      var b := chars[0];
      if b == PLUS && plusAsSpace {
        PrefixedCons(bytes, SPACE, DecodedBytes(chars[1..], plusAsSpace));
        bytes, chars := bytes + [SPACE], chars[1..];
      } else if b == PERCENT {
        if |chars| < 3 {
          return Err(MalformedUri);
        }
        var byte := FromHex(chars[1], chars[2]);
        if byte.None? {
          return Err(MalformedUri);
        }
        PrefixedCons(bytes, byte.value, DecodedBytes(chars[3..], plusAsSpace));
        bytes, chars := bytes + [byte.value], chars[3..];
      } else {
        PrefixedCons(bytes, b, DecodedBytes(chars[1..], plusAsSpace));
        bytes, chars := bytes + [b], chars[1..];
      }
    }
    assert bytes + [] == bytes;
    r := if IsText(bytes) then Ok(bytes) else Err(MalformedSequence);
  }

  // ---- Decoding undoes encoding -------------------------------------------------------------

  lemma HexRoundTrip(b: Byte)
    ensures FromHex(UpperHexDigit(b / 16), UpperHexDigit(b % 16)) == Some(b)
  {
  }

  /** A byte comes back from its encoding, unless it is a plus sign left alone by `encodeURI` that
      `plusAsSpace` takes for a space. */
  lemma ByteRoundTrip(b: Byte, isComponent: bool, plusAsSpace: bool, rest: seq<Byte>)
    ensures
      var c := if b == PLUS && !isComponent && plusAsSpace then SPACE else b;
      DecodedBytes(EncodedByte(b, isComponent) + rest, plusAsSpace) == Cons(c, DecodedBytes(rest, plusAsSpace))
  {
    var e := EncodedByte(b, isComponent);
    HexRoundTrip(b);
    if |e| == 1 {
      assert (e + rest)[1..] == rest;
    } else {
      assert (e + rest)[3..] == rest;
    }
  }

  /** The text with its plus signs turned into spaces. */
  function PlusesToSpaces(s: seq<Byte>): seq<Byte> {
    if s == [] then [] else [if s[0] == PLUS then SPACE else s[0]] + PlusesToSpaces(s[1..])
  }

  lemma {:induction false} DecodedEncoded(s: seq<Byte>, isComponent: bool, plusAsSpace: bool)
    ensures DecodedBytes(Encoded(s, isComponent), plusAsSpace) ==
            Some(if !isComponent && plusAsSpace then PlusesToSpaces(s) else s)
  {
    if s != [] {
      DecodedEncoded(s[1..], isComponent, plusAsSpace);
      ByteRoundTrip(s[0], isComponent, plusAsSpace, Encoded(s[1..], isComponent));
      assert [s[0]] + s[1..] == s;
    }
  }

  lemma {:induction false} PlusesToSpacesKeepsIff(s: seq<Byte>)
    ensures PlusesToSpaces(s) == s <==> PLUS !in s
    ensures |PlusesToSpaces(s)| == |s|
  {
    if s != [] {
      PlusesToSpacesKeepsIff(s[1..]);
      assert PlusesToSpaces(s)[1..] == PlusesToSpaces(s[1..]);
      assert s == [s[0]] + s[1..];
    }
  }

  /** Percent decoding undoes percent encoding for every string and in every mode but one: there
      exactly for the strings without a plus sign. */
  lemma DecodeUndoesEncodeIff(s: seq<Byte>, isComponent: bool, plusAsSpace: bool)
    requires IsText(s)
    ensures Decoded(Encoded(s, isComponent), plusAsSpace) == Ok(s) <==> isComponent || !plusAsSpace || PLUS !in s
  {
    DecodedEncoded(s, isComponent, plusAsSpace);
    PlusesToSpacesKeepsIff(s);
  }

  /** A plus sign, encoded by `encodeURI`, comes back as a space. */
  lemma PlusBecomesSpace()
    ensures Decoded(Encoded([PLUS], false), true) == Ok([SPACE])
  {
    DecodedEncoded([PLUS], false, true);
    var plus, space: seq<Byte> := [PLUS], [SPACE];
    assert plus[1..] == [] && space[1..] == [];
    assert PlusesToSpaces(plus) == space;
    assert IsText(space[1..]);
  }

  // ---- Query strings ------------------------------------------------------------------------

  datatype Pair = Pair(key: seq<Byte>, value: seq<Byte>)

  /** Where `b` first stands, or the length. */
  function Find(s: seq<Byte>, b: Byte): (i: nat)
    ensures i <= |s| && (i < |s| ==> s[i] == b) && b !in s[..i]
  {
    if s == [] || s[0] == b then 0
    else
      var i := 1 + Find(s[1..], b);
      assert s[..i] == [s[0]] + s[1..][..i - 1];
      i
  }

  /** `str::split` at one character: the parts between its occurrences. */
  function Split(s: seq<Byte>, b: Byte): (parts: seq<seq<Byte>>)
    ensures parts != []
    decreases |s|
  {
    var i := Find(s, b);
    if i == |s| then [s] else [s[..i]] + Split(s[i + 1..], b)
  }

  /** A part that cannot be decoded is taken as it stands. */
  function DecodedOrRaw(s: seq<Byte>): seq<Byte> {
    match Decoded(s, true)
    case Ok(text) => text
    case Err(_) => s
  }

  function PairOf(part: seq<Byte>): Pair {
    var i := Find(part, EQUALS);
    Pair(DecodedOrRaw(part[..i]), DecodedOrRaw(if i == |part| then [] else part[i + 1..]))
  }

  function PairsOf(parts: seq<seq<Byte>>): seq<Pair> {
    if parts == [] then []
    else if parts[0] == [] then PairsOf(parts[1..])
    else [PairOf(parts[0])] + PairsOf(parts[1..])
  }

  function Parsed(query: seq<Byte>): seq<Pair> {
    var q := if query != [] && query[0] == QUESTION then query[1..] else query;
    if q == [] then [] else PairsOf(Split(q, AMPERSAND))
  }

  function EncodedPair(p: Pair): seq<Byte> {
    Encoded(p.key, true) + ([EQUALS] + Encoded(p.value, true))
  }

  function Joined(parts: seq<seq<Byte>>): seq<Byte> {
    if parts == [] then []
    else if |parts| == 1 then parts[0]
    else parts[0] + ([AMPERSAND] + Joined(parts[1..]))
  }

  function EncodedPairs(pairs: seq<Pair>): (parts: seq<seq<Byte>>)
    ensures |parts| == |pairs|
  {
    if pairs == [] then [] else [EncodedPair(pairs[0])] + EncodedPairs(pairs[1..])
  }

  function QueryString(pairs: seq<Pair>): seq<Byte> {
    Joined(EncodedPairs(pairs))
  }

  /** Component encoding leaves no character that the query syntax uses. */
  lemma {:induction false} EncodedIsInert(s: seq<Byte>)
    ensures AMPERSAND !in Encoded(s, true) && EQUALS !in Encoded(s, true) && QUESTION !in Encoded(s, true)
  {
    if s != [] { EncodedIsInert(s[1..]); }
  }

  lemma {:induction false} FindBehind(a: seq<Byte>, b: Byte, c: seq<Byte>)
    requires b !in a
    ensures Find(a + ([b] + c), b) == |a|
  {
    if a != [] {
      assert (a + ([b] + c))[1..] == a[1..] + ([b] + c);
      FindBehind(a[1..], b, c);
    }
  }

  lemma FindAbsent(a: seq<Byte>, b: Byte)
    requires b !in a
    ensures Find(a, b) == |a|
  {
  }

  lemma PairRoundTrip(p: Pair)
    requires IsText(p.key) && IsText(p.value)
    ensures PairOf(EncodedPair(p)) == p && AMPERSAND !in EncodedPair(p) && EncodedPair(p) != []
    ensures EncodedPair(p)[0] != QUESTION
  {
    var k, v := Encoded(p.key, true), Encoded(p.value, true);
    EncodedIsInert(p.key);
    EncodedIsInert(p.value);
    FindBehind(k, EQUALS, v);
    assert EncodedPair(p)[..|k|] == k && EncodedPair(p)[|k| + 1..] == v;
    DecodeUndoesEncodeIff(p.key, true, true);
    DecodeUndoesEncodeIff(p.value, true, true);
  }

  lemma SplitCons(part: seq<Byte>, rest: seq<Byte>)
    requires AMPERSAND !in part
    ensures Split(part + ([AMPERSAND] + rest), AMPERSAND) == [part] + Split(rest, AMPERSAND)
  {
    FindBehind(part, AMPERSAND, rest);
    var s := part + ([AMPERSAND] + rest);
    assert s[..|part|] == part && s[|part| + 1..] == rest;
  }

  lemma {:induction false} SplitJoined(parts: seq<seq<Byte>>)
    requires parts != [] && forall i :: 0 <= i < |parts| ==> AMPERSAND !in parts[i]
    ensures Split(Joined(parts), AMPERSAND) == parts
  {
    if |parts| == 1 {
      FindAbsent(parts[0], AMPERSAND);
    } else {
      SplitCons(parts[0], Joined(parts[1..]));
      SplitJoined(parts[1..]);
      assert [parts[0]] + parts[1..] == parts;
    }
  }

  lemma {:induction false} PairsRoundTrip(pairs: seq<Pair>)
    requires forall p :: p in pairs ==> IsText(p.key) && IsText(p.value)
    ensures PairsOf(EncodedPairs(pairs)) == pairs
    ensures forall i :: 0 <= i < |pairs| ==> AMPERSAND !in EncodedPairs(pairs)[i]
  {
    if pairs != [] {
      PairRoundTrip(pairs[0]);
      PairsRoundTrip(pairs[1..]);
      var parts := EncodedPairs(pairs);
      assert parts[1..] == EncodedPairs(pairs[1..]);
      assert forall i :: 0 < i < |pairs| ==> parts[i] == EncodedPairs(pairs[1..])[i - 1];
    }
  }

  lemma JoinedStart(parts: seq<seq<Byte>>)
    requires parts != [] && parts[0] != []
    ensures Joined(parts) != [] && Joined(parts)[0] == parts[0][0]
  {
  }

  /** Parsing the printed query string gives the pairs back, whatever their keys and values hold. */
  lemma ParseUndoesPrint(pairs: seq<Pair>)
    requires forall p :: p in pairs ==> IsText(p.key) && IsText(p.value)
    ensures Parsed(QueryString(pairs)) == pairs
  {
    if pairs != [] {
      PairsRoundTrip(pairs);
      PairRoundTrip(pairs[0]);
      var parts := EncodedPairs(pairs);
      JoinedStart(parts);
      SplitJoined(parts);
    }
  }

  // ---- Parsing any query --------------------------------------------------------------------

  lemma PartsAreTexts(s: seq<Byte>, b: Byte)
    requires IsText(s) && b < 0x80 && Find(s, b) < |s|
    ensures IsText(s[..Find(s, b)]) && IsText(s[Find(s, b) + 1..])
  {
    var i := Find(s, b);
    assert s == s[..i] + [b] + s[i + 1..];
    CutAtAscii(s[..i], b, s[i + 1..]);
  }

  lemma {:induction false} SplitIsTexts(s: seq<Byte>, b: Byte)
    requires IsText(s) && b < 0x80
    ensures forall part :: part in Split(s, b) ==> IsText(part)
    decreases |s|
  {
    if Find(s, b) < |s| {
      PartsAreTexts(s, b);
      SplitIsTexts(s[Find(s, b) + 1..], b);
    }
  }

  lemma PairOfIsTexts(part: seq<Byte>)
    requires IsText(part)
    ensures IsText(PairOf(part).key) && IsText(PairOf(part).value)
  {
    var i := Find(part, EQUALS);
    if i < |part| {
      PartsAreTexts(part, EQUALS);
    } else {
      assert part[..i] == part;
    }
  }

  lemma {:induction false} PairsOfIsTexts(parts: seq<seq<Byte>>)
    requires forall part :: part in parts ==> IsText(part)
    ensures forall p :: p in PairsOf(parts) ==> IsText(p.key) && IsText(p.value)
  {
    if parts != [] {
      PairOfIsTexts(parts[0]);
      PairsOfIsTexts(parts[1..]);
    }
  }

  /** Whatever the query, printing what was parsed and parsing it again gives the same pairs. */
  lemma ParsePrintParse(query: seq<Byte>)
    requires IsText(query)
    ensures Parsed(QueryString(Parsed(query))) == Parsed(query)
  {
    var q := if query != [] && query[0] == QUESTION then query[1..] else query;
    if q != query {
      assert FirstLength(query) == 1;
    }
    SplitIsTexts(q, AMPERSAND);
    PairsOfIsTexts(Split(q, AMPERSAND));
    ParseUndoesPrint(Parsed(query));
  }

  // ---- The loops of the source --------------------------------------------------------------

  method ParsePair(part: seq<Byte>) returns (p: Pair)
    ensures p == PairOf(part)
  {
    var i := Find(part, EQUALS);
    var keyEncoded, valueEncoded := part[..i], if i == |part| then [] else part[i + 1..];
    var key := PercentDecode(keyEncoded, true);
    var value := PercentDecode(valueEncoded, true);
    p := Pair(if key.Ok? then key.value else keyEncoded, if value.Ok? then value.value else valueEncoded);
  }

  /** One turn of the loop over the parts, an empty one being skipped. */
  lemma PairsStep(pairs: seq<Pair>, parts: seq<seq<Byte>>)
    requires parts != []
    ensures pairs + PairsOf(parts)
         == (if parts[0] == [] then pairs else pairs + [PairOf(parts[0])]) + PairsOf(parts[1..])
  {
    if parts[0] != [] {
      assert (pairs + [PairOf(parts[0])]) + PairsOf(parts[1..]) == pairs + ([PairOf(parts[0])] + PairsOf(parts[1..]));
    }
  }

  method ParseQueryPairs(query: seq<Byte>) returns (pairs: seq<Pair>)
    ensures pairs == Parsed(query)
  {
    var q := if query != [] && query[0] == QUESTION then query[1..] else query;
    pairs := [];
    if q == [] {
      return;
    }
    var parts := Split(q, AMPERSAND);
    ghost var expected := PairsOf(parts);
    while parts != []
      invariant pairs + PairsOf(parts) == expected
      decreases |parts|
    {
      PairsStep(pairs, parts);
      if parts[0] != [] {
        var p := ParsePair(parts[0]);
        pairs := pairs + [p];
      }
      parts := parts[1..];
    }
  }

  method PairsToQueryString(pairs: seq<Pair>) returns (query: seq<Byte>)
    ensures query == QueryString(pairs)
  {
    var parts: seq<seq<Byte>> := [];
    for i := 0 to |pairs|
      invariant parts + EncodedPairs(pairs[i..]) == EncodedPairs(pairs)
    {
      assert pairs[i..][1..] == pairs[i + 1..];
      var key := PercentEncode(pairs[i].key, true);
      var value := PercentEncode(pairs[i].value, true);
      var part := key + ([EQUALS] + value);
      assert (parts + [part]) + EncodedPairs(pairs[i + 1..]) == parts + EncodedPairs(pairs[i..]);
      parts := parts + [part];
    }
    assert parts + [] == parts;
    query := Joined(parts);
  }
}
