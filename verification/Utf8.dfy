/** Strings as Rust keeps them: sequences of bytes that are well-formed UTF-8 (RFC 3629, section 4). */
module Utf8 {
  type Byte = x: int | 0 <= x < 0x100

  predicate IsTail(b: Byte) {
    0x80 <= b < 0xC0
  }

  /** How many bytes the first character takes; 0 if no well-formed character stands there. */
  function FirstLength(s: seq<Byte>): (n: nat)
    requires s != []
    ensures n <= |s| && n <= 4
  {
    var b := s[0];
    if b < 0x80 then 1
    else if b < 0xC2 || b > 0xF4 then 0
    else if b < 0xE0 then if |s| >= 2 && IsTail(s[1]) then 2 else 0
    else if b < 0xF0 then
      if |s| >= 3 && IsTail(s[1]) && IsTail(s[2]) && (b == 0xE0 ==> s[1] >= 0xA0) && (b == 0xED ==> s[1] < 0xA0)
      then 3 else 0
    else
      if |s| >= 4 && IsTail(s[1]) && IsTail(s[2]) && IsTail(s[3])
         && (b == 0xF0 ==> s[1] >= 0x90) && (b == 0xF4 ==> s[1] < 0x90)
      then 4 else 0
  }

  predicate IsText(s: seq<Byte>) {
    s == [] || (FirstLength(s) > 0 && IsText(s[FirstLength(s)..]))
  }

  /** Cutting a text at an ASCII character leaves two texts. */
  lemma {:induction false} CutAtAscii(before: seq<Byte>, c: Byte, after: seq<Byte>)
    requires c < 0x80 && IsText(before + [c] + after)
    ensures IsText(before) && IsText(after)
    decreases |before|
  {
    var s := before + [c] + after;
    if before == [] {
      assert s[1..] == after;
    } else {
      var n := FirstLength(s);
      assert s[0] == before[0];
      assert s[|before|] == c && !IsTail(c);
      assert n <= |before|;
      assert forall i :: 0 <= i < n ==> s[i] == before[i];
      assert FirstLength(before) == n;
      assert s[n..] == before[n..] + [c] + after;
      CutAtAscii(before[n..], c, after);
    }
  }

  // ---- Texts are the encodings of scalar values (RFC 3629, section 3) --------------------------

  predicate IsScalar(c: int) {
    0 <= c < 0xD800 || 0xE000 <= c < 0x11_0000
  }

  function EncodedScalar(c: int): (e: seq<Byte>)
    requires IsScalar(c)
    ensures e != []
  {
    if c < 0x80 then [c]
    else if c < 0x800 then [0xC0 + c / 0x40, 0x80 + c % 0x40]
    else if c < 0x1_0000 then [0xE0 + c / 0x1000, 0x80 + c / 0x40 % 0x40, 0x80 + c % 0x40]
    else [0xF0 + c / 0x4_0000, 0x80 + c / 0x1000 % 0x40, 0x80 + c / 0x40 % 0x40, 0x80 + c % 0x40]
  }

  function EncodedScalars(cs: seq<int>): seq<Byte>
    requires forall c :: c in cs ==> IsScalar(c)
  {
    if cs == [] then [] else EncodedScalar(cs[0]) + EncodedScalars(cs[1..])
  }

  lemma OneByte(b0: int) returns (c: int)
    requires 0 <= b0 < 0x80
    ensures IsScalar(c) && EncodedScalar(c) == [b0]
  {
    c := b0;
  }

  lemma TwoBytes(b0: int, b1: int) returns (c: int)
    requires 0xC2 <= b0 < 0xE0 && 0x80 <= b1 < 0xC0
    ensures IsScalar(c) && EncodedScalar(c) == [b0, b1]
  {
    c := (b0 - 0xC0) * 0x40 + (b1 - 0x80);
  }

  lemma ThreeBytes(b0: int, b1: int, b2: int) returns (c: int)
    requires 0xE0 <= b0 < 0xF0 && 0x80 <= b1 < 0xC0 && 0x80 <= b2 < 0xC0
    requires (b0 == 0xE0 ==> b1 >= 0xA0) && (b0 == 0xED ==> b1 < 0xA0)
    ensures IsScalar(c) && EncodedScalar(c) == [b0, b1, b2]
  {
    var high := (b0 - 0xE0) * 0x40 + (b1 - 0x80);
    c := high * 0x40 + (b2 - 0x80);
    assert c / 0x40 == high;
  }

  lemma FourBytes(b0: int, b1: int, b2: int, b3: int) returns (c: int)
    requires 0xF0 <= b0 <= 0xF4 && 0x80 <= b1 < 0xC0 && 0x80 <= b2 < 0xC0 && 0x80 <= b3 < 0xC0
    requires (b0 == 0xF0 ==> b1 >= 0x90) && (b0 == 0xF4 ==> b1 < 0x90)
    ensures IsScalar(c) && EncodedScalar(c) == [b0, b1, b2, b3]
  {
    var high := (b0 - 0xF0) * 0x40 + (b1 - 0x80);
    var middle := high * 0x40 + (b2 - 0x80);
    c := middle * 0x40 + (b3 - 0x80);
    assert c / 0x40 == middle && c / 0x1000 == high;
  }

  lemma FirstIsScalar(s: seq<Byte>) returns (c: int)
    requires s != [] && FirstLength(s) > 0
    ensures IsScalar(c) && EncodedScalar(c) == s[..FirstLength(s)]
  {
    hide EncodedScalar;
    match FirstLength(s) {
      case 1 => c := OneByte(s[0]);
      case 2 => c := TwoBytes(s[0], s[1]);
      case 3 => c := ThreeBytes(s[0], s[1], s[2]);
      case _ => c := FourBytes(s[0], s[1], s[2], s[3]);
    }
  }

  lemma ScalarIsFirst(c: int, rest: seq<Byte>)
    requires IsScalar(c)
    ensures FirstLength(EncodedScalar(c) + rest) == |EncodedScalar(c)|
  {
    var e := EncodedScalar(c);
    assert forall i :: 0 <= i < |e| ==> (e + rest)[i] == e[i];
  }

  /** A text is the encoding of a sequence of scalar values. */
  lemma {:induction false} TextHasScalars(s: seq<Byte>) returns (cs: seq<int>)
    requires IsText(s)
    ensures (forall c :: c in cs ==> IsScalar(c)) && EncodedScalars(cs) == s
    decreases |s|
  {
    if s == [] {
      cs := [];
    } else {
      var c := FirstIsScalar(s);
      var rest := TextHasScalars(s[FirstLength(s)..]);
      cs := [c] + rest;
      assert cs[1..] == rest;
    }
  }

  /** The encoding of every sequence of scalar values is a text. */
  lemma {:induction false} ScalarsAreText(cs: seq<int>)
    requires forall c :: c in cs ==> IsScalar(c)
    ensures IsText(EncodedScalars(cs))
  {
    if cs != [] {
      ScalarsAreText(cs[1..]);
      ScalarIsFirst(cs[0], EncodedScalars(cs[1..]));
      var e, rest := EncodedScalar(cs[0]), EncodedScalars(cs[1..]);
      assert (e + rest)[|e|..] == rest;
    }
  }
}
