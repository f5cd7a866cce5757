/** Bytes as bit vectors and as numbers. */
module Bytes {
  lemma Doubled(h: bv8) returns (even: bv8, odd: bv8)
    requires h as int < 128
    ensures even as int == 2 * (h as int) && odd as int == 2 * (h as int) + 1
  {
    even, odd := h << 1, (h << 1) | 1;
  }

  lemma {:induction false} HasByte(x: int) returns (b: bv8)
    requires 0 <= x < 0x100
    ensures b as int == x
    decreases x
  {
    if x == 0 {
      b := 0;
    } else {
      var half := HasByte(x / 2);
      var even, odd := Doubled(half);
      b := if x % 2 == 0 then even else odd;
    }
  }

  /** A number below 256 is the number of its byte. */
  lemma ByteOfNumber(x: int)
    requires 0 <= x < 0x100
    ensures (x as bv8) as int == x
  {
    var b := HasByte(x);
    assert b as int as bv8 == b;
  }
}
