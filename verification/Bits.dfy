/** Powers of two (src/bits.rs), and why masking with `capacity - 1` is a remainder. */
module Bits {
  function Pow2(k: nat): (p: nat)
    ensures p >= 1
  {
    if k == 0 then 1 else 2 * Pow2(k - 1)
  }

  ghost predicate IsPow2(n: int) {
    exists k: nat :: n == Pow2(k)
  }

  /** `a & b` on unsigned integers, bit by bit. */
  function And(a: nat, b: nat): nat
    decreases a
  {
    if a == 0 || b == 0 then 0
    else (if a % 2 == 1 && b % 2 == 1 then 1 else 0) + 2 * And(a / 2, b / 2)
  }

  /** The number of bits up to the highest one set: 32 minus the leading zeros. */
  function BitLength(v: nat): nat {
    if v == 0 then 0 else 1 + BitLength(v / 2)
  }

  /** `value > 0 && value & (value - 1) == 0` */
  predicate IsPowerOfTwo32(value: nat) {
    value > 0 && And(value, value - 1) == 0
  }

  /** `1 << (32 - (value - 1).leading_zeros())`, with 0 treated as 1. */
  function RoundUpToPowerOfTwo32(value: nat): nat {
    Pow2(BitLength(if value > 0 then value - 1 else 0))
  }

  /** Masking with one less than a power of two is the remainder. */
  lemma {:induction false} MaskIsRemainder(a: nat, k: nat)
    ensures And(a, Pow2(k) - 1) == a % Pow2(k)
    decreases a
  {
    if k == 0 {
    } else if a == 0 {
    } else {
      var half := Pow2(k - 1);
      MaskIsRemainder(a / 2, k - 1);
      assert (Pow2(k) - 1) % 2 == 1 && (Pow2(k) - 1) / 2 == half - 1;
      RemainderByDouble(a, half);
    }
  }

  lemma RemainderByDouble(a: nat, half: nat)
    requires half > 0
    ensures a % (2 * half) == a % 2 + 2 * ((a / 2) % half)
  {
    var q, r := (a / 2) / half, (a / 2) % half;
    assert a / 2 == half * q + r;
    assert a == (2 * half) * q + (a % 2 + 2 * r);
    RemainderIsUnique(a, 2 * half, q, a % 2 + 2 * r);
  }

  lemma RemainderIsUnique(a: nat, d: nat, q: int, r: nat)
    requires r < d && a == d * q + r
    ensures a % d == r
  {
    var q', r' := a / d, a % d;
    assert a == d * q' + r';
    if q < q' { ProductSpread(d, q, q'); }
    if q > q' { ProductSpread(d, q', q); }
  }

  lemma {:induction false} ProductSpread(d: nat, low: int, high: int)
    requires low < high
    ensures d * high >= d * low + d
    decreases high - low
  {
    if low + 1 < high { ProductSpread(d, low, high - 1); }
    assert d * high == d * (high - 1) + d;
  }

  /** The test accepts exactly the powers of two. */
  lemma {:induction false} PowerOfTwoTest(value: nat)
    ensures IsPowerOfTwo32(value) <==> IsPow2(value)
    decreases value
  {
    if value == 0 {
    } else if value == 1 {
      assert Pow2(0) == 1;
    } else if value % 2 == 1 {
      assert And(value, value - 1) > 0 by {
        assert (value - 1) / 2 == value / 2;
        AndSelf(value / 2);
      }
      forall k: nat ensures value != Pow2(k) {
        if k > 0 { assert Pow2(k) % 2 == 0; }
      }
    } else {
      PowerOfTwoTest(value / 2);
      assert (value - 1) / 2 == value / 2 - 1;
      if k: nat :| value / 2 == Pow2(k) { assert value == Pow2(k + 1); }
      if k: nat :| value == Pow2(k) { assert k > 0 && value / 2 == Pow2(k - 1); }
    }
  }

  lemma {:induction false} AndSelf(a: nat)
    ensures And(a, a) == a
    decreases a
  {
    if a > 0 { AndSelf(a / 2); }
  }

  lemma {:induction false} BitLengthBounds(v: nat)
    ensures v < Pow2(BitLength(v))
    ensures v > 0 ==> Pow2(BitLength(v) - 1) <= v
    decreases v
  {
    if v > 1 { BitLengthBounds(v / 2); }
  }

  /** Rounding up gives the least power of two that is at least the value. */
  lemma RoundUpIsLeast(value: nat)
    ensures IsPow2(RoundUpToPowerOfTwo32(value))
    ensures RoundUpToPowerOfTwo32(value) >= value
    ensures forall k: nat :: Pow2(k) >= value ==> Pow2(k) >= RoundUpToPowerOfTwo32(value)
  {
    var v := if value > 0 then value - 1 else 0;
    BitLengthBounds(v);
    forall k: nat | Pow2(k) >= value ensures Pow2(k) >= RoundUpToPowerOfTwo32(value) {
      if v > 0 && k < BitLength(v) {
        Pow2Grows(k, BitLength(v) - 1);
      } else if v > 0 {
        Pow2Grows(BitLength(v), k);
      }
    }
  }

  lemma {:induction false} Pow2Grows(a: nat, b: nat)
    requires a <= b
    ensures Pow2(a) <= Pow2(b)
    decreases b
  {
    if a < b { Pow2Grows(a, b - 1); }
  }
}
