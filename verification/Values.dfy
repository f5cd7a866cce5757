/** Runtime values (src/objects/value.rs) as far as the optimizing tier looks into them. */
module Values {
  // Addition, subtraction and multiplication are spelled out, because the optimizer rewrites them
  // algebraically, and so is equality, because the tiers differ in it. Everything neither looks into
  // (decimal parsing, printing, division, bit operations, rounding of an inexact real) is a
  // deterministic function supplied by a `Host`.

  import opened Options

  const MIN_SMI := -0x8000_0000
  const MAX_SMI := 0x7FFF_FFFF

  newtype int32 = x: int | -0x8000_0000 <= x <= 0x7FFF_FFFF

  /** A double: `Finite(0.0)` is the positive zero. */
  datatype Float = NaN | PosInf | NegInf | NegZero | Finite(r: real)

  datatype Value =
    | Smi(n: int32)
    | Number(f: Float)
    | Boolean(b: bool)
    | Str(s: string)
    | Null
    | Undefined
    | BigInt(i: int)
    | Reference(address: nat)  // objects, arrays, functions and symbols, by identity

  datatype Host = Host(
    round: real -> Float,
    parseNumber: string -> Float,
    parseBigInt: string -> Option<int>,
    bigIntToFloat: int -> Float,
    referenceToNumber: nat -> Float,
    toText: Value -> string,
    referenceIsTruthy: nat -> bool,
    divide: (Value, Value) -> Value,
    remainder: (Value, Value) -> Value,
    bitAnd: (Value, Value) -> Value,
    bitOr: (Value, Value) -> Value,
    bitXor: (Value, Value) -> Value,
    shiftLeft: (Value, Value) -> Value,
    shiftRight: (Value, Value) -> Value
  )

  predicate IsZero(f: Float) {
    f == NegZero || f == Finite(0.0)
  }

  predicate IsOne(f: Float) {
    f == Finite(1.0)
  }

  predicate IsNegative(f: Float) {
    f == NegInf || f == NegZero || (f.Finite? && f.r < 0.0)
  }

  function FloatNegate(f: Float): Float {
    match f
    case NaN => NaN
    case PosInf => NegInf
    case NegInf => PosInf
    case NegZero => Finite(0.0)
    case Finite(r) => if r == 0.0 then NegZero else Finite(-r)
  }

  /** IEEE 754 addition: adding a zero is exact, only a sum of two non-zero reals is rounded. */
  function FloatAdd(h: Host, a: Float, b: Float): Float {
    if a.NaN? || b.NaN? then NaN
    else if a.PosInf? then (if b.NegInf? then NaN else PosInf)
    else if a.NegInf? then (if b.PosInf? then NaN else NegInf)
    else if b.PosInf? || b.NegInf? then b
    else if IsZero(a) then (if IsZero(b) && !(a.NegZero? && b.NegZero?) then Finite(0.0) else b)
    else if IsZero(b) then a
    else if a.r + b.r == 0.0 then Finite(0.0)
    else h.round(a.r + b.r)
  }

  function FloatSubtract(h: Host, a: Float, b: Float): Float {
    FloatAdd(h, a, FloatNegate(b))
  }

  function Product(a: real, b: real): real { a * b }

  /** IEEE 754 multiplication: multiplying by one, by a zero or by an infinity is exact. */
  function FloatMultiply(h: Host, a: Float, b: Float): Float {
    if a.NaN? || b.NaN? then NaN
    else if IsOne(b) then a
    else if IsOne(a) then b
    else
      var negative := IsNegative(a) != IsNegative(b);
      if a.PosInf? || a.NegInf? || b.PosInf? || b.NegInf? then
        if IsZero(a) || IsZero(b) then NaN else if negative then NegInf else PosInf
      else if IsZero(a) || IsZero(b) then
        if negative then NegZero else Finite(0.0)
      else h.round(Product(a.r, b.r))
  }

  predicate FloatLess(a: Float, b: Float) {
    if a.NaN? || b.NaN? then false
    else if a.PosInf? || b.NegInf? then false
    else if a.NegInf? || b.PosInf? then true
    else (if a.NegZero? then 0.0 else a.r) < (if b.NegZero? then 0.0 else b.r)
  }

  predicate FloatEqual(a: Float, b: Float) {
    !a.NaN? && (a == b || (IsZero(a) && IsZero(b)))
  }

  predicate FloatAtMost(a: Float, b: Float) {
    FloatLess(a, b) || FloatEqual(a, b)
  }

  function ToNumber(h: Host, v: Value): Float {
    match v
    case Smi(n) => Finite(n as real)
    case Number(f) => f
    case Boolean(b) => if b then Finite(1.0) else Finite(0.0)
    case Null => Finite(0.0)
    case Undefined => NaN
    case BigInt(i) => h.bigIntToFloat(i)
    case Str(s) => h.parseNumber(s)
    case Reference(a) => h.referenceToNumber(a)
  }

  predicate ToBoolean(h: Host, v: Value) {
    match v
    case Boolean(b) => b
    case Smi(n) => n != 0
    case Number(f) => !IsZero(f) && !f.NaN?
    case Str(s) => s != ""
    case Null => false
    case Undefined => false
    case Reference(a) => h.referenceIsTruthy(a)
    case BigInt(i) => i != 0
  }

  /** `===` (value.rs:418-441); small integers and doubles are one kind of number. */
  predicate StrictlyEqual(a: Value, b: Value) {
    match a
    case Smi(n) => if b.Smi? then b.n == n else b.Number? && FloatEqual(Finite(n as real), b.f)
    case Number(f) => if b.Smi? then FloatEqual(f, Finite(b.n as real)) else b.Number? && FloatEqual(f, b.f)
    case _ => a == b
  }

  /** A big integer of one 64-bit limb against a small integer: the limb is read as signed, so that
      2^64 - 1 equals -1. */
  predicate LimbEquals(i: int, n: int) {
    var magnitude := if i < 0 then -i else i;
    && magnitude < 0x1_0000_0000_0000_0000
    && (var low := if magnitude < 0x8000_0000_0000_0000 then magnitude else magnitude - 0x1_0000_0000_0000_0000;
        (if i < 0 then -low else low) == n)
  }

  /** What `==` adds for a big integer. */
  predicate EqualsBigInt(h: Host, i: int, v: Value) {
    match v
    case Smi(n) => LimbEquals(i, n as int)
    case Number(f) => FloatEqual(h.bigIntToFloat(i), f)
    case Str(s) => h.parseBigInt(s) == Some(i)
    case _ => false
  }

  /** `==` (value.rs:38-80): what `===` says, and the conversions between kinds. */
  predicate LooselyEqual(h: Host, a: Value, b: Value) {
    StrictlyEqual(a, b) || EqualAcrossKinds(h, a, b)
  }

  predicate EqualAcrossKinds(h: Host, a: Value, b: Value) {
    match a
    case Null => b.Undefined?
    case Undefined => b.Null?
    case BigInt(i) => EqualsBigInt(h, i, b)
    case _ => b.BigInt? && EqualsBigInt(h, b.i, a)
  }

  /** A 32-bit result, or the double it overflows into. */
  function SmallOrDouble(n: int): Value {
    if MIN_SMI <= n <= MAX_SMI then Smi(n as int32) else Number(Finite(n as real))
  }

  function Add(h: Host, a: Value, b: Value): Value {
    if a.BigInt? && b.BigInt? then BigInt(a.i + b.i)
    else if a.Smi? && b.Smi? then SmallOrDouble(a.n as int + b.n as int)
    else if a.Str? && b.Str? then Str(a.s + b.s)
    else if a.Str? then Str(a.s + h.toText(b))
    else if b.Str? then Str(h.toText(a) + b.s)
    else Number(FloatAdd(h, ToNumber(h, a), ToNumber(h, b)))
  }

  function Subtract(h: Host, a: Value, b: Value): Value {
    if a.BigInt? && b.BigInt? then BigInt(a.i - b.i)
    else if a.Smi? && b.Smi? then SmallOrDouble(a.n as int - b.n as int)
    else Number(FloatSubtract(h, ToNumber(h, a), ToNumber(h, b)))
  }

  function Multiply(h: Host, a: Value, b: Value): Value {
    if a.BigInt? && b.BigInt? then BigInt(a.i * b.i)
    else if a.Smi? && b.Smi? then
      // the double product of two 32-bit integers may be inexact
      var p := a.n as int * b.n as int;
      if MIN_SMI <= p <= MAX_SMI then Smi(p as int32) else Number(h.round(p as real))
    else Number(FloatMultiply(h, ToNumber(h, a), ToNumber(h, b)))
  }

  // ---- When each algebraic rewrite is exact -------------------------------------------------

  function TextOf(h: Host, v: Value): string {
    if v.Str? then v.s else h.toText(v)
  }

  /** The operands on which `x + z`, for a `z` that converts to zero, is `x` itself. */
  predicate AddingZeroKeeps(h: Host, x: Value, z: Value) {
    match x
    case Smi(_) => z.Smi?
    case Number(f) => !z.Str? && (f.NegZero? ==> ToNumber(h, z).NegZero?)
    case BigInt(_) => z == BigInt(0)
    case Str(_) => TextOf(h, z) == ""
    case _ => false
  }

  /** The operands on which `x - z`, for a `z` that converts to zero, is `x` itself. */
  predicate SubtractingZeroKeeps(h: Host, x: Value, z: Value) {
    match x
    case Smi(_) => z.Smi?
    case Number(f) => f.NegZero? ==> !ToNumber(h, z).NegZero?
    case BigInt(_) => z == BigInt(0)
    case _ => false
  }

  /** The operands on which `x * w`, for a `w` that converts to one, is `x` itself. */
  predicate MultiplyingByOneKeeps(x: Value, w: Value) {
    match x
    case Smi(_) => w.Smi?
    case Number(_) => true
    case BigInt(i) => w.BigInt? && (i == 0 || w.i == 1)
    case _ => false
  }

  lemma AddZeroOnTheRight(h: Host, x: Value, z: Value)
    requires IsZero(ToNumber(h, z))
    ensures Add(h, x, z) == x <==> AddingZeroKeeps(h, x, z)
  {
    if x.Str? {
      assert |x.s + TextOf(h, z)| == |x.s| + |TextOf(h, z)|;
      if TextOf(h, z) == "" { assert x.s + TextOf(h, z) == x.s; }
    }
  }

  lemma AddZeroOnTheLeft(h: Host, z: Value, x: Value)
    requires IsZero(ToNumber(h, z))
    ensures Add(h, z, x) == x <==> AddingZeroKeeps(h, x, z)
  {
    if x.Str? {
      assert |TextOf(h, z) + x.s| == |TextOf(h, z)| + |x.s|;
      if TextOf(h, z) == "" { assert TextOf(h, z) + x.s == x.s; }
    }
  }

  lemma SubtractZero(h: Host, x: Value, z: Value)
    requires IsZero(ToNumber(h, z))
    ensures Subtract(h, x, z) == x <==> SubtractingZeroKeeps(h, x, z)
  {
  }

  lemma SubtractItself(h: Host, x: Value)
    ensures Subtract(h, x, x) == Smi(0) <==> x.Smi?
  {
  }

  lemma MultiplyByOneOnTheRight(h: Host, x: Value, w: Value)
    requires IsOne(ToNumber(h, w))
    ensures Multiply(h, x, w) == x <==> MultiplyingByOneKeeps(x, w)
  {
    if x.BigInt? && w.BigInt? { ProductIsFactor(x.i, w.i); }
  }

  lemma MultiplyByOneOnTheLeft(h: Host, w: Value, x: Value)
    requires IsOne(ToNumber(h, w))
    ensures Multiply(h, w, x) == x <==> MultiplyingByOneKeeps(x, w)
  {
    if x.BigInt? && w.BigInt? { ProductIsFactor(x.i, w.i); }
  }

  lemma ProductIsFactor(a: int, b: int)
    ensures a * b == a <==> a == 0 || b == 1
  {
    if a * b == a { assert a * (b - 1) == 0; }
  }

  lemma MultiplyByZero(h: Host, x: Value, y: Value)
    requires IsZero(ToNumber(h, x)) || IsZero(ToNumber(h, y))
    ensures Multiply(h, x, y) == Smi(0) <==> x.Smi? && y.Smi?
  {
  }
}
