module Arithmetic {
  // What the graphs of single operations return, told by the real numbers that the operands stand for.

  import opened Options
  import opened Values
  import opened Nodes
  import opened Pipeline

  // ---- Graphs of one operation --------------------------------------------------------------

  /** `a0 op a1` */
  function OfTwo(op: BinaryOp): (nodes: seq<Node>)
    ensures WellFormed(nodes) && ReturnsOk(nodes, [4])
  {
    [Node(0, Start, [], None), Node(1, Parameter(0), [], Some(0)), Node(2, Parameter(1), [], Some(0)),
     Node(3, Binary(op), [1, 2], None), Node(4, Return, [3], Some(0))]
  }

  /** `op a0` */
  function OfOne(op: UnaryOp): (nodes: seq<Node>)
    ensures WellFormed(nodes) && ReturnsOk(nodes, [3])
  {
    [Node(0, Start, [], None), Node(1, Parameter(0), [], Some(0)), Node(2, Unary(op), [1], None),
     Node(3, Return, [2], Some(0))]
  }

  /** What executing the graph of an operation on its operands returns. */
  ghost function Executed(h: Host, op: BinaryOp, x: Value, y: Value): Value {
    Result(h, OfTwo(op), [4], [x, y])
  }

  ghost function ExecutedOn(h: Host, op: UnaryOp, x: Value): Value {
    Result(h, OfOne(op), [3], [x])
  }

  lemma Executes(h: Host, op: BinaryOp, x: Value, y: Value)
    ensures Executed(h, op, x, y) == EvaluateBinary(h, op, x, y)
  {
    var nodes := OfTwo(op);
    assert Meaning(h, nodes, [x, y], 1) == x && Meaning(h, nodes, [x, y], 2) == y;
  }

  lemma ExecutesOn(h: Host, op: UnaryOp, x: Value)
    ensures ExecutedOn(h, op, x) == EvaluateUnary(h, op, x)
  {
    assert Meaning(h, OfOne(op), [x], 1) == x;
  }

  // ---- Doubles as real numbers --------------------------------------------------------------

  predicate IsFinite(f: Float) {
    f.Finite? || f.NegZero?
  }

  /** The real number that a finite double stands for. */
  function RealOf(f: Float): real {
    if f.Finite? then f.r else 0.0
  }

  /** Rounding leaves the doubles alone. */
  predicate IsDouble(h: Host, r: real) {
    h.round(r) == Finite(r)
  }

  predicate HasSign(f: Float, negative: bool) {
    match f
    case NaN => false
    case PosInf => !negative
    case NegInf => negative
    case NegZero => negative
    case Finite(r) => negative == (r < 0.0)
  }

  // ---- Sums and differences -----------------------------------------------------------------

  /** The sum of two finite doubles is their real sum, rounded if it is no double; it is a negative zero
      only if both are. */
  lemma FiniteSum(h: Host, a: Float, b: Float)
    requires IsFinite(a) && IsFinite(b)
    ensures
      var sum, s := Executed(h, Add, Number(a), Number(b)), RealOf(a) + RealOf(b);
      && (s != 0.0 && IsDouble(h, s) ==> sum == Number(Finite(s)))
      && (RealOf(a) != 0.0 && RealOf(b) != 0.0 && s != 0.0 ==> sum == Number(h.round(s)))
      && (s == 0.0 ==> sum == Number(if a.NegZero? && b.NegZero? then NegZero else Finite(0.0)))
  {
    Executes(h, Add, Number(a), Number(b));
  }

  lemma InfiniteSum(h: Host, a: Float, b: Float)
    ensures a.NaN? || b.NaN? ==> Executed(h, Add, Number(a), Number(b)) == Number(NaN)
    ensures IsFinite(a) ==> Executed(h, Add, Number(PosInf), Number(a)) == Number(PosInf)
    ensures IsFinite(a) ==> Executed(h, Add, Number(NegInf), Number(a)) == Number(NegInf)
    ensures Executed(h, Add, Number(PosInf), Number(PosInf)) == Number(PosInf)
    ensures Executed(h, Add, Number(NegInf), Number(NegInf)) == Number(NegInf)
    ensures Executed(h, Add, Number(PosInf), Number(NegInf)) == Number(NaN)
  {
    Executes(h, Add, Number(a), Number(b));
    Executes(h, Add, Number(PosInf), Number(a));
    Executes(h, Add, Number(NegInf), Number(a));
    Executes(h, Add, Number(PosInf), Number(PosInf));
    Executes(h, Add, Number(NegInf), Number(NegInf));
    Executes(h, Add, Number(PosInf), Number(NegInf));
  }

  /** Without strings the operands of an addition can be swapped. */
  lemma SumCommutes(h: Host, x: Value, y: Value)
    requires !x.Str? && !y.Str?
    ensures Executed(h, Add, x, y) == Executed(h, Add, y, x)
  {
    Executes(h, Add, x, y);
    Executes(h, Add, y, x);
  }

  lemma FiniteDifference(h: Host, a: Float, b: Float)
    requires IsFinite(a) && IsFinite(b)
    ensures
      var difference, d := Executed(h, Sub, Number(a), Number(b)), RealOf(a) - RealOf(b);
      && (d != 0.0 && IsDouble(h, d) ==> difference == Number(Finite(d)))
      && (RealOf(a) != 0.0 && RealOf(b) != 0.0 && d != 0.0 ==> difference == Number(h.round(d)))
      && (d == 0.0 ==> difference == Number(if a.NegZero? && b == Finite(0.0) then NegZero else Finite(0.0)))
  {
    Executes(h, Sub, Number(a), Number(b));
  }

  lemma InfiniteDifference(h: Host, a: Float, b: Float)
    ensures a.NaN? || b.NaN? ==> Executed(h, Sub, Number(a), Number(b)) == Number(NaN)
    ensures IsFinite(a) ==> Executed(h, Sub, Number(PosInf), Number(a)) == Number(PosInf)
    ensures IsFinite(a) ==> Executed(h, Sub, Number(NegInf), Number(a)) == Number(NegInf)
    ensures IsFinite(a) ==> Executed(h, Sub, Number(a), Number(PosInf)) == Number(NegInf)
    ensures IsFinite(a) ==> Executed(h, Sub, Number(a), Number(NegInf)) == Number(PosInf)
    ensures Executed(h, Sub, Number(PosInf), Number(NegInf)) == Number(PosInf)
    ensures Executed(h, Sub, Number(NegInf), Number(PosInf)) == Number(NegInf)
    ensures Executed(h, Sub, Number(PosInf), Number(PosInf)) == Number(NaN)
    ensures Executed(h, Sub, Number(NegInf), Number(NegInf)) == Number(NaN)
  {
    Executes(h, Sub, Number(a), Number(b));
    Executes(h, Sub, Number(PosInf), Number(a));
    Executes(h, Sub, Number(NegInf), Number(a));
    Executes(h, Sub, Number(a), Number(PosInf));
    Executes(h, Sub, Number(a), Number(NegInf));
    Executes(h, Sub, Number(PosInf), Number(NegInf));
    Executes(h, Sub, Number(NegInf), Number(PosInf));
    Executes(h, Sub, Number(PosInf), Number(PosInf));
    Executes(h, Sub, Number(NegInf), Number(NegInf));
  }

  // ---- Products -----------------------------------------------------------------------------

  /** The product of two finite doubles is their real product, rounded if it is no double; a zero has the
      sign that the product of the signs gives. */
  lemma FiniteProduct(h: Host, a: Float, b: Float)
    requires IsFinite(a) && IsFinite(b)
    ensures
      var product, p := Executed(h, Mul, Number(a), Number(b)), RealOf(a) * RealOf(b);
      && (p != 0.0 && IsDouble(h, p) ==> product == Number(Finite(p)))
      && (p != 0.0 && RealOf(a) != 1.0 && RealOf(b) != 1.0 ==> product == Number(h.round(p)))
      && (RealOf(a) == 0.0 || RealOf(b) == 0.0 ==>
            product == Number(if HasSign(a, true) == HasSign(b, true) then Finite(0.0) else NegZero))
  {
    Executes(h, Mul, Number(a), Number(b));
    RealProduct(RealOf(a), RealOf(b));
  }

  lemma RealProduct(a: real, b: real)
    ensures Product(a, b) == a * b
    ensures a * b == 0.0 <==> a == 0.0 || b == 0.0
    ensures a == 1.0 ==> a * b == b
    ensures b == 1.0 ==> a * b == a
  {
  }

  lemma InfiniteProduct(h: Host, a: Float, b: Float)
    requires b.PosInf? || b.NegInf?
    ensures
      var product := Executed(h, Mul, Number(a), Number(b));
      && (a.NaN? || (IsFinite(a) && RealOf(a) == 0.0) ==> product == Number(NaN))
      && (!a.NaN? && !(IsFinite(a) && RealOf(a) == 0.0) ==>
            product == Number(if HasSign(a, true) == HasSign(b, true) then PosInf else NegInf))
  {
    Executes(h, Mul, Number(a), Number(b));
  }

  lemma ProductOfNaN(h: Host, x: Value, y: Value)
    requires x == Number(NaN) && !y.BigInt?
    ensures Executed(h, Mul, x, y) == Number(NaN)
  {
    Executes(h, Mul, x, y);
  }

  lemma ProductCommutes(h: Host, x: Value, y: Value)
    ensures Executed(h, Mul, x, y) == Executed(h, Mul, y, x)
  {
    Executes(h, Mul, x, y);
    Executes(h, Mul, y, x);
    if x.BigInt? && y.BigInt? { assert x.i * y.i == y.i * x.i; }
    if x.Smi? && y.Smi? { assert x.n as int * y.n as int == y.n as int * x.n as int; }
    FloatProductCommutes(h, ToNumber(h, x), ToNumber(h, y));
  }

  lemma FloatProductCommutes(h: Host, a: Float, b: Float)
    ensures FloatMultiply(h, a, b) == FloatMultiply(h, b, a)
  {
    if a.Finite? && b.Finite? { assert Product(a.r, b.r) == Product(b.r, a.r); }
  }

  // ---- Integers and strings -----------------------------------------------------------------

  /** Small integers give a small integer, or the double beside their range. */
  lemma SmallIntegers(h: Host, m: int32, n: int32)
    ensures
      var s, d, p := m as int + n as int, m as int - n as int, m as int * n as int;
      && Executed(h, Add, Smi(m), Smi(n))
           == (if -0x8000_0000 <= s < 0x8000_0000 then Smi(s as int32) else Number(Finite(s as real)))
      && Executed(h, Sub, Smi(m), Smi(n))
           == (if -0x8000_0000 <= d < 0x8000_0000 then Smi(d as int32) else Number(Finite(d as real)))
      && Executed(h, Mul, Smi(m), Smi(n))
           == (if -0x8000_0000 <= p < 0x8000_0000 then Smi(p as int32) else Number(h.round(p as real)))
  {
    Executes(h, Add, Smi(m), Smi(n));
    Executes(h, Sub, Smi(m), Smi(n));
    Executes(h, Mul, Smi(m), Smi(n));
  }

  lemma BigIntegers(h: Host, i: int, j: int)
    ensures Executed(h, Add, BigInt(i), BigInt(j)) == BigInt(i + j)
    ensures Executed(h, Sub, BigInt(i), BigInt(j)) == BigInt(i - j)
    ensures Executed(h, Mul, BigInt(i), BigInt(j)) == BigInt(i * j)
  {
    Executes(h, Add, BigInt(i), BigInt(j));
    Executes(h, Sub, BigInt(i), BigInt(j));
    Executes(h, Mul, BigInt(i), BigInt(j));
  }

  /** With a string on either side `+` concatenates. */
  lemma Concatenates(h: Host, s: string, t: string, x: Value)
    requires !x.Str?
    ensures Executed(h, Add, Str(s), Str(t)) == Str(s + t)
    ensures Executed(h, Add, Str(s), x) == Str(s + h.toText(x))
    ensures Executed(h, Add, x, Str(s)) == Str(h.toText(x) + s)
  {
    Executes(h, Add, Str(s), Str(t));
    Executes(h, Add, Str(s), x);
    Executes(h, Add, x, Str(s));
  }

  /** The number an operand stands for. */
  function NumberOf(h: Host, x: Value): Float {
    if x == Boolean(true) then Finite(1.0)
    else if x == Boolean(false) || x == Null then Finite(0.0)
    else if x == Undefined then NaN
    else if x.Number? then x.f
    else if x.Smi? then Finite(x.n as real)
    else if x.Str? then h.parseNumber(x.s)
    else if x.BigInt? then h.bigIntToFloat(x.i)
    else if x.Reference? then h.referenceToNumber(x.address)
    else NaN
  }

  /** Operands that are not of one kind are converted first. */
  lemma Converts(h: Host, x: Value, y: Value)
    requires !(x.Smi? && y.Smi?) && !(x.BigInt? && y.BigInt?)
    ensures !x.Str? && !y.Str? ==>
      Executed(h, Add, x, y) == Executed(h, Add, Number(NumberOf(h, x)), Number(NumberOf(h, y)))
    ensures Executed(h, Sub, x, y) == Executed(h, Sub, Number(NumberOf(h, x)), Number(NumberOf(h, y)))
    ensures Executed(h, Mul, x, y) == Executed(h, Mul, Number(NumberOf(h, x)), Number(NumberOf(h, y)))
  {
    Executes(h, Add, x, y);
    Executes(h, Sub, x, y);
    Executes(h, Mul, x, y);
    Executes(h, Add, Number(NumberOf(h, x)), Number(NumberOf(h, y)));
    Executes(h, Sub, Number(NumberOf(h, x)), Number(NumberOf(h, y)));
    Executes(h, Mul, Number(NumberOf(h, x)), Number(NumberOf(h, y)));
  }

  // ---- Comparisons --------------------------------------------------------------------------

  /** Where a double stands on the line of the extended reals. */
  function Place(f: Float): (int, real) {
    if f.NegInf? then (-1, 0.0) else if f.PosInf? then (1, 0.0) else (0, RealOf(f))
  }

  predicate Before(a: (int, real), b: (int, real)) {
    a.0 < b.0 || (a.0 == b.0 && a.1 < b.1)
  }

  /** The order comparisons are the order of the extended reals; a NaN is before and behind nothing. */
  lemma Compares(h: Host, x: Value, y: Value)
    ensures
      var a, b := NumberOf(h, x), NumberOf(h, y);
      var ordered := !a.NaN? && !b.NaN?;
      && Executed(h, CompareLessThan, x, y) == Boolean(ordered && Before(Place(a), Place(b)))
      && Executed(h, CompareGreaterThan, x, y) == Boolean(ordered && Before(Place(b), Place(a)))
      && Executed(h, CompareLessThanOrEqual, x, y) == Boolean(ordered && !Before(Place(b), Place(a)))
      && Executed(h, CompareGreaterThanOrEqual, x, y) == Boolean(ordered && !Before(Place(a), Place(b)))
  {
    ComparesLess(h, x, y);
    ComparesLess(h, y, x);
    Swaps(h, x, y);
  }

  lemma Swaps(h: Host, x: Value, y: Value)
    ensures Executed(h, CompareGreaterThan, x, y) == Executed(h, CompareLessThan, y, x)
    ensures Executed(h, CompareGreaterThanOrEqual, x, y) == Executed(h, CompareLessThanOrEqual, y, x)
  {
    Executes(h, CompareGreaterThan, x, y);
    Executes(h, CompareGreaterThanOrEqual, x, y);
    Executes(h, CompareLessThan, y, x);
    Executes(h, CompareLessThanOrEqual, y, x);
  }

  lemma ComparesLess(h: Host, x: Value, y: Value)
    ensures
      var a, b := NumberOf(h, x), NumberOf(h, y);
      var ordered := !a.NaN? && !b.NaN?;
      && Executed(h, CompareLessThan, x, y) == Boolean(ordered && Before(Place(a), Place(b)))
      && Executed(h, CompareLessThanOrEqual, x, y) == Boolean(ordered && !Before(Place(b), Place(a)))
  {
    Executes(h, CompareLessThan, x, y);
    Executes(h, CompareLessThanOrEqual, x, y);
    OrderIsPlace(NumberOf(h, x), NumberOf(h, y));
    IsItsNumber(h, x);
    IsItsNumber(h, y);
  }

  lemma IsItsNumber(h: Host, x: Value)
    ensures ToNumber(h, x) == NumberOf(h, x)
  {
  }

  lemma OrderIsPlace(a: Float, b: Float)
    ensures FloatLess(a, b) <==> !a.NaN? && !b.NaN? && Before(Place(a), Place(b))
    ensures FloatEqual(a, b) <==> !a.NaN? && !b.NaN? && Place(a) == Place(b)
  {
  }

  predicate IsNumber(x: Value) {
    x.Smi? || x.Number?
  }

  /** `===`: the same number, NaN apart, or the same value of another kind. */
  lemma StrictEqualityIff(h: Host, x: Value, y: Value)
    ensures StrictlyEqual(x, y) <==>
      if IsNumber(x) && IsNumber(y) then
        NumberOf(h, x) != NaN && NumberOf(h, y) != NaN && Place(NumberOf(h, x)) == Place(NumberOf(h, y))
      else !IsNumber(x) && x == y
  {
  }

  predicate AreNullAndUndefined(x: Value, y: Value) {
    {x, y} == {Null, Undefined}
  }

  /** What `==` adds to `===`: null and undefined, and big integers against the other kinds. */
  lemma LooseEqualityIff(h: Host, x: Value, y: Value)
    ensures !x.BigInt? && !y.BigInt? ==>
      (Executed(h, CompareEqual, x, y) == Boolean(true) <==> StrictlyEqual(x, y) || AreNullAndUndefined(x, y))
    ensures Executed(h, CompareEqual, x, y) == Executed(h, CompareEqual, y, x)
    ensures Executed(h, CompareStrictEqual, x, y) == Executed(h, CompareEqual, x, y)
    ensures Executed(h, CompareEqual, x, y).Boolean?
  {
    Executes(h, CompareEqual, x, y);
    Executes(h, CompareEqual, y, x);
    Executes(h, CompareStrictEqual, x, y);
    assert x in {x, y} && y in {x, y};
  }

  lemma BigIntegerEqualityIff(h: Host, i: int, y: Value)
    ensures Executed(h, CompareEqual, BigInt(i), y) == Boolean(true) <==>
      || y == BigInt(i)
      || (y.Smi? && -0x8000_0000_0000_0000 < i < 0x8000_0000_0000_0000 && i == y.n as int)
      || (y.Smi? && 0x8000_0000_0000_0000 <= i < 0x1_0000_0000_0000_0000 && i - 0x1_0000_0000_0000_0000 == y.n as int)
      || (y.Smi? && -0x1_0000_0000_0000_0000 < i <= -0x8000_0000_0000_0000
          && i + 0x1_0000_0000_0000_0000 == y.n as int)
      || (y.Number? && FloatEqual(h.bigIntToFloat(i), y.f))
      || (y.Str? && h.parseBigInt(y.s) == Some(i))
  {
    Executes(h, CompareEqual, BigInt(i), y);
  }

  // ---- The other operations -----------------------------------------------------------------

  lemma HostOperations(h: Host, x: Value, y: Value)
    ensures Executed(h, Div, x, y) == h.divide(x, y) && Executed(h, Mod, x, y) == h.remainder(x, y)
    ensures Executed(h, BitAnd, x, y) == h.bitAnd(x, y) && Executed(h, BitOr, x, y) == h.bitOr(x, y)
    ensures Executed(h, BitXor, x, y) == h.bitXor(x, y)
    ensures Executed(h, ShiftLeft, x, y) == h.shiftLeft(x, y) && Executed(h, ShiftRight, x, y) == h.shiftRight(x, y)
  {
    Executes(h, Div, x, y);
    Executes(h, Mod, x, y);
    Executes(h, BitAnd, x, y);
    Executes(h, BitOr, x, y);
    Executes(h, BitXor, x, y);
    Executes(h, ShiftLeft, x, y);
    Executes(h, ShiftRight, x, y);
  }

  /** Negation changes the sign, also that of a zero, and is its own inverse. */
  lemma Negates(h: Host, x: Value)
    ensures
      var a, negated := NumberOf(h, x), ExecutedOn(h, UnaryOp.Negate, x);
      && negated.Number?
      && (a.NaN? ==> negated.f.NaN?)
      && (!a.NaN? ==> HasSign(negated.f, !HasSign(a, true)))
      && (IsFinite(a) ==> IsFinite(negated.f) && RealOf(negated.f) == -RealOf(a))
      && (a.PosInf? || a.NegInf? ==> negated.f.PosInf? || negated.f.NegInf?)
      && ExecutedOn(h, UnaryOp.Negate, negated) == Number(a)
  {
    ExecutesOn(h, UnaryOp.Negate, x);
    ExecutesOn(h, UnaryOp.Negate, ExecutedOn(h, UnaryOp.Negate, x));
  }

  /** `!x` holds of the zeros, NaN, the empty string, false, null and undefined. */
  lemma NotIff(h: Host, x: Value)
    ensures ExecutedOn(h, Not, x) ==
      Boolean(
        || x in {Boolean(false), Smi(0), Number(Finite(0.0)), Number(NegZero), Number(NaN), Str(""), Null, Undefined,
                 BigInt(0)}
        || (x.Reference? && !h.referenceIsTruthy(x.address)))
  {
    ExecutesOn(h, Not, x);
  }
}
