/** The interpreter's operators (src/objects/value.rs, src/interpreter/interpreter.rs) against the graph tier's. */
module Comparisons {
  // The graph tier evaluates `===` like `==`, compares everything as doubles, and negates into a
  // double. The interpreter has `test_less_than` and its siblings, `strict_equal` and a `Negate`
  // that stays in the kind of its operand. For each operator this module says on which operands the
  // two agree.

  import opened Options
  import opened Values
  import opened Nodes
  import opened Bytecodes

  /** The order of strings: by code points, which is the order of their UTF-8 bytes. */
  predicate TextLess(s: string, t: string) {
    if t == "" then false
    else if s == "" then true
    else s[0] < t[0] || (s[0] == t[0] && TextLess(s[1..], t[1..]))
  }

  /** `test_less_than` (value.rs:446-463); `test_greater_than` is the same with the operands swapped. */
  predicate TestLess(h: Host, a: Value, b: Value) {
    if a.BigInt? && b.BigInt? then a.i < b.i
    else if a.BigInt? && b.Smi? then a.i < b.n as int
    else if a.Smi? && b.BigInt? then a.n as int < b.i
    else if a.Smi? && b.Smi? then a.n < b.n
    else if a.Str? && b.Str? then TextLess(a.s, b.s)
    else FloatLess(ToNumber(h, a), ToNumber(h, b))
  }

  /** `test_less_than_or_equal` (value.rs:488-505), and swapped `test_greater_than_or_equal`. */
  predicate TestAtMost(h: Host, a: Value, b: Value) {
    if a.BigInt? && b.BigInt? then a.i <= b.i
    else if a.BigInt? && b.Smi? then a.i <= b.n as int
    else if a.Smi? && b.BigInt? then a.n as int <= b.i
    else if a.Smi? && b.Smi? then a.n <= b.n
    else if a.Str? && b.Str? then !TextLess(b.s, a.s)
    else FloatAtMost(ToNumber(h, a), ToNumber(h, b))
  }

  predicate InRange(n: int) { MIN_SMI <= n <= MAX_SMI }

  /** The interpreter's `Add`: a checked sum, a concatenation, or the general addition. */
  function InterpretAdd(h: Host, acc: Value, operand: Value): Value {
    if acc.Smi? && operand.Smi? && InRange(acc.n as int + operand.n as int) then
      Smi((acc.n as int + operand.n as int) as int32)
    else if acc.Str? && operand.Str? then Str(acc.s + operand.s)
    else Values.Add(h, acc, operand)
  }

  function InterpretSubtract(h: Host, acc: Value, operand: Value): Value {
    if acc.Smi? && operand.Smi? && InRange(acc.n as int - operand.n as int) then
      Smi((acc.n as int - operand.n as int) as int32)
    else Values.Subtract(h, acc, operand)
  }

  function InterpretMultiply(h: Host, acc: Value, operand: Value): Value {
    if acc.Smi? && operand.Smi? && InRange(acc.n as int * operand.n as int) then
      Smi((acc.n as int * operand.n as int) as int32)
    else Values.Multiply(h, acc, operand)
  }

  /** One operation of the interpreter; the accumulator is the left operand. */
  function Interpreted(h: Host, op: Operation, acc: Value, operand: Value): Value {
    match op
    case OpAdd => InterpretAdd(h, acc, operand)
    case OpSub => InterpretSubtract(h, acc, operand)
    case OpMul => InterpretMultiply(h, acc, operand)
    case OpDiv => h.divide(acc, operand)
    case OpMod => h.remainder(acc, operand)
    case OpBitwiseOr => h.bitOr(acc, operand)
    case OpBitwiseXor => h.bitXor(acc, operand)
    case OpBitwiseAnd => h.bitAnd(acc, operand)
    case OpShiftLeft => h.shiftLeft(acc, operand)
    case OpShiftRight => h.shiftRight(acc, operand)
    case OpTestEqual => Boolean(LooselyEqual(h, acc, operand))
    case OpTestEqualStrict => Boolean(StrictlyEqual(acc, operand))
    case OpTestLessThan => Boolean(TestLess(h, acc, operand))
    case OpTestGreaterThan => Boolean(TestLess(h, operand, acc))
    case OpTestLessThanOrEqual => Boolean(TestAtMost(h, acc, operand))
    case OpTestGreaterThanOrEqual => Boolean(TestAtMost(h, operand, acc))
  }

  /** The interpreter's `Negate` (interpreter.rs:2326-2340). */
  function InterpretNegate(h: Host, v: Value): Value {
    match v
    case Smi(n) =>
      if n == 0 then Number(NegZero)
      else if InRange(-(n as int)) then Smi((-(n as int)) as int32)
      else Number(FloatNegate(Finite(n as real)))
    case BigInt(i) => BigInt(-i)
    case _ => Number(FloatNegate(ToNumber(h, v)))
  }

  // ---- Where the tiers agree ----------------------------------------------------------------

  const TWO_TO_THE_53: int := 0x20_0000_0000_0000

  /** Big integers convert to doubles in order, and exactly up to 2^53. */
  ghost predicate ConvertsInOrder(h: Host) {
    && (forall i, j :: i <= j ==> FloatAtMost(h.bigIntToFloat(i), h.bigIntToFloat(j)))
    && (forall i :: -TWO_TO_THE_53 <= i <= TWO_TO_THE_53 ==> h.bigIntToFloat(i) == Finite(i as real))
  }

  /** Two big integers that are one double. */
  predicate Collide(h: Host, i: int, j: int) {
    FloatEqual(h.bigIntToFloat(i), h.bigIntToFloat(j))
  }

  /** Strings are ordered like the numbers they spell. */
  predicate OrderedAsNumbers(h: Host, s: string, t: string) {
    TextLess(s, t) <==> FloatLess(h.parseNumber(s), h.parseNumber(t))
  }

  predicate OrderedAtMostAsNumbers(h: Host, s: string, t: string) {
    !TextLess(t, s) <==> FloatAtMost(h.parseNumber(s), h.parseNumber(t))
  }

  /** The operands on which `<` is the comparison of doubles. */
  predicate LessAgrees(h: Host, a: Value, b: Value) {
    && (a.Str? && b.Str? ==> OrderedAsNumbers(h, a.s, b.s))
    && (a.BigInt? && b.BigInt? ==> !(a.i < b.i && Collide(h, a.i, b.i)))
  }

  predicate AtMostAgrees(h: Host, a: Value, b: Value) {
    && (a.Str? && b.Str? ==> OrderedAtMostAsNumbers(h, a.s, b.s))
    && (a.BigInt? && b.BigInt? ==> !(b.i < a.i && Collide(h, a.i, b.i)))
  }

  /** The operands on which `==` says no more than `===`. */
  predicate EqualityAgrees(h: Host, a: Value, b: Value) {
    match a
    case Null => !b.Undefined?
    case Undefined => !b.Null?
    case BigInt(i) => !EqualsBigInt(h, i, b)
    case _ => b.BigInt? ==> !EqualsBigInt(h, b.i, a)
  }

  /** The operands on which an operation of the graph tier is the interpreter's. */
  predicate TiersAgree(h: Host, op: Operation, acc: Value, operand: Value) {
    match op
    case OpTestEqualStrict => EqualityAgrees(h, acc, operand)
    case OpTestLessThan => LessAgrees(h, acc, operand)
    case OpTestGreaterThan => LessAgrees(h, operand, acc)
    case OpTestLessThanOrEqual => AtMostAgrees(h, acc, operand)
    case OpTestGreaterThanOrEqual => AtMostAgrees(h, operand, acc)
    case _ => true
  }

  lemma SmallAndBigAgree(h: Host, i: int, n: int)
    requires ConvertsInOrder(h) && InRange(n)
    ensures FloatLess(h.bigIntToFloat(i), Finite(n as real)) <==> i < n
    ensures FloatLess(Finite(n as real), h.bigIntToFloat(i)) <==> n < i
    ensures FloatAtMost(h.bigIntToFloat(i), Finite(n as real)) <==> i <= n
    ensures FloatAtMost(Finite(n as real), h.bigIntToFloat(i)) <==> n <= i
  {
    var f := h.bigIntToFloat(i);
    assert h.bigIntToFloat(n) == Finite(n as real);
    assert FloatAtMost(f, f);
    if i < n {
      assert FloatAtMost(f, h.bigIntToFloat(n - 1));
    } else if n < i {
      assert FloatAtMost(h.bigIntToFloat(n + 1), f);
    }
  }

  lemma BigIntegersAgree(h: Host, i: int, j: int)
    requires ConvertsInOrder(h)
    ensures FloatLess(h.bigIntToFloat(i), h.bigIntToFloat(j)) <==> i < j && !Collide(h, i, j)
    ensures FloatAtMost(h.bigIntToFloat(i), h.bigIntToFloat(j)) <==> i <= j || Collide(h, i, j)
  {
    if i <= j {
      assert FloatAtMost(h.bigIntToFloat(i), h.bigIntToFloat(j));
    } else {
      assert FloatAtMost(h.bigIntToFloat(j), h.bigIntToFloat(i));
    }
  }

  lemma LessAgreesIff(h: Host, a: Value, b: Value)
    requires ConvertsInOrder(h)
    ensures TestLess(h, a, b) == FloatLess(ToNumber(h, a), ToNumber(h, b)) <==> LessAgrees(h, a, b)
  {
    if a.BigInt? && b.BigInt? {
      BigIntegersAgree(h, a.i, b.i);
    } else if a.BigInt? && b.Smi? {
      SmallAndBigAgree(h, a.i, b.n as int);
    } else if a.Smi? && b.BigInt? {
      SmallAndBigAgree(h, b.i, a.n as int);
    }
  }

  lemma AtMostAgreesIff(h: Host, a: Value, b: Value)
    requires ConvertsInOrder(h)
    ensures TestAtMost(h, a, b) == FloatAtMost(ToNumber(h, a), ToNumber(h, b)) <==> AtMostAgrees(h, a, b)
  {
    if a.BigInt? && b.BigInt? {
      BigIntegersAgree(h, a.i, b.i);
    } else if a.BigInt? && b.Smi? {
      SmallAndBigAgree(h, a.i, b.n as int);
    } else if a.Smi? && b.BigInt? {
      SmallAndBigAgree(h, b.i, a.n as int);
    }
  }

  lemma EqualityAgreesIff(h: Host, a: Value, b: Value)
    ensures LooselyEqual(h, a, b) == StrictlyEqual(a, b) <==> EqualityAgrees(h, a, b)
  {
  }

  lemma ArithmeticAgrees(h: Host, acc: Value, operand: Value)
    ensures InterpretAdd(h, acc, operand) == Values.Add(h, acc, operand)
    ensures InterpretSubtract(h, acc, operand) == Values.Subtract(h, acc, operand)
    ensures InterpretMultiply(h, acc, operand) == Values.Multiply(h, acc, operand)
  {
  }

  /** Operation by operation: the tiers compute one value exactly on the operands `TiersAgree` names. */
  lemma TiersAgreeIff(h: Host, op: Operation, acc: Value, operand: Value)
    requires ConvertsInOrder(h)
    ensures Operate(h, op, acc, operand) == Interpreted(h, op, acc, operand) <==> TiersAgree(h, op, acc, operand)
  {
    ArithmeticAgrees(h, acc, operand);
    EqualityAgreesIff(h, acc, operand);
    LessAgreesIff(h, acc, operand);
    LessAgreesIff(h, operand, acc);
    AtMostAgreesIff(h, acc, operand);
    AtMostAgreesIff(h, operand, acc);
  }

  // ---- The same by kinds of operands --------------------------------------------------------

  /** The kinds between which no values can make the tiers differ. */
  predicate KindsAgree(op: Operation, acc: Value, operand: Value) {
    match op
    case OpTestEqualStrict =>
      && !(acc.Null? && operand.Undefined?) && !(acc.Undefined? && operand.Null?)
      && (acc.BigInt? ==> !operand.Smi? && !operand.Number? && !operand.Str?)
      && (operand.BigInt? ==> !acc.Smi? && !acc.Number? && !acc.Str?)
    case OpTestLessThan => !(acc.Str? && operand.Str?) && !(acc.BigInt? && operand.BigInt?)
    case OpTestGreaterThan => !(acc.Str? && operand.Str?) && !(acc.BigInt? && operand.BigInt?)
    case OpTestLessThanOrEqual => !(acc.Str? && operand.Str?) && !(acc.BigInt? && operand.BigInt?)
    case OpTestGreaterThanOrEqual => !(acc.Str? && operand.Str?) && !(acc.BigInt? && operand.BigInt?)
    case _ => true
  }

  lemma KindsAgreeSuffices(h: Host, op: Operation, acc: Value, operand: Value)
    requires KindsAgree(op, acc, operand)
    ensures TiersAgree(h, op, acc, operand)
  {
  }

  datatype Kind = SmiKind | NumberKind | BooleanKind | StrKind | NullKind | UndefinedKind | BigIntKind | ReferenceKind

  function KindOf(v: Value): Kind {
    match v
    case Smi(_) => SmiKind
    case Number(_) => NumberKind
    case Boolean(_) => BooleanKind
    case Str(_) => StrKind
    case Null => NullKind
    case Undefined => UndefinedKind
    case BigInt(_) => BigIntKind
    case Reference(_) => ReferenceKind
  }

  /** Doubles that saturate at 2^53, and strings none of which spells a number. */
  function Saturating(i: int): Float {
    Finite((if i > TWO_TO_THE_53 then TWO_TO_THE_53 else if i < -TWO_TO_THE_53 then -TWO_TO_THE_53 else i) as real)
  }

  function SampleHost(): Host {
    var same := (a: Value, b: Value) => a;
    Host((x: real) => Finite(x), (s: string) => NaN, (s: string) => Some(0), Saturating, (a: nat) => NaN,
         (v: Value) => "", (a: nat) => true, same, same, same, same, same, same, same)
  }

  lemma SampleHostConvertsInOrder()
    ensures ConvertsInOrder(SampleHost())
  {
  }

  lemma EqualityDiffers(acc: Value, operand: Value) returns (a: Value, b: Value)
    requires !KindsAgree(OpTestEqualStrict, acc, operand)
    ensures KindOf(a) == KindOf(acc) && KindOf(b) == KindOf(operand) && !EqualityAgrees(SampleHost(), a, b)
  {
    var zero := BigInt(0);
    if acc.BigInt? {
      a, b := zero, if operand.Smi? then Smi(0) else if operand.Number? then Number(Finite(0.0)) else Str("");
    } else if operand.BigInt? {
      a, b := if acc.Smi? then Smi(0) else if acc.Number? then Number(Finite(0.0)) else Str(""), zero;
    } else {
      a, b := acc, operand;
    }
  }

  /** The lower and the higher of two strings, or of two big integers that are one double. */
  lemma OrderDiffers(texts: bool) returns (low: Value, high: Value)
    ensures if texts then low.Str? && high.Str? else low.BigInt? && high.BigInt?
    ensures !LessAgrees(SampleHost(), low, high)
    ensures if texts then !AtMostAgrees(SampleHost(), low, high) else !AtMostAgrees(SampleHost(), high, low)
  {
    low := if texts then Str("") else BigInt(TWO_TO_THE_53);
    high := if texts then Str("a") else BigInt(TWO_TO_THE_53 + 1);
  }

  /** Between all other kinds some values do: this is the exact table of kinds. */
  lemma OtherKindsDiffer(op: Operation, acc: Value, operand: Value) returns (a: Value, b: Value)
    requires !KindsAgree(op, acc, operand)
    ensures ConvertsInOrder(SampleHost())
    ensures KindOf(a) == KindOf(acc) && KindOf(b) == KindOf(operand)
    ensures Operate(SampleHost(), op, a, b) != Interpreted(SampleHost(), op, a, b)
  {
    SampleHostConvertsInOrder();
    if op == OpTestEqualStrict {
      a, b := EqualityDiffers(acc, operand);
    } else {
      var low, high := OrderDiffers(acc.Str?);
      a, b := low, high;
      if op == OpTestGreaterThan
         || (op == OpTestLessThanOrEqual && acc.BigInt?) || (op == OpTestGreaterThanOrEqual && acc.Str?)
      {
        a, b := high, low;
      }
    }
    TiersAgreeIff(SampleHost(), op, a, b);
  }

  /** The tiers negate alike exactly what is neither a big integer nor a small integer with a small
      negative. */
  lemma NegateAgreesIff(h: Host, v: Value)
    ensures Pipeline.EvaluateUnary(h, UnaryOp.Negate, v) == InterpretNegate(h, v)
        <==> !v.BigInt? && (v.Smi? ==> v.n == 0 || v.n as int == MIN_SMI)
  {
  }

  /** As a number the negated small integer is the same in both tiers; a big integer's never is. */
  lemma NegateAgreesAsNumberIff(h: Host, v: Value)
    ensures ToNumber(h, Pipeline.EvaluateUnary(h, UnaryOp.Negate, v)) == ToNumber(h, InterpretNegate(h, v))
        <==> (v.BigInt? ==> FloatNegate(h.bigIntToFloat(v.i)) == h.bigIntToFloat(-v.i))
  {
  }
}
