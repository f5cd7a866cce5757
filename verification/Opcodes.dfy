module Opcodes {
  // What short code returns in both tiers, for every supported opcode by its number (src/interpreter/bytecodes.rs).

  import opened Options
  import opened Values
  import opened Pipeline
  import opened Bytecodes
  import opened BuiltGraphs
  import opened Comparisons
  import opened Interpreter
  import opened InterpreterAgreement
  import opened ShortCode
  import opened TierDifferences
  import GraphBuilder

  // ---- Operations on two arguments ----------------------------------------------------------

  /** What the arithmetic opcodes compute in either tier, from the accumulator and a register. */
  function Arithmetic(h: Host, code: int, x: Value, y: Value): Option<Value> {
    match code
    case 37 => Some(Values.Add(h, x, y))
    case 38 => Some(Subtract(h, x, y))
    case 39 => Some(Multiply(h, x, y))
    case 40 => Some(h.divide(x, y))
    case 41 => Some(h.remainder(x, y))
    case 43 => Some(h.bitOr(x, y))
    case 44 => Some(h.bitXor(x, y))
    case 45 => Some(h.bitAnd(x, y))
    case 46 => Some(h.shiftLeft(x, y))
    case 47 => Some(h.shiftRight(x, y))
    case _ => None
  }

  /** What the comparing opcodes compute in the graph tier, which evaluates `===` like `==` and orders all
      operands as doubles. */
  function ComparedByGraph(h: Host, code: int, x: Value, y: Value): Option<bool> {
    match code
    case 71 => Some(LooselyEqual(h, x, y))
    case 72 => Some(LooselyEqual(h, x, y))
    case 73 => Some(FloatLess(ToNumber(h, x), ToNumber(h, y)))
    case 74 => Some(FloatLess(ToNumber(h, y), ToNumber(h, x)))
    case 75 => Some(FloatAtMost(ToNumber(h, x), ToNumber(h, y)))
    case 76 => Some(FloatAtMost(ToNumber(h, y), ToNumber(h, x)))
    case _ => None
  }

  function ComparedByInterpreter(h: Host, code: int, x: Value, y: Value): Option<bool> {
    match code
    case 71 => Some(LooselyEqual(h, x, y))
    case 72 => Some(StrictlyEqual(x, y))
    case 73 => Some(TestLess(h, x, y))
    case 74 => Some(TestLess(h, y, x))
    case 75 => Some(TestAtMost(h, x, y))
    case 76 => Some(TestAtMost(h, y, x))
    case _ => None
  }

  lemma ArithmeticIsBoth(h: Host, code: uint8, x: Value, y: Value)
    requires Arithmetic(h, code as int, x, y).Some?
    ensures FromByte(code).Some? && FromByte(code).value.WithRegister?
    ensures
      var op, v := FromByte(code).value.operation, Arithmetic(h, code as int, x, y).value;
      Operate(h, op, x, y) == v == Interpreted(h, op, x, y)
  {
  }

  lemma ComparesByGraph(h: Host, code: uint8, x: Value, y: Value)
    requires 71 <= code <= 76
    ensures FromByte(code).Some? && FromByte(code).value.WithRegister?
    ensures Operate(h, FromByte(code).value.operation, x, y) == Boolean(ComparedByGraph(h, code as int, x, y).value)
  {
    hide LooselyEqual, FloatLess, FloatAtMost, ToNumber;
  }

  lemma ComparesByInterpreter(h: Host, code: uint8, x: Value, y: Value)
    requires 71 <= code <= 76
    ensures FromByte(code).Some? && FromByte(code).value.WithRegister?
    ensures Interpreted(h, FromByte(code).value.operation, x, y)
         == Boolean(ComparedByInterpreter(h, code as int, x, y).value)
  {
    hide LooselyEqual, StrictlyEqual, TestLess, TestAtMost;
  }

  /** The arithmetic operations with a register, by their opcodes. */
  lemma RegisterArithmetic(h: Host, pool: seq<ConstantValue>, x: Value, y: Value, bytes: seq<uint8>)
    requires OnArguments(bytes)
    ensures
      var v := Arithmetic(h, bytes[2] as int, x, y);
      v.Some? ==> BothReturn(h, pool, [x, y], bytes, v.value)
  {
    if Arithmetic(h, bytes[2] as int, x, y).Some? {
      ArithmeticIsBoth(h, bytes[2], x, y);
      RegisterOpcode(h, pool, x, y, bytes, FromByte(bytes[2]).value.operation);
    }
  }

  /** The comparisons, by their opcodes. */
  lemma RegisterComparisons(h: Host, pool: seq<ConstantValue>, x: Value, y: Value, bytes: seq<uint8>)
    requires OnArguments(bytes) && 71 <= bytes[2] <= 76
    ensures
      var code := bytes[2] as int;
      && CompiledReturns(h, pool, [x, y], bytes, Boolean(ComparedByGraph(h, code, x, y).value))
      && InterpretedReturns(h, pool, [x, y], bytes, Boolean(ComparedByInterpreter(h, code, x, y).value))
  {
    ComparesByGraph(h, bytes[2], x, y);
    ComparesByInterpreter(h, bytes[2], x, y);
    RegisterOpcode(h, pool, x, y, bytes, FromByte(bytes[2]).value.operation);
  }

  /** On small integers, in numbers. */
  lemma SmallIntegerArithmetic(h: Host, pool: seq<ConstantValue>, m: int32, n: int32, bytes: seq<uint8>)
    requires OnArguments(bytes)
    ensures
      var x, y, i, j := Smi(m), Smi(n), m as int, n as int;
      && (bytes[2] == 37 && InRange(i + j) ==> BothReturn(h, pool, [x, y], bytes, Smi((i + j) as int32)))
      && (bytes[2] == 38 && InRange(i - j) ==> BothReturn(h, pool, [x, y], bytes, Smi((i - j) as int32)))
      && (bytes[2] == 39 && InRange(i * j) ==> BothReturn(h, pool, [x, y], bytes, Smi((i * j) as int32)))
  {
    RegisterArithmetic(h, pool, Smi(m), Smi(n), bytes);
  }

  lemma SmallIntegersCompare(h: Host, i: int32, j: int32, code: int)
    requires 71 <= code <= 76
    ensures ComparedByGraph(h, code, Smi(i), Smi(j)) == ComparedByInterpreter(h, code, Smi(i), Smi(j))
    ensures ComparedByGraph(h, code, Smi(i), Smi(j)) == Some(
      match code
      case 71 => i == j
      case 72 => i == j
      case 73 => i < j
      case 74 => i > j
      case 75 => i <= j
      case _ => i >= j)
  {
  }

  lemma SmallIntegerComparisons(h: Host, pool: seq<ConstantValue>, i: int32, j: int32, bytes: seq<uint8>)
    requires OnArguments(bytes)
    ensures bytes[2] == 71 || bytes[2] == 72 ==> BothReturn(h, pool, [Smi(i), Smi(j)], bytes, Boolean(i == j))
    ensures bytes[2] == 73 ==> BothReturn(h, pool, [Smi(i), Smi(j)], bytes, Boolean(i < j))
    ensures bytes[2] == 74 ==> BothReturn(h, pool, [Smi(i), Smi(j)], bytes, Boolean(i > j))
    ensures bytes[2] == 75 ==> BothReturn(h, pool, [Smi(i), Smi(j)], bytes, Boolean(i <= j))
    ensures bytes[2] == 76 ==> BothReturn(h, pool, [Smi(i), Smi(j)], bytes, Boolean(i >= j))
  {
    if 71 <= bytes[2] <= 76 {
      hide ComparedByGraph, ComparedByInterpreter;
      SmallIntegersCompare(h, i, j, bytes[2] as int);
      RegisterComparisons(h, pool, Smi(i), Smi(j), bytes);
    }
  }

  /** Every operation with an immediate operand: its opcode is 12 more. */
  lemma ImmediateOpcodes(h: Host, pool: seq<ConstantValue>, x: Value, bytes: seq<uint8>)
    requires WithImmediate(bytes)
    ensures
      var v := Arithmetic(h, bytes[2] as int - 12, x, Immediate(bytes[3]));
      v.Some? ==> BothReturn(h, pool, [x], bytes, v.value)
  {
    var y := Immediate(bytes[3]);
    if Arithmetic(h, bytes[2] as int - 12, x, y).Some? {
      ArithmeticIsBoth(h, bytes[2] - 12, x, y);
      ImmediateOpcode(h, pool, x, bytes, FromByte(bytes[2]).value.smiOperation);
    }
  }

  // ---- Loads --------------------------------------------------------------------------------

  /** `<code>; Return` */
  lemma ConstantLoads(h: Host, pool: seq<ConstantValue>, arguments: seq<Value>, bytes: seq<uint8>)
    requires |bytes| == 2 && bytes[1] == 94
    ensures bytes[0] == 2 ==> BothReturn(h, pool, arguments, bytes, Smi(0))
    ensures bytes[0] == 4 ==> BothReturn(h, pool, arguments, bytes, Undefined)
    ensures bytes[0] == 5 ==> BothReturn(h, pool, arguments, bytes, Null)
    ensures bytes[0] == 7 ==> BothReturn(h, pool, arguments, bytes, Boolean(true))
    ensures bytes[0] == 8 ==> BothReturn(h, pool, arguments, bytes, Boolean(false))
  {
    if bytes[0] == 2 { LoadOpcode(h, pool, arguments, bytes, LdaZero, Smi(0)); }
    if bytes[0] == 4 { LoadOpcode(h, pool, arguments, bytes, LdaUndefined, Undefined); }
    if bytes[0] == 5 { LoadOpcode(h, pool, arguments, bytes, LdaNull, Null); }
    if bytes[0] == 7 { LoadOpcode(h, pool, arguments, bytes, LdaTrue, Boolean(true)); }
    if bytes[0] == 8 { LoadOpcode(h, pool, arguments, bytes, LdaFalse, Boolean(false)); }
  }

  /** The value that an entry of the constant pool stands for. */
  predicate StandsFor(h: Host, c: ConstantValue, v: Value) {
    match c
    case PoolSmi(n) => v == Smi(n)
    case PoolNumber(f) => v == Number(f)
    case PoolString(s) => v == Str(s)
    case PoolBoolean(b) => v == Boolean(b)
    case PoolNull => v == Null
    case PoolUndefined => v == Undefined
    case PoolBigInt(digits) =>
      (h.parseBigInt(digits).Some? && v == BigInt(h.parseBigInt(digits).value))
      || (h.parseBigInt(digits).None? && v == BigInt(0))
  }

  /** `<code> operand; Return`: an immediate integer, and an entry of the constant pool. */
  lemma OperandLoads(h: Host, pool: seq<ConstantValue>, arguments: seq<Value>, bytes: seq<uint8>, v: Value)
    requires |bytes| == 3 && bytes[2] == 94
    ensures bytes[0] == 3 ==> BothReturn(h, pool, arguments, bytes, Immediate(bytes[1]))
    ensures bytes[0] == 9 && bytes[1] as int < |pool| && StandsFor(h, pool[bytes[1] as int], v) ==>
      BothReturn(h, pool, arguments, bytes, v)
    ensures bytes[0] == 9 && bytes[1] as int >= |pool| ==> BothReturn(h, pool, arguments, bytes, Undefined)
  {
    if bytes[0] == 3 { LoadOpcode(h, pool, arguments, bytes, LdaSmi, Immediate(bytes[1])); }
    if bytes[0] == 9 { LoadOpcode(h, pool, arguments, bytes, LdaConstant, PoolValue(h, pool, bytes[1] as nat)); }
  }

  /** `Ldar r; Return`: operand 3 is the receiver, 4 and up are the arguments; without arguments operand 250
      and down are the locals, which start undefined. */
  lemma RegisterLoads(h: Host, pool: seq<ConstantValue>, arguments: seq<Value>, bytes: seq<uint8>)
    requires |bytes| == 3 && bytes[0] == 10 && bytes[2] == 94
    ensures bytes[1] == 3 ==> BothReturn(h, pool, arguments, bytes, Undefined)
    ensures 4 <= bytes[1] < 128 && bytes[1] as int - 4 < |arguments| ==>
      BothReturn(h, pool, arguments, bytes, arguments[bytes[1] as int - 4])
    ensures 128 <= bytes[1] <= 250 && arguments == [] ==> BothReturn(h, pool, arguments, bytes, Undefined)
  {
    RegisterLoaded(h, pool, arguments, bytes);
    ArgumentsAreInSlots(Undefined, arguments, |arguments|, SlotOf(bytes[1]));
  }

  /** With a receiver both tiers return it for `Ldar 3; Return`; the graph takes it as its first argument. */
  lemma ReceiverLoads(h: Host, pool: seq<ConstantValue>, receiver: Value, arguments: seq<Value>, bytes: seq<uint8>)
    requires bytes == [10, 3, 94]
    ensures Interpret(h, pool, receiver, arguments, bytes) == Returned(receiver)
    ensures Accepted(bytes, 0, false) && LoadedBeforeRead(bytes, 0, false)
    ensures GraphBuilder.StateOk(Built(h, pool, bytes))
    ensures Result(h, Built(h, pool, bytes).nodes, Built(h, pool, bytes).returnIds, [receiver] + arguments) == receiver
  {
    AcceptedReturn(bytes, 2);
    AcceptedInstruction(bytes, 0, Ldar);
    var args, f := [receiver] + arguments, InitialFrame(receiver, arguments);
    RanFromTheStart(h, pool, args, bytes);
    RanLdar(h, pool, args, INITIAL_MACHINE, bytes, 0);
    RanReturn(h, pool, args, Load(INITIAL_MACHINE, receiver), bytes, 2);
    BuiltGraphRunsLoadedCode(h, pool, args, bytes);
    ArgumentsAreInSlots(receiver, arguments, |arguments|, 0);
    LdarStep(h, pool, bytes, f, 0);
    InterpretedReturn(h, pool, bytes, f.(accumulator := receiver), 2);
  }

  // ---- Stores -------------------------------------------------------------------------------

  /** `LdaSmi n; <store>; LdaZero; Ldar r; Return`: a store that writes register `r`. */
  lemma LongStore(h: Host, pool: seq<ConstantValue>, bytes: seq<uint8>)
    requires |bytes| == 8 && bytes[0] == 3 && bytes[2] == 14 && bytes[4] == 2
    requires bytes[5] == 10 && bytes[6] == bytes[3] && bytes[7] == 94
    ensures BothReturn(h, pool, [], bytes, Immediate(bytes[1]))
  {
    StoreOpcode(h, pool, bytes, Star, bytes[6]);
  }

  /** The short stores 20 to 35 write the registers of operands 250 down to 235. */
  lemma ShortStores(h: Host, pool: seq<ConstantValue>, bytes: seq<uint8>)
    requires |bytes| == 7 && bytes[0] == 3 && 20 <= bytes[2] <= 35 && bytes[3] == 2
    requires bytes[4] == 10 && bytes[5] == 250 - (bytes[2] - 20) && bytes[6] == 94
    ensures BothReturn(h, pool, [], bytes, Immediate(bytes[1]))
  {
    StoreOpcode(h, pool, bytes, ShortStar(bytes[2] as nat - 20), bytes[5]);
  }

  /** `LdaSmi n; Star r0; Mov r0 r1; LdaZero; Ldar r1; Return`. */
  lemma Moves(h: Host, pool: seq<ConstantValue>, bytes: seq<uint8>)
    requires |bytes| == 11 && bytes[0] == 3 && bytes[2] == 14 && bytes[3] == 250
    requires bytes[4] == 36 && bytes[5] == 250 && bytes[6] == 249
    requires bytes[7] == 2 && bytes[8] == 10 && bytes[9] == 249 && bytes[10] == 94
    ensures BothReturn(h, pool, [], bytes, Immediate(bytes[1]))
  {
    MoveOpcode(h, pool, bytes);
  }

  // ---- Negation -----------------------------------------------------------------------------

  /** `Ldar a1; Negate; Return`: the graph tier steps over a feedback byte, which the interpreter runs; with
      a second `Return` in its place both return the negation of their tier. */
  lemma Negations(h: Host, pool: seq<ConstantValue>, x: Value, bytes: seq<uint8>)
    requires |bytes| == 5 && bytes[0] == 10 && bytes[1] == 4 && bytes[2] == 63 && bytes[3] == 94 && bytes[4] == 94
    ensures CompiledReturns(h, pool, [x], bytes, Number(FloatNegate(ToNumber(h, x))))
    ensures x.Smi? && x.n != 0 && x.n != -0x8000_0000 ==> InterpretedReturns(h, pool, [x], bytes, Smi(-x.n))
    ensures x == Smi(0) ==> InterpretedReturns(h, pool, [x], bytes, Number(NegZero))
    ensures x == Smi(-0x8000_0000) ==> InterpretedReturns(h, pool, [x], bytes, Number(Finite(2147483648.0)))
    ensures x.BigInt? ==> InterpretedReturns(h, pool, [x], bytes, BigInt(-x.i))
    ensures !x.Smi? && !x.BigInt? ==> InterpretedReturns(h, pool, [x], bytes, Number(FloatNegate(ToNumber(h, x))))
  {
    NegateOpcode(h, pool, x, bytes);
  }

  // ---- Everything else ----------------------------------------------------------------------

  /** The bytes that start an instruction of the optimizing tier. */
  predicate IsSupported(code: int) {
    || code in {2, 3, 4, 5, 7, 8, 9, 10, 14, 36, 63, 94} || 20 <= code <= 35
    || 37 <= code <= 41 || 43 <= code <= 47 || 49 <= code <= 53 || 55 <= code <= 59 || 71 <= code <= 76
  }

  lemma OthersAreRefused(h: Host, pool: seq<ConstantValue>, arguments: seq<Value>, bytes: seq<uint8>)
    requires |bytes| > 0 && !IsSupported(bytes[0] as int)
    ensures !Accepted(bytes, 0, false)
    ensures Interpret(h, pool, Undefined, arguments, bytes) == if bytes[0] >= 131 then UnknownOpcode(0) else BeyondModel
  {
  }

  /** How many bytes an instruction takes in the optimizing tier. */
  function InstructionLength(code: int): nat {
    if code in {3, 9, 10, 14, 63} then 2
    else if code == 36 || 37 <= code <= 59 || 71 <= code <= 76 then 3
    else 1
  }

  /** Instructions one after the other, all of them supported, up to the only return at the very end. */
  predicate IsStraightLine(bytes: seq<uint8>, at: nat)
    decreases |bytes| - at
  {
    && at < |bytes| && IsSupported(bytes[at] as int)
    && if bytes[at] == 94 then at + 1 == |bytes| else IsStraightLine(bytes, at + InstructionLength(bytes[at] as int))
  }

  lemma InstructionIs(code: uint8)
    ensures IsSupported(code as int) <==> FromByte(code).Some? && !FromByte(code).value.Unsupported?
    ensures IsSupported(code as int) ==>
      && InstructionLength(code as int) == 1 + OperandCount(FromByte(code).value)
      && (code == 94 <==> FromByte(code).value.Return?)
    ensures InstructionLength(94) == 1 && IsSupported(94)
  {
  }

  /** `can_compile` says yes to straight-line code of supported instructions and to nothing else. */
  lemma {:induction false} AcceptedFromIff(bytes: seq<uint8>, at: nat)
    requires at <= |bytes|
    ensures Accepted(bytes, at, false) <==> IsStraightLine(bytes, at)
    decreases |bytes| - at
  {
    hide FromByte, OperandCount, IsSupported, InstructionLength;
    assert Accepted(bytes, |bytes|, true) && !Accepted(bytes, |bytes|, false);
    if at < |bytes| {
      InstructionIs(bytes[at]);
      if IsSupported(bytes[at] as int) && bytes[at] != 94 && at + InstructionLength(bytes[at] as int) <= |bytes| {
        AcceptedFromIff(bytes, at + InstructionLength(bytes[at] as int));
      }
    }
  }

  lemma AcceptedIff(bytes: seq<uint8>)
    ensures Accepted(bytes, 0, false) <==> IsStraightLine(bytes, 0)
  {
    AcceptedFromIff(bytes, 0);
  }

  /** The interpreter returns the accumulator at the end of code without a return, and stops at a byte that is
      no opcode. The optimizing tier takes neither. */
  lemma EndsWithoutReturn(h: Host, pool: seq<ConstantValue>, receiver: Value, arguments: seq<Value>, bytes: seq<uint8>)
    requires |bytes| >= 2 && bytes[0] == 3
    ensures |bytes| == 2 ==> Interpret(h, pool, receiver, arguments, bytes) == Returned(Immediate(bytes[1]))
    ensures |bytes| == 3 && bytes[2] >= 131 ==> Interpret(h, pool, receiver, arguments, bytes) == UnknownOpcode(2)
    ensures |bytes| == 2 || (|bytes| == 3 && bytes[2] >= 131) ==> !Accepted(bytes, 0, false)
  {
    var f := InitialFrame(receiver, arguments);
    if |bytes| <= 3 {
      AcceptedIff(bytes);
      OneInstruction(h, pool, bytes, f, 0);
    }
  }

  // ---- The order of strings -----------------------------------------------------------------

  /** The strings differ first at `k`, where `s` ends or is less. */
  predicate LessAt(s: string, t: string, k: nat) {
    && k <= |s| && k < |t|
    && (forall j :: 0 <= j < k ==> s[j] == t[j])
    && (k == |s| || s[k] < t[k])
  }

  /** The interpreter orders strings by their first difference. */
  lemma {:induction false} TextLessIff(s: string, t: string)
    ensures TextLess(s, t) <==> exists k: nat :: LessAt(s, t, k)
  {
    if s == "" || t == "" || s[0] != t[0] {
      assert TextLess(s, t) ==> LessAt(s, t, 0);
    } else {
      TextLessIff(s[1..], t[1..]);
      if TextLess(s[1..], t[1..]) {
        var k: nat :| LessAt(s[1..], t[1..], k);
        LessOneLater(s, t, k);
      }
      if k: nat :| LessAt(s, t, k) {
        LessOneLater(s, t, k - 1);
      }
    }
  }

  lemma LessOneLater(s: string, t: string, k: nat)
    requires s != "" && t != "" && s[0] == t[0]
    ensures LessAt(s, t, k + 1) <==> LessAt(s[1..], t[1..], k)
  {
    if LessAt(s[1..], t[1..], k) {
      forall j | 0 <= j < k + 1 ensures s[j] == t[j] {
        if j > 0 { assert s[1..][j - 1] == t[1..][j - 1]; }
      }
    }
  }

  /** Big integers it compares exactly, also with small ones. */
  lemma ExactOrder(h: Host, i: int, j: int, n: int32)
    ensures TestLess(h, BigInt(i), BigInt(j)) <==> i < j
    ensures TestAtMost(h, BigInt(i), BigInt(j)) <==> i <= j
    ensures TestLess(h, BigInt(i), Smi(n)) <==> i < n as int
    ensures TestLess(h, Smi(n), BigInt(i)) <==> (n as int) < i
    ensures TestAtMost(h, BigInt(i), Smi(n)) <==> i <= n as int
    ensures TestAtMost(h, Smi(n), BigInt(i)) <==> n as int <= i
  {
  }
}
