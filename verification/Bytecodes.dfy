/** The bytecodes the optimizing tier accepts, and a machine that runs them. */
module Bytecodes {
  // The opcodes are those of src/interpreter/bytecodes.rs, the register operands those of
  // src/interpreter/bytecode_register.rs. The reference machine runs accepted code instruction by
  // instruction.

  import opened Options
  import opened Values
  import opened Nodes
  import Pipeline

  newtype uint8 = x: int | 0 <= x < 256

  const BYTECODE_COUNT := 131
  const USIZE_MODULUS: nat := 0x1_0000_0000_0000_0000

  /** Operations with an accumulator operand and a second operand. */
  datatype Operation =
    | OpAdd | OpSub | OpMul | OpDiv | OpMod
    | OpBitwiseOr | OpBitwiseXor | OpBitwiseAnd | OpShiftLeft | OpShiftRight
    | OpTestEqual | OpTestEqualStrict | OpTestLessThan | OpTestGreaterThan
    | OpTestLessThanOrEqual | OpTestGreaterThanOrEqual

  datatype Bytecode =
    | LdaZero | LdaSmi | LdaUndefined | LdaNull | LdaTrue | LdaFalse | LdaConstant
    | Ldar | Star | ShortStar(index: nat) | Mov
    | WithRegister(operation: Operation)
    | WithSmi(smiOperation: Operation)
    | Negate
    | Return
    | Unsupported

  /** The arithmetic operations stand in one order from opcode 37 with a register operand and from
      opcode 49 with an immediate one; the sixth of them, `Exp`, is not supported. */
  function ArithmeticAt(index: nat): Operation {
    match index
    case 0 => OpAdd
    case 1 => OpSub
    case 2 => OpMul
    case 3 => OpDiv
    case 4 => OpMod
    case 6 => OpBitwiseOr
    case 7 => OpBitwiseXor
    case 8 => OpBitwiseAnd
    case 9 => OpShiftLeft
    case _ => OpShiftRight
  }

  function TestAt(index: nat): Operation {
    match index
    case 0 => OpTestEqual
    case 1 => OpTestEqualStrict
    case 2 => OpTestLessThan
    case 3 => OpTestGreaterThan
    case 4 => OpTestLessThanOrEqual
    case _ => OpTestGreaterThanOrEqual
  }

  /** The opcode table; bytes past the last bytecode decode to nothing. */
  function FromByte(byte: uint8): Option<Bytecode> {
    var code := byte as int;
    if code >= BYTECODE_COUNT then None
    else if code == 2 then Some(LdaZero)
    else if code == 3 then Some(LdaSmi)
    else if code == 4 then Some(LdaUndefined)
    else if code == 5 then Some(LdaNull)
    else if code == 7 then Some(LdaTrue)
    else if code == 8 then Some(LdaFalse)
    else if code == 9 then Some(LdaConstant)
    else if code == 10 then Some(Ldar)
    else if code == 14 then Some(Star)
    else if 20 <= code <= 35 then Some(ShortStar(code - 20))
    else if code == 36 then Some(Mov)
    else if 37 <= code <= 47 && code != 42 then Some(WithRegister(ArithmeticAt(code - 37)))
    else if 49 <= code <= 59 && code != 54 then Some(WithSmi(ArithmeticAt(code - 49)))
    else if code == 63 then Some(Bytecode.Negate)
    else if 71 <= code <= 76 then Some(WithRegister(TestAt(code - 71)))
    else if code == 94 then Some(Bytecode.Return)
    else Some(Unsupported)
  }

  /** Operand bytes after the opcode: the second byte of an operation is its feedback slot. */
  function OperandCount(bc: Bytecode): nat {
    match bc
    case LdaSmi => 1
    case LdaConstant => 1
    case Ldar => 1
    case Star => 1
    case Mov => 2
    case WithRegister(_) => 2
    case WithSmi(_) => 2
    case Negate => 1
    case _ => 0
  }

  /** The operand bytes an instruction looks at; feedback slots are stepped over unread. */
  function OperandsRead(bc: Bytecode): (n: nat)
    ensures n <= OperandCount(bc)
  {
    match bc
    case LdaSmi => 1
    case LdaConstant => 1
    case Ldar => 1
    case Star => 1
    case Mov => 2
    case WithRegister(_) => 1
    case WithSmi(_) => 1
    case _ => 0
  }

  /** `byte as i8` */
  function Signed(byte: uint8): int {
    if byte < 128 then byte as int else byte as int - 256
  }

  datatype Register = Register(index: int)
  {
    predicate IsParameter() { index < 0 }

    /** `(FIRST_PARAM_REGISTER_INDEX - index) as usize`, which wraps for the frame slots -8..-1. */
    function ParameterIndex(): nat
      requires -0x1_0000_0000 < index < 0
    {
      var i := -9 - index;
      if i >= 0 then i else i + USIZE_MODULUS
    }
  }

  function FromOperand(operand: uint8): (r: Register)
    ensures -133 <= r.index <= 122
  {
    Register(-6 - Signed(operand))
  }

  type SmallRegister = r: Register | -133 <= r.index <= 122 witness Register(0)

  /** `to_operand`, as the byte the emitter writes. */
  function ToOperand(reg: SmallRegister): uint8 {
    var operand := -6 - reg.index;
    (if operand < 0 then operand + 256 else operand) as uint8
  }

  /** The bytes and the registers name each other one to one. */
  lemma OperandRoundTrip(reg: SmallRegister, operand: uint8)
    ensures FromOperand(ToOperand(reg)) == reg
    ensures ToOperand(FromOperand(operand)) == operand
  {
  }

  /** Entries of the constant pool (src/interpreter/bytecode_array.rs). */
  datatype ConstantValue =
    | PoolSmi(n: int32) | PoolNumber(f: Float) | PoolString(s: string) | PoolBoolean(b: bool)
    | PoolNull | PoolUndefined | PoolBigInt(digits: string)

  /** The constant at an index, undefined past the end; an unreadable big integer is zero. */
  function PoolValue(h: Host, pool: seq<ConstantValue>, index: nat): Value {
    if index >= |pool| then Undefined
    else
      match pool[index]
      case PoolSmi(n) => Smi(n)
      case PoolNumber(f) => Number(f)
      case PoolString(s) => Str(s)
      case PoolBoolean(b) => Boolean(b)
      case PoolNull => Null
      case PoolUndefined => Undefined
      case PoolBigInt(digits) =>
        var parsed := h.parseBigInt(digits);
        BigInt(if parsed.Some? then parsed.value else 0)
  }

  // ---- Running accepted code ----------------------------------------------------------------

  /** Registers that were never written are undefined; parameters that were never written are the
      arguments. `accumulator` is absent until an instruction loads it. */
  datatype Machine = Machine(
    accumulator: Option<Value>, registers: map<int, Value>, parameters: map<nat, Value>, result: Option<Value>)

  /** What reading an accumulator that was never loaded does. */
  datatype Unloaded = SkipInstruction | ReadUndefined

  function ReadRegister(m: Machine, args: seq<Value>, reg: SmallRegister): Value {
    if reg.IsParameter() then ReadParameter(m, args, reg.ParameterIndex()) else ReadLocal(m, reg.index)
  }

  function ReadParameter(m: Machine, args: seq<Value>, index: nat): Value {
    if index in m.parameters then m.parameters[index]
    else if index < |args| then args[index]
    else Undefined
  }

  function ReadLocal(m: Machine, index: int): Value {
    if index in m.registers then m.registers[index] else Undefined
  }

  function WriteRegister(m: Machine, reg: SmallRegister, v: Value): Machine {
    if reg.IsParameter() then m.(parameters := m.parameters[reg.ParameterIndex() := v])
    else m.(registers := m.registers[reg.index := v])
  }

  /** The graph operation of a bytecode operation. */
  function GraphOperation(op: Operation): BinaryOp {
    match op
    case OpAdd => BinaryOp.Add
    case OpSub => Sub
    case OpMul => Mul
    case OpDiv => Div
    case OpMod => Mod
    case OpBitwiseOr => BitOr
    case OpBitwiseXor => BitXor
    case OpBitwiseAnd => BitAnd
    case OpShiftLeft => ShiftLeft
    case OpShiftRight => ShiftRight
    case OpTestEqual => CompareEqual
    case OpTestEqualStrict => CompareStrictEqual
    case OpTestLessThan => CompareLessThan
    case OpTestGreaterThan => CompareGreaterThan
    case OpTestLessThanOrEqual => CompareLessThanOrEqual
    case OpTestGreaterThanOrEqual => CompareGreaterThanOrEqual
  }

  /** An operation as the graph tier evaluates it; the accumulator is the left operand. */
  function Operate(h: Host, op: Operation, acc: Value, operand: Value): Value {
    Pipeline.EvaluateBinary(h, GraphOperation(op), acc, operand)
  }

  function Accumulator(m: Machine): Value {
    if m.accumulator.Some? then m.accumulator.value else Undefined
  }

  predicate Skips(m: Machine, mode: Unloaded) {
    m.accumulator.None? && mode == SkipInstruction
  }

  function Load(m: Machine, v: Value): Machine { m.(accumulator := Some(v)) }

  /** One instruction; `at` is the position after its opcode, its operands are in bounds. */
  function RunInstruction(h: Host, mode: Unloaded, pool: seq<ConstantValue>, args: seq<Value>, m: Machine,
                          bc: Bytecode, bytes: seq<uint8>, at: nat): Machine
    requires at + OperandCount(bc) <= |bytes|
  {
    match bc
    case LdaZero => Load(m, Smi(0))
    case LdaUndefined => Load(m, Undefined)
    case LdaNull => Load(m, Null)
    case LdaTrue => Load(m, Boolean(true))
    case LdaFalse => Load(m, Boolean(false))
    case LdaSmi => Load(m, Smi(Signed(bytes[at]) as int32))
    case LdaConstant => Load(m, PoolValue(h, pool, bytes[at] as nat))
    case Ldar => Load(m, ReadRegister(m, args, FromOperand(bytes[at])))
    case Mov => WriteRegister(m, FromOperand(bytes[at + 1]), ReadRegister(m, args, FromOperand(bytes[at])))
    case Return => m.(result := Some(Accumulator(m)))
    case Star => if Skips(m, mode) then m else WriteRegister(m, FromOperand(bytes[at]), Accumulator(m))
    case ShortStar(index) =>
      if Skips(m, mode) then m else m.(registers := m.registers[index := Accumulator(m)])
    case WithRegister(op) =>
      if Skips(m, mode) then m
      else Load(m, Operate(h, op, Accumulator(m), ReadRegister(m, args, FromOperand(bytes[at]))))
    case WithSmi(op) =>
      if Skips(m, mode) then m
      else Load(m, Operate(h, op, Accumulator(m), Smi(Signed(bytes[at]) as int32)))
    case Negate =>
      if Skips(m, mode) then m else Load(m, Pipeline.EvaluateUnary(h, UnaryOp.Negate, Accumulator(m)))
    case Unsupported => m
  }

  function DecodedAt(bytes: seq<uint8>, at: nat): Option<Bytecode> {
    if at < |bytes| then FromByte(bytes[at]) else None
  }

  /** No operand the builder reads lies past the end; it steps over bytes that decode to nothing. */
  predicate Complete(bytes: seq<uint8>, at: nat)
    decreases |bytes| - at
  {
    at >= |bytes| ||
    match FromByte(bytes[at])
    case None => Complete(bytes, at + 1)
    case Some(bc) => at + 1 + OperandsRead(bc) <= |bytes| && Complete(bytes, at + 1 + OperandCount(bc))
  }

  /** Straight-line code of supported instructions with all operands present, ending in its only
      return. */
  predicate Accepted(bytes: seq<uint8>, at: nat, returned: bool): (accepted: bool)
    requires at <= |bytes|
    ensures accepted ==> Complete(bytes, at)
    decreases |bytes| - at
  {
    match DecodedAt(bytes, at)
    case None => at == |bytes| && returned
    case Some(bc) =>
      && !bc.Unsupported?
      && at + 1 + OperandCount(bc) <= |bytes|
      && (bc.Return? ==> at + 1 == |bytes|)
      && Accepted(bytes, at + 1 + OperandCount(bc), returned || bc.Return?)
  }

  /** Runs accepted code from `at`. */
  function RunFrom(h: Host, mode: Unloaded, pool: seq<ConstantValue>, args: seq<Value>, m: Machine,
                   bytes: seq<uint8>, at: nat, returned: bool): Machine
    requires at <= |bytes| && Accepted(bytes, at, returned)
    decreases |bytes| - at
  {
    if at == |bytes| then m
    else
      var bc := FromByte(bytes[at]).value;
      RunFrom(h, mode, pool, args, RunInstruction(h, mode, pool, args, m, bc, bytes, at + 1),
              bytes, at + 1 + OperandCount(bc), returned || bc.Return?)
  }

  const INITIAL_MACHINE := Machine(None, map[], map[], None)

  predicate LoadsAccumulator(bc: Bytecode) {
    match bc
    case LdaZero => true
    case LdaSmi => true
    case LdaUndefined => true
    case LdaNull => true
    case LdaTrue => true
    case LdaFalse => true
    case LdaConstant => true
    case Ldar => true
    case _ => false
  }

  predicate ReadsAccumulator(bc: Bytecode) {
    bc.Star? || bc.ShortStar? || bc.WithRegister? || bc.WithSmi? || bc.Negate?
  }

  /** No instruction but the return reads the accumulator before one has loaded it. */
  predicate LoadedBeforeRead(bytes: seq<uint8>, at: nat, returned: bool)
    requires at <= |bytes| && Accepted(bytes, at, returned)
    decreases |bytes| - at
  {
    at == |bytes|
    || var bc := FromByte(bytes[at]).value;
       LoadsAccumulator(bc)
       || (!ReadsAccumulator(bc)
           && LoadedBeforeRead(bytes, at + 1 + OperandCount(bc), returned || bc.Return?))
  }

  /** With the accumulator loaded an instruction runs alike in both modes and leaves it loaded. */
  lemma LoadedRunsAlike(h: Host, pool: seq<ConstantValue>, args: seq<Value>, m: Machine,
                        bc: Bytecode, bytes: seq<uint8>, at: nat)
    requires at + OperandCount(bc) <= |bytes| && m.accumulator.Some?
    ensures RunInstruction(h, SkipInstruction, pool, args, m, bc, bytes, at)
         == RunInstruction(h, ReadUndefined, pool, args, m, bc, bytes, at)
    ensures RunInstruction(h, SkipInstruction, pool, args, m, bc, bytes, at).accumulator.Some?
  {
  }

  lemma {:induction false} LoadedStaysLoaded(h: Host, pool: seq<ConstantValue>, args: seq<Value>, m: Machine,
                                             bytes: seq<uint8>, at: nat, returned: bool)
    requires at <= |bytes| && Accepted(bytes, at, returned) && m.accumulator.Some?
    ensures RunFrom(h, SkipInstruction, pool, args, m, bytes, at, returned)
         == RunFrom(h, ReadUndefined, pool, args, m, bytes, at, returned)
    decreases |bytes| - at
  {
    if at < |bytes| {
      var bc := FromByte(bytes[at]).value;
      LoadedRunsAlike(h, pool, args, m, bc, bytes, at + 1);
      LoadedStaysLoaded(h, pool, args, RunInstruction(h, SkipInstruction, pool, args, m, bc, bytes, at + 1),
                        bytes, at + 1 + OperandCount(bc), returned || bc.Return?);
    }
  }

  /** So does one that does not read the accumulator; a load leaves it loaded. */
  lemma UnreadRunsAlike(h: Host, pool: seq<ConstantValue>, args: seq<Value>, m: Machine,
                        bc: Bytecode, bytes: seq<uint8>, at: nat)
    requires at + OperandCount(bc) <= |bytes| && !ReadsAccumulator(bc)
    ensures RunInstruction(h, SkipInstruction, pool, args, m, bc, bytes, at)
         == RunInstruction(h, ReadUndefined, pool, args, m, bc, bytes, at)
    ensures LoadsAccumulator(bc) ==> RunInstruction(h, SkipInstruction, pool, args, m, bc, bytes, at).accumulator.Some?
  {
  }

  /** On code that loads the accumulator before reading it, what an unloaded read does is moot. */
  lemma {:induction false} LoadedBeforeReadDecides(h: Host, pool: seq<ConstantValue>, args: seq<Value>, m: Machine,
                                                   bytes: seq<uint8>, at: nat, returned: bool)
    requires at <= |bytes| && Accepted(bytes, at, returned) && LoadedBeforeRead(bytes, at, returned)
    ensures RunFrom(h, SkipInstruction, pool, args, m, bytes, at, returned)
         == RunFrom(h, ReadUndefined, pool, args, m, bytes, at, returned)
    decreases |bytes| - at
  {
    if m.accumulator.Some? {
      LoadedStaysLoaded(h, pool, args, m, bytes, at, returned);
    } else if at < |bytes| {
      var bc := FromByte(bytes[at]).value;
      var next := RunInstruction(h, SkipInstruction, pool, args, m, bc, bytes, at + 1);
      UnreadRunsAlike(h, pool, args, m, bc, bytes, at + 1);
      if LoadsAccumulator(bc) {
        LoadedStaysLoaded(h, pool, args, next, bytes, at + 1 + OperandCount(bc), returned || bc.Return?);
      } else {
        LoadedBeforeReadDecides(h, pool, args, next, bytes, at + 1 + OperandCount(bc), returned || bc.Return?);
      }
    }
  }

  /** A return leaves a result, and no other instruction takes one away. */
  lemma InstructionKeepsResult(h: Host, mode: Unloaded, pool: seq<ConstantValue>, args: seq<Value>, m: Machine,
                               bc: Bytecode, bytes: seq<uint8>, at: nat)
    requires at + OperandCount(bc) <= |bytes|
    ensures
      var next := RunInstruction(h, mode, pool, args, m, bc, bytes, at);
      if bc.Return? then next.result == Some(Accumulator(m)) else next.result == m.result
  {
  }

  /** Accepted code ends in its return. */
  lemma {:induction false} AcceptedCodeReturns(h: Host, mode: Unloaded, pool: seq<ConstantValue>, args: seq<Value>,
                                               m: Machine, bytes: seq<uint8>, at: nat, returned: bool)
    requires at <= |bytes| && Accepted(bytes, at, returned)
    requires returned ==> m.result.Some?
    ensures RunFrom(h, mode, pool, args, m, bytes, at, returned).result.Some?
    decreases |bytes| - at
  {
    if at < |bytes| {
      var bc := FromByte(bytes[at]).value;
      var next := RunInstruction(h, mode, pool, args, m, bc, bytes, at + 1);
      InstructionKeepsResult(h, mode, pool, args, m, bc, bytes, at + 1);
      AcceptedCodeReturns(h, mode, pool, args, next, bytes, at + 1 + OperandCount(bc), returned || bc.Return?);
    }
  }
}
