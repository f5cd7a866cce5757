/** Short code and what it returns in the two tiers. */
module ShortCode {
  import opened Options
  import opened Values
  import opened Pipeline
  import opened Bytecodes
  import opened Comparisons
  import opened Interpreter
  import opened BuiltGraphs
  import opened InterpreterAgreement
  import opened TierDifferences
  import GraphBuilder

  /** The code is accepted, and executing the graph built from it on these arguments returns `v`. */
  ghost predicate CompiledReturns(h: Host, pool: seq<ConstantValue>, arguments: seq<Value>, bytes: seq<uint8>,
                                  v: Value) {
    && Accepted(bytes, 0, false) && LoadedBeforeRead(bytes, 0, false)
    && GraphBuilder.StateOk(Built(h, pool, bytes))
    && Result(h, Built(h, pool, bytes).nodes, Built(h, pool, bytes).returnIds, [Undefined] + arguments) == v
  }

  ghost predicate InterpretedReturns(h: Host, pool: seq<ConstantValue>, arguments: seq<Value>, bytes: seq<uint8>,
                                     v: Value) {
    Interpret(h, pool, Undefined, arguments, bytes) == Returned(v)
  }

  ghost predicate BothReturn(h: Host, pool: seq<ConstantValue>, arguments: seq<Value>, bytes: seq<uint8>, v: Value) {
    CompiledReturns(h, pool, arguments, bytes, v) && InterpretedReturns(h, pool, arguments, bytes, v)
  }

  /** `Ldar a1; <code> a2; Return`, with any feedback byte. */
  predicate OnArguments(bytes: seq<uint8>) {
    |bytes| == 6 && bytes[0] == 10 && bytes[1] == 4 && bytes[3] == 5 && bytes[5] == 94
  }

  /** `Ldar a1; <code> imm; Return`, with any feedback byte. */
  predicate WithImmediate(bytes: seq<uint8>) {
    |bytes| == 6 && bytes[0] == 10 && bytes[1] == 4 && bytes[5] == 94
  }

  /** The small integer that a byte stands for. */
  function Immediate(byte: uint8): Value {
    Smi(if byte < 128 then byte as int32 else byte as int32 - 256)
  }

  lemma RanIsCompiled(h: Host, pool: seq<ConstantValue>, arguments: seq<Value>, bytes: seq<uint8>, v: Value)
    requires Accepted(bytes, 0, false) && LoadedBeforeRead(bytes, 0, false)
    requires Ran(h, ReadUndefined, pool, [Undefined] + arguments, bytes) == v
    ensures CompiledReturns(h, pool, arguments, bytes, v)
  {
    BuiltGraphRunsLoadedCode(h, pool, [Undefined] + arguments, bytes);
  }

  lemma RegisterOpcode(h: Host, pool: seq<ConstantValue>, x: Value, y: Value, bytes: seq<uint8>, op: Operation)
    requires AppliesTo(bytes, op)
    ensures CompiledReturns(h, pool, [x, y], bytes, Operate(h, op, x, y))
    ensures InterpretedReturns(h, pool, [x, y], bytes, Interpreted(h, op, x, y))
  {
    OperationIsAccepted(bytes, op);
    OperationRan(h, pool, x, y, bytes, op);
    assert [Undefined] + [x, y] == [Undefined, x, y];
    RanIsCompiled(h, pool, [x, y], bytes, Operate(h, op, x, y));
    OperationInterpreted(h, pool, x, y, bytes, op);
  }

  lemma ImmediateOpcode(h: Host, pool: seq<ConstantValue>, x: Value, bytes: seq<uint8>, op: Operation)
    requires WithImmediate(bytes) && FromByte(bytes[2]) == Some(WithSmi(op))
    ensures CompiledReturns(h, pool, [x], bytes, Operate(h, op, x, Immediate(bytes[3])))
    ensures InterpretedReturns(h, pool, [x], bytes, Interpreted(h, op, x, Immediate(bytes[3])))
  {
    AcceptedReturn(bytes, 5);
    AcceptedInstruction(bytes, 2, WithSmi(op));
    AcceptedInstruction(bytes, 0, Ldar);
    ImmediateRan(h, pool, [Undefined] + [x], bytes, op);
    RanIsCompiled(h, pool, [x], bytes, Operate(h, op, x, Immediate(bytes[3])));
    ImmediateInterpreted(h, pool, x, bytes, op);
  }

  lemma ImmediateRan(h: Host, pool: seq<ConstantValue>, args: seq<Value>, bytes: seq<uint8>, op: Operation)
    requires WithImmediate(bytes) && FromByte(bytes[2]) == Some(WithSmi(op)) && Accepted(bytes, 0, false)
    requires |args| == 2
    ensures Ran(h, ReadUndefined, pool, args, bytes) == Operate(h, op, args[1], Immediate(bytes[3]))
  {
    var loaded := Load(INITIAL_MACHINE, args[1]);
    RanFromTheStart(h, pool, args, bytes);
    RanLdar(h, pool, args, INITIAL_MACHINE, bytes, 0);
    RanInstruction(h, pool, args, loaded, WithSmi(op), bytes, 2);
    RanReturn(h, pool, args, Load(loaded, Operate(h, op, args[1], Immediate(bytes[3]))), bytes, 5);
  }

  lemma ImmediateInterpreted(h: Host, pool: seq<ConstantValue>, x: Value, bytes: seq<uint8>, op: Operation)
    requires WithImmediate(bytes) && FromByte(bytes[2]) == Some(WithSmi(op))
    ensures InterpretedReturns(h, pool, [x], bytes, Interpreted(h, op, x, Immediate(bytes[3])))
  {
    var f := InitialFrame(Undefined, [x]);
    ArgumentsAreInSlots(Undefined, [x], 1, 1);
    LdarStep(h, pool, bytes, f, 0);
    ImmediateThenReturn(h, pool, bytes, f.(accumulator := x), op);
  }

  lemma ImmediateThenReturn(h: Host, pool: seq<ConstantValue>, bytes: seq<uint8>, f: Frame, op: Operation)
    requires WithImmediate(bytes) && FromByte(bytes[2]) == Some(WithSmi(op))
    ensures InterpretFrom(h, pool, bytes, f, 2) == Returned(Interpreted(h, op, f.accumulator, Immediate(bytes[3])))
  {
    InterpretedInstruction(h, pool, bytes, f, WithSmi(op), 2);
    InterpretedReturn(h, pool, bytes, f.(accumulator := Interpreted(h, op, f.accumulator, Immediate(bytes[3]))), 5);
  }

  lemma LoadOpcode(h: Host, pool: seq<ConstantValue>, arguments: seq<Value>, bytes: seq<uint8>, bc: Bytecode, v: Value)
    requires |bytes| > 0 && FromByte(bytes[0]) == Some(bc) && LoadsAccumulator(bc) && !bc.Ldar?
    requires |bytes| == 2 + OperandCount(bc) && bytes[1 + OperandCount(bc)] == 94
    requires RunInstruction(h, ReadUndefined, pool, [Undefined] + arguments, INITIAL_MACHINE, bc, bytes, 1)
          == Load(INITIAL_MACHINE, v)
    requires Executed(h, pool, InitialFrame(Undefined, arguments), bc, bytes, 1)
          == InitialFrame(Undefined, arguments).(accumulator := v)
    ensures BothReturn(h, pool, arguments, bytes, v)
  {
    var at := 1 + OperandCount(bc);
    AcceptedReturn(bytes, at);
    AcceptedInstruction(bytes, 0, bc);
    var args, f := [Undefined] + arguments, InitialFrame(Undefined, arguments);
    RanInstruction(h, pool, args, INITIAL_MACHINE, bc, bytes, 0);
    RanReturn(h, pool, args, Load(INITIAL_MACHINE, v), bytes, at);
    RanFromTheStart(h, pool, args, bytes);
    RanIsCompiled(h, pool, arguments, bytes, v);
    InterpretedInstruction(h, pool, bytes, f, bc, 0);
    InterpretedReturn(h, pool, bytes, f.(accumulator := v), at);
  }

  lemma RegisterLoaded(h: Host, pool: seq<ConstantValue>, arguments: seq<Value>, bytes: seq<uint8>)
    requires |bytes| == 3 && bytes[0] == 10 && bytes[2] == 94
    ensures CompiledReturns(h, pool, arguments, bytes,
              ReadRegister(INITIAL_MACHINE, [Undefined] + arguments, FromOperand(bytes[1])))
    ensures InterpretedReturns(h, pool, arguments, bytes, Slot(InitialFrame(Undefined, arguments), SlotOf(bytes[1])))
  {
    AcceptedReturn(bytes, 2);
    AcceptedInstruction(bytes, 0, Ldar);
    var args, f := [Undefined] + arguments, InitialFrame(Undefined, arguments);
    var v := ReadRegister(INITIAL_MACHINE, args, FromOperand(bytes[1]));
    RanFromTheStart(h, pool, args, bytes);
    RanLdar(h, pool, args, INITIAL_MACHINE, bytes, 0);
    RanReturn(h, pool, args, Load(INITIAL_MACHINE, v), bytes, 2);
    RanIsCompiled(h, pool, arguments, bytes, v);
    LdarStep(h, pool, bytes, f, 0);
    InterpretedReturn(h, pool, bytes, f.(accumulator := Slot(f, SlotOf(bytes[1]))), 2);
  }

  // ---- Stores, moves and negation -----------------------------------------------------------

  /** From `at`: `LdaZero; Ldar r; Return`. */
  predicate ReadsBack(bytes: seq<uint8>, at: nat, r: uint8) {
    at + 4 == |bytes| && bytes[at] == 2 && bytes[at + 1] == 10 && bytes[at + 2] == r && bytes[at + 3] == 94
  }

  lemma ReadBackRan(h: Host, pool: seq<ConstantValue>, args: seq<Value>, m: Machine, bytes: seq<uint8>, at: nat,
                    r: uint8)
    requires ReadsBack(bytes, at, r)
    ensures Accepted(bytes, at, false) && RanFrom(h, pool, args, m, bytes, at) == ReadRegister(m, args, FromOperand(r))
  {
    AcceptedReturn(bytes, at + 3);
    AcceptedInstruction(bytes, at + 1, Ldar);
    AcceptedInstruction(bytes, at, LdaZero);
    RanInstruction(h, pool, args, m, LdaZero, bytes, at);
    var zero := Load(m, Smi(0));
    RanLdar(h, pool, args, zero, bytes, at + 1);
    RanReturn(h, pool, args, Load(zero, ReadRegister(m, args, FromOperand(r))), bytes, at + 3);
  }

  lemma ReadBackInterpreted(h: Host, pool: seq<ConstantValue>, bytes: seq<uint8>, f: Frame, at: nat, r: uint8)
    requires ReadsBack(bytes, at, r)
    ensures InterpretFrom(h, pool, bytes, f, at) == Returned(Slot(f, SlotOf(r)))
  {
    InterpretedInstruction(h, pool, bytes, f, LdaZero, at);
    var zero := f.(accumulator := Smi(0));
    LdarStep(h, pool, bytes, zero, at + 1);
    InterpretedReturn(h, pool, bytes, zero.(accumulator := Slot(f, SlotOf(r))), at + 3);
  }

  /** The store names register `r` in both tiers. */
  predicate Writes(bc: Bytecode, bytes: seq<uint8>, at: nat, r: uint8)
    requires at + OperandsRead(bc) <= |bytes|
  {
    match bc
    case Star => bytes[at] == r
    case ShortStar(index) => index <= 15 && r as int == 250 - index
    case _ => false
  }

  lemma StoreOpcode(h: Host, pool: seq<ConstantValue>, bytes: seq<uint8>, bc: Bytecode, r: uint8)
    requires |bytes| > 2 && bytes[0] == 3 && FromByte(bytes[2]) == Some(bc)
    requires 3 + OperandCount(bc) <= |bytes| && Writes(bc, bytes, 3, r) && ReadsBack(bytes, 3 + OperandCount(bc), r)
    ensures BothReturn(h, pool, [], bytes, Immediate(bytes[1]))
  {
    var args, m := [Undefined] + [], Load(INITIAL_MACHINE, Immediate(bytes[1]));
    StoreRan(h, pool, args, m, bytes, bc, r);
    AcceptedInstruction(bytes, 0, LdaSmi);
    RanFromTheStart(h, pool, args, bytes);
    RanLdaSmi(h, pool, args, INITIAL_MACHINE, bytes, 0);
    RanIsCompiled(h, pool, [], bytes, Immediate(bytes[1]));
    StoreInterpreted(h, pool, bytes, bc, r);
  }

  lemma StoreRan(h: Host, pool: seq<ConstantValue>, args: seq<Value>, m: Machine, bytes: seq<uint8>, bc: Bytecode,
                 r: uint8)
    requires |bytes| > 2 && FromByte(bytes[2]) == Some(bc) && m.accumulator.Some?
    requires 3 + OperandCount(bc) <= |bytes| && Writes(bc, bytes, 3, r) && ReadsBack(bytes, 3 + OperandCount(bc), r)
    ensures Accepted(bytes, 2, false) && RanFrom(h, pool, args, m, bytes, 2) == Accumulator(m)
  {
    var stored := RunInstruction(h, ReadUndefined, pool, args, m, bc, bytes, 3);
    ReadBackRan(h, pool, args, stored, bytes, 3 + OperandCount(bc), r);
    AcceptedInstruction(bytes, 2, bc);
    RanInstruction(h, pool, args, m, bc, bytes, 2);
  }

  lemma StoreInterpreted(h: Host, pool: seq<ConstantValue>, bytes: seq<uint8>, bc: Bytecode, r: uint8)
    requires |bytes| > 2 && bytes[0] == 3 && FromByte(bytes[2]) == Some(bc)
    requires 3 + OperandCount(bc) <= |bytes| && Writes(bc, bytes, 3, r) && ReadsBack(bytes, 3 + OperandCount(bc), r)
    ensures InterpretedReturns(h, pool, [], bytes, Immediate(bytes[1]))
  {
    var f := InitialFrame(Undefined, []);
    InterpretedLdaSmi(h, pool, bytes, f, 0);
    var loaded := f.(accumulator := Immediate(bytes[1]));
    InterpretedInstruction(h, pool, bytes, loaded, bc, 2);
    ReadBackInterpreted(h, pool, bytes, Executed(h, pool, loaded, bc, bytes, 3), 3 + OperandCount(bc), r);
  }

  /** `LdaSmi n; Star r0; Mov r0 r1; LdaZero; Ldar r1; Return` */
  predicate MovesRegister(bytes: seq<uint8>) {
    && |bytes| == 11 && bytes[0] == 3 && bytes[2] == 14 && bytes[3] == 250
    && bytes[4] == 36 && bytes[5] == 250 && bytes[6] == 249 && ReadsBack(bytes, 7, 249)
  }

  lemma MoveOpcode(h: Host, pool: seq<ConstantValue>, bytes: seq<uint8>)
    requires MovesRegister(bytes)
    ensures BothReturn(h, pool, [], bytes, Immediate(bytes[1]))
  {
    var args, m := [Undefined] + [], Load(INITIAL_MACHINE, Immediate(bytes[1]));
    StoredThenMovedRan(h, pool, args, m, bytes);
    AcceptedInstruction(bytes, 0, LdaSmi);
    RanFromTheStart(h, pool, args, bytes);
    RanLdaSmi(h, pool, args, INITIAL_MACHINE, bytes, 0);
    RanIsCompiled(h, pool, [], bytes, Immediate(bytes[1]));
    MoveInterpreted(h, pool, bytes);
  }

  lemma StoredThenMovedRan(h: Host, pool: seq<ConstantValue>, args: seq<Value>, m: Machine, bytes: seq<uint8>)
    requires MovesRegister(bytes) && m.accumulator.Some?
    ensures Accepted(bytes, 2, false) && RanFrom(h, pool, args, m, bytes, 2) == Accumulator(m)
  {
    MovedRan(h, pool, args, WriteRegister(m, FromOperand(250), Accumulator(m)), bytes);
    AcceptedInstruction(bytes, 2, Star);
    RanInstruction(h, pool, args, m, Star, bytes, 2);
  }

  lemma MovedRan(h: Host, pool: seq<ConstantValue>, args: seq<Value>, m: Machine, bytes: seq<uint8>)
    requires MovesRegister(bytes)
    ensures Accepted(bytes, 4, false)
    ensures RanFrom(h, pool, args, m, bytes, 4) == ReadRegister(m, args, FromOperand(250))
  {
    var moved := WriteRegister(m, FromOperand(249), ReadRegister(m, args, FromOperand(250)));
    ReadBackRan(h, pool, args, moved, bytes, 7, 249);
    AcceptedInstruction(bytes, 4, Mov);
    RanInstruction(h, pool, args, m, Mov, bytes, 4);
  }

  lemma MoveInterpreted(h: Host, pool: seq<ConstantValue>, bytes: seq<uint8>)
    requires MovesRegister(bytes)
    ensures InterpretedReturns(h, pool, [], bytes, Immediate(bytes[1]))
  {
    var f := InitialFrame(Undefined, []);
    InterpretedLdaSmi(h, pool, bytes, f, 0);
    var loaded := f.(accumulator := Immediate(bytes[1]));
    StarStep(h, pool, bytes, loaded, 2);
    MovedInterpreted(h, pool, bytes, Store(loaded, SlotOf(250), loaded.accumulator));
  }

  lemma MovedInterpreted(h: Host, pool: seq<ConstantValue>, bytes: seq<uint8>, f: Frame)
    requires MovesRegister(bytes)
    ensures InterpretFrom(h, pool, bytes, f, 4) == Returned(Slot(f, SlotOf(250)))
  {
    InterpretedInstruction(h, pool, bytes, f, Mov, 4);
    ReadBackInterpreted(h, pool, bytes, Store(f, SlotOf(249), Slot(f, SlotOf(250))), 7, 249);
  }

  /** `Ldar a1; Negate; Return; Return` */
  lemma NegateOpcode(h: Host, pool: seq<ConstantValue>, x: Value, bytes: seq<uint8>)
    requires |bytes| == 5 && bytes[0] == 10 && bytes[1] == 4 && bytes[2] == 63 && bytes[3] == 94 && bytes[4] == 94
    ensures CompiledReturns(h, pool, [x], bytes, Number(FloatNegate(ToNumber(h, x))))
    ensures InterpretedReturns(h, pool, [x], bytes, InterpretNegate(h, x))
  {
    NegatedIsAccepted(bytes);
    NegatedFromTheStart(h, pool, [Undefined] + [x], bytes);
    RanIsCompiled(h, pool, [x], bytes, Number(FloatNegate(ToNumber(h, x))));
    NegationReturned(h, pool, x, bytes);
  }

  lemma NegatedIsAccepted(bytes: seq<uint8>)
    requires |bytes| == 5 && bytes[0] == 10 && bytes[2] == 63 && bytes[4] == 94
    ensures Accepted(bytes, 0, false) && LoadedBeforeRead(bytes, 0, false)
  {
    AcceptedReturn(bytes, 4);
    AcceptedInstruction(bytes, 2, Bytecode.Negate);
    AcceptedInstruction(bytes, 0, Ldar);
  }

  lemma NegatedFromTheStart(h: Host, pool: seq<ConstantValue>, args: seq<Value>, bytes: seq<uint8>)
    requires |bytes| == 5 && bytes[0] == 10 && bytes[1] == 4 && bytes[2] == 63 && bytes[4] == 94
    requires Accepted(bytes, 0, false) && |args| == 2
    ensures Ran(h, ReadUndefined, pool, args, bytes) == Number(FloatNegate(ToNumber(h, args[1])))
  {
    RanFromTheStart(h, pool, args, bytes);
    RanLdar(h, pool, args, INITIAL_MACHINE, bytes, 0);
    NegatedRan(h, pool, args, Load(INITIAL_MACHINE, args[1]), bytes);
  }

  lemma NegatedRan(h: Host, pool: seq<ConstantValue>, args: seq<Value>, m: Machine, bytes: seq<uint8>)
    requires |bytes| == 5 && bytes[2] == 63 && bytes[4] == 94 && Accepted(bytes, 2, false)
    ensures RanFrom(h, pool, args, m, bytes, 2) == Number(FloatNegate(ToNumber(h, Accumulator(m))))
  {
    RanNegate(h, pool, args, m, bytes, 2);
    RanReturn(h, pool, args, Load(m, Number(FloatNegate(ToNumber(h, Accumulator(m))))), bytes, 4);
  }

  lemma NegationReturned(h: Host, pool: seq<ConstantValue>, x: Value, bytes: seq<uint8>)
    requires |bytes| == 5 && bytes[0] == 10 && bytes[1] == 4 && bytes[2] == 63 && bytes[3] == 94 && bytes[4] == 94
    ensures InterpretedReturns(h, pool, [x], bytes, InterpretNegate(h, x))
  {
    var f := InitialFrame(Undefined, [x]);
    ArgumentsAreInSlots(Undefined, [x], 1, 1);
    LdarStep(h, pool, bytes, f, 0);
    var loaded := f.(accumulator := x);
    InterpretedNegate(h, pool, bytes, loaded, 2);
    InterpretedReturn(h, pool, bytes, loaded.(accumulator := InterpretNegate(h, x)), 3);
  }
}
