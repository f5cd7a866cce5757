/** Accepted code on which the two tiers return different values, one for each premise of their agreement. */
module TierDifferences {
  import opened Options
  import opened Values
  import opened Bytecodes
  import opened Comparisons
  import opened Interpreter
  import opened BuiltGraphs
  import opened InterpreterAgreement

  // ---- Short code, one instruction at a time ------------------------------------------------

  lemma AcceptedReturn(bytes: seq<uint8>, at: nat)
    requires at + 1 == |bytes| && bytes[at] == 94
    ensures Accepted(bytes, at, false) && LoadedBeforeRead(bytes, at, false)
  {
    assert Accepted(bytes, at + 1, true);
  }

  lemma AcceptedInstruction(bytes: seq<uint8>, at: nat, bc: Bytecode)
    requires at < |bytes| && FromByte(bytes[at]) == Some(bc) && !bc.Return? && !bc.Unsupported?
    requires at + 1 + OperandCount(bc) <= |bytes| && Accepted(bytes, at + 1 + OperandCount(bc), false)
    ensures Accepted(bytes, at, false)
    ensures LoadsAccumulator(bc) ==> LoadedBeforeRead(bytes, at, false)
  {
  }

  lemma RanReturn(h: Host, pool: seq<ConstantValue>, args: seq<Value>, m: Machine, bytes: seq<uint8>, at: nat)
    requires at + 1 == |bytes| && bytes[at] == 94
    ensures Accepted(bytes, at, false)
    ensures RanFrom(h, pool, args, m, bytes, at) == Accumulator(m)
  {
    AcceptedReturn(bytes, at);
    var done := RunInstruction(h, ReadUndefined, pool, args, m, Bytecode.Return, bytes, at + 1);
    assert RunFrom(h, ReadUndefined, pool, args, done, bytes, |bytes|, true) == done;
  }

  lemma RanFromTheStart(h: Host, pool: seq<ConstantValue>, args: seq<Value>, bytes: seq<uint8>)
    requires Accepted(bytes, 0, false)
    ensures Ran(h, ReadUndefined, pool, args, bytes) == RanFrom(h, pool, args, INITIAL_MACHINE, bytes, 0)
  {
  }

  lemma RanInstruction(h: Host, pool: seq<ConstantValue>, args: seq<Value>, m: Machine, bc: Bytecode,
                       bytes: seq<uint8>, at: nat)
    requires at < |bytes| && FromByte(bytes[at]) == Some(bc) && !bc.Return? && Accepted(bytes, at, false)
    ensures at + 1 + OperandCount(bc) <= |bytes| && Accepted(bytes, at + 1 + OperandCount(bc), false)
    ensures RanFrom(h, pool, args, m, bytes, at)
         == RanFrom(h, pool, args, RunInstruction(h, ReadUndefined, pool, args, m, bc, bytes, at + 1),
                    bytes, at + 1 + OperandCount(bc))
  {
  }

  lemma RanLdaSmi(h: Host, pool: seq<ConstantValue>, args: seq<Value>, m: Machine, bytes: seq<uint8>, at: nat)
    requires at < |bytes| && bytes[at] == 3 && Accepted(bytes, at, false)
    ensures at + 2 <= |bytes| && Accepted(bytes, at + 2, false)
    ensures RanFrom(h, pool, args, m, bytes, at)
         == RanFrom(h, pool, args, Load(m, Smi(Signed(bytes[at + 1]) as int32)), bytes, at + 2)
  {
    RanInstruction(h, pool, args, m, LdaSmi, bytes, at);
  }

  lemma RanLdar(h: Host, pool: seq<ConstantValue>, args: seq<Value>, m: Machine, bytes: seq<uint8>, at: nat)
    requires at < |bytes| && bytes[at] == 10 && Accepted(bytes, at, false)
    ensures at + 2 <= |bytes| && Accepted(bytes, at + 2, false)
    ensures RanFrom(h, pool, args, m, bytes, at)
         == RanFrom(h, pool, args, Load(m, ReadRegister(m, args, FromOperand(bytes[at + 1]))), bytes, at + 2)
  {
    RanInstruction(h, pool, args, m, Ldar, bytes, at);
  }

  lemma RanNegate(h: Host, pool: seq<ConstantValue>, args: seq<Value>, m: Machine, bytes: seq<uint8>, at: nat)
    requires at < |bytes| && bytes[at] == 63 && Accepted(bytes, at, false)
    ensures at + 2 <= |bytes| && Accepted(bytes, at + 2, false)
    ensures
      var negated := Pipeline.EvaluateUnary(h, Nodes.UnaryOp.Negate, Accumulator(m));
      RanFrom(h, pool, args, m, bytes, at) == RanFrom(h, pool, args, Load(m, negated), bytes, at + 2)
  {
    RanInstruction(h, pool, args, m, Bytecode.Negate, bytes, at);
  }

  lemma RanOperation(h: Host, pool: seq<ConstantValue>, args: seq<Value>, m: Machine, op: Operation,
                     bytes: seq<uint8>, at: nat)
    requires at < |bytes| && FromByte(bytes[at]) == Some(WithRegister(op)) && Accepted(bytes, at, false)
    ensures at + 3 <= |bytes| && Accepted(bytes, at + 3, false)
    ensures
      var v := Operate(h, op, Accumulator(m), ReadRegister(m, args, FromOperand(bytes[at + 1])));
      RanFrom(h, pool, args, m, bytes, at) == RanFrom(h, pool, args, Load(m, v), bytes, at + 3)
  {
    RanInstruction(h, pool, args, m, WithRegister(op), bytes, at);
  }

  lemma InterpretedLdaSmi(h: Host, pool: seq<ConstantValue>, bytes: seq<uint8>, f: Frame, at: nat)
    requires at + 1 < |bytes| && bytes[at] == 3
    ensures InterpretFrom(h, pool, bytes, f, at)
         == InterpretFrom(h, pool, bytes, f.(accumulator := Smi(Signed(bytes[at + 1]) as int32)), at + 2)
  {
    InterpretedInstruction(h, pool, bytes, f, LdaSmi, at);
  }

  lemma InterpretedNegate(h: Host, pool: seq<ConstantValue>, bytes: seq<uint8>, f: Frame, at: nat)
    requires at < |bytes| && bytes[at] == 63
    ensures InterpretFrom(h, pool, bytes, f, at)
         == InterpretFrom(h, pool, bytes, f.(accumulator := InterpretNegate(h, f.accumulator)), at + 1)
  {
    InterpretedInstruction(h, pool, bytes, f, Bytecode.Negate, at);
  }

  lemma InterpretedOperation(h: Host, pool: seq<ConstantValue>, bytes: seq<uint8>, f: Frame, op: Operation, at: nat)
    requires at + 1 < |bytes| && FromByte(bytes[at]) == Some(WithRegister(op))
    ensures
      var v := Interpreted(h, op, f.accumulator, Slot(f, SlotOf(bytes[at + 1])));
      InterpretFrom(h, pool, bytes, f, at) == InterpretFrom(h, pool, bytes, f.(accumulator := v), at + 3)
  {
    InterpretedInstruction(h, pool, bytes, f, WithRegister(op), at);
  }

  lemma InterpretedReturn(h: Host, pool: seq<ConstantValue>, bytes: seq<uint8>, f: Frame, at: nat)
    requires at < |bytes| && bytes[at] == 94
    ensures InterpretFrom(h, pool, bytes, f, at) == Returned(f.accumulator)
  {
  }

  lemma InterpretedInstruction(h: Host, pool: seq<ConstantValue>, bytes: seq<uint8>, f: Frame, bc: Bytecode, at: nat)
    requires at < |bytes| && FromByte(bytes[at]) == Some(bc) && !bc.Return? && !bc.Ldar? && !bc.Unsupported?
    requires at + 1 + OperandsRead(bc) <= |bytes|
    ensures InterpretFrom(h, pool, bytes, f, at)
         == InterpretFrom(h, pool, bytes, Executed(h, pool, f, bc, bytes, at + 1), at + 1 + Width(bc))
  {
    OneInstruction(h, pool, bytes, f, at);
  }

  // ---- One operation ------------------------------------------------------------------------

  /** `Ldar a1; <operation> a2; Return` */
  predicate AppliesTo(bytes: seq<uint8>, op: Operation) {
    && |bytes| == 6 && bytes[0] == 10 && bytes[1] == 4 && FromByte(bytes[2]) == Some(WithRegister(op))
    && bytes[3] == 5 && bytes[5] == 94
  }

  lemma ArgumentRegisters(x: Value, y: Value)
    ensures ReadRegister(INITIAL_MACHINE, [Undefined, x, y], FromOperand(4)) == x
    ensures ReadRegister(Load(INITIAL_MACHINE, x), [Undefined, x, y], FromOperand(5)) == y
    ensures Slot(InitialFrame(Undefined, [x, y]), SlotOf(4)) == x
    ensures Slot(InitialFrame(Undefined, [x, y]), SlotOf(5)) == y
  {
    ArgumentsAreInSlots(Undefined, [x, y], 2, 1);
    ArgumentsAreInSlots(Undefined, [x, y], 2, 2);
  }

  lemma OperationIsAccepted(bytes: seq<uint8>, op: Operation)
    requires AppliesTo(bytes, op)
    ensures Accepted(bytes, 0, false) && LoadedBeforeRead(bytes, 0, false)
  {
    AcceptedReturn(bytes, 5);
    AcceptedInstruction(bytes, 2, WithRegister(op));
    AcceptedInstruction(bytes, 0, Ldar);
  }

  lemma OperationRan(h: Host, pool: seq<ConstantValue>, x: Value, y: Value, bytes: seq<uint8>, op: Operation)
    requires AppliesTo(bytes, op) && Accepted(bytes, 0, false)
    ensures Ran(h, ReadUndefined, pool, [Undefined, x, y], bytes) == Operate(h, op, x, y)
  {
    ArgumentRegisters(x, y);
    var args, loaded := [Undefined, x, y], Load(INITIAL_MACHINE, x);
    RanLdar(h, pool, args, INITIAL_MACHINE, bytes, 0);
    RanOperation(h, pool, args, loaded, op, bytes, 2);
    RanReturn(h, pool, args, Load(loaded, Operate(h, op, x, y)), bytes, 5);
  }

  lemma OperationInterpreted(h: Host, pool: seq<ConstantValue>, x: Value, y: Value, bytes: seq<uint8>, op: Operation)
    requires AppliesTo(bytes, op)
    ensures Interpret(h, pool, Undefined, [x, y], bytes) == Returned(Interpreted(h, op, x, y))
  {
    ArgumentRegisters(x, y);
    var f := InitialFrame(Undefined, [x, y]);
    LdarStep(h, pool, bytes, f, 0);
    OperationThenReturn(h, pool, bytes, f.(accumulator := x), op);
  }

  lemma OperationThenReturn(h: Host, pool: seq<ConstantValue>, bytes: seq<uint8>, f: Frame, op: Operation)
    requires AppliesTo(bytes, op)
    ensures InterpretFrom(h, pool, bytes, f, 2)
         == Returned(Interpreted(h, op, f.accumulator, Slot(f, SlotOf(bytes[3]))))
  {
    var v := Interpreted(h, op, f.accumulator, Slot(f, SlotOf(bytes[3])));
    InterpretedOperation(h, pool, bytes, f, op, 2);
    InterpretedReturn(h, pool, bytes, f.(accumulator := v), 5);
  }

  /** Code that applies one operation to its two arguments: the tiers return one value exactly on the
      operands `TiersAgree` names. */
  lemma OperationCodeAgreesIff(h: Host, pool: seq<ConstantValue>, x: Value, y: Value, bytes: seq<uint8>, op: Operation)
    requires ConvertsInOrder(h) && AppliesTo(bytes, op)
    ensures Accepted(bytes, 0, false) && LoadedBeforeRead(bytes, 0, false)
    ensures
      var compiled := Ran(h, ReadUndefined, pool, [Undefined, x, y], bytes);
      (Interpret(h, pool, Undefined, [x, y], bytes) == Returned(compiled)) <==> TiersAgree(h, op, x, y)
  {
    OperationIsAccepted(bytes, op);
    OperationRan(h, pool, x, y, bytes, op);
    OperationInterpreted(h, pool, x, y, bytes, op);
    TiersAgreeIff(h, op, x, y);
  }

  // ---- The width of `Negate` ----------------------------------------------------------------

  /** `LdaSmi 5; Negate; Ldar r0; Return`, with 20 as the feedback byte of `Negate`. */
  const NEGATION: seq<uint8> := [3, 5, 63, 20, 10, 250, 94]

  lemma NegationIsAccepted(bytes: seq<uint8>)
    requires bytes == NEGATION
    ensures Accepted(bytes, 0, false) && LoadedBeforeRead(bytes, 0, false)
  {
    AcceptedReturn(bytes, 6);
    AcceptedInstruction(bytes, 4, Ldar);
    AcceptedInstruction(bytes, 2, Bytecode.Negate);
    AcceptedInstruction(bytes, 0, LdaSmi);
  }

  lemma NegationRan(h: Host, pool: seq<ConstantValue>, args: seq<Value>, bytes: seq<uint8>)
    requires |bytes| == 7 && bytes[0] == 3 && bytes[2] == 63 && bytes[4] == 10 && bytes[5] == 250 && bytes[6] == 94
    requires Accepted(bytes, 0, false)
    ensures RanFrom(h, pool, args, INITIAL_MACHINE, bytes, 0) == Undefined
  {
    RanLdaSmi(h, pool, args, INITIAL_MACHINE, bytes, 0);
    FiveThenNegated(h, pool, args, Smi(Signed(bytes[1]) as int32), bytes);
  }

  lemma FiveThenNegated(h: Host, pool: seq<ConstantValue>, args: seq<Value>, v: Value, bytes: seq<uint8>)
    requires |bytes| == 7 && bytes[2] == 63 && bytes[4] == 10 && bytes[5] == 250 && bytes[6] == 94
    requires Accepted(bytes, 2, false)
    ensures RanFrom(h, pool, args, Load(INITIAL_MACHINE, v), bytes, 2) == Undefined
  {
    RanNegate(h, pool, args, Load(INITIAL_MACHINE, v), bytes, 2);
    NegatedThenRead(h, pool, args, Pipeline.EvaluateUnary(h, Nodes.UnaryOp.Negate, v), bytes);
  }

  lemma NegatedThenRead(h: Host, pool: seq<ConstantValue>, args: seq<Value>, v: Value, bytes: seq<uint8>)
    requires |bytes| == 7 && bytes[4] == 10 && bytes[5] == 250 && bytes[6] == 94 && Accepted(bytes, 4, false)
    ensures RanFrom(h, pool, args, Load(INITIAL_MACHINE, v), bytes, 4) == Undefined
  {
    RanLdar(h, pool, args, Load(INITIAL_MACHINE, v), bytes, 4);
    RanReturn(h, pool, args, Load(INITIAL_MACHINE, Undefined), bytes, 6);
  }

  lemma NegationInterpreted(h: Host, pool: seq<ConstantValue>, bytes: seq<uint8>)
    requires bytes == NEGATION
    ensures Interpret(h, pool, Undefined, [], bytes) == Returned(Smi(-5))
  {
    LoadedThenNegated(h, pool, bytes, InitialFrame(Undefined, []));
  }

  lemma LoadedThenNegated(h: Host, pool: seq<ConstantValue>, bytes: seq<uint8>, f: Frame)
    requires |bytes| == 7 && bytes[0] == 3 && bytes[1] == 5 && bytes[2] == 63
    requires bytes[3] == 20 && bytes[4] == 10 && bytes[5] == 250 && bytes[6] == 94
    ensures InterpretFrom(h, pool, bytes, f, 0) == Returned(Smi(-5))
  {
    InterpretedLdaSmi(h, pool, bytes, f, 0);
    NegatedThenStored(h, pool, bytes, f.(accumulator := Smi(5)));
  }

  lemma NegatedThenStored(h: Host, pool: seq<ConstantValue>, bytes: seq<uint8>, f: Frame)
    requires |bytes| == 7 && bytes[2] == 63 && f.accumulator == Smi(5)
    requires bytes[3] == 20 && bytes[4] == 10 && bytes[5] == 250 && bytes[6] == 94
    ensures InterpretFrom(h, pool, bytes, f, 2) == Returned(Smi(-5))
  {
    InterpretedNegate(h, pool, bytes, f, 2);
    StoredThenRead(h, pool, bytes, f.(accumulator := Smi(-5)));
  }

  lemma StoredThenRead(h: Host, pool: seq<ConstantValue>, bytes: seq<uint8>, f: Frame)
    requires |bytes| == 7 && bytes[3] == 20 && bytes[4] == 10 && bytes[5] == 250 && bytes[6] == 94
    ensures InterpretFrom(h, pool, bytes, f, 3) == Returned(f.accumulator)
  {
    ShortStarStep(h, pool, bytes, f, 3);
    ReadThenReturn(h, pool, bytes, Store(f, 4, f.accumulator));
  }

  lemma ReadThenReturn(h: Host, pool: seq<ConstantValue>, bytes: seq<uint8>, f: Frame)
    requires |bytes| == 7 && bytes[4] == 10 && bytes[5] == 250 && bytes[6] == 94
    ensures InterpretFrom(h, pool, bytes, f, 4) == Returned(Slot(f, 4))
  {
    LdarStep(h, pool, bytes, f, 4);
    InterpretedReturn(h, pool, bytes, f.(accumulator := Slot(f, 4)), 6);
  }

  /** The graph tier steps over the feedback byte and returns the unwritten `r0`; the interpreter runs
      it as `Star0` and returns -5. */
  lemma NegateDiffers(h: Host, pool: seq<ConstantValue>, bytes: seq<uint8>)
    requires bytes == NEGATION
    ensures Accepted(bytes, 0, false) && LoadedBeforeRead(bytes, 0, false)
    ensures Ran(h, ReadUndefined, pool, [Undefined], bytes) == Undefined
    ensures Interpret(h, pool, Undefined, [], bytes) == Returned(Smi(-5))
  {
    NegationIsAccepted(bytes);
    NegationRan(h, pool, [Undefined], bytes);
    RanFromTheStart(h, pool, [Undefined], bytes);
    NegationInterpreted(h, pool, bytes);
  }

  // ---- The addition in place ----------------------------------------------------------------

  /** `Ldar a1; Add a2; Star a1; Return` */
  predicate AddsToArgument(bytes: seq<uint8>) {
    && |bytes| == 8 && bytes[0] == 10 && bytes[1] == 4 && bytes[2] == 37 && bytes[3] == 5
    && bytes[5] == 14 && bytes[6] == 4 && bytes[7] == 94
  }

  lemma SumIsAccepted(bytes: seq<uint8>)
    requires AddsToArgument(bytes)
    ensures Accepted(bytes, 0, false) && LoadedBeforeRead(bytes, 0, false) && AddsInPlace(bytes, 1)
  {
    AcceptedReturn(bytes, 7);
    AcceptedInstruction(bytes, 5, Star);
    AcceptedInstruction(bytes, 2, WithRegister(OpAdd));
    AcceptedInstruction(bytes, 0, Ldar);
  }

  lemma SumRan(h: Host, pool: seq<ConstantValue>, x: Value, y: Value, bytes: seq<uint8>)
    requires AddsToArgument(bytes) && Accepted(bytes, 0, false)
    ensures Ran(h, ReadUndefined, pool, [Undefined, x, y], bytes) == Values.Add(h, x, y)
  {
    ArgumentRegisters(x, y);
    var args, loaded := [Undefined, x, y], Load(INITIAL_MACHINE, x);
    RanLdar(h, pool, args, INITIAL_MACHINE, bytes, 0);
    AddedThenStored(h, pool, args, loaded, bytes);
  }

  lemma AddedThenStored(h: Host, pool: seq<ConstantValue>, args: seq<Value>, m: Machine, bytes: seq<uint8>)
    requires AddsToArgument(bytes) && Accepted(bytes, 2, false)
    ensures RanFrom(h, pool, args, m, bytes, 2)
         == Values.Add(h, Accumulator(m), ReadRegister(m, args, FromOperand(5)))
  {
    var sum := Operate(h, OpAdd, Accumulator(m), ReadRegister(m, args, FromOperand(5)));
    RanOperation(h, pool, args, m, OpAdd, bytes, 2);
    StoredSumRan(h, pool, args, Load(m, sum), bytes);
  }

  lemma StoredSumRan(h: Host, pool: seq<ConstantValue>, args: seq<Value>, m: Machine, bytes: seq<uint8>)
    requires AddsToArgument(bytes) && Accepted(bytes, 5, false)
    ensures RanFrom(h, pool, args, m, bytes, 5) == Accumulator(m)
  {
    RanInstruction(h, pool, args, m, Star, bytes, 5);
    RanReturn(h, pool, args, WriteRegister(m, FromOperand(bytes[6]), Accumulator(m)), bytes, 7);
  }

  /** The interpreter stores the sum of two small integers or two strings in place and returns the
      accumulator, which it did not touch: `undefined`, where the graph tier returns the sum. */
  lemma InPlaceAdditionDiffers(h: Host, pool: seq<ConstantValue>, x: Value, y: Value, bytes: seq<uint8>)
    requires AddsToArgument(bytes)
    requires (x.Str? && y.Str?) || (x.Smi? && y.Smi? && InRange(x.n as int + y.n as int))
    ensures Accepted(bytes, 0, false) && LoadedBeforeRead(bytes, 0, false)
    ensures Ran(h, ReadUndefined, pool, [Undefined, x, y], bytes) == Values.Add(h, x, y) != Undefined
    ensures Interpret(h, pool, Undefined, [x, y], bytes) == Returned(Undefined)
  {
    SumIsAccepted(bytes);
    SumRan(h, pool, x, y, bytes);
    ArgumentRegisters(x, y);
    var f := InitialFrame(Undefined, [x, y]);
    InPlaceInterpreted(h, pool, bytes, f, 0);
    InterpretedReturn(h, pool, bytes, AddedInPlace(f, bytes, 1), 7);
  }

  // ---- Shared slots -------------------------------------------------------------------------

  /** `Ldar r12; Return` */
  const SHARED: seq<uint8> := [10, 238, 94]

  /** With four arguments the unwritten `r12` is `undefined` in the graph tier; in the interpreter it
      shares its slot with the last argument. */
  lemma SharedSlotDiffers(h: Host, pool: seq<ConstantValue>, arguments: seq<Value>)
    requires |arguments| == 4
    ensures Accepted(SHARED, 0, false) && LoadedBeforeRead(SHARED, 0, false)
    ensures Ran(h, ReadUndefined, pool, [Undefined] + arguments, SHARED) == Undefined
    ensures Interpret(h, pool, Undefined, arguments, SHARED) == Returned(arguments[3])
  {
    var args := [Undefined] + arguments;
    AcceptedReturn(SHARED, 2);
    AcceptedInstruction(SHARED, 0, Ldar);
    RanLdar(h, pool, args, INITIAL_MACHINE, SHARED, 0);
    RanReturn(h, pool, args, Load(INITIAL_MACHINE, Undefined), SHARED, 2);
    var f := InitialFrame(Undefined, arguments);
    ArgumentsAreInSlots(Undefined, arguments, 4, 16);
    LdarStep(h, pool, SHARED, f, 0);
    InterpretedReturn(h, pool, SHARED, f.(accumulator := arguments[3]), 2);
  }

  // ---- The receiver -------------------------------------------------------------------------

  /** `Ldar a1; Return`: the graph tier counts the receiver among its arguments and the interpreter does
      not, so that one list handed to both means different things. */
  lemma SharedArgumentsDiffer(h: Host, pool: seq<ConstantValue>, x: Value, bytes: seq<uint8>)
    requires |bytes| == 3 && bytes[0] == 10 && bytes[1] == 4 && bytes[2] == 94
    ensures Accepted(bytes, 0, false) && LoadedBeforeRead(bytes, 0, false)
    ensures Ran(h, ReadUndefined, pool, [x], bytes) == Undefined
    ensures Ran(h, ReadUndefined, pool, [Undefined, x], bytes) == x
    ensures Interpret(h, pool, Undefined, [x], bytes) == Returned(x)
  {
    AcceptedReturn(bytes, 2);
    AcceptedInstruction(bytes, 0, Ldar);
    FirstArgumentRan(h, pool, [x], bytes);
    FirstArgumentRan(h, pool, [Undefined, x], bytes);
    var f := InitialFrame(Undefined, [x]);
    ArgumentsAreInSlots(Undefined, [x], 1, 1);
    LdarStep(h, pool, bytes, f, 0);
    InterpretedReturn(h, pool, bytes, f.(accumulator := x), 2);
  }

  lemma FirstArgumentRan(h: Host, pool: seq<ConstantValue>, args: seq<Value>, bytes: seq<uint8>)
    requires |bytes| == 3 && bytes[0] == 10 && bytes[1] == 4 && bytes[2] == 94 && Accepted(bytes, 0, false)
    ensures Ran(h, ReadUndefined, pool, args, bytes) == if |args| > 1 then args[1] else Undefined
  {
    RanFromTheStart(h, pool, args, bytes);
    RanLdar(h, pool, args, INITIAL_MACHINE, bytes, 0);
    RanReturn(h, pool, args, Load(INITIAL_MACHINE, if |args| > 1 then args[1] else Undefined), bytes, 2);
  }
}
