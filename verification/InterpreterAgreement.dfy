/** When the graph tier and the interpreter compute the same: the differential property of the two tiers. */
module InterpreterAgreement {
  import opened Options
  import opened Values
  import opened Nodes
  import opened Pipeline
  import opened Bytecodes
  import opened Comparisons
  import opened Interpreter
  import opened GraphBuilder
  import opened BuiltGraphs
  import Compiler
  import Optimizer

  // ---- Instruction boundaries ---------------------------------------------------------------

  predicate Proceeds(byte: uint8) {
    FromByte(byte).Some? && !FromByte(byte).value.Unsupported? && !FromByte(byte).value.Return?
  }

  /** The builder's decoder, started at `at`, begins an instruction at `p`. */
  predicate BuilderStarts(bytes: seq<uint8>, at: nat, p: nat)
    decreases |bytes| - at
  {
    && at < |bytes|
    && (p == at || (Proceeds(bytes[at]) && BuilderStarts(bytes, at + 1 + OperandCount(FromByte(bytes[at]).value), p)))
  }

  /** The interpreter's does; it stops at a return and at what is beyond the model. */
  predicate InterpreterStarts(bytes: seq<uint8>, at: nat, p: nat)
    decreases |bytes| - at
  {
    && at < |bytes|
    && (p == at || (Proceeds(bytes[at]) && InterpreterStarts(bytes, at + 1 + Width(FromByte(bytes[at]).value), p)))
  }

  /** The code, as the builder decodes it, contains no `Negate`. */
  predicate NoNegate(bytes: seq<uint8>, at: nat, returned: bool)
    requires at <= |bytes| && Accepted(bytes, at, returned)
    decreases |bytes| - at
  {
    match DecodedAt(bytes, at)
    case None => true
    case Some(bc) =>
      !bc.Negate? && NoNegate(bytes, at + 1 + OperandCount(bc), returned || bc.Return?)
  }

  lemma {:induction false} StartsAreOnward(bytes: seq<uint8>, at: nat, p: nat)
    requires BuilderStarts(bytes, at, p)
    ensures at <= p < |bytes|
    decreases |bytes| - at
  {
    if p != at { StartsAreOnward(bytes, at + 1 + OperandCount(FromByte(bytes[at]).value), p); }
  }

  lemma {:induction false} SameStarts(bytes: seq<uint8>, at: nat, returned: bool, p: nat)
    requires at <= |bytes| && Accepted(bytes, at, returned) && NoNegate(bytes, at, returned)
    ensures BuilderStarts(bytes, at, p) <==> InterpreterStarts(bytes, at, p)
    decreases |bytes| - at
  {
    if at < |bytes| && p != at {
      var bc := DecodedAt(bytes, at).value;
      if !bc.Return? { SameStarts(bytes, at + 1 + OperandCount(bc), returned, p); }
    }
  }

  /** The position after the first `Negate` is an instruction to the interpreter only. */
  lemma {:induction false} NegateShifts(bytes: seq<uint8>, at: nat, returned: bool) returns (p: nat)
    requires at <= |bytes| && Accepted(bytes, at, returned) && !NoNegate(bytes, at, returned) && !returned
    ensures at < p < |bytes|
    ensures InterpreterStarts(bytes, at, p) && !BuilderStarts(bytes, at, p)
    decreases |bytes| - at
  {
    var bc := DecodedAt(bytes, at).value;
    if bc.Negate? {
      p := at + 1;
      if BuilderStarts(bytes, at, p) { StartsAreOnward(bytes, at + 2, p); }
    } else {
      p := NegateShifts(bytes, at + 1 + OperandCount(bc), returned);
    }
  }

  /** The two decoders begin their instructions at the same positions of accepted code exactly if it
      contains no `Negate`. */
  lemma SameBoundariesIff(bytes: seq<uint8>)
    requires Accepted(bytes, 0, false)
    ensures (forall p: nat :: BuilderStarts(bytes, 0, p) <==> InterpreterStarts(bytes, 0, p))
       <==> NoNegate(bytes, 0, false)
  {
    if NoNegate(bytes, 0, false) {
      forall p: nat ensures BuilderStarts(bytes, 0, p) <==> InterpreterStarts(bytes, 0, p) {
        SameStarts(bytes, 0, false, p);
      }
    } else {
      var p := NegateShifts(bytes, 0, false);
    }
  }

  // ---- The register file --------------------------------------------------------------------

  /** Operands that name a slot of the frame, such as the closure, and neither a local nor a parameter. */
  predicate NamesFrameSlot(operand: uint8) {
    -8 <= FromOperand(operand).index <= -1
  }

  predicate NamesParameter(operand: uint8) {
    FromOperand(operand).index <= -9
  }

  predicate NamesLocal(operand: uint8) {
    FromOperand(operand).index >= 0
  }

  /** A frame slot and one of the locals r4 to r11, or a late parameter and a late local. */
  predicate Clash(a: uint8, b: uint8) {
    var i, j := FromOperand(a).index, FromOperand(b).index;
    || (NamesFrameSlot(a) && NamesLocal(b) && j == 12 + i)
    || (NamesParameter(a) && NamesLocal(b) && j >= 12 && j - 12 == -13 - i)
  }

  /** Two registers share a slot of the interpreter's frame exactly when they clash; in the graph tier
      no two registers are one. */
  lemma SharedSlotIff(a: uint8, b: uint8)
    requires a != b
    ensures SlotOf(a) == SlotOf(b) <==> Clash(a, b) || Clash(b, a)
    ensures FromOperand(a) != FromOperand(b)
  {
  }

  /** The register is a local below r12 or a parameter; or, with at most three arguments, any local or
      one of the parameters they take. Either way no two registers share a slot. */
  predicate Allowed(operand: uint8, manyLocals: bool) {
    var index := FromOperand(operand).index;
    if manyLocals then index >= 0 || -12 <= index <= -9 else 0 <= index < 12 || index <= -9
  }

  lemma AllowedSlotsAreDistinct(a: uint8, b: uint8, manyLocals: bool)
    requires Allowed(a, manyLocals) && Allowed(b, manyLocals) && a != b
    ensures SlotOf(a) != SlotOf(b)
  {
    SharedSlotIff(a, b);
  }

  /** The registers an instruction names. */
  predicate NamesAllowed(bc: Bytecode, bytes: seq<uint8>, at: nat, manyLocals: bool)
    requires at + OperandCount(bc) <= |bytes|
  {
    match bc
    case Ldar => Allowed(bytes[at], manyLocals)
    case Star => Allowed(bytes[at], manyLocals)
    case Mov => Allowed(bytes[at], manyLocals) && Allowed(bytes[at + 1], manyLocals)
    case WithRegister(_) => Allowed(bytes[at], manyLocals)
    case ShortStar(index) => index < 16 && (manyLocals || index < 12)
    case _ => true
  }

  // ---- Code and operands on which the tiers agree -------------------------------------------

  /** From `at` the code loads the accumulator before reading or returning it. */
  predicate Reloads(bytes: seq<uint8>, at: nat)
    decreases |bytes| - at
  {
    match DecodedAt(bytes, at)
    case None => false
    case Some(bc) =>
      LoadsAccumulator(bc)
      || (!ReadsAccumulator(bc) && !bc.Return? && Reloads(bytes, at + 1 + OperandCount(bc)))
  }

  /** After an addition in place the code reloads the accumulator. */
  predicate ReloadsAfterInPlace(bc: Bytecode, bytes: seq<uint8>, at: nat) {
    bc.Ldar? && AddsInPlace(bytes, at) ==> Reloads(bytes, AfterInPlace(bytes, at))
  }

  /** No `Negate`, one bank of registers, and no sum added in place that is read from the accumulator. */
  predicate Tame(bytes: seq<uint8>, at: nat, returned: bool, manyLocals: bool)
    requires at <= |bytes| && Accepted(bytes, at, returned)
    decreases |bytes| - at
  {
    match DecodedAt(bytes, at)
    case None => true
    case Some(bc) =>
      && !bc.Negate? && NamesAllowed(bc, bytes, at + 1, manyLocals) && ReloadsAfterInPlace(bc, bytes, at + 1)
      && Tame(bytes, at + 1 + OperandCount(bc), returned || bc.Return?, manyLocals)
  }

  /** The operands the instruction sees are ones on which its operation is the same in both tiers. */
  predicate StepAgrees(h: Host, args: seq<Value>, m: Machine, bc: Bytecode, bytes: seq<uint8>, at: nat)
    requires at + OperandCount(bc) <= |bytes|
  {
    match bc
    case WithRegister(op) => TiersAgree(h, op, Accumulator(m), ReadRegister(m, args, FromOperand(bytes[at])))
    case WithSmi(op) => TiersAgree(h, op, Accumulator(m), Smi(Signed(bytes[at]) as int32))
    case _ => true
  }

  /** That holds of every instruction of the run. */
  predicate OperandsAgree(h: Host, pool: seq<ConstantValue>, args: seq<Value>, m: Machine,
                          bytes: seq<uint8>, at: nat, returned: bool)
    requires at <= |bytes| && Accepted(bytes, at, returned)
    decreases |bytes| - at
  {
    match DecodedAt(bytes, at)
    case None => true
    case Some(bc) =>
      && StepAgrees(h, args, m, bc, bytes, at + 1)
      && OperandsAgree(h, pool, args, RunInstruction(h, ReadUndefined, pool, args, m, bc, bytes, at + 1),
                       bytes, at + 1 + OperandCount(bc), returned || bc.Return?)
  }

  // ---- The two machines side by side --------------------------------------------------------

  /** The frame's slots hold what the machine's registers hold. */
  ghost predicate Mirrors(args: seq<Value>, m: Machine, f: Frame, manyLocals: bool) {
    forall operand: uint8 :: Allowed(operand, manyLocals) ==>
      ReadRegister(m, args, FromOperand(operand)) == Slot(f, SlotOf(operand))
  }

  lemma WriteMirrors(args: seq<Value>, m: Machine, f: Frame, manyLocals: bool, operand: uint8, v: Value)
    requires Mirrors(args, m, f, manyLocals) && Allowed(operand, manyLocals)
    ensures Mirrors(args, WriteRegister(m, FromOperand(operand), v), Store(f, SlotOf(operand), v), manyLocals)
  {
    var m', f' := WriteRegister(m, FromOperand(operand), v), Store(f, SlotOf(operand), v);
    forall other: uint8 | Allowed(other, manyLocals)
      ensures ReadRegister(m', args, FromOperand(other)) == Slot(f', SlotOf(other))
    {
      if other != operand {
        AllowedSlotsAreDistinct(other, operand, manyLocals);
        OtherRegisterIsKept(args, m, FromOperand(operand), FromOperand(other), v);
      }
    }
  }

  lemma OtherRegisterIsKept(args: seq<Value>, m: Machine, reg: SmallRegister, other: SmallRegister, v: Value)
    requires reg != other && (reg.index >= 0 || reg.index <= -9) && (other.index >= 0 || other.index <= -9)
    ensures ReadRegister(WriteRegister(m, reg, v), args, other) == ReadRegister(m, args, other)
  {
  }

  /** The operand byte that names the local a short store names. */
  function ShortOperand(index: nat): uint8
    requires index < 16
  {
    (250 - index) as uint8
  }

  lemma ShortStarWrites(m: Machine, index: nat, v: Value)
    requires index < 16
    ensures m.(registers := m.registers[index := v]) == WriteRegister(m, FromOperand(ShortOperand(index)), v)
    ensures SlotOf(ShortOperand(index)) == 4 + index
    ensures forall manyLocals :: manyLocals || index < 12 ==> Allowed(ShortOperand(index), manyLocals)
  {
  }

  predicate SameAccumulator(m: Machine, f: Frame) {
    f.accumulator == Accumulator(m)
  }

  lemma OperationMirrors(h: Host, args: seq<Value>, m: Machine, f: Frame, manyLocals: bool, op: Operation, v: Value)
    requires ConvertsInOrder(h) && Mirrors(args, m, f, manyLocals) && SameAccumulator(m, f)
    requires TiersAgree(h, op, f.accumulator, v)
    ensures Operate(h, op, Accumulator(m), v) == Interpreted(h, op, f.accumulator, v)
    ensures Mirrors(args, Load(m, Operate(h, op, Accumulator(m), v)),
                    f.(accumulator := Interpreted(h, op, f.accumulator, v)), manyLocals)
  {
    TiersAgreeIff(h, op, f.accumulator, v);
    LoadMirrors(args, m, f, manyLocals, Operate(h, op, Accumulator(m), v));
  }

  /** The states after one instruction mirror each other, and the accumulators too if they did or the
      instruction loads. */
  ghost predicate StillMirrors(h: Host, pool: seq<ConstantValue>, args: seq<Value>, m: Machine, f: Frame,
                               manyLocals: bool, bc: Bytecode, bytes: seq<uint8>, at: nat)
    requires at + OperandCount(bc) <= |bytes|
  {
    var next := RunInstruction(h, ReadUndefined, pool, args, m, bc, bytes, at);
    var f' := Executed(h, pool, f, bc, bytes, at);
    && Mirrors(args, next, f', manyLocals)
    && (SameAccumulator(m, f) || LoadsAccumulator(bc) ==> SameAccumulator(next, f'))
  }

  lemma StoreMirrors(h: Host, pool: seq<ConstantValue>, args: seq<Value>, m: Machine, f: Frame, manyLocals: bool,
                     bc: Bytecode, bytes: seq<uint8>, at: nat)
    requires at + OperandCount(bc) <= |bytes| && (bc.Star? || bc.ShortStar?) && SameAccumulator(m, f)
    requires Mirrors(args, m, f, manyLocals) && NamesAllowed(bc, bytes, at, manyLocals)
    ensures StillMirrors(h, pool, args, m, f, manyLocals, bc, bytes, at)
  {
    if bc.Star? {
      WriteMirrors(args, m, f, manyLocals, bytes[at], f.accumulator);
    } else {
      ShortStarWrites(m, bc.index, f.accumulator);
      WriteMirrors(args, m, f, manyLocals, ShortOperand(bc.index), f.accumulator);
    }
  }

  lemma MoveMirrors(h: Host, pool: seq<ConstantValue>, args: seq<Value>, m: Machine, f: Frame, manyLocals: bool,
                    bytes: seq<uint8>, at: nat)
    requires at + OperandCount(Mov) <= |bytes|
    requires Mirrors(args, m, f, manyLocals) && NamesAllowed(Mov, bytes, at, manyLocals)
    ensures StillMirrors(h, pool, args, m, f, manyLocals, Mov, bytes, at)
  {
    WriteMirrors(args, m, f, manyLocals, bytes[at + 1], Slot(f, SlotOf(bytes[at])));
  }

  lemma OperationStepMirrors(h: Host, pool: seq<ConstantValue>, args: seq<Value>, m: Machine, f: Frame,
                             manyLocals: bool, bc: Bytecode, bytes: seq<uint8>, at: nat)
    requires ConvertsInOrder(h) && at + OperandCount(bc) <= |bytes| && (bc.WithRegister? || bc.WithSmi?)
    requires Mirrors(args, m, f, manyLocals) && NamesAllowed(bc, bytes, at, manyLocals)
    requires StepAgrees(h, args, m, bc, bytes, at) && SameAccumulator(m, f)
    ensures StillMirrors(h, pool, args, m, f, manyLocals, bc, bytes, at)
  {
    match bc
    case WithRegister(op) => OperationMirrors(h, args, m, f, manyLocals, op, Slot(f, SlotOf(bytes[at])));
    case WithSmi(op) => OperationMirrors(h, args, m, f, manyLocals, op, Smi(Signed(bytes[at]) as int32));
  }

  /** One instruction on both machines. */
  lemma StepMirrors(h: Host, pool: seq<ConstantValue>, args: seq<Value>, m: Machine, f: Frame, manyLocals: bool,
                    bc: Bytecode, bytes: seq<uint8>, at: nat)
    requires ConvertsInOrder(h) && at + OperandCount(bc) <= |bytes| && !bc.Negate? && !bc.Return?
    requires Mirrors(args, m, f, manyLocals) && NamesAllowed(bc, bytes, at, manyLocals)
    requires StepAgrees(h, args, m, bc, bytes, at)
    requires SameAccumulator(m, f) || !ReadsAccumulator(bc)
    ensures StillMirrors(h, pool, args, m, f, manyLocals, bc, bytes, at)
  {
    match bc
    case Star => StoreMirrors(h, pool, args, m, f, manyLocals, bc, bytes, at);
    case ShortStar(_) => StoreMirrors(h, pool, args, m, f, manyLocals, bc, bytes, at);
    case Mov => MoveMirrors(h, pool, args, m, f, manyLocals, bytes, at);
    case WithRegister(_) => OperationStepMirrors(h, pool, args, m, f, manyLocals, bc, bytes, at);
    case WithSmi(_) => OperationStepMirrors(h, pool, args, m, f, manyLocals, bc, bytes, at);
    case _ =>
  }

  // ---- The addition in place ----------------------------------------------------------------

  /** The store that ends an addition in place. */
  function LastStep(h: Host, pool: seq<ConstantValue>, args: seq<Value>, m: Machine, bytes: seq<uint8>, at: nat):
      Machine
    requires AddsInPlace(bytes, at)
  {
    if bytes[at + 4] == 14 then RunInstruction(h, ReadUndefined, pool, args, m, Star, bytes, at + 5)
    else RunInstruction(h, ReadUndefined, pool, args, m, ShortStar(bytes[at + 4] as nat - 20), bytes, at + 5)
  }

  /** The load and the addition before it; `at` is after the opcode of the load. */
  function TwoSteps(h: Host, pool: seq<ConstantValue>, args: seq<Value>, m: Machine, bytes: seq<uint8>, at: nat):
      Machine
    requires AddsInPlace(bytes, at)
  {
    var loaded := RunInstruction(h, ReadUndefined, pool, args, m, Ldar, bytes, at);
    RunInstruction(h, ReadUndefined, pool, args, loaded, WithRegister(OpAdd), bytes, at + 2)
  }

  function ThreeSteps(h: Host, pool: seq<ConstantValue>, args: seq<Value>, m: Machine, bytes: seq<uint8>, at: nat):
      Machine
    requires AddsInPlace(bytes, at)
  {
    LastStep(h, pool, args, TwoSteps(h, pool, args, m, bytes, at), bytes, at)
  }

  /** The sum that is stored is the sum the machine computes. */
  lemma SumInPlaceIsTheSum(h: Host, f: Frame, bytes: seq<uint8>, at: nat)
    requires AddsInPlace(bytes, at) && SumInPlace(f, bytes, at).Some?
    ensures Values.Add(h, Slot(f, SlotOf(bytes[at])), Slot(f, SlotOf(bytes[at + 2]))) == SumInPlace(f, bytes, at).value
  {
  }

  lemma StoredInPlace(h: Host, pool: seq<ConstantValue>, args: seq<Value>, m: Machine, bytes: seq<uint8>, at: nat)
    requires AddsInPlace(bytes, at)
    ensures
      var sum := Values.Add(h, ReadRegister(m, args, FromOperand(bytes[at])),
                            ReadRegister(m, args, FromOperand(bytes[at + 2])));
      ThreeSteps(h, pool, args, m, bytes, at) == WriteRegister(Load(m, sum), FromOperand(bytes[at]), sum)
  {
    if bytes[at + 4] != 14 {
      var sum := Values.Add(h, ReadRegister(m, args, FromOperand(bytes[at])),
                            ReadRegister(m, args, FromOperand(bytes[at + 2])));
      ShortStarWrites(Load(m, sum), bytes[at + 4] as nat - 20, sum);
    }
  }

  /** The registers of the two machines agree afterwards; the accumulators need not. */
  lemma InPlaceMirrors(h: Host, pool: seq<ConstantValue>, args: seq<Value>, m: Machine, f: Frame, manyLocals: bool,
                       bytes: seq<uint8>, at: nat)
    requires Mirrors(args, m, f, manyLocals) && AddsInPlace(bytes, at) && SumInPlace(f, bytes, at).Some?
    requires Allowed(bytes[at], manyLocals) && Allowed(bytes[at + 2], manyLocals)
    ensures Mirrors(args, ThreeSteps(h, pool, args, m, bytes, at), AddedInPlace(f, bytes, at), manyLocals)
  {
    StoredInPlace(h, pool, args, m, bytes, at);
    SumInPlaceIsTheSum(h, f, bytes, at);
    var sum := SumInPlace(f, bytes, at).value;
    LoadMirrors(args, m, f, manyLocals, sum);
    WriteMirrors(args, Load(m, sum), f, manyLocals, bytes[at], sum);
  }

  lemma LoadMirrors(args: seq<Value>, m: Machine, f: Frame, manyLocals: bool, v: Value)
    requires Mirrors(args, m, f, manyLocals)
    ensures Mirrors(args, Load(m, v), f, manyLocals)
  {
    forall operand: uint8 | Allowed(operand, manyLocals)
      ensures ReadRegister(Load(m, v), args, FromOperand(operand)) == Slot(f, SlotOf(operand))
    {
      assert ReadRegister(m, args, FromOperand(operand)) == Slot(f, SlotOf(operand));
    }
  }

  /** The addition in place is the three instructions exactly when the accumulator happened to hold the
      sum already. */
  lemma InPlaceIsExactIff(h: Host, pool: seq<ConstantValue>, f: Frame, bytes: seq<uint8>, at: nat)
    requires AddsInPlace(bytes, at) && SumInPlace(f, bytes, at).Some?
    ensures
      var loaded := Executed(h, pool, f, Ldar, bytes, at);
      var added := Executed(h, pool, loaded, WithRegister(OpAdd), bytes, at + 2);
      (AddedInPlace(f, bytes, at) == Store(added, SlotOf(bytes[at]), added.accumulator))
      <==> (f.accumulator == SumInPlace(f, bytes, at).value)
  {
    ArithmeticAgrees(h, Slot(f, SlotOf(bytes[at])), Slot(f, SlotOf(bytes[at + 2])));
    SumInPlaceIsTheSum(h, f, bytes, at);
  }

  // ---- Whole runs ---------------------------------------------------------------------------

  /** What is left to run, and that the tiers agree on it. */
  ghost predicate Ahead(h: Host, pool: seq<ConstantValue>, args: seq<Value>, m: Machine, manyLocals: bool,
                        bytes: seq<uint8>, at: nat)
  {
    && at <= |bytes| && Accepted(bytes, at, false) && Tame(bytes, at, false, manyLocals)
    && OperandsAgree(h, pool, args, m, bytes, at, false)
  }

  /** What the machine returns when run from here. */
  function RanFrom(h: Host, pool: seq<ConstantValue>, args: seq<Value>, m: Machine, bytes: seq<uint8>, at: nat): Value
    requires at <= |bytes| && Accepted(bytes, at, false)
  {
    AcceptedCodeReturns(h, ReadUndefined, pool, args, m, bytes, at, false);
    RunFrom(h, ReadUndefined, pool, args, m, bytes, at, false).result.value
  }

  /** Running on from `next` at `onward` is running on from `m` at `at`. */
  ghost predicate LeadsTo(h: Host, pool: seq<ConstantValue>, args: seq<Value>, manyLocals: bool, bytes: seq<uint8>,
                          m: Machine, at: nat, next: Machine, onward: nat)
  {
    Ahead(h, pool, args, m, manyLocals, bytes, at) ==>
      && Ahead(h, pool, args, next, manyLocals, bytes, onward)
      && RanFrom(h, pool, args, m, bytes, at) == RanFrom(h, pool, args, next, bytes, onward)
  }

  lemma StepLeads(h: Host, pool: seq<ConstantValue>, args: seq<Value>, m: Machine, manyLocals: bool,
                  bc: Bytecode, bytes: seq<uint8>, at: nat)
    requires at < |bytes| && FromByte(bytes[at]) == Some(bc) && !bc.Return?
    requires at + 1 + OperandCount(bc) <= |bytes|
    ensures LeadsTo(h, pool, args, manyLocals, bytes, m, at,
                    RunInstruction(h, ReadUndefined, pool, args, m, bc, bytes, at + 1), at + 1 + OperandCount(bc))
  {
  }

  lemma LeadsOnwards(h: Host, pool: seq<ConstantValue>, args: seq<Value>, manyLocals: bool, bytes: seq<uint8>,
                     a: Machine, at: nat, b: Machine, onward: nat, c: Machine, later: nat)
    requires LeadsTo(h, pool, args, manyLocals, bytes, a, at, b, onward)
    requires LeadsTo(h, pool, args, manyLocals, bytes, b, onward, c, later)
    ensures LeadsTo(h, pool, args, manyLocals, bytes, a, at, c, later)
  {
  }

  lemma LastStepLeads(h: Host, pool: seq<ConstantValue>, args: seq<Value>, added: Machine, manyLocals: bool,
                      bytes: seq<uint8>, at: nat)
    requires AddsInPlace(bytes, at)
    ensures LeadsTo(h, pool, args, manyLocals, bytes, added, at + 4,
                    LastStep(h, pool, args, added, bytes, at), AfterInPlace(bytes, at))
  {
    var store := if bytes[at + 4] == 14 then Star else ShortStar(bytes[at + 4] as nat - 20);
    StepLeads(h, pool, args, added, manyLocals, store, bytes, at + 4);
  }

  lemma LoadLeads(h: Host, pool: seq<ConstantValue>, args: seq<Value>, m: Machine, manyLocals: bool,
                  bytes: seq<uint8>, at: nat)
    requires at < |bytes| && bytes[at] == 10 && AddsInPlace(bytes, at + 1)
    ensures LeadsTo(h, pool, args, manyLocals, bytes, m, at,
                    RunInstruction(h, ReadUndefined, pool, args, m, Ldar, bytes, at + 1), at + 2)
  {
    StepLeads(h, pool, args, m, manyLocals, Ldar, bytes, at);
  }

  lemma AdditionLeads(h: Host, pool: seq<ConstantValue>, args: seq<Value>, m: Machine, manyLocals: bool,
                      bytes: seq<uint8>, at: nat)
    requires AddsInPlace(bytes, at)
    ensures LeadsTo(h, pool, args, manyLocals, bytes, m, at + 1,
                    RunInstruction(h, ReadUndefined, pool, args, m, WithRegister(OpAdd), bytes, at + 2), at + 4)
  {
    StepLeads(h, pool, args, m, manyLocals, WithRegister(OpAdd), bytes, at + 1);
  }

  lemma TwoStepsLead(h: Host, pool: seq<ConstantValue>, args: seq<Value>, m: Machine, manyLocals: bool,
                     bytes: seq<uint8>, at: nat)
    requires at < |bytes| && bytes[at] == 10 && AddsInPlace(bytes, at + 1)
    ensures LeadsTo(h, pool, args, manyLocals, bytes, m, at, TwoSteps(h, pool, args, m, bytes, at + 1), at + 5)
  {
    var loaded := RunInstruction(h, ReadUndefined, pool, args, m, Ldar, bytes, at + 1);
    LoadLeads(h, pool, args, m, manyLocals, bytes, at);
    AdditionLeads(h, pool, args, loaded, manyLocals, bytes, at + 1);
    LeadsOnwards(h, pool, args, manyLocals, bytes, m, at, loaded, at + 2,
                 TwoSteps(h, pool, args, m, bytes, at + 1), at + 5);
  }

  lemma ThreeStepsLead(h: Host, pool: seq<ConstantValue>, args: seq<Value>, m: Machine, manyLocals: bool,
                       bytes: seq<uint8>, at: nat)
    requires at < |bytes| && bytes[at] == 10 && AddsInPlace(bytes, at + 1)
    ensures LeadsTo(h, pool, args, manyLocals, bytes, m, at,
                    ThreeSteps(h, pool, args, m, bytes, at + 1), AfterInPlace(bytes, at + 1))
  {
    var added := TwoSteps(h, pool, args, m, bytes, at + 1);
    TwoStepsLead(h, pool, args, m, manyLocals, bytes, at);
    LastStepLeads(h, pool, args, added, manyLocals, bytes, at + 1);
    LeadsOnwards(h, pool, args, manyLocals, bytes, m, at, added, at + 5,
                 LastStep(h, pool, args, added, bytes, at + 1), AfterInPlace(bytes, at + 1));
  }

  lemma InPlaceNamesAllowed(bytes: seq<uint8>, at: nat, manyLocals: bool)
    requires at < |bytes| && Accepted(bytes, at, false) && Tame(bytes, at, false, manyLocals)
    requires bytes[at] == 10 && AddsInPlace(bytes, at + 1)
    ensures Allowed(bytes[at + 1], manyLocals) && Allowed(bytes[at + 3], manyLocals)
    ensures Reloads(bytes, AfterInPlace(bytes, at + 1))
  {
    assert Tame(bytes, at + 2, false, manyLocals);
  }

  /** The registers mirror each other, and so do the accumulators unless the code reloads its. */
  ghost predicate InStep(args: seq<Value>, m: Machine, f: Frame, manyLocals: bool, bytes: seq<uint8>, at: nat) {
    Mirrors(args, m, f, manyLocals) && (SameAccumulator(m, f) || Reloads(bytes, at))
  }

  lemma PlainStep(h: Host, pool: seq<ConstantValue>, args: seq<Value>, m: Machine, f: Frame, manyLocals: bool,
                  bytes: seq<uint8>, at: nat)
    requires ConvertsInOrder(h) && at < |bytes| && Ahead(h, pool, args, m, manyLocals, bytes, at)
    requires InStep(args, m, f, manyLocals, bytes, at) && !FromByte(bytes[at]).value.Return?
    ensures
      var bc := FromByte(bytes[at]).value;
      InStep(args, RunInstruction(h, ReadUndefined, pool, args, m, bc, bytes, at + 1),
             Executed(h, pool, f, bc, bytes, at + 1), manyLocals, bytes, at + 1 + OperandCount(bc))
  {
    var bc := FromByte(bytes[at]).value;
    StepMirrors(h, pool, args, m, f, manyLocals, bc, bytes, at + 1);
  }

  lemma InPlaceStep(h: Host, pool: seq<ConstantValue>, args: seq<Value>, m: Machine, f: Frame, manyLocals: bool,
                    bytes: seq<uint8>, at: nat)
    requires at < |bytes| && Ahead(h, pool, args, m, manyLocals, bytes, at)
    requires InStep(args, m, f, manyLocals, bytes, at) && bytes[at] == 10
    requires AddsInPlace(bytes, at + 1) && SumInPlace(f, bytes, at + 1).Some?
    ensures InStep(args, ThreeSteps(h, pool, args, m, bytes, at + 1), AddedInPlace(f, bytes, at + 1), manyLocals,
                   bytes, AfterInPlace(bytes, at + 1))
  {
    InPlaceNamesAllowed(bytes, at, manyLocals);
    InPlaceMirrors(h, pool, args, m, f, manyLocals, bytes, at + 1);
  }

  lemma ReturnAgrees(h: Host, pool: seq<ConstantValue>, args: seq<Value>, m: Machine, f: Frame,
                     bytes: seq<uint8>, at: nat)
    requires at < |bytes| && Accepted(bytes, at, false) && FromByte(bytes[at]) == Some(Bytecode.Return)
    requires SameAccumulator(m, f)
    ensures InterpretFrom(h, pool, bytes, f, at) == Returned(RanFrom(h, pool, args, m, bytes, at))
  {
    var done := RunInstruction(h, ReadUndefined, pool, args, m, Bytecode.Return, bytes, at + 1);
    assert RunFrom(h, ReadUndefined, pool, args, done, bytes, |bytes|, true) == done;
  }

  lemma InPlaceInterpreted(h: Host, pool: seq<ConstantValue>, bytes: seq<uint8>, f: Frame, at: nat)
    requires CanDispatch(bytes, at) && RunsInPlace(f, FromByte(bytes[at]).value, bytes, at + 1)
    ensures InterpretFrom(h, pool, bytes, f, at)
         == InterpretFrom(h, pool, bytes, AddedInPlace(f, bytes, at + 1), AfterInPlace(bytes, at + 1))
  {
  }

  lemma AheadCanDispatch(h: Host, pool: seq<ConstantValue>, args: seq<Value>, m: Machine, manyLocals: bool,
                         bytes: seq<uint8>, at: nat)
    requires Ahead(h, pool, args, m, manyLocals, bytes, at)
    ensures CanDispatch(bytes, at) && at < |bytes|
    ensures Width(FromByte(bytes[at]).value) == OperandCount(FromByte(bytes[at]).value)
    ensures at + 1 + OperandCount(FromByte(bytes[at]).value) <= |bytes|
    ensures FromByte(bytes[at]) == Some(Ldar) ==> bytes[at] == 10
  {
  }

  /** From mirrored states, on code and operands where the tiers agree, both return one value. */
  lemma {:induction false} RunsAgree(h: Host, pool: seq<ConstantValue>, args: seq<Value>, m: Machine, f: Frame,
                                     manyLocals: bool, bytes: seq<uint8>, at: nat)
    requires ConvertsInOrder(h) && Ahead(h, pool, args, m, manyLocals, bytes, at)
    requires InStep(args, m, f, manyLocals, bytes, at)
    ensures InterpretFrom(h, pool, bytes, f, at) == Returned(RanFrom(h, pool, args, m, bytes, at))
    decreases |bytes| - at
  {
    AheadCanDispatch(h, pool, args, m, manyLocals, bytes, at);
    hide Accepted, Tame, OperandsAgree, InterpretFrom, RanFrom;
    var bc := FromByte(bytes[at]).value;
    if bc.Return? {
      ReturnAgrees(h, pool, args, m, f, bytes, at);
    } else if RunsInPlace(f, bc, bytes, at + 1) {
      ThreeStepsLead(h, pool, args, m, manyLocals, bytes, at);
      InPlaceStep(h, pool, args, m, f, manyLocals, bytes, at);
      InPlaceInterpreted(h, pool, bytes, f, at);
      RunsAgree(h, pool, args, ThreeSteps(h, pool, args, m, bytes, at + 1), AddedInPlace(f, bytes, at + 1),
                manyLocals, bytes, AfterInPlace(bytes, at + 1));
    } else {
      StepLeads(h, pool, args, m, manyLocals, bc, bytes, at);
      PlainStep(h, pool, args, m, f, manyLocals, bytes, at);
      OneInstruction(h, pool, bytes, f, at);
      RunsAgree(h, pool, args, RunInstruction(h, ReadUndefined, pool, args, m, bc, bytes, at + 1),
                Executed(h, pool, f, bc, bytes, at + 1), manyLocals, bytes, at + 1 + OperandCount(bc));
    }
  }

  // ---- From the start -----------------------------------------------------------------------

  lemma {:induction false} ArgumentsAreInSlots(receiver: Value, arguments: seq<Value>, n: nat, slot: nat)
    requires n <= |arguments|
    ensures
      var slots := ArgumentSlots(receiver, arguments, n);
      var index := if slot < 4 then slot else slot - 12;
      (if slot in slots then slots[slot] else Undefined)
        == if index <= n && (slot < 4 || slot >= 16) then ([receiver] + arguments)[index] else Undefined
  {
    if n > 0 { ArgumentsAreInSlots(receiver, arguments, n - 1, slot); }
  }

  /** Before the first instruction the two machines mirror each other. */
  lemma InitialMirrors(receiver: Value, arguments: seq<Value>, manyLocals: bool)
    requires manyLocals ==> |arguments| <= 3
    ensures Mirrors([receiver] + arguments, INITIAL_MACHINE, InitialFrame(receiver, arguments), manyLocals)
  {
    var args := [receiver] + arguments;
    forall operand: uint8 | Allowed(operand, manyLocals)
      ensures ReadRegister(INITIAL_MACHINE, args, FromOperand(operand))
           == Slot(InitialFrame(receiver, arguments), SlotOf(operand))
    {
      ArgumentsAreInSlots(receiver, arguments, |arguments|, SlotOf(operand));
    }
  }

  lemma JumpIsRefused(bytes: seq<uint8>, at: nat)
    requires at < |bytes| && bytes[at] == 85
    ensures !Accepted(bytes, at, false)
  {
  }

  /** Accepted code has no base case to shortcut: after its test comes a jump. */
  lemma BaseCaseIsRefused(bytes: seq<uint8>)
    requires HasBaseCase(bytes)
    ensures !Accepted(bytes, 0, false)
  {
    JumpIsRefused(bytes, 8);
    assert !Accepted(bytes, 5, false);
    assert !Accepted(bytes, 3, false);
    assert !Accepted(bytes, 2, false);
  }

  /** Code and arguments on which nothing can tell the tiers apart. */
  ghost predicate NothingTellsThemApart(h: Host, pool: seq<ConstantValue>, receiver: Value, arguments: seq<Value>,
                                        bytes: seq<uint8>, manyLocals: bool)
  {
    && ConvertsInOrder(h) && Accepted(bytes, 0, false) && Tame(bytes, 0, false, manyLocals)
    && (manyLocals ==> |arguments| <= 3)
    && OperandsAgree(h, pool, [receiver] + arguments, INITIAL_MACHINE, bytes, 0, false)
  }

  /** The machine of the graph tier returns what the interpreter returns. */
  lemma MachineAgreesWithInterpreter(h: Host, pool: seq<ConstantValue>, receiver: Value, arguments: seq<Value>,
                                     bytes: seq<uint8>, manyLocals: bool)
    requires NothingTellsThemApart(h, pool, receiver, arguments, bytes, manyLocals)
    ensures Interpret(h, pool, receiver, arguments, bytes)
         == Returned(Ran(h, ReadUndefined, pool, [receiver] + arguments, bytes))
  {
    if HasBaseCase(bytes) { BaseCaseIsRefused(bytes); }
    InitialMirrors(receiver, arguments, manyLocals);
    RunsAgree(h, pool, [receiver] + arguments, INITIAL_MACHINE, InitialFrame(receiver, arguments),
              manyLocals, bytes, 0);
  }

  /** The built graph returns what the interpreter returns. */
  lemma BuiltGraphIsInterpretedCode(h: Host, pool: seq<ConstantValue>, receiver: Value, arguments: seq<Value>,
                                    bytes: seq<uint8>, manyLocals: bool)
    requires NothingTellsThemApart(h, pool, receiver, arguments, bytes, manyLocals)
    requires LoadedBeforeRead(bytes, 0, false)
    ensures StateOk(Built(h, pool, bytes))
    ensures Interpret(h, pool, receiver, arguments, bytes)
         == Returned(Result(h, Built(h, pool, bytes).nodes, Built(h, pool, bytes).returnIds, [receiver] + arguments))
  {
    MachineAgreesWithInterpreter(h, pool, receiver, arguments, bytes, manyLocals);
    BuiltGraphRunsLoadedCode(h, pool, [receiver] + arguments, bytes);
  }

  /** End to end: compiled and optimized code returns what the interpreter returns, on all arguments on
      which the rewrite rules are exact. */
  lemma CompiledCodeIsInterpretedCode(h: Host, pool: seq<ConstantValue>, receiver: Value, arguments: seq<Value>,
                                      bytes: seq<uint8>, manyLocals: bool)
    requires NothingTellsThemApart(h, pool, receiver, arguments, bytes, manyLocals)
    requires LoadedBeforeRead(bytes, 0, false)
    requires StateOk(Built(h, pool, bytes))
    requires Compiler.RulesAreExact(h, Built(h, pool, bytes), [receiver] + arguments)
    ensures
      var s := Built(h, pool, bytes);
      var optimized := Optimizer.Optimized(h, s.nodes, s.returnIds);
      && WellFormed(optimized) && ReturnsOk(optimized, s.returnIds)
      && Interpret(h, pool, receiver, arguments, bytes)
           == Returned(Result(h, optimized, s.returnIds, [receiver] + arguments))
  {
    MachineAgreesWithInterpreter(h, pool, receiver, arguments, bytes, manyLocals);
    Compiler.CompiledCodeRunsTheCode(h, pool, [receiver] + arguments, bytes);
  }

  // ---- Called without arguments -------------------------------------------------------------

  /** An undefined receiver is as good as none. */
  lemma {:induction false} UndefinedReceiverMeans(h: Host, nodes: seq<Node>, id: nat)
    requires WellFormed(nodes) && id < |nodes|
    ensures Meaning(h, nodes, [Undefined], id) == Meaning(h, nodes, [], id)
    decreases id
  {
    var node := nodes[id];
    assert NodeOk(node, id);
    forall k | 0 <= k < |node.inputs|
      ensures Meaning(h, nodes, [Undefined], node.inputs[k]) == Meaning(h, nodes, [], node.inputs[k])
    {
      UndefinedReceiverMeans(h, nodes, node.inputs[k]);
    }
  }

  /** So without arguments both tiers can be handed the same empty list. */
  lemma CompiledCodeIsInterpretedWithoutArguments(h: Host, pool: seq<ConstantValue>, bytes: seq<uint8>,
                                                  manyLocals: bool)
    requires NothingTellsThemApart(h, pool, Undefined, [], bytes, manyLocals)
    requires LoadedBeforeRead(bytes, 0, false)
    requires StateOk(Built(h, pool, bytes))
    requires Compiler.RulesAreExact(h, Built(h, pool, bytes), [Undefined])
    ensures
      var s := Built(h, pool, bytes);
      var optimized := Optimizer.Optimized(h, s.nodes, s.returnIds);
      && WellFormed(optimized) && ReturnsOk(optimized, s.returnIds)
      && Interpret(h, pool, Undefined, [], bytes) == Returned(Result(h, optimized, s.returnIds, []))
  {
    assert [Undefined] + [] == [Undefined];
    CompiledCodeIsInterpretedCode(h, pool, Undefined, [], bytes, manyLocals);
    var s := Built(h, pool, bytes);
    var optimized := Optimizer.Optimized(h, s.nodes, s.returnIds);
    forall id | 0 <= id < |optimized|
      ensures Meaning(h, optimized, [Undefined], id) == Meaning(h, optimized, [], id)
    {
      UndefinedReceiverMeans(h, optimized, id);
    }
    if |s.returnIds| > 0 {
      ResultIsReturnMeaning(h, optimized, s.returnIds, []);
      ResultIsReturnMeaning(h, optimized, s.returnIds, [Undefined]);
    }
  }
}
