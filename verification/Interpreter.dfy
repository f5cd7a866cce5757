/** The interpreter on the bytecodes the optimizing tier accepts (src/interpreter/interpreter.rs). */
module Interpreter {
  // A machine that runs one instruction at a time, and the dispatch loop in the source's form, with
  // the instruction pairs and triples it runs in one go. Every fusion but one is unobservable; the
  // one that is not, the addition in place, is part of the machine. Code with jumps, calls or
  // properties is beyond the model.

  import opened Options
  import opened Values
  import opened Bytecodes
  import opened Comparisons

  // ---- The register file --------------------------------------------------------------------

  /** `OP_TO_SLOT`: parameters 0 to 3 take slots 0 to 3, locals the slots from 4, later parameters
      the slots from 16, and the frame slots 8 to 15. */
  function SlotOf(operand: uint8): nat {
    var op := Signed(operand);
    if op <= -6 then -2 - op
    else if op >= 7 then 16 + (op - 7)
    else if op >= 3 then op - 3
    else 10 - op
  }

  function ParameterSlot(index: nat): nat {
    if index < 4 then index else 16 + (index - 4)
  }

  /** Slots that were never written are undefined. */
  datatype Frame = Frame(accumulator: Value, slots: map<nat, Value>)

  function Slot(f: Frame, slot: nat): Value {
    if slot in f.slots then f.slots[slot] else Undefined
  }

  function Store(f: Frame, slot: nat, v: Value): Frame {
    f.(slots := f.slots[slot := v])
  }

  /** The receiver and the first `n` arguments in their slots. */
  function ArgumentSlots(receiver: Value, arguments: seq<Value>, n: nat): map<nat, Value>
    requires n <= |arguments|
  {
    if n == 0 then (if receiver.Undefined? then map[] else map[0 := receiver])
    else ArgumentSlots(receiver, arguments, n - 1)[ParameterSlot(n) := arguments[n - 1]]
  }

  function InitialFrame(receiver: Value, arguments: seq<Value>): Frame {
    Frame(Undefined, ArgumentSlots(receiver, arguments, |arguments|))
  }

  // ---- One instruction ----------------------------------------------------------------------

  datatype Outcome = Returned(value: Value) | UnknownOpcode(at: nat) | BeyondModel

  /** The interpreter's `Negate` has no feedback operand. */
  function Width(bc: Bytecode): nat {
    if bc.Negate? then 0 else OperandCount(bc)
  }

  /** An instruction other than a return; `at` is the position after its opcode. */
  function Executed(h: Host, pool: seq<ConstantValue>, f: Frame, bc: Bytecode, bytes: seq<uint8>, at: nat): Frame
    requires at + OperandsRead(bc) <= |bytes|
  {
    match bc
    case LdaZero => f.(accumulator := Smi(0))
    case LdaUndefined => f.(accumulator := Undefined)
    case LdaNull => f.(accumulator := Null)
    case LdaTrue => f.(accumulator := Boolean(true))
    case LdaFalse => f.(accumulator := Boolean(false))
    case LdaSmi => f.(accumulator := Smi(Signed(bytes[at]) as int32))
    case LdaConstant => f.(accumulator := PoolValue(h, pool, bytes[at] as nat))
    case Ldar => f.(accumulator := Slot(f, SlotOf(bytes[at])))
    case Star => Store(f, SlotOf(bytes[at]), f.accumulator)
    case ShortStar(index) => Store(f, 4 + index, f.accumulator)
    case Mov => Store(f, SlotOf(bytes[at + 1]), Slot(f, SlotOf(bytes[at])))
    case WithRegister(op) => f.(accumulator := Interpreted(h, op, f.accumulator, Slot(f, SlotOf(bytes[at]))))
    case WithSmi(op) => f.(accumulator := Interpreted(h, op, f.accumulator, Smi(Signed(bytes[at]) as int32)))
    case Negate => f.(accumulator := InterpretNegate(h, f.accumulator))
    case Return => f
    case Unsupported => f
  }

  // ---- The addition in place ----------------------------------------------------------------

  /** The store at `at` that names the register of operand `target`: how many bytes it takes, 0 if
      there is none. */
  function StoreLength(bytes: seq<uint8>, at: nat, target: uint8): nat {
    if at >= |bytes| then 0
    else if 20 <= bytes[at] <= 35 then (if -6 - (bytes[at] as int - 20) == Signed(target) then 1 else 0)
    else if bytes[at] == 14 && at + 1 < |bytes| && bytes[at + 1] == target then 2
    else 0
  }

  /** `Ldar x; Add y; Star x` on two different slots of the fixed array; `at` is after the `Ldar`. */
  predicate AddsInPlace(bytes: seq<uint8>, at: nat) {
    && at + 3 < |bytes| && bytes[at + 1] == 37
    && StoreLength(bytes, at + 4, bytes[at]) > 0
    && SlotOf(bytes[at]) < 16 && SlotOf(bytes[at + 2]) < 16 && SlotOf(bytes[at]) != SlotOf(bytes[at + 2])
  }

  /** The sum that path stores: of two strings, or of two small integers without overflow. */
  function SumInPlace(f: Frame, bytes: seq<uint8>, at: nat): Option<Value>
    requires AddsInPlace(bytes, at)
  {
    var x, y := Slot(f, SlotOf(bytes[at])), Slot(f, SlotOf(bytes[at + 2]));
    if x.Str? && y.Str? then Some(Str(x.s + y.s))
    else if x.Smi? && y.Smi? && InRange(x.n as int + y.n as int) then Some(Smi((x.n as int + y.n as int) as int32))
    else None
  }

  predicate RunsInPlace(f: Frame, bc: Bytecode, bytes: seq<uint8>, at: nat) {
    bc.Ldar? && AddsInPlace(bytes, at) && SumInPlace(f, bytes, at).Some?
  }

  /** It leaves the accumulator as it was before the three instructions. */
  function AddedInPlace(f: Frame, bytes: seq<uint8>, at: nat): Frame
    requires AddsInPlace(bytes, at) && SumInPlace(f, bytes, at).Some?
  {
    Store(f, SlotOf(bytes[at]), SumInPlace(f, bytes, at).value)
  }

  function AfterInPlace(bytes: seq<uint8>, at: nat): nat
    requires AddsInPlace(bytes, at)
  {
    at + 4 + StoreLength(bytes, at + 4, bytes[at])
  }

  // ---- Running ------------------------------------------------------------------------------

  predicate CanDispatch(bytes: seq<uint8>, at: nat) {
    match DecodedAt(bytes, at)
    case None => false
    case Some(bc) => !bc.Unsupported? && at + 1 + OperandsRead(bc) <= |bytes|
  }

  function InterpretFrom(h: Host, pool: seq<ConstantValue>, bytes: seq<uint8>, f: Frame, at: nat): Outcome
    decreases |bytes| - at
  {
    if at >= |bytes| then Returned(f.accumulator)
    else if FromByte(bytes[at]).None? then UnknownOpcode(at)
    else if !CanDispatch(bytes, at) then BeyondModel
    else
      var bc := FromByte(bytes[at]).value;
      if bc.Return? then Returned(f.accumulator)
      else if RunsInPlace(f, bc, bytes, at + 1) then
        InterpretFrom(h, pool, bytes, AddedInPlace(f, bytes, at + 1), AfterInPlace(bytes, at + 1))
      else InterpretFrom(h, pool, bytes, Executed(h, pool, f, bc, bytes, at + 1), at + 1 + Width(bc))
  }

  /** The shape of code whose small arguments are returned unseen (bytecode_array.rs:265-285). */
  predicate HasBaseCase(bytes: seq<uint8>) {
    && |bytes| >= 13 && bytes[0] == 3 && bytes[2] == 20 && bytes[3] == 10 && bytes[4] == 4
    && (bytes[5] == 73 || bytes[5] == 75) && bytes[6] == 250 && bytes[8] == 85 && bytes[9] == 5
    && bytes[10] == 10 && bytes[11] == 4 && bytes[12] == 94
  }

  /** `execute_with_receiver`. */
  function Interpret(h: Host, pool: seq<ConstantValue>, receiver: Value, arguments: seq<Value>, bytes: seq<uint8>):
      Outcome {
    if HasBaseCase(bytes) then BeyondModel
    else InterpretFrom(h, pool, bytes, InitialFrame(receiver, arguments), 0)
  }

  lemma OneInstruction(h: Host, pool: seq<ConstantValue>, bytes: seq<uint8>, f: Frame, at: nat)
    requires CanDispatch(bytes, at)
    requires
      var bc := FromByte(bytes[at]).value;
      !bc.Return? && !RunsInPlace(f, bc, bytes, at + 1)
    ensures
      var bc := FromByte(bytes[at]).value;
      && at + 1 + OperandsRead(bc) <= |bytes|
      && InterpretFrom(h, pool, bytes, f, at)
           == InterpretFrom(h, pool, bytes, Executed(h, pool, f, bc, bytes, at + 1), at + 1 + Width(bc))
  {
  }

  lemma ShortStarStep(h: Host, pool: seq<ConstantValue>, bytes: seq<uint8>, f: Frame, at: nat)
    requires at < |bytes| && 20 <= bytes[at] <= 35
    ensures InterpretFrom(h, pool, bytes, f, at)
         == InterpretFrom(h, pool, bytes, Store(f, 4 + (bytes[at] as nat - 20), f.accumulator), at + 1)
  {
    OneInstruction(h, pool, bytes, f, at);
  }

  lemma StarStep(h: Host, pool: seq<ConstantValue>, bytes: seq<uint8>, f: Frame, at: nat)
    requires at + 1 < |bytes| && bytes[at] == 14
    ensures InterpretFrom(h, pool, bytes, f, at)
         == InterpretFrom(h, pool, bytes, Store(f, SlotOf(bytes[at + 1]), f.accumulator), at + 2)
  {
    OneInstruction(h, pool, bytes, f, at);
  }

  lemma LdarStep(h: Host, pool: seq<ConstantValue>, bytes: seq<uint8>, f: Frame, at: nat)
    requires at + 1 < |bytes| && bytes[at] == 10 && !RunsInPlace(f, Ldar, bytes, at + 1)
    ensures InterpretFrom(h, pool, bytes, f, at)
         == InterpretFrom(h, pool, bytes, f.(accumulator := Slot(f, SlotOf(bytes[at + 1]))), at + 2)
  {
    OneInstruction(h, pool, bytes, f, at);
  }

  // ---- The dispatch loop --------------------------------------------------------------------

  /** The instructions after which the loop looks ahead for a store or a return. */
  predicate LooksAhead(bc: Bytecode) {
    match bc
    case WithRegister(op) =>
      !op.OpTestEqual? && !op.OpTestEqualStrict? && !op.OpTestLessThan? && !op.OpTestGreaterThan?
      && !op.OpTestLessThanOrEqual? && !op.OpTestGreaterThanOrEqual?
    case WithSmi(op) => !op.OpShiftLeft? && !op.OpShiftRight?
    case Ldar => false
    case _ => LoadsAccumulator(bc)
  }

  /** `Ldar x; AddSmi n; Star y` or `Ldar x; ModSmi n; Star y`: the slot of `y`, and the length of the
      store; `at` is after the `Ldar`. */
  function FusedTarget(bytes: seq<uint8>, at: nat): Option<(nat, nat)> {
    if at + 4 >= |bytes| || (bytes[at + 1] != 49 && bytes[at + 1] != 53) then None
    else if 20 <= bytes[at + 4] <= 35 then Some((4 + (bytes[at + 4] as nat - 20), 1))
    else if bytes[at + 4] == 14 && at + 5 < |bytes| then Some((SlotOf(bytes[at + 5]), 2))
    else None
  }

  function FusedValue(h: Host, bytes: seq<uint8>, at: nat, x: Value): Option<Value>
    requires at + 2 < |bytes|
  {
    var imm := Signed(bytes[at + 2]);
    if !x.Smi? then None
    else if bytes[at + 1] == 49 then
      if InRange(x.n as int + imm) then Some(Smi((x.n as int + imm) as int32)) else None
    else if imm == 0 then None
    else Some(h.remainder(x, Smi(imm as int32)))
  }

  /** The operation alone; `at` is where it starts. */
  lemma FusedOperation(h: Host, pool: seq<ConstantValue>, bytes: seq<uint8>, f: Frame, at: nat)
    requires at > 0 && at + 1 < |bytes| && (bytes[at] == 49 || bytes[at] == 53)
    requires FusedValue(h, bytes, at - 1, f.accumulator).Some?
    ensures
      var v := FusedValue(h, bytes, at - 1, f.accumulator).value;
      InterpretFrom(h, pool, bytes, f, at) == InterpretFrom(h, pool, bytes, f.(accumulator := v), at + 3)
  {
    OneInstruction(h, pool, bytes, f, at);
  }

  /** The store alone. */
  lemma FusedStore(h: Host, pool: seq<ConstantValue>, bytes: seq<uint8>, f: Frame, at: nat)
    requires at < |bytes| && FusedTarget(bytes, at).Some?
    ensures
      var (slot, length) := FusedTarget(bytes, at).value;
      InterpretFrom(h, pool, bytes, f, at + 4)
        == InterpretFrom(h, pool, bytes, Store(f, slot, f.accumulator), at + 4 + length)
  {
    var store := at + 4;
    if bytes[store] == 14 {
      StarStep(h, pool, bytes, f, store);
    } else {
      ShortStarStep(h, pool, bytes, f, store);
    }
  }

  /** The three instructions, one after the other. */
  lemma FusedImmediate(h: Host, pool: seq<ConstantValue>, bytes: seq<uint8>, f: Frame, at: nat)
    requires at < |bytes| && bytes[at] == 10 && FusedTarget(bytes, at + 1).Some?
    requires FusedValue(h, bytes, at + 1, Slot(f, SlotOf(bytes[at + 1]))).Some?
    ensures
      var v := FusedValue(h, bytes, at + 1, Slot(f, SlotOf(bytes[at + 1]))).value;
      var (slot, length) := FusedTarget(bytes, at + 1).value;
      InterpretFrom(h, pool, bytes, f, at)
        == InterpretFrom(h, pool, bytes, Store(f.(accumulator := v), slot, v), at + 5 + length)
  {
    LdarStep(h, pool, bytes, f, at);
    var loaded := f.(accumulator := Slot(f, SlotOf(bytes[at + 1])));
    FusedOperation(h, pool, bytes, loaded, at + 2);
    var v := FusedValue(h, bytes, at + 1, Slot(f, SlotOf(bytes[at + 1]))).value;
    FusedStore(h, pool, bytes, f.(accumulator := v), at + 1);
  }

  class InterpreterFrame {
    var accumulator: Value
    var slots: map<nat, Value>

    ghost function State(): Frame
      reads this
    {
      Frame(accumulator, slots)
    }

    constructor (receiver: Value, arguments: seq<Value>)
      ensures State() == InitialFrame(receiver, arguments)
    {
      accumulator := Undefined;
      slots := if receiver.Undefined? then map[] else map[0 := receiver];
      new;
      for i := 0 to |arguments|
        invariant State() == Frame(Undefined, ArgumentSlots(receiver, arguments, i))
      {
        slots := slots[ParameterSlot(1 + i) := arguments[i]];
      }
    }

    function ReadSlot(slot: nat): Value
      reads this
    {
      if slot in slots then slots[slot] else Undefined
    }

    method WriteSlot(slot: nat, v: Value)
      modifies this`slots
      ensures State() == Store(old(State()), slot, v)
    {
      slots := slots[slot := v];
    }

    /** `try_fuse_star!`: runs a store or a return that follows at once. */
    method FuseStar(h: Host, pool: seq<ConstantValue>, bytes: seq<uint8>, at: nat)
      returns (pc: nat, result: Option<Value>)
      modifies this`slots
      ensures at <= pc
      ensures InterpretFrom(h, pool, bytes, old(State()), at)
           == if result.Some? then Returned(result.value) else InterpretFrom(h, pool, bytes, State(), pc)
    {
      pc, result := at, None;
      if pc < |bytes| {
        if 20 <= bytes[pc] <= 31 {
          ShortStarStep(h, pool, bytes, State(), pc);
          WriteSlot(4 + (bytes[pc] as nat - 20), accumulator);
          pc := pc + 1;
        } else if bytes[pc] == 14 && pc + 1 < |bytes| {
          StarStep(h, pool, bytes, State(), pc);
          WriteSlot(SlotOf(bytes[pc + 1]), accumulator);
          pc := pc + 2;
        } else if bytes[pc] == 94 {
          result := Some(accumulator);
        }
      }
    }

    /** The addition in place; `at` is after the `Ldar`. */
    method AddInPlace(bytes: seq<uint8>, at: nat) returns (done: bool)
      requires AddsInPlace(bytes, at)
      modifies this`slots
      ensures done <==> SumInPlace(old(State()), bytes, at).Some?
      ensures State() == if done then AddedInPlace(old(State()), bytes, at) else old(State())
    {
      var x, y := ReadSlot(SlotOf(bytes[at])), ReadSlot(SlotOf(bytes[at + 2]));
      done := true;
      if x.Str? && y.Str? {
        WriteSlot(SlotOf(bytes[at]), Str(x.s + y.s));
      } else if x.Smi? && y.Smi? && InRange(x.n as int + y.n as int) {
        WriteSlot(SlotOf(bytes[at]), Smi((x.n as int + y.n as int) as int32));
      } else {
        done := false;
      }
    }

    /** `Ldar` with an immediate addition or remainder and a store. */
    method FuseImmediate(h: Host, pool: seq<ConstantValue>, bytes: seq<uint8>, at: nat) returns (pc: nat, done: bool)
      requires at + 1 < |bytes| && bytes[at] == 10
      modifies this
      ensures at < pc
      ensures done ==>
        InterpretFrom(h, pool, bytes, old(State()), at) == InterpretFrom(h, pool, bytes, State(), pc)
      ensures !done ==> State() == old(State())
    {
      pc, done := at + 2, false;
      var source := SlotOf(bytes[at + 1]);
      var target := FusedTarget(bytes, at + 1);
      if target.Some? && source < 16 && target.value.0 < 16 {
        var v := FusedValue(h, bytes, at + 1, ReadSlot(source));
        if v.Some? {
          FusedImmediate(h, pool, bytes, State(), at);
          accumulator := v.value;
          WriteSlot(target.value.0, v.value);
          pc, done := at + 5 + target.value.1, true;
        }
      }
    }

    /** `Ldar`, with the instructions it runs along. */
    method LoadRegister(h: Host, pool: seq<ConstantValue>, bytes: seq<uint8>, at: nat)
      returns (pc: nat, result: Option<Value>)
      requires at + 1 < |bytes| && bytes[at] == 10
      modifies this
      ensures at < pc
      ensures InterpretFrom(h, pool, bytes, old(State()), at)
           == if result.Some? then Returned(result.value) else InterpretFrom(h, pool, bytes, State(), pc)
    {
      result := None;
      var done := false;
      if AddsInPlace(bytes, at + 1) {
        done := AddInPlace(bytes, at + 1);
        if done {
          pc := AfterInPlace(bytes, at + 1);
          return;
        }
      }
      LdarStep(h, pool, bytes, State(), at);
      pc, done := FuseImmediate(h, pool, bytes, at);
      if done {
        return;
      }
      pc := at + 2;
      accumulator := ReadSlot(SlotOf(bytes[at + 1]));
      if pc < |bytes| && bytes[pc] == 94 {
        result := Some(accumulator);
      }
    }

    /** Every other arm of the dispatch but the return. */
    method Execute(h: Host, pool: seq<ConstantValue>, bc: Bytecode, bytes: seq<uint8>, at: nat)
      requires at + OperandsRead(bc) <= |bytes| && !bc.Ldar?
      modifies this
      ensures State() == Executed(h, pool, old(State()), bc, bytes, at)
    {
      match bc {
        case LdaZero => accumulator := Smi(0);
        case LdaUndefined => accumulator := Undefined;
        case LdaNull => accumulator := Null;
        case LdaTrue => accumulator := Boolean(true);
        case LdaFalse => accumulator := Boolean(false);
        case LdaSmi => accumulator := Smi(Signed(bytes[at]) as int32);
        case LdaConstant => accumulator := PoolValue(h, pool, bytes[at] as nat);
        case Star => WriteSlot(SlotOf(bytes[at]), accumulator);
        case ShortStar(index) => WriteSlot(4 + index, accumulator);
        case Mov =>
          var v := ReadSlot(SlotOf(bytes[at]));
          WriteSlot(SlotOf(bytes[at + 1]), v);
        case WithRegister(op) => accumulator := Interpreted(h, op, accumulator, ReadSlot(SlotOf(bytes[at])));
        case WithSmi(op) => accumulator := Interpreted(h, op, accumulator, Smi(Signed(bytes[at]) as int32));
        case Negate => accumulator := InterpretNegate(h, accumulator);
        case _ =>
      }
    }

    /** The dispatch loop: its fusions are not observable. */
    method Run(h: Host, pool: seq<ConstantValue>, bytes: seq<uint8>) returns (r: Outcome)
      modifies this
      ensures r == InterpretFrom(h, pool, bytes, old(State()), 0)
    {
      var pc := 0;
      while pc < |bytes|
        invariant InterpretFrom(h, pool, bytes, State(), pc) == InterpretFrom(h, pool, bytes, old(State()), 0)
        decreases |bytes| - pc
      {
        var decoded := FromByte(bytes[pc]);
        if decoded.None? {
          return UnknownOpcode(pc);
        }
        var bc := decoded.value;
        if !CanDispatch(bytes, pc) {
          return BeyondModel;
        }
        if bc.Return? {
          return Returned(accumulator);
        }
        var result: Option<Value> := None;
        if bc.Ldar? {
          pc, result := LoadRegister(h, pool, bytes, pc);
        } else {
          OneInstruction(h, pool, bytes, State(), pc);
          Execute(h, pool, bc, bytes, pc + 1);
          pc := pc + 1 + Width(bc);
          if LooksAhead(bc) {
            pc, result := FuseStar(h, pool, bytes, pc);
          }
        }
        if result.Some? {
          return Returned(result.value);
        }
      }
      r := Returned(accumulator);
    }
  }

  method ExecuteWithReceiver(h: Host, pool: seq<ConstantValue>, receiver: Value, arguments: seq<Value>,
                             bytes: seq<uint8>)
    returns (r: Outcome)
    ensures r == Interpret(h, pool, receiver, arguments, bytes)
  {
    if HasBaseCase(bytes) {
      return BeyondModel;
    }
    var frame := new InterpreterFrame(receiver, arguments);
    r := frame.Run(h, pool, bytes);
  }
}
