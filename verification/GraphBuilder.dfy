/** From bytecode to graph (src/compiler/graph_builder.rs).

    The builder's methods follow the source. They are tied to functions on the builder's state, and
    those are proved to simulate the reference machine, one instruction at a time: the accumulator,
    the registers and the parameters of the machine are the meanings of the nodes that stand for
    them. */
module GraphBuilder {
  import opened Options
  import opened Values
  import opened Nodes
  import opened Pipeline
  import opened Bytecodes
  import Rewrites

  // ---- The builder on values ----------------------------------------------------------------

  datatype State = State(
    nodes: seq<Node>, returnIds: seq<nat>,
    accumulator: Option<nat>, registers: map<int, nat>, parameters: map<nat, nat>)

  const INITIAL_STATE := State([Node(0, Start, [], None)], [], None, map[], map[])

  /** Every node the state names exists. */
  ghost predicate StateOk(s: State) {
    && WellFormed(s.nodes) && ReturnsOk(s.nodes, s.returnIds) && |s.nodes| > 0
    && (s.accumulator.Some? ==> s.accumulator.value < |s.nodes|)
    && (forall r :: r in s.registers ==> s.registers[r] < |s.nodes|)
    && (forall p :: p in s.parameters ==> s.parameters[p] < |s.nodes|)
  }

  function Emit(s: State, op: NodeOp, inputs: seq<nat>, control: Option<nat>): State {
    s.(nodes := s.nodes + [Node(|s.nodes|, op, inputs, control)],
       returnIds := s.returnIds + (if op.Return? then [|s.nodes|] else []))
  }

  /** The state once the register has a node, and that node. */
  function Fetch(s: State, reg: SmallRegister): (State, nat) {
    if reg.IsParameter() then
      var p := reg.ParameterIndex();
      if p in s.parameters then (s, s.parameters[p])
      else
        (Emit(s, Parameter(p), [], Some(0)).(parameters := s.parameters[p := |s.nodes|]), |s.nodes|)
    else if reg.index in s.registers then (s, s.registers[reg.index])
    else
      (Emit(s, Constant(Undefined), [], None).(registers := s.registers[reg.index := |s.nodes|]), |s.nodes|)
  }

  function Assign(s: State, reg: SmallRegister, id: nat): State {
    if reg.IsParameter() then s.(parameters := s.parameters[reg.ParameterIndex() := id])
    else s.(registers := s.registers[reg.index := id])
  }

  function LoadConstant(s: State, v: Value): State {
    Emit(s, Constant(v), [], None).(accumulator := Some(|s.nodes|))
  }

  function Combine(s: State, op: NodeOp, inputs: seq<nat>): State {
    Emit(s, op, inputs, None).(accumulator := Some(|s.nodes|))
  }

  function Translated(h: Host, pool: seq<ConstantValue>, s: State, bc: Bytecode, bytes: seq<uint8>, at: nat): State
    requires at + OperandsRead(bc) <= |bytes|
  {
    match bc
    case LdaZero => LoadConstant(s, Smi(0))
    case LdaUndefined => LoadConstant(s, Undefined)
    case LdaNull => LoadConstant(s, Null)
    case LdaTrue => LoadConstant(s, Boolean(true))
    case LdaFalse => LoadConstant(s, Boolean(false))
    case LdaSmi => LoadConstant(s, Smi(Signed(bytes[at]) as int32))
    case LdaConstant => LoadConstant(s, PoolValue(h, pool, bytes[at] as nat))
    case Ldar =>
      var (s', id) := Fetch(s, FromOperand(bytes[at]));
      s'.(accumulator := Some(id))
    case Star => if s.accumulator.None? then s else Assign(s, FromOperand(bytes[at]), s.accumulator.value)
    case ShortStar(index) =>
      if s.accumulator.None? then s else s.(registers := s.registers[index := s.accumulator.value])
    case Mov =>
      var (s', id) := Fetch(s, FromOperand(bytes[at]));
      Assign(s', FromOperand(bytes[at + 1]), id)
    case WithRegister(op) =>
      var (s', id) := Fetch(s, FromOperand(bytes[at]));
      if s'.accumulator.None? then s' else Combine(s', Binary(GraphOperation(op)), [s'.accumulator.value, id])
    case WithSmi(op) =>
      var s' := Emit(s, Constant(Smi(Signed(bytes[at]) as int32)), [], None);
      if s'.accumulator.None? then s' else Combine(s', Binary(GraphOperation(op)), [s'.accumulator.value, |s.nodes|])
    case Negate =>
      if s.accumulator.None? then s else Combine(s, Unary(UnaryOp.Negate), [s.accumulator.value])
    case Return =>
      if s.accumulator.Some? then Emit(s, NodeOp.Return, [s.accumulator.value], Some(0))
      else Emit(Emit(s, Constant(Undefined), [], None), NodeOp.Return, [|s.nodes|], Some(0))
    case Unsupported => s
  }

  function BuiltFrom(h: Host, pool: seq<ConstantValue>, s: State, bytes: seq<uint8>, at: nat): State
    requires Complete(bytes, at)
    decreases |bytes| - at
  {
    if at >= |bytes| then s
    else
      match FromByte(bytes[at])
      case None => BuiltFrom(h, pool, s, bytes, at + 1)
      case Some(bc) => BuiltFrom(h, pool, Translated(h, pool, s, bc, bytes, at + 1), bytes, at + 1 + OperandCount(bc))
  }

  /** From `s` at `at` the decode loop has come to `next` at `pc`, with the same end in sight. */
  ghost predicate Continues(h: Host, pool: seq<ConstantValue>, bytes: seq<uint8>, s: State, at: nat,
                            next: State, pc: nat)
    requires Complete(bytes, at)
  {
    && at < pc && Complete(bytes, pc)
    && BuiltFrom(h, pool, next, bytes, pc) == BuiltFrom(h, pool, s, bytes, at)
  }

  /** One instruction on: the next one starts where `can_compile` looks for it. */
  lemma InstructionContinues(h: Host, pool: seq<ConstantValue>, s: State, bytes: seq<uint8>, at: nat)
    requires at < |bytes| && Complete(bytes, at) && FromByte(bytes[at]).Some?
    ensures at + 1 + OperandsRead(FromByte(bytes[at]).value) <= |bytes|
    ensures
      var bc := FromByte(bytes[at]).value;
      Continues(h, pool, bytes, s, at, Translated(h, pool, s, bc, bytes, at + 1), at + 1 + OperandCount(bc))
  {
  }

  lemma UnknownContinues(h: Host, pool: seq<ConstantValue>, s: State, bytes: seq<uint8>, at: nat)
    requires at < |bytes| && Complete(bytes, at) && FromByte(bytes[at]).None?
    ensures Continues(h, pool, bytes, s, at, s, at + 1)
  {
  }

  // ---- Simulation ---------------------------------------------------------------------------

  ghost predicate Agrees(h: Host, args: seq<Value>, nodes: seq<Node>, id: nat, v: Value)
    requires WellFormed(nodes)
  {
    id < |nodes| && Meaning(h, nodes, args, id) == v
  }

  /** The nodes the builder holds mean what the machine holds. */
  ghost predicate Simulates(h: Host, args: seq<Value>, s: State, m: Machine) {
    && StateOk(s)
    && (s.accumulator.Some? <==> m.accumulator.Some?)
    && (s.accumulator.Some? ==> Agrees(h, args, s.nodes, s.accumulator.value, m.accumulator.value))
    && m.registers.Keys <= s.registers.Keys
    && (forall r :: r in s.registers ==> Agrees(h, args, s.nodes, s.registers[r], ReadLocal(m, r)))
    && m.parameters.Keys <= s.parameters.Keys
    && (forall p :: p in s.parameters ==> Agrees(h, args, s.nodes, s.parameters[p], ReadParameter(m, args, p)))
    && (m.result.Some? <==> |s.returnIds| > 0)
    && (m.result.Some? ==> m.result.value == Result(h, s.nodes, s.returnIds, args))
  }

  lemma AppendKeepsAgreement(h: Host, args: seq<Value>, nodes: seq<Node>, node: Node, id: nat, v: Value)
    requires WellFormed(nodes) && NodeOk(node, |nodes|) && Agrees(h, args, nodes, id, v)
    ensures WellFormed(nodes + [node]) && Agrees(h, args, nodes + [node], id, v)
  {
    assert WellFormed(nodes + [node]) by {
      forall i | 0 <= i < |nodes| + 1 ensures NodeOk((nodes + [node])[i], i) {
        if i < |nodes| { assert NodeOk(nodes[i], i); }
      }
    }
    Rewrites.PrefixDecides(h, nodes, nodes + [node], args, id);
  }

  /** A new node other than a return changes nothing the machine sees. */
  lemma EmitSimulates(h: Host, args: seq<Value>, s: State, m: Machine, op: NodeOp, inputs: seq<nat>,
                      control: Option<nat>)
    requires Simulates(h, args, s, m) && !op.Return?
    requires NodeOk(Node(|s.nodes|, op, inputs, control), |s.nodes|)
    ensures Simulates(h, args, Emit(s, op, inputs, control), m)
  {
    var node := Node(|s.nodes|, op, inputs, control);
    var after := s.nodes + [node];
    AppendIsWellFormed(s.nodes, node, s.returnIds);
    if s.accumulator.Some? {
      AppendKeepsAgreement(h, args, s.nodes, node, s.accumulator.value, m.accumulator.value);
    }
    forall r | r in s.registers ensures Agrees(h, args, after, s.registers[r], ReadLocal(m, r)) {
      AppendKeepsAgreement(h, args, s.nodes, node, s.registers[r], ReadLocal(m, r));
    }
    forall p | p in s.parameters ensures Agrees(h, args, after, s.parameters[p], ReadParameter(m, args, p)) {
      AppendKeepsAgreement(h, args, s.nodes, node, s.parameters[p], ReadParameter(m, args, p));
    }
    if m.result.Some? {
      var id := s.returnIds[|s.returnIds| - 1];
      ResultIsReturnMeaning(h, s.nodes, s.returnIds, args);
      ResultIsReturnMeaning(h, after, s.returnIds, args);
      AppendKeepsAgreement(h, args, s.nodes, node, id, m.result.value);
    }
    assert Emit(s, op, inputs, control).returnIds == s.returnIds;
  }

  lemma AppendIsWellFormed(nodes: seq<Node>, node: Node, returnIds: seq<nat>)
    requires WellFormed(nodes) && NodeOk(node, |nodes|) && ReturnsOk(nodes, returnIds)
    ensures WellFormed(nodes + [node]) && ReturnsOk(nodes + [node], returnIds)
  {
    forall i | 0 <= i < |nodes| + 1 ensures NodeOk((nodes + [node])[i], i) {
      if i < |nodes| { assert NodeOk(nodes[i], i); }
    }
  }

  lemma FetchSimulates(h: Host, args: seq<Value>, s: State, m: Machine, reg: SmallRegister)
    requires Simulates(h, args, s, m)
    ensures Simulates(h, args, Fetch(s, reg).0, m)
    ensures Fetch(s, reg).0.accumulator == s.accumulator
    ensures Agrees(h, args, Fetch(s, reg).0.nodes, Fetch(s, reg).1, ReadRegister(m, args, reg))
  {
    if reg.IsParameter() {
      if reg.ParameterIndex() !in s.parameters {
        FirstParameterReadSimulates(h, args, s, m, reg.ParameterIndex());
      }
    } else if reg.index !in s.registers {
      FirstLocalReadSimulates(h, args, s, m, reg.index);
    }
  }

  lemma FirstParameterReadSimulates(h: Host, args: seq<Value>, s: State, m: Machine, p: nat)
    requires Simulates(h, args, s, m) && p !in s.parameters
    ensures
      var s' := Emit(s, Parameter(p), [], Some(0)).(parameters := s.parameters[p := |s.nodes|]);
      Simulates(h, args, s', m) && Agrees(h, args, s'.nodes, |s.nodes|, ReadParameter(m, args, p))
  {
    EmitSimulates(h, args, s, m, Parameter(p), [], Some(0));
    var after := s.nodes + [Node(|s.nodes|, Parameter(p), [], Some(0))];
    assert p !in m.parameters;
    assert Agrees(h, args, after, |s.nodes|, ReadParameter(m, args, p));
  }

  lemma FirstLocalReadSimulates(h: Host, args: seq<Value>, s: State, m: Machine, r: int)
    requires Simulates(h, args, s, m) && r !in s.registers
    ensures
      var s' := Emit(s, Constant(Undefined), [], None).(registers := s.registers[r := |s.nodes|]);
      Simulates(h, args, s', m) && Agrees(h, args, s'.nodes, |s.nodes|, ReadLocal(m, r))
  {
    EmitSimulates(h, args, s, m, Constant(Undefined), [], None);
    var after := s.nodes + [Node(|s.nodes|, Constant(Undefined), [], None)];
    assert r !in m.registers;
    assert Agrees(h, args, after, |s.nodes|, ReadLocal(m, r));
  }

  lemma AssignSimulates(h: Host, args: seq<Value>, s: State, m: Machine, reg: SmallRegister, id: nat, v: Value)
    requires Simulates(h, args, s, m) && Agrees(h, args, s.nodes, id, v)
    ensures Simulates(h, args, Assign(s, reg, id), WriteRegister(m, reg, v))
  {
    var s', m' := Assign(s, reg, id), WriteRegister(m, reg, v);
    if reg.IsParameter() {
      forall p | p in s'.parameters
        ensures Agrees(h, args, s'.nodes, s'.parameters[p], ReadParameter(m', args, p))
      {
        if p != reg.ParameterIndex() { assert p in s.parameters; }
      }
    } else {
      forall r | r in s'.registers ensures Agrees(h, args, s'.nodes, s'.registers[r], ReadLocal(m', r)) {
        if r != reg.index { assert r in s.registers; }
      }
    }
  }

  lemma LoadConstantSimulates(h: Host, args: seq<Value>, s: State, m: Machine, v: Value)
    requires Simulates(h, args, s, m)
    ensures Simulates(h, args, LoadConstant(s, v), Load(m, v))
  {
    EmitSimulates(h, args, s, m, Constant(v), [], None);
  }

  lemma CombineSimulates(h: Host, args: seq<Value>, s: State, m: Machine, op: Operation, id: nat, v: Value)
    requires Simulates(h, args, s, m) && s.accumulator.Some? && Agrees(h, args, s.nodes, id, v)
    ensures Simulates(h, args, Combine(s, Binary(GraphOperation(op)), [s.accumulator.value, id]),
                      Load(m, Operate(h, op, m.accumulator.value, v)))
  {
    var inputs := [s.accumulator.value, id];
    var node := Node(|s.nodes|, Binary(GraphOperation(op)), inputs, None);
    EmitSimulates(h, args, s, m, Binary(GraphOperation(op)), inputs, None);
    AppendKeepsAgreement(h, args, s.nodes, node, id, v);
    var after := Emit(s, Binary(GraphOperation(op)), inputs, None);
    assert Agrees(h, args, after.nodes, s.accumulator.value, m.accumulator.value);
    assert after.nodes[|s.nodes|] == node;
  }

  lemma NegateSimulates(h: Host, args: seq<Value>, s: State, m: Machine)
    requires Simulates(h, args, s, m) && s.accumulator.Some?
    ensures Simulates(h, args, Combine(s, Unary(UnaryOp.Negate), [s.accumulator.value]),
                      Load(m, Number(FloatNegate(ToNumber(h, m.accumulator.value)))))
  {
    EmitSimulates(h, args, s, m, Unary(UnaryOp.Negate), [s.accumulator.value], None);
    var after := Emit(s, Unary(UnaryOp.Negate), [s.accumulator.value], None);
    assert Agrees(h, args, after.nodes, s.accumulator.value, m.accumulator.value);
  }

  lemma ReturnSimulates(h: Host, args: seq<Value>, s: State, m: Machine, id: nat, v: Value)
    requires Simulates(h, args, s, m) && Agrees(h, args, s.nodes, id, v)
    ensures Simulates(h, args, Emit(s, NodeOp.Return, [id], Some(0)), m.(result := Some(v)))
  {
    var node := Node(|s.nodes|, NodeOp.Return, [id], Some(0));
    var bare := s.(returnIds := []);
    var cleared := m.(result := None);
    AppendIsWellFormed(s.nodes, node, s.returnIds);
    var after := s.nodes + [node];
    if s.accumulator.Some? {
      AppendKeepsAgreement(h, args, s.nodes, node, s.accumulator.value, m.accumulator.value);
    }
    forall r | r in s.registers ensures Agrees(h, args, after, s.registers[r], ReadLocal(m, r)) {
      AppendKeepsAgreement(h, args, s.nodes, node, s.registers[r], ReadLocal(m, r));
    }
    forall p | p in s.parameters ensures Agrees(h, args, after, s.parameters[p], ReadParameter(m, args, p)) {
      AppendKeepsAgreement(h, args, s.nodes, node, s.parameters[p], ReadParameter(m, args, p));
    }
    AppendKeepsAgreement(h, args, s.nodes, node, id, v);
  }

  lemma LoadSimulates(h: Host, pool: seq<ConstantValue>, args: seq<Value>, s: State, m: Machine,
                      bc: Bytecode, bytes: seq<uint8>, at: nat)
    requires Simulates(h, args, s, m) && at + OperandCount(bc) <= |bytes|
    requires bc.LdaZero? || bc.LdaUndefined? || bc.LdaNull? || bc.LdaTrue? || bc.LdaFalse? || bc.LdaSmi?
          || bc.LdaConstant?
    ensures Simulates(h, args, Translated(h, pool, s, bc, bytes, at),
                      RunInstruction(h, SkipInstruction, pool, args, m, bc, bytes, at))
  {
    match bc
    case LdaZero => LoadConstantSimulates(h, args, s, m, Smi(0));
    case LdaUndefined => LoadConstantSimulates(h, args, s, m, Undefined);
    case LdaNull => LoadConstantSimulates(h, args, s, m, Null);
    case LdaTrue => LoadConstantSimulates(h, args, s, m, Boolean(true));
    case LdaFalse => LoadConstantSimulates(h, args, s, m, Boolean(false));
    case LdaSmi => LoadConstantSimulates(h, args, s, m, Smi(Signed(bytes[at]) as int32));
    case LdaConstant => LoadConstantSimulates(h, args, s, m, PoolValue(h, pool, bytes[at] as nat));
  }

  lemma LdarSimulates(h: Host, pool: seq<ConstantValue>, args: seq<Value>, s: State, m: Machine,
                      bytes: seq<uint8>, at: nat)
    requires Simulates(h, args, s, m) && at + OperandCount(Ldar) <= |bytes|
    ensures Simulates(h, args, Translated(h, pool, s, Ldar, bytes, at),
                      RunInstruction(h, SkipInstruction, pool, args, m, Ldar, bytes, at))
  {
    FetchSimulates(h, args, s, m, FromOperand(bytes[at]));
  }

  lemma StarSimulates(h: Host, pool: seq<ConstantValue>, args: seq<Value>, s: State, m: Machine,
                      bytes: seq<uint8>, at: nat)
    requires Simulates(h, args, s, m) && at + OperandCount(Star) <= |bytes|
    ensures Simulates(h, args, Translated(h, pool, s, Star, bytes, at),
                      RunInstruction(h, SkipInstruction, pool, args, m, Star, bytes, at))
  {
    if s.accumulator.Some? {
      AssignSimulates(h, args, s, m, FromOperand(bytes[at]), s.accumulator.value, m.accumulator.value);
    }
  }

  lemma ShortStarRuns(h: Host, pool: seq<ConstantValue>, args: seq<Value>, s: State, m: Machine,
                      index: nat, bytes: seq<uint8>, at: nat)
    requires Simulates(h, args, s, m) && at + OperandCount(ShortStar(index)) <= |bytes|
    ensures Simulates(h, args, Translated(h, pool, s, ShortStar(index), bytes, at),
                      RunInstruction(h, SkipInstruction, pool, args, m, ShortStar(index), bytes, at))
  {
    if s.accumulator.Some? {
      ShortStarSimulates(h, args, s, m, index);
    }
  }

  lemma MoveSimulates(h: Host, pool: seq<ConstantValue>, args: seq<Value>, s: State, m: Machine,
                      bytes: seq<uint8>, at: nat)
    requires Simulates(h, args, s, m) && at + OperandCount(Mov) <= |bytes|
    ensures Simulates(h, args, Translated(h, pool, s, Mov, bytes, at),
                      RunInstruction(h, SkipInstruction, pool, args, m, Mov, bytes, at))
  {
    FetchSimulates(h, args, s, m, FromOperand(bytes[at]));
    var (s', id) := Fetch(s, FromOperand(bytes[at]));
    AssignSimulates(h, args, s', m, FromOperand(bytes[at + 1]), id, ReadRegister(m, args, FromOperand(bytes[at])));
  }

  lemma RegisterOperationSimulates(h: Host, pool: seq<ConstantValue>, args: seq<Value>, s: State, m: Machine,
                                   op: Operation, bytes: seq<uint8>, at: nat)
    requires Simulates(h, args, s, m) && at + OperandCount(WithRegister(op)) <= |bytes|
    ensures Simulates(h, args, Translated(h, pool, s, WithRegister(op), bytes, at),
                      RunInstruction(h, SkipInstruction, pool, args, m, WithRegister(op), bytes, at))
  {
    FetchSimulates(h, args, s, m, FromOperand(bytes[at]));
    var (s', id) := Fetch(s, FromOperand(bytes[at]));
    if s'.accumulator.Some? {
      CombineSimulates(h, args, s', m, op, id, ReadRegister(m, args, FromOperand(bytes[at])));
    }
  }

  lemma SmiOperationSimulates(h: Host, pool: seq<ConstantValue>, args: seq<Value>, s: State, m: Machine,
                              op: Operation, bytes: seq<uint8>, at: nat)
    requires Simulates(h, args, s, m) && at + OperandCount(WithSmi(op)) <= |bytes|
    ensures Simulates(h, args, Translated(h, pool, s, WithSmi(op), bytes, at),
                      RunInstruction(h, SkipInstruction, pool, args, m, WithSmi(op), bytes, at))
  {
    WithSmiSimulates(h, args, s, m, op, Smi(Signed(bytes[at]) as int32));
  }

  lemma NegationSimulates(h: Host, pool: seq<ConstantValue>, args: seq<Value>, s: State, m: Machine,
                          bytes: seq<uint8>, at: nat)
    requires Simulates(h, args, s, m) && at + OperandCount(Bytecode.Negate) <= |bytes|
    ensures Simulates(h, args, Translated(h, pool, s, Bytecode.Negate, bytes, at),
                      RunInstruction(h, SkipInstruction, pool, args, m, Bytecode.Negate, bytes, at))
  {
    if s.accumulator.Some? { NegateSimulates(h, args, s, m); }
  }

  lemma ReturnInstructionSimulates(h: Host, pool: seq<ConstantValue>, args: seq<Value>, s: State, m: Machine,
                                   bytes: seq<uint8>, at: nat)
    requires Simulates(h, args, s, m) && at <= |bytes|
    ensures Simulates(h, args, Translated(h, pool, s, Bytecode.Return, bytes, at),
                      RunInstruction(h, SkipInstruction, pool, args, m, Bytecode.Return, bytes, at))
  {
    if s.accumulator.Some? {
      ReturnSimulates(h, args, s, m, s.accumulator.value, m.accumulator.value);
    } else {
      EmitSimulates(h, args, s, m, Constant(Undefined), [], None);
      ReturnSimulates(h, args, Emit(s, Constant(Undefined), [], None), m, |s.nodes|, Undefined);
    }
  }

  /** One instruction: the builder's step simulates the machine's. */
  lemma InstructionSimulates(h: Host, pool: seq<ConstantValue>, args: seq<Value>, s: State, m: Machine,
                             bc: Bytecode, bytes: seq<uint8>, at: nat)
    requires Simulates(h, args, s, m) && at + OperandCount(bc) <= |bytes|
    ensures Simulates(h, args, Translated(h, pool, s, bc, bytes, at),
                      RunInstruction(h, SkipInstruction, pool, args, m, bc, bytes, at))
  {
    match bc
    case Return => ReturnInstructionSimulates(h, pool, args, s, m, bytes, at);
    case Unsupported =>
    case WithRegister(op) => RegisterOperationSimulates(h, pool, args, s, m, op, bytes, at);
    case WithSmi(op) => SmiOperationSimulates(h, pool, args, s, m, op, bytes, at);
    case Negate => NegationSimulates(h, pool, args, s, m, bytes, at);
    case Ldar => LdarSimulates(h, pool, args, s, m, bytes, at);
    case Star => StarSimulates(h, pool, args, s, m, bytes, at);
    case ShortStar(index) => ShortStarRuns(h, pool, args, s, m, index, bytes, at);
    case Mov => MoveSimulates(h, pool, args, s, m, bytes, at);
    case _ => LoadSimulates(h, pool, args, s, m, bc, bytes, at);
  }

  lemma ShortStarSimulates(h: Host, args: seq<Value>, s: State, m: Machine, index: nat)
    requires Simulates(h, args, s, m) && s.accumulator.Some?
    ensures Simulates(h, args, s.(registers := s.registers[index := s.accumulator.value]),
                      m.(registers := m.registers[index := m.accumulator.value]))
  {
    var s' := s.(registers := s.registers[index := s.accumulator.value]);
    var m' := m.(registers := m.registers[index := m.accumulator.value]);
    forall r | r in s'.registers ensures Agrees(h, args, s'.nodes, s'.registers[r], ReadLocal(m', r)) {
      if r != index { assert r in s.registers; }
    }
  }

  lemma WithSmiSimulates(h: Host, args: seq<Value>, s: State, m: Machine, op: Operation, v: Value)
    requires Simulates(h, args, s, m)
    ensures
      var s' := Emit(s, Constant(v), [], None);
      && Simulates(h, args, s', m)
      && (s.accumulator.Some? ==>
            Simulates(h, args, Combine(s', Binary(GraphOperation(op)), [s'.accumulator.value, |s.nodes|]),
                      Load(m, Operate(h, op, m.accumulator.value, v))))
  {
    EmitSimulates(h, args, s, m, Constant(v), [], None);
    if s.accumulator.Some? {
      CombineSimulates(h, args, Emit(s, Constant(v), [], None), m, op, |s.nodes|, v);
    }
  }

  lemma {:induction false} BuildSimulates(h: Host, pool: seq<ConstantValue>, args: seq<Value>, s: State, m: Machine,
                                          bytes: seq<uint8>, at: nat, returned: bool)
    requires at <= |bytes| && Accepted(bytes, at, returned) && Simulates(h, args, s, m)
    ensures Simulates(h, args, BuiltFrom(h, pool, s, bytes, at),
                      RunFrom(h, SkipInstruction, pool, args, m, bytes, at, returned))
    decreases |bytes| - at
  {
    if at < |bytes| {
      var bc := FromByte(bytes[at]).value;
      InstructionSimulates(h, pool, args, s, m, bc, bytes, at + 1);
      BuildSimulates(h, pool, args, Translated(h, pool, s, bc, bytes, at + 1),
                     RunInstruction(h, SkipInstruction, pool, args, m, bc, bytes, at + 1),
                     bytes, at + 1 + OperandCount(bc), returned || bc.Return?);
    }
  }
}
