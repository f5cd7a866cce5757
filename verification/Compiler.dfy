/** The decode loops of src/compiler/graph_builder.rs in the source's own form, and the pipeline's
    `compile` (src/compiler/pipeline.rs). */
module Compiler {
  import opened Options
  import opened Values
  import opened Nodes
  import opened Graphs
  import opened Pipeline
  import opened Bytecodes
  import opened GraphBuilder
  import opened BuiltGraphs
  import Optimizer
  import PassExactness

  /** Checks that the code contains only straight-line operations the tier supports. */
  method CanCompile(bytes: seq<uint8>) returns (ok: bool)
    ensures ok <==> Accepted(bytes, 0, false)
  {
    var pc := 0;
    var hasReturn := false;
    while pc < |bytes|
      invariant pc <= |bytes|
      invariant Accepted(bytes, 0, false) <==> Accepted(bytes, pc, hasReturn)
    {
      var decoded := FromByte(bytes[pc]);
      pc := pc + 1;
      if decoded.None? {
        return false;
      }
      var bc := decoded.value;
      if bc.ShortStar? {
        continue;
      }
      match bc {
        case LdaZero =>
        case LdaUndefined =>
        case LdaNull =>
        case LdaTrue =>
        case LdaFalse =>
        case Return =>
          hasReturn := true;
          if pc < |bytes| {
            return false;
          }
        case Unsupported => return false;
        case _ =>
          if pc + OperandCount(bc) - 1 >= |bytes| {
            return false;
          }
          pc := pc + OperandCount(bc);
      }
    }
    return hasReturn;
  }

  class BytecodeGraphBuilder {
    const host: Host
    const bytes: seq<uint8>
    const pool: seq<ConstantValue>
    const graph: Graph
    var accumulator: Option<nat>
    var registers: map<int, nat>
    var parameters: map<nat, nat>
    var currentControl: nat

    ghost function Current(): State
      reads this, graph
    {
      State(graph.nodes, graph.returnIds, accumulator, registers, parameters)
    }

    ghost predicate Valid()
      reads this, graph
    {
      graph.Valid() && StateOk(Current()) && currentControl == 0
    }

    constructor (host: Host, bytes: seq<uint8>, pool: seq<ConstantValue>)
      ensures Valid() && fresh(graph)
      ensures this.host == host && this.bytes == bytes && this.pool == pool
      ensures Current() == INITIAL_STATE
    {
      var g := new Graph();
      this.host, this.bytes, this.pool, graph := host, bytes, pool, g;
      accumulator, registers, parameters := None, map[], map[];
      currentControl := g.start;
    }

    /** Translates the code into the graph; every read of the code is within bounds. */
    method Build() returns (result: Graph)
      requires Valid() && Complete(bytes, 0)
      modifies this, graph
      ensures result == graph && Valid()
      ensures Current() == BuiltFrom(host, pool, old(Current()), bytes, 0)
    {
      var pc := 0;
      ghost var target := BuiltFrom(host, pool, Current(), bytes, 0);
      while pc < |bytes|
        invariant Complete(bytes, pc) && Valid()
        invariant BuiltFrom(host, pool, Current(), bytes, pc) == target
        decreases |bytes| - pc
      {
        pc := TranslateNext(pc);
      }
      result := graph;
    }

    method TranslateNext(at: nat) returns (pc: nat)
      requires Valid() && at < |bytes| && Complete(bytes, at)
      modifies this, graph
      ensures Valid() && Continues(host, pool, bytes, old(Current()), at, Current(), pc)
    {
      var decoded := FromByte(bytes[at]);
      if decoded.None? {
        UnknownContinues(host, pool, Current(), bytes, at);
        return at + 1;
      }
      InstructionContinues(host, pool, Current(), bytes, at);
      pc := Translate(decoded.value, at + 1);
    }

    /** One iteration of the decode loop, after the opcode was read. */
    method Translate(bc: Bytecode, at: nat) returns (pc: nat)
      requires Valid() && at + OperandsRead(bc) <= |bytes|
      modifies this, graph
      ensures Valid() && pc == at + OperandCount(bc)
      ensures Current() == Translated(host, pool, old(Current()), bc, bytes, at)
    {
      pc := at;
      match bc {
        case ShortStar(index) =>
          if accumulator.Some? {
            registers := registers[index := accumulator.value];
          }
        case LdaZero => LoadNode(Smi(0));
        case LdaUndefined => LoadNode(Undefined);
        case LdaNull => LoadNode(Null);
        case LdaTrue => LoadNode(Boolean(true));
        case LdaFalse => LoadNode(Boolean(false));
        case LdaSmi =>
          LoadNode(Smi(Signed(bytes[pc]) as int32));
          pc := pc + 1;
        case LdaConstant =>
          LoadNode(PoolValue(host, pool, bytes[pc] as nat));
          pc := pc + 1;
        case Ldar =>
          var id := GetRegisterNode(FromOperand(bytes[pc]));
          pc := pc + 1;
          accumulator := Some(id);
        case Star =>
          var reg := FromOperand(bytes[pc]);
          pc := pc + 1;
          if accumulator.Some? {
            SetRegisterNode(reg, accumulator.value);
          }
        case Mov =>
          var source, target := FromOperand(bytes[pc]), FromOperand(bytes[pc + 1]);
          pc := pc + 2;
          var id := GetRegisterNode(source);
          SetRegisterNode(target, id);
        case WithRegister(op) => pc := TranslateOperation(op, bc, pc);
        case WithSmi(op) => pc := TranslateOperation(op, bc, pc);
        case Negate =>
          pc := pc + 1;
          if accumulator.Some? {
            var id := graph.AddNode(Unary(UnaryOp.Negate), [accumulator.value], None);
            accumulator := Some(id);
          }
        case Return => ReturnNode();
        case Unsupported =>
      }
    }

    /** The arms of the operations, with a register or an immediate operand. */
    method TranslateOperation(op: Operation, bc: Bytecode, at: nat) returns (pc: nat)
      requires Valid() && (bc == WithRegister(op) || bc == WithSmi(op)) && at + OperandsRead(bc) <= |bytes|
      modifies this, graph
      ensures Valid() && pc == at + OperandCount(bc)
      ensures Current() == Translated(host, pool, old(Current()), bc, bytes, at)
    {
      var rhs;
      if bc.WithRegister? {
        rhs := GetRegisterNode(FromOperand(bytes[at]));
      } else {
        rhs := graph.AddNode(Constant(Smi(Signed(bytes[at]) as int32)), [], None);
      }
      pc := at + 2;
      CombineWith(op, rhs);
    }

    method LoadNode(v: Value)
      requires Valid()
      modifies this`accumulator, graph
      ensures Valid() && Current() == LoadConstant(old(Current()), v)
    {
      var id := graph.AddNode(Constant(v), [], None);
      accumulator := Some(id);
    }

    /** `if let Some(lhs) = self.accumulator { accumulator = lhs op rhs }` */
    method CombineWith(op: Operation, rhs: nat)
      requires Valid() && rhs < |graph.nodes|
      modifies this`accumulator, graph
      ensures Valid()
      ensures Current() == (if old(accumulator).None? then old(Current())
                            else Combine(old(Current()), Binary(GraphOperation(op)), [old(accumulator).value, rhs]))
    {
      if accumulator.Some? {
        var id := graph.AddNode(Binary(GraphOperation(op)), [accumulator.value, rhs], None);
        accumulator := Some(id);
      }
    }

    method ReturnNode()
      requires Valid()
      modifies graph
      ensures Valid()
      ensures Current() == Translated(host, pool, old(Current()), Bytecode.Return, [], 0)
    {
      var value;
      if accumulator.Some? {
        value := accumulator.value;
      } else {
        value := graph.AddNode(Constant(Undefined), [], None);
      }
      var id := graph.AddNode(NodeOp.Return, [value], Some(currentControl));
    }

    method GetRegisterNode(reg: SmallRegister) returns (id: nat)
      requires Valid()
      modifies this`registers, this`parameters, graph
      ensures Valid() && id < |graph.nodes| && accumulator == old(accumulator)
      ensures (Current(), id) == Fetch(old(Current()), reg)
    {
      if reg.IsParameter() {
        var index := reg.ParameterIndex();
        if index in parameters {
          id := parameters[index];
        } else {
          id := graph.AddNode(Parameter(index), [], Some(graph.start));
          parameters := parameters[index := id];
        }
      } else {
        if reg.index in registers {
          id := registers[reg.index];
        } else {
          id := graph.AddNode(Constant(Undefined), [], None);
          registers := registers[reg.index := id];
        }
      }
    }

    method SetRegisterNode(reg: SmallRegister, id: nat)
      requires Valid() && id < |graph.nodes|
      modifies this`registers, this`parameters
      ensures Valid() && Current() == Assign(old(Current()), reg, id)
    {
      if reg.IsParameter() {
        parameters := parameters[reg.ParameterIndex() := id];
      } else {
        registers := registers[reg.index := id];
      }
    }
  }

  /** `CompilerPipeline::compile`: build, then optimize. */
  method Compile(h: Host, bytes: seq<uint8>, pool: seq<ConstantValue>)
    returns (graph: Graph, stats: Optimizer.OptimizationStats)
    requires Complete(bytes, 0)
    ensures fresh(graph) && graph.Valid()
    ensures StateOk(Built(h, pool, bytes))
    ensures graph.returnIds == Built(h, pool, bytes).returnIds
    ensures graph.nodes == Optimizer.Optimized(h, Built(h, pool, bytes).nodes, graph.returnIds)
  {
    var builder := new BytecodeGraphBuilder(h, bytes, pool);
    graph := builder.Build();
    stats := Optimizer.Optimize(h, graph);
  }

  /** On these arguments the rewrite rules are exact: for the operations the result depends on, whatever
      rules may fire, or for the rules that do fire. */
  ghost predicate RulesAreExact(h: Host, s: State, args: seq<Value>)
    requires StateOk(s)
  {
    || (|s.returnIds| > 0 ==> Rewrites.Safe(h, s.nodes, args, s.returnIds[|s.returnIds| - 1]))
    || PassExactness.RoundsFireExactly(h, s.nodes, args)
  }

  /** End to end: the compiled and optimized graph returns what running the code returns, on all
      arguments on which the rewrite rules are exact. */
  lemma CompiledCodeRunsTheCode(h: Host, pool: seq<ConstantValue>, args: seq<Value>, bytes: seq<uint8>)
    requires Accepted(bytes, 0, false) && LoadedBeforeRead(bytes, 0, false)
    requires StateOk(Built(h, pool, bytes)) && RulesAreExact(h, Built(h, pool, bytes), args)
    ensures
      var s := Built(h, pool, bytes);
      var optimized := Optimizer.Optimized(h, s.nodes, s.returnIds);
      && WellFormed(optimized) && ReturnsOk(optimized, s.returnIds)
      && Result(h, optimized, s.returnIds, args) == Ran(h, ReadUndefined, pool, args, bytes)
  {
    BuiltGraphRunsLoadedCode(h, pool, args, bytes);
    ExactRulesKeepResult(h, Built(h, pool, bytes), args);
  }

  lemma ExactRulesKeepResult(h: Host, s: State, args: seq<Value>)
    requires StateOk(s) && RulesAreExact(h, s, args)
    ensures
      var optimized := Optimizer.Optimized(h, s.nodes, s.returnIds);
      && WellFormed(optimized) && ReturnsOk(optimized, s.returnIds)
      && Result(h, optimized, s.returnIds, args) == Result(h, s.nodes, s.returnIds, args)
  {
    if PassExactness.RoundsFireExactly(h, s.nodes, args) {
      PassExactness.ExactOptimizingKeepsResult(h, s.nodes, s.returnIds, args);
    } else {
      Optimizer.OptimizeKeepsResult(h, s.nodes, s.returnIds, args);
    }
  }
}
