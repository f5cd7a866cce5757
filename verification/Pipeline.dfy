/** Running a graph (src/compiler/pipeline.rs): the memoised evaluator computes the plain
    recursive meaning of the node it is asked for. */
module Pipeline {
  import opened Values
  import opened Nodes
  import opened Graphs

  datatype Outcome = Ok(value: Value) | NodeNotFound | InvalidReturnNode

  function EvaluateBinary(h: Host, op: BinaryOp, lhs: Value, rhs: Value): Value {
    match op
    case Add => Values.Add(h, lhs, rhs)
    case Sub => Values.Subtract(h, lhs, rhs)
    case Mul => Values.Multiply(h, lhs, rhs)
    case Div => h.divide(lhs, rhs)
    case Mod => h.remainder(lhs, rhs)
    case BitAnd => h.bitAnd(lhs, rhs)
    case BitOr => h.bitOr(lhs, rhs)
    case BitXor => h.bitXor(lhs, rhs)
    case ShiftLeft => h.shiftLeft(lhs, rhs)
    case ShiftRight => h.shiftRight(lhs, rhs)
    case CompareEqual => Boolean(LooselyEqual(h, lhs, rhs))
    case CompareStrictEqual => Boolean(LooselyEqual(h, lhs, rhs))
    case CompareLessThan => Boolean(FloatLess(ToNumber(h, lhs), ToNumber(h, rhs)))
    case CompareGreaterThan => Boolean(FloatLess(ToNumber(h, rhs), ToNumber(h, lhs)))
    case CompareLessThanOrEqual => Boolean(FloatAtMost(ToNumber(h, lhs), ToNumber(h, rhs)))
    case CompareGreaterThanOrEqual => Boolean(FloatAtMost(ToNumber(h, rhs), ToNumber(h, lhs)))
  }

  function EvaluateUnary(h: Host, op: UnaryOp, v: Value): Value {
    match op
    case Negate => Number(FloatNegate(ToNumber(h, v)))
    case Not => Boolean(!ToBoolean(h, v))
  }

  function Argument(args: seq<Value>, index: nat): Value {
    if index < |args| then args[index] else Undefined
  }

  /** The meaning of node `id`: what it computes on `args`, with no sharing of results. */
  ghost function Meaning(h: Host, nodes: seq<Node>, args: seq<Value>, id: nat): Value
    requires WellFormed(nodes) && id < |nodes|
    decreases id
  {
    var node := nodes[id];
    assert NodeOk(node, id);
    match node.op
    case Start => Undefined
    case Constant(c) => c
    case Parameter(index) => Argument(args, index)
    case Binary(op) =>
      EvaluateBinary(h, op, Meaning(h, nodes, args, node.inputs[0]), Meaning(h, nodes, args, node.inputs[1]))
    case Unary(op) => EvaluateUnary(h, op, Meaning(h, nodes, args, node.inputs[0]))
    case Return => if |node.inputs| > 0 then Meaning(h, nodes, args, node.inputs[0]) else Undefined
    case _ => Undefined
  }

  /** What running the graph on `args` returns: the first input of the last return node. */
  ghost function Result(h: Host, nodes: seq<Node>, returnIds: seq<nat>, args: seq<Value>): Value
    requires WellFormed(nodes) && ReturnsOk(nodes, returnIds)
  {
    if |returnIds| == 0 then Undefined
    else
      var node := nodes[returnIds[|returnIds| - 1]];
      assert NodeOk(node, returnIds[|returnIds| - 1]);
      if |node.inputs| > 0 then Meaning(h, nodes, args, node.inputs[0]) else Undefined
  }

  lemma ResultIsReturnMeaning(h: Host, nodes: seq<Node>, returnIds: seq<nat>, args: seq<Value>)
    requires WellFormed(nodes) && ReturnsOk(nodes, returnIds) && |returnIds| > 0
    ensures Result(h, nodes, returnIds, args) == Meaning(h, nodes, args, returnIds[|returnIds| - 1])
  {
  }

  class Memo {
    var table: map<nat, Value>

    constructor ()
      ensures table == map[]
    {
      table := map[];
    }

  }

  /** Every memoised value is the meaning of its node. */
  ghost predicate Sound(h: Host, nodes: seq<Node>, args: seq<Value>, table: map<nat, Value>)
    requires WellFormed(nodes)
  {
    forall id :: id in table ==> id < |nodes| && table[id] == Meaning(h, nodes, args, id)
  }

  method Execute(h: Host, graph: Graph, args: seq<Value>) returns (r: Outcome)
    requires graph.Valid()
    ensures r == Ok(Result(h, graph.nodes, graph.returnIds, args))
  {
    var memo := new Memo();
    if |graph.returnIds| > 0 {
      var returnNode := graph.Get(graph.returnIds[|graph.returnIds| - 1]);
      if returnNode.None? {
        return InvalidReturnNode;
      }
      assert NodeOk(returnNode.value, graph.returnIds[|graph.returnIds| - 1]);
      if |returnNode.value.inputs| > 0 {
        r := EvaluateNode(h, graph, returnNode.value.inputs[0], args, memo);
        return;
      }
    }
    r := Ok(Undefined);
  }

  method EvaluateNode(h: Host, graph: Graph, id: nat, args: seq<Value>, memo: Memo) returns (r: Outcome)
    requires graph.Valid() && Sound(h, graph.nodes, args, memo.table)
    modifies memo
    ensures Sound(h, graph.nodes, args, memo.table)
    ensures id >= |graph.nodes| ==> r == NodeNotFound
    ensures id < |graph.nodes| ==>
      r == Ok(Meaning(h, graph.nodes, args, id)) && id in memo.table
    ensures old(memo.table.Keys) <= memo.table.Keys
    decreases id, 1
  {
    if id in memo.table {
      return Ok(memo.table[id]);
    }
    var found := graph.Get(id);
    if found.None? {
      return NodeNotFound;
    }
    var res := EvaluateOperation(h, graph, found.value, args, memo);
    memo.table := memo.table[id := res];
    r := Ok(res);
  }

  /** The dispatch on the operation, the body of `evaluate_node` after the memo lookup. */
  method EvaluateOperation(h: Host, graph: Graph, node: Node, args: seq<Value>, memo: Memo) returns (res: Value)
    requires graph.Valid() && Sound(h, graph.nodes, args, memo.table)
    requires node.id < |graph.nodes| && graph.nodes[node.id] == node
    modifies memo
    ensures Sound(h, graph.nodes, args, memo.table)
    ensures res == Meaning(h, graph.nodes, args, node.id)
    ensures old(memo.table.Keys) <= memo.table.Keys
    decreases node.id, 0
  {
    assert NodeOk(node, node.id);
    match node.op {
      case Start => res := Undefined;
      case Constant(c) => res := c;
      case Parameter(index) => res := Argument(args, index);
      case Binary(op) =>
        var lhs := EvaluateNode(h, graph, node.inputs[0], args, memo);
        var rhs := EvaluateNode(h, graph, node.inputs[1], args, memo);
        res := EvaluateBinary(h, op, lhs.value, rhs.value);
      case Unary(op) =>
        var inner := EvaluateNode(h, graph, node.inputs[0], args, memo);
        res := EvaluateUnary(h, op, inner.value);
      case Return =>
        if |node.inputs| > 0 {
          var inner := EvaluateNode(h, graph, node.inputs[0], args, memo);
          res := inner.value;
        } else {
          res := Undefined;
        }
      case _ => res := Undefined;
    }
  }
}
