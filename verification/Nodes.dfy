/** Nodes of the intermediate representation (src/compiler/node.rs) and the invariant of the graphs
    the compiler builds: every edge points to a node with a smaller id. */
module Nodes {
  import opened Options
  import opened Values

  datatype BinaryOp =
    | Add | Sub | Mul | Div | Mod | BitAnd | BitOr | BitXor | ShiftLeft | ShiftRight
    | CompareEqual | CompareStrictEqual | CompareLessThan | CompareGreaterThan
    | CompareLessThanOrEqual | CompareGreaterThanOrEqual

  datatype UnaryOp = Negate | Not

  /** The operators with two and with one operand are grouped; otherwise as in the source. */
  datatype NodeOp =
    | Start
    | Parameter(index: nat)
    | Constant(value: Value)
    | Binary(binary: BinaryOp)
    | Unary(unary: UnaryOp)
    | Branch | IfTrue | IfFalse | Merge | Phi
    | Return
    | Dead

  datatype Node = Node(id: nat, op: NodeOp, inputs: seq<nat>, control: Option<nat>)
  {
    predicate IsConstant() { op.Constant? }

    predicate IsDead() { op.Dead? }

    function AsConstant(): Option<Value> {
      if op.Constant? then Some(op.value) else None
    }

    /** Data and control edges leaving this node. */
    predicate PointsTo(target: nat) {
      target in inputs || control == Some(target)
    }
  }

  predicate ArityOk(op: NodeOp, arity: nat) {
    && (op.Binary? ==> arity == 2)
    && (op.Unary? ==> arity == 1)
  }

  predicate NodeOk(node: Node, id: nat) {
    && node.id == id
    && ArityOk(node.op, |node.inputs|)
    && (forall k :: 0 <= k < |node.inputs| ==> node.inputs[k] < id)
    && (node.control.Some? ==> node.control.value < id)
  }

  ghost predicate WellFormed(nodes: seq<Node>) {
    forall i :: 0 <= i < |nodes| ==> NodeOk(nodes[i], i)
  }

  /** The recorded return ids are return nodes of the graph. */
  ghost predicate ReturnsOk(nodes: seq<Node>, returnIds: seq<nat>) {
    forall k :: 0 <= k < |returnIds| ==> returnIds[k] < |nodes| && nodes[returnIds[k]].op.Return?
  }

  function Replace(nodes: seq<Node>, id: nat, op: NodeOp, inputs: seq<nat>): (r: seq<Node>)
    ensures |r| == |nodes|
  {
    if id < |nodes| then nodes[id := nodes[id].(op := op, inputs := inputs)] else nodes
  }
}
