/** The node store (src/compiler/graph.rs). */
module Graphs {
  import opened Options
  import opened Nodes

  class Graph {
    var nodes: seq<Node>
    var start: nat
    var returnIds: seq<nat>

    /** What holds of every graph reached through the operations below. */
    ghost predicate Valid()
      reads this
    {
      && WellFormed(nodes)
      && start == 0 < |nodes|
      && ReturnsOk(nodes, returnIds)
    }

    constructor ()
      ensures Valid()
      ensures nodes == [Node(0, Start, [], None)] && returnIds == []
    {
      nodes := [Node(0, Start, [], None)];
      start := 0;
      returnIds := [];
    }

    method AddNode(op: NodeOp, inputs: seq<nat>, control: Option<nat>) returns (id: nat)
      modifies this`nodes, this`returnIds
      ensures old(Valid()) && NodeOk(Node(id, op, inputs, control), id) ==> Valid()
      ensures id == old(|nodes|)
      ensures nodes == old(nodes) + [Node(id, op, inputs, control)]
      ensures returnIds == old(returnIds) + (if op.Return? then [id] else [])
    {
      id := |nodes|;
      var node := Node(id, op, inputs, control);
      if node.op == Return {
        returnIds := returnIds + [id];
      }
      nodes := nodes + [node];
    }

    method ReplaceNode(id: nat, op: NodeOp, inputs: seq<nat>)
      modifies this`nodes
      ensures nodes == Replace(old(nodes), id, op, inputs)
    {
      if id < |nodes| {
        nodes := nodes[id := nodes[id].(op := op, inputs := inputs)];
      }
    }

    function Get(id: nat): (node: Option<Node>)
      reads this
      ensures node.Some? <==> id < |nodes|
      ensures node.Some? ==> node.value == nodes[id]
    {
      if id < |nodes| then Some(nodes[id]) else None
    }
  }
}
