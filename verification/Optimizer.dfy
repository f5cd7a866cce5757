/** The optimizer's driver and its in-place passes (src/compiler/optimizer.rs). */
module Optimizer {
  import opened Options
  import opened FiniteSets
  import opened Values
  import opened Nodes
  import opened Graphs
  import opened Pipeline
  import opened Rewrites
  import opened DeadCode

  datatype OptimizationStats = OptimizationStats(
    constantsFolded: nat, algebraicReductions: nat, deadNodesEliminated: nat)

  datatype Rewritten = Rewritten(nodes: seq<Node>, folded: nat, reduced: nat)

  /** One round of the driver's loop: a folding pass, then a reduction pass. */
  function Round(h: Host, nodes: seq<Node>): Rewritten {
    var afterFolding := RunPass(h, Folding, nodes, |nodes|);
    Rewritten(RunPass(h, Reducing, afterFolding, |nodes|),
              PassCount(h, Folding, nodes, |nodes|),
              PassCount(h, Reducing, afterFolding, |nodes|))
  }

  lemma RoundLowers(h: Host, nodes: seq<Node>)
    requires WellFormed(nodes)
    ensures
      var r := Round(h, nodes);
      && |r.nodes| == |nodes| && WellFormed(r.nodes)
      && TotalHeight(r.nodes, |nodes|) + r.folded + r.reduced <= TotalHeight(nodes, |nodes|)
      && (r.folded + r.reduced == 0 ==> r.nodes == nodes)
  {
    var afterFolding := RunPass(h, Folding, nodes, |nodes|);
    PassLowers(h, Folding, nodes, |nodes|);
    PassLowers(h, Reducing, afterFolding, |nodes|);
    IdlePass(h, Folding, nodes, |nodes|);
    IdlePass(h, Reducing, afterFolding, |nodes|);
  }

  /** Rounds until one changes nothing, with the rewrites counted. */
  ghost function Rounds(h: Host, nodes: seq<Node>): (r: Rewritten)
    requires WellFormed(nodes)
    ensures |r.nodes| == |nodes|
    decreases TotalHeight(nodes, |nodes|)
  {
    RoundLowers(h, nodes);
    var first := Round(h, nodes);
    if first.folded == 0 && first.reduced == 0 then first
    else
      var rest := Rounds(h, first.nodes);
      Rewritten(rest.nodes, first.folded + rest.folded, first.reduced + rest.reduced)
  }

  /** The nodes `optimize` leaves. */
  ghost function Optimized(h: Host, nodes: seq<Node>, returnIds: seq<nat>): (r: seq<Node>)
    requires WellFormed(nodes)
    ensures |r| == |nodes|
  {
    var rewritten := Rounds(h, nodes).nodes;
    Swept(rewritten, returnIds, |rewritten|)
  }

  ghost function Stats(h: Host, nodes: seq<Node>, returnIds: seq<nat>): OptimizationStats
    requires WellFormed(nodes)
  {
    var r := Rounds(h, nodes);
    OptimizationStats(r.folded, r.reduced, KillCount(r.nodes, returnIds, |r.nodes|))
  }

  // ---- The passes in place ------------------------------------------------------------------

  lemma PassKeepsValid(h: Host, pass: Pass, nodes: seq<Node>, returnIds: seq<nat>)
    requires WellFormed(nodes) && ReturnsOk(nodes, returnIds)
    ensures WellFormed(RunPass(h, pass, nodes, |nodes|))
    ensures ReturnsOk(RunPass(h, pass, nodes, |nodes|), returnIds)
  {
    PassLowers(h, pass, nodes, |nodes|);
    forall k | 0 <= k < |returnIds|
      ensures RunPass(h, pass, nodes, |nodes|)[returnIds[k]] == nodes[returnIds[k]]
    {
      PassKeepsReturnNodes(h, pass, nodes, |nodes|, returnIds[k]);
    }
  }

  method ConstantFolding(h: Host, graph: Graph) returns (folded: nat)
    requires graph.Valid()
    modifies graph`nodes
    ensures graph.Valid()
    ensures graph.nodes == RunPass(h, Folding, old(graph.nodes), |old(graph.nodes)|)
    ensures folded == PassCount(h, Folding, old(graph.nodes), |old(graph.nodes)|)
  {
    folded := 0;
    var len := |graph.nodes|;
    for i := 0 to len
      invariant |graph.nodes| == len
      invariant graph.nodes == RunPass(h, Folding, old(graph.nodes), i)
      invariant folded == PassCount(h, Folding, old(graph.nodes), i)
    {
      var node := graph.nodes[i];
      if node.IsDead() || node.IsConstant() {
        continue;
      }
      if |node.inputs| == 1 {
        var val := ConstantAt(graph.nodes, node.inputs[0]);
        if val.Some? && node.op.Unary? {
          var c := FoldUnary(h, node.op.unary, val.value);
          graph.ReplaceNode(i, Constant(c), []);
          folded := folded + 1;
          continue;
        }
      }
      if |node.inputs| == 2 {
        var left := ConstantAt(graph.nodes, node.inputs[0]);
        var right := ConstantAt(graph.nodes, node.inputs[1]);
        if left.Some? && right.Some? && node.op.Binary? {
          var c := FoldBinary(h, node.op.binary, left.value, right.value);
          graph.ReplaceNode(i, Constant(c), []);
          folded := folded + 1;
        }
      }
    }
    PassKeepsValid(h, Folding, old(graph.nodes), graph.returnIds);
  }

  method AlgebraicReductions(h: Host, graph: Graph) returns (reductions: nat)
    requires graph.Valid()
    modifies graph`nodes
    ensures graph.Valid()
    ensures graph.nodes == RunPass(h, Reducing, old(graph.nodes), |old(graph.nodes)|)
    ensures reductions == PassCount(h, Reducing, old(graph.nodes), |old(graph.nodes)|)
  {
    reductions := 0;
    var len := |graph.nodes|;
    for i := 0 to len
      invariant |graph.nodes| == len
      invariant graph.nodes == RunPass(h, Reducing, old(graph.nodes), i)
      invariant reductions == PassCount(h, Reducing, old(graph.nodes), i)
    {
      var changed := ReduceNode(h, graph, i);
      if changed {
        reductions := reductions + 1;
      }
    }
    PassKeepsValid(h, Reducing, old(graph.nodes), graph.returnIds);
  }

  /** The body of the reduction loop: at most one rule fires. */
  method ReduceNode(h: Host, graph: Graph, i: nat) returns (changed: bool)
    requires i < |graph.nodes|
    modifies graph`nodes
    ensures graph.nodes == RewriteAt(h, Reducing, old(graph.nodes), i)
    ensures changed <==> RewriteOf(h, Reducing, old(graph.nodes), i).Some?
  {
    changed := false;
    var node := graph.nodes[i];
    if node.IsDead() || node.IsConstant() || |node.inputs| != 2 || !node.op.Binary? {
      return;
    }
    var left, right := node.inputs[0], node.inputs[1];
    var leftIsZero, rightIsZero := ConstantZeroAt(h, graph.nodes, left), ConstantZeroAt(h, graph.nodes, right);
    var leftIsOne, rightIsOne := ConstantOneAt(h, graph.nodes, left), ConstantOneAt(h, graph.nodes, right);
    match node.op.binary {
      case Add =>
        if rightIsZero {
          changed := CopyNode(graph, i, left);
        } else if leftIsZero {
          changed := CopyNode(graph, i, right);
        }
      case Sub =>
        if rightIsZero {
          changed := CopyNode(graph, i, left);
        } else if left == right {
          graph.ReplaceNode(i, Constant(Smi(0)), []);
          changed := true;
        }
      case Mul =>
        if rightIsOne {
          changed := CopyNode(graph, i, left);
        } else if leftIsOne {
          changed := CopyNode(graph, i, right);
        } else if leftIsZero || rightIsZero {
          graph.ReplaceNode(i, Constant(Smi(0)), []);
          changed := true;
        }
      case _ =>
    }
  }

  /** `if let Some(n) = graph.get(source) { replace node i by n }` */
  method CopyNode(graph: Graph, i: nat, source: nat) returns (changed: bool)
    requires i < |graph.nodes|
    modifies graph`nodes
    ensures changed <==> source < |old(graph.nodes)|
    ensures changed ==>
      graph.nodes == Put(old(graph.nodes), i, Form(old(graph.nodes)[source].op, old(graph.nodes)[source].inputs))
    ensures !changed ==> graph.nodes == old(graph.nodes)
  {
    var found := graph.Get(source);
    changed := found.Some?;
    if changed {
      graph.ReplaceNode(i, found.value.op, found.value.inputs);
    }
  }

  method Optimize(h: Host, graph: Graph) returns (stats: OptimizationStats)
    requires graph.Valid()
    modifies graph
    ensures graph.Valid()
    ensures graph.start == old(graph.start) && graph.returnIds == old(graph.returnIds)
    ensures graph.nodes == Optimized(h, old(graph.nodes), graph.returnIds)
    ensures stats == Stats(h, old(graph.nodes), graph.returnIds)
  {
    var folds, reductions := 0, 0;
    ghost var target := Rounds(h, graph.nodes);
    while true
      invariant graph.Valid() && |graph.nodes| == |old(graph.nodes)|
      invariant graph.start == old(graph.start) && graph.returnIds == old(graph.returnIds)
      invariant Rounds(h, graph.nodes).nodes == target.nodes
      invariant folds + Rounds(h, graph.nodes).folded == target.folded
      invariant reductions + Rounds(h, graph.nodes).reduced == target.reduced
      decreases TotalHeight(graph.nodes, |graph.nodes|)
    {
      RoundLowers(h, graph.nodes);
      ghost var before := graph.nodes;
      var folded := ConstantFolding(h, graph);
      var reduced := AlgebraicReductions(h, graph);
      assert Rewritten(graph.nodes, folded, reduced) == Round(h, before);
      folds := folds + folded;
      reductions := reductions + reduced;
      if folded == 0 && reduced == 0 {
        break;
      }
    }
    var eliminated := DeadCodeElimination(graph);
    stats := OptimizationStats(folds, reductions, eliminated);
  }

  // ---- Dead-code elimination in place -------------------------------------------------------

  ghost function Ids(n: nat): (ids: set<nat>)
    ensures forall id: nat :: id in ids <==> id < n
  {
    if n == 0 then {} else Ids(n - 1) + {n - 1}
  }

  lemma SmallerRest(all: set<nat>, before: set<nat>, after: set<nat>)
    requires before < after <= all
    ensures |all - after| < |all - before|
  {
    var id :| id in after && id !in before;
    assert id in all - before && id !in all - after;
    assert all - after <= (all - before) - {id};
    SubsetSize(all - after, (all - before) - {id});
  }

  method DeadCodeElimination(graph: Graph) returns (eliminated: nat)
    requires graph.Valid()
    modifies graph`nodes
    ensures graph.Valid()
    ensures graph.nodes == Swept(old(graph.nodes), graph.returnIds, |old(graph.nodes)|)
    ensures eliminated == KillCount(old(graph.nodes), graph.returnIds, |old(graph.nodes)|)
  {
    var live := MarkLive(graph);
    eliminated := 0;
    var len := |graph.nodes|;
    for i := 0 to len
      invariant graph.nodes == Swept(old(graph.nodes), graph.returnIds, i)
      invariant eliminated == KillCount(old(graph.nodes), graph.returnIds, i)
    {
      if i !in live {
        var node := graph.nodes[i];
        if !node.IsDead() {
          graph.nodes := graph.nodes[i := node.(op := Dead, inputs := [], control := None)];
          eliminated := eliminated + 1;
        }
      }
    }
    SweptIsWellFormed(old(graph.nodes), graph.returnIds, len);
    assert ReturnsOk(graph.nodes, graph.returnIds);
  }

  /** The seeds: the start node, and every return node with its edges still to be followed. */
  method SeedLive(graph: Graph) returns (live: set<nat>, worklist: seq<nat>)
    requires graph.Valid()
    ensures Marking(graph.nodes, graph.returnIds, live, worklist)
    ensures forall k :: 0 <= k < |graph.returnIds| ==> graph.returnIds[k] in live
  {
    live, worklist := {graph.start}, [];
    assert NodeOk(graph.nodes[0], 0);
    for k := 0 to |graph.returnIds|
      invariant live == {0} + (set j | 0 <= j < k :: graph.returnIds[j])
      invariant worklist == graph.returnIds[..k]
    {
      live := live + {graph.returnIds[k]};
      worklist := worklist + [graph.returnIds[k]];
    }
    assert worklist == graph.returnIds;
  }

  /** The worklist loop: marks the start node and everything the returns reach. */
  method MarkLive(graph: Graph) returns (live: set<nat>)
    requires graph.Valid()
    ensures forall id :: 0 <= id < |graph.nodes| ==>
      (id in live <==> Live(graph.nodes, graph.returnIds, id))
  {
    var worklist;
    live, worklist := SeedLive(graph);
    ghost var all := Ids(|graph.nodes|);
    while |worklist| > 0
      invariant Marking(graph.nodes, graph.returnIds, live, worklist)
      invariant forall k :: 0 <= k < |graph.returnIds| ==> graph.returnIds[k] in live
      decreases |all - live|, |worklist|
    {
      ghost var before := live;
      PopMarks(graph.nodes, graph.returnIds, live, worklist);
      var current := worklist[|worklist| - 1];
      worklist := worklist[..|worklist| - 1];
      live, worklist := MarkTargets(graph, current, live, worklist);
      if live != before {
        MarkedIsBounded(graph.nodes, graph.returnIds, live, worklist);
        SmallerRest(all, before, live);
      }
    }
    forall id | 0 <= id < |graph.nodes| ensures id in live <==> Live(graph.nodes, graph.returnIds, id) {
      MarkedIsLive(graph.nodes, graph.returnIds, live, worklist, id);
    }
  }

  /** Follows the edges of a node just popped; the worklist grows only if the marking does. */
  method MarkTargets(graph: Graph, current: nat, marked: set<nat>, pending: seq<nat>)
    returns (live: set<nat>, worklist: seq<nat>)
    requires graph.Valid() && MarkingBut(graph.nodes, graph.returnIds, marked, pending, current)
    ensures Marking(graph.nodes, graph.returnIds, live, worklist)
    ensures marked <= live && (live == marked ==> worklist == pending)
  {
    live, worklist := marked, pending;
    var found := graph.Get(current);
    CurrentIsLive(graph.nodes, graph.returnIds, marked, pending, current);
    if found.None? {
      return;
    }
    var node := found.value;
    for k := 0 to |node.inputs|
      invariant MarkingBut(graph.nodes, graph.returnIds, live, worklist, current)
      invariant marked <= live && (live == marked ==> worklist == pending)
      invariant forall j :: 0 <= j < k ==> node.inputs[j] in live
    {
      live, worklist := Mark(graph, current, node.inputs[k], live, worklist);
    }
    if node.control.Some? {
      live, worklist := Mark(graph, current, node.control.value, live, worklist);
    }
    AllFollowed(graph.nodes, graph.returnIds, live, worklist, current);
  }

  /** `if live_set.insert(id) { worklist.push(id) }` for a target of the node being followed. */
  method Mark(graph: Graph, ghost current: nat, id: nat, marked: set<nat>, pending: seq<nat>)
    returns (live: set<nat>, worklist: seq<nat>)
    requires graph.Valid() && MarkingBut(graph.nodes, graph.returnIds, marked, pending, current)
    requires current < |graph.nodes| && graph.nodes[current].PointsTo(id)
    ensures MarkingBut(graph.nodes, graph.returnIds, live, worklist, current)
    ensures live == marked + {id} && (id in marked ==> live == marked && worklist == pending)
  {
    live, worklist := marked, pending;
    if id !in live {
      MarkOne(graph.nodes, graph.returnIds, live, worklist, current, id);
      live := live + {id};
      worklist := worklist + [id];
    }
  }

  // ---- What optimizing achieves -------------------------------------------------------------

  lemma {:induction false} RoundsKeepSafeNodes(h: Host, nodes: seq<Node>, args: seq<Value>, id: nat)
    requires WellFormed(nodes) && id < |nodes| && Safe(h, nodes, args, id)
    ensures WellFormed(Rounds(h, nodes).nodes)
    ensures Meaning(h, Rounds(h, nodes).nodes, args, id) == Meaning(h, nodes, args, id)
    ensures Safe(h, Rounds(h, nodes).nodes, args, id)
    decreases TotalHeight(nodes, |nodes|)
  {
    RoundLowers(h, nodes);
    var afterFolding := RunPass(h, Folding, nodes, |nodes|);
    PassKeepsSafeNodes(h, Folding, nodes, args, |nodes|, id);
    PassKeepsSafeNodes(h, Reducing, afterFolding, args, |nodes|, id);
    var first := Round(h, nodes);
    if first.folded != 0 || first.reduced != 0 {
      RoundsKeepSafeNodes(h, first.nodes, args, id);
    }
  }

  /** The rounds end in a graph neither pass can rewrite, after at most `TotalHeight` rewrites. */
  lemma {:induction false} RoundsReachFixedPoint(h: Host, nodes: seq<Node>)
    requires WellFormed(nodes)
    ensures WellFormed(Rounds(h, nodes).nodes)
    ensures forall pass, id :: 0 <= id < |nodes| ==> RewriteOf(h, pass, Rounds(h, nodes).nodes, id).None?
    ensures TotalHeight(Rounds(h, nodes).nodes, |nodes|) + Rounds(h, nodes).folded + Rounds(h, nodes).reduced
         <= TotalHeight(nodes, |nodes|)
    decreases TotalHeight(nodes, |nodes|)
  {
    RoundLowers(h, nodes);
    var first := Round(h, nodes);
    if first.folded == 0 && first.reduced == 0 {
      IdlePass(h, Folding, nodes, |nodes|);
      IdlePass(h, Reducing, nodes, |nodes|);
      forall pass, id | 0 <= id < |nodes| ensures RewriteOf(h, pass, nodes, id).None? {
        match pass
        case Folding =>
        case Reducing =>
      }
    } else {
      RoundsReachFixedPoint(h, first.nodes);
    }
  }

  lemma {:induction false} RoundsAtFixedPoint(h: Host, nodes: seq<Node>)
    requires WellFormed(nodes)
    requires forall pass, id :: 0 <= id < |nodes| ==> RewriteOf(h, pass, nodes, id).None?
    ensures Rounds(h, nodes) == Rewritten(nodes, 0, 0)
  {
    IdlePass(h, Folding, nodes, |nodes|);
    IdlePass(h, Reducing, nodes, |nodes|);
  }

  lemma {:induction false} RoundsKeepReturns(h: Host, nodes: seq<Node>, returnIds: seq<nat>)
    requires WellFormed(nodes) && ReturnsOk(nodes, returnIds)
    ensures ReturnsOk(Rounds(h, nodes).nodes, returnIds)
    decreases TotalHeight(nodes, |nodes|)
  {
    RoundLowers(h, nodes);
    PassKeepsValid(h, Folding, nodes, returnIds);
    PassKeepsValid(h, Reducing, RunPass(h, Folding, nodes, |nodes|), returnIds);
    var first := Round(h, nodes);
    if first.folded != 0 || first.reduced != 0 {
      RoundsKeepReturns(h, first.nodes, returnIds);
    }
  }

  /** `optimize` preserves meaning: running the optimized graph returns what running the original
      would, provided every operation the result depends on has operands safe for the rules. */
  lemma OptimizeKeepsResult(h: Host, nodes: seq<Node>, returnIds: seq<nat>, args: seq<Value>)
    requires WellFormed(nodes) && ReturnsOk(nodes, returnIds)
    requires |returnIds| > 0 ==> Safe(h, nodes, args, returnIds[|returnIds| - 1])
    ensures WellFormed(Optimized(h, nodes, returnIds)) && ReturnsOk(Optimized(h, nodes, returnIds), returnIds)
    ensures Result(h, Optimized(h, nodes, returnIds), returnIds, args) == Result(h, nodes, returnIds, args)
  {
    var rewritten := Rounds(h, nodes).nodes;
    RoundsReachFixedPoint(h, nodes);
    RoundsKeepReturns(h, nodes, returnIds);
    SweptIsWellFormed(rewritten, returnIds, |rewritten|);
    if |returnIds| > 0 {
      var id := returnIds[|returnIds| - 1];
      RoundsKeepSafeNodes(h, nodes, args, id);
      SweepKeepsLive(h, rewritten, returnIds, args, id);
      ResultIsReturnMeaning(h, nodes, returnIds, args);
      ResultIsReturnMeaning(h, Optimized(h, nodes, returnIds), returnIds, args);
    }
  }

  /** Every addition, subtraction and multiplication below `id` is on 32-bit integers. */
  ghost predicate SmallIntegers(h: Host, nodes: seq<Node>, args: seq<Value>, id: nat)
    requires WellFormed(nodes) && id < |nodes|
    decreases id
  {
    var node := nodes[id];
    assert NodeOk(node, id);
    && (node.op == Binary(BinaryOp.Add) || node.op == Binary(Sub) || node.op == Binary(Mul) ==>
          Meaning(h, nodes, args, node.inputs[0]).Smi? && Meaning(h, nodes, args, node.inputs[1]).Smi?)
    && (forall k :: 0 <= k < |node.inputs| ==> SmallIntegers(h, nodes, args, node.inputs[k]))
  }

  lemma {:induction false} SmallIntegerArithmeticIsSafe(h: Host, nodes: seq<Node>, args: seq<Value>, id: nat)
    requires WellFormed(nodes) && id < |nodes| && SmallIntegers(h, nodes, args, id)
    ensures Safe(h, nodes, args, id)
    decreases id
  {
    var node := nodes[id];
    assert NodeOk(node, id);
    forall k | 0 <= k < |node.inputs| ensures Safe(h, nodes, args, node.inputs[k]) {
      SmallIntegerArithmeticIsSafe(h, nodes, args, node.inputs[k]);
    }
  }

  /** The graph of `a0 * 0`. */
  function TimesZero(): seq<Node> {
    [Node(0, Start, [], None),
     Node(1, Parameter(0), [], Some(0)),
     Node(2, Constant(Smi(0)), [], None),
     Node(3, Binary(Mul), [1, 2], None),
     Node(4, Return, [3], Some(0))]
  }

  function TimesZeroReduced(): seq<Node> {
    TimesZero()[3 := Node(3, Constant(Smi(0)), [], None)]
  }

  lemma TimesZeroIsWellFormed()
    ensures WellFormed(TimesZero()) && WellFormed(TimesZeroReduced())
    ensures ReturnsOk(TimesZero(), [4])
  {
  }

  lemma TimesZeroFolds(h: Host, i: nat)
    requires i < 5
    ensures RewriteOf(h, Folding, TimesZero(), i).None?
    ensures RewriteOf(h, Folding, TimesZeroReduced(), i).None?
    ensures RewriteOf(h, Reducing, TimesZeroReduced(), i).None?
    ensures RewriteOf(h, Reducing, TimesZero(), i)
         == (if i == 3 then Some(Form(Constant(Smi(0)), [])) else None)
  {
  }

  lemma TimesZeroReduces(h: Host)
    ensures Round(h, TimesZero()) == Rewritten(TimesZeroReduced(), 0, 1)
  {
    forall i | 0 <= i < 5
      ensures RewriteOf(h, Folding, TimesZero(), i).None? && RewriteOf(h, Reducing, TimesZeroReduced(), i).None?
    {
      TimesZeroFolds(h, i);
    }
    IdlePass(h, Folding, TimesZero(), 5);
    TimesZeroFolds(h, 0);
    TimesZeroFolds(h, 1);
    TimesZeroFolds(h, 2);
    TimesZeroFolds(h, 3);
    TimesZeroFolds(h, 4);
    IdlePass(h, Reducing, TimesZero(), 3);
    assert RunPass(h, Reducing, TimesZero(), 4) == TimesZeroReduced();
    assert PassCount(h, Reducing, TimesZero(), 4) == 1;
  }

  /** The premise is needed: on `undefined`, `a0 * 0` is NaN, and 0 once optimized. */
  lemma OptimizeChangesUndefinedTimesZero(h: Host)
    ensures WellFormed(TimesZero()) && ReturnsOk(TimesZero(), [4])
    ensures WellFormed(Optimized(h, TimesZero(), [4])) && ReturnsOk(Optimized(h, TimesZero(), [4]), [4])
    ensures Result(h, TimesZero(), [4], [Undefined]) == Number(NaN)
    ensures Result(h, Optimized(h, TimesZero(), [4]), [4], [Undefined]) == Smi(0)
  {
    TimesZeroIsWellFormed();
    TimesZeroReduces(h);
    var reduced := TimesZeroReduced();
    assert Rounds(h, TimesZero()).nodes == reduced by {
      RoundLowers(h, TimesZero());
      forall pass, id | 0 <= id < 5 ensures RewriteOf(h, pass, reduced, id).None? {
        TimesZeroFolds(h, id);
        match pass
        case Folding =>
        case Reducing =>
      }
      RoundsAtFixedPoint(h, reduced);
    }
    TimesZeroMeans(h);
    SweepKeepsLive(h, reduced, [4], [Undefined], 4);
    ResultIsReturnMeaning(h, Optimized(h, TimesZero(), [4]), [4], [Undefined]);
  }

  lemma TimesZeroMeans(h: Host)
    ensures WellFormed(TimesZero()) && WellFormed(TimesZeroReduced())
    ensures Meaning(h, TimesZero(), [Undefined], 3) == Number(NaN)
    ensures Meaning(h, TimesZeroReduced(), [Undefined], 4) == Smi(0)
  {
    TimesZeroIsWellFormed();
    assert Meaning(h, TimesZero(), [Undefined], 1) == Undefined;
  }

  /** Optimizing twice is optimizing once, and the second run reports that it did nothing. */
  lemma OptimizeIsIdempotent(h: Host, nodes: seq<Node>, returnIds: seq<nat>)
    requires WellFormed(nodes)
    ensures WellFormed(Optimized(h, nodes, returnIds))
    ensures Optimized(h, Optimized(h, nodes, returnIds), returnIds) == Optimized(h, nodes, returnIds)
    ensures Stats(h, Optimized(h, nodes, returnIds), returnIds) == OptimizationStats(0, 0, 0)
  {
    RoundsReachFixedPoint(h, nodes);
    var rewritten := Rounds(h, nodes).nodes;
    var after := Optimized(h, nodes, returnIds);
    SweptIsWellFormed(rewritten, returnIds, |rewritten|);
    forall pass, id | 0 <= id < |nodes| ensures RewriteOf(h, pass, after, id).None? {
      SweepAddsNoRewrite(h, pass, rewritten, returnIds, id);
    }
    RoundsAtFixedPoint(h, after);
    SweepIsIdempotent(rewritten, returnIds);
  }
}
