module FixedPoints {
  // What the optimizer leaves no more of, and what its statistics count.
  // Which nodes the passes rewrite is said here by the shape of the nodes alone.

  import opened Values
  import opened Nodes
  import opened Rewrites
  import opened DeadCode
  import opened Optimizer
  import opened PassExactness

  predicate HasConstant(nodes: seq<Node>, id: nat) {
    id < |nodes| && nodes[id].op.Constant?
  }

  /** An operator whose operands are all constants. */
  predicate OfConstants(nodes: seq<Node>, i: nat)
    requires i < |nodes|
  {
    match nodes[i].op
    case Unary(_) => |nodes[i].inputs| == 1 && HasConstant(nodes, nodes[i].inputs[0])
    case Binary(_) =>
      |nodes[i].inputs| == 2 && HasConstant(nodes, nodes[i].inputs[0]) && HasConstant(nodes, nodes[i].inputs[1])
    case _ => false
  }

  /** A constant that converts to a zero of either sign. */
  predicate HasZero(h: Host, nodes: seq<Node>, id: nat) {
    HasConstant(nodes, id)
    && (ToNumber(h, nodes[id].op.value) == Finite(0.0) || ToNumber(h, nodes[id].op.value) == NegZero)
  }

  predicate HasOne(h: Host, nodes: seq<Node>, id: nat) {
    HasConstant(nodes, id) && ToNumber(h, nodes[id].op.value) == Finite(1.0)
  }

  /** `x + 0`, `0 + x`, `x - 0`, `x - x`, `x * 1`, `1 * x`, `x * 0` or `0 * x`. */
  predicate Reducible(h: Host, nodes: seq<Node>, i: nat)
    requires i < |nodes|
  {
    && |nodes[i].inputs| == 2
    && var l, r := nodes[i].inputs[0], nodes[i].inputs[1];
       match nodes[i].op
       case Binary(op) =>
         (match op
          case Add => HasZero(h, nodes, l) || HasZero(h, nodes, r)
          case Sub => HasZero(h, nodes, r) || l == r
          case Mul => HasOne(h, nodes, l) || HasOne(h, nodes, r) || HasZero(h, nodes, l) || HasZero(h, nodes, r)
          case _ => false)
       case _ => false
  }

  predicate Rewritable(h: Host, pass: Pass, nodes: seq<Node>, i: nat)
    requires i < |nodes|
  {
    match pass
    case Folding => OfConstants(nodes, i)
    case Reducing => Reducible(h, nodes, i)
  }

  lemma RewritableIff(h: Host, pass: Pass, nodes: seq<Node>, i: nat)
    requires WellFormed(nodes) && i < |nodes|
    ensures RewriteOf(h, pass, nodes, i).Some? <==> Rewritable(h, pass, nodes, i)
  {
    assert NodeOk(nodes[i], i);
    match pass
    case Folding =>
    case Reducing => ReducibleIff(h, nodes, i);
  }

  lemma ReducibleIff(h: Host, nodes: seq<Node>, i: nat)
    requires WellFormed(nodes) && i < |nodes|
    ensures RewriteOf(h, Reducing, nodes, i).Some? <==> Reducible(h, nodes, i)
  {
    assert NodeOk(nodes[i], i);
  }

  // ---- What is left -------------------------------------------------------------------------

  /** No operator has constant operands only, and no sum, difference or product has an operand that one of
      the rules removes. */
  ghost predicate NothingLeft(h: Host, nodes: seq<Node>) {
    forall i :: 0 <= i < |nodes| ==> !OfConstants(nodes, i) && !Reducible(h, nodes, i)
  }

  lemma NothingLeftIff(h: Host, nodes: seq<Node>)
    requires WellFormed(nodes)
    ensures NothingLeft(h, nodes) <==> Round(h, nodes).folded == 0 && Round(h, nodes).reduced == 0
  {
    RoundLowers(h, nodes);
    IdlePass(h, Folding, nodes, |nodes|);
    IdlePass(h, Reducing, nodes, |nodes|);
    forall i | 0 <= i < |nodes|
      ensures RewriteOf(h, Folding, nodes, i).Some? <==> OfConstants(nodes, i)
      ensures RewriteOf(h, Reducing, nodes, i).Some? <==> Reducible(h, nodes, i)
    {
      RewritableIff(h, Folding, nodes, i);
      RewritableIff(h, Reducing, nodes, i);
    }
    if NothingLeft(h, nodes) {
      forall i | 0 <= i < |nodes|
        ensures RewriteOf(h, Folding, nodes, i).None? && RewriteOf(h, Reducing, nodes, i).None?
      {
        assert !OfConstants(nodes, i) && !Reducible(h, nodes, i);
      }
    }
  }

  /** The rounds, and the dead-code elimination after them, leave nothing that could be rewritten. */
  lemma OptimizedHasNothingLeft(h: Host, nodes: seq<Node>, returnIds: seq<nat>)
    requires WellFormed(nodes)
    ensures NothingLeft(h, Rounds(h, nodes).nodes)
    ensures NothingLeft(h, Optimized(h, nodes, returnIds))
  {
    RoundsReachFixedPoint(h, nodes);
    var rewritten, after := Rounds(h, nodes).nodes, Optimized(h, nodes, returnIds);
    SweptIsWellFormed(rewritten, returnIds, |rewritten|);
    forall i | 0 <= i < |nodes|
      ensures !OfConstants(rewritten, i) && !Reducible(h, rewritten, i)
      ensures !OfConstants(after, i) && !Reducible(h, after, i)
    {
      NothingToRewriteAt(h, rewritten, i);
      SweepAddsNoRewrite(h, Folding, rewritten, returnIds, i);
      SweepAddsNoRewrite(h, Reducing, rewritten, returnIds, i);
      NothingToRewriteAt(h, after, i);
    }
  }

  lemma NothingToRewriteAt(h: Host, nodes: seq<Node>, i: nat)
    requires WellFormed(nodes) && i < |nodes|
    requires RewriteOf(h, Folding, nodes, i).None? && RewriteOf(h, Reducing, nodes, i).None?
    ensures !OfConstants(nodes, i) && !Reducible(h, nodes, i)
  {
    RewritableIff(h, Folding, nodes, i);
    RewritableIff(h, Reducing, nodes, i);
  }

  // ---- What is counted ----------------------------------------------------------------------

  lemma PassIsWellFormed(h: Host, pass: Pass, nodes: seq<Node>, n: nat)
    requires WellFormed(nodes) && n <= |nodes|
    ensures WellFormed(RunPass(h, pass, nodes, n))
  {
    PassLowers(h, pass, nodes, n);
  }

  lemma RewriteChanges(h: Host, pass: Pass, nodes: seq<Node>, i: nat)
    requires WellFormed(nodes) && i < |nodes|
    ensures RewriteAt(h, pass, nodes, i)[i] != nodes[i] <==> RewriteOf(h, pass, nodes, i).Some?
    ensures pass == Folding && RewriteOf(h, pass, nodes, i).Some? ==>
      RewriteAt(h, pass, nodes, i)[i].op.Constant? && !nodes[i].op.Constant?
  {
    if RewriteOf(h, pass, nodes, i).Some? {
      RewriteFits(h, pass, nodes, i);
      assert NodeOk(nodes[i], i);
    }
  }

  /** A pass changes a node if and only if the node is of the shape the pass looks for when its turn comes. */
  lemma ChangedIff(h: Host, pass: Pass, nodes: seq<Node>, i: nat)
    requires WellFormed(nodes) && i < |nodes|
    ensures RunPass(h, pass, nodes, |nodes|)[i] != nodes[i] <==> Rewritable(h, pass, RunPass(h, pass, nodes, i), i)
  {
    PassIsWellFormed(h, pass, nodes, i);
    UnvisitedIsUntouched(h, pass, nodes, 0, i, i);
    UnvisitedIsUntouched(h, pass, nodes, i + 1, |nodes|, i);
    RewriteChanges(h, pass, RunPass(h, pass, nodes, i), i);
    RewritableIff(h, pass, RunPass(h, pass, nodes, i), i);
  }

  ghost function Changed(before: seq<Node>, after: seq<Node>, n: nat): set<nat>
    requires n <= |before| == |after|
  {
    set i | 0 <= i < n && after[i] != before[i]
  }

  /** The count of a pass is the number of nodes it has changed. */
  lemma {:induction false} CountIsChanged(h: Host, pass: Pass, nodes: seq<Node>, n: nat)
    requires WellFormed(nodes) && n <= |nodes|
    ensures PassCount(h, pass, nodes, n) == |Changed(nodes, RunPass(h, pass, nodes, n), n)|
  {
    if n > 0 {
      CountIsChanged(h, pass, nodes, n - 1);
      PassIsWellFormed(h, pass, nodes, n - 1);
      UnvisitedIsUntouched(h, pass, nodes, 0, n - 1, n - 1);
      NextIsCounted(h, pass, nodes, RunPass(h, pass, nodes, n - 1), n - 1);
    }
  }

  lemma NextIsCounted(h: Host, pass: Pass, nodes: seq<Node>, before: seq<Node>, i: nat)
    requires WellFormed(before) && i < |nodes| == |before| && before[i] == nodes[i]
    ensures |Changed(nodes, RewriteAt(h, pass, before, i), i + 1)|
         == |Changed(nodes, before, i)| + if RewriteOf(h, pass, before, i).Some? then 1 else 0
  {
    RewriteChanges(h, pass, before, i);
    ChangedGrows(nodes, before, RewriteAt(h, pass, before, i), i);
  }

  lemma ChangedGrows(nodes: seq<Node>, before: seq<Node>, after: seq<Node>, i: nat)
    requires i < |nodes| == |before| == |after|
    requires forall j :: 0 <= j < i ==> after[j] == before[j]
    ensures |Changed(nodes, after, i + 1)| == |Changed(nodes, before, i)| + if after[i] != nodes[i] then 1 else 0
  {
    var earlier := Changed(nodes, before, i);
    assert Changed(nodes, after, i + 1) == if after[i] != nodes[i] then earlier + {i} else earlier;
  }

  /** The count of a folding pass is the number of nodes that become constants. */
  lemma FoldsAreCounted(h: Host, nodes: seq<Node>)
    requires WellFormed(nodes)
    ensures
      var after := RunPass(h, Folding, nodes, |nodes|);
      PassCount(h, Folding, nodes, |nodes|)
        == |(set i | 0 <= i < |nodes| && !nodes[i].op.Constant? && after[i].op.Constant?)|
  {
    CountIsChanged(h, Folding, nodes, |nodes|);
    var after := RunPass(h, Folding, nodes, |nodes|);
    forall i | 0 <= i < |nodes|
      ensures after[i] != nodes[i] <==> !nodes[i].op.Constant? && after[i].op.Constant?
    {
      PassIsWellFormed(h, Folding, nodes, i);
      UnvisitedIsUntouched(h, Folding, nodes, 0, i, i);
      UnvisitedIsUntouched(h, Folding, nodes, i + 1, |nodes|, i);
      RewriteChanges(h, Folding, RunPass(h, Folding, nodes, i), i);
    }
    assert Changed(nodes, after, |nodes|)
        == set i | 0 <= i < |nodes| && !nodes[i].op.Constant? && after[i].op.Constant?;
  }
}
