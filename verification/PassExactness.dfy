/** When a whole pass, and the whole optimizer, preserve every meaning. */
module PassExactness {
  import opened Options
  import opened Values
  import opened Nodes
  import opened Pipeline
  import opened Rewrites
  import opened DeadCode
  import opened Optimizer

  /** A pass in progress has touched only the ids it has visited. */
  lemma {:induction false} UnvisitedIsUntouched(h: Host, pass: Pass, nodes: seq<Node>, n: nat, m: nat, id: nat)
    requires n <= m <= |nodes| && id < |nodes| && (id < n || m <= id)
    ensures RunPass(h, pass, nodes, m)[id] == RunPass(h, pass, nodes, n)[id]
    decreases m
  {
    if n < m { UnvisitedIsUntouched(h, pass, nodes, n, m - 1, id); }
  }

  /** The rule the reducing pass fires when it reaches id `i`, on the graph it has made by then. */
  function FiredAt(h: Host, nodes: seq<Node>, i: nat): Option<Rule>
    requires i < |nodes|
  {
    FiringRule(h, RunPass(h, Reducing, nodes, i), i)
  }

  lemma FiredOnOriginalInputs(h: Host, nodes: seq<Node>, i: nat)
    requires WellFormed(nodes) && i < |nodes| && FiredAt(h, nodes, i).Some?
    ensures RunPass(h, Reducing, nodes, i)[i] == nodes[i]
    ensures nodes[i].op.Binary? && |nodes[i].inputs| == 2
    ensures nodes[i].inputs[0] < i && nodes[i].inputs[1] < i
  {
    UnvisitedIsUntouched(h, Reducing, nodes, 0, i, i);
    assert NodeOk(nodes[i], i);
  }

  /** What the pass fires at `i` is exact for the values the operands have in the original graph. */
  ghost predicate FiresExactly(h: Host, nodes: seq<Node>, args: seq<Value>, i: nat)
    requires WellFormed(nodes) && i < |nodes|
  {
    var rule := FiredAt(h, nodes, i);
    rule.Some? ==>
      (FiredOnOriginalInputs(h, nodes, i);
       Exact(h, rule.value, Meaning(h, nodes, args, nodes[i].inputs[0]), Meaning(h, nodes, args, nodes[i].inputs[1])))
  }

  ghost predicate KeepsMeaning(h: Host, nodes: seq<Node>, after: seq<Node>, args: seq<Value>, id: nat)
    requires WellFormed(nodes) && WellFormed(after) && id < |nodes| == |after|
  {
    Meaning(h, after, args, id) == Meaning(h, nodes, args, id)
  }

  ghost predicate AllKept(h: Host, nodes: seq<Node>, after: seq<Node>, args: seq<Value>)
    requires WellFormed(nodes) && WellFormed(after) && |nodes| == |after|
  {
    forall id :: 0 <= id < |nodes| ==> KeepsMeaning(h, nodes, after, args, id)
  }

  ghost predicate AllFireExactly(h: Host, nodes: seq<Node>, args: seq<Value>)
    requires WellFormed(nodes)
  {
    forall i :: 0 <= i < |nodes| ==> FiresExactly(h, nodes, args, i)
  }

  /** Once visited, a node means for the rest of the pass what it means right then. */
  lemma VisitedIsSettled(h: Host, pass: Pass, nodes: seq<Node>, args: seq<Value>, n: nat, m: nat, id: nat)
    requires WellFormed(nodes) && id < n <= m <= |nodes|
    ensures WellFormed(RunPass(h, pass, nodes, n)) && WellFormed(RunPass(h, pass, nodes, m))
    ensures Meaning(h, RunPass(h, pass, nodes, m), args, id) == Meaning(h, RunPass(h, pass, nodes, n), args, id)
  {
    PassLowers(h, pass, nodes, n);
    PassLowers(h, pass, nodes, m);
    forall j | 0 <= j <= id ensures RunPass(h, pass, nodes, m)[j] == RunPass(h, pass, nodes, n)[j] {
      UnvisitedIsUntouched(h, pass, nodes, n, m, j);
    }
    PrefixDecides(h, RunPass(h, pass, nodes, m), RunPass(h, pass, nodes, n), args, id);
  }

  /** While no rule has been inexact, no meaning has changed. */
  lemma {:induction false} ExactRulesKeepMeanings(h: Host, nodes: seq<Node>, args: seq<Value>, n: nat, id: nat)
    requires WellFormed(nodes) && n <= |nodes| && id < |nodes|
    requires forall i :: 0 <= i < n ==> FiresExactly(h, nodes, args, i)
    ensures WellFormed(RunPass(h, Reducing, nodes, n))
    ensures KeepsMeaning(h, nodes, RunPass(h, Reducing, nodes, n), args, id)
  {
    PassLowers(h, Reducing, nodes, n);
    if n > 0 {
      ExactRulesKeepMeanings(h, nodes, args, n - 1, id);
      if FiredAt(h, nodes, n - 1).Some? {
        FiredOnOriginalInputs(h, nodes, n - 1);
        ExactRulesKeepMeanings(h, nodes, args, n - 1, nodes[n - 1].inputs[0]);
        ExactRulesKeepMeanings(h, nodes, args, n - 1, nodes[n - 1].inputs[1]);
        assert FiresExactly(h, nodes, args, n - 1);
        ExactReductionKeeps(h, nodes, RunPass(h, Reducing, nodes, n - 1), args, n - 1, id);
      }
    }
  }

  lemma ExactReductionKeeps(h: Host, nodes: seq<Node>, before: seq<Node>, args: seq<Value>, i: nat, id: nat)
    requires WellFormed(nodes) && WellFormed(before) && |before| == |nodes| && i < |nodes| && id < |nodes|
    requires FiringRule(h, before, i).Some? && before[i] == nodes[i]
    requires nodes[i].inputs[0] < i && nodes[i].inputs[1] < i
    requires KeepsMeaning(h, nodes, before, args, id)
    requires KeepsMeaning(h, nodes, before, args, nodes[i].inputs[0])
    requires KeepsMeaning(h, nodes, before, args, nodes[i].inputs[1])
    requires Exact(h, FiringRule(h, before, i).value, Meaning(h, nodes, args, nodes[i].inputs[0]),
                   Meaning(h, nodes, args, nodes[i].inputs[1]))
    ensures WellFormed(RewriteAt(h, Reducing, before, i))
    ensures KeepsMeaning(h, nodes, RewriteAt(h, Reducing, before, i), args, id)
  {
    ReductionKeepsAllMeaningsIff(h, before, args, i);
  }

  /** A pass that has kept every meaning has fired exact rules only. */
  lemma KeptMeaningsFireExactly(h: Host, nodes: seq<Node>, args: seq<Value>, i: nat)
    requires WellFormed(nodes) && i < |nodes| && WellFormed(RunPass(h, Reducing, nodes, |nodes|))
    requires AllKept(h, nodes, RunPass(h, Reducing, nodes, |nodes|), args)
    ensures FiresExactly(h, nodes, args, i)
  {
    if FiredAt(h, nodes, i).Some? {
      FiredOnOriginalInputs(h, nodes, i);
      KeptWhenVisited(h, nodes, args, i, nodes[i].inputs[0]);
      KeptWhenVisited(h, nodes, args, i, nodes[i].inputs[1]);
      KeptWhenVisited(h, nodes, args, i + 1, i);
      FiredRuleIsExact(h, nodes, RunPass(h, Reducing, nodes, i), args, i);
    }
  }

  lemma KeptWhenVisited(h: Host, nodes: seq<Node>, args: seq<Value>, n: nat, id: nat)
    requires WellFormed(nodes) && id < n <= |nodes| && WellFormed(RunPass(h, Reducing, nodes, |nodes|))
    requires AllKept(h, nodes, RunPass(h, Reducing, nodes, |nodes|), args)
    ensures WellFormed(RunPass(h, Reducing, nodes, n))
    ensures KeepsMeaning(h, nodes, RunPass(h, Reducing, nodes, n), args, id)
  {
    VisitedIsSettled(h, Reducing, nodes, args, n, |nodes|, id);
    assert KeepsMeaning(h, nodes, RunPass(h, Reducing, nodes, |nodes|), args, id);
  }

  /** A fired rule whose node and operands mean in the end what they meant at first is exact. */
  lemma FiredRuleIsExact(h: Host, nodes: seq<Node>, before: seq<Node>, args: seq<Value>, i: nat)
    requires WellFormed(nodes) && WellFormed(before) && |before| == |nodes| && i < |nodes| && before[i] == nodes[i]
    requires FiringRule(h, before, i).Some?
    requires nodes[i].inputs[0] < i && nodes[i].inputs[1] < i
    requires KeepsMeaning(h, nodes, before, args, nodes[i].inputs[0])
    requires KeepsMeaning(h, nodes, before, args, nodes[i].inputs[1])
    requires WellFormed(RewriteAt(h, Reducing, before, i))
    requires KeepsMeaning(h, nodes, RewriteAt(h, Reducing, before, i), args, i)
    ensures Exact(h, FiringRule(h, before, i).value, Meaning(h, nodes, args, nodes[i].inputs[0]),
                  Meaning(h, nodes, args, nodes[i].inputs[1]))
  {
    var left, right := nodes[i].inputs[0], nodes[i].inputs[1];
    ReductMeans(h, before, args, i);
    FiringRuleMayFire(h, before, args, i);
    RuleIsExactWhen(h, FiringRule(h, before, i).value, nodes[i].op.binary, Meaning(h, nodes, args, left),
                    Meaning(h, nodes, args, right), Seen(before, left, right));
  }

  /** The reducing pass keeps the meaning of every node exactly when every rule it fires is exact on
      the values its operands have in the graph the pass was given. */
  lemma PassKeepsAllMeaningsIff(h: Host, nodes: seq<Node>, args: seq<Value>)
    requires WellFormed(nodes)
    ensures WellFormed(RunPass(h, Reducing, nodes, |nodes|))
    ensures AllKept(h, nodes, RunPass(h, Reducing, nodes, |nodes|), args) <==> AllFireExactly(h, nodes, args)
  {
    PassLowers(h, Reducing, nodes, |nodes|);
    if AllFireExactly(h, nodes, args) {
      forall id | 0 <= id < |nodes|
        ensures KeepsMeaning(h, nodes, RunPass(h, Reducing, nodes, |nodes|), args, id)
      {
        ExactRulesKeepMeanings(h, nodes, args, |nodes|, id);
      }
    }
    if AllKept(h, nodes, RunPass(h, Reducing, nodes, |nodes|), args) {
      forall i | 0 <= i < |nodes| ensures FiresExactly(h, nodes, args, i) {
        KeptMeaningsFireExactly(h, nodes, args, i);
      }
    }
  }

  /** The folding pass keeps every meaning on all graphs and arguments. */
  lemma {:induction false} FoldingPassKeepsAllMeanings(h: Host, nodes: seq<Node>, args: seq<Value>, n: nat, id: nat)
    requires WellFormed(nodes) && n <= |nodes| && id < |nodes|
    ensures WellFormed(RunPass(h, Folding, nodes, n))
    ensures KeepsMeaning(h, nodes, RunPass(h, Folding, nodes, n), args, id)
  {
    if n > 0 {
      FoldingPassKeepsAllMeanings(h, nodes, args, n - 1, id);
      FoldKeepsAllMeanings(h, RunPass(h, Folding, nodes, n - 1), args, n - 1, id);
    }
  }

  // ---- The whole optimizer ------------------------------------------------------------------

  /** Every rule fired in any round is exact on the values its operands have then. */
  ghost predicate RoundsFireExactly(h: Host, nodes: seq<Node>, args: seq<Value>)
    requires WellFormed(nodes)
    decreases TotalHeight(nodes, |nodes|)
  {
    RoundLowers(h, nodes);
    PassLowers(h, Folding, nodes, |nodes|);
    var folded := RunPass(h, Folding, nodes, |nodes|);
    var first := Round(h, nodes);
    && AllFireExactly(h, folded, args)
    && (first.folded + first.reduced > 0 ==> RoundsFireExactly(h, first.nodes, args))
  }

  /** Every graph a pass of the driver's loop leaves means, node for node, what the one before it did. */
  ghost predicate EveryPassKeepsMeanings(h: Host, nodes: seq<Node>, args: seq<Value>)
    requires WellFormed(nodes)
    decreases TotalHeight(nodes, |nodes|)
  {
    RoundLowers(h, nodes);
    PassLowers(h, Folding, nodes, |nodes|);
    var folded := RunPass(h, Folding, nodes, |nodes|);
    var first := Round(h, nodes);
    && AllKept(h, nodes, folded, args)
    && AllKept(h, folded, first.nodes, args)
    && (first.folded + first.reduced > 0 ==> EveryPassKeepsMeanings(h, first.nodes, args))
  }

  lemma {:induction false} EveryPassKeepsMeaningsIff(h: Host, nodes: seq<Node>, args: seq<Value>)
    requires WellFormed(nodes)
    ensures EveryPassKeepsMeanings(h, nodes, args) <==> RoundsFireExactly(h, nodes, args)
    decreases TotalHeight(nodes, |nodes|)
  {
    RoundLowers(h, nodes);
    var folded := RunPass(h, Folding, nodes, |nodes|);
    PassLowers(h, Folding, nodes, |nodes|);
    forall id | 0 <= id < |nodes| ensures KeepsMeaning(h, nodes, folded, args, id) {
      FoldingPassKeepsAllMeanings(h, nodes, args, |nodes|, id);
    }
    PassKeepsAllMeaningsIff(h, folded, args);
    var first := Round(h, nodes);
    assert first.nodes == RunPass(h, Reducing, folded, |folded|);
    if first.folded + first.reduced > 0 {
      EveryPassKeepsMeaningsIff(h, first.nodes, args);
    }
  }

  lemma {:induction false} ExactRoundsKeepMeanings(h: Host, nodes: seq<Node>, args: seq<Value>, id: nat)
    requires WellFormed(nodes) && id < |nodes| && RoundsFireExactly(h, nodes, args)
    ensures WellFormed(Rounds(h, nodes).nodes)
    ensures KeepsMeaning(h, nodes, Rounds(h, nodes).nodes, args, id)
    decreases TotalHeight(nodes, |nodes|)
  {
    RoundLowers(h, nodes);
    FoldingPassKeepsAllMeanings(h, nodes, args, |nodes|, id);
    ExactRulesKeepMeanings(h, RunPass(h, Folding, nodes, |nodes|), args, |nodes|, id);
    var first := Round(h, nodes);
    if first.folded != 0 || first.reduced != 0 {
      ExactRoundsKeepMeanings(h, first.nodes, args, id);
    }
  }

  /** Optimizing keeps the result for all arguments on which the rules it fires are exact; in
      particular for all arguments where it fires none. */
  lemma ExactOptimizingKeepsResult(h: Host, nodes: seq<Node>, returnIds: seq<nat>, args: seq<Value>)
    requires WellFormed(nodes) && ReturnsOk(nodes, returnIds) && RoundsFireExactly(h, nodes, args)
    ensures WellFormed(Optimized(h, nodes, returnIds)) && ReturnsOk(Optimized(h, nodes, returnIds), returnIds)
    ensures Result(h, Optimized(h, nodes, returnIds), returnIds, args) == Result(h, nodes, returnIds, args)
  {
    var rewritten := Rounds(h, nodes).nodes;
    RoundsReachFixedPoint(h, nodes);
    RoundsKeepReturns(h, nodes, returnIds);
    SweptIsWellFormed(rewritten, returnIds, |rewritten|);
    if |returnIds| > 0 {
      var id := returnIds[|returnIds| - 1];
      ExactRoundsKeepMeanings(h, nodes, args, id);
      SweepKeepsLive(h, rewritten, returnIds, args, id);
      ResultIsReturnMeaning(h, nodes, returnIds, args);
      ResultIsReturnMeaning(h, Optimized(h, nodes, returnIds), returnIds, args);
    }
  }

  // ---- Graphs no rule can touch -------------------------------------------------------------

  /** Nothing below `id` offers a rule a constant operand or one operand twice. */
  ghost predicate OutOfReach(nodes: seq<Node>, id: nat)
    requires WellFormed(nodes) && id < |nodes|
    decreases id
  {
    var node := nodes[id];
    assert NodeOk(node, id);
    && (node.op.Binary? ==> Seen(nodes, node.inputs[0], node.inputs[1]) == Sight(false, false, false))
    && (forall k :: 0 <= k < |node.inputs| ==> OutOfReach(nodes, node.inputs[k]))
  }

  /** There every argument is safe, whatever zeros and ones it brings along. */
  lemma {:induction false} OutOfReachIsSafe(h: Host, nodes: seq<Node>, args: seq<Value>, id: nat)
    requires WellFormed(nodes) && id < |nodes| && OutOfReach(nodes, id)
    ensures Safe(h, nodes, args, id)
    decreases id
  {
    var node := nodes[id];
    assert NodeOk(node, id);
    forall k | 0 <= k < |node.inputs| ensures Safe(h, nodes, args, node.inputs[k]) {
      OutOfReachIsSafe(h, nodes, args, node.inputs[k]);
    }
  }

  /** The graph of `a0 + a1`. */
  function Sum(): seq<Node> {
    [Node(0, Start, [], None),
     Node(1, Parameter(0), [], Some(0)),
     Node(2, Parameter(1), [], Some(0)),
     Node(3, Binary(BinaryOp.Add), [1, 2], None),
     Node(4, Return, [3], Some(0))]
  }

  lemma SumIsSafe(h: Host, args: seq<Value>)
    ensures WellFormed(Sum()) && Safe(h, Sum(), args, 4)
  {
    assert WellFormed(Sum());
    assert OutOfReach(Sum(), 1) && OutOfReach(Sum(), 2);
    assert OutOfReach(Sum(), 3);
    OutOfReachIsSafe(h, Sum(), args, 4);
  }
}
