/** Dead-code elimination: which nodes are live, and what removing the others leaves unchanged. */
module DeadCode {
  import opened Options
  import opened Values
  import opened Nodes
  import opened Pipeline
  import opened Rewrites

  /** `id` is reached from a return node through data and control edges. */
  ghost predicate Reachable(nodes: seq<Node>, returnIds: seq<nat>, id: nat)
    requires id < |nodes|
    decreases |nodes| - id
  {
    || id in returnIds
    || exists user :: id < user < |nodes| && nodes[user].PointsTo(id) && Reachable(nodes, returnIds, user)
  }

  /** A chain of edges from a return node down to `id`: the same notion, with no recursion on ids. */
  ghost predicate IsTrail(nodes: seq<Node>, returnIds: seq<nat>, trail: seq<nat>, id: nat) {
    && |trail| > 0
    && (forall k :: 0 <= k < |trail| ==> trail[k] < |nodes|)
    && trail[0] in returnIds
    && trail[|trail| - 1] == id
    && (forall k :: 0 < k < |trail| ==>
          trail[k] in nodes[trail[k - 1]].inputs || nodes[trail[k - 1]].control == Some(trail[k]))
  }

  /** The nodes dead-code elimination keeps; the start node is node 0. */
  ghost predicate Live(nodes: seq<Node>, returnIds: seq<nat>, id: nat)
    requires id < |nodes|
  {
    id == 0 || Reachable(nodes, returnIds, id)
  }

  function Killed(node: Node): Node {
    if node.IsDead() then node else node.(op := Dead, inputs := [], control := None)
  }

  /** The nodes once the ids below `n` have been swept. */
  ghost function Swept(nodes: seq<Node>, returnIds: seq<nat>, n: nat): (r: seq<Node>)
    requires n <= |nodes|
    ensures |r| == |nodes|
  {
    seq(|nodes|, i requires 0 <= i < |nodes| =>
      if i < n && !Live(nodes, returnIds, i) then Killed(nodes[i]) else nodes[i])
  }

  /** How many nodes below `n` the sweep kills. */
  ghost function KillCount(nodes: seq<Node>, returnIds: seq<nat>, n: nat): nat
    requires n <= |nodes|
  {
    if n == 0 then 0
    else
      KillCount(nodes, returnIds, n - 1)
      + (if !Live(nodes, returnIds, n - 1) && !nodes[n - 1].IsDead() then 1 else 0)
  }

  // ---- Liveness is reachability -------------------------------------------------------------

  lemma {:induction false} ReachableHasTrail(nodes: seq<Node>, returnIds: seq<nat>, id: nat) returns (trail: seq<nat>)
    requires id < |nodes| && Reachable(nodes, returnIds, id)
    ensures IsTrail(nodes, returnIds, trail, id)
    decreases |nodes| - id
  {
    if id in returnIds {
      trail := [id];
    } else {
      var user :| id < user < |nodes| && nodes[user].PointsTo(id) && Reachable(nodes, returnIds, user);
      var before := ReachableHasTrail(nodes, returnIds, user);
      trail := before + [id];
    }
  }

  lemma {:induction false} TrailIsReachable(nodes: seq<Node>, returnIds: seq<nat>, trail: seq<nat>, id: nat)
    requires WellFormed(nodes) && id < |nodes| && IsTrail(nodes, returnIds, trail, id)
    ensures Reachable(nodes, returnIds, id)
    decreases |trail|
  {
    if |trail| > 1 {
      var user := trail[|trail| - 2];
      TrailIsReachable(nodes, returnIds, trail[..|trail| - 1], user);
      assert NodeOk(nodes[user], user);
      assert nodes[user].PointsTo(id);
    }
  }

  /** Liveness as computed is reachability from the returns along chains of edges. */
  lemma ReachableIffTrail(nodes: seq<Node>, returnIds: seq<nat>, id: nat)
    requires WellFormed(nodes) && id < |nodes|
    ensures Reachable(nodes, returnIds, id) <==> exists trail :: IsTrail(nodes, returnIds, trail, id)
    ensures Live(nodes, returnIds, id) <==> id == 0 || exists trail :: IsTrail(nodes, returnIds, trail, id)
  {
    if Reachable(nodes, returnIds, id) {
      var trail := ReachableHasTrail(nodes, returnIds, id);
    }
    if trail :| IsTrail(nodes, returnIds, trail, id) {
      TrailIsReachable(nodes, returnIds, trail, id);
    }
  }

  /** What a live node uses is live. */
  lemma LiveIsClosed(nodes: seq<Node>, returnIds: seq<nat>, id: nat, target: nat)
    requires WellFormed(nodes) && id < |nodes| && Live(nodes, returnIds, id) && nodes[id].PointsTo(target)
    ensures target < id && Live(nodes, returnIds, target)
  {
    assert NodeOk(nodes[id], id);
  }

  // ---- Marking ------------------------------------------------------------------------------

  /** Everything marked so far is live, and its edges have been followed or are still queued. */
  ghost predicate Marking(nodes: seq<Node>, returnIds: seq<nat>, live: set<nat>, worklist: seq<nat>) {
    && MarkedOk(nodes, returnIds, live, worklist)
    && (forall id :: id in live && id !in worklist ==> FollowedFrom(nodes, live, id))
  }

  /** The same but for `current`, whose edges are being followed. */
  ghost predicate MarkingBut(nodes: seq<Node>, returnIds: seq<nat>, live: set<nat>, worklist: seq<nat>, current: nat) {
    && MarkedOk(nodes, returnIds, live, worklist) && current in live
    && (forall id :: id in live && id !in worklist && id != current ==> FollowedFrom(nodes, live, id))
  }

  ghost predicate MarkedOk(nodes: seq<Node>, returnIds: seq<nat>, live: set<nat>, worklist: seq<nat>) {
    && 0 in live
    && (forall id :: id in live ==> id < |nodes| && Live(nodes, returnIds, id))
    && (forall k :: 0 <= k < |worklist| ==> worklist[k] in live)
  }

  ghost predicate FollowedFrom(nodes: seq<Node>, live: set<nat>, id: nat) {
    id < |nodes| ==> forall target :: nodes[id].PointsTo(target) ==> target in live
  }

  lemma PopMarks(nodes: seq<Node>, returnIds: seq<nat>, live: set<nat>, worklist: seq<nat>)
    requires Marking(nodes, returnIds, live, worklist) && |worklist| > 0
    ensures MarkingBut(nodes, returnIds, live, worklist[..|worklist| - 1], worklist[|worklist| - 1])
  {
    var n := |worklist| - 1;
    assert forall id :: id in worklist && id != worklist[n] ==> id in worklist[..n];
  }

  lemma CurrentIsLive(nodes: seq<Node>, returnIds: seq<nat>, live: set<nat>, worklist: seq<nat>, current: nat)
    requires MarkingBut(nodes, returnIds, live, worklist, current)
    ensures current < |nodes| && Live(nodes, returnIds, current)
  {
  }

  lemma MarkOne(nodes: seq<Node>, returnIds: seq<nat>, live: set<nat>, worklist: seq<nat>, current: nat, id: nat)
    requires WellFormed(nodes) && MarkingBut(nodes, returnIds, live, worklist, current)
    requires current < |nodes| && nodes[current].PointsTo(id)
    ensures MarkingBut(nodes, returnIds, live + {id}, worklist + [id], current)
  {
    LiveIsClosed(nodes, returnIds, current, id);
    assert (worklist + [id])[|worklist|] == id;
    assert forall i :: i in worklist ==> i in worklist + [id];
  }

  lemma AllFollowed(nodes: seq<Node>, returnIds: seq<nat>, live: set<nat>, worklist: seq<nat>, current: nat)
    requires MarkingBut(nodes, returnIds, live, worklist, current) && current < |nodes|
    requires forall target :: nodes[current].PointsTo(target) ==> target in live
    ensures Marking(nodes, returnIds, live, worklist)
  {
    assert FollowedFrom(nodes, live, current);
  }

  lemma MarkedIsBounded(nodes: seq<Node>, returnIds: seq<nat>, live: set<nat>, worklist: seq<nat>)
    requires Marking(nodes, returnIds, live, worklist)
    ensures forall id :: id in live ==> id < |nodes|
  {
  }

  /** With an empty worklist, what is marked is what is live. */
  lemma MarkedIsLive(nodes: seq<Node>, returnIds: seq<nat>, live: set<nat>, worklist: seq<nat>, id: nat)
    requires WellFormed(nodes) && id < |nodes| && Marking(nodes, returnIds, live, worklist) && |worklist| == 0
    requires forall k :: 0 <= k < |returnIds| ==> returnIds[k] in live
    ensures id in live <==> Live(nodes, returnIds, id)
    decreases |nodes| - id
  {
    if Reachable(nodes, returnIds, id) && id !in returnIds {
      var user :| id < user < |nodes| && nodes[user].PointsTo(id) && Reachable(nodes, returnIds, user);
      MarkedIsLive(nodes, returnIds, live, worklist, user);
      assert FollowedFrom(nodes, live, user);
    }
  }

  // ---- Sweeping -----------------------------------------------------------------------------

  lemma SweptIsWellFormed(nodes: seq<Node>, returnIds: seq<nat>, n: nat)
    requires WellFormed(nodes) && n <= |nodes|
    ensures WellFormed(Swept(nodes, returnIds, n))
  {
    var after := Swept(nodes, returnIds, n);
    forall i | 0 <= i < |after| ensures NodeOk(after[i], i) {
      assert NodeOk(nodes[i], i);
    }
  }

  /** Live nodes keep their operation, their edges, their meaning and their safety. */
  lemma {:induction false} SweepKeepsLive(h: Host, nodes: seq<Node>, returnIds: seq<nat>, args: seq<Value>, id: nat)
    requires WellFormed(nodes) && id < |nodes| && Live(nodes, returnIds, id)
    ensures WellFormed(Swept(nodes, returnIds, |nodes|))
    ensures Swept(nodes, returnIds, |nodes|)[id] == nodes[id]
    ensures Meaning(h, Swept(nodes, returnIds, |nodes|), args, id) == Meaning(h, nodes, args, id)
    ensures CanBeConstant(Swept(nodes, returnIds, |nodes|), id) <==> CanBeConstant(nodes, id)
    ensures Safe(h, Swept(nodes, returnIds, |nodes|), args, id) <==> Safe(h, nodes, args, id)
    decreases id
  {
    SweptIsWellFormed(nodes, returnIds, |nodes|);
    var after := Swept(nodes, returnIds, |nodes|);
    assert NodeOk(nodes[id], id);
    forall k | 0 <= k < |nodes[id].inputs|
      ensures Meaning(h, nodes, args, nodes[id].inputs[k]) == Meaning(h, after, args, nodes[id].inputs[k])
      ensures CanBeConstant(nodes, nodes[id].inputs[k]) <==> CanBeConstant(after, nodes[id].inputs[k])
      ensures Safe(h, nodes, args, nodes[id].inputs[k]) <==> Safe(h, after, args, nodes[id].inputs[k])
    {
      LiveIsClosed(nodes, returnIds, id, nodes[id].inputs[k]);
      SweepKeepsLive(h, nodes, returnIds, args, nodes[id].inputs[k]);
    }
    SameForm(h, nodes, id, after, id, args);
  }

  /** A node that is not live is dead after the sweep. */
  lemma SweepKillsOthers(nodes: seq<Node>, returnIds: seq<nat>, id: nat)
    requires id < |nodes| && !Live(nodes, returnIds, id)
    ensures Swept(nodes, returnIds, |nodes|)[id].IsDead()
    ensures Swept(nodes, returnIds, |nodes|)[id]
         == if nodes[id].op == Dead then nodes[id] else Node(nodes[id].id, Dead, [], None)
  {
  }

  /** Sweeping changes neither what is live ... */
  lemma {:induction false} SweepKeepsLiveness(nodes: seq<Node>, returnIds: seq<nat>, id: nat)
    requires WellFormed(nodes) && id < |nodes|
    ensures Reachable(Swept(nodes, returnIds, |nodes|), returnIds, id) <==> Reachable(nodes, returnIds, id)
    decreases |nodes| - id
  {
    var after := Swept(nodes, returnIds, |nodes|);
    forall user | id < user < |nodes|
      ensures Reachable(after, returnIds, user) <==> Reachable(nodes, returnIds, user)
    {
      SweepKeepsLiveness(nodes, returnIds, user);
    }
    forall user | id < user < |nodes| && Reachable(nodes, returnIds, user)
      ensures after[user] == nodes[user]
    {
    }
  }

  /** ... nor, the second time, anything at all. */
  lemma SweepIsIdempotent(nodes: seq<Node>, returnIds: seq<nat>)
    requires WellFormed(nodes)
    ensures
      var after := Swept(nodes, returnIds, |nodes|);
      Swept(after, returnIds, |after|) == after && KillCount(after, returnIds, |after|) == 0
  {
    var after := Swept(nodes, returnIds, |nodes|);
    forall id | 0 <= id < |nodes| ensures Live(after, returnIds, id) <==> Live(nodes, returnIds, id) {
      SweepKeepsLiveness(nodes, returnIds, id);
    }
    NothingLeftToKill(after, returnIds, |after|);
  }

  lemma {:induction false} NothingLeftToKill(nodes: seq<Node>, returnIds: seq<nat>, n: nat)
    requires n <= |nodes|
    requires forall id :: 0 <= id < |nodes| && !Live(nodes, returnIds, id) ==> nodes[id].IsDead()
    ensures KillCount(nodes, returnIds, n) == 0
  {
    if n > 0 { NothingLeftToKill(nodes, returnIds, n - 1); }
  }

  /** The nodes below `n` that are neither live nor dead already. */
  ghost function Doomed(nodes: seq<Node>, returnIds: seq<nat>, n: nat): (ids: set<nat>)
    requires n <= |nodes|
    ensures forall id :: id in ids ==> id < n
  {
    if n == 0 then {}
    else if !Live(nodes, returnIds, n - 1) && !nodes[n - 1].IsDead() then Doomed(nodes, returnIds, n - 1) + {n - 1}
    else Doomed(nodes, returnIds, n - 1)
  }

  lemma {:induction false} DoomedIff(nodes: seq<Node>, returnIds: seq<nat>, n: nat, id: nat)
    requires id < n <= |nodes|
    ensures id in Doomed(nodes, returnIds, n) <==> !Live(nodes, returnIds, id) && !nodes[id].IsDead()
  {
    if id < n - 1 { DoomedIff(nodes, returnIds, n - 1, id); }
  }

  lemma {:induction false} KillCountIsSize(nodes: seq<Node>, returnIds: seq<nat>, n: nat)
    requires n <= |nodes|
    ensures KillCount(nodes, returnIds, n) == |Doomed(nodes, returnIds, n)|
  {
    if n > 0 {
      KillCountIsSize(nodes, returnIds, n - 1);
      assert n - 1 !in Doomed(nodes, returnIds, n - 1);
    }
  }

  /** The count is the number of nodes that were neither live nor dead already. */
  lemma KillCountCounts(nodes: seq<Node>, returnIds: seq<nat>) returns (doomed: set<nat>)
    ensures KillCount(nodes, returnIds, |nodes|) == |doomed|
    ensures forall id :: id in doomed <==> 0 <= id < |nodes| && !Live(nodes, returnIds, id) && !nodes[id].IsDead()
  {
    doomed := Doomed(nodes, returnIds, |nodes|);
    KillCountIsSize(nodes, returnIds, |nodes|);
    forall id: nat | id < |nodes| ensures id in doomed <==> !Live(nodes, returnIds, id) && !nodes[id].IsDead() {
      DoomedIff(nodes, returnIds, |nodes|, id);
    }
  }

  /** A node that a pass would rewrite after the sweep is one it would have rewritten before. */
  lemma SweepAddsNoRewrite(h: Host, pass: Pass, nodes: seq<Node>, returnIds: seq<nat>, id: nat)
    requires WellFormed(nodes) && id < |nodes|
    requires RewriteOf(h, pass, nodes, id).None?
    ensures RewriteOf(h, pass, Swept(nodes, returnIds, |nodes|), id).None?
  {
    var after := Swept(nodes, returnIds, |nodes|);
    assert NodeOk(nodes[id], id);
    if Live(nodes, returnIds, id) {
      forall k | 0 <= k < |nodes[id].inputs| ensures after[nodes[id].inputs[k]] == nodes[nodes[id].inputs[k]] {
        LiveIsClosed(nodes, returnIds, id, nodes[id].inputs[k]);
      }
    }
  }
}
