/** What script does when a task is run, and the checkpoint as a function of it. */
module PromiseScript {
  import opened Options
  import opened PromiseWorld
  import opened PromiseSafety
  import opened PromiseAll
  import opened PromiseMachine
  import opened PromiseCheckpoints

  const MAX_ITERATIONS: nat := 100_000

  /** What a script handler does when it is called: what it performs, and its outcome. */
  datatype Behaviour = Behaviour(actions: seq<Action>, outcome: Outcome)

  /** One operation of a handler. An `await` runs the queue it is called from; `nested` is what the
      handlers of the tasks it takes do. */
  datatype Action = Call(call: Event) | Await(awaited: Value, nested: seq<Behaviour>)

  /** The handlers past the end of a list return at once. */
  const IDLE := Behaviour([], Ok(Undefined))

  /** A bound on how deep the checkpoints of a behaviour nest. */
  ghost function Depth(b: Behaviour): nat {
    DepthOfActions(b.actions)
  }

  ghost function DepthOfActions(actions: seq<Action>): nat {
    if actions == [] then 0
    else
      (match actions[0]
       case Call(_) => 0
       case Await(_, nested) => 1 + DepthOfAll(nested))
      + DepthOfActions(actions[1..])
  }

  ghost function DepthOfAll(behaviours: seq<Behaviour>): nat {
    if behaviours == [] then 0 else Depth(behaviours[0]) + DepthOfAll(behaviours[1..])
  }

  lemma {:induction false} DepthOfOne(behaviours: seq<Behaviour>, i: nat)
    requires i < |behaviours|
    ensures Depth(behaviours[i]) <= DepthOfAll(behaviours)
  {
    if i > 0 { DepthOfOne(behaviours[1..], i - 1); }
  }

  lemma {:induction false} DepthOfAwait(actions: seq<Action>, i: nat)
    requires i < |actions| && actions[i].Await?
    ensures DepthOfAll(actions[i].nested) < DepthOfActions(actions)
  {
    if i > 0 { DepthOfAwait(actions[1..], i - 1); }
  }

  datatype RunResult = Executed(count: nat) | LimitExceeded

  // ---- One operation ------------------------------------------------------------------------

  lemma ExtendsItself(w: World)
    ensures Extends(w, w)
  {
  }

  /** What is left of a world once some script or tasks have run: the same script calls in progress. */
  ghost predicate Goes(w: World, w': World) {
    Inv(w') && Extends(w, w') && w'.running == w.running
  }

  lemma GoesOn(a: World, b: World, c: World)
    requires Goes(a, b) && Goes(b, c)
    ensures Goes(a, c)
  {
    ExtendsTransitive(a, b, c);
  }

  /** An operation that script cannot perform does nothing. */
  ghost function Called(w: World, call: Event): (w': World)
    requires Inv(w)
    ensures Goes(w, w')
  {
    ExtendsItself(w);
    if Enabled(w, call) && !call.BeginTask? && !call.EndTask? && !call.DropTask? then
      StepKeepsInv(w, call);
      PerformKeepsRunning(w, call);
      Step(w, call)
    else w
  }

  /** What an `await` evaluates to. */
  datatype Evaluated = Resumed(value: Value) | Thrown(reason: Value)

  function EvaluatedTo(w: World, v: Value): Evaluated {
    if !v.PromiseRef? || !IsPromise(w, v.promise) then Resumed(v)
    else
      match w.promises[v.promise].state
      case Fulfilled => Resumed(w.promises[v.promise].result)
      case Rejected => Thrown(w.promises[v.promise].result)
      case Pending => Resumed(v)
  }

  lemma EndLeavesOuterCalls(w: World, outcome: Outcome)
    requires Inv(w) && |w.running| > 0 && (outcome.Ok? ==> Valid(w, outcome.value))
    ensures End(w, outcome).running == w.running[..|w.running| - 1]
  {
    var last := |w.running| - 1;
    RunningIsImmaterial(w, w.running[..last]);
    var left := w.(running := w.running[..last]);
    CoreFulfilled(left);
    if w.running[last].Some? && outcome.Ok? {
      ResolveKeepsRunning(left, w.running[last].value, outcome.value);
    }
  }

  // ---- Tasks and checkpoints ----------------------------------------------------------------

  ghost function Acted(w: World, actions: seq<Action>): (w': World)
    requires Inv(w)
    ensures Goes(w, w')
    decreases DepthOfActions(actions), 1, |actions|
  {
    ExtendsItself(w);
    if actions == [] then w
    else
      var next :=
        match actions[0]
        case Call(call) => Called(w, call)
        case Await(awaited, nested) => Awaited(w, awaited, nested);
      GoesOn(w, next, Acted(next, actions[1..]));
      Acted(next, actions[1..])
  }

  ghost function Awaited(w: World, v: Value, nested: seq<Behaviour>): (w': World)
    requires Inv(w)
    ensures Goes(w, w')
    decreases DepthOfAll(nested), 5, |w.log| - w.done
  {
    ExtendsItself(w);
    var (next, r) := Checkpoint(w, nested, 0);
    if !v.PromiseRef? || !IsPromise(w, v.promise) then next
    else if w.promises[v.promise].state != Pending then w
    else if r == LimitExceeded || r == Executed(0) then next
    else
      GoesOn(w, next, Awaited(next, v, nested));
      Awaited(next, v, nested)
  }

  /** A handler's script, up to and including its return; it can only return a value that exists. */
  ghost function Scripted(w: World, b: Behaviour): (w': World)
    requires Inv(w) && |w.running| > 0
    ensures Inv(w') && Extends(w, w') && w'.running == w.running[..|w.running| - 1]
    decreases Depth(b), 2, 0
  {
    var acted := Acted(w, b.actions);
    var outcome := if b.outcome.Ok? && !Valid(acted, b.outcome.value) then Ok(Undefined) else b.outcome;
    EndKeepsInv(acted, outcome);
    EndLeavesOuterCalls(acted, outcome);
    ExtendsTransitive(w, acted, End(acted, outcome));
    End(acted, outcome)
  }

  /** The next task, and all of the script that its handler runs. */
  ghost function NextRun(w: World, b: Behaviour): (w': World)
    requires Inv(w) && w.done < |w.log|
    ensures Goes(w, w')
    decreases Depth(b), 3, 0
  {
    BeginKeepsInv(w);
    BeginKeepsRunning(w);
    var begun := Begin(w);
    if begun.running == w.running then begun
    else
      ExtendsTransitive(w, begun, Scripted(begun, b));
      Scripted(begun, b)
  }

  function BehaviourAt(behaviours: seq<Behaviour>, i: nat): Behaviour {
    if i < |behaviours| then behaviours[i] else IDLE
  }

  lemma BehaviourIsShallow(behaviours: seq<Behaviour>, i: nat)
    ensures Depth(BehaviourAt(behaviours, i)) <= DepthOfAll(behaviours)
  {
    if i < |behaviours| { DepthOfOne(behaviours, i); }
  }

  /** The checkpoint once it has executed `i` tasks. */
  ghost function Checkpoint(w: World, behaviours: seq<Behaviour>, i: nat): (r: (World, RunResult))
    requires Inv(w) && i <= MAX_ITERATIONS
    ensures Goes(w, r.0)
    ensures w.done == |w.log| ==> r == (w, Executed(i))
    ensures r.1.Executed? ==> r.0.done == |r.0.log| && r.1.count >= i
    ensures r == (r.0, Executed(i)) ==> r.0 == w
    decreases DepthOfAll(behaviours), 4, MAX_ITERATIONS - i
  {
    ExtendsItself(w);
    if w.done == |w.log| then (w, Executed(i))
    else if i == MAX_ITERATIONS then
      DropKeepsInv(w);
      (Drop(w), LimitExceeded)
    else
      BehaviourIsShallow(behaviours, i);
      var next := NextRun(w, BehaviourAt(behaviours, i));
      GoesOn(w, next, Checkpoint(next, behaviours, i + 1).0);
      Checkpoint(next, behaviours, i + 1)
  }

  lemma {:induction false} CheckpointIsBounded(w: World, behaviours: seq<Behaviour>, i: nat)
    requires Inv(w) && i <= MAX_ITERATIONS
    ensures Checkpoint(w, behaviours, i).1.Executed? ==> Checkpoint(w, behaviours, i).1.count <= 100_000
    decreases MAX_ITERATIONS - i
  {
    if w.done < |w.log| && i < MAX_ITERATIONS {
      CheckpointIsBounded(NextRun(w, BehaviourAt(behaviours, i)), behaviours, i + 1);
    }
  }

  lemma TaskIsTaken(w: World, b: Behaviour)
    requires Inv(w) && w.done < |w.log|
    ensures NextRun(w, b).done > w.done
  {
    BeginTakesOne(w);
  }

  /** The limit stops a checkpoint only after a hundred thousand tasks, and drops one more. */
  lemma {:induction false} LimitIsReached(w: World, behaviours: seq<Behaviour>, i: nat)
    requires Inv(w) && i <= MAX_ITERATIONS
    ensures Checkpoint(w, behaviours, i).1.LimitExceeded? ==>
      Checkpoint(w, behaviours, i).0.done > w.done + 100_000 - i
    decreases MAX_ITERATIONS - i
  {
    if w.done < |w.log| && i < MAX_ITERATIONS {
      TaskIsTaken(w, BehaviourAt(behaviours, i));
      LimitIsReached(NextRun(w, BehaviourAt(behaviours, i)), behaviours, i + 1);
    }
  }

  // ---- The loops, one turn at a time --------------------------------------------------------

  ghost predicate ActsTo(w: World, actions: seq<Action>, target: World) {
    Inv(w) && Acted(w, actions) == target
  }

  ghost predicate AwaitsTo(w: World, v: Value, nested: seq<Behaviour>, target: World) {
    Inv(w) && Awaited(w, v, nested) == target
  }

  ghost predicate RunsTo(w: World, behaviours: seq<Behaviour>, i: nat, target: (World, RunResult)) {
    Inv(w) && i <= MAX_ITERATIONS && Checkpoint(w, behaviours, i) == target
  }

  lemma ActionTurn(w: World, actions: seq<Action>, i: nat, next: World, target: World)
    requires i < |actions| && ActsTo(w, actions[i..], target)
    requires actions[i].Call? ==> next == Called(w, actions[i].call)
    requires actions[i].Await? ==> next == Awaited(w, actions[i].awaited, actions[i].nested)
    ensures ActsTo(next, actions[i + 1..], target)
  {
    assert actions[i..][1..] == actions[i + 1..];
  }

  lemma AwaitTurn(w: World, v: Value, nested: seq<Behaviour>, next: World, r: RunResult, target: World)
    requires v.PromiseRef? && IsPromise(w, v.promise) && w.promises[v.promise].state == Pending
    requires AwaitsTo(w, v, nested, target) && (next, r) == Checkpoint(w, nested, 0)
    ensures r == LimitExceeded || r == Executed(0) ==> next == target
    ensures r != LimitExceeded && r != Executed(0) ==>
      AwaitsTo(next, v, nested, target) && |next.log| == next.done && w.done < |w.log|
  {
  }

  lemma CheckpointTurn(w: World, behaviours: seq<Behaviour>, i: nat, target: (World, RunResult))
    requires w.done < |w.log| && i < MAX_ITERATIONS && RunsTo(w, behaviours, i, target)
    ensures RunsTo(NextRun(w, BehaviourAt(behaviours, i)), behaviours, i + 1, target)
  {
  }

  lemma CheckpointLimit(w: World, behaviours: seq<Behaviour>, target: (World, RunResult))
    requires w.done < |w.log| && RunsTo(w, behaviours, MAX_ITERATIONS, target)
    ensures target == (Drop(w), LimitExceeded)
  {
  }

  lemma CheckpointDone(w: World, behaviours: seq<Behaviour>, i: nat, target: (World, RunResult))
    requires w.done == |w.log| && RunsTo(w, behaviours, i, target)
    ensures target == (w, Executed(i))
  {
  }

  // ---- Runs of the machine ------------------------------------------------------------------

  /** A run that leaves the script calls in progress as they are, takes its tasks at their depth or
      deeper, and drops none without taking any. */
  ghost predicate Along(w: World, events: seq<Event>, w': World) {
    && Inv(w) && Inv(w') && Leads(w, events, w', |w.running|) && w'.running == w.running
    && w.done <= w'.done && w.dropped <= w'.dropped && (w'.done == w.done ==> w'.dropped == w.dropped)
  }

  lemma NothingAlong(w: World)
    requires Inv(w)
    ensures Along(w, [], w)
  {
    LeadsNowhere(w, |w.running|);
  }

  lemma AlongOn(w: World, first: seq<Event>, mid: World, second: seq<Event>, w': World)
    requires Along(w, first, mid) && Along(mid, second, w')
    ensures Along(w, first + second, w')
  {
    LeadsOn(w, first, mid, second, w', |w.running|);
  }

  /** A checkpoint as a run: where it ends, what it returns, and how many of the tasks are its own. */
  ghost predicate Finished(w: World, behaviours: seq<Behaviour>, events: seq<Event>, w': World, r: RunResult) {
    && Inv(w) && Inv(w') && (w', r) == Checkpoint(w, behaviours, 0)
    && Leads(w, events, w', |w.running|) && w'.running == w.running
    && w'.done == w.done + Takes(w, events, |w.running| + 1) + (if r.Executed? then r.count else MAX_ITERATIONS + 1)
    && (r.Executed? && Takes(w, events, |w.running| + 1) == 0 ==> w'.dropped == w.dropped)
    && (r.LimitExceeded? && Takes(w, events, |w.running| + 1) == 0 ==> w'.dropped == w.dropped + {w'.done - 1})
    && (r.LimitExceeded? ==> w'.done - 1 in w'.dropped)
  }

  lemma FinishedIsAlong(w: World, behaviours: seq<Behaviour>, events: seq<Event>, w': World, r: RunResult)
    requires Finished(w, behaviours, events, w', r)
    ensures Along(w, events, w')
  {
    RunsOnlyExtend(w, events);
  }

  /** The loop of the checkpoint has executed `i` tasks. */
  ghost predicate Going(w: World, events: seq<Event>, w': World, behaviours: seq<Behaviour>, i: nat) {
    && Inv(w) && Counted(w, events, w', |w.running|, i) && w'.running == w.running
    && RunsTo(w', behaviours, i, Checkpoint(w, behaviours, 0))
  }

  lemma GoingFromTheStart(w: World, behaviours: seq<Behaviour>)
    requires Inv(w)
    ensures Going(w, [], w, behaviours, 0)
  {
    NothingCounted(w, |w.running|);
  }

  lemma GoingOneMore(w: World, events: seq<Event>, mid: World, behaviours: seq<Behaviour>, i: nat,
                     more: seq<Event>, w': World)
    requires Going(w, events, mid, behaviours, i) && mid.done < |mid.log| && i < MAX_ITERATIONS
    requires w' == NextRun(mid, BehaviourAt(behaviours, i)) && Counted(mid, more, w', |mid.running|, 1)
    ensures Going(w, events + more, w', behaviours, i + 1)
  {
    CheckpointTurn(mid, behaviours, i, Checkpoint(w, behaviours, 0));
    CountedOn(w, events, mid, more, w', |w.running|, i, 1);
  }

  lemma GoingIsDone(w: World, events: seq<Event>, w': World, behaviours: seq<Behaviour>, i: nat)
    requires Going(w, events, w', behaviours, i) && w'.done == |w'.log|
    ensures Finished(w, behaviours, events, w', Executed(i))
  {
    CheckpointDone(w', behaviours, i, Checkpoint(w, behaviours, 0));
  }

  lemma GoingOverTheLimit(w: World, events: seq<Event>, w': World, behaviours: seq<Behaviour>)
    requires Going(w, events, w', behaviours, MAX_ITERATIONS) && w'.done < |w'.log|
    ensures Finished(w, behaviours, events + [DropTask], Drop(w'), LimitExceeded)
  {
    CheckpointLimit(w', behaviours, Checkpoint(w, behaviours, 0));
    DropKeepsInv(w');
    DropCounts(w, events, w', |w.running|, MAX_ITERATIONS);
    LimitIsFinished(w, behaviours, events + [DropTask], Drop(w'));
  }

  lemma LimitIsFinished(w: World, behaviours: seq<Behaviour>, events: seq<Event>, w': World)
    requires Inv(w) && Inv(w') && Checkpoint(w, behaviours, 0) == (w', LimitExceeded)
    requires CountedAndDropped(w, events, w', |w.running|, MAX_ITERATIONS) && w'.running == w.running
    ensures Finished(w, behaviours, events, w', LimitExceeded)
  {
  }

  // ---- A nested checkpoint ------------------------------------------------------------------

  /** A handler that awaits a value that is no promise, and returns. */
  const AWAITS := Behaviour([Await(Undefined, [])], Ok(Undefined))
  const BOTH_RAN := TWO_QUEUED.(done := 2)

  lemma IdleRuns(w: World)
    requires Inv(w) && |w.running| > 0 && w.running[|w.running| - 1] == None
    ensures Scripted(w, IDLE) == w.(running := w.running[..|w.running| - 1])
  {
  }

  /** The await takes the second task, in a checkpoint that counts it. */
  lemma AwaitTakesTheSecond()
    ensures Inv(FIRST_RUNS) && Awaited(FIRST_RUNS, Undefined, []) == BOTH_RAN.(running := [None])
  {
    TwoQueuedSteps();
    IdleRuns(BOTH_RUN);
    assert NextRun(FIRST_RUNS, IDLE) == BOTH_RAN.(running := [None]);
    assert Checkpoint(FIRST_RUNS, [], 0) == (BOTH_RAN.(running := [None]), Executed(1));
  }

  lemma OneAwait(w: World, v: Value, nested: seq<Behaviour>)
    requires Inv(w)
    ensures Acted(w, [Await(v, nested)]) == Awaited(w, v, nested)
  {
    assert [Await(v, nested)][1..] == [];
  }

  lemma AwaitAndReturn(w: World, b: Behaviour)
    requires Inv(w) && w.done < |w.log| && w.running == [] && Begin(w) == FIRST_RUNS && b == AWAITS
    ensures NextRun(w, b) == BOTH_RAN
  {
    AwaitTakesTheSecond();
    OneAwait(FIRST_RUNS, Undefined, []);
  }

  /** Two queued functions, of which the first awaits and so has the second run inside it: the
      checkpoint executes both and returns the count 1. */
  lemma CheckpointCountsOneOfTwo(behaviours: seq<Behaviour>)
    requires behaviours == [AWAITS]
    ensures Inv(TWO_QUEUED) && TWO_QUEUED.done == 0 && BOTH_RAN.done == |BOTH_RAN.log| == 2 && BOTH_RAN.dropped == {}
    ensures Checkpoint(TWO_QUEUED, behaviours, 0) == (BOTH_RAN, Executed(1))
  {
    TwoQueuedSteps();
    AwaitAndReturn(TWO_QUEUED, behaviours[0]);
    CheckpointTurn(TWO_QUEUED, behaviours, 0, Checkpoint(TWO_QUEUED, behaviours, 0));
    CheckpointDone(BOTH_RAN, behaviours, 1, Checkpoint(TWO_QUEUED, behaviours, 0));
  }
}
