/** How many tasks a run takes from the queue, and at which depth of script calls. */
module PromiseCheckpoints {
  import opened Options
  import opened PromiseWorld
  import opened PromiseAll
  import opened PromiseMachine

  predicate IsTake(e: Event) {
    e.BeginTask? || e.DropTask?
  }

  /** The tasks the run takes while at least `depth` script calls are in progress. */
  ghost function Takes(w: World, events: seq<Event>, depth: nat): nat
    requires Inv(w)
    decreases |events|
  {
    if events == [] then 0
    else if !Enabled(w, events[0]) then Takes(w, events[1..], depth)
    else
      StepKeepsInv(w, events[0]);
      (if IsTake(events[0]) && |w.running| >= depth then 1 else 0) + Takes(Step(w, events[0]), events[1..], depth)
  }

  lemma {:induction false} TakesAppend(w: World, first: seq<Event>, second: seq<Event>, depth: nat)
    requires Inv(w)
    ensures Takes(w, first + second, depth) == Takes(w, first, depth) + Takes(Run(w, first), second, depth)
    decreases |first|
  {
    if first == [] {
      assert first + second == second;
    } else {
      assert (first + second)[1..] == first[1..] + second;
      if Enabled(w, first[0]) {
        StepKeepsInv(w, first[0]);
        TakesAppend(Step(w, first[0]), first[1..], second, depth);
      } else {
        TakesAppend(w, first[1..], second, depth);
      }
    }
  }

  lemma TakesOne(w: World, e: Event, depth: nat)
    requires Inv(w) && Enabled(w, e)
    ensures Takes(w, [e], depth) == if IsTake(e) && |w.running| >= depth then 1 else 0
  {
    StepKeepsInv(w, e);
    assert [e][1..] == [];
  }

  /** The run leads from `w` to `next`, and every task it takes it takes at `depth` or deeper. */
  ghost predicate Leads(w: World, events: seq<Event>, next: World, depth: nat)
    requires Inv(w)
  {
    && next == Run(w, events)
    && forall k: nat :: k <= depth ==> next.done == w.done + Takes(w, events, k)
  }

  lemma LeadsNowhere(w: World, depth: nat)
    requires Inv(w)
    ensures Leads(w, [], w, depth)
  {
  }

  lemma LeadsOn(w: World, first: seq<Event>, mid: World, second: seq<Event>, next: World, depth: nat)
    requires Inv(w) && Inv(mid) && Leads(w, first, mid, depth) && Leads(mid, second, next, depth)
    ensures Leads(w, first + second, next, depth)
  {
    RunAppend(w, first, second);
    forall k: nat | k <= depth ensures next.done == w.done + Takes(w, first + second, k) {
      TakesAppend(w, first, second, k);
    }
  }

  /** A run that takes its tasks deeper also takes them here. */
  lemma LeadsFromDeeper(w: World, events: seq<Event>, next: World, deeper: nat, depth: nat)
    requires Inv(w) && depth <= deeper && Leads(w, events, next, deeper)
    ensures Leads(w, events, next, depth)
    ensures next.done == w.done + Takes(w, events, deeper)
  {
  }

  /** One step that takes no task, or takes one at this depth. */
  lemma OneLeads(w: World, e: Event, depth: nat)
    requires Inv(w) && Enabled(w, e) && depth <= |w.running|
    requires Step(w, e).done == w.done + if IsTake(e) then 1 else 0
    ensures Leads(w, [e], Step(w, e), depth)
  {
    RunOne(w, [], e);
    assert [] + [e] == [e];
    forall k: nat | k <= depth ensures Step(w, e).done == w.done + Takes(w, [e], k) {
      TakesOne(w, e, k);
    }
  }

  /** The run takes `executed` tasks at this depth, the rest deeper, and drops none unless it did take
      some deeper. */
  ghost predicate Counted(w: World, events: seq<Event>, next: World, depth: nat, executed: nat)
    requires Inv(w)
  {
    && Leads(w, events, next, depth)
    && next.done == w.done + executed + Takes(w, events, depth + 1)
    && (Takes(w, events, depth + 1) == 0 ==> next.dropped == w.dropped)
  }

  lemma NothingCounted(w: World, depth: nat)
    requires Inv(w)
    ensures Counted(w, [], w, depth, 0)
  {
  }

  lemma CountedOn(w: World, first: seq<Event>, mid: World, second: seq<Event>, next: World, depth: nat,
                  executed: nat, more: nat)
    requires Inv(w) && Inv(mid) && Counted(w, first, mid, depth, executed) && Counted(mid, second, next, depth, more)
    ensures Counted(w, first + second, next, depth, executed + more)
  {
    LeadsOn(w, first, mid, second, next, depth);
    TakesAppend(w, first, second, depth + 1);
  }

  /** A task begun here, and a run of its script after it. */
  lemma BeginCounts(w: World, events: seq<Event>, next: World)
    requires Inv(w) && w.done < |w.log| && Inv(Begin(w))
    requires Begin(w).done == w.done + 1 && Begin(w).dropped == w.dropped
    requires Leads(Begin(w), events, next, |w.running| + 1)
    requires next.done == Begin(w).done ==> next.dropped == w.dropped
    ensures Counted(w, [BeginTask] + events, next, |w.running|, 1)
  {
    OneLeads(w, BeginTask, |w.running|);
    TakesOne(w, BeginTask, |w.running| + 1);
    LeadsFromDeeper(Begin(w), events, next, |w.running| + 1, |w.running|);
    LeadsOn(w, [BeginTask], Begin(w), events, next, |w.running|);
    TakesAppend(w, [BeginTask], events, |w.running| + 1);
  }

  /** As `Counted`, followed by the dropping of one more task. */
  ghost predicate CountedAndDropped(w: World, events: seq<Event>, next: World, depth: nat, executed: nat)
    requires Inv(w)
  {
    && Leads(w, events, next, depth) && w.done < next.done && next.done - 1 in next.dropped
    && next.done == w.done + executed + 1 + Takes(w, events, depth + 1)
    && (Takes(w, events, depth + 1) == 0 ==> next.dropped == w.dropped + {next.done - 1})
  }

  /** The task over the limit. */
  lemma DropCounts(w: World, events: seq<Event>, mid: World, depth: nat, executed: nat)
    requires Inv(w) && Inv(mid) && Counted(w, events, mid, depth, executed)
    requires mid.done < |mid.log| && |mid.running| == depth
    ensures CountedAndDropped(w, events + [DropTask], Drop(mid), depth, executed)
  {
    OneLeads(mid, DropTask, depth);
    TakesOne(mid, DropTask, depth + 1);
    LeadsOn(w, events, mid, [DropTask], Drop(mid), depth);
    TakesAppend(w, events, [DropTask], depth + 1);
  }

  // ---- A nested checkpoint ------------------------------------------------------------------

  /** Two queued functions, of which the first awaits and so has the second run inside it. */
  const TWO_QUEUED := World([], [Callable(0), Callable(1)], 0, {}, [], [], [])
  const FIRST_RUNS := TWO_QUEUED.(done := 1, running := [None])
  const BOTH_RUN := TWO_QUEUED.(done := 2, running := [None, None])

  lemma TwoQueuedSteps()
    ensures Inv(TWO_QUEUED) && Enabled(TWO_QUEUED, BeginTask) && Step(TWO_QUEUED, BeginTask) == FIRST_RUNS
    ensures Inv(FIRST_RUNS) && Enabled(FIRST_RUNS, BeginTask) && Step(FIRST_RUNS, BeginTask) == BOTH_RUN
    ensures Inv(BOTH_RUN)
  {
    InitialInv();
    EnqueueKeepsInv(INITIAL, 0);
    EnqueueKeepsInv(Enqueue(INITIAL, Callable(0)), 1);
    assert TWO_QUEUED == Enqueue(Enqueue(INITIAL, Callable(0)), Callable(1));
    StepKeepsInv(TWO_QUEUED, BeginTask);
    StepKeepsInv(FIRST_RUNS, BeginTask);
  }

  /** Two tasks are taken, one of them by the nested checkpoint, which the outer count does not see. */
  lemma NestedTaskIsNotCounted()
    ensures Inv(TWO_QUEUED)
    ensures Takes(TWO_QUEUED, [BeginTask, BeginTask], 0) == 2 && Takes(TWO_QUEUED, [BeginTask, BeginTask], 1) == 1
  {
    TwoQueuedSteps();
    TakesOne(TWO_QUEUED, BeginTask, 0);
    TakesOne(TWO_QUEUED, BeginTask, 1);
    TakesOne(FIRST_RUNS, BeginTask, 0);
    TakesOne(FIRST_RUNS, BeginTask, 1);
    RunOne(TWO_QUEUED, [], BeginTask);
    assert [] + [BeginTask] == [BeginTask] && [BeginTask] + [BeginTask] == [BeginTask, BeginTask];
    TakesAppend(TWO_QUEUED, [BeginTask], [BeginTask], 0);
    TakesAppend(TWO_QUEUED, [BeginTask], [BeginTask], 1);
  }
}
