/** Promises and their microtask queue in place (src/builtins/promise.rs,
    src/execution/microtask_queue.rs): every method is the operation of PromiseWorld.dfy of its
    name, and a run of the queue is a run of PromiseMachine.dfy. */
module PromiseRealm {
  import opened Options
  import opened PromiseWorld
  import opened PromiseSafety
  import opened PromiseAll
  import opened PromiseMachine
  import opened PromiseCheckpoints
  import opened PromiseScript

  class Realm {
    var promises: seq<Promise>
    var queue: seq<Task>
    var alls: seq<All>
    var registrations: seq<Registration>
    var running: seq<Option<nat>>
    ghost var log: seq<Task>
    ghost var done: nat
    ghost var dropped: set<nat>

    ghost function State(): World
      reads this
    {
      World(promises, log, done, dropped, registrations, alls, running)
    }

    /** The queue holds the logged tasks that have not been taken. */
    ghost predicate Linked()
      reads this
    {
      done <= |log| && queue == log[done..]
    }

    ghost predicate Valid()
      reads this
    {
      Linked() && Inv(State())
    }

    constructor ()
      ensures Valid() && State() == INITIAL
    {
      promises, queue, alls, registrations := [], [], [], [];
      log, done, dropped, running := [], 0, {}, [];
      new;
      InitialInv();
    }

    method Enqueue(task: Task)
      requires Linked()
      modifies this`queue, this`log
      ensures Linked() && queue == old(queue) + [task] && log == old(log) + [task]
    {
      queue := queue + [task];
      log := log + [task];
    }

    method NewPromise(role: Role) returns (p: nat)
      requires Linked()
      modifies this`promises
      ensures Linked() && p == |old(promises)| && State() == Append(old(State()), role)
    {
      p := |promises|;
      promises := promises + [Promise(Pending, Undefined, [], [], role)];
    }

    // ---- Settling ---------------------------------------------------------------------------

    /** Enqueues the reactions of one kind, in order, and clears both lists. */
    method DrainReactions(p: nat, argument: Value, isRejection: bool)
      requires Linked() && p < |promises|
      modifies this`promises, this`queue, this`log
      ensures Linked() && |promises| == |old(promises)|
      ensures promises == old(promises)[p := old(promises)[p].(fulfillReactions := [], rejectReactions := [])]
      ensures log == old(log) + TasksOf(p, if isRejection then old(promises)[p].rejectReactions
                                             else old(promises)[p].fulfillReactions, argument, isRejection)
    {
      var reactions := if isRejection then promises[p].rejectReactions else promises[p].fulfillReactions;
      for i := 0 to |reactions|
        invariant Linked() && promises == old(promises)
        invariant log == old(log) + TasksOf(p, reactions[..i], argument, isRejection)
      {
        assert reactions[..i + 1][..i] == reactions[..i];
        Enqueue(TaskOf(p, reactions[i], argument, isRejection));
      }
      assert reactions[..|reactions|] == reactions;
      promises := promises[p := promises[p].(fulfillReactions := [], rejectReactions := [])];
    }

    method SettlePromise(p: nat, state: State, v: Value)
      requires Linked() && p < |promises| && state != Pending
      modifies this`promises, this`queue, this`log
      ensures Linked() && State() == Settle(old(State()), p, state, v)
    {
      if promises[p].state != Pending {
        return;
      }
      promises := promises[p := promises[p].(state := state, result := v)];
      DrainReactions(p, v, state == Rejected);
    }

    method RejectPromiseInternal(p: nat, reason: Value)
      requires Linked() && p < |promises|
      modifies this`promises, this`queue, this`log
      ensures Linked() && State() == Reject(old(State()), p, reason)
    {
      SettlePromise(p, Rejected, reason);
    }

    /** Settles, or adopts the state of another promise. */
    method ResolvePromiseInternal(p: nat, v: Value)
      requires Linked() && IsPromise(State(), p) && PromiseWorld.Valid(State(), v)
      requires FulfilledWithPlainValues(State())
      modifies this`promises, this`queue, this`log, this`registrations
      ensures Linked() && State() == Resolve(old(State()), p, v)
      decreases if v.PromiseRef? then 1 else 0
    {
      if v.PromiseRef? {
        if v.promise == p {
          RejectPromiseInternal(p, CYCLE);
        } else {
          var other := promises[v.promise];
          if other.state == Fulfilled {
            ResolvePromiseInternal(p, other.result);
          } else if other.state == Rejected {
            RejectPromiseInternal(p, other.result);
          } else {
            AttachReactions(v.promise, Some(ResolveTo(p)), Some(RejectTo(p)), None);
          }
        }
        return;
      }
      SettlePromise(p, Fulfilled, v);
    }

    // ---- Attaching --------------------------------------------------------------------------

    /** Adds one reaction to one of the lists of a promise. */
    method AddReaction(p: nat, reaction: Reaction, isRejection: bool)
      requires Linked() && p < |promises|
      modifies this`promises
      ensures Linked()
      ensures promises == old(promises)[p :=
        if isRejection then old(promises)[p].(rejectReactions := old(promises)[p].rejectReactions + [reaction])
        else old(promises)[p].(fulfillReactions := old(promises)[p].fulfillReactions + [reaction])]
    {
      if isRejection {
        promises := promises[p := promises[p].(rejectReactions := promises[p].rejectReactions + [reaction])];
      } else {
        promises := promises[p := promises[p].(fulfillReactions := promises[p].fulfillReactions + [reaction])];
      }
    }

    /** The two `add_reaction` calls on a pending promise, or the enqueueing on a settled one. */
    method AttachReactions(p: nat, onFulfilled: Option<Handler>, onRejected: Option<Handler>, downstream: Option<nat>)
      requires Linked() && p < |promises|
      modifies this`promises, this`queue, this`log, this`registrations
      ensures Linked() && State() == Register(old(State()), p, onFulfilled, onRejected, downstream)
    {
      var tag := |registrations|;
      var state, result := promises[p].state, promises[p].result;
      var fulfill, reject := Reaction(tag, onFulfilled, downstream), Reaction(tag, onRejected, downstream);
      registrations := registrations + [Registration(p, onFulfilled, onRejected, downstream)];
      match state {
        case Pending =>
          AddReaction(p, fulfill, false);
          AddReaction(p, reject, true);
        case Fulfilled => Enqueue(TaskOf(p, fulfill, result, false));
        case Rejected => Enqueue(TaskOf(p, reject, result, true));
      }
    }

    method Then(p: nat, onFulfilled: Option<Handler>, onRejected: Option<Handler>) returns (child: nat)
      requires Linked() && p < |promises|
      modifies this`promises, this`queue, this`log, this`registrations
      ensures Linked() && child == |old(promises)|
      ensures State() == PromiseWorld.Then(old(State()), p, onFulfilled, onRejected)
    {
      child := NewPromise(Derived);
      AttachReactions(p, onFulfilled, onRejected, Some(child));
    }

    // ---- Promise.all ------------------------------------------------------------------------

    /** `Promise.all`: only arrays are accepted. */
    method All(argument: Value) returns (r: Outcome)
      requires Valid() && (argument.ArrayOf? ==> AllValid(State(), argument.items))
      modifies this`promises, this`queue, this`log, this`registrations, this`alls
      ensures Valid()
      ensures argument.ArrayOf? ==>
        r == Ok(PromiseRef(|old(promises)|)) && State() == CallAll(old(State()), argument.items)
      ensures !argument.ArrayOf? ==> r == Err(NOT_AN_ARRAY) && State() == old(State())
    {
      if !argument.ArrayOf? {
        return Err(NOT_AN_ARRAY);
      }
      var child := AllOf(argument.items);
      return Ok(PromiseRef(child));
    }

    method AllOf(elements: seq<Value>) returns (child: nat)
      requires Valid() && AllValid(State(), elements)
      modifies this`promises, this`queue, this`log, this`registrations, this`alls
      ensures Valid() && child == |old(promises)|
      ensures State() == CallAll(old(State()), elements)
    {
      AttachesFromTheStart(State(), elements);
      if |elements| == 0 {
        child := NewPromise(Derived);
        SettlePromise(child, Fulfilled, ArrayOf([]));
        return;
      }
      ghost var target := CallAll(State(), elements);
      var k := |alls|;
      child := NewPromise(AllResult(k));
      alls := alls + [PromiseWorld.All(child, Undefineds(|elements|), |elements|, [])];
      for i := 0 to |elements|
        invariant Linked() && AttachesTo(State(), k, elements, i, target)
      {
        AttachesOneMore(State(), k, elements, i, target);
        AttachOne(k, elements[i]);
      }
    }

    /** The loop body of `Promise.all`: wrap the element if needed, and attach its closures. */
    method AttachOne(k: nat, element: Value)
      requires Valid() && HasRoom(State(), k) && PromiseWorld.Valid(State(), element)
      modifies this`promises, this`queue, this`log, this`registrations, this`alls
      ensures FulfilledWithPlainValues(old(State()))
      ensures Linked() && State() == AttachElement(old(State()), k, element)
    {
      ItemPromiseKeepsInv(State(), element);
      var item;
      if element.PromiseRef? {
        item := element.promise;
      } else {
        item := NewPromise(Derived);
        AppendKeepsInv(old(State()), Derived);
        CoreFulfilled(State());
        ResolvePromiseInternal(item, element);
      }
      var index, tag := |alls[k].tags|, |registrations|;
      var child := Then(item, Some(AllResolve(k, index)), Some(AllReject(k)));
      alls := alls[k := alls[k].(tags := alls[k].tags + [tag])];
    }

    method FireAll(k: nat, index: nat, v: Value)
      requires Linked() && k < |alls| && index < |alls[k].results| && alls[k].remaining > 0
      requires alls[k].child < |promises|
      modifies this`promises, this`queue, this`log, this`alls
      ensures Linked() && State() == FireResolve(old(State()), k, index, v)
    {
      var results := alls[k].results[index := v];
      var remaining := alls[k].remaining - 1;
      alls := alls[k := alls[k].(results := results, remaining := remaining)];
      if remaining == 0 {
        SettlePromise(alls[k].child, Fulfilled, ArrayOf(results));
      }
    }

    // ---- Running the queue ------------------------------------------------------------------

    /** `queue.pop_front()` */
    method PopFront() returns (task: Task)
      requires Linked() && |queue| > 0
      modifies this`queue, this`done
      ensures Linked() && State() == Take(old(State())) && queue == old(queue)[1..]
      ensures task == old(queue)[0] && old(done) < |log| && task == log[old(done)]
    {
      task := queue[0];
      queue := queue[1..];
      done := done + 1;
    }

    /** Calls a closure of the built-ins; `before` is the state in which its task was next. */
    method CallClosure(ghost before: World, handler: Handler, argument: Value)
      requires Inv(before) && before.done < |before.log| && before.log[before.done].PromiseReaction?
      requires before.log[before.done].handler == Some(handler) && before.log[before.done].argument == argument
      requires !handler.Script?
      requires Linked() && State() == Take(before)
      modifies this
      ensures Linked() && State() == RunClosure(before)
    {
      NextTask(before);
      match handler {
        case ResolveTo(p) =>
          TakeKeepsCore(before);
          CoreFulfilled(State());
          ResolvePromiseInternal(p, argument);
        case RejectTo(p) =>
          RejectPromiseInternal(p, argument);
        case AllResolve(k, i) =>
          NextFiresIff(before, k, i);
          FiringHasRemaining(before, k, i);
          FireAll(k, i, argument);
        case AllReject(k) =>
          RejectionExtends(before, k);
          RejectPromiseInternal(alls[k].child, argument);
      }
    }

    /** Settles the child promise of a reaction with the outcome of its handler. */
    method FinishReaction(downstream: Option<nat>, outcome: Outcome)
      requires Linked() && DownstreamOk(State(), downstream) && FulfilledWithPlainValues(State())
      requires outcome.Ok? ==> PromiseWorld.Valid(State(), outcome.value)
      modifies this`promises, this`queue, this`log, this`registrations
      ensures Linked() && State() == Finish(old(State()), downstream, outcome)
    {
      if downstream.Some? {
        match outcome {
          case Ok(v) => ResolvePromiseInternal(downstream.value, v);
          case Err(message) => RejectPromiseInternal(downstream.value, Text(message));
        }
      }
    }

    /** Runs the next task, up to the point where it enters script. */
    method BeginNext() returns (inScript: bool)
      requires Valid() && |queue| > 0
      modifies this
      ensures Valid() && State() == Begin(old(State()))
      ensures inScript ==> |running| == |old(running)| + 1 && running[..|old(running)|] == old(running)
      ensures !inScript ==> running == old(running)
    {
      ghost var before := State();
      BeginKeepsInv(before);
      BeginKeepsRunning(before);
      var task := PopFront();
      inScript := false;
      match task {
        case Callable(_) =>
          running := running + [None];
          inScript := true;
        case PromiseReaction(_, _, handler, argument, downstream, isRejection) =>
          NextTask(before);
          if handler.None? {
            PassThrough(before, downstream, argument, isRejection);
          } else if handler.value.Script? {
            running := running + [downstream];
            inScript := true;
          } else {
            CallClosure(before, handler.value, argument);
            RunClosureKeepsInv(before);
            ExtendsKeepsHandlers(before, State(), None, downstream);
            CoreFulfilled(State());
            FinishReaction(downstream, Ok(Undefined));
          }
      }
    }

    /** A reaction with no handler passes the outcome on to its child promise. */
    method PassThrough(ghost before: World, downstream: Option<nat>, argument: Value, isRejection: bool)
      requires Inv(before) && before.done < |before.log| && before.log[before.done].PromiseReaction?
      requires before.log[before.done].handler.None? && before.log[before.done].downstream == downstream
      requires before.log[before.done].argument == argument && before.log[before.done].isRejection == isRejection
      requires Linked() && State() == Take(before)
      modifies this
      ensures Linked() && State() == Begin(before) && running == before.running
    {
      NextTask(before);
      TakeKeepsInv(before);
      CoreFulfilled(State());
      if downstream.Some? {
        if isRejection {
          RejectPromiseInternal(downstream.value, argument);
        } else {
          ResolvePromiseInternal(downstream.value, argument);
        }
      }
    }

    /** One operation performed by script. */
    method Perform(e: Event)
      requires Valid() && Enabled(State(), e) && !e.BeginTask? && !e.EndTask? && !e.DropTask?
      modifies this
      ensures Valid() && State() == Step(old(State()), e) && done == old(done) && dropped == old(dropped)
    {
      StepKeepsInv(State(), e);
      CoreFulfilled(State());
      match e {
        case NewPromise =>
          var p := NewPromise(Exposed);
        case CallResolve(p, v) => ResolvePromiseInternal(p, v);
        case CallReject(p, v) => RejectPromiseInternal(p, v);
        case CallThen(p, f, r) =>
          var child := Then(p, ScriptHandler(f), ScriptHandler(r));
        case QueueMicrotask(f) => Enqueue(Callable(f));
        case StartAll(elements) =>
          var started := All(ArrayOf(elements));
      }
    }

    /** The innermost script call returns or throws. */
    method EndScript(outcome: Outcome)
      requires Valid() && |running| > 0 && (outcome.Ok? ==> PromiseWorld.Valid(State(), outcome.value))
      modifies this
      ensures Valid() && State() == Step(old(State()), EndTask(outcome))
      ensures done == old(done) && dropped == old(dropped) && running == old(running)[..|old(running)| - 1]
    {
      StepKeepsInv(State(), EndTask(outcome));
      var downstream := EndFrame();
      RunningIsImmaterial(old(State()), running);
      CoreFulfilled(State());
      FinishReaction(downstream, outcome);
    }

    method EndFrame() returns (downstream: Option<nat>)
      requires Linked() && |running| > 0
      modifies this`running
      ensures Linked() && running == old(running)[..|old(running)| - 1]
      ensures downstream == old(running)[|old(running)| - 1]
    {
      downstream := running[|running| - 1];
      running := running[..|running| - 1];
    }

    /** Script performs the operations it wants to, as far as it can. */
    method PerformActions(actions: seq<Action>) returns (ghost events: seq<Event>)
      requires Valid()
      modifies this
      ensures Valid() && State() == Acted(old(State()), actions) && Along(old(State()), events, State())
      decreases DepthOfActions(actions), 1
    {
      events := [];
      NothingAlong(State());
      ghost var target := Acted(State(), actions);
      assert actions[0..] == actions;
      for i := 0 to |actions|
        invariant Valid() && ActsTo(State(), actions[i..], target) && Along(old(State()), events, State())
      {
        ghost var before, more := State(), [];
        match actions[i] {
          case Call(call) => more := PerformCall(call);
          case Await(awaited, nested) =>
            DepthOfAwait(actions, i);
            var evaluated;
            evaluated, more := AwaitValue(awaited, nested);
        }
        ActionTurn(before, actions, i, State(), target);
        AlongOn(old(State()), events, before, more, State());
        events := events + more;
      }
    }

    method PerformCall(call: Event) returns (ghost events: seq<Event>)
      requires Valid()
      modifies this
      ensures Valid() && State() == Called(old(State()), call) && Along(old(State()), events, State())
    {
      events := [];
      NothingAlong(State());
      var able := CanPerform(call);
      if able {
        PerformKeepsRunning(State(), call);
        Perform(call);
        OneLeads(old(State()), call, |running|);
        events := [call];
      }
    }

    /** `await` (src/interpreter/interpreter.rs): runs the queue until the promise is settled or nothing
        is left to run; a value that is no promise has the queue run once. It evaluates to what a fulfilled
        promise holds, throws what a rejected one does, and is the promise itself while that is pending. */
    method AwaitValue(v: Value, nested: seq<Behaviour>) returns (r: Evaluated, ghost events: seq<Event>)
      requires Valid()
      modifies this
      ensures Valid() && State() == Awaited(old(State()), v, nested) && Along(old(State()), events, State())
      ensures r == EvaluatedTo(State(), v)
      ensures v.PromiseRef? && v.promise < |promises| && promises[v.promise].state == Fulfilled ==>
        r == Resumed(promises[v.promise].result)
      ensures v.PromiseRef? && v.promise < |promises| && promises[v.promise].state == Rejected ==>
        r == Thrown(promises[v.promise].result)
      ensures r.Thrown? ==> v.PromiseRef? && v.promise < |promises| && promises[v.promise].state == Rejected
      decreases DepthOfAll(nested), 6
    {
      if v.PromiseRef? && v.promise < |promises| {
        events := AwaitPromise(v, nested);
      } else {
        ghost var before := State();
        var result;
        result, events := RunQueue(nested);
        FinishedIsAlong(before, nested, events, State(), result);
      }
      if v.PromiseRef? && v.promise < |promises| {
        match promises[v.promise].state {
          case Fulfilled => r := Resumed(promises[v.promise].result);
          case Rejected => r := Thrown(promises[v.promise].result);
          case Pending => r := Resumed(v);
        }
      } else {
        r := Resumed(v);
      }
    }

    /** The loop of an `await` on a promise. */
    method AwaitPromise(v: Value, nested: seq<Behaviour>) returns (ghost events: seq<Event>)
      requires Valid() && v.PromiseRef? && v.promise < |promises|
      modifies this
      ensures Valid() && State() == Awaited(old(State()), v, nested) && Along(old(State()), events, State())
      ensures v.promise < |promises|
      decreases DepthOfAll(nested), 5
    {
      events := [];
      NothingAlong(State());
      ghost var target := Awaited(State(), v, nested);
      while promises[v.promise].state == Pending
        invariant Valid() && v.promise < |promises| && Along(old(State()), events, State())
        invariant AwaitsTo(State(), v, nested, target)
        decreases |queue|
      {
        ghost var before := State();
        var result;
        ghost var more;
        result, more := RunQueue(nested);
        FinishedIsAlong(before, nested, more, State(), result);
        AwaitTurn(before, v, nested, State(), result, target);
        RunsOnlyExtend(before, more);
        AlongOn(old(State()), events, before, more, State());
        events := events + more;
        var ran := if result.Executed? then result.count else 0;
        if ran == 0 {
          return;
        }
      }
    }

    method CanPerform(e: Event) returns (able: bool)
      ensures able <==> Enabled(State(), e) && !e.BeginTask? && !e.EndTask? && !e.DropTask?
    {
      match e {
        case NewPromise => able := true;
        case CallResolve(p, v) => able := p < |promises| && promises[p].role == Exposed && Holds(v);
        case CallReject(p, v) => able := p < |promises| && promises[p].role == Exposed && Holds(v);
        case CallThen(p, _, _) => able := p < |promises|;
        case QueueMicrotask(_) => able := true;
        case StartAll(elements) => able := forall e :: 0 <= e < |elements| ==> Holds(elements[e]);
        case _ => able := false;
      }
    }

    predicate Holds(v: Value)
      reads this`promises
    {
      v.PromiseRef? ==> v.promise < |promises|
    }

    /** The microtask checkpoint: runs tasks until the queue is empty or the limit is passed. The
        behaviour of the handlers is arbitrary: `behaviours[i]` is what the handler of the i-th task
        taken here does, nested checkpoints included. The count is that of this checkpoint alone; it
        is the number of tasks taken exactly when no handler took any in a nested one. */
    method RunMicrotasks(behaviours: seq<Behaviour>) returns (r: RunResult, ghost events: seq<Event>)
      requires Valid()
      modifies this
      ensures Valid() && (State(), r) == Checkpoint(old(State()), behaviours, 0)
      ensures Leads(old(State()), events, State(), |old(running)|) && running == old(running)
      ensures r.Executed? ==>
        && queue == [] && r.count <= MAX_ITERATIONS
        && done == old(done) + r.count + Takes(old(State()), events, |old(running)| + 1)
      ensures r.LimitExceeded? ==>
        && done == old(done) + MAX_ITERATIONS + 1 + Takes(old(State()), events, |old(running)| + 1)
        && done - 1 in dropped
      ensures r.Executed? && Takes(old(State()), events, |old(running)| + 1) == 0 ==> dropped == old(dropped)
      ensures r.LimitExceeded? && Takes(old(State()), events, |old(running)| + 1) == 0 ==>
        dropped == old(dropped) + {done - 1}
      ensures r.Executed? ==>
        (done == old(done) + r.count <==> Takes(old(State()), events, |old(running)| + 1) == 0)
      ensures old(log) <= log && old(done) <= done <= |log| && old(done) <= |old(log)|
      ensures old(queue) + log[|old(log)|..] == log[old(done)..done] + queue
    {
      r, events := RunQueue(behaviours);
      QueueConserved(old(State()), events);
      CheckpointIsBounded(old(State()), behaviours, 0);
    }

    /** The loop of the checkpoint. */
    method RunQueue(behaviours: seq<Behaviour>) returns (r: RunResult, ghost events: seq<Event>)
      requires Valid()
      modifies this
      ensures Valid() && Finished(old(State()), behaviours, events, State(), r)
      decreases DepthOfAll(behaviours), 4
    {
      var executed := 0;
      events := [];
      GoingFromTheStart(State(), behaviours);
      while true
        invariant Valid() && executed <= MAX_ITERATIONS
        invariant Going(old(State()), events, State(), behaviours, executed)
        decreases MAX_ITERATIONS - executed
      {
        if |queue| == 0 {
          GoingIsDone(old(State()), events, State(), behaviours, executed);
          return Executed(executed), events;
        }
        ghost var before := State();
        if executed + 1 > MAX_ITERATIONS {
          GoingOverTheLimit(old(State()), events, before, behaviours);
          DropNext();
          return LimitExceeded, events + [DropTask];
        }
        BehaviourIsShallow(behaviours, executed);
        ghost var more := RunNext(BehaviourAt(behaviours, executed));
        GoingOneMore(old(State()), events, before, behaviours, executed, more, State());
        executed := executed + 1;
        events := events + more;
      }
    }

    /** What a run adds to the queue and what it takes from it. */
    lemma QueueConserved(before: World, events: seq<Event>)
      requires Valid() && Inv(before) && State() == Run(before, events)
      ensures before.log <= log && before.done <= done <= |log| && before.done <= |before.log|
      ensures before.log[before.done..] + log[|before.log|..] == log[before.done..done] + queue
    {
      RunsOnlyExtend(before, events);
      assert log == before.log + log[|before.log|..];
    }

    method DropNext()
      requires Valid() && |queue| > 0
      modifies this`queue, this`done, this`dropped
      ensures Valid() && State() == Drop(old(State()))
      ensures done == old(done) + 1 && dropped == old(dropped) + {old(done)}
    {
      DropKeepsInv(State());
      ghost var taken := done;
      var task := PopFront();
      dropped := dropped + {taken};
    }

    /** One iteration: the next task, and all of the script that its handler runs. */
    method RunNext(b: Behaviour) returns (ghost events: seq<Event>)
      requires Valid() && |queue| > 0
      modifies this
      ensures Valid() && running == old(running)
      ensures State() == NextRun(old(State()), b)
      ensures Counted(old(State()), events, State(), |old(running)|, 1)
      decreases Depth(b), 3
    {
      ghost var before := State();
      BeginTakesOne(before);
      var inScript := BeginNext();
      ghost var script: seq<Event> := [];
      if inScript {
        script := RunScript(b);
      } else {
        LeadsNowhere(State(), |running| + 1);
      }
      BeginCounts(before, script, State());
      events := [BeginTask] + script;
    }

    /** The innermost script call, up to and including its return. */
    method RunScript(b: Behaviour) returns (ghost events: seq<Event>)
      requires Valid() && |running| > 0
      modifies this
      ensures Valid() && State() == Scripted(old(State()), b)
      ensures Leads(old(State()), events, State(), |old(running)|)
      ensures running == old(running)[..|old(running)| - 1]
      ensures done == old(done) ==> dropped == old(dropped)
      decreases Depth(b), 2
    {
      events := PerformActions(b.actions);
      // a handler can only return a value that exists
      var outcome := if b.outcome.Ok? && !Holds(b.outcome.value) then Ok(Undefined) else b.outcome;
      ghost var before := State();
      EndScript(outcome);
      OneLeads(before, EndTask(outcome), |before.running|);
      LeadsOn(old(State()), events, before, [EndTask(outcome)], State(), |old(running)|);
      events := events + [EndTask(outcome)];
    }
  }
}
