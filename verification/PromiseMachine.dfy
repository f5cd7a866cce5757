/** Promises and their queue as a machine.

    Script may create promises, attach handlers, settle the promises it holds the functions of and
    call `Promise.all`, also from inside handlers; tasks are taken one by one. Handlers are arbitrary:
    a run chooses what they do and return. Every step keeps the invariant of promises and that of
    every `Promise.all` call; what holds in every reachable state is in PromiseRuns.dfy. */
module PromiseMachine {
  import opened Options
  import opened PromiseWorld
  import opened PromiseSafety
  import opened PromiseAll

  // ---- Starting Promise.all ------------------------------------------------------------------

  lemma {:induction false} NothingFired(w: World, k: nat, n: nat)
    requires k < |w.alls| && w.alls[k].tags == []
    ensures Unfired(w, k, n) == n
  {
    if n > 0 { NothingFired(w, k, n - 1); }
  }

  lemma {:induction false} NothingRejected(w: World, k: nat, n: nat)
    requires Core(w) && n <= |w.log| && |w.alls| <= k
    ensures FirstRejection(w, k, n).None?
  {
    if n > 0 {
      NothingRejected(w, k, n - 1);
      assert TaskOk(w, w.log[n - 1]);
      if w.log[n - 1].PromiseReaction? {
        assert RegistrationOk(w, w.registrations[w.log[n - 1].tag]);
      }
    }
  }

  lemma NewAllKeepsCore(w: World, all: All)
    requires Core(w)
    ensures Core(w.(alls := w.alls + [all])) && Extends(w, w.(alls := w.alls + [all]))
  {
    var w' := w.(alls := w.alls + [all]);
    ExtendsKeepsOld(w, w');
    forall p | 0 <= p < |w'.promises| ensures PromiseOk(w', p) && Ledger(w', p) {
      assert Ledger(w, p);
    }
  }

  lemma BeginAllKeepsInv(w: World, total: nat)
    requires Inv(w)
    ensures FulfilledWithPlainValues(w)
    ensures Inv(BeginAll(w, total)) && Extends(w, BeginAll(w, total))
  {
    CoreFulfilled(w);
    var child := |w.promises|;
    var w' := BeginAll(w, total);
    if total == 0 {
      var appended := Append(w, Derived);
      AppendKeepsInv(w, Derived);
      SettleKeepsCore(appended, child, Fulfilled, ArrayOf([]));
      SettleIsQuiet(appended, child, Fulfilled, ArrayOf([]));
      QuietKeepsAlls(appended, w');
      ExtendsTransitive(w, appended, w');
    } else {
      var k := |w.alls|;
      var appended := Append(w, AllResult(k));
      AppendKeepsInv(w, AllResult(k));
      NewAllKeepsCore(appended, All(child, Undefineds(total), total, []));
      ExtendsTransitive(w, appended, w');
      NothingFired(w', k, total);
      NothingRejected(appended, k, w.done);
      RejectionAgrees(appended, w', k, w.done);
      assert AllOk(w', k);
      forall k' | 0 <= k' < k ensures AllOk(w', k') {
        QuietKeepsAll(appended, w', k');
      }
      forall t | 0 <= t < |w'.registrations| ensures ClosuresOk(w', t) {
        assert ClosuresOk(appended, t);
      }
    }
  }

  // ---- Attaching one element -----------------------------------------------------------------

  /** Where the call still has room for an element. */
  ghost predicate HasRoom(w: World, k: nat) {
    k < |w.alls| && |w.alls[k].tags| < |w.alls[k].results|
  }

  /** The state once element `|tags|` is attached to the promise `item`. */
  ghost function Attached(w: World, k: nat, item: nat): World
    requires k < |w.alls| && IsPromise(w, item)
  {
    var all := w.alls[k];
    Then(w, item, Some(AllResolve(k, |all.tags|)), Some(AllReject(k)))
      .(alls := w.alls[k := all.(tags := all.tags + [|w.registrations|])])
  }

  lemma AttachedKeepsCore(w: World, k: nat, item: nat)
    requires Inv(w) && HasRoom(w, k) && IsPromise(w, item)
    ensures Core(Attached(w, k, item)) && Extends(w, Attached(w, k, item))
    ensures SameHistory(w, Attached(w, k, item))
    ensures Attached(w, k, item).registrations
      == w.registrations + [Registration(item, Some(AllResolve(k, |w.alls[k].tags|)), Some(AllReject(k)),
                                         Some(|w.promises|))]
    ensures forall p :: 0 <= p < |w.promises| ==> SameOutcome(w.promises[p], Attached(w, k, item).promises[p])
  {
    var all := w.alls[k];
    var f, r := Some(AllResolve(k, |all.tags|)), Some(AllReject(k));
    ThenKeepsCore(w, item, f, r);
    var w1 := Then(w, item, f, r);
    AllsUpdateKeepsCore(w1, k, all.(tags := all.tags + [|w.registrations|]));
    ExtendsTransitive(w, w1, Attached(w, k, item));
  }

  lemma AttachedFires(w: World, k: nat, item: nat, i: nat)
    requires Inv(w) && HasRoom(w, k) && IsPromise(w, item)
    requires SameHistory(w, Attached(w, k, item))
    ensures Fired(Attached(w, k, item), k, i) <==> Fired(w, k, i)
  {
    var w' := Attached(w, k, item);
    var tags, tags' := w.alls[k].tags, w'.alls[k].tags;
    if Fired(w, k, i) {
      var j: nat :| Executed(w, j) && w.log[j].tag == tags[i] && !w.log[j].isRejection;
      assert Executed(w', j) && w'.log[j] == w.log[j];
    }
    if Fired(w', k, i) {
      var j: nat :| Executed(w', j) && w'.log[j].tag == tags'[i] && !w'.log[j].isRejection;
      assert Executed(w, j) && w'.log[j] == w.log[j];
      assert TaskOk(w, w.log[j]);
    }
  }

  lemma {:induction false} AttachedUnfired(w: World, k: nat, item: nat, n: nat)
    requires Inv(w) && HasRoom(w, k) && IsPromise(w, item)
    requires SameHistory(w, Attached(w, k, item))
    ensures Unfired(Attached(w, k, item), k, n) == Unfired(w, k, n)
  {
    if n > 0 {
      AttachedUnfired(w, k, item, n - 1);
      AttachedFires(w, k, item, n - 1);
    }
  }

  lemma AttachedKeepsCall(w: World, k: nat, item: nat)
    requires Inv(w) && HasRoom(w, k) && IsPromise(w, item)
    ensures Attached(w, k, item).done <= |Attached(w, k, item).log| && AllOk(Attached(w, k, item), k)
  {
    AttachedKeepsCore(w, k, item);
    var w' := Attached(w, k, item);
    var all, all' := w.alls[k], w'.alls[k];
    assert AllOk(w, k);
    assert SameOutcome(w.promises[all.child], w'.promises[all.child]);
    assert PromiseStep(w.promises[all.child], w'.promises[all.child]);
    forall i | 0 <= i < |all'.tags| ensures ElementRegistration(w', k, i, all'.tags[i]) {
      if i < |all.tags| { assert ElementRegistration(w, k, i, all.tags[i]); }
    }
    forall i | 0 <= i < |all'.results| ensures EntryOk(w', k, i) {
      assert EntryOk(w, k, i);
      AttachedFires(w, k, item, i);
      if Fired(w, k, i) {
        var p := w.registrations[all.tags[i]].promise;
        assert SameOutcome(w.promises[p], w'.promises[p]);
      }
    }
    AttachedUnfired(w, k, item, |all.results|);
    RejectionAgrees(w, w', k, w.done);
  }

  lemma AttachedKeepsInv(w: World, k: nat, item: nat)
    requires Inv(w) && HasRoom(w, k) && IsPromise(w, item)
    ensures Inv(Attached(w, k, item)) && Extends(w, Attached(w, k, item))
  {
    AttachedKeepsCore(w, k, item);
    var w' := Attached(w, k, item);
    AttachedKeepsCall(w, k, item);
    forall k' | 0 <= k' < |w'.alls| && k' != k ensures AllOk(w', k') {
      assert AllOk(w, k');
      assert SameOutcome(w.promises[w.alls[k'].child], w'.promises[w.alls[k'].child]);
      QuietKeepsAll(w, w', k');
    }
    forall t | 0 <= t < |w'.registrations| ensures ClosuresOk(w', t) {
      if t < |w.registrations| { assert ClosuresOk(w, t); }
    }
  }

  lemma ItemPromiseKeepsInv(w: World, element: Value)
    requires Inv(w) && Valid(w, element)
    ensures FulfilledWithPlainValues(w)
    ensures Inv(ItemPromise(w, element).0) && Extends(w, ItemPromise(w, element).0)
    ensures IsPromise(ItemPromise(w, element).0, ItemPromise(w, element).1)
    ensures ItemPromise(w, element).0.alls == w.alls
  {
    CoreFulfilled(w);
    if !element.PromiseRef? {
      AppendKeepsInv(w, Derived);
      var appended := Append(w, Derived);
      ResolveKeepsInv(appended, |w.promises|, element);
      ExtendsTransitive(w, appended, ItemPromise(w, element).0);
    }
  }

  lemma AttachElementKeepsInv(w: World, k: nat, element: Value)
    requires Inv(w) && HasRoom(w, k) && Valid(w, element)
    ensures FulfilledWithPlainValues(w)
    ensures Inv(AttachElement(w, k, element)) && Extends(w, AttachElement(w, k, element))
    ensures |AttachElement(w, k, element).alls| == |w.alls|
    ensures |AttachElement(w, k, element).alls[k].tags| == |w.alls[k].tags| + 1
  {
    ItemPromiseKeepsInv(w, element);
    var (w', item) := ItemPromise(w, element);
    AttachedKeepsInv(w', k, item);
    assert AttachElement(w, k, element) == Attached(w', k, item);
    ExtendsTransitive(w, w', Attached(w', k, item));
  }

  ghost predicate AllValid(w: World, elements: seq<Value>) {
    forall e :: 0 <= e < |elements| ==> Valid(w, elements[e])
  }

  lemma ExtendsKeepsValid(w: World, w': World, elements: seq<Value>)
    requires Extends(w, w') && AllValid(w, elements)
    ensures AllValid(w', elements)
  {
  }

  /** Attaches the elements from index `i` on, in order. */
  ghost function AttachFrom(w: World, k: nat, elements: seq<Value>, i: nat): World
    requires Inv(w) && k < |w.alls| && i <= |elements|
    requires |w.alls[k].tags| == i && |w.alls[k].results| == |elements|
    requires AllValid(w, elements)
    decreases |elements| - i
  {
    if i == |elements| then w
    else
      AttachElementKeepsInv(w, k, elements[i]);
      ExtendsKeepsValid(w, AttachElement(w, k, elements[i]), elements);
      AttachFrom(AttachElement(w, k, elements[i]), k, elements, i + 1)
  }

  lemma {:induction false} AttachFromKeepsInv(w: World, k: nat, elements: seq<Value>, i: nat)
    requires Inv(w) && k < |w.alls| && i <= |elements|
    requires |w.alls[k].tags| == i && |w.alls[k].results| == |elements|
    requires AllValid(w, elements)
    ensures Inv(AttachFrom(w, k, elements, i)) && Extends(w, AttachFrom(w, k, elements, i))
    ensures |AttachFrom(w, k, elements, i).alls| == |w.alls|
    ensures |AttachFrom(w, k, elements, i).alls[k].tags| == |elements|
    decreases |elements| - i
  {
    if i < |elements| {
      AttachElementKeepsInv(w, k, elements[i]);
      var next := AttachElement(w, k, elements[i]);
      ExtendsKeepsValid(w, next, elements);
      AttachFromKeepsInv(next, k, elements, i + 1);
      ExtendsTransitive(w, next, AttachFrom(w, k, elements, i));
    }
  }

  ghost function CallAll(w: World, elements: seq<Value>): World
    requires Inv(w) && AllValid(w, elements)
  {
    BeginAllKeepsInv(w, |elements|);
    ExtendsKeepsValid(w, BeginAll(w, |elements|), elements);
    if elements == [] then BeginAll(w, 0)
    else AttachFrom(BeginAll(w, |elements|), |w.alls|, elements, 0)
  }

  lemma CallAllKeepsInv(w: World, elements: seq<Value>)
    requires Inv(w) && AllValid(w, elements)
    ensures Inv(CallAll(w, elements)) && Extends(w, CallAll(w, elements))
  {
    BeginAllKeepsInv(w, |elements|);
    ExtendsKeepsValid(w, BeginAll(w, |elements|), elements);
    if elements != [] {
      AttachFromKeepsInv(BeginAll(w, |elements|), |w.alls|, elements, 0);
      ExtendsTransitive(w, BeginAll(w, |elements|), CallAll(w, elements));
    }
  }

  /** The loop of `Promise.all` has `i` elements attached, and is to end in `target`. */
  ghost predicate AttachesTo(w: World, k: nat, elements: seq<Value>, i: nat, target: World) {
    && Inv(w) && k < |w.alls| && i <= |elements| && AllValid(w, elements)
    && |w.alls[k].tags| == i && |w.alls[k].results| == |elements|
    && AttachFrom(w, k, elements, i) == target
  }

  lemma AttachesFromTheStart(w: World, elements: seq<Value>)
    requires Inv(w) && AllValid(w, elements)
    ensures Inv(CallAll(w, elements)) && FulfilledWithPlainValues(w)
    ensures elements == [] ==> CallAll(w, elements) == BeginAll(w, 0)
    ensures elements != [] ==>
      AttachesTo(BeginAll(w, |elements|), |w.alls|, elements, 0, CallAll(w, elements))
  {
    CallAllKeepsInv(w, elements);
    BeginAllKeepsInv(w, |elements|);
    ExtendsKeepsValid(w, BeginAll(w, |elements|), elements);
  }

  lemma AttachesOneMore(w: World, k: nat, elements: seq<Value>, i: nat, target: World)
    requires AttachesTo(w, k, elements, i, target) && i < |elements|
    ensures HasRoom(w, k) && Valid(w, elements[i]) && FulfilledWithPlainValues(w)
    ensures AttachesTo(AttachElement(w, k, elements[i]), k, elements, i + 1, target)
  {
    AttachElementKeepsInv(w, k, elements[i]);
    ExtendsKeepsValid(w, AttachElement(w, k, elements[i]), elements);
  }

  // ---- Running a task ------------------------------------------------------------------------

  /** The reaction's child promise gets the handler's outcome. */
  ghost function Finish(w: World, downstream: Option<nat>, outcome: Outcome): World
    requires DownstreamOk(w, downstream) && FulfilledWithPlainValues(w)
    requires outcome.Ok? ==> Valid(w, outcome.value)
  {
    if downstream.None? then w
    else
      match outcome
      case Ok(v) => Resolve(w, downstream.value, v)
      case Err(message) => Reject(w, downstream.value, Text(message))
  }

  lemma FinishKeepsInv(w: World, downstream: Option<nat>, outcome: Outcome)
    requires Inv(w) && DownstreamOk(w, downstream) && (outcome.Ok? ==> Valid(w, outcome.value))
    ensures FulfilledWithPlainValues(w)
    ensures Inv(Finish(w, downstream, outcome)) && Extends(w, Finish(w, downstream, outcome))
  {
    CoreFulfilled(w);
    if downstream.Some? {
      match outcome
      case Ok(v) => ResolveKeepsInv(w, downstream.value, v);
      case Err(message) => RejectKeepsInv(w, downstream.value, Text(message));
    }
  }

  lemma NextTask(w: World)
    requires Inv(w) && w.done < |w.log| && w.log[w.done].PromiseReaction?
    ensures
      var t := w.log[w.done];
      && Valid(w, t.argument) && DownstreamOk(w, t.downstream) && HandlerOk(w, t.handler)
      && Inv(w) && FulfilledWithPlainValues(w)
  {
    var t := w.log[w.done];
    assert TaskOk(w, t) && RegistrationOk(w, w.registrations[t.tag]) && PromiseOk(w, t.source);
    CoreFulfilled(w);
  }

  /** A built-in closure, called with the reaction's argument; it returns undefined. */
  ghost function RunClosure(w: World): World
    requires Inv(w) && w.done < |w.log|
    requires w.log[w.done].PromiseReaction? && w.log[w.done].handler.Some? && !w.log[w.done].handler.value.Script?
  {
    var t := w.log[w.done];
    NextTask(w);
    assert TaskOk(w, t);
    match t.handler.value
    case ResolveTo(p) => TakeKeepsCore(w); CoreFulfilled(Take(w)); Resolve(Take(w), p, t.argument)
    case RejectTo(p) => Reject(Take(w), p, t.argument)
    case AllResolve(k, i) =>
      NextFiresIff(w, k, i);
      FiringHasRemaining(w, k, i);
      FireResolve(Take(w), k, i, t.argument)
    case AllReject(k) =>
      RejectionExtends(w, k);
      AfterRejection(w, k)
  }

  lemma RunClosureKeepsInv(w: World)
    requires Inv(w) && w.done < |w.log|
    requires w.log[w.done].PromiseReaction? && w.log[w.done].handler.Some? && !w.log[w.done].handler.value.Script?
    ensures Inv(RunClosure(w)) && Extends(w, RunClosure(w))
  {
    var t := w.log[w.done];
    NextTask(w);
    match t.handler.value
    case ResolveTo(p) =>
      TakeKeepsInv(w);
      ResolveKeepsInv(Take(w), p, t.argument);
      ExtendsTransitive(w, Take(w), RunClosure(w));
    case RejectTo(p) =>
      TakeKeepsInv(w);
      RejectKeepsInv(Take(w), p, t.argument);
      ExtendsTransitive(w, Take(w), RunClosure(w));
    case AllResolve(k, i) =>
      NextFiresIff(w, k, i);
      FireKeepsInv(w, k, i);
    case AllReject(k) =>
      RejectAllKeepsInv(w, k);
  }

  ghost function Call(w: World, downstream: Option<nat>): World {
    w.(running := w.running + [downstream])
  }

  lemma CallKeepsInv(w: World, downstream: Option<nat>)
    requires Inv(w) && DownstreamOk(w, downstream)
    ensures Inv(Call(w, downstream)) && Extends(w, Call(w, downstream))
  {
    RunningIsImmaterial(w, w.running + [downstream]);
  }

  lemma RunningIsImmaterial(w: World, running: seq<Option<nat>>)
    requires Inv(w) && forall i :: 0 <= i < |running| ==> DownstreamOk(w, running[i])
    ensures Inv(w.(running := running)) && Extends(w, w.(running := running))
  {
    var w' := w.(running := running);
    ExtendsKeepsOld(w, w');
    forall i | 0 <= i < |running| ensures DownstreamOk(w', running[i]) {
      ExtendsKeepsHandlers(w, w', None, running[i]);
    }
    forall p | 0 <= p < |w'.promises| ensures PromiseOk(w', p) && Ledger(w', p) {
      assert Ledger(w, p);
    }
    QuietKeepsAlls(w, w');
  }

  /** Takes the next task and runs it, up to the point where it enters script. */
  ghost function Begin(w: World): World
    requires Inv(w) && w.done < |w.log|
  {
    var t := w.log[w.done];
    match t
    case Callable(_) => Call(Take(w), None)
    case PromiseReaction(_, _, handler, argument, downstream, isRejection) =>
      NextTask(w);
      if handler.None? then
        TakeKeepsInv(w);
        CoreFulfilled(Take(w));
        if downstream.None? then Take(w)
        else if isRejection then Reject(Take(w), downstream.value, argument)
        else Resolve(Take(w), downstream.value, argument)
      else if handler.value.Script? then Call(Take(w), downstream)
      else
        RunClosureKeepsInv(w);
        ExtendsKeepsHandlers(w, RunClosure(w), None, downstream);
        CoreFulfilled(RunClosure(w));
        Finish(RunClosure(w), downstream, Ok(Undefined))
  }

  lemma BeginKeepsInv(w: World)
    requires Inv(w) && w.done < |w.log|
    ensures Inv(Begin(w)) && Extends(w, Begin(w))
  {
    var t := w.log[w.done];
    match t
    case Callable(_) =>
      TakeKeepsInv(w);
      CallKeepsInv(Take(w), None);
      ExtendsTransitive(w, Take(w), Begin(w));
    case PromiseReaction(_, _, handler, argument, downstream, isRejection) =>
      NextTask(w);
      if handler.None? || handler.value.Script? {
        TakeKeepsInv(w);
        ExtendsKeepsHandlers(w, Take(w), None, downstream);
        if handler.Some? {
          CallKeepsInv(Take(w), downstream);
        } else if downstream.Some? {
          if isRejection {
            RejectKeepsInv(Take(w), downstream.value, argument);
          } else {
            ResolveKeepsInv(Take(w), downstream.value, argument);
          }
        }
        ExtendsTransitive(w, Take(w), Begin(w));
      } else {
        RunClosureKeepsInv(w);
        ExtendsKeepsHandlers(w, RunClosure(w), None, downstream);
        FinishKeepsInv(RunClosure(w), downstream, Ok(Undefined));
        ExtendsTransitive(w, RunClosure(w), Begin(w));
      }
  }

  /** The innermost script call returns or throws. */
  ghost function End(w: World, outcome: Outcome): World
    requires Inv(w) && |w.running| > 0 && (outcome.Ok? ==> Valid(w, outcome.value))
  {
    var last := |w.running| - 1;
    RunningIsImmaterial(w, w.running[..last]);
    CoreFulfilled(w.(running := w.running[..last]));
    Finish(w.(running := w.running[..last]), w.running[last], outcome)
  }

  lemma EndKeepsInv(w: World, outcome: Outcome)
    requires Inv(w) && |w.running| > 0 && (outcome.Ok? ==> Valid(w, outcome.value))
    ensures Inv(End(w, outcome)) && Extends(w, End(w, outcome))
  {
    var last := |w.running| - 1;
    RunningIsImmaterial(w, w.running[..last]);
    FinishKeepsInv(w.(running := w.running[..last]), w.running[last], outcome);
    ExtendsTransitive(w, w.(running := w.running[..last]), End(w, outcome));
  }

  lemma {:induction false} ResolveKeepsRunning(w: World, p: nat, v: Value)
    requires IsPromise(w, p) && Valid(w, v) && FulfilledWithPlainValues(w) && Core(w)
    ensures Resolve(w, p, v).running == w.running
    decreases if v.PromiseRef? then 1 else 0
  {
    if v.PromiseRef? && v.promise != p && w.promises[v.promise].state == Fulfilled {
      assert PromiseOk(w, v.promise);
      ResolveKeepsRunning(w, p, w.promises[v.promise].result);
    }
  }

  /** Only entering and leaving script changes the script calls in progress. */
  lemma BeginKeepsRunning(w: World)
    requires Inv(w) && w.done < |w.log|
    ensures
      var t := w.log[w.done];
      Begin(w).running ==
        if t.Callable? then w.running + [None]
        else if t.handler.Some? && t.handler.value.Script? then w.running + [t.downstream]
        else w.running
  {
    var t := w.log[w.done];
    if t.PromiseReaction? {
      NextTask(w);
      TakeKeepsCore(w);
      CoreFulfilled(Take(w));
      if t.handler.None? {
        if t.downstream.Some? && !t.isRejection {
          ResolveKeepsRunning(Take(w), t.downstream.value, t.argument);
        }
      } else if !t.handler.value.Script? {
        RunClosureKeepsInv(w);
        RunClosureKeepsRunning(w);
        ExtendsKeepsHandlers(w, RunClosure(w), None, t.downstream);
        CoreFulfilled(RunClosure(w));
        if t.downstream.Some? {
          ResolveKeepsRunning(RunClosure(w), t.downstream.value, Undefined);
        }
      }
    }
  }

  /** Beginning a task takes exactly that task. */
  lemma BeginTakesOne(w: World)
    requires Inv(w) && w.done < |w.log|
    ensures Begin(w).done == w.done + 1 && Begin(w).dropped == w.dropped
  {
    var t := w.log[w.done];
    if t.PromiseReaction? {
      NextTask(w);
      TakeKeepsCore(w);
      if t.handler.None? {
        if t.downstream.Some? && !t.isRejection {
          CoreFulfilled(Take(w));
          ResolveIsQuiet(Take(w), t.downstream.value, t.argument);
        }
      } else if !t.handler.value.Script? {
        RunClosureTakesOne(w);
        RunClosureKeepsInv(w);
        ExtendsKeepsHandlers(w, RunClosure(w), None, t.downstream);
        CoreFulfilled(RunClosure(w));
        if t.downstream.Some? {
          ResolveIsQuiet(RunClosure(w), t.downstream.value, Undefined);
        }
      }
    }
  }

  lemma RunClosureTakesOne(w: World)
    requires Inv(w) && w.done < |w.log|
    requires w.log[w.done].PromiseReaction? && w.log[w.done].handler.Some? && !w.log[w.done].handler.value.Script?
    ensures RunClosure(w).done == w.done + 1 && RunClosure(w).dropped == w.dropped
  {
    var t := w.log[w.done];
    NextTask(w);
    match t.handler.value
    case ResolveTo(p) =>
      TakeKeepsCore(w);
      CoreFulfilled(Take(w));
      ResolveIsQuiet(Take(w), p, t.argument);
    case RejectTo(p) =>
    case AllResolve(k, i) =>
      NextFiresIff(w, k, i);
      FiringHasRemaining(w, k, i);
    case AllReject(k) =>
      RejectionExtends(w, k);
  }

  lemma RunClosureKeepsRunning(w: World)
    requires Inv(w) && w.done < |w.log|
    requires w.log[w.done].PromiseReaction? && w.log[w.done].handler.Some? && !w.log[w.done].handler.value.Script?
    ensures RunClosure(w).running == w.running
  {
    var t := w.log[w.done];
    NextTask(w);
    match t.handler.value
    case ResolveTo(p) =>
      TakeKeepsCore(w);
      CoreFulfilled(Take(w));
      ResolveKeepsRunning(Take(w), p, t.argument);
    case RejectTo(p) =>
    case AllResolve(k, i) =>
      NextFiresIff(w, k, i);
      FiringHasRemaining(w, k, i);
    case AllReject(k) =>
      RejectionExtends(w, k);
  }

  // ---- Runs ----------------------------------------------------------------------------------

  datatype Event =
    | NewPromise
    | CallResolve(promise: nat, value: Value)
    | CallReject(promise: nat, value: Value)
    | CallThen(promise: nat, onFulfilled: Option<nat>, onRejected: Option<nat>)
    | QueueMicrotask(function_: nat)
    | StartAll(elements: seq<Value>)
    | BeginTask
    | EndTask(outcome: Outcome)
    | DropTask  // taken after the iteration limit: not executed

  /** What script can do: it settles only promises whose resolving functions it holds. */
  ghost predicate Enabled(w: World, e: Event) {
    match e
    case NewPromise => true
    case CallResolve(p, v) => IsPromise(w, p) && w.promises[p].role == Exposed && Valid(w, v)
    case CallReject(p, v) => IsPromise(w, p) && w.promises[p].role == Exposed && Valid(w, v)
    case CallThen(p, _, _) => IsPromise(w, p)
    case QueueMicrotask(_) => true
    case StartAll(elements) => AllValid(w, elements)
    case BeginTask => w.done < |w.log|
    case EndTask(outcome) => |w.running| > 0 && (outcome.Ok? ==> Valid(w, outcome.value))
    case DropTask => w.done < |w.log|
  }

  function ScriptHandler(f: Option<nat>): Option<Handler> {
    if f.Some? then Some(Script(f.value)) else None
  }

  function Enqueue(w: World, t: Task): World {
    w.(log := w.log + [t])
  }

  ghost function Step(w: World, e: Event): World
    requires Inv(w) && Enabled(w, e)
  {
    CoreFulfilled(w);
    match e
    case NewPromise => Append(w, Exposed)
    case CallResolve(p, v) => Resolve(w, p, v)
    case CallReject(p, v) => Reject(w, p, v)
    case CallThen(p, f, r) => Then(w, p, ScriptHandler(f), ScriptHandler(r))
    case QueueMicrotask(f) => Enqueue(w, Callable(f))
    case StartAll(elements) => CallAll(w, elements)
    case BeginTask => Begin(w)
    case EndTask(outcome) => End(w, outcome)
    case DropTask => Drop(w)
  }

  function Drop(w: World): World {
    w.(done := w.done + 1, dropped := w.dropped + {w.done})
  }

  lemma EnqueueKeepsInv(w: World, f: nat)
    requires Inv(w)
    ensures Inv(Enqueue(w, Callable(f))) && Extends(w, Enqueue(w, Callable(f)))
  {
    var w' := Enqueue(w, Callable(f));
    ExtendsKeepsOld(w, w');
    forall p | 0 <= p < |w'.promises| ensures PromiseOk(w', p) && Ledger(w', p) {
      assert Ledger(w, p);
      assert w'.log[..|w.log|] == w.log;
    }
    QuietKeepsAlls(w, w');
  }

  lemma DropKeepsInv(w: World)
    requires Inv(w) && w.done < |w.log|
    ensures Inv(Drop(w)) && Extends(w, Drop(w))
  {
    var w' := Drop(w);
    ExtendsKeepsOld(w, w');
    forall p | 0 <= p < |w'.promises| ensures PromiseOk(w', p) && Ledger(w', p) {
      assert Ledger(w, p);
    }
    forall k | 0 <= k < |w'.alls| ensures AllOk(w', k) {
      DropKeepsAll(w, k);
    }
    forall t | 0 <= t < |w'.registrations| ensures ClosuresOk(w', t) {
      assert ClosuresOk(w, t);
    }
  }

  lemma DropFires(w: World, k: nat, i: nat)
    requires w.done < |w.log| && k < |w.alls| && w.done !in w.dropped
    ensures Fired(Drop(w), k, i) <==> Fired(w, k, i)
  {
    var w' := Drop(w);
    if Fired(w, k, i) {
      var j: nat :| Executed(w, j) && w.log[j].tag == w.alls[k].tags[i] && !w.log[j].isRejection;
      assert Executed(w', j);
    }
    if Fired(w', k, i) {
      var j: nat :| Executed(w', j) && w'.log[j].tag == w'.alls[k].tags[i] && !w'.log[j].isRejection;
      assert Executed(w, j);
    }
  }

  lemma {:induction false} DropUnfired(w: World, k: nat, n: nat)
    requires w.done < |w.log| && k < |w.alls| && w.done !in w.dropped
    ensures Unfired(Drop(w), k, n) == Unfired(w, k, n)
  {
    if n > 0 {
      DropUnfired(w, k, n - 1);
      DropFires(w, k, n - 1);
    }
  }

  lemma {:induction false} DropRejections(w: World, k: nat, n: nat)
    requires n <= w.done < |w.log|
    ensures FirstRejection(Drop(w), k, n) == FirstRejection(w, k, n)
  {
    if n > 0 { DropRejections(w, k, n - 1); }
  }

  lemma DropKeepsAll(w: World, k: nat)
    requires AllsOk(w) && w.done < |w.log| && k < |w.alls|
    ensures AllOk(Drop(w), k)
  {
    var w', all := Drop(w), w.alls[k];
    assert AllOk(w, k);
    forall i | 0 <= i < |all.results| ensures EntryOk(w', k, i) {
      assert EntryOk(w, k, i);
      DropFires(w, k, i);
    }
    forall i | 0 <= i < |all.tags| ensures ElementRegistration(w', k, i, all.tags[i]) {
      assert ElementRegistration(w, k, i, all.tags[i]);
    }
    DropUnfired(w, k, |all.results|);
    DropRejections(w, k, w.done);
    assert FirstRejection(w', k, w'.done) == FirstRejection(w', k, w.done);
  }

  /** Every step keeps the invariant, and leaves settled promises as they are. */
  lemma StepKeepsInv(w: World, e: Event)
    requires Inv(w) && Enabled(w, e)
    ensures Inv(Step(w, e)) && Extends(w, Step(w, e))
  {
    CoreFulfilled(w);
    match e
    case NewPromise => AppendKeepsInv(w, Exposed);
    case CallResolve(p, v) => ResolveKeepsInv(w, p, v);
    case CallReject(p, v) => RejectKeepsInv(w, p, v);
    case CallThen(p, f, r) => ThenKeepsInv(w, p, ScriptHandler(f), ScriptHandler(r));
    case QueueMicrotask(f) => EnqueueKeepsInv(w, f);
    case StartAll(elements) => CallAllKeepsInv(w, elements);
    case BeginTask => BeginKeepsInv(w);
    case EndTask(outcome) => EndKeepsInv(w, outcome);
    case DropTask => DropKeepsInv(w);
  }

  /** A run from `w`: events that are not enabled do nothing. */
  ghost function Run(w: World, events: seq<Event>): (r: World)
    requires Inv(w)
    ensures Inv(r)
    decreases |events|
  {
    if events == [] then w
    else if !Enabled(w, events[0]) then Run(w, events[1..])
    else
      StepKeepsInv(w, events[0]);
      Run(Step(w, events[0]), events[1..])
  }

  /** What script does, other than returning, leaves the script calls in progress as they are. */
  lemma PerformKeepsRunning(w: World, e: Event)
    requires Inv(w) && Enabled(w, e) && !e.BeginTask? && !e.EndTask? && !e.DropTask?
    ensures Step(w, e).running == w.running
  {
    CoreFulfilled(w);
    match e
    case CallResolve(p, v) => ResolveKeepsRunning(w, p, v);
    case StartAll(elements) => CallAllKeepsRunning(w, elements);
    case _ =>
  }

  lemma CallAllKeepsRunning(w: World, elements: seq<Value>)
    requires Inv(w) && AllValid(w, elements)
    ensures CallAll(w, elements).running == w.running
  {
    BeginAllKeepsInv(w, |elements|);
    ExtendsKeepsValid(w, BeginAll(w, |elements|), elements);
    if elements != [] { AttachFromKeepsRunning(BeginAll(w, |elements|), |w.alls|, elements, 0); }
  }

  lemma {:induction false} AttachFromKeepsRunning(w: World, k: nat, elements: seq<Value>, i: nat)
    requires Inv(w) && k < |w.alls| && i <= |elements| && AllValid(w, elements)
    requires |w.alls[k].tags| == i && |w.alls[k].results| == |elements|
    ensures AttachFrom(w, k, elements, i).running == w.running
    decreases |elements| - i
  {
    if i < |elements| {
      AttachElementKeepsInv(w, k, elements[i]);
      var next := AttachElement(w, k, elements[i]);
      ExtendsKeepsValid(w, next, elements);
      AttachFromKeepsRunning(next, k, elements, i + 1);
    }
  }

  lemma {:induction false} RunAppend(w: World, first: seq<Event>, second: seq<Event>)
    requires Inv(w)
    ensures Run(w, first + second) == Run(Run(w, first), second)
    decreases |first|
  {
    if first == [] {
      assert first + second == second;
    } else {
      assert (first + second)[1..] == first[1..] + second;
      if Enabled(w, first[0]) {
        StepKeepsInv(w, first[0]);
        RunAppend(Step(w, first[0]), first[1..], second);
      } else {
        RunAppend(w, first[1..], second);
      }
    }
  }

  lemma RunOne(w: World, events: seq<Event>, e: Event)
    requires Inv(w) && Enabled(Run(w, events), e)
    ensures Run(w, events + [e]) == Step(Run(w, events), e)
  {
    RunAppend(w, events, [e]);
    StepKeepsInv(Run(w, events), e);
  }

  lemma InitialInv()
    ensures Inv(INITIAL)
  {
  }

  /** Over every run, what was settled stays settled with the same result, and the tasks taken and
      enqueued so far stay as they are. */
  lemma {:induction false} RunsOnlyExtend(w: World, events: seq<Event>)
    requires Inv(w)
    ensures Extends(w, Run(w, events))
    decreases |events|
  {
    if events != [] {
      if Enabled(w, events[0]) {
        StepKeepsInv(w, events[0]);
        RunsOnlyExtend(Step(w, events[0]), events[1..]);
        ExtendsTransitive(w, Step(w, events[0]), Run(w, events));
      } else {
        RunsOnlyExtend(w, events[1..]);
      }
    }
  }
}
