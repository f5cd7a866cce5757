module PromiseElements {
  // The promise of `Promise.all` and the array it was called with, over every run.

  import opened Options
  import opened PromiseWorld
  import opened PromiseSafety
  import opened PromiseOrder
  import opened PromiseAll
  import opened PromiseMachine

  // ---- Which promise stands for an element --------------------------------------------------

  /** The promise whose outcome decides element `i` of call `k`. */
  ghost predicate StandsOn(w: World, k: nat, i: nat, p: nat) {
    && k < |w.alls| && i < |w.alls[k].tags| && ElementRegistration(w, k, i, w.alls[k].tags[i])
    && IsPromise(w, p) && w.registrations[w.alls[k].tags[i]].promise == p
  }

  /** It is the element itself, or a promise fulfilled with the element. */
  ghost predicate Represents(w: World, p: nat, element: Value) {
    if element.PromiseRef? then p == element.promise
    else IsPromise(w, p) && w.promises[p].state == Fulfilled && w.promises[p].result == element
  }

  ghost predicate Stands(w: World, k: nat, i: nat, element: Value) {
    exists p: nat :: StandsOn(w, k, i, p) && Represents(w, p, element)
  }

  lemma ExtendsKeepsStands(w: World, w': World, k: nat, i: nat, element: Value)
    requires Extends(w, w') && Stands(w, k, i, element)
    ensures Stands(w', k, i, element)
  {
    var p: nat :| StandsOn(w, k, i, p) && Represents(w, p, element);
    assert PromiseStep(w.promises[p], w'.promises[p]);
    assert w'.alls[k].tags[i] == w.alls[k].tags[i];
    assert StandsOn(w', k, i, p) && Represents(w', p, element);
  }

  /** A new promise resolved with a plain element is fulfilled with it. */
  lemma ItemRepresents(w: World, element: Value)
    requires Inv(w) && Valid(w, element)
    ensures FulfilledWithPlainValues(w)
    ensures Represents(ItemPromise(w, element).0, ItemPromise(w, element).1, element)
  {
    CoreFulfilled(w);
  }

  /** Attaching gives the next index to the element it attaches. */
  lemma AttachElementStands(w: World, k: nat, element: Value)
    requires Inv(w) && HasRoom(w, k) && Valid(w, element)
    ensures FulfilledWithPlainValues(w)
    ensures Stands(AttachElement(w, k, element), k, |w.alls[k].tags|, element)
  {
    ItemPromiseKeepsInv(w, element);
    ItemRepresents(w, element);
    var (w', item) := ItemPromise(w, element);
    AttachedKeepsCore(w', k, item);
    var after := Attached(w', k, item);
    assert AttachElement(w, k, element) == after;
    assert SameOutcome(w'.promises[item], after.promises[item]);
    assert StandsOn(after, k, |w.alls[k].tags|, item) && Represents(after, item, element);
  }

  /** Each element attached from index `i` on stands at its own index. */
  lemma {:induction false} AttachFromStands(w: World, k: nat, elements: seq<Value>, i: nat, j: nat)
    requires Inv(w) && k < |w.alls| && i <= j < |elements| && AllValid(w, elements)
    requires |w.alls[k].tags| == i && |w.alls[k].results| == |elements|
    ensures Stands(AttachFrom(w, k, elements, i), k, j, elements[j])
    decreases |elements| - i
  {
    AttachElementKeepsInv(w, k, elements[i]);
    var next := AttachElement(w, k, elements[i]);
    ExtendsKeepsValid(w, next, elements);
    if i == j {
      AttachElementStands(w, k, elements[i]);
      AttachFromKeepsInv(next, k, elements, i + 1);
      ExtendsKeepsStands(next, AttachFrom(next, k, elements, i + 1), k, i, elements[i]);
    } else {
      AttachFromStands(next, k, elements, i + 1, j);
    }
  }

  /** The call made in `start` on this array, in a later state. */
  ghost predicate CallOn(start: World, elements: seq<Value>, w: World) {
    var k := |start.alls|;
    && k < |w.alls| && w.alls[k].child == |start.promises|
    && |w.alls[k].results| == |elements| == |w.alls[k].tags|
    && (forall i :: 0 <= i < |elements| ==> Stands(w, k, i, elements[i]))
  }

  lemma CallAllIsOn(start: World, elements: seq<Value>)
    requires Inv(start) && AllValid(start, elements) && elements != []
    ensures Inv(CallAll(start, elements)) && CallOn(start, elements, CallAll(start, elements))
  {
    CallAllKeepsInv(start, elements);
    BeginAllKeepsInv(start, |elements|);
    var begun, k := BeginAll(start, |elements|), |start.alls|;
    ExtendsKeepsValid(start, begun, elements);
    AttachFromKeepsInv(begun, k, elements, 0);
    forall i | 0 <= i < |elements| ensures Stands(CallAll(start, elements), k, i, elements[i]) {
      AttachFromStands(begun, k, elements, 0, i);
    }
  }

  lemma CallStaysOn(start: World, elements: seq<Value>, w: World, later: seq<Event>)
    requires Inv(w) && CallOn(start, elements, w)
    ensures CallOn(start, elements, Run(w, later))
  {
    RunsOnlyExtend(w, later);
    assert AllOk(Run(w, later), |start.alls|);
    forall i | 0 <= i < |elements| ensures Stands(Run(w, later), |start.alls|, i, elements[i]) {
      ExtendsKeepsStands(w, Run(w, later), |start.alls|, i, elements[i]);
    }
  }

  // ---- The outcome in terms of the array ----------------------------------------------------

  /** The element is a plain value, or a promise that is fulfilled; either way with this value. */
  ghost predicate FulfilledWith(w: World, element: Value, v: Value) {
    if element.PromiseRef? then
      IsPromise(w, element.promise) && w.promises[element.promise].state == Fulfilled
      && w.promises[element.promise].result == v
    else v == element
  }

  ghost predicate RejectedWith(w: World, element: Value, reason: Value) {
    && element.PromiseRef? && IsPromise(w, element.promise) && w.promises[element.promise].state == Rejected
    && w.promises[element.promise].result == reason
  }

  /** Entry `i` of the results, once its closure has run, is the value of element `i`. */
  lemma EntryIsElement(w: World, k: nat, i: nat, element: Value)
    requires k < |w.alls| && i < |w.alls[k].results| && EntryOk(w, k, i) && Fired(w, k, i) && Stands(w, k, i, element)
    ensures FulfilledWith(w, element, w.alls[k].results[i])
  {
  }

  /** The reason a rejected child carries is that of one of the elements. */
  lemma RejectionIsOfAnElement(start: World, elements: seq<Value>, w: World) returns (i: nat)
    requires Inv(w) && CallOn(start, elements, w) && FirstRejection(w, |start.alls|, w.done).Some?
    ensures i < |elements| && RejectedWith(w, elements[i], FirstRejection(w, |start.alls|, w.done).value)
  {
    var k := |start.alls|;
    var j := RejectionHasTask(w, k, w.done);
    assert TaskOk(w, w.log[j]);
    var t := w.log[j].tag;
    assert ClosuresOk(w, t);
    i := w.registrations[t].onFulfilled.value.index;
    assert Stands(w, k, i, elements[i]);
  }

  /** The child of one call, in one state, told by the array alone. */
  ghost predicate ChildFollows(w: World, child: nat, elements: seq<Value>) {
    && IsPromise(w, child)
    && (w.promises[child].state == Fulfilled ==>
          && w.promises[child].result.ArrayOf? && |w.promises[child].result.items| == |elements|
          && forall i :: 0 <= i < |elements| ==> FulfilledWith(w, elements[i], w.promises[child].result.items[i]))
    && (w.promises[child].state == Rejected ==>
          exists i :: 0 <= i < |elements| && RejectedWith(w, elements[i], w.promises[child].result))
  }

  lemma OutcomeFollows(start: World, elements: seq<Value>, w: World)
    requires Inv(w) && CallOn(start, elements, w)
    ensures ChildFollows(w, |start.promises|, elements)
  {
    var k := |start.alls|;
    var all := w.alls[k];
    assert AllOk(w, k) && ChildOk(w, k);
    if all.remaining == 0 {
      forall i | 0 <= i < |elements| ensures FulfilledWith(w, elements[i], all.results[i]) {
        AllFired(w, k, |all.results|, i);
        assert EntryOk(w, k, i) && Stands(w, k, i, elements[i]);
        EntryIsElement(w, k, i, elements[i]);
      }
    } else if FirstRejection(w, k, w.done).Some? {
      var i := RejectionIsOfAnElement(start, elements, w);
    }
  }

  /** The empty array fulfils the child at once. */
  lemma EmptyFollows(start: World, later: seq<Event>)
    requires Inv(start)
    ensures Inv(CallAll(start, []))
    ensures IsPromise(Run(CallAll(start, []), later), |start.promises|)
    ensures Run(CallAll(start, []), later).promises[|start.promises|].state == Fulfilled
    ensures Run(CallAll(start, []), later).promises[|start.promises|].result == ArrayOf([])
  {
    BeginAllKeepsInv(start, 0);
    var called := CallAll(start, []);
    RunsOnlyExtend(called, later);
    assert PromiseStep(called.promises[|start.promises|], Run(called, later).promises[|start.promises|]);
  }

  /** Over all runs: in every state after `Promise.all` was called on an array, a fulfilled child holds
      as many values as the array, each the value of the element at its own index; a rejected one has
      the reason of one of the elements. */
  lemma AllFollowsTheArray(before: seq<Event>, elements: seq<Value>, later: seq<Event>)
    ensures Inv(INITIAL)
    ensures
      var start := Run(INITIAL, before);
      AllValid(start, elements) ==>
      && Inv(CallAll(start, elements))
      && ChildFollows(Run(CallAll(start, elements), later), |start.promises|, elements)
  {
    InitialInv();
    var start := Run(INITIAL, before);
    if elements == [] {
      EmptyFollows(start, later);
    } else if AllValid(start, elements) {
      CallAllIsOn(start, elements);
      CallStaysOn(start, elements, CallAll(start, elements), later);
      OutcomeFollows(start, elements, Run(CallAll(start, elements), later));
    }
  }

  // ---- Once the queue has drained -----------------------------------------------------------

  lemma SettledElementHasRun(w: World, k: nat, i: nat, p: nat) returns (j: nat)
    requires Inv(w) && Queue(w) == [] && w.dropped == {} && StandsOn(w, k, i, p) && w.promises[p].state != Pending
    ensures Executed(w, j) && w.log[j].tag == w.alls[k].tags[i]
    ensures w.log[j].isRejection == (w.promises[p].state == Rejected)
    ensures w.promises[p].state == Rejected ==> w.log[j].handler == Some(AllReject(k))
  {
    j := ExecutedExactlyOnce(w, w.alls[k].tags[i]);
  }

  lemma {:induction false} RejectionIsFound(w: World, k: nat, j: nat, n: nat)
    requires j < n <= |w.log| && Executed(w, j) && w.log[j].handler == Some(AllReject(k))
    ensures FirstRejection(w, k, n).Some?
  {
    if j < n - 1 { RejectionIsFound(w, k, j, n - 1); }
  }

  ghost predicate IsFulfilled(w: World, element: Value) {
    element.PromiseRef? ==> IsPromise(w, element.promise) && w.promises[element.promise].state == Fulfilled
  }

  ghost predicate IsRejected(w: World, element: Value) {
    element.PromiseRef? && IsPromise(w, element.promise) && w.promises[element.promise].state == Rejected
  }

  lemma FulfilledElementHasFired(w: World, k: nat, i: nat, element: Value)
    requires Inv(w) && Queue(w) == [] && w.dropped == {} && Stands(w, k, i, element) && IsFulfilled(w, element)
    ensures Fired(w, k, i)
  {
    var p: nat :| StandsOn(w, k, i, p) && Represents(w, p, element);
    var j := SettledElementHasRun(w, k, i, p);
  }

  lemma {:induction false} NoneUnfired(w: World, k: nat, n: nat)
    requires k < |w.alls| && forall i: nat :: i < n ==> Fired(w, k, i)
    ensures Unfired(w, k, n) == 0
  {
    if n > 0 { NoneUnfired(w, k, n - 1); }
  }

  ghost predicate AllFulfilled(w: World, elements: seq<Value>) {
    forall i :: 0 <= i < |elements| ==> IsFulfilled(w, elements[i])
  }

  ghost predicate SomeRejected(w: World, elements: seq<Value>) {
    exists i :: 0 <= i < |elements| && IsRejected(w, elements[i])
  }

  lemma DrainedFulfils(start: World, elements: seq<Value>, w: World)
    requires Inv(w) && CallOn(start, elements, w) && Queue(w) == [] && w.dropped == {} && AllFulfilled(w, elements)
    ensures IsPromise(w, |start.promises|) && w.promises[|start.promises|].state == Fulfilled
  {
    var k := |start.alls|;
    forall i: nat | i < |elements| ensures Fired(w, k, i) {
      assert Stands(w, k, i, elements[i]);
      FulfilledElementHasFired(w, k, i, elements[i]);
    }
    NoneUnfired(w, k, |elements|);
    assert AllOk(w, k) && ChildOk(w, k);
  }

  lemma DrainedRejects(start: World, elements: seq<Value>, w: World)
    requires Inv(w) && CallOn(start, elements, w) && Queue(w) == [] && w.dropped == {} && SomeRejected(w, elements)
    ensures IsPromise(w, |start.promises|) && w.promises[|start.promises|].state == Rejected
  {
    var k := |start.alls|;
    var i :| 0 <= i < |elements| && IsRejected(w, elements[i]);
    assert Stands(w, k, i, elements[i]);
    var p: nat :| StandsOn(w, k, i, p) && Represents(w, p, elements[i]);
    var j := SettledElementHasRun(w, k, i, p);
    RejectionIsFound(w, k, j, w.done);
    assert AllOk(w, k) && ChildOk(w, k);
    if w.alls[k].remaining == 0 { AllFiredMeansNoRejection(w, k, w.done); }
  }

  lemma DrainedIff(start: World, elements: seq<Value>, w: World)
    requires Inv(w) && CallOn(start, elements, w) && Queue(w) == [] && w.dropped == {}
    ensures IsPromise(w, |start.promises|)
    ensures w.promises[|start.promises|].state == Fulfilled <==> AllFulfilled(w, elements)
    ensures w.promises[|start.promises|].state == Rejected <==> SomeRejected(w, elements)
  {
    OutcomeFollows(start, elements, w);
    var child := w.promises[|start.promises|];
    if AllFulfilled(w, elements) { DrainedFulfils(start, elements, w); }
    if SomeRejected(w, elements) { DrainedRejects(start, elements, w); }
    if child.state == Fulfilled {
      forall i | 0 <= i < |elements| ensures IsFulfilled(w, elements[i]) {
        assert FulfilledWith(w, elements[i], child.result.items[i]);
      }
    }
    if child.state == Rejected {
      var i :| 0 <= i < |elements| && RejectedWith(w, elements[i], child.result);
      assert IsRejected(w, elements[i]);
    }
  }

  /** Over all runs that never hit the iteration limit: once the queue is empty, the child is fulfilled
      exactly if every promise in the array is, and rejected exactly if some is. */
  lemma DrainedAllDecides(before: seq<Event>, elements: seq<Value>, later: seq<Event>)
    ensures Inv(INITIAL)
    ensures
      var start := Run(INITIAL, before);
      AllValid(start, elements) ==>
      && Inv(CallAll(start, elements))
      && var w := Run(CallAll(start, elements), later);
         Queue(w) == [] && w.dropped == {} ==>
           && IsPromise(w, |start.promises|)
           && (w.promises[|start.promises|].state == Fulfilled <==> AllFulfilled(w, elements))
           && (w.promises[|start.promises|].state == Rejected <==> SomeRejected(w, elements))
  {
    AllFollowsTheArray(before, elements, later);
    var start := Run(INITIAL, before);
    if AllValid(start, elements) {
      var w := Run(CallAll(start, elements), later);
      if Queue(w) == [] && w.dropped == {} && elements != [] {
        CallAllIsOn(start, elements);
        CallStaysOn(start, elements, CallAll(start, elements), later);
        DrainedIff(start, elements, w);
      }
      if elements == [] { EmptyFollows(start, later); }
    }
  }
}
