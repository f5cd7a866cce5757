/** `Promise.all` (src/builtins/promise.rs).

    How the result array, the counter and the child promise follow the element handlers that have
    run. An element has fired if the reaction with its closure has been executed; the counter is the
    number of elements that have not. Operations that touch neither the calls nor the executed part of
    the log are quiet: they keep the invariant of every call. Taking a task fires at most one
    element. */
module PromiseAll {
  import opened Options
  import opened PromiseWorld
  import opened PromiseSafety
  import opened PromiseOrder

  // ---- The invariant ------------------------------------------------------------------------

  ghost predicate Executed(w: World, j: nat) {
    j < w.done && j < |w.log| && j !in w.dropped && w.log[j].PromiseReaction?
  }

  /** The fulfilment handler of element `i` has run. */
  ghost predicate Fired(w: World, k: nat, i: nat)
    requires k < |w.alls|
  {
    i < |w.alls[k].tags|
    && exists j: nat :: Executed(w, j) && w.log[j].tag == w.alls[k].tags[i] && !w.log[j].isRejection
  }

  /** How many of the first `n` elements have not fulfilled yet. */
  ghost function Unfired(w: World, k: nat, n: nat): nat
    requires k < |w.alls|
  {
    if n == 0 then 0 else Unfired(w, k, n - 1) + (if Fired(w, k, n - 1) then 0 else 1)
  }

  /** The first reason a rejection handler of this call was run with, among the first `n` tasks. */
  ghost function FirstRejection(w: World, k: nat, n: nat): Option<Value>
    requires n <= |w.log|
  {
    if n == 0 then None
    else
      var earlier := FirstRejection(w, k, n - 1);
      if earlier.Some? then earlier
      else if Executed(w, n - 1) && w.log[n - 1].handler == Some(AllReject(k)) then Some(w.log[n - 1].argument)
      else None
  }

  /** The registration `t` is the one on element `i` of call `k`. */
  ghost predicate ElementRegistration(w: World, k: nat, i: nat, t: nat) {
    && t < |w.registrations|
    && w.registrations[t].onFulfilled == Some(AllResolve(k, i))
    && w.registrations[t].onRejected == Some(AllReject(k))
  }

  /** Entry `i` of the results is the value of element `i` once that has fulfilled. */
  ghost predicate EntryOk(w: World, k: nat, i: nat)
    requires k < |w.alls| && i < |w.alls[k].results|
  {
    var all := w.alls[k];
    if Fired(w, k, i) then
      && all.tags[i] < |w.registrations|
      && IsPromise(w, w.registrations[all.tags[i]].promise)
      && w.promises[w.registrations[all.tags[i]].promise].state == Fulfilled
      && all.results[i] == w.promises[w.registrations[all.tags[i]].promise].result
    else all.results[i] == Undefined
  }

  /** The child: fulfilled with all results when every element has, else rejected with the first
      reason, else pending. */
  ghost predicate ChildOk(w: World, k: nat)
    requires k < |w.alls| && w.done <= |w.log| && IsPromise(w, w.alls[k].child)
  {
    var all, child := w.alls[k], w.promises[w.alls[k].child];
    var reason := FirstRejection(w, k, w.done);
    if all.remaining == 0 then child.state == Fulfilled && child.result == ArrayOf(all.results)
    else if reason.Some? then child.state == Rejected && child.result == reason.value
    else child.state == Pending
  }

  ghost predicate AllShape(w: World, k: nat)
    requires k < |w.alls|
  {
    var all := w.alls[k];
    && IsPromise(w, all.child) && w.promises[all.child].role == AllResult(k)
    && |all.tags| <= |all.results| && 0 < |all.results|
    && (forall i :: 0 <= i < |all.tags| ==> ElementRegistration(w, k, i, all.tags[i]))
  }

  ghost predicate CountedOk(w: World, k: nat)
    requires k < |w.alls| && w.done <= |w.log|
  {
    var all := w.alls[k];
    && AllShape(w, k)
    && (forall i :: 0 <= i < |all.results| ==> EntryOk(w, k, i))
    && all.remaining == Unfired(w, k, |all.results|)
  }

  ghost predicate AllOk(w: World, k: nat)
    requires k < |w.alls| && w.done <= |w.log|
  {
    CountedOk(w, k) && ChildOk(w, k)
  }

  /** Only the calls of `Promise.all` use their closures, each for one element. */
  ghost predicate ClosuresOk(w: World, t: nat)
    requires t < |w.registrations|
  {
    var r := w.registrations[t];
    var f, g := r.onFulfilled, r.onRejected;
    && (f.Some? && f.value.AllResolve? ==>
          f.value.all < |w.alls| && f.value.index < |w.alls[f.value.all].tags|
          && w.alls[f.value.all].tags[f.value.index] == t)
    && (g.Some? && g.value.AllReject? ==> f.Some? && f.value.AllResolve? && f.value.all == g.value.all)
    && !(f.Some? && f.value.AllReject?)
    && !(g.Some? && g.value.AllResolve?)
  }

  ghost predicate AllsOk(w: World) {
    && w.done <= |w.log| && (forall j :: j in w.dropped ==> j < w.done)
    && (forall k :: 0 <= k < |w.alls| ==> AllOk(w, k))
    && (forall t :: 0 <= t < |w.registrations| ==> ClosuresOk(w, t))
  }

  ghost predicate Inv(w: World) {
    Core(w) && AllsOk(w)
  }

  // ---- Operations that run no closure of Promise.all -----------------------------------------

  /** A registration that does not belong to any call of `Promise.all`. */
  predicate Ordinary(r: Registration) {
    && (r.onFulfilled.Some? ==> !r.onFulfilled.value.AllResolve? && !r.onFulfilled.value.AllReject?)
    && (r.onRejected.Some? ==> !r.onRejected.value.AllResolve? && !r.onRejected.value.AllReject?)
  }

  ghost predicate SameOutcome(a: Promise, b: Promise) {
    a.state == b.state && a.result == b.result
  }

  /** `w'` continues `w` with no task taken and nothing done to any call of `Promise.all`. */
  ghost predicate Quiet(w: World, w': World) {
    && Extends(w, w')
    && w'.done == w.done && w'.dropped == w.dropped && w'.alls == w.alls
    && (forall p :: 0 <= p < |w.promises| && w.promises[p].role.AllResult? ==>
          SameOutcome(w.promises[p], w'.promises[p]))
    && (forall t :: |w.registrations| <= t < |w'.registrations| ==> Ordinary(w'.registrations[t]))
  }

  lemma QuietTransitive(a: World, b: World, c: World)
    requires Quiet(a, b) && Quiet(b, c)
    ensures Quiet(a, c)
  {
    ExtendsTransitive(a, b, c);
    forall p | 0 <= p < |a.promises| && a.promises[p].role.AllResult?
      ensures SameOutcome(a.promises[p], c.promises[p])
    {
      assert PromiseStep(a.promises[p], b.promises[p]);
      assert SameOutcome(a.promises[p], b.promises[p]) && SameOutcome(b.promises[p], c.promises[p]);
    }
  }

  /** Which handlers have run depends on the tasks taken, and on the tags. */
  ghost predicate SameHistory(w: World, w': World) {
    w'.done == w.done && w'.dropped == w.dropped && w.log <= w'.log && w.done <= |w.log|
  }

  lemma FiredAgrees(w: World, w': World, k: nat, i: nat)
    requires SameHistory(w, w') && k < |w.alls| && k < |w'.alls| && w'.alls[k].tags == w.alls[k].tags
    ensures Fired(w', k, i) <==> Fired(w, k, i)
  {
    forall j: nat ensures Executed(w', j) <==> Executed(w, j) {
    }
    forall j: nat | Executed(w, j) ensures w'.log[j] == w.log[j] {
    }
    if Fired(w, k, i) {
      var j: nat :| Executed(w, j) && w.log[j].tag == w.alls[k].tags[i] && !w.log[j].isRejection;
      assert Executed(w', j) && w'.log[j] == w.log[j];
    }
    if Fired(w', k, i) {
      var j: nat :| Executed(w', j) && w'.log[j].tag == w'.alls[k].tags[i] && !w'.log[j].isRejection;
      assert Executed(w, j) && w'.log[j] == w.log[j];
    }
  }

  lemma {:induction false} UnfiredAgrees(w: World, w': World, k: nat, n: nat)
    requires SameHistory(w, w') && k < |w.alls| && k < |w'.alls| && w'.alls[k].tags == w.alls[k].tags
    ensures Unfired(w', k, n) == Unfired(w, k, n)
  {
    if n > 0 {
      UnfiredAgrees(w, w', k, n - 1);
      FiredAgrees(w, w', k, n - 1);
    }
  }

  lemma {:induction false} RejectionAgrees(w: World, w': World, k: nat, n: nat)
    requires SameHistory(w, w') && n <= w.done
    ensures FirstRejection(w', k, n) == FirstRejection(w, k, n)
  {
    if n > 0 { RejectionAgrees(w, w', k, n - 1); }
  }

  lemma QuietKeepsEntry(w: World, w': World, k: nat, i: nat)
    requires SameHistory(w, w') && Extends(w, w') && k < |w.alls| && w'.alls[k] == w.alls[k]
    requires i < |w.alls[k].results| && EntryOk(w, k, i)
    ensures EntryOk(w', k, i)
  {
    FiredAgrees(w, w', k, i);
    if Fired(w, k, i) {
      var p := w.registrations[w.alls[k].tags[i]].promise;
      assert PromiseStep(w.promises[p], w'.promises[p]);
    }
  }

  lemma QuietKeepsCounted(w: World, w': World, k: nat)
    requires SameHistory(w, w') && Extends(w, w') && k < |w.alls| && w'.alls[k] == w.alls[k]
    requires CountedOk(w, k)
    ensures CountedOk(w', k)
  {
    var all := w.alls[k];
    assert PromiseStep(w.promises[all.child], w'.promises[all.child]);
    forall i | 0 <= i < |all.tags| ensures ElementRegistration(w', k, i, all.tags[i]) {
      assert ElementRegistration(w, k, i, all.tags[i]);
    }
    forall i | 0 <= i < |all.results| ensures EntryOk(w', k, i) {
      QuietKeepsEntry(w, w', k, i);
    }
    UnfiredAgrees(w, w', k, |all.results|);
  }

  lemma QuietKeepsAll(w: World, w': World, k: nat)
    requires SameHistory(w, w') && Extends(w, w') && k < |w.alls| && w'.alls[k] == w.alls[k]
    requires AllOk(w, k) && SameOutcome(w.promises[w.alls[k].child], w'.promises[w.alls[k].child])
    ensures AllOk(w', k)
  {
    QuietKeepsCounted(w, w', k);
    RejectionAgrees(w, w', k, w.done);
  }

  lemma QuietKeepsAlls(w: World, w': World)
    requires AllsOk(w) && Quiet(w, w')
    ensures AllsOk(w')
  {
    forall k | 0 <= k < |w'.alls| ensures AllOk(w', k) {
      QuietKeepsAll(w, w', k);
    }
    forall t | 0 <= t < |w'.registrations| ensures ClosuresOk(w', t) {
      if t < |w.registrations| { assert ClosuresOk(w, t); }
    }
  }

  predicate OrdinaryHandler(h: Option<Handler>) {
    h.Some? ==> !h.value.AllResolve? && !h.value.AllReject?
  }

  lemma AppendIsQuiet(w: World, role: Role)
    ensures Quiet(w, Append(w, role))
  {
  }

  lemma SettleIsQuiet(w: World, p: nat, state: State, v: Value)
    requires MaySettle(w, p, state, v) && !w.promises[p].role.AllResult?
    ensures Quiet(w, Settle(w, p, state, v))
  {
  }

  lemma RegisterIsQuiet(w: World, p: nat, f: Option<Handler>, r: Option<Handler>, d: Option<nat>)
    requires MayRegister(w, p, f, r, d) && OrdinaryHandler(f) && OrdinaryHandler(r)
    ensures Quiet(w, Register(w, p, f, r, d))
  {
  }

  lemma ThenIsQuiet(w: World, p: nat, f: Option<Handler>, r: Option<Handler>)
    requires Core(w) && IsPromise(w, p) && HandlerOk(w, f) && HandlerOk(w, r)
    requires OrdinaryHandler(f) && OrdinaryHandler(r)
    ensures Quiet(w, Then(w, p, f, r))
  {
    AppendIsQuiet(w, Derived);
    AppendKeepsCore(w, Derived);
    ExtendsKeepsHandlers(w, Append(w, Derived), f, None);
    ExtendsKeepsHandlers(w, Append(w, Derived), r, None);
    RegisterIsQuiet(Append(w, Derived), p, f, r, Some(|w.promises|));
    QuietTransitive(w, Append(w, Derived), Then(w, p, f, r));
  }

  lemma {:induction false} ResolveIsQuiet(w: World, p: nat, v: Value)
    requires Core(w) && IsPromise(w, p) && Valid(w, v) && !w.promises[p].role.AllResult?
    requires FulfilledWithPlainValues(w)
    ensures Quiet(w, Resolve(w, p, v))
    decreases if v.PromiseRef? then 1 else 0
  {
    if v.PromiseRef? {
      if v.promise == p {
        SettleIsQuiet(w, p, Rejected, CYCLE);
      } else {
        var other := w.promises[v.promise];
        assert PromiseOk(w, v.promise);
        match other.state
        case Fulfilled => ResolveIsQuiet(w, p, other.result);
        case Rejected => SettleIsQuiet(w, p, Rejected, other.result);
        case Pending => RegisterIsQuiet(w, v.promise, Some(ResolveTo(p)), Some(RejectTo(p)), None);
      }
    } else {
      SettleIsQuiet(w, p, Fulfilled, v);
    }
  }

  /** `Core` and the state of every call survive a quiet step that keeps `Core`. */
  lemma ResolveKeepsInv(w: World, p: nat, v: Value)
    requires Inv(w) && IsPromise(w, p) && Valid(w, v) && !w.promises[p].role.AllResult?
    ensures FulfilledWithPlainValues(w)
    ensures Inv(Resolve(w, p, v)) && Extends(w, Resolve(w, p, v))
  {
    CoreFulfilled(w);
    ResolveKeepsCore(w, p, v);
    ResolveIsQuiet(w, p, v);
    QuietKeepsAlls(w, Resolve(w, p, v));
  }

  lemma RejectKeepsInv(w: World, p: nat, v: Value)
    requires Inv(w) && IsPromise(w, p) && Valid(w, v) && !w.promises[p].role.AllResult?
    ensures Inv(Reject(w, p, v)) && Extends(w, Reject(w, p, v))
  {
    SettleKeepsCore(w, p, Rejected, v);
    SettleIsQuiet(w, p, Rejected, v);
    QuietKeepsAlls(w, Reject(w, p, v));
  }

  lemma ThenKeepsInv(w: World, p: nat, f: Option<Handler>, r: Option<Handler>)
    requires Inv(w) && IsPromise(w, p) && HandlerOk(w, f) && HandlerOk(w, r)
    requires OrdinaryHandler(f) && OrdinaryHandler(r)
    ensures Inv(Then(w, p, f, r)) && Extends(w, Then(w, p, f, r))
  {
    ThenKeepsCore(w, p, f, r);
    ThenIsQuiet(w, p, f, r);
    QuietKeepsAlls(w, Then(w, p, f, r));
  }

  lemma AppendKeepsInv(w: World, role: Role)
    requires Inv(w)
    ensures Inv(Append(w, role)) && Extends(w, Append(w, role))
  {
    AppendKeepsCore(w, role);
    AppendIsQuiet(w, role);
    QuietKeepsAlls(w, Append(w, role));
  }

  // ---- Taking a task that is no closure of Promise.all ---------------------------------------

  function Take(w: World): World {
    w.(done := w.done + 1)
  }

  predicate RunsClosure(t: Task) {
    t.PromiseReaction? && t.handler.Some? && (t.handler.value.AllResolve? || t.handler.value.AllReject?)
  }

  /** The next task is the fulfilment of element `i` of call `k`. */
  ghost predicate NextFires(w: World, k: nat, i: nat)
    requires w.done < |w.log| && k < |w.alls|
  {
    var t := w.log[w.done];
    t.PromiseReaction? && !t.isRejection && i < |w.alls[k].tags| && t.tag == w.alls[k].tags[i]
  }

  lemma TakeKeepsCore(w: World)
    requires Core(w) && w.done < |w.log|
    ensures Core(Take(w)) && Extends(w, Take(w))
  {
    var w' := Take(w);
    ExtendsKeepsOld(w, w');
    forall p | 0 <= p < |w'.promises| ensures PromiseOk(w', p) && Ledger(w', p) {
      assert Ledger(w, p);
    }
  }

  lemma TakeFires(w: World, k: nat, i: nat)
    requires w.done < |w.log| && k < |w.alls| && w.done !in w.dropped
    ensures Fired(Take(w), k, i) <==> Fired(w, k, i) || NextFires(w, k, i)
  {
    var w' := Take(w);
    if Fired(w, k, i) {
      var j: nat :| Executed(w, j) && w.log[j].tag == w.alls[k].tags[i] && !w.log[j].isRejection;
      assert Executed(w', j);
    }
    if NextFires(w, k, i) {
      assert Executed(w', w.done);
    }
    if Fired(w', k, i) {
      var j: nat :| Executed(w', j) && w'.log[j].tag == w'.alls[k].tags[i] && !w'.log[j].isRejection;
      assert j == w.done || Executed(w, j);
    }
  }

  /** A task whose handler is the fulfilment closure of an element fires that element only. */
  lemma NextFiresIff(w: World, k: nat, i: nat)
    requires Inv(w) && w.done < |w.log| && k < |w.alls|
    ensures NextFires(w, k, i) <==>
      w.log[w.done].PromiseReaction? && w.log[w.done].handler == Some(AllResolve(k, i))
  {
    var t := w.log[w.done];
    assert TaskOk(w, t) && AllOk(w, k);
    if NextFires(w, k, i) {
      assert ElementRegistration(w, k, i, t.tag);
    }
    if t.PromiseReaction? {
      assert ClosuresOk(w, t.tag);
    }
  }

  lemma {:induction false} TakeUnfired(w: World, k: nat, n: nat)
    requires w.done < |w.log| && k < |w.alls| && w.done !in w.dropped
    requires forall i: nat :: i < n ==> !NextFires(w, k, i)
    ensures Unfired(Take(w), k, n) == Unfired(w, k, n)
  {
    if n > 0 {
      TakeUnfired(w, k, n - 1);
      TakeFires(w, k, n - 1);
    }
  }

  lemma {:induction false} TakeRejections(w: World, k: nat, n: nat)
    requires n <= w.done < |w.log|
    ensures FirstRejection(Take(w), k, n) == FirstRejection(w, k, n)
  {
    if n > 0 { TakeRejections(w, k, n - 1); }
  }

  /** Taking a task that fires no element of a call changes none of its entries. */
  lemma TakeKeepsCounted(w: World, k: nat)
    requires w.done < |w.log| && w.done !in w.dropped && k < |w.alls| && CountedOk(w, k)
    requires forall i: nat :: !NextFires(w, k, i)
    ensures CountedOk(Take(w), k)
  {
    var w', all := Take(w), w.alls[k];
    forall i | 0 <= i < |all.results| ensures EntryOk(w', k, i) {
      assert EntryOk(w, k, i);
      TakeFires(w, k, i);
    }
    forall i | 0 <= i < |all.tags| ensures ElementRegistration(w', k, i, all.tags[i]) {
      assert ElementRegistration(w, k, i, all.tags[i]);
    }
    TakeUnfired(w, k, |all.results|);
  }

  /** Taking a task changes nothing for a call that the task is not about. */
  lemma TakeKeepsAll(w: World, k: nat)
    requires Inv(w) && w.done < |w.log| && k < |w.alls|
    requires forall i: nat :: !NextFires(w, k, i)
    requires w.log[w.done].PromiseReaction? ==> w.log[w.done].handler != Some(AllReject(k))
    ensures AllOk(Take(w), k)
  {
    assert AllOk(w, k);
    TakeKeepsCounted(w, k);
    TakeRejections(w, k, w.done);
    assert FirstRejection(Take(w), k, w.done + 1) == FirstRejection(w, k, w.done);
  }

  lemma TakeKeepsClosures(w: World)
    requires AllsOk(w) && w.done < |w.log|
    ensures forall t :: 0 <= t < |w.registrations| ==> ClosuresOk(Take(w), t)
  {
    forall t | 0 <= t < |w.registrations| ensures ClosuresOk(Take(w), t) {
      assert ClosuresOk(w, t);
    }
  }

  lemma TakeKeepsInv(w: World)
    requires Inv(w) && w.done < |w.log| && !RunsClosure(w.log[w.done])
    ensures Inv(Take(w)) && Extends(w, Take(w))
  {
    TakeKeepsCore(w);
    TakeKeepsClosures(w);
    forall k | 0 <= k < |w.alls| ensures AllOk(Take(w), k) {
      forall i: nat ensures !NextFires(w, k, i) { NextFiresIff(w, k, i); }
      TakeKeepsAll(w, k);
    }
  }

  // ---- Running a closure of Promise.all ------------------------------------------------------

  lemma NotYetFired(w: World, k: nat, i: nat)
    requires Inv(w) && w.done < |w.log| && k < |w.alls| && NextFires(w, k, i)
    ensures !Fired(w, k, i)
  {
    if Fired(w, k, i) {
      var j: nat :| Executed(w, j) && w.log[j].tag == w.alls[k].tags[i] && !w.log[j].isRejection;
      EnqueuedAtMostOnce(w, j, w.done, w.log[j].tag);
    }
  }

  lemma {:induction false} UnfiredPositive(w: World, k: nat, i: nat, n: nat)
    requires k < |w.alls| && i < n && !Fired(w, k, i)
    ensures Unfired(w, k, n) > 0
  {
    if i < n - 1 { UnfiredPositive(w, k, i, n - 1); }
  }

  /** When element `i` fires, exactly one element fewer is outstanding. */
  lemma {:induction false} TakeFiresOne(w: World, k: nat, i: nat, n: nat)
    requires Inv(w) && w.done < |w.log| && k < |w.alls| && NextFires(w, k, i)
    ensures Unfired(Take(w), k, n) == Unfired(w, k, n) - (if i < n then 1 else 0)
  {
    NotYetFired(w, k, i);
    if n > 0 {
      TakeFiresOne(w, k, i, n - 1);
      TakeFires(w, k, n - 1);
      NextFiresIff(w, k, i);
      NextFiresIff(w, k, n - 1);
    }
  }

  /** The counter never underflows. */
  lemma FiringHasRemaining(w: World, k: nat, i: nat)
    requires Inv(w) && w.done < |w.log| && k < |w.alls| && NextFires(w, k, i)
    ensures w.alls[k].remaining > 0 && i < |w.alls[k].results| && IsPromise(w, w.alls[k].child)
  {
    assert AllOk(w, k);
    NotYetFired(w, k, i);
    UnfiredPositive(w, k, i, |w.alls[k].results|);
  }

  lemma {:induction false} AllFired(w: World, k: nat, n: nat, i: nat)
    requires k < |w.alls| && i < n && Unfired(w, k, n) == 0
    ensures Fired(w, k, i)
  {
    if i < n - 1 { AllFired(w, k, n - 1, i); }
  }

  lemma {:induction false} RejectionHasTask(w: World, k: nat, n: nat) returns (j: nat)
    requires n <= |w.log| && FirstRejection(w, k, n).Some?
    ensures j < n && Executed(w, j) && w.log[j].handler == Some(AllReject(k))
    ensures FirstRejection(w, k, n).value == w.log[j].argument
  {
    if FirstRejection(w, k, n - 1).Some? {
      j := RejectionHasTask(w, k, n - 1);
    } else {
      j := n - 1;
    }
  }

  /** A rejection closure runs for an element that never fires. */
  lemma RejectedElement(w: World, j: nat, k: nat) returns (i: nat)
    requires Core(w) && j < |w.log| && w.log[j].PromiseReaction? && w.log[j].handler == Some(AllReject(k))
    requires forall t :: 0 <= t < |w.registrations| ==> ClosuresOk(w, t)
    requires k < |w.alls|
    ensures w.log[j].isRejection
    ensures i < |w.alls[k].tags| && w.alls[k].tags[i] == w.log[j].tag && !Fired(w, k, i)
  {
    assert TaskOk(w, w.log[j]);
    assert ClosuresOk(w, w.log[j].tag);
    i := w.registrations[w.log[j].tag].onFulfilled.value.index;
    if Fired(w, k, i) {
      var j': nat :| Executed(w, j') && w.log[j'].tag == w.alls[k].tags[i] && !w.log[j'].isRejection;
      EnqueuedAtMostOnce(w, j, j', w.log[j].tag);
    }
  }

  /** When every element has fulfilled, no rejection closure has run. */
  lemma AllFiredMeansNoRejection(w: World, k: nat, n: nat)
    requires Core(w) && k < |w.alls| && n <= |w.log|
    requires forall t :: 0 <= t < |w.registrations| ==> ClosuresOk(w, t)
    requires Unfired(w, k, |w.alls[k].results|) == 0 && |w.alls[k].tags| <= |w.alls[k].results|
    ensures FirstRejection(w, k, n).None?
  {
    if FirstRejection(w, k, n).Some? {
      var j := RejectionHasTask(w, k, n);
      var i := RejectedElement(w, j, k);
      AllFired(w, k, |w.alls[k].results|, i);
    }
  }

  lemma AllsUpdateKeepsCore(w: World, k: nat, all: All)
    requires Core(w) && k < |w.alls|
    requires all.child == w.alls[k].child && |all.results| == |w.alls[k].results| && w.alls[k].tags <= all.tags
    ensures Core(w.(alls := w.alls[k := all])) && Extends(w, w.(alls := w.alls[k := all]))
  {
    var w' := w.(alls := w.alls[k := all]);
    ExtendsKeepsOld(w, w');
    forall p | 0 <= p < |w'.promises| ensures PromiseOk(w', p) && Ledger(w', p) {
      assert Ledger(w, p);
    }
  }

  /** The other calls of `Promise.all` do not notice an update of call `k` or of its child. */
  lemma OthersKeepOk(w: World, w': World, k: nat, k': nat)
    requires k < |w.alls| && k' < |w.alls| && k != k' && AllShape(w, k)
    requires SameHistory(w, w') && Extends(w, w') && w'.alls[k'] == w.alls[k'] && AllOk(w, k')
    requires forall p :: 0 <= p < |w.promises| && p != w.alls[k].child ==> w'.promises[p] == w.promises[p]
    ensures AllOk(w', k')
  {
    assert AllShape(w, k');
    QuietKeepsAll(w, w', k');
  }

  lemma ClosuresAgree(w: World, w': World)
    requires forall t :: 0 <= t < |w.registrations| ==> ClosuresOk(w, t)
    requires w'.registrations == w.registrations && |w.alls| == |w'.alls|
    requires forall k :: 0 <= k < |w.alls| ==> w.alls[k].tags <= w'.alls[k].tags
    ensures forall t :: 0 <= t < |w'.registrations| ==> ClosuresOk(w', t)
  {
    forall t | 0 <= t < |w'.registrations| ensures ClosuresOk(w', t) {
      assert ClosuresOk(w, t);
    }
  }

  /** The update that the fulfilment closure of element `i` makes, before it settles the child. */
  ghost function Recorded(w: World, k: nat, i: nat, v: Value): World
    requires k < |w.alls| && i < |w.alls[k].results| && w.alls[k].remaining > 0
  {
    var all := w.alls[k];
    w.(alls := w.alls[k := all.(results := all.results[i := v], remaining := all.remaining - 1)])
  }

  lemma RecordedIsCounted(w: World, k: nat, i: nat)
    requires Inv(w) && w.done < |w.log| && k < |w.alls| && NextFires(w, k, i)
    ensures w.alls[k].remaining > 0 && i < |w.alls[k].results|
    ensures
      var w' := Recorded(Take(w), k, i, w.log[w.done].argument);
      Core(w') && Extends(w, w') && CountedOk(w', k)
  {
    FiringHasRemaining(w, k, i);
    var taken, v := Take(w), w.log[w.done].argument;
    var w' := Recorded(taken, k, i, v);
    var all := w'.alls[k];
    TakeKeepsCore(w);
    AllsUpdateKeepsCore(taken, k, all);
    ExtendsTransitive(w, taken, w');
    assert AllOk(w, k) && TaskOk(w, w.log[w.done]);
    assert ElementRegistration(w, k, i, all.tags[i]);
    forall e | 0 <= e < |all.results| ensures EntryOk(w', k, e) {
      assert EntryOk(w, k, e);
      FiredAgrees(taken, w', k, e);
      TakeFires(w, k, e);
      NextFiresIff(w, k, i);
      NextFiresIff(w, k, e);
    }
    forall e | 0 <= e < |all.tags| ensures ElementRegistration(w', k, e, all.tags[e]) {
      assert ElementRegistration(w, k, e, all.tags[e]);
    }
    TakeFiresOne(w, k, i, |all.results|);
    UnfiredAgrees(taken, w', k, |all.results|);
  }

  /** What the child of call `k` was before element `i` fires. */
  lemma ChildBeforeFiring(w: World, k: nat, i: nat)
    requires Inv(w) && w.done < |w.log| && k < |w.alls| && NextFires(w, k, i)
    ensures w.alls[k].remaining > 0 && i < |w.alls[k].results| && IsPromise(w, w.alls[k].child)
    ensures w.alls[k].remaining == 1 ==> FirstRejection(w, k, w.done).None?
    ensures
      var w' := Recorded(Take(w), k, i, w.log[w.done].argument);
      FirstRejection(w', k, w'.done) == FirstRejection(w, k, w.done)
  {
    FiringHasRemaining(w, k, i);
    RecordedIsCounted(w, k, i);
    var taken := Take(w);
    var w' := Recorded(taken, k, i, w.log[w.done].argument);
    NextFiresIff(w, k, i);
    TakeRejections(w, k, w.done);
    assert FirstRejection(taken, k, taken.done) == FirstRejection(w, k, w.done);
    RejectionAgrees(taken, w', k, taken.done);
    if w.alls[k].remaining == 1 {
      ClosuresAgree(w, w');
      AllFiredMeansNoRejection(w', k, w'.done);
    }
  }

  /** Running the fulfilment closure of an element. */
  lemma FireKeepsInv(w: World, k: nat, i: nat)
    requires Inv(w) && w.done < |w.log| && k < |w.alls| && NextFires(w, k, i)
    ensures w.alls[k].remaining > 0 && i < |w.alls[k].results| && IsPromise(w, w.alls[k].child)
    ensures
      var w' := FireResolve(Take(w), k, i, w.log[w.done].argument);
      Inv(w') && Extends(w, w')
  {
    ChildBeforeFiring(w, k, i);
    RecordedIsCounted(w, k, i);
    var recorded := Recorded(Take(w), k, i, w.log[w.done].argument);
    var w' := FireResolve(Take(w), k, i, w.log[w.done].argument);
    var all := recorded.alls[k];
    assert AllOk(w, k);
    assert ChildOk(w, k);
    if all.remaining == 0 {
      assert MaySettle(recorded, all.child, Fulfilled, ArrayOf(all.results));
      SettleKeepsCore(recorded, all.child, Fulfilled, ArrayOf(all.results));
      ExtendsTransitive(w, recorded, w');
      QuietKeepsCounted(recorded, w', k);
    }
    assert AllOk(w', k);
    forall k' | 0 <= k' < |w'.alls| && k' != k ensures AllOk(w', k') {
      FireLeavesOthers(w, k, i, k');
    }
    ClosuresAgree(w, w');
  }

  lemma FireLeavesOthers(w: World, k: nat, i: nat, k': nat)
    requires Inv(w) && w.done < |w.log| && k < |w.alls| && NextFires(w, k, i)
    requires k' < |w.alls| && k' != k
    ensures w.alls[k].remaining > 0 && i < |w.alls[k].results| && IsPromise(w, w.alls[k].child)
    ensures
      var w' := FireResolve(Take(w), k, i, w.log[w.done].argument);
      w'.done <= |w'.log| && AllOk(w', k')
  {
    FiringHasRemaining(w, k, i);
    RecordedIsCounted(w, k, i);
    var recorded := Recorded(Take(w), k, i, w.log[w.done].argument);
    NextFiresIff(w, k, i);
    forall e: nat ensures !NextFires(w, k', e) { NextFiresIff(w, k', e); }
    TakeKeepsAll(w, k');
    assert AllOk(w, k);
    AllsUpdateKeepsCore(Take(w), k, recorded.alls[k]) by { TakeKeepsCore(w); }
    OthersKeepOk(Take(w), recorded, k, k');
    var all := recorded.alls[k];
    if all.remaining == 0 {
      SettleExtends(recorded, all.child, Fulfilled, ArrayOf(all.results));
      OthersKeepOk(recorded, FireResolve(Take(w), k, i, w.log[w.done].argument), k, k');
    }
  }

  /** The state after a rejection closure of call `k` has run. */
  ghost function AfterRejection(w: World, k: nat): World
    requires w.done < |w.log| && w.log[w.done].PromiseReaction? && k < |w.alls| && IsPromise(w, w.alls[k].child)
  {
    Reject(Take(w), w.alls[k].child, w.log[w.done].argument)
  }

  ghost predicate NextRejects(w: World, k: nat) {
    && w.done < |w.log| && k < |w.alls|
    && w.log[w.done].PromiseReaction? && w.log[w.done].handler == Some(AllReject(k))
  }

  lemma RejectionExtends(w: World, k: nat)
    requires Inv(w) && NextRejects(w, k)
    ensures IsPromise(w, w.alls[k].child) && AllShape(w, k)
    ensures Core(AfterRejection(w, k)) && Extends(Take(w), AfterRejection(w, k)) && Extends(w, AfterRejection(w, k))
  {
    assert AllOk(w, k) && TaskOk(w, w.log[w.done]);
    assert PromiseOk(w, w.log[w.done].source);
    TakeKeepsCore(w);
    SettleKeepsCore(Take(w), w.alls[k].child, Rejected, w.log[w.done].argument);
    ExtendsTransitive(w, Take(w), AfterRejection(w, k));
  }

  lemma RejectionSettlesChild(w: World, k: nat)
    requires Inv(w) && NextRejects(w, k)
    ensures IsPromise(w, w.alls[k].child)
    ensures AfterRejection(w, k).done <= |AfterRejection(w, k).log| && AllOk(AfterRejection(w, k), k)
  {
    RejectionExtends(w, k);
    var w' := AfterRejection(w, k);
    RejectedCallHasRemaining(w, k);
    forall i: nat ensures !NextFires(w, k, i) { NextFiresIff(w, k, i); }
    assert AllOk(w, k);
    TakeKeepsCounted(w, k);
    QuietKeepsCounted(Take(w), w', k);
    TakeRejections(w, k, w.done);
    assert w.done !in w.dropped && Executed(Take(w), w.done);
    RejectionAgrees(Take(w), w', k, w.done + 1);
    assert ChildOk(w, k);
  }

  lemma RejectionLeavesOthers(w: World, k: nat, k': nat)
    requires Inv(w) && NextRejects(w, k) && k' < |w.alls| && k' != k
    ensures IsPromise(w, w.alls[k].child)
    ensures AfterRejection(w, k).done <= |AfterRejection(w, k).log| && AllOk(AfterRejection(w, k), k')
  {
    RejectionExtends(w, k);
    forall i: nat ensures !NextFires(w, k', i) { NextFiresIff(w, k', i); }
    TakeKeepsAll(w, k');
    OthersKeepOk(Take(w), AfterRejection(w, k), k, k');
  }

  /** Running a rejection closure: the first reason settles the child, later ones are ignored. */
  lemma RejectAllKeepsInv(w: World, k: nat)
    requires Inv(w) && NextRejects(w, k)
    ensures IsPromise(w, w.alls[k].child)
    ensures Inv(AfterRejection(w, k)) && Extends(w, AfterRejection(w, k))
  {
    RejectionExtends(w, k);
    RejectionSettlesChild(w, k);
    forall k' | 0 <= k' < |w.alls| && k' != k ensures AllOk(AfterRejection(w, k), k') {
      RejectionLeavesOthers(w, k, k');
    }
    ClosuresAgree(w, AfterRejection(w, k));
  }

  lemma RejectedCallHasRemaining(w: World, k: nat)
    requires Inv(w) && w.done < |w.log| && k < |w.alls|
    requires w.log[w.done].PromiseReaction? && w.log[w.done].handler == Some(AllReject(k))
    ensures w.alls[k].remaining > 0
  {
    assert AllOk(w, k);
    var i := RejectedElement(w, w.done, k);
    UnfiredPositive(w, k, i, |w.alls[k].results|);
  }
}
