module PromiseRuns {
  // What holds in every reachable state of promises and their queue.

  import opened PromiseWorld
  import opened PromiseSafety
  import opened PromiseOrder
  import opened PromiseAll
  import opened PromiseMachine

  /** In every reachable state: a settled promise has no reactions left and will never change, and
      a fulfilled one does not hold a promise. */
  lemma SettledIsFinal(events: seq<Event>, later: seq<Event>, p: nat)
    ensures Inv(INITIAL)
    ensures
      var w := Run(INITIAL, events);
      IsPromise(w, p) && w.promises[p].state != Pending ==>
        && w.promises[p].fulfillReactions == [] && w.promises[p].rejectReactions == []
        && (w.promises[p].state == Fulfilled ==> !w.promises[p].result.PromiseRef?)
        && IsPromise(Run(w, later), p)
        && Run(w, later).promises[p] == w.promises[p]
  {
    InitialInv();
    var w := Run(INITIAL, events);
    var w' := Run(w, later);
    RunsOnlyExtend(w, later);
    if IsPromise(w, p) && w.promises[p].state != Pending {
      assert PromiseOk(w, p) && PromiseOk(w', p) && PromiseStep(w.promises[p], w'.promises[p]);
      NoReactionsLeft(w, p);
      NoReactionsLeft(w', p);
    }
  }

  lemma NoReactionsLeft(w: World, p: nat)
    requires Core(w) && IsPromise(w, p) && w.promises[p].state != Pending
    ensures w.promises[p].fulfillReactions == [] && w.promises[p].rejectReactions == []
  {
    assert PromiseOk(w, p);
    assert |TagList(w.promises[p].fulfillReactions)| == |TagList(w.promises[p].rejectReactions)|;
  }

  /** In every reachable state: no registration has been executed twice, in particular not with both
      of its handlers, and executions on one promise follow the order of registration. */
  lemma ReactionsRunAtMostOnceInOrder(events: seq<Event>, i: nat, j: nat)
    ensures Inv(INITIAL)
    ensures
      var w := Run(INITIAL, events);
      i < j && Executed(w, i) && Executed(w, j) && w.log[i].source == w.log[j].source ==>
        w.log[i].tag < w.log[j].tag
    ensures
      var w := Run(INITIAL, events);
      Executed(w, i) && Executed(w, j) && w.log[i].tag == w.log[j].tag ==> i == j
  {
    InitialInv();
    var w := Run(INITIAL, events);
    if i < j && Executed(w, i) && Executed(w, j) && w.log[i].source == w.log[j].source {
      ExecutedInRegistrationOrder(w, i, j);
    }
    if Executed(w, i) && Executed(w, j) && w.log[i].tag == w.log[j].tag {
      EnqueuedAtMostOnce(w, i, j, w.log[i].tag);
    }
  }

  /** In every reachable state of a run that never hit the iteration limit, once the queue is empty:
      each registration has been executed exactly once if its promise is settled, else not at all. */
  lemma DrainedRunsEachRegistrationOnce(events: seq<Event>, t: nat)
    ensures Inv(INITIAL)
    ensures
      var w := Run(INITIAL, events);
      Queue(w) == [] && w.dropped == {} && t < |w.registrations| ==>
        && IsPromise(w, w.registrations[t].promise)
        && (w.promises[w.registrations[t].promise].state == Pending ==>
              forall j: nat :: Executed(w, j) ==> w.log[j].tag != t)
        && (w.promises[w.registrations[t].promise].state != Pending ==>
              exists j: nat :: Executed(w, j) && w.log[j].tag == t
                && (forall i: nat :: Executed(w, i) && w.log[i].tag == t ==> i == j))
  {
    InitialInv();
    var w := Run(INITIAL, events);
    if Queue(w) == [] && w.dropped == {} && t < |w.registrations| {
      EnqueuedIffSettled(w, t);
      var p := w.registrations[t].promise;
      if w.promises[p].state == Pending {
        forall j: nat | Executed(w, j) ensures w.log[j].tag != t {
          assert w.log[j].tag == t ==> ReactionTo(w, j, t);
        }
      } else {
        var j := ExecutedExactlyOnce(w, t);
        assert Executed(w, j) && w.log[j].tag == t;
        forall i: nat | Executed(w, i) && w.log[i].tag == t ensures i == j {
          assert ReactionTo(w, i, t);
        }
      }
    }
  }

  /** In every reachable state, for every call of `Promise.all` on at least one element: the counter
      is the number of element fulfilments that have not run; the child is fulfilled exactly when
      all have, with the values in element order; and if a rejection closure has run the child is
      rejected with the first reason. */
  lemma AllFollowsItsElements(events: seq<Event>, k: nat)
    ensures Inv(INITIAL)
    ensures
      var w := Run(INITIAL, events);
      k < |w.alls| ==>
        var all := w.alls[k];
        && IsPromise(w, all.child)
        && all.remaining == Unfired(w, k, |all.results|)
        && (w.promises[all.child].state == Fulfilled <==>
              forall i: nat :: i < |all.results| ==> Fired(w, k, i))
        && (w.promises[all.child].state == Fulfilled ==>
              && w.promises[all.child].result == ArrayOf(all.results)
              && forall i: nat :: i < |all.results| ==> EntryOk(w, k, i) && Fired(w, k, i))
        && (FirstRejection(w, k, w.done).Some? ==>
              w.promises[all.child].state == Rejected
              && w.promises[all.child].result == FirstRejection(w, k, w.done).value)
  {
    InitialInv();
    var w := Run(INITIAL, events);
    if k < |w.alls| {
      var all := w.alls[k];
      assert AllOk(w, k) && ChildOk(w, k);
      if all.remaining == 0 {
        forall i: nat | i < |all.results| ensures Fired(w, k, i) { AllFired(w, k, |all.results|, i); }
        AllFiredMeansNoRejection(w, k, w.done);
      } else {
        var i := SomeUnfired(w, k, |all.results|);
      }
    }
  }

  lemma {:induction false} SomeUnfired(w: World, k: nat, n: nat) returns (i: nat)
    requires k < |w.alls| && Unfired(w, k, n) > 0
    ensures i < n && !Fired(w, k, i)
  {
    if Fired(w, k, n - 1) {
      i := SomeUnfired(w, k, n - 1);
    } else {
      i := n - 1;
    }
  }
}
