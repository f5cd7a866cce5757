/** How often and in which order the reactions to promises are executed. */
module PromiseOrder {
  // Each registration is executed at most once, with one of its two handlers; exactly once when its
  // promise is settled and the queue is empty; and the registrations on one promise in the order they
  // were made.

  import opened PromiseWorld
  import opened PromiseSafety

  ghost predicate ReactionTo(w: World, j: nat, t: nat) {
    j < |w.log| && w.log[j].PromiseReaction? && w.log[j].tag == t
  }

  /** Where a logged reaction stands among the tags of its promise. */
  lemma TagPosition(log: seq<Task>, p: nat, j: nat)
    requires j < |log| && log[j].PromiseReaction? && log[j].source == p
    ensures |Tags(log[..j], p)| < |Tags(log, p)|
    ensures Tags(log, p)[|Tags(log[..j], p)|] == log[j].tag
  {
    assert log == log[..j + 1] + log[j + 1..];
    TagsAppend(log[..j + 1], log[j + 1..], p);
    assert log[..j + 1][..j] == log[..j];
  }

  /** Earlier in the log means earlier among the tags. */
  lemma TagPositionsIncrease(log: seq<Task>, p: nat, i: nat, j: nat)
    requires i < j < |log| && log[i].PromiseReaction? && log[i].source == p
    ensures |Tags(log[..i], p)| < |Tags(log[..j], p)|
  {
    TagPosition(log[..j], p, i);
    assert log[..j][..i] == log[..i];
  }

  /** Two logged reactions on one promise are in the order of their registrations. */
  lemma ExecutedInRegistrationOrder(w: World, i: nat, j: nat)
    requires Core(w) && i < j < |w.log| && w.log[i].PromiseReaction? && w.log[j].PromiseReaction?
    requires w.log[i].source == w.log[j].source
    ensures w.log[i].tag < w.log[j].tag
  {
    var p := w.log[i].source;
    assert TaskOk(w, w.log[i]) && Ledger(w, p);
    TagPosition(w.log, p, i);
    TagPosition(w.log, p, j);
    TagPositionsIncrease(w.log, p, i, j);
    RegTagsIncrease(w.registrations, p);
    var tags := RegTags(w.registrations, p);
    assert tags[|Tags(w.log[..i], p)|] == w.log[i].tag;
    assert tags[|Tags(w.log[..j], p)|] == w.log[j].tag;
  }

  /** A registration is enqueued at most once, so never with both of its handlers. */
  lemma EnqueuedAtMostOnce(w: World, i: nat, j: nat, t: nat)
    requires Core(w) && ReactionTo(w, i, t) && ReactionTo(w, j, t)
    ensures i == j
  {
    assert TaskOk(w, w.log[i]) && TaskOk(w, w.log[j]);
    if i < j { ExecutedInRegistrationOrder(w, i, j); }
    if j < i { ExecutedInRegistrationOrder(w, j, i); }
  }

  /** A tag among the logged tags of a promise comes from a logged reaction. */
  lemma {:induction false} TagIsLogged(log: seq<Task>, p: nat, a: nat) returns (j: nat)
    requires a < |Tags(log, p)|
    ensures j < |log| && log[j].PromiseReaction? && log[j].source == p && log[j].tag == Tags(log, p)[a]
  {
    var init := log[..|log| - 1];
    if a < |Tags(init, p)| {
      j := TagIsLogged(init, p, a);
    } else {
      j := |log| - 1;
    }
  }

  /** Every registration is enqueued if and only if its promise is settled. */
  lemma EnqueuedIffSettled(w: World, t: nat)
    requires Core(w) && t < |w.registrations|
    ensures IsPromise(w, w.registrations[t].promise)
    ensures w.promises[w.registrations[t].promise].state != Pending <==> exists j :: ReactionTo(w, j, t)
  {
    var p := w.registrations[t].promise;
    assert RegistrationOk(w, w.registrations[t]);
    assert Ledger(w, p) && PromiseOk(w, p);
    if w.promises[p].state != Pending {
      RegTagsIncrease(w.registrations, p);
      var a :| 0 <= a < |RegTags(w.registrations, p)| && RegTags(w.registrations, p)[a] == t;
      assert Tags(w.log, p) == RegTags(w.registrations, p);
      var j := TagIsLogged(w.log, p, a);
      assert ReactionTo(w, j, t);
    }
    if j: nat :| ReactionTo(w, j, t) {
      assert TaskOk(w, w.log[j]);
    }
  }

  /** Once its promise is settled and the queue has drained without reaching the limit, a
      registration has been executed exactly once: the handler for the outcome, on the result. */
  lemma ExecutedExactlyOnce(w: World, t: nat) returns (j: nat)
    requires Core(w) && t < |w.registrations| && Queue(w) == [] && w.dropped == {}
    requires IsPromise(w, w.registrations[t].promise) && w.promises[w.registrations[t].promise].state != Pending
    ensures ReactionTo(w, j, t) && j < w.done && j !in w.dropped
    ensures forall i :: ReactionTo(w, i, t) ==> i == j
    ensures
      var promise := w.promises[w.registrations[t].promise];
      && w.log[j].isRejection == (promise.state == Rejected)
      && w.log[j].argument == promise.result
      && w.log[j].handler
           == (if promise.state == Rejected then w.registrations[t].onRejected else w.registrations[t].onFulfilled)
  {
    EnqueuedIffSettled(w, t);
    j :| ReactionTo(w, j, t);
    assert TaskOk(w, w.log[j]);
    assert |Queue(w)| == |w.log| - w.done;
    forall i | ReactionTo(w, i, t) ensures i == j {
      EnqueuedAtMostOnce(w, i, j, t);
    }
  }
}
