module PromiseChildren {
  // What becomes of the child of a reaction, and of a promise that script resolves, over every run.

  import opened Options
  import opened PromiseWorld
  import opened PromiseSafety
  import opened PromiseOrder
  import opened PromiseAll
  import opened PromiseMachine
  import opened PromiseClaims
  import opened PromiseRuns

  /** Settled alike, or both pending. */
  ghost predicate SameFate(a: Promise, b: Promise) {
    a.state == b.state && (a.state != Pending ==> a.result == b.result)
  }

  ghost predicate Settled(w: World, c: nat, state: State, result: Value) {
    IsPromise(w, c) && w.promises[c].state == state && w.promises[c].result == result
  }

  lemma SettledStays(w: World, later: seq<Event>, c: nat)
    requires Inv(w) && IsPromise(w, c) && w.promises[c].state != Pending
    ensures Settled(Run(w, later), c, w.promises[c].state, w.promises[c].result)
  {
    RunsOnlyExtend(w, later);
    assert PromiseStep(w.promises[c], Run(w, later).promises[c]);
  }

  // ---- Reactions that hand an outcome on ----------------------------------------------------

  predicate Lacks(r: Registration, state: State) {
    match state
    case Fulfilled => r.onFulfilled.None?
    case Rejected => r.onRejected.None?
    case Pending => false
  }

  /** The registration hands the outcome of its promise on to `c` as it is. */
  ghost predicate Hands(w: World, r: Registration, c: nat) {
    IsPromise(w, r.promise)
    && (Adopts(r, c) || (r.downstream == Some(c) && Lacks(r, w.promises[r.promise].state)))
  }

  ghost predicate HasRun(w: World, t: nat) {
    exists j: nat :: Executed(w, j) && w.log[j].tag == t
  }

  ghost predicate Followed(w: World, own: nat, r: Registration) {
    forall c: nat :: Watched(w, own, c) && Hands(w, r, c) ==>
      Settled(w, c, w.promises[r.promise].state, w.promises[r.promise].result)
  }

  ghost predicate AllFollowed(w: World, own: nat) {
    forall t: nat :: t < |w.registrations| && HasRun(w, t) ==> Followed(w, own, w.registrations[t])
  }

  lemma HasRunIsSettled(w: World, t: nat)
    requires Core(w) && HasRun(w, t)
    ensures t < |w.registrations| && IsPromise(w, w.registrations[t].promise)
    ensures w.promises[w.registrations[t].promise].state != Pending
  {
    var j: nat :| Executed(w, j) && w.log[j].tag == t;
    assert TaskOk(w, w.log[j]);
  }

  lemma FollowedStays(w: World, w': World, own: nat, t: nat)
    requires Core(w) && Extends(w, w') && HasRun(w, t) && AllFollowed(w, own)
    ensures t < |w'.registrations| && Followed(w', own, w'.registrations[t])
  {
    HasRunIsSettled(w, t);
    var r := w.registrations[t];
    assert RegistrationOk(w, r);
    assert PromiseStep(w.promises[r.promise], w'.promises[r.promise]);
    forall c: nat | Watched(w', own, c) && Hands(w', r, c)
      ensures Settled(w', c, w'.promises[r.promise].state, w'.promises[r.promise].result)
    {
      assert PromiseStep(w.promises[c], w'.promises[c]);
      assert Followed(w, own, r) && Watched(w, own, c) && Hands(w, r, c);
    }
  }

  /** Running the reaction of such a registration settles the promise it is handed on to. */
  lemma BeginHands(w: World, own: nat, c: nat)
    requires Inv(w) && Claimed(w, own) && w.done < |w.log| && w.log[w.done].PromiseReaction?
    requires w.log[w.done].tag < |w.registrations|
    requires Watched(w, own, c) && Hands(w, w.registrations[w.log[w.done].tag], c)
    ensures
      var source := w.promises[w.registrations[w.log[w.done].tag].promise];
      Settled(Begin(w), c, source.state, source.result)
  {
    var task := w.log[w.done];
    assert TaskOk(w, task);
    NextTask(w);
    NextAdopts(w, own);
    TakingFrees(w, own);
    TakeKeepsCore(w);
    CoreFulfilled(Take(w));
    assert Free(Take(w), own, c);
    assert PromiseOk(w, task.source);
    if Adopts(w.registrations[task.tag], c) { RunClosureKeepsInv(w); }
  }

  lemma BeginKeepsFollowed(w: World, own: nat)
    requires Inv(w) && Claimed(w, own) && AllFollowed(w, own) && w.done < |w.log|
    ensures AllFollowed(Begin(w), own)
  {
    BeginKeepsInv(w);
    BeginTakesOne(w);
    var w' := Begin(w);
    forall t: nat | t < |w'.registrations| && HasRun(w', t) ensures Followed(w', own, w'.registrations[t]) {
      var j: nat :| Executed(w', j) && w'.log[j].tag == t;
      if j < w.done {
        assert Executed(w, j);
        FollowedStays(w, w', own, t);
      } else {
        JustFollowed(w, own);
      }
    }
  }

  lemma JustFollowed(w: World, own: nat)
    requires Inv(w) && Claimed(w, own) && w.done < |w.log| && w.log[w.done].PromiseReaction?
    ensures
      var t := w.log[w.done].tag;
      t < |Begin(w).registrations| && Followed(Begin(w), own, Begin(w).registrations[t])
  {
    var task := w.log[w.done];
    assert TaskOk(w, task);
    BeginKeepsInv(w);
    var w', r := Begin(w), w.registrations[task.tag];
    assert RegistrationOk(w, r) && PromiseStep(w.promises[r.promise], w'.promises[r.promise]);
    forall c: nat | Watched(w', own, c) && Hands(w', r, c)
      ensures Settled(w', c, w'.promises[r.promise].state, w'.promises[r.promise].result)
    {
      assert PromiseStep(w.promises[c], w'.promises[c]);
      BeginHands(w, own, c);
    }
  }

  /** No other step takes a task. */
  lemma PerformTakesNone(w: World, e: Event)
    requires Inv(w) && Enabled(w, e) && !e.BeginTask? && !e.DropTask?
    ensures Step(w, e).done == w.done && Step(w, e).dropped == w.dropped
  {
    CoreFulfilled(w);
    match e
    case CallResolve(p, v) => ResolveIsQuiet(w, p, v);
    case StartAll(elements) => CallAllTakesNone(w, elements);
    case EndTask(outcome) =>
      var last := |w.running| - 1;
      RunningIsImmaterial(w, w.running[..last]);
      var left := w.(running := w.running[..last]);
      CoreFulfilled(left);
      if w.running[last].Some? && outcome.Ok? { ResolveIsQuiet(left, w.running[last].value, outcome.value); }
    case _ =>
  }

  lemma CallAllTakesNone(w: World, elements: seq<Value>)
    requires Inv(w) && AllValid(w, elements)
    ensures CallAll(w, elements).done == w.done && CallAll(w, elements).dropped == w.dropped
  {
    BeginAllKeepsInv(w, |elements|);
    ExtendsKeepsValid(w, BeginAll(w, |elements|), elements);
    if elements != [] { AttachFromTakesNone(BeginAll(w, |elements|), |w.alls|, elements, 0); }
  }

  lemma {:induction false} AttachFromTakesNone(w: World, k: nat, elements: seq<Value>, i: nat)
    requires Inv(w) && k < |w.alls| && i <= |elements| && AllValid(w, elements)
    requires |w.alls[k].tags| == i && |w.alls[k].results| == |elements|
    ensures AttachFrom(w, k, elements, i).done == w.done && AttachFrom(w, k, elements, i).dropped == w.dropped
    decreases |elements| - i
  {
    if i < |elements| {
      AttachElementKeepsInv(w, k, elements[i]);
      var next := AttachElement(w, k, elements[i]);
      ExtendsKeepsValid(w, next, elements);
      AttachFromTakesNone(next, k, elements, i + 1);
    }
  }

  lemma StepKeepsFollowed(w: World, own: nat, e: Event)
    requires Inv(w) && Claimed(w, own) && AllFollowed(w, own) && Enabled(w, e)
    ensures AllFollowed(Step(w, e), own)
  {
    StepKeepsInv(w, e);
    if e.BeginTask? {
      BeginKeepsFollowed(w, own);
    } else {
      if !e.DropTask? { PerformTakesNone(w, e); }
      var w' := Step(w, e);
      forall t: nat | t < |w'.registrations| && HasRun(w', t) ensures Followed(w', own, w'.registrations[t]) {
        var j: nat :| Executed(w', j) && w'.log[j].tag == t;
        assert Executed(w, j);
        FollowedStays(w, w', own, t);
      }
    }
  }

  // ---- Runs ---------------------------------------------------------------------------------

  ghost predicate Orderly(w: World, own: nat) {
    Inv(w) && Claimed(w, own) && AllFollowed(w, own)
  }

  /** Script never calls a resolving function of `own`. */
  predicate LeavesAlone(events: seq<Event>, own: nat) {
    forall i :: 0 <= i < |events| ==> !Settles(events[i], own)
  }

  lemma StepIsOrderly(w: World, own: nat, e: Event)
    requires Orderly(w, own) && Enabled(w, e) && (Settles(e, own) ==> Free(w, own, own))
    ensures Orderly(Step(w, e), own)
  {
    StepKeepsInv(w, e);
    StepKeepsClaims(w, own, e);
    StepKeepsFollowed(w, own, e);
  }

  lemma {:induction false} RunIsOrderly(w: World, own: nat, events: seq<Event>)
    requires Orderly(w, own) && LeavesAlone(events, own)
    ensures Orderly(Run(w, events), own)
    decreases |events|
  {
    if events != [] {
      assert forall i :: 0 <= i < |events[1..]| ==> events[1..][i] == events[i + 1];
      if Enabled(w, events[0]) {
        StepIsOrderly(w, own, events[0]);
        RunIsOrderly(Step(w, events[0]), own, events[1..]);
      } else {
        RunIsOrderly(w, own, events[1..]);
      }
    }
  }

  lemma ReachableIsOrderly(events: seq<Event>, own: nat)
    requires LeavesAlone(events, own)
    ensures Inv(INITIAL) && Orderly(Run(INITIAL, events), own)
  {
    InitialInv();
    RunIsOrderly(INITIAL, own, events);
  }

  /** Some promise number is not named by any event. */
  lemma {:induction false} UnnamedPromise(events: seq<Event>) returns (own: nat)
    ensures forall later: nat :: own <= later ==> LeavesAlone(events, later)
  {
    own := 0;
    if events != [] {
      own := UnnamedPromise(events[1..]);
      if (events[0].CallResolve? || events[0].CallReject?) && events[0].promise >= own {
        own := events[0].promise + 1;
      }
      forall other: nat | own <= other ensures LeavesAlone(events, other) {
        assert LeavesAlone(events[1..], other);
        forall i | 0 <= i < |events| ensures !Settles(events[i], other) {
          if i > 0 { assert events[i] == events[1..][i - 1]; }
        }
      }
    }
  }

  /** Reachable states are orderly, and stay so, for some promise that is not named anywhere. */
  lemma OrderlySoFar(before: seq<Event>, later: seq<Event>) returns (own: nat)
    ensures Inv(INITIAL) && Orderly(Run(INITIAL, before), own) && LeavesAlone(later, own)
  {
    var a := UnnamedPromise(before);
    var b := UnnamedPromise(later);
    own := if a < b then b else a;
    ReachableIsOrderly(before, own);
  }

  // ---- The fate of one registration once the queue has drained ------------------------------

  ghost predicate Drained(w: World) {
    w.done == |w.log| && w.dropped == {}
  }

  lemma DrainedHasRun(w: World, t: nat)
    requires Inv(w) && Drained(w) && t < |w.registrations|
    ensures IsPromise(w, w.registrations[t].promise)
    ensures w.promises[w.registrations[t].promise].state != Pending ==> HasRun(w, t)
    ensures w.promises[w.registrations[t].promise].state == Pending ==> !Taken(w, t)
  {
    EnqueuedIffSettled(w, t);
    if w.promises[w.registrations[t].promise].state != Pending {
      var j := ExecutedExactlyOnce(w, t);
      assert Executed(w, j);
    }
  }

  /** A registration that hands an outcome on has done so, or both promises are still pending. */
  lemma DrainedSharesFate(w: World, own: nat, t: nat, c: nat)
    requires Orderly(w, own) && Drained(w) && t < |w.registrations| && Watched(w, own, c)
    requires Aims(w.registrations[t], c)
    ensures IsPromise(w, w.registrations[t].promise)
    ensures w.promises[w.registrations[t].promise].state == Pending ==> w.promises[c].state == Pending
    ensures Hands(w, w.registrations[t], c) ==> SameFate(w.promises[c], w.promises[w.registrations[t].promise])
  {
    DrainedHasRun(w, t);
    if w.promises[w.registrations[t].promise].state == Pending {
      assert Claims(w, c, Waiting(t));
      ClaimedIsPending(w, own, c, Waiting(t));
    } else {
      assert Followed(w, own, w.registrations[t]);
    }
  }

  // ---- The child of a handler ---------------------------------------------------------------

  /** The promise that the innermost handler is to settle. */
  ghost function ChildInScript(w: World): Option<nat> {
    if w.running == [] then None else w.running[|w.running| - 1]
  }

  /** `then` with script handlers: when its reaction is run, its child is the one to be settled. */
  lemma HandlerSettlesItsChild(before: seq<Event>, p: nat, f: Option<nat>, r: Option<nat>, later: seq<Event>)
    ensures Inv(INITIAL)
    ensures
      var start := Run(INITIAL, before);
      IsPromise(start, p) ==>
      && Inv(Step(start, CallThen(p, f, r)))
      && EntersFor(Run(Step(start, CallThen(p, f, r)), later), |start.registrations|, |start.promises|)
  {
    InitialInv();
    var start := Run(INITIAL, before);
    if IsPromise(start, p) {
      StepKeepsInv(start, CallThen(p, f, r));
      var called := Step(start, CallThen(p, f, r));
      RunsOnlyExtend(called, later);
      EntersForItsChild(Run(called, later), |start.registrations|, |start.promises|);
    }
  }

  lemma ThenIsRegistered(w: World, p: nat, f: Option<nat>, r: Option<nat>)
    requires Inv(w) && IsPromise(w, p)
    ensures
      Step(w, CallThen(p, f, r)).registrations ==
      w.registrations + [Registration(p, if f.Some? then Some(Script(f.value)) else None,
                                      if r.Some? then Some(Script(r.value)) else None, Some(|w.promises|))]
  {
  }

  /** What runs for a call of `then`, whenever it runs: its first handler if the promise was fulfilled, its
      second if it was rejected, with the result of the promise and for the child of the call. */
  lemma ThenRunsItsHandler(before: seq<Event>, p: nat, f: Option<nat>, r: Option<nat>, later: seq<Event>, j: nat)
    ensures Inv(INITIAL)
    ensures
      var start := Run(INITIAL, before);
      IsPromise(start, p) ==>
        && Inv(Step(start, CallThen(p, f, r)))
        && var w := Run(Step(start, CallThen(p, f, r)), later);
           Executed(w, j) && w.log[j].tag == |start.registrations| ==>
             && IsPromise(w, p) && w.promises[p].state != Pending
             && w.log[j].argument == w.promises[p].result && w.log[j].downstream == Some(|start.promises|)
             && var handler := if w.promises[p].state == Fulfilled then f else r;
                w.log[j].handler == if handler.Some? then Some(Script(handler.value)) else None
  {
    InitialInv();
    var start := Run(INITIAL, before);
    if IsPromise(start, p) {
      ThenIsRegistered(start, p, f, r);
      StepKeepsInv(start, CallThen(p, f, r));
      var called := Step(start, CallThen(p, f, r));
      var w := Run(called, later);
      RunsOnlyExtend(called, later);
      if Executed(w, j) && w.log[j].tag == |start.registrations| {
        assert TaskOk(w, w.log[j]);
        assert w.registrations[w.log[j].tag] == called.registrations[w.log[j].tag];
      }
    }
  }

  /** While a handler runs, the promise it is to settle is pending. */
  lemma HandlerHasPendingChild(before: seq<Event>, i: nat)
    ensures Inv(INITIAL)
    ensures
      var w := Run(INITIAL, before);
      i < |w.running| && w.running[i].Some? ==>
        IsPromise(w, w.running[i].value) && w.promises[w.running[i].value].state == Pending
  {
    var own := OrderlySoFar(before, []);
    var w := Run(INITIAL, before);
    if i < |w.running| && w.running[i].Some? {
      assert FrameOk(w, w.running[i]);
      assert Claims(w, w.running[i].value, Running(i));
      ClaimedIsPending(w, own, w.running[i].value, Running(i));
    }
  }

  /** A handler that throws rejects its child with the message. */
  lemma ThrowRejectsChild(before: seq<Event>, message: string, later: seq<Event>)
    ensures Inv(INITIAL)
    ensures
      var w := Run(INITIAL, before);
      ChildInScript(w).Some? ==>
        && Inv(Step(w, EndTask(Err(message))))
        && Settled(Run(Step(w, EndTask(Err(message))), later), ChildInScript(w).value, Rejected, Text(message))
  {
    var own := OrderlySoFar(before, []);
    var w := Run(INITIAL, before);
    if ChildInScript(w).Some? {
      HandlerHasPendingChild(before, |w.running| - 1);
      StepKeepsInv(w, EndTask(Err(message)));
      SettledStays(Step(w, EndTask(Err(message))), later, ChildInScript(w).value);
    }
  }

  /** A handler that returns a plain value fulfils its child with it. */
  lemma ReturnFulfilsChild(before: seq<Event>, v: Value, later: seq<Event>)
    requires !v.PromiseRef?
    ensures Inv(INITIAL)
    ensures
      var w := Run(INITIAL, before);
      ChildInScript(w).Some? ==>
        && Inv(Step(w, EndTask(Ok(v))))
        && Settled(Run(Step(w, EndTask(Ok(v))), later), ChildInScript(w).value, Fulfilled, v)
  {
    var own := OrderlySoFar(before, []);
    var w := Run(INITIAL, before);
    if ChildInScript(w).Some? {
      HandlerHasPendingChild(before, |w.running| - 1);
      StepKeepsInv(w, EndTask(Ok(v)));
      SettledStays(Step(w, EndTask(Ok(v))), later, ChildInScript(w).value);
    }
  }

  // ---- Resolving with a promise -------------------------------------------------------------

  /** Resolving a free promise with another one: it has the other's outcome, or will adopt it. */
  lemma ResolvedWithPromise(w: World, own: nat, c: nat, q: nat)
    requires Inv(w) && FulfilledWithPlainValues(w) && Free(w, own, c) && Watched(w, own, c)
    requires IsPromise(w, q) && q != c
    ensures
      var w' := Resolve(w, c, PromiseRef(q));
      && IsPromise(w', c) && IsPromise(w', q)
      && (w.promises[q].state != Pending ==> w'.promises[q] == w.promises[q] && SameFate(w'.promises[c], w.promises[q]))
      && (w.promises[q].state == Pending ==>
            |w'.registrations| == |w.registrations| + 1 && w'.registrations[|w.registrations|].promise == q
            && Adopts(w'.registrations[|w.registrations|], c))
  {
    assert PromiseOk(w, q);
  }

  /** From then on the two share one fate. */
  lemma ThenSharesFate(w: World, own: nat, c: nat, q: nat, later: seq<Event>, t: nat)
    requires Orderly(w, own) && LeavesAlone(later, own) && Watched(w, own, c) && IsPromise(w, q)
    requires
      || (w.promises[q].state != Pending && SameFate(w.promises[c], w.promises[q]))
      || (t < |w.registrations| && w.registrations[t].promise == q && Adopts(w.registrations[t], c))
    requires Drained(Run(w, later))
    ensures IsPromise(Run(w, later), c) && IsPromise(Run(w, later), q)
    ensures SameFate(Run(w, later).promises[c], Run(w, later).promises[q])
  {
    var w' := Run(w, later);
    RunsOnlyExtend(w, later);
    RunIsOrderly(w, own, later);
    assert PromiseStep(w.promises[c], w'.promises[c]) && PromiseStep(w.promises[q], w'.promises[q]);
    if t < |w.registrations| && w.registrations[t].promise == q && Adopts(w.registrations[t], c) {
      DrainedSharesFate(w', own, t, c);
    }
  }

  /** A handler that returns a promise: once the queue has drained the child shares its fate. A handler
      that returns its own child rejects it. */
  lemma ReturnedPromiseDecidesChild(before: seq<Event>, q: nat, later: seq<Event>)
    ensures Inv(INITIAL)
    ensures
      var w := Run(INITIAL, before);
      ChildInScript(w).Some? && IsPromise(w, q) ==>
        && Inv(Step(w, EndTask(Ok(PromiseRef(q)))))
        && var c, w' := ChildInScript(w).value, Run(Step(w, EndTask(Ok(PromiseRef(q)))), later);
           && (q == c ==> Settled(w', c, Rejected, Text("TypeError: Chaining cycle detected for promise")))
           && (q != c && Drained(w') ==>
                 IsPromise(w', c) && IsPromise(w', q) && SameFate(w'.promises[c], w'.promises[q]))
  {
    var own := OrderlySoFar(before, later);
    var w, e := Run(INITIAL, before), EndTask(Ok(PromiseRef(q)));
    if ChildInScript(w).Some? && IsPromise(w, q) {
      var c := ChildInScript(w).value;
      HandlerHasPendingChild(before, |w.running| - 1);
      StepIsOrderly(w, own, e);
      EndsWithPromise(w, own, c, q);
      if q == c {
        SettledStays(Step(w, e), later, c);
      } else if Drained(Run(Step(w, e), later)) {
        ThenSharesFate(Step(w, e), own, c, q, later, |w.registrations|);
      }
    }
  }

  lemma EndsWithPromise(w: World, own: nat, c: nat, q: nat)
    requires Orderly(w, own) && ChildInScript(w) == Some(c) && IsPromise(w, q)
    requires IsPromise(w, c) && w.promises[c].state == Pending
    ensures Watched(End(w, Ok(PromiseRef(q))), own, c) && IsPromise(End(w, Ok(PromiseRef(q))), q)
    ensures q == c ==> Settled(End(w, Ok(PromiseRef(q))), c, Rejected, CYCLE)
    ensures
      var w', t := End(w, Ok(PromiseRef(q))), |w.registrations|;
      q != c ==>
        || (w'.promises[q].state != Pending && SameFate(w'.promises[c], w'.promises[q]))
        || (t < |w'.registrations| && w'.registrations[t].promise == q && Adopts(w'.registrations[t], c))
  {
    var last := |w.running| - 1;
    RunningIsImmaterial(w, w.running[..last]);
    LeavingFrees(w, own);
    var left := w.(running := w.running[..last]);
    CoreFulfilled(left);
    EndKeepsInv(w, Ok(PromiseRef(q)));
    assert FrameOk(w, w.running[last]);
    assert PromiseStep(w.promises[c], End(w, Ok(PromiseRef(q))).promises[c]);
    if q != c { ResolvedWithPromise(left, own, c, q); }
  }

  /** `then` without a handler for the outcome passes state and value on; while the promise is pending, so
      is the child. */
  lemma MissingHandlerPassesOn(before: seq<Event>, p: nat, f: Option<nat>, r: Option<nat>, later: seq<Event>)
    ensures Inv(INITIAL)
    ensures
      var start := Run(INITIAL, before);
      IsPromise(start, p) ==>
      && Inv(Step(start, CallThen(p, f, r)))
      && var c, w := |start.promises|, Run(Step(start, CallThen(p, f, r)), later);
         Drained(w) ==>
           && IsPromise(w, c) && IsPromise(w, p)
           && (w.promises[p].state == Pending ==> w.promises[c].state == Pending)
           && (w.promises[p].state == Fulfilled && f.None? ==> SameFate(w.promises[c], w.promises[p]))
           && (w.promises[p].state == Rejected && r.None? ==> SameFate(w.promises[c], w.promises[p]))
  {
    var own := OrderlySoFar(before, later);
    var start, e := Run(INITIAL, before), CallThen(p, f, r);
    if IsPromise(start, p) {
      StepIsOrderly(start, own, e);
      var called := Step(start, e);
      var c, w, t := |start.promises|, Run(called, later), |start.registrations|;
      RunsOnlyExtend(called, later);
      RunIsOrderly(called, own, later);
      assert PromiseStep(called.promises[c], w.promises[c]);
      assert w.registrations[t] == Registration(p, ScriptHandler(f), ScriptHandler(r), Some(c));
      if Drained(w) { DrainedSharesFate(w, own, t, c); }
    }
  }

  // ---- A promise that script resolves -------------------------------------------------------

  /** The resolving functions settle a pending promise at once and for good: the one with a plain value, the
      other with any value as the reason. */
  lemma ScriptSettles(before: seq<Event>, p: nat, v: Value, later: seq<Event>)
    ensures Inv(INITIAL)
    ensures
      var start := Run(INITIAL, before);
      Enabled(start, CallReject(p, v)) && start.promises[p].state == Pending ==>
        && Inv(Step(start, CallReject(p, v))) && Inv(Step(start, CallResolve(p, v)))
        && Settled(Run(Step(start, CallReject(p, v)), later), p, Rejected, v)
        && (!v.PromiseRef? ==> Settled(Run(Step(start, CallResolve(p, v)), later), p, Fulfilled, v))
  {
    InitialInv();
    var start := Run(INITIAL, before);
    if Enabled(start, CallReject(p, v)) && start.promises[p].state == Pending {
      StepKeepsInv(start, CallReject(p, v));
      StepKeepsInv(start, CallResolve(p, v));
      SettledStays(Step(start, CallReject(p, v)), later, p);
      if !v.PromiseRef? { SettledStays(Step(start, CallResolve(p, v)), later, p); }
    }
  }

  ghost predicate NotAdopting(w: World, p: nat) {
    forall t :: 0 <= t < |w.registrations| ==> !Adopts(w.registrations[t], p)
  }

  lemma UntouchedIsFree(w: World, own: nat, p: nat)
    requires Orderly(w, own) && IsPromise(w, p) && w.promises[p].role == Exposed && w.promises[p].state == Pending
    requires NotAdopting(w, p)
    ensures Orderly(w, p) && Free(w, p, p)
  {
    forall x: Claim ensures !Claims(w, p, x) {
      match x
      case Waiting(t) => if t < |w.registrations| { assert ShapeOk(w, w.registrations[t]); }
      case Running(i) => if i < |w.running| { assert FrameOk(w, w.running[i]); }
    }
    forall c | 0 <= c < |w.promises| && Watched(w, p, c) ensures SoleClaim(w, c) {
      if c != p { assert Watched(w, own, c); }
    }
    forall t: nat | t < |w.registrations| && HasRun(w, t) ensures Followed(w, p, w.registrations[t]) {
      var r := w.registrations[t];
      assert ShapeOk(w, r) && Followed(w, own, r);
      forall c: nat | Watched(w, p, c) && Hands(w, r, c)
        ensures Settled(w, c, w.promises[r.promise].state, w.promises[r.promise].result)
      {
        assert c != p && Watched(w, own, c);
      }
    }
  }

  /** A pending promise that script resolves for the first time, and never again: it is fulfilled with a
      plain value, rejected if resolved with itself, and shares the fate of any other promise. */
  lemma ResolvedOnce(before: seq<Event>, p: nat, v: Value, later: seq<Event>)
    requires LeavesAlone(later, p)
    ensures Inv(INITIAL)
    ensures
      var start := Run(INITIAL, before);
      Enabled(start, CallResolve(p, v)) && start.promises[p].state == Pending && NotAdopting(start, p) ==>
        && Inv(Step(start, CallResolve(p, v)))
        && var w := Run(Step(start, CallResolve(p, v)), later);
           && (!v.PromiseRef? ==> Settled(w, p, Fulfilled, v))
           && (v == PromiseRef(p) ==>
                 Settled(w, p, Rejected, Text("TypeError: Chaining cycle detected for promise")))
           && (v.PromiseRef? && v.promise != p && Drained(w) ==>
                 IsPromise(w, p) && IsPromise(w, v.promise)
                 && SameFate(w.promises[p], w.promises[v.promise]))
  {
    var own := OrderlySoFar(before, []);
    var start, e := Run(INITIAL, before), CallResolve(p, v);
    if Enabled(start, e) && start.promises[p].state == Pending && NotAdopting(start, p) {
      UntouchedIsFree(start, own, p);
      StepIsOrderly(start, p, e);
      CoreFulfilled(start);
      if !v.PromiseRef? || v.promise == p {
        SettledStays(Step(start, e), later, p);
      } else if Drained(Run(Step(start, e), later)) {
        ResolvedWithPromise(start, p, p, v.promise);
        assert PromiseStep(start.promises[p], Step(start, e).promises[p]);
        ThenSharesFate(Step(start, e), p, p, v.promise, later, |start.registrations|);
      }
    }
  }

  /** Whatever script does in between: when an adoption is run, the promise ends like the adopted one if
      it is still pending, and else if and only if it ended like it before. */
  lemma AdoptionDecidesIff(before: seq<Event>, p: nat, later: seq<Event>)
    ensures Inv(INITIAL)
    ensures
      var w := Run(INITIAL, before);
      w.done < |w.log| && w.log[w.done].PromiseReaction? && w.log[w.done].tag < |w.registrations|
        && Adopts(w.registrations[w.log[w.done].tag], p) ==>
        && Inv(Step(w, BeginTask))
        && var q, w' := w.registrations[w.log[w.done].tag].promise, Run(Step(w, BeginTask), later);
           && IsPromise(w, p) && IsPromise(w, q) && IsPromise(w', p) && IsPromise(w', q)
           && (SameFate(w'.promises[p], w'.promises[q]) <==>
                 (w.promises[p].state == Pending || SameFate(w.promises[p], w.promises[q])))
  {
    InitialInv();
    var w := Run(INITIAL, before);
    if w.done < |w.log| && w.log[w.done].PromiseReaction? && w.log[w.done].tag < |w.registrations|
       && Adopts(w.registrations[w.log[w.done].tag], p)
    {
      AdoptionRuns(w, p);
      StepKeepsInv(w, BeginTask);
      RunsOnlyExtend(Step(w, BeginTask), later);
      var q, next, w' := w.log[w.done].source, Step(w, BeginTask), Run(Step(w, BeginTask), later);
      assert PromiseStep(w.promises[q], next.promises[q]) && PromiseStep(next.promises[q], w'.promises[q]);
      assert PromiseStep(w.promises[p], next.promises[p]) && PromiseStep(next.promises[p], w'.promises[p]);
    }
  }

  lemma AdoptionRuns(w: World, p: nat)
    requires Inv(w) && w.done < |w.log| && w.log[w.done].PromiseReaction? && w.log[w.done].tag < |w.registrations|
    requires Adopts(w.registrations[w.log[w.done].tag], p)
    ensures IsPromise(w, p) && IsPromise(w, w.log[w.done].source)
    ensures w.registrations[w.log[w.done].tag].promise == w.log[w.done].source
    ensures w.promises[w.log[w.done].source].state != Pending
    ensures IsPromise(Begin(w), p)
    ensures w.promises[p].state == Pending ==> SameFate(Begin(w).promises[p], w.promises[w.log[w.done].source])
  {
    var task := w.log[w.done];
    assert TaskOk(w, task) && RegistrationOk(w, w.registrations[task.tag]) && PromiseOk(w, task.source);
    NextTask(w);
    TakeKeepsCore(w);
    CoreFulfilled(Take(w));
    RunClosureKeepsInv(w);
  }

  // ---- A promise that script resolves twice -------------------------------------------------

  /** Resolving with a pending promise leaves both pending. */
  lemma AdoptingSettlesNone(w: World, p: nat, q: nat)
    requires Inv(w) && IsPromise(w, p) && IsPromise(w, q) && p != q && FulfilledWithPlainValues(w)
    requires w.promises[p].state == Pending && w.promises[q].state == Pending
    ensures
      var w' := Resolve(w, p, PromiseRef(q));
      && |w'.promises| == |w.promises|
      && forall c :: 0 <= c < |w.promises| ==>
           w'.promises[c].state == w.promises[c].state && w'.promises[c].role == w.promises[c].role
  {
  }

  /** There is no record that a promise has been resolved: a second call settles it, and the promise it was
      first resolved with can end otherwise. */
  lemma ResolvedTwiceDiffers(before: seq<Event>, p: nat, q: nat, v: Value, reason: Value, later: seq<Event>)
    requires !v.PromiseRef? && p != q
    ensures Inv(INITIAL)
    ensures
      var start := Run(INITIAL, before);
      && Enabled(start, CallResolve(p, PromiseRef(q))) && start.promises[p].state == Pending
      && Enabled(start, CallReject(q, reason)) && start.promises[q].state == Pending ==>
        var w := Run(start, [CallResolve(p, PromiseRef(q)), CallResolve(p, v), CallReject(q, reason)] + later);
        Settled(w, p, Fulfilled, v) && Settled(w, q, Rejected, reason)
  {
    InitialInv();
    var start := Run(INITIAL, before);
    if && Enabled(start, CallResolve(p, PromiseRef(q))) && start.promises[p].state == Pending
       && Enabled(start, CallReject(q, reason)) && start.promises[q].state == Pending
    {
      CoreFulfilled(start);
      AdoptingSettlesNone(start, p, q);
      StepKeepsInv(start, CallResolve(p, PromiseRef(q)));
      TwoMoreCalls(Step(start, CallResolve(p, PromiseRef(q))), p, q, v, reason, later);
      assert ([CallResolve(p, PromiseRef(q)), CallResolve(p, v), CallReject(q, reason)] + later)[1..]
          == [CallResolve(p, v), CallReject(q, reason)] + later;
    }
  }

  lemma TwoMoreCalls(w: World, p: nat, q: nat, v: Value, reason: Value, later: seq<Event>)
    requires Inv(w) && !v.PromiseRef? && p != q
    requires Enabled(w, CallResolve(p, v)) && w.promises[p].state == Pending
    requires Enabled(w, CallReject(q, reason)) && w.promises[q].state == Pending
    ensures
      var w' := Run(w, [CallResolve(p, v), CallReject(q, reason)] + later);
      Settled(w', p, Fulfilled, v) && Settled(w', q, Rejected, reason)
  {
    StepKeepsInv(w, CallResolve(p, v));
    var next := Step(w, CallResolve(p, v));
    StepKeepsInv(next, CallReject(q, reason));
    var last := Step(next, CallReject(q, reason));
    assert ([CallResolve(p, v), CallReject(q, reason)] + later)[1..] == [CallReject(q, reason)] + later;
    assert ([CallReject(q, reason)] + later)[1..] == later;
    SettledStays(last, later, p);
    SettledStays(last, later, q);
  }
}
