/** Who may still settle the child of a reaction: one waiting reaction or one running handler, never two. */
module PromiseClaims {
  import opened Options
  import opened PromiseWorld
  import opened PromiseSafety
  import opened PromiseOrder
  import opened PromiseAll
  import opened PromiseMachine

  // ---- Claims -------------------------------------------------------------------------------

  ghost predicate IsDerived(w: World, c: nat) {
    IsPromise(w, c) && w.promises[c].role == Derived
  }

  /** The promises watched here: the children of reactions, and one promise `own` that script settles
      itself, and only once. */
  ghost predicate Watched(w: World, own: nat, c: nat) {
    IsDerived(w, c) || (c == own && IsPromise(w, c) && w.promises[c].role == Exposed)
  }

  /** The registration makes `c` adopt the outcome of the promise it stands on. */
  predicate Adopts(r: Registration, c: nat) {
    r.onFulfilled == Some(ResolveTo(c)) && r.onRejected == Some(RejectTo(c)) && r.downstream.None?
  }

  predicate Aims(r: Registration, c: nat) {
    r.downstream == Some(c) || Adopts(r, c)
  }

  predicate Resolving(h: Option<Handler>) {
    h.Some? && (h.value.ResolveTo? || h.value.RejectTo?)
  }

  /** Only children of reactions are settled by reactions, and adopting comes in one shape. */
  ghost predicate ShapeOk(w: World, r: Registration) {
    && (r.downstream.Some? ==> IsDerived(w, r.downstream.value))
    && (Resolving(r.onFulfilled) || Resolving(r.onRejected) ==>
          r.onFulfilled.Some? && r.onFulfilled.value.ResolveTo? && Adopts(r, r.onFulfilled.value.promise))
  }

  /** The reaction of the registration has been taken from the queue. */
  ghost predicate Taken(w: World, t: nat) {
    exists j: nat :: j < w.done && ReactionTo(w, j, t)
  }

  datatype Claim = Waiting(tag: nat) | Running(frame: nat)

  /** A way in which `c` is still to be settled. */
  ghost predicate Claims(w: World, c: nat, claim: Claim) {
    match claim
    case Waiting(t) => t < |w.registrations| && Aims(w.registrations[t], c) && !Taken(w, t)
    case Running(i) => i < |w.running| && w.running[i] == Some(c)
  }

  ghost predicate NoClaims(w: World, c: nat) {
    forall x: Claim :: !Claims(w, c, x)
  }

  ghost predicate SoleClaim(w: World, c: nat)
    requires IsPromise(w, c)
  {
    && (forall x: Claim, y: Claim :: Claims(w, c, x) && Claims(w, c, y) ==> x == y)
    && (w.promises[c].state != Pending ==> NoClaims(w, c))
  }

  ghost predicate FrameOk(w: World, frame: Option<nat>) {
    frame.Some? ==> IsDerived(w, frame.value)
  }

  ghost predicate Claimed(w: World, own: nat) {
    && (forall t :: 0 <= t < |w.registrations| ==> ShapeOk(w, w.registrations[t]))
    && (forall i :: 0 <= i < |w.running| ==> FrameOk(w, w.running[i]))
    && (forall c :: 0 <= c < |w.promises| && Watched(w, own, c) ==> SoleClaim(w, c))
  }

  /** The promise can be settled by whoever just gave up the claim on it. */
  ghost predicate Free(w: World, own: nat, c: nat) {
    IsPromise(w, c) && (Watched(w, own, c) ==> w.promises[c].state == Pending && NoClaims(w, c))
  }

  lemma ClaimedIsPending(w: World, own: nat, c: nat, x: Claim)
    requires Claimed(w, own) && Watched(w, own, c) && Claims(w, c, x)
    ensures w.promises[c].state == Pending
  {
    assert SoleClaim(w, c);
  }

  // ---- What claims depend on ----------------------------------------------------------------

  ghost predicate SameClaimants(w: World, w': World) {
    && w'.registrations == w.registrations && w'.running == w.running
    && w'.done == w.done <= |w.log| && w.log <= w'.log
  }

  lemma TakenAgrees(w: World, w': World, t: nat)
    requires w'.done == w.done <= |w.log| && w.log <= w'.log
    ensures Taken(w', t) <==> Taken(w, t)
  {
    if Taken(w, t) {
      var j: nat :| j < w.done && ReactionTo(w, j, t);
      assert ReactionTo(w', j, t);
    }
    if Taken(w', t) {
      var j: nat :| j < w'.done && ReactionTo(w', j, t);
      assert ReactionTo(w, j, t);
    }
  }

  lemma ClaimsAgree(w: World, w': World, c: nat, x: Claim)
    requires SameClaimants(w, w')
    ensures Claims(w', c, x) <==> Claims(w, c, x)
  {
    if x.Waiting? { TakenAgrees(w, w', x.tag); }
  }

  lemma FreeAgrees(w: World, own: nat, w': World, c: nat)
    requires SameClaimants(w, w') && Free(w, own, c) && IsPromise(w', c)
    requires w'.promises[c].role == w.promises[c].role && w'.promises[c].state == w.promises[c].state
    ensures Free(w', own, c)
  {
    forall x: Claim | Watched(w, own, c) ensures !Claims(w', c, x) {
      ClaimsAgree(w, w', c, x);
    }
  }

  lemma ExtendsKeepsShape(w: World, w': World, r: Registration)
    requires Extends(w, w') && ShapeOk(w, r)
    ensures ShapeOk(w', r)
  {
    if r.downstream.Some? {
      assert PromiseStep(w.promises[r.downstream.value], w'.promises[r.downstream.value]);
    }
  }

  lemma ExtendsKeepsFrame(w: World, w': World, frame: Option<nat>)
    requires Extends(w, w') && FrameOk(w, frame)
    ensures FrameOk(w', frame)
  {
    if frame.Some? { assert PromiseStep(w.promises[frame.value], w'.promises[frame.value]); }
  }

  lemma ExtendsKeepsShapes(w: World, own: nat, w': World)
    requires Claimed(w, own) && Extends(w, w')
    ensures forall t :: 0 <= t < |w.registrations| ==> ShapeOk(w', w'.registrations[t])
    ensures forall i :: 0 <= i < |w.running| ==> FrameOk(w', w.running[i])
  {
    forall t | 0 <= t < |w.registrations| ensures ShapeOk(w', w'.registrations[t]) {
      ExtendsKeepsShape(w, w', w.registrations[t]);
    }
    forall i | 0 <= i < |w.running| ensures FrameOk(w', w.running[i]) {
      ExtendsKeepsFrame(w, w', w.running[i]);
    }
  }

  /** A new promise is aimed at by nothing. */
  lemma NewIsFree(w: World, w': World)
    requires Core(w) && SameClaimants(w, w') && |w'.promises| == |w.promises| + 1
    ensures NoClaims(w', |w.promises|)
  {
    var c := |w.promises|;
    forall x: Claim ensures !Claims(w', c, x) {
      ClaimsAgree(w, w', c, x);
      match x
      case Waiting(t) => if t < |w.registrations| { assert RegistrationOk(w, w.registrations[t]); }
      case Running(i) => if i < |w.running| { assert DownstreamOk(w, w.running[i]); }
    }
  }

  // ---- The operations -----------------------------------------------------------------------

  lemma AppendKeepsClaims(w: World, own: nat, role: Role)
    requires Core(w) && Claimed(w, own)
    ensures Claimed(Append(w, role), own) && NoClaims(Append(w, role), |w.promises|)
  {
    var w' := Append(w, role);
    NewIsFree(w, w');
    ExtendsKeepsShapes(w, own, w');
    forall c | 0 <= c < |w'.promises| && Watched(w', own, c) ensures SoleClaim(w', c) {
      if c < |w.promises| { SoleClaimAgrees(w, w', c); }
    }
  }

  lemma SoleClaimAgrees(w: World, w': World, c: nat)
    requires SameClaimants(w, w') && IsPromise(w, c) && IsPromise(w', c) && SoleClaim(w, c)
    requires w'.promises[c].state == w.promises[c].state || NoClaims(w, c)
    ensures SoleClaim(w', c)
  {
    forall x: Claim ensures Claims(w', c, x) <==> Claims(w, c, x) {
      ClaimsAgree(w, w', c, x);
    }
  }

  lemma SettleKeepsClaims(w: World, own: nat, p: nat, state: State, v: Value)
    requires Core(w) && Claimed(w, own) && MaySettle(w, p, state, v) && (Watched(w, own, p) ==> NoClaims(w, p))
    ensures Claimed(Settle(w, p, state, v), own) && SameClaimants(w, Settle(w, p, state, v))
  {
    var w' := Settle(w, p, state, v);
    SettleExtends(w, p, state, v);
    ExtendsKeepsShapes(w, own, w');
    forall c | 0 <= c < |w'.promises| && Watched(w', own, c) ensures SoleClaim(w', c) {
      assert PromiseStep(w.promises[c], w'.promises[c]);
      SoleClaimAgrees(w, w', c);
    }
  }

  /** A registration claims what it aims at. */
  lemma RegisterKeepsClaims(w: World, own: nat, p: nat, f: Option<Handler>, r: Option<Handler>, d: Option<nat>)
    requires Core(w) && Claimed(w, own) && MayRegister(w, p, f, r, d)
    requires ShapeOk(w, Registration(p, f, r, d))
    requires forall c: nat :: Aims(Registration(p, f, r, d), c) ==> Free(w, own, c)
    ensures Claimed(Register(w, p, f, r, d), own)
  {
    var w' := Register(w, p, f, r, d);
    RegisterExtends(w, p, f, r, d);
    ExtendsKeepsShapes(w, own, w');
    ExtendsKeepsShape(w, w', Registration(p, f, r, d));
    forall c | 0 <= c < |w'.promises| && Watched(w', own, c) ensures SoleClaim(w', c) {
      assert PromiseStep(w.promises[c], w'.promises[c]);
      assert SoleClaim(w, c);
      forall x: Claim | Claims(w', c, x)
        ensures if Aims(Registration(p, f, r, d), c) then x == Waiting(|w.registrations|) else Claims(w, c, x)
      {
        if x.Waiting? { TakenAgrees(w, w', x.tag); }
        if x != Waiting(|w.registrations|) { assert Claims(w, c, x); }
      }
    }
  }

  lemma ThenKeepsClaims(w: World, own: nat, p: nat, f: Option<Handler>, r: Option<Handler>)
    requires Core(w) && Claimed(w, own) && IsPromise(w, p) && HandlerOk(w, f) && HandlerOk(w, r)
    requires !Resolving(f) && !Resolving(r)
    ensures Claimed(Then(w, p, f, r), own)
  {
    var appended := Append(w, Derived);
    AppendKeepsCore(w, Derived);
    AppendKeepsClaims(w, own, Derived);
    ExtendsKeepsHandlers(w, appended, f, None);
    ExtendsKeepsHandlers(w, appended, r, None);
    RegisterKeepsClaims(appended, own, p, f, r, Some(|w.promises|));
  }

  lemma {:induction false} ResolveKeepsClaims(w: World, own: nat, p: nat, v: Value)
    requires Core(w) && Claimed(w, own) && Free(w, own, p) && Valid(w, v) && !w.promises[p].role.AllResult?
    requires FulfilledWithPlainValues(w)
    ensures Claimed(Resolve(w, p, v), own)
    decreases if v.PromiseRef? then 1 else 0
  {
    if v.PromiseRef? {
      if v.promise == p {
        SettleKeepsClaims(w, own, p, Rejected, CYCLE);
      } else {
        var other := w.promises[v.promise];
        assert PromiseOk(w, v.promise);
        match other.state
        case Fulfilled => ResolveKeepsClaims(w, own, p, other.result);
        case Rejected => SettleKeepsClaims(w, own, p, Rejected, other.result);
        case Pending => RegisterKeepsClaims(w, own, v.promise, Some(ResolveTo(p)), Some(RejectTo(p)), None);
      }
    } else {
      SettleKeepsClaims(w, own, p, Fulfilled, v);
    }
  }

  lemma RunningKeepsClaims(w: World, own: nat, running: seq<Option<nat>>)
    requires w.done <= |w.log| && Claimed(w, own) && forall i :: 0 <= i < |running| ==> FrameOk(w, running[i])
    requires running <= w.running
          || (|running| == |w.running| + 1 && w.running <= running
              && (running[|w.running|].Some? ==> Free(w, own, running[|w.running|].value)))
    ensures Claimed(w.(running := running), own)
  {
    var w' := w.(running := running);
    forall t | 0 <= t < |w.registrations| ensures ShapeOk(w', w'.registrations[t]) {
      ExtendsKeepsShape(w, w', w.registrations[t]);
    }
    forall i | 0 <= i < |running| ensures FrameOk(w', running[i]) {
      ExtendsKeepsFrame(w, w', running[i]);
    }
    forall c | 0 <= c < |w'.promises| && Watched(w', own, c) ensures SoleClaim(w', c) {
      assert SoleClaim(w, c);
      forall x: Claim | Claims(w', c, x) ensures Claims(w, c, x) || x == Running(|w.running|) {
        if x.Waiting? { TakenAgrees(w, w', x.tag); }
      }
    }
  }

  /** Leaving a handler frees the promise it was to settle. */
  lemma LeavingFrees(w: World, own: nat)
    requires w.done <= |w.log| && Claimed(w, own) && |w.running| > 0
    ensures Claimed(w.(running := w.running[..|w.running| - 1]), own)
    ensures w.running[|w.running| - 1].Some? ==>
      Free(w.(running := w.running[..|w.running| - 1]), own, w.running[|w.running| - 1].value)
  {
    var last := |w.running| - 1;
    RunningKeepsClaims(w, own, w.running[..last]);
    var w' := w.(running := w.running[..last]);
    assert FrameOk(w, w.running[last]);
    if w.running[last].Some? {
      var c := w.running[last].value;
      assert SoleClaim(w, c) && Claims(w, c, Running(last));
      forall x: Claim ensures !Claims(w', c, x) {
        if Claims(w', c, x) {
          if x.Waiting? { TakenAgrees(w, w', x.tag); }
          assert Claims(w, c, x);
        }
      }
    }
  }

  lemma TakenByTake(w: World, t: nat)
    requires w.done < |w.log|
    ensures Taken(Take(w), t) <==> Taken(w, t) || ReactionTo(w, w.done, t)
  {
    var w' := Take(w);
    if Taken(w, t) {
      var j: nat :| j < w.done && ReactionTo(w, j, t);
      assert ReactionTo(w', j, t);
    }
    if ReactionTo(w, w.done, t) { assert ReactionTo(w', w.done, t); }
    if Taken(w', t) {
      var j: nat :| j < w'.done && ReactionTo(w', j, t);
      assert ReactionTo(w, j, t);
    }
  }

  /** Taking a reaction frees what its registration aims at. */
  lemma TakingFrees(w: World, own: nat)
    requires Core(w) && Claimed(w, own) && w.done < |w.log|
    ensures Claimed(Take(w), own)
    ensures w.log[w.done].PromiseReaction? ==> w.log[w.done].tag < |w.registrations|
    ensures w.log[w.done].PromiseReaction? ==>
      forall c: nat :: Aims(w.registrations[w.log[w.done].tag], c) && IsPromise(w, c) ==> Free(Take(w), own, c)
  {
    var w', task := Take(w), w.log[w.done];
    assert TaskOk(w, task);
    TakeKeepsCore(w);
    ExtendsKeepsShapes(w, own, w');
    forall c, x: Claim | Claims(w', c, x) ensures Claims(w, c, x) {
      if x.Waiting? { TakenByTake(w, x.tag); }
    }
    forall c | 0 <= c < |w'.promises| && Watched(w', own, c) ensures SoleClaim(w', c) {
      assert SoleClaim(w, c);
    }
    if task.PromiseReaction? {
      forall c: nat | Aims(w.registrations[task.tag], c) && IsPromise(w, c) ensures Free(w', own, c) {
        TakenIsFree(w, own, c);
      }
    }
  }

  lemma TakenIsFree(w: World, own: nat, c: nat)
    requires Core(w) && Claimed(w, own) && w.done < |w.log| && w.log[w.done].PromiseReaction? && IsPromise(w, c)
    requires w.log[w.done].tag < |w.registrations| && Aims(w.registrations[w.log[w.done].tag], c)
    ensures Free(Take(w), own, c)
  {
    var w', t := Take(w), w.log[w.done].tag;
    if Watched(w, own, c) {
      if Taken(w, t) {
        var j: nat :| j < w.done && ReactionTo(w, j, t);
        EnqueuedAtMostOnce(w, j, w.done, t);
      }
      assert SoleClaim(w, c) && Claims(w, c, Waiting(t));
      forall x: Claim ensures !Claims(w', c, x) {
        if Claims(w', c, x) {
          if x.Waiting? { TakenByTake(w, x.tag); }
          assert Claims(w, c, x);
        }
      }
    }
  }

  // ---- Promise.all --------------------------------------------------------------------------

  lemma AllsKeepClaims(w: World, own: nat, alls: seq<All>)
    requires w.done <= |w.log| && Claimed(w, own)
    ensures Claimed(w.(alls := alls), own)
  {
    var w' := w.(alls := alls);
    forall t | 0 <= t < |w.registrations| ensures ShapeOk(w', w'.registrations[t]) {
      assert ShapeOk(w, w.registrations[t]);
    }
    forall i | 0 <= i < |w.running| ensures FrameOk(w', w'.running[i]) {
      assert FrameOk(w, w.running[i]);
    }
    forall c | 0 <= c < |w'.promises| && Watched(w', own, c) ensures SoleClaim(w', c) {
      SoleClaimAgrees(w, w', c);
    }
  }

  lemma BeginAllKeepsClaims(w: World, own: nat, total: nat)
    requires Inv(w) && Claimed(w, own)
    ensures FulfilledWithPlainValues(w) && Claimed(BeginAll(w, total), own)
  {
    CoreFulfilled(w);
    var child := |w.promises|;
    if total == 0 {
      AppendKeepsCore(w, Derived);
      AppendKeepsClaims(w, own, Derived);
      SettleKeepsClaims(Append(w, Derived), own, child, Fulfilled, ArrayOf([]));
    } else {
      AppendKeepsCore(w, AllResult(|w.alls|));
      AppendKeepsClaims(w, own, AllResult(|w.alls|));
      AllsKeepClaims(Append(w, AllResult(|w.alls|)), own, w.alls + [All(child, Undefineds(total), total, [])]);
    }
  }

  lemma AttachElementKeepsClaims(w: World, own: nat, k: nat, element: Value)
    requires Inv(w) && Claimed(w, own) && HasRoom(w, k) && Valid(w, element)
    ensures FulfilledWithPlainValues(w) && Claimed(AttachElement(w, k, element), own)
  {
    ItemPromiseKeepsInv(w, element);
    var (w', item) := ItemPromise(w, element);
    if !element.PromiseRef? {
      AppendKeepsCore(w, Derived);
      AppendKeepsClaims(w, own, Derived);
      CoreFulfilled(Append(w, Derived));
      ResolveKeepsClaims(Append(w, Derived), own, |w.promises|, element);
    }
    var all := w'.alls[k];
    var f, r := Some(AllResolve(k, |all.tags|)), Some(AllReject(k));
    ThenKeepsCore(w', item, f, r);
    ThenKeepsClaims(w', own, item, f, r);
    AllsKeepClaims(Then(w', item, f, r), own, w'.alls[k := all.(tags := all.tags + [|w'.registrations|])]);
  }

  lemma {:induction false} AttachFromKeepsClaims(w: World, own: nat, k: nat, elements: seq<Value>, i: nat)
    requires Inv(w) && Claimed(w, own) && k < |w.alls| && i <= |elements| && AllValid(w, elements)
    requires |w.alls[k].tags| == i && |w.alls[k].results| == |elements|
    ensures Claimed(AttachFrom(w, k, elements, i), own)
    decreases |elements| - i
  {
    if i < |elements| {
      AttachElementKeepsInv(w, k, elements[i]);
      AttachElementKeepsClaims(w, own, k, elements[i]);
      var next := AttachElement(w, k, elements[i]);
      ExtendsKeepsValid(w, next, elements);
      AttachFromKeepsClaims(next, own, k, elements, i + 1);
    }
  }

  lemma CallAllKeepsClaims(w: World, own: nat, elements: seq<Value>)
    requires Inv(w) && Claimed(w, own) && AllValid(w, elements)
    ensures Claimed(CallAll(w, elements), own)
  {
    BeginAllKeepsInv(w, |elements|);
    BeginAllKeepsClaims(w, own, |elements|);
    ExtendsKeepsValid(w, BeginAll(w, |elements|), elements);
    if elements != [] { AttachFromKeepsClaims(BeginAll(w, |elements|), own, |w.alls|, elements, 0); }
  }

  // ---- Tasks --------------------------------------------------------------------------------

  lemma FinishKeepsClaims(w: World, own: nat, downstream: Option<nat>, outcome: Outcome)
    requires Core(w) && Claimed(w, own) && DownstreamOk(w, downstream) && (outcome.Ok? ==> Valid(w, outcome.value))
    requires downstream.Some? ==> Free(w, own, downstream.value)
    ensures FulfilledWithPlainValues(w) && Claimed(Finish(w, downstream, outcome), own)
  {
    CoreFulfilled(w);
    if downstream.Some? {
      match outcome
      case Ok(v) => ResolveKeepsClaims(w, own, downstream.value, v);
      case Err(message) => SettleKeepsClaims(w, own, downstream.value, Rejected, Text(message));
    }
  }

  /** The handler of the next task, if it makes a promise adopt an outcome, does so for the promise its
      registration aims at, and is all that the reaction does. */
  lemma NextAdopts(w: World, own: nat)
    requires Inv(w) && Claimed(w, own) && w.done < |w.log| && w.log[w.done].PromiseReaction?
    ensures w.log[w.done].tag < |w.registrations|
    ensures
      var task := w.log[w.done];
      var r := w.registrations[task.tag];
      && task.downstream == r.downstream && (task.downstream.Some? ==> Aims(r, task.downstream.value))
      && (Resolving(task.handler) ==>
            && Adopts(r, task.handler.value.promise) && IsPromise(w, task.handler.value.promise)
            && task.isRejection == task.handler.value.RejectTo?)
  {
    var task := w.log[w.done];
    assert TaskOk(w, task) && ShapeOk(w, w.registrations[task.tag]);
    assert RegistrationOk(w, w.registrations[task.tag]);
  }

  lemma ClosureKeepsClaims(w: World, own: nat)
    requires Inv(w) && Claimed(w, own) && w.done < |w.log| && w.log[w.done].PromiseReaction?
    requires w.log[w.done].handler.Some? && !w.log[w.done].handler.value.Script?
    ensures Claimed(RunClosure(w), own)
    ensures w.log[w.done].downstream.Some? ==> Free(RunClosure(w), own, w.log[w.done].downstream.value)
  {
    var task := w.log[w.done];
    NextTask(w);
    NextAdopts(w, own);
    TakingFrees(w, own);
    TakeKeepsCore(w);
    CoreFulfilled(Take(w));
    match task.handler.value
    case ResolveTo(p) => ResolveKeepsClaims(Take(w), own, p, task.argument);
    case RejectTo(p) => SettleKeepsClaims(Take(w), own, p, Rejected, task.argument);
    case AllResolve(k, i) => FireKeepsClaims(w, own, k, i);
    case AllReject(k) => RejectAllKeepsClaims(w, own, k);
  }

  lemma FireKeepsClaims(w: World, own: nat, k: nat, i: nat)
    requires Inv(w) && Claimed(w, own) && w.done < |w.log| && w.log[w.done].PromiseReaction?
    requires w.log[w.done].handler == Some(AllResolve(k, i))
    ensures Claimed(RunClosure(w), own)
    ensures w.log[w.done].downstream.Some? ==> Free(RunClosure(w), own, w.log[w.done].downstream.value)
  {
    NextTask(w);
    NextAdopts(w, own);
    TakingFrees(w, own);
    NextFiresIff(w, k, i);
    FiringHasRemaining(w, k, i);
    RecordedIsCounted(w, k, i);
    assert AllOk(w, k);
    var v := w.log[w.done].argument;
    var recorded := Recorded(Take(w), k, i, v);
    var all := recorded.alls[k];
    AllsKeepClaims(Take(w), own, recorded.alls);
    if all.remaining == 0 { SettleKeepsClaims(recorded, own, all.child, Fulfilled, ArrayOf(all.results)); }
    if w.log[w.done].downstream.Some? { FreeAgrees(Take(w), own, RunClosure(w), w.log[w.done].downstream.value); }
  }

  lemma RejectAllKeepsClaims(w: World, own: nat, k: nat)
    requires Inv(w) && Claimed(w, own) && w.done < |w.log| && w.log[w.done].PromiseReaction?
    requires w.log[w.done].handler == Some(AllReject(k))
    ensures Claimed(RunClosure(w), own)
    ensures w.log[w.done].downstream.Some? ==> Free(RunClosure(w), own, w.log[w.done].downstream.value)
  {
    NextTask(w);
    NextAdopts(w, own);
    TakingFrees(w, own);
    RejectionExtends(w, k);
    TakeKeepsCore(w);
    SettleKeepsClaims(Take(w), own, w.alls[k].child, Rejected, w.log[w.done].argument);
    if w.log[w.done].downstream.Some? { FreeAgrees(Take(w), own, RunClosure(w), w.log[w.done].downstream.value); }
  }

  lemma BeginKeepsClaims(w: World, own: nat)
    requires Inv(w) && Claimed(w, own) && w.done < |w.log|
    ensures Claimed(Begin(w), own)
  {
    var task := w.log[w.done];
    TakingFrees(w, own);
    TakeKeepsCore(w);
    CoreFulfilled(Take(w));
    match task
    case Callable(_) => RunningKeepsClaims(Take(w), own, w.running + [None]);
    case PromiseReaction(_, _, handler, argument, downstream, isRejection) =>
      NextTask(w);
      NextAdopts(w, own);
      if handler.None? {
        if downstream.Some? {
          if isRejection {
            SettleKeepsClaims(Take(w), own, downstream.value, Rejected, argument);
          } else {
            ResolveKeepsClaims(Take(w), own, downstream.value, argument);
          }
        }
      } else if handler.value.Script? {
        assert ShapeOk(w, w.registrations[task.tag]);
        RunningKeepsClaims(Take(w), own, w.running + [downstream]);
      } else {
        RunClosureKeepsInv(w);
        ClosureKeepsClaims(w, own);
        ExtendsKeepsHandlers(w, RunClosure(w), None, downstream);
        FinishKeepsClaims(RunClosure(w), own, downstream, Ok(Undefined));
      }
  }

  lemma EndKeepsClaims(w: World, own: nat, outcome: Outcome)
    requires Inv(w) && Claimed(w, own) && |w.running| > 0 && (outcome.Ok? ==> Valid(w, outcome.value))
    ensures Claimed(End(w, outcome), own)
  {
    var last := |w.running| - 1;
    RunningIsImmaterial(w, w.running[..last]);
    LeavingFrees(w, own);
    FinishKeepsClaims(w.(running := w.running[..last]), own, w.running[last], outcome);
  }

  lemma LogKeepsClaims(w: World, own: nat, w': World)
    requires Claimed(w, own) && SameClaimants(w, w') && w'.promises == w.promises
    ensures Claimed(w', own)
  {
    forall t | 0 <= t < |w.registrations| ensures ShapeOk(w', w'.registrations[t]) {
      assert ShapeOk(w, w.registrations[t]);
    }
    forall i | 0 <= i < |w.running| ensures FrameOk(w', w'.running[i]) {
      assert FrameOk(w, w.running[i]);
    }
    forall c | 0 <= c < |w'.promises| && Watched(w', own, c) ensures SoleClaim(w', c) {
      SoleClaimAgrees(w, w', c);
    }
  }

  lemma DropKeepsClaims(w: World, own: nat)
    requires Core(w) && Claimed(w, own) && w.done < |w.log|
    ensures Claimed(Drop(w), own)
  {
    TakingFrees(w, own);
    TakeKeepsCore(w);
    LogKeepsClaims(Take(w), own, Drop(w));
  }

  /** Script calls a resolving function of the promise. */
  predicate Settles(e: Event, own: nat) {
    (e.CallResolve? || e.CallReject?) && e.promise == own
  }

  /** Every step leaves every watched promise with at most one claim, and a settled one with none. */
  lemma StepKeepsClaims(w: World, own: nat, e: Event)
    requires Inv(w) && Claimed(w, own) && Enabled(w, e) && (Settles(e, own) ==> Free(w, own, own))
    ensures Claimed(Step(w, e), own)
  {
    CoreFulfilled(w);
    match e
    case NewPromise => AppendKeepsClaims(w, own, Exposed);
    case CallResolve(p, v) => ResolveKeepsClaims(w, own, p, v);
    case CallReject(p, v) => SettleKeepsClaims(w, own, p, Rejected, v);
    case CallThen(p, f, r) => ThenKeepsClaims(w, own, p, ScriptHandler(f), ScriptHandler(r));
    case QueueMicrotask(f) => LogKeepsClaims(w, own, Enqueue(w, Callable(f)));
    case StartAll(elements) => CallAllKeepsClaims(w, own, elements);
    case BeginTask => BeginKeepsClaims(w, own);
    case EndTask(outcome) => EndKeepsClaims(w, own, outcome);
    case DropTask => DropKeepsClaims(w, own);
  }

  // ---- Entering a handler -------------------------------------------------------------------

  /** If the next task is the reaction `tag` with a script handler, it is entered to settle `child`. */
  ghost predicate EntersFor(w: World, tag: nat, child: nat)
    requires Inv(w)
  {
    w.done < |w.log| && ReactionTo(w, w.done, tag) && w.log[w.done].handler.Some?
    && w.log[w.done].handler.value.Script? ==>
      Step(w, BeginTask).running == w.running + [Some(child)]
  }

  lemma EntersForItsChild(w: World, tag: nat, child: nat)
    requires Inv(w) && tag < |w.registrations| && w.registrations[tag].downstream == Some(child)
    ensures EntersFor(w, tag, child)
  {
    if w.done < |w.log| && ReactionTo(w, w.done, tag) {
      BeginKeepsRunning(w);
      assert TaskOk(w, w.log[w.done]);
    }
  }
}
