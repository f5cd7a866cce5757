/** What every operation on promises keeps.

    Settled promises are final, and each attachment of reactions to a promise is waiting, enqueued or
    taken exactly once, in order. The ledger of a promise is the order of registration: the tags of
    the reactions enqueued for it, followed by those still attached, are the tags of all
    registrations on it. */
module PromiseSafety {
  import opened Options
  import opened PromiseWorld

  // ---- The invariant ------------------------------------------------------------------------

  function TagList(rs: seq<Reaction>): (tags: seq<nat>)
    ensures |tags| == |rs|
  {
    seq(|rs|, i requires 0 <= i < |rs| => rs[i].tag)
  }

  /** The tags of the reactions on `p` among `tasks`, in order. */
  function Tags(tasks: seq<Task>, p: nat): seq<nat> {
    if |tasks| == 0 then []
    else
      var last := tasks[|tasks| - 1];
      Tags(tasks[..|tasks| - 1], p)
      + (if last.PromiseReaction? && last.source == p then [last.tag] else [])
  }

  /** The tags of the registrations on `p`, in the order they were made. */
  function RegTags(registrations: seq<Registration>, p: nat): seq<nat> {
    if |registrations| == 0 then []
    else
      var n: nat := |registrations| - 1;
      RegTags(registrations[..n], p) + (if registrations[n].promise == p then [n] else [])
  }

  ghost predicate HandlerOk(w: World, handler: Option<Handler>) {
    handler.Some? ==>
      match handler.value
      case Script(_) => true
      case ResolveTo(p) => IsPromise(w, p) && !w.promises[p].role.AllResult?
      case RejectTo(p) => IsPromise(w, p) && !w.promises[p].role.AllResult?
      case AllResolve(k, i) => k < |w.alls| && i < |w.alls[k].results|
      case AllReject(k) => k < |w.alls|
  }

  ghost predicate DownstreamOk(w: World, downstream: Option<nat>) {
    downstream.Some? ==> IsPromise(w, downstream.value) && !w.promises[downstream.value].role.AllResult?
  }

  /** The reaction of a registration for one outcome. */
  function ReactionOf(r: Registration, tag: nat, isRejection: bool): Reaction {
    Reaction(tag, if isRejection then r.onRejected else r.onFulfilled, r.downstream)
  }

  ghost predicate ReactionsOk(w: World, p: nat, rs: seq<Reaction>, isRejection: bool) {
    forall i :: 0 <= i < |rs| ==>
      rs[i].tag < |w.registrations| && rs[i] == ReactionOf(w.registrations[rs[i].tag], rs[i].tag, isRejection)
  }

  ghost predicate PromiseOk(w: World, p: nat)
    requires IsPromise(w, p)
  {
    var promise := w.promises[p];
    && ReactionsOk(w, p, promise.fulfillReactions, false)
    && ReactionsOk(w, p, promise.rejectReactions, true)
    && TagList(promise.fulfillReactions) == TagList(promise.rejectReactions)
    && (promise.state != Pending ==> promise.fulfillReactions == [])
    && (promise.state == Fulfilled ==> !promise.result.PromiseRef?)
    && Valid(w, promise.result)
  }

  /** A logged reaction belongs to a settled promise and is the reaction for its outcome. */
  ghost predicate TaskOk(w: World, t: Task) {
    t.PromiseReaction? ==>
      && IsPromise(w, t.source)
      && w.promises[t.source].state != Pending
      && t.isRejection == (w.promises[t.source].state == Rejected)
      && t.argument == w.promises[t.source].result
      && t.tag < |w.registrations|
      && w.registrations[t.tag].promise == t.source
      && t.handler == ReactionOf(w.registrations[t.tag], t.tag, t.isRejection).handler
      && t.downstream == w.registrations[t.tag].downstream
  }

  ghost predicate RegistrationOk(w: World, r: Registration) {
    && IsPromise(w, r.promise) && HandlerOk(w, r.onFulfilled) && HandlerOk(w, r.onRejected)
    && DownstreamOk(w, r.downstream)
  }

  /** Every registration on `p` is in the log or still attached, once, in order. */
  ghost predicate Ledger(w: World, p: nat)
    requires IsPromise(w, p)
  {
    Tags(w.log, p) + TagList(w.promises[p].fulfillReactions) == RegTags(w.registrations, p)
  }

  ghost predicate Core(w: World) {
    && (forall p :: 0 <= p < |w.promises| ==> PromiseOk(w, p))
    && (forall p :: 0 <= p < |w.promises| ==> Ledger(w, p))
    && (forall j :: 0 <= j < |w.log| ==> TaskOk(w, w.log[j]))
    && (forall t :: 0 <= t < |w.registrations| ==> RegistrationOk(w, w.registrations[t]))
    && (forall i :: 0 <= i < |w.running| ==> DownstreamOk(w, w.running[i]))
    && w.done <= |w.log|
  }

  lemma CoreFulfilled(w: World)
    requires Core(w)
    ensures FulfilledWithPlainValues(w)
  {
    forall p | 0 <= p < |w.promises| && w.promises[p].state == Fulfilled
      ensures !w.promises[p].result.PromiseRef?
    {
      assert PromiseOk(w, p);
    }
  }

  // ---- Sequences of tags --------------------------------------------------------------------

  lemma {:induction false} TagsAppend(a: seq<Task>, b: seq<Task>, p: nat)
    ensures Tags(a + b, p) == Tags(a, p) + Tags(b, p)
  {
    if |b| == 0 {
      assert a + b == a;
    } else {
      TagsAppend(a, b[..|b| - 1], p);
      assert (a + b)[..|a + b| - 1] == a + b[..|b| - 1];
    }
  }

  lemma {:induction false} TagsOfDrained(p: nat, rs: seq<Reaction>, v: Value, isRejection: bool, q: nat)
    ensures Tags(TasksOf(p, rs, v, isRejection), q) == if q == p then TagList(rs) else []
  {
    if |rs| > 0 {
      var init := rs[..|rs| - 1];
      TagsOfDrained(p, init, v, isRejection, q);
      var tasks := TasksOf(p, rs, v, isRejection);
      assert tasks[..|tasks| - 1] == TasksOf(p, init, v, isRejection);
      assert TagList(rs) == TagList(init) + [rs[|rs| - 1].tag];
    }
  }

  lemma {:induction false} DrainedTasks(p: nat, rs: seq<Reaction>, v: Value, isRejection: bool)
    ensures |TasksOf(p, rs, v, isRejection)| == |rs|
    ensures forall i :: 0 <= i < |rs| ==> TasksOf(p, rs, v, isRejection)[i] == TaskOf(p, rs[i], v, isRejection)
  {
    if |rs| > 0 { DrainedTasks(p, rs[..|rs| - 1], v, isRejection); }
  }

  lemma {:induction false} RegTagsIncrease(registrations: seq<Registration>, p: nat)
    ensures forall i :: 0 <= i < |RegTags(registrations, p)| ==>
      RegTags(registrations, p)[i] < |registrations| && registrations[RegTags(registrations, p)[i]].promise == p
    ensures forall i, j :: 0 <= i < j < |RegTags(registrations, p)| ==>
      RegTags(registrations, p)[i] < RegTags(registrations, p)[j]
    ensures forall t: nat :: t < |registrations| && registrations[t].promise == p ==> t in RegTags(registrations, p)
  {
    if |registrations| > 0 {
      var n: nat := |registrations| - 1;
      RegTagsIncrease(registrations[..n], p);
      var before := RegTags(registrations[..n], p);
      forall t: nat | t < |registrations| && registrations[t].promise == p
        ensures t in RegTags(registrations, p)
      {
        if t < n {
          assert registrations[..n][t].promise == p;
          assert t in before;
        } else {
          assert RegTags(registrations, p)[|before|] == n;
        }
      }
    }
  }

  // ---- Extension ----------------------------------------------------------------------------

  /** What an operation may do to the state of a promise: settle it, or add reactions. */
  ghost predicate PromiseStep(old_: Promise, new_: Promise) {
    && new_.role == old_.role
    && (old_.state != Pending ==> new_.state == old_.state && new_.result == old_.result)
  }

  /** `w'` continues `w`: nothing is forgotten, settled promises are as they were. */
  ghost predicate Extends(w: World, w': World) {
    && |w.promises| <= |w'.promises|
    && (forall p :: 0 <= p < |w.promises| ==> PromiseStep(w.promises[p], w'.promises[p]))
    && w.log <= w'.log && w.registrations <= w'.registrations
    && w.done <= w'.done && w.dropped <= w'.dropped
    && |w.alls| <= |w'.alls|
    && (forall k :: 0 <= k < |w.alls| ==>
          w'.alls[k].child == w.alls[k].child && |w'.alls[k].results| == |w.alls[k].results|
          && w.alls[k].tags <= w'.alls[k].tags)
  }

  lemma ExtendsTransitive(a: World, b: World, c: World)
    requires Extends(a, b) && Extends(b, c)
    ensures Extends(a, c)
  {
    forall p | 0 <= p < |a.promises| ensures PromiseStep(a.promises[p], c.promises[p]) {
      assert PromiseStep(a.promises[p], b.promises[p]) && PromiseStep(b.promises[p], c.promises[p]);
    }
  }

  lemma ExtendsKeepsHandlers(w: World, w': World, h: Option<Handler>, d: Option<nat>)
    requires Extends(w, w')
    ensures HandlerOk(w, h) ==> HandlerOk(w', h)
    ensures DownstreamOk(w, d) ==> DownstreamOk(w', d)
  {
    if h.Some? && (h.value.ResolveTo? || h.value.RejectTo?) && IsPromise(w, h.value.promise) {
      assert PromiseStep(w.promises[h.value.promise], w'.promises[h.value.promise]);
    }
    if d.Some? && IsPromise(w, d.value) {
      assert PromiseStep(w.promises[d.value], w'.promises[d.value]);
    }
  }

  lemma ExtendsKeepsRegistration(w: World, w': World, r: Registration)
    requires Extends(w, w') && RegistrationOk(w, r)
    ensures RegistrationOk(w', r)
  {
    ExtendsKeepsHandlers(w, w', r.onFulfilled, r.downstream);
    ExtendsKeepsHandlers(w, w', r.onRejected, r.downstream);
  }

  lemma ExtendsKeepsTask(w: World, w': World, t: Task)
    requires Extends(w, w') && TaskOk(w, t)
    ensures TaskOk(w', t)
  {
    if t.PromiseReaction? {
      assert PromiseStep(w.promises[t.source], w'.promises[t.source]);
    }
  }

  lemma ExtendsKeepsReactions(w: World, w': World, p: nat, rs: seq<Reaction>, isRejection: bool)
    requires Extends(w, w') && ReactionsOk(w, p, rs, isRejection)
    ensures ReactionsOk(w', p, rs, isRejection)
  {
  }

  /** The parts of `Core` that an extension keeps for what was there before. */
  lemma ExtendsKeepsOld(w: World, w': World)
    requires Extends(w, w') && Core(w)
    ensures forall j :: 0 <= j < |w.log| ==> TaskOk(w', w'.log[j])
    ensures forall t :: 0 <= t < |w.registrations| ==> RegistrationOk(w', w'.registrations[t])
    ensures forall i :: 0 <= i < |w.running| ==> DownstreamOk(w', w.running[i])
    ensures forall p :: 0 <= p < |w.promises| && w'.promises[p] == w.promises[p] ==> PromiseOk(w', p)
  {
    forall j | 0 <= j < |w.log| ensures TaskOk(w', w'.log[j]) {
      ExtendsKeepsTask(w, w', w.log[j]);
    }
    forall t | 0 <= t < |w.registrations| ensures RegistrationOk(w', w'.registrations[t]) {
      ExtendsKeepsRegistration(w, w', w.registrations[t]);
    }
    forall i | 0 <= i < |w.running| ensures DownstreamOk(w', w.running[i]) {
      ExtendsKeepsHandlers(w, w', None, w.running[i]);
    }
    forall p | 0 <= p < |w.promises| && w'.promises[p] == w.promises[p] ensures PromiseOk(w', p) {
      assert PromiseOk(w, p);
      ExtendsKeepsReactions(w, w', p, w.promises[p].fulfillReactions, false);
      ExtendsKeepsReactions(w, w', p, w.promises[p].rejectReactions, true);
    }
  }

  // ---- The operations keep the invariant ----------------------------------------------------

  lemma {:induction false} NoRegTags(registrations: seq<Registration>, p: nat)
    requires forall t :: 0 <= t < |registrations| ==> registrations[t].promise != p
    ensures RegTags(registrations, p) == []
  {
    if |registrations| > 0 { NoRegTags(registrations[..|registrations| - 1], p); }
  }

  lemma {:induction false} NoTags(tasks: seq<Task>, p: nat)
    requires forall j :: 0 <= j < |tasks| && tasks[j].PromiseReaction? ==> tasks[j].source != p
    ensures Tags(tasks, p) == []
  {
    if |tasks| > 0 { NoTags(tasks[..|tasks| - 1], p); }
  }

  lemma AppendKeepsCore(w: World, role: Role)
    requires Core(w)
    ensures Core(Append(w, role)) && Extends(w, Append(w, role))
  {
    var w' := Append(w, role);
    ExtendsKeepsOld(w, w');
    forall p | 0 <= p < |w'.promises| ensures PromiseOk(w', p) && Ledger(w', p) {
      if p < |w.promises| {
        assert Ledger(w, p);
      } else {
        NoTags(w.log, p) by {
          forall j | 0 <= j < |w.log| && w.log[j].PromiseReaction? ensures w.log[j].source != p {
            assert TaskOk(w, w.log[j]);
          }
        }
        NoRegTags(w.registrations, p) by {
          forall t | 0 <= t < |w.registrations| ensures w.registrations[t].promise != p {
            assert RegistrationOk(w, w.registrations[t]);
          }
        }
      }
    }
  }

  /** The reactions attached to `p` carry tags of registrations on `p`. */
  lemma AttachedTag(w: World, p: nat, i: nat, isRejection: bool)
    requires Core(w) && IsPromise(w, p) && i < |w.promises[p].fulfillReactions|
    ensures |w.promises[p].rejectReactions| == |w.promises[p].fulfillReactions|
    ensures
      var r := if isRejection then w.promises[p].rejectReactions[i] else w.promises[p].fulfillReactions[i];
      && r.tag < |w.registrations| && w.registrations[r.tag].promise == p
      && r == ReactionOf(w.registrations[r.tag], r.tag, isRejection)
  {
    var promise := w.promises[p];
    assert PromiseOk(w, p) && Ledger(w, p);
    assert |TagList(promise.fulfillReactions)| == |TagList(promise.rejectReactions)|;
    assert TagList(promise.fulfillReactions)[i] == promise.fulfillReactions[i].tag;
    assert TagList(promise.rejectReactions)[i] == promise.rejectReactions[i].tag;
    var tags := RegTags(w.registrations, p);
    assert tags[|Tags(w.log, p)| + i] == promise.fulfillReactions[i].tag;
    RegTagsIncrease(w.registrations, p);
  }

  ghost predicate MaySettle(w: World, p: nat, state: State, v: Value) {
    IsPromise(w, p) && state != Pending && Valid(w, v) && (state == Fulfilled ==> !v.PromiseRef?)
  }

  lemma SettleExtends(w: World, p: nat, state: State, v: Value)
    requires MaySettle(w, p, state, v)
    ensures Extends(w, Settle(w, p, state, v))
  {
  }

  lemma SettleKeepsTasks(w: World, p: nat, state: State, v: Value)
    requires Core(w) && MaySettle(w, p, state, v)
    ensures forall j :: 0 <= j < |Settle(w, p, state, v).log| ==>
      TaskOk(Settle(w, p, state, v), Settle(w, p, state, v).log[j])
  {
    var w', promise := Settle(w, p, state, v), w.promises[p];
    SettleExtends(w, p, state, v);
    ExtendsKeepsOld(w, w');
    if promise.state == Pending {
      var isRejection := state == Rejected;
      var drained := if isRejection then promise.rejectReactions else promise.fulfillReactions;
      DrainedTasks(p, drained, v, isRejection);
      forall j | |w.log| <= j < |w'.log| ensures TaskOk(w', w'.log[j]) {
        var i := j - |w.log|;
        assert PromiseOk(w, p) && |TagList(promise.fulfillReactions)| == |TagList(promise.rejectReactions)|;
        AttachedTag(w, p, i, isRejection);
        assert w'.log[j] == TaskOf(p, drained[i], v, isRejection);
      }
    }
  }

  /** Draining moves the tags of `p` from its list to the log, in order. */
  lemma DrainMovesTags(log: seq<Task>, p: nat, drained: seq<Reaction>, v: Value, isRejection: bool, q: nat)
    ensures Tags(log + TasksOf(p, drained, v, isRejection), q) ==
            Tags(log, q) + if q == p then TagList(drained) else []
  {
    TagsAppend(log, TasksOf(p, drained, v, isRejection), q);
    TagsOfDrained(p, drained, v, isRejection, q);
  }

  lemma SettleMovesTags(w: World, p: nat, state: State, v: Value, q: nat)
    requires IsPromise(w, p) && state != Pending && IsPromise(w, q)
    requires TagList(w.promises[p].fulfillReactions) == TagList(w.promises[p].rejectReactions)
    ensures
      var w' := Settle(w, p, state, v);
      Tags(w'.log, q) + TagList(w'.promises[q].fulfillReactions) ==
      Tags(w.log, q) + TagList(w.promises[q].fulfillReactions)
  {
    var promise := w.promises[p];
    var drained := if state == Rejected then promise.rejectReactions else promise.fulfillReactions;
    DrainMovesTags(w.log, p, drained, v, state == Rejected, q);
    NoTagsInNothing(Tags(w.log, q), TagList(drained));
  }

  lemma NoTagsInNothing(before: seq<nat>, moved: seq<nat>)
    ensures TagList([]) == [] && before + moved + [] == before + moved && before + [] == before
  {
  }

  lemma SettleKeepsLedger(w: World, p: nat, state: State, v: Value, q: nat)
    requires Core(w) && MaySettle(w, p, state, v) && IsPromise(w, q)
    ensures Ledger(Settle(w, p, state, v), q)
  {
    assert Ledger(w, q) && PromiseOk(w, p);
    SettleMovesTags(w, p, state, v, q);
  }

  /** Settling keeps the invariant and forgets nothing. */
  lemma SettleKeepsCore(w: World, p: nat, state: State, v: Value)
    requires Core(w) && MaySettle(w, p, state, v)
    ensures Core(Settle(w, p, state, v)) && Extends(w, Settle(w, p, state, v))
  {
    var w' := Settle(w, p, state, v);
    SettleExtends(w, p, state, v);
    ExtendsKeepsOld(w, w');
    SettleKeepsTasks(w, p, state, v);
    forall q | 0 <= q < |w'.promises| ensures PromiseOk(w', q) && Ledger(w', q) {
      SettleKeepsLedger(w, p, state, v, q);
    }
  }

  ghost predicate MayRegister(w: World, p: nat, f: Option<Handler>, r: Option<Handler>, d: Option<nat>) {
    IsPromise(w, p) && HandlerOk(w, f) && HandlerOk(w, r) && DownstreamOk(w, d)
  }

  lemma RegisterExtends(w: World, p: nat, f: Option<Handler>, r: Option<Handler>, d: Option<nat>)
    requires MayRegister(w, p, f, r, d)
    ensures Extends(w, Register(w, p, f, r, d))
  {
  }

  lemma TagListAppend(rs: seq<Reaction>, r: Reaction)
    ensures TagList(rs + [r]) == TagList(rs) + [r.tag]
  {
  }

  lemma TagsOfOneMore(log: seq<Task>, task: Task, q: nat)
    requires task.PromiseReaction?
    ensures Tags(log + [task], q) == Tags(log, q) + if task.source == q then [task.tag] else []
  {
    assert (log + [task])[..|log|] == log;
  }

  lemma RegTagsOfOneMore(registrations: seq<Registration>, r: Registration, q: nat)
    ensures RegTags(registrations + [r], q) ==
            RegTags(registrations, q) + if r.promise == q then [|registrations|] else []
  {
    assert (registrations + [r])[..|registrations|] == registrations;
  }

  /** A registration on a pending promise waits in its lists. */
  lemma RegisterPendingKeepsLedger(w: World, p: nat, f: Option<Handler>, r: Option<Handler>, d: Option<nat>, q: nat)
    requires IsPromise(w, p) && IsPromise(w, q) && Ledger(w, q) && w.promises[p].state == Pending
    ensures Ledger(Register(w, p, f, r, d), q)
  {
    var before, tag := w.promises[p].fulfillReactions, |w.registrations|;
    TagListAppend(before, Reaction(tag, f, d));
    RegTagsOfOneMore(w.registrations, Registration(p, f, r, d), q);
    assert Tags(w.log, q) + (TagList(before) + [tag]) == (Tags(w.log, q) + TagList(before)) + [tag];
  }

  /** A registration on a settled promise goes to the log at once. */
  lemma RegisterSettledKeepsLedger(w: World, p: nat, f: Option<Handler>, r: Option<Handler>, d: Option<nat>, q: nat)
    requires IsPromise(w, p) && IsPromise(w, q) && Ledger(w, q) && w.promises[p].state != Pending
    requires w.promises[p].fulfillReactions == []
    ensures Ledger(Register(w, p, f, r, d), q)
  {
    var w', tag := Register(w, p, f, r, d), |w.registrations|;
    var isRejection := w.promises[p].state == Rejected;
    TagsOfOneMore(w.log, TaskOf(p, Reaction(tag, if isRejection then r else f, d), w.promises[p].result, isRejection),
                    q);
    RegTagsOfOneMore(w.registrations, Registration(p, f, r, d), q);
    assert TagList([]) == [];
  }

  lemma RegisterKeepsLedger(w: World, p: nat, f: Option<Handler>, r: Option<Handler>, d: Option<nat>, q: nat)
    requires Core(w) && MayRegister(w, p, f, r, d) && IsPromise(w, q)
    ensures Ledger(Register(w, p, f, r, d), q)
  {
    assert Ledger(w, q) && PromiseOk(w, p);
    if w.promises[p].state == Pending {
      RegisterPendingKeepsLedger(w, p, f, r, d, q);
    } else {
      RegisterSettledKeepsLedger(w, p, f, r, d, q);
    }
  }

  lemma RegisterKeepsReactions(w: World, p: nat, f: Option<Handler>, r: Option<Handler>, d: Option<nat>)
    requires Core(w) && MayRegister(w, p, f, r, d)
    ensures PromiseOk(Register(w, p, f, r, d), p)
  {
    var w' := Register(w, p, f, r, d);
    RegisterExtends(w, p, f, r, d);
    var old_, new_ := w.promises[p], w'.promises[p];
    assert PromiseOk(w, p);
    ExtendsKeepsReactions(w, w', p, old_.fulfillReactions, false);
    ExtendsKeepsReactions(w, w', p, old_.rejectReactions, true);
    var tag := |w.registrations|;
    assert w'.registrations[tag] == Registration(p, f, r, d);
    if old_.state == Pending {
      assert TagList(new_.fulfillReactions) == TagList(old_.fulfillReactions) + [tag];
      assert TagList(new_.rejectReactions) == TagList(old_.rejectReactions) + [tag];
    }
  }

  /** Attaching reactions keeps the invariant and forgets nothing. */
  lemma RegisterKeepsCore(w: World, p: nat, f: Option<Handler>, r: Option<Handler>, d: Option<nat>)
    requires Core(w) && MayRegister(w, p, f, r, d)
    ensures Core(Register(w, p, f, r, d)) && Extends(w, Register(w, p, f, r, d))
  {
    var w' := Register(w, p, f, r, d);
    RegisterExtends(w, p, f, r, d);
    ExtendsKeepsOld(w, w');
    ExtendsKeepsHandlers(w, w', f, d);
    ExtendsKeepsHandlers(w, w', r, d);
    RegisterKeepsReactions(w, p, f, r, d);
    assert RegistrationOk(w', w'.registrations[|w.registrations|]);
    if |w'.log| > |w.log| { assert TaskOk(w', w'.log[|w.log|]); }
    forall q | 0 <= q < |w'.promises| ensures PromiseOk(w', q) && Ledger(w', q) {
      RegisterKeepsLedger(w, p, f, r, d, q);
    }
  }

  lemma ThenKeepsCore(w: World, p: nat, f: Option<Handler>, r: Option<Handler>)
    requires Core(w) && IsPromise(w, p) && HandlerOk(w, f) && HandlerOk(w, r)
    ensures Core(Then(w, p, f, r)) && Extends(w, Then(w, p, f, r))
  {
    var middle := Append(w, Derived);
    AppendKeepsCore(w, Derived);
    ExtendsKeepsHandlers(w, middle, f, None);
    ExtendsKeepsHandlers(w, middle, r, None);
    RegisterKeepsCore(middle, p, f, r, Some(|w.promises|));
    ExtendsTransitive(w, middle, Then(w, p, f, r));
  }

  /** Resolving keeps the invariant: a promise that is adopted is never stored as a value. */
  lemma {:induction false} ResolveKeepsCore(w: World, p: nat, v: Value)
    requires Core(w) && IsPromise(w, p) && Valid(w, v) && !w.promises[p].role.AllResult?
    requires FulfilledWithPlainValues(w)
    ensures Core(Resolve(w, p, v)) && Extends(w, Resolve(w, p, v))
    decreases if v.PromiseRef? then 1 else 0
  {
    if v.PromiseRef? {
      if v.promise == p {
        SettleKeepsCore(w, p, Rejected, CYCLE);
      } else {
        var other := w.promises[v.promise];
        assert PromiseOk(w, v.promise);
        match other.state
        case Fulfilled => ResolveKeepsCore(w, p, other.result);
        case Rejected => SettleKeepsCore(w, p, Rejected, other.result);
        case Pending => RegisterKeepsCore(w, v.promise, Some(ResolveTo(p)), Some(RejectTo(p)), None);
      }
    } else {
      SettleKeepsCore(w, p, Fulfilled, v);
    }
  }
}
