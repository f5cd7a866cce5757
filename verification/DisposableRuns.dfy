/** What every run of `DisposableStack` operations keeps. */
module DisposableRuns {
  import opened Options
  import opened DisposableFamily
  import opened DisposableStacks

  // ---- Counting -----------------------------------------------------------------------------

  lemma TimesAppend(entries: seq<Entry>, e: Entry, serial: nat)
    ensures Times(entries + [e], serial) == Times(entries, serial) + if e.serial == serial then 1 else 0
  {
    assert (entries + [e])[..|entries|] == entries;
  }

  lemma PendingAppend(stacks: seq<Stack>, s: Stack, serial: nat)
    ensures Pending(stacks + [s], serial) == Pending(stacks, serial) + Times(s.entries, serial)
  {
    assert (stacks + [s])[..|stacks|] == stacks;
  }

  lemma InFlightAppend(frames: seq<Frame>, frame: Frame, serial: nat)
    ensures InFlight(frames + [frame], serial) == InFlight(frames, serial) + Waiting(frame, serial)
  {
    assert (frames + [frame])[..|frames|] == frames;
  }

  lemma {:induction false} PendingUpdate(stacks: seq<Stack>, i: nat, s: Stack, serial: nat)
    requires i < |stacks|
    ensures Pending(stacks[i := s], serial) ==
            Pending(stacks, serial) - Times(stacks[i].entries, serial) + Times(s.entries, serial)
  {
    var n := |stacks| - 1;
    if i == n {
      assert stacks[i := s][..n] == stacks[..n];
    } else {
      assert stacks[i := s][..n] == stacks[..n][i := s];
      PendingUpdate(stacks[..n], i, s, serial);
    }
  }

  lemma InFlightUpdate(frames: seq<Frame>, top: Frame, serial: nat)
    requires frames != []
    ensures InFlight(frames[|frames| - 1 := top], serial) ==
            InFlight(frames, serial) - Waiting(frames[|frames| - 1], serial) + Waiting(top, serial)
  {
    assert frames[|frames| - 1 := top][..|frames| - 1] == frames[..|frames| - 1];
  }

  lemma RegisterConserves(f: Family, i: nat, r: Result<Option<Entry>>, serial: nat)
    requires i < |f.stacks| && Conserved(f, serial)
    requires r.Ok? && r.value.Some? ==> r.value.value.serial == f.registered
    ensures Conserved(Register(f, i, r), serial)
  {
    if r.Ok? && r.value.Some? {
      PendingUpdate(f.stacks, i, Registered(f.stacks[i], r), serial);
      TimesAppend(f.stacks[i].entries, r.value.value, serial);
    }
  }

  lemma MoveConserves(f: Family, i: nat, serial: nat)
    requires Enabled(f, Move(i)) && Conserved(f, serial)
    ensures Conserved(Step(f, Move(i)), serial)
  {
    PendingUpdate(f.stacks, i, EMPTIED, serial);
    PendingAppend(f.stacks[i := EMPTIED], Stack(f.stacks[i].entries, false), serial);
  }

  lemma DisposeConserves(f: Family, i: nat, serial: nat)
    requires Enabled(f, Dispose(i)) && Conserved(f, serial)
    ensures Conserved(Step(f, Dispose(i)), serial)
  {
    var taken := f.stacks[i].entries;
    PendingUpdate(f.stacks, i, EMPTIED, serial);
    InFlightAppend(f.frames, Frame(taken, |taken|, false, []), serial);
    assert taken[..|taken|] == taken;
  }

  lemma CallConserves(f: Family, serial: nat)
    requires Enabled(f, Call) && Conserved(f, serial)
    ensures Conserved(Step(f, Call), serial)
  {
    var top := f.frames[|f.frames| - 1];
    var called := top.(remaining := top.remaining - 1, calling := true);
    OneLessWaiting(top, called, serial);
    InFlightUpdate(f.frames, called, serial);
    TimesAppend(f.called, top.taken[called.remaining], serial);
  }

  lemma OneLessWaiting(frame: Frame, called: Frame, serial: nat)
    requires 0 < frame.remaining <= |frame.taken|
    requires called.taken == frame.taken && called.remaining == frame.remaining - 1
    ensures Waiting(frame, serial) ==
            Waiting(called, serial) + if frame.taken[called.remaining].serial == serial then 1 else 0
  {
    var k := called.remaining;
    assert frame.taken[..frame.remaining] == frame.taken[..k] + [frame.taken[k]];
    TimesAppend(frame.taken[..k], frame.taken[k], serial);
  }

  lemma ReturnConserves(f: Family, error: Option<string>, serial: nat)
    requires Enabled(f, Return(error)) && Conserved(f, serial)
    ensures Conserved(Step(f, Return(error)), serial)
  {
    var top := f.frames[|f.frames| - 1];
    var failures := if error.Some? then top.failures + [error.value] else top.failures;
    InFlightUpdate(f.frames, top.(calling := false, failures := failures), serial);
  }

  lemma FinishConserves(f: Family, serial: nat)
    requires Enabled(f, Finish) && Conserved(f, serial)
    ensures Conserved(Step(f, Finish), serial)
  {
    assert f.frames[|f.frames| - 1].taken[..0] == [];
  }

  lemma StepConserves(f: Family, e: Event, serial: nat)
    requires Enabled(f, e) && Conserved(f, serial)
    ensures Conserved(Step(f, e), serial)
  {
    match e
    case Create => PendingAppend(f.stacks, Stack([], false), serial);
    case Use(i, v) => RegisterConserves(f, i, Used(f.stacks[i], v, f.registered), serial);
    case Adopt(i, v, onDispose) => RegisterConserves(f, i, Adopted(f.stacks[i], v, onDispose, f.registered), serial);
    case Move(i) => MoveConserves(f, i, serial);
    case Dispose(i) => DisposeConserves(f, i, serial);
    case Call => CallConserves(f, serial);
    case Return(error) => ReturnConserves(f, error, serial);
    case Finish => FinishConserves(f, serial);
  }

  lemma {:induction false} RunConserves(f: Family, events: seq<Event>, serial: nat)
    requires Conserved(f, serial) && IsRun(f, events)
    ensures Conserved(After(f, events), serial)
    decreases |events|
  {
    if events != [] {
      StepConserves(f, events[0], serial);
      RunConserves(Step(f, events[0]), events[1..], serial);
    }
  }

  /** In every run, every registration is in exactly one place: on a stack, taken by a running
      `dispose`, or called, and called once. */
  lemma EachRegistrationIsInOnePlace(events: seq<Event>, serial: nat)
    requires IsRun(NO_STACKS, events) && serial < After(NO_STACKS, events).registered
    ensures
      var f := After(NO_STACKS, events);
      Pending(f.stacks, serial) + InFlight(f.frames, serial) + Times(f.called, serial) == 1
  {
    RunConserves(NO_STACKS, events, serial);
  }

  // ---- Order --------------------------------------------------------------------------------

  lemma OrderGrows(entries: seq<Entry>, e: Entry)
    requires InOrder(entries, e.serial)
    ensures InOrder(entries + [e], e.serial + 1)
  {
  }

  lemma RegisterKeepsShape(f: Family, i: nat, r: Result<Option<Entry>>)
    requires i < |f.stacks| && Shaped(f) && (r.Ok? ==> !f.stacks[i].disposed)
    requires r.Ok? && r.value.Some? ==> r.value.value.serial == f.registered
    ensures Shaped(Register(f, i, r))
  {
    if r.Ok? && r.value.Some? {
      var g := Register(f, i, r);
      OrderGrows(f.stacks[i].entries, r.value.value);
      forall k | 0 <= k < |g.stacks| ensures StackOk(g.stacks[k], g.registered) {
        assert StackOk(f.stacks[k], f.registered);
      }
      forall k | 0 <= k < |g.frames| ensures FrameOk(g.frames[k], g.registered) {
        assert FrameOk(f.frames[k], f.registered);
      }
    }
  }

  lemma CallKeepsShape(f: Family)
    requires Enabled(f, Call) && Shaped(f)
    ensures Shaped(Step(f, Call))
  {
    assert FrameOk(f.frames[|f.frames| - 1], f.registered);
  }

  lemma ReturnKeepsShape(f: Family, error: Option<string>)
    requires Enabled(f, Return(error)) && Shaped(f)
    ensures Shaped(Step(f, Return(error)))
  {
    assert FrameOk(f.frames[|f.frames| - 1], f.registered);
  }

  lemma MoveKeepsShape(f: Family, i: nat)
    requires Enabled(f, Move(i)) && Shaped(f)
    ensures Shaped(Step(f, Move(i)))
  {
    assert StackOk(f.stacks[i], f.registered);
  }

  lemma DisposeKeepsShape(f: Family, i: nat)
    requires Enabled(f, Dispose(i)) && Shaped(f)
    ensures Shaped(Step(f, Dispose(i)))
  {
    assert StackOk(f.stacks[i], f.registered);
    assert StackOk(EMPTIED, f.registered);
  }

  lemma StepKeepsShape(f: Family, e: Event)
    requires Enabled(f, e) && Shaped(f)
    ensures Shaped(Step(f, e))
  {
    match e
    case Create => assert StackOk(Stack([], false), f.registered);
    case Use(i, v) => RegisterKeepsShape(f, i, Used(f.stacks[i], v, f.registered));
    case Adopt(i, v, onDispose) => RegisterKeepsShape(f, i, Adopted(f.stacks[i], v, onDispose, f.registered));
    case Move(i) => MoveKeepsShape(f, i);
    case Dispose(i) => DisposeKeepsShape(f, i);
    case Call => CallKeepsShape(f);
    case Return(error) => ReturnKeepsShape(f, error);
    case Finish =>
  }

  lemma {:induction false} RunKeepsShape(f: Family, events: seq<Event>)
    requires Shaped(f) && IsRun(f, events)
    ensures Shaped(After(f, events))
    decreases |events|
  {
    if events != [] {
      StepKeepsShape(f, events[0]);
      RunKeepsShape(Step(f, events[0]), events[1..]);
    }
  }

  /** Every call of a `dispose` goes to the latest registration it has left, across moves: later than
      all that remain, earlier than all that were called. */
  lemma CallsLatestFirst(events: seq<Event>)
    requires IsRun(NO_STACKS, events) && Enabled(After(NO_STACKS, events), Call)
    ensures
      var f := After(NO_STACKS, events);
      var top := f.frames[|f.frames| - 1];
      var entry := top.taken[top.remaining - 1];
      && Step(f, Call).called == f.called + [entry]
      && (forall k :: 0 <= k < top.remaining - 1 ==> top.taken[k].serial < entry.serial)
      && (forall k :: top.remaining <= k < |top.taken| ==> entry.serial < top.taken[k].serial)
  {
    RunKeepsShape(NO_STACKS, events);
    var f := After(NO_STACKS, events);
    assert FrameOk(f.frames[|f.frames| - 1], f.registered);
  }

  // ---- At rest ------------------------------------------------------------------------------

  lemma {:induction false} PendingIsOnAStack(stacks: seq<Stack>, serial: nat) returns (i: nat, k: nat)
    requires Pending(stacks, serial) > 0
    ensures i < |stacks| && k < |stacks[i].entries| && stacks[i].entries[k].serial == serial
  {
    var n := |stacks| - 1;
    if Times(stacks[n].entries, serial) > 0 {
      i := n;
      k := SerialIsOfAnEntry(stacks[n].entries, serial);
    } else {
      i, k := PendingIsOnAStack(stacks[..n], serial);
    }
  }

  lemma {:induction false} SerialIsOfAnEntry(entries: seq<Entry>, serial: nat) returns (k: nat)
    requires Times(entries, serial) > 0
    ensures k < |entries| && entries[k].serial == serial
  {
    var n := |entries| - 1;
    if entries[n].serial == serial { k := n; } else { k := SerialIsOfAnEntry(entries[..n], serial); }
  }

  /** When no `dispose` is running, every registration has been called once, or else waits on some
      stack that is not disposed. */
  lemma AtRestPendingOrCalled(events: seq<Event>, serial: nat)
    requires IsRun(NO_STACKS, events) && serial < After(NO_STACKS, events).registered
    requires After(NO_STACKS, events).frames == []
    ensures
      var f := After(NO_STACKS, events);
      Times(f.called, serial) == 1 || (Times(f.called, serial) == 0 && exists i, k ::
        0 <= i < |f.stacks| && 0 <= k < |f.stacks[i].entries| && !f.stacks[i].disposed &&
        f.stacks[i].entries[k].serial == serial)
  {
    EachRegistrationIsInOnePlace(events, serial);
    RunKeepsShape(NO_STACKS, events);
    var f := After(NO_STACKS, events);
    if Times(f.called, serial) != 1 {
      var i, k := PendingIsOnAStack(f.stacks, serial);
      assert StackOk(f.stacks[i], f.registered);
      assert f.stacks[i].entries[k].serial == serial;
    }
  }

  // ---- Stacks that are disposed -------------------------------------------------------------

  lemma {:induction false} DisposedStays(f: Family, i: nat, events: seq<Event>)
    requires Shaped(f) && IsRun(f, events) && i < |f.stacks| && f.stacks[i].disposed
    ensures i < |After(f, events).stacks| && After(f, events).stacks[i] == Stack([], true)
    decreases |events|
  {
    assert StackOk(f.stacks[i], f.registered);
    if events != [] {
      StepKeepsShape(f, events[0]);
      DisposedStays(Step(f, events[0]), i, events[1..]);
    }
  }

  /** Once moved or disposed, a stack is empty and disposed for good: nothing is registered on it again. */
  lemma DisposedForGood(before: seq<Event>, i: nat, e: Event, later: seq<Event>)
    requires e == Move(i) || e == Dispose(i)
    requires IsRun(NO_STACKS, before) && Enabled(After(NO_STACKS, before), e)
    requires IsRun(Step(After(NO_STACKS, before), e), later)
    ensures
      var f := After(Step(After(NO_STACKS, before), e), later);
      i < |f.stacks| && f.stacks[i].disposed && f.stacks[i].entries == []
  {
    RunKeepsShape(NO_STACKS, before);
    StepKeepsShape(After(NO_STACKS, before), e);
    DisposedStays(Step(After(NO_STACKS, before), e), i, later);
  }

  // ---- A disposal that ends has called everything -------------------------------------------

  lemma StepListsCalls(f: Family, e: Event)
    requires CallsAreListed(f) && Enabled(f, e)
    ensures CallsAreListed(Step(f, e))
  {
    var g := Step(f, e);
    forall i | 0 <= i < |g.frames| ensures IsCalled(g.frames[i], g.called) {
      if i < |f.frames| { assert IsCalled(f.frames[i], f.called); }
    }
  }

  lemma {:induction false} RunListsCalls(f: Family, events: seq<Event>)
    requires CallsAreListed(f) && IsRun(f, events)
    ensures CallsAreListed(After(f, events))
    decreases |events|
  {
    if events != [] {
      StepListsCalls(f, events[0]);
      RunListsCalls(Step(f, events[0]), events[1..]);
    }
  }

  /** A `dispose` ends only when every entry it took has been called, whatever the calls returned. */
  lemma FinishedFrameHasCalledAll(events: seq<Event>)
    requires IsRun(NO_STACKS, events) && Enabled(After(NO_STACKS, events), Finish)
    ensures
      var f := After(NO_STACKS, events);
      forall e :: e in f.frames[|f.frames| - 1].taken ==> e in f.called
  {
    RunListsCalls(NO_STACKS, events);
    var f := After(NO_STACKS, events);
    assert IsCalled(f.frames[|f.frames| - 1], f.called);
  }

  // ---- What a disposal reports --------------------------------------------------------------

  /** One call of a `dispose` that has returned, with the text of its error if it threw. */
  datatype Reply = Reply(entry: Entry, error: Option<string>)

  /** The replies each running `dispose` has had so far, kept along the run. */
  ghost function Noted(f: Family, heard: seq<seq<Reply>>, e: Event): seq<seq<Reply>>
    requires Enabled(f, e) && |heard| == |f.frames|
    requires e.Return? ==> f.frames[|f.frames| - 1].remaining < |f.frames[|f.frames| - 1].taken|
  {
    match e
    case Dispose(i) => if f.stacks[i].disposed then heard else heard + [[]]
    case Return(error) =>
      var last := |heard| - 1;
      heard[last := heard[last] + [Reply(f.frames[last].taken[f.frames[last].remaining], error)]]
    case Finish => heard[..|heard| - 1]
    case _ => heard
  }

  ghost function Heard(f: Family, heard: seq<seq<Reply>>, events: seq<Event>): seq<seq<Reply>>
    requires IsRun(f, events) && Shaped(f) && |heard| == |f.frames|
    decreases |events|
  {
    if events == [] then heard
    else
      var next := Step(f, events[0]);
      StepKeepsShape(f, events[0]);
      CallingHasCalled(f, events[0]);
      Heard(next, Noted(f, heard, events[0]), events[1..])
  }

  lemma CallingHasCalled(f: Family, e: Event)
    requires Enabled(f, e) && Shaped(f)
    ensures e.Return? ==> f.frames[|f.frames| - 1].remaining < |f.frames[|f.frames| - 1].taken|
  {
    if e.Return? { assert FrameOk(f.frames[|f.frames| - 1], f.registered); }
  }

  function Texts(replies: seq<Reply>): seq<string> {
    if replies == [] then []
    else
      var before := Texts(replies[..|replies| - 1]);
      match replies[|replies| - 1].error
      case None => before
      case Some(text) => before + [text]
  }

  /** The replies are those of the latest entries, the latest first. */
  ghost predicate FromLatest(replies: seq<Reply>, taken: seq<Entry>) {
    |replies| <= |taken| && forall k :: 0 <= k < |replies| ==> replies[k].entry == taken[|taken| - 1 - k]
  }

  /** The replies are those of the entries called so far, and the recorded failures are their texts. */
  ghost predicate Matches(frame: Frame, replies: seq<Reply>) {
    && frame.remaining + |replies| + (if frame.calling then 1 else 0) == |frame.taken|
    && FromLatest(replies, frame.taken)
    && frame.failures == Texts(replies)
  }

  ghost predicate AllMatch(f: Family, heard: seq<seq<Reply>>) {
    |heard| == |f.frames| && forall i :: 0 <= i < |heard| ==> Matches(f.frames[i], heard[i])
  }

  lemma ReturnMatches(frame: Frame, replies: seq<Reply>, error: Option<string>)
    requires Matches(frame, replies) && frame.calling
    ensures
      var failures := if error.Some? then frame.failures + [error.value] else frame.failures;
      Matches(frame.(calling := false, failures := failures), replies + [Reply(frame.taken[frame.remaining], error)])
  {
    var after := replies + [Reply(frame.taken[frame.remaining], error)];
    assert after[..|replies|] == replies;
  }

  lemma OtherStepsKeepFrames(f: Family, e: Event)
    requires Enabled(f, e) && !e.Call? && !e.Return? && !e.Dispose? && !e.Finish?
    ensures Step(f, e).frames == f.frames
  {
  }

  /** Only the top frame and its replies change. */
  lemma TopMatches(f: Family, g: Family, heard: seq<seq<Reply>>, noted: seq<seq<Reply>>)
    requires AllMatch(f, heard) && f.frames != [] && |g.frames| == |f.frames| && |noted| == |heard|
    requires g.frames[..|f.frames| - 1] == f.frames[..|f.frames| - 1] && noted[..|heard| - 1] == heard[..|heard| - 1]
    requires Matches(g.frames[|g.frames| - 1], noted[|noted| - 1])
    ensures AllMatch(g, noted)
  {
    forall i | 0 <= i < |noted| ensures Matches(g.frames[i], noted[i]) {
      if i < |heard| - 1 {
        assert g.frames[i] == g.frames[..|f.frames| - 1][i] && noted[i] == noted[..|heard| - 1][i];
        assert Matches(f.frames[i], heard[i]);
      }
    }
  }

  lemma StepMatches(f: Family, heard: seq<seq<Reply>>, e: Event)
    requires Enabled(f, e) && Shaped(f) && AllMatch(f, heard)
    ensures e.Return? ==> f.frames[|f.frames| - 1].remaining < |f.frames[|f.frames| - 1].taken|
    ensures AllMatch(Step(f, e), Noted(f, heard, e))
  {
    CallingHasCalled(f, e);
    if e.Return? {
      ReturnMatches(f.frames[|f.frames| - 1], heard[|heard| - 1], e.error);
      TopMatches(f, Step(f, e), heard, Noted(f, heard, e));
    } else if e.Call? {
      assert Matches(f.frames[|f.frames| - 1], heard[|heard| - 1]);
      TopMatches(f, Step(f, e), heard, heard);
    } else if e.Dispose? {
      DisposeMatches(f, heard, e.stack);
    } else if !e.Finish? {
      OtherStepsKeepFrames(f, e);
    }
  }

  lemma DisposeMatches(f: Family, heard: seq<seq<Reply>>, i: nat)
    requires Enabled(f, Dispose(i)) && AllMatch(f, heard)
    ensures AllMatch(Step(f, Dispose(i)), Noted(f, heard, Dispose(i)))
  {
    var taken := f.stacks[i].entries;
    assert Matches(Frame(taken, |taken|, false, []), []);
  }

  lemma {:induction false} RunMatches(f: Family, heard: seq<seq<Reply>>, events: seq<Event>)
    requires Shaped(f) && IsRun(f, events) && AllMatch(f, heard)
    ensures AllMatch(After(f, events), Heard(f, heard, events))
    decreases |events|
  {
    if events != [] {
      StepKeepsShape(f, events[0]);
      StepMatches(f, heard, events[0]);
      RunMatches(Step(f, events[0]), Noted(f, heard, events[0]), events[1..]);
    }
  }

  /** A `dispose` that ends has had one reply from every entry it took, latest registration first, and
      reports their texts in that order: no error without a failure, or all of them nested. What other
      stacks did meanwhile does not show. */
  lemma FinishedFrameReports(events: seq<Event>)
    requires IsRun(NO_STACKS, events) && Enabled(After(NO_STACKS, events), Finish)
    ensures
      var f, heard := After(NO_STACKS, events), Heard(NO_STACKS, [], events);
      var top := f.frames[|f.frames| - 1];
      && |heard| == |f.frames| && |heard[|heard| - 1]| == |top.taken|
      && FromLatest(heard[|heard| - 1], top.taken)
      && Reported(f) == Outcome(Texts(heard[|heard| - 1]))
  {
    RunMatches(NO_STACKS, [], events);
    var f, heard := After(NO_STACKS, events), Heard(NO_STACKS, [], events);
    assert Matches(f.frames[|f.frames| - 1], heard[|heard| - 1]);
  }
}
