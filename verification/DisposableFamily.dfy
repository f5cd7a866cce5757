/** Any family of `DisposableStack`s in use: registrations, moves and nested disposals as steps of a
    machine, and what every run keeps (src/builtins/disposable_stack.rs). */
module DisposableFamily {
  import opened Options
  import opened DisposableStacks

  /** A running `dispose`: the entries it took, of which the first `remaining` are still to be called.
      While `calling`, the user's function runs and may do anything, also dispose other stacks. */
  datatype Frame = Frame(taken: seq<Entry>, remaining: nat, calling: bool, failures: seq<string>)

  /** `called` lists all calls made; `registered` counts the registrations, which are numbered. */
  datatype Family = Family(stacks: seq<Stack>, frames: seq<Frame>, called: seq<Entry>, registered: nat)

  datatype Event =
    | Create
    | Use(stack: nat, value: Resource)
    | Adopt(stack: nat, value: Resource, onDispose: Member)
    | Move(stack: nat)
    | Dispose(stack: nat)
    | Call
    | Return(error: Option<string>)
    | Finish

  const NO_STACKS := Family([], [], [], 0)

  /** Script code runs at the top level and inside a call; in between, `dispose` itself is at work. */
  predicate ScriptRuns(f: Family) {
    f.frames == [] || f.frames[|f.frames| - 1].calling
  }

  predicate Enabled(f: Family, e: Event) {
    match e
    case Create => ScriptRuns(f)
    case Use(i, _) => ScriptRuns(f) && i < |f.stacks|
    case Adopt(i, _, _) => ScriptRuns(f) && i < |f.stacks|
    case Move(i) => ScriptRuns(f) && i < |f.stacks|
    case Dispose(i) => ScriptRuns(f) && i < |f.stacks|
    case Call => !ScriptRuns(f) && f.frames[|f.frames| - 1].remaining > 0
                 && f.frames[|f.frames| - 1].remaining <= |f.frames[|f.frames| - 1].taken|
    case Return(_) => f.frames != [] && f.frames[|f.frames| - 1].calling
    case Finish => !ScriptRuns(f) && f.frames[|f.frames| - 1].remaining == 0
  }

  function Register(f: Family, i: nat, r: Result<Option<Entry>>): Family
    requires i < |f.stacks|
  {
    if r.Ok? && r.value.Some? then
      f.(stacks := f.stacks[i := Registered(f.stacks[i], r)], registered := f.registered + 1)
    else f
  }

  function Step(f: Family, e: Event): Family
    requires Enabled(f, e)
  {
    match e
    case Create => f.(stacks := f.stacks + [Stack([], false)])
    case Use(i, v) => Register(f, i, Used(f.stacks[i], v, f.registered))
    case Adopt(i, v, onDispose) => Register(f, i, Adopted(f.stacks[i], v, onDispose, f.registered))
    case Move(i) =>
      if f.stacks[i].disposed then f
      else f.(stacks := f.stacks[i := EMPTIED] + [Stack(f.stacks[i].entries, false)])
    case Dispose(i) =>
      if f.stacks[i].disposed then f
      else
        var taken := f.stacks[i].entries;
        f.(stacks := f.stacks[i := EMPTIED], frames := f.frames + [Frame(taken, |taken|, false, [])])
    case Call =>
      var top := f.frames[|f.frames| - 1];
      f.(frames := f.frames[|f.frames| - 1 := top.(remaining := top.remaining - 1, calling := true)],
         called := f.called + [top.taken[top.remaining - 1]])
    case Return(error) =>
      var top := f.frames[|f.frames| - 1];
      var failures := if error.Some? then top.failures + [error.value] else top.failures;
      f.(frames := f.frames[|f.frames| - 1 := top.(calling := false, failures := failures)])
    case Finish => f.(frames := f.frames[..|f.frames| - 1])
  }

  /** What the `dispose` that ends at `Finish` reports to its caller. */
  function Reported(f: Family): Option<string>
    requires Enabled(f, Finish)
  {
    Outcome(f.frames[|f.frames| - 1].failures)
  }

  ghost predicate IsRun(f: Family, events: seq<Event>)
    decreases |events|
  {
    events == [] || (Enabled(f, events[0]) && IsRun(Step(f, events[0]), events[1..]))
  }

  ghost function After(f: Family, events: seq<Event>): Family
    requires IsRun(f, events)
    decreases |events|
  {
    if events == [] then f else After(Step(f, events[0]), events[1..])
  }

  // ---- Where the registrations are ----------------------------------------------------------

  /** How often a registration occurs in a list, on the stacks, and among what running calls of
      `dispose` have taken and not called yet. */
  function Times(entries: seq<Entry>, serial: nat): nat {
    if entries == [] then 0
    else Times(entries[..|entries| - 1], serial) + if entries[|entries| - 1].serial == serial then 1 else 0
  }

  function Pending(stacks: seq<Stack>, serial: nat): nat {
    if stacks == [] then 0
    else Pending(stacks[..|stacks| - 1], serial) + Times(stacks[|stacks| - 1].entries, serial)
  }

  function Waiting(frame: Frame, serial: nat): nat {
    if frame.remaining <= |frame.taken| then Times(frame.taken[..frame.remaining], serial) else 0
  }

  function InFlight(frames: seq<Frame>, serial: nat): nat {
    if frames == [] then 0
    else InFlight(frames[..|frames| - 1], serial) + Waiting(frames[|frames| - 1], serial)
  }

  function Places(f: Family, serial: nat): nat {
    Pending(f.stacks, serial) + InFlight(f.frames, serial) + Times(f.called, serial)
  }

  /** Every registration is in exactly one place, and nothing else is anywhere. */
  ghost predicate Conserved(f: Family, serial: nat) {
    Places(f, serial) == if serial < f.registered then 1 else 0
  }

  // ---- What stacks and frames look like -----------------------------------------------------

  /** Later registrations stand behind earlier ones, and all are numbered below `n`. */
  ghost predicate InOrder(entries: seq<Entry>, n: nat) {
    && (forall i, j :: 0 <= i < j < |entries| ==> entries[i].serial < entries[j].serial)
    && (forall i :: 0 <= i < |entries| ==> entries[i].serial < n)
  }

  /** Only a stack that is not disposed holds entries. */
  ghost predicate StackOk(s: Stack, n: nat) {
    InOrder(s.entries, n) && (s.disposed ==> s.entries == [])
  }

  ghost predicate FrameOk(frame: Frame, n: nat) {
    && InOrder(frame.taken, n) && frame.remaining <= |frame.taken|
    && |frame.failures| + (if frame.calling then 1 else 0) <= |frame.taken| - frame.remaining
  }

  /** All but the top `dispose` are waiting for a call to return. */
  ghost predicate Shaped(f: Family) {
    && (forall i :: 0 <= i < |f.stacks| ==> StackOk(f.stacks[i], f.registered))
    && (forall i :: 0 <= i < |f.frames| ==> FrameOk(f.frames[i], f.registered))
    && (forall i :: 0 <= i < |f.frames| - 1 ==> f.frames[i].calling)
  }

  /** What a frame no longer has to call is among the calls made. */
  ghost predicate IsCalled(frame: Frame, called: seq<Entry>) {
    forall k :: frame.remaining <= k < |frame.taken| ==> frame.taken[k] in called
  }

  ghost predicate CallsAreListed(f: Family) {
    forall i :: 0 <= i < |f.frames| ==> IsCalled(f.frames[i], f.called)
  }
}
