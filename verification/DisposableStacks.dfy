/** `DisposableStack` (src/builtins/disposable_stack.rs): one stack, as a value and as the object
    whose properties the built-in methods overwrite. */
module DisposableStacks {
  import opened Options

  /** What a property lookup finds. */
  datatype Member = Absent | Callable(f: nat) | NotCallable

  /** `use` looks at three properties of an object, in this order. */
  datatype Resource =
    | Nothing  // undefined or null
    | Plain(id: nat)
    | Object(id: nat, symbolDispose: Member, bracketDispose: Member, dispose: Member)

  /** A registered resource: `callback` tells how `f` is called. The serial number identifies the
      registration. */
  datatype Entry = Entry(value: Resource, f: nat, callback: bool, serial: nat)

  datatype Stack = Stack(entries: seq<Entry>, disposed: bool)

  datatype Error = AlreadyDisposed | NotDisposable | NotAFunction | Failed(text: string)

  datatype Result<+T> = Ok(value: T) | Err(error: Error)

  function DisposeMethod(v: Resource): Member {
    if !v.Object? then Absent
    else if v.symbolDispose != Absent then v.symbolDispose
    else if v.bracketDispose != Absent then v.bracketDispose
    else v.dispose
  }

  /** `f` is the function under Symbol.dispose, or under "[Symbol.dispose]" if there is nothing under the
      first, or under "dispose" if there is nothing under either. */
  ghost predicate FirstMethod(v: Resource, f: nat)
    requires v.Object?
  {
    || v.symbolDispose == Callable(f)
    || (v.symbolDispose.Absent? && v.bracketDispose == Callable(f))
    || (v.symbolDispose.Absent? && v.bracketDispose.Absent? && v.dispose == Callable(f))
  }

  /** `use` registers an object exactly with its first method, and refuses what has none. */
  lemma UsedIff(s: Stack, v: Resource, serial: nat)
    requires !s.disposed && !v.Nothing?
    ensures forall f :: Used(s, v, serial) == Ok(Some(Entry(v, f, false, serial))) <==> v.Object? && FirstMethod(v, f)
    ensures Used(s, v, serial).Err? <==> v.Plain? || forall f :: !FirstMethod(v, f)
    ensures Used(s, v, serial).Err? ==> Used(s, v, serial).error == NotDisposable
  {
  }

  /** The entry that `use` registers, if it registers one. */
  function Used(s: Stack, v: Resource, serial: nat): Result<Option<Entry>> {
    if s.disposed then Err(AlreadyDisposed)
    else if v.Nothing? then Ok(None)
    else
      match DisposeMethod(v)
      case Callable(f) => Ok(Some(Entry(v, f, false, serial)))
      case _ => Err(NotDisposable)
  }

  function Adopted(s: Stack, v: Resource, onDispose: Member, serial: nat): Result<Option<Entry>> {
    if s.disposed then Err(AlreadyDisposed)
    else
      match onDispose
      case Callable(f) => Ok(Some(Entry(v, f, true, serial)))
      case _ => Err(NotAFunction)
  }

  /** The stack behind a registration. */
  function Registered(s: Stack, r: Result<Option<Entry>>): Stack {
    if r.Ok? && r.value.Some? then Stack(s.entries + [r.value.value], s.disposed) else s
  }

  const EMPTIED := Stack([], true)

  // ---- Disposal -----------------------------------------------------------------------------

  function Reversed<T>(s: seq<T>): (r: seq<T>)
    ensures |r| == |s|
    ensures forall i :: 0 <= i < |s| ==> r[i] == s[|s| - 1 - i]
  {
    if s == [] then [] else [s[|s| - 1]] + Reversed(s[..|s| - 1])
  }

  /** The texts of the calls that fail, in the order of the calls. */
  function Failures(calls: seq<Entry>, outcome: Entry -> Option<string>): seq<string> {
    if calls == [] then []
    else
      var before := Failures(calls[..|calls| - 1], outcome);
      match outcome(calls[|calls| - 1])
      case None => before
      case Some(text) => before + [text]
  }

  function Suppressing(text: string, earlier: string): string {
    "SuppressedError: " + text + "; Suppressed: " + earlier
  }

  /** All failures in one error, the latest outermost. */
  function Nested(failures: seq<string>): string
    requires failures != []
  {
    var last := failures[|failures| - 1];
    if |failures| == 1 then last else Suppressing(last, Nested(failures[..|failures| - 1]))
  }

  /** A later failure wraps the error of the earlier ones. */
  lemma NestedWraps(earlier: seq<string>, text: string)
    requires earlier != []
    ensures Nested(earlier + [text]) == "SuppressedError: " + text + "; Suppressed: " + Nested(earlier)
    ensures Nested([text]) == text
  {
    assert (earlier + [text])[..|earlier|] == earlier;
  }

  function Outcome(failures: seq<string>): Option<string> {
    if failures == [] then None else Some(Nested(failures))
  }

  /** The text `part` stands in `s` at `at`. */
  ghost predicate StandsAt(s: string, at: nat, part: string) {
    at + |part| <= |s| && s[at..at + |part|] == part
  }

  lemma StandsInside(before: string, s: string, after: string, at: nat, part: string)
    requires StandsAt(s, at, part)
    ensures StandsAt(before + s + after, |before| + at, part)
  {
    var whole := before + s + after;
    assert whole[|before|..|before| + |s|] == s;
    assert whole[|before| + at..|before| + at + |part|] == s[at..at + |part|];
  }

  lemma SuppressingParts(text: string, earlier: string) returns (before: string, between: string)
    ensures Suppressing(text, earlier) == before + text + (between + earlier)
  {
    before, between := "SuppressedError: ", "; Suppressed: ";
  }

  lemma SuppressingHolds(text: string, earlier: string, at: nat, part: string) returns (outer: nat, inner: nat)
    requires StandsAt(earlier, at, part)
    ensures StandsAt(Suppressing(text, earlier), outer, text) && StandsAt(Suppressing(text, earlier), inner, part)
  {
    var before, between := SuppressingParts(text, earlier);
    StandsInside(before, text, between + earlier, 0, text);
    StandsInside(before + text + between, earlier, "", at, part);
    assert before + text + (between + earlier) == before + text + between + earlier + "";
    outer, inner := |before|, |before + text + between| + at;
  }

  /** Every failure can be found in the error. */
  lemma {:induction false} NestedHoldsEveryFailure(failures: seq<string>, i: nat) returns (at: nat)
    requires i < |failures|
    ensures StandsAt(Nested(failures), at, failures[i])
  {
    var n := |failures|;
    if n == 1 {
      at := 0;
    } else {
      var inner := NestedHoldsEveryFailure(failures[..n - 1], if i < n - 1 then i else 0);
      var outer, moved := SuppressingHolds(failures[n - 1], Nested(failures[..n - 1]), inner,
                                           failures[if i < n - 1 then i else 0]);
      at := if i == n - 1 then outer else moved;
    }
  }

  // ---- The object -----------------------------------------------------------------------------

  class DisposableStack {
    var entries: seq<Entry>
    var disposed: bool

    function Contents(): Stack
      reads this
    {
      Stack(entries, disposed)
    }

    constructor ()
      ensures Contents() == Stack([], false)
    {
      entries := [];
      disposed := false;
    }

    constructor Holding(taken: seq<Entry>)
      ensures Contents() == Stack(taken, false)
    {
      entries := taken;
      disposed := false;
    }

    method Use(v: Resource, serial: nat) returns (r: Result<Resource>)
      modifies this
      ensures Contents() == Registered(old(Contents()), Used(old(Contents()), v, serial))
      ensures r == (if Used(old(Contents()), v, serial).Ok? then Ok(v) else Err(Used(old(Contents()), v, serial).error))
      ensures Contents() != old(Contents()) ==> v.Object? && r == Ok(v)
      ensures !old(disposed) && v.Object? ==>
        forall f :: FirstMethod(v, f) ==> Contents() == Stack(old(entries) + [Entry(v, f, false, serial)], false)
    {
      if disposed {
        return Err(AlreadyDisposed);
      }
      if v.Nothing? {
        return Ok(v);
      }
      var disposeMethod := Absent;
      if v.Object? {
        disposeMethod := v.symbolDispose;
        if disposeMethod == Absent {
          disposeMethod := v.bracketDispose;
          if disposeMethod == Absent {
            disposeMethod := v.dispose;
          }
        }
      }
      if !disposeMethod.Callable? {
        return Err(NotDisposable);
      }
      entries := entries + [Entry(v, disposeMethod.f, false, serial)];
      r := Ok(v);
    }

    method Adopt(v: Resource, onDispose: Member, serial: nat) returns (r: Result<Resource>)
      modifies this
      ensures Contents() == Registered(old(Contents()), Adopted(old(Contents()), v, onDispose, serial))
      ensures r == (if old(disposed) then Err(AlreadyDisposed)
                    else if onDispose.Callable? then Ok(v) else Err(NotAFunction))
      ensures Contents() == (if old(disposed) || !onDispose.Callable? then old(Contents())
                             else Stack(old(entries) + [Entry(v, onDispose.f, true, serial)], false))
    {
      if disposed {
        return Err(AlreadyDisposed);
      }
      if !onDispose.Callable? {
        return Err(NotAFunction);
      }
      entries := entries + [Entry(v, onDispose.f, true, serial)];
      r := Ok(v);
    }

    /** Like `adopt` with nothing to pass to the function. */
    method Defer(onDispose: Member, serial: nat) returns (r: Result<Resource>)
      modifies this
      ensures Contents() == Registered(old(Contents()), Adopted(old(Contents()), Nothing, onDispose, serial))
      ensures r == (if old(disposed) then Err(AlreadyDisposed)
                    else if onDispose.Callable? then Ok(Nothing) else Err(NotAFunction))
      ensures Contents() == (if old(disposed) || !onDispose.Callable? then old(Contents())
                             else Stack(old(entries) + [Entry(Nothing, onDispose.f, true, serial)], false))
    {
      if disposed {
        return Err(AlreadyDisposed);
      }
      if !onDispose.Callable? {
        return Err(NotAFunction);
      }
      entries := entries + [Entry(Nothing, onDispose.f, true, serial)];
      r := Ok(Nothing);
    }

    /** All entries go to a new stack; this one counts as disposed. */
    method Move() returns (r: Result<DisposableStack>)
      modifies this
      ensures old(disposed) ==> r == Err(AlreadyDisposed) && Contents() == old(Contents())
      ensures !old(disposed) ==>
        r.Ok? && fresh(r.value) && r.value.Contents() == old(Contents()) && Contents() == EMPTIED
      ensures disposed && (!old(disposed) ==> entries == [] && !r.value.disposed)
    {
      if disposed {
        return Err(AlreadyDisposed);
      }
      var taken := entries;
      entries := [];
      disposed := true;
      var moved := new DisposableStack.Holding(taken);
      r := Ok(moved);
    }

    /** Calls every entry, the latest registration first, whatever the calls return, and reports all
        failures in one error. `outcome` says what a call returns; `calls` lists the calls made. */
    method Dispose(outcome: Entry -> Option<string>) returns (r: Result<()>, calls: seq<Entry>)
      modifies this
      ensures disposed && (old(disposed) ==> Contents() == old(Contents()) && r == Ok(()) && calls == [])
      ensures !old(disposed) ==> Contents() == EMPTIED && calls == Reversed(old(entries))
      ensures !old(disposed) ==>
                r == match Outcome(Failures(calls, outcome)) case None => Ok(()) case Some(text) => Err(Failed(text))
    {
      calls := [];
      if disposed {
        return Ok(()), calls;
      }
      disposed := true;
      var taken := entries;
      entries := [];
      var currentError;
      currentError, calls := CallAll(taken, outcome);
      r := match currentError case None => Ok(()) case Some(text) => Err(Failed(text));
    }
  }

  /** The loop of `dispose`. */
  method CallAll(taken: seq<Entry>, outcome: Entry -> Option<string>)
    returns (currentError: Option<string>, calls: seq<Entry>)
    ensures calls == Reversed(taken) && currentError == Outcome(Failures(calls, outcome))
  {
    calls, currentError := [], None;
    for i := |taken| downto 0
      invariant calls == Reversed(taken[i..]) && currentError == Outcome(Failures(calls, outcome))
    {
      var entry := taken[i];
      ReversedFrom(taken, i);
      OneMoreCall(calls, entry, outcome);
      calls := calls + [entry];
      match outcome(entry) {
        case None =>
        case Some(e) =>
          match currentError {
            case None => currentError := Some(e);
            case Some(earlier) => currentError := Some("SuppressedError: " + e + "; Suppressed: " + earlier);
          }
      }
    }
    assert taken[0..] == taken;
  }

  lemma ReversedFrom(taken: seq<Entry>, i: nat)
    requires i < |taken|
    ensures Reversed(taken[i..]) == Reversed(taken[i + 1..]) + [taken[i]]
  {
    assert taken[i..] == [taken[i]] + taken[i + 1..];
    ReversedPrepend(taken[i], taken[i + 1..]);
  }

  /** How the error grows with one more call. */
  lemma OneMoreCall(calls: seq<Entry>, entry: Entry, outcome: Entry -> Option<string>)
    ensures
      var before, after := Outcome(Failures(calls, outcome)), Outcome(Failures(calls + [entry], outcome));
      after == match outcome(entry)
               case None => before
               case Some(e) => Some(if before.None? then e else Suppressing(e, before.value))
  {
    assert (calls + [entry])[..|calls|] == calls;
    var failures := Failures(calls, outcome);
    if outcome(entry).Some? { assert (failures + [outcome(entry).value])[..|failures|] == failures; }
  }

  lemma {:induction false} ReversedPrepend<T>(x: T, s: seq<T>)
    ensures Reversed([x] + s) == Reversed(s) + [x]
  {
    if s == [] {
      assert [x] + s == [x] && [x][..0] == [];
    } else {
      assert ([x] + s)[..|s|] == [x] + s[..|s| - 1];
      ReversedPrepend(x, s[..|s| - 1]);
    }
  }
}
