/** Promises and the microtask queue as one state (src/builtins/promise.rs,
    src/execution/microtask_queue.rs), in the regime where a queue is active. The operations are
    functions from state to state; the class in PromiseRealm.dfy performs them in place.

    `tag`, `source`, `role`, `log`, `dropped` and `registrations` are bookkeeping of this model:
    they name what happened and decide nothing. */
module PromiseWorld {
  import opened Options

  /** Only promises are looked into; `ArrayOf` is an array that `Promise.all` reads
      or builds. */
  datatype Value = Undefined | Text(s: string) | Other(id: nat) | PromiseRef(promise: nat) | ArrayOf(items: seq<Value>)

  /** Script functions, and the closures the built-ins create. */
  datatype Handler =
    | Script(id: nat)
    | ResolveTo(promise: nat)
    | RejectTo(promise: nat)
    | AllResolve(all: nat, index: nat)
    | AllReject(all: nat)

  datatype State = Pending | Fulfilled | Rejected

  datatype Reaction = Reaction(tag: nat, handler: Option<Handler>, downstream: Option<nat>)

  /** Who can settle a promise: script, through its resolving functions; the reaction it is the
      child of; or the closures of one call of `Promise.all`. */
  datatype Role = Exposed | Derived | AllResult(all: nat)

  datatype Promise = Promise(
    state: State, result: Value,
    fulfillReactions: seq<Reaction>, rejectReactions: seq<Reaction>, role: Role)

  datatype Task =
    | PromiseReaction(source: nat, tag: nat, handler: Option<Handler>, argument: Value,
                      downstream: Option<nat>, isRejection: bool)
    | Callable(function_: nat)

  /** One attachment of a pair of reactions to a promise. */
  datatype Registration = Registration(
    promise: nat, onFulfilled: Option<Handler>, onRejected: Option<Handler>, downstream: Option<nat>)

  /** One call of `Promise.all`; `tags[i]` is the registration on element `i`. */
  datatype All = All(child: nat, results: seq<Value>, remaining: nat, tags: seq<nat>)

  /** `log` is every task ever enqueued; its first `done` tasks have been taken from the queue, and
      those in `dropped` were not executed because of the iteration limit. `running` holds the
      downstream promises of the script calls in progress, innermost last. */
  datatype World = World(
    promises: seq<Promise>, log: seq<Task>, done: nat, dropped: set<nat>,
    registrations: seq<Registration>, alls: seq<All>, running: seq<Option<nat>>)

  const INITIAL := World([], [], 0, {}, [], [], [])

  datatype Outcome = Ok(value: Value) | Err(message: string)

  function Queue(w: World): seq<Task>
    requires w.done <= |w.log|
  {
    w.log[w.done..]
  }

  predicate IsPromise(w: World, p: nat) { p < |w.promises| }

  /** A value that script can hold: its promise, if it is one, exists. */
  predicate Valid(w: World, v: Value) {
    v.PromiseRef? ==> v.promise < |w.promises|
  }

  function Append(w: World, role: Role): World {
    w.(promises := w.promises + [Promise(Pending, Undefined, [], [], role)])
  }

  // ---- Settling -----------------------------------------------------------------------------

  function TaskOf(p: nat, r: Reaction, argument: Value, isRejection: bool): Task {
    PromiseReaction(p, r.tag, r.handler, argument, r.downstream, isRejection)
  }

  function TasksOf(p: nat, rs: seq<Reaction>, argument: Value, isRejection: bool): seq<Task> {
    if |rs| == 0 then []
    else TasksOf(p, rs[..|rs| - 1], argument, isRejection) + [TaskOf(p, rs[|rs| - 1], argument, isRejection)]
  }

  /** Settles a pending promise: its reactions of one kind are enqueued, both lists are cleared. */
  function Settle(w: World, p: nat, state: State, v: Value): World
    requires IsPromise(w, p)
  {
    var promise := w.promises[p];
    if promise.state != Pending then w
    else
      var drained := if state == Rejected then promise.rejectReactions else promise.fulfillReactions;
      w.(promises := w.promises[p := Promise(state, v, [], [], promise.role)],
         log := w.log + TasksOf(p, drained, v, state == Rejected))
  }

  function Reject(w: World, p: nat, reason: Value): World
    requires IsPromise(w, p)
  {
    Settle(w, p, Rejected, reason)
  }

  // ---- Attaching reactions ------------------------------------------------------------------

  /** Attaches a pair of reactions: kept while the promise is pending, enqueued at once after. */
  function Register(w: World, p: nat, onFulfilled: Option<Handler>, onRejected: Option<Handler>,
                    downstream: Option<nat>): World
    requires IsPromise(w, p)
  {
    var promise, tag := w.promises[p], |w.registrations|;
    var fulfill, reject := Reaction(tag, onFulfilled, downstream), Reaction(tag, onRejected, downstream);
    var registered := w.(registrations := w.registrations + [Registration(p, onFulfilled, onRejected, downstream)]);
    match promise.state
    case Pending =>
      registered.(promises := w.promises[p := promise.(
        fulfillReactions := promise.fulfillReactions + [fulfill],
        rejectReactions := promise.rejectReactions + [reject])])
    case Fulfilled => registered.(log := w.log + [TaskOf(p, fulfill, promise.result, false)])
    case Rejected => registered.(log := w.log + [TaskOf(p, reject, promise.result, true)])
  }

  /** `then`: a child promise, and a pair of reactions that settle it. */
  function Then(w: World, p: nat, onFulfilled: Option<Handler>, onRejected: Option<Handler>): World
    requires IsPromise(w, p)
  {
    Register(Append(w, Derived), p, onFulfilled, onRejected, Some(|w.promises|))
  }

  // ---- Resolving ----------------------------------------------------------------------------

  /** No fulfilled promise holds a promise, so adopting a state recurses at most once. */
  ghost predicate FulfilledWithPlainValues(w: World) {
    forall p :: 0 <= p < |w.promises| && w.promises[p].state == Fulfilled ==> !w.promises[p].result.PromiseRef?
  }

  const CYCLE := Text("TypeError: Chaining cycle detected for promise")
  const NOT_AN_ARRAY := "TypeError: Promise.all requires an array argument"

  ghost function Resolve(w: World, p: nat, v: Value): World
    requires IsPromise(w, p) && Valid(w, v) && FulfilledWithPlainValues(w)
    decreases if v.PromiseRef? then 1 else 0
  {
    if v.PromiseRef? then
      if v.promise == p then Reject(w, p, CYCLE)
      else
        var other := w.promises[v.promise];
        match other.state
        case Fulfilled => Resolve(w, p, other.result)
        case Rejected => Reject(w, p, other.result)
        case Pending => Register(w, v.promise, Some(ResolveTo(p)), Some(RejectTo(p)), None)
    else Settle(w, p, Fulfilled, v)
  }

  // ---- Promise.all --------------------------------------------------------------------------

  /** The promise of one element: the element itself, or a new promise resolved with it. */
  ghost function ItemPromise(w: World, element: Value): (World, nat)
    requires Valid(w, element) && FulfilledWithPlainValues(w)
  {
    if element.PromiseRef? then (w, element.promise)
    else (Resolve(Append(w, Derived), |w.promises|, element), |w.promises|)
  }

  ghost function AttachElement(w: World, k: nat, element: Value): World
    requires k < |w.alls| && Valid(w, element) && FulfilledWithPlainValues(w)
  {
    var (w', item) := ItemPromise(w, element);
    var all := w.alls[k];
    var attached := Then(w', item, Some(AllResolve(k, |all.tags|)), Some(AllReject(k)));
    attached.(alls := w.alls[k := all.(tags := all.tags + [|w'.registrations|])])
  }

  function Undefineds(n: nat): seq<Value> {
    seq(n, _ => Undefined)
  }

  /** The state before the elements are attached: an empty array settles the child at once. */
  ghost function BeginAll(w: World, total: nat): World
    requires FulfilledWithPlainValues(w)
  {
    var child := |w.promises|;
    if total == 0 then Settle(Append(w, Derived), child, Fulfilled, ArrayOf([]))
    else
      Append(w, AllResult(|w.alls|)).(alls := w.alls + [All(child, Undefineds(total), total, [])])
  }

  /** What the fulfilment closure of element `index` does. */
  ghost function FireResolve(w: World, k: nat, index: nat, v: Value): World
    requires k < |w.alls| && index < |w.alls[k].results| && w.alls[k].remaining > 0
    requires IsPromise(w, w.alls[k].child)
  {
    var all := w.alls[k];
    var updated := all.(results := all.results[index := v], remaining := all.remaining - 1);
    var w' := w.(alls := w.alls[k := updated]);
    if updated.remaining == 0 then Settle(w', updated.child, Fulfilled, ArrayOf(updated.results)) else w'
  }
}
