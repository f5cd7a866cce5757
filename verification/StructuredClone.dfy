/** The structured clone algorithm (src/builtins/structured_clone.rs).

    A depth-first copy with a table of visited addresses. The state of a clone in progress is a heap
    with its next free address and the table. What each step of the algorithm does to that state is
    proved on values; the class below performs the steps. */
module StructuredClone {
  import opened Options
  import opened FiniteSets
  import opened ObjectGraphs
  import opened Properties

  datatype Result = Ok(value: Value) | Err(message: string)

  const FUNCTION_ERROR := "DataCloneError: Functions cannot be cloned"
  const SYMBOL_ERROR := "DataCloneError: Symbols cannot be cloned"

  /** The state of a clone in progress, as a value. */
  datatype Store = Store(heap: Heap, next: nat, visited: map<nat, Value>)

  /** New cells lie at `base` and above; the source heap is untouched below it. */
  ghost predicate StoreOk(source: Heap, base: nat, s: Store) {
    match s
    case Store(heap, next, visited) =>
      && HeapOk(source) && base <= next
      && (forall a :: a in source ==> a < base && a in heap && heap[a] == source[a])
      && (forall a :: a in heap ==> a < next)
      && (forall a :: a in visited ==> EntryOk(source, base, s, a))
      && (forall a, b :: a in visited && b in visited && a != b ==> visited[a].address != visited[b].address)
  }

  ghost predicate EntryOk(source: Heap, base: nat, s: Store, a: nat) {
    && a in source && a in s.visited && s.visited[a].IsReference()
    && base <= s.visited[a].address < s.next && s.visited[a].address in s.heap
    && (s.visited[a].Array? <==> source[a].ArrayCell?)
  }

  /** Cells and table entries that exist are never changed. */
  ghost predicate Grows(s: Store, t: Store) {
    && s.next <= t.next
    && (forall x :: x in s.heap ==> x in t.heap && t.heap[x] == s.heap[x])
    && (forall a :: a in s.visited ==> a in t.visited && t.visited[a] == s.visited[a])
  }

  /** What has been visited since `s`, other than `pending`, is reachable from `root` and copied. */
  ghost predicate CopiedSince(source: Heap, s: Store, t: Store, root: nat, pending: set<nat>) {
    forall a :: a in t.visited && a !in s.visited && a !in pending ==>
      Copied(source, t.heap, t.visited, a) && Reaches(source, root, a)
  }

  lemma GrowsTransitive(s: Store, t: Store, u: Store)
    requires Grows(s, t) && Grows(t, u)
    ensures Grows(s, u)
  {
  }

  lemma GrowingKeepsCopied(source: Heap, t: Store, u: Store, a: nat)
    requires Grows(t, u) && Copied(source, t.heap, t.visited, a)
    ensures Copied(source, u.heap, u.visited, a)
  {
    GrowingKeepsCopies(t.visited, u.visited, source[a], t.heap[t.visited[a].address]);
  }

  /** Cloning a value stored in the cell at `root` adds copies of what `root` reaches. */
  lemma ChildCopiedSince(source: Heap, s: Store, t: Store, u: Store, root: nat, pending: set<nat>, v: Value)
    requires CopiedSince(source, s, t, root, pending) && Grows(t, u)
    requires v.IsReference() ==> Edge(source, root, v.address) && CopiedSince(source, t, u, v.address, {})
    requires !v.IsReference() ==> u.visited == t.visited
    ensures CopiedSince(source, s, u, root, pending)
  {
    forall a | a in u.visited && a !in s.visited && a !in pending
      ensures Copied(source, u.heap, u.visited, a) && Reaches(source, root, a)
    {
      if a in t.visited {
        GrowingKeepsCopied(source, t, u, a);
      } else {
        EdgeReaches(source, root, v.address, a);
      }
    }
  }

  lemma StoredEdge(source: Heap, a: nat, i: nat)
    requires a in source && i < |Stored(source[a])| && Stored(source[a])[i].IsReference()
    ensures Edge(source, a, Stored(source[a])[i].address)
  {
  }

  /** The message names the kind of a function or symbol that `v` reaches. */
  ghost predicate Reports(source: Heap, v: Value, message: string) {
    || (message == FUNCTION_ERROR && exists u: Value :: u.Function? && Finds(source, v, u))
    || (message == SYMBOL_ERROR && exists u: Value :: u.Symbol? && Finds(source, v, u))
  }

  lemma FoundIsReached(source: Heap, v: Value, u: Value)
    requires Finds(source, v, u) && u.IsUncloneable()
    ensures ReachesUncloneable(source, v)
  {
    if v.IsReference() {
      var b :| Reaches(source, v.address, b) && Holds(source, b, u);
      assert HoldsUncloneable(source, b);
    }
  }

  lemma ReportedIsUncloneable(source: Heap, v: Value, message: string)
    requires Reports(source, v, message)
    ensures ReachesUncloneable(source, v)
  {
    hide FUNCTION_ERROR, SYMBOL_ERROR, Finds, ReachesUncloneable;
    forall u | Finds(source, v, u) && u.IsUncloneable() ensures ReachesUncloneable(source, v) {
      FoundIsReached(source, v, u);
    }
  }

  lemma ChildFinds(source: Heap, a: nat, i: nat, v: Value, u: Value)
    requires a in source && i < |Stored(source[a])| && v.IsReference() && v.address == a
    requires Finds(source, Stored(source[a])[i], u)
    ensures Finds(source, v, u)
  {
    var child := Stored(source[a])[i];
    if child == u {
      ReachesItself(source, a);
      assert Holds(source, a, u);
    } else {
      var b :| Reaches(source, child.address, b) && Holds(source, b, u);
      StoredEdge(source, a, i);
      EdgeReaches(source, a, child.address, b);
    }
  }

  /** What is reported of a value stored at `a` holds of `a`. */
  lemma ChildReports(source: Heap, a: nat, i: nat, v: Value, message: string)
    requires a in source && i < |Stored(source[a])| && v.IsReference() && v.address == a
    requires Reports(source, Stored(source[a])[i], message)
    ensures Reports(source, v, message)
  {
    forall u | Finds(source, Stored(source[a])[i], u) ensures Finds(source, v, u) {
      ChildFinds(source, a, i, v, u);
    }
  }

  /** How many addresses of the source are left to visit. */
  ghost function Unvisited(source: Heap, visited: set<nat>): nat {
    |source.Keys - visited|
  }

  /** Fewer addresses are left to visit. */
  lemma VisitingShrinks(source: Heap, base: nat, s: Store, t: Store, a: nat)
    requires StoreOk(source, base, s) && StoreOk(source, base, t) && Grows(s, t)
    requires a in t.visited && a !in s.visited
    ensures Unvisited(source, t.visited.Keys) < Unvisited(source, s.visited.Keys)
  {
    assert EntryOk(source, base, t, a);
    assert a in source.Keys - s.visited.Keys;
    assert source.Keys - t.visited.Keys <= (source.Keys - s.visited.Keys) - {a};
    SubsetSize(source.Keys - t.visited.Keys, (source.Keys - s.visited.Keys) - {a});
  }

  // ---- Steps of the algorithm on the store ---------------------------------------------------

  /** A new cell at a new address, entered in the table for `a`. */
  function Enter(s: Store, a: nat, isArray: bool, c: Cell): Store {
    Store(s.heap[s.next := c], s.next + 1, s.visited[a := if isArray then Array(s.next) else Object(s.next)])
  }

  lemma EnterKeepsOk(source: Heap, base: nat, s: Store, a: nat, isArray: bool, c: Cell)
    requires StoreOk(source, base, s) && a in source && a !in s.visited && (isArray <==> source[a].ArrayCell?)
    ensures StoreOk(source, base, Enter(s, a, isArray, c)) && Grows(s, Enter(s, a, isArray, c))
  {
    var t := Enter(s, a, isArray, c);
    forall x | x in t.visited ensures EntryOk(source, base, t, x) {
      if x != a { assert EntryOk(source, base, s, x); }
    }
    forall x, y | x in t.visited && y in t.visited && x != y ensures t.visited[x].address != t.visited[y].address {
      if x != a { assert EntryOk(source, base, s, x); }
      if y != a { assert EntryOk(source, base, s, y); }
    }
  }

  /** The cell at `a` is being copied into the new cell at `at`: entered in the table, not filled. */
  ghost predicate Visiting(source: Heap, base: nat, before: Store, s: Store, a: nat, at: nat) {
    match s
    case Store(heap, _, visited) =>
      && StoreOk(source, base, before) && StoreOk(source, base, s) && Grows(before, s)
      && a in source && a !in before.visited && a in visited
      && visited[a].address == at && before.next <= at && at in heap
      && (visited[a].Array? <==> source[a].ArrayCell?)
      && CopiedSince(source, before, s, a, {a})
      && Unvisited(source, visited.Keys) < Unvisited(source, before.visited.Keys)
  }

  lemma EnterVisits(source: Heap, base: nat, s: Store, a: nat, isArray: bool, c: Cell)
    requires StoreOk(source, base, s) && a in source && a !in s.visited && (isArray <==> source[a].ArrayCell?)
    ensures Visiting(source, base, s, Enter(s, a, isArray, c), a, s.next) && Enter(s, a, isArray, c).heap[s.next] == c
  {
    EnterKeepsOk(source, base, s, a, isArray, c);
    VisitingShrinks(source, base, s, Enter(s, a, isArray, c), a);
  }

  function Fill(s: Store, at: nat, c: Cell): Store {
    s.(heap := s.heap[at := c])
  }

  lemma FillKeepsOk(source: Heap, base: nat, s: Store, a: nat, c: Cell)
    requires StoreOk(source, base, s) && a in s.visited
    ensures StoreOk(source, base, Fill(s, s.visited[a].address, c))
  {
    var t := Fill(s, s.visited[a].address, c);
    assert EntryOk(source, base, s, a);
    forall x | x in t.visited ensures EntryOk(source, base, t, x) {
      assert EntryOk(source, base, s, x);
    }
  }

  lemma FillGrows(source: Heap, base: nat, before: Store, s: Store, at: nat, c: Cell)
    requires StoreOk(source, base, before) && Grows(before, s) && before.next <= at
    ensures Grows(before, Fill(s, at, c))
  {
  }

  lemma FillKeepsCopies(source: Heap, base: nat, before: Store, s: Store, a: nat, c: Cell)
    requires StoreOk(source, base, s) && a in s.visited && CopiedSince(source, before, s, a, {a})
    ensures CopiedSince(source, before, Fill(s, s.visited[a].address, c), a, {a})
  {
    var t := Fill(s, s.visited[a].address, c);
    forall x | x in t.visited && x !in before.visited && x !in {a}
      ensures Copied(source, t.heap, t.visited, x) && Reaches(source, a, x)
    {
      assert Copied(source, s.heap, s.visited, x);
      assert s.visited[x].address != s.visited[a].address;
    }
  }

  /** Filling in the new cell disturbs nothing else. */
  lemma FillVisits(source: Heap, base: nat, before: Store, s: Store, a: nat, at: nat, c: Cell)
    requires Visiting(source, base, before, s, a, at)
    ensures Visiting(source, base, before, Fill(s, at, c), a, at)
  {
    FillKeepsOk(source, base, s, a, c);
    FillGrows(source, base, before, s, at, c);
    FillKeepsCopies(source, base, before, s, a, c);
  }

  /** Once the new cell is a copy, the visit is complete. */
  lemma FinishVisit(source: Heap, base: nat, before: Store, s: Store, a: nat, at: nat)
    requires Visiting(source, base, before, s, a, at) && CellCopied(s.visited, source[a], s.heap[at])
    ensures StoreOk(source, base, s) && Grows(before, s) && CopiedSince(source, before, s, a, {})
  {
    ReachesItself(source, a);
    assert EntryOk(source, base, s, a);
    assert Copied(source, s.heap, s.visited, a);
  }

  /** The reference entered in the table is what replaces the reference being visited. */
  lemma VisitedIsCopied(source: Heap, base: nat, before: Store, s: Store, a: nat, at: nat)
    requires Visiting(source, base, before, s, a, at)
    ensures source[a].ArrayCell? ==> ValueCopied(s.visited, Array(a), Array(at))
    ensures !source[a].ArrayCell? ==> ValueCopied(s.visited, Object(a), Object(at))
  {
    assert EntryOk(source, base, s, a);
  }

  /** Cloning a stored value continues the visit. */
  lemma ChildVisits(source: Heap, base: nat, before: Store, s: Store, t: Store, a: nat, at: nat, i: nat)
    requires Visiting(source, base, before, s, a, at) && StoreOk(source, base, t) && Grows(s, t)
    requires i < |Stored(source[a])|
    requires
      var v := Stored(source[a])[i];
      && (v.IsReference() ==> CopiedSince(source, s, t, v.address, {}))
      && (!v.IsReference() ==> t == s)
    ensures Visiting(source, base, before, t, a, at) && t.heap[at] == s.heap[at]
  {
    var v := Stored(source[a])[i];
    if v.IsReference() { StoredEdge(source, a, i); }
    ChildCopiedSince(source, before, s, t, a, {a}, v);
    GrowsTransitive(before, s, t);
    KeysShrink(source, s.visited.Keys, t.visited.Keys);
  }

  /** What cloning `v` from `before` has achieved at `after`. */
  ghost predicate Cloned(source: Heap, base: nat, before: Store, after: Store, v: Value, r: Result) {
    match r
    case Ok(w) =>
      && StoreOk(source, base, after) && Grows(before, after) && ValueCopied(after.visited, v, w)
      && (if v.IsReference() then CopiedSince(source, before, after, v.address, {}) else after == before)
    case Err(message) =>
      StoreOk(source, base, after) && Grows(before, after) && Reports(source, v, message)
  }

  /** A visit that ends with a copied cell has cloned the reference to it. */
  lemma ArrayVisitEnds(source: Heap, base: nat, before: Store, s: Store, a: nat, at: nat)
    requires Visiting(source, base, before, s, a, at) && CellCopied(s.visited, source[a], s.heap[at])
    requires source[a].ArrayCell?
    ensures Cloned(source, base, before, s, Array(a), Ok(Array(at)))
  {
    FinishVisit(source, base, before, s, a, at);
    VisitedIsCopied(source, base, before, s, a, at);
  }

  lemma ObjectVisitEnds(source: Heap, base: nat, before: Store, s: Store, a: nat, at: nat)
    requires Visiting(source, base, before, s, a, at) && CellCopied(s.visited, source[a], s.heap[at])
    requires !source[a].ArrayCell?
    ensures Cloned(source, base, before, s, Object(a), Ok(Object(at)))
  {
    FinishVisit(source, base, before, s, a, at);
    VisitedIsCopied(source, base, before, s, a, at);
  }

  class Cloner {
    ghost const source: Heap
    ghost const base: nat
    var store: Store

    ghost predicate Valid()
      reads this
    {
      StoreOk(source, base, store)
    }

    constructor (h: Heap, free: nat)
      requires HeapOk(h) && forall a :: a in h ==> a < free
      ensures Valid() && store == Store(h, free, map[])
      ensures source == h && base == free
    {
      source, base := h, free;
      store := Store(h, free, map[]);
    }

    method CloneValue(v: Value) returns (r: Result)
      requires Valid() && ValueOk(source, v)
      modifies this
      ensures Cloned(source, base, old(store), store, v, r)
      decreases Unvisited(source, store.visited.Keys), if v.Object? && source[v.address].View? then 1 else 0, 3
    {
      match v {
        case Primitive(_) => r := Ok(v);
        case Function(_) => r := Err(FUNCTION_ERROR);
        case Symbol(_) => r := Err(SYMBOL_ERROR);
        case Array(a) =>
          if a in store.visited {
            assert EntryOk(source, base, store, a);
            return Ok(store.visited[a]);
          }
          r := CloneArray(a);
        case Object(a) =>
          if a in store.visited {
            assert EntryOk(source, base, store, a);
            return Ok(store.visited[a]);
          }
          match store.heap[a] {
            case Sealed(_) => r := CloneSealed(a);
            case View(_, _) => r := CloneView(a);
            case Plain(_) => r := ClonePlain(a);
          }
      }
    }

    method CloneArray(a: nat) returns (r: Result)
      requires Valid() && a in source && a !in store.visited && source[a].ArrayCell?
      modifies this
      ensures Cloned(source, base, old(store), store, Array(a), r)
      decreases Unvisited(source, store.visited.Keys), 0, 2
    {
      ghost var before := store;
      var at := store.next;
      EnterVisits(source, base, before, a, true, ArrayCell([]));
      store := Enter(store, a, true, ArrayCell([]));
      var error, cloned := CloneElements(before, a, at);
      if error.Some? {
        return Err(error.value);
      }
      FillVisits(source, base, before, store, a, at, ArrayCell(cloned));
      store := Fill(store, at, ArrayCell(cloned));
      ArrayVisitEnds(source, base, before, store, a, at);
      r := Ok(Array(at));
    }

    method CloneElements(ghost before: Store, a: nat, ghost at: nat) returns (error: Option<string>, cloned: seq<Value>)
      requires Visiting(source, base, before, store, a, at) && source[a].ArrayCell?
      modifies this
      ensures error.Some? ==> Valid() && Grows(before, store) && Reports(source, Array(a), error.value)
      ensures error.None? ==> Visiting(source, base, before, store, a, at)
      ensures error.None? ==> CellCopied(store.visited, source[a], ArrayCell(cloned))
      decreases Unvisited(source, store.visited.Keys), 1, 6
    {
      cloned := [];
      error := None;
      while error.None? && |cloned| < |store.heap[a].elements|
        invariant error.None? ==> Visiting(source, base, before, store, a, at)
        invariant error.None? ==> ElementsCopied(store.visited, source[a], cloned)
        invariant error.Some? ==> Valid() && Grows(before, store) && Reports(source, Array(a), error.value)
        invariant Unvisited(source, store.visited.Keys) <= Unvisited(source, old(store).visited.Keys)
        decreases error.None?, |source[a].elements| - |cloned|
      {
        error, cloned := CloneElement(before, a, at, cloned);
      }
      if error.None? {
        AllElementsCopied(store.visited, source[a], cloned);
      }
    }

    /** Clones the next element of the array and adds it to the copies so far. */
    method CloneElement(ghost before: Store, a: nat, ghost at: nat, copies: seq<Value>)
      returns (error: Option<string>, cloned: seq<Value>)
      requires Visiting(source, base, before, store, a, at) && |copies| < |Stored(source[a])|
      requires ElementsCopied(store.visited, source[a], copies)
      modifies this
      ensures Unvisited(source, store.visited.Keys) <= Unvisited(source, old(store).visited.Keys)
      ensures error.Some? ==> Valid() && Grows(before, store) && Reports(source, Array(a), error.value)
      ensures error.None? ==> Visiting(source, base, before, store, a, at)
      ensures error.None? ==> |cloned| == |copies| + 1 && ElementsCopied(store.visited, source[a], cloned)
      decreases Unvisited(source, store.visited.Keys), 1, 5
    {
      ghost var previous := store;
      var r := CloneStored(before, a, at, |copies|);
      match r {
        case Ok(element) =>
          OneMoreElement(previous, store, source[a], copies, element);
          error, cloned := None, copies + [element];
        case Err(message) =>
          error, cloned := Some(message), copies;
      }
    }

    /** Clones the i-th value stored in the cell at `a`, which is being visited. */
    method CloneStored(ghost before: Store, a: nat, ghost at: nat, i: nat) returns (r: Result)
      requires Visiting(source, base, before, store, a, at) && i < |Stored(source[a])|
      modifies this
      ensures Valid() && Grows(old(store), store) && Grows(before, store)
      ensures Unvisited(source, store.visited.Keys) <= Unvisited(source, old(store).visited.Keys)
      ensures r.Ok? ==> ValueCopied(store.visited, Stored(source[a])[i], r.value)
      ensures r.Ok? ==> Visiting(source, base, before, store, a, at)
      ensures r.Ok? ==> at in old(store).heap && at in store.heap && store.heap[at] == old(store).heap[at]
      ensures r.Err? ==> Reports(source, Array(a), r.message) && Reports(source, Object(a), r.message)
      decreases Unvisited(source, store.visited.Keys), 1, 4
    {
      ghost var start := store;
      assert CellOk(source, source[a]);
      assert ValueOk(source, Stored(source[a])[i]);
      r := CloneValue(Stored(store.heap[a])[i]);
      GrowsTransitive(before, start, store);
      KeysShrink(source, start.visited.Keys, store.visited.Keys);
      if r.Ok? {
        ChildVisits(source, base, before, start, store, a, at, i);
      } else {
        ChildReports(source, a, i, Array(a), r.message);
        ChildReports(source, a, i, Object(a), r.message);
      }
    }

    /** Dates, regular expressions and array buffers are rebuilt from their payload. */
    method CloneSealed(a: nat) returns (r: Result)
      requires Valid() && a in source && a !in store.visited && source[a].Sealed?
      modifies this
      ensures Cloned(source, base, old(store), store, Object(a), r) && r.Ok?
      decreases Unvisited(source, store.visited.Keys), 0, 2
    {
      ghost var before := store;
      var copy, at := store.heap[a], store.next;
      EnterVisits(source, base, before, a, false, copy);
      store := Enter(store, a, false, copy);
      SealedIsCopied(store.visited, copy);
      ObjectVisitEnds(source, base, before, store, a, at);
      r := Ok(Object(at));
    }

    /** A typed array: its buffer first, then a new view of the copied buffer. */
    method CloneView(a: nat) returns (r: Result)
      requires Valid() && a in source && a !in store.visited && source[a].View?
      modifies this
      ensures Cloned(source, base, old(store), store, Object(a), r)
      decreases Unvisited(source, store.visited.Keys), 1, 2
    {
      ghost var before := store;
      var layout, buffer := store.heap[a].layout, store.heap[a].buffer;
      BufferIsSealed(source, a);
      var copy := CloneValue(Object(buffer));
      if copy.Err? {
        ChildReports(source, a, 0, Object(a), copy.message);
        return copy;
      }
      ghost var middle := store;
      ViewNotVisited(source, before, middle, a, buffer);
      r := MakeView(a, layout, copy.value.address);
      BufferThenView(source, before, middle, store, a, buffer);
    }

    /** A new view of a copied buffer, entered in the table after it was made. */
    method MakeView(a: nat, layout: nat, buffer: nat) returns (r: Result)
      requires Valid() && a in source && a !in store.visited && source[a].View? && source[a].layout == layout
      requires source[a].buffer in store.visited && store.visited[source[a].buffer] == Object(buffer)
      modifies this
      ensures Valid() && Grows(old(store), store) && CopiedSince(source, old(store), store, a, {})
      ensures r.Ok? && ValueCopied(store.visited, Object(a), r.value)
    {
      ghost var before := store;
      EnterVisits(source, base, before, a, false, View(layout, buffer));
      store := Enter(store, a, false, View(layout, buffer));
      FinishVisit(source, base, before, store, a, before.next);
      VisitedIsCopied(source, base, before, store, a, before.next);
      r := Ok(store.visited[a]);
    }

    /** A plain object: entered in the table first, then filled property by property. */
    method ClonePlain(a: nat) returns (r: Result)
      requires Valid() && a in source && a !in store.visited && source[a].Plain?
      modifies this
      ensures Cloned(source, base, old(store), store, Object(a), r)
      decreases Unvisited(source, store.visited.Keys), 0, 2
    {
      ghost var before := store;
      var properties, at := store.heap[a].properties, store.next;
      EnterVisits(source, base, before, a, false, Plain([]));
      store := Enter(store, a, false, Plain([]));
      var error := CloneProperties(before, a, at, properties);
      if error.Some? {
        return Err(error.value);
      }
      ObjectVisitEnds(source, base, before, store, a, at);
      r := Ok(Object(at));
    }

    method CloneProperties(ghost before: Store, a: nat, at: nat, properties: seq<Property<Value>>)
      returns (error: Option<string>)
      requires Visiting(source, base, before, store, a, at)
      requires source[a] == Plain(properties) && store.heap[at] == Plain([])
      modifies this
      ensures error.Some? ==> Valid() && Grows(before, store) && Reports(source, Object(a), error.value)
      ensures error.None? ==> Visiting(source, base, before, store, a, at)
      ensures error.None? ==> CellCopied(store.visited, source[a], store.heap[at])
      decreases Unvisited(source, store.visited.Keys), 1, 6
    {
      assert CellOk(source, source[a]);
      for i := 0 to |properties|
        invariant Visiting(source, base, before, store, a, at)
        invariant Unvisited(source, store.visited.Keys) <= Unvisited(source, old(store).visited.Keys)
        invariant store.heap[at].Plain? && PropertiesCopied(store.visited, properties[..i], store.heap[at].properties)
      {
        var value := CloneProperty(before, a, at, i, properties);
        if value.Err? {
          return Some(value.message);
        }
      }
      AllPropertiesCopied(store.visited, properties, store.heap[at]);
      error := None;
    }

    /** Clones one property and sets it on the new object. */
    method CloneProperty(ghost before: Store, a: nat, at: nat, i: nat, properties: seq<Property<Value>>)
      returns (r: Result)
      requires Visiting(source, base, before, store, a, at)
      requires source[a] == Plain(properties) && i < |properties| && DistinctNames(properties)
      requires store.heap[at].Plain? && PropertiesCopied(store.visited, properties[..i], store.heap[at].properties)
      modifies this
      ensures Valid() && Grows(before, store)
      ensures Unvisited(source, store.visited.Keys) <= Unvisited(source, old(store).visited.Keys)
      ensures r.Ok? ==> Visiting(source, base, before, store, a, at)
      ensures r.Ok? ==>
        store.heap[at].Plain? && PropertiesCopied(store.visited, properties[..i + 1], store.heap[at].properties)
      ensures r.Err? ==> Reports(source, Object(a), r.message)
      decreases Unvisited(source, store.visited.Keys), 1, 5
    {
      ghost var start := store;
      r := CloneStored(before, a, at, i);
      if r.Err? {
        return;
      }
      PropertiesStayCopied(start, store, properties[..i], store.heap[at].properties);
      NameIsNew(store.visited, properties, i, store.heap[at].properties, r.value);
      var updated := SetProperty(store.heap[at].properties, properties[i].name, r.value);
      PropertyAppended(store.visited, properties, i, store.heap[at].properties, r.value);
      FillVisits(source, base, before, store, a, at, Plain(updated));
      store := Fill(store, at, Plain(updated));
    }
  }

  /** `structuredClone(v)`: the table starts empty. New cells are allocated from `free` on. A result
      is a faithful clone, `heap` the heap it lives in and `table` the table that relates the two;
      an error means that a function or symbol is reachable, and nothing else causes one. The message
      names the kind of one that is. */
  method Clone(h: Heap, free: nat, v: Value) returns (r: Result, heap: Heap, table: map<nat, Value>)
    requires HeapOk(h) && (forall a :: a in h ==> a < free) && ValueOk(h, v)
    ensures r.Ok? ==> IsClone(h, heap, table, v, r.value)
    ensures r.Err? <==> ReachesUncloneable(h, v)
    ensures r.Err? ==> Reports(h, v, r.message)
    ensures forall a :: a in h ==> a in heap && heap[a] == h[a]
  {
    var cloner := new Cloner(h, free);
    r := cloner.CloneValue(v);
    heap, table := cloner.store.heap, cloner.store.visited;
    if r.Ok? {
      CloneIsFaithful(h, free, cloner.store, v, r.value);
      ClonesAreCloneable(h, heap, table, v, r.value);
    } else {
      ReportedIsUncloneable(h, v, r.message);
    }
  }

  /** What a finished clone holds is a faithful clone: the table covers what is reachable because
      its domain is closed under edges. */
  lemma CloneIsFaithful(h: Heap, free: nat, s: Store, v: Value, w: Value)
    requires StoreOk(h, free, s) && ValueCopied(s.visited, v, w)
    requires
      if v.IsReference() then CopiedSince(h, Store(h, free, map[]), s, v.address, {}) else s.visited == map[]
    ensures IsClone(h, s.heap, s.visited, v, w)
  {
    forall a | a in s.visited ensures Copied(h, s.heap, s.visited, a) && s.visited[a].address !in h {
      assert EntryOk(h, free, s, a);
    }
    forall a | v.IsReference() && Reaches(h, v.address, a) ensures a in s.visited {
      forall x, y | x in s.visited.Keys && Edge(h, x, y) ensures y in s.visited.Keys {
        var i :| 0 <= i < |Stored(h[x])| && Stored(h[x])[i].IsReference() && Stored(h[x])[i].address == y;
        assert Copied(h, s.heap, s.visited, x);
        StoredIsCopied(s.visited, h[x], s.heap[s.visited[x].address], i);
      }
      ClosedUnderReaching(h, s.visited.Keys, v.address, a);
    }
  }

  /** `copies` are copies of the first elements of the array `c`. */
  ghost predicate ElementsCopied(visited: map<nat, Value>, c: Cell, copies: seq<Value>) {
    match c
    case ArrayCell(elements) =>
      |copies| <= |elements| && forall i :: 0 <= i < |copies| ==> ValueCopied(visited, elements[i], copies[i])
    case _ => false
  }

  lemma OneMoreElement(t: Store, u: Store, c: Cell, copies: seq<Value>, w: Value)
    requires Grows(t, u) && ElementsCopied(t.visited, c, copies)
    requires |copies| < |Stored(c)| && ValueCopied(u.visited, Stored(c)[|copies|], w)
    ensures ElementsCopied(u.visited, c, copies + [w])
  {
    forall i | 0 <= i < |copies| + 1 ensures ValueCopied(u.visited, c.elements[i], (copies + [w])[i]) {
      if i < |copies| { assert ValueCopied(t.visited, c.elements[i], copies[i]); }
    }
  }

  lemma AllElementsCopied(visited: map<nat, Value>, c: Cell, copies: seq<Value>)
    requires ElementsCopied(visited, c, copies) && |copies| == |c.elements|
    ensures CellCopied(visited, c, ArrayCell(copies))
  {
  }

  lemma AllPropertiesCopied(visited: map<nat, Value>, original: seq<Property<Value>>, copy: Cell)
    requires copy.Plain? && PropertiesCopied(visited, original[..|original|], copy.properties)
    ensures CellCopied(visited, Plain(original), copy)
  {
    assert original[..|original|] == original;
  }

  lemma PropertyAppended(visited: map<nat, Value>, original: seq<Property<Value>>, i: nat,
                         copy: seq<Property<Value>>, w: Value)
    requires i < |original| && PropertiesCopied(visited, original[..i], copy)
    requires ValueCopied(visited, original[i].value, w)
    ensures PropertiesCopied(visited, original[..i + 1], copy + [Property(original[i].name, w)])
  {
    assert original[..i + 1] == original[..i] + [original[i]];
  }

  lemma SealedIsCopied(visited: map<nat, Value>, c: Cell)
    requires c.Sealed?
    ensures CellCopied(visited, c, c)
  {
  }

  lemma BufferIsSealed(source: Heap, a: nat)
    requires HeapOk(source) && a in source && source[a].View?
    ensures ValueOk(source, Object(source[a].buffer)) && source[source[a].buffer].Sealed?
    ensures |Stored(source[a])| == 1 && Stored(source[a])[0] == Object(source[a].buffer)
  {
    assert CellOk(source, source[a]);
  }

  lemma BufferThenView(source: Heap, before: Store, middle: Store, after: Store, a: nat, buffer: nat)
    requires a in source && source[a].View? && source[a].buffer == buffer
    requires Grows(before, middle) && Grows(middle, after)
    requires CopiedSince(source, before, middle, buffer, {}) && CopiedSince(source, middle, after, a, {})
    ensures Grows(before, after) && CopiedSince(source, before, after, a, {})
  {
    StoredEdge(source, a, 0);
    assert CopiedSince(source, before, before, a, {});
    ChildCopiedSince(source, before, before, middle, a, {}, Object(buffer));
    GrowsTransitive(before, middle, after);
    forall x | x in after.visited && x !in before.visited
      ensures Copied(source, after.heap, after.visited, x) && Reaches(source, a, x)
    {
      if x in middle.visited { GrowingKeepsCopied(source, middle, after, x); }
    }
  }

  ghost predicate PropertiesCopied(visited: map<nat, Value>, original: seq<Property<Value>>,
                                   copy: seq<Property<Value>>) {
    && |copy| == |original|
    && (forall i :: 0 <= i < |original| ==>
          copy[i].name == original[i].name && ValueCopied(visited, original[i].value, copy[i].value))
  }

  lemma PropertiesStayCopied(t: Store, u: Store, original: seq<Property<Value>>, copy: seq<Property<Value>>)
    requires Grows(t, u) && PropertiesCopied(t.visited, original, copy)
    ensures PropertiesCopied(u.visited, original, copy)
  {
  }

  lemma NameIsNew(visited: map<nat, Value>, properties: seq<Property<Value>>, i: nat,
                  copy: seq<Property<Value>>, v: Value)
    requires i < |properties| && DistinctNames(properties) && PropertiesCopied(visited, properties[..i], copy)
    ensures SetProperty(copy, properties[i].name, v) == copy + [Property(properties[i].name, v)]
  {
    forall j | 0 <= j < |copy| ensures copy[j].name != properties[i].name {
      assert copy[j].name == properties[..i][j].name;
    }
    SetNewProperty(copy, properties[i].name, v);
  }

  lemma KeysShrink(source: Heap, before: set<nat>, after: set<nat>)
    requires before <= after
    ensures Unvisited(source, after) <= Unvisited(source, before)
  {
    SubsetSize(source.Keys - after, source.Keys - before);
  }

  /** The copy of a buffer does not visit the view: a buffer has no edges. */
  lemma ViewNotVisited(source: Heap, before: Store, after: Store, a: nat, buffer: nat)
    requires HeapOk(source) && a in source && source[a].View? && source[a].buffer == buffer && a !in before.visited
    requires CopiedSince(source, before, after, buffer, {})
    ensures a !in after.visited
  {
    if a in after.visited {
      assert CellOk(source, source[a]);
      assert forall x, y :: x in {buffer} && Edge(source, x, y) ==> y in {buffer};
      ClosedUnderReaching(source, {buffer}, buffer, a);
    }
  }
}
