/** Heaps of script objects as structured cloning sees them, and what it means for one part of a
    heap to be a copy of another. */
module ObjectGraphs {
  import opened Properties

  /** `Primitive` stands for every value that is copied as it is; functions and symbols cannot be
      cloned. */
  datatype Value =
    | Primitive(id: nat)
    | Function(id: nat)
    | Symbol(id: nat)
    | Array(address: nat)
    | Object(address: nat)
  {
    predicate IsReference() { Array? || Object? }

    predicate IsUncloneable() { Function? || Symbol? }
  }

  /** A plain object has its properties in insertion order. Dates, regular expressions and array
      buffers are copied by their payload; a typed array is a view of a buffer. */
  datatype Cell =
    | ArrayCell(elements: seq<Value>)
    | Plain(properties: seq<Property<Value>>)
    | Sealed(payload: nat)
    | View(layout: nat, buffer: nat)

  type Heap = map<nat, Cell>

  /** The values stored in a cell. */
  function Stored(c: Cell): seq<Value> {
    match c
    case ArrayCell(elements) => elements
    case Plain(properties) => Seconds(properties)
    case Sealed(_) => []
    case View(_, buffer) => [Object(buffer)]
  }

  function Seconds(properties: seq<Property<Value>>): (r: seq<Value>)
    ensures |r| == |properties|
    ensures forall i :: 0 <= i < |r| ==> r[i] == properties[i].value
  {
    seq(|properties|, i requires 0 <= i < |properties| => properties[i].value)
  }

  ghost predicate ValueOk(h: Heap, v: Value) {
    && (v.Array? ==> v.address in h && h[v.address].ArrayCell?)
    && (v.Object? ==> v.address in h && !h[v.address].ArrayCell?)
  }

  ghost predicate CellOk(h: Heap, c: Cell) {
    && (forall i :: 0 <= i < |Stored(c)| ==> ValueOk(h, Stored(c)[i]))
    && (c.Plain? ==> DistinctNames(c.properties))
    && (c.View? ==> c.buffer in h && h[c.buffer].Sealed?)
  }

  ghost predicate HeapOk(h: Heap) {
    forall a :: a in h ==> CellOk(h, h[a])
  }

  // ---- Reachability -------------------------------------------------------------------------

  ghost predicate Edge(h: Heap, a: nat, b: nat) {
    a in h && exists i :: 0 <= i < |Stored(h[a])| && Stored(h[a])[i].IsReference() && Stored(h[a])[i].address == b
  }

  ghost predicate IsPath(h: Heap, path: seq<nat>) {
    && |path| > 0
    && (forall i :: 0 <= i < |path| - 1 ==> Edge(h, path[i], path[i + 1]))
  }

  ghost predicate Reaches(h: Heap, a: nat, b: nat) {
    exists path :: IsPath(h, path) && path[0] == a && path[|path| - 1] == b
  }

  lemma ReachesItself(h: Heap, a: nat)
    ensures Reaches(h, a, a)
  {
    assert IsPath(h, [a]);
  }

  lemma EdgeReaches(h: Heap, a: nat, b: nat, c: nat)
    requires Edge(h, a, b) && Reaches(h, b, c)
    ensures Reaches(h, a, c)
  {
    var path :| IsPath(h, path) && path[0] == b && path[|path| - 1] == c;
    var longer := [a] + path;
    forall i | 0 <= i < |longer| - 1 ensures Edge(h, longer[i], longer[i + 1]) {
      if i > 0 { assert Edge(h, path[i - 1], path[i]); }
    }
    assert IsPath(h, longer);
  }

  /** A set of addresses closed under edges holds everything its members reach. */
  lemma ClosedUnderReaching(h: Heap, closed: set<nat>, a: nat, b: nat)
    requires forall x, y :: x in closed && Edge(h, x, y) ==> y in closed
    requires a in closed && Reaches(h, a, b)
    ensures b in closed
  {
    var path :| IsPath(h, path) && path[0] == a && path[|path| - 1] == b;
    PathStaysIn(h, closed, path, |path| - 1);
  }

  lemma {:induction false} PathStaysIn(h: Heap, closed: set<nat>, path: seq<nat>, i: nat)
    requires forall x, y :: x in closed && Edge(h, x, y) ==> y in closed
    requires IsPath(h, path) && path[0] in closed && i < |path|
    ensures path[i] in closed
  {
    if i > 0 {
      PathStaysIn(h, closed, path, i - 1);
      assert Edge(h, path[i - 1], path[i]);
    }
  }

  /** Some function or symbol can be reached from `v` through elements and properties. */
  ghost predicate ReachesUncloneable(h: Heap, v: Value) {
    match v
    case Primitive(_) => false
    case Function(_) => true
    case Symbol(_) => true
    case Array(a) => exists b :: Reaches(h, a, b) && HoldsUncloneable(h, b)
    case Object(a) => exists b :: Reaches(h, a, b) && HoldsUncloneable(h, b)
  }

  ghost predicate HoldsUncloneable(h: Heap, a: nat) {
    a in h && exists i :: 0 <= i < |Stored(h[a])| && Stored(h[a])[i].IsUncloneable()
  }

  /** The value `u` is `v` itself or is stored in a cell that `v` reaches. */
  ghost predicate Finds(h: Heap, v: Value, u: Value) {
    u == v || (v.IsReference() && exists b :: Reaches(h, v.address, b) && Holds(h, b, u))
  }

  ghost predicate Holds(h: Heap, a: nat, u: Value) {
    a in h && u in Stored(h[a])
  }

  // ---- Copies -------------------------------------------------------------------------------

  /** `visited` maps addresses to the references that replace them. */
  ghost predicate ValueCopied(visited: map<nat, Value>, v: Value, w: Value) {
    match v
    case Primitive(_) => w == v
    case Function(_) => false
    case Symbol(_) => false
    case Array(a) => a in visited && w == visited[a] && w.Array?
    case Object(a) => a in visited && w == visited[a] && w.Object?
  }

  /** A cell of the same kind, with the same names and payloads in the same order, whose values are
      the copies of the original's. */
  ghost predicate CellCopied(visited: map<nat, Value>, c: Cell, d: Cell) {
    match c
    case ArrayCell(elements) =>
      && d.ArrayCell? && |d.elements| == |elements|
      && (forall i :: 0 <= i < |elements| ==> ValueCopied(visited, elements[i], d.elements[i]))
    case Plain(properties) =>
      && d.Plain? && |d.properties| == |properties|
      && (forall i :: 0 <= i < |properties| ==>
            && d.properties[i].name == properties[i].name
            && ValueCopied(visited, properties[i].value, d.properties[i].value))
    case Sealed(payload) => d == c
    case View(layout, buffer) =>
      buffer in visited && visited[buffer].Object? && d == View(layout, visited[buffer].address)
  }

  /** The copy made at `visited[a]` of the cell at `a`. */
  ghost predicate Copied(h: Heap, h': Heap, visited: map<nat, Value>, a: nat) {
    && a in h && a in visited && visited[a].IsReference() && visited[a].address in h'
    && (visited[a].Array? <==> h[a].ArrayCell?)
    && CellCopied(visited, h[a], h'[visited[a].address])
  }

  lemma StoredIsCopied(visited: map<nat, Value>, c: Cell, d: Cell, i: nat)
    requires CellCopied(visited, c, d) && i < |Stored(c)|
    ensures |Stored(d)| == |Stored(c)| && ValueCopied(visited, Stored(c)[i], Stored(d)[i])
  {
  }

  lemma GrowingKeepsCopies(before: map<nat, Value>, after: map<nat, Value>, c: Cell, d: Cell)
    requires CellCopied(before, c, d)
    requires forall a :: a in before ==> a in after && after[a] == before[a]
    ensures CellCopied(after, c, d)
  {
  }

  /** A faithful clone of everything reachable from `v`: the domain of the table is exactly the
      reachable part, the table is one-to-one onto addresses that did not exist before, every cell
      is copied with its edges, and the original heap is as it was. Sharing and cycles carry over
      because each address has one copy. */
  ghost predicate IsClone(h: Heap, h': Heap, visited: map<nat, Value>, v: Value, w: Value) {
    && ValueCopied(visited, v, w)
    && (forall a :: a in visited <==> v.IsReference() && Reaches(h, v.address, a))
    && (forall a :: a in visited ==> Copied(h, h', visited, a) && visited[a].address !in h)
    && (forall a, b :: a in visited && b in visited && a != b ==> visited[a].address != visited[b].address)
    && (forall a :: a in h ==> a in h' && h'[a] == h[a])
  }

  /** Cells that are copied have their edges copied, so what a clone reaches is the copy of what
      the original reaches. */
  lemma EdgesAreCopied(h: Heap, h': Heap, visited: map<nat, Value>, v: Value, w: Value, a: nat, b: nat)
    requires IsClone(h, h', visited, v, w) && a in visited
    ensures Edge(h, a, b) ==> b in visited && Edge(h', visited[a].address, visited[b].address)
  {
    if Edge(h, a, b) {
      var i :| 0 <= i < |Stored(h[a])| && Stored(h[a])[i].IsReference() && Stored(h[a])[i].address == b;
      assert Copied(h, h', visited, a);
      StoredIsCopied(visited, h[a], h'[visited[a].address], i);
      var target := Stored(h'[visited[a].address])[i];
      assert target.IsReference() && target.address == visited[b].address;
    }
  }

  /** The converse: every edge of the clone comes from an edge of the original. */
  lemma EdgesComeFromOriginal(h: Heap, h': Heap, visited: map<nat, Value>, v: Value, w: Value, a: nat, y: nat)
    requires IsClone(h, h', visited, v, w) && a in visited && Edge(h', visited[a].address, y)
    ensures exists b :: b in visited && Edge(h, a, b) && visited[b].address == y
  {
    assert Copied(h, h', visited, a);
    var c, d := h[a], h'[visited[a].address];
    var i :| 0 <= i < |Stored(d)| && Stored(d)[i].IsReference() && Stored(d)[i].address == y;
    SameLength(visited, c, d);
    StoredIsCopied(visited, c, d, i);
    var b := Stored(c)[i].address;
    assert b in visited && Edge(h, a, b) && visited[b].address == y;
  }

  lemma SameLength(visited: map<nat, Value>, c: Cell, d: Cell)
    requires CellCopied(visited, c, d)
    ensures |Stored(c)| == |Stored(d)|
  {
  }

  /** A clone exists only where nothing uncloneable is reachable. */
  lemma ClonesAreCloneable(h: Heap, h': Heap, visited: map<nat, Value>, v: Value, w: Value)
    requires IsClone(h, h', visited, v, w)
    ensures !ReachesUncloneable(h, v)
  {
    if ReachesUncloneable(h, v) {
      var a :| Reaches(h, v.address, a) && HoldsUncloneable(h, a);
      var i :| 0 <= i < |Stored(h[a])| && Stored(h[a])[i].IsUncloneable();
      assert Copied(h, h', visited, a);
      StoredIsCopied(visited, h[a], h'[visited[a].address], i);
    }
  }
}
