/** Linear probing on a cyclic table (src/hashmap.rs), on sequences of slots. */
module HashTables {
  // Which tables are well laid out, what they contain, and why insertion and backward-shift deletion
  // keep that.

  const HASH_RANGE: nat := 0x8000_0000

  /** A slot; the stored 31-bit hash and the exists bit are separate fields here. */
  datatype Entry<K, V> = Entry(key: K, value: V, hash: nat, exists_: bool)

  /** Steps from slot `a` forward to slot `b` in a table of `n` slots. */
  function Dist(a: int, b: int, n: int): int {
    if b >= a then b - a else b - a + n
  }

  /** The home slot of a hash: its remainder by the table size. */
  function HomeSlot(hash: nat, n: nat): (r: nat)
    requires n > 0
    ensures r < n
  {
    if hash < n then hash else HomeSlot(hash - n, n)
  }

  function Home<K, V>(es: seq<Entry<K, V>>, i: int): int
    requires 0 <= i < |es|
  {
    HomeSlot(es[i].hash, |es|)
  }

  /** The slots from an entry's home up to the entry are all occupied: a probe finds it. */
  ghost predicate PathOccupied<K, V>(es: seq<Entry<K, V>>, i: int)
    requires 0 <= i < |es|
  {
    forall j :: 0 <= j < |es| && Dist(Home(es, i), j, |es|) < Dist(Home(es, i), i, |es|) ==> es[j].exists_
  }

  predicate SameKey<K(==), V>(a: Entry<K, V>, b: Entry<K, V>) {
    a.key == b.key && a.hash == b.hash
  }

  /** Every entry but the one at `hole` is found by its probe, and no two have the same key. */
  ghost predicate LaidOutBut<K, V>(es: seq<Entry<K, V>>, hole: int) {
    && (forall i :: 0 <= i < |es| && es[i].exists_ ==> es[i].hash < HASH_RANGE)
    && (forall i :: 0 <= i < |es| && i != hole && es[i].exists_ ==> PathOccupied(es, i))
    && (forall i, j :: 0 <= i < j < |es| && i != hole && j != hole && es[i].exists_ && es[j].exists_
          ==> !SameKey(es[i], es[j]))
  }

  ghost predicate LaidOut<K, V>(es: seq<Entry<K, V>>) {
    LaidOutBut(es, -1)
  }

  /** The slot `i`, other than `hole`, holds the key and the value. */
  ghost predicate Holds<K, V>(es: seq<Entry<K, V>>, hole: int, i: int, kh: (K, nat), v: V) {
    0 <= i < |es| && i != hole && es[i].exists_ && (es[i].key, es[i].hash) == kh && es[i].value == v
  }

  ghost function BindingsUpTo<K, V>(es: seq<Entry<K, V>>, hole: int, n: nat): map<(K, nat), V>
    requires n <= |es|
  {
    if n == 0 then map[]
    else
      var earlier := BindingsUpTo(es, hole, n - 1);
      if n - 1 != hole && es[n - 1].exists_ then earlier[(es[n - 1].key, es[n - 1].hash) := es[n - 1].value]
      else earlier
  }

  /** The bindings of all entries but the one at `hole`. */
  ghost function BindingsBut<K, V>(es: seq<Entry<K, V>>, hole: int): map<(K, nat), V> {
    BindingsUpTo(es, hole, |es|)
  }

  /** The finite map a table stands for: from key and 31-bit hash to value. */
  ghost function Bindings<K, V>(es: seq<Entry<K, V>>): map<(K, nat), V> {
    BindingsBut(es, -1)
  }

  lemma {:induction false} BoundUpTo<K, V>(es: seq<Entry<K, V>>, hole: int, n: nat, kh: (K, nat), v: V)
    requires n <= |es| && LaidOutBut(es, hole)
    ensures kh in BindingsUpTo(es, hole, n) && BindingsUpTo(es, hole, n)[kh] == v
      <==> exists i :: i < n && Holds(es, hole, i, kh, v)
  {
    if n > 0 {
      BoundUpTo(es, hole, n - 1, kh, v);
      var last := es[n - 1];
      if n - 1 != hole && last.exists_ && (last.key, last.hash) == kh {
        forall i | i < n && Holds(es, hole, i, kh, v) ensures i == n - 1 {
          assert SameKey(es[i], last);
        }
        if last.value == v { assert Holds(es, hole, n - 1, kh, v); }
      }
    }
  }

  /** A table binds a key to a value exactly when some slot holds them. */
  lemma BoundIff<K, V>(es: seq<Entry<K, V>>, hole: int, kh: (K, nat), v: V)
    requires LaidOutBut(es, hole)
    ensures kh in BindingsBut(es, hole) && BindingsBut(es, hole)[kh] == v
      <==> exists i :: Holds(es, hole, i, kh, v)
  {
    BoundUpTo(es, hole, |es|, kh, v);
  }

  lemma BoundHolder<K, V>(es: seq<Entry<K, V>>, hole: int, kh: (K, nat)) returns (i: int)
    requires LaidOutBut(es, hole) && kh in BindingsBut(es, hole)
    ensures Holds(es, hole, i, kh, BindingsBut(es, hole)[kh])
  {
    BoundIff(es, hole, kh, BindingsBut(es, hole)[kh]);
    i :| Holds(es, hole, i, kh, BindingsBut(es, hole)[kh]);
  }

  lemma HolderBound<K, V>(es: seq<Entry<K, V>>, hole: int, i: int)
    requires LaidOutBut(es, hole) && 0 <= i < |es| && i != hole && es[i].exists_
    ensures (es[i].key, es[i].hash) in BindingsBut(es, hole)
    ensures BindingsBut(es, hole)[(es[i].key, es[i].hash)] == es[i].value
  {
    assert Holds(es, hole, i, (es[i].key, es[i].hash), es[i].value);
    BoundIff(es, hole, (es[i].key, es[i].hash), es[i].value);
  }

  function Count<K, V>(es: seq<Entry<K, V>>): nat {
    if |es| == 0 then 0
    else Count(es[..|es| - 1]) + (if es[|es| - 1].exists_ then 1 else 0)
  }

  // ---- Distances ----------------------------------------------------------------------------

  /** The source's test for moving slot `q` back to `p`: the home of `q` is not in `(p, q]`. */
  lemma ShouldMoveMeans(r: int, p: int, q: int, n: int)
    requires 0 <= r < n && 0 <= p < n && 0 <= q < n && p != q
    ensures (if q > p then r <= p || r > q else r <= p && r > q) <==> Dist(r, p, n) < Dist(r, q, n)
  {
  }

  // ---- Counting -----------------------------------------------------------------------------

  lemma {:induction false} CountUpdate<K, V>(es: seq<Entry<K, V>>, i: nat, e: Entry<K, V>)
    requires i < |es|
    ensures Count(es[i := e]) == Count(es) - (if es[i].exists_ then 1 else 0) + (if e.exists_ then 1 else 0)
  {
    var last := |es| - 1;
    if i == last {
      assert es[i := e][..last] == es[..last];
    } else {
      CountUpdate(es[..last], i, e);
      assert es[i := e][..last] == es[..last][i := e];
    }
  }

  lemma {:induction false} CountAtMost<K, V>(es: seq<Entry<K, V>>)
    ensures Count(es) <= |es|
    ensures Count(es) == |es| <==> forall i :: 0 <= i < |es| ==> es[i].exists_
  {
    if |es| > 0 {
      CountAtMost(es[..|es| - 1]);
      assert forall i :: 0 <= i < |es| - 1 ==> es[..|es| - 1][i] == es[i];
    }
  }

  lemma CountStep<K, V>(es: seq<Entry<K, V>>, i: nat)
    requires i < |es|
    ensures Count(es[..i]) <= i
    ensures Count(es[..i + 1]) == Count(es[..i]) + if es[i].exists_ then 1 else 0
  {
    CountAtMost(es[..i]);
    assert es[..i + 1][..i] == es[..i];
  }

  lemma FreeSlot<K, V>(es: seq<Entry<K, V>>) returns (f: nat)
    requires Count(es) < |es|
    ensures f < |es| && !es[f].exists_
  {
    CountAtMost(es);
    f :| 0 <= f < |es| && !es[f].exists_;
  }

  lemma {:induction false} NoneCounted<K, V>(es: seq<Entry<K, V>>)
    requires forall i :: 0 <= i < |es| ==> !es[i].exists_
    ensures Count(es) == 0
  {
    if |es| > 0 { NoneCounted(es[..|es| - 1]); }
  }

  /** The number of occupied slots is the number of bindings. */
  lemma CountIsSize<K, V>(es: seq<Entry<K, V>>)
    requires LaidOut(es)
    ensures Count(es) == |Bindings(es)|
  {
    CountUpTo(es, |es|);
    assert es[..|es|] == es;
  }

  lemma {:induction false} CountUpTo<K, V>(es: seq<Entry<K, V>>, n: nat)
    requires LaidOut(es) && n <= |es|
    ensures Count(es[..n]) == |BindingsUpTo(es, -1, n)|
  {
    if n > 0 {
      CountUpTo(es, n - 1);
      assert es[..n][..n - 1] == es[..n - 1];
      var kh := (es[n - 1].key, es[n - 1].hash);
      if es[n - 1].exists_ && kh in BindingsUpTo(es, -1, n - 1) {
        BoundUpTo(es, -1, n - 1, kh, BindingsUpTo(es, -1, n - 1)[kh]);
        assert false;
      }
    }
  }

  // ---- Probing ------------------------------------------------------------------------------

  /** Where a probe for `(key, hash)` may stop: all slots before are occupied by other keys. */
  ghost predicate Probing<K, V>(es: seq<Entry<K, V>>, key: K, hash: nat, i: int)
    requires |es| > 0
  {
    && 0 <= i < |es|
    && (forall j :: 0 <= j < |es| && Dist(HomeSlot(hash, |es|), j, |es|) < Dist(HomeSlot(hash, |es|), i, |es|) ==>
          es[j].exists_ && !(es[j].hash == hash && es[j].key == key))
  }

  function Next(i: int, n: int): int {
    if i + 1 == n then 0 else i + 1
  }

  /** A probe that passes an occupied slot of another key comes closer to every free slot. */
  lemma ProbeStep<K, V>(es: seq<Entry<K, V>>, key: K, hash: nat, i: int, free: int)
    requires |es| > 0 && Probing(es, key, hash, i) && 0 <= free < |es| && !es[free].exists_
    requires es[i].exists_ && !(es[i].hash == hash && es[i].key == key)
    ensures Probing(es, key, hash, Next(i, |es|))
    ensures 0 <= Dist(Next(i, |es|), free, |es|) < Dist(i, free, |es|)
  {
    var home := HomeSlot(hash, |es|);
    assert Dist(home, i, |es|) < Dist(home, free, |es|);
    forall j | 0 <= j < |es| && Dist(home, j, |es|) < Dist(home, Next(i, |es|), |es|)
      ensures es[j].exists_ && !(es[j].hash == hash && es[j].key == key)
    {
      assert j == i || Dist(home, j, |es|) < Dist(home, i, |es|);
    }
  }

  /** A probe that stops at a free slot has ruled the key out. */
  lemma StoppedAtFree<K, V>(es: seq<Entry<K, V>>, key: K, hash: nat, i: int)
    requires |es| > 0 && LaidOut(es) && Probing(es, key, hash, i) && !es[i].exists_
    ensures (key, hash) !in Bindings(es)
    ensures forall j :: 0 <= j < |es| && es[j].exists_ ==> !(es[j].hash == hash && es[j].key == key)
  {
    forall j | 0 <= j < |es| && es[j].exists_ ensures !(es[j].hash == hash && es[j].key == key) {
      assert PathOccupied(es, j);
    }
    if (key, hash) in Bindings(es) {
      var j := BoundHolder(es, -1, (key, hash));
    }
  }

  lemma StoppedAtMatch<K, V>(es: seq<Entry<K, V>>, key: K, hash: nat, i: int)
    requires LaidOut(es) && 0 <= i < |es| && es[i].exists_ && es[i].hash == hash && es[i].key == key
    ensures (key, hash) in Bindings(es) && Bindings(es)[(key, hash)] == es[i].value
  {
    HolderBound(es, -1, i);
  }

  // ---- Insertion ----------------------------------------------------------------------------

  lemma InsertKeepsLayout<K, V>(es: seq<Entry<K, V>>, key: K, hash: nat, value: V, i: int)
    requires |es| > 0 && LaidOut(es) && Probing(es, key, hash, i) && !es[i].exists_ && hash < HASH_RANGE
    ensures LaidOut(es[i := Entry(key, value, hash, true)])
  {
    var after := es[i := Entry(key, value, hash, true)];
    StoppedAtFree(es, key, hash, i);
    forall j | 0 <= j < |after| && after[j].exists_ ensures PathOccupied(after, j) {
      if j != i { assert PathOccupied(es, j); }
    }
  }

  lemma InsertBinds<K, V>(es: seq<Entry<K, V>>, key: K, hash: nat, value: V, i: int)
    requires |es| > 0 && LaidOut(es) && Probing(es, key, hash, i) && !es[i].exists_ && hash < HASH_RANGE
    ensures Bindings(es[i := Entry(key, value, hash, true)]) == Bindings(es)[(key, hash) := value]
  {
    var after := es[i := Entry(key, value, hash, true)];
    InsertKeepsLayout(es, key, hash, value, i);
    StoppedAtFree(es, key, hash, i);
    HolderBound(after, -1, i);
    forall kh | kh in Bindings(es) ensures kh in Bindings(after) && Bindings(after)[kh] == Bindings(es)[kh] {
      var j := BoundHolder(es, -1, kh);
      assert after[j] == es[j];
      HolderBound(after, -1, j);
    }
    forall kh | kh in Bindings(after) && kh != (key, hash) ensures kh in Bindings(es) {
      var j := BoundHolder(after, -1, kh);
      HolderBound(es, -1, j);
    }
  }

  // ---- Backward-shift deletion --------------------------------------------------------------

  /** No entry whose path passes the hole `p` lies in `(p, q]`. */
  ghost predicate Passed<K, V>(es: seq<Entry<K, V>>, p: int, q: int) {
    forall i :: 0 <= i < |es| && i != p && es[i].exists_
                && Dist(Home(es, i), p, |es|) < Dist(Home(es, i), i, |es|)
      ==> Dist(p, i, |es|) > Dist(p, q, |es|)
  }

  /** Taking one entry out of the table leaves a hole at its slot. */
  lemma OpenHole<K, V>(es: seq<Entry<K, V>>, p: int)
    requires LaidOut(es) && 0 <= p < |es| && es[p].exists_
    ensures LaidOutBut(es, p) && Passed(es, p, p)
    ensures BindingsBut(es, p) == Bindings(es) - {(es[p].key, es[p].hash)}
  {
    var kh := (es[p].key, es[p].hash);
    assert LaidOutBut(es, p);
    forall k | k in BindingsBut(es, p)
      ensures k in Bindings(es) && k != kh && BindingsBut(es, p)[k] == Bindings(es)[k] {
      var i := BoundHolder(es, p, k);
      HolderBound(es, -1, i);
      if i < p { assert !SameKey(es[i], es[p]); } else { assert !SameKey(es[p], es[i]); }
    }
    forall k | k in Bindings(es) && k != kh ensures k in BindingsBut(es, p) {
      var i := BoundHolder(es, -1, k);
      HolderBound(es, p, i);
    }
  }

  /** Moving the entry at `q` into the hole moves the hole to `q`. */
  lemma MoveBack<K, V>(es: seq<Entry<K, V>>, p: int, q: int)
    requires LaidOutBut(es, p) && 0 <= p < |es| && 0 <= q < |es| && p != q
    requires es[p].exists_ && es[q].exists_
    requires Dist(Home(es, q), p, |es|) < Dist(Home(es, q), q, |es|)
    ensures LaidOutBut(es[p := es[q]], q) && Passed(es[p := es[q]], q, q)
    ensures BindingsBut(es[p := es[q]], q) == BindingsBut(es, p)
  {
    var after := es[p := es[q]];
    MoveBackKeepsLayout(es, p, q);
    var before, moved := BindingsBut(es, p), BindingsBut(after, q);
    forall kh | kh in before ensures kh in moved && moved[kh] == before[kh] {
      var i := BoundHolder(es, p, kh);
      HolderBound(after, q, if i == q then p else i);
    }
    forall kh | kh in moved ensures kh in before {
      var i := BoundHolder(after, q, kh);
      HolderBound(es, p, if i == p then q else i);
    }
  }

  lemma MoveBackKeepsLayout<K, V>(es: seq<Entry<K, V>>, p: int, q: int)
    requires LaidOutBut(es, p) && 0 <= p < |es| && 0 <= q < |es| && p != q
    requires es[p].exists_ && es[q].exists_
    requires Dist(Home(es, q), p, |es|) < Dist(Home(es, q), q, |es|)
    ensures LaidOutBut(es[p := es[q]], q) && Passed(es[p := es[q]], q, q)
  {
    var after := es[p := es[q]];
    forall i | 0 <= i < |after| && i != q && after[i].exists_ ensures PathOccupied(after, i) {
      assert PathOccupied(es, if i == p then q else i);
    }
    forall i, j | 0 <= i < j < |after| && i != q && j != q && after[i].exists_ && after[j].exists_
      ensures !SameKey(after[i], after[j])
    {
      var i', j' := if i == p then q else i, if j == p then q else j;
      assert !SameKey(es[if i' < j' then i' else j'], es[if i' < j' then j' else i']);
    }
  }

  /** Once the scan meets a free slot, no path passes the hole: clearing it is safe. */
  lemma CloseHole<K, V>(es: seq<Entry<K, V>>, p: int, q: int, last: int)
    requires LaidOutBut(es, p) && 0 <= p < |es| && 0 <= q < |es| && 0 <= last < |es|
    requires es[p].exists_ && !es[q].exists_ && Passed(es, p, last)
    requires Dist(p, q, |es|) == Dist(p, last, |es|) + 1
    ensures LaidOut(es[p := es[p].(exists_ := false)])
    ensures Bindings(es[p := es[p].(exists_ := false)]) == BindingsBut(es, p)
  {
    var after := es[p := es[p].(exists_ := false)];
    forall i | 0 <= i < |es| && after[i].exists_ ensures PathOccupied(after, i) {
      PathAvoidsHole(es, p, q, last, i);
    }
    forall i, j | 0 <= i < j < |es| && after[i].exists_ && after[j].exists_ ensures !SameKey(after[i], after[j]) {
      assert !SameKey(es[i], es[j]);
    }
    forall kh | kh in BindingsBut(es, p)
      ensures kh in Bindings(after) && Bindings(after)[kh] == BindingsBut(es, p)[kh] {
      var i := BoundHolder(es, p, kh);
      HolderBound(after, -1, i);
    }
    forall kh | kh in Bindings(after) ensures kh in BindingsBut(es, p) {
      var i := BoundHolder(after, -1, kh);
      HolderBound(es, p, i);
    }
  }

  lemma PathAvoidsHole<K, V>(es: seq<Entry<K, V>>, p: int, q: int, last: int, i: int)
    requires LaidOutBut(es, p) && 0 <= p < |es| && 0 <= q < |es| && 0 <= last < |es|
    requires es[p].exists_ && !es[q].exists_ && Passed(es, p, last)
    requires Dist(p, q, |es|) == Dist(p, last, |es|) + 1
    requires 0 <= i < |es| && i != p && es[i].exists_
    ensures PathOccupied(es[p := es[p].(exists_ := false)], i)
  {
    assert PathOccupied(es, i);
    var n := |es|;
    if Dist(Home(es, i), p, n) < Dist(Home(es, i), i, n) {
      assert Dist(p, i, n) > Dist(p, last, n);
      PathPasses(Home(es, i), p, q, i, n);
    }
  }

  lemma PathPasses(h: int, p: int, q: int, i: int, n: int)
    requires 0 <= h < n && 0 <= p < n && 0 <= q < n && 0 <= i < n
    requires Dist(h, p, n) < Dist(h, i, n) && Dist(p, q, n) < Dist(p, i, n)
    ensures Dist(h, q, n) < Dist(h, i, n)
  {
  }

  /** The state of the shifting scan: the hole is at `p`, slots up to `q` have been examined, and a
      free slot lies further on. */
  ghost predicate Shifting<K, V>(es: seq<Entry<K, V>>, p: int, q: int, free: int) {
    && 0 <= p < |es| && 0 <= q < |es| && 0 <= free < |es|
    && es[p].exists_ && es[q].exists_ && !es[free].exists_
    && Dist(p, q, |es|) < Dist(p, free, |es|)
    && LaidOutBut(es, p) && Passed(es, p, q)
  }

  /** The scan advances by one slot. */
  lemma ShiftAdvance<K, V>(es: seq<Entry<K, V>>, p: int, last: int, free: int)
    requires Shifting(es, p, last, free)
    ensures
      var q := Next(last, |es|);
      && 0 <= q < |es| && q != p
      && Dist(p, q, |es|) == Dist(p, last, |es|) + 1
      && Dist(q, free, |es|) < Dist(last, free, |es|)
  {
  }

  lemma ShiftSkip<K, V>(es: seq<Entry<K, V>>, p: int, last: int, q: int, free: int)
    requires Shifting(es, p, last, free) && q == Next(last, |es|) && es[q].exists_
    requires !(Dist(Home(es, q), p, |es|) < Dist(Home(es, q), q, |es|))
    ensures Shifting(es, p, q, free)
  {
  }

  lemma ShiftMove<K, V>(es: seq<Entry<K, V>>, p: int, last: int, q: int, free: int)
    requires Shifting(es, p, last, free) && q == Next(last, |es|) && es[q].exists_
    requires Dist(Home(es, q), p, |es|) < Dist(Home(es, q), q, |es|)
    ensures Shifting(es[p := es[q]], q, q, free)
    ensures BindingsBut(es[p := es[q]], q) == BindingsBut(es, p)
    ensures Count(es[p := es[q]]) == Count(es)
  {
    MoveBack(es, p, q);
    CountUpdate(es, p, es[q]);
  }

  // ---- Enumeration --------------------------------------------------------------------------

  /** The first occupied slot at or after `from`, or the table size. */
  function NextOccupied<K, V>(es: seq<Entry<K, V>>, from: nat): (i: nat)
    requires from <= |es|
    ensures from <= i <= |es|
    ensures i < |es| ==> es[i].exists_
    ensures forall j :: from <= j < i ==> !es[j].exists_
    decreases |es| - from
  {
    if from == |es| || es[from].exists_ then from else NextOccupied(es, from + 1)
  }

  /** The slots visited by iterating from `from` until the end. */
  function Visited<K, V>(es: seq<Entry<K, V>>, from: nat): seq<nat>
    requires from <= |es|
    decreases |es| - from
  {
    var i := NextOccupied(es, from);
    if i == |es| then [] else [i] + Visited(es, i + 1)
  }

  lemma {:induction false} VisitsAllFrom<K, V>(es: seq<Entry<K, V>>, from: nat)
    requires from <= |es|
    ensures forall i: nat :: i in Visited(es, from) <==> from <= i < |es| && es[i].exists_
    ensures forall a, b :: 0 <= a < b < |Visited(es, from)| ==> Visited(es, from)[a] < Visited(es, from)[b]
    decreases |es| - from
  {
    var i := NextOccupied(es, from);
    if i < |es| {
      VisitsAllFrom(es, i + 1);
      var rest := Visited(es, i + 1);
      forall b | 0 <= b < |rest| ensures i < rest[b] { assert rest[b] in rest; }
    }
  }

  /** Iteration meets every binding exactly once. */
  lemma IterationMeetsEachBindingOnce<K, V>(es: seq<Entry<K, V>>)
    requires LaidOut(es)
    ensures forall i :: i in Visited(es, 0) ==> i < |es| && es[i].exists_
    ensures forall kh :: kh in Bindings(es) <==>
      exists a :: 0 <= a < |Visited(es, 0)| && Visited(es, 0)[a] < |es|
                  && (es[Visited(es, 0)[a]].key, es[Visited(es, 0)[a]].hash) == kh
    ensures forall a, b :: 0 <= a < b < |Visited(es, 0)| ==>
      Visited(es, 0)[a] < |es| && Visited(es, 0)[b] < |es| && !SameKey(es[Visited(es, 0)[a]], es[Visited(es, 0)[b]])
  {
    VisitsAllFrom(es, 0);
    var v := Visited(es, 0);
    forall a | 0 <= a < |v| ensures v[a] < |es| && es[v[a]].exists_ { assert v[a] in v; }
    forall kh | kh in Bindings(es)
      ensures exists a :: 0 <= a < |v| && v[a] < |es| && (es[v[a]].key, es[v[a]].hash) == kh {
      var i := BoundHolder(es, -1, kh);
      assert i in v;
    }
    forall a | 0 <= a < |v| ensures (es[v[a]].key, es[v[a]].hash) in Bindings(es) {
      HolderBound(es, -1, v[a]);
    }
  }
}
