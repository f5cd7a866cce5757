/** The open-addressing hash map (src/hashmap.rs): every operation is an operation on the finite
    map from key and 31-bit hash to value that the table stands for. */
module HashMap {
  import opened HashTables
  import opened Bits

  newtype uint32 = x: int | 0 <= x < 0x1_0000_0000

  /** `hash & HASH_MASK` */
  function Masked(hash: uint32): nat {
    hash as nat % HASH_RANGE
  }

  /** A stored hash is masked already. */
  lemma MaskedStays(hash: nat)
    requires hash < HASH_RANGE
    ensures Masked(hash as uint32) == hash
  {
  }

  /** The mask keeps the low 31 bits. */
  lemma MaskKeepsLowBits(hash: uint32)
    ensures Masked(hash) == And(hash as nat, 0x7FFF_FFFF)
    ensures Masked(hash) == if hash < 0x8000_0000 then hash as nat else hash as nat - 0x8000_0000
  {
    hide And, Pow2;
    TwoToThe31();
    MaskIsRemainder(hash as nat, 31);
  }

  /** Occupancy below 80 percent: the table is not due to grow. */
  predicate LoadOk(occupancy: nat, capacity: nat) {
    occupancy + occupancy / 4 < capacity
  }

  lemma LoadIsFourFifths(occupancy: nat, capacity: nat)
    ensures LoadOk(occupancy, capacity) <==> 5 * occupancy < 4 * capacity
  {
  }

  // ---- The first capacity -------------------------------------------------------------------

  /** `round_up_to_power_of_two_32` as a release build computes it: a shift by 32 is a shift by none. */
  function RoundedUp32(value: uint32): nat {
    var v := if value > 0 then value as nat - 1 else 0;
    if BitLength(v) == 32 then 1 else Pow2(BitLength(v))
  }

  /** `with_capacity`: the test and the rounding see the low 32 bits only, but a request that passes the
      test is taken as it is. */
  function FirstCapacity(cap: nat): nat {
    var low := (cap % 0x1_0000_0000) as uint32;
    var rounded := if IsPowerOfTwo32(low as nat) then cap else RoundedUp32(low);
    if rounded < 2 then 2 else rounded
  }

  lemma ShortBits(v: nat, k: nat)
    requires v < Pow2(k)
    ensures BitLength(v) <= k
    decreases v
  {
    if v > 0 && k > 0 { ShortBits(v / 2, k - 1); }
  }

  lemma TwoToThe31()
    ensures Pow2(31) == 0x8000_0000
  {
    assert Pow2(8) == 256 && Pow2(16) == 65536 && Pow2(24) == 0x100_0000;
  }

  lemma RoundedUpWithinRange(value: uint32)
    ensures IsPow2(RoundedUp32(value))
    ensures value <= 0x8000_0000 ==> RoundedUp32(value) >= value as nat
    ensures value <= 0x8000_0000 ==> RoundedUp32(value) == RoundUpToPowerOfTwo32(value as nat)
    ensures value > 0x8000_0000 ==> RoundedUp32(value) == 1
  {
    TwoToThe31();
    assert Pow2(0) == 1 && Pow2(32) == 0x1_0000_0000;
    var v := if value > 0 then value as nat - 1 else 0;
    RoundUpIsLeast(value as nat);
    ShortBits(v, 32);
    BitLengthBounds(v);
    if value <= 0x8000_0000 {
      ShortBits(v, 31);
    } else if BitLength(v) < 32 {
      Pow2Grows(BitLength(v), 31);
    }
  }

  /** A power of two from 2^32 on has no low bits. */
  lemma {:induction false} NoLowBits(k: nat)
    requires Pow2(k) >= 0x1_0000_0000
    ensures Pow2(k) % 0x1_0000_0000 == 0
  {
    TwoToThe31();
    if Pow2(k - 1) >= 0x1_0000_0000 {
      NoLowBits(k - 1);
    } else {
      assert Pow2(32) == 0x1_0000_0000;
      if k < 32 { Pow2Grows(k, 31); }
      if k > 32 { Pow2Grows(32, k - 1); }
    }
  }

  /** The capacity is a power of two unless a request from 2^32 on passes the test by its low bits ... */
  lemma FirstCapacityIsPow2Iff(cap: nat)
    ensures FirstCapacity(cap) >= 2
    ensures IsPow2(FirstCapacity(cap)) <==> cap < 0x1_0000_0000 || !IsPow2(cap % 0x1_0000_0000)
  {
    var low := (cap % 0x1_0000_0000) as uint32;
    PowerOfTwoTest(low as nat);
    RoundedUpWithinRange(low);
    assert Pow2(1) == 2;
    if cap >= 0x1_0000_0000 && IsPow2(low as nat) {
      if k: nat :| cap == Pow2(k) {
        NoLowBits(k);
      }
    }
  }

  lemma SmallRequest(cap: nat)
    requires cap <= 0x8000_0000
    ensures cap <= FirstCapacity(cap)
    ensures cap >= 2 && IsPow2(cap) ==> FirstCapacity(cap) == cap
  {
    var low := cap as uint32;
    assert cap % 0x1_0000_0000 == cap;
    PowerOfTwoTest(cap);
    RoundedUpWithinRange(low);
  }

  lemma LargeRequest(cap: nat)
    requires cap > 0x8000_0000 && (cap < 0x1_0000_0000 || !IsPow2(cap % 0x1_0000_0000))
    ensures FirstCapacity(cap) < cap
  {
    var low := (cap % 0x1_0000_0000) as uint32;
    PowerOfTwoTest(low as nat);
    if 0x8000_0000 < low {
      NotAPowerAboveHalf(low);
      RoundedUpWithinRange(low);
    } else {
      RoundedUpIsSmall(low);
    }
  }

  /** ... and it is a power of two that is not below the request exactly for requests up to 2^31. */
  lemma FirstCapacitySufficesIff(cap: nat)
    ensures IsPow2(FirstCapacity(cap)) && cap <= FirstCapacity(cap) <==> cap <= 0x8000_0000
    ensures cap <= 0x8000_0000 && cap >= 2 && IsPow2(cap) ==> FirstCapacity(cap) == cap
  {
    FirstCapacityIsPow2Iff(cap);
    if cap <= 0x8000_0000 {
      SmallRequest(cap);
    } else if cap < 0x1_0000_0000 || !IsPow2(cap % 0x1_0000_0000) {
      LargeRequest(cap);
    }
  }

  lemma FirstCapacityIsRounded(cap: nat)
    requires cap <= 0x8000_0000
    ensures FirstCapacity(cap) ==
            if RoundUpToPowerOfTwo32(cap) < 2 then 2 else RoundUpToPowerOfTwo32(cap)
  {
    hide And, Pow2, BitLength, RoundedUp32, RoundUpToPowerOfTwo32, IsPowerOfTwo32;
    assert cap % 0x1_0000_0000 == cap;
    RoundedUpWithinRange(cap as uint32);
    PowerOfTwoTest(cap);
    RoundUpIsLeast(cap);
  }

  /** Up to 2^31 it is the least power of two, from 2 on, that is not below the request. */
  lemma FirstCapacityIsLeast(cap: nat)
    requires cap <= 0x8000_0000
    ensures IsPow2(FirstCapacity(cap)) && FirstCapacity(cap) >= 2 && FirstCapacity(cap) >= cap
    ensures forall k: nat :: Pow2(k) >= 2 && Pow2(k) >= cap ==> Pow2(k) >= FirstCapacity(cap)
  {
    hide Pow2, RoundUpToPowerOfTwo32, FirstCapacity;
    FirstCapacityIsPow2Iff(cap);
    FirstCapacityIsRounded(cap);
    RoundUpIsLeast(cap);
  }

  lemma NotAPowerAboveHalf(low: uint32)
    requires 0x8000_0000 < low
    ensures !IsPow2(low as nat)
  {
    TwoToThe31();
    assert Pow2(32) == 0x1_0000_0000;
    if k: nat :| low as nat == Pow2(k) {
      if k <= 31 { Pow2Grows(k, 31); } else { Pow2Grows(32, k); }
    }
  }

  lemma RoundedUpIsSmall(low: uint32)
    requires low <= 0x8000_0000
    ensures RoundedUp32(low) <= 0x8000_0000
  {
    TwoToThe31();
    var v := if low > 0 then low as nat - 1 else 0;
    ShortBits(v, 31);
    Pow2Grows(BitLength(v), 31);
  }

  class V8HashMap<K(==), V> {
    var entries: array<Entry<K, V>>
    var capacity: nat
    var occupancy: nat
    const empty: Entry<K, V>

    /** The layout invariant, without the load bound that insertion restores by growing. */
    ghost predicate Loose()
      reads this, entries
    {
      && entries.Length == capacity
      && capacity >= 2 && IsPow2(capacity)
      && LaidOut(entries[..])
      && occupancy == Count(entries[..])
      && !empty.exists_
    }

    ghost predicate Valid()
      reads this, entries
    {
      Loose() && LoadOk(occupancy, capacity)
    }

    ghost function Contents(): map<(K, nat), V>
      reads this, entries
    {
      Bindings(entries[..])
    }

    /** An empty table of the first capacity. A request that would make it no power of two leaves a table
        whose slots cannot all be reached. */
    constructor (cap: nat, key: K, value: V)
      requires cap < 0x1_0000_0000 || !IsPow2(cap % 0x1_0000_0000)
      ensures Valid() && Contents() == map[] && occupancy == 0 && fresh(entries)
      ensures capacity == FirstCapacity(cap)
    {
      FirstCapacityIsPow2Iff(cap);
      var low := (cap % 0x1_0000_0000) as uint32;
      var n := cap;
      if !IsPowerOfTwo32(low as nat) {
        n := RoundedUp32(low);
      }
      if n < 2 {
        n := 2;
      }
      var none := Entry(key, value, 0, false);
      entries := new Entry<K, V>[n](_ => none);
      capacity := n;
      occupancy := 0;
      empty := none;
      new;
      EmptyTable(entries[..]);
    }

    method Clear()
      requires Valid()
      modifies this`occupancy, entries
      ensures Valid() && Contents() == map[] && capacity == old(capacity)
    {
      for i := 0 to entries.Length
        invariant forall j :: 0 <= j < i ==> entries[j] == empty
      {
        entries[i] := empty;
      }
      occupancy := 0;
      EmptyTable(entries[..]);
    }

    /** `hash & (capacity - 1)` */
    method SlotOf(hash: nat) returns (i: nat)
      requires IsPow2(capacity)
      ensures i == HomeSlot(hash, capacity)
    {
      MaskedIndex(hash, capacity);
      i := And(hash, capacity - 1);
    }

    /** `(i + 1) & (capacity - 1)` */
    method NextSlot(i: nat) returns (next: nat)
      requires IsPow2(capacity) && i < capacity
      ensures next == Next(i, capacity)
    {
      MaskedIndex(i + 1, capacity);
      next := And(i + 1, capacity - 1);
    }

    /** Probes from the home slot until the key or a free slot is met. */
    method ProbeIndex(key: K, hash: uint32) returns (i: nat)
      requires Loose() && occupancy < capacity
      ensures i < entries.Length && Probing(entries[..], key, Masked(hash), i)
      ensures entries[i].exists_ ==> entries[i].hash == Masked(hash) && entries[i].key == key
      ensures entries[i].exists_ <==> (key, Masked(hash)) in Contents()
      ensures entries[i].exists_ ==> Contents()[(key, Masked(hash))] == entries[i].value
    {
      ghost var es := entries[..];
      ghost var free := FreeSlot(es);
      i := SlotOf(Masked(hash));
      while entries[i].exists_ && !(entries[i].hash == Masked(hash) && entries[i].key == key)
        invariant 0 <= i < entries.Length
        invariant Probing(es, key, Masked(hash), i)
        decreases Dist(i, free, capacity)
      {
        ghost var next := Next(i, |es|);
        ProbeStep(es, key, Masked(hash), i, free);
        i := NextSlot(i);
        assert i == next;
      }
      if entries[i].exists_ {
        StoppedAtMatch(es, key, Masked(hash), i);
      } else {
        StoppedAtFree(es, key, Masked(hash), i);
      }
    }

    method Lookup(key: K, hash: uint32) returns (found: bool, index: nat)
      requires Valid()
      ensures found <==> (key, Masked(hash)) in Contents()
      ensures found ==> index < entries.Length && entries[index].exists_
      ensures found ==> entries[index].key == key && entries[index].hash == Masked(hash)
      ensures found ==> entries[index].value == Contents()[(key, Masked(hash))]
    {
      index := ProbeIndex(key, hash);
      found := entries[index].exists_;
    }

    /** Returns the slot of the key, which is bound to the default value only if it was absent. */
    method LookupOrInsert(key: K, hash: uint32, defaultValue: V) returns (index: nat)
      requires Valid()
      modifies this, entries
      ensures Valid() && (entries == old(entries) || fresh(entries))
      ensures Contents() == (if (key, Masked(hash)) in old(Contents()) then old(Contents())
                             else old(Contents())[(key, Masked(hash)) := defaultValue])
      ensures (key, Masked(hash)) in old(Contents()) ==>
        entries == old(entries) && entries[..] == old(entries[..]) && capacity == old(capacity)
      ensures (key, Masked(hash)) !in old(Contents()) ==>
        capacity == if 5 * (old(occupancy) + 1) < 4 * old(capacity) then old(capacity) else 2 * old(capacity)
      ensures index < entries.Length && entries[index].exists_
      ensures entries[index].key == key && entries[index].hash == Masked(hash)
      ensures entries[index].value == Contents()[(key, Masked(hash))]
    {
      index := ProbeIndex(key, hash);
      if entries[index].exists_ {
        return;
      }
      index := Fill(index, key, hash, defaultValue, true);
    }

    /** Binds a key that must be absent. */
    method InsertNew(key: K, hash: uint32, value: V) returns (index: nat)
      requires Valid() && (key, Masked(hash)) !in Contents()
      modifies this, entries
      ensures Valid() && (entries == old(entries) || fresh(entries))
      ensures Contents() == old(Contents())[(key, Masked(hash)) := value]
      ensures LoadOk(old(occupancy) + 1, old(capacity)) ==>
        entries == old(entries) && capacity == old(capacity) && occupancy == old(occupancy) + 1
      ensures occupancy == old(occupancy) + 1
      ensures capacity == if 5 * (old(occupancy) + 1) < 4 * old(capacity) then old(capacity) else 2 * old(capacity)
      ensures index < entries.Length && entries[index].exists_
      ensures entries[index].key == key && entries[index].hash == Masked(hash) && entries[index].value == value
      decreases if LoadOk(occupancy + 1, capacity) then 0 else 1, 2
    {
      index := ProbeIndex(key, hash);
      index := Fill(index, key, hash, value, !LoadOk(occupancy + 1, capacity));
    }

    /** Fills a free slot, and grows the table once it is four fifths full. `mayGrow` only bounds
        the recursion: filling a table that is being rebuilt never grows it again. */
    method Fill(at: nat, key: K, hash: uint32, value: V, ghost mayGrow: bool) returns (index: nat)
      requires Valid() && at < entries.Length && !entries[at].exists_
      requires Probing(entries[..], key, Masked(hash), at)
      requires !mayGrow ==> LoadOk(occupancy + 1, capacity)
      modifies this, entries
      ensures Valid() && (entries == old(entries) || fresh(entries))
      ensures Contents() == old(Contents())[(key, Masked(hash)) := value]
      ensures LoadOk(old(occupancy) + 1, old(capacity)) ==>
        entries == old(entries) && capacity == old(capacity) && occupancy == old(occupancy) + 1
      ensures occupancy == old(occupancy) + 1
      ensures capacity == if 5 * (old(occupancy) + 1) < 4 * old(capacity) then old(capacity) else 2 * old(capacity)
      ensures index < entries.Length && entries[index].exists_
      ensures entries[index].key == key && entries[index].hash == Masked(hash) && entries[index].value == value
      decreases if mayGrow then 1 else 0, 1
    {
      InsertKeepsLayout(entries[..], key, Masked(hash), value, at);
      InsertBinds(entries[..], key, Masked(hash), value, at);
      CountUpdate(entries[..], at, Entry(key, value, Masked(hash), true));
      ghost var filled := entries[..][at := Entry(key, value, Masked(hash), true)];
      entries[at] := Entry(key, value, Masked(hash), true);
      assert entries[..] == filled;
      occupancy := occupancy + 1;
      if occupancy + occupancy / 4 >= capacity {
        Resize(capacity * 2);
        index := ProbeIndex(key, hash);
      } else {
        index := at;
      }
    }

    /** Rebuilds the table at twice the capacity. */
    method Resize(newCapacity: nat)
      requires Loose() && newCapacity == 2 * capacity
      modifies this
      ensures Valid() && fresh(entries) && capacity == newCapacity
      ensures Contents() == old(Contents()) && occupancy == old(occupancy)
      decreases 1, 0
    {
      ghost var es := entries[..];
      var oldEntries := entries;
      entries := new Entry<K, V>[newCapacity](_ => empty);
      DoubledPowerOfTwo(capacity);
      capacity := newCapacity;
      occupancy := 0;
      EmptyTable(entries[..]);
      CountAtMost(es);
      assert es[..0] == [];
      for i := 0 to oldEntries.Length
        invariant Valid() && fresh(entries) && capacity == newCapacity
        invariant oldEntries[..] == es
        invariant Contents() == BindingsUpTo(es, -1, i)
        invariant occupancy == Count(es[..i])
      {
        Reinsert(es, i, oldEntries[i]);
      }
      assert es[..oldEntries.Length] == es;
    }

    /** The rebuilding loop's body: `insert_new` with the stored hash, if the slot was occupied. */
    method Reinsert(ghost es: seq<Entry<K, V>>, ghost i: nat, entry: Entry<K, V>)
      requires Valid() && LaidOut(es) && i < |es| && es[i] == entry
      requires 2 * |es| == capacity
      requires Contents() == BindingsUpTo(es, -1, i) && occupancy == Count(es[..i])
      modifies this, entries
      ensures Valid() && entries == old(entries) && capacity == old(capacity)
      ensures Contents() == BindingsUpTo(es, -1, i + 1) && occupancy == Count(es[..i + 1])
      decreases 0, 3
    {
      CountStep(es, i);
      if entry.exists_ {
        FreshKey(es, i);
        MaskedStays(entry.hash);
        assert LoadOk(occupancy + 1, capacity);
        var slot := InsertNew(entry.key, entry.hash as uint32, entry.value);
      }
    }

    /** Removes the binding, shifting later entries of the cluster back over the hole. */
    method Remove(key: K, hash: uint32) returns (removed: bool, value: V)
      requires Valid()
      modifies this`occupancy, entries
      ensures Valid() && capacity == old(capacity)
      ensures removed <==> (key, Masked(hash)) in old(Contents())
      ensures removed ==> value == old(Contents())[(key, Masked(hash))]
      ensures Contents() == old(Contents()) - {(key, Masked(hash))}
    {
      var idx := ProbeIndex(key, hash);
      if !entries[idx].exists_ {
        return false, empty.value;
      }
      value := entries[idx].value;
      ghost var es := entries[..];
      OpenHole(es, idx);
      var p := ShiftBack(idx);
      CountUpdate(entries[..], p, entries[p].(exists_ := false));
      ghost var cleared := entries[..][p := entries[p].(exists_ := false)];
      entries[p] := entries[p].(exists_ := false);
      assert entries[..] == cleared;
      occupancy := occupancy - 1;
      removed := true;
    }

    /** The shifting loop: from a hole at `idx` to a hole that can simply be cleared. */
    method ShiftBack(idx: nat) returns (p: nat)
      requires entries.Length == capacity && capacity >= 2 && IsPow2(capacity)
      requires Count(entries[..]) < capacity
      requires idx < entries.Length && entries[idx].exists_
      requires LaidOutBut(entries[..], idx) && Passed(entries[..], idx, idx)
      modifies entries
      ensures p < entries.Length && entries[p].exists_
      ensures Count(entries[..]) == old(Count(entries[..]))
      ensures LaidOut(entries[..][p := entries[p].(exists_ := false)])
      ensures Bindings(entries[..][p := entries[p].(exists_ := false)]) == old(BindingsBut(entries[..], idx))
    {
      p := idx;
      var q := p;
      ghost var free := FreeSlot(entries[..]);
      while true
        invariant entries.Length == capacity && Shifting(entries[..], p, q, free)
        invariant BindingsBut(entries[..], p) == old(BindingsBut(entries[..], idx))
        invariant Count(entries[..]) == old(Count(entries[..]))
        decreases Dist(q, free, capacity)
      {
        ghost var es, last := entries[..], q;
        ShiftAdvance(es, p, last, free);
        q := NextSlot(q);
        if !entries[q].exists_ {
          CloseHole(es, p, q, last);
          break;
        }
        p := ShiftSlot(p, q, last, free);
      }
    }

    /** Moves the entry at `q` into the hole if its home says so. */
    method ShiftSlot(at: nat, q: nat, ghost last: nat, ghost free: nat) returns (p: nat)
      requires entries.Length == capacity && IsPow2(capacity)
      requires Shifting(entries[..], at, last, free) && q == Next(last, capacity) && q != at && entries[q].exists_
      modifies entries
      ensures Shifting(entries[..], p, q, free)
      ensures BindingsBut(entries[..], p) == old(BindingsBut(entries[..], at))
      ensures Count(entries[..]) == old(Count(entries[..]))
    {
      p := at;
      ghost var es := entries[..];
      var r := SlotOf(entries[q].hash);
      var shouldMove := if q > p then r <= p || r > q else r <= p && r > q;
      ShouldMoveMeans(r, p, q, capacity);
      if shouldMove {
        ShiftMove(es, p, last, q, free);
        entries[p] := entries[q];
        assert entries[..] == es[p := es[q]];
        p := q;
      } else {
        ShiftSkip(es, p, last, q, free);
      }
    }

    // ---- Iteration --------------------------------------------------------------------------

    /** The next occupied slot after `current`, or the first one; there is none past the end. */
    method NextIndex(start: bool, current: nat) returns (found: bool, index: nat)
      requires Valid()
      ensures
        var from := if start then 0 else current + 1;
        if from >= capacity then !found
        else
          && (found <==> NextOccupied(entries[..], from) < capacity)
          && (found ==> index == NextOccupied(entries[..], from))
    {
      index := if start then 0 else current + 1;
      found := false;
      ghost var from := index;
      while index < capacity
        invariant from < capacity ==> index <= capacity
        invariant from < capacity ==> NextOccupied(entries[..], from) == NextOccupied(entries[..], index)
      {
        if entries[index].exists_ {
          return true, index;
        }
        index := index + 1;
      }
    }
  }

  // ---- Supporting facts ---------------------------------------------------------------------

  /** Masking with `capacity - 1` is what `HomeSlot` and `Next` say it is. */
  lemma MaskedIndex(a: nat, capacity: nat)
    requires IsPow2(capacity)
    ensures And(a, capacity - 1) == HomeSlot(a, capacity)
    ensures 0 < a <= capacity ==> And(a, capacity - 1) == Next(a - 1, capacity)
  {
    var k: nat :| capacity == Pow2(k);
    MaskIsRemainder(a, k);
    HomeSlotIsRemainder(a, capacity);
  }

  lemma {:induction false} HomeSlotIsRemainder(a: nat, n: nat)
    requires n > 0
    ensures HomeSlot(a, n) == a % n
  {
    if a < n {
      RemainderIsUnique(a, n, 0, a);
    } else {
      HomeSlotIsRemainder(a - n, n);
      assert a == n * ((a - n) / n + 1) + (a - n) % n;
      RemainderIsUnique(a, n, (a - n) / n + 1, (a - n) % n);
    }
  }

  lemma DoubledPowerOfTwo(n: nat)
    requires IsPow2(n)
    ensures IsPow2(2 * n)
  {
    var k: nat :| n == Pow2(k);
    assert 2 * n == Pow2(k + 1);
  }

  lemma EmptyTable<K, V>(es: seq<Entry<K, V>>)
    requires forall i :: 0 <= i < |es| ==> !es[i].exists_
    ensures LaidOut(es) && Bindings(es) == map[] && Count(es) == 0
  {
    NoneCounted(es);
    if kh :| kh in Bindings(es) {
      var i := BoundHolder(es, -1, kh);
    }
  }

  /** While rebuilding, the next entry's key has not been inserted yet. */
  lemma FreshKey<K, V>(es: seq<Entry<K, V>>, n: nat)
    requires LaidOut(es) && n < |es| && es[n].exists_
    ensures (es[n].key, es[n].hash) !in BindingsUpTo(es, -1, n)
  {
    var kh := (es[n].key, es[n].hash);
    if kh in BindingsUpTo(es, -1, n) {
      BoundUpTo(es, -1, n, kh, BindingsUpTo(es, -1, n)[kh]);
      assert false;
    }
  }
}
