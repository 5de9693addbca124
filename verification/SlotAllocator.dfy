/**
 Slots of live orders: `index_`, `free_list_` and the mirror array `active_orders2_` of JsonWriter,
 and the records each merge action appends to the log (json_writer.cpp:284-405).

 `base` is the number a `push_back` on an empty mirror array hands out. The comments and every use of a
 slot intend 0, the position just pushed; json_writer.cpp:290 and :368 return `size()` after the push, which is 1.
 The log is proved right for every `base`; what `base == 1` breaks is the mirror array.
 */
module SlotAllocator {
  import opened Wrappers
  import opened Orders
  import opened Codec
  import opened PageMerge

  type Index = map<Id, nat>

  /** `size` is the length of the mirror array; its contents decide nothing and are kept apart (`Mirror`). */
  datatype Slots = Slots(index: Index, free: seq<nat>, size: nat)

  const NO_SLOTS := Slots(map[], [], 0)

  /** The slot for a new order: the front of the free list, else one more. */
  function Acquired(base: nat, s: Slots): nat {
    if s.free == [] then base + s.size else s.free[0]
  }

  function Acquire(base: nat, s: Slots, x: Id): Slots {
    if s.free == [] then Slots(s.index[x := base + s.size], [], s.size + 1)
    else Slots(s.index[x := s.free[0]], s.free[1..], s.size)
  }

  function Release(s: Slots, x: Id): Slots
    requires x in s.index
  {
    Slots(s.index - {x}, s.free + [s.index[x]], s.size)
  }

  function Move(base: nat, s: Slots, a: Action): Slots
    requires Enabled(s.index.Keys, a)
  {
    match a
    case New(o) => Acquire(base, s, o.id)
    case Change(o) => s
    case Delete(o) => Release(s, o.id)
  }

  /** The slot an action writes to. */
  function Target(base: nat, s: Slots, a: Action): nat
    requires Enabled(s.index.Keys, a)
  {
    if a.New? then Acquired(base, s) else s.index[a.order.id]
  }

  function Record(k: nat, a: Action): Event {
    match a
    case New(o) => Put(I32Of(k), o)
    case Change(o) => Patch(I32Of(k), o.price, o.volume)
    case Delete(o) => Patch(I32Of(k), o.price, 0)
  }

  /** One action of the merge; `None` where the source throws "inconsistency". */
  function Perform(base: nat, s: Slots, a: Action): Option<(Slots, Event)> {
    if Enabled(s.index.Keys, a) then Some((Move(base, s, a), Record(Target(base, s, a), a))) else None
  }

  function PerformAll(base: nat, s: Slots, acts: seq<Action>): Option<(Slots, seq<Event>)>
    decreases |acts|
  {
    if acts == [] then Some((s, []))
    else
      var r := Perform(base, s, acts[0]);
      if r.None? then None
      else
        var t := PerformAll(base, r.value.0, acts[1..]);
        if t.None? then None else Some((t.value.0, [r.value.1] + t.value.1))
  }

  // ------------------------------------------------ the allocator's invariant

  ghost predicate Holds(index: Index, k: nat) {
    exists x :: x in index && index[x] == k
  }

  ghost function Occupied(index: Index, free: seq<nat>): (r: set<nat>)
    ensures forall k: nat :: k in r <==> Holds(index, k) || k in free
  {
    (set x | x in index :: index[x]) + (set k | k in free)
  }

  ghost predicate Injective(index: Index) {
    forall x, y :: x in index && y in index && x != y ==> index[x] != index[y]
  }

  ghost predicate Distinct(free: seq<nat>) {
    forall i, j :: 0 <= i < j < |free| ==> free[i] != free[j]
  }

  ghost predicate Apart(index: Index, free: seq<nat>) {
    forall x :: x in index ==> index[x] !in free
  }

  /**
   The slots of live ids are pairwise distinct and disjoint from the duplicate-free free list;
   together they are exactly the slots from `lo` to `hi`.
   */
  ghost predicate Partition(index: Index, free: seq<nat>, lo: nat, hi: nat) {
    && Injective(index)
    && Distinct(free)
    && Apart(index, free)
    && (forall k: nat :: k in Occupied(index, free) <==> lo <= k < hi)
  }

  /** Every slot handed out so far is either a live id's or free. */
  ghost predicate WellFormed(base: nat, s: Slots) {
    Partition(s.index, s.free, base, base + s.size) && |s.index| + |s.free| == s.size
  }

  lemma {:induction false} HoldsUpdate(index: Index, x: Id, k: nat)
    requires x !in index
    ensures forall m: nat :: Holds(index[x := k], m) <==> Holds(index, m) || m == k
  {
    forall m: nat ensures Holds(index[x := k], m) <==> Holds(index, m) || m == k {
      assert x in index[x := k] && index[x := k][x] == k;
      if Holds(index, m) {
        var y :| y in index && index[y] == m;
        assert y in index[x := k] && index[x := k][y] == m;
      }
    }
  }

  lemma {:induction false} HoldsRemove(index: Index, x: Id)
    requires x in index
    requires Injective(index)
    ensures forall m: nat :: Holds(index - {x}, m) <==> Holds(index, m) && m != index[x]
  {
    forall m: nat ensures Holds(index - {x}, m) <==> Holds(index, m) && m != index[x] {
      if Holds(index, m) && m != index[x] {
        var y :| y in index && index[y] == m;
        assert y in index - {x} && (index - {x})[y] == m;
      }
    }
  }

  lemma {:induction false} PushSlot(index: Index, lo: nat, hi: nat, x: Id)
    requires Partition(index, [], lo, hi) && x !in index && lo <= hi
    ensures Partition(index[x := hi], [], lo, hi + 1)
  {
    HoldsUpdate(index, x, hi);
    forall y | y in index ensures index[y] != hi {
      assert index[y] in Occupied(index, []);
    }
    assert Injective(index[x := hi]);
    assert Occupied(index[x := hi], []) == Occupied(index, []) + {hi};
  }

  lemma {:induction false} ReuseSlot(index: Index, free: seq<nat>, lo: nat, hi: nat, x: Id)
    requires Partition(index, free, lo, hi) && x !in index && free != []
    ensures lo <= free[0] < hi && !Holds(index, free[0])
    ensures Partition(index[x := free[0]], free[1..], lo, hi)
  {
    var k := free[0];
    HoldsUpdate(index, x, k);
    assert k in Occupied(index, free);
    assert free == [k] + free[1..];
    assert forall m :: m in free <==> m == k || m in free[1..];
    assert Distinct(free[1..]);
    assert Injective(index[x := k]);
    assert Apart(index[x := k], free[1..]);
    assert Occupied(index[x := k], free[1..]) == Occupied(index, free);
  }

  lemma {:induction false} ReleaseSlot(index: Index, free: seq<nat>, lo: nat, hi: nat, x: Id)
    requires Partition(index, free, lo, hi) && x in index
    ensures lo <= index[x] < hi
    ensures Partition(index - {x}, free + [index[x]], lo, hi)
  {
    HoldsRemove(index, x);
    assert index[x] in Occupied(index, free);
    assert Distinct(free + [index[x]]);
    assert Apart(index - {x}, free + [index[x]]);
    assert Occupied(index - {x}, free + [index[x]]) == Occupied(index, free);
  }

  lemma {:induction false} MovePartition(base: nat, s: Slots, a: Action)
    requires Partition(s.index, s.free, base, base + s.size) && Enabled(s.index.Keys, a)
    ensures var t := Move(base, s, a); Partition(t.index, t.free, base, base + t.size)
    ensures base <= Target(base, s, a) < base + Move(base, s, a).size
  {
    var x, hi := a.order.id, base + s.size;
    if a.New? {
      if s.free == [] {
        PushSlot(s.index, base, hi, x);
      } else {
        ReuseSlot(s.index, s.free, base, hi, x);
      }
    } else {
      ReleaseSlot(s.index, s.free, base, hi, x);
    }
  }

  lemma {:induction false} MoveCounts(base: nat, s: Slots, a: Action)
    requires |s.index| + |s.free| == s.size && Enabled(s.index.Keys, a)
    ensures var t := Move(base, s, a);
            && |t.index| == (if a.New? then |s.index| + 1 else if a.Delete? then |s.index| - 1 else |s.index|)
            && |t.index| + |t.free| == t.size
            && t.size == Max(s.size, |t.index|)
  {
    var x := a.order.id;
    if a.Delete? {
      assert (s.index - {x}).Keys == s.index.Keys - {x};
    }
  }

  function Max(a: nat, b: nat): nat {
    if a < b then b else a
  }

  lemma {:induction false} MoveKeeps(base: nat, s: Slots, a: Action)
    requires WellFormed(base, s) && Enabled(s.index.Keys, a)
    ensures WellFormed(base, Move(base, s, a))
    ensures base <= Target(base, s, a) < base + Move(base, s, a).size
  {
    MovePartition(base, s, a);
    MoveCounts(base, s, a);
  }

  lemma {:induction false} MoveIds(base: nat, s: Slots, a: Action)
    requires Enabled(s.index.Keys, a)
    ensures Move(base, s, a).index.Keys == IdsAfter(s.index.Keys, a)
    ensures s.size <= Move(base, s, a).size
  {
  }

  /** No lookup of the merge throws, every action keeps the invariant and accounts for the id it handles. */
  lemma {:induction false} PerformKeeps(base: nat, s: Slots, a: Action)
    requires WellFormed(base, s)
    ensures Perform(base, s, a).Some? <==> Enabled(s.index.Keys, a)
    ensures var r := Perform(base, s, a);
            r.Some? ==>
              && WellFormed(base, r.value.0)
              && r.value.0.index.Keys == IdsAfter(s.index.Keys, a)
              && s.size <= r.value.0.size
  {
    if Enabled(s.index.Keys, a) {
      MoveKeeps(base, s, a);
      MoveIds(base, s, a);
    }
  }

  lemma {:induction false} PerformAllKeeps(base: nat, s: Slots, acts: seq<Action>)
    requires WellFormed(base, s)
    ensures PerformAll(base, s, acts).Some? <==> AllEnabled(s.index.Keys, acts)
    ensures var r := PerformAll(base, s, acts);
            r.Some? ==> WellFormed(base, r.value.0) && s.size <= r.value.0.size
    decreases |acts|
  {
    if acts != [] {
      PerformKeeps(base, s, acts[0]);
      var r := Perform(base, s, acts[0]);
      if r.Some? {
        PerformAllKeeps(base, r.value.0, acts[1..]);
      }
    }
  }

  // ------------------------------------------------ how many slots are ever needed

  /** The largest number of live orders at any point of the merge, starting with `live` of them. */
  function Peak(live: nat, acts: seq<Action>): nat
    decreases |acts|
  {
    if acts == [] then live
    else
      var next := if acts[0].New? then live + 1 else if acts[0].Delete? && live > 0 then live - 1 else live;
      Max(live, Peak(next, acts[1..]))
  }

  /** Reusing freed slots first keeps the slot count at the peak number of live orders. */
  lemma {:induction false} SlotsArePeak(base: nat, s: Slots, acts: seq<Action>)
    requires WellFormed(base, s) && PerformAll(base, s, acts).Some?
    ensures PerformAll(base, s, acts).value.0.size == Max(s.size, Peak(|s.index|, acts))
    decreases |acts|
  {
    if acts != [] {
      var t := Perform(base, s, acts[0]).value.0;
      PerformKeeps(base, s, acts[0]);
      MoveCounts(base, s, acts[0]);
      SlotsArePeak(base, t, acts[1..]);
    }
  }
}
