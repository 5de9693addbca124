/**
 Replaying the log: what `OrderReader` makes of the writer's records, slot by slot,
 and why it always arrives at the writer's book.
 */
module Replay {
  import opened Wrappers
  import opened Orders
  import opened Codec
  import opened PageMerge
  import opened SlotAllocator

  /** `OrderReader::read_step` on a decoded record; `None` for a slot outside the array. */
  function Apply(slots: seq<Order>, e: Event): Option<seq<Order>> {
    if !(0 <= e.slot < |slots|) then None
    else
      match e
      case Put(k, o) => Some(slots[k := o])
      case Patch(k, p, v) => Some(slots[k := slots[k].(price := p, volume := v)])
  }

  function ApplyAll(slots: seq<Order>, es: seq<Event>): Option<seq<Order>>
    decreases |es|
  {
    if es == [] then Some(slots)
    else
      var r := Apply(slots, es[0]);
      if r.None? then None else ApplyAll(r.value, es[1..])
  }

  /**
   The slot array shows exactly the view: a live id's slot holds its order, every other slot,
   freed or never used, holds volume 0.
   */
  ghost predicate ShowsIndex(index: Index, view: View, slots: seq<Order>) {
    && index.Keys == view.Keys
    && (forall x :: x in view ==> view[x].id == x && view[x].volume > 0)
    && (forall x :: x in view ==> index[x] < |slots| && slots[index[x]] == view[x])
    && (forall k :: 0 <= k < |slots| && !Holds(index, k) ==> slots[k].volume == 0)
  }

  ghost predicate Shows(base: nat, s: Slots, view: View, slots: seq<Order>) {
    base + s.size <= |slots| && ShowsIndex(s.index, view, slots)
  }

  lemma {:induction false} ShowsNew(index: Index, view: View, slots: seq<Order>, k: nat, o: Order)
    requires ShowsIndex(index, view, slots) && o.id !in view && o.volume > 0
    requires k < |slots| && !Holds(index, k)
    ensures ShowsIndex(index[o.id := k], view[o.id := o], slots[k := o])
  {
    HoldsUpdate(index, o.id, k);
    forall y | y in index ensures index[y] != k {
      assert Holds(index, index[y]);
    }
  }

  lemma {:induction false} ShowsChange(index: Index, view: View, slots: seq<Order>, o: Order)
    requires ShowsIndex(index, view, slots) && o.id in view && o.volume > 0
    requires Injective(index)
    ensures var k := index[o.id];
            ShowsIndex(index, view[o.id := Updated(view, o)],
                       slots[k := slots[k].(price := o.price, volume := o.volume)])
  {
    assert Holds(index, index[o.id]);
  }

  lemma {:induction false} ShowsDelete(index: Index, view: View, slots: seq<Order>, o: Order, gone: Order)
    requires ShowsIndex(index, view, slots) && o.id in view && gone.volume == 0
    requires Injective(index)
    ensures ShowsIndex(index - {o.id}, view - {o.id}, slots[index[o.id] := gone])
  {
    HoldsRemove(index, o.id);
  }

  /** The record of one action, applied to the slot it names. */
  function Written(slots: seq<Order>, k: nat, a: Action): seq<Order>
    requires k < |slots|
  {
    match a
    case New(o) => slots[k := o]
    case Change(o) => slots[k := slots[k].(price := o.price, volume := o.volume)]
    case Delete(o) => slots[k := slots[k].(price := o.price, volume := 0)]
  }

  lemma {:induction false} ApplyRecord(slots: seq<Order>, k: nat, a: Action)
    requires |slots| < 0x8000_0000 && k <= |slots|
    ensures Apply(slots, Record(k, a)) == if k < |slots| then Some(Written(slots, k, a)) else None
  {
  }

  lemma {:induction false} WrittenShows(base: nat, s: Slots, a: Action, view: View, slots: seq<Order>)
    requires Partition(s.index, s.free, base, base + s.size) && ShowsIndex(s.index, view, slots)
    requires Enabled(view.Keys, a) && a.order.volume > 0
    requires base + Move(base, s, a).size <= |slots|
    ensures Target(base, s, a) < |slots|
    ensures ShowsIndex(Move(base, s, a).index, Act(view, a), Written(slots, Target(base, s, a), a))
  {
    var x, k := a.order.id, Target(base, s, a);
    MovePartition(base, s, a);
    match a
    case New(o) =>
      assert !Holds(s.index, k) by {
        if s.free == [] {
          assert k !in Occupied(s.index, s.free);
        } else {
          ReuseSlot(s.index, s.free, base, base + s.size, x);
        }
      }
      ShowsNew(s.index, view, slots, k, o);
    case Change(o) =>
      ShowsChange(s.index, view, slots, o);
    case Delete(o) =>
      ShowsDelete(s.index, view, slots, o, slots[k].(price := o.price, volume := 0));
  }

  lemma {:induction false} ApplyShows(base: nat, s: Slots, a: Action, view: View, slots: seq<Order>)
    requires WellFormed(base, s) && Shows(base, s, view, slots) && |slots| < 0x8000_0000
    requires Enabled(view.Keys, a) && a.order.volume > 0
    ensures var (t, e) := Perform(base, s, a).value;
            if base + t.size <= |slots| then
              Apply(slots, e).Some? && Shows(base, t, Act(view, a), Apply(slots, e).value)
            else
              Apply(slots, e).None?
  {
    var k := Target(base, s, a);
    if base + Move(base, s, a).size <= |slots| {
      WrittenShows(base, s, a, view, slots);
    } else {
      assert a.New? && s.free == [] && k == |slots|;
    }
    ApplyRecord(slots, k, a);
  }

  /** The first record that fails ends the replay; otherwise the head's effect comes first. */
  lemma {:induction false} ApplyAllCons(slots: seq<Order>, e: Event, es: seq<Event>)
    ensures ApplyAll(slots, [e] + es) ==
            if Apply(slots, e).None? then None else ApplyAll(Apply(slots, e).value, es)
  {
    assert ([e] + es)[1..] == es;
  }

  /**
   Replaying a merge's records leads from the old view to the new one; it fails, by naming a slot
   outside the array, exactly when the writer has handed out more slots than the array has.
   */
  lemma {:induction false} ApplyAllShows(base: nat, s: Slots, acts: seq<Action>, view: View, slots: seq<Order>)
    requires WellFormed(base, s) && Shows(base, s, view, slots) && |slots| < 0x8000_0000
    requires PerformAll(base, s, acts).Some?
    requires forall i :: 0 <= i < |acts| ==> acts[i].order.volume > 0
    ensures var (t, es) := PerformAll(base, s, acts).value;
            if base + t.size <= |slots| then
              ApplyAll(slots, es).Some? && Shows(base, t, ActAll(view, acts), ApplyAll(slots, es).value)
            else
              ApplyAll(slots, es).None?
    decreases |acts|
  {
    if acts != [] {
      var t1, slots1 := FirstShows(base, s, acts, view, slots);
      if slots1.Some? {
        ApplyAllShows(base, t1, acts[1..], Act(view, acts[0]), slots1.value);
      }
    }
  }

  /** The first action of a merge: what remains to be replayed, or why the replay fails for good. */
  lemma {:induction false} FirstShows(base: nat, s: Slots, acts: seq<Action>, view: View, slots: seq<Order>)
    returns (t1: Slots, slots1: Option<seq<Order>>)
    requires WellFormed(base, s) && Shows(base, s, view, slots) && |slots| < 0x8000_0000
    requires acts != [] && acts[0].order.volume > 0 && PerformAll(base, s, acts).Some?
    ensures WellFormed(base, t1) && Enabled(view.Keys, acts[0]) && PerformAll(base, t1, acts[1..]).Some?
    ensures var (t, es) := PerformAll(base, s, acts).value;
            && t == PerformAll(base, t1, acts[1..]).value.0
            && (slots1.None? ==> base + t.size > |slots| && ApplyAll(slots, es).None?)
            && (slots1.Some? ==>
                  && |slots1.value| == |slots| && Shows(base, t1, Act(view, acts[0]), slots1.value)
                  && ApplyAll(slots, es) == ApplyAll(slots1.value, PerformAll(base, t1, acts[1..]).value.1))
  {
    HeadFirst(base, s, acts, slots);
    OneShows(base, s, acts[0], view, slots);
    var (first, e) := Perform(base, s, acts[0]).value;
    t1, slots1 := first, Apply(slots, e);
    PerformAllKeeps(base, t1, acts[1..]);
  }

  lemma {:induction false} OneShows(base: nat, s: Slots, a: Action, view: View, slots: seq<Order>)
    requires WellFormed(base, s) && Shows(base, s, view, slots) && |slots| < 0x8000_0000
    requires a.order.volume > 0 && Perform(base, s, a).Some?
    ensures Enabled(view.Keys, a) && WellFormed(base, Perform(base, s, a).value.0)
    ensures var (t1, e) := Perform(base, s, a).value;
            var r := Apply(slots, e);
            if r.None? then base + t1.size > |slots|
            else |r.value| == |slots| && Shows(base, t1, Act(view, a), r.value)
  {
    MoveKeeps(base, s, a);
    ApplyShows(base, s, a, view, slots);
  }

  /** The first action and its record come first. */
  lemma {:induction false} HeadFirst(base: nat, s: Slots, acts: seq<Action>, slots: seq<Order>)
    requires acts != [] && PerformAll(base, s, acts).Some?
    ensures Perform(base, s, acts[0]).Some?
    ensures var (t1, e) := Perform(base, s, acts[0]).value;
            && PerformAll(base, t1, acts[1..]).Some?
            && PerformAll(base, s, acts).value.0 == PerformAll(base, t1, acts[1..]).value.0
            && ApplyAll(slots, PerformAll(base, s, acts).value.1) ==
               if Apply(slots, e).None? then None
               else ApplyAll(Apply(slots, e).value, PerformAll(base, t1, acts[1..]).value.1)
  {
    var (t1, e) := Perform(base, s, acts[0]).value;
    ApplyAllCons(slots, e, PerformAll(base, t1, acts[1..]).value.1);
  }
}
