/**
 The slot numbers json_writer.cpp:290 and :368 hand out, `size()` after the push, used as positions of the mirror
 array: which runs of snapshots stay inside it. The last slot handed out lies just behind its end, so it must not be
 written to again.
 */
module SlotNumbers {
  import opened Wrappers
  import opened Orders
  import opened PageMerge
  import opened SlotAllocator
  import opened OrderLog
  import opened Snapshots
  import opened Mirror

  // ------------------------------------------------ the actions of a run

  function PagesActions(book: seq<Order>, docs: seq<seq<Order>>): seq<Action>
    decreases |docs|
  {
    if docs == [] then []
    else if docs[0] == [] then PagesActions(book, docs[1..])
    else PageActions(book, docs[0]) + PagesActions(NewBook(book, docs[0]), docs[1..])
  }

  function RunActions(book: seq<Order>, run: seq<Snapshot>): seq<Action>
    decreases |run|
  {
    if run == [] then []
    else PagesActions(book, run[0].docs) + RunActions(FinalBook(book, run[0].docs), run[1..])
  }

  lemma {:induction false} PerformInTurn(base: nat, s: Slots, a: seq<Action>, b: seq<Action>)
    requires PerformAll(base, s, a).Some? && PerformAll(base, PerformAll(base, s, a).value.0, b).Some?
    ensures PerformAll(base, s, a + b).Some?
    ensures PerformAll(base, s, a + b).value.0 == PerformAll(base, PerformAll(base, s, a).value.0, b).value.0
    decreases |a|
  {
    if a == [] {
      assert a + b == b;
    } else {
      PerformInTurn(base, Perform(base, s, a[0]).value.0, a[1..], b);
      assert (a + b)[1..] == a[1..] + b;
    }
  }

  lemma {:induction false} PagesPerform(base: nat, w: Writer, docs: seq<seq<Order>>)
    requires WritePages(base, w, docs).Some?
    ensures PerformAll(base, w.slots, PagesActions(w.book, docs)).Some?
    ensures PerformAll(base, w.slots, PagesActions(w.book, docs)).value.0 == WritePages(base, w, docs).value.0.slots
    decreases |docs|
  {
    if docs != [] {
      if docs[0] == [] {
        PagesPerform(base, w, docs[1..]);
      } else {
        var w1 := WritePage(base, w, docs[0]).value.0;
        PagesPerform(base, w1, docs[1..]);
        PerformInTurn(base, w.slots, PageActions(w.book, docs[0]), PagesActions(w1.book, docs[1..]));
      }
    }
  }

  /** Writing a run performs exactly these actions. */
  lemma {:induction false} RunPerforms(base: nat, w: Writer, run: seq<Snapshot>)
    requires WriteRun(base, w, run).Some?
    ensures PerformAll(base, w.slots, RunActions(w.book, run)).Some?
    ensures PerformAll(base, w.slots, RunActions(w.book, run)).value.0 == WriteRun(base, w, run).value.0.slots
    decreases |run|
  {
    if run != [] {
      var w1 := WriteSnapshot(base, w, run[0]).value.0;
      PagesBook(base, w, run[0].docs);
      PagesPerform(base, w, run[0].docs);
      RunPerforms(base, w1, run[1..]);
      PerformInTurn(base, w.slots, PagesActions(w.book, run[0].docs), RunActions(w1.book, run[1..]));
    }
  }

  // ------------------------------------------------ the condition

  /**
   Walks the actions with the number of live orders and its maximum so far. `last` is the order whose arrival raised
   that maximum last; until the next time it is raised, this order is neither changed nor deleted.
   */
  predicate LastUntouched(live: nat, most: nat, last: Option<Id>, acts: seq<Action>)
    decreases |acts|
  {
    acts == [] ||
    var x, rest := acts[0].order.id, acts[1..];
    match acts[0]
    case New(_) =>
      if live >= most then LastUntouched(live + 1, live + 1, Some(x), rest)
      else LastUntouched(live + 1, most, last, rest)
    case Change(_) => last != Some(x) && LastUntouched(live, most, last, rest)
    case Delete(_) => last != Some(x) && LastUntouched(if live > 0 then live - 1 else 0, most, last, rest)
  }

  /** The live order in the slot handed out last. */
  ghost predicate InLastSlot(s: Slots, last: Option<Id>) {
    if s.size == 0 then last == None else last.Some? && last.value in s.index && s.index[last.value] == s.size
  }

  /** One action writes behind the mirror array exactly if it changes or deletes the order in the last slot. */
  lemma {:induction false} ActionInRange(mirror: seq<Order>, s: Slots, last: Option<Id>, a: Action)
    requires WellFormed(1, s) && |mirror| == s.size && Enabled(s.index.Keys, a) && InLastSlot(s, last)
    ensures InRange(mirror, 1, s, a) <==> a.New? || last != Some(a.order.id)
  {
    MoveKeeps(1, s, a);
    if a.New? && s.free != [] {
      assert s.free[0] in s.free;
    }
  }

  lemma {:induction false} StillInLastSlot(s: Slots, last: Option<Id>, a: Action)
    requires WellFormed(1, s) && Enabled(s.index.Keys, a) && InLastSlot(s, last)
    requires a.New? || last != Some(a.order.id)
    ensures InLastSlot(Move(1, s, a), if a.New? && |s.index| >= s.size then Some(a.order.id) else last)
  {
    if a.Delete? {
      assert a.order.id in s.index;
    }
  }

  lemma {:induction false} ActionsInRange(mirror: seq<Order>, s: Slots, last: Option<Id>, acts: seq<Action>)
    requires WellFormed(1, s) && |mirror| == s.size && AllEnabled(s.index.Keys, acts) && InLastSlot(s, last)
    ensures AllInRange(mirror, 1, s, acts) <==> LastUntouched(|s.index|, s.size, last, acts)
    decreases |acts|
  {
    if acts != [] {
      var a := acts[0];
      ActionInRange(mirror, s, last, a);
      if a.New? || last != Some(a.order.id) {
        MoveIds(1, s, a);
        MoveKeeps(1, s, a);
        MoveCounts(1, s, a);
        MirroredLength(mirror, 1, s, a);
        StillInLastSlot(s, last, a);
        ActionsInRange(Mirrored(mirror, 1, s, a), Move(1, s, a),
                       if a.New? && |s.index| >= s.size then Some(a.order.id) else last, acts[1..]);
      }
    }
  }

  /**
   For every run of snapshots: numbered from 0 the writer stays inside the mirror array; numbered as coded it does so
   exactly if the order whose arrival last raised the number of live orders to a new maximum is neither changed nor
   deleted before the maximum is raised again.
   */
  lemma {:induction false} RunInRangeExactly(run: seq<Snapshot>)
    requires RunOk([], run)
    ensures var acts := RunActions([], run);
            && AllEnabled(NO_SLOTS.index.Keys, acts)
            && AllInRange([], 0, NO_SLOTS, acts)
            && (AllInRange([], 1, NO_SLOTS, acts) <==> LastUntouched(0, 0, None, acts))
  {
    var acts := RunActions([], run);
    Performed(0, run);
    Performed(1, run);
    ZeroBasedInRange([], NO_SLOTS, acts);
    ActionsInRange([], NO_SLOTS, None, acts);
  }

  lemma {:induction false} Performed(base: nat, run: seq<Snapshot>)
    requires RunOk([], run)
    ensures WellFormed(base, NO_SLOTS)
    ensures PerformAll(base, NO_SLOTS, RunActions([], run)).Some?
    ensures AllEnabled(NO_SLOTS.index.Keys, RunActions([], run))
  {
    NothingWrittenYet(base);
    RunKeeps(base, NO_ORDERS, map[], run);
    RunPerforms(base, NO_ORDERS, run);
    PerformAllKeeps(base, NO_SLOTS, RunActions([], run));
  }

  lemma {:induction false} NothingWrittenYet(base: nat)
    ensures WellFormed(base, NO_SLOTS) && Linked(base, NO_ORDERS, map[])
  {
    assert Ids([]) == {};
    assert forall k: nat :: !Holds(map[], k);
  }
}
