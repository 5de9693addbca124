/**
 The mirror array `active_orders2_`: the writer's own copy of what a reader's slots hold
 (json_writer.cpp:287-296, 317-321, 339-343). Only its length decides anything.
 */
module Mirror {
  import opened Wrappers
  import opened Orders
  import opened Codec
  import opened PageMerge
  import opened SlotAllocator
  import opened Replay
  import opened OrderLog
  import opened Snapshots
  import opened BookCheck

  /** The positions a C++ vector may be written at. */
  predicate InRange(mirror: seq<Order>, base: nat, s: Slots, a: Action)
    requires Enabled(s.index.Keys, a)
  {
    (a.New? && s.free == []) || Target(base, s, a) < |mirror|
  }

  /** The mirror after one action; writes outside the array are undefined in the source and ignored here. */
  function Mirrored(mirror: seq<Order>, base: nat, s: Slots, a: Action): seq<Order>
    requires Enabled(s.index.Keys, a)
  {
    var k := Target(base, s, a);
    if a.New? && s.free == [] then mirror + [a.order]
    else if k >= |mirror| then mirror
    else if a.Delete? then mirror[k := mirror[k].(volume := 0)]
    else mirror[k := a.order]
  }

  function MirroredAll(mirror: seq<Order>, base: nat, s: Slots, acts: seq<Action>): seq<Order>
    requires AllEnabled(s.index.Keys, acts)
    decreases |acts|
  {
    if acts == [] then mirror
    else
      MoveIds(base, s, acts[0]);
      MirroredAll(Mirrored(mirror, base, s, acts[0]), base, Move(base, s, acts[0]), acts[1..])
  }

  ghost predicate AllInRange(mirror: seq<Order>, base: nat, s: Slots, acts: seq<Action>)
    requires AllEnabled(s.index.Keys, acts)
    decreases |acts|
  {
    acts == [] ||
    (MoveIds(base, s, acts[0]);
     InRange(mirror, base, s, acts[0])
     && AllInRange(Mirrored(mirror, base, s, acts[0]), base, Move(base, s, acts[0]), acts[1..]))
  }

  /** The mirror's length is the number of slots handed out. */
  lemma {:induction false} MirroredLength(mirror: seq<Order>, base: nat, s: Slots, a: Action)
    requires |mirror| == s.size && Enabled(s.index.Keys, a)
    ensures |Mirrored(mirror, base, s, a)| == Move(base, s, a).size
  {
  }

  /**
   One action: with slots numbered from 0 it stays in the array, with slots numbered from 1 unless it writes to
   the slot pushed last. What that means for a run of snapshots is said in `SlotNumbers`.
   */
  lemma {:induction false} InRangeExactly(mirror: seq<Order>, base: nat, s: Slots, a: Action)
    requires WellFormed(base, s) && |mirror| == s.size && Enabled(s.index.Keys, a)
    ensures base == 0 ==> InRange(mirror, base, s, a)
    ensures base == 1 ==>
      (InRange(mirror, base, s, a) <==> (a.New? && s.free == []) || Target(base, s, a) != s.size)
  {
    MoveKeeps(base, s, a);
  }

  lemma {:induction false} ZeroBasedInRange(mirror: seq<Order>, s: Slots, acts: seq<Action>)
    requires WellFormed(0, s) && |mirror| == s.size && AllEnabled(s.index.Keys, acts)
    requires PerformAll(0, s, acts).Some?
    ensures AllInRange(mirror, 0, s, acts)
    ensures |MirroredAll(mirror, 0, s, acts)| == PerformAll(0, s, acts).value.0.size
    decreases |acts|
  {
    if acts != [] {
      var a := acts[0];
      MoveIds(0, s, a);
      MoveKeeps(0, s, a);
      MirroredLength(mirror, 0, s, a);
      InRangeExactly(mirror, 0, s, a);
      ZeroBasedInRange(Mirrored(mirror, 0, s, a), Move(0, s, a), acts[1..]);
    }
  }

  // ------------------------------------------------ mirror and reader agree

  /** Slot by slot, live or freed, on everything but `issued`. */
  ghost predicate Agrees(mirror: seq<Order>, slots: seq<Order>) {
    |mirror| <= |slots| && forall k :: 0 <= k < |mirror| ==> EqualIgnoringIssued(mirror[k], slots[k])
  }

  /** What a record can express: a change keeps static fields, a delete repeats the price. */
  ghost predicate Faithful(view: View, a: Action) {
    && (a.Change? ==> a.order.id in view && SameStatics(view[a.order.id], a.order))
    && (a.Delete? ==> a.order.id in view && view[a.order.id].price == a.order.price)
  }

  lemma {:induction false} ActionAgrees(mirror: seq<Order>, s: Slots, a: Action, view: View, slots: seq<Order>)
    requires WellFormed(0, s) && Shows(0, s, view, slots) && |mirror| == s.size && Agrees(mirror, slots)
    requires Enabled(s.index.Keys, a) && Faithful(view, a) && Move(0, s, a).size <= |slots|
    ensures Target(0, s, a) < |slots|
    ensures Agrees(Mirrored(mirror, 0, s, a), Written(slots, Target(0, s, a), a))
  {
    MoveKeeps(0, s, a);
    var k := Target(0, s, a);
    if !a.New? {
      assert Holds(s.index, k);
      assert slots[k] == view[a.order.id];
    }
  }

  ghost predicate AllFaithful(view: View, acts: seq<Action>) {
    forall i :: 0 <= i < |acts| ==> Faithful(view, acts[i])
  }

  /** An action touches no other id, so what comes later stays faithful. */
  lemma {:induction false} StillFaithful(view: View, acts: seq<Action>)
    requires acts != [] && SortedActions(acts) && AllFaithful(view, acts)
    ensures SortedActions(acts[1..]) && AllFaithful(Act(view, acts[0]), acts[1..])
  {
    forall i | 0 <= i < |acts[1..]| ensures Faithful(Act(view, acts[0]), acts[1..][i]) {
      assert acts[1..][i] == acts[i + 1] && acts[0].order.id != acts[i + 1].order.id;
    }
  }

  /**
   After every page, as after every single record, the mirror array and the slots of a reader agree slot by
   slot, freed slots included.
   */
  lemma {:induction false} ActionsAgree(mirror: seq<Order>, s: Slots, acts: seq<Action>, view: View, slots: seq<Order>)
    requires WellFormed(0, s) && Shows(0, s, view, slots) && |slots| < 0x8000_0000
    requires |mirror| == s.size && Agrees(mirror, slots)
    requires AllEnabled(s.index.Keys, acts) && SortedActions(acts) && AllFaithful(view, acts)
    requires forall i :: 0 <= i < |acts| ==> acts[i].order.volume > 0
    requires PerformAll(0, s, acts).Some? && PerformAll(0, s, acts).value.0.size <= |slots|
    ensures var slots' := ApplyAll(slots, PerformAll(0, s, acts).value.1);
            slots'.Some? && Agrees(MirroredAll(mirror, 0, s, acts), slots'.value)
    decreases |acts|
  {
    if acts != [] {
      var a, rest := acts[0], acts[1..];
      var k := Target(0, s, a);
      var (t1, e) := Perform(0, s, a).value;
      MoveIds(0, s, a);
      MoveKeeps(0, s, a);
      PerformAllKeeps(0, t1, rest);
      ApplyAllCons(slots, e, PerformAll(0, t1, rest).value.1);
      ActionAgrees(mirror, s, a, view, slots);
      ApplyRecord(slots, k, a);
      ApplyShows(0, s, a, view, slots);
      MirroredLength(mirror, 0, s, a);
      StillFaithful(view, acts);
      ActionsAgree(Mirrored(mirror, 0, s, a), t1, rest, Act(view, a), Written(slots, k, a));
    }
  }

  lemma {:induction false} PageFaithful(view: View, book: seq<Order>, page: seq<Order>)
    requires SortedById(book) && page != [] && SortedById(page) && Tracks(book, view)
    requires StaticsHeld(book, view) && PageHolds(book, page)
    ensures SortedActions(PageActions(book, page)) && AllFaithful(view, PageActions(book, page))
  {
    var acts, covered := PageActions(book, page), OldOrders(book, page);
    ActionsExactlyOnce(page, covered);
    PageReplacesInterval(book, page);
    forall i | 0 <= i < |acts| ensures Faithful(view, acts[i]) {
      assert acts[i] in acts;
      ListedFaithful(view, book, page, covered, acts[i]);
    }
  }

  lemma {:induction false} ListedFaithful(view: View, book: seq<Order>, page: seq<Order>, covered: seq<Order>,
                                          a: Action)
    requires Tracks(book, view) && StaticsHeld(book, view) && PageHolds(book, page)
    requires Listed(a, page, covered) && forall o :: o in covered ==> o in book
    ensures Faithful(view, a)
  {
    match a
    case New(_) =>
    case Change(o) =>
      var l :| l in covered && l.id == o.id && !SameOffer(o, l);
      var i :| 0 <= i < |book| && book[i] == l;
      var j :| 0 <= j < |page| && page[j] == o;
      assert SameStatics(book[i], page[j]) && SameStatics(view[book[i].id], book[i]);
    case Delete(o) =>
      var i :| 0 <= i < |book| && book[i] == o;
      assert SameOffer(view[book[i].id], book[i]);
  }

  /** One page, while static fields are kept: mirror and reader agree before and after. */
  lemma {:induction false} PageAgrees(mirror: seq<Order>, w: Writer, view: View, page: seq<Order>, slots: seq<Order>)
    requires Linked(0, w, view) && PageOk(page) && StaticsHeld(w.book, view) && PageHolds(w.book, page)
    requires Shows(0, w.slots, view, slots) && |slots| < 0x8000_0000
    requires |mirror| == w.slots.size && Agrees(mirror, slots)
    requires WritePage(0, w, page).Some? && WritePage(0, w, page).value.0.slots.size <= |slots|
    ensures AllEnabled(w.slots.index.Keys, PageActions(w.book, page))
    ensures var after := ApplyAll(slots, WritePage(0, w, page).value.1.events);
            after.Some? && Agrees(MirroredAll(mirror, 0, w.slots, PageActions(w.book, page)), after.value)
  {
    var acts := PageActions(w.book, page);
    PageMeaning(view, w.book, page);
    ActionOrders(w.book, page);
    PageFaithful(view, w.book, page);
    ActionsAgree(mirror, w.slots, acts, view, slots);
  }

  // ------------------------------------------------ whole snapshots

  function MirrorPage(mirror: seq<Order>, w: Writer, page: seq<Order>): seq<Order>
    requires page != []
  {
    var acts := PageActions(w.book, page);
    if AllEnabled(w.slots.index.Keys, acts) then MirroredAll(mirror, 0, w.slots, acts) else mirror
  }

  function MirrorPages(mirror: seq<Order>, w: Writer, docs: seq<seq<Order>>): seq<Order>
    decreases |docs|
  {
    if docs == [] then mirror
    else if docs[0] == [] then MirrorPages(mirror, w, docs[1..])
    else
      var r := WritePage(0, w, docs[0]);
      if r.None? then mirror else MirrorPages(MirrorPage(mirror, w, docs[0]), r.value.0, docs[1..])
  }

  /** The state of writer, mirror and reader that the pages of a snapshot hand on. */
  ghost predicate InStep(mirror: seq<Order>, w: Writer, view: View, slots: seq<Order>) {
    && Linked(0, w, view) && StaticsHeld(w.book, view)
    && |slots| < 0x8000_0000 && Shows(0, w.slots, view, slots)
    && |mirror| == w.slots.size && Agrees(mirror, slots)
  }

  lemma {:induction false} PageInStep(mirror: seq<Order>, w: Writer, view: View, page: seq<Order>, slots: seq<Order>)
    requires InStep(mirror, w, view, slots) && PageOk(page) && PageHolds(w.book, page)
    requires WritePage(0, w, page).Some? && WritePage(0, w, page).value.0.slots.size <= |slots|
    ensures var (w1, p) := WritePage(0, w, page).value;
            var after := ApplyAll(slots, p.events);
            after.Some? && InStep(MirrorPage(mirror, w, page), w1, PageView(view, page), after.value)
  {
    var acts, p := PageActions(w.book, page), WritePage(0, w, page).value.1;
    PageKeeps(0, w, view, page);
    PageReplays(0, w, view, page, slots);
    PageAgrees(mirror, w, view, page, slots);
    PageHoldsExactly(w.book, view, page);
    ZeroBasedInRange(mirror, w.slots, acts);
    ApplyAllLength(slots, p.events);
  }

  type Stepping = (seq<Order>, Writer, View, seq<Order>) -> bool

  /** What `PageInStep` says, for any such state. */
  ghost predicate StepsOn(inStep: Stepping, size: nat) {
    forall mirror, w, view, page, slots {:trigger inStep(mirror, w, view, slots), PageOk(page)}
      | inStep(mirror, w, view, slots) && PageOk(page) && PageHolds(w.book, page)
        && WritePage(0, w, page).Some? && WritePage(0, w, page).value.0.slots.size <= size ::
      var (w1, p) := WritePage(0, w, page).value;
      var after := ApplyAll(slots, p.events);
      after.Some? && inStep(MirrorPage(mirror, w, page), w1, PageView(view, page), after.value)
  }

  lemma {:induction false} PagesStepOn(inv: Invariant, inStep: Stepping, size: nat, mirror: seq<Order>, w: Writer,
                                       view: View, docs: seq<seq<Order>>, slots: seq<Order>)
    requires Kept(0, inv) && Sized(0, inv) && StepsOn(inStep, size)
    requires inv(w, view) && inStep(mirror, w, view, slots)
    requires DocsOk(docs) && PagesHold(w.book, docs)
    requires WritePages(0, w, docs).Some? && WritePages(0, w, docs).value.0.slots.size <= size
    ensures var (w1, pages) := WritePages(0, w, docs).value;
            var after := ApplyPages(slots, pages);
            after.Some? && inStep(MirrorPages(mirror, w, docs), w1, PagesView(view, docs), after.value)
    decreases |docs|
  {
    if docs != [] {
      var (w1, p) := WritePage(0, w, docs[0]).value;
      var v1 := PageView(view, docs[0]);
      assert inv(w1, v1);
      SizeOfPages(0, inv, w1, v1, docs[1..]);
      ApplyPagesCons(slots, p, WritePages(0, w1, docs[1..]).value.1);
      PagesStepOn(inv, inStep, size, MirrorPage(mirror, w, docs[0]), w1, v1, docs[1..],
                  ApplyAll(slots, p.events).value);
    }
  }

  ghost function InStepOf(capacity: nat): Stepping {
    (mirror: seq<Order>, w: Writer, view: View, slots: seq<Order>) =>
      |slots| == capacity && InStep(mirror, w, view, slots)
  }

  /**
   After every snapshot that keeps static fields, the mirror array and the reader's slots agree slot by slot on
   everything but `issued`; with `Shows`, freed slots hold volume 0 in both.
   */
  lemma {:induction false} SnapshotAgrees(mirror: seq<Order>, w: Writer, view: View, docs: seq<seq<Order>>,
                                          slots: seq<Order>)
    requires InStep(mirror, w, view, slots) && DocsOk(docs) && PagesHold(w.book, docs)
    requires WritePages(0, w, docs).Some? && WritePages(0, w, docs).value.0.slots.size <= |slots|
    ensures var (w1, pages) := WritePages(0, w, docs).value;
            var after := ApplyPages(slots, pages);
            after.Some? && InStep(MirrorPages(mirror, w, docs), w1, PagesView(view, docs), after.value)
  {
    var capacity := |slots|;
    LinkedIsKept(0);
    LinkedIsSized(0);
    forall mirror, w, view, page, slots {:trigger InStepOf(capacity)(mirror, w, view, slots), PageOk(page)}
      | InStepOf(capacity)(mirror, w, view, slots) && PageOk(page) && PageHolds(w.book, page)
        && WritePage(0, w, page).Some? && WritePage(0, w, page).value.0.slots.size <= capacity
      ensures var (w1, p) := WritePage(0, w, page).value;
              var after := ApplyAll(slots, p.events);
              after.Some?
              && InStepOf(capacity)(MirrorPage(mirror, w, page), w1, PageView(view, page), after.value)
    {
      PageInStep(mirror, w, view, page, slots);
      ApplyAllLength(slots, WritePage(0, w, page).value.1.events);
    }
    assert LinkedAt(0)(w, view) && InStepOf(capacity)(mirror, w, view, slots);
    PagesStepOn(LinkedAt(0), InStepOf(capacity), capacity, mirror, w, view, docs, slots);
  }

  // ------------------------------------------------ runs

  function MirrorRun(mirror: seq<Order>, w: Writer, run: seq<Snapshot>): seq<Order>
    decreases |run|
  {
    if run == [] then mirror
    else
      var r := WriteSnapshot(0, w, run[0]);
      if r.None? then mirror else MirrorRun(MirrorPages(mirror, w, run[0].docs), r.value.0, run[1..])
  }

  /** Before the first snapshot: no mirror, no order, blank slots. */
  lemma {:induction false} StartInStep(slots: seq<Order>)
    requires Blank(slots) && |slots| < 0x8000_0000
    ensures InStep([], NO_ORDERS, map[], slots)
  {
    NothingYet(0, slots);
  }

  /** One snapshot, replayed from its bytes. */
  lemma {:induction false} BytesAgree(mirror: seq<Order>, w: Writer, view: View, s: Snapshot, slots: seq<Order>,
                                      rest: seq<Byte>)
    requires InStep(mirror, w, view, slots) && SnapshotOk(w.book, s) && PagesHold(w.book, s.docs)
    requires WriteSnapshot(0, w, s).Some? && WriteSnapshot(0, w, s).value.0.slots.size <= |slots|
    ensures var (w1, bytes) := WriteSnapshot(0, w, s).value;
            var r := ReadSnapshot(Reader(slots, bytes + rest));
            && r.Some? && r.value.text == rest
            && InStep(MirrorPages(mirror, w, s.docs), w1, PagesView(view, s.docs), r.value.slots)
            && |r.value.slots| == |slots|
  {
    PagesAreOk(w.book, s.docs);
    SnapshotReplays(0, w, view, s, slots, rest);
    SnapshotAgrees(mirror, w, view, s.docs, slots);
    PagesFrame(0, w, view, s.docs);
    ReadEncodedSnapshot(s.viewtime, WritePages(0, w, s.docs).value.1, slots, rest);
  }

  /** The first snapshot of a run, whatever the bytes of the later ones are. */
  lemma {:induction false} FirstAgrees(mirror: seq<Order>, w: Writer, view: View, run: seq<Snapshot>, slots: seq<Order>,
                                       tail: seq<Byte>)
    returns (w1: Writer, bytes: seq<Byte>, slots1: seq<Order>)
    requires InStep(mirror, w, view, slots) && run != [] && RunOk(w.book, run) && RunHolds(w.book, run)
    requires Max(w.slots.size, RunPeak(w.book, run)) <= |slots|
    ensures WriteSnapshot(0, w, run[0]) == Some((w1, bytes))
    ensures ReadSnapshot(Reader(slots, bytes + tail)) == Some(Reader(slots1, tail)) && |slots1| == |slots|
    ensures InStep(MirrorPages(mirror, w, run[0].docs), w1, PagesView(view, run[0].docs), slots1)
    ensures RunOk(w1.book, run[1..]) && RunHolds(w1.book, run[1..])
    ensures Max(w1.slots.size, RunPeak(w1.book, run[1..])) <= |slots1|
  {
    SnapshotKeeps(0, w, view, run[0]);
    w1 := WriteSnapshot(0, w, run[0]).value.0;
    bytes := WriteSnapshot(0, w, run[0]).value.1;
    BytesAgree(mirror, w, view, run[0], slots, tail);
    slots1 := ReadSnapshot(Reader(slots, bytes + tail)).value.slots;
  }

  /**
   After every run of snapshots that keeps static fields, replayed from the bytes written, the mirror array and the
   reader's slots agree slot by slot on everything but `issued`.
   */
  lemma {:induction false} RunAgrees(mirror: seq<Order>, w: Writer, view: View, run: seq<Snapshot>, slots: seq<Order>,
                                     rest: seq<Byte>)
    requires InStep(mirror, w, view, slots) && RunOk(w.book, run) && RunHolds(w.book, run)
    requires Max(w.slots.size, RunPeak(w.book, run)) <= |slots|
    ensures WriteRun(0, w, run).Some?
    ensures var (w1, bytes) := WriteRun(0, w, run).value;
            var r := ReadRun(|run|, Reader(slots, bytes + rest));
            && r.Some? && r.value.text == rest
            && InStep(MirrorRun(mirror, w, run), w1, RunView(view, run), r.value.slots)
    decreases |run|
  {
    if run == [] {
      assert [] + rest == rest;
    } else {
      assert WriteRun(0, w, run).Some? by {
        RunKeeps(0, w, view, run);
      }
      WriteRunStep(0, w, run);
      var (w1, b1) := WriteSnapshot(0, w, run[0]).value;
      var (w2, b2) := WriteRun(0, w1, run[1..]).value;
      var w3, b3, slots1 := FirstAgrees(mirror, w, view, run, slots, b2 + rest);
      var mirror1, view1 := MirrorPages(mirror, w, run[0].docs), PagesView(view, run[0].docs);
      RunAgrees(mirror1, w1, view1, run[1..], slots1, rest);
      RunJoined(run, slots, b1, b2, rest, slots1);
      MirrorRunStep(mirror, w, view, run);
    }
  }

  /** What a run leads to is what the later snapshots lead to behind the first. */
  lemma {:induction false} RunJoined(run: seq<Snapshot>, slots: seq<Order>, b1: seq<Byte>, b2: seq<Byte>,
                                     rest: seq<Byte>, slots1: seq<Order>)
    requires run != []
    requires ReadSnapshot(Reader(slots, b1 + (b2 + rest))) == Some(Reader(slots1, b2 + rest))
    ensures ReadRun(|run|, Reader(slots, (b1 + b2) + rest)) == ReadRun(|run[1..]|, Reader(slots1, b2 + rest))
  {
    Associative(b1, b2, rest);
    ReadRunStep(|run|, Reader(slots, b1 + (b2 + rest)), Reader(slots1, b2 + rest));
  }

  lemma {:induction false} MirrorRunStep(mirror: seq<Order>, w: Writer, view: View, run: seq<Snapshot>)
    requires run != [] && WriteSnapshot(0, w, run[0]).Some?
    ensures RunView(view, run) == RunView(PagesView(view, run[0].docs), run[1..])
    ensures MirrorRun(mirror, w, run) ==
            MirrorRun(MirrorPages(mirror, w, run[0].docs), WriteSnapshot(0, w, run[0]).value.0, run[1..])
  {
  }

  /** A slot no live order holds has volume 0. */
  ghost predicate FreedAreZero(mirror: seq<Order>, index: Index) {
    forall k :: 0 <= k < |mirror| && !Holds(index, k) ==> mirror[k].volume == 0
  }

  lemma {:induction false} FreedInStep(mirror: seq<Order>, w: Writer, view: View, slots: seq<Order>)
    requires InStep(mirror, w, view, slots)
    ensures FreedAreZero(mirror, w.slots.index)
  {
    forall k | 0 <= k < |mirror| && !Holds(w.slots.index, k) ensures mirror[k].volume == 0 {
      assert EqualIgnoringIssued(mirror[k], slots[k]);
    }
  }

  /** From the start, for every run: the slots of mirror and reader, live or freed. */
  lemma {:induction false} MirrorMatchesReader(run: seq<Snapshot>, slots: seq<Order>, rest: seq<Byte>)
    requires RunOk([], run) && RunHolds([], run)
    requires Blank(slots) && RunPeak([], run) <= |slots| < 0x8000_0000
    ensures WriteRun(0, NO_ORDERS, run).Some?
    ensures var (w, bytes) := WriteRun(0, NO_ORDERS, run).value;
            var r, mirror := ReadRun(|run|, Reader(slots, bytes + rest)), MirrorRun([], NO_ORDERS, run);
            && r.Some? && |mirror| == w.slots.size && Agrees(mirror, r.value.slots)
            && FreedAreZero(mirror, w.slots.index) && FreedAreZero(r.value.slots, w.slots.index)
  {
    StartInStep(slots);
    RunAgrees([], NO_ORDERS, map[], run, slots, rest);
    var (w, bytes) := WriteRun(0, NO_ORDERS, run).value;
    var r := ReadRun(|run|, Reader(slots, bytes + rest));
    FreedInStep(MirrorRun([], NO_ORDERS, run), w, RunView(map[], run), r.value.slots);
  }

  // ------------------------------------------------ what the mirror holds

  /** The orders as they were last written to the mirror array. */
  function Latest(m: View, acts: seq<Action>): View
    decreases |acts|
  {
    if acts == [] then m
    else
      var o := acts[0].order;
      Latest(if acts[0].Delete? then m - {o.id} else m[o.id := o], acts[1..])
  }

  ghost predicate Copies(mirror: seq<Order>, index: Index, m: View) {
    m.Keys == index.Keys && forall x :: x in m ==> index[x] < |mirror| && mirror[index[x]] == m[x]
  }

  lemma {:induction false} CopiedAt(mirror: seq<Order>, index: Index, m: View, k: nat, o: Order)
    requires Copies(mirror, index, m) && k < |mirror| && forall x :: x in index && x != o.id ==> index[x] != k
    ensures Copies(mirror[k := o], index[o.id := k], m[o.id := o])
  {
  }

  lemma {:induction false} CopiedBehind(mirror: seq<Order>, index: Index, m: View, o: Order)
    requires Copies(mirror, index, m) && o.id !in index
    ensures Copies(mirror + [o], index[o.id := |mirror|], m[o.id := o])
  {
  }

  lemma {:induction false} CopiedWithout(mirror: seq<Order>, index: Index, m: View, k: nat, o: Order, x: Id)
    requires Copies(mirror, index, m) && k < |mirror| && forall y :: y in index && y != x ==> index[y] != k
    ensures Copies(mirror[k := o], index - {x}, m - {x})
  {
  }

  lemma {:induction false} OthersElsewhere(s: Slots, a: Action)
    requires WellFormed(0, s) && Enabled(s.index.Keys, a)
    ensures forall x :: x in s.index && x != a.order.id ==> s.index[x] != Target(0, s, a)
    ensures Target(0, s, a) < s.size || (a.New? && s.free == [])
  {
    MoveKeeps(0, s, a);
    forall x | x in s.index && x != a.order.id ensures s.index[x] != Target(0, s, a) {
      assert s.index[x] in Occupied(s.index, s.free);
      if a.New? && s.free != [] {
        assert s.free[0] in s.free;
      }
    }
  }

  lemma {:induction false} OneCopied(mirror: seq<Order>, s: Slots, a: Action, m: View)
    requires WellFormed(0, s) && |mirror| == s.size && Enabled(s.index.Keys, a) && Copies(mirror, s.index, m)
    ensures Copies(Mirrored(mirror, 0, s, a), Move(0, s, a).index,
                   if a.Delete? then m - {a.order.id} else m[a.order.id := a.order])
  {
    var k, o := Target(0, s, a), a.order;
    OthersElsewhere(s, a);
    if a.New? && s.free == [] {
      CopiedBehind(mirror, s.index, m, o);
    } else if a.Delete? {
      CopiedWithout(mirror, s.index, m, k, mirror[k].(volume := 0), o.id);
    } else {
      CopiedAt(mirror, s.index, m, k, o);
      assert a.Change? ==> s.index[o.id := k] == s.index;
    }
  }

  /**
   The mirror array holds each live order in full as the page gave it when it was new or when its price or volume
   last changed, static fields included.
   */
  lemma {:induction false} MirrorHoldsLatest(mirror: seq<Order>, s: Slots, acts: seq<Action>, m: View)
    requires WellFormed(0, s) && |mirror| == s.size && AllEnabled(s.index.Keys, acts) && Copies(mirror, s.index, m)
    ensures PerformAll(0, s, acts).Some?
    ensures Copies(MirroredAll(mirror, 0, s, acts), PerformAll(0, s, acts).value.0.index, Latest(m, acts))
    decreases |acts|
  {
    PerformAllKeeps(0, s, acts);
    if acts != [] {
      var a := acts[0];
      MoveIds(0, s, a);
      MoveKeeps(0, s, a);
      MirroredLength(mirror, 0, s, a);
      OneCopied(mirror, s, a, m);
      MirrorHoldsLatest(Mirrored(mirror, 0, s, a), Move(0, s, a), acts[1..],
                        if a.Delete? then m - {a.order.id} else m[a.order.id := a.order]);
    }
  }
}
