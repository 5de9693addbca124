/**
 `JsonWriter::extract2` of json_writer.cpp: merges the pages of a snapshot into the book, appends the log to
 the mapped region, back-patches the page sizes, lets the reader replay the snapshot and compares.
 Slots are numbered from 0, as the positions of the mirror array are.
 */
module JsonWriter {
  import opened Wrappers
  import opened Orders
  import opened Codec
  import opened PageMerge
  import opened SlotAllocator
  import opened Replay
  import opened OrderLog
  import opened Snapshots
  import opened BookCheck
  import opened Mirror
  import opened JsonReader

  /** The next action of a merge, and what is left to do after it. */
  lemma {:induction false} NextAction(s: Slots, a: Action, rest: seq<Action>)
    requires PerformAll(0, s, [a] + rest).Some?
    ensures Enabled(s.index.Keys, a)
    ensures PerformAll(0, Move(0, s, a), rest).Some?
    ensures PerformAll(0, s, [a] + rest).value.0 == PerformAll(0, Move(0, s, a), rest).value.0
    ensures PerformAll(0, s, [a] + rest).value.1 ==
            [Record(Target(0, s, a), a)] + PerformAll(0, Move(0, s, a), rest).value.1
  {
    assert ([a] + rest)[1..] == rest;
  }

  lemma {:induction false} NextMirror(mirror: seq<Order>, s: Slots, a: Action, rest: seq<Action>)
    requires AllEnabled(s.index.Keys, [a] + rest)
    ensures Enabled(s.index.Keys, a) && AllEnabled(Move(0, s, a).index.Keys, rest)
    ensures MirroredAll(mirror, 0, s, [a] + rest) ==
            MirroredAll(Mirrored(mirror, 0, s, a), 0, Move(0, s, a), rest)
  {
    assert ([a] + rest)[1..] == rest;
    MoveIds(0, s, a);
  }

  /** Where a merge has to end: slots, mirror array and records. */
  datatype Goal = Goal(slots: Slots, mirror: seq<Order>, events: seq<Event>)

  /** Where a merge stands: `done` is in the log, `left` is still to be performed. */
  ghost predicate OnTrack(s: Slots, mirror: seq<Order>, left: seq<Action>, done: seq<Event>, g: Goal) {
    && WellFormed(0, s) && |mirror| == s.size
    && AllEnabled(s.index.Keys, left)
    && done <= g.events
    && PerformAll(0, s, left) == Some((g.slots, g.events[|done|..]))
    && MirroredAll(mirror, 0, s, left) == g.mirror
  }

  lemma {:induction false} EventsLeft(events: seq<Event>, done: seq<Event>, e: Event, rest: seq<Event>)
    requires done <= events && events[|done|..] == [e] + rest
    ensures done + [e] <= events && events[|done + [e]|..] == rest
  {
    assert events == done + ([e] + rest);
    assert events == (done + [e]) + rest;
  }

  lemma {:induction false} Advance(s: Slots, mirror: seq<Order>, a: Action, left: seq<Action>, done: seq<Event>,
                                   g: Goal)
    requires OnTrack(s, mirror, [a] + left, done, g)
    ensures Enabled(s.index.Keys, a)
    ensures OnTrack(Move(0, s, a), Mirrored(mirror, 0, s, a), left, done + [Record(Target(0, s, a), a)], g)
    ensures Move(0, s, a).size <= g.slots.size
  {
    NextAction(s, a, left);
    NextMirror(mirror, s, a, left);
    MoveKeeps(0, s, a);
    MirroredLength(mirror, 0, s, a);
    PerformAllKeeps(0, Move(0, s, a), left);
    EventsLeft(g.events, done, Record(Target(0, s, a), a), PerformAll(0, Move(0, s, a), left).value.1);
  }

  /** A record fits if all records of the page fit. */
  lemma {:induction false} RecordFits(done: seq<Event>, e: Event, goalEvents: seq<Event>)
    requires done + [e] <= goalEvents
    ensures |EncodeEvents(done)| + |EncodeEvent(e)| <= |EncodeEvents(goalEvents)|
  {
    var front := done + [e];
    var tail := goalEvents[|front|..];
    assert goalEvents == front + tail;
    EncodeEventsAppend(done, e);
    EncodeEventsConcat(front, tail);
  }

  lemma {:induction false} EncodeEventsConcat(a: seq<Event>, b: seq<Event>)
    ensures EncodeEvents(a + b) == EncodeEvents(a) + EncodeEvents(b)
  {
    if a == [] {
      assert a + b == b;
      assert EncodeEvents(a) == [];
    } else {
      var head, tail := a[0], a[1..];
      assert a == [head] + tail && a + b == [head] + (tail + b);
      EncodeEventsConcat(tail, b);
      EncodeEventsCons(head, tail);
      EncodeEventsCons(head, tail + b);
      Associative(EncodeEvent(head), EncodeEvents(tail), EncodeEvents(b));
    }
  }

  /** The actions left when the merge has come to `doc[i]` and `snapshot[j]`. */
  function Remaining(doc: seq<Order>, i: nat, snapshot: seq<Order>, j: nat, r2: nat): seq<Action>
    requires i <= |doc| && j <= r2 <= |snapshot|
  {
    Actions(doc[i..], snapshot[j..r2])
  }

  lemma {:induction false} NextIsNew(doc: seq<Order>, i: nat, i1: nat, snapshot: seq<Order>, j: nat, r2: nat)
    requires i < |doc| && i1 == i + 1 && j <= r2 <= |snapshot| && (j == r2 || doc[i].id < snapshot[j].id)
    ensures Remaining(doc, i, snapshot, j, r2) == [New(doc[i])] + Remaining(doc, i1, snapshot, j, r2)
  {
    assert doc[i..][1..] == doc[i1..];
  }

  lemma {:induction false} NextIsDelete(doc: seq<Order>, i: nat, snapshot: seq<Order>, j: nat, j1: nat, r2: nat)
    requires i <= |doc| && j < r2 <= |snapshot| && j1 == j + 1 && (i == |doc| || snapshot[j].id < doc[i].id)
    ensures Remaining(doc, i, snapshot, j, r2) == [Delete(snapshot[j])] + Remaining(doc, i, snapshot, j1, r2)
  {
    assert snapshot[j..r2][1..] == snapshot[j1..r2];
  }

  lemma {:induction false} NextIsCommon(doc: seq<Order>, i: nat, i1: nat, snapshot: seq<Order>, j: nat, j1: nat,
                                        r2: nat)
    requires i < |doc| && i1 == i + 1 && j < r2 <= |snapshot| && j1 == j + 1 && doc[i].id == snapshot[j].id
    ensures Remaining(doc, i, snapshot, j, r2) ==
            if SameOffer(doc[i], snapshot[j]) then Remaining(doc, i1, snapshot, j1, r2)
            else [Change(doc[i])] + Remaining(doc, i1, snapshot, j1, r2)
  {
    assert doc[i..][1..] == doc[i1..];
    assert snapshot[j..r2][1..] == snapshot[j1..r2];
  }

  lemma {:induction false} AllDone(s: Slots, mirror: seq<Order>, done: seq<Event>, g: Goal)
    requires OnTrack(s, mirror, [], done, g)
    ensures s == g.slots && mirror == g.mirror && done == g.events
  {
    assert g.events == done + g.events[|done|..];
  }

  lemma {:induction false} SlotWord(k: nat)
    requires k < 0x8000_0000
    ensures EncodeI32(I32Of(k)) == EncodeWord(4, k)
  {
  }

  lemma {:induction false} HeaderWords(first: Id, last: Id, size: nat)
    ensures PageHeader(first, last, size) == EncodeWord(8, first) + EncodeWord(8, last) + EncodeWord(4, size)
  {
    var ws, xs := PAGE_WIDTHS, [first, last, size];
    assert ws[1..][1..] == [4] && xs[1..][1..] == [size];
    assert Pack([4], [size]) == EncodeWord(4, size) + Pack([4][1..], [size][1..]);
    assert Pack(ws[1..], xs[1..]) == EncodeWord(8, last) + EncodeWord(4, size);
  }

  /** What the merge of a page has to arrive at. */
  ghost function MergeGoal(w: Writer, doc: seq<Order>, mirror: seq<Order>): Goal
    requires doc != [] && AllEnabled(w.slots.index.Keys, PageActions(w.book, doc))
    requires WritePage(0, w, doc).Some?
  {
    var (w', p) := WritePage(0, w, doc).value;
    Goal(w'.slots, MirroredAll(mirror, 0, w.slots, PageActions(w.book, doc)), p.events)
  }

  lemma {:induction false} StartMerge(w: Writer, view: View, doc: seq<Order>, mirror: seq<Order>)
    requires Linked(0, w, view) && PageOk(doc) && |mirror| == w.slots.size && WritePage(0, w, doc).Some?
    ensures AllEnabled(w.slots.index.Keys, PageActions(w.book, doc))
    ensures OnTrack(w.slots, mirror, PageActions(w.book, doc), [], MergeGoal(w, doc, mirror))
  {
    PageMeaning(view, w.book, doc);
  }

  lemma {:induction false} NothingWritten(start: seq<Byte>)
    ensures start == start + EncodeEvents([])
  {
  }

  lemma {:induction false} PageBytes(p: Page)
    ensures |EncodePage(p)| == 20 + |EncodeEvents(p.events)|
  {
    HeaderWords(p.first, p.last, |EncodeEvents(p.events)|);
  }

  lemma {:induction false} PageLog(log: seq<Byte>, p: Page)
    ensures var records := EncodeEvents(p.events);
            log + (EncodeWord(8, p.first) + EncodeWord(8, p.last)) + (EncodeWord(4, |records|) + records)
            == log + EncodePage(p)
  {
    var records := EncodeEvents(p.events);
    var ids, size := EncodeWord(8, p.first) + EncodeWord(8, p.last), EncodeWord(4, |records|);
    HeaderWords(p.first, p.last, |records|);
    Associative(log, ids, size + records);
    Associative(ids, size, records);
  }

  lemma {:induction false} FrameWords(viewtime: U32, pageCount: nat)
    ensures FrameHeader(viewtime, pageCount) == EncodeWord(4, viewtime) + EncodeWord(1, pageCount)
  {
    var ws, xs := FRAME_WIDTHS, [viewtime, pageCount];
    assert ws[1..] == [1] && xs[1..] == [pageCount];
    assert Pack([1], [pageCount]) == EncodeWord(1, pageCount) + Pack([1][1..], [pageCount][1..]);
  }

  lemma {:induction false} EncodePagesCons(p: Page, ps: seq<Page>)
    ensures EncodePages([p] + ps) == EncodePage(p) + EncodePages(ps)
  {
    assert PageChunks([p] + ps)[1..] == PageChunks(ps);
  }

  /** Where a snapshot has to end: writer, view, mirror array and the whole log. */
  datatype SnapshotGoal = SnapshotGoal(w: Writer, view: View, mirror: seq<Order>, bytes: seq<Byte>)

  ghost predicate DocsLeft(w: Writer, view: View, mirror: seq<Order>, left: seq<seq<Order>>, log: seq<Byte>,
                           g: SnapshotGoal)
  {
    && DocsOk(left) && Linked(0, w, view) && g.w.slots.size <= CAPACITY
    && WritePages(0, w, left).Some?
    && WritePages(0, w, left).value.0 == g.w
    && PagesView(view, left) == g.view
    && MirrorPages(mirror, w, left) == g.mirror
    && log + EncodePages(WritePages(0, w, left).value.1) == g.bytes
  }

  lemma {:induction false} WritePagesCons(w: Writer, doc: seq<Order>, left: seq<seq<Order>>)
    requires doc != [] && WritePages(0, w, [doc] + left).Some?
    ensures WritePage(0, w, doc).Some?
    ensures var (w1, p) := WritePage(0, w, doc).value;
            && WritePages(0, w1, left).Some?
            && WritePages(0, w, [doc] + left).value ==
               (WritePages(0, w1, left).value.0, [p] + WritePages(0, w1, left).value.1)
  {
    assert ([doc] + left)[1..] == left;
  }

  lemma {:induction false} PagesViewCons(view: View, doc: seq<Order>, left: seq<seq<Order>>)
    requires doc != []
    ensures PagesView(view, [doc] + left) == PagesView(PageView(view, doc), left)
    ensures DocsOk([doc] + left) <==> PageOk(doc) && DocsOk(left)
  {
    assert ([doc] + left)[1..] == left;
  }

  lemma {:induction false} MirrorPagesCons(mirror: seq<Order>, w: Writer, doc: seq<Order>, left: seq<seq<Order>>)
    requires doc != [] && WritePage(0, w, doc).Some?
    ensures MirrorPages(mirror, w, [doc] + left) ==
            MirrorPages(MirrorPage(mirror, w, doc), WritePage(0, w, doc).value.0, left)
  {
    assert ([doc] + left)[1..] == left;
  }

  lemma {:induction false} AdvanceDoc(w: Writer, view: View, mirror: seq<Order>, doc: seq<Order>, left: seq<seq<Order>>,
                                      log: seq<Byte>, g: SnapshotGoal)
    requires DocsLeft(w, view, mirror, [doc] + left, log, g)
    ensures PageOk(doc) && WritePage(0, w, doc).Some?
    ensures var (w1, p) := WritePage(0, w, doc).value;
            && w1.slots.size <= CAPACITY && |log| + |EncodePage(p)| <= |g.bytes|
            && DocsLeft(w1, PageView(view, doc), MirrorPage(mirror, w, doc), left, log + EncodePage(p), g)
  {
    assert ([doc] + left)[0] == doc;
    WritePagesCons(w, doc, left);
    PagesViewCons(view, doc, left);
    MirrorPagesCons(mirror, w, doc, left);
    var (w1, p) := WritePage(0, w, doc).value;
    var ps := WritePages(0, w1, left).value.1;
    PageKeeps(0, w, view, doc);
    PagesSize(0, w1, PageView(view, doc), left);
    EncodePagesCons(p, ps);
    Associative(log, EncodePage(p), EncodePages(ps));
  }

  lemma {:induction false} FirstOfDocs(docs: seq<seq<Order>>, d: nat)
    requires d < |docs|
    ensures docs[d..] == [docs[d]] + docs[d + 1..]
  {
  }

  lemma {:induction false} NoEmptyDoc(w: Writer, view: View, mirror: seq<Order>, doc: seq<Order>, left: seq<seq<Order>>,
                                      log: seq<Byte>, g: SnapshotGoal)
    requires DocsLeft(w, view, mirror, [doc] + left, log, g)
    ensures doc != []
  {
    assert ([doc] + left)[0] == doc;
  }

  lemma {:induction false} StartDocs(w: Writer, view: View, mirror: seq<Order>, s: Snapshot, log: seq<Byte>,
                                     g: SnapshotGoal)
    requires Linked(0, w, view) && SnapshotOk(w.book, s) && WriteSnapshot(0, w, s).Some?
    requires g.w == WriteSnapshot(0, w, s).value.0 && g.w.slots.size <= CAPACITY
    requires g.view == PagesView(view, s.docs) && g.mirror == MirrorPages(mirror, w, s.docs)
    requires g.bytes == log + WriteSnapshot(0, w, s).value.1
    ensures DocsLeft(w, view, mirror, s.docs, log + FrameHeader(s.viewtime, |s.docs|), g)
    ensures |log| + 5 <= |g.bytes|
  {
    PagesAreOk(w.book, s.docs);
    FrameWords(s.viewtime, |s.docs|);
    Associative(log, FrameHeader(s.viewtime, |s.docs|), EncodePages(WritePages(0, w, s.docs).value.1));
  }

  lemma {:induction false} Behind(r: seq<Byte>, log: seq<Byte>, bytes: seq<Byte>, c: nat)
    requires c <= |r| && r[..c] == log + bytes
    ensures r[|log|..] == bytes + r[c..]
  {
    assert r == r[..c] + r[c..];
    Associative(log, bytes, r[c..]);
    Split(log, bytes + r[c..]);
  }

  /** What the reader's next step leads to, once the snapshot is in the region `r` up to `c`. */
  lemma {:induction false} ReplayAhead(r: seq<Byte>, c: nat, w: Writer, view: View, s: Snapshot, slots: seq<Order>,
                                       log: seq<Byte>)
    returns (t: Reader)
    requires Linked(0, w, view) && SnapshotOk(w.book, s) && Shows(0, w.slots, view, slots)
    requires WriteSnapshot(0, w, s).Some? && WriteSnapshot(0, w, s).value.0.slots.size <= |slots| < 0x8000_0000
    requires c <= |r| && r[..c] == log + WriteSnapshot(0, w, s).value.1
    ensures |log| <= |r|
    ensures ReadSnapshot(Reader(slots, r[|log|..])) == Some(t) && t.text == r[c..]
    ensures Shows(0, WriteSnapshot(0, w, s).value.0.slots, PagesView(view, s.docs), t.slots)
  {
    var bytes := WriteSnapshot(0, w, s).value.1;
    Behind(r, log, bytes, c);
    SnapshotReplays(0, w, view, s, slots, r[c..]);
    t := ReadSnapshot(Reader(slots, r[|log|..])).value;
  }

  /** While static fields are kept, mirror and reader slots agree again after that step. */
  lemma {:induction false} AgreeAhead(r: seq<Byte>, c: nat, w: Writer, view: View, mirror: seq<Order>, s: Snapshot,
                                      slots: seq<Order>, log: seq<Byte>, t: Reader)
    requires InStep(mirror, w, view, slots) && SnapshotOk(w.book, s) && PagesHold(w.book, s.docs)
    requires WriteSnapshot(0, w, s).Some? && WriteSnapshot(0, w, s).value.0.slots.size <= |slots|
    requires c <= |r| && r[..c] == log + WriteSnapshot(0, w, s).value.1
    requires |log| <= |r| && ReadSnapshot(Reader(slots, r[|log|..])) == Some(t)
    ensures Agrees(MirrorPages(mirror, w, s.docs), t.slots)
  {
    Behind(r, log, WriteSnapshot(0, w, s).value.1, c);
    BytesAgree(mirror, w, view, s, slots, r[c..]);
  }

  lemma {:induction false} AllDocs(w: Writer, view: View, mirror: seq<Order>, log: seq<Byte>, g: SnapshotGoal)
    requires DocsLeft(w, view, mirror, [], log, g)
    ensures w == g.w && view == g.view && mirror == g.mirror && log == g.bytes
  {
  }

  class JsonWriter {
    var activeOrders: seq<Order>
    var activeOrders2: seq<Order>
    var index: Index
    var freeList: seq<nat>
    const region: array<Byte>
    var current: nat
    const reader: OrderReader

    /** The view of the book that the log stands for. */
    ghost var view: View

    /** An empty writer over a region, with its own reader of the same region. */
    constructor (s: array<Byte>)
      ensures Valid() && region == s && fresh(reader) && fresh(reader.activeOrders)
      ensures Abs() == NO_ORDERS && view == map[] && Log() == []
      ensures Agrees(activeOrders2, reader.activeOrders[..])
    {
      activeOrders, activeOrders2, index, freeList := [], [], map[], [];
      region := s;
      current := 0;
      view := map[];
      reader := new OrderReader(s);
      new;
      NothingYet(0, reader.activeOrders[..]);
    }

    ghost function CurrentSlots(): Slots
      reads this
    {
      Slots(index, freeList, |activeOrders2|)
    }

    ghost function Abs(): Writer
      reads this
    {
      Writer(activeOrders, CurrentSlots())
    }

    /** The log written so far. */
    ghost function Log(): seq<Byte>
      reads this, region
      requires current <= region.Length
    {
      region[..current]
    }

    // ------------------------------------------------ writing bytes

    /** `memcpy` to a position of the region. */
    method Copy(at: nat, bytes: seq<Byte>)
      requires at + |bytes| <= region.Length
      modifies region
      ensures region[..] == old(region[..at]) + bytes + old(region[at + |bytes|..])
    {
      forall i | 0 <= i < |bytes| {
        region[at + i] := bytes[i];
      }
    }

    method Append(bytes: seq<Byte>)
      requires current + |bytes| <= region.Length
      modifies region, this`current
      ensures current == old(current) + |bytes| && current <= region.Length
      ensures Log() == old(Log()) + bytes
    {
      Copy(current, bytes);
      current := current + |bytes|;
    }

    /** `write_tuple`: the fields in order, advancing the position. */
    method WriteTuple(ws: seq<nat>, xs: seq<nat>)
      requires |ws| == |xs| && current + Width(ws) <= region.Length
      modifies region, this`current
      ensures current == old(current) + Width(ws) && current <= region.Length
      ensures Log() == old(Log()) + Pack(ws, xs)
    {
      for i := 0 to |ws|
        invariant current + Width(ws[i..]) == old(current) + Width(ws)
        invariant Log() + Pack(ws[i..], xs[i..]) == old(Log()) + Pack(ws, xs)
      {
        ghost var first, behind := EncodeWord(ws[i], xs[i]), Pack(ws[i + 1..], xs[i + 1..]);
        assert ws[i..][1..] == ws[i + 1..] && xs[i..][1..] == xs[i + 1..];
        assert Pack(ws[i..], xs[i..]) == first + behind;
        Associative(Log(), first, behind);
        Append(EncodeWord(ws[i], xs[i]));
      }
      assert Pack(ws[|ws|..], xs[|ws|..]) == [];
    }

    // ------------------------------------------------ the three kinds of record

    method WriteSlot(k: nat)
      requires current + 4 <= region.Length && k < 0x8000_0000
      modifies region, this`current
      ensures current == old(current) + 4 && Log() == old(Log()) + EncodeI32(I32Of(k))
    {
      SlotWord(k);
      Append(EncodeWord(4, k));
    }

    method WritePut(k: nat, o: Order)
      requires current + |EncodeEvent(Put(I32Of(k), o))| <= region.Length && k < 0x8000_0000
      modifies region, this`current
      ensures current <= region.Length && Log() == old(Log()) + EncodeEvent(Put(I32Of(k), o))
    {
      RecordWidths();
      Associative(Log(), EncodeI32(I32Of(k)), EncodeOrder(o));
      WriteSlot(k);
      WriteTuple(ORDER_WIDTHS, OrderWords(o));
    }

    method WritePatch(k: nat, price: U64, volume: U32)
      requires current + |EncodeEvent(Patch(I32Of(k), price, volume))| <= region.Length && k < 0x8000_0000
      modifies region, this`current
      ensures current <= region.Length && Log() == old(Log()) + EncodeEvent(Patch(I32Of(k), price, volume))
    {
      RecordWidths();
      Associative(Log(), EncodeI32(I32Of(k)), EncodeDiff(price, volume));
      WriteSlot(k);
      WriteTuple(DIFF_WIDTHS, [ByteOf(DIFF_TAG), price, volume]);
    }

    // ------------------------------------------------ the three actions

    /** The slot for a new order: the front of the free list, else a new position. */
    method TakeSlot(o: Order) returns (newIndex: nat)
      requires WellFormed(0, CurrentSlots()) && o.id !in index
      modifies this`index, this`freeList, this`activeOrders2
      ensures newIndex == Target(0, old(CurrentSlots()), New(o))
      ensures CurrentSlots() == Move(0, old(CurrentSlots()), New(o))
      ensures activeOrders2 == Mirrored(old(activeOrders2), 0, old(CurrentSlots()), New(o))
    {
      MovePartition(0, CurrentSlots(), New(o));
      if freeList == [] {
        activeOrders2 := activeOrders2 + [o];
        newIndex := |activeOrders2| - 1;
      } else {
        newIndex := freeList[0];
        freeList := freeList[1..];
        activeOrders2 := activeOrders2[newIndex := o];
      }
      index := index[o.id := newIndex];
    }

    /** An order of the page that was not in the book: takes a slot and is written in full. */
    method AddOrder(o: Order)
      requires WellFormed(0, CurrentSlots()) && o.id !in index
      requires Move(0, CurrentSlots(), New(o)).size <= CAPACITY
      requires current + |EncodeEvent(Record(Target(0, CurrentSlots(), New(o)), New(o)))| <= region.Length
      modifies region, this`current, this`index, this`freeList, this`activeOrders2
      ensures CurrentSlots() == Move(0, old(CurrentSlots()), New(o))
      ensures activeOrders2 == Mirrored(old(activeOrders2), 0, old(CurrentSlots()), New(o))
      ensures current <= region.Length
      ensures Log() == old(Log()) + EncodeEvent(Record(Target(0, old(CurrentSlots()), New(o)), New(o)))
    {
      assert Target(0, CurrentSlots(), New(o)) < CAPACITY by {
        MovePartition(0, CurrentSlots(), New(o));
      }
      if o.id in index {
        assert false; // throws "inconsistency"
      }
      var newIndex := TakeSlot(o);
      WritePut(newIndex, o);
    }

    /** An order whose price or volume changed. */
    method ChangeOrder(o: Order)
      requires WellFormed(0, CurrentSlots()) && o.id in index && |activeOrders2| <= CAPACITY
      requires current + |EncodeEvent(Record(Target(0, CurrentSlots(), Change(o)), Change(o)))| <= region.Length
      modifies region, this`current, this`activeOrders2
      ensures CurrentSlots() == Move(0, old(CurrentSlots()), Change(o))
      ensures activeOrders2 == Mirrored(old(activeOrders2), 0, old(CurrentSlots()), Change(o))
      ensures current <= region.Length
      ensures Log() == old(Log()) + EncodeEvent(Record(Target(0, old(CurrentSlots()), Change(o)), Change(o)))
    {
      MovePartition(0, CurrentSlots(), Change(o));
      if o.id !in index {
        assert false; // throws "inconsistency"
      }
      var existingIndex := index[o.id];
      activeOrders2 := activeOrders2[existingIndex := o];
      WritePatch(existingIndex, o.price, o.volume);
    }

    /** An order of the interval that is not in the page: its slot becomes free and holds volume 0. */
    method DeleteOrder(o: Order)
      requires WellFormed(0, CurrentSlots()) && o.id in index && |activeOrders2| <= CAPACITY
      requires current + |EncodeEvent(Record(Target(0, CurrentSlots(), Delete(o)), Delete(o)))| <= region.Length
      modifies region, this`current, this`index, this`freeList, this`activeOrders2
      ensures CurrentSlots() == Move(0, old(CurrentSlots()), Delete(o))
      ensures activeOrders2 == Mirrored(old(activeOrders2), 0, old(CurrentSlots()), Delete(o))
      ensures current <= region.Length
      ensures Log() == old(Log()) + EncodeEvent(Record(Target(0, old(CurrentSlots()), Delete(o)), Delete(o)))
    {
      MovePartition(0, CurrentSlots(), Delete(o));
      if o.id !in index {
        assert false; // throws "inconsistency"
      }
      var existingIndex := index[o.id];
      freeList := freeList + [existingIndex];
      index := index - {o.id};
      activeOrders2 := activeOrders2[existingIndex := activeOrders2[existingIndex].(volume := 0)];
      WritePatch(existingIndex, o.price, 0);
    }

    // ------------------------------------------------ one page

    ghost predicate Going(left: seq<Action>, done: seq<Event>, start: seq<Byte>, g: Goal)
      reads this, region
    {
      && current <= region.Length
      && OnTrack(CurrentSlots(), activeOrders2, left, done, g)
      && Log() == start + EncodeEvents(done)
      && |start| + |EncodeEvents(g.events)| <= region.Length
      && g.slots.size <= CAPACITY
    }

    /** Performs the next action, a new order. */
    method StepNew(o: Order, ghost left: seq<Action>, ghost done: seq<Event>, ghost start: seq<Byte>, ghost g: Goal)
      returns (ghost done': seq<Event>)
      requires Going([New(o)] + left, done, start, g)
      modifies region, this`current, this`index, this`freeList, this`activeOrders2
      ensures Going(left, done', start, g)
    {
      Advance(CurrentSlots(), activeOrders2, New(o), left, done, g);
      ghost var e := Record(Target(0, CurrentSlots(), New(o)), New(o));
      RecordFits(done, e, g.events);
      Associative(start, EncodeEvents(done), EncodeEvent(e));
      EncodeEventsAppend(done, e);
      AddOrder(o);
      done' := done + [e];
    }

    /** Performs the next action, a change. */
    method StepChange(o: Order, ghost left: seq<Action>, ghost done: seq<Event>, ghost start: seq<Byte>, ghost g: Goal)
      returns (ghost done': seq<Event>)
      requires Going([Change(o)] + left, done, start, g)
      modifies region, this`current, this`activeOrders2
      ensures Going(left, done', start, g)
    {
      Advance(CurrentSlots(), activeOrders2, Change(o), left, done, g);
      ghost var e := Record(Target(0, CurrentSlots(), Change(o)), Change(o));
      RecordFits(done, e, g.events);
      Associative(start, EncodeEvents(done), EncodeEvent(e));
      EncodeEventsAppend(done, e);
      ChangeOrder(o);
      done' := done + [e];
    }

    /** Performs the next action, a delete. */
    method StepDelete(o: Order, ghost left: seq<Action>, ghost done: seq<Event>, ghost start: seq<Byte>, ghost g: Goal)
      returns (ghost done': seq<Event>)
      requires Going([Delete(o)] + left, done, start, g)
      modifies region, this`current, this`index, this`freeList, this`activeOrders2
      ensures Going(left, done', start, g)
    {
      Advance(CurrentSlots(), activeOrders2, Delete(o), left, done, g);
      ghost var e := Record(Target(0, CurrentSlots(), Delete(o)), Delete(o));
      RecordFits(done, e, g.events);
      Associative(start, EncodeEvents(done), EncodeEvent(e));
      EncodeEventsAppend(done, e);
      DeleteOrder(o);
      done' := done + [e];
    }

    /** json_writer.cpp:278-354: while neither range is used up. */
    method MergeBoth(doc: seq<Order>, snapshot: seq<Order>, r1: nat, r2: nat, ghost start: seq<Byte>, ghost g: Goal)
      returns (i: nat, j: nat, ghost left: seq<Action>, ghost done: seq<Event>)
      requires 0 < |doc| && r1 < r2 <= |snapshot| && Going(Remaining(doc, 0, snapshot, r1, r2), [], start, g)
      modifies region, this`current, this`index, this`freeList, this`activeOrders2
      ensures i <= |doc| && r1 <= j <= r2 && (i == |doc| || j == r2)
      ensures left == Remaining(doc, i, snapshot, j, r2) && Going(left, done, start, g)
    {
      i, j, left, done := 0, r1, Remaining(doc, 0, snapshot, r1, r2), [];
      while true
        invariant i < |doc| && r1 <= j < r2
        invariant left == Remaining(doc, i, snapshot, j, r2)
        invariant Going(left, done, start, g)
        decreases |doc| - i + (r2 - j)
      {
        var i1, j1 := i + 1, j + 1;
        if doc[i].id < snapshot[j].id {
          NextIsNew(doc, i, i1, snapshot, j, r2);
          left := Remaining(doc, i1, snapshot, j, r2);
          done := StepNew(doc[i], left, done, start, g);
          i := i1;
          if i == |doc| { break; }
        } else if doc[i].id == snapshot[j].id {
          NextIsCommon(doc, i, i1, snapshot, j, j1, r2);
          left := Remaining(doc, i1, snapshot, j1, r2);
          if doc[i].price != snapshot[j].price || doc[i].volume != snapshot[j].volume {
            done := StepChange(doc[i], left, done, start, g);
          }
          i, j := i1, j1;
          if i == |doc| || j == r2 { break; }
        } else {
          NextIsDelete(doc, i, snapshot, j, j1, r2);
          left := Remaining(doc, i, snapshot, j1, r2);
          done := StepDelete(snapshot[j], left, done, start, g);
          j := j1;
          if j == r2 { break; }
        }
      }
    }

    /** json_writer.cpp:358-386: what is left of the page is new. */
    method MergeNew(doc: seq<Order>, i0: nat, snapshot: seq<Order>, j: nat, r2: nat, ghost left0: seq<Action>,
                    ghost done0: seq<Event>, ghost start: seq<Byte>, ghost g: Goal)
      returns (ghost left: seq<Action>, ghost done: seq<Event>)
      requires i0 <= |doc| && j <= r2 <= |snapshot| && (i0 < |doc| ==> j == r2)
      requires left0 == Remaining(doc, i0, snapshot, j, r2) && Going(left0, done0, start, g)
      modifies region, this`current, this`index, this`freeList, this`activeOrders2
      ensures left == Remaining(doc, |doc|, snapshot, j, r2) && Going(left, done, start, g)
    {
      left, done := left0, done0;
      var i := i0;
      while i < |doc|
        invariant i0 <= i <= |doc|
        invariant left == Remaining(doc, i, snapshot, j, r2)
        invariant Going(left, done, start, g)
      {
        var i1 := i + 1;
        NextIsNew(doc, i, i1, snapshot, j, r2);
        left := Remaining(doc, i1, snapshot, j, r2);
        done := StepNew(doc[i], left, done, start, g);
        i := i1;
      }
    }

    /** json_writer.cpp:388-406: what is left of the old orders is gone. */
    method MergeDelete(doc: seq<Order>, snapshot: seq<Order>, j0: nat, r2: nat, ghost left0: seq<Action>,
                       ghost done0: seq<Event>, ghost start: seq<Byte>, ghost g: Goal)
      returns (ghost done: seq<Event>)
      requires j0 <= r2 <= |snapshot|
      requires left0 == Remaining(doc, |doc|, snapshot, j0, r2) && Going(left0, done0, start, g)
      modifies region, this`current, this`index, this`freeList, this`activeOrders2
      ensures Going([], done, start, g)
    {
      done := done0;
      ghost var left := left0;
      var j := j0;
      while j < r2
        invariant j0 <= j <= r2
        invariant left == Remaining(doc, |doc|, snapshot, j, r2)
        invariant Going(left, done, start, g)
      {
        var j1 := j + 1;
        NextIsDelete(doc, |doc|, snapshot, j, j1, r2);
        left := Remaining(doc, |doc|, snapshot, j1, r2);
        done := StepDelete(snapshot[j], left, done, start, g);
        j := j1;
      }
      assert left == [];
    }

    /** The merge of json_writer.cpp:276-406 ends where it has to end. */
    method MergeRecords(doc: seq<Order>, snapshot: seq<Order>, r1: nat, r2: nat, ghost acts: seq<Action>,
                        ghost start: seq<Byte>, ghost g: Goal)
      requires r1 <= r2 <= |snapshot| && acts == Remaining(doc, 0, snapshot, r1, r2) && Going(acts, [], start, g)
      modifies region, this`current, this`index, this`freeList, this`activeOrders2
      ensures CurrentSlots() == g.slots && activeOrders2 == g.mirror
      ensures current <= region.Length && Log() == start + EncodeEvents(g.events)
    {
      var i, j := 0, r1;
      ghost var left, done: seq<Event> := acts, [];
      if i < |doc| && j < r2 {
        i, j, left, done := MergeBoth(doc, snapshot, r1, r2, start, g);
      }
      left, done := MergeNew(doc, i, snapshot, j, r2, left, done, start, g);
      done := MergeDelete(doc, snapshot, j, r2, left, done, start, g);
      AllDone(CurrentSlots(), activeOrders2, done, g);
    }

    // ------------------------------------------------ one page

    /** First and last id, and four bytes left for the size. */
    method OpenPage(first: Id, last: Id) returns (header: nat, ghost front: seq<Byte>, ghost gap: seq<Byte>)
      requires current + 20 <= region.Length
      modifies region, this`current
      ensures front == old(Log()) + (EncodeWord(8, first) + EncodeWord(8, last))
      ensures header == |front| && |gap| == 4 && current == header + 4 && current <= region.Length
      ensures Log() == front + gap
      ensures CurrentSlots() == old(CurrentSlots()) && activeOrders2 == old(activeOrders2)
    {
      Associative(Log(), EncodeWord(8, first), EncodeWord(8, last));
      Append(EncodeWord(8, first));
      Append(EncodeWord(8, last));
      header, front, gap := current, Log(), region[current..current + 4];
      current := current + 4;
    }

    /** The size of what was written behind the gap, into the gap. */
    method ClosePage(header: nat, ghost front: seq<Byte>, ghost gap: seq<Byte>, ghost records: seq<Byte>)
      requires current <= region.Length && header == |front| && |gap| == 4
      requires Log() == (front + gap) + records
      modifies region
      ensures Log() == front + (EncodeWord(4, |records|) + records)
    {
      var size := current - header - 4;
      assert size == |records|;
      ghost var behind := region[header + 4..];
      assert behind[..size] == records;
      Copy(header, EncodeWord(4, size));
      assert region[..] == (front + EncodeWord(4, size)) + behind;
      assert Log() == (front + EncodeWord(4, size)) + records;
    }

    /** Puts the page in place of its interval; answers the old book and where it was cut (json_writer.cpp:261-274). */
    method CutBook(doc: seq<Order>, ghost book: seq<Order>, ghost acts: seq<Action>)
      returns (snapshot: seq<Order>, r1: nat, r2: nat)
      requires doc != [] && book == activeOrders && acts == PageActions(book, doc)
      modifies this`activeOrders
      ensures activeOrders == NewBook(book, doc)
      ensures r1 <= r2 <= |snapshot| && acts == Remaining(doc, 0, snapshot, r1, r2)
      ensures CurrentSlots() == old(CurrentSlots()) && activeOrders2 == old(activeOrders2)
      ensures current == old(current) && region[..] == old(region[..])
    {
      snapshot := activeOrders;
      r1 := LowerBound(snapshot, doc[0].id);
      r2 := r1 + UpperBound(snapshot[r1..], doc[|doc| - 1].id);
      activeOrders := snapshot[..r1] + doc + snapshot[r2..];
      assert doc[0..] == doc;
    }

    /** The records of a page, behind the gap for their size, and then the size. */
    method MergeAndClose(doc: seq<Order>, snapshot: seq<Order>, r1: nat, r2: nat, header: nat, ghost acts: seq<Action>,
                         ghost front: seq<Byte>, ghost gap: seq<Byte>, ghost s: Slots, ghost mirror: seq<Order>,
                         ghost g: Goal)
      requires r1 <= r2 <= |snapshot| && acts == Remaining(doc, 0, snapshot, r1, r2)
      requires s == CurrentSlots() && mirror == activeOrders2
      requires OnTrack(s, mirror, acts, [], g) && g.slots.size <= CAPACITY
      requires current <= region.Length && Log() == front + gap && header == |front| && |gap| == 4
      requires current + |EncodeEvents(g.events)| <= region.Length
      modifies region, this`current, this`index, this`freeList, this`activeOrders2
      ensures CurrentSlots() == g.slots && activeOrders2 == g.mirror && current <= region.Length
      ensures Log() == front + (EncodeWord(4, |EncodeEvents(g.events)|) + EncodeEvents(g.events))
    {
      NothingWritten(front + gap);
      MergeRecords(doc, snapshot, r1, r2, acts, front + gap, g);
      ClosePage(header, front, gap, EncodeEvents(g.events));
    }

    /** One page: header with a gap for the size, merge, size patched into the gap (json_writer.cpp:250-409). */
    method MergeInto(doc: seq<Order>, ghost acts: seq<Action>, ghost s: Slots, ghost mirror: seq<Order>, ghost g: Goal)
      requires doc != [] && acts == PageActions(activeOrders, doc)
      requires s == CurrentSlots() && mirror == activeOrders2
      requires OnTrack(s, mirror, acts, [], g)
      requires g.slots.size <= CAPACITY && current + 20 + |EncodeEvents(g.events)| <= region.Length
      modifies region, this`current, this`index, this`freeList, this`activeOrders2, this`activeOrders
      ensures activeOrders == NewBook(old(activeOrders), doc)
      ensures CurrentSlots() == g.slots && activeOrders2 == g.mirror && current <= region.Length
      ensures Log() == old(Log()) + (EncodeWord(8, doc[0].id) + EncodeWord(8, doc[|doc| - 1].id))
                       + (EncodeWord(4, |EncodeEvents(g.events)|) + EncodeEvents(g.events))
    {
      var header;
      ghost var front, gap;
      ghost var book, newBook := activeOrders, NewBook(activeOrders, doc);
      header, front, gap := OpenPage(doc[0].id, doc[|doc| - 1].id);
      var snapshot, r1, r2 := CutBook(doc, book, acts);
      MergeAndClose(doc, snapshot, r1, r2, header, acts, front, gap, s, mirror, g);
      assert activeOrders == newBook;
    }

    /** One page, as `WritePage` says. */
    method MergePage(doc: seq<Order>)
      requires Linked(0, Abs(), view) && PageOk(doc)
      requires WritePage(0, Abs(), doc).Some? && WritePage(0, Abs(), doc).value.0.slots.size <= CAPACITY
      requires current + |EncodePage(WritePage(0, Abs(), doc).value.1)| <= region.Length
      modifies region, this`current, this`index, this`freeList, this`activeOrders2, this`activeOrders
      ensures Abs() == WritePage(0, old(Abs()), doc).value.0
      ensures current <= region.Length
      ensures Log() == old(Log()) + EncodePage(WritePage(0, old(Abs()), doc).value.1)
      ensures activeOrders2 == MirrorPage(old(activeOrders2), old(Abs()), doc)
    {
      ghost var log, p := Log(), WritePage(0, Abs(), doc).value.1;
      StartMerge(Abs(), view, doc, activeOrders2);
      PageBytes(p);
      MergeInto(doc, PageActions(activeOrders, doc), CurrentSlots(), activeOrders2,
                MergeGoal(Abs(), doc, activeOrders2));
      PageLog(log, p);
    }

    // ------------------------------------------------ one snapshot

    /** Between snapshots: the writer's invariant, and a reader that has followed it to the same position. */
    ghost predicate Valid()
      reads this, reader, reader.activeOrders
    {
      && current <= region.Length
      && reader.region == region && reader.Valid() && reader.pos == current
      && Linked(0, Abs(), view)
      && Shows(0, CurrentSlots(), view, reader.activeOrders[..])
    }

    /** The page loop: one page of the snapshot. */
    method NextDoc(doc: seq<Order>, ghost left: seq<seq<Order>>, ghost w: Writer, ghost log: seq<Byte>,
                   ghost g: SnapshotGoal)
      returns (ghost w1: Writer, ghost log1: seq<Byte>)
      requires current <= region.Length && |g.bytes| <= region.Length
      requires w == Abs() && log == Log() && DocsLeft(w, view, activeOrders2, [doc] + left, log, g)
      modifies region, this`current, this`index, this`freeList, this`activeOrders2, this`activeOrders, this`view
      ensures current <= region.Length
      ensures w1 == Abs() && log1 == Log() && DocsLeft(w1, view, activeOrders2, left, log1, g)
    {
      NoEmptyDoc(w, view, activeOrders2, doc, left, log, g);
      if doc == [] {
        assert false; // `readOrders` has dropped the empty pages, which the source skips here
      }
      AdvanceDoc(w, view, activeOrders2, doc, left, log, g);
      ghost var p := WritePage(0, w, doc).value.1;
      w1, log1 := WritePage(0, w, doc).value.0, log + EncodePage(p);
      MergePage(doc);
      view := PageView(view, doc);
    }

    method WriteFrameHeader(viewtime: U32, docCount: nat)
      requires current + 5 <= region.Length
      modifies region, this`current
      ensures current <= region.Length && Log() == old(Log()) + FrameHeader(viewtime, docCount)
      ensures Abs() == old(Abs()) && activeOrders2 == old(activeOrders2) && view == old(view)
    {
      FrameWords(viewtime, docCount);
      Associative(Log(), EncodeWord(4, viewtime), EncodeWord(1, docCount));
      Append(EncodeWord(4, viewtime));
      Append(EncodeWord(1, docCount));
    }

    /** The page loop (json_writer.cpp:250-410). */
    method WriteDocs(docs: seq<seq<Order>>, ghost w0: Writer, ghost log0: seq<Byte>, ghost g: SnapshotGoal)
      requires current <= region.Length && |g.bytes| <= region.Length
      requires w0 == Abs() && log0 == Log() && DocsLeft(w0, view, activeOrders2, docs, log0, g)
      modifies region, this`current, this`index, this`freeList, this`activeOrders2, this`activeOrders, this`view
      ensures current <= region.Length
      ensures Abs() == g.w && view == g.view && activeOrders2 == g.mirror && Log() == g.bytes
    {
      ghost var left, w, log := docs, w0, log0;
      for d := 0 to |docs|
        invariant left == docs[d..] && current <= region.Length
        invariant w == Abs() && log == Log()
        invariant DocsLeft(w, view, activeOrders2, left, log, g)
      {
        ghost var behind := docs[d + 1..];
        FirstOfDocs(docs, d);
        w, log := NextDoc(docs[d], behind, w, log, g);
        left := behind;
      }
      AllDocs(w, view, activeOrders2, log, g);
    }

    /** The reader's step, from where the snapshot starts to where the writer stands now. */
    method Replay(ghost start: nat, ghost t: Reader)
      requires current <= region.Length && reader.region == region && reader.Valid() && reader.pos == start
      requires start <= region.Length
      requires ReadSnapshot(Reader(reader.activeOrders[..], region[..][start..])) == Some(t)
      requires t.text == region[..][current..]
      modifies reader`pos, reader`viewtime, reader.activeOrders
      ensures reader.Valid() && reader.pos == current && reader.activeOrders[..] == t.slots
    {
      assert reader.Text() == region[..][start..];
      reader.Step();
      assert |reader.Text()| == |t.text|;
    }

    /** The comparison loop: only the common length, and every mismatch up to there (json_writer.cpp:425-440). */
    method Compare(readOrders: seq<Order>) returns (ok: bool)
      ensures ok <==> CheckPasses(readOrders, activeOrders)
    {
      var orderCount := if |readOrders| <= |activeOrders| then |readOrders| else |activeOrders|;
      var abort := false;
      for i := 0 to orderCount
        invariant abort <==> exists k :: 0 <= k < i && !EqualIgnoringIssued(readOrders[k], activeOrders[k])
      {
        if !EqualIgnoringIssued(readOrders[i], activeOrders[i]) {
          abort := true;
        }
      }
      ok := !abort;
    }

    /** Everything of a snapshot up to the reader's step (json_writer.cpp:243-410). */
    method WriteAll(viewtime: U32, docs: seq<seq<Order>>, ghost s: Snapshot, ghost w: Writer)
      requires s == Snapshot(viewtime, docs) && w == Abs()
      requires current <= region.Length && Linked(0, w, view) && SnapshotOk(w.book, s)
      requires PeakLive(w.book, docs) <= CAPACITY && w.slots.size <= CAPACITY
      requires WriteSnapshot(0, w, s).Some? && current + |WriteSnapshot(0, w, s).value.1| <= region.Length
      modifies region, this`current, this`index, this`freeList, this`activeOrders2, this`activeOrders, this`view
      ensures current <= region.Length
      ensures Abs() == WriteSnapshot(0, w, s).value.0 && |activeOrders2| <= CAPACITY
      ensures view == PagesView(old(view), docs)
      ensures activeOrders2 == MirrorPages(old(activeOrders2), w, docs)
      ensures Log() == old(Log()) + WriteSnapshot(0, w, s).value.1
    {
      ghost var log := Log();
      SnapshotKeeps(0, w, view, s);
      ghost var g := SnapshotGoal(WriteSnapshot(0, w, s).value.0, PagesView(view, docs),
                                  MirrorPages(activeOrders2, w, docs), log + WriteSnapshot(0, w, s).value.1);
      StartDocs(w, view, activeOrders2, s, log, g);
      WriteFrameHeader(viewtime, |docs|);
      WriteDocs(docs, w, log + FrameHeader(viewtime, |docs|), g);
    }

    /**
     One snapshot. Answers false where the source throws "order write/read mismatch": exactly when some live
     order no longer has the static fields it was first written with.
     */
    method Extract2(viewtime: U32, docs: seq<seq<Order>>) returns (ok: bool)
      requires Valid() && SnapshotOk(activeOrders, Snapshot(viewtime, docs))
      requires PeakLive(activeOrders, docs) <= CAPACITY && |activeOrders2| <= CAPACITY
      requires var r := WriteSnapshot(0, Abs(), Snapshot(viewtime, docs));
               r.Some? ==> current + |r.value.1| <= region.Length
      modifies region, this, reader, reader.activeOrders
      ensures Valid() && |activeOrders2| <= CAPACITY
      ensures activeOrders == FinalBook(old(activeOrders), docs) && view == PagesView(old(view), docs)
      ensures WriteSnapshot(0, old(Abs()), Snapshot(viewtime, docs)).Some?
      ensures Log() == old(Log()) + WriteSnapshot(0, old(Abs()), Snapshot(viewtime, docs)).value.1
      ensures activeOrders2 == MirrorPages(old(activeOrders2), old(Abs()), docs)
      ensures ok <==> StaticsHeld(activeOrders, view)
      ensures old(StaticsHeld(activeOrders, view)) && PagesHold(old(activeOrders), docs) ==> ok
      ensures (old(StaticsHeld(activeOrders, view) && Agrees(activeOrders2, reader.activeOrders[..]))
               && PagesHold(old(activeOrders), docs))
              ==> Agrees(activeOrders2, reader.activeOrders[..])
    {
      ghost var s, w, v, log, mirror := Snapshot(viewtime, docs), Abs(), view, Log(), activeOrders2;
      SnapshotKeeps(0, w, v, s);
      WriteAll(viewtime, docs, s, w);
      ghost var t := ReplayAhead(region[..], current, w, v, s, reader.activeOrders[..], log);
      if StaticsHeld(w.book, v) && PagesHold(w.book, docs) && Agrees(mirror, reader.activeOrders[..]) {
        AgreeAhead(region[..], current, w, v, mirror, s, reader.activeOrders[..], log, t);
      }
      Replay(|log|, t);
      var readOrders := SortById(Live(reader.activeOrders[..]));
      CheckExactly(0, Abs(), view, reader.activeOrders[..]);
      ok := Compare(readOrders);
      if StaticsHeld(w.book, v) && PagesHold(w.book, docs) {
        PagesAreOk(w.book, docs);
        PagesHoldStatics(w.book, v, docs);
      }
    }
  }
}
