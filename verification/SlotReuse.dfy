/**
 Which slots the log reuses, read off its bytes: freed slots are taken again first in, first out
 (json_writer.cpp:292-298, 340, 370-376, 396).
 */
module SlotReuse {
  import opened Wrappers
  import opened Orders
  import opened Codec
  import opened PageMerge
  import opened SlotAllocator
  import opened OrderLog
  import opened Snapshots
  import opened SlotNumbers

  // ------------------------------------------------ on records

  /** The slots of deleted orders, in the order of their records. */
  function Freed(es: seq<Event>): seq<int> {
    if es == [] then []
    else (if es[0].Patch? && es[0].volume == 0 then [es[0].slot] else []) + Freed(es[1..])
  }

  /** The slots in which new orders are written and which were in use before; `next` is the first that never was. */
  function Reused(next: int, es: seq<Event>): seq<int>
    decreases |es|
  {
    if es == [] then []
    else if es[0].Put? && es[0].slot == next then Reused(next + 1, es[1..])
    else (if es[0].Put? then [es[0].slot] else []) + Reused(next, es[1..])
  }

  /**
   The slots that are free before some records, and behind them those the records free, are the slots the records
   reuse, and behind them those that are free afterwards.
   */
  predicate Balanced(free: seq<int>, next: int, es: seq<Event>, left: seq<int>) {
    free + Freed(es) == Reused(next, es) + left
  }

  ghost predicate AllPositive(acts: seq<Action>) {
    forall i :: 0 <= i < |acts| ==> acts[i].order.volume > 0
  }

  /** Whatever actions are performed, slots are reused in the order in which they were freed. */
  lemma {:induction false} FirstInFirstOut(base: nat, s: Slots, acts: seq<Action>)
    requires WellFormed(base, s) && PerformAll(base, s, acts).Some? && AllPositive(acts)
    requires base + PerformAll(base, s, acts).value.0.size <= 0x8000_0000
    ensures var (t, es) := PerformAll(base, s, acts).value;
            Balanced(s.free, base + s.size, es, t.free)
    decreases |acts|
  {
    if acts == [] {
      NothingBalanced(s.free, base + s.size);
    } else {
      var s1 := FirstPerformed(base, s, acts);
      RestPositive(acts);
      FirstInFirstOut(base, s1, acts[1..]);
      var (t, es) := PerformAll(base, s1, acts[1..]).value;
      OneRecord(base, s, acts[0], es, t.free);
    }
  }

  lemma {:induction false} NothingBalanced(free: seq<int>, next: int)
    ensures Balanced(free, next, [], free)
  {
    assert free + [] == [] + free;
  }

  lemma {:induction false} RestPositive(acts: seq<Action>)
    requires acts != [] && AllPositive(acts)
    ensures acts[0].order.volume > 0 && AllPositive(acts[1..])
  {
  }

  lemma {:induction false} FirstPerformed(base: nat, s: Slots, acts: seq<Action>) returns (s1: Slots)
    requires WellFormed(base, s) && acts != [] && PerformAll(base, s, acts).Some?
    ensures Enabled(s.index.Keys, acts[0]) && s1 == Move(base, s, acts[0]) && WellFormed(base, s1)
    ensures PerformAll(base, s1, acts[1..]).Some?
    ensures var (t, es) := PerformAll(base, s1, acts[1..]).value;
            && PerformAll(base, s, acts).value == (t, [Record(Target(base, s, acts[0]), acts[0])] + es)
            && s1.size <= t.size
  {
    s1 := Perform(base, s, acts[0]).value.0;
    MoveKeeps(base, s, acts[0]);
    PerformAllKeeps(base, s1, acts[1..]);
  }

  /** The first record comes first. */
  lemma {:induction false} FirstRecord(e: Event, next: int, es: seq<Event>)
    ensures Freed([e] + es) == (if e.Patch? && e.volume == 0 then [e.slot] else []) + Freed(es)
    ensures e.Patch? ==> Reused(next, [e] + es) == Reused(next, es)
    ensures e.Put? && e.slot == next ==> Reused(next, [e] + es) == Reused(next + 1, es)
    ensures e.Put? && e.slot != next ==> Reused(next, [e] + es) == [e.slot] + Reused(next, es)
  {
    assert ([e] + es)[1..] == es;
  }

  lemma {:induction false} Shifted(a: seq<int>, b: seq<int>, c: seq<int>, d: seq<int>, x: int)
    requires a + b == c + d
    ensures ([x] + a) + b == ([x] + c) + d
  {
    assert ([x] + a) + b == [x] + (a + b) && ([x] + c) + d == [x] + (c + d);
  }

  lemma {:induction false} SlotOf(base: nat, s: Slots, a: Action)
    requires WellFormed(base, s) && Enabled(s.index.Keys, a) && base + Move(base, s, a).size <= 0x8000_0000
    ensures Target(base, s, a) < 0x8000_0000 && I32Of(Target(base, s, a)) == Target(base, s, a)
    ensures a.New? ==> (Target(base, s, a) == base + s.size <==> s.free == [])
  {
    MoveKeeps(base, s, a);
    if a.New? && s.free != [] {
      assert s.free[0] in Occupied(s.index, s.free);
    }
  }

  lemma {:induction false} Queued(a: seq<int>, k: int, b: seq<int>)
    ensures a + ([k] + b) == (a + [k]) + b
  {
  }

  lemma {:induction false} OneRecord(base: nat, s: Slots, a: Action, es: seq<Event>, free: seq<nat>)
    requires WellFormed(base, s) && Enabled(s.index.Keys, a) && a.order.volume > 0
    requires base + Move(base, s, a).size <= 0x8000_0000
    requires var s1 := Move(base, s, a); Balanced(s1.free, base + s1.size, es, free)
    ensures var e := Record(Target(base, s, a), a);
            Balanced(s.free, base + s.size, [e] + es, free)
  {
    SlotOf(base, s, a);
    match a
    case New(_) => NewRecord(base, s, a, es, free);
    case Change(_) => ChangeRecord(base, s, a, es, free);
    case Delete(_) => DeleteRecord(base, s, a, es, free);
  }

  lemma {:induction false} NewRecord(base: nat, s: Slots, a: Action, es: seq<Event>, free: seq<nat>)
    requires Enabled(s.index.Keys, a) && a.New? && I32Of(Target(base, s, a)) == Target(base, s, a)
    requires Target(base, s, a) == base + s.size <==> s.free == []
    requires var s1 := Move(base, s, a); Balanced(s1.free, base + s1.size, es, free)
    ensures var e := Record(Target(base, s, a), a);
            Balanced(s.free, base + s.size, [e] + es, free)
  {
    var k, next := Target(base, s, a), base + s.size;
    FirstRecord(Record(k, a), next, es);
    if s.free != [] {
      Shifted(s.free[1..], Freed(es), Reused(next, es), free, k);
      assert s.free == [k] + s.free[1..];
    }
  }

  lemma {:induction false} ChangeRecord(base: nat, s: Slots, a: Action, es: seq<Event>, free: seq<nat>)
    requires Enabled(s.index.Keys, a) && a.Change? && a.order.volume > 0
    requires Balanced(s.free, base + s.size, es, free)
    ensures var e := Record(Target(base, s, a), a);
            Balanced(s.free, base + s.size, [e] + es, free)
  {
    FirstRecord(Record(Target(base, s, a), a), base + s.size, es);
    assert [] + Freed(es) == Freed(es);
  }

  lemma {:induction false} DeleteRecord(base: nat, s: Slots, a: Action, es: seq<Event>, free: seq<nat>)
    requires Enabled(s.index.Keys, a) && a.Delete? && I32Of(Target(base, s, a)) == Target(base, s, a)
    requires var s1 := Move(base, s, a); Balanced(s1.free, base + s1.size, es, free)
    ensures var e := Record(Target(base, s, a), a);
            Balanced(s.free, base + s.size, [e] + es, free)
  {
    var k := Target(base, s, a);
    FirstRecord(Record(k, a), base + s.size, es);
    Queued(s.free, k, Freed(es));
  }

  // ------------------------------------------------ on bytes

  datatype Frame = Frame(viewtime: U32, pages: seq<Page>)

  /** `n` pages off a text. */
  function TakePages(decode: Decoder<Page>, n: nat, text: seq<Byte>): Option<(seq<Page>, seq<Byte>)> {
    if n == 0 then Some(([], text))
    else
      var p := decode(text);
      if p.None? then None
      else
        var r := TakePages(decode, n - 1, p.value.1);
        if r.None? then None else Some(([p.value.0] + r.value.0, r.value.1))
  }

  function TakeFrame(text: seq<Byte>): Option<(Frame, seq<Byte>)> {
    if |text| < Width(FRAME_WIDTHS) then None
    else
      var header := Unpack(FRAME_WIDTHS, text);
      var r := TakePages(DecodePage, PageCount(I8Of(header[1])), text[Width(FRAME_WIDTHS)..]);
      if r.None? then None else Some((Frame(U32Of(header[0]), r.value.0), r.value.1))
  }

  function TakeFrames(decode: Decoder<Frame>, n: nat, text: seq<Byte>): Option<(seq<Frame>, seq<Byte>)> {
    if n == 0 then Some(([], text))
    else
      var f := decode(text);
      if f.None? then None
      else
        var r := TakeFrames(decode, n - 1, f.value.1);
        if r.None? then None else Some(([f.value.0] + r.value.0, r.value.1))
  }

  lemma {:induction false} TakeConcat(decode: Decoder<Page>, chunks: seq<seq<Byte>>, ps: seq<Page>, rest: seq<Byte>)
    requires Decodes(decode, chunks, ps)
    ensures TakePages(decode, |ps|, Concat(chunks) + rest) == Some((ps, rest))
  {
    if ps == [] {
      assert Concat(chunks) + rest == rest;
    } else {
      var behind := Concat(chunks[1..]) + rest;
      Associative(chunks[0], Concat(chunks[1..]), rest);
      assert decode(chunks[0] + behind) == Some((ps[0], behind));
      TakeConcat(decode, chunks[1..], ps[1..], rest);
      assert [ps[0]] + ps[1..] == ps;
    }
  }

  lemma {:induction false} FrameRoundTrip(viewtime: U32, ps: seq<Page>, rest: seq<Byte>)
    requires |ps| < 0x80 && ValidPages(ps)
    ensures TakeFrame((FrameHeader(viewtime, |ps|) + EncodePages(ps)) + rest) == Some((Frame(viewtime, ps), rest))
  {
    var header, body, chunks := FrameHeader(viewtime, |ps|), EncodePages(ps) + rest, PageChunks(ps);
    Associative(header, EncodePages(ps), rest);
    FrameHeaderRoundTrip(viewtime, |ps|, body);
    Split(header, body);
    forall i, tail | 0 <= i < |chunks| ensures DecodePage(chunks[i] + tail) == Some((ps[i], tail)) {
      PageRoundTrip(ps[i], tail);
    }
    TakeConcat(DecodePage, chunks, ps, rest);
  }

  /** What the frames of a run hold: view time and pages of each snapshot. */
  function RunFrames(base: nat, w: Writer, run: seq<Snapshot>): seq<Frame>
    decreases |run|
  {
    if run == [] || WritePages(base, w, run[0].docs).None? then []
    else
      var (w1, ps) := WritePages(base, w, run[0].docs).value;
      [Frame(run[0].viewtime, ps)] + RunFrames(base, w1, run[1..])
  }

  ghost predicate DecodesFrames(decode: Decoder<Frame>) {
    forall viewtime: U32, ps, rest | |ps| < 0x80 && ValidPages(ps) ::
      decode((FrameHeader(viewtime, |ps|) + EncodePages(ps)) + rest) == Some((Frame(viewtime, ps), rest))
  }

  lemma {:induction false} FirstFrame(decode: Decoder<Frame>, base: nat, w: Writer, view: View, s: Snapshot,
                                      rest: seq<Byte>)
    requires DecodesFrames(decode) && Linked(base, w, view) && SnapshotOk(w.book, s)
    ensures WritePages(base, w, s.docs).Some? && WriteSnapshot(base, w, s).Some?
    ensures var (w1, ps) := WritePages(base, w, s.docs).value;
            var (w2, bytes) := WriteSnapshot(base, w, s).value;
            w1 == w2 && decode(bytes + rest) == Some((Frame(s.viewtime, ps), rest))
    ensures Linked(base, WriteSnapshot(base, w, s).value.0, PagesView(view, s.docs))
    ensures WriteSnapshot(base, w, s).value.0.book == FinalBook(w.book, s.docs)
  {
    SnapshotKeeps(base, w, view, s);
    PagesFrame(base, w, view, s.docs);
  }

  /** The log of a run is made up of these frames. */
  lemma {:induction false} LogDecodes(decode: Decoder<Frame>, base: nat, w: Writer, view: View, run: seq<Snapshot>,
                                      rest: seq<Byte>)
    requires DecodesFrames(decode) && Linked(base, w, view) && RunOk(w.book, run)
    ensures WriteRun(base, w, run).Some?
    ensures TakeFrames(decode, |run|, WriteRun(base, w, run).value.1 + rest) == Some((RunFrames(base, w, run), rest))
    decreases |run|
  {
    if run == [] {
      assert [] + rest == rest;
    } else {
      assert WriteRun(base, w, run).Some? by {
        RunKeeps(base, w, view, run);
      }
      WriteRunStep(base, w, run);
      var (w1, b1) := WriteSnapshot(base, w, run[0]).value;
      var b2 := WriteRun(base, w1, run[1..]).value.1;
      FirstFrame(decode, base, w, view, run[0], b2 + rest);
      LogDecodes(decode, base, w1, PagesView(view, run[0].docs), run[1..], rest);
      FramesJoined(decode, base, w, run, b1, b2, rest);
    }
  }

  /** The frames of a run are the first one and those of the later snapshots. */
  lemma {:induction false} FramesJoined(decode: Decoder<Frame>, base: nat, w: Writer, run: seq<Snapshot>,
                                        b1: seq<Byte>, b2: seq<Byte>, rest: seq<Byte>)
    requires run != [] && WritePages(base, w, run[0].docs).Some?
    requires var (w1, ps) := WritePages(base, w, run[0].docs).value;
             && decode(b1 + (b2 + rest)) == Some((Frame(run[0].viewtime, ps), b2 + rest))
             && TakeFrames(decode, |run[1..]|, b2 + rest) == Some((RunFrames(base, w1, run[1..]), rest))
    ensures TakeFrames(decode, |run|, (b1 + b2) + rest) == Some((RunFrames(base, w, run), rest))
  {
    var (w1, ps) := WritePages(base, w, run[0].docs).value;
    var f, fs := Frame(run[0].viewtime, ps), RunFrames(base, w1, run[1..]);
    TakeFirst(decode, |run[1..]|, b1, b2 + rest, f, fs, rest);
    Associative(b1, b2, rest);
    assert RunFrames(base, w, run) == [f] + fs;
  }

  lemma {:induction false} TakeFirst(decode: Decoder<Frame>, n: nat, chunk: seq<Byte>, behind: seq<Byte>, f: Frame,
                                     fs: seq<Frame>, rest: seq<Byte>)
    requires decode(chunk + behind) == Some((f, behind)) && TakeFrames(decode, n, behind) == Some((fs, rest))
    ensures TakeFrames(decode, n + 1, chunk + behind) == Some(([f] + fs, rest))
  {
  }

  /** A page carries the first and the last id of its document. */
  lemma {:induction false} PagesCarryIds(base: nat, w: Writer, docs: seq<seq<Order>>)
    requires WritePages(base, w, docs).Some? && forall i :: 0 <= i < |docs| ==> docs[i] != []
    ensures var ps := WritePages(base, w, docs).value.1;
            && |ps| == |docs|
            && forall i :: 0 <= i < |ps| ==> ps[i].first == docs[i][0].id && ps[i].last == docs[i][|docs[i]| - 1].id
    decreases |docs|
  {
    if docs != [] {
      PagesCarryIds(base, WritePage(base, w, docs[0]).value.0, docs[1..]);
    }
  }

  // ------------------------------------------------ over a run

  function PagesRecords(ps: seq<Page>): seq<Event> {
    if ps == [] then [] else ps[0].events + PagesRecords(ps[1..])
  }

  /** All records of a log, in the order in which they are written. */
  function Records(fs: seq<Frame>): seq<Event> {
    if fs == [] then [] else PagesRecords(fs[0].pages) + Records(fs[1..])
  }

  lemma {:induction false} PerformHead(base: nat, s: Slots, acts: seq<Action>, a: Action, rest: seq<Action>)
    requires acts == [a] + rest
    ensures PerformAll(base, s, acts).Some? <==>
            Perform(base, s, a).Some? && PerformAll(base, Perform(base, s, a).value.0, rest).Some?
    ensures PerformAll(base, s, acts).Some? ==>
              var (s1, e) := Perform(base, s, a).value;
              PerformAll(base, s, acts).value ==
              (PerformAll(base, s1, rest).value.0, [e] + PerformAll(base, s1, rest).value.1)
  {
    assert acts[1..] == rest;
  }

  lemma {:induction false} EventsInTurn(base: nat, s: Slots, a: seq<Action>, b: seq<Action>)
    requires PerformAll(base, s, a).Some? && PerformAll(base, PerformAll(base, s, a).value.0, b).Some?
    ensures PerformAll(base, s, a + b).Some?
    ensures PerformAll(base, s, a + b).value.1 ==
            PerformAll(base, s, a).value.1 + PerformAll(base, PerformAll(base, s, a).value.0, b).value.1
    decreases |a|
  {
    if a == [] {
      assert a + b == b;
    } else {
      var s1 := Perform(base, s, a[0]).value.0;
      PerformHead(base, s, a, a[0], a[1..]);
      EventsInTurn(base, s1, a[1..], b);
      assert a + b == [a[0]] + (a[1..] + b);
      PerformHead(base, s, a + b, a[0], a[1..] + b);
    }
  }

  lemma {:induction false} PagesEvents(base: nat, w: Writer, docs: seq<seq<Order>>)
    requires WritePages(base, w, docs).Some?
    ensures PerformAll(base, w.slots, PagesActions(w.book, docs)).Some?
    ensures PagesRecords(WritePages(base, w, docs).value.1) ==
            PerformAll(base, w.slots, PagesActions(w.book, docs)).value.1
    decreases |docs|
  {
    PagesPerform(base, w, docs);
    if docs != [] {
      if docs[0] == [] {
        PagesEvents(base, w, docs[1..]);
      } else {
        var w1 := WritePage(base, w, docs[0]).value.0;
        PagesEvents(base, w1, docs[1..]);
        EventsInTurn(base, w.slots, PageActions(w.book, docs[0]), PagesActions(w1.book, docs[1..]));
      }
    }
  }

  lemma {:induction false} RunEvents(base: nat, w: Writer, run: seq<Snapshot>)
    requires WriteRun(base, w, run).Some?
    ensures PerformAll(base, w.slots, RunActions(w.book, run)).Some?
    ensures Records(RunFrames(base, w, run)) == PerformAll(base, w.slots, RunActions(w.book, run)).value.1
    decreases |run|
  {
    RunPerforms(base, w, run);
    if run != [] {
      var w1 := WriteSnapshot(base, w, run[0]).value.0;
      PagesBook(base, w, run[0].docs);
      PagesPerform(base, w, run[0].docs);
      PagesEvents(base, w, run[0].docs);
      RunEvents(base, w1, run[1..]);
      EventsInTurn(base, w.slots, PagesActions(w.book, run[0].docs), RunActions(w1.book, run[1..]));
    }
  }

  ghost predicate BookOk(book: seq<Order>) {
    SortedById(book) && forall i :: 0 <= i < |book| ==> book[i].volume > 0
  }

  lemma {:induction false} PagePositive(book: seq<Order>, page: seq<Order>)
    requires BookOk(book) && PageOk(page)
    ensures BookOk(NewBook(book, page)) && AllPositive(PageActions(book, page))
  {
    ActionOrders(book, page);
    PageReplacesInterval(book, page);
  }

  lemma {:induction false} PagesPositive(book: seq<Order>, docs: seq<seq<Order>>)
    requires BookOk(book) && DocsOk(docs)
    ensures BookOk(FinalBook(book, docs)) && AllPositive(PagesActions(book, docs))
    decreases |docs|
  {
    if docs != [] {
      PagePositive(book, docs[0]);
      PagesPositive(NewBook(book, docs[0]), docs[1..]);
    }
  }

  lemma {:induction false} RunPositive(book: seq<Order>, run: seq<Snapshot>)
    requires BookOk(book) && RunOk(book, run)
    ensures AllPositive(RunActions(book, run))
    decreases |run|
  {
    if run != [] {
      PagesAreOk(book, run[0].docs);
      PagesPositive(book, run[0].docs);
      RunPositive(FinalBook(book, run[0].docs), run[1..]);
    }
  }

  /**
   In the log of every run, slots are reused in the order in which they were freed: the slots of the delete records
   are those that records of new orders reuse, and behind them the free list, in this order.
   */
  lemma {:induction false} RunReusesFirstFreed(base: nat, run: seq<Snapshot>, rest: seq<Byte>)
    requires RunOk([], run) && base + RunPeak([], run) <= 0x8000_0000
    ensures WriteRun(base, NO_ORDERS, run).Some?
    ensures var (w, bytes) := WriteRun(base, NO_ORDERS, run).value;
            var log := TakeFrames(TakeFrame, |run|, bytes + rest);
            && log.Some? && log.value.1 == rest
            && Freed(Records(log.value.0)) == Reused(base, Records(log.value.0)) + w.slots.free
  {
    NothingWrittenYet(base);
    RunKeeps(base, NO_ORDERS, map[], run);
    FramesDecode();
    LogDecodes(TakeFrame, base, NO_ORDERS, map[], run, rest);
    RunRecycles(base, run);
  }

  lemma {:induction false} FramesDecode()
    ensures DecodesFrames(TakeFrame)
  {
    forall viewtime: U32, ps, rest | |ps| < 0x80 && ValidPages(ps)
      ensures TakeFrame((FrameHeader(viewtime, |ps|) + EncodePages(ps)) + rest) == Some((Frame(viewtime, ps), rest))
    {
      FrameRoundTrip(viewtime, ps, rest);
    }
  }

  lemma {:induction false} RunRecycles(base: nat, run: seq<Snapshot>)
    requires RunOk([], run) && WellFormed(base, NO_SLOTS) && WriteRun(base, NO_ORDERS, run).Some?
    requires base + WriteRun(base, NO_ORDERS, run).value.0.slots.size <= 0x8000_0000
    ensures var es := Records(RunFrames(base, NO_ORDERS, run));
            Freed(es) == Reused(base, es) + WriteRun(base, NO_ORDERS, run).value.0.slots.free
  {
    RunPerforms(base, NO_ORDERS, run);
    RunEvents(base, NO_ORDERS, run);
    RunPositive([], run);
    FromNothing(base, RunActions([], run));
  }

  lemma {:induction false} FromNothing(base: nat, acts: seq<Action>)
    requires WellFormed(base, NO_SLOTS) && PerformAll(base, NO_SLOTS, acts).Some? && AllPositive(acts)
    requires base + PerformAll(base, NO_SLOTS, acts).value.0.size <= 0x8000_0000
    ensures var (t, es) := PerformAll(base, NO_SLOTS, acts).value;
            Freed(es) == Reused(base, es) + t.free
  {
    FirstInFirstOut(base, NO_SLOTS, acts);
    var freed := Freed(PerformAll(base, NO_SLOTS, acts).value.1);
    assert [] + freed == freed;
  }
}
