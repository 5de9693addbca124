/**
 Runs of snapshots through the byte log, and the comparison that ends every snapshot
 (json_writer.cpp:230-441, json_reader.cpp:204-221).
 */
module Snapshots {
  import opened Wrappers
  import opened Orders
  import opened Codec
  import opened PageMerge
  import opened SlotAllocator
  import opened Replay
  import opened OrderLog

  datatype Snapshot = Snapshot(viewtime: U32, docs: seq<seq<Order>>)

  /** The page count fits its signed byte and every page is in order. */
  ghost predicate SnapshotOk(book: seq<Order>, s: Snapshot) {
    |s.docs| < 0x80 && PagesOk(book, s.docs)
  }

  // ------------------------------------------------ all pages of one snapshot

  ghost predicate DocsOk(docs: seq<seq<Order>>) {
    docs == [] || (PageOk(docs[0]) && DocsOk(docs[1..]))
  }

  lemma {:induction false} PagesAreOk(book: seq<Order>, docs: seq<seq<Order>>)
    requires PagesOk(book, docs)
    ensures DocsOk(docs)
    decreases |docs|
  {
    if docs != [] {
      PagesAreOk(NewBook(book, docs[0]), docs[1..]);
    }
  }

  // What holds before a page and is kept by one page is kept by all pages. The induction over the pages
  // needs no more than that, so it is done once, for any invariant.

  type Invariant = (Writer, View) -> bool

  ghost predicate Kept(base: nat, inv: Invariant) {
    forall w, view, page :: inv(w, view) && PageOk(page) ==>
      WritePage(base, w, page).Some? && inv(WritePage(base, w, page).value.0, PageView(view, page))
  }

  lemma {:induction false} KeptByPages(base: nat, inv: Invariant, w: Writer, view: View, docs: seq<seq<Order>>)
    requires Kept(base, inv) && inv(w, view) && DocsOk(docs)
    ensures WritePages(base, w, docs).Some?
    ensures inv(WritePages(base, w, docs).value.0, PagesView(view, docs))
    decreases |docs|
  {
    if docs != [] {
      KeptByPages(base, inv, WritePage(base, w, docs[0]).value.0, PageView(view, docs[0]), docs[1..]);
    }
  }

  ghost function LinkedAt(base: nat): Invariant {
    (w: Writer, view: View) => Linked(base, w, view)
  }

  lemma {:induction false} LinkedIsKept(base: nat)
    ensures Kept(base, LinkedAt(base))
  {
    forall w, view, page | LinkedAt(base)(w, view) && PageOk(page)
      ensures WritePage(base, w, page).Some?
      ensures LinkedAt(base)(WritePage(base, w, page).value.0, PageView(view, page))
    {
      PageKeeps(base, w, view, page);
    }
  }

  /** All pages: no lookup throws and the invariant is kept. */
  lemma {:induction false} PagesKeep(base: nat, w: Writer, view: View, docs: seq<seq<Order>>)
    requires Linked(base, w, view) && DocsOk(docs)
    ensures WritePages(base, w, docs).Some?
    ensures Linked(base, WritePages(base, w, docs).value.0, PagesView(view, docs))
  {
    LinkedIsKept(base);
    assert LinkedAt(base)(w, view);
    KeptByPages(base, LinkedAt(base), w, view, docs);
  }

  lemma {:induction false} PagesBook(base: nat, w: Writer, docs: seq<seq<Order>>)
    requires WritePages(base, w, docs).Some?
    ensures WritePages(base, w, docs).value.0.book == FinalBook(w.book, docs)
    decreases |docs|
  {
    if docs != [] {
      PagesBook(base, if docs[0] == [] then w else WritePage(base, w, docs[0]).value.0, docs[1..]);
    }
  }

  /** Facts about one page, for every writer the invariant allows. */
  ghost predicate Sized(base: nat, inv: Invariant) {
    && (forall w, view :: inv(w, view) ==> |w.book| <= w.slots.size)
    && (forall w, view, page :: inv(w, view) && PageOk(page) && WritePage(base, w, page).Some? ==>
          WritePage(base, w, page).value.0.slots.size ==
          Max(w.slots.size, Peak(|w.book|, PageActions(w.book, page))))
  }

  lemma {:induction false} SizeOfPages(base: nat, inv: Invariant, w: Writer, view: View, docs: seq<seq<Order>>)
    requires Kept(base, inv) && Sized(base, inv) && inv(w, view) && DocsOk(docs)
    requires WritePages(base, w, docs).Some?
    ensures WritePages(base, w, docs).value.0.slots.size == Max(w.slots.size, PeakLive(w.book, docs))
    decreases |docs|
  {
    if docs != [] {
      SizeOfPages(base, inv, WritePage(base, w, docs[0]).value.0, PageView(view, docs[0]), docs[1..]);
    }
  }

  lemma {:induction false} LinkedIsSized(base: nat)
    ensures Sized(base, LinkedAt(base))
  {
    forall w, view | LinkedAt(base)(w, view) ensures |w.book| <= w.slots.size {
      LiveAreSlots(base, w, view);
    }
    forall w, view, page | LinkedAt(base)(w, view) && PageOk(page) && WritePage(base, w, page).Some?
      ensures WritePage(base, w, page).value.0.slots.size ==
              Max(w.slots.size, Peak(|w.book|, PageActions(w.book, page)))
    {
      PageSize(base, w, view, page);
    }
  }

  lemma {:induction false} PagesSize(base: nat, w: Writer, view: View, docs: seq<seq<Order>>)
    requires Linked(base, w, view) && DocsOk(docs) && WritePages(base, w, docs).Some?
    ensures WritePages(base, w, docs).value.0.slots.size == Max(w.slots.size, PeakLive(w.book, docs))
  {
    LinkedIsKept(base);
    LinkedIsSized(base);
    assert LinkedAt(base)(w, view);
    SizeOfPages(base, LinkedAt(base), w, view, docs);
  }

  ghost predicate ValidPages(pages: seq<Page>) {
    forall i :: 0 <= i < |pages| ==> ValidPage(pages[i])
  }

  lemma {:induction false} ValidPagesCons(p: Page, ps: seq<Page>)
    requires ValidPage(p) && ValidPages(ps)
    ensures ValidPages([p] + ps)
  {
  }

  ghost predicate Framed(base: nat, inv: Invariant) {
    forall w, view, page | inv(w, view) && PageOk(page) && WritePage(base, w, page).Some? ::
      RecordBytes(PageActions(w.book, page)) < 0x8000_0000 ==> ValidPage(WritePage(base, w, page).value.1)
  }

  lemma {:induction false} FrameOfPages(base: nat, inv: Invariant, w: Writer, view: View, docs: seq<seq<Order>>)
    requires Kept(base, inv) && Framed(base, inv) && inv(w, view) && PagesOk(w.book, docs)
    requires WritePages(base, w, docs).Some?
    ensures |WritePages(base, w, docs).value.1| == |docs|
    ensures ValidPages(WritePages(base, w, docs).value.1)
    decreases |docs|
  {
    if docs != [] {
      var (w1, p) := WritePage(base, w, docs[0]).value;
      FrameOfPages(base, inv, w1, PageView(view, docs[0]), docs[1..]);
      ValidPagesCons(p, WritePages(base, w1, docs[1..]).value.1);
    }
  }

  /** The pages can be framed: one for each document, each within its size field. */
  lemma {:induction false} PagesFrame(base: nat, w: Writer, view: View, docs: seq<seq<Order>>)
    requires Linked(base, w, view) && PagesOk(w.book, docs) && WritePages(base, w, docs).Some?
    ensures |WritePages(base, w, docs).value.1| == |docs|
    ensures ValidPages(WritePages(base, w, docs).value.1)
  {
    LinkedIsKept(base);
    forall w, view, page | LinkedAt(base)(w, view) && PageOk(page)
                           && RecordBytes(PageActions(w.book, page)) < 0x8000_0000
                           && WritePage(base, w, page).Some?
      ensures ValidPage(WritePage(base, w, page).value.1)
    {
      PageRecords(base, w, view, page);
    }
    assert LinkedAt(base)(w, view);
    FrameOfPages(base, LinkedAt(base), w, view, docs);
  }

  lemma {:induction false} LiveAreSlots(base: nat, w: Writer, view: View)
    requires Linked(base, w, view)
    ensures |w.book| <= w.slots.size
  {
    IdCount(w.book);
    assert |w.slots.index.Keys| == |w.book|;
  }

  /** What the slots of a reader must be after the writer got to `w`, or that it ran out of slots. */
  ghost predicate Follows(base: nat, w: Writer, view: View, capacity: nat, slots: Option<seq<Order>>) {
    if base + w.slots.size <= capacity then
      slots.Some? && |slots.value| == capacity && Shows(base, w.slots, view, slots.value)
    else
      slots.None?
  }

  /** A reader's slot array goes along with the writer, or the writer has run out of the reader's slots. */
  type Following = (Writer, View, seq<Order>) -> bool

  ghost predicate Followed(base: nat, inv: Invariant, capacity: nat, follows: Following) {
    forall w, view, page, slots {:trigger follows(w, view, slots), PageOk(page)} |
      inv(w, view) && follows(w, view, slots) && PageOk(page)
                                  && WritePage(base, w, page).Some? ::
      var (w1, p) := WritePage(base, w, page).value;
      var r := ApplyAll(slots, p.events);
      if base + w1.slots.size <= capacity then r.Some? && follows(w1, PageView(view, page), r.value)
      else r.None?
  }

  ghost predicate FollowsOrFails(base: nat, w: Writer, view: View, capacity: nat, follows: Following,
                                 slots: Option<seq<Order>>)
  {
    if base + w.slots.size <= capacity then slots.Some? && follows(w, view, slots.value) else slots.None?
  }

  lemma {:induction false} FollowedByPages(base: nat, inv: Invariant, capacity: nat, follows: Following, w: Writer,
                                           view: View, docs: seq<seq<Order>>, slots: seq<Order>)
    requires Kept(base, inv) && Sized(base, inv) && Followed(base, inv, capacity, follows)
    requires inv(w, view) && follows(w, view, slots) && base + w.slots.size <= capacity
    requires DocsOk(docs) && WritePages(base, w, docs).Some?
    ensures var (w', pages) := WritePages(base, w, docs).value;
            FollowsOrFails(base, w', PagesView(view, docs), capacity, follows, ApplyPages(slots, pages))
    decreases |docs|
  {
    if docs != [] {
      var (w1, p) := WritePage(base, w, docs[0]).value;
      var v1 := PageView(view, docs[0]);
      assert inv(w1, v1);
      ApplyPagesCons(slots, p, WritePages(base, w1, docs[1..]).value.1);
      if base + w1.slots.size <= capacity {
        FollowedByPages(base, inv, capacity, follows, w1, v1, docs[1..], ApplyAll(slots, p.events).value);
      } else {
        SizeOfPages(base, inv, w1, v1, docs[1..]);
      }
    }
  }

  ghost function ShowsAt(base: nat, capacity: nat): Following {
    (w: Writer, view: View, slots: seq<Order>) => |slots| == capacity && Shows(base, w.slots, view, slots)
  }

  lemma {:induction false} PagesReplay(base: nat, w: Writer, view: View, docs: seq<seq<Order>>, slots: seq<Order>)
    requires Linked(base, w, view) && DocsOk(docs) && WritePages(base, w, docs).Some?
    requires Shows(base, w.slots, view, slots) && |slots| < 0x8000_0000
    ensures var (w', pages) := WritePages(base, w, docs).value;
            Follows(base, w', PagesView(view, docs), |slots|, ApplyPages(slots, pages))
  {
    var inv, follows := LinkedAt(base), ShowsAt(base, |slots|);
    LinkedIsKept(base);
    LinkedIsSized(base);
    ShowsIsFollowed(base, |slots|);
    assert inv(w, view) && follows(w, view, slots);
    FollowedByPages(base, inv, |slots|, follows, w, view, docs, slots);
  }

  lemma {:induction false} ShowsIsFollowed(base: nat, capacity: nat)
    requires capacity < 0x8000_0000
    ensures Followed(base, LinkedAt(base), capacity, ShowsAt(base, capacity))
  {
    forall w, view, page, slots {:trigger ShowsAt(base, capacity)(w, view, slots), PageOk(page)}
      | LinkedAt(base)(w, view) && ShowsAt(base, capacity)(w, view, slots)
                                  && PageOk(page) && WritePage(base, w, page).Some?
      ensures var (w1, p) := WritePage(base, w, page).value;
              var r := ApplyAll(slots, p.events);
              if base + w1.slots.size <= capacity then
                r.Some? && ShowsAt(base, capacity)(w1, PageView(view, page), r.value)
              else r.None?
    {
      PageReplays(base, w, view, page, slots);
      if ApplyAll(slots, WritePage(base, w, page).value.1.events).Some? {
        ApplyAllLength(slots, WritePage(base, w, page).value.1.events);
      }
    }
  }

  lemma {:induction false} ApplyAllLength(slots: seq<Order>, es: seq<Event>)
    requires ApplyAll(slots, es).Some?
    ensures |ApplyAll(slots, es).value| == |slots|
    decreases |es|
  {
    if es != [] {
      ApplyAllLength(Apply(slots, es[0]).value, es[1..]);
    }
  }

  lemma {:induction false} ApplyPagesCons(slots: seq<Order>, p: Page, ps: seq<Page>)
    ensures ApplyPages(slots, [p] + ps) ==
            if ApplyAll(slots, p.events).None? then None else ApplyPages(ApplyAll(slots, p.events).value, ps)
  {
    assert ([p] + ps)[1..] == ps;
  }

  // ------------------------------------------------ snapshots as bytes

  /** `extract2` up to the comparison: the header counts all documents, empty ones too. */
  function WriteSnapshot(base: nat, w: Writer, s: Snapshot): Option<(Writer, seq<Byte>)> {
    var r := WritePages(base, w, s.docs);
    if r.None? then None
    else Some((r.value.0, FrameHeader(s.viewtime, |s.docs|) + EncodePages(r.value.1)))
  }

  datatype Reader = Reader(slots: seq<Order>, text: seq<Byte>)

  /** One page off the text, applied; `None` where the reader would leave the text or the slot array. */
  function ReadPage(r: Reader): Option<Reader> {
    var d := DecodePage(r.text);
    if d.None? then None
    else
      var slots := ApplyAll(r.slots, d.value.0.events);
      if slots.None? then None else Some(Reader(slots.value, d.value.1))
  }

  /** `n` steps, or none where a step fails. */
  function Repeat(step: Reader -> Option<Reader>, n: nat, r: Reader): Option<Reader> {
    if n == 0 then Some(r)
    else
      var t := step(r);
      if t.None? then None else Repeat(step, n - 1, t.value)
  }

  lemma {:induction false} RepeatStep(step: Reader -> Option<Reader>, n: nat, less: nat, r: Reader)
    requires n == less + 1 && Repeat(step, n, r).Some?
    ensures step(r).Some? && Repeat(step, n, r) == Repeat(step, less, step(r).value)
  {
  }

  /** A negative page count skips the page loop. */
  function PageCount(docCount: I8): nat {
    if docCount < 0 then 0 else docCount
  }

  /** `OrderReader::step`. */
  function ReadSnapshot(r: Reader): Option<Reader> {
    if |r.text| < Width(FRAME_WIDTHS) then None
    else
      var header := Unpack(FRAME_WIDTHS, r.text);
      Repeat(ReadPage, PageCount(I8Of(header[1])), r.(text := r.text[Width(FRAME_WIDTHS)..]))
  }

  lemma {:induction false} RepeatShrinks(step: Reader -> Option<Reader>, n: nat, r: Reader)
    requires forall q :: step(q).Some? ==> |step(q).value.text| + 20 <= |q.text|
    ensures Repeat(step, n, r).Some? ==> |Repeat(step, n, r).value.text| + 20 * n <= |r.text|
  {
    if n > 0 && step(r).Some? {
      RepeatShrinks(step, n - 1, step(r).value);
    }
  }

  /** A step that succeeds takes at least the two kinds of headers off the text. */
  lemma {:induction false} StepShrinks(r: Reader)
    ensures ReadSnapshot(r).Some? ==>
              var count := PageCount(I8Of(Unpack(FRAME_WIDTHS, r.text)[1]));
              |ReadSnapshot(r).value.text| + 5 + 20 * count <= |r.text|
  {
    if ReadSnapshot(r).Some? {
      RecordWidths();
      forall q | ReadPage(q).Some? ensures |ReadPage(q).value.text| + 20 <= |q.text| {
        PageShrinks(q.text);
      }
      var count := PageCount(I8Of(Unpack(FRAME_WIDTHS, r.text)[1]));
      RepeatShrinks(ReadPage, count, r.(text := r.text[Width(FRAME_WIDTHS)..]));
    }
  }

  /** A frame whose page count is negative as a signed byte is taken for one without pages. */
  lemma {:induction false} NegativeCountSkips(r: Reader)
    requires |r.text| >= 5 && r.text[4] >= 0x80
    ensures ReadSnapshot(r) == Some(r.(text := r.text[5..]))
  {
    RecordWidths();
    var tail := r.text[4..];
    assert FRAME_WIDTHS[1..] == [1] && [1][1..] == [];
    assert tail[..1] == [r.text[4]] && [r.text[4]][1..] == [];
    assert Unpack(FRAME_WIDTHS, r.text)[1] == Unpack([1], tail)[0] == DecodeWord(tail[..1]) == r.text[4];
  }

  function Left(slots: Option<seq<Order>>, rest: seq<Byte>): Option<Reader> {
    if slots.None? then None else Some(Reader(slots.value, rest))
  }

  /** Each chunk is what `step` needs to apply the page, whatever follows the chunk. */
  ghost predicate Steps(step: Reader -> Option<Reader>, chunks: seq<seq<Byte>>, ps: seq<Page>) {
    && |chunks| == |ps|
    && forall i, slots, rest :: 0 <= i < |ps| ==>
         step(Reader(slots, chunks[i] + rest)) == Left(ApplyAll(slots, ps[i].events), rest)
  }

  lemma {:induction false} RepeatConcat(step: Reader -> Option<Reader>, chunks: seq<seq<Byte>>, ps: seq<Page>,
                                        slots: seq<Order>, rest: seq<Byte>)
    requires Steps(step, chunks, ps)
    ensures Repeat(step, |ps|, Reader(slots, Concat(chunks) + rest)) == Left(ApplyPages(slots, ps), rest)
  {
    if ps == [] {
      assert Concat(chunks) + rest == rest;
    } else {
      var behind := Concat(chunks[1..]) + rest;
      Associative(chunks[0], Concat(chunks[1..]), rest);
      assert step(Reader(slots, chunks[0] + behind)) == Left(ApplyAll(slots, ps[0].events), behind);
      var s := ApplyAll(slots, ps[0].events);
      if s.Some? {
        RepeatConcat(step, chunks[1..], ps[1..], s.value, rest);
      }
    }
  }

  /** Reading back encoded pages applies them one after the other and stops behind them. */
  lemma {:induction false} ReadEncodedPages(ps: seq<Page>, slots: seq<Order>, rest: seq<Byte>)
    requires ValidPages(ps)
    ensures Repeat(ReadPage, |ps|, Reader(slots, EncodePages(ps) + rest)) == Left(ApplyPages(slots, ps), rest)
  {
    var chunks := PageChunks(ps);
    forall i, slots, rest | 0 <= i < |ps|
      ensures ReadPage(Reader(slots, chunks[i] + rest)) == Left(ApplyAll(slots, ps[i].events), rest)
    {
      PageRoundTrip(ps[i], rest);
    }
    RepeatConcat(ReadPage, chunks, ps, slots, rest);
  }

  lemma {:induction false} ReadEncodedSnapshot(viewtime: U32, ps: seq<Page>, slots: seq<Order>, rest: seq<Byte>)
    requires |ps| < 0x80 && ValidPages(ps)
    ensures ReadSnapshot(Reader(slots, (FrameHeader(viewtime, |ps|) + EncodePages(ps)) + rest)) ==
            Left(ApplyPages(slots, ps), rest)
  {
    var header, body := FrameHeader(viewtime, |ps|), EncodePages(ps) + rest;
    Associative(header, EncodePages(ps), rest);
    FrameHeaderRoundTrip(viewtime, |ps|, body);
    Split(header, body);
    ReadEncodedPages(ps, slots, rest);
  }

  lemma {:induction false} SnapshotKeeps(base: nat, w: Writer, view: View, s: Snapshot)
    requires Linked(base, w, view) && SnapshotOk(w.book, s)
    ensures WriteSnapshot(base, w, s).Some?
    ensures var w' := WriteSnapshot(base, w, s).value.0;
            && Linked(base, w', PagesView(view, s.docs))
            && w'.book == FinalBook(w.book, s.docs)
            && w'.slots.size == Max(w.slots.size, PeakLive(w.book, s.docs))
  {
    PagesAreOk(w.book, s.docs);
    PagesKeep(base, w, view, s.docs);
    PagesBook(base, w, s.docs);
    PagesSize(base, w, view, s.docs);
  }

  /**
   One snapshot: the reader consumes exactly the bytes the writer produced, whatever follows them, and
   shows the new view; it leaves its slot array exactly when the writer has used more slots than it has.
   */
  lemma {:induction false} SnapshotReplays(base: nat, w: Writer, view: View, s: Snapshot, slots: seq<Order>,
                                           rest: seq<Byte>)
    requires Linked(base, w, view) && SnapshotOk(w.book, s)
    requires Shows(base, w.slots, view, slots) && |slots| < 0x8000_0000
    ensures WriteSnapshot(base, w, s).Some?
    ensures var (w', bytes) := WriteSnapshot(base, w, s).value;
            var r := ReadSnapshot(Reader(slots, bytes + rest));
            && Follows(base, w', PagesView(view, s.docs), |slots|, SlotsOf(r))
            && (r.Some? ==> r.value.text == rest)
  {
    PagesAreOk(w.book, s.docs);
    PagesKeep(base, w, view, s.docs);
    PagesReplay(base, w, view, s.docs, slots);
    PagesFrame(base, w, view, s.docs);
    ReadEncodedSnapshot(s.viewtime, WritePages(base, w, s.docs).value.1, slots, rest);
  }

  // ------------------------------------------------ runs

  ghost predicate RunOk(book: seq<Order>, run: seq<Snapshot>)
    decreases |run|
  {
    run == [] || (SnapshotOk(book, run[0]) && RunOk(FinalBook(book, run[0].docs), run[1..]))
  }

  function WriteRun(base: nat, w: Writer, run: seq<Snapshot>): Option<(Writer, seq<Byte>)>
    decreases |run|
  {
    if run == [] then Some((w, []))
    else
      var r := WriteSnapshot(base, w, run[0]);
      if r.None? then None
      else
        var t := WriteRun(base, r.value.0, run[1..]);
        if t.None? then None else Some((t.value.0, r.value.1 + t.value.1))
  }

  function ReadRun(n: nat, r: Reader): Option<Reader> {
    if n == 0 then Some(r)
    else
      var t := ReadSnapshot(r);
      if t.None? then None else ReadRun(n - 1, t.value)
  }

  ghost function RunView(view: View, run: seq<Snapshot>): View
    decreases |run|
  {
    if run == [] then view else RunView(PagesView(view, run[0].docs), run[1..])
  }

  function RunBook(book: seq<Order>, run: seq<Snapshot>): seq<Order>
    decreases |run|
  {
    if run == [] then book else RunBook(FinalBook(book, run[0].docs), run[1..])
  }

  /** The most orders live at once in the whole run. */
  function RunPeak(book: seq<Order>, run: seq<Snapshot>): nat
    decreases |run|
  {
    if run == [] then |book|
    else Max(PeakLive(book, run[0].docs), RunPeak(FinalBook(book, run[0].docs), run[1..]))
  }

  lemma {:induction false} RunKeeps(base: nat, w: Writer, view: View, run: seq<Snapshot>)
    requires Linked(base, w, view) && RunOk(w.book, run)
    ensures WriteRun(base, w, run).Some?
    ensures var w' := WriteRun(base, w, run).value.0;
            && Linked(base, w', RunView(view, run))
            && w'.book == RunBook(w.book, run)
            && w'.slots.size == Max(w.slots.size, RunPeak(w.book, run))
    decreases |run|
  {
    if run == [] {
      LiveAreSlots(base, w, view);
    } else {
      SnapshotKeeps(base, w, view, run[0]);
      RunKeeps(base, WriteSnapshot(base, w, run[0]).value.0, PagesView(view, run[0].docs), run[1..]);
    }
  }

  /** The first snapshot of a run is written, and read, before the others. */
  lemma {:induction false} WriteRunStep(base: nat, w: Writer, run: seq<Snapshot>)
    requires run != [] && WriteRun(base, w, run).Some?
    ensures WriteSnapshot(base, w, run[0]).Some?
    ensures var (w1, b1) := WriteSnapshot(base, w, run[0]).value;
            && WriteRun(base, w1, run[1..]).Some?
            && WriteRun(base, w, run).value ==
               (WriteRun(base, w1, run[1..]).value.0, b1 + WriteRun(base, w1, run[1..]).value.1)
  {
  }

  lemma {:induction false} ReadRunStep(n: nat, r: Reader, t: Reader)
    requires n > 0 && ReadSnapshot(r) == Some(t)
    ensures ReadRun(n, r) == ReadRun(n - 1, t)
  {
  }

  ghost function SlotsOf(r: Option<Reader>): Option<seq<Order>> {
    if r.Some? then Some(r.value.slots) else None
  }

  /** The first snapshot of a run, whatever the bytes of the later ones are. */
  lemma {:induction false} FirstSnapshot(base: nat, w: Writer, view: View, run: seq<Snapshot>, slots: seq<Order>,
                                         tail: seq<Byte>)
    requires Linked(base, w, view) && run != [] && RunOk(w.book, run)
    requires Shows(base, w.slots, view, slots) && |slots| < 0x8000_0000
    ensures WriteSnapshot(base, w, run[0]).Some?
    ensures var (w1, bytes) := WriteSnapshot(base, w, run[0]).value;
            var r := ReadSnapshot(Reader(slots, bytes + tail));
            && Linked(base, w1, PagesView(view, run[0].docs))
            && RunOk(w1.book, run[1..])
            && Follows(base, w1, PagesView(view, run[0].docs), |slots|, SlotsOf(r))
            && (r.Some? ==> r.value.text == tail)
            && ReadRun(|run|, Reader(slots, bytes + tail)) ==
               if r.None? then None else ReadRun(|run[1..]|, r.value)
  {
    SnapshotKeeps(base, w, view, run[0]);
    SnapshotReplays(base, w, view, run[0], slots, tail);
  }

  /** Every run of snapshots, replayed step by step from its bytes. */
  lemma {:induction false} RunReplays(base: nat, w: Writer, view: View, run: seq<Snapshot>, slots: seq<Order>,
                                      rest: seq<Byte>)
    requires Linked(base, w, view) && RunOk(w.book, run) && WriteRun(base, w, run).Some?
    requires Shows(base, w.slots, view, slots) && |slots| < 0x8000_0000
    ensures var (w', bytes) := WriteRun(base, w, run).value;
            var r := ReadRun(|run|, Reader(slots, bytes + rest));
            && Follows(base, w', RunView(view, run), |slots|, SlotsOf(r))
            && (r.Some? ==> r.value.text == rest)
    decreases |run|
  {
    if run == [] {
      assert [] + rest == rest;
    } else {
      var (w1, b1) := WriteSnapshot(base, w, run[0]).value;
      var b2 := WriteRun(base, w1, run[1..]).value.1;
      Associative(b1, b2, rest);
      FirstSnapshot(base, w, view, run, slots, b2 + rest);
      var v1 := PagesView(view, run[0].docs);
      if base + w1.slots.size <= |slots| {
        RunReplays(base, w1, v1, run[1..], ReadSnapshot(Reader(slots, b1 + (b2 + rest))).value.slots, rest);
      } else {
        RunKeeps(base, w1, v1, run[1..]);
      }
    }
  }

  // ------------------------------------------------ the first snapshots of a run

  lemma {:induction false} FirstOnes(run: seq<Snapshot>, n: nat)
    requires 0 < n <= |run|
    ensures run[..n] != [] && run[..n][0] == run[0] && run[..n][1..] == run[1..][..n - 1]
  {
  }

  lemma {:induction false} PagesPeakIsLive(book: seq<Order>, docs: seq<seq<Order>>)
    ensures |book| <= PeakLive(book, docs)
    decreases |docs|
  {
    if docs != [] && docs[0] == [] {
      PagesPeakIsLive(book, docs[1..]);
    }
  }

  /** The first snapshots of a run in order are in order, and need no more slots. */
  lemma {:induction false} RunPrefix(book: seq<Order>, run: seq<Snapshot>, n: nat)
    requires RunOk(book, run) && n <= |run|
    ensures RunOk(book, run[..n]) && RunPeak(book, run[..n]) <= RunPeak(book, run)
    decreases n
  {
    if n > 0 {
      FirstOnes(run, n);
      RunPrefix(FinalBook(book, run[0].docs), run[1..], n - 1);
    } else if run != [] {
      PagesPeakIsLive(book, run[0].docs);
    }
  }

  /** Their bytes are the first bytes of the log. */
  lemma {:induction false} LogPrefix(base: nat, w: Writer, run: seq<Snapshot>, n: nat) returns (later: seq<Byte>)
    requires n <= |run| && WriteRun(base, w, run).Some?
    ensures WriteRun(base, w, run[..n]).Some?
    ensures WriteRun(base, w, run).value.1 == WriteRun(base, w, run[..n]).value.1 + later
    decreases n
  {
    if n == 0 {
      later := WriteRun(base, w, run).value.1;
      assert [] + later == later;
    } else {
      FirstOnes(run, n);
      var (w1, b1) := WriteSnapshot(base, w, run[0]).value;
      later := LogPrefix(base, w1, run[1..], n - 1);
      Associative(b1, WriteRun(base, w1, run[1..][..n - 1]).value.1, later);
    }
  }
}
