/**
 Whole snapshots: the writer's pages, the view of the book a reader can know, and the proof that every
 replay arrives at that view. Follows json_writer.cpp:243-441 and json_reader.cpp:194-221.
 */
module OrderLog {
  import opened Wrappers
  import opened Orders
  import opened Codec
  import opened PageMerge
  import opened SlotAllocator
  import opened Replay

  datatype Writer = Writer(book: seq<Order>, slots: Slots)

  const NO_ORDERS := Writer([], NO_SLOTS)

  function PageActions(book: seq<Order>, page: seq<Order>): seq<Action>
    requires page != []
  {
    Actions(page, OldOrders(book, page))
  }

  /** One page of a snapshot; `None` where the source throws. */
  function WritePage(base: nat, w: Writer, page: seq<Order>): Option<(Writer, Page)>
    requires page != []
  {
    var r := PerformAll(base, w.slots, PageActions(w.book, page));
    if r.None? then None
    else Some((Writer(NewBook(w.book, page), r.value.0),
               Page(page[0].id, page[|page| - 1].id, r.value.1)))
  }

  /** The page loop; an empty page is skipped. */
  function WritePages(base: nat, w: Writer, docs: seq<seq<Order>>): Option<(Writer, seq<Page>)>
    decreases |docs|
  {
    if docs == [] then Some((w, []))
    else if docs[0] == [] then WritePages(base, w, docs[1..])
    else
      var r := WritePage(base, w, docs[0]);
      if r.None? then None
      else
        var t := WritePages(base, r.value.0, docs[1..]);
        if t.None? then None else Some((t.value.0, [r.value.1] + t.value.1))
  }

  function ApplyPages(slots: seq<Order>, pages: seq<Page>): Option<seq<Order>>
    decreases |pages|
  {
    if pages == [] then Some(slots)
    else
      var r := ApplyAll(slots, pages[0].events);
      if r.None? then None else ApplyPages(r.value, pages[1..])
  }

  // ------------------------------------------------ preconditions, on the input alone

  /** What `readOrders` and the server promise of a page. */
  ghost predicate PageOk(page: seq<Order>) {
    && page != [] && SortedById(page)
    && forall i :: 0 <= i < |page| ==> page[i].volume > 0 && page[i].buy != DIFF_TAG
  }

  function RecordBytes(acts: seq<Action>): nat {
    if acts == [] then 0 else (if acts[0].New? then 54 else 17) + RecordBytes(acts[1..])
  }

  /** Every page is in order and its record bytes fit the signed 32-bit size field. */
  ghost predicate PagesOk(book: seq<Order>, docs: seq<seq<Order>>)
    decreases |docs|
  {
    docs == [] ||
    (PageOk(docs[0]) && RecordBytes(PageActions(book, docs[0])) < 0x8000_0000
     && PagesOk(NewBook(book, docs[0]), docs[1..]))
  }

  /** The most orders that are live at once while the pages are merged. */
  function PeakLive(book: seq<Order>, docs: seq<seq<Order>>): nat
    decreases |docs|
  {
    if docs == [] then |book|
    else if docs[0] == [] then PeakLive(book, docs[1..])
    else Max(Peak(|book|, PageActions(book, docs[0])), PeakLive(NewBook(book, docs[0]), docs[1..]))
  }

  function FinalBook(book: seq<Order>, docs: seq<seq<Order>>): seq<Order>
    decreases |docs|
  {
    if docs == [] then book
    else if docs[0] == [] then FinalBook(book, docs[1..])
    else FinalBook(NewBook(book, docs[0]), docs[1..])
  }

  // ------------------------------------------------ what a page means to a reader

  /**
   The page replaces its id interval. An order that was there before keeps the fields a change record
   cannot carry, as they were when the order was first written.
   */
  ghost function PageView(view: View, page: seq<Order>): View
    requires page != []
  {
    (map x | x in view && !InInterval(page, x) :: view[x])
    + (map x | x in Ids(page) :: Updated(view, OrderWithId(page, x)))
  }

  function OrderWithId(page: seq<Order>, x: Id): (o: Order)
    requires x in Ids(page)
    ensures o in page && o.id == x
  {
    if page[0].id == x then page[0]
    else
      IdsHeadTail(page);
      OrderWithId(page[1..], x)
  }

  ghost function PagesView(view: View, docs: seq<seq<Order>>): View
    decreases |docs|
  {
    if docs == [] then view
    else if docs[0] == [] then PagesView(view, docs[1..])
    else PagesView(PageView(view, docs[0]), docs[1..])
  }

  /** The view has the book's orders, with the book's prices and volumes. */
  ghost predicate Tracks(book: seq<Order>, view: View) {
    && view.Keys == Ids(book)
    && forall i :: 0 <= i < |book| ==>
         view[book[i].id].id == book[i].id && SameOffer(view[book[i].id], book[i])
  }

  /** `PageView`, said by lookups. */
  ghost predicate IsPageView(view: View, page: seq<Order>, v: View)
    requires page != []
  {
    && (forall x :: x in v <==> (x in view && !InInterval(page, x)) || x in Ids(page))
    && (forall i :: 0 <= i < |page| ==> v[page[i].id] == Updated(view, page[i]))
    && (forall x :: x in view && !InInterval(page, x) ==> v[x] == view[x])
  }

  lemma {:induction false} PageViewLookup(view: View, page: seq<Order>)
    requires page != [] && SortedById(page)
    ensures IsPageView(view, page, PageView(view, page))
  {
    PageInInterval(page);
    forall i | 0 <= i < |page| ensures OrderWithId(page, page[i].id) == page[i] {
      var o := OrderWithId(page, page[i].id);
      var j :| 0 <= j < |page| && page[j] == o;
    }
    PageViewAt(view, page);
  }

  lemma {:induction false} PageViewAt(view: View, page: seq<Order>)
    requires page != []
    requires forall x :: x in Ids(page) ==> InInterval(page, x)
    ensures var v := PageView(view, page);
            && (forall x :: x in v <==> (x in view && !InInterval(page, x)) || x in Ids(page))
            && (forall x :: x in Ids(page) ==> v[x] == Updated(view, OrderWithId(page, x)))
            && (forall x :: x in view && !InInterval(page, x) ==> v[x] == view[x])
  {
  }

  lemma {:induction false} PageViewUnique(view: View, page: seq<Order>, v: View, r: View)
    requires page != [] && IsPageView(view, page, v) && IsPageView(view, page, r)
    ensures v == r
  {
    forall x | x in v ensures v[x] == r[x] {
      if x in Ids(page) {
        var i :| 0 <= i < |page| && page[i].id == x;
      }
    }
  }

  lemma {:induction false} MergedIsPageView(view: View, book: seq<Order>, page: seq<Order>, r: View)
    requires SortedById(book) && page != [] && SortedById(page) && view.Keys == Ids(book)
    requires IsMerged(view, page, OldOrders(book, page), r)
    ensures r == PageView(view, page)
  {
    PageIds(book, page);
    PageInInterval(page);
    assert IsPageView(view, page, r);
    PageViewLookup(view, page);
    PageViewUnique(view, page, r, PageView(view, page));
  }

  lemma {:induction false} PageInInterval(page: seq<Order>)
    requires page != [] && SortedById(page)
    ensures forall x :: x in Ids(page) ==> InInterval(page, x)
  {
  }

  lemma {:induction false} OldCovered(view: View, book: seq<Order>, page: seq<Order>)
    requires SortedById(book) && page != [] && SortedById(page) && Tracks(book, view)
    ensures Covers(view, page, OldOrders(book, page))
  {
    PageIds(book, page);
    var r1, r2 := OldStart(book, page), OldEnd(book, page);
    forall i | 0 <= i < r2 - r1 ensures OldOrders(book, page)[i] == book[r1 + i] {
    }
  }

  lemma {:induction false} NewTracks(view: View, book: seq<Order>, page: seq<Order>, v: View)
    requires SortedById(book) && page != [] && SortedById(page) && Tracks(book, view)
    requires IsPageView(view, page, v)
    ensures Tracks(NewBook(book, page), v)
  {
    PageIds(book, page);
    PageReplacesInterval(book, page);
    var n := NewBook(book, page);
    assert v.Keys == Ids(n);
    forall i | 0 <= i < |n| ensures v[n[i].id].id == n[i].id && SameOffer(v[n[i].id], n[i]) {
      assert n[i] in n;
      NewOrderTracks(view, book, page, v, n[i]);
    }
  }

  lemma {:induction false} NewOrderTracks(view: View, book: seq<Order>, page: seq<Order>, v: View, o: Order)
    requires page != [] && Tracks(book, view) && IsPageView(view, page, v)
    requires o in page || (o in book && !InInterval(page, o.id))
    ensures o.id in v && v[o.id].id == o.id && SameOffer(v[o.id], o)
  {
    if o in page {
      var j :| 0 <= j < |page| && page[j] == o;
      if o.id in view {
        var k :| 0 <= k < |book| && book[k].id == o.id;
      }
    } else {
      var j :| 0 <= j < |book| && book[j] == o;
    }
  }

  /** Everything the merge needs of a page, and everything it promises, in terms of views. */
  lemma {:induction false} PageMeaning(view: View, book: seq<Order>, page: seq<Order>)
    requires SortedById(book) && Tracks(book, view) && PageOk(page)
    ensures AllEnabled(view.Keys, PageActions(book, page))
    ensures ActAll(view, PageActions(book, page)) == PageView(view, page)
    ensures SortedById(NewBook(book, page)) && Tracks(NewBook(book, page), PageView(view, page))
  {
    OldCovered(view, book, page);
    ActionsMeaning(view, page, OldOrders(book, page));
    MergedIsPageView(view, book, page, ActAll(view, PageActions(book, page)));
    PageViewLookup(view, page);
    NewTracks(view, book, page, PageView(view, page));
    PageReplacesInterval(book, page);
  }

  lemma {:induction false} ActionOrders(book: seq<Order>, page: seq<Order>)
    requires SortedById(book) && PageOk(page)
    requires forall i :: 0 <= i < |book| ==> book[i].volume > 0
    ensures forall i :: 0 <= i < |PageActions(book, page)| ==>
              var a := PageActions(book, page)[i];
              a.order.volume > 0 && (a.New? ==> a.order.buy != DIFF_TAG)
    ensures forall i :: 0 <= i < |NewBook(book, page)| ==> NewBook(book, page)[i].volume > 0
  {
    var acts := PageActions(book, page);
    PageReplacesInterval(book, page);
    ActionsExactlyOnce(page, OldOrders(book, page));
    forall i | 0 <= i < |acts|
      ensures acts[i].order.volume > 0 && (acts[i].New? ==> acts[i].order.buy != DIFF_TAG)
    {
      assert acts[i] in acts;
      assert Listed(acts[i], page, OldOrders(book, page));
    }
    forall i | 0 <= i < |NewBook(book, page)| ensures NewBook(book, page)[i].volume > 0 {
      assert NewBook(book, page)[i] in NewBook(book, page);
    }
  }

  // ------------------------------------------------ writer and reader

  /** The writer's invariant between pages, and the view its log stands for. */
  ghost predicate Linked(base: nat, w: Writer, view: View) {
    && SortedById(w.book) && WellFormed(base, w.slots)
    && w.slots.index.Keys == Ids(w.book)
    && (forall i :: 0 <= i < |w.book| ==> w.book[i].volume > 0)
    && Tracks(w.book, view)
  }

  lemma {:induction false} IdCount(s: seq<Order>)
    requires SortedById(s)
    ensures |Ids(s)| == |s|
  {
    if s != [] {
      SortedTail(s);
      IdsHeadTail(s);
      IdCount(s[1..]);
      assert s[0].id !in Ids(s[1..]);
    }
  }

  lemma {:induction false} EventsOfActions(base: nat, s: Slots, acts: seq<Action>)
    requires PerformAll(base, s, acts).Some?
    requires forall i :: 0 <= i < |acts| && acts[i].New? ==> acts[i].order.buy != DIFF_TAG
    ensures AllDistinguishable(PerformAll(base, s, acts).value.1)
    ensures EventBytes(PerformAll(base, s, acts).value.1) == RecordBytes(acts)
    decreases |acts|
  {
    if acts != [] {
      EventsOfActions(base, Perform(base, s, acts[0]).value.0, acts[1..]);
    }
  }

  function EventBytes(es: seq<Event>): nat {
    if es == [] then 0 else (if es[0].Put? then 54 else 17) + EventBytes(es[1..])
  }

  lemma {:induction false} EncodedBytes(es: seq<Event>)
    ensures |EncodeEvents(es)| == EventBytes(es)
  {
    if es != [] {
      assert es == [es[0]] + es[1..];
      EncodeEventsCons(es[0], es[1..]);
      EventRoundTrip(es[0], []);
      EncodedBytes(es[1..]);
    }
  }

  lemma {:induction false} EncodeEventsCons(e: Event, es: seq<Event>)
    ensures EncodeEvents([e] + es) == EncodeEvent(e) + EncodeEvents(es)
  {
    assert EventChunks([e] + es)[1..] == EventChunks(es);
  }

  /** One page: no lookup throws and the invariant is kept. */
  lemma {:induction false} PageKeeps(base: nat, w: Writer, view: View, page: seq<Order>)
    requires Linked(base, w, view) && PageOk(page)
    ensures WritePage(base, w, page).Some?
    ensures Linked(base, WritePage(base, w, page).value.0, PageView(view, page))
  {
    var acts := PageActions(w.book, page);
    PageMeaning(view, w.book, page);
    ActionOrders(w.book, page);
    PerformAllKeeps(base, w.slots, acts);
    PerformAllIds(base, w.slots, acts, view);
  }

  lemma {:induction false} PageSize(base: nat, w: Writer, view: View, page: seq<Order>)
    requires Linked(base, w, view) && page != [] && WritePage(base, w, page).Some?
    ensures WritePage(base, w, page).value.0.slots.size ==
            Max(w.slots.size, Peak(|w.book|, PageActions(w.book, page)))
  {
    SlotsArePeak(base, w.slots, PageActions(w.book, page));
    IdCount(w.book);
    assert |w.slots.index| == |w.slots.index.Keys|;
  }

  lemma {:induction false} PageRecords(base: nat, w: Writer, view: View, page: seq<Order>)
    requires Linked(base, w, view) && PageOk(page) && WritePage(base, w, page).Some?
    ensures var es := WritePage(base, w, page).value.1.events;
            AllDistinguishable(es) && |EncodeEvents(es)| == RecordBytes(PageActions(w.book, page))
  {
    var acts := PageActions(w.book, page);
    ActionOrders(w.book, page);
    EventsOfActions(base, w.slots, acts);
    EncodedBytes(PerformAll(base, w.slots, acts).value.1);
  }

  /** A slot array that shows the old view shows the new one after the page's records. */
  lemma {:induction false} PageReplays(base: nat, w: Writer, view: View, page: seq<Order>, slots: seq<Order>)
    requires Linked(base, w, view) && PageOk(page)
    requires Shows(base, w.slots, view, slots) && |slots| < 0x8000_0000
    ensures WritePage(base, w, page).Some?
    ensures var (w', p) := WritePage(base, w, page).value;
            if base + w'.slots.size <= |slots| then
              && ApplyAll(slots, p.events).Some?
              && Shows(base, w'.slots, PageView(view, page), ApplyAll(slots, p.events).value)
            else
              ApplyAll(slots, p.events).None?
  {
    var acts := PageActions(w.book, page);
    PageMeaning(view, w.book, page);
    ActionOrders(w.book, page);
    PerformAllKeeps(base, w.slots, acts);
    ApplyAllShows(base, w.slots, acts, view, slots);
  }

  lemma {:induction false} PerformAllIds(base: nat, s: Slots, acts: seq<Action>, view: View)
    requires s.index.Keys == view.Keys && PerformAll(base, s, acts).Some?
    ensures PerformAll(base, s, acts).value.0.index.Keys == ActAll(view, acts).Keys
    decreases |acts|
  {
    if acts != [] {
      MoveIds(base, s, acts[0]);
      assert Act(view, acts[0]).Keys == IdsAfter(view.Keys, acts[0]);
      PerformAllIds(base, Move(base, s, acts[0]), acts[1..], Act(view, acts[0]));
    }
  }
}
