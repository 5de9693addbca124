/**
 The comparison at the end of `extract2`: the replayed slots without zero volumes, sorted by id, against
 the writer's book, ignoring `issued` (json_writer.cpp:415-440).
 */
module BookCheck {
  import opened Orders
  import opened Codec
  import opened PageMerge
  import opened SlotAllocator
  import opened Replay
  import opened OrderLog
  import opened Snapshots

  /** `erase(remove_if(volume == 0))`. */
  function Live(slots: seq<Order>): seq<Order> {
    if slots == [] then []
    else if slots[0].volume == 0 then Live(slots[1..])
    else [slots[0]] + Live(slots[1..])
  }

  function InsertById(o: Order, s: seq<Order>): seq<Order> {
    if s == [] || o.id < s[0].id then [o] + s else [s[0]] + InsertById(o, s[1..])
  }

  function SortById(s: seq<Order>): seq<Order> {
    if s == [] then [] else InsertById(s[0], SortById(s[1..]))
  }

  /** The book a reader's client sees. */
  function Visible(slots: seq<Order>): seq<Order> {
    SortById(Live(slots))
  }

  ghost predicate DistinctIds(s: seq<Order>) {
    forall i, j :: 0 <= i < j < |s| ==> s[i].id != s[j].id
  }

  lemma {:induction false} LiveMembers(slots: seq<Order>)
    ensures forall o :: o in Live(slots) <==> o in slots && o.volume > 0
  {
    if slots != [] {
      LiveMembers(slots[1..]);
      assert slots == [slots[0]] + slots[1..];
    }
  }

  /** No two live slots share an id. */
  ghost predicate LiveDistinct(slots: seq<Order>) {
    forall i, j :: 0 <= i < j < |slots| && slots[i].volume > 0 && slots[j].volume > 0 ==>
      slots[i].id != slots[j].id
  }

  lemma {:induction false} LiveIsDistinct(slots: seq<Order>)
    requires LiveDistinct(slots)
    ensures DistinctIds(Live(slots))
  {
    if slots != [] {
      LiveIsDistinct(slots[1..]);
      LiveMembers(slots[1..]);
      if slots[0].volume > 0 {
        var rest := Live(slots[1..]);
        forall j | 0 <= j < |rest| ensures rest[j].id != slots[0].id {
          assert rest[j] in rest;
          var k :| 0 <= k < |slots[1..]| && slots[1..][k] == rest[j];
          assert slots[k + 1] == rest[j];
        }
      }
    }
  }

  lemma {:induction false} InsertSorted(o: Order, s: seq<Order>)
    requires SortedById(s) && forall i :: 0 <= i < |s| ==> s[i].id != o.id
    ensures SortedById(InsertById(o, s))
    ensures forall p :: p in InsertById(o, s) <==> p == o || p in s
  {
    if s != [] && s[0].id < o.id {
      SortedTail(s);
      InsertSorted(o, s[1..]);
      var r := InsertById(o, s[1..]);
      forall i | 0 <= i < |r| ensures s[0].id < r[i].id {
        assert r[i] in r;
      }
      assert s == [s[0]] + s[1..];
    }
  }

  lemma {:induction false} SortSorted(s: seq<Order>)
    requires DistinctIds(s)
    ensures SortedById(SortById(s))
    ensures forall p :: p in SortById(s) <==> p in s
  {
    if s != [] {
      SortSorted(s[1..]);
      var r := SortById(s[1..]);
      forall i | 0 <= i < |r| ensures r[i].id != s[0].id {
        assert r[i] in r;
        var k :| 0 <= k < |s[1..]| && s[1..][k] == r[i];
        assert s[k + 1] == r[i];
      }
      InsertSorted(s[0], r);
      assert s == [s[0]] + s[1..];
    }
  }

  /** A sorted sequence is determined by its members, so it does not matter how it was sorted. */
  lemma {:induction false} SortedUnique(a: seq<Order>, b: seq<Order>)
    requires SortedById(a) && SortedById(b) && forall o :: o in a <==> o in b
    ensures a == b
  {
    assert forall i :: 0 <= i < |b| ==> b[i] in a;
    assert forall i :: 0 <= i < |a| ==> a[i] in b;
    if a == [] {
      assert b == [];
    } else {
      assert a[0] in b && b[0] in a;
      var i :| 0 <= i < |a| && a[i] == b[0];
      var j :| 0 <= j < |b| && b[j] == a[0];
      assert a[0] == b[0];
      SortedTail(a);
      SortedTail(b);
      forall o ensures o in a[1..] <==> o in b[1..] {
        HeadTail(o, a);
        HeadTail(o, b);
      }
      SortedUnique(a[1..], b[1..]);
    }
  }

  /** The view's orders in the order of the book. */
  function InBookOrder(book: seq<Order>, view: View): seq<Order>
    requires forall i :: 0 <= i < |book| ==> book[i].id in view
  {
    seq(|book|, i requires 0 <= i < |book| => view[book[i].id])
  }

  lemma {:induction false} LiveSlotsAreView(index: Index, view: View, slots: seq<Order>)
    requires ShowsIndex(index, view, slots)
    ensures LiveDistinct(slots)
    ensures forall o :: o in slots && o.volume > 0 <==> exists x :: x in view && view[x] == o
  {
    forall i, j | 0 <= i < j < |slots| && slots[i].volume > 0 && slots[j].volume > 0
      ensures slots[i].id != slots[j].id
    {
      assert Holds(index, i) && Holds(index, j);
      var x :| x in index && index[x] == i;
      var y :| y in index && index[y] == j;
    }
    forall o | o in slots && o.volume > 0 ensures exists x :: x in view && view[x] == o {
      var k :| 0 <= k < |slots| && slots[k] == o;
      assert Holds(index, k);
      var x :| x in index && index[x] == k;
      assert view[x] == o;
    }
    forall x | x in view ensures view[x] in slots {
      assert slots[index[x]] == view[x];
    }
  }

  lemma {:induction false} BookOrderMembers(book: seq<Order>, view: View)
    requires SortedById(book) && Tracks(book, view)
    ensures SortedById(InBookOrder(book, view))
    ensures forall o :: o in InBookOrder(book, view) <==> exists x :: x in view && view[x] == o
  {
    var b := InBookOrder(book, view);
    forall o ensures o in b <==> exists x :: x in view && view[x] == o {
      if o in b {
        var i :| 0 <= i < |b| && b[i] == o;
        assert view[book[i].id] == o;
      }
      if x :| x in view && view[x] == o {
        var i :| 0 <= i < |book| && book[i].id == x;
        assert b[i] == o;
      }
    }
  }

  /** What the client sees is exactly the view, in the order of the book. */
  lemma {:induction false} VisibleIsView(base: nat, w: Writer, view: View, slots: seq<Order>)
    requires Linked(base, w, view) && Shows(base, w.slots, view, slots)
    ensures Visible(slots) == InBookOrder(w.book, view)
  {
    LiveSlotsAreView(w.slots.index, view, slots);
    LiveIsDistinct(slots);
    LiveMembers(slots);
    SortSorted(Live(slots));
    BookOrderMembers(w.book, view);
    SortedUnique(Visible(slots), InBookOrder(w.book, view));
  }

  /** The loop at json_writer.cpp:430-440: only the common length is compared; a size mismatch is just logged. */
  predicate CheckPasses(read: seq<Order>, book: seq<Order>) {
    forall i :: 0 <= i < |read| && i < |book| ==> EqualIgnoringIssued(read[i], book[i])
  }

  /** Every live order still has the fields it had when the log last stored it in full. */
  ghost predicate StaticsHeld(book: seq<Order>, view: View) {
    forall i :: 0 <= i < |book| ==> book[i].id in view && SameStatics(view[book[i].id], book[i])
  }

  /** The sizes always agree, and the comparison passes exactly when no live order changed a static field. */
  lemma {:induction false} CheckExactly(base: nat, w: Writer, view: View, slots: seq<Order>)
    requires Linked(base, w, view) && Shows(base, w.slots, view, slots)
    ensures |Visible(slots)| == |w.book|
    ensures CheckPasses(Visible(slots), w.book) <==> StaticsHeld(w.book, view)
  {
    VisibleIsView(base, w, view, slots);
    OrderedCheck(w.book, view);
  }

  lemma {:induction false} OrderedCheck(book: seq<Order>, view: View)
    requires SortedById(book) && Tracks(book, view)
    ensures CheckPasses(InBookOrder(book, view), book) <==> StaticsHeld(book, view)
  {
    var read := InBookOrder(book, view);
    forall i | 0 <= i < |book|
      ensures EqualIgnoringIssued(read[i], book[i]) <==> SameStatics(view[book[i].id], book[i])
    {
      assert read[i] == view[book[i].id] && SameOffer(read[i], book[i]);
    }
  }

  // ------------------------------------------------ when static fields are kept

  /** An id in both the book and the page keeps its static fields. */
  ghost predicate PageHolds(book: seq<Order>, page: seq<Order>) {
    forall i, j :: 0 <= i < |book| && 0 <= j < |page| && book[i].id == page[j].id ==>
      SameStatics(book[i], page[j])
  }

  /** If the comparison would have passed before the page, it passes after it iff the page keeps static fields. */
  lemma {:induction false} PageHoldsExactly(book: seq<Order>, view: View, page: seq<Order>)
    requires SortedById(book) && Tracks(book, view) && StaticsHeld(book, view)
    requires page != [] && SortedById(page)
    ensures StaticsHeld(NewBook(book, page), PageView(view, page)) <==> PageHolds(book, page)
  {
    var n, v := NewBook(book, page), PageView(view, page);
    PageReplacesInterval(book, page);
    PageViewLookup(view, page);
    if PageHolds(book, page) {
      forall k | 0 <= k < |n| ensures n[k].id in v && SameStatics(v[n[k].id], n[k]) {
        assert n[k] in n;
        HeldAfter(book, view, page, v, n[k]);
      }
    }
    if StaticsHeld(n, v) {
      forall i, j | 0 <= i < |book| && 0 <= j < |page| && book[i].id == page[j].id
        ensures SameStatics(book[i], page[j])
      {
        assert page[j] in n;
        HeldBefore(book, view, page, v, n, i, j);
      }
    }
  }

  lemma {:induction false} HeldBefore(book: seq<Order>, view: View, page: seq<Order>, v: View, n: seq<Order>, i: nat,
                                      j: nat)
    requires page != [] && IsPageView(view, page, v) && StaticsHeld(book, view) && StaticsHeld(n, v)
    requires i < |book| && j < |page| && book[i].id == page[j].id && page[j] in n
    ensures SameStatics(book[i], page[j])
  {
    var k :| 0 <= k < |n| && n[k] == page[j];
    assert SameStatics(view[book[i].id], book[i]);
    assert SameStatics(v[n[k].id], n[k]);
    assert v[page[j].id] == Updated(view, page[j]);
  }

  lemma {:induction false} HeldAfter(book: seq<Order>, view: View, page: seq<Order>, v: View, o: Order)
    requires page != [] && IsPageView(view, page, v)
    requires Tracks(book, view) && StaticsHeld(book, view) && PageHolds(book, page)
    requires o in page || (o in book && !InInterval(page, o.id))
    ensures o.id in v && SameStatics(v[o.id], o)
  {
    if o in page {
      var j :| 0 <= j < |page| && page[j] == o;
      if o.id in view {
        var i :| 0 <= i < |book| && book[i].id == o.id;
        assert SameStatics(book[i], page[j]);
        assert SameStatics(view[book[i].id], book[i]);
      }
    } else {
      var i :| 0 <= i < |book| && book[i] == o;
    }
  }

  ghost predicate PagesHold(book: seq<Order>, docs: seq<seq<Order>>)
    decreases |docs|
  {
    docs == [] ||
    if docs[0] == [] then PagesHold(book, docs[1..])
    else PageHolds(book, docs[0]) && PagesHold(NewBook(book, docs[0]), docs[1..])
  }

  lemma {:induction false} PagesHoldStatics(book: seq<Order>, view: View, docs: seq<seq<Order>>)
    requires SortedById(book) && Tracks(book, view) && StaticsHeld(book, view)
    requires DocsOk(docs) && PagesHold(book, docs)
    ensures StaticsHeld(FinalBook(book, docs), PagesView(view, docs))
    decreases |docs|
  {
    if docs != [] {
      PageMeaning(view, book, docs[0]);
      PageHoldsExactly(book, view, docs[0]);
      PagesHoldStatics(NewBook(book, docs[0]), PageView(view, docs[0]), docs[1..]);
    }
  }

  ghost predicate RunHolds(book: seq<Order>, run: seq<Snapshot>)
    decreases |run|
  {
    run == [] || (PagesHold(book, run[0].docs) && RunHolds(FinalBook(book, run[0].docs), run[1..]))
  }

  lemma {:induction false} RunHoldsStatics(base: nat, w: Writer, view: View, run: seq<Snapshot>)
    requires Linked(base, w, view) && StaticsHeld(w.book, view)
    requires RunOk(w.book, run) && RunHolds(w.book, run)
    ensures StaticsHeld(RunBook(w.book, run), RunView(view, run))
    decreases |run|
  {
    if run != [] {
      PagesAreOk(w.book, run[0].docs);
      PagesHoldStatics(w.book, view, run[0].docs);
      SnapshotKeeps(base, w, view, run[0]);
      RunHoldsStatics(base, WriteSnapshot(base, w, run[0]).value.0, PagesView(view, run[0].docs), run[1..]);
    }
  }

  // ------------------------------------------------ the main theorem

  /** The reader before its first step: every slot zero. */
  ghost predicate Blank(slots: seq<Order>) {
    forall k :: 0 <= k < |slots| ==> slots[k].volume == 0
  }

  lemma {:induction false} NothingYet(base: nat, slots: seq<Order>)
    requires Blank(slots) && base <= |slots|
    ensures Linked(base, NO_ORDERS, map[]) && Shows(base, NO_ORDERS.slots, map[], slots)
    ensures StaticsHeld([], map[])
  {
    assert Ids([]) == {};
    assert forall k: nat :: !Holds(map[], k);
  }

  /**
   For every finite run of snapshots, from an empty book and a blank reader: the writer never throws an
   inconsistency; the reader needs as many slots as there are orders live at once, and with that many it
   consumes exactly the written bytes, shows a book of the right size and, up to the fields no change record
   carries, the writer's book. The final comparison passes iff no live order changed a static field.
   */
  lemma {:induction false} ReplayMatchesBook(base: nat, run: seq<Snapshot>, slots: seq<Order>, rest: seq<Byte>)
    requires RunOk([], run) && Blank(slots) && base <= |slots| < 0x8000_0000
    ensures WriteRun(base, NO_ORDERS, run).Some?
    ensures var (w, bytes) := WriteRun(base, NO_ORDERS, run).value;
            var r := ReadRun(|run|, Reader(slots, bytes + rest));
            && w.book == RunBook([], run)
            && (r.Some? <==> base + RunPeak([], run) <= |slots|)
            && (r.Some? ==>
                  && r.value.text == rest
                  && |Visible(r.value.slots)| == |w.book|
                  && (CheckPasses(Visible(r.value.slots), w.book) <==> StaticsHeld(w.book, RunView(map[], run)))
                  && (RunHolds([], run) ==> CheckPasses(Visible(r.value.slots), w.book)))
  {
    NothingYet(base, slots);
    RunKeeps(base, NO_ORDERS, map[], run);
    RunReplays(base, NO_ORDERS, map[], run, slots, rest);
    var (w, bytes) := WriteRun(base, NO_ORDERS, run).value;
    var r := ReadRun(|run|, Reader(slots, bytes + rest));
    if r.Some? {
      CheckExactly(base, w, RunView(map[], run), r.value.slots);
      if RunHolds([], run) {
        RunHoldsStatics(base, NO_ORDERS, map[], run);
      }
    }
  }

  lemma {:induction false} HoldsPrefix(book: seq<Order>, run: seq<Snapshot>, n: nat)
    requires RunHolds(book, run) && n <= |run|
    ensures RunHolds(book, run[..n])
    decreases n
  {
    if n > 0 {
      FirstOnes(run, n);
      HoldsPrefix(FinalBook(book, run[0].docs), run[1..], n - 1);
    }
  }

  /**
   The comparison after each snapshot of a run: a reader with slots enough for the whole run that has read `n` frames
   of the log shows the book as it was after `n` snapshots, under the same condition.
   */
  lemma {:induction false} EverySnapshotMatches(base: nat, run: seq<Snapshot>, n: nat, slots: seq<Order>,
                                                rest: seq<Byte>)
    requires RunOk([], run) && n <= |run|
    requires Blank(slots) && base + RunPeak([], run) <= |slots| < 0x8000_0000
    ensures WriteRun(base, NO_ORDERS, run).Some?
    ensures var book := RunBook([], run[..n]);
            var r := ReadRun(n, Reader(slots, WriteRun(base, NO_ORDERS, run).value.1 + rest));
            && r.Some? && |Visible(r.value.slots)| == |book|
            && (CheckPasses(Visible(r.value.slots), book) <==> StaticsHeld(book, RunView(map[], run[..n])))
            && (RunHolds([], run) ==> CheckPasses(Visible(r.value.slots), book))
  {
    RunPrefix([], run, n);
    NothingYet(base, slots);
    RunKeeps(base, NO_ORDERS, map[], run);
    var later := LogPrefix(base, NO_ORDERS, run, n);
    Associative(WriteRun(base, NO_ORDERS, run[..n]).value.1, later, rest);
    ReplayMatchesBook(base, run[..n], slots, later + rest);
    if RunHolds([], run) {
      HoldsPrefix([], run, n);
    }
  }
}
