/** Runs of one order: the smallest inputs on which the code does not do what it is meant to. */
module SmallRuns {
  import opened Orders
  import opened Codec
  import opened PageMerge
  import opened SlotAllocator
  import opened OrderLog
  import opened Snapshots
  import opened BookCheck
  import opened Mirror
  import opened SlotNumbers

  lemma {:induction false} OnePage(book: seq<Order>, view: View, page: seq<Order>)
    requires page != []
    ensures FinalBook(book, [page]) == NewBook(book, page) && PagesView(view, [page]) == PageView(view, page)
    ensures PagesActions(book, [page]) == PageActions(book, page)
    ensures PeakLive(book, [page]) == Max(Peak(|book|, PageActions(book, page)), |NewBook(book, page)|)
  {
    var n, v := NewBook(book, page), PageView(view, page);
    assert [page][1..] == [];
    assert FinalBook(n, []) == n && PagesView(v, []) == v && PeakLive(n, []) == |n| && PagesActions(n, []) == [];
  }

  /** A snapshot of one page at the beginning of a run. */
  lemma {:induction false} OneSnapshot(book: seq<Order>, view: View, page: seq<Order>, viewtime: U32,
                                       run: seq<Snapshot>)
    requires page != []
    ensures var all, n := [Snapshot(viewtime, [page])] + run, NewBook(book, page);
            && (RunOk(book, all) <==> SnapshotOk(book, Snapshot(viewtime, [page])) && RunOk(n, run))
            && RunBook(book, all) == RunBook(n, run)
            && RunView(view, all) == RunView(PageView(view, page), run)
            && RunActions(book, all) == PageActions(book, page) + RunActions(n, run)
            && RunPeak(book, all) ==
               Max(Max(Peak(|book|, PageActions(book, page)), |n|), RunPeak(n, run))
  {
    assert ([Snapshot(viewtime, [page])] + run)[1..] == run;
    OnePage(book, view, page);
  }

  /** The end of a run. */
  lemma {:induction false} NoSnapshot(book: seq<Order>, view: View)
    ensures RunOk(book, []) && RunBook(book, []) == book && RunView(view, []) == view
    ensures RunActions(book, []) == [] && RunPeak(book, []) == |book|
  {
  }

  lemma {:induction false} OrderArrives(o: Order)
    requires o.volume > 0 && o.buy != DIFF_TAG
    ensures PageActions([], [o]) == [New(o)] && NewBook([], [o]) == [o] && SnapshotOk([], Snapshot(0, [[o]]))
  {
    assert OldOrders([], [o]) == [] && [o][1..] == [];
    assert Actions([o], []) == [New(o)] + Actions([], []);
    OnePageOk([], o, 0);
  }

  lemma {:induction false} OrderChanges(o: Order, p: Order)
    requires o.id == p.id && p.volume > 0 && p.buy != DIFF_TAG
    ensures PageActions([o], [p]) == (if SameOffer(p, o) then [] else [Change(p)]) && NewBook([o], [p]) == [p]
    ensures SnapshotOk([o], Snapshot(1800, [[p]]))
  {
    assert OldStart([o], [p]) == 0 && [o][1..] == [] && [o][0..] == [o];
    assert OldEnd([o], [p]) == 1;
    assert OldOrders([o], [p]) == [o] && [p][1..] == [];
    assert Actions([p], [o]) == (if SameOffer(p, o) then [] else [Change(p)]) + Actions([], []);
    OnePageOk([o], p, 1800);
  }

  lemma {:induction false} OnePageOk(book: seq<Order>, o: Order, viewtime: U32)
    requires o.volume > 0 && o.buy != DIFF_TAG && |PageActions(book, [o])| <= 1
    ensures SnapshotOk(book, Snapshot(viewtime, [[o]]))
  {
    var acts := PageActions(book, [o]);
    assert acts != [] ==> acts[1..] == [];
    assert RecordBytes(acts) <= 54;
    assert [[o]][1..] == [];
  }

  /** One order, then the order with the same id in the next snapshot. */
  function TwoSnapshots(o: Order, p: Order): seq<Snapshot> {
    [Snapshot(0, [[o]]), Snapshot(1800, [[p]])]
  }

  lemma {:induction false} TwoSnapshotsOk(o: Order, p: Order)
    requires o.id == p.id && o.volume > 0 && p.volume > 0 && o.buy != DIFF_TAG && p.buy != DIFF_TAG
    ensures RunOk([], TwoSnapshots(o, p)) && RunBook([], TwoSnapshots(o, p)) == [p]
    ensures RunView(map[], TwoSnapshots(o, p)) == PageView(PageView(map[], [o]), [p])
    ensures RunActions([], TwoSnapshots(o, p)) == if SameOffer(p, o) then [New(o)] else [New(o), Change(p)]
    ensures RunPeak([], TwoSnapshots(o, p)) == 1
  {
    var v := PageView(map[], [o]);
    OrderArrives(o);
    OrderChanges(o, p);
    OneSnapshot([], map[], [o], 0, [Snapshot(1800, [[p]])]);
    OneSnapshot([o], v, [p], 1800, []);
    NoSnapshot([p], PageView(v, [p]));
    assert [Snapshot(1800, [[p]])] + [] == [Snapshot(1800, [[p]])];
    assert TwoSnapshots(o, p) == [Snapshot(0, [[o]])] + [Snapshot(1800, [[p]])];
    PeakOfOne(New(o), 0);
    if !SameOffer(p, o) {
      PeakOfOne(Change(p), 1);
    }
  }

  lemma {:induction false} PeakOfOne(a: Action, live: nat)
    ensures Peak(live, [a]) == if a.New? then live + 1 else live
  {
    assert [a][1..] == [];
  }

  /** Numbered from 1, as coded, a changed offer is written behind the mirror array. */
  lemma {:induction false} OneBasedLeavesArray(o: Order, p: Order)
    requires o.id == p.id && !SameOffer(p, o) && o.volume > 0 && p.volume > 0
    requires o.buy != DIFF_TAG && p.buy != DIFF_TAG
    ensures var run := TwoSnapshots(o, p);
            && RunOk([], run) && AllEnabled(NO_SLOTS.index.Keys, RunActions([], run))
            && !AllInRange([], 1, NO_SLOTS, RunActions([], run))
  {
    TwoSnapshotsOk(o, p);
    RunInRangeExactly(TwoSnapshots(o, p));
    assert [New(o), Change(p)][1..] == [Change(p)];
  }

  lemma {:induction false} TwoViews(o: Order, p: Order)
    requires o.id == p.id && o.volume > 0 && p.volume > 0 && o.buy != DIFF_TAG && p.buy != DIFF_TAG
    ensures StaticsHeld([p], PageView(PageView(map[], [o]), [p])) <==> SameStatics(o, p)
  {
    OrderArrives(o);
    OrderChanges(o, p);
    NothingWrittenYet(0);
    PageMeaning(map[], [], [o]);
    PageHoldsExactly([], map[], [o]);
    PageHoldsExactly([o], PageView(map[], [o]), [p]);
    SharedId(o, p);
  }

  lemma {:induction false} SharedId(o: Order, p: Order)
    requires o.id == p.id
    ensures PageHolds([o], [p]) <==> SameStatics(o, p)
  {
    if PageHolds([o], [p]) {
      assert [o][0].id == [p][0].id;
    }
  }

  /**
   An id that comes back with other static fields: whatever the numbering and the slots, the replay succeeds and the
   comparison fails; with the same static fields it passes.
   */
  lemma {:induction false} ChangedStaticsFail(base: nat, o: Order, p: Order, slots: seq<Order>, rest: seq<Byte>)
    requires o.id == p.id && o.volume > 0 && p.volume > 0 && o.buy != DIFF_TAG && p.buy != DIFF_TAG
    requires Blank(slots) && base + 1 <= |slots| < 0x8000_0000
    ensures var run := TwoSnapshots(o, p);
            && RunOk([], run) && WriteRun(base, NO_ORDERS, run).Some?
            && var (w, bytes) := WriteRun(base, NO_ORDERS, run).value;
               var r := ReadRun(|run|, Reader(slots, bytes + rest));
               r.Some? && (CheckPasses(Visible(r.value.slots), w.book) <==> SameStatics(o, p))
  {
    TwoSnapshotsOk(o, p);
    TwoViews(o, p);
    ReplayMatchesBook(base, TwoSnapshots(o, p), slots, rest);
  }

  /** Such an input: the price changes and so does the minimum volume. */
  lemma {:induction false} MinVolumeChanged(slots: seq<Order>, rest: seq<Byte>)
    requires Blank(slots) && 0 < |slots| < 0x8000_0000
    ensures var o := Order(0, 0, 5, 3, 60003760, 3, 0, 1, 90, 34, 7);
            var run := TwoSnapshots(o, o.(price := 6, minVolume := 2));
            && RunOk([], run) && WriteRun(0, NO_ORDERS, run).Some?
            && var (w, bytes) := WriteRun(0, NO_ORDERS, run).value;
               var r := ReadRun(|run|, Reader(slots, bytes + rest));
               r.Some? && !CheckPasses(Visible(r.value.slots), w.book)
  {
    var o := Order(0, 0, 5, 3, 60003760, 3, 0, 1, 90, 34, 7);
    ChangedStaticsFail(0, o, o.(price := 6, minVolume := 2), slots, rest);
  }

  /** A later page of the same snapshot may restore the static fields: then the comparison passes. */
  lemma {:induction false} RestoredStaticsPass(o: Order, p: Order)
    requires o.id == p.id && o.volume > 0 && p.volume > 0 && o.buy != DIFF_TAG && p.buy != DIFF_TAG
    requires !SameStatics(o, p)
    ensures !PagesHold([o], [[p], [o]])
    ensures FinalBook([o], [[p], [o]]) == [o]
    ensures StaticsHeld([o], PagesView(map[o.id := o], [[p], [o]]))
  {
    var v := map[o.id := o];
    OrderChanges(o, p);
    OrderChanges(p, o);
    SharedId(o, p);
    assert [[p], [o]][1..] == [[o]];
    OnePage([p], PageView(v, [p]), [o]);
    OnlyOrder(v, o, p);
    OnlyOrder(PageView(v, [p]), o, o);
  }

  lemma {:induction false} OnlyOrder(v: View, o: Order, p: Order)
    requires o.id == p.id && v.Keys == {o.id} && SameStatics(v[o.id], o)
    ensures PageView(v, [p]).Keys == {o.id} && SameStatics(PageView(v, [p])[o.id], o)
  {
    PageViewLookup(v, [p]);
    assert [p][0].id in Ids([p]);
  }
}
