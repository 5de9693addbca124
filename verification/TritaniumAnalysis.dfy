/** `TritaniumBuyAnalysis` (apps/pricing/main.cpp:25-259): compares each view with the one before. */
module TritaniumAnalysis {
  import opened Orders
  import opened ViewDiff
  import opened PrintedDiff

  datatype Outcome =
    | Skipped                         // no view before, or not about 30 minutes apart: nothing is compared
    | EmptyView                       // assert(!view.empty()) fails
    | Compared(printed: seq<Entry>)   // as they are printed

  /**
   What `step` writes to its files: one line each of the totals and of the lowest and the highest price, a line for
   each new order with its volume, and lines for each price change and each new order, which start with `reference`.
   */
  datatype Line = Line(viewtime: I32, total: int, sold: int, newSum: int, newCount: int, minSell: real, maxBuy: real,
                       reference: real, changes: seq<PriceChange>, news: seq<Order>)

  /** What has been emitted and counted so far. */
  datatype Tally = Tally(diffs: seq<Entry>, changes: seq<PriceChange>, news: seq<Order>, sold: int, newSum: int,
                         newCount: int)

  const NOTHING := Tally([], [], [], 0, 0, 0)

  function TallyOf(value: Valuation, cs: seq<Change>): Tally {
    Tally(Entries(value, cs), PriceChanges(value, cs), News(cs), Sold(cs), NewSum(cs), NewCount(cs))
  }

  function Plus(s: Tally, t: Tally): Tally {
    Tally(s.diffs + t.diffs, s.changes + t.changes, s.news + t.news, s.sold + t.sold, s.newSum + t.newSum,
          s.newCount + t.newCount)
  }

  class TritaniumBuyAnalysis {
    const value: Valuation
    var lastViewtime: I32
    var lastOrders: seq<Order>
    var lines: seq<Line>

    constructor (value: Valuation)
      ensures this.value == value && lastOrders == [] && lines == []
    {
      this.value := value;
      lastViewtime, lastOrders, lines := 0, [], [];
    }

    /** What `step` writes for a pair of views. */
    function LineOf(viewtime: I32, last: seq<Order>, view: seq<Order>, wantBuy: bool): Line
      requires last != []
    {
      var cs, low, high := Walk(last, view), Lowest(value, last), Highest(value, last);
      Line(viewtime, Volume(view), Sold(cs), NewSum(cs), NewCount(cs), low, high, if wantBuy then high else low,
           PriceChanges(value, cs), News(cs))
    }

    /**
     What the numbers of a line mean: the reference price is that of the dearest order of the last view for buy orders
     and of the cheapest for sell orders, and the line accounts for the new total.
     */
    lemma {:induction false} LineMeans(viewtime: I32, last: seq<Order>, view: seq<Order>, wantBuy: bool)
      requires last != []
      ensures var l := LineOf(viewtime, last, view, wantBuy);
              && l.viewtime == viewtime && l.total == Volume(view)
              && l.total == Volume(last) - l.sold + l.newSum + 0x1_0000_0000 * Grown(Walk(last, view))
              && l.newCount == |l.news| && l.newSum == Volume(l.news)
              && (forall o :: o in last ==> l.minSell <= value(o.price) <= l.maxBuy)
              && (exists o :: o in last && value(o.price) == l.minSell)
              && (exists o :: o in last && value(o.price) == l.maxBuy)
              && (exists o :: o in last && value(o.price) == l.reference)
              && (wantBuy ==> forall o :: o in last ==> value(o.price) <= l.reference)
              && (!wantBuy ==> forall o :: o in last ==> l.reference <= value(o.price))
    {
      Conserves(last, view);
      NewsCounted(Walk(last, view));
      LowestAndHighest(value, last);
    }

    method StepAndUpdate(viewtime: I32, view: seq<Order>, wantBuy: bool) returns (outcome: Outcome)
      modifies this
      ensures outcome ==
              if old(lastOrders) == [] || viewtime < old(lastViewtime) + 1680 || old(lastViewtime) + 1920 < viewtime
              then Skipped
              else if view == [] then EmptyView
              else Compared(SortByPrice(value, Entries(value, Walk(old(lastOrders), view))))
      ensures lines == if outcome.Compared? then old(lines) + [LineOf(viewtime, old(lastOrders), view, wantBuy)]
                       else old(lines)
      ensures !outcome.EmptyView? ==> lastViewtime == viewtime && lastOrders == view
      ensures outcome.EmptyView? ==> lastViewtime == old(lastViewtime) && lastOrders == old(lastOrders)
    {
      outcome := Skipped;
      if lastOrders != [] {
        outcome := Step(viewtime, view, wantBuy);
        if outcome.EmptyView? {
          return;
        }
      }
      lastViewtime := viewtime;
      lastOrders := view;
    }

    method Step(viewtime: I32, view: seq<Order>, wantBuy: bool) returns (outcome: Outcome)
      requires lastOrders != []
      modifies `lines
      ensures outcome ==
              if viewtime < lastViewtime + 1680 || lastViewtime + 1920 < viewtime then Skipped
              else if view == [] then EmptyView
              else Compared(SortByPrice(value, Entries(value, Walk(lastOrders, view))))
      ensures lines == if outcome.Compared? then old(lines) + [LineOf(viewtime, lastOrders, view, wantBuy)]
                       else old(lines)
    {
      var apart := viewtime - lastViewtime - 1800;
      if apart > 120 || apart < -120 {
        return Skipped;
      }
      if view == [] {
        return EmptyView;
      }
      var minSell, maxBuy := MinMax();
      var t := Compare(view);
      var total := Accumulate(view);
      var reference := if wantBuy then maxBuy else minSell;
      lines := lines + [Line(viewtime, total, t.sold, t.newSum, t.newCount, minSell, maxBuy, reference, t.changes,
                             t.news)];
      outcome := Compared(SortByPrice(value, t.diffs));
    }

    /** The lowest and the highest price of the last view. */
    method MinMax() returns (low: real, high: real)
      requires lastOrders != []
      ensures low == Lowest(value, lastOrders) && high == Highest(value, lastOrders)
    {
      low := value(lastOrders[0].price);
      high := low;
      for i := 1 to |lastOrders|
        invariant low == Lowest(value, lastOrders[..i]) && high == Highest(value, lastOrders[..i])
      {
        var p := value(lastOrders[i].price);
        assert lastOrders[..i + 1][..i] == lastOrders[..i];
        if p < low {
          low := p;
        }
        if high < p {
          high := p;
        }
      }
      assert lastOrders[..|lastOrders|] == lastOrders;
    }

    /** What has been emitted and counted, and the changes still to come, make up the whole walk. */
    ghost predicate Progress(all: seq<Change>, rest: seq<Change>, t: Tally) {
      && Entries(value, all) == t.diffs + Entries(value, rest)
      && PriceChanges(value, all) == t.changes + PriceChanges(value, rest)
      && News(all) == t.news + News(rest)
      && Sold(all) == t.sold + Sold(rest) && NewSum(all) == t.newSum + NewSum(rest)
      && NewCount(all) == t.newCount + NewCount(rest)
    }

    /** The tally of one change. */
    function One(c: Change): Tally {
      match c
      case Matched(a, b) =>
        Tally(EntriesOf(value, c), [PriceChange(value(a.price), value(b.price), a.range)], [], SoldBy(c), 0, 0)
      case Cleared(a) => Tally(EntriesOf(value, c), [], [], a.volume, 0, 0)
      case Fresh(b) => Tally(EntriesOf(value, c), [], [b], 0, b.volume, 1)
    }

    lemma {:induction false} OneMore(all: seq<Change>, c: Change, rest: seq<Change>, t: Tally)
      requires Progress(all, [c] + rest, t)
      ensures Progress(all, rest, Plus(t, One(c)))
    {
      assert ([c] + rest)[1..] == rest;
      var one := One(c);
      assert t.diffs + (one.diffs + Entries(value, rest)) == (t.diffs + one.diffs) + Entries(value, rest);
      assert t.changes + (one.changes + PriceChanges(value, rest)) ==
             (t.changes + one.changes) + PriceChanges(value, rest);
      assert t.news + (one.news + News(rest)) == (t.news + one.news) + News(rest);
    }

    // ------------------------------------------------ the two iterators

    ghost function ProgressOf(all: seq<Change>): (seq<Change>, Tally) -> bool {
      (rest, t) => Progress(all, rest, t)
    }

    /** What `p` says of the changes to come, and of what was counted before, stays true when a change is counted. */
    ghost predicate Carried(p: (seq<Change>, Tally) -> bool) {
      forall c, rest, t :: p([c] + rest, t) ==> p(rest, Plus(t, One(c)))
    }

    lemma {:induction false} ProgressCarried(all: seq<Change>)
      ensures Carried(ProgressOf(all))
    {
      forall c, rest, t | ProgressOf(all)([c] + rest, t) ensures ProgressOf(all)(rest, Plus(t, One(c))) {
        OneMore(all, c, rest, t);
      }
    }

    lemma {:induction false} NextMatched(p: (seq<Change>, Tally) -> bool, last: seq<Order>, view: seq<Order>, a: nat,
                                         b: nat, t: Tally)
      requires a < |last| && b < |view| && last[a].id == view[b].id
      requires Carried(p) && p(Walk(last[a..], view[b..]), t)
      ensures p(Walk(last[a + 1..], view[b + 1..]), Plus(t, One(Matched(last[a], view[b]))))
    {
      assert last[a..][1..] == last[a + 1..] && view[b..][1..] == view[b + 1..];
      assert Walk(last[a..], view[b..]) == [Matched(last[a], view[b])] + Walk(last[a + 1..], view[b + 1..]);
    }

    lemma {:induction false} NextCleared(p: (seq<Change>, Tally) -> bool, last: seq<Order>, view: seq<Order>, a: nat,
                                         b: nat, t: Tally)
      requires a < |last| && b <= |view| && (b < |view| ==> last[a].id < view[b].id)
      requires Carried(p) && p(Walk(last[a..], view[b..]), t)
      ensures p(Walk(last[a + 1..], view[b..]), Plus(t, One(Cleared(last[a]))))
    {
      assert last[a..][1..] == last[a + 1..];
      assert Walk(last[a..], view[b..]) == [Cleared(last[a])] + Walk(last[a + 1..], view[b..]);
    }

    lemma {:induction false} NextFresh(p: (seq<Change>, Tally) -> bool, last: seq<Order>, view: seq<Order>, a: nat,
                                       b: nat, t: Tally)
      requires a <= |last| && b < |view| && (a < |last| ==> view[b].id < last[a].id)
      requires Carried(p) && p(Walk(last[a..], view[b..]), t)
      ensures p(Walk(last[a..], view[b + 1..]), Plus(t, One(Fresh(view[b]))))
    {
      assert view[b..][1..] == view[b + 1..];
      assert Walk(last[a..], view[b..]) == [Fresh(view[b])] + Walk(last[a..], view[b + 1..]);
    }

    /** The walk with two iterators. */
    method Compare(view: seq<Order>) returns (t: Tally)
      ensures t == TallyOf(value, Walk(lastOrders, view))
    {
      ghost var all := Walk(lastOrders, view);
      ProgressCarried(all);
      ProgressStarts(all);
      assert lastOrders[0..] == lastOrders && view[0..] == view;
      t := Iterate(view, ProgressOf(all));
      ProgressEnds(all, t);
    }

    lemma {:induction false} ProgressStarts(all: seq<Change>)
      ensures ProgressOf(all)(all, NOTHING)
    {
    }

    lemma {:induction false} ProgressEnds(all: seq<Change>, t: Tally)
      requires ProgressOf(all)([], t)
      ensures t == TallyOf(value, all)
    {
    }

    method Iterate(view: seq<Order>, ghost p: (seq<Change>, Tally) -> bool) returns (t: Tally)
      requires Carried(p) && p(Walk(lastOrders[0..], view[0..]), NOTHING)
      ensures p([], t)
    {
      var last := lastOrders;
      var a, b := 0, 0;
      t := NOTHING;
      while a < |last| && b < |view|
        invariant a <= |last| && b <= |view| && p(Walk(last[a..], view[b..]), t)
        decreases |last| - a + |view| - b
      {
        if last[a].id == view[b].id {
          NextMatched(p, last, view, a, b, t);
          t := CountMatched(t, last[a], view[b]);
          a, b := a + 1, b + 1;
        } else if last[a].id < view[b].id {
          NextCleared(p, last, view, a, b, t);
          t := CountCleared(t, last[a]);
          a := a + 1;
        } else {
          NextFresh(p, last, view, a, b, t);
          t := CountFresh(t, view[b]);
          b := b + 1;
        }
      }
      t := DrainOld(last, view, a, b, p, t);
      t := DrainNew(last, view, b, p, t);
    }

    /** The new view has come to its end, or nothing remains of the old one. */
    method DrainOld(last: seq<Order>, view: seq<Order>, a0: nat, b: nat, ghost p: (seq<Change>, Tally) -> bool,
                    t0: Tally)
      returns (t: Tally)
      requires a0 <= |last| && b <= |view| && (a0 == |last| || b == |view|)
      requires Carried(p) && p(Walk(last[a0..], view[b..]), t0)
      ensures p(Walk(last[|last|..], view[b..]), t)
    {
      var a := a0;
      t := t0;
      while a < |last|
        invariant a <= |last| && (a < |last| ==> b == |view|) && p(Walk(last[a..], view[b..]), t)
      {
        NextCleared(p, last, view, a, b, t);
        t := CountCleared(t, last[a]);
        a := a + 1;
      }
    }

    /** What remains of the new view. */
    method DrainNew(ghost last: seq<Order>, view: seq<Order>, b0: nat, ghost p: (seq<Change>, Tally) -> bool, t0: Tally)
      returns (t: Tally)
      requires b0 <= |view| && Carried(p) && p(Walk(last[|last|..], view[b0..]), t0)
      ensures p([], t)
    {
      var b := b0;
      t := t0;
      while b < |view|
        invariant b <= |view| && p(Walk(last[|last|..], view[b..]), t)
      {
        NextFresh(p, last, view, |last|, b, t);
        t := CountFresh(t, view[b]);
        b := b + 1;
      }
      assert Walk(last[|last|..], view[b..]) == [];
    }

    method CountMatched(t0: Tally, a: Order, b: Order) returns (t: Tally)
      ensures t == Plus(t0, One(Matched(a, b)))
    {
      var es := Matching(a, b);
      t := t0.(sold := t0.sold + Minus32(a.volume, b.volume),
               changes := t0.changes + [PriceChange(value(a.price), value(b.price), a.range)],
               diffs := t0.diffs + es);
    }

    method CountCleared(t0: Tally, a: Order) returns (t: Tally)
      ensures t == Plus(t0, One(Cleared(a)))
    {
      t := t0.(diffs := t0.diffs + [Entry(OLD, a, ClearedOrder)], sold := t0.sold + a.volume);
    }

    method CountFresh(t0: Tally, b: Order) returns (t: Tally)
      ensures t == Plus(t0, One(Fresh(b)))
    {
      t := t0.(diffs := t0.diffs + [Entry(NEW, b, NewOrder)], news := t0.news + [b],
               newCount := t0.newCount + 1, newSum := t0.newSum + b.volume);
    }

    /** The entries for two orders with the same id. */
    method Matching(a: Order, b: Order) returns (es: seq<Entry>)
      ensures es == EntriesOf(value, Matched(a, b))
    {
      var before, after := value(a.price), value(b.price);
      if after > before && a.volume != b.volume {
        es := [Entry(OLD, a, PriceIncreaseAndVolumeChange), Entry(NEW, b, PriceIncreaseAndVolumeChange)];
      } else if after < before && a.volume != b.volume {
        es := [Entry(OLD, a, PriceDecreaseAndVolumeChange), Entry(NEW, b, PriceDecreaseAndVolumeChange)];
      } else if after > before {
        es := [Entry(OLD, a, PriceIncrease), Entry(NEW, b, PriceIncrease)];
      } else if after < before {
        es := [Entry(OLD, a, PriceDecrease), Entry(NEW, b, PriceDecrease)];
      } else if a.volume != b.volume {
        es := [Entry(OLD, a, VolumeChange), Entry(NEW, b, VolumeChange)];
      } else {
        es := [Entry(UNCHANGED, a, UnchangedOrder)];
      }
    }

    method Accumulate(view: seq<Order>) returns (acc: int)
      ensures acc == Volume(view)
    {
      acc := 0;
      var i := 0;
      while i < |view|
        invariant 0 <= i <= |view| && Volume(view) == acc + Volume(view[i..])
      {
        acc := acc + view[i].volume;
        i := i + 1;
      }
    }
  }
}
