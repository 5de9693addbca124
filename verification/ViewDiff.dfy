/**
 The difference of two views of the market, as `TritaniumBuyAnalysis::step` walks them
 (apps/pricing/main.cpp:165-216): what happens to each order, what is printed for it and what is counted.
 */
module ViewDiff {
  import opened Orders

  /** The number a price word stands for. */
  type Valuation = U64 -> real

  datatype Change =
    | Matched(before: Order, after: Order)
    | Cleared(before: Order)
    | Fresh(after: Order)

  datatype Kind = NEW | OLD | UNCHANGED

  datatype Note =
    | PriceIncreaseAndVolumeChange | PriceDecreaseAndVolumeChange | PriceIncrease | PriceDecrease | VolumeChange
    | NewOrder | ClearedOrder | UnchangedOrder

  datatype Entry = Entry(kind: Kind, order: Order, note: Note)

  /** The order in which the two iterators visit the views. */
  function Walk(last: seq<Order>, view: seq<Order>): seq<Change>
    decreases |last| + |view|
  {
    if last == [] && view == [] then []
    else if view == [] || (last != [] && last[0].id < view[0].id) then [Cleared(last[0])] + Walk(last[1..], view)
    else if last == [] || view[0].id < last[0].id then [Fresh(view[0])] + Walk(last, view[1..])
    else [Matched(last[0], view[0])] + Walk(last[1..], view[1..])
  }

  /** Unchanged: neither price is above the other and the volumes are equal. */
  predicate Same(value: Valuation, a: Order, b: Order) {
    value(a.price) == value(b.price) && a.volume == b.volume
  }

  function NoteOf(value: Valuation, a: Order, b: Order): Note {
    if value(b.price) > value(a.price) && a.volume != b.volume then PriceIncreaseAndVolumeChange
    else if value(b.price) < value(a.price) && a.volume != b.volume then PriceDecreaseAndVolumeChange
    else if value(b.price) > value(a.price) then PriceIncrease
    else if value(b.price) < value(a.price) then PriceDecrease
    else if a.volume != b.volume then VolumeChange
    else UnchangedOrder
  }

  function EntriesOf(value: Valuation, c: Change): seq<Entry> {
    match c
    case Cleared(a) => [Entry(OLD, a, ClearedOrder)]
    case Fresh(b) => [Entry(NEW, b, NewOrder)]
    case Matched(a, b) =>
      var note := NoteOf(value, a, b);
      if note == UnchangedOrder then [Entry(UNCHANGED, a, note)] else [Entry(OLD, a, note), Entry(NEW, b, note)]
  }

  function Entries(value: Valuation, cs: seq<Change>): seq<Entry> {
    if cs == [] then [] else EntriesOf(value, cs[0]) + Entries(value, cs[1..])
  }

  /** uint32 subtraction */
  function Minus32(a: U32, b: U32): U32 {
    if a >= b then a - b else a - b + 0x1_0000_0000
  }

  function SoldBy(c: Change): U32 {
    match c
    case Matched(a, b) => Minus32(a.volume, b.volume)
    case Cleared(a) => a.volume
    case Fresh(_) => 0
  }

  function Sold(cs: seq<Change>): int {
    if cs == [] then 0 else SoldBy(cs[0]) + Sold(cs[1..])
  }

  function NewSum(cs: seq<Change>): int {
    if cs == [] then 0 else (if cs[0].Fresh? then cs[0].after.volume else 0) + NewSum(cs[1..])
  }

  function NewCount(cs: seq<Change>): nat {
    if cs == [] then 0 else (if cs[0].Fresh? then 1 else 0) + NewCount(cs[1..])
  }

  function Volume(s: seq<Order>): int {
    if s == [] then 0 else s[0].volume + Volume(s[1..])
  }

  // ------------------------------------------------ the two sides of a walk

  function Befores(cs: seq<Change>): seq<Order> {
    if cs == [] then [] else (if cs[0].Fresh? then [] else [cs[0].before]) + Befores(cs[1..])
  }

  function Afters(cs: seq<Change>): seq<Order> {
    if cs == [] then [] else (if cs[0].Cleared? then [] else [cs[0].after]) + Afters(cs[1..])
  }

  /** One step of the walk and the rest of it. */
  lemma {:induction false} WalkStep(last: seq<Order>, view: seq<Order>)
    returns (c: Change, last': seq<Order>, view': seq<Order>)
    requires last != [] || view != []
    ensures last == (if c.Fresh? then [] else [c.before]) + last'
    ensures view == (if c.Cleared? then [] else [c.after]) + view'
    ensures |last'| + |view'| < |last| + |view|
    ensures Walk(last, view) == [c] + Walk(last', view') && Walk(last, view)[1..] == Walk(last', view')
    ensures c.Matched? ==> c.before.id == c.after.id
  {
    c := Walk(last, view)[0];
    last', view' := if c.Fresh? then last else last[1..], if c.Cleared? then view else view[1..];
  }

  /** The walk passes every order of both views exactly once, in order. */
  lemma {:induction false} WalkSides(last: seq<Order>, view: seq<Order>)
    ensures Befores(Walk(last, view)) == last
    ensures Afters(Walk(last, view)) == view
    decreases |last| + |view|
  {
    if last != [] || view != [] {
      var c, last', view' := WalkStep(last, view);
      WalkSides(last', view');
    }
  }

  // ------------------------------------------------ lossless

  /** What a reader of the printed difference takes for the old view. */
  function OldSide(es: seq<Entry>): seq<Order> {
    if es == [] then [] else (if es[0].kind == NEW then [] else [es[0].order]) + OldSide(es[1..])
  }

  function NewSide(es: seq<Entry>): seq<Order> {
    if es == [] then [] else (if es[0].kind == OLD then [] else [es[0].order]) + NewSide(es[1..])
  }

  lemma {:induction false} EntryAdded(e: Entry, es: seq<Entry>)
    ensures OldSide([e] + es) == (if e.kind == NEW then [] else [e.order]) + OldSide(es)
    ensures NewSide([e] + es) == (if e.kind == OLD then [] else [e.order]) + NewSide(es)
  {
    assert ([e] + es)[1..] == es;
  }

  /** The same offer: id, price and volume. */
  predicate Alike(value: Valuation, a: Order, b: Order) {
    a.id == b.id && Same(value, a, b)
  }

  predicate AllAlike(value: Valuation, s: seq<Order>, t: seq<Order>) {
    |s| == |t| && forall i :: 0 <= i < |s| ==> Alike(value, s[i], t[i])
  }

  lemma {:induction false} OneChangeLossless(value: Valuation, c: Change, es: seq<Entry>)
    requires c.Matched? ==> c.before.id == c.after.id
    ensures OldSide(EntriesOf(value, c) + es) == (if c.Fresh? then [] else [c.before]) + OldSide(es)
    ensures c.Cleared? ==> NewSide(EntriesOf(value, c) + es) == NewSide(es)
    ensures !c.Cleared? ==>
              var side := NewSide(EntriesOf(value, c) + es);
              side != [] && side[1..] == NewSide(es) && Alike(value, side[0], c.after)
  {
    var some := EntriesOf(value, c);
    if |some| == 1 {
      EntryAdded(some[0], es);
      assert some == [some[0]];
    } else {
      EntryAdded(some[1], es);
      EntryAdded(some[0], [some[1]] + es);
      assert some + es == [some[0]] + ([some[1]] + es);
    }
  }

  /**
   The difference is lossless for any two views: its OLD and UNCHANGED entries, in the order they are emitted, are
   the old view; its NEW and UNCHANGED entries give the ids, prices and volumes of the new one.
   */
  lemma {:induction false} Lossless(value: Valuation, last: seq<Order>, view: seq<Order>)
    ensures OldSide(Entries(value, Walk(last, view))) == last
    ensures AllAlike(value, NewSide(Entries(value, Walk(last, view))), view)
    decreases |last| + |view|
  {
    if last != [] || view != [] {
      var c, last', view' := WalkStep(last, view);
      Lossless(value, last', view');
      OneChangeLossless(value, c, Entries(value, Walk(last', view')));
    }
  }

  // ------------------------------------------------ conservation

  predicate Grows(c: Change) {
    c.Matched? && c.before.volume < c.after.volume
  }

  /** How many matched orders grew: each makes the unsigned difference wrap. */
  function Grown(cs: seq<Change>): nat {
    if cs == [] then 0 else (if Grows(cs[0]) then 1 else 0) + Grown(cs[1..])
  }

  lemma {:induction false} VolumeOfPart(p: seq<Order>, s: seq<Order>)
    requires |p| <= 1
    ensures Volume(p + s) == (if p == [] then 0 else p[0].volume) + Volume(s)
  {
    if p == [] {
      assert p + s == s;
    } else {
      assert (p + s)[1..] == s;
    }
  }

  lemma {:induction false} ChangesConserve(cs: seq<Change>)
    ensures Volume(Afters(cs)) == Volume(Befores(cs)) - Sold(cs) + NewSum(cs) + 0x1_0000_0000 * Grown(cs)
  {
    if cs != [] {
      var c := cs[0];
      ChangesConserve(cs[1..]);
      VolumeOfPart(if c.Fresh? then [] else [c.before], Befores(cs[1..]));
      VolumeOfPart(if c.Cleared? then [] else [c.after], Afters(cs[1..]));
    }
  }

  lemma {:induction false} NoneGrown(cs: seq<Change>)
    ensures Grown(cs) == 0 <==> forall i :: 0 <= i < |cs| ==> !Grows(cs[i])
  {
    if cs != [] {
      NoneGrown(cs[1..]);
      assert forall i :: 0 < i < |cs| ==> cs[1..][i - 1] == cs[i];
    }
  }

  /**
   The new total is the old total less what was sold plus what is new, plus 2^32 for every matched order whose
   volume grew; so the books balance exactly if no matched order grew.
   */
  lemma {:induction false} Conserves(last: seq<Order>, view: seq<Order>)
    ensures var cs := Walk(last, view);
            && Volume(view) == Volume(last) - Sold(cs) + NewSum(cs) + 0x1_0000_0000 * Grown(cs)
            && (Volume(view) == Volume(last) - Sold(cs) + NewSum(cs) <==>
                  forall i :: 0 <= i < |cs| ==> !Grows(cs[i]))
  {
    WalkSides(last, view);
    ChangesConserve(Walk(last, view));
    NoneGrown(Walk(last, view));
  }

  /**
   Two views of one order: the books balance exactly if its volume did not grow. One whose volume goes from 1 to 2
   counts as 2^32 - 1 sold.
   */
  lemma {:induction false} OneOrderBalances(o: Order, p: Order)
    requires o.id == p.id
    ensures var cs := Walk([o], [p]);
            && cs == [Matched(o, p)] && Sold(cs) == Minus32(o.volume, p.volume) && NewSum(cs) == 0
            && (Volume([p]) == Volume([o]) - Sold(cs) + NewSum(cs) <==> p.volume <= o.volume)
    ensures o.volume == 1 && p.volume == 2 ==> Sold(Walk([o], [p])) == 0xFFFF_FFFF
  {
    var cs := [Matched(o, p)];
    assert [o][1..] == [] && [p][1..] == [] && cs[1..] == [];
    assert Walk([o], [p]) == cs + Walk([], []);
    assert Volume([]) == 0 && Sold([]) == 0 && NewSum([]) == 0;
  }

  // ------------------------------------------------ sorted views

  /** A change says the truth about its order. */
  ghost predicate Right(last: seq<Order>, view: seq<Order>, c: Change) {
    match c
    case Matched(a, b) => a in last && b in view && a.id == b.id
    case Cleared(a) => a in last && forall b :: b in view ==> a.id != b.id
    case Fresh(b) => b in view && forall a :: a in last ==> a.id != b.id
  }

  /**
   For views sorted by id the walk pairs exactly the orders with a common id: what it calls cleared is gone, what it
   calls new was not there.
   */
  lemma {:induction false} WalkOfSorted(last: seq<Order>, view: seq<Order>, i: nat)
    requires SortedById(last) && SortedById(view) && i < |Walk(last, view)|
    ensures Right(last, view, Walk(last, view)[i])
    decreases |last| + |view|
  {
    var c, last', view' := WalkStep(last, view);
    if i == 0 {
      FirstRight(last, view, c);
    } else {
      assert SortedById(last') by { TailSorted(last, if c.Fresh? then [] else [c.before], last'); }
      assert SortedById(view') by { TailSorted(view, if c.Cleared? then [] else [c.after], view'); }
      WalkOfSorted(last', view', i - 1);
      FirstRight(last, view, c);
      StillRight(last, view, c, last', view', Walk(last', view')[i - 1]);
    }
  }

  lemma {:induction false} TailSorted(s: seq<Order>, front: seq<Order>, rest: seq<Order>)
    requires SortedById(s) && s == front + rest
    ensures SortedById(rest)
  {
    forall i, j | 0 <= i < j < |rest| ensures rest[i].id < rest[j].id {
      assert rest[i] == s[|front| + i] && rest[j] == s[|front| + j];
    }
  }

  lemma {:induction false} FirstRight(last: seq<Order>, view: seq<Order>, c: Change)
    requires SortedById(last) && SortedById(view) && (last != [] || view != []) && c == Walk(last, view)[0]
    ensures Right(last, view, c)
  {
  }

  lemma {:induction false} StillRight(last: seq<Order>, view: seq<Order>, first: Change, last': seq<Order>,
                                      view': seq<Order>, c: Change)
    requires SortedById(last) && SortedById(view)
    requires last == (if first.Fresh? then [] else [first.before]) + last'
    requires view == (if first.Cleared? then [] else [first.after]) + view'
    requires Right(last, view, first) && Right(last', view', c)
    ensures Right(last, view, c)
  {
    if c.Cleared? {
      forall b | b in view ensures c.before.id != b.id {
        if b !in view' && first.Matched? {
          HeadIsLess(last, last', c.before);
        }
      }
    } else if c.Fresh? {
      forall a | a in last ensures a.id != c.after.id {
        if a !in last' && first.Matched? {
          HeadIsLess(view, view', c.after);
        }
      }
    }
  }

  lemma {:induction false} HeadIsLess(s: seq<Order>, rest: seq<Order>, o: Order)
    requires SortedById(s) && s != [] && s[1..] == rest && o in rest
    ensures s[0].id < o.id
  {
    var i: nat :| i < |rest| && rest[i] == o;
    assert s[i + 1] == o;
  }

  lemma {:induction false} InBefores(cs: seq<Change>, a: Order) returns (i: nat)
    requires a in Befores(cs)
    ensures i < |cs| && !cs[i].Fresh? && cs[i].before == a
  {
    if !cs[0].Fresh? && cs[0].before == a {
      i := 0;
    } else {
      i := InBefores(cs[1..], a);
      i := i + 1;
    }
  }

  lemma {:induction false} SameOrder(s: seq<Order>, a: Order, b: Order)
    requires SortedById(s) && a in s && b in s && a.id == b.id
    ensures a == b
  {
  }

  /** No order of both views has grown. */
  predicate NoneGrew(last: seq<Order>, view: seq<Order>) {
    forall a, b :: a in last && b in view && a.id == b.id ==> b.volume <= a.volume
  }

  /** For views sorted by id the books balance exactly if no order that is in both views has grown. */
  lemma {:induction false} SortedBalances(last: seq<Order>, view: seq<Order>)
    requires SortedById(last) && SortedById(view)
    ensures var cs := Walk(last, view);
            Volume(view) == Volume(last) - Sold(cs) + NewSum(cs) <==> NoneGrew(last, view)
  {
    var cs := Walk(last, view);
    Conserves(last, view);
    WalkSides(last, view);
    forall i | 0 <= i < |cs| ensures Right(last, view, cs[i]) {
      WalkOfSorted(last, view, i);
    }
    if forall i :: 0 <= i < |cs| ==> !Grows(cs[i]) {
      forall a, b | a in last && b in view && a.id == b.id ensures b.volume <= a.volume {
        var i := InBefores(cs, a);
        assert Right(last, view, cs[i]);
        SameOrder(view, cs[i].after, b);
      }
    }
  }

  // ------------------------------------------------ a run of views

  /** What the sold and the new volumes of a run of views add up to. */
  function SoldInRun(views: seq<seq<Order>>): int {
    if |views| < 2 then 0 else Sold(Walk(views[0], views[1])) + SoldInRun(views[1..])
  }

  function NewInRun(views: seq<seq<Order>>): int {
    if |views| < 2 then 0 else NewSum(Walk(views[0], views[1])) + NewInRun(views[1..])
  }

  function GrownInRun(views: seq<seq<Order>>): nat {
    if |views| < 2 then 0 else Grown(Walk(views[0], views[1])) + GrownInRun(views[1..])
  }

  /** Over any run of views, what was sold and what was new account for the whole change of the total. */
  lemma {:induction false} RunConserves(views: seq<seq<Order>>)
    requires views != []
    ensures Volume(views[|views| - 1]) ==
            Volume(views[0]) - SoldInRun(views) + NewInRun(views) + 0x1_0000_0000 * GrownInRun(views)
  {
    if |views| >= 2 {
      RunConserves(views[1..]);
      Conserves(views[0], views[1]);
    }
  }
}
