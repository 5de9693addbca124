/** What the printed notes, the logged price changes and the logged lines say about two views sorted by id. */
module DiffMeaning {
  import opened Orders
  import opened ViewDiff
  import opened PrintedDiff

  // ------------------------------------------------ all changes

  lemma {:induction false} InAfters(cs: seq<Change>, b: Order) returns (i: nat)
    requires b in Afters(cs)
    ensures i < |cs| && !cs[i].Cleared? && cs[i].after == b
  {
    if !cs[0].Cleared? && cs[0].after == b {
      i := 0;
    } else {
      i := InAfters(cs[1..], b);
      i := i + 1;
    }
  }

  /** For sorted views the walk has a change for each id, and no other. */
  lemma {:induction false} ChangesExactly(last: seq<Order>, view: seq<Order>, c: Change)
    requires SortedById(last) && SortedById(view)
    ensures c in Walk(last, view) <==> Right(last, view, c)
  {
    var cs := Walk(last, view);
    WalkSides(last, view);
    if c in cs {
      var i: nat :| i < |cs| && cs[i] == c;
      WalkOfSorted(last, view, i);
    }
    if Right(last, view, c) {
      var i: nat;
      if c.Fresh? {
        i := InAfters(cs, c.after);
      } else {
        i := InBefores(cs, c.before);
      }
      WalkOfSorted(last, view, i);
      if c.Matched? && cs[i].Matched? {
        SameOrder(view, cs[i].after, c.after);
      }
      assert cs[i] == c;
    }
  }

  // ------------------------------------------------ the notes

  /** What a note printed with two orders of an id says. */
  predicate Says(value: Valuation, note: Note, a: Order, b: Order) {
    match note
    case PriceIncreaseAndVolumeChange => value(a.price) < value(b.price) && a.volume != b.volume
    case PriceDecreaseAndVolumeChange => value(b.price) < value(a.price) && a.volume != b.volume
    case PriceIncrease => value(a.price) < value(b.price) && a.volume == b.volume
    case PriceDecrease => value(b.price) < value(a.price) && a.volume == b.volume
    case VolumeChange => value(a.price) == value(b.price) && a.volume != b.volume
    case UnchangedOrder => value(a.price) == value(b.price) && a.volume == b.volume
    case NewOrder => false
    case ClearedOrder => false
  }

  /** An entry that two orders with one id deserve. */
  predicate Deserved(value: Valuation, e: Entry, a: Order, b: Order) {
    a.id == b.id && Says(value, e.note, a, b)
    && if e.note == UnchangedOrder then e.kind == UNCHANGED && e.order == a
       else (e.kind == OLD && e.order == a) || (e.kind == NEW && e.order == b)
  }

  ghost predicate True(value: Valuation, last: seq<Order>, view: seq<Order>, e: Entry) {
    match e.note
    case NewOrder => e.kind == NEW && e.order in view && forall a :: a in last ==> a.id != e.order.id
    case ClearedOrder => e.kind == OLD && e.order in last && forall b :: b in view ==> b.id != e.order.id
    case _ => exists a, b :: a in last && b in view && Deserved(value, e, a, b)
  }

  lemma {:induction false} EntryOfChange(value: Valuation, cs: seq<Change>, e: Entry)
    ensures e in Entries(value, cs) <==> exists c :: c in cs && e in EntriesOf(value, c)
  {
    if cs != [] {
      EntryOfChange(value, cs[1..], e);
      assert cs == [cs[0]] + cs[1..];
    }
  }

  lemma {:induction false} MatchedEntries(value: Valuation, a: Order, b: Order, e: Entry)
    requires a.id == b.id
    ensures e in EntriesOf(value, Matched(a, b)) <==> Deserved(value, e, a, b)
  {
  }

  /**
   An entry with a note is printed exactly if it is true: there are an old and a new order with its id whose prices
   and volumes compare as the note says, or the id is in one view only.
   */
  lemma {:induction false} NotesAreTrue(value: Valuation, last: seq<Order>, view: seq<Order>, e: Entry)
    requires SortedById(last) && SortedById(view)
    ensures e in Entries(value, Walk(last, view)) <==> True(value, last, view, e)
  {
    var cs := Walk(last, view);
    EntryOfChange(value, cs, e);
    if c :| c in cs && e in EntriesOf(value, c) {
      ChangesExactly(last, view, c);
      if c.Matched? {
        MatchedEntries(value, c.before, c.after, e);
      }
    }
    if True(value, last, view, e) {
      var c := DeservedBy(value, last, view, e);
      ChangesExactly(last, view, c);
    }
  }

  lemma {:induction false} DeservedBy(value: Valuation, last: seq<Order>, view: seq<Order>, e: Entry)
    returns (c: Change)
    requires SortedById(last) && SortedById(view) && True(value, last, view, e)
    ensures Right(last, view, c) && e in EntriesOf(value, c)
  {
    if e.note == NewOrder {
      c := Fresh(e.order);
    } else if e.note == ClearedOrder {
      c := Cleared(e.order);
    } else {
      var a, b :| a in last && b in view && Deserved(value, e, a, b);
      c := Matched(a, b);
      MatchedEntries(value, a, b, e);
    }
  }

  // ------------------------------------------------ the order of the entries

  function IdOf(c: Change): Id {
    if c.Fresh? then c.after.id else c.before.id
  }

  ghost predicate AllBehind(x: int, cs: seq<Change>) {
    forall i :: 0 <= i < |cs| ==> x < IdOf(cs[i])
  }

  /** The walk goes through the ids in ascending order. */
  lemma {:induction false} FirstIsLeast(last: seq<Order>, view: seq<Order>)
    requires SortedById(last) && SortedById(view) && (last != [] || view != [])
    ensures var cs := Walk(last, view); AllBehind(IdOf(cs[0]), cs[1..])
  {
    var cs := Walk(last, view);
    var c, last', view' := WalkStep(last, view);
    TailSorted(last, if c.Fresh? then [] else [c.before], last');
    TailSorted(view, if c.Cleared? then [] else [c.after], view');
    forall i | 0 <= i < |cs[1..]| ensures IdOf(c) < IdOf(cs[1..][i]) {
      WalkOfSorted(last', view', i);
      var d := cs[1..][i];
      if !d.Fresh? {
        BehindFirst(last, view, c, last', view', d.before);
      } else {
        BehindFirst(last, view, c, last', view', d.after);
      }
    }
  }

  lemma {:induction false} BehindFirst(last: seq<Order>, view: seq<Order>, c: Change, last': seq<Order>,
                                       view': seq<Order>, o: Order)
    requires SortedById(last) && SortedById(view) && (last != [] || view != []) && c == Walk(last, view)[0]
    requires last' == (if c.Fresh? then last else last[1..]) && view' == (if c.Cleared? then view else view[1..])
    requires o in last' || o in view'
    ensures IdOf(c) < o.id
  {
    if o in last' {
      var i: nat :| i < |last'| && last'[i] == o;
      assert o == last[if c.Fresh? then i else i + 1];
    } else {
      var i: nat :| i < |view'| && view'[i] == o;
      assert o == view[if c.Cleared? then i else i + 1];
    }
  }

  /** Ascending by id, of two entries with one id the old order first. */
  ghost predicate Emitted(es: seq<Entry>) {
    forall i, j :: 0 <= i < j < |es| ==>
      es[i].order.id < es[j].order.id || (es[i].order.id == es[j].order.id && es[i].kind == OLD && es[j].kind == NEW)
  }

  lemma {:induction false} EntriesBehind(value: Valuation, x: int, cs: seq<Change>)
    requires AllBehind(x, cs) && forall i :: 0 <= i < |cs| && cs[i].Matched? ==> cs[i].before.id == cs[i].after.id
    ensures forall e :: e in Entries(value, cs) ==> x < e.order.id
  {
    if cs != [] {
      EntriesBehind(value, x, cs[1..]);
    }
  }

  lemma {:induction false} EmittedInOrder(value: Valuation, last: seq<Order>, view: seq<Order>)
    requires SortedById(last) && SortedById(view)
    ensures Emitted(Entries(value, Walk(last, view)))
    decreases |last| + |view|
  {
    if last != [] || view != [] {
      var cs := Walk(last, view);
      var c, last', view' := WalkStep(last, view);
      TailSorted(last, if c.Fresh? then [] else [c.before], last');
      TailSorted(view, if c.Cleared? then [] else [c.after], view');
      EmittedInOrder(value, last', view');
      FirstIsLeast(last, view);
      forall i | 0 <= i < |cs[1..]| && cs[1..][i].Matched? ensures cs[1..][i].before.id == cs[1..][i].after.id {
        WalkOfSorted(last', view', i);
      }
      EntriesBehind(value, IdOf(c), cs[1..]);
      FirstEmitted(value, c, Entries(value, cs[1..]));
    }
  }

  lemma {:induction false} FirstEmitted(value: Valuation, c: Change, es: seq<Entry>)
    requires c.Matched? ==> c.before.id == c.after.id
    requires Emitted(es) && forall e :: e in es ==> IdOf(c) < e.order.id
    ensures Emitted(EntriesOf(value, c) + es)
  {
    var some := EntriesOf(value, c);
    var all := some + es;
    assert forall i :: 0 <= i < |some| ==> some[i].order.id == IdOf(c);
    forall i, j | 0 <= i < j < |all|
      ensures all[i].order.id < all[j].order.id
              || (all[i].order.id == all[j].order.id && all[i].kind == OLD && all[j].kind == NEW)
    {
      if i < |some| && j >= |some| {
        assert all[j] in es;
      } else if i >= |some| {
        assert all[i] == es[i - |some|] && all[j] == es[j - |some|];
      }
    }
  }

  /** Of two entries with one id and one price the old order is printed first. */
  ghost predicate OldFirst(value: Valuation, es: seq<Entry>) {
    forall i, j :: 0 <= i < j < |es| && SamePlace(value, es[i], es[j]) ==> es[i].kind == OLD && es[j].kind == NEW
  }

  predicate SamePlace(value: Valuation, d: Entry, e: Entry) {
    d.order.id == e.order.id && PriceOf(value, d) == PriceOf(value, e)
  }

  lemma {:induction false} OldFirstCons(value: Valuation, e: Entry, es: seq<Entry>)
    requires OldFirst(value, es)
    requires forall d :: d in es && SamePlace(value, e, d) ==> e.kind == OLD && d.kind == NEW
    ensures OldFirst(value, [e] + es)
  {
    var all := [e] + es;
    forall i, j | 0 <= i < j < |all| && SamePlace(value, all[i], all[j])
      ensures all[i].kind == OLD && all[j].kind == NEW
    {
      assert all[j] == es[j - 1];
      if i > 0 {
        assert all[i] == es[i - 1];
      }
    }
  }

  lemma {:induction false} InsertOldFirst(value: Valuation, e: Entry, es: seq<Entry>)
    requires OldFirst(value, es)
    requires forall d :: d in es && d.order.id == e.order.id ==> e.kind == OLD && d.kind == NEW
    ensures OldFirst(value, InsertByPrice(value, e, es))
  {
    if es == [] || PriceOf(value, e) <= PriceOf(value, es[0]) {
      OldFirstCons(value, e, es);
    } else {
      var first, rest := es[0], es[1..];
      InsertOldFirst(value, e, rest);
      InsertMembers(value, e, rest);
      var r := InsertByPrice(value, e, rest);
      forall d | d in r && SamePlace(value, first, d) ensures first.kind == OLD && d.kind == NEW {
        assert d in multiset(r);
        var i :| 0 <= i < |rest| && rest[i] == d;
        assert es[i + 1] == d;
      }
      OldFirstCons(value, first, r);
    }
  }

  lemma {:induction false} SortedOldFirst(value: Valuation, es: seq<Entry>)
    requires Emitted(es)
    ensures OldFirst(value, SortByPrice(value, es))
  {
    if es != [] {
      var sorted := SortByPrice(value, es[1..]);
      SortedOldFirst(value, es[1..]);
      StableSorted(value, es[1..]);
      forall d | d in sorted && d.order.id == es[0].order.id ensures es[0].kind == OLD && d.kind == NEW {
        assert d in multiset(sorted);
        var i :| 0 <= i < |es[1..]| && es[1..][i] == d;
        assert es[i + 1] == d;
      }
      InsertOldFirst(value, es[0], sorted);
    }
  }

  /** What is printed for two sorted views: if only the volume of an order changed, its old state comes first. */
  lemma {:induction false} PrintedOldFirst(value: Valuation, last: seq<Order>, view: seq<Order>)
    requires SortedById(last) && SortedById(view)
    ensures OldFirst(value, SortByPrice(value, Entries(value, Walk(last, view))))
  {
    EmittedInOrder(value, last, view);
    SortedOldFirst(value, Entries(value, Walk(last, view)));
  }

  // ------------------------------------------------ the lists

  predicate HasId(t: seq<Order>, o: Order) {
    exists i :: 0 <= i < |t| && t[i].id == o.id
  }

  /** The orders of `s` whose id is in `t`, in their order. */
  function Common(s: seq<Order>, t: seq<Order>): seq<Order> {
    if s == [] then []
    else (if HasId(t, s[0]) then [s[0]] else []) + Common(s[1..], t)
  }

  /** The orders of `s` whose id is not in `t`, in their order. */
  function Others(s: seq<Order>, t: seq<Order>): seq<Order> {
    if s == [] then []
    else (if HasId(t, s[0]) then [] else [s[0]]) + Others(s[1..], t)
  }

  function OldMatched(cs: seq<Change>): seq<Order> {
    if cs == [] then [] else (if cs[0].Matched? then [cs[0].before] else []) + OldMatched(cs[1..])
  }

  function NewMatched(cs: seq<Change>): seq<Order> {
    if cs == [] then [] else (if cs[0].Matched? then [cs[0].after] else []) + NewMatched(cs[1..])
  }

  /** Each change pairs what the views have in common. */
  ghost predicate Pairs(cs: seq<Change>, last: seq<Order>, view: seq<Order>) {
    forall i :: 0 <= i < |cs| ==> Right(last, view, cs[i])
  }

  lemma {:induction false} RestPairs(cs: seq<Change>, last: seq<Order>, view: seq<Order>)
    requires cs != [] && Pairs(cs, last, view)
    ensures Right(last, view, cs[0]) && Pairs(cs[1..], last, view)
  {
    forall i | 0 <= i < |cs[1..]| ensures Right(last, view, cs[1..][i]) {
      assert cs[1..][i] == cs[i + 1];
    }
  }

  lemma {:induction false} FirstCommon(o: Order, rest: seq<Order>, t: seq<Order>)
    ensures Common([o] + rest, t) == (if HasId(t, o) then [o] else []) + Common(rest, t)
    ensures Others([o] + rest, t) == (if HasId(t, o) then [] else [o]) + Others(rest, t)
  {
    assert ([o] + rest)[1..] == rest;
  }

  lemma {:induction false} SharedId(last: seq<Order>, view: seq<Order>, c: Change)
    requires Right(last, view, c)
    ensures !c.Fresh? ==> (HasId(view, c.before) <==> c.Matched?)
    ensures !c.Cleared? ==> (HasId(last, c.after) <==> c.Matched?)
  {
    if c.Matched? {
      var i :| 0 <= i < |last| && last[i] == c.before;
      var j :| 0 <= j < |view| && view[j] == c.after;
    }
  }

  lemma {:induction false} OldInCommon(cs: seq<Change>, last: seq<Order>, view: seq<Order>)
    requires Pairs(cs, last, view)
    ensures OldMatched(cs) == Common(Befores(cs), view)
  {
    if cs != [] {
      var c := cs[0];
      RestPairs(cs, last, view);
      OldInCommon(cs[1..], last, view);
      SharedId(last, view, c);
      if c.Fresh? {
        assert Befores(cs) == Befores(cs[1..]) && OldMatched(cs) == OldMatched(cs[1..]);
      } else {
        FirstCommon(c.before, Befores(cs[1..]), view);
      }
    }
  }

  lemma {:induction false} NewInCommon(cs: seq<Change>, last: seq<Order>, view: seq<Order>)
    requires Pairs(cs, last, view)
    ensures NewMatched(cs) == Common(Afters(cs), last)
  {
    if cs != [] {
      var c := cs[0];
      RestPairs(cs, last, view);
      NewInCommon(cs[1..], last, view);
      SharedId(last, view, c);
      if c.Cleared? {
        assert Afters(cs) == Afters(cs[1..]) && NewMatched(cs) == NewMatched(cs[1..]);
      } else {
        FirstCommon(c.after, Afters(cs[1..]), last);
      }
    }
  }

  lemma {:induction false} NewsAreOthers(cs: seq<Change>, last: seq<Order>, view: seq<Order>)
    requires Pairs(cs, last, view)
    ensures News(cs) == Others(Afters(cs), last)
  {
    if cs != [] {
      var c := cs[0];
      RestPairs(cs, last, view);
      NewsAreOthers(cs[1..], last, view);
      SharedId(last, view, c);
      if c.Cleared? {
        assert Afters(cs) == Afters(cs[1..]) && News(cs) == News(cs[1..]);
      } else {
        FirstCommon(c.after, Afters(cs[1..]), last);
      }
    }
  }

  lemma {:induction false} ChangesListed(value: Valuation, cs: seq<Change>)
    requires forall i :: 0 <= i < |cs| && cs[i].Matched? ==> cs[i].before.id == cs[i].after.id
    ensures var olds, news, prices := OldMatched(cs), NewMatched(cs), PriceChanges(value, cs);
            && |prices| == |olds| == |news|
            && forall i :: 0 <= i < |prices| ==>
                 && olds[i].id == news[i].id
                 && prices[i] == PriceChange(value(olds[i].price), value(news[i].price), olds[i].range)
  {
    if cs != [] {
      ChangesListed(value, cs[1..]);
    }
  }

  /**
   The logged price changes are those of the common ids, in the order of the ids: old price, new price, range of the
   old order. The new orders listed are those of the new view whose id the old one does not have.
   */
  lemma {:induction false} ListsAreRight(value: Valuation, last: seq<Order>, view: seq<Order>)
    requires SortedById(last) && SortedById(view)
    ensures var olds, news := Common(last, view), Common(view, last);
            var prices := PriceChanges(value, Walk(last, view));
            && |prices| == |olds| == |news|
            && forall i :: 0 <= i < |prices| ==>
                 && olds[i].id == news[i].id
                 && prices[i] == PriceChange(value(olds[i].price), value(news[i].price), olds[i].range)
    ensures News(Walk(last, view)) == Others(view, last)
  {
    var cs := Walk(last, view);
    forall i | 0 <= i < |cs| ensures Right(last, view, cs[i]) {
      WalkOfSorted(last, view, i);
    }
    WalkSides(last, view);
    OldInCommon(cs, last, view);
    NewInCommon(cs, last, view);
    NewsAreOthers(cs, last, view);
    ChangesListed(value, cs);
  }
}
