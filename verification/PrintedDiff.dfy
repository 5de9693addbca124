/**
 What `TritaniumBuyAnalysis::step` prints and writes to its files for a pair of views (apps/pricing/main.cpp:150-241):
 the entries in a stable order by price, the prices of changed and new orders, the lowest and the highest price.
 */
module PrintedDiff {
  import opened Orders
  import opened ViewDiff

  // ------------------------------------------------ the stable sort

  function PriceOf(value: Valuation, e: Entry): real {
    value(e.order.price)
  }

  function InsertByPrice(value: Valuation, e: Entry, es: seq<Entry>): seq<Entry> {
    if es == [] || PriceOf(value, e) <= PriceOf(value, es[0]) then [e] + es
    else [es[0]] + InsertByPrice(value, e, es[1..])
  }

  /** Stands for the stable sort; `StableSortUnique` says that there is no other result. */
  function SortByPrice(value: Valuation, es: seq<Entry>): seq<Entry> {
    if es == [] then [] else InsertByPrice(value, es[0], SortByPrice(value, es[1..]))
  }

  predicate Ascending(value: Valuation, es: seq<Entry>) {
    forall i, j :: 0 <= i < j < |es| ==> PriceOf(value, es[i]) <= PriceOf(value, es[j])
  }

  /** The entries with a price, in the order in which they come. */
  function AtPrice(value: Valuation, es: seq<Entry>, p: real): seq<Entry> {
    if es == [] then []
    else (if PriceOf(value, es[0]) == p then [es[0]] else []) + AtPrice(value, es[1..], p)
  }

  lemma {:induction false} FirstAtPrice(value: Valuation, e: Entry, es: seq<Entry>, p: real)
    ensures AtPrice(value, [e] + es, p) == (if PriceOf(value, e) == p then [e] else []) + AtPrice(value, es, p)
  {
    assert ([e] + es)[1..] == es;
  }

  lemma {:induction false} NoneBelow(value: Valuation, es: seq<Entry>, p: real)
    requires forall i :: 0 <= i < |es| ==> p < PriceOf(value, es[i])
    ensures AtPrice(value, es, p) == []
  {
    if es != [] {
      NoneBelow(value, es[1..], p);
    }
  }

  lemma {:induction false} InsertStable(value: Valuation, e: Entry, es: seq<Entry>, p: real)
    ensures AtPrice(value, InsertByPrice(value, e, es), p) ==
            (if PriceOf(value, e) == p then [e] else []) + AtPrice(value, es, p)
  {
    if es == [] || PriceOf(value, e) <= PriceOf(value, es[0]) {
      FirstAtPrice(value, e, es, p);
    } else {
      InsertStable(value, e, es[1..], p);
      FirstAtPrice(value, es[0], InsertByPrice(value, e, es[1..]), p);
    }
  }

  lemma {:induction false} InsertMembers(value: Valuation, e: Entry, es: seq<Entry>)
    ensures multiset(InsertByPrice(value, e, es)) == multiset{e} + multiset(es)
  {
    if es != [] {
      assert es == [es[0]] + es[1..];
      InsertMembers(value, e, es[1..]);
    }
  }

  lemma {:induction false} AscendingCons(value: Valuation, first: Entry, rest: seq<Entry>)
    requires Ascending(value, rest) && forall e :: e in rest ==> PriceOf(value, first) <= PriceOf(value, e)
    ensures Ascending(value, [first] + rest)
  {
    forall i, j | 0 <= i < j < |rest| + 1
      ensures PriceOf(value, ([first] + rest)[i]) <= PriceOf(value, ([first] + rest)[j])
    {
      assert ([first] + rest)[j] == rest[j - 1];
    }
  }

  lemma {:induction false} InsertAscending(value: Valuation, e: Entry, es: seq<Entry>)
    requires Ascending(value, es)
    ensures Ascending(value, InsertByPrice(value, e, es))
  {
    if es == [] || PriceOf(value, e) <= PriceOf(value, es[0]) {
      AscendingCons(value, e, es);
    } else {
      InsertAscending(value, e, es[1..]);
      var r := InsertByPrice(value, e, es[1..]);
      InsertMembers(value, e, es[1..]);
      forall d | d in r ensures PriceOf(value, es[0]) <= PriceOf(value, d) {
        assert d in multiset(r);
      }
      AscendingCons(value, es[0], r);
    }
  }

  /** Ascending by price, with nothing added or lost, and entries with one price in the order of their emission. */
  lemma {:induction false} StableSorted(value: Valuation, es: seq<Entry>)
    ensures var printed := SortByPrice(value, es);
            && Ascending(value, printed) && multiset(printed) == multiset(es)
            && SameAtPrices(value, printed, es)
  {
    if es != [] {
      var sorted := SortByPrice(value, es[1..]);
      StableSorted(value, es[1..]);
      InsertAscending(value, es[0], sorted);
      InsertMembers(value, es[0], sorted);
      assert es == [es[0]] + es[1..];
      forall p ensures AtPrice(value, SortByPrice(value, es), p) == AtPrice(value, es, p) {
        InsertStable(value, es[0], sorted, p);
      }
    }
  }

  lemma {:induction false} HeadAtPrice(value: Valuation, s: seq<Entry>)
    requires s != []
    ensures AtPrice(value, s, PriceOf(value, s[0])) != [] && AtPrice(value, s, PriceOf(value, s[0]))[0] == s[0]
  {
  }

  lemma {:induction false} TailAtPrice(value: Valuation, s: seq<Entry>, p: real)
    requires s != []
    ensures AtPrice(value, s[1..], p) ==
            if PriceOf(value, s[0]) == p then AtPrice(value, s, p)[1..] else AtPrice(value, s, p)
  {
  }

  ghost predicate SameAtPrices(value: Valuation, s: seq<Entry>, t: seq<Entry>) {
    forall p :: AtPrice(value, s, p) == AtPrice(value, t, p)
  }

  lemma {:induction false} NotAbove(value: Valuation, s: seq<Entry>, t: seq<Entry>)
    requires s != [] && Ascending(value, t) && SameAtPrices(value, s, t)
    ensures t != [] && PriceOf(value, t[0]) <= PriceOf(value, s[0])
  {
    HeadAtPrice(value, s);
    if t != [] && PriceOf(value, s[0]) < PriceOf(value, t[0]) {
      NoneBelow(value, t, PriceOf(value, s[0]));
    }
  }

  /** This determines what is printed. */
  lemma {:induction false} StableSortUnique(value: Valuation, s: seq<Entry>, t: seq<Entry>)
    requires Ascending(value, s) && Ascending(value, t) && SameAtPrices(value, s, t)
    ensures s == t
  {
    if s != [] || t != [] {
      if s != [] {
        NotAbove(value, s, t);
      }
      if t != [] {
        NotAbove(value, t, s);
      }
      HeadAtPrice(value, s);
      HeadAtPrice(value, t);
      forall p ensures AtPrice(value, s[1..], p) == AtPrice(value, t[1..], p) {
        TailAtPrice(value, s, p);
        TailAtPrice(value, t, p);
      }
      StableSortUnique(value, s[1..], t[1..]);
      assert s == [s[0]] + s[1..] && t == [t[0]] + t[1..];
    }
  }

  // ------------------------------------------------ the printed difference is lossless

  lemma {:induction false} Swapped(a: seq<Order>, b: seq<Order>, s: seq<Order>)
    ensures multiset(a + (b + s)) == multiset(b + (a + s))
  {
  }

  lemma {:induction false} InsertSides(value: Valuation, e: Entry, es: seq<Entry>)
    ensures multiset(OldSide(InsertByPrice(value, e, es))) == multiset(OldSide([e] + es))
    ensures multiset(NewSide(InsertByPrice(value, e, es))) == multiset(NewSide([e] + es))
  {
    if es != [] && PriceOf(value, es[0]) < PriceOf(value, e) {
      var rest := es[1..];
      InsertSides(value, e, rest);
      SidesSwap(e, es, InsertByPrice(value, e, rest));
    }
  }

  lemma {:induction false} SidesSwap(e: Entry, es: seq<Entry>, inserted: seq<Entry>)
    requires es != []
    requires multiset(OldSide(inserted)) == multiset(OldSide([e] + es[1..]))
    requires multiset(NewSide(inserted)) == multiset(NewSide([e] + es[1..]))
    ensures multiset(OldSide([es[0]] + inserted)) == multiset(OldSide([e] + es))
    ensures multiset(NewSide([es[0]] + inserted)) == multiset(NewSide([e] + es))
  {
    var f, rest := es[0], es[1..];
    assert es == [f] + rest;
    EntryAdded(f, inserted);
    EntryAdded(e, rest);
    EntryAdded(f, rest);
    EntryAdded(e, [f] + rest);
    Swapped(if e.kind == NEW then [] else [e.order], if f.kind == NEW then [] else [f.order], OldSide(rest));
    Swapped(if e.kind == OLD then [] else [e.order], if f.kind == OLD then [] else [f.order], NewSide(rest));
  }

  lemma {:induction false} SortedSides(value: Valuation, es: seq<Entry>)
    ensures multiset(OldSide(SortByPrice(value, es))) == multiset(OldSide(es))
    ensures multiset(NewSide(SortByPrice(value, es))) == multiset(NewSide(es))
  {
    if es != [] {
      SortedSides(value, es[1..]);
      InsertSides(value, es[0], SortByPrice(value, es[1..]));
      EntryAdded(es[0], SortByPrice(value, es[1..]));
      EntryAdded(es[0], es[1..]);
      assert es == [es[0]] + es[1..];
    }
  }

  /**
   Both views can be read off what is printed, up to the order: the old one in full, of the new one ids, prices and
   volumes.
   */
  lemma {:induction false} PrintedLossless(value: Valuation, last: seq<Order>, view: seq<Order>)
    returns (alike: seq<Order>)
    ensures var printed := SortByPrice(value, Entries(value, Walk(last, view)));
            && multiset(OldSide(printed)) == multiset(last)
            && multiset(NewSide(printed)) == multiset(alike) && AllAlike(value, alike, view)
  {
    var es := Entries(value, Walk(last, view));
    alike := NewSide(es);
    Lossless(value, last, view);
    SortedSides(value, es);
  }

  // ------------------------------------------------ the files

  datatype PriceChange = PriceChange(before: real, after: real, range: I8)

  function PriceChanges(value: Valuation, cs: seq<Change>): seq<PriceChange> {
    if cs == [] then []
    else (match cs[0]
          case Matched(a, b) => [PriceChange(value(a.price), value(b.price), a.range)]
          case _ => []) + PriceChanges(value, cs[1..])
  }

  /** The orders that are new. */
  function News(cs: seq<Change>): seq<Order> {
    if cs == [] then [] else (if cs[0].Fresh? then [cs[0].after] else []) + News(cs[1..])
  }

  /** Their number and volume are what is summed up. */
  lemma {:induction false} NewsCounted(cs: seq<Change>)
    ensures NewCount(cs) == |News(cs)| && NewSum(cs) == Volume(News(cs))
  {
    if cs != [] {
      NewsCounted(cs[1..]);
      VolumeOfPart(if cs[0].Fresh? then [cs[0].after] else [], News(cs[1..]));
    }
  }

  function Lower(a: real, b: real): real {
    if b < a then b else a
  }

  function Higher(a: real, b: real): real {
    if a < b then b else a
  }

  function Lowest(value: Valuation, s: seq<Order>): real
    requires s != []
  {
    if |s| == 1 then value(s[0].price) else Lower(Lowest(value, s[..|s| - 1]), value(s[|s| - 1].price))
  }

  function Highest(value: Valuation, s: seq<Order>): real
    requires s != []
  {
    if |s| == 1 then value(s[0].price) else Higher(Highest(value, s[..|s| - 1]), value(s[|s| - 1].price))
  }

  /** They are prices of orders, and no order has a lower or a higher one. */
  lemma {:induction false} LowestAndHighest(value: Valuation, s: seq<Order>)
    requires s != []
    ensures forall o :: o in s ==> Lowest(value, s) <= value(o.price) <= Highest(value, s)
    ensures exists o :: o in s && value(o.price) == Lowest(value, s)
    ensures exists o :: o in s && value(o.price) == Highest(value, s)
  {
    var front, o := s[..|s| - 1], s[|s| - 1];
    assert s == front + [o];
    if front == [] {
      assert s == [o];
    } else {
      LowestAndHighest(value, front);
    }
    assert o in s;
  }
}
