/**
 The merge of one page into the book: which orders of the page's id interval are new, changed or gone.
 Follows json_writer.cpp:261-406 without the slot bookkeeping.
 */
module PageMerge {
  import opened Orders

  /** First position whose id is not below `x`, as `std::lower_bound` finds it. */
  function LowerBound(s: seq<Order>, x: Id): (r: nat)
    ensures r <= |s|
  {
    if s == [] || s[0].id >= x then 0 else 1 + LowerBound(s[1..], x)
  }

  /** First position whose id is above `x`, as `std::upper_bound` finds it. */
  function UpperBound(s: seq<Order>, x: Id): (r: nat)
    ensures r <= |s|
  {
    if s == [] || s[0].id > x then 0 else 1 + UpperBound(s[1..], x)
  }

  lemma {:induction false} LowerBoundCuts(s: seq<Order>, x: Id)
    requires SortedById(s)
    ensures forall i :: 0 <= i < |s| ==> (i < LowerBound(s, x) <==> s[i].id < x)
  {
    if s != [] && s[0].id < x {
      LowerBoundCuts(s[1..], x);
      forall i | 0 <= i < |s| ensures i < LowerBound(s, x) <==> s[i].id < x {
        if i > 0 { assert s[i] == s[1..][i - 1]; }
      }
    }
  }

  lemma {:induction false} UpperBoundCuts(s: seq<Order>, x: Id)
    requires SortedById(s)
    ensures forall i :: 0 <= i < |s| ==> (i < UpperBound(s, x) <==> s[i].id <= x)
  {
    if s != [] && s[0].id <= x {
      UpperBoundCuts(s[1..], x);
      forall i | 0 <= i < |s| ensures i < UpperBound(s, x) <==> s[i].id <= x {
        if i > 0 { assert s[i] == s[1..][i - 1]; }
      }
    }
  }

  /** What the merge does with one id of the interval; an order that is still the same causes no action. */
  datatype Action = New(order: Order) | Change(order: Order) | Delete(order: Order)

  function Actions(cur: seq<Order>, last: seq<Order>): seq<Action>
    decreases |cur| + |last|
  {
    if cur == [] && last == [] then []
    else if last == [] || (cur != [] && cur[0].id < last[0].id) then
      [New(cur[0])] + Actions(cur[1..], last)
    else if cur == [] || last[0].id < cur[0].id then
      [Delete(last[0])] + Actions(cur, last[1..])
    else if !SameOffer(cur[0], last[0]) then
      [Change(cur[0])] + Actions(cur[1..], last[1..])
    else
      Actions(cur[1..], last[1..])
  }

  // ------------------------------------------------ every id of the interval exactly once

  ghost predicate SortedActions(acts: seq<Action>) {
    forall i, j :: 0 <= i < j < |acts| ==> acts[i].order.id < acts[j].order.id
  }

  ghost predicate AllAbove(x: int, s: seq<Order>) {
    forall i :: 0 <= i < |s| ==> x < s[i].id
  }

  ghost predicate AscendAbove(x: int, acts: seq<Action>) {
    SortedActions(acts) && forall i :: 0 <= i < |acts| ==> x < acts[i].order.id
  }

  lemma {:induction false} AscendCons(x: int, a: Action, acts: seq<Action>)
    requires x < a.order.id && AscendAbove(a.order.id, acts)
    ensures AscendAbove(x, [a] + acts)
  {
  }

  lemma {:induction false} ActionsAscend(x: int, cur: seq<Order>, last: seq<Order>)
    requires SortedById(cur) && SortedById(last) && AllAbove(x, cur) && AllAbove(x, last)
    ensures AscendAbove(x, Actions(cur, last))
    decreases |cur| + |last|
  {
    if cur == [] && last == [] {
    } else if last == [] || (cur != [] && cur[0].id < last[0].id) {
      ActionsAscend(cur[0].id, cur[1..], last);
      AscendCons(x, New(cur[0]), Actions(cur[1..], last));
    } else if cur == [] || last[0].id < cur[0].id {
      ActionsAscend(last[0].id, cur, last[1..]);
      AscendCons(x, Delete(last[0]), Actions(cur, last[1..]));
    } else {
      ActionsAscend(cur[0].id, cur[1..], last[1..]);
      AscendCons(x, Change(cur[0]), Actions(cur[1..], last[1..]));
    }
  }

  ghost predicate Listed(a: Action, cur: seq<Order>, last: seq<Order>) {
    match a
    case New(o) => o in cur && o.id !in Ids(last)
    case Change(o) => o in cur && exists l :: l in last && l.id == o.id && !SameOffer(o, l)
    case Delete(o) => o in last && o.id !in Ids(cur)
  }

  /**
   New for page-only ids, delete for old-only ids, a change for common ids whose price or volume differs,
   nothing else; in ascending order of id, so no id is handled twice.
   */
  lemma {:induction false} ActionsExactlyOnce(cur: seq<Order>, last: seq<Order>)
    requires SortedById(cur) && SortedById(last)
    ensures SortedActions(Actions(cur, last))
    ensures forall a :: a in Actions(cur, last) <==> Listed(a, cur, last)
    decreases |cur| + |last|
  {
    ActionsAscend(-1, cur, last);
    if cur == [] && last == [] {
    } else if last == [] || (cur != [] && cur[0].id < last[0].id) {
      ActionsExactlyOnce(cur[1..], last);
      forall a ensures a in Actions(cur, last) <==> Listed(a, cur, last) {
        ListedStep(a, cur, last);
      }
    } else if cur == [] || last[0].id < cur[0].id {
      ActionsExactlyOnce(cur, last[1..]);
      forall a ensures a in Actions(cur, last) <==> Listed(a, cur, last) {
        ListedStep(a, cur, last);
      }
    } else {
      ActionsExactlyOnce(cur[1..], last[1..]);
      forall a ensures a in Actions(cur, last) <==> Listed(a, cur, last) {
        ListedStep(a, cur, last);
      }
    }
  }

  lemma {:induction false} HeadTail<T>(x: T, s: seq<T>)
    requires s != []
    ensures x in s <==> x == s[0] || x in s[1..]
  {
    assert s == [s[0]] + s[1..];
  }

  lemma {:induction false} IdsHeadTail(s: seq<Order>)
    requires s != []
    ensures Ids(s) == {s[0].id} + Ids(s[1..])
  {
    forall x | x in Ids(s) ensures x in {s[0].id} + Ids(s[1..]) {
      var i :| 0 <= i < |s| && s[i].id == x;
      if i > 0 {
        assert s[1..][i - 1].id == x;
      }
    }
    forall x | x in {s[0].id} + Ids(s[1..]) ensures x in Ids(s) {
      if x != s[0].id {
        var i :| 0 <= i < |s[1..]| && s[1..][i].id == x;
        assert s[i + 1].id == x;
      }
    }
  }

  /** In a sorted sequence the head's id occurs only at the head. */
  lemma {:induction false} SortedTail(s: seq<Order>)
    requires SortedById(s) && s != []
    ensures SortedById(s[1..])
    ensures forall x :: x in Ids(s[1..]) ==> s[0].id < x
    ensures forall o :: o in s[1..] ==> s[0].id < o.id
  {
  }

  lemma {:induction false} ListedStep(a: Action, cur: seq<Order>, last: seq<Order>)
    requires SortedById(cur) && SortedById(last) && (cur != [] || last != [])
    ensures Listed(a, cur, last) <==>
            if last == [] || (cur != [] && cur[0].id < last[0].id) then
              a == New(cur[0]) || Listed(a, cur[1..], last)
            else if cur == [] || last[0].id < cur[0].id then
              a == Delete(last[0]) || Listed(a, cur, last[1..])
            else
              (a == Change(cur[0]) && !SameOffer(cur[0], last[0])) || Listed(a, cur[1..], last[1..])
  {
    if cur != [] { SortedTail(cur); IdsHeadTail(cur); HeadTail(a.order, cur); }
    if last != [] { SortedTail(last); IdsHeadTail(last); HeadTail(a.order, last); }
    if last == [] || (cur != [] && cur[0].id < last[0].id) {
      assert last != [] ==> forall x :: x in Ids(last) ==> cur[0].id < x;
      assert forall l :: l in last ==> cur[0].id < l.id;
    } else if cur == [] || last[0].id < cur[0].id {
      assert cur != [] ==> forall x :: x in Ids(cur) ==> last[0].id < x;
      if a.Change? {
        forall l | l in last && l.id == a.order.id && a.order in cur ensures l in last[1..] {
          HeadTail(l, last);
        }
      }
    } else {
      if a.Change? {
        forall l | l in last ensures l == last[0] || l in last[1..] {
          HeadTail(l, last);
        }
      }
    }
  }

  // ------------------------------------------------ what the actions do to a view of the book

  type View = map<Id, Order>

  /** A change carries price and volume only; everything else keeps the value it was stored with. */
  function Updated(view: View, o: Order): Order {
    if o.id in view then view[o.id].(price := o.price, volume := o.volume) else o
  }

  function Act(view: View, a: Action): View {
    match a
    case New(o) => view[o.id := o]
    case Change(o) => view[o.id := Updated(view, o)]
    case Delete(o) => view - {o.id}
  }

  function ActAll(view: View, acts: seq<Action>): View
    decreases |acts|
  {
    if acts == [] then view else ActAll(Act(view, acts[0]), acts[1..])
  }

  /** The lookups the writer makes before each action succeed. */
  predicate Enabled(ids: set<Id>, a: Action) {
    if a.New? then a.order.id !in ids else a.order.id in ids
  }

  function IdsAfter(ids: set<Id>, a: Action): set<Id> {
    match a
    case New(o) => ids + {o.id}
    case Change(o) => ids
    case Delete(o) => ids - {o.id}
  }

  predicate AllEnabled(ids: set<Id>, acts: seq<Action>)
    decreases |acts|
  {
    acts == [] || (Enabled(ids, acts[0]) && AllEnabled(IdsAfter(ids, acts[0]), acts[1..]))
  }

  /** `r` is `view` with the orders of `last` replaced by those of `cur`. */
  ghost predicate IsMerged(view: View, cur: seq<Order>, last: seq<Order>, r: View) {
    && r.Keys == (view.Keys - Ids(last)) + Ids(cur)
    && (forall i :: 0 <= i < |cur| ==> r[cur[i].id] == Updated(view, cur[i]))
    && (forall x :: x in view && x !in Ids(last) && x !in Ids(cur) ==> r[x] == view[x])
  }

  /** The view holds the merge's old orders, and of the page only those that are among them. */
  ghost predicate Covers(view: View, cur: seq<Order>, last: seq<Order>) {
    && SortedById(cur) && SortedById(last)
    && Ids(last) <= view.Keys && Ids(cur) * view.Keys <= Ids(last)
    && forall i :: 0 <= i < |last| ==> view[last[i].id].id == last[i].id && SameOffer(view[last[i].id], last[i])
  }

  lemma {:induction false} ActionsMeaning(view: View, cur: seq<Order>, last: seq<Order>)
    requires Covers(view, cur, last)
    ensures AllEnabled(view.Keys, Actions(cur, last))
    ensures IsMerged(view, cur, last, ActAll(view, Actions(cur, last)))
    decreases |cur| + |last|
  {
    if cur == [] && last == [] {
    } else if last == [] || (cur != [] && cur[0].id < last[0].id) {
      var rest := Actions(cur[1..], last);
      var v1 := Act(view, New(cur[0]));
      CoversAfterNew(view, cur, last);
      ActionsMeaning(v1, cur[1..], last);
      MergedWithNew(view, cur, last, ActAll(v1, rest));
      Consed(view, New(cur[0]), rest);
    } else if cur == [] || last[0].id < cur[0].id {
      var rest := Actions(cur, last[1..]);
      var v1 := Act(view, Delete(last[0]));
      CoversAfterDelete(view, cur, last);
      ActionsMeaning(v1, cur, last[1..]);
      MergedWithDelete(view, cur, last, ActAll(v1, rest));
      Consed(view, Delete(last[0]), rest);
    } else {
      var rest := Actions(cur[1..], last[1..]);
      var v1 := view[cur[0].id := Updated(view, cur[0])];
      CoversAfterCommon(view, cur, last);
      ActionsMeaning(v1, cur[1..], last[1..]);
      MergedWithCommon(view, cur, last, ActAll(v1, rest));
      if !SameOffer(cur[0], last[0]) {
        Consed(view, Change(cur[0]), rest);
      }
    }
  }

  lemma {:induction false} Consed(view: View, a: Action, rest: seq<Action>)
    requires Enabled(view.Keys, a)
    ensures ActAll(view, [a] + rest) == ActAll(Act(view, a), rest)
    ensures AllEnabled(view.Keys, [a] + rest) <==> AllEnabled(Act(view, a).Keys, rest)
  {
    assert ([a] + rest)[1..] == rest;
    assert Act(view, a).Keys == IdsAfter(view.Keys, a);
  }

  lemma {:induction false} CoversAfterNew(view: View, cur: seq<Order>, last: seq<Order>)
    requires Covers(view, cur, last) && cur != [] && (last == [] || cur[0].id < last[0].id)
    ensures cur[0].id !in view
    ensures Covers(view[cur[0].id := cur[0]], cur[1..], last)
  {
    SortedTail(cur);
    IdsHeadTail(cur);
    assert cur[0].id !in Ids(last);
  }

  lemma {:induction false} MergedWithNew(view: View, cur: seq<Order>, last: seq<Order>, r: View)
    requires Covers(view, cur, last) && cur != [] && (last == [] || cur[0].id < last[0].id)
    requires IsMerged(view[cur[0].id := cur[0]], cur[1..], last, r)
    ensures IsMerged(view, cur, last, r)
  {
    SortedTail(cur);
    IdsHeadTail(cur);
    assert cur[0].id !in Ids(last);
    forall i | 0 <= i < |cur| ensures r[cur[i].id] == Updated(view, cur[i]) {
      if i > 0 { assert cur[1..][i - 1] == cur[i]; }
    }
  }

  lemma {:induction false} CoversAfterDelete(view: View, cur: seq<Order>, last: seq<Order>)
    requires Covers(view, cur, last) && last != [] && (cur == [] || last[0].id < cur[0].id)
    ensures last[0].id in view
    ensures Covers(view - {last[0].id}, cur, last[1..])
  {
    SortedTail(last);
    IdsHeadTail(last);
    forall i | 0 <= i < |last[1..]|
      ensures last[1..][i] == last[i + 1] && last[i + 1].id in Ids(last[1..])
    {
    }
  }

  lemma {:induction false} MergedWithDelete(view: View, cur: seq<Order>, last: seq<Order>, r: View)
    requires Covers(view, cur, last) && last != [] && (cur == [] || last[0].id < cur[0].id)
    requires IsMerged(view - {last[0].id}, cur, last[1..], r)
    ensures IsMerged(view, cur, last, r)
  {
    SortedTail(last);
    IdsHeadTail(last);
    assert forall i :: 0 <= i < |cur| ==> cur[i].id != last[0].id;
  }

  lemma {:induction false} CoversAfterCommon(view: View, cur: seq<Order>, last: seq<Order>)
    requires Covers(view, cur, last) && cur != [] && last != [] && cur[0].id == last[0].id
    ensures cur[0].id in view
    ensures Covers(view[cur[0].id := Updated(view, cur[0])], cur[1..], last[1..])
    // an unchanged order is stored with its price and volume already
    ensures SameOffer(cur[0], last[0]) ==> view[cur[0].id := Updated(view, cur[0])] == view
  {
    SortedTail(cur);
    IdsHeadTail(cur);
    SortedTail(last);
    IdsHeadTail(last);
    assert view[last[0].id].id == last[0].id && SameOffer(view[last[0].id], last[0]);
    forall i | 0 <= i < |last[1..]|
      ensures last[1..][i] == last[i + 1] && last[i + 1].id in Ids(last[1..])
    {
    }
  }

  lemma {:induction false} MergedWithCommon(view: View, cur: seq<Order>, last: seq<Order>, r: View)
    requires Covers(view, cur, last) && cur != [] && last != [] && cur[0].id == last[0].id
    requires IsMerged(view[cur[0].id := Updated(view, cur[0])], cur[1..], last[1..], r)
    ensures IsMerged(view, cur, last, r)
  {
    SortedTail(cur);
    IdsHeadTail(cur);
    SortedTail(last);
    IdsHeadTail(last);
    forall i | 0 <= i < |cur| ensures r[cur[i].id] == Updated(view, cur[i]) {
      if i > 0 { assert cur[1..][i - 1] == cur[i]; }
    }
  }

  // ------------------------------------------------ the book

  /** A page covers the id interval from its first to its last order. */
  predicate InInterval(page: seq<Order>, x: Id)
    requires page != []
  {
    page[0].id <= x <= page[|page| - 1].id
  }

  function OldStart(book: seq<Order>, page: seq<Order>): (r1: nat)
    requires page != []
    ensures r1 <= |book|
  {
    LowerBound(book, page[0].id)
  }

  function OldEnd(book: seq<Order>, page: seq<Order>): (r2: nat)
    requires page != []
    ensures OldStart(book, page) <= r2 <= |book|
  {
    var r1 := OldStart(book, page);
    r1 + UpperBound(book[r1..], page[|page| - 1].id)
  }

  function OldOrders(book: seq<Order>, page: seq<Order>): seq<Order>
    requires page != []
  {
    book[OldStart(book, page)..OldEnd(book, page)]
  }

  function NewBook(book: seq<Order>, page: seq<Order>): seq<Order>
    requires page != []
  {
    book[..OldStart(book, page)] + page + book[OldEnd(book, page)..]
  }

  /** The two searches cut the book exactly at the interval's ends. */
  lemma {:induction false} IntervalCut(book: seq<Order>, page: seq<Order>)
    requires SortedById(book) && SortedById(page) && page != []
    ensures var r1, r2 := OldStart(book, page), OldEnd(book, page);
            && (forall i :: 0 <= i < r1 ==> book[i].id < page[0].id)
            && (forall i :: r1 <= i < r2 ==> InInterval(page, book[i].id))
            && (forall i :: r2 <= i < |book| ==> page[|page| - 1].id < book[i].id)
  {
    var r1, r2 := OldStart(book, page), OldEnd(book, page);
    var first, last := page[0].id, page[|page| - 1].id;
    LowerBoundCuts(book, first);
    UpperBoundCuts(book[r1..], last);
    assert forall i :: r1 <= i < |book| ==> book[i] == book[r1..][i - r1];
  }

  /** Processing a page leaves the old orders outside the page's interval, plus the page, sorted by id. */
  lemma {:induction false} PageReplacesInterval(book: seq<Order>, page: seq<Order>)
    requires SortedById(book) && SortedById(page) && page != []
    ensures SortedById(NewBook(book, page))
    ensures forall o :: o in NewBook(book, page) <==>
                        o in page || (o in book && !InInterval(page, o.id))
    ensures forall o :: o in OldOrders(book, page) <==> o in book && InInterval(page, o.id)
  {
    IntervalCut(book, page);
    var r1, r2 := OldStart(book, page), OldEnd(book, page);
    var n := NewBook(book, page);
    forall i, j | 0 <= i < j < |n| ensures n[i].id < n[j].id {
      CutSorted(book, page, r1, r2, i, j);
    }
    forall o ensures o in n <==> o in page || (o in book && !InInterval(page, o.id))
             ensures o in OldOrders(book, page) <==> o in book && InInterval(page, o.id)
    {
      CutMembers(book, page, r1, r2, o);
    }
  }

  lemma {:induction false} CutMembers(book: seq<Order>, page: seq<Order>, r1: nat, r2: nat, o: Order)
    requires SortedById(page) && page != [] && r1 <= r2 <= |book|
    requires forall i :: 0 <= i < r1 ==> book[i].id < page[0].id
    requires forall i :: r1 <= i < r2 ==> InInterval(page, book[i].id)
    requires forall i :: r2 <= i < |book| ==> page[|page| - 1].id < book[i].id
    ensures o in book[..r1] + page + book[r2..] <==> o in page || (o in book && !InInterval(page, o.id))
    ensures o in book[r1..r2] <==> o in book && InInterval(page, o.id)
  {
    if o in book {
      var i :| 0 <= i < |book| && book[i] == o;
      if i < r1 {
        assert book[..r1][i] == o;
      } else if i < r2 {
        assert book[r1..r2][i - r1] == o;
      } else {
        assert book[r2..][i - r2] == o;
      }
    }
  }

  lemma {:induction false} CutSorted(book: seq<Order>, page: seq<Order>, r1: nat, r2: nat, i: nat, j: nat)
    requires SortedById(book) && SortedById(page) && page != []
    requires r1 <= r2 <= |book|
    requires forall k :: 0 <= k < r1 ==> book[k].id < page[0].id
    requires forall k :: r2 <= k < |book| ==> page[|page| - 1].id < book[k].id
    requires i < j < r1 + |page| + (|book| - r2)
    ensures (book[..r1] + page + book[r2..])[i].id < (book[..r1] + page + book[r2..])[j].id
  {
    var n := book[..r1] + page + book[r2..];
    assert forall k :: 0 <= k < r1 ==> n[k] == book[k];
    assert forall k :: r1 <= k < r1 + |page| ==> n[k] == page[k - r1];
    assert forall k :: r1 + |page| <= k < |n| ==> n[k] == book[k - r1 - |page| + r2];
    assert forall k :: 0 <= k < |page| ==> page[0].id <= page[k].id <= page[|page| - 1].id;
  }

  lemma {:induction false} IdIn(s: seq<Order>, x: Id)
    ensures x in Ids(s) <==> exists o :: o in s && o.id == x
  {
    if x in Ids(s) {
      var i :| 0 <= i < |s| && s[i].id == x;
      assert s[i] in s;
    }
  }

  lemma {:induction false} PageIds(book: seq<Order>, page: seq<Order>)
    requires SortedById(book) && SortedById(page) && page != []
    ensures Ids(NewBook(book, page)) == (Ids(book) - Ids(OldOrders(book, page))) + Ids(page)
    ensures Ids(page) * Ids(book) <= Ids(OldOrders(book, page)) <= Ids(book)
    ensures forall x :: x in Ids(OldOrders(book, page)) ==> InInterval(page, x)
    ensures forall x :: x in Ids(book) && x !in Ids(OldOrders(book, page)) ==> !InInterval(page, x)
  {
    PageReplacesInterval(book, page);
    var n, covered := NewBook(book, page), OldOrders(book, page);
    forall x ensures x in Ids(n) <==> (x in Ids(book) && !InInterval(page, x)) || x in Ids(page) {
      IdIn(n, x);
      IdIn(book, x);
      IdIn(page, x);
    }
    forall x ensures x in Ids(covered) <==> x in Ids(book) && InInterval(page, x) {
      IdIn(covered, x);
      IdIn(book, x);
    }
    forall x | x in Ids(page) ensures InInterval(page, x) {
    }
  }
}
