/**
 Collecting the pages of a snapshot from an archive (apps/pricing/json_writer_util.cpp:157-201): the entries come in
 any order, orders without volume and empty pages are dropped, and an exception ends the collection early.
 */
module PageFiles {
  import opened Orders
  import opened OrderLog
  import opened Snapshots

  /**
   An archive entry. `Skipped`: no .json file; `BadName`: its page number cannot be read; `BadContents`: its contents
   cannot be converted, after room was made for the page; a page that is no JSON at all has no orders.
   */
  datatype Entry =
    | Skipped
    | BadName
    | BadContents(number: nat)
    | Page(number: nat, orders: seq<Order>)

  /** Making room for a page beyond this throws. */
  type Limit = nat

  /** Reading the entry throws. */
  predicate Throws(e: Entry, limit: Limit) {
    e.BadName? || e.BadContents? || (e.Page? && e.number >= limit)
  }

  /** The entries before the first that throws. */
  function Read(es: seq<Entry>, limit: Limit): seq<Entry> {
    if es == [] || Throws(es[0], limit) then [] else [es[0]] + Read(es[1..], limit)
  }

  /** Drops the orders without volume. */
  function Filtered(orders: seq<Order>): (r: seq<Order>)
    ensures forall o :: o in r <==> o in orders && o.volume > 0
  {
    if orders == [] then []
    else Filtered(orders[..|orders| - 1]) + (if orders[|orders| - 1].volume > 0 then [orders[|orders| - 1]] else [])
  }

  /** The contents of page `n`: of the last entry with that number. */
  function Contents(es: seq<Entry>, n: nat): seq<Order> {
    if es == [] then []
    else
      var e := es[|es| - 1];
      if e.Page? && e.number == n then Filtered(e.orders) else Contents(es[..|es| - 1], n)
  }

  /** The pages below `n` that are not empty, in ascending order. */
  function NonEmpty(docs: seq<seq<Order>>): seq<seq<Order>> {
    if docs == [] then []
    else
      var last := docs[|docs| - 1];
      NonEmpty(docs[..|docs| - 1]) + (if last == [] then [] else [last])
  }

  method FilterOrders(orders: seq<Order>) returns (r: seq<Order>)
    ensures r == Filtered(orders)
  {
    r := [];
    for i := 0 to |orders|
      invariant r == Filtered(orders[..i])
    {
      assert orders[..i + 1][..i] == orders[..i];
      if orders[i].volume != 0 {
        r := r + [orders[i]];
      }
    }
    assert orders[..|orders|] == orders;
  }

  /** The page with a number, if there is room for it. */
  function At(docs: seq<seq<Order>>, n: nat): seq<Order> {
    if n < |docs| then docs[n] else []
  }

  /** `docs` holds the contents of every page read so far. */
  ghost predicate Collected(docs: seq<seq<Order>>, es: seq<Entry>) {
    forall n: nat :: Contents(es, n) == At(docs, n)
  }

  lemma {:induction false} ReadStops(es: seq<Entry>, limit: Limit, i: nat)
    requires i <= |es| && (forall j :: 0 <= j < i ==> !Throws(es[j], limit)) && (i == |es| || Throws(es[i], limit))
    ensures Read(es, limit) == es[..i]
  {
    if i > 0 {
      ReadStops(es[1..], limit, i - 1);
      assert es[..i] == [es[0]] + es[1..][..i - 1];
    }
  }

  lemma {:induction false} OneMorePage(docs: seq<seq<Order>>, es: seq<Entry>, e: Entry)
    requires Collected(docs, es)
    ensures !e.Page? ==> Collected(docs, es + [e])
    ensures e.Page? ==> Collected(Grown(docs, e.number + 1)[e.number := Filtered(e.orders)], es + [e])
  {
    assert (es + [e])[..|es|] == es;
    if e.Page? {
      var more := Grown(docs, e.number + 1)[e.number := Filtered(e.orders)];
      forall n: nat ensures Contents(es + [e], n) == At(more, n) {
        assert Contents(es, n) == At(docs, n);
      }
    } else {
      forall n: nat ensures Contents(es + [e], n) == Contents(es, n) {
      }
    }
  }

  method CollectPage(docs0: seq<seq<Order>>, e: Entry, ghost read: seq<Entry>) returns (docs: seq<seq<Order>>)
    requires Collected(docs0, read)
    ensures Collected(docs, read + [e])
  {
    OneMorePage(docs0, read, e);
    docs := docs0;
    if e.Page? {
      docs := Grown(docs, e.number + 1);
      var page := FilterOrders(e.orders);
      docs := docs[e.number := page];
    }
  }

  /** The first loop: the pages as they were read, until an exception. */
  method CollectPages(es: seq<Entry>, limit: Limit) returns (docs: seq<seq<Order>>)
    ensures Collected(docs, Read(es, limit))
  {
    docs := [];
    var i := 0;
    ghost var read: seq<Entry> := [];
    while i < |es| && !Throws(es[i], limit)
      invariant 0 <= i <= |es| && read == es[..i] && (forall j :: 0 <= j < i ==> !Throws(es[j], limit))
      invariant Collected(docs, read)
    {
      docs := CollectPage(docs, es[i], read);
      read := read + [es[i]];
      i := i + 1;
    }
    ReadStops(es, limit, i);
    // an entry that cannot be converted has made room for its page all the same
    if i < |es| && es[i].BadContents? && es[i].number < limit {
      Roomier(docs, read, es[i].number + 1);
      docs := Grown(docs, es[i].number + 1);
    }
  }

  lemma {:induction false} Roomier(docs: seq<seq<Order>>, es: seq<Entry>, size: nat)
    requires Collected(docs, es)
    ensures Collected(Grown(docs, size), es)
  {
    var more := Grown(docs, size);
    forall n: nat ensures Contents(es, n) == At(more, n) {
      assert Contents(es, n) == At(docs, n);
    }
  }

  /** resize, unless there is room already */
  function Grown(docs: seq<seq<Order>>, size: nat): (r: seq<seq<Order>>)
    ensures |r| == if |docs| < size then size else |docs|
    ensures forall n :: 0 <= n < |r| ==> r[n] == if n < |docs| then docs[n] else []
  {
    if |docs| < size then docs + seq(size - |docs|, _ => []) else docs
  }

  /** One more than the largest page number. */
  function Room(es: seq<Entry>): nat {
    if es == [] then 0
    else
      var e, before := es[|es| - 1], Room(es[..|es| - 1]);
      if e.Page? && e.number >= before then e.number + 1 else before
  }

  /** The pages that are not empty, by their numbers. */
  function Returned(es: seq<Entry>): seq<seq<Order>> {
    NonEmpty(seq(Room(es), n requires 0 <= n => Contents(es, n)))
  }

  lemma {:induction false} NothingBeyond(es: seq<Entry>, n: nat)
    requires n >= Room(es)
    ensures Contents(es, n) == []
  {
    if es != [] {
      NothingBeyond(es[..|es| - 1], n);
    }
  }

  lemma {:induction false} TrailingEmpty(docs: seq<seq<Order>>, n: nat)
    requires n <= |docs| && forall i :: n <= i < |docs| ==> docs[i] == []
    ensures NonEmpty(docs) == NonEmpty(docs[..n])
  {
    if n < |docs| {
      TrailingEmpty(docs[..|docs| - 1], n);
      assert docs[..|docs| - 1][..n] == docs[..n];
    } else {
      assert docs[..n] == docs;
    }
  }

  /** Only the contents matter, not how much room was made. */
  lemma {:induction false} SamePages(ds: seq<seq<Order>>, gs: seq<seq<Order>>)
    requires forall n: nat :: At(ds, n) == At(gs, n)
    ensures NonEmpty(ds) == NonEmpty(gs)
  {
    var n := if |ds| < |gs| then |ds| else |gs|;
    forall i | n <= i < |ds| ensures ds[i] == [] {
      assert At(ds, i) == At(gs, i);
    }
    forall i | n <= i < |gs| ensures gs[i] == [] {
      assert At(ds, i) == At(gs, i);
    }
    forall i | 0 <= i < n ensures ds[i] == gs[i] {
      assert At(ds, i) == At(gs, i);
    }
    TrailingEmpty(ds, n);
    TrailingEmpty(gs, n);
    assert ds[..n] == gs[..n];
  }

  lemma {:induction false} CollectedReturns(docs: seq<seq<Order>>, es: seq<Entry>)
    requires Collected(docs, es)
    ensures NonEmpty(docs) == Returned(es)
  {
    var all := seq(Room(es), n requires 0 <= n => Contents(es, n));
    forall n: nat ensures At(docs, n) == At(all, n) {
      assert Contents(es, n) == At(docs, n);
      if n >= Room(es) {
        NothingBeyond(es, n);
      }
    }
    SamePages(docs, all);
  }

  /** `readOrders` */
  method ReadOrders(es: seq<Entry>, limit: Limit) returns (r: seq<seq<Order>>)
    ensures r == Returned(Read(es, limit))
  {
    var docs := CollectPages(es, limit);
    CollectedReturns(docs, Read(es, limit));
    r := [];
    for i := 0 to |docs|
      invariant r == NonEmpty(docs[..i])
    {
      assert docs[..i + 1][..i] == docs[..i];
      if docs[i] != [] {
        r := r + [docs[i]];
      }
    }
    assert docs[..|docs|] == docs;
  }

  // ------------------------------------------------ what is returned

  /** The numbers of the pages that are not empty. */
  function Numbers(docs: seq<seq<Order>>): seq<nat> {
    if docs == [] then []
    else Numbers(docs[..|docs| - 1]) + (if docs[|docs| - 1] == [] then [] else [|docs| - 1])
  }

  lemma {:induction false} NumbersAscend(docs: seq<seq<Order>>)
    ensures forall i :: 0 <= i < |Numbers(docs)| ==> Numbers(docs)[i] < |docs|
    ensures forall i, j :: 0 <= i < j < |Numbers(docs)| ==> Numbers(docs)[i] < Numbers(docs)[j]
  {
    if docs != [] {
      NumbersAscend(docs[..|docs| - 1]);
    }
  }

  lemma {:induction false} NumbersOfPages(docs: seq<seq<Order>>)
    ensures |Numbers(docs)| == |NonEmpty(docs)|
    ensures forall i :: 0 <= i < |Numbers(docs)| ==>
              Numbers(docs)[i] < |docs| && docs[Numbers(docs)[i]] == NonEmpty(docs)[i] != []
  {
    NumbersAscend(docs);
    if docs != [] {
      NumbersAscend(docs[..|docs| - 1]);
      NumbersOfPages(docs[..|docs| - 1]);
    }
  }

  lemma {:induction false} NumbersComplete(docs: seq<seq<Order>>, n: nat)
    requires n < |docs| && docs[n] != []
    ensures n in Numbers(docs)
  {
    if n < |docs| - 1 {
      NumbersComplete(docs[..|docs| - 1], n);
    }
  }

  lemma {:induction false} ContentsPositive(es: seq<Entry>, n: nat)
    ensures forall o :: o in Contents(es, n) ==> o.volume > 0
  {
    if es != [] {
      ContentsPositive(es[..|es| - 1], n);
    }
  }

  /** The page numbers behind what is returned. */
  function PageNumbers(es: seq<Entry>): seq<nat> {
    Numbers(seq(Room(es), n requires 0 <= n => Contents(es, n)))
  }

  /**
   What is returned are exactly the pages that have an order with volume, in ascending page number: each is not
   empty and has only orders with volume, as the writer requires of a page.
   */
  lemma {:induction false} PagesReturned(es: seq<Entry>)
    ensures |PageNumbers(es)| == |Returned(es)|
    ensures forall i, j :: 0 <= i < j < |PageNumbers(es)| ==> PageNumbers(es)[i] < PageNumbers(es)[j]
    ensures forall n: nat :: Contents(es, n) != [] <==> n in PageNumbers(es)
    ensures forall i :: 0 <= i < |Returned(es)| ==> Returned(es)[i] == Contents(es, PageNumbers(es)[i]) != []
    ensures forall i, o :: 0 <= i < |Returned(es)| && o in Returned(es)[i] ==> o.volume > 0
  {
    var docs := seq(Room(es), n requires 0 <= n => Contents(es, n));
    NumbersOfPages(docs);
    NumbersAscend(docs);
    forall n: nat | Contents(es, n) != [] ensures n in Numbers(docs) {
      if n >= Room(es) {
        NothingBeyond(es, n);
      }
      NumbersComplete(docs, n);
    }
    forall i, o | 0 <= i < |Returned(es)| && o in Returned(es)[i] ensures o.volume > 0 {
      ContentsPositive(es, Numbers(docs)[i]);
    }
  }

  lemma {:induction false} FilteredSorted(orders: seq<Order>)
    requires SortedById(orders)
    ensures SortedById(Filtered(orders))
  {
    if orders != [] {
      var front, last := orders[..|orders| - 1], orders[|orders| - 1];
      FilteredSorted(front);
      forall o | o in Filtered(front) ensures o.id < last.id {
        assert o in front;
      }
    }
  }

  lemma {:induction false} ContentsOk(es: seq<Entry>, n: nat)
    requires forall e :: e in es && e.Page? ==> SortedById(e.orders)
    requires forall e, o :: e in es && e.Page? && o in e.orders ==> o.buy == 0 || o.buy == 1
    ensures SortedById(Contents(es, n)) && forall o :: o in Contents(es, n) ==> o.buy == 0 || o.buy == 1
  {
    if es != [] {
      ContentsOk(es[..|es| - 1], n);
      if es[|es| - 1].Page? {
        FilteredSorted(es[|es| - 1].orders);
      }
    }
  }

  /** Pages sorted by id whose orders were converted from JSON are pages in order for the writer. */
  lemma {:induction false} PagesInOrder(es: seq<Entry>)
    requires forall e :: e in es && e.Page? ==> SortedById(e.orders)
    requires forall e, o :: e in es && e.Page? && o in e.orders ==> o.buy == 0 || o.buy == 1
    ensures DocsOk(Returned(es))
  {
    PagesReturned(es);
    var docs := Returned(es);
    forall i | 0 <= i < |docs| ensures PageOk(docs[i]) {
      ContentsOk(es, PageNumbers(es)[i]);
      assert forall k :: 0 <= k < |docs[i]| ==> docs[i][k] in docs[i];
    }
    AllOk(docs);
  }

  lemma {:induction false} AllOk(docs: seq<seq<Order>>)
    requires forall i :: 0 <= i < |docs| ==> PageOk(docs[i])
    ensures DocsOk(docs)
  {
    if docs != [] {
      AllOk(docs[1..]);
    }
  }

  // ------------------------------------------------ where the reading ends

  /**
   An entry with a bad name, one with bad contents and a page there is no room for end the reading, whatever comes
   behind; all others are read.
   */
  lemma {:induction false} EndsAtFirstBad(before: seq<Entry>, bad: Entry, behind: seq<Entry>, limit: Limit)
    requires bad.BadName? || bad.BadContents? || (bad.Page? && bad.number >= limit)
    ensures Read(before + [bad] + behind, limit) == Read(before, limit)
    ensures Returned(Read(before + [bad] + behind, limit)) == Returned(Read(before, limit))
  {
    var all := before + [bad] + behind;
    if before == [] {
      assert all[0] == bad;
    } else {
      assert all[0] == before[0] && all[1..] == before[1..] + [bad] + behind;
      EndsAtFirstBad(before[1..], bad, behind, limit);
    }
  }

  lemma {:induction false} AllRead(es: seq<Entry>, limit: Limit)
    requires forall e :: e in es ==> e.Skipped? || (e.Page? && e.number < limit)
    ensures Read(es, limit) == es
  {
    if es != [] {
      assert es[0] in es;
      AllRead(es[1..], limit);
      assert es == [es[0]] + es[1..];
    }
  }

  /** Files that are no pages leave no trace. */
  lemma {:induction false} SkippedIgnored(before: seq<Entry>, behind: seq<Entry>)
    ensures forall n: nat :: Contents(before + [Skipped] + behind, n) == Contents(before + behind, n)
    ensures Returned(before + [Skipped] + behind) == Returned(before + behind)
  {
    forall n: nat ensures Contents(before + [Skipped] + behind, n) == Contents(before + behind, n) {
      SkippedAt(before, behind, n);
    }
    SameReturned(before + [Skipped] + behind, before + behind);
  }

  lemma {:induction false} LastEntry(all: seq<Entry>, front: seq<Entry>, e: Entry, n: nat)
    requires all == front + [e]
    ensures Contents(all, n) == if e.Page? && e.number == n then Filtered(e.orders) else Contents(front, n)
  {
    assert all[..|all| - 1] == front;
  }

  lemma {:induction false} SkippedAt(before: seq<Entry>, behind: seq<Entry>, n: nat)
    ensures Contents(before + [Skipped] + behind, n) == Contents(before + behind, n)
    decreases |behind|
  {
    if behind == [] {
      assert before + [Skipped] + behind == before + [Skipped] && before + behind == before;
      LastEntry(before + [Skipped], before, Skipped, n);
    } else {
      var front, e := behind[..|behind| - 1], behind[|behind| - 1];
      SkippedAt(before, front, n);
      assert before + [Skipped] + behind == (before + [Skipped] + front) + [e];
      assert before + behind == (before + front) + [e];
      LastEntry(before + [Skipped] + behind, before + [Skipped] + front, e, n);
      LastEntry(before + behind, before + front, e, n);
    }
  }

  /** Pages are returned by their contents alone. */
  lemma {:induction false} SameReturned(es: seq<Entry>, fs: seq<Entry>)
    requires forall n: nat :: Contents(es, n) == Contents(fs, n)
    ensures Returned(es) == Returned(fs)
  {
    var ds := seq(Room(es), n requires 0 <= n => Contents(es, n));
    var gs := seq(Room(fs), n requires 0 <= n => Contents(fs, n));
    forall n: nat ensures At(ds, n) == At(gs, n) {
      if n >= Room(es) {
        NothingBeyond(es, n);
      }
      if n >= Room(fs) {
        NothingBeyond(fs, n);
      }
    }
    SamePages(ds, gs);
  }

  /** Orders are dropped one by one, the others keep their order. */
  lemma {:induction false} FilteredInOrder(a: seq<Order>, o: Order, b: seq<Order>)
    ensures Filtered(a + b) == Filtered(a) + Filtered(b)
    ensures Filtered([o]) == if o.volume == 0 then [] else [o]
  {
    assert [o][..0] == [];
    FilteredBoth(a, b);
  }

  lemma {:induction false} FilteredBoth(a: seq<Order>, b: seq<Order>)
    ensures Filtered(a + b) == Filtered(a) + Filtered(b)
    decreases |b|
  {
    if b == [] {
      assert a + b == a;
    } else {
      var front, last := FrontAndLast(b);
      FilteredBoth(a, front);
      Regrouped(a, front, last, b);
      LastFiltered(b, front, last);
      LastFiltered(a + b, a + front, last);
      Glued(Filtered(a), Filtered(front), Filtered(b), Filtered(a + front), Filtered(a + b), last);
    }
  }

  lemma {:induction false} FrontAndLast(b: seq<Order>) returns (front: seq<Order>, last: Order)
    requires b != []
    ensures b == front + [last] && |front| < |b|
  {
    front, last := b[..|b| - 1], b[|b| - 1];
  }

  lemma {:induction false} Glued(a: seq<Order>, front: seq<Order>, b: seq<Order>, less: seq<Order>, all: seq<Order>,
                                 last: Order)
    requires less == a + front && b == (if last.volume > 0 then front + [last] else front)
    requires all == if last.volume > 0 then less + [last] else less
    ensures all == a + b
  {
    Regrouped(a, front, last, front + [last]);
  }

  lemma {:induction false} Regrouped(a: seq<Order>, front: seq<Order>, last: Order, b: seq<Order>)
    requires b == front + [last]
    ensures a + b == (a + front) + [last]
  {
  }

  lemma {:induction false} LastFiltered(all: seq<Order>, front: seq<Order>, last: Order)
    requires all == front + [last]
    ensures Filtered(all) == if last.volume > 0 then Filtered(front) + [last] else Filtered(front)
  {
    assert all[..|all| - 1] == front;
  }

  /** Of several entries with one number the last one counts. */
  lemma {:induction false} LastPageWins(before: seq<Entry>, n: nat, orders: seq<Order>, behind: seq<Entry>)
    requires forall e :: e in behind && e.Page? ==> e.number != n
    ensures Contents(before + [Page(n, orders)] + behind, n) == Filtered(orders)
    decreases |behind|
  {
    var all := before + [Page(n, orders)] + behind;
    if behind == [] {
      assert all[|all| - 1] == Page(n, orders);
    } else {
      var front, last := behind[..|behind| - 1], behind[|behind| - 1];
      assert last in behind && all[|all| - 1] == last;
      assert all[..|all| - 1] == before + [Page(n, orders)] + front;
      LastPageWins(before, n, orders, front);
    }
  }

  // ------------------------------------------------ distinct page numbers

  predicate DistinctNumbers(es: seq<Entry>) {
    forall i, j :: 0 <= i < j < |es| && es[i].Page? && es[j].Page? ==> es[i].number != es[j].number
  }

  /** With distinct page numbers a page's contents are those of its only entry. */
  lemma {:induction false} ContentsOfEntry(es: seq<Entry>, i: nat)
    requires DistinctNumbers(es) && i < |es| && es[i].Page?
    ensures Contents(es, es[i].number) == Filtered(es[i].orders)
  {
    if i < |es| - 1 {
      ContentsOfEntry(es[..|es| - 1], i);
    }
  }

  lemma {:induction false} NoEntry(es: seq<Entry>, n: nat)
    requires forall i :: 0 <= i < |es| && es[i].Page? ==> es[i].number != n
    ensures Contents(es, n) == []
  {
    if es != [] {
      NoEntry(es[..|es| - 1], n);
    }
  }

  lemma {:induction false} SameContents(es: seq<Entry>, fs: seq<Entry>, n: nat)
    requires DistinctNumbers(es) && DistinctNumbers(fs) && forall e :: e in es <==> e in fs
    ensures Contents(es, n) == Contents(fs, n)
  {
    if i: nat :| i < |es| && es[i].Page? && es[i].number == n {
      assert es[i] in fs;
      var j: nat :| j < |fs| && fs[j] == es[i];
      ContentsOfEntry(es, i);
      ContentsOfEntry(fs, j);
    } else {
      NoEntry(es, n);
      forall j | 0 <= j < |fs| && fs[j].Page? ensures fs[j].number != n {
        assert fs[j] in es;
      }
      NoEntry(fs, n);
    }
  }

  /** With distinct page numbers and nothing that ends the reading, the order of the archive does not matter. */
  lemma {:induction false} ArchiveOrderIrrelevant(es: seq<Entry>, fs: seq<Entry>, limit: Limit)
    requires DistinctNumbers(es) && DistinctNumbers(fs) && forall e :: e in es <==> e in fs
    requires forall e :: e in es ==> e.Skipped? || (e.Page? && e.number < limit)
    ensures Returned(Read(es, limit)) == Returned(Read(fs, limit))
  {
    AllRead(es, limit);
    AllRead(fs, limit);
    forall n: nat ensures Contents(es, n) == Contents(fs, n) {
      SameContents(es, fs, n);
    }
    SameReturned(es, fs);
  }

  // ------------------------------------------------ an archive that cannot be read to its end

  ghost predicate SameInAnyOrder(es: seq<Entry>, limit: Limit) {
    forall fs: seq<Entry> :: multiset(fs) == multiset(es) ==> Returned(Read(fs, limit)) == Returned(Read(es, limit))
  }

  predicate HasVolume(e: Entry, limit: Limit) {
    e.Page? && e.number < limit && exists i :: 0 <= i < |e.orders| && e.orders[i].volume > 0
  }

  predicate EndsReading(e: Entry, limit: Limit) {
    e.BadName? || e.BadContents? || (e.Page? && e.number >= limit)
  }

  lemma {:induction false} ToFront(es: seq<Entry>, e: Entry) returns (fs: seq<Entry>)
    requires e in es
    ensures multiset([e] + fs) == multiset(es)
  {
    var i: nat :| i < |es| && es[i] == e;
    fs := es[..i] + es[i + 1..];
    assert es == es[..i] + [e] + es[i + 1..];
    assert multiset(es) == multiset(es[..i]) + multiset{e} + multiset(es[i + 1..]);
  }

  lemma {:induction false} NothingReturned(es: seq<Entry>)
    requires forall n: nat :: Contents(es, n) == []
    ensures Returned(es) == []
  {
    SameReturned(es, []);
    assert Room([]) == 0;
  }

  lemma {:induction false} NoVolume(es: seq<Entry>, limit: Limit, n: nat)
    requires forall e :: e in es ==> e.Page? ==> e.number < limit && !HasVolume(e, limit)
    ensures Contents(es, n) == []
  {
    if es != [] {
      NoVolume(es[..|es| - 1], limit, n);
      var e := es[|es| - 1];
      if e.Page? {
        assert !HasVolume(e, limit);
        NoneLeft(e.orders);
      }
    }
  }

  lemma {:induction false} NoneLeft(orders: seq<Order>)
    requires forall i :: 0 <= i < |orders| ==> orders[i].volume == 0
    ensures Filtered(orders) == []
  {
    if orders != [] {
      NoneLeft(orders[..|orders| - 1]);
    }
  }

  lemma {:induction false} ReadMembers(es: seq<Entry>, limit: Limit)
    ensures forall e :: e in Read(es, limit) ==> e in es && !EndsReading(e, limit)
  {
    if es != [] {
      ReadMembers(es[1..], limit);
    }
  }

  /**
   With distinct page numbers the order of the archive does not matter exactly if nothing ends the reading or no page
   that can be read has an order with volume.
   */
  lemma {:induction false} AnyArchiveOrder(es: seq<Entry>, limit: Limit)
    requires DistinctNumbers(es)
    ensures SameInAnyOrder(es, limit) <==>
            (forall e :: e in es ==> !EndsReading(e, limit)) || (forall e :: e in es ==> !HasVolume(e, limit))
  {
    if forall e :: e in es ==> !EndsReading(e, limit) {
      NothingEnds(es, limit);
    } else if forall e :: e in es ==> !HasVolume(e, limit) {
      NothingToRead(es, limit);
    } else {
      var bad :| bad in es && EndsReading(bad, limit);
      var good :| good in es && HasVolume(good, limit);
      EndMatters(es, limit, bad, good);
    }
  }

  lemma {:induction false} NothingEnds(es: seq<Entry>, limit: Limit)
    requires DistinctNumbers(es) && forall e :: e in es ==> !EndsReading(e, limit)
    ensures SameInAnyOrder(es, limit)
  {
    forall fs: seq<Entry> | multiset(fs) == multiset(es)
      ensures Returned(Read(fs, limit)) == Returned(Read(es, limit))
    {
      SameEntries(es, fs);
      StillDistinct(es, fs);
      ArchiveOrderIrrelevant(es, fs, limit);
    }
  }

  lemma {:induction false} SameEntries(es: seq<Entry>, fs: seq<Entry>)
    requires multiset(fs) == multiset(es)
    ensures forall e :: e in es <==> e in fs
  {
    forall e ensures e in es <==> e in fs {
      assert e in multiset(es) <==> e in multiset(fs);
    }
  }

  lemma {:induction false} OnceOnly(es: seq<Entry>, e: Entry)
    requires DistinctNumbers(es) && e.Page?
    ensures multiset(es)[e] <= 1
  {
    if es != [] {
      var front, last := es[..|es| - 1], es[|es| - 1];
      OnceOnly(front, e);
      assert es == front + [last];
      if last == e {
        assert e !in front;
        assert multiset(front)[e] == 0;
      }
    }
  }

  lemma {:induction false} TwiceIn(es: seq<Entry>, i: nat, j: nat)
    requires i < j < |es| && es[i] == es[j]
    ensures multiset(es)[es[i]] >= 2
  {
    var a, b := es[..j], es[j..];
    assert es == a + b;
    assert a[i] == es[i] && b[0] == es[i];
    assert es[i] in multiset(a) && es[i] in multiset(b);
  }

  lemma {:induction false} StillDistinct(es: seq<Entry>, fs: seq<Entry>)
    requires DistinctNumbers(es) && multiset(fs) == multiset(es)
    ensures DistinctNumbers(fs)
  {
    SameEntries(es, fs);
    forall i, j | 0 <= i < j < |fs| && fs[i].Page? && fs[j].Page? ensures fs[i].number != fs[j].number {
      if fs[i] == fs[j] {
        TwiceIn(fs, i, j);
        OnceOnly(es, fs[i]);
      } else {
        assert fs[i] in es && fs[j] in es;
        var a: nat :| a < |es| && es[a] == fs[i];
        var b: nat :| b < |es| && es[b] == fs[j];
      }
    }
  }

  lemma {:induction false} NothingToRead(es: seq<Entry>, limit: Limit)
    requires forall e :: e in es ==> !HasVolume(e, limit)
    ensures SameInAnyOrder(es, limit)
  {
    ReadsNothing(es, limit);
    forall fs: seq<Entry> | multiset(fs) == multiset(es)
      ensures Returned(Read(fs, limit)) == Returned(Read(es, limit))
    {
      SameEntries(es, fs);
      ReadsNothing(fs, limit);
    }
  }

  lemma {:induction false} ReadsNothing(es: seq<Entry>, limit: Limit)
    requires forall e :: e in es ==> !HasVolume(e, limit)
    ensures Returned(Read(es, limit)) == []
  {
    ReadMembers(es, limit);
    forall n: nat ensures Contents(Read(es, limit), n) == [] {
      NoVolume(Read(es, limit), limit, n);
    }
    NothingReturned(Read(es, limit));
  }

  lemma {:induction false} EndMatters(es: seq<Entry>, limit: Limit, bad: Entry, good: Entry)
    requires bad in es && good in es && EndsReading(bad, limit) && HasVolume(good, limit)
    requires DistinctNumbers(es)
    ensures !SameInAnyOrder(es, limit)
  {
    var fs := ToFront(es, bad);
    assert [bad] + fs == [] + [bad] + fs;
    EndsAtFirstBad([], bad, fs, limit);
    NothingReturned(Read([], limit));
    SameEntries(es, [bad] + fs);
    var gs := GoodFirst(es, good);
    var read := Read(gs, limit);
    assert read[0] == good;
    StillDistinct(es, gs);
    ReadIsPrefix(gs, limit);
    ContentsOfEntry(read, 0);
    SomeLeft(good.orders);
    PagesReturned(read);
    assert Contents(read, good.number) != [];
    assert Returned(Read(gs, limit)) != Returned(Read([bad] + fs, limit));
  }

  lemma {:induction false} GoodFirst(es: seq<Entry>, good: Entry) returns (gs: seq<Entry>)
    requires good in es
    ensures multiset(gs) == multiset(es) && gs != [] && gs[0] == good
  {
    var rest := ToFront(es, good);
    gs := [good] + rest;
  }

  lemma {:induction false} ReadIsPrefix(es: seq<Entry>, limit: Limit)
    ensures Read(es, limit) <= es
  {
    if es != [] {
      ReadIsPrefix(es[1..], limit);
    }
  }

  lemma {:induction false} SomeLeft(orders: seq<Order>)
    requires exists i :: 0 <= i < |orders| && orders[i].volume > 0
    ensures Filtered(orders) != []
  {
    var i :| 0 <= i < |orders| && orders[i].volume > 0;
    assert orders[i] in Filtered(orders);
  }
}
