/**
 The calls of `JsonWriter::check` in the merge of a page (json_writer.cpp:276-406), as if they returned. They do not:
 `check` calls `OrderReader::finalize`, which always throws.
 */
module CheckCalls {
  import opened Orders
  import opened PageMerge
  import opened OrderLog
  import opened Snapshots

  /** One round of the loop over both sequences. */
  function Round(cur: seq<Order>, last: seq<Order>): (r: (seq<Order>, seq<Order>))
    requires cur != [] && last != []
    ensures |r.0| + |r.1| < |cur| + |last|
  {
    if cur[0].id < last[0].id then (cur[1..], last)
    else if cur[0].id == last[0].id then (cur[1..], last[1..])
    else (cur, last[1..])
  }

  /** A round that uses up one of them leaves the loop before the call; behind it each order that is left has one. */
  function Calls(cur: seq<Order>, last: seq<Order>): nat
    decreases |cur| + |last|
  {
    if cur == [] || last == [] then |cur| + |last|
    else
      var (cur', last') := Round(cur, last);
      (if cur' == [] || last' == [] then 0 else 1) + Calls(cur', last')
  }

  /** One call for each id of the page or of the interval, changed or not, but for one if both have orders. */
  lemma {:induction false} CallsCounted(cur: seq<Order>, last: seq<Order>)
    requires SortedById(cur) && SortedById(last)
    ensures Calls(cur, last) + (if cur != [] && last != [] then 1 else 0) == |Ids(cur) + Ids(last)|
    decreases |cur| + |last|
  {
    if cur == [] || last == [] {
      OneSide(cur);
      OneSide(last);
      assert Ids([]) == {};
      assert Ids(cur) + Ids(last) == if cur == [] then Ids(last) else Ids(cur);
    } else {
      var (cur', last') := Round(cur, last);
      SortedTail(cur);
      SortedTail(last);
      CallsCounted(cur', last');
      RoundTakesOne(cur, last);
    }
  }

  lemma {:induction false} OneSide(s: seq<Order>)
    requires SortedById(s)
    ensures |Ids(s)| == |s|
  {
    if s == [] {
      assert Ids(s) == {};
    } else {
      SortedTail(s);
      OneSide(s[1..]);
      IdsHeadTail(s);
      assert Ids(s) - {s[0].id} == Ids(s[1..]);
    }
  }

  /** A round deals with exactly one id. */
  lemma {:induction false} RoundTakesOne(cur: seq<Order>, last: seq<Order>)
    requires SortedById(cur) && SortedById(last) && cur != [] && last != []
    ensures var (cur', last') := Round(cur, last);
            |Ids(cur) + Ids(last)| == |Ids(cur') + Ids(last')| + 1
  {
    SortedTail(cur);
    SortedTail(last);
    IdsHeadTail(cur);
    IdsHeadTail(last);
    if cur[0].id < last[0].id {
      OneMore(Ids(cur[1..]), Ids(last), cur[0].id);
    } else if last[0].id < cur[0].id {
      OneMore(Ids(cur), Ids(last[1..]), last[0].id);
    } else {
      OneMore(Ids(cur[1..]), Ids(last[1..]), cur[0].id);
    }
  }

  lemma {:induction false} OneMore(a: set<Id>, b: set<Id>, x: Id)
    requires x !in a && x !in b
    ensures |({x} + a) + b| == |a + b| + 1 && |a + ({x} + b)| == |a + b| + 1 && |({x} + a) + ({x} + b)| == |a + b| + 1
  {
    var all := (a + b) + {x};
    assert ({x} + a) + b == all && a + ({x} + b) == all && ({x} + a) + ({x} + b) == all;
  }

  /** No call is reached exactly if there is nothing to do or one order meets one with its id. */
  lemma {:induction false} NoCallExactly(cur: seq<Order>, last: seq<Order>)
    ensures Calls(cur, last) == 0 <==>
            (cur == [] && last == []) || (|cur| == |last| == 1 && cur[0].id == last[0].id)
  {
  }

  /** The pages of a snapshot reach a call. */
  predicate PagesCall(book: seq<Order>, docs: seq<seq<Order>>)
    decreases |docs|
  {
    docs != [] &&
    if docs[0] == [] then PagesCall(book, docs[1..])
    else Calls(docs[0], OldOrders(book, docs[0])) > 0 || PagesCall(NewBook(book, docs[0]), docs[1..])
  }

  predicate RunCalls(book: seq<Order>, run: seq<Snapshot>)
    decreases |run|
  {
    run != [] && (PagesCall(book, run[0].docs) || RunCalls(FinalBook(book, run[0].docs), run[1..]))
  }

  predicate HasPage(s: Snapshot) {
    exists i :: 0 <= i < |s.docs| && s.docs[i] != []
  }

  lemma {:induction false} FirstPageCalls(docs: seq<seq<Order>>)
    ensures PagesCall([], docs) <==> exists i :: 0 <= i < |docs| && docs[i] != []
    ensures !PagesCall([], docs) ==> FinalBook([], docs) == []
    decreases |docs|
  {
    if docs != [] {
      assert forall i :: 0 < i < |docs| ==> docs[i] == docs[1..][i - 1];
      if docs[0] == [] {
        FirstPageCalls(docs[1..]);
      } else {
        NoCallExactly(docs[0], OldOrders([], docs[0]));
      }
    }
  }

  /** From the empty book: a run reaches a call exactly if it has a page with orders; the first such page does. */
  lemma {:induction false} AnyPageCalls(run: seq<Snapshot>)
    ensures RunCalls([], run) <==> exists k :: 0 <= k < |run| && HasPage(run[k])
    decreases |run|
  {
    if run != [] {
      FirstPageCalls(run[0].docs);
      if !PagesCall([], run[0].docs) {
        assert forall k :: 0 < k < |run| ==> run[k] == run[1..][k - 1];
        AnyPageCalls(run[1..]);
      }
    }
  }
}
