/** The linear program means what the hauling problem means. */
module HaulMeaning {
  import opened HaulProblem

  // ------------------------------------------------ sums

  /** A stretch of `p` equal to `q` adds the total of `q`. */
  lemma {:induction false} Stretch(p: seq<real>, lo: nat, hi: nat, q: seq<real>)
    requires lo <= hi <= |p| && hi - lo <= |q| && forall j :: lo <= j < hi ==> p[j] == q[j - lo]
    ensures Sum(p, hi) == Sum(p, lo) + Sum(q, hi - lo)
  {
    if lo < hi {
      Stretch(p, lo, hi - 1, q);
    }
  }

  lemma {:induction false} Negated(p: seq<real>, lo: nat, hi: nat, q: seq<real>)
    requires lo <= hi <= |p| && hi - lo <= |q| && forall j :: lo <= j < hi ==> p[j] == -q[j - lo]
    ensures Sum(p, hi) == Sum(p, lo) - Sum(q, hi - lo)
  {
    if lo < hi {
      Negated(p, lo, hi - 1, q);
    }
  }

  lemma {:induction false} Zeros(p: seq<real>, lo: nat, hi: nat)
    requires lo <= hi <= |p| && forall j :: lo <= j < hi ==> p[j] == 0.0
    ensures Sum(p, hi) == Sum(p, lo)
  {
    if lo < hi {
      Zeros(p, lo, hi - 1);
    }
  }

  // ------------------------------------------------ the columns of one item

  /** Item `t` has columns `o` to `m` for its sell orders and `m` to `e` for its buy orders. */
  predicate ColumnsOf(items: seq<Item>, t: nat, o: nat, m: nat, e: nat) {
    && t < |items|
    && o == Offset(items, t) && m == o + |items[t].sells| && e == m + |items[t].buys|
    && e == Offset(items, t + 1) <= Used(items)
    && (forall j :: o <= j < m ==> VariableAt(items, j) == Variable(t, true, items[t].sells[j - o]))
    && (forall j :: m <= j < e ==> VariableAt(items, j) == Variable(t, false, items[t].buys[j - m]))
  }

  lemma {:induction false} ItemColumns(items: seq<Item>, t: nat) returns (o: nat, m: nat, e: nat)
    requires t < |items|
    ensures ColumnsOf(items, t, o, m, e)
  {
    OffsetGrows(items, t + 1, |items|);
    o := Offset(items, t);
    m := o + |items[t].sells|;
    e := m + |items[t].buys|;
    forall j | o <= j < e
      ensures VariableAt(items, j) ==
              if j < m then Variable(t, true, items[t].sells[j - o]) else Variable(t, false, items[t].buys[j - m])
    {
      ItemAtIs(items, t, j);
    }
  }

  lemma {:induction false} DealIs(items: seq<Item>, x: seq<real>, t: nat, o: nat, m: nat, e: nat)
    requires |x| == Columns(items) && ColumnsOf(items, t, o, m, e)
    ensures DealAt(items, x, t) == Deal(x[o..m], x[m..e])
  {
  }

  // ------------------------------------------------ the rows

  /** `p` holds the terms of row `i`. */
  predicate TermsOf(items: seq<Item>, x: seq<real>, i: nat, p: seq<real>) {
    |p| == |x| == Columns(items) && forall j {:trigger p[j]} :: 0 <= j < |p| ==> p[j] == Coefficient(items, i, j) * x[j]
  }

  lemma {:induction false} RowTerms(items: seq<Item>, x: seq<real>, i: nat) returns (p: seq<real>)
    requires |x| == Columns(items)
    ensures TermsOf(items, x, i, p) && Dot(Row(items, i), x) == Total(p)
  {
    p := Products(Row(items, i), x);
  }

  lemma {:induction false} SingleTerm(p: seq<real>, v: nat)
    requires v < |p| && forall j :: 0 <= j < |p| && j != v ==> p[j] == 0.0
    ensures Total(p) == p[v]
  {
    Zeros(p, 0, v);
    Zeros(p, v + 1, |p|);
  }

  lemma {:induction false} BoundRows(items: seq<Item>, x: seq<real>, v: nat)
    requires |x| == Columns(items) && v < Used(items)
    ensures Dot(Row(items, 2 * v), x) == x[v]
    ensures Dot(Row(items, 2 * v + 1), x) == -x[v]
  {
    SingleTerm(Products(Row(items, 2 * v), x), v);
    SingleTerm(Products(Row(items, 2 * v + 1), x), v);
  }

  lemma {:induction false} TypeTerms(items: seq<Item>, x: seq<real>, t: nat, p: seq<real>, o: nat, m: nat, e: nat)
    requires TermsOf(items, x, 2 * Used(items) + t, p) && ColumnsOf(items, t, o, m, e)
    ensures forall j :: 0 <= j < |p| ==> p[j] == if j < o || j >= e then 0.0 else if j < m then -x[j] else x[j]
  {
    forall j | 0 <= j < |p| ensures p[j] == if j < o || j >= e then 0.0 else if j < m then -x[j] else x[j] {
      if j < Used(items) {
        assert VariableAt(items, j).t == ItemAt(items, |items|, j);
      }
    }
  }

  lemma {:induction false} SignedSum(p: seq<real>, x: seq<real>, o: nat, m: nat, e: nat)
    requires o <= m <= e <= |p| == |x|
    requires forall j :: 0 <= j < |p| ==> p[j] == if j < o || j >= e then 0.0 else if j < m then -x[j] else x[j]
    ensures Total(p) == Total(x[m..e]) - Total(x[o..m])
  {
    Zeros(p, 0, o);
    Negated(p, o, m, x[o..m]);
    Stretch(p, m, e, x[m..e]);
    Zeros(p, e, |p|);
  }

  lemma {:induction false} TypeRow(items: seq<Item>, x: seq<real>, t: nat)
    requires |x| == Columns(items) && t < |items|
    ensures var deal := DealAt(items, x, t);
            Dot(Row(items, 2 * Used(items) + t), x) == Total(deal.sold) - Total(deal.bought)
  {
    var p := RowTerms(items, x, 2 * Used(items) + t);
    var o, m, e := ItemColumns(items, t);
    assert Total(p) == Total(x[m..e]) - Total(x[o..m]) by {
      TypeTerms(items, x, t, p, o, m, e);
      SignedSum(p, x, o, m, e);
    }
    DealIs(items, x, t, o, m, e);
  }

  /** The columns of item `t` add `amount` to the sum. */
  predicate Adds(items: seq<Item>, p: seq<real>, t: nat, amount: real)
    requires t < |items|
  {
    && Offset(items, t) <= Offset(items, t + 1) <= |p|
    && Sum(p, Offset(items, t + 1)) == Sum(p, Offset(items, t)) + amount
  }

  predicate AddsLoad(items: seq<Item>, x: seq<real>, p: seq<real>, t: nat)
    requires |x| == Columns(items) && t < |items|
  {
    Adds(items, p, t, Dot(Volumes(items[t]), DealAt(items, x, t).bought))
  }

  predicate AddsSpending(items: seq<Item>, x: seq<real>, p: seq<real>, t: nat)
    requires |x| == Columns(items) && t < |items|
  {
    Adds(items, p, t, Dot(Prices(items[t].sells), DealAt(items, x, t).bought))
  }

  predicate AddsProfit(items: seq<Item>, x: seq<real>, p: seq<real>, t: nat)
    requires |x| == Columns(items) && t < |items|
  {
    var deal := DealAt(items, x, t);
    Adds(items, p, t, Dot(Prices(items[t].buys), deal.sold) - Dot(Prices(items[t].sells), deal.bought))
  }

  lemma {:induction false} CapacityTerms(items: seq<Item>, x: seq<real>, p: seq<real>, t: nat, o: nat, m: nat, e: nat)
    requires TermsOf(items, x, 2 * Used(items) + |items|, p) && ColumnsOf(items, t, o, m, e)
    ensures forall j :: o <= j < m ==> p[j] == Products(Volumes(items[t]), x[o..m])[j - o]
    ensures forall j :: m <= j < e ==> p[j] == 0.0
  {
    forall j | o <= j < m ensures p[j] == Products(Volumes(items[t]), x[o..m])[j - o] {
      assert Coefficient(items, 2 * Used(items) + |items|, j) == items[t].volume;
    }
    forall j | m <= j < e ensures p[j] == 0.0 {
      assert Coefficient(items, 2 * Used(items) + |items|, j) == 0.0;
    }
  }

  lemma {:induction false} CapacityBlock(items: seq<Item>, x: seq<real>, p: seq<real>, t: nat)
    requires TermsOf(items, x, 2 * Used(items) + |items|, p) && t < |items|
    ensures AddsLoad(items, x, p, t)
  {
    var o, m, e := ItemColumns(items, t);
    var terms := Products(Volumes(items[t]), x[o..m]);
    assert Sum(p, m) == Sum(p, o) + Total(terms) by {
      CapacityTerms(items, x, p, t, o, m, e);
      Stretch(p, o, m, terms);
    }
    assert Sum(p, e) == Sum(p, m) by {
      CapacityTerms(items, x, p, t, o, m, e);
      Zeros(p, m, e);
    }
    DealIs(items, x, t, o, m, e);
  }

  lemma {:induction false} WealthTerms(items: seq<Item>, x: seq<real>, p: seq<real>, t: nat, o: nat, m: nat, e: nat)
    requires TermsOf(items, x, 2 * Used(items) + |items| + 1, p) && ColumnsOf(items, t, o, m, e)
    ensures forall j :: o <= j < m ==> p[j] == Products(Prices(items[t].sells), x[o..m])[j - o]
    ensures forall j :: m <= j < e ==> p[j] == 0.0
  {
    forall j | o <= j < m ensures p[j] == Products(Prices(items[t].sells), x[o..m])[j - o] {
      assert Coefficient(items, 2 * Used(items) + |items| + 1, j) == items[t].sells[j - o].price;
    }
    forall j | m <= j < e ensures p[j] == 0.0 {
      assert Coefficient(items, 2 * Used(items) + |items| + 1, j) == 0.0;
    }
  }

  lemma {:induction false} WealthBlock(items: seq<Item>, x: seq<real>, p: seq<real>, t: nat)
    requires TermsOf(items, x, 2 * Used(items) + |items| + 1, p) && t < |items|
    ensures AddsSpending(items, x, p, t)
  {
    var o, m, e := ItemColumns(items, t);
    var terms := Products(Prices(items[t].sells), x[o..m]);
    assert Sum(p, m) == Sum(p, o) + Total(terms) by {
      WealthTerms(items, x, p, t, o, m, e);
      Stretch(p, o, m, terms);
    }
    assert Sum(p, e) == Sum(p, m) by {
      WealthTerms(items, x, p, t, o, m, e);
      Zeros(p, m, e);
    }
    DealIs(items, x, t, o, m, e);
  }

  /** `p` holds the terms of the objective. */
  predicate CostTermsOf(items: seq<Item>, x: seq<real>, p: seq<real>) {
    |p| == |x| == Columns(items) && forall j {:trigger p[j]} :: 0 <= j < |p| ==> p[j] == Cost(items, j) * x[j]
  }

  lemma {:induction false} PaidTerms(items: seq<Item>, x: seq<real>, p: seq<real>, t: nat, o: nat, m: nat, e: nat)
    requires CostTermsOf(items, x, p) && ColumnsOf(items, t, o, m, e)
    ensures forall j :: o <= j < m ==> p[j] == -Products(Prices(items[t].sells), x[o..m])[j - o]
  {
    forall j | o <= j < m ensures p[j] == -Products(Prices(items[t].sells), x[o..m])[j - o] {
      assert VariableAt(items, j) == Variable(t, true, items[t].sells[j - o]);
    }
  }

  lemma {:induction false} EarnedTerms(items: seq<Item>, x: seq<real>, p: seq<real>, t: nat, o: nat, m: nat, e: nat)
    requires CostTermsOf(items, x, p) && ColumnsOf(items, t, o, m, e)
    ensures forall j :: m <= j < e ==> p[j] == Products(Prices(items[t].buys), x[m..e])[j - m]
  {
    forall j | m <= j < e ensures p[j] == Products(Prices(items[t].buys), x[m..e])[j - m] {
      assert VariableAt(items, j) == Variable(t, false, items[t].buys[j - m]);
    }
  }

  lemma {:induction false} CostBlock(items: seq<Item>, x: seq<real>, p: seq<real>, t: nat)
    requires CostTermsOf(items, x, p) && t < |items|
    ensures AddsProfit(items, x, p, t)
  {
    var o, m, e := ItemColumns(items, t);
    var paid, earned := Products(Prices(items[t].sells), x[o..m]), Products(Prices(items[t].buys), x[m..e]);
    assert Sum(p, m) == Sum(p, o) - Total(paid) by {
      PaidTerms(items, x, p, t, o, m, e);
      Negated(p, o, m, paid);
    }
    assert Sum(p, e) == Sum(p, m) + Total(earned) by {
      EarnedTerms(items, x, p, t, o, m, e);
      Stretch(p, m, e, earned);
    }
    DealIs(items, x, t, o, m, e);
  }

  lemma {:induction false} LoadSum(items: seq<Item>, x: seq<real>, p: seq<real>, n: nat)
    requires |x| == Columns(items) && n <= |items|
    requires forall t :: 0 <= t < |items| ==> AddsLoad(items, x, p, t)
    ensures Offset(items, n) <= |p| && Sum(p, Offset(items, n)) == Load(items, x, n)
  {
    if n > 0 {
      LoadSum(items, x, p, n - 1);
      assert AddsLoad(items, x, p, n - 1);
    }
  }

  lemma {:induction false} SpendingSum(items: seq<Item>, x: seq<real>, p: seq<real>, n: nat)
    requires |x| == Columns(items) && n <= |items|
    requires forall t :: 0 <= t < |items| ==> AddsSpending(items, x, p, t)
    ensures Offset(items, n) <= |p| && Sum(p, Offset(items, n)) == Spending(items, x, n)
  {
    if n > 0 {
      SpendingSum(items, x, p, n - 1);
      assert AddsSpending(items, x, p, n - 1);
    }
  }

  lemma {:induction false} ProfitSum(items: seq<Item>, x: seq<real>, p: seq<real>, n: nat)
    requires |x| == Columns(items) && n <= |items|
    requires forall t :: 0 <= t < |items| ==> AddsProfit(items, x, p, t)
    ensures Offset(items, n) <= |p|
    ensures Sum(p, Offset(items, n)) == Income(items, x, n) - Spending(items, x, n)
  {
    if n > 0 {
      ProfitSum(items, x, p, n - 1);
      assert AddsProfit(items, x, p, n - 1);
    }
  }

  /** The second half of the columns holds nothing. */
  lemma {:induction false} NoTrailingTerms(items: seq<Item>, x: seq<real>, i: nat, p: seq<real>)
    requires TermsOf(items, x, i, p)
    ensures Total(p) == Sum(p, Used(items))
  {
    forall j | Used(items) <= j < |p| ensures p[j] == 0.0 {
      assert Coefficient(items, i, j) == 0.0;
    }
    Zeros(p, Used(items), |p|);
  }

  lemma {:induction false} NoTrailingCosts(items: seq<Item>, x: seq<real>, p: seq<real>)
    requires CostTermsOf(items, x, p)
    ensures Total(p) == Sum(p, Used(items))
  {
    forall j | Used(items) <= j < |p| ensures p[j] == 0.0 {
      assert Cost(items, j) == 0.0;
    }
    Zeros(p, Used(items), |p|);
  }

  lemma {:induction false} LoadTotal(items: seq<Item>, x: seq<real>, p: seq<real>)
    requires TermsOf(items, x, 2 * Used(items) + |items|, p)
    ensures Sum(p, Used(items)) == Load(items, x, |items|)
  {
    forall t | 0 <= t < |items| ensures AddsLoad(items, x, p, t) {
      CapacityBlock(items, x, p, t);
    }
    LoadSum(items, x, p, |items|);
  }

  lemma {:induction false} SpendingTotal(items: seq<Item>, x: seq<real>, p: seq<real>)
    requires TermsOf(items, x, 2 * Used(items) + |items| + 1, p)
    ensures Sum(p, Used(items)) == Spending(items, x, |items|)
  {
    forall t | 0 <= t < |items| ensures AddsSpending(items, x, p, t) {
      WealthBlock(items, x, p, t);
    }
    SpendingSum(items, x, p, |items|);
  }

  lemma {:induction false} ProfitTotal(items: seq<Item>, x: seq<real>, p: seq<real>)
    requires CostTermsOf(items, x, p)
    ensures Sum(p, Used(items)) == Profit(items, x)
  {
    forall t | 0 <= t < |items| ensures AddsProfit(items, x, p, t) {
      CostBlock(items, x, p, t);
    }
    ProfitSum(items, x, p, |items|);
  }

  lemma {:induction false} CapacityRow(items: seq<Item>, x: seq<real>)
    requires |x| == Columns(items)
    ensures Dot(Row(items, 2 * Used(items) + |items|), x) == Load(items, x, |items|)
  {
    var p := RowTerms(items, x, 2 * Used(items) + |items|);
    NoTrailingTerms(items, x, 2 * Used(items) + |items|, p);
    LoadTotal(items, x, p);
  }

  lemma {:induction false} WealthRow(items: seq<Item>, x: seq<real>)
    requires |x| == Columns(items)
    ensures Dot(Row(items, 2 * Used(items) + |items| + 1), x) == Spending(items, x, |items|)
  {
    var p := RowTerms(items, x, 2 * Used(items) + |items| + 1);
    NoTrailingTerms(items, x, 2 * Used(items) + |items| + 1, p);
    SpendingTotal(items, x, p);
  }

  lemma {:induction false} CostRow(items: seq<Item>, x: seq<real>)
    requires |x| == Columns(items)
    ensures Dot(Costs(items), x) == Profit(items, x)
  {
    var p := Products(Costs(items), x);
    NoTrailingCosts(items, x, p);
    ProfitTotal(items, x, p);
  }

  // ------------------------------------------------ the meaning

  /** Variable `v` takes no more than its order offers. */
  predicate InRange(items: seq<Item>, x: seq<real>, v: nat)
    requires v < Used(items) && v < |x|
  {
    0.0 <= x[v] <= VariableAt(items, v).order.quantity as real
  }

  /** The orders behind the columns from `o` to `m`. */
  predicate OrdersAt(items: seq<Item>, orders: seq<Order>, o: nat, m: nat) {
    o <= m <= Used(items) && |orders| == m - o
    && forall j :: o <= j < m ==> VariableAt(items, j).order == orders[j - o]
  }

  lemma {:induction false} OfferedSlice(items: seq<Item>, orders: seq<Order>, x: seq<real>, o: nat, m: nat)
    requires |x| == Columns(items) && OrdersAt(items, orders, o, m)
    ensures Offered(orders, x[o..m]) <==> forall j :: o <= j < m ==> InRange(items, x, j)
  {
    var q := x[o..m];
    forall j | o <= j < m
      ensures InRange(items, x, j) <==> 0.0 <= q[j - o] <= orders[j - o].quantity as real
    {
    }
    if forall j :: o <= j < m ==> InRange(items, x, j) {
      forall k | 0 <= k < |q| ensures 0.0 <= q[k] <= orders[k].quantity as real {
        var j := o + k;
        assert InRange(items, x, j);
      }
    }
  }

  /** The offers of one item in terms of its columns. */
  lemma {:induction false} OfferedColumns(items: seq<Item>, x: seq<real>, t: nat, o: nat, m: nat, e: nat)
    requires |x| == Columns(items) && ColumnsOf(items, t, o, m, e)
    ensures OfferedAt(items, x, t) <==> forall j :: o <= j < e ==> InRange(items, x, j)
  {
    assert Offered(items[t].sells, x[o..m]) <==> forall j :: o <= j < m ==> InRange(items, x, j) by {
      OfferedSlice(items, items[t].sells, x, o, m);
    }
    assert Offered(items[t].buys, x[m..e]) <==> forall j :: m <= j < e ==> InRange(items, x, j) by {
      OfferedSlice(items, items[t].buys, x, m, e);
    }
    DealIs(items, x, t, o, m, e);
  }

  lemma {:induction false} OffersMean(items: seq<Item>, x: seq<real>)
    requires |x| == Columns(items)
    ensures (forall v :: 0 <= v < Used(items) ==> InRange(items, x, v)) <==>
            (forall t :: 0 <= t < |items| ==> OfferedAt(items, x, t))
  {
    if forall v :: 0 <= v < Used(items) ==> InRange(items, x, v) {
      forall t | 0 <= t < |items| ensures OfferedAt(items, x, t) {
        var o, m, e := ItemColumns(items, t);
        OfferedColumns(items, x, t, o, m, e);
      }
    }
    if forall t :: 0 <= t < |items| ==> OfferedAt(items, x, t) {
      forall v | 0 <= v < Used(items) ensures InRange(items, x, v) {
        var t := ItemAt(items, |items|, v);
        var o, m, e := ItemColumns(items, t);
        OfferedColumns(items, x, t, o, m, e);
        assert OfferedAt(items, x, t);
      }
    }
  }

  lemma {:induction false} BoundRowsMean(items: seq<Item>, x: seq<real>, v: nat)
    requires |x| == Columns(items) && v < Used(items)
    ensures InRange(items, x, v) <==> RowHolds(items, x, 2 * v) && RowHolds(items, x, 2 * v + 1)
  {
    BoundRows(items, x, v);
  }

  lemma {:induction false} TypeRowMeans(items: seq<Item>, x: seq<real>, t: nat)
    requires |x| == Columns(items) && t < |items|
    ensures RowHolds(items, x, 2 * Used(items) + t) <==> Covered(items, x, t)
  {
    TypeRow(items, x, t);
  }

  lemma {:induction false} LastRowsMean(items: seq<Item>, x: seq<real>)
    requires |x| == Columns(items)
    ensures RowHolds(items, x, 2 * Used(items) + |items|) <==> Load(items, x, |items|) <= CAPACITY
    ensures RowHolds(items, x, 2 * Used(items) + |items| + 1) <==> Spending(items, x, |items|) <= WEALTH
  {
    CapacityRow(items, x);
    WealthRow(items, x);
  }

  /** What the rows say, one kind after the other. */
  predicate AllKinds(items: seq<Item>, x: seq<real>)
    requires |x| == Columns(items)
  {
    && (forall v :: 0 <= v < Used(items) ==> InRange(items, x, v))
    && (forall t :: 0 <= t < |items| ==> Covered(items, x, t))
    && RowHolds(items, x, 2 * Used(items) + |items|)
    && RowHolds(items, x, 2 * Used(items) + |items| + 1)
  }

  lemma {:induction false} RowsNeeded(items: seq<Item>, x: seq<real>)
    requires |x| == Columns(items) && Satisfies(items, x)
    ensures AllKinds(items, x)
  {
    var n := Used(items);
    forall v | 0 <= v < n ensures InRange(items, x, v) {
      assert RowHolds(items, x, 2 * v) && RowHolds(items, x, 2 * v + 1);
      BoundRowsMean(items, x, v);
    }
    forall t | 0 <= t < |items| ensures Covered(items, x, t) {
      assert RowHolds(items, x, 2 * n + t);
      TypeRowMeans(items, x, t);
    }
  }

  lemma {:induction false} Half(i: nat) returns (v: nat)
    ensures i == 2 * v || i == 2 * v + 1
  {
    v := i / 2;
  }

  lemma {:induction false} RowsSuffice(items: seq<Item>, x: seq<real>)
    requires |x| == Columns(items) && AllKinds(items, x)
    ensures Satisfies(items, x)
  {
    var n := Used(items);
    forall i | 0 <= i < Rows(items) ensures RowHolds(items, x, i) {
      if i < 2 * n {
        var v := Half(i);
        BoundRowsMean(items, x, v);
      } else if i < 2 * n + |items| {
        var t := i - 2 * n;
        TypeRowMeans(items, x, t);
        assert i == 2 * n + t;
      }
    }
  }

  /**
   For every vector, A x <= b holds exactly if the haul it stands for takes no order beyond its quantity, sells no
   more of an item than it buys, fits the hold and is paid from the purse; c x is what it earns.
   */
  lemma {:induction false} SystemMeansTrade(items: seq<Item>, x: seq<real>)
    requires |x| == Columns(items)
    ensures Satisfies(items, x) <==> Feasible(items, x)
    ensures Dot(Costs(items), x) == Profit(items, x)
  {
    if Satisfies(items, x) {
      RowsNeeded(items, x);
    }
    if AllKinds(items, x) {
      RowsSuffice(items, x);
    }
    OffersMean(items, x);
    LastRowsMean(items, x);
    CostRow(items, x);
  }

  /** Only the first half of a vector matters. */
  lemma {:induction false} OnlyUsedMatters(items: seq<Item>, x: seq<real>, y: seq<real>)
    requires |x| == |y| == Columns(items) && x[..Used(items)] == y[..Used(items)]
    ensures Satisfies(items, x) <==> Satisfies(items, y)
    ensures Dot(Costs(items), x) == Dot(Costs(items), y)
  {
    forall t | 0 <= t < |items| ensures DealAt(items, x, t) == DealAt(items, y, t) {
      var o, m, e := ItemColumns(items, t);
      SameSlice(x, y, Used(items), o, m);
      SameSlice(x, y, Used(items), m, e);
    }
    SameFeasible(items, x, y);
    SystemMeansTrade(items, x);
    SystemMeansTrade(items, y);
  }

  lemma {:induction false} SameSlice(x: seq<real>, y: seq<real>, n: nat, lo: nat, hi: nat)
    requires lo <= hi <= n <= |x| == |y| && x[..n] == y[..n]
    ensures x[lo..hi] == y[lo..hi]
  {
    assert x[lo..hi] == x[..n][lo..hi];
    assert y[lo..hi] == y[..n][lo..hi];
  }

  lemma {:induction false} SameFeasible(items: seq<Item>, x: seq<real>, y: seq<real>)
    requires |x| == |y| == Columns(items)
    requires forall t :: 0 <= t < |items| ==> DealAt(items, x, t) == DealAt(items, y, t)
    ensures Feasible(items, x) <==> Feasible(items, y)
    ensures Profit(items, x) == Profit(items, y)
  {
    SameDeals(items, x, y, |items|);
    forall t | 0 <= t < |items|
      ensures OfferedAt(items, x, t) == OfferedAt(items, y, t) && Covered(items, x, t) == Covered(items, y, t)
    {
      assert DealAt(items, x, t) == DealAt(items, y, t);
    }
  }

  lemma {:induction false} SameDeals(items: seq<Item>, x: seq<real>, y: seq<real>, n: nat)
    requires |x| == |y| == Columns(items) && n <= |items|
    requires forall t :: 0 <= t < |items| ==> DealAt(items, x, t) == DealAt(items, y, t)
    ensures Load(items, x, n) == Load(items, y, n) && Spending(items, x, n) == Spending(items, y, n)
    ensures Income(items, x, n) == Income(items, y, n)
  {
    if n > 0 {
      SameDeals(items, x, y, n - 1);
    }
  }

  // ------------------------------------------------ every haul is a vector

  function Flattened(plan: seq<Deal>, n: nat): seq<real>
    requires n <= |plan|
  {
    if n == 0 then [] else Flattened(plan, n - 1) + plan[n - 1].bought + plan[n - 1].sold
  }

  lemma {:induction false} FlattenedLength(items: seq<Item>, plan: seq<Deal>, n: nat)
    requires n <= |plan| == |items| && forall t :: 0 <= t < |items| ==> Fits(items[t], plan[t])
    ensures |Flattened(plan, n)| == Offset(items, n)
  {
    if n > 0 {
      FlattenedLength(items, plan, n - 1);
      assert Fits(items[n - 1], plan[n - 1]);
    }
  }

  lemma {:induction false} FlattenedPrefix(plan: seq<Deal>, n: nat, m: nat)
    requires n <= m <= |plan|
    ensures Flattened(plan, n) <= Flattened(plan, m)
  {
    if n < m {
      FlattenedPrefix(plan, n, m - 1);
    }
  }

  /** Every haul is what some vector stands for. */
  lemma {:induction false} EveryHaul(items: seq<Item>, plan: seq<Deal>) returns (x: seq<real>)
    requires |plan| == |items| && forall t :: 0 <= t < |items| ==> Fits(items[t], plan[t])
    ensures |x| == Columns(items)
    ensures forall t :: 0 <= t < |items| ==> DealAt(items, x, t) == plan[t]
  {
    var used := Flattened(plan, |plan|);
    FlattenedLength(items, plan, |plan|);
    x := used + seq(Used(items), _ => 0.0);
    forall t | 0 <= t < |items| ensures DealAt(items, x, t) == plan[t] {
      FlattenedLength(items, plan, t);
      FlattenedLength(items, plan, t + 1);
      FlattenedPrefix(plan, t + 1, |plan|);
      OffsetGrows(items, t + 1, |items|);
      var before := Flattened(plan, t);
      assert Fits(items[t], plan[t]);
      assert before + plan[t].bought + plan[t].sold <= x;
      LastDeal(x, before, plan[t]);
    }
  }

  /** A vector that begins with some flattened deals and one more has that one behind the others. */
  lemma {:induction false} LastDeal(x: seq<real>, before: seq<real>, deal: Deal)
    requires before + deal.bought + deal.sold <= x
    ensures var o, m := |before|, |before| + |deal.bought|;
            x[o..m] == deal.bought && x[m..m + |deal.sold|] == deal.sold
  {
    assert before + deal.bought + deal.sold == (before + deal.bought) + deal.sold;
    assert before + deal.bought <= x;
    SliceBehind(x, before, deal.bought);
    SliceBehind(x, before + deal.bought, deal.sold);
  }

  lemma {:induction false} SliceBehind(x: seq<real>, front: seq<real>, next: seq<real>)
    requires front + next <= x
    ensures x[|front|..|front| + |next|] == next
  {
    forall k | 0 <= k < |next| ensures x[|front| + k] == next[k] {
      assert (front + next)[|front| + k] == next[k];
    }
  }
}
