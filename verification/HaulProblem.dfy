/**
 The hauling problem of emdr_db/main2.cpp (maxIskHaul::helper, 753-827) and its linear program: buy from the sell
 orders of one station, sell to the buy orders of another, within a hold of 3900 and a purse of 75 million.
 */
module HaulProblem {
  datatype Order = Order(quantity: nat, price: real)
  datatype Item = Item(volume: real, sells: seq<Order>, buys: seq<Order>)

  const CAPACITY := 3900.0
  const WEALTH := 75_000_000.0

  // ------------------------------------------------ what a haul is

  /** How much of one item is bought from each sell order and sold to each buy order. */
  datatype Deal = Deal(bought: seq<real>, sold: seq<real>)

  /** The sum of the first `n` terms. */
  function Sum(q: seq<real>, n: nat): real
    requires n <= |q|
  {
    if n == 0 then 0.0 else Sum(q, n - 1) + q[n - 1]
  }

  function Total(q: seq<real>): real {
    Sum(q, |q|)
  }

  function Products(a: seq<real>, x: seq<real>): (p: seq<real>)
    requires |a| == |x|
  {
    seq(|x|, j requires 0 <= j < |x| => a[j] * x[j])
  }

  function Dot(a: seq<real>, x: seq<real>): real
    requires |a| == |x|
  {
    Total(Products(a, x))
  }

  function Prices(orders: seq<Order>): seq<real> {
    seq(|orders|, k requires 0 <= k < |orders| => orders[k].price)
  }

  /** Every unit bought has the volume of its item. */
  function Volumes(item: Item): seq<real> {
    seq(|item.sells|, _ => item.volume)
  }

  predicate Offered(orders: seq<Order>, q: seq<real>) {
    |q| == |orders| && forall k :: 0 <= k < |q| ==> 0.0 <= q[k] <= orders[k].quantity as real
  }

  predicate Fits(item: Item, deal: Deal) {
    |deal.bought| == |item.sells| && |deal.sold| == |item.buys|
  }

  // ------------------------------------------------ the variables and what they mean

  function Width(item: Item): nat {
    |item.sells| + |item.buys|
  }

  /** The variables of the first `t` items. */
  function Offset(items: seq<Item>, t: nat): nat
    requires t <= |items|
  {
    if t == 0 then 0 else Offset(items, t - 1) + Width(items[t - 1])
  }

  /** How many variables have a meaning; the code declares twice as many. */
  function Used(items: seq<Item>): nat {
    Offset(items, |items|)
  }

  function Columns(items: seq<Item>): nat {
    2 * Used(items)
  }

  function Rows(items: seq<Item>): nat {
    2 + |items| + 2 * Used(items)
  }

  lemma {:induction false} OffsetGrows(items: seq<Item>, t: nat, u: nat)
    requires t <= u <= |items|
    ensures Offset(items, t) <= Offset(items, u)
  {
    if t < u {
      OffsetGrows(items, t, u - 1);
    }
  }

  function DealAt(items: seq<Item>, x: seq<real>, t: nat): (deal: Deal)
    requires t < |items| && |x| == Columns(items)
    ensures Fits(items[t], deal)
  {
    OffsetGrows(items, t + 1, |items|);
    var o, s := Offset(items, t), |items[t].sells|;
    Deal(x[o..o + s], x[o + s..o + Width(items[t])])
  }

  /** Which variables the deals of an item consist of. */
  lemma {:induction false} VariablesOf(items: seq<Item>, x: seq<real>, t: nat)
    requires t < |items| && |x| == Columns(items)
    ensures Offset(items, t) + Width(items[t]) <= |x|
    ensures var o, s, b := Offset(items, t), |items[t].sells|, |items[t].buys|;
            && (forall k :: 0 <= k < s ==> DealAt(items, x, t).bought[k] == x[o + k])
            && (forall k :: 0 <= k < b ==> DealAt(items, x, t).sold[k] == x[o + s + k])
  {
    OffsetGrows(items, t + 1, |items|);
  }

  function Load(items: seq<Item>, x: seq<real>, n: nat): real
    requires |x| == Columns(items) && n <= |items|
  {
    if n == 0 then 0.0 else Load(items, x, n - 1) + Dot(Volumes(items[n - 1]), DealAt(items, x, n - 1).bought)
  }

  function Spending(items: seq<Item>, x: seq<real>, n: nat): real
    requires |x| == Columns(items) && n <= |items|
  {
    if n == 0 then 0.0 else Spending(items, x, n - 1) + Dot(Prices(items[n - 1].sells), DealAt(items, x, n - 1).bought)
  }

  function Income(items: seq<Item>, x: seq<real>, n: nat): real
    requires |x| == Columns(items) && n <= |items|
  {
    if n == 0 then 0.0 else Income(items, x, n - 1) + Dot(Prices(items[n - 1].buys), DealAt(items, x, n - 1).sold)
  }

  predicate OfferedAt(items: seq<Item>, x: seq<real>, t: nat)
    requires |x| == Columns(items) && t < |items|
  {
    Offered(items[t].sells, DealAt(items, x, t).bought) && Offered(items[t].buys, DealAt(items, x, t).sold)
  }

  /** No more of an item is sold than bought. */
  predicate Covered(items: seq<Item>, x: seq<real>, t: nat)
    requires |x| == Columns(items) && t < |items|
  {
    Total(DealAt(items, x, t).sold) <= Total(DealAt(items, x, t).bought)
  }

  /** The haul a solution vector stands for can be done. */
  predicate Feasible(items: seq<Item>, x: seq<real>)
    requires |x| == Columns(items)
  {
    && (forall t :: 0 <= t < |items| ==> OfferedAt(items, x, t))
    && (forall t :: 0 <= t < |items| ==> Covered(items, x, t))
    && Load(items, x, |items|) <= 3900.0
    && Spending(items, x, |items|) <= 75_000_000.0
  }

  function Profit(items: seq<Item>, x: seq<real>): real
    requires |x| == Columns(items)
  {
    Income(items, x, |items|) - Spending(items, x, |items|)
  }

  /** The item a variable belongs to, among the first `n`. */
  function ItemAt(items: seq<Item>, n: nat, j: nat): (t: nat)
    requires n <= |items| && j < Offset(items, n)
    ensures t < n && Offset(items, t) <= j < Offset(items, t + 1)
  {
    if j >= Offset(items, n - 1) then n - 1 else ItemAt(items, n - 1, j)
  }

  lemma {:induction false} ItemAtIs(items: seq<Item>, t: nat, j: nat)
    requires t < |items| && Offset(items, t) <= j < Offset(items, t + 1)
    ensures j < Used(items) && ItemAt(items, |items|, j) == t
  {
    OffsetGrows(items, t + 1, |items|);
    var u := ItemAt(items, |items|, j);
    if u < t {
      OffsetGrows(items, u + 1, t);
    } else if t < u {
      OffsetGrows(items, t + 1, u);
    }
  }

  // ------------------------------------------------ the linear program

  /** A variable: `k`-th order of item `t`, a sell order to buy from or a buy order to sell to. */
  datatype Variable = Variable(t: nat, buying: bool, order: Order)

  function VariableAt(items: seq<Item>, j: nat): (w: Variable)
    requires j < Used(items)
    ensures w.t < |items|
  {
    var t := ItemAt(items, |items|, j);
    var k, s := j - Offset(items, t), |items[t].sells|;
    if k < s then Variable(t, true, items[t].sells[k]) else Variable(t, false, items[t].buys[k - s])
  }

  /** What the column of variable `j` holds in row `i`. */
  function Entry(items: seq<Item>, w: Variable, j: nat, i: nat): real
    requires w.t < |items|
  {
    var n := Used(items);
    if i == 2 * j then 1.0
    else if i == 2 * j + 1 then -1.0
    else if i == 2 * n + w.t then (if w.buying then -1.0 else 1.0)
    else if i == 2 * n + |items| && w.buying then items[w.t].volume
    else if i == 2 * n + |items| + 1 && w.buying then w.order.price
    else 0.0
  }

  function Coefficient(items: seq<Item>, i: nat, j: nat): real {
    if j >= Used(items) then 0.0 else Entry(items, VariableAt(items, j), j, i)
  }

  function Bound(items: seq<Item>, i: nat): real {
    var n := Used(items);
    if i < 2 * n then (if i % 2 == 0 then VariableAt(items, i / 2).order.quantity as real else 0.0)
    else if i == 2 * n + |items| then CAPACITY
    else if i == 2 * n + |items| + 1 then WEALTH
    else 0.0
  }

  function Cost(items: seq<Item>, j: nat): real {
    if j >= Used(items) then 0.0 else
    var w := VariableAt(items, j);
    if w.buying then -w.order.price else w.order.price
  }

  function Row(items: seq<Item>, i: nat): seq<real> {
    seq(Columns(items), j requires 0 <= j => Coefficient(items, i, j))
  }

  function Costs(items: seq<Item>): seq<real> {
    seq(Columns(items), j requires 0 <= j => Cost(items, j))
  }

  /** Row `i` of A x <= b. */
  predicate RowHolds(items: seq<Item>, x: seq<real>, i: nat)
    requires |x| == Columns(items)
  {
    Dot(Row(items, i), x) <= Bound(items, i)
  }

  /** A x <= b */
  predicate Satisfies(items: seq<Item>, x: seq<real>)
    requires |x| == Columns(items)
  {
    forall i :: 0 <= i < Rows(items) ==> RowHolds(items, x, i)
  }
}
