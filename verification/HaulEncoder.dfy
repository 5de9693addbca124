/** Fills the matrix, the bounds and the costs of the hauling problem (emdr_db/main2.cpp:753-827). */
module HaulEncoder {
  import opened HaulProblem
  import opened HaulMeaning

  /** The number of variables is kept in 32 bits, the number of constraints in 64. */
  const LIMIT := 0x1_0000_0000

  function Narrow(n: nat): nat {
    if n < LIMIT then n else n % LIMIT
  }

  /** The columns below `v` are filled in. */
  ghost predicate ColumnsFilled(items: seq<Item>, A: array2<real>, v: nat)
    reads A
  {
    && A.Length0 == Rows(items) && A.Length1 == Columns(items)
    && forall i, j :: 0 <= i < A.Length0 && 0 <= j < A.Length1 ==>
         A[i, j] == if j < v then Coefficient(items, i, j) else 0.0
  }

  /** The bounds of the variables below `v` are filled in, and those behind all variables. */
  ghost predicate BoundsFilled(items: seq<Item>, b: array<real>, v: nat)
    reads b
  {
    && b.Length == Rows(items)
    && forall i :: 0 <= i < b.Length ==> b[i] == if i < 2 * v || i >= 2 * Used(items) then Bound(items, i) else 0.0
  }

  ghost predicate CostsFilled(items: seq<Item>, c: array<real>, v: nat)
    reads c
  {
    c.Length == Columns(items) && forall j :: 0 <= j < c.Length ==> c[j] == if j < v then Cost(items, j) else 0.0
  }

  ghost predicate Filled(items: seq<Item>, A: array2<real>, b: array<real>, c: array<real>, v: nat)
    reads A, b, c
  {
    ColumnsFilled(items, A, v) && BoundsFilled(items, b, v) && CostsFilled(items, c, v)
  }

  function RowOf(A: array2<real>, i: nat): seq<real>
    requires i < A.Length0
    reads A
  {
    seq(A.Length1, j requires 0 <= j < A.Length1 reads A => A[i, j])
  }

  /** A x <= b for the arrays handed to the optimizer. */
  predicate Solves(A: array2<real>, b: array<real>, x: seq<real>)
    requires A.Length0 == b.Length && |x| == A.Length1
    reads A, b
  {
    forall i :: 0 <= i < b.Length ==> Dot(RowOf(A, i), x) <= b[i]
  }

  /** Wrapping at each addition is wrapping once. */
  lemma {:induction false} WrapsLate(a: nat, b: nat)
    ensures Narrow(a % LIMIT + b) == (a + b) % LIMIT
  {
    var q := a / LIMIT;
    assert a + b == LIMIT * q + (a % LIMIT + b);
  }

  /** Every variable has a column if and only if the count of columns did not wrap. */
  lemma {:induction false} ColumnsSuffice(items: seq<Item>)
    ensures Used(items) <= Columns(items) % LIMIT <==> Columns(items) < LIMIT
  {
    var n := Used(items);
    if Columns(items) >= LIMIT {
      var q := 2 * n / LIMIT;
      assert 2 * n == LIMIT * q + 2 * n % LIMIT;
    }
  }

  /**
   Fills A, b and c. `fits`: there is a column for every variable; otherwise the source goes on, and writes behind the
   rows of A and behind c.
   */
  method Encode(items: seq<Item>) returns (fits: bool, A: array2<real>, b: array<real>, c: array<real>)
    ensures fresh(A) && fresh(b) && fresh(c)
    ensures A.Length0 == b.Length == Rows(items) && A.Length1 == c.Length == Columns(items) % LIMIT
    ensures fits <==> Columns(items) < LIMIT
    ensures fits ==> A.Length1 == Columns(items)
    ensures fits ==> forall x: seq<real> :: |x| == Columns(items) ==> (Solves(A, b, x) <==> Feasible(items, x))
    ensures fits ==> forall x: seq<real> :: |x| == Columns(items) ==> Dot(c[..], x) == Profit(items, x)
  {
    var constraintCount, variableCount := Count(items);
    A := new real[constraintCount, variableCount]((i, j) => 0.0);
    b := new real[constraintCount](i => 0.0);
    c := new real[variableCount](j => 0.0);
    fits := Used(items) <= variableCount;
    ColumnsSuffice(items);
    if !fits {
      return; // some column written below would not be there
    }
    b[constraintCount - 2] := CAPACITY;
    b[constraintCount - 1] := WEALTH;
    var v, constr := 0, 0;
    var currentTypeConstraint := constraintCount - |items| - 2;
    for t := 0 to |items|
      invariant v == Offset(items, t) && constr == 2 * v && currentTypeConstraint == 2 * Used(items) + t
      invariant Filled(items, A, b, c, v)
    {
      v, constr := FillItem(items, A, b, c, t, v, constr, currentTypeConstraint);
      currentTypeConstraint := currentTypeConstraint + 1;
    }
    FilledMeans(items, A, b, c);
  }

  /** Counts rows and columns; the columns modulo 2^32. */
  method Count(items: seq<Item>) returns (constraintCount: nat, variableCount: nat)
    ensures constraintCount == Rows(items) && variableCount == Columns(items) % LIMIT
  {
    constraintCount, variableCount := 2 + |items|, 0;
    for t := 0 to |items|
      invariant constraintCount == 2 + |items| + 2 * Offset(items, t)
      invariant variableCount == 2 * Offset(items, t) % LIMIT
    {
      var orderCount := |items[t].sells| + |items[t].buys|;
      WrapsLate(2 * Offset(items, t), 2 * orderCount);
      variableCount := Narrow(variableCount + 2 * orderCount);
      constraintCount := constraintCount + 2 * orderCount;
    }
  }

  method FillItem(items: seq<Item>, A: array2<real>, b: array<real>, c: array<real>, t: nat, v0: nat, constr0: nat,
                  currentTypeConstraint: nat)
    returns (v: nat, constr: nat)
    requires t < |items| && v0 == Offset(items, t) && constr0 == 2 * v0
    requires currentTypeConstraint == 2 * Used(items) + t
    requires b != c && Filled(items, A, b, c, v0)
    modifies A, b, c
    ensures v == Offset(items, t + 1) && constr == 2 * v
    ensures Filled(items, A, b, c, v)
  {
    ghost var o, m, e := ItemColumns(items, t);
    v, constr := v0, constr0;
    for k := 0 to |items[t].sells|
      invariant v == o + k && constr == 2 * v && Filled(items, A, b, c, v)
    {
      BuyFrom(items, A, b, c, items[t].sells[k], items[t].volume, t, v, constr, currentTypeConstraint);
      constr := constr + 2;
      v := v + 1;
    }
    for k := 0 to |items[t].buys|
      invariant v == m + k && constr == 2 * v && Filled(items, A, b, c, v)
    {
      SellTo(items, A, b, c, items[t].buys[k], t, v, constr, currentTypeConstraint);
      constr := constr + 2;
      v := v + 1;
    }
  }

  lemma {:induction false} ColumnIs(items: seq<Item>, v: nat, w: Variable)
    requires v < Used(items) && VariableAt(items, v) == w
    ensures forall i: nat :: Coefficient(items, i, v) == Entry(items, w, v, i)
    ensures Bound(items, 2 * v) == w.order.quantity as real && Bound(items, 2 * v + 1) == 0.0
    ensures Cost(items, v) == if w.buying then -w.order.price else w.order.price
  {
    assert (2 * v) / 2 == v;
  }

  lemma {:induction false} NextBounds(items: seq<Item>, b: array<real>, was: seq<real>, v: nat)
    requires v < Used(items) && |was| == b.Length == Rows(items)
    requires forall i :: 0 <= i < |was| ==> was[i] == if i < 2 * v || i >= 2 * Used(items) then Bound(items, i) else 0.0
    requires b[2 * v] == Bound(items, 2 * v) && b[2 * v + 1] == Bound(items, 2 * v + 1)
    requires forall i :: 0 <= i < |was| && i != 2 * v && i != 2 * v + 1 ==> b[i] == was[i]
    ensures BoundsFilled(items, b, v + 1)
  {
  }

  method BuyFrom(items: seq<Item>, A: array2<real>, b: array<real>, c: array<real>, order: Order, vol: real,
                 ghost t: nat, v: nat, constr: nat, currentTypeConstraint: nat)
    requires v < Used(items) && VariableAt(items, v) == Variable(t, true, order) && vol == items[t].volume
    requires constr == 2 * v && currentTypeConstraint == 2 * Used(items) + t
    requires b != c && Filled(items, A, b, c, v)
    modifies A, b, c
    ensures Filled(items, A, b, c, v + 1)
  {
    ColumnIs(items, v, Variable(t, true, order));
    label before:
    ghost var was := b[..];
    SetBounds(A, b, c, v, constr, order.quantity as real, -order.price);
    A[currentTypeConstraint, v] := -1.0;
    A[b.Length - 2, v] := vol;
    A[b.Length - 1, v] := order.price;
    assert forall i, j {:trigger A[i, j]} :: 0 <= i < A.Length0 && 0 <= j < A.Length1 ==>
             A[i, j] == if j == v then Entry(items, Variable(t, true, order), v, i) else old@before(A[i, j]);
    assert CostsFilled(items, c, v + 1);
    NextBounds(items, b, was, v);
    assert ColumnsFilled(items, A, v + 1);
  }

  method SellTo(items: seq<Item>, A: array2<real>, b: array<real>, c: array<real>, order: Order, ghost t: nat, v: nat,
                constr: nat, currentTypeConstraint: nat)
    requires v < Used(items) && VariableAt(items, v) == Variable(t, false, order)
    requires constr == 2 * v && currentTypeConstraint == 2 * Used(items) + t
    requires b != c && Filled(items, A, b, c, v)
    modifies A, b, c
    ensures Filled(items, A, b, c, v + 1)
  {
    ColumnIs(items, v, Variable(t, false, order));
    label before:
    ghost var was := b[..];
    SetBounds(A, b, c, v, constr, order.quantity as real, order.price);
    A[currentTypeConstraint, v] := 1.0;
    assert forall i, j {:trigger A[i, j]} :: 0 <= i < A.Length0 && 0 <= j < A.Length1 ==>
             A[i, j] == if j == v then Entry(items, Variable(t, false, order), v, i) else old@before(A[i, j]);
    assert CostsFilled(items, c, v + 1);
    NextBounds(items, b, was, v);
    assert ColumnsFilled(items, A, v + 1);
  }

  /** The two bound rows and the cost of a variable. */
  method SetBounds(A: array2<real>, b: array<real>, c: array<real>, v: nat, constr: nat, quantity: real, cost: real)
    requires A.Length0 == b.Length && A.Length1 == c.Length && b != c
    requires v < c.Length && constr + 1 < b.Length
    modifies A, b, c
    ensures forall i, j :: 0 <= i < A.Length0 && 0 <= j < A.Length1 ==>
              A[i, j] == if j == v && i == constr then 1.0 else if j == v && i == constr + 1 then -1.0
                         else old(A[i, j])
    ensures forall i :: 0 <= i < b.Length ==>
              b[i] == if i == constr then quantity else if i == constr + 1 then 0.0 else old(b[i])
    ensures forall j :: 0 <= j < c.Length ==> c[j] == if j == v then cost else old(c[j])
  {
    A[constr, v] := 1.0;
    b[constr] := quantity;
    A[constr + 1, v] := -1.0;
    b[constr + 1] := 0.0;
    c[v] := cost;
  }

  /** Once all columns are filled in, the arrays are the linear program. */
  lemma {:induction false} FilledMeans(items: seq<Item>, A: array2<real>, b: array<real>, c: array<real>)
    requires Filled(items, A, b, c, Used(items))
    ensures forall x: seq<real> :: |x| == Columns(items) ==> (Solves(A, b, x) <==> Feasible(items, x))
    ensures forall x: seq<real> :: |x| == Columns(items) ==> Dot(c[..], x) == Profit(items, x)
  {
    assert c[..] == Costs(items);
    forall i | 0 <= i < Rows(items) ensures RowOf(A, i) == Row(items, i) && b[i] == Bound(items, i) {
      assert forall j :: 0 <= j < Columns(items) ==> RowOf(A, i)[j] == A[i, j];
    }
    forall x: seq<real> | |x| == Columns(items)
      ensures (Solves(A, b, x) <==> Feasible(items, x)) && Dot(c[..], x) == Profit(items, x)
    {
      SystemMeansTrade(items, x);
      SameSystem(items, A, b, x);
    }
  }

  lemma {:induction false} SameSystem(items: seq<Item>, A: array2<real>, b: array<real>, x: seq<real>)
    requires A.Length0 == b.Length == Rows(items) && |x| == A.Length1 == Columns(items)
    requires forall i :: 0 <= i < Rows(items) ==> RowOf(A, i) == Row(items, i) && b[i] == Bound(items, i)
    ensures Solves(A, b, x) <==> Satisfies(items, x)
  {
    forall i | 0 <= i < Rows(items) ensures Dot(RowOf(A, i), x) <= b[i] <==> RowHolds(items, x, i) {
    }
  }
}
