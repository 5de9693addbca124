/** Registration order, the product maps, and which type ids pass the check. */
module BlueprintProperties {
  import opened Wrappers
  import opened Folds
  import opened BlueprintRegistry

  // ------------------------------------------------ order

  /** Neither blueprint overwrites what the other one registers with anything else. */
  predicate Agree(a: Blueprint, b: Blueprint) {
    && (a.id == b.id && a.product.Some? && b.product.Some? ==> a.product == b.product)
    && (a.product.Some? && a.product == b.product ==> a.id == b.id)
    && (IsAncientRelic(a) == IsAncientRelic(b) && a.id != b.id ==> Invented(a) !! Invented(b))
  }

  predicate AllAgree(bs: seq<Blueprint>) {
    forall a, b :: a in bs && b in bs ==> Agree(a, b)
  }

  lemma {:induction false} MapsCommute<K, V>(m: map<K, V>, s: map<K, V>, t: map<K, V>)
    requires forall k :: k in s && k in t ==> s[k] == t[k]
    ensures m + s + t == m + t + s
  {
  }

  lemma {:induction false} JoinsCommute(l: Line, d: Line, e: Line)
    requires forall t :: t in d.origin && t in e.origin ==> d.origin[t] == e.origin[t]
    ensures Join(Join(l, d), e) == Join(Join(l, e), d)
  {
    MapsCommute(l.origin, d.origin, e.origin);
    assert l.inventors + d.inventors + e.inventors == l.inventors + e.inventors + d.inventors;
    assert l.invented + d.invented + e.invented == l.invented + e.invented + d.invented;
    assert l.pairs + d.pairs + e.pairs == l.pairs + e.pairs + d.pairs;
  }

  lemma {:induction false} LinesCommute(l: Line, a: Blueprint, b: Blueprint)
    requires a.id == b.id || Invented(a) !! Invented(b)
    ensures Extend(Extend(l, a), b) == Extend(Extend(l, b), a)
  {
    assert LineOf(a).origin.Keys == Invented(a) && LineOf(b).origin.Keys == Invented(b);
    JoinsCommute(l, LineOf(a), LineOf(b));
  }

  lemma {:induction false} UpdatesCommute<K, V>(m: map<K, V>, k: K, v: V, l: K, w: V)
    requires k != l || v == w
    ensures m[k := v][l := w] == m[l := w][k := v]
  {
  }

  lemma {:induction false} ProductsCommute(r: Registry, a: Blueprint, b: Blueprint)
    requires Agree(a, b)
    ensures RegisterProduct(RegisterProduct(r, a), b) == RegisterProduct(RegisterProduct(r, b), a)
  {
    assert r.blueprints + {a.id} + {b.id} == r.blueprints + {b.id} + {a.id};
    if a.product.Some? && b.product.Some? {
      var p, q := a.product.value, b.product.value;
      assert r.manufacturingOutputs + {p} + {q} == r.manufacturingOutputs + {q} + {p};
      UpdatesCommute(r.bpToProduct, a.id, p, b.id, q);
      UpdatesCommute(r.productToBP, p, a.id, q, b.id);
    }
  }

  lemma {:induction false} InventionsCommute(r: Registry, a: Blueprint, b: Blueprint)
    requires Agree(a, b)
    ensures RegisterInventions(RegisterInventions(r, a), b) == RegisterInventions(RegisterInventions(r, b), a)
  {
    if IsAncientRelic(a) == IsAncientRelic(b) {
      LinesCommute(r.t2Line, a, b);
      LinesCommute(r.t3Line, a, b);
    }
  }

  /** Products and inventions do not meet. */
  lemma {:induction false} PartsCommute(r: Registry, a: Blueprint, b: Blueprint)
    ensures RegisterProduct(RegisterInventions(r, a), b) == RegisterInventions(RegisterProduct(r, b), a)
  {
  }

  lemma {:induction false} Commute(r: Registry, a: Blueprint, b: Blueprint)
    requires Agree(a, b)
    ensures Register(Register(r, a), b) == Register(Register(r, b), a)
  {
    PartsCommute(RegisterProduct(r, a), a, b);
    PartsCommute(RegisterProduct(r, b), b, a);
    ProductsCommute(r, a, b);
    InventionsCommute(RegisterProduct(RegisterProduct(r, a), b), a, b);
  }

  ghost predicate SameInAnyOrder(r: Registry, bs: seq<Blueprint>) {
    forall cs: seq<Blueprint> :: multiset(cs) == multiset(bs) ==> RegisterAll(r, cs) == RegisterAll(r, bs)
  }

  lemma {:induction false} AgreeingCommute(r: Registry, bs: seq<Blueprint>)
    requires AllAgree(bs)
    ensures SameInAnyOrder(r, bs)
  {
    forall a, b | a in bs && b in bs ensures Commuting(Register, a, b) {
      forall q ensures Register(Register(q, a), b) == Register(Register(q, b), a) {
        Commute(q, a, b);
      }
    }
    forall cs: seq<Blueprint> | multiset(cs) == multiset(bs) ensures RegisterAll(r, cs) == RegisterAll(r, bs) {
      Permuted(Register, r, bs, cs);
    }
  }

  /** A blueprint can be moved to the end, where what it registers overwrites anything else. */
  lemma {:induction false} MovedToEnd(r: Registry, bs: seq<Blueprint>, b: Blueprint) returns (q: Registry)
    requires b in bs && SameInAnyOrder(r, bs)
    ensures RegisterAll(r, bs) == Register(q, b)
  {
    var i: nat :| i < |bs| && bs[i] == b;
    var cs := bs[..i] + bs[i + 1..];
    ToEnd(bs, i);
    assert RegisterAll(r, cs + [b]) == RegisterAll(r, bs);
    FoldLast(Register, r, cs, b);
    q := RegisterAll(r, cs);
  }

  lemma {:induction false} LastWins(r: Registry, b: Blueprint)
    ensures b.product.Some? ==>
              var q := Register(r, b);
              && b.id in q.bpToProduct && q.bpToProduct[b.id] == b.product.value
              && b.product.value in q.productToBP && q.productToBP[b.product.value] == b.id
    ensures var line := if IsAncientRelic(b) then Register(r, b).t3Line else Register(r, b).t2Line;
            forall t :: t in Invented(b) ==> t in line.origin && line.origin[t] == b.id
  {
  }

  /**
   The order of registration does not matter exactly if any two blueprints agree: one id has one product, one product
   one blueprint, and what two blueprints of the same kind and different ids invent is different.
   */
  lemma {:induction false} OrderIrrelevant(r: Registry, bs: seq<Blueprint>)
    ensures SameInAnyOrder(r, bs) <==> AllAgree(bs)
  {
    if AllAgree(bs) {
      AgreeingCommute(r, bs);
    }
    if SameInAnyOrder(r, bs) {
      forall a, b | a in bs && b in bs ensures Agree(a, b) {
        var q := MovedToEnd(r, bs, a);
        var s := MovedToEnd(r, bs, b);
        LastWins(q, a);
        LastWins(s, b);
      }
    }
  }

  /** Distinct ids and one blueprint per product. */
  predicate Distinct(bs: seq<Blueprint>) {
    forall i, j :: 0 <= i < j < |bs| ==>
      bs[i].id != bs[j].id && (bs[i].product.Some? ==> bs[i].product != bs[j].product)
  }

  /** A relic with one invention. */
  function Relic(id: TypeId, t: TypeId): Blueprint {
    Blueprint(id, None, [Some(t)], Some(971))
  }

  lemma {:induction false} RelicInvents(id: TypeId, t: TypeId)
    ensures IsAncientRelic(Relic(id, t)) && Invented(Relic(id, t)) == {t}
  {
    assert [Some(t)][..0] == [];
    assert Readable([Some(t)]) == [t];
  }

  lemma {:induction false} LastOrigin(r: Registry, a: Blueprint, id: TypeId, t: TypeId)
    ensures var s := RegisterAll(r, [a, Relic(id, t)]).t3Line.origin;
            t in s && s[t] == id
  {
    RelicInvents(id, t);
    FoldLast(Register, r, [a], Relic(id, t));
    LastWins(RegisterAll(r, [a]), Relic(id, t));
    assert [a] + [Relic(id, t)] == [a, Relic(id, t)];
  }

  /**
   Two relics that invent the same type: the one registered last becomes its origin, so the order matters, although
   ids are distinct, no product has two blueprints and `checkItem` accepts everything.
   */
  lemma {:induction false} RelicsDisagree(r: Registry, id: TypeId, other: TypeId, t: TypeId)
    requires id != other && t != id && t != other
    ensures var bs := [Relic(id, t), Relic(other, t)];
            && Distinct(bs) && Clean(bs) && !SameInAnyOrder(r, bs)
            && t in RegisterAll(r, bs).t3Line.origin && RegisterAll(r, bs).t3Line.origin[t] == other
  {
    var a, b := Relic(id, t), Relic(other, t);
    LastOrigin(r, a, other, t);
    LastOrigin(r, b, id, t);
    assert RegisterAll(r, [b, a]) != RegisterAll(r, [a, b]);
    assert multiset([b, a]) == multiset([a, b]);
    RelicsClean(id, other, t);
  }

  lemma {:induction false} RelicsClean(id: TypeId, other: TypeId, t: TypeId)
    requires t != id && t != other
    ensures Clean([Relic(id, t), Relic(other, t)])
  {
    RelicInvents(id, t);
    RelicInvents(other, t);
  }

  // ------------------------------------------------ where everything registered comes from

  /** Blueprint `i` is the last one with its id that makes anything. */
  predicate LastOfId(bs: seq<Blueprint>, i: nat)
    requires i < |bs|
  {
    bs[i].product.Some? && forall j :: i < j < |bs| && bs[j].product.Some? ==> bs[j].id != bs[i].id
  }

  /** Blueprint `i` is the last one that makes its product. */
  predicate LastOfProduct(bs: seq<Blueprint>, i: nat)
    requires i < |bs|
  {
    bs[i].product.Some? && forall j :: i < j < |bs| ==> bs[j].product != bs[i].product
  }

  /** The last blueprint with an id says what it makes, the last one with a product who makes it. */
  ghost predicate MapsSourced(r: Registry, bs: seq<Blueprint>) {
    && (forall x, p :: x in r.bpToProduct && r.bpToProduct[x] == p <==> MadeBy(bs, x, p))
    && (forall x, p :: p in r.productToBP && r.productToBP[p] == x <==> MakerOf(bs, x, p))
  }

  ghost predicate MadeBy(bs: seq<Blueprint>, x: TypeId, p: TypeId) {
    exists i :: 0 <= i < |bs| && bs[i].id == x && bs[i].product == Some(p) && LastOfId(bs, i)
  }

  ghost predicate MakerOf(bs: seq<Blueprint>, x: TypeId, p: TypeId) {
    exists i :: 0 <= i < |bs| && bs[i].id == x && bs[i].product == Some(p) && LastOfProduct(bs, i)
  }

  predicate IsId(bs: seq<Blueprint>, t: TypeId) {
    exists i :: 0 <= i < |bs| && bs[i].id == t
  }

  predicate IsInvented(bs: seq<Blueprint>, relics: bool, t: TypeId) {
    exists i :: 0 <= i < |bs| && IsAncientRelic(bs[i]) == relics && Some(t) in bs[i].inventions
  }

  predicate IsInventor(bs: seq<Blueprint>, relics: bool, t: TypeId) {
    exists i :: 0 <= i < |bs| && IsAncientRelic(bs[i]) == relics && bs[i].id == t && Invents(bs[i])
  }

  /** Some invention product can be read. */
  predicate Invents(b: Blueprint) {
    exists k :: 0 <= k < |b.inventions| && b.inventions[k].Some?
  }

  lemma {:induction false} InventsSome(b: Blueprint)
    ensures Invents(b) <==> Invented(b) != {}
  {
    if Invents(b) {
      var k :| 0 <= k < |b.inventions| && b.inventions[k].Some?;
      assert b.inventions[k] in b.inventions && b.inventions[k].value in Invented(b);
    }
    if Invented(b) != {} {
      var t :| t in Invented(b);
      var k :| 0 <= k < |b.inventions| && b.inventions[k] == Some(t);
    }
  }

  /** Blueprint `x` is the last one of its kind that invents `t`. */
  ghost predicate OriginOf(bs: seq<Blueprint>, relics: bool, x: TypeId, t: TypeId) {
    exists i :: 0 <= i < |bs| && bs[i].id == x && LastInventor(bs, relics, t, i)
  }

  predicate LastInventor(bs: seq<Blueprint>, relics: bool, t: TypeId, i: nat)
    requires i < |bs|
  {
    && IsAncientRelic(bs[i]) == relics && Some(t) in bs[i].inventions
    && forall j :: i < j < |bs| && IsAncientRelic(bs[j]) == relics ==> Some(t) !in bs[j].inventions
  }

  /** The places where a blueprint `x` of one kind names `t` as an invention. */
  function Places(bs: seq<Blueprint>, relics: bool, x: TypeId, t: TypeId): set<(int, int)> {
    set i, k | 0 <= i < |bs| && 0 <= k < |bs[i].inventions| && Names(bs[i], relics, x, t, k) :: (i, k)
  }

  predicate Names(b: Blueprint, relics: bool, x: TypeId, t: TypeId, k: nat)
    requires k < |b.inventions|
  {
    IsAncientRelic(b) == relics && b.id == x && b.inventions[k] == Some(t)
  }

  ghost predicate Sourced(r: Registry, bs: seq<Blueprint>) {
    && (forall t :: t in r.blueprints <==> IsId(bs, t))
    && MapsSourced(r, bs)
    && LineSourced(r.t2Line, bs, false) && LineSourced(r.t3Line, bs, true)
  }

  ghost predicate LineSourced(l: Line, bs: seq<Blueprint>, relics: bool) {
    && (forall t :: t in l.invented <==> IsInvented(bs, relics, t))
    && (forall t :: t in l.inventors <==> IsInventor(bs, relics, t))
    && OriginSourced(l.origin, bs, relics) && PairsSourced(l.pairs, bs, relics)
  }

  ghost predicate OriginSourced(origin: map<TypeId, TypeId>, bs: seq<Blueprint>, relics: bool) {
    forall x, t :: t in origin && origin[t] == x <==> OriginOf(bs, relics, x, t)
  }

  ghost predicate PairsSourced(pairs: multiset<(TypeId, TypeId)>, bs: seq<Blueprint>, relics: bool) {
    forall x, t :: pairs[(x, t)] == |Places(bs, relics, x, t)|
  }

  lemma {:induction false} OriginNext(bs: seq<Blueprint>, relics: bool, b: Blueprint, x: TypeId, t: TypeId)
    ensures OriginOf(bs + [b], relics, x, t) <==>
            if IsAncientRelic(b) == relics && Some(t) in b.inventions then b.id == x else OriginOf(bs, relics, x, t)
  {
    var all := bs + [b];
    assert all[|bs|] == b && forall i :: 0 <= i < |bs| ==> all[i] == bs[i];
    if IsAncientRelic(b) == relics && Some(t) in b.inventions {
      assert LastInventor(all, relics, t, |bs|);
    }
    forall i | 0 <= i < |bs|
      ensures LastInventor(all, relics, t, i) <==>
              LastInventor(bs, relics, t, i) && !(IsAncientRelic(b) == relics && Some(t) in b.inventions)
    {
    }
  }

  /** The places in blueprint `n`. */
  function PlacesIn(n: nat, s: seq<Option<TypeId>>, t: TypeId): set<(int, int)> {
    set k | 0 <= k < |s| && s[k] == Some(t) :: (n, k)
  }

  lemma {:induction false} PairsCount(id: TypeId, n: nat, s: seq<Option<TypeId>>, x: TypeId, t: TypeId)
    ensures Pairs(id, Readable(s))[(x, t)] == if x == id then |PlacesIn(n, s, t)| else 0
  {
    if s == [] {
      assert PlacesIn(n, s, t) == {};
    } else {
      var m := |s| - 1;
      PairsCount(id, n, s[..m], x, t);
      PlacesNext(n, s, t);
      if s[m].Some? {
        var r := Readable(s[..m]);
        assert (r + [s[m].value])[..|r|] == r;
      } else {
        assert Readable(s) == Readable(s[..m]);
      }
    }
  }

  lemma {:induction false} PlacesNext(n: nat, s: seq<Option<TypeId>>, t: TypeId)
    requires s != []
    ensures |PlacesIn(n, s, t)| == |PlacesIn(n, s[..|s| - 1], t)| + if s[|s| - 1] == Some(t) then 1 else 0
  {
    var m := |s| - 1;
    if s[m] == Some(t) {
      assert PlacesIn(n, s, t) == PlacesIn(n, s[..m], t) + {(n, m)};
    } else {
      assert PlacesIn(n, s, t) == PlacesIn(n, s[..m], t);
    }
  }

  lemma {:induction false} MorePlaces(bs: seq<Blueprint>, relics: bool, b: Blueprint, x: TypeId, t: TypeId)
    ensures |Places(bs + [b], relics, x, t)| ==
            |Places(bs, relics, x, t)|
            + if IsAncientRelic(b) == relics && b.id == x then |PlacesIn(|bs|, b.inventions, t)| else 0
  {
    if IsAncientRelic(b) == relics && b.id == x {
      PlacesAdded(bs, relics, b, x, t);
      assert Places(bs, relics, x, t) !! PlacesIn(|bs|, b.inventions, t);
    } else {
      PlacesKept(bs, relics, b, x, t);
    }
  }

  lemma {:induction false} PlacesAdded(bs: seq<Blueprint>, relics: bool, b: Blueprint, x: TypeId, t: TypeId)
    requires IsAncientRelic(b) == relics && b.id == x
    ensures Places(bs + [b], relics, x, t) ==
            Places(bs, relics, x, t) + PlacesIn(|bs|, b.inventions, t)
  {
    assert (bs + [b])[|bs|] == b && forall i :: 0 <= i < |bs| ==> (bs + [b])[i] == bs[i];
  }

  lemma {:induction false} PlacesKept(bs: seq<Blueprint>, relics: bool, b: Blueprint, x: TypeId, t: TypeId)
    requires !(IsAncientRelic(b) == relics && b.id == x)
    ensures Places(bs + [b], relics, x, t) == Places(bs, relics, x, t)
  {
    assert (bs + [b])[|bs|] == b && forall i :: 0 <= i < |bs| ==> (bs + [b])[i] == bs[i];
  }

  lemma {:induction false} RolesNext(bs: seq<Blueprint>, relics: bool, b: Blueprint, t: TypeId)
    ensures IsInvented(bs + [b], relics, t) <==>
            IsInvented(bs, relics, t) || (IsAncientRelic(b) == relics && Some(t) in b.inventions)
    ensures IsInventor(bs + [b], relics, t) <==>
            IsInventor(bs, relics, t) || (IsAncientRelic(b) == relics && b.id == t && Invents(b))
  {
    var all := bs + [b];
    assert all[|bs|] == b && forall i :: 0 <= i < |bs| ==> all[i] == bs[i];
  }

  lemma {:induction false} OriginStillSourced(l: Line, bs: seq<Blueprint>, relics: bool, b: Blueprint)
    requires OriginSourced(l.origin, bs, relics)
    ensures OriginSourced((if IsAncientRelic(b) == relics then Extend(l, b) else l).origin, bs + [b], relics)
  {
    var origin := (if IsAncientRelic(b) == relics then Extend(l, b) else l).origin;
    forall x, t ensures t in origin && origin[t] == x <==> OriginOf(bs + [b], relics, x, t) {
      OriginNext(bs, relics, b, x, t);
      assert t in AllTo(Invented(b), b.id) <==> Some(t) in b.inventions;
    }
  }

  lemma {:induction false} PairsStillSourced(l: Line, bs: seq<Blueprint>, relics: bool, b: Blueprint)
    requires PairsSourced(l.pairs, bs, relics)
    ensures PairsSourced((if IsAncientRelic(b) == relics then Extend(l, b) else l).pairs, bs + [b], relics)
  {
    var pairs := (if IsAncientRelic(b) == relics then Extend(l, b) else l).pairs;
    forall x, t ensures pairs[(x, t)] == |Places(bs + [b], relics, x, t)| {
      MorePlaces(bs, relics, b, x, t);
      PairsCount(b.id, |bs|, b.inventions, x, t);
    }
  }

  lemma {:induction false} LineStillSourced(l: Line, bs: seq<Blueprint>, relics: bool, b: Blueprint)
    requires LineSourced(l, bs, relics)
    ensures LineSourced(if IsAncientRelic(b) == relics then Extend(l, b) else l, bs + [b], relics)
  {
    InventsSome(b);
    OriginStillSourced(l, bs, relics, b);
    PairsStillSourced(l, bs, relics, b);
    var m := if IsAncientRelic(b) == relics then Extend(l, b) else l;
    forall t
      ensures t in m.invented <==> IsInvented(bs + [b], relics, t)
      ensures t in m.inventors <==> IsInventor(bs + [b], relics, t)
    {
      RolesNext(bs, relics, b, t);
    }
  }

  lemma {:induction false} IdsStillSourced(r: Registry, bs: seq<Blueprint>, b: Blueprint)
    requires forall t :: t in r.blueprints <==> IsId(bs, t)
    ensures forall t :: t in r.blueprints + {b.id} <==> IsId(bs + [b], t)
  {
    var all := bs + [b];
    assert all[|bs|] == b && forall i :: 0 <= i < |bs| ==> all[i] == bs[i];
    forall t ensures IsId(all, t) <==> IsId(bs, t) || b.id == t {
    }
  }

  lemma {:induction false} MadeByNext(bs: seq<Blueprint>, b: Blueprint, x: TypeId, p: TypeId)
    ensures MadeBy(bs + [b], x, p) <==>
            if b.product.Some? && b.id == x then b.product.value == p else MadeBy(bs, x, p)
  {
    var all := bs + [b];
    assert all[|bs|] == b && forall i :: 0 <= i < |bs| ==> all[i] == bs[i];
    assert b.product.Some? ==> LastOfId(all, |bs|);
    forall i | 0 <= i < |bs|
      ensures LastOfId(all, i) <==> LastOfId(bs, i) && (b.product.Some? ==> b.id != bs[i].id)
    {
    }
  }

  lemma {:induction false} MakerOfNext(bs: seq<Blueprint>, b: Blueprint, x: TypeId, p: TypeId)
    ensures MakerOf(bs + [b], x, p) <==> if b.product == Some(p) then b.id == x else MakerOf(bs, x, p)
  {
    var all := bs + [b];
    assert all[|bs|] == b && forall i :: 0 <= i < |bs| ==> all[i] == bs[i];
    assert b.product.Some? ==> LastOfProduct(all, |bs|);
    forall i | 0 <= i < |bs| ensures LastOfProduct(all, i) <==> LastOfProduct(bs, i) && b.product != bs[i].product {
    }
  }

  lemma {:induction false} MapsStillSourced(r: Registry, bs: seq<Blueprint>, b: Blueprint)
    requires MapsSourced(r, bs)
    ensures MapsSourced(Register(r, b), bs + [b])
  {
    var q := Register(r, b);
    forall x, p ensures x in q.bpToProduct && q.bpToProduct[x] == p <==> MadeBy(bs + [b], x, p) {
      MadeByNext(bs, b, x, p);
    }
    forall x, p ensures p in q.productToBP && q.productToBP[p] == x <==> MakerOf(bs + [b], x, p) {
      MakerOfNext(bs, b, x, p);
    }
  }

  lemma {:induction false} StillSourced(r: Registry, bs: seq<Blueprint>, b: Blueprint)
    requires Sourced(r, bs)
    ensures Sourced(Register(r, b), bs + [b])
  {
    LineStillSourced(r.t2Line, bs, false, b);
    LineStillSourced(r.t3Line, bs, true, b);
    IdsStillSourced(r, bs, b);
    MapsStillSourced(r, bs, b);
  }

  lemma {:induction false} EmptySourced()
    ensures Sourced(EMPTY, []) && Inv(EMPTY)
  {
  }

  /** For any input: ids, lines and product maps as the blueprints say, the last one winning. */
  lemma {:induction false} AllSourced(bs: seq<Blueprint>)
    ensures Sourced(RegisterAll(EMPTY, bs), bs)
  {
    EmptySourced();
    forall q, front, b | Sourced(q, front) ensures Sourced(Register(q, b), front + [b]) {
      StillSourced(q, front, b);
    }
    FoldKeeps(Register, Sourced, EMPTY, [], bs);
    assert [] + bs == bs;
  }

  lemma {:induction false} MapsAllSourced(bs: seq<Blueprint>)
    ensures MapsSourced(RegisterAll(EMPTY, bs), bs)
  {
    AllSourced(bs);
  }

  // ------------------------------------------------ the product maps

  ghost predicate Inverse(r: Registry) {
    forall x, p :: (x in r.bpToProduct && r.bpToProduct[x] == p) <==> (p in r.productToBP && r.productToBP[p] == x)
  }

  /** A blueprint is the last one with its id exactly if it is the last one with its product. */
  predicate LastTogether(bs: seq<Blueprint>) {
    forall i :: 0 <= i < |bs| ==> (LastOfId(bs, i) <==> LastOfProduct(bs, i))
  }

  /** bpToProduct and productToBP are inverses of each other exactly under this condition, for any input. */
  lemma {:induction false} MapsAreInverse(bs: seq<Blueprint>)
    ensures Inverse(RegisterAll(EMPTY, bs)) <==> LastTogether(bs)
  {
    var r := RegisterAll(EMPTY, bs);
    MapsAllSourced(bs);
    if Inverse(r) {
      forall i | 0 <= i < |bs| ensures LastOfId(bs, i) <==> LastOfProduct(bs, i) {
        LastOfBoth(r, bs, i);
      }
    }
    if LastTogether(bs) {
      forall x, p
        ensures (x in r.bpToProduct && r.bpToProduct[x] == p) <==> (p in r.productToBP && r.productToBP[p] == x)
      {
        SameLast(bs, x, p);
      }
    }
  }

  lemma {:induction false} SameLast(bs: seq<Blueprint>, x: TypeId, p: TypeId)
    requires LastTogether(bs)
    ensures MadeBy(bs, x, p) <==> MakerOf(bs, x, p)
  {
  }

  lemma {:induction false} LastOfBoth(r: Registry, bs: seq<Blueprint>, i: nat)
    requires i < |bs| && MapsSourced(r, bs) && Inverse(r)
    ensures LastOfId(bs, i) <==> LastOfProduct(bs, i)
  {
    if bs[i].product.Some? {
      var x, p := bs[i].id, bs[i].product.value;
      assert MadeBy(bs, x, p) <==> MakerOf(bs, x, p);
      if LastOfId(bs, i) {
        assert MadeBy(bs, x, p);
        var j :| 0 <= j < |bs| && bs[j].id == x && bs[j].product == Some(p) && LastOfProduct(bs, j);
        assert j == i;
      }
      if LastOfProduct(bs, i) {
        assert MakerOf(bs, x, p);
        var j :| 0 <= j < |bs| && bs[j].id == x && bs[j].product == Some(p) && LastOfId(bs, j);
        assert j == i;
      }
    }
  }

  /** It is met by distinct ids and one blueprint per product, whatever is invented. */
  lemma {:induction false} DistinctIsInverse(bs: seq<Blueprint>)
    requires Distinct(bs)
    ensures Inverse(RegisterAll(EMPTY, bs))
  {
    MapsAreInverse(bs);
    forall i | 0 <= i < |bs| ensures LastOfId(bs, i) <==> LastOfProduct(bs, i) {
      assert forall j :: i < j < |bs| ==> bs[i].id != bs[j].id;
    }
  }

  // ------------------------------------------------ the check

  predicate OneSpecialOf(bs: seq<Blueprint>, t: TypeId) {
    && !(IsInvented(bs, false, t) && IsInvented(bs, true, t))
    && !(IsInvented(bs, false, t) && IsInventor(bs, true, t))
    && !(IsInvented(bs, true, t) && IsInventor(bs, true, t))
  }

  predicate OnlyRelicOf(bs: seq<Blueprint>, t: TypeId) {
    IsInventor(bs, true, t) && !IsInvented(bs, false, t) && !IsInvented(bs, true, t)
  }

  /** What `checkItem` asks of the last blueprint that makes a type id. */
  predicate MakerFits(bs: seq<Blueprint>, maker: TypeId, t: TypeId) {
    if IsId(bs, t) then OnlyRelicOf(bs, maker)
    else !OnlyRelicOf(bs, maker) && !(IsInvented(bs, false, maker) && IsInvented(bs, true, maker))
  }

  ghost predicate MakersFit(bs: seq<Blueprint>, t: TypeId) {
    forall x :: MakerOf(bs, x, t) ==> MakerFits(bs, x, t)
  }

  /** For any input: `checkItem` accepts a type id exactly under a condition on the blueprints registered. */
  lemma {:induction false} AcceptedExactly(bs: seq<Blueprint>, t: TypeId)
    ensures RoleCount(RegisterAll(EMPTY, bs), t) == 1 <==> (IsId(bs, t) ==> OneSpecialOf(bs, t)) && MakersFit(bs, t)
  {
    var r := RegisterAll(EMPTY, bs);
    Roles(bs, t);
    CheckExactly(r, t);
    if IsProduct(r, t) {
      Roles(bs, r.productToBP[t]);
      assert MakersFit(bs, t) <==> MakerFits(bs, r.productToBP[t], t);
    } else {
      assert MakersFit(bs, t);
    }
  }

  lemma {:induction false} Roles(bs: seq<Blueprint>, t: TypeId)
    ensures var r := RegisterAll(EMPTY, bs);
            && Inv(r) && IsBP(r, t) == IsId(bs, t)
            && OneSpecial(r, t) == OneSpecialOf(bs, t) && OnlyRelic(r, t) == OnlyRelicOf(bs, t)
            && IsT2BP(r, t) == IsInvented(bs, false, t) && IsT3BP(r, t) == IsInvented(bs, true, t)
            && forall x :: MakerOf(bs, x, t) <==> IsProduct(r, t) && r.productToBP[t] == x
  {
    var r := RegisterAll(EMPTY, bs);
    EmptySourced();
    AllSourced(bs);
    RegisterAllKeeps(EMPTY, bs);
    RolesSourced(r, bs, t);
  }

  lemma {:induction false} RolesSourced(r: Registry, bs: seq<Blueprint>, t: TypeId)
    requires Sourced(r, bs)
    ensures IsBP(r, t) == IsId(bs, t) && OneSpecial(r, t) == OneSpecialOf(bs, t)
    ensures OnlyRelic(r, t) == OnlyRelicOf(bs, t)
    ensures IsT2BP(r, t) == IsInvented(bs, false, t) && IsT3BP(r, t) == IsInvented(bs, true, t)
  {
  }

  /**
   What is made is no blueprint; a relic that invents something makes nothing and is not invented; nothing is invented
   both by a relic and by another blueprint.
   */
  predicate RolesApart(a: Blueprint, b: Blueprint) {
    && (a.product.Some? ==> a.product.value != b.id)
    && (IsAncientRelic(a) && Invents(a) ==> Some(a.id) !in b.inventions && (a.id == b.id ==> b.product.None?))
    && (IsAncientRelic(a) != IsAncientRelic(b) ==>
          forall k :: 0 <= k < |a.inventions| && a.inventions[k].Some? ==> a.inventions[k] !in b.inventions)
  }

  predicate Clean(bs: seq<Blueprint>) {
    forall a, b :: a in bs && b in bs ==> RolesApart(a, b)
  }

  /** For clean input `checkItem` accepts every type id. */
  lemma {:induction false} CleanAccepted(bs: seq<Blueprint>, t: TypeId)
    requires Clean(bs)
    ensures RoleCount(RegisterAll(EMPTY, bs), t) == 1
  {
    AcceptedExactly(bs, t);
    OneSpecialEverywhere(bs, t);
    forall x | MakerOf(bs, x, t) ensures MakerFits(bs, x, t) {
      OneSpecialEverywhere(bs, x);
      MakerIsNoRelic(bs, x, t);
    }
  }

  lemma {:induction false} OneSpecialEverywhere(bs: seq<Blueprint>, t: TypeId)
    requires Clean(bs)
    ensures OneSpecialOf(bs, t)
  {
    forall i, j | 0 <= i < |bs| && 0 <= j < |bs|
      ensures IsAncientRelic(bs[i]) && !IsAncientRelic(bs[j]) && Some(t) in bs[i].inventions ==>
                Some(t) !in bs[j].inventions
      ensures IsAncientRelic(bs[i]) && Invents(bs[i]) && bs[i].id == t ==> Some(t) !in bs[j].inventions
    {
      assert RolesApart(bs[i], bs[j]);
    }
  }

  lemma {:induction false} MakerIsNoRelic(bs: seq<Blueprint>, x: TypeId, t: TypeId)
    requires Clean(bs) && MakerOf(bs, x, t)
    ensures !IsId(bs, t) && !IsInventor(bs, true, x)
  {
    var i :| 0 <= i < |bs| && bs[i].id == x && bs[i].product == Some(t) && LastOfProduct(bs, i);
    forall j | 0 <= j < |bs|
      ensures bs[j].id != t && !(IsAncientRelic(bs[j]) && Invents(bs[j]) && bs[j].id == x)
    {
      assert RolesApart(bs[i], bs[j]) && RolesApart(bs[j], bs[i]);
    }
  }
}
