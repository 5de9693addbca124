/**
 What registering blueprints amounts to (libs/industry_resources/types/types.cpp:47-119, 193-259): the sets and maps
 the class keeps, the roles they give a type id, and the check that every type id has exactly one role.
 */
module BlueprintRegistry {
  import opened Wrappers
  import opened Folds

  type TypeId = nat

  /**
   What is read of a blueprint's description: the first manufacturing product and the invention products, `None`
   where the type id cannot be read, and the item group of the blueprint.
   */
  datatype Blueprint = Blueprint(id: TypeId, product: Option<TypeId>, inventions: seq<Option<TypeId>>,
                                 group: Option<nat>)

  /** A line of invention: who invents, what is invented, by whom (the last one registered), and all pairs. */
  datatype Line = Line(inventors: set<TypeId>, invented: set<TypeId>, origin: map<TypeId, TypeId>,
                       pairs: multiset<(TypeId, TypeId)>)

  /**
   The members of the class. The T2 line holds t1_blueprints, t2_blueprints, t2BPToT1BP and t1BPToT2BPs, the T3 line
   ancient_relics, t3_blueprints, t3BPToRelic and relicToT3BPs.
   */
  datatype Registry = Registry(
    blueprints: set<TypeId>, manufacturingOutputs: set<TypeId>,
    bpToProduct: map<TypeId, TypeId>, productToBP: map<TypeId, TypeId>, t2Line: Line, t3Line: Line)

  const NO_LINE := Line({}, {}, map[], multiset{})
  const EMPTY := Registry({}, {}, map[], map[], NO_LINE, NO_LINE)

  const RELIC_GROUPS: seq<nat> := [971, 990, 991, 992, 993, 997]

  predicate IsAncientRelic(b: Blueprint) {
    b.group.Some? && b.group.value in RELIC_GROUPS
  }

  /** The groups of ancient relics, one by one. */
  lemma {:induction false} RelicTable(b: Blueprint)
    ensures IsAncientRelic(b) <==>
            || b.group == Some(971) || b.group == Some(990) || b.group == Some(991)
            || b.group == Some(992) || b.group == Some(993) || b.group == Some(997)
  {
  }

  function Readable(s: seq<Option<TypeId>>): (r: seq<TypeId>)
    ensures forall t :: t in r <==> Some(t) in s
  {
    if s == [] then []
    else Readable(s[..|s| - 1]) + (if s[|s| - 1].Some? then [s[|s| - 1].value] else [])
  }

  function Invented(b: Blueprint): set<TypeId> {
    set t | t in Readable(b.inventions)
  }

  function AllTo(s: set<TypeId>, id: TypeId): map<TypeId, TypeId> {
    map t | t in s :: id
  }

  function Pairs(id: TypeId, s: seq<TypeId>): multiset<(TypeId, TypeId)> {
    if s == [] then multiset{} else Pairs(id, s[..|s| - 1]) + multiset{(id, s[|s| - 1])}
  }

  function Inventor(b: Blueprint): set<TypeId> {
    if Invented(b) == {} then {} else {b.id}
  }

  function RegisterProduct(r: Registry, b: Blueprint): Registry {
    var q := r.(blueprints := r.blueprints + {b.id});
    if b.product.None? then q
    else
      var p := b.product.value;
      q.(manufacturingOutputs := q.manufacturingOutputs + {p},
         bpToProduct := q.bpToProduct[b.id := p], productToBP := q.productToBP[p := b.id])
  }

  /** What one blueprint adds to its line. */
  function LineOf(b: Blueprint): Line {
    Line(Inventor(b), Invented(b), AllTo(Invented(b), b.id), Pairs(b.id, Readable(b.inventions)))
  }

  function Join(l: Line, m: Line): Line {
    Line(l.inventors + m.inventors, l.invented + m.invented, l.origin + m.origin, l.pairs + m.pairs)
  }

  function Extend(l: Line, b: Blueprint): Line {
    Join(l, LineOf(b))
  }

  function RegisterInventions(r: Registry, b: Blueprint): Registry {
    if IsAncientRelic(b) then r.(t3Line := Extend(r.t3Line, b)) else r.(t2Line := Extend(r.t2Line, b))
  }

  function Register(r: Registry, b: Blueprint): Registry {
    RegisterInventions(RegisterProduct(r, b), b)
  }

  function RegisterAll(r: Registry, bs: seq<Blueprint>): Registry {
    Fold(Register, r, bs)
  }

  // ------------------------------------------------ roles

  predicate IsBP(r: Registry, t: TypeId) { t in r.blueprints }
  predicate IsT2BP(r: Registry, t: TypeId) { t in r.t2Line.invented }
  predicate IsT3BP(r: Registry, t: TypeId) { t in r.t3Line.invented }
  predicate IsRelic(r: Registry, t: TypeId) { t in r.t3Line.inventors }
  predicate IsT1BP(r: Registry, t: TypeId) { IsBP(r, t) && !IsT2BP(r, t) && !IsT3BP(r, t) && !IsRelic(r, t) }
  predicate IsT1(r: Registry, t: TypeId) { t in r.productToBP && IsT1BP(r, r.productToBP[t]) }
  predicate IsT2(r: Registry, t: TypeId) { t in r.productToBP && IsT2BP(r, r.productToBP[t]) }
  predicate IsT3(r: Registry, t: TypeId) { t in r.productToBP && IsT3BP(r, r.productToBP[t]) }
  predicate IsProduct(r: Registry, t: TypeId) { t in r.manufacturingOutputs }
  predicate IsBaseItem(r: Registry, t: TypeId) { !IsBP(r, t) && !IsProduct(r, t) }

  /** What `checkItem` adds up; it throws unless the sum is 1. */
  function RoleCount(r: Registry, t: TypeId): nat {
    var one := (yes: bool) => if yes then 1 else 0;
    one(IsBaseItem(r, t))
    + one(IsT1(r, t) && IsProduct(r, t)) + one(IsT2(r, t) && IsProduct(r, t)) + one(IsT3(r, t) && IsProduct(r, t))
    + one(IsT1BP(r, t) && IsBP(r, t)) + one(IsT2BP(r, t) && IsBP(r, t)) + one(IsT3BP(r, t) && IsBP(r, t))
    + one(IsRelic(r, t) && IsBP(r, t))
  }

  // ------------------------------------------------ what every sequence of registrations keeps

  ghost predicate LineInv(l: Line) {
    l.origin.Keys == l.invented && forall t :: t in l.origin ==> l.origin[t] in l.inventors
  }

  /** The product map knows exactly the outputs, its values are registered blueprints, and so are all inventors. */
  ghost predicate Inv(r: Registry) {
    && r.manufacturingOutputs == r.productToBP.Keys
    && (forall p :: p in r.productToBP ==> r.productToBP[p] in r.blueprints)
    && (forall x :: x in r.bpToProduct ==> x in r.blueprints && r.bpToProduct[x] in r.manufacturingOutputs)
    && LineInv(r.t2Line) && r.t2Line.inventors <= r.blueprints
    && LineInv(r.t3Line) && r.t3Line.inventors <= r.blueprints
  }

  lemma {:induction false} ProductKeeps(r: Registry, b: Blueprint)
    requires Inv(r)
    ensures Inv(RegisterProduct(r, b)) && b.id in RegisterProduct(r, b).blueprints
  {
  }

  lemma {:induction false} LineKeeps(l: Line, b: Blueprint)
    requires LineInv(l)
    ensures LineInv(Extend(l, b)) && Extend(l, b).inventors <= l.inventors + {b.id}
  {
    var all := AllTo(Invented(b), b.id);
    assert all.Keys == Invented(b);
    forall t | t in l.origin + all ensures (l.origin + all)[t] in l.inventors + Inventor(b) {
      if t in all {
        assert Invented(b) != {};
      }
    }
  }

  lemma {:induction false} RegisterKeeps(r: Registry, b: Blueprint)
    requires Inv(r)
    ensures Inv(Register(r, b))
  {
    ProductKeeps(r, b);
    LineKeeps(r.t2Line, b);
    LineKeeps(r.t3Line, b);
  }

  /** After any sequence of registrations. */
  lemma {:induction false} RegisterAllKeeps(r: Registry, bs: seq<Blueprint>)
    requires Inv(r)
    ensures Inv(RegisterAll(r, bs))
  {
    var inv := (q: Registry, _: seq<Blueprint>) => Inv(q);
    forall q, front: seq<Blueprint>, b | inv(q, front) ensures inv(Register(q, b), front + [b]) {
      RegisterKeeps(q, b);
    }
    FoldKeeps(Register, inv, r, [], bs);
  }

  // ------------------------------------------------ the check

  /** No more than one of the special blueprint roles. */
  predicate OneSpecial(r: Registry, t: TypeId) {
    && !(IsT2BP(r, t) && IsT3BP(r, t)) && !(IsT2BP(r, t) && IsRelic(r, t)) && !(IsT3BP(r, t) && IsRelic(r, t))
  }

  /** A relic that is no invented blueprint: what it makes is of no tech level. */
  predicate OnlyRelic(r: Registry, t: TypeId) {
    IsRelic(r, t) && !IsT2BP(r, t) && !IsT3BP(r, t)
  }

  /**
   `checkItem` accepts a type id exactly if: as a mere blueprint it has at most one of the special roles; as a mere
   product it is not made by a relic, nor by a blueprint that is both T2 and T3; as both, it is made by a relic and
   has at most one of the special roles. Anything else is a base item and always accepted.
   */
  lemma {:induction false} CheckExactly(r: Registry, t: TypeId)
    requires Inv(r)
    ensures RoleCount(r, t) == 1 <==>
            && (IsBP(r, t) ==> OneSpecial(r, t))
            && (IsProduct(r, t) ==>
                  var maker := r.productToBP[t];
                  if IsBP(r, t) then OnlyRelic(r, maker)
                  else !OnlyRelic(r, maker) && !(IsT2BP(r, maker) && IsT3BP(r, maker)))
  {
  }
}
