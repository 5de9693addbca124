/** The class `Types` (libs/industry_resources/types/types.h): registering blueprints and checking type ids. */
module BlueprintTypes {
  import opened Wrappers
  import opened BlueprintRegistry

  /** The blueprint as far as its first `n` invention products go. */
  function UpTo(b: Blueprint, n: nat): Blueprint
    requires n <= |b.inventions|
  {
    b.(inventions := b.inventions[..n])
  }

  /** One more invention product of a line. */
  function Put(l: Line, id: TypeId, t: TypeId): Line {
    Line(l.inventors + {id}, l.invented + {t}, l.origin[t := id], l.pairs + multiset{(id, t)})
  }

  lemma {:induction false} ReadableNext(s: seq<Option<TypeId>>, n: nat)
    requires n < |s|
    ensures Readable(s[..n + 1]) == Readable(s[..n]) + (if s[n].Some? then [s[n].value] else [])
  {
    assert s[..n + 1][..n] == s[..n];
  }

  lemma {:induction false} NextInvention(l: Line, b: Blueprint, n: nat)
    requires n < |b.inventions|
    ensures Extend(l, UpTo(b, n + 1)) ==
            if b.inventions[n].Some? then Put(Extend(l, UpTo(b, n)), b.id, b.inventions[n].value)
            else Extend(l, UpTo(b, n))
  {
    ReadableNext(b.inventions, n);
    if b.inventions[n].Some? {
      OneMore(UpTo(b, n), UpTo(b, n + 1), b.inventions[n].value);
      JoinPut(l, LineOf(UpTo(b, n)), b.id, b.inventions[n].value);
    } else {
      SameLine(UpTo(b, n), UpTo(b, n + 1));
    }
  }

  lemma {:induction false} SameLine(a: Blueprint, b: Blueprint)
    requires a.id == b.id && Readable(a.inventions) == Readable(b.inventions)
    ensures LineOf(a) == LineOf(b)
  {
    assert Invented(a) == Invented(b);
  }

  lemma {:induction false} OneMore(few: Blueprint, more: Blueprint, t: TypeId)
    requires few.id == more.id && Readable(more.inventions) == Readable(few.inventions) + [t]
    ensures LineOf(more) == Put(LineOf(few), few.id, t)
  {
    var s := Readable(few.inventions);
    assert (s + [t])[..|s|] == s;
    assert Invented(more) == Invented(few) + {t};
    assert AllTo(Invented(more), few.id) == AllTo(Invented(few), few.id)[t := few.id];
    assert Inventor(more) == Inventor(few) + {few.id};
  }

  lemma {:induction false} JoinPut(l: Line, m: Line, id: TypeId, t: TypeId)
    ensures Join(l, Put(m, id, t)) == Put(Join(l, m), id, t)
  {
    assert l.inventors + (m.inventors + {id}) == l.inventors + m.inventors + {id};
    assert l.invented + (m.invented + {t}) == l.invented + m.invented + {t};
    assert l.origin + m.origin[t := id] == (l.origin + m.origin)[t := id];
    assert l.pairs + (m.pairs + multiset{(id, t)}) == l.pairs + m.pairs + multiset{(id, t)};
  }

  lemma {:induction false} NoInvention(l: Line, b: Blueprint)
    ensures Extend(l, UpTo(b, 0)) == l
  {
    assert Readable(UpTo(b, 0).inventions) == [];
    assert l.origin + AllTo({}, b.id) == l.origin;
    assert Invented(UpTo(b, 0)) == {};
  }

  class Types {
    var blueprints: set<TypeId>
    var manufacturingOutputs: set<TypeId>
    var t2Blueprints: set<TypeId>
    var t1Blueprints: set<TypeId>
    var ancientRelics: set<TypeId>
    var t3Blueprints: set<TypeId>
    var t3BPToRelic: map<TypeId, TypeId>
    var t2BPToT1BP: map<TypeId, TypeId>
    var bpToProduct: map<TypeId, TypeId>
    var productToBP: map<TypeId, TypeId>
    var t1BPToT2BPs: multiset<(TypeId, TypeId)>
    var relicToT3BPs: multiset<(TypeId, TypeId)>

    function T2Line(): Line
      reads this
    {
      Line(t1Blueprints, t2Blueprints, t2BPToT1BP, t1BPToT2BPs)
    }

    function T3Line(): Line
      reads this
    {
      Line(ancientRelics, t3Blueprints, t3BPToRelic, relicToT3BPs)
    }

    function Contents(): Registry
      reads this
    {
      Registry(blueprints, manufacturingOutputs, bpToProduct, productToBP, T2Line(), T3Line())
    }

    constructor ()
      ensures Contents() == EMPTY
    {
      blueprints, manufacturingOutputs, bpToProduct, productToBP := {}, {}, map[], map[];
      t1Blueprints, t2Blueprints, t2BPToT1BP, t1BPToT2BPs := {}, {}, map[], multiset{};
      ancientRelics, t3Blueprints, t3BPToRelic, relicToT3BPs := {}, {}, map[], multiset{};
    }

    method RegisterBlueprint(b: Blueprint)
      modifies this
      ensures Contents() == Register(old(Contents()), b)
      ensures old(Inv(Contents())) ==> Inv(Contents())
    {
      if Inv(Contents()) {
        RegisterKeeps(Contents(), b);
      }
      RegisterOutput(b);
      if !IsAncientRelic(b) {
        RegisterT2(b);
      } else {
        RegisterT3(b);
      }
    }

    method RegisterOutput(b: Blueprint)
      modifies `blueprints, `manufacturingOutputs, `bpToProduct, `productToBP
      ensures Contents() == RegisterProduct(old(Contents()), b)
    {
      blueprints := blueprints + {b.id};
      if b.product.Some? {
        var productId := b.product.value;
        manufacturingOutputs := manufacturingOutputs + {productId};
        bpToProduct := bpToProduct[b.id := productId];
        productToBP := productToBP[productId := b.id];
      }
    }

    method RegisterT2(b: Blueprint)
      modifies `t1Blueprints, `t2Blueprints, `t2BPToT1BP, `t1BPToT2BPs
      ensures T2Line() == Extend(old(T2Line()), b)
    {
      ghost var before := T2Line();
      NoInvention(before, b);
      for k := 0 to |b.inventions|
        invariant T2Line() == Extend(before, UpTo(b, k))
      {
        NextInvention(before, b, k);
        if b.inventions[k].Some? {
          var productId := b.inventions[k].value;
          t1Blueprints := t1Blueprints + {b.id};
          t2Blueprints := t2Blueprints + {productId};
          t2BPToT1BP := t2BPToT1BP[productId := b.id];
          t1BPToT2BPs := t1BPToT2BPs + multiset{(b.id, productId)};
        }
      }
      assert UpTo(b, |b.inventions|) == b;
    }

    method RegisterT3(b: Blueprint)
      modifies `ancientRelics, `t3Blueprints, `t3BPToRelic, `relicToT3BPs
      ensures T3Line() == Extend(old(T3Line()), b)
    {
      ghost var before := T3Line();
      NoInvention(before, b);
      for k := 0 to |b.inventions|
        invariant T3Line() == Extend(before, UpTo(b, k))
      {
        NextInvention(before, b, k);
        if b.inventions[k].Some? {
          var productId := b.inventions[k].value;
          ancientRelics := ancientRelics + {b.id};
          t3Blueprints := t3Blueprints + {productId};
          t3BPToRelic := t3BPToRelic[productId := b.id];
          relicToT3BPs := relicToT3BPs + multiset{(b.id, productId)};
        }
      }
      assert UpTo(b, |b.inventions|) == b;
    }

    /** Throws unless `ok`. */
    method CheckItem(t: TypeId) returns (ok: bool)
      requires Inv(Contents())
      ensures ok <==> RoleCount(Contents(), t) == 1
      ensures ok <==>
              && (t in blueprints ==> OneSpecial(Contents(), t))
              && (t in productToBP ==>
                    if t in blueprints then OnlyRelic(Contents(), productToBP[t])
                    else !OnlyRelic(Contents(), productToBP[t])
                         && !(productToBP[t] in t2Blueprints && productToBP[t] in t3Blueprints))
    {
      CheckExactly(Contents(), t);
      var r := Contents();
      var isBP, isProduct := IsBP(r, t), IsProduct(r, t);
      var a := if IsBaseItem(r, t) then 1 else 0;
      var b := if IsT1(r, t) && isProduct then 1 else 0;
      var c := if IsT2(r, t) && isProduct then 1 else 0;
      var d := if IsT3(r, t) && isProduct then 1 else 0;
      var e := if IsT1BP(r, t) && isBP then 1 else 0;
      var f := if IsT2BP(r, t) && isBP then 1 else 0;
      var g := if IsT3BP(r, t) && isBP then 1 else 0;
      var h := if IsRelic(r, t) && isBP then 1 else 0;
      ok := a + b + c + d + e + f + g + h == 1;
    }
  }
}
