/** Folding a state over a sequence. */
module Folds {
  function Fold<R, B>(f: (R, B) -> R, r: R, bs: seq<B>): R
    decreases |bs|
  {
    if bs == [] then r else Fold(f, f(r, bs[0]), bs[1..])
  }

  lemma {:induction false} FoldStep<R, B>(f: (R, B) -> R, r: R, b: B, bs: seq<B>)
    ensures Fold(f, r, [b] + bs) == Fold(f, f(r, b), bs)
  {
    assert ([b] + bs)[1..] == bs;
  }

  lemma {:induction false} FoldLast<R, B>(f: (R, B) -> R, r: R, bs: seq<B>, b: B)
    ensures Fold(f, r, bs + [b]) == f(Fold(f, r, bs), b)
    decreases |bs|
  {
    if bs == [] {
      assert [] + [b] == [b] + [];
      FoldStep(f, r, b, []);
    } else {
      assert bs + [b] == [bs[0]] + (bs[1..] + [b]);
      FoldStep(f, r, bs[0], bs[1..] + [b]);
      FoldLast(f, f(r, bs[0]), bs[1..], b);
    }
  }

  /** Two elements whose order does not matter to the state. */
  ghost predicate Commuting<R(!new), B>(f: (R, B) -> R, a: B, b: B) {
    forall r :: f(f(r, a), b) == f(f(r, b), a)
  }

  lemma {:induction false} MoveToFront<R(!new), B>(f: (R, B) -> R, r: R, before: seq<B>, b: B, behind: seq<B>)
    requires forall a :: a in before ==> Commuting(f, a, b)
    ensures Fold(f, r, before + [b] + behind) == Fold(f, f(r, b), before + behind)
    decreases |before|
  {
    if before == [] {
      assert before + [b] + behind == [b] + behind && before + behind == behind;
      FoldStep(f, r, b, behind);
    } else {
      var a, rest := before[0], before[1..];
      MoveToFront(f, f(r, a), rest, b, behind);
      assert before + [b] + behind == [a] + (rest + [b] + behind);
      assert before + behind == [a] + (rest + behind);
      FoldStep(f, r, a, rest + [b] + behind);
      FoldStep(f, f(r, b), a, rest + behind);
      assert Commuting(f, a, b);
    }
  }

  /** The order does not matter if it does not for any two elements. */
  lemma {:induction false} Permuted<R(!new), B>(f: (R, B) -> R, r: R, bs: seq<B>, cs: seq<B>)
    requires forall a, b :: a in bs && b in bs ==> Commuting(f, a, b)
    requires multiset(bs) == multiset(cs)
    ensures Fold(f, r, bs) == Fold(f, r, cs)
    decreases |bs|
  {
    if bs == [] {
      assert |multiset(cs)| == |cs| == 0;
    } else {
      var b := bs[0];
      assert b in multiset(cs);
      var i: nat :| i < |cs| && cs[i] == b;
      var before, behind := cs[..i], cs[i + 1..];
      Removed(bs, cs, i);
      forall a | a in before ensures Commuting(f, a, b) {
        assert a in multiset(cs);
      }
      MoveToFront(f, r, before, b, behind);
      FoldStep(f, r, b, bs[1..]);
      Permuted(f, f(r, b), bs[1..], before + behind);
      assert cs == before + [b] + behind && bs == [b] + bs[1..];
    }
  }

  lemma {:induction false} Cancel<B>(b: B, s: multiset<B>, t: multiset<B>)
    requires multiset{b} + s == multiset{b} + t
    ensures s == t
  {
    assert s == (multiset{b} + s) - multiset{b};
    assert t == (multiset{b} + t) - multiset{b};
  }

  lemma {:induction false} Removed<B>(bs: seq<B>, cs: seq<B>, i: nat)
    requires bs != [] && multiset(bs) == multiset(cs) && i < |cs| && cs[i] == bs[0]
    ensures multiset(bs[1..]) == multiset(cs[..i] + cs[i + 1..])
  {
    var b, rest, p, q := bs[0], bs[1..], cs[..i], cs[i + 1..];
    assert bs == [b] + rest && multiset(bs) == multiset{b} + multiset(rest);
    assert cs == p + [b] + q && multiset(cs) == multiset{b} + (multiset(p) + multiset(q));
    Cancel(b, multiset(rest), multiset(p) + multiset(q));
    assert multiset(p + q) == multiset(p) + multiset(q);
  }

  /** An element moved to the end. */
  lemma {:induction false} ToEnd<B>(bs: seq<B>, i: nat)
    requires i < |bs|
    ensures multiset(bs[..i] + bs[i + 1..] + [bs[i]]) == multiset(bs)
  {
    var p, q := bs[..i], bs[i + 1..];
    assert bs == p + [bs[i]] + q;
    assert multiset(p + [bs[i]] + q) == multiset(p) + multiset{bs[i]} + multiset(q);
  }

  /** What a step keeps, given the elements before it, holds in the end. */
  lemma {:induction false} FoldKeeps<R(!new), B(!new)>(f: (R, B) -> R, inv: (R, seq<B>) -> bool, r: R, done: seq<B>,
                                                       bs: seq<B>)
    requires inv(r, done)
    requires forall q, front, b :: front + [b] <= done + bs && |front| >= |done| && inv(q, front) ==>
               inv(f(q, b), front + [b])
    ensures inv(Fold(f, r, bs), done + bs)
    decreases |bs|
  {
    if bs == [] {
      assert done + bs == done;
    } else {
      assert done + bs == done + [bs[0]] + bs[1..];
      FoldKeeps(f, inv, f(r, bs[0]), done + [bs[0]], bs[1..]);
    }
  }
}
