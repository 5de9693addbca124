/** In which order the worklist, a stack, visits the states: depth first, the last successor before the others. */
module FlowOrder {
  import opened FlowStates

  function NextOf(p: Program, s: State): seq<State> {
    if ScanOf(p, s).Emits? then ScanOf(p, s).next else []
  }

  /** Nothing is left to do for a state. */
  predicate Settled(visited: seq<State>, t: State) {
    Stop(t) || t in visited
  }

  /** Everything state `k` leads to from position `i` on is settled. */
  predicate SettledFrom(p: Program, visited: seq<State>, s: State, i: nat) {
    forall m :: i <= m < |NextOf(p, s)| ==> Settled(visited, NextOf(p, s)[m])
  }

  /**
   State `n` is what state `k` leads to, and the last of it that is not settled when state `n` is visited, while
   nothing is left of what the states visited behind state `k` lead to.
   */
  predicate Continues(p: Program, visited: seq<State>, n: nat, k: nat, i: nat)
    requires k < n < |visited|
  {
    && i < |NextOf(p, visited[k])| && NextOf(p, visited[k])[i] == visited[n]
    && SettledFrom(p, visited[..n], visited[k], i + 1)
    && forall l :: k < l < n ==> SettledFrom(p, visited[..n], visited[l], 0)
  }

  /** Each state is visited as a depth-first search would. */
  ghost predicate DepthFirst(p: Program, root: nat, visited: seq<State>) {
    && (visited != [] ==> visited[0] == Start(root))
    && forall n :: 0 < n < |visited| ==> Visited(p, visited, n)
  }

  ghost predicate Visited(p: Program, visited: seq<State>, n: nat)
    requires n < |visited|
  {
    exists k, i :: 0 <= k < n && 0 <= i && Continues(p, visited, n, k, i)
  }

  // ------------------------------------------------ the stack

  /** What remains on the stack of each visited state's successors: the first `left[k]` of state `k`. */
  ghost predicate Counted(p: Program, visited: seq<State>, left: seq<nat>) {
    && Fits(p, visited, left)
    && forall k :: 0 <= k < |left| ==> SettledFrom(p, visited, visited[k], left[k])
  }

  predicate Fits(p: Program, visited: seq<State>, left: seq<nat>) {
    |left| == |visited| && forall k :: 0 <= k < |left| ==> left[k] <= |NextOf(p, visited[k])|
  }

  /** Nothing is left of what the states behind state `k` lead to. */
  predicate NoneBehind(left: seq<nat>, k: nat) {
    forall l :: k < l < |left| ==> left[l] == 0
  }

  function Stacked(p: Program, visited: seq<State>, left: seq<nat>): seq<State>
    requires Fits(p, visited, left)
  {
    if visited == [] then []
    else
      var n := |visited| - 1;
      Stacked(p, visited[..n], left[..n]) + NextOf(p, visited[n])[..left[n]]
  }

  ghost predicate Ordered(p: Program, root: nat, queue: seq<State>, visited: seq<State>, left: seq<nat>) {
    && DepthFirst(p, root, visited)
    && if visited == [] then queue == [] || queue == [Start(root)]
       else Counted(p, visited, left) && queue == Stacked(p, visited, left)
  }

  /** What is on top of the stack, and what is below. */
  lemma {:induction false} Top(p: Program, visited: seq<State>, left: seq<nat>) returns (k: nat)
    requires Fits(p, visited, left)
    requires Stacked(p, visited, left) != []
    ensures k < |left| && left[k] > 0 && NoneBehind(left, k)
    ensures var less := left[k := left[k] - 1];
            Stacked(p, visited, left) == Stacked(p, visited, less) + [NextOf(p, visited[k])[left[k] - 1]]
  {
    var n := |visited| - 1;
    if left[n] > 0 {
      k := n;
      TopHere(p, visited, left);
    } else {
      var front, last := visited[..n], left[..n];
      TopBelow(p, visited, left, last);
      k := Top(p, front, last);
      assert front[k] == visited[k] && last[k] == left[k];
      TopRises(p, visited, left, k);
    }
  }

  /** What is on top of the states visited earlier is on top of all, if nothing is left of the last one. */
  lemma {:induction false} TopRises(p: Program, visited: seq<State>, left: seq<nat>, k: nat)
    requires Fits(p, visited, left) && visited != [] && left[|left| - 1] == 0 && k < |left| - 1 && left[k] > 0
    requires NoneBehind(left[..|left| - 1], k)
    requires var n := |left| - 1;
             Stacked(p, visited[..n], left[..n]) ==
             Stacked(p, visited[..n], left[..n][k := left[k] - 1]) + [NextOf(p, visited[k])[left[k] - 1]]
    ensures NoneBehind(left, k)
    ensures Stacked(p, visited, left) ==
            Stacked(p, visited, left[k := left[k] - 1]) + [NextOf(p, visited[k])[left[k] - 1]]
  {
    var n, less := |left| - 1, left[k := left[k] - 1];
    NoneBehindAll(left, k);
    OneLess(p, visited, left, k, less, less[..n]);
    TopBelow(p, visited, left, left[..n]);
    TopBelow(p, visited, less, less[..n]);
  }

  lemma {:induction false} NoneBehindAll(left: seq<nat>, k: nat)
    requires left != [] && left[|left| - 1] == 0 && NoneBehind(left[..|left| - 1], k)
    ensures NoneBehind(left, k)
  {
    assert forall l :: k < l < |left| - 1 ==> left[..|left| - 1][l] == left[l];
  }

  lemma {:induction false} OneLess(p: Program, visited: seq<State>, left: seq<nat>, k: nat, less: seq<nat>,
                                   last: seq<nat>)
    requires Fits(p, visited, left) && k < |left| - 1 && left[k] > 0
    requires less == left[k := left[k] - 1] && last == less[..|left| - 1]
    ensures Fits(p, visited, less) && last == left[..|left| - 1][k := left[k] - 1]
  {
  }

  lemma {:induction false} TopHere(p: Program, visited: seq<State>, left: seq<nat>)
    requires |left| == |visited| > 0 && left[|left| - 1] > 0
    requires Fits(p, visited, left)
    ensures var n := |visited| - 1;
            Stacked(p, visited, left) ==
            Stacked(p, visited, left[n := left[n] - 1]) + [NextOf(p, visited[n])[left[n] - 1]]
  {
    var n := |visited| - 1;
    var next, i := NextOf(p, visited[n]), left[n] - 1;
    assert left[n := i][..n] == left[..n];
    assert next[..left[n]] == next[..i] + [next[i]];
  }

  lemma {:induction false} TopBelow(p: Program, visited: seq<State>, left: seq<nat>, last: seq<nat>)
    requires |left| == |visited| > 0 && left[|left| - 1] == 0 && last == left[..|left| - 1]
    requires Fits(p, visited, left)
    ensures Stacked(p, visited, left) == Stacked(p, visited[..|visited| - 1], last)
  {
  }

  lemma {:induction false} StillCounted(p: Program, visited: seq<State>, left: seq<nat>, k: nat, more: seq<State>)
    requires Counted(p, visited, left) && k < |left| && left[k] > 0 && visited <= more
    requires Settled(more, NextOf(p, visited[k])[left[k] - 1])
    ensures forall l :: 0 <= l < |left| ==> SettledFrom(p, more, visited[l], left[k := left[k] - 1][l])
  {
    forall l | 0 <= l < |left| ensures SettledFrom(p, more, visited[l], left[k := left[k] - 1][l]) {
      assert SettledFrom(p, visited, visited[l], left[l]);
      forall m | left[k := left[k] - 1][l] <= m < |NextOf(p, visited[l])|
        ensures Settled(more, NextOf(p, visited[l])[m])
      {
        if m >= left[l] {
          assert Settled(visited, NextOf(p, visited[l])[m]);
        }
      }
    }
  }

  /** A state is taken off the stack and dropped, as it is settled. */
  lemma {:induction false} DroppedInOrder(p: Program, root: nat, queue: seq<State>, s: State, visited: seq<State>,
                                          left: seq<nat>)
    returns (left': seq<nat>)
    requires Ordered(p, root, queue + [s], visited, left) && Settled(visited, s)
    ensures Ordered(p, root, queue, visited, left')
  {
    left' := left;
    if visited == [] {
      assert (queue + [s])[..|queue|] == queue;
    } else {
      var k := Top(p, visited, left);
      left' := left[k := left[k] - 1];
      SameTop(queue, s, Stacked(p, visited, left'), NextOf(p, visited[k])[left[k] - 1]);
      StillCounted(p, visited, left, k, visited);
    }
  }

  lemma {:induction false} SameTop(a: seq<State>, x: State, b: seq<State>, y: State)
    requires a + [x] == b + [y]
    ensures a == b && x == y
  {
    assert (a + [x])[..|a|] == a && (b + [y])[..|b|] == b;
    assert (a + [x])[|a|] == x && (b + [y])[|b|] == y;
  }

  /** A state is taken off the stack and visited, and what it leads to is put on it. */
  lemma {:induction false} VisitedInOrder(p: Program, root: nat, queue: seq<State>, s: State, visited: seq<State>,
                                          left: seq<nat>)
    returns (left': seq<nat>)
    requires Ordered(p, root, queue + [s], visited, left) && !Settled(visited, s)
    ensures Ordered(p, root, queue + NextOf(p, s), visited + [s], left')
  {
    var next := NextOf(p, s);
    if visited == [] {
      left' := [|next|];
      FirstStacked(p, s);
      SameTop(queue, s, [], Start(root));
      assert queue + next == next && visited + [s] == [s];
    } else {
      var k := Top(p, visited, left);
      var less := left[k := left[k] - 1];
      SameTop(queue, s, Stacked(p, visited, less), NextOf(p, visited[k])[left[k] - 1]);
      left' := less + [|next|];
      NextStacked(p, visited, left, k, s);
      NextInOrder(p, root, visited, left, k, s);
    }
  }

  lemma {:induction false} FirstStacked(p: Program, s: State)
    ensures Counted(p, [s], [|NextOf(p, s)|]) && Stacked(p, [s], [|NextOf(p, s)|]) == NextOf(p, s)
  {
    var left: seq<nat> := [|NextOf(p, s)|];
    assert left[..0] == [] && [s][..0] == [];
    assert Stacked(p, [s][..0], left[..0]) == [];
  }

  lemma {:induction false} NextStacked(p: Program, visited: seq<State>, left: seq<nat>, k: nat, s: State)
    requires Counted(p, visited, left) && k < |left| && left[k] > 0 && NextOf(p, visited[k])[left[k] - 1] == s
    ensures var less, next := left[k := left[k] - 1], NextOf(p, s);
            && Counted(p, visited + [s], less + [|next|])
            && Stacked(p, visited + [s], less + [|next|]) == Stacked(p, visited, less) + next
  {
    var less, next, more := left[k := left[k] - 1], NextOf(p, s), visited + [s];
    StillCounted(p, visited, left, k, more);
    assert more[..|visited|] == visited && (less + [|next|])[..|visited|] == less;
    assert next[..|next|] == next;
  }

  lemma {:induction false} NextInOrder(p: Program, root: nat, visited: seq<State>, left: seq<nat>, k: nat, s: State)
    requires DepthFirst(p, root, visited) && Counted(p, visited, left)
    requires k < |left| && left[k] > 0 && NextOf(p, visited[k])[left[k] - 1] == s
    requires NoneBehind(left, k)
    ensures DepthFirst(p, root, visited + [s])
  {
    OneContinues(p, visited, left, s, k);
    forall n | 0 < n < |visited + [s]| ensures Visited(p, visited + [s], n) {
      if n < |visited| {
        StillVisited(p, visited, s, n);
      }
    }
  }

  lemma {:induction false} OneContinues(p: Program, visited: seq<State>, left: seq<nat>, s: State, k: nat)
    requires Counted(p, visited, left) && k < |left| && left[k] > 0 && NextOf(p, visited[k])[left[k] - 1] == s
    requires NoneBehind(left, k)
    ensures Visited(p, visited + [s], |visited|)
  {
    var more := visited + [s];
    assert more[..|visited|] == visited;
    forall l | k < l < |visited| ensures SettledFrom(p, visited, more[l], 0) {
      assert SettledFrom(p, visited, visited[l], left[l]);
    }
    assert SettledFrom(p, visited, visited[k], left[k]);
    assert Continues(p, more, |visited|, k, left[k] - 1);
  }

  lemma {:induction false} StillVisited(p: Program, visited: seq<State>, s: State, n: nat)
    requires n < |visited| && Visited(p, visited, n)
    ensures Visited(p, visited + [s], n)
  {
    var k, i :| 0 <= k < n && 0 <= i && Continues(p, visited, n, k, i);
    var more := visited + [s];
    assert more[..n] == visited[..n];
    assert forall l :: 0 <= l <= n ==> more[l] == visited[l];
    forall l | k < l < n ensures SettledFrom(p, more[..n], more[l], 0) {
      assert SettledFrom(p, visited[..n], visited[l], 0);
    }
    assert Continues(p, more, n, k, i);
  }

  /** One state taken off the stack, whatever becomes of it. */
  lemma {:induction false} TakenInOrder(p: Program, root: nat, queue: seq<State>, s: State, visited: seq<State>,
                                        left: seq<nat>)
    returns (left': seq<nat>)
    requires Ordered(p, root, queue + [s], visited, left)
    ensures Settled(visited, s) ==> Ordered(p, root, queue, visited, left')
    ensures !Settled(visited, s) ==> Ordered(p, root, queue + NextOf(p, s), visited + [s], left')
  {
    if Settled(visited, s) {
      left' := DroppedInOrder(p, root, queue, s, visited, left);
    } else {
      left' := VisitedInOrder(p, root, queue, s, visited, left);
    }
  }
}
