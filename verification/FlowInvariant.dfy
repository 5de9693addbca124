/** What the worklist loop keeps, and why it ends with exactly the reachable states. */
module FlowInvariant {
  import opened Wrappers
  import opened FlowStates

  type Graph = map<int, seq<int>>

  predicate HasEdge(g: Graph, a: int, b: int) {
    a in g && b in g[a]
  }

  predicate Distinct<T(==)>(s: seq<T>) {
    forall i, j :: 0 <= i < j < |s| ==> s[i] != s[j]
  }

  /** CFG[source] gets the block unless it is there already. */
  function AddEdge(g: Graph, a: int, b: int): Graph {
    var targets := if a in g then g[a] else [];
    g[a := if b in targets then targets else targets + [b]]
  }

  /** The addresses of the indirect jumps and calls met by the scans of the visited states, in that order. */
  function IndirectsOf(p: Program, visited: seq<State>): seq<nat> {
    if visited == [] then []
    else
      var front, scan := visited[..|visited| - 1], ScanOf(p, visited[|visited| - 1]);
      IndirectsOf(p, front) + (if scan.Emits? then scan.indirect else [])
  }

  /** Only reachable states are queued or visited; no state is visited twice or raises. */
  ghost predicate Sound(p: Program, root: nat, queue: seq<State>, visited: seq<State>) {
    && (forall s :: s in queue ==> Reachable(p, root, s))
    && (forall s :: s in visited ==> Reachable(p, root, s) && !Stop(s) && ScanOf(p, s).Emits?)
    && Distinct(visited)
  }

  /** There is nothing to do for a state, it was visited, or it is queued. */
  predicate Covered(queue: seq<State>, visited: seq<State>, s: State) {
    Stop(s) || s in visited || s in queue
  }

  /** The root and every state the visited ones lead to is taken care of. */
  ghost predicate Closed(p: Program, root: nat, queue: seq<State>, visited: seq<State>) {
    && Covered(queue, visited, Start(root))
    && forall s, t :: s in visited && Leads(p, s, t) ==> Covered(queue, visited, t)
  }

  /** The graph holds the edge of each visited state and no other, each once. */
  ghost predicate Drawn(g: Graph, visited: seq<State>) {
    Edges(g, visited) && InVisitOrder(g, visited)
  }

  ghost predicate Edges(g: Graph, visited: seq<State>) {
    && (forall s :: s in visited ==> HasEdge(g, s.source, s.block))
    && (forall a, b :: HasEdge(g, a, b) ==> DrawnBy(visited, a, b))
    && (forall a :: a in g ==> g[a] != [] && Distinct(g[a]))
  }

  /** The targets of a block stand in the order of their first visits from it. */
  ghost predicate InVisitOrder(g: Graph, visited: seq<State>) {
    forall a, i, j :: a in g && 0 <= i < j < |g[a]| ==> VisitedBefore(visited, a, g[a][i], g[a][j])
  }

  ghost predicate VisitedBefore(visited: seq<State>, a: int, x: int, y: int) {
    exists m :: 0 <= m < |visited| && IsEdge(visited[m], a, x) && forall n :: 0 <= n <= m ==> !IsEdge(visited[n], a, y)
  }

  predicate IsEdge(s: State, a: int, b: int) {
    s.source == a && s.block == b
  }

  ghost predicate DrawnBy(visited: seq<State>, a: int, b: int) {
    exists s :: s in visited && s.source == a && s.block == b
  }

  ghost predicate Inv(p: Program, root: nat, queue: seq<State>, visited: seq<State>, g: Graph, indirects: seq<nat>) {
    && Sound(p, root, queue, visited)
    && Closed(p, root, queue, visited)
    && Drawn(g, visited)
    && indirects == IndirectsOf(p, visited)
  }

  lemma {:induction false} Popped(queue: seq<State>)
    requires queue != []
    ensures queue == queue[..|queue| - 1] + [queue[|queue| - 1]]
  {
  }

  lemma {:induction false} StartInv(p: Program, root: nat)
    ensures Inv(p, root, [Start(root)], [], map[], [])
  {
    StartReachable(p, root);
    var g: Graph := map[];
    assert forall a, b :: !HasEdge(g, a, b);
  }

  /** A state that stops or was visited can be dropped. */
  lemma {:induction false} Dropped(p: Program, root: nat, queue: seq<State>, s: State, visited: seq<State>)
    requires Sound(p, root, queue + [s], visited) && Closed(p, root, queue + [s], visited)
    requires Stop(s) || s in visited
    ensures Sound(p, root, queue, visited) && Closed(p, root, queue, visited)
  {
    assert forall t :: t in queue ==> t in queue + [s];
    assert forall t :: Covered(queue + [s], visited, t) ==> Covered(queue, visited, t);
  }

  /** A new state is visited and what it leads to is queued. */
  lemma {:induction false} Visited(p: Program, root: nat, queue: seq<State>, s: State, visited: seq<State>)
    requires Sound(p, root, queue + [s], visited) && Closed(p, root, queue + [s], visited)
    requires !Stop(s) && s !in visited && ScanOf(p, s).Emits?
    ensures Sound(p, root, queue + ScanOf(p, s).next, visited + [s])
    ensures Closed(p, root, queue + ScanOf(p, s).next, visited + [s])
  {
    var next := ScanOf(p, s).next;
    assert s in queue + [s];
    forall t | t in queue + next ensures Reachable(p, root, t) {
      if t in next {
        NextReachable(p, root, s, t);
      } else {
        assert t in queue + [s];
      }
    }
    assert forall t :: Covered(queue + [s], visited, t) ==> Covered(queue + next, visited + [s], t);
  }

  lemma {:induction false} EdgeAdded(g: Graph, visited: seq<State>, s: State)
    requires Drawn(g, visited)
    ensures Drawn(AddEdge(g, s.source, s.block), visited + [s])
    ensures s in visited ==> AddEdge(g, s.source, s.block) == g
  {
    EdgesKept(g, visited, s);
    OrderKept(g, visited, s);
  }

  lemma {:induction false} EdgesKept(g: Graph, visited: seq<State>, s: State)
    requires Edges(g, visited)
    ensures Edges(AddEdge(g, s.source, s.block), visited + [s])
    ensures s in visited ==> AddEdge(g, s.source, s.block) == g
  {
    var g' := AddEdge(g, s.source, s.block);
    forall a, b | HasEdge(g', a, b) ensures DrawnBy(visited + [s], a, b) {
      if HasEdge(g, a, b) {
        var t :| t in visited && t.source == a && t.block == b;
        assert t in visited + [s];
      } else {
        assert s in visited + [s];
      }
    }
  }

  lemma {:induction false} OrderKept(g: Graph, visited: seq<State>, s: State)
    requires Drawn(g, visited)
    ensures InVisitOrder(AddEdge(g, s.source, s.block), visited + [s])
  {
    var g', more := AddEdge(g, s.source, s.block), visited + [s];
    forall a, i, j | a in g' && 0 <= i < j < |g'[a]| ensures VisitedBefore(more, a, g'[a][i], g'[a][j]) {
      if a in g && j < |g[a]| {
        assert VisitedBefore(visited, a, g[a][i], g[a][j]);
        StillBefore(visited, s, a, g[a][i], g[a][j]);
      } else {
        assert a in g && a == s.source && g'[a][j] == s.block && HasEdge(g, a, g[a][i]);
        var m :| 0 <= m < |visited| && IsEdge(visited[m], a, g[a][i]);
        assert forall n :: 0 <= n < |visited| ==> visited[n] in visited;
        assert more[m] == visited[m];
        assert forall n :: 0 <= n <= m ==> more[n] == visited[n] && !IsEdge(more[n], a, s.block);
      }
    }
  }

  lemma {:induction false} StillBefore(visited: seq<State>, s: State, a: int, x: int, y: int)
    requires VisitedBefore(visited, a, x, y)
    ensures VisitedBefore(visited + [s], a, x, y)
  {
    var m :| 0 <= m < |visited| && IsEdge(visited[m], a, x) && forall n :: 0 <= n <= m ==> !IsEdge(visited[n], a, y);
    var more := visited + [s];
    assert more[m] == visited[m] && forall n :: 0 <= n <= m ==> more[n] == visited[n];
  }

  lemma {:induction false} IndirectsAppend(p: Program, visited: seq<State>, s: State)
    requires ScanOf(p, s).Emits?
    ensures IndirectsOf(p, visited + [s]) == IndirectsOf(p, visited) + ScanOf(p, s).indirect
  {
    assert (visited + [s])[..|visited|] == visited;
  }

  lemma {:induction false} VisitKeeps(p: Program, root: nat, queue: seq<State>, s: State, visited: seq<State>, g: Graph)
    requires Sound(p, root, queue + [s], visited) && Closed(p, root, queue + [s], visited)
    requires !Stop(s) && s !in visited && ScanOf(p, s).Emits? && Drawn(g, visited + [s])
    ensures Inv(p, root, queue + ScanOf(p, s).next, visited + [s], g, IndirectsOf(p, visited) + ScanOf(p, s).indirect)
  {
    Visited(p, root, queue, s, visited);
    IndirectsAppend(p, visited, s);
  }

  // ------------------------------------------------ the end

  /** With an empty worklist the visited states are exactly the reachable ones that do not stop. */
  lemma {:induction false} EmptyWorklist(p: Program, root: nat, visited: seq<State>, s: State)
    requires Sound(p, root, [], visited) && Closed(p, root, [], visited)
    ensures s in visited <==> Reachable(p, root, s) && !Stop(s)
  {
    if Reachable(p, root, s) {
      var inv := (t: State) => Covered([], visited, t);
      forall a, b | inv(a) && Leads(p, a, b) ensures inv(b) {
      }
      ReachableInduction(p, root, inv, s);
    }
  }

  /** The graph is the projection of the reachable states to their edges. */
  ghost predicate EdgesOfReachable(p: Program, root: nat, g: Graph) {
    forall a, b :: HasEdge(g, a, b) <==> OnSomeStack(p, root, a, b)
  }

  ghost predicate OnSomeStack(p: Program, root: nat, a: int, b: int) {
    exists stack :: Reachable(p, root, State(a, b, stack)) && !Stop(State(a, b, stack))
  }

  lemma {:induction false} FinalGraph(p: Program, root: nat, visited: seq<State>, g: Graph)
    requires Sound(p, root, [], visited) && Closed(p, root, [], visited) && Drawn(g, visited)
    ensures EdgesOfReachable(p, root, g)
  {
    forall a, b ensures HasEdge(g, a, b) <==> OnSomeStack(p, root, a, b) {
      if HasEdge(g, a, b) {
        var s :| s in visited && s.source == a && s.block == b;
        assert s == State(a, b, s.stack);
      }
      if OnSomeStack(p, root, a, b) {
        var stack :| Reachable(p, root, State(a, b, stack)) && !Stop(State(a, b, stack));
        EmptyWorklist(p, root, visited, State(a, b, stack));
      }
    }
  }

  /** How many states of a finite set holding all reachable ones are not visited yet. */
  lemma {:induction false} OneFewer(p: Program, root: nat, bound: set<State>, visited: seq<State>, s: State)
    requires forall t :: Reachable(p, root, t) ==> t in bound
    requires Reachable(p, root, s) && s !in visited
    ensures |Unvisited(bound, visited + [s])| < |Unvisited(bound, visited)|
  {
    assert s in Unvisited(bound, visited);
    assert Unvisited(bound, visited + [s]) == Unvisited(bound, visited) - {s};
  }

  ghost function Unvisited(bound: set<State>, visited: seq<State>): set<State> {
    set s | s in bound && s !in visited
  }

  // ------------------------------------------------ why finiteness must be asked for

  /** A function that calls itself: 4: call 4; 8: ret */
  const RECURSIVE: Program :=
    [Instruction(4, Call(false, 4, Named), false, false), Instruction(8, Ret(false), true, false)]

  function Returning(n: nat): seq<int> {
    if n == 0 then [0] else Returning(n - 1) + [8]
  }

  lemma {:induction false} RecursionGoesDeeper(n: nat)
    ensures |Returning(n)| == n + 1
    ensures Reachable(RECURSIVE, 4, State(if n == 0 then 0 else 4, 4, Returning(n)))
  {
    if n == 0 {
      StartReachable(RECURSIVE, 4);
    } else {
      RecursionGoesDeeper(n - 1);
      var s, t := State(if n == 1 then 0 else 4, 4, Returning(n - 1)), State(4, 4, Returning(n));
      assert IndexOf(RECURSIVE, 4) == Some(0);
      assert Returns(RECURSIVE, 1);
      assert ScanOf(RECURSIVE, s).next == [t];
      NextReachable(RECURSIVE, 4, s, t);
    }
  }

  lemma {:induction false} DeepestStack(bound: set<State>) returns (n: nat)
    ensures forall s :: s in bound ==> |s.stack| <= n
  {
    if bound == {} {
      n := 0;
    } else {
      var s :| s in bound;
      var m := DeepestStack(bound - {s});
      n := if m < |s.stack| then |s.stack| else m;
      assert bound == (bound - {s}) + {s};
    }
  }

  /** A recursive function has infinitely many reachable states: no finite set holds them all. */
  lemma {:induction false} RecursionIsInfinite(bound: set<State>)
    ensures exists s :: Reachable(RECURSIVE, 4, s) && s !in bound
  {
    var n := DeepestStack(bound);
    RecursionGoesDeeper(n);
  }
}
