/** The worklist loop of objdump_to_cfg.py (main 97-100, get_objdump_index 113-129, iterate_bb 138-276). */
module FlowExplorer {
  import opened Wrappers
  import opened FlowStates
  import opened FlowInvariant
  import opened FlowOrder

  /** The binary search. */
  method GetIndex(p: Program, address: int) returns (r: Option<nat>)
    requires Sorted(p)
    ensures r == IndexOf(p, address)
  {
    var first, last := 0, |p| - 1;
    while first <= last
      invariant 0 <= first <= |p| && -1 <= last < |p|
      invariant forall i :: 0 <= i < first ==> p[i].address < address
      invariant forall i :: last < i < |p| ==> address < p[i].address
      decreases last - first
    {
      var mid := (first + last) / 2;
      var item := p[mid].address;
      if item == address {
        return Some(mid);
      } else if address < item {
        last := mid - 1;
      } else {
        first := mid + 1;
      }
    }
    r := None;
  }

  class Explorer {
    const objdump: Program
    const root: nat
    var cfg: Graph
    var blockQueue: seq<State>
    var pathsVisited: seq<State>
    var indirects: seq<nat>

    constructor (objdump: Program, root: nat)
      ensures this.objdump == objdump && this.root == root
      ensures cfg == map[] && blockQueue == [] && pathsVisited == [] && indirects == []
    {
      this.objdump, this.root := objdump, root;
      cfg, blockQueue, pathsVisited, indirects := map[], [], [], [];
    }

    /**
     Explores everything the root function can reach, given that this is finitely much (`bound`). It raises exactly
     if some reachable block is bad; otherwise the visited states are the reachable ones that do not stop, the graph
     is the projection to their edges, without duplicates, and the indirects are those of the visited states. They are
     visited depth first, and edges stand in the order of their first visits.
     */
    method Explore(ghost bound: set<State>) returns (raised: bool)
      requires Sorted(objdump) && forall s :: Reachable(objdump, root, s) ==> s in bound
      requires cfg == map[] && blockQueue == [] && pathsVisited == [] && indirects == []
      modifies this
      ensures raised <==> exists s :: Reachable(objdump, root, s) && s.block != 0 && s.block != -1
                                      && BadBlock(objdump, s.block)
      ensures !raised ==>
                && Distinct(pathsVisited)
                && (forall s :: s in pathsVisited <==> Reachable(objdump, root, s) && s.block != 0 && s.block != -1)
                && EdgesOfReachable(objdump, root, cfg)
                && (forall a :: a in cfg ==> cfg[a] != [] && Distinct(cfg[a]))
                && InVisitOrder(cfg, pathsVisited) && DepthFirst(objdump, root, pathsVisited)
                && indirects == IndirectsOf(objdump, pathsVisited)
    {
      blockQueue := [Start(root)];
      StartInv(objdump, root);
      ghost var left: seq<nat> := [];
      while blockQueue != []
        invariant Inv(objdump, root, blockQueue, pathsVisited, cfg, indirects)
        invariant Ordered(objdump, root, blockQueue, pathsVisited, left)
        decreases |Unvisited(bound, pathsVisited)|, |blockQueue|
      {
        raised, left := ProcessNext(bound, left);
        if raised {
          return;
        }
      }
      Finished(left);
      raised := false;
    }

    /** Takes the last block off the worklist. */
    method ProcessNext(ghost bound: set<State>, ghost left: seq<nat>) returns (raised: bool, ghost left': seq<nat>)
      requires Sorted(objdump) && forall s :: Reachable(objdump, root, s) ==> s in bound
      requires Inv(objdump, root, blockQueue, pathsVisited, cfg, indirects) && blockQueue != []
      requires Ordered(objdump, root, blockQueue, pathsVisited, left)
      modifies this
      ensures raised ==> exists s :: Reachable(objdump, root, s) && !Stop(s) && BadBlock(objdump, s.block)
      ensures !raised ==>
                && Inv(objdump, root, blockQueue, pathsVisited, cfg, indirects)
                && Ordered(objdump, root, blockQueue, pathsVisited, left')
                && (|Unvisited(bound, pathsVisited)| < |Unvisited(bound, old(pathsVisited))|
                    || (pathsVisited == old(pathsVisited) && |blockQueue| < |old(blockQueue)|))
    {
      var block := blockQueue[|blockQueue| - 1];
      Popped(blockQueue);
      blockQueue := blockQueue[..|blockQueue| - 1];
      left' := TakenInOrder(objdump, root, blockQueue, block, pathsVisited, left);
      raised := IterateBB(block, bound);
      if raised {
        RaisesExactly(objdump, root, block);
      }
    }

    lemma {:induction false} Finished(left: seq<nat>)
      requires Inv(objdump, root, [], pathsVisited, cfg, indirects)
      requires Ordered(objdump, root, [], pathsVisited, left)
      ensures Distinct(pathsVisited)
      ensures forall s :: s in pathsVisited <==> Reachable(objdump, root, s) && !Stop(s)
      ensures EdgesOfReachable(objdump, root, cfg)
      ensures forall a :: a in cfg ==> cfg[a] != [] && Distinct(cfg[a])
      ensures InVisitOrder(cfg, pathsVisited) && DepthFirst(objdump, root, pathsVisited)
      ensures forall s :: Reachable(objdump, root, s) && !Stop(s) ==> !BadBlock(objdump, s.block)
    {
      forall s ensures s in pathsVisited <==> Reachable(objdump, root, s) && !Stop(s) {
        EmptyWorklist(objdump, root, pathsVisited, s);
      }
      forall s | Reachable(objdump, root, s) && !Stop(s) ensures !BadBlock(objdump, s.block) {
        RaisesExactly(objdump, root, s);
      }
      FinalGraph(objdump, root, pathsVisited, cfg);
    }

    method IterateBB(s: State, ghost bound: set<State>) returns (raised: bool)
      requires Sorted(objdump) && forall t :: Reachable(objdump, root, t) ==> t in bound
      requires Inv(objdump, root, blockQueue + [s], pathsVisited, cfg, indirects)
      modifies this
      ensures Reachable(objdump, root, s)
      ensures raised <==> !Stop(s) && s !in old(pathsVisited) && ScanOf(objdump, s).Raises?
      ensures !raised ==> Inv(objdump, root, blockQueue, pathsVisited, cfg, indirects)
      ensures Stop(s) || s in old(pathsVisited) ==>
                && blockQueue == old(blockQueue) && pathsVisited == old(pathsVisited)
                && cfg == old(cfg) && indirects == old(indirects)
      ensures !Stop(s) && s !in old(pathsVisited) ==>
                && pathsVisited == old(pathsVisited) + [s] && cfg == AddEdge(old(cfg), s.source, s.block)
                && |Unvisited(bound, pathsVisited)| < |Unvisited(bound, old(pathsVisited))|
                && (!raised ==>
                      && blockQueue == old(blockQueue) + ScanOf(objdump, s).next
                      && indirects == old(indirects) + ScanOf(objdump, s).indirect)
    {
      assert Reachable(objdump, root, s) by { assert s in blockQueue + [s]; }
      if s.block == 0 || s.block == -1 {
        Dropped(objdump, root, blockQueue, s, pathsVisited);
        return false;
      }
      EdgeAdded(cfg, pathsVisited, s);
      Draw(s);
      if s in pathsVisited {
        Dropped(objdump, root, blockQueue, s, pathsVisited);
        return false;
      }
      raised := Visit(s, bound);
    }

    /** Adds the edge into a block. */
    method Draw(s: State)
      modifies `cfg
      ensures cfg == AddEdge(old(cfg), s.source, s.block)
    {
      if s.source !in cfg {
        cfg := cfg[s.source := []];
      }
      if s.block !in cfg[s.source] {
        cfg := cfg[s.source := cfg[s.source] + [s.block]];
      }
    }

    /** Marks a new state as visited, scans its block and queues what it leads to. */
    method Visit(s: State, ghost bound: set<State>) returns (raised: bool)
      requires Sorted(objdump) && forall t :: Reachable(objdump, root, t) ==> t in bound
      requires Sound(objdump, root, blockQueue + [s], pathsVisited)
      requires Closed(objdump, root, blockQueue + [s], pathsVisited)
      requires Drawn(cfg, pathsVisited + [s]) && indirects == IndirectsOf(objdump, pathsVisited)
      requires !Stop(s) && s !in pathsVisited && Reachable(objdump, root, s)
      modifies `blockQueue, `pathsVisited, `indirects
      ensures raised <==> ScanOf(objdump, s).Raises?
      ensures !raised ==>
                && Inv(objdump, root, blockQueue, pathsVisited, cfg, indirects)
                && blockQueue == old(blockQueue) + ScanOf(objdump, s).next
                && indirects == old(indirects) + ScanOf(objdump, s).indirect
      ensures pathsVisited == old(pathsVisited) + [s]
      ensures |Unvisited(bound, pathsVisited)| < |Unvisited(bound, old(pathsVisited))|
    {
      OneFewer(objdump, root, bound, pathsVisited, s);
      if ScanOf(objdump, s).Emits? {
        VisitKeeps(objdump, root, blockQueue, s, pathsVisited, cfg);
      }
      pathsVisited := pathsVisited + [s];
      var scan := ScanBlock(s);
      if scan.Raises? {
        return true;
      }
      blockQueue := blockQueue + scan.next;
      indirects := indirects + scan.indirect;
      raised := false;
    }

    /** Steps through the instructions until a jump, a call or a return. */
    method ScanBlock(s: State) returns (scan: Scan)
      requires Sorted(objdump) && !Stop(s)
      ensures scan == ScanOf(objdump, s)
    {
      var start := GetIndex(objdump, s.block);
      if start.None? {
        return Raises;
      }
      var skipNextJump, read := false, false;
      var i := start.value;
      while i < |objdump|
        invariant i <= |objdump|
        invariant ScanOf(objdump, s) == ScanFrom(objdump, s, i, skipNextJump, read)
      {
        var instruction := objdump[i];
        if instruction.bare && !read {
          return Raises;
        }
        read := true;
        match instruction.kind {
          case StackProtector => skipNextJump := true;
          case CondJump(indirect, target) =>
            if skipNextJump {
              return Behind(objdump, i, s.block, s.stack, [], []);
            } else if indirect {
              return Emits([], [instruction.address]);
            }
            return Behind(objdump, i, s.block, s.stack, [State(s.block, target, s.stack)], []);
          case Jump(indirect, target) =>
            if skipNextJump {
              return Behind(objdump, i, s.block, s.stack, [], []);
            } else if indirect {
              return Emits([], [instruction.address]);
            }
            return Emits([State(s.block, target, s.stack)], []);
          case Call(indirect, target, symbol) =>
            var comesBack := LookAhead(i);
            if !comesBack {
              return Emits([], []);
            } else if indirect || symbol.InPlt? {
              return Behind(objdump, i, -1, s.stack, [], [instruction.address]);
            } else if symbol.Missing? || i + 1 == |objdump| {
              return Raises;
            }
            return Emits([State(s.block, target, s.stack + [objdump[i + 1].address])], []);
          case Ret(_) =>
            if s.stack == [] {
              return Raises;
            }
            return Emits([State(s.block, s.stack[|s.stack| - 1], s.stack[..|s.stack| - 1])], []);
          case Other =>
        }
        i := i + 1;
      }
      scan := Emits([], []);
    }

    /** Looks for the beginning of a function before the end of a path: such a call never returns. */
    method LookAhead(i: nat) returns (comesBack: bool)
      requires i <= |objdump|
      ensures comesBack == Returns(objdump, i)
    {
      var j := i;
      while j < |objdump|
        invariant i <= j <= |objdump| && Returns(objdump, i) == Returns(objdump, j)
      {
        if objdump[j].entry {
          return false;
        }
        if EndsPath(objdump[j].kind) {
          return true;
        }
        j := j + 1;
      }
      comesBack := true;
    }
  }
}
