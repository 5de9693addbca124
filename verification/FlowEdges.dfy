/** Where each kind of instruction leads, said of the instruction at which the scan of a block ends. */
module FlowEdges {
  import opened FlowStates
  import opened FlowInvariant

  lemma {:induction false} GuardPassed(p: Program, i: nat, e: nat)
    requires EndsAt(p, i, e) && i < e
    ensures EndsAt(p, i + 1, e) && (Guarded(p, i, e) <==> p[i].kind.StackProtector? || Guarded(p, i + 1, e))
  {
  }

  lemma {:induction false} ScanArrives(p: Program, s: State, i: nat, skip: bool, read: bool, e: nat)
    requires EndsAt(p, i, e) && (read || !p[i].bare)
    ensures ScanFrom(p, s, i, skip, read) == ScanFrom(p, s, e, skip || Guarded(p, i, e), true)
    decreases e - i
  {
    if i < e {
      assert Passed(p[i].kind);
      GuardPassed(p, i, e);
      ScanArrives(p, s, i + 1, skip || p[i].kind.StackProtector?, true, e);
    }
  }

  lemma {:induction false} ScanRunsOut(p: Program, s: State, i: nat, skip: bool, read: bool)
    requires i <= |p| && forall j :: i <= j < |p| ==> Passed(p[j].kind)
    requires read || (i < |p| && !p[i].bare)
    ensures ScanFrom(p, s, i, skip, read) == Emits([], [])
    decreases |p| - i
  {
    if i < |p| {
      ScanRunsOut(p, s, i + 1, skip || p[i].kind.StackProtector?, true);
    }
  }

  lemma {:induction false} IndexIs(p: Program, i: nat)
    requires Sorted(p) && i < |p|
    ensures IndexOf(p, p[i].address).Some? && IndexOf(p, p[i].address).value == i
  {
  }

  /** A block begins at instruction `i`, with an operand to print, and its scan goes as far as instruction `e`. */
  ghost predicate Scanned(p: Program, s: State, i: nat, e: nat) {
    && s.block != 0 && s.block != -1 && Sorted(p)
    && EndsAt(p, i, e) && p[i].address == s.block && !p[i].bare
  }

  lemma {:induction false} BlockArrives(p: Program, s: State, i: nat, e: nat)
    requires Scanned(p, s, i, e)
    ensures ScanOf(p, s) == ScanFrom(p, s, e, Guarded(p, i, e), true)
  {
    IndexIs(p, i);
    ScanArrives(p, s, i, false, false, e);
  }

  /**
   A conditional jump: behind the stack protector only the next instruction; else, if it is indirect, nowhere; else
   the next instruction and the target.
   */
  lemma {:induction false} CondJumpLeads(p: Program, s: State, i: nat, e: nat)
    requires Scanned(p, s, i, e) && p[e].kind.CondJump?
    ensures Guarded(p, i, e) && e + 1 < |p| ==>
              ScanOf(p, s) == Emits([State(s.block, p[e + 1].address, s.stack)], [])
    ensures !Guarded(p, i, e) && p[e].kind.indirect ==> ScanOf(p, s) == Emits([], [p[e].address])
    ensures !Guarded(p, i, e) && !p[e].kind.indirect && e + 1 < |p| ==>
              ScanOf(p, s) == Emits([State(s.block, p[e + 1].address, s.stack),
                                     State(s.block, p[e].kind.target, s.stack)], [])
  {
    BlockArrives(p, s, i, e);
  }

  /** An unconditional jump: the same behind the stack protector; else nowhere or only its target. */
  lemma {:induction false} JumpLeads(p: Program, s: State, i: nat, e: nat)
    requires Scanned(p, s, i, e) && p[e].kind.Jump?
    ensures Guarded(p, i, e) && e + 1 < |p| ==>
              ScanOf(p, s) == Emits([State(s.block, p[e + 1].address, s.stack)], [])
    ensures !Guarded(p, i, e) && p[e].kind.indirect ==> ScanOf(p, s) == Emits([], [p[e].address])
    ensures !Guarded(p, i, e) && !p[e].kind.indirect ==>
              ScanOf(p, s) == Emits([State(s.block, p[e].kind.target, s.stack)], [])
  {
    BlockArrives(p, s, i, e);
  }

  /**
   From instruction `j` on a function begins before any unconditional jump, or return without repz: the call is taken
   for one that never returns.
   */
  ghost predicate NextFunctionFirst(p: Program, j: nat) {
    exists k :: j <= k < |p| && p[k].entry && forall m :: j <= m < k ==> !p[m].kind.Jump? && p[m].kind != Ret(false)
  }

  lemma {:induction false} ReturnsExactly(p: Program, j: nat)
    requires j <= |p|
    ensures Returns(p, j) <==> !NextFunctionFirst(p, j)
    decreases |p| - j
  {
    if j < |p| {
      ReturnsExactly(p, j + 1);
      if p[j].entry {
        assert NextFunctionFirst(p, j);
      } else if !(p[j].kind.Jump? || p[j].kind == Ret(false)) {
        FunctionBehind(p, j);
      }
    }
  }

  lemma {:induction false} FunctionBehind(p: Program, j: nat)
    requires j < |p| && !p[j].entry && !p[j].kind.Jump? && p[j].kind != Ret(false)
    ensures NextFunctionFirst(p, j) <==> NextFunctionFirst(p, j + 1)
  {
    if NextFunctionFirst(p, j) {
      var k :| j <= k < |p| && p[k].entry && forall m :: j <= m < k ==> !p[m].kind.Jump? && p[m].kind != Ret(false);
      assert j + 1 <= k;
    }
    if NextFunctionFirst(p, j + 1) {
      var k :| j + 1 <= k < |p| && p[k].entry
               && forall m :: j + 1 <= m < k ==> !p[m].kind.Jump? && p[m].kind != Ret(false);
      assert j <= k;
    }
  }

  /**
   A call that never returns leads nowhere; an indirect one, or one into the PLT, leads to the next instruction with
   an unknown source; any other to its target, with the next instruction on the stack. The stack protector does not
   matter.
   */
  lemma {:induction false} CallLeads(p: Program, s: State, i: nat, e: nat)
    requires Scanned(p, s, i, e) && p[e].kind.Call?
    ensures NextFunctionFirst(p, e) ==> ScanOf(p, s) == Emits([], [])
    ensures !NextFunctionFirst(p, e) && (p[e].kind.indirect || p[e].kind.symbol.InPlt?) && e + 1 < |p| ==>
              ScanOf(p, s) == Emits([State(-1, p[e + 1].address, s.stack)], [p[e].address])
    ensures !NextFunctionFirst(p, e) && !p[e].kind.indirect && p[e].kind.symbol.Named? && e + 1 < |p| ==>
              ScanOf(p, s) == Emits([State(s.block, p[e].kind.target, s.stack + [p[e + 1].address])], [])
  {
    BlockArrives(p, s, i, e);
    ReturnsExactly(p, e);
  }

  /** A return leads to the address on top of the stack, which it takes off. */
  lemma {:induction false} RetLeads(p: Program, s: State, i: nat, e: nat, below: seq<int>, top: int)
    requires Scanned(p, s, i, e) && p[e].kind.Ret? && s.stack == below + [top]
    ensures ScanOf(p, s) == Emits([State(s.block, top, below)], [])
  {
    BlockArrives(p, s, i, e);
  }

  /** A block that runs to the end of the program leads nowhere. */
  lemma {:induction false} EndLeads(p: Program, s: State, i: nat)
    requires s.block != 0 && s.block != -1 && Sorted(p) && i < |p| && p[i].address == s.block && !p[i].bare
    requires forall j :: i <= j < |p| ==> p[j].kind.StackProtector? || p[j].kind.Other?
    ensures ScanOf(p, s) == Emits([], [])
  {
    IndexIs(p, i);
    ScanRunsOut(p, s, i, false, false);
  }

  /** Addresses 0 and -1 are not processed. */
  lemma {:induction false} RootAndUnknownStop(p: Program, s: State)
    ensures Stop(s) <==> s.block == 0 || s.block == -1
    ensures s.block == 0 || s.block == -1 ==> ScanOf(p, s) == Emits([], [])
  {
  }

  /**
   The smallest program with a branch: both sides of it are reached and drawn.
   4: je 16; 8: ret; 16: ret
   */
  lemma {:induction false} BothSidesReached()
    ensures var p := [Instruction(4, CondJump(false, 16), false, false), Instruction(8, Ret(false), true, false),
                      Instruction(16, Ret(false), true, false)];
            OnSomeStack(p, 4, 0, 4) && OnSomeStack(p, 4, 4, 8) && OnSomeStack(p, 4, 4, 16)
  {
    var p := [Instruction(4, CondJump(false, 16), false, false), Instruction(8, Ret(false), true, false),
              Instruction(16, Ret(false), true, false)];
    StartReachable(p, 4);
    CondJumpLeads(p, State(0, 4, [0]), 0, 0);
    NextReachable(p, 4, State(0, 4, [0]), State(4, 8, [0]));
    NextReachable(p, 4, State(0, 4, [0]), State(4, 16, [0]));
  }
}
