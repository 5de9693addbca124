/**
 The states objdump_to_cfg.py explores: decoded instructions, what scanning a block from its address does
 (iterate_bb, 163-276), and which states are reachable from the root function.
 */
module FlowStates {
  import opened Wrappers

  /** The third column of a direct call: a symbol in the PLT, another one, or none at all. */
  datatype Symbol = InPlt | Named | Missing

  /** What the scan does with an instruction. The lookahead does not recognise a return prefixed by repz. */
  datatype Kind =
    | StackProtector
    | CondJump(indirect: bool, target: int)
    | Jump(indirect: bool, target: int)
    | Call(indirect: bool, target: int, symbol: Symbol)
    | Ret(repz: bool)
    | Other

  /**
   `bare` says that there is nothing behind the mnemonic, so that no operand is read; `entry` that the instruction
   looks like the beginning of a function (push %ebp or sub X,%esp).
   */
  datatype Instruction = Instruction(address: nat, kind: Kind, bare: bool, entry: bool)

  /** A block to process: where control came from, the block's address and the return addresses. */
  datatype State = State(source: int, block: int, stack: seq<int>)

  datatype Scan =
    | Emits(next: seq<State>, indirect: seq<nat>)
    | Raises

  type Program = seq<Instruction>

  predicate Sorted(p: Program) {
    forall i, j :: 0 <= i < j < |p| ==> p[i].address < p[j].address
  }

  predicate Stop(s: State) {
    s.block == 0 || s.block == -1
  }

  function Start(root: nat): State {
    State(0, root, [0])
  }

  /** Does the lookahead of a call find the end of a path before the beginning of a function? */
  predicate Returns(p: Program, j: nat)
    requires j <= |p|
    decreases |p| - j
  {
    j == |p| || (!p[j].entry && (EndsPath(p[j].kind) || Returns(p, j + 1)))
  }

  predicate EndsPath(k: Kind) {
    k.Jump? || (k.Ret? && !k.repz)
  }

  /** The state behind instruction `i`; reading past the last instruction raises. */
  function Behind(p: Program, i: nat, source: int, stack: seq<int>, more: seq<State>, indirect: seq<nat>): Scan {
    if i + 1 < |p| then Emits([State(source, p[i + 1].address, stack)] + more, indirect) else Raises
  }

  /**
   The scan of block `s` from instruction `i` on. `skip`: the stack protector was seen, the next jump is not taken;
   `read`: some operand has been read already, without one the trace output raises.
   */
  function ScanFrom(p: Program, s: State, i: nat, skip: bool, read: bool): Scan
    requires i <= |p|
    decreases |p| - i
  {
    if i == |p| then Emits([], [])
    else if p[i].bare && !read then Raises
    else
      match p[i].kind
      case StackProtector => ScanFrom(p, s, i + 1, true, true)
      case CondJump(indirect, target) =>
        if skip then Behind(p, i, s.block, s.stack, [], [])
        else if indirect then Emits([], [p[i].address])
        else Behind(p, i, s.block, s.stack, [State(s.block, target, s.stack)], [])
      case Jump(indirect, target) =>
        if skip then Behind(p, i, s.block, s.stack, [], [])
        else if indirect then Emits([], [p[i].address])
        else Emits([State(s.block, target, s.stack)], [])
      case Call(indirect, target, symbol) =>
        if !Returns(p, i) then Emits([], [])
        else if indirect || symbol.InPlt? then Behind(p, i, -1, s.stack, [], [p[i].address])
        else if symbol.Missing? then Raises
        else if i + 1 < |p| then Emits([State(s.block, target, s.stack + [p[i + 1].address])], [])
        else Raises
      case Ret(_) =>
        if s.stack == [] then Raises
        else Emits([State(s.block, s.stack[|s.stack| - 1], s.stack[..|s.stack| - 1])], [])
      case Other => ScanFrom(p, s, i + 1, skip, true)
  }

  /** Where the instruction with the given address is. */
  function IndexOf(p: Program, address: int): (r: Option<nat>)
    ensures r.Some? ==> r.value < |p| && p[r.value].address == address
    ensures r.None? <==> forall i :: 0 <= i < |p| ==> p[i].address != address
  {
    if p == [] then None
    else if p[|p| - 1].address == address then Some(|p| - 1)
    else IndexOf(p[..|p| - 1], address)
  }

  /** What processing a state leads to. */
  function ScanOf(p: Program, s: State): Scan {
    if Stop(s) then Emits([], [])
    else
      var i := IndexOf(p, s.block);
      if i.None? then Raises else ScanFrom(p, s, i.value, false, false)
  }

  predicate Leads(p: Program, s: State, t: State) {
    ScanOf(p, s).Emits? && t in ScanOf(p, s).next
  }

  /** A path of the exploration from the root. */
  ghost predicate IsPath(p: Program, root: nat, path: seq<State>) {
    && path != [] && path[0] == Start(root)
    && forall i :: 0 <= i < |path| - 1 ==> Leads(p, path[i], path[i + 1])
  }

  ghost predicate Reachable(p: Program, root: nat, s: State) {
    exists path: seq<State> :: IsPath(p, root, path) && path[|path| - 1] == s
  }

  lemma {:induction false} StartReachable(p: Program, root: nat)
    ensures Start(root) == State(0, root, [0]) && Reachable(p, root, Start(root))
  {
    assert IsPath(p, root, [Start(root)]);
  }

  lemma {:induction false} NextReachable(p: Program, root: nat, s: State, t: State)
    requires Reachable(p, root, s) && Leads(p, s, t)
    ensures Reachable(p, root, t)
  {
    var path: seq<State> :| IsPath(p, root, path) && path[|path| - 1] == s;
    assert IsPath(p, root, path + [t]);
  }

  /** What holds of the start and is kept by every step holds of every reachable state. */
  lemma {:induction false} ReachableInduction(p: Program, root: nat, inv: State -> bool, s: State)
    requires Reachable(p, root, s) && inv(Start(root))
    requires forall a, b :: inv(a) && Leads(p, a, b) ==> inv(b)
    ensures inv(s)
  {
    var path: seq<State> :| IsPath(p, root, path) && path[|path| - 1] == s;
    AlongPath(p, root, inv, path, |path| - 1);
  }

  lemma {:induction false} AlongPath(p: Program, root: nat, inv: State -> bool, path: seq<State>, n: nat)
    requires IsPath(p, root, path) && inv(Start(root)) && n < |path|
    requires forall a, b :: inv(a) && Leads(p, a, b) ==> inv(b)
    ensures inv(path[n])
  {
    if n > 0 {
      AlongPath(p, root, inv, path, n - 1);
      assert Leads(p, path[n - 1], path[n - 1 + 1]);
    }
  }

  // ------------------------------------------------ the call stack

  /** The bottom of the stack is the 0 the root function returns to. */
  predicate Rooted(s: State) {
    Stop(s) || (s.stack != [] && s.stack[0] == 0)
  }

  lemma {:induction false} ScanKeepsRooted(p: Program, s: State, i: nat, skip: bool, read: bool)
    requires i <= |p| && s.stack != [] && s.stack[0] == 0
    ensures ScanFrom(p, s, i, skip, read).Emits? ==>
              forall t :: t in ScanFrom(p, s, i, skip, read).next ==> Rooted(t)
    decreases |p| - i
  {
    if i < |p| {
      ScanKeepsRooted(p, s, i + 1, p[i].kind.StackProtector? || skip, true);
    }
  }

  /** A return never finds an empty call stack. */
  lemma {:induction false} NoUnderflow(p: Program, root: nat, s: State)
    requires Reachable(p, root, s) && !Stop(s)
    ensures s.stack != [] && s.stack[0] == 0
  {
    forall a, b | Rooted(a) && Leads(p, a, b) ensures Rooted(b) {
      if !Stop(a) {
        ScanKeepsRooted(p, a, IndexOf(p, a.block).value, false, false);
      }
    }
    ReachableInduction(p, root, Rooted, s);
  }

  // ------------------------------------------------ which blocks raise

  predicate Passed(k: Kind) {
    k.StackProtector? || k.Other?
  }

  /** The scan from `i` goes as far as instruction `e`. */
  predicate EndsAt(p: Program, i: nat, e: nat) {
    i <= e < |p| && !Passed(p[e].kind) && forall j :: i <= j < e ==> Passed(p[j].kind)
  }

  /** The stack protector is among the instructions from `i` on before `e`. */
  predicate Guarded(p: Program, i: nat, e: nat)
    requires e <= |p|
  {
    exists j :: i <= j < e && p[j].kind.StackProtector?
  }

  /**
   Instruction `e` cannot be processed: it needs the one behind it and is the last, or it is a direct call to be
   followed that has no symbol column.
   */
  predicate Stumbles(p: Program, e: nat, guarded: bool)
    requires e < |p|
  {
    match p[e].kind
    case CondJump(indirect, _) => e == |p| - 1 && (guarded || !indirect)
    case Jump(_, _) => e == |p| - 1 && guarded
    case Call(indirect, _, symbol) =>
      Returns(p, e) && (e == |p| - 1 || (!indirect && symbol.Missing?))
    case _ => false
  }

  /** A block that cannot be processed, whatever the call stack. */
  predicate BadBlock(p: Program, block: int) {
    IndexOf(p, block).None? || BadStart(p, IndexOf(p, block).value)
  }

  /** No operand is read before the first trace line, or the scan ends at an instruction it stumbles over. */
  predicate BadStart(p: Program, i: nat)
    requires i < |p|
  {
    p[i].bare || RunsOff(p, i, false)
  }

  /** The scan from `i` ends at an instruction it stumbles over; `skip`: the stack protector was seen before. */
  predicate RunsOff(p: Program, i: nat, skip: bool) {
    exists e :: i <= e < |p| && EndsAt(p, i, e) && Stumbles(p, e, skip || Guarded(p, i, e))
  }

  lemma {:induction false} ScanRaises(p: Program, s: State, i: nat, skip: bool, read: bool)
    requires i <= |p| && s.stack != [] && (read || (i < |p| && !p[i].bare))
    ensures ScanFrom(p, s, i, skip, read).Raises? <==> RunsOff(p, i, skip)
    decreases |p| - i
  {
    if i < |p| && Passed(p[i].kind) {
      ScanRaises(p, s, i + 1, skip || p[i].kind.StackProtector?, true);
      OnePassed(p, i, skip);
    } else if i < |p| {
      assert EndsAt(p, i, i) && !Guarded(p, i, i);
    }
  }

  lemma {:induction false} OnePassed(p: Program, i: nat, skip: bool)
    requires i < |p| && Passed(p[i].kind)
    ensures RunsOff(p, i, skip) <==> RunsOff(p, i + 1, skip || p[i].kind.StackProtector?)
  {
    var next, skip' := i + 1, skip || p[i].kind.StackProtector?;
    forall e | next <= e < |p|
      ensures EndsAt(p, i, e) <==> EndsAt(p, next, e)
      ensures (skip || Guarded(p, i, e)) == (skip' || Guarded(p, next, e))
    {
    }
    if RunsOff(p, i, skip) {
      var e :| i <= e < |p| && EndsAt(p, i, e) && Stumbles(p, e, skip || Guarded(p, i, e));
      assert EndsAt(p, next, e);
    }
    if RunsOff(p, next, skip') {
      var e :| next <= e < |p| && EndsAt(p, next, e) && Stumbles(p, e, skip' || Guarded(p, next, e));
      assert EndsAt(p, i, e);
    }
  }

  /**
   A reachable state raises exactly if its block is bad: its address is unknown, its first instruction has no operand,
   or the first jump, call or return from there on cannot be processed. The call stack does not matter.
   */
  lemma {:induction false} RaisesExactly(p: Program, root: nat, s: State)
    requires Reachable(p, root, s) && !Stop(s)
    ensures ScanOf(p, s).Raises? <==> BadBlock(p, s.block)
  {
    NoUnderflow(p, root, s);
    var i := IndexOf(p, s.block);
    if i.Some? && !p[i.value].bare {
      ScanRaises(p, s, i.value, false, false);
    }
  }

  // ------------------------------------------------ programs that never raise

  predicate GoodBlock(p: Program, block: int) {
    block == 0 || block == -1 || !BadBlock(p, block)
  }

  predicate GoodBehind(p: Program, i: nat) {
    i + 1 < |p| && GoodBlock(p, p[i + 1].address)
  }

  /** Some scan can come to instruction `e` with the stack protector behind it. */
  predicate MayBeGuarded(p: Program, e: nat)
    requires e < |p|
  {
    exists i :: 0 <= i < |p| && EndsAt(p, i, e) && Guarded(p, i, e)
  }

  /** Every block that processing instruction `e` can lead to is good. */
  predicate LeadsOn(p: Program, e: nat)
    requires e < |p|
  {
    match p[e].kind
    case CondJump(indirect, target) =>
      (!indirect ==> GoodBlock(p, target) && GoodBehind(p, e)) && (MayBeGuarded(p, e) ==> GoodBehind(p, e))
    case Jump(indirect, target) =>
      (!indirect ==> GoodBlock(p, target)) && (MayBeGuarded(p, e) ==> GoodBehind(p, e))
    case Call(indirect, target, symbol) =>
      Returns(p, e) ==> GoodBehind(p, e) && (indirect || symbol.InPlt? || GoodBlock(p, target))
    case _ => true
  }

  predicate Complete(p: Program) {
    forall e :: 0 <= e < |p| ==> LeadsOn(p, e)
  }

  predicate Regular(p: Program, s: State) {
    Rooted(s) && GoodBlock(p, s.block) && forall a :: a in s.stack ==> GoodBlock(p, a)
  }

  /** The scan of a regular state, `i` instructions of the block `from` being passed. */
  lemma {:induction false} ScanKeepsRegular(p: Program, s: State, from: nat, i: nat, skip: bool, read: bool)
    requires from <= i <= |p| && Complete(p) && Regular(p, s) && s.stack != [] && s.stack[0] == 0
    requires (forall j :: from <= j < i ==> Passed(p[j].kind)) && (skip ==> Guarded(p, from, i))
    ensures ScanFrom(p, s, i, skip, read).Emits? ==>
              forall t :: t in ScanFrom(p, s, i, skip, read).next ==> Regular(p, t)
    decreases |p| - i
  {
    ScanKeepsRooted(p, s, i, skip, read);
    if i < |p| {
      assert LeadsOn(p, i);
      if Passed(p[i].kind) {
        var skip' := p[i].kind.StackProtector? || skip;
        assert skip' ==> Guarded(p, from, i + 1);
        ScanKeepsRegular(p, s, from, i + 1, skip', true);
      } else {
        assert EndsAt(p, from, i);
      }
    }
  }

  /** In a program whose instructions all lead on to good blocks, no reachable state raises. */
  lemma {:induction false} CompleteNeverRaises(p: Program, root: nat, s: State)
    requires Complete(p) && GoodBlock(p, root) && Reachable(p, root, s)
    ensures ScanOf(p, s).Emits?
  {
    var inv := (t: State) => Regular(p, t);
    forall a, b | inv(a) && Leads(p, a, b) ensures inv(b) {
      if !Stop(a) {
        var i := IndexOf(p, a.block).value;
        ScanKeepsRegular(p, a, i, i, false, false);
      }
    }
    ReachableInduction(p, root, inv, s);
    if !Stop(s) {
      RaisesExactly(p, root, s);
    }
  }

  /** A function that only returns: its block is bad, as no operand is read before the trace line. */
  lemma {:induction false} BareReturnRaises()
    ensures var p := [Instruction(4, Ret(false), true, false)];
            Sorted(p) && Reachable(p, 4, Start(4)) && BadBlock(p, 4) && ScanOf(p, Start(4)).Raises?
  {
    StartReachable([Instruction(4, Ret(false), true, false)], 4);
  }

  /** A direct call without a symbol column, followed by a return, is bad as well. */
  lemma {:induction false} CallWithoutSymbolRaises()
    ensures var p := [Instruction(4, Call(false, 16, Missing), false, false), Instruction(8, Ret(false), true, false)];
            Sorted(p) && Reachable(p, 4, Start(4)) && BadBlock(p, 4) && ScanOf(p, Start(4)).Raises?
  {
    var p := [Instruction(4, Call(false, 16, Missing), false, false), Instruction(8, Ret(false), true, false)];
    StartReachable(p, 4);
    assert p[..1] == [p[0]] && IndexOf(p, 4) == Some(0);
    assert Returns(p, 1);
    RaisesExactly(p, 4, Start(4));
  }
}
