/** Conditional branches and branch tables. */
module BranchSimulation {
  import opened Words
  import opened Wasm
  import opened Machine
  import opened Allocator
  import opened Compiler
  import opened Invariant
  import opened CompilerInvariant
  import opened Relation
  import opened OperatorSimulation
  import opened Control
  import opened Simulation

  // ----- the condition -----

  lemma AtPop(p: Program, c: CState, s: State, locals: seq<Val>, mid: seq<Option<Val>>, stack: seq<Val>)
    requires Inv(c) && At(p, c, s, locals, mid, stack) && |stack| > 0
    ensures Pop(c).Some? && At(p, Pop(c).value, s, locals, mid, stack[..|stack| - 1])
  {
    hide Inv, Match;
    AtSize(p, c, s, locals, mid, stack);
    PopOk(c);
    GoodFacts(c, Pop(c).value);
    PopSim(p, c, s, Vals(locals, mid, stack));
    assert Vals(locals, mid, stack)[..|c.stack| - 1] == Vals(locals, mid, stack[..|stack| - 1]);
  }

  /** An operation that only moves the pc. */
  lemma AtSkip(p: Program, c: CState, op: Op, s: State, t: State, locals: seq<Val>, mid: seq<Option<Val>>,
               stack: seq<Val>)
    requires Inv(c) && At(p, c, s, locals, mid, stack) && t == s.(pc := s.pc.Next())
    ensures At(p, Emit(c, op), t, locals, mid, stack)
  {
    EmitOk(c, op);
    EmitFacts(c, op);
  }

  /** The word the top operand lives in. */
  lemma TopWord(p: Program, c: CState, s: State, locals: seq<Val>, mid: seq<Option<Val>>, stack: seq<Val>, x: U32)
    requires At(p, c, s, locals, mid, stack) && |stack| > 0 && stack[|stack| - 1] == V32(x)
    ensures |c.stack| > 0 && c.stack[|c.stack| - 1].ty == I32
    ensures s.Running? && ValueAt(c.stack[|c.stack| - 1].slot, s.sp, s.mem, s.r0).lo == x
  {
    hide Match, Vals;
    AtSize(p, c, s, locals, mid, stack);
    assert Vals(locals, mid, stack)[c.block.base + (|stack| - 1)] == Some(V32(x));
    Operand(p, c, s, Vals(locals, mid, stack), |c.stack| - 1, V32(x));
  }

  /** br_if to a block without results: one conditional jump. */
  lemma BrIfBlockSim(p: Program, c: CState, k: nat, s: State, locals: seq<Val>, mid: seq<Option<Val>>,
                     stack: seq<Val>, depths: seq<nat>, x: U32)
    returns (t: State)
    requires Ready(p, c, s, locals, mid, stack, depths) && 0 < k < |Scopes(c)|
    requires Scopes(c)[k].kind != LoopScope && Scopes(c)[k].results == []
    requires |stack| > 0 && stack[|stack| - 1] == V32(x)
    requires var cond := c.stack[|c.stack| - 1].slot;
      var to := Patched(Scopes(c)[k].end);
      var d := Pop(Emit(c, if IsAlias(cond) then BranchIfR(to) else BranchIfS(cond, to)));
      d.Some? && Linked(p, d.value)
    ensures t == Steps(p, 1, s)
    ensures var cond := c.stack[|c.stack| - 1].slot;
      var to := Patched(Scopes(c)[k].end);
      var d := Pop(Emit(c, if IsAlias(cond) then BranchIfR(to) else BranchIfS(cond, to))).value;
      var below := stack[..|stack| - 1];
      if x != 0 then Landed(p, c, s, 1, t, k, mid, depths, locals, below)
      else d.block == c.block && At(p, d, t, locals, mid, below) && Advance(p, c, s, 1, t)
  {
    hide Inv, Grows, GrowsAnyPage, Linked, Ready, At, FramesOk, Emit, PcOf, Outer, StackHolds, ConstsHold, Pop;
    ReadyFacts(p, c, s, locals, mid, stack, depths);
    var sc := Scopes(c)[k];
    var cond := c.stack[|c.stack| - 1].slot;
    var to := Patched(sc.end);
    var op := if IsAlias(cond) then BranchIfR(to) else BranchIfS(cond, to);
    var emitted := Emit(c, op);
    EmitOk(c, op);
    EmitFacts(c, op);
    PopOk(emitted);
    GrowsAny(emitted, Pop(emitted).value);
    LinkedBefore(p, emitted, Pop(emitted).value);
    FetchEmitted(p, c, op);
    OneStep(p, s);
    t := Step(p, s);
    TopWord(p, c, s, locals, mid, stack, x);
    PcFn(c);
    if x != 0 {
      ExitBounds(c, k);
      PrefixHolds(p, c, s, locals, mid, stack, sc.exit);
      assert Top(stack[..|stack| - 1], 0) == [];
      OuterMoved(p, c, sc, s, t, locals, mid, []);
    } else {
      AtSkip(p, c, op, s, t, locals, mid, stack);
      AtPop(p, emitted, t, locals, mid, stack);
    }
  }

  /** br_if through a prologue that runs only when the branch is taken. */
  lemma BrIfPrologueSim(p: Program, c: CState, k: nat, s: State, locals: seq<Val>, mid: seq<Option<Val>>,
                        stack: seq<Val>, depths: seq<nat>, x: U32)
    returns (n: nat, t: State)
    requires Ready(p, c, s, locals, mid, stack, depths) && k < |Scopes(c)|
    requires Scopes(c)[k].kind != LoopScope
    requires |stack| > 0 && stack[|stack| - 1] == V32(x)
    requires PrologueState(c).Some? && BranchTo(PrologueState(c).value, Scopes(c)[k]).Some?
    requires Linked(p, Define(BranchTo(PrologueState(c).value, Scopes(c)[k]).value, c.nextId))
    ensures t == Steps(p, n, s) && n > 0
    ensures var d := Define(BranchTo(PrologueState(c).value, Scopes(c)[k]).value, c.nextId);
      var below := stack[..|stack| - 1];
      if x != 0 then Landed(p, c, s, n, t, k, mid, depths, locals, below)
      else d.block == c.block && At(p, d, t, locals, mid, below) && Advance(p, c, s, n, t)
  {
    hide Inv, Grows, GrowsAnyPage, Linked, Ready, At, FramesOk, Outer, StackHolds, ConstsHold, Landed, EndsKnown,
      Guarded, BranchTo;
    ReadyFacts(p, c, s, locals, mid, stack, depths);
    var popped := PrologueState(c).value;
    var taken := BranchTo(popped, Scopes(c)[k]).value;
    var d := Define(taken, c.nextId);
    PrologueStateOk(c, k);
    TakenLinked(p, c, k);
    LinkedBefore(p, popped, taken);
    GuardStep(p, c, PrologueOp(c), s, locals, mid, stack, x);
    OneStep(p, s);
    t := Step(p, s);
    n := 1;
    if x != 0 {
      StraightAdvance(p, c, s, 1, t);
      ReadyLater(p, c, popped, s, 1, t, locals, mid, stack[..|stack| - 1], depths);
      ReadyFacts(p, popped, t, locals, mid, stack[..|stack| - 1], depths);
      ScopesSame(c, popped);
      var m, u := BranchToSim(p, popped, k, t, locals, mid, stack[..|stack| - 1], depths);
      LandedLift(p, c, popped, s, 1, t, m, u, k, mid, depths, locals, stack[..|stack| - 1]);
      LandedSteps(p, c, s, 1 + m, u, k, mid, depths, locals, stack[..|stack| - 1]);
      n, t := 1 + m, u;
    } else {
      StraightAdvance(p, c, s, 1, t);
      AtResumed(p, popped, taken, c.nextId, s, t, locals, mid, stack[..|stack| - 1]);
    }
  }

  /** The conditional operation in front of a prologue. */
  function PrologueOp(c: CState): Op
    requires |c.stack| > 0
  {
    var cond, skip := c.stack[|c.stack| - 1].slot, Patched(c.nextId);
    if IsAlias(cond) then PrologueR(skip) else PrologueS(cond, skip)
  }

  /** The state in which the prologue's copies are compiled. */
  function PrologueState(c: CState): Option<CState> {
    if |c.stack| == 0 then None else Guarded(c, PrologueOp(c))
  }

  lemma PrologueStateOk(c: CState, k: nat)
    requires Inv(c) && !c.block.polymorphic && k < |Scopes(c)|
    requires PrologueState(c).Some? && BranchTo(PrologueState(c).value, Scopes(c)[k]).Some?
    ensures var popped := PrologueState(c).value;
      var taken := BranchTo(popped, Scopes(c)[k]).value;
      && Inv(popped) && GrowsAnyPage(c, popped) && GrowsAnyPage(popped, taken) && Good(c, Define(taken, c.nextId))
      && taken == popped.(pages := taken.pages) && Good(popped, taken)
      && popped.block == c.block && popped.layout == c.layout && popped.outers == c.outers
  {
    hide Inv, Grows, GrowsAnyPage, BranchTo, Pop, Emit;
    ScopeKinds(c, k);
    if k > 0 {
      ExitBounds(c, k);
    }
    PrologueOk(c, Scopes(c)[k]);
    var popped := PrologueState(c).value;
    BranchToOk(popped, Scopes(c)[k]);
    GrowsAny(c, popped);
    GrowsAny(popped, BranchTo(popped, Scopes(c)[k]).value);
  }

  lemma TakenLinked(p: Program, c: CState, k: nat)
    requires Inv(c) && !c.block.polymorphic && k < |Scopes(c)|
    requires PrologueState(c).Some? && BranchTo(PrologueState(c).value, Scopes(c)[k]).Some?
    requires Linked(p, Define(BranchTo(PrologueState(c).value, Scopes(c)[k]).value, c.nextId))
    requires c.layout.fn < |p.codes|
    ensures Linked(p, BranchTo(PrologueState(c).value, Scopes(c)[k]).value)
    ensures var taken := BranchTo(PrologueState(c).value, Scopes(c)[k]).value;
      c.nextId in CodeFor(p, c).patched && CodeFor(p, c).patched[c.nextId] == PcOf(taken)
  {
    hide Inv, Grows, PrologueState, BranchTo, PcOf;
    PrologueStateOk(c, k);
    var taken := BranchTo(PrologueState(c).value, Scopes(c)[k]).value;
    var popped := PrologueState(c).value;
    UndefinedYet(c, popped, taken);
    assert c.nextId in Define(taken, c.nextId).patched;
  }

  /** A fresh reference is not in the patch table. */
  lemma UndefinedYet(c: CState, popped: CState, taken: CState)
    requires Inv(c) && PrologueState(c) == Some(popped) && !c.block.polymorphic
    requires taken.patched == popped.patched
    ensures c.nextId !in taken.patched
  {
    var cond, skip := c.stack[|c.stack| - 1].slot, Patched(c.nextId);
    var op := if IsAlias(cond) then PrologueR(skip) else PrologueS(cond, skip);
    assert popped.patched == c.patched;
  }

  /** The state behind a conditional operation that consumes the top operand and may jump to a fresh reference. */
  function Guarded(c: CState, op: Op): Option<CState> {
    Pop(Emit(FreshId(c), op))
  }

  /** `op` goes on when the word named by `cond` is true, and jumps to reference `id` otherwise. */
  predicate IsGuard(op: Op, cond: nat, id: nat) {
    if IsAlias(cond) then op == PrologueR(Patched(id)) || op == IfR(Patched(id))
    else op == PrologueS(cond, Patched(id)) || op == IfS(cond, Patched(id))
  }

  lemma GuardFetch(p: Program, c: CState, op: Op)
    requires Inv(c) && |c.stack| > c.block.base && Guarded(c, op).Some? && Linked(p, Guarded(c, op).value)
    ensures Fetch(p, PcOf(c)) == Some(op)
  {
    hide Inv, Grows, GrowsAnyPage, Linked, Emit, Pop;
    var named := FreshId(c);
    var emitted := Emit(named, op);
    FreshIdOk(c);
    EmitOk(named, op);
    EmitFacts(named, op);
    PopOk(emitted);
    GrowsAny(emitted, Pop(emitted).value);
    LinkedBefore(p, emitted, Pop(emitted).value);
    FetchEmitted(p, named, op);
  }

  lemma GuardAt(p: Program, c: CState, op: Op, s: State, locals: seq<Val>, mid: seq<Option<Val>>, stack: seq<Val>)
    requires Inv(c) && At(p, c, s, locals, mid, stack) && |stack| > 0 && s.Running? && Guarded(c, op).Some?
    ensures At(p, Guarded(c, op).value, s.(pc := s.pc.Next()), locals, mid, stack[..|stack| - 1])
  {
    hide Inv, At, Emit, Pop;
    var named := FreshId(c);
    var emitted := Emit(named, op);
    AtNamed(p, c, s, locals, mid, stack);
    FreshIdOk(c);
    EmitOk(named, op);
    AtSkip(p, named, op, s, s.(pc := s.pc.Next()), locals, mid, stack);
    AtPop(p, emitted, s.(pc := s.pc.Next()), locals, mid, stack);
  }

  lemma GuardStep(p: Program, c: CState, op: Op, s: State, locals: seq<Val>, mid: seq<Option<Val>>, stack: seq<Val>,
                  x: U32)
    requires Inv(c) && !c.block.polymorphic && At(p, c, s, locals, mid, stack)
    requires |stack| > 0 && stack[|stack| - 1] == V32(x)
    requires |c.stack| > 0 && IsGuard(op, c.stack[|c.stack| - 1].slot, c.nextId)
    requires Guarded(c, op).Some? && Linked(p, Guarded(c, op).value)
    requires c.layout.fn < |p.codes| && c.nextId in CodeFor(p, c).patched
    ensures s.Running?
    ensures var t := Step(p, s);
      var popped := Guarded(c, op).value;
      && Straight(p, s, 1, t)
      && (if x != 0 then At(p, popped, t, locals, mid, stack[..|stack| - 1])
          else t == s.(pc := CodeFor(p, c).patched[c.nextId])
               && At(p, popped, s.(pc := s.pc.Next()), locals, mid, stack[..|stack| - 1]))
  {
    hide Inv, Linked, At, PcOf, Guarded;
    AtSize(p, c, s, locals, mid, stack);
    GuardFetch(p, c, op);
    GuardAt(p, c, op, s, locals, mid, stack);
    OneStep(p, s);
    TopWord(p, c, s, locals, mid, stack, x);
    PcFn(c);
  }

  lemma AtNamed(p: Program, c: CState, s: State, locals: seq<Val>, mid: seq<Option<Val>>, stack: seq<Val>)
    requires At(p, c, s, locals, mid, stack)
    ensures At(p, FreshId(c), s, locals, mid, stack)
  {
  }

  /** Execution resumes behind the prologue when the branch is not taken. */
  lemma AtResumed(p: Program, popped: CState, taken: CState, id: nat, s: State, t: State, locals: seq<Val>,
                  mid: seq<Option<Val>>, stack: seq<Val>)
    requires s.Running? && At(p, popped, s.(pc := s.pc.Next()), locals, mid, stack)
    requires taken == popped.(pages := taken.pages) && t == s.(pc := PcOf(taken))
    ensures At(p, Define(taken, id), t, locals, mid, stack)
  {
  }

  // ----- br_if to a loop -----

  /** With the register free, loading it disturbs no operand. */
  lemma LoadedHolds(c: CState, vals: seq<Option<Val>>, sp: nat, m: Memory, r0: Word, r1: Word)
    requires Inv(c) && c.reg == 0 && StackHolds(c.stack, vals, sp, m, r0)
    ensures StackHolds(c.stack, vals, sp, m, r1)
  {
    hide Inv;
    NoOtherAlias(c, |c.stack|);
    forall i | 0 <= i < |c.stack|
      ensures EntryHolds(c.stack[i], vals[i], sp, m, r1)
    {
      assert EntryHolds(c.stack[i], vals[i], sp, m, r0);
    }
  }

  /** CopyStackTopToRegister: the condition is in the register, the operands are unchanged. */
  lemma CopyTopSim(p: Program, c: CState, s: State, vals: seq<Option<Val>>, v: Val) returns (n: nat, t: State)
    requires Inv(c) && CopyTopToRegister(c).Some? && Linked(p, CopyTopToRegister(c).value)
    requires Match(p, c, s, vals) && |vals| > 0 && vals[|vals| - 1] == Some(v)
    ensures Straight(p, s, n, t) && Match(p, CopyTopToRegister(c).value, t, vals) && Holds(t.r0, v)
  {
    hide Inv, Grows, GrowsAnyPage, Linked, StackHolds, ConstsHold, Emit, PcOf, PreserveRegister;
    MatchSize(p, c, s, vals);
    var e := c.stack[|c.stack| - 1];
    Operand(p, c, s, vals, |vals| - 1, v);
    if IsAlias(e.slot) {
      n, t := 0, s;
    } else {
      PreserveRegisterOk(c);
      var kept := PreserveRegister(c).value;
      var op := SetRegister(e.ty, e.slot);
      EmitOk(kept, op);
      EmitFacts(kept, op);
      GrowsAny(kept, Emit(kept, op));
      LinkedBefore(p, kept, Emit(kept, op));
      FetchEmitted(p, kept, op);
      var m, u := PreserveRegisterSim(p, c, s, vals);
      Operand(p, kept, u, vals, |vals| - 1, v);
      OneStep(p, u);
      n, t := m + 1, Step(p, u);
      LoadHolds(e.ty, Get(u.mem, u.sp + e.slot), v);
      LoadedHolds(kept, vals, u.sp, u.mem, u.r0, t.r0);
      StraightTrans(p, s, m, u, 1, t);
    }
  }

  /** The states of a conditional ContinueLoop. */
  ghost predicate LoopStates(c: CState, ready: CState, popped: CState) {
    CopyTopToRegister(c) == Some(ready) && Pop(ready) == Some(popped)
  }

  lemma LoopStatesOk(c: CState, ready: CState, popped: CState)
    requires Inv(c) && !c.block.polymorphic && LoopStates(c, ready, popped)
    ensures Good(c, ready) && Good(ready, popped) && Good(c, popped) && Inv(Emit(popped, OpReturn))
      && |ready.stack| == |c.stack|
    ensures |c.stack| > c.block.base && GrowsAnyPage(c, popped) && Inv(popped)
    ensures forall op ::
      GrowsAnyPage(ready, Emit(popped, op)) && GrowsAnyPage(popped, Emit(popped, op)) && Inv(Emit(popped, op))
  {
    hide Inv, Grows, GrowsAnyPage, Emit, CopyTopToRegister;
    CopyTopToRegisterOk(c);
    GoodFacts(c, ready);
    PopOk(ready);
    GoodTrans(c, ready, popped);
    GrowsAny(c, popped);
    EmitOk(popped, OpReturn);
    forall op
      ensures GrowsAnyPage(ready, Emit(popped, op)) && GrowsAnyPage(popped, Emit(popped, op)) && Inv(Emit(popped, op))
    {
      EmitOk(popped, op);
      GoodTrans(ready, popped, Emit(popped, op));
      GrowsAny(ready, Emit(popped, op));
      GrowsAny(popped, Emit(popped, op));
    }
  }

  lemma BrIfLoopSim(p: Program, c: CState, k: nat, s: State, locals: seq<Val>, mid: seq<Option<Val>>,
                    stack: seq<Val>, depths: seq<nat>, x: U32, ready: CState, popped: CState)
    returns (n: nat, t: State)
    requires Ready(p, c, s, locals, mid, stack, depths) && 0 < k < |Scopes(c)| && Scopes(c)[k].kind == LoopScope
    requires |stack| > 0 && stack[|stack| - 1] == V32(x)
    requires LoopStates(c, ready, popped) && Linked(p, Emit(popped, ContinueLoopIf(Scopes(c)[k].pc)))
    ensures t == Steps(p, n, s) && n > 0
    ensures var d := Emit(popped, ContinueLoopIf(Scopes(c)[k].pc));
      var below := stack[..|stack| - 1];
      if x != 0 then Landed(p, c, s, n, t, k, mid, depths, locals, below)
      else d.block == c.block && At(p, d, t, locals, mid, below) && Advance(p, c, s, n, t)
  {
    hide Inv, Grows, GrowsAnyPage, Linked, Ready, At, FramesOk, Outer, Match, StackHolds, ConstsHold, Landed,
      EndsKnown, Emit, PcOf, Pop, CopyTopToRegister;
    ReadyFacts(p, c, s, locals, mid, stack, depths);
    var below := stack[..|stack| - 1];
    var vals := Vals(locals, mid, stack);
    LoopStatesOk(c, ready, popped);
    var op := ContinueLoopIf(Scopes(c)[k].pc);
    var d := Emit(popped, op);
    LinkedBefore(p, ready, d);
    FetchEmitted(p, popped, op);
    assert vals[|vals| - 1] == Some(V32(x));
    var m, u := CopyTopSim(p, c, s, vals, V32(x));
    GoodFacts(c, ready);
    GoodFacts(c, popped);
    AtFrom(p, ready, u, locals, mid, stack);
    AtPop(p, ready, u, locals, mid, stack);
    AtSize(p, popped, u, locals, mid, below);
    StraightAdvance(p, c, s, m, u);
    ReadyLater(p, c, popped, s, m, u, locals, mid, below, depths);
    ReadyFacts(p, popped, u, locals, mid, below, depths);
    ScopesSame(c, popped);
    OneStep(p, u);
    StraightThen(p, s, m, u);
    n, t := m + 1, Step(p, u);
    if x != 0 {
      ContinueSim(p, popped, k, u, locals, mid, below, depths);
      LandedLoop(p, popped, k, u, t, locals, mid, below, depths);
      LandedLift(p, c, popped, s, m, u, 1, t, k, mid, depths, locals, below);
    } else {
      AtSkip(p, popped, op, u, t, locals, mid, below);
      AdvanceStep(p, c, s, m, u, t);
      EmitFacts(popped, op);
    }
  }

  lemma AtFrom(p: Program, c: CState, s: State, locals: seq<Val>, mid: seq<Option<Val>>, stack: seq<Val>)
    requires Match(p, c, s, Vals(locals, mid, stack)) && |locals| == |c.layout.locals|
    requires |mid| + |c.layout.locals| == c.block.base
    ensures At(p, c, s, locals, mid, stack)
  {
  }

  lemma LandedLoop(p: Program, c: CState, k: nat, s: State, t: State, locals: seq<Val>, mid: seq<Option<Val>>,
                   stack: seq<Val>, depths: seq<nat>)
    requires k < |Scopes(c)| == |depths| && Scopes(c)[k].kind == LoopScope && s.Running? && t == Steps(p, 1, s)
    requires t.Running? && t.pc == Scopes(c)[k].pc && t.sp == s.sp && t.mem == s.mem
    requires depths[k] <= |s.frames| && t.frames == s.frames[..depths[k]]
    requires Outer(p, c, Scopes(c)[k].exit, t, locals, mid)
    ensures Landed(p, c, s, 1, t, k, mid, depths, locals, stack)
  {
  }

  lemma AdvanceStep(p: Program, c: CState, s: State, n: nat, u: State, t: State)
    requires Advance(p, c, s, n, u) && t == Step(p, u) && t.Running? && t == u.(pc := t.pc)
    ensures Advance(p, c, s, n + 1, t)
  {
    StepsCompose(p, n, 1, s);
    OneStep(p, u);
  }

  // ----- br_if -----

  lemma BrIfSim(p: Program, c: CState, depth: nat, s: State, locals: seq<Val>, mid: seq<Option<Val>>, stack: seq<Val>,
                depths: seq<nat>, fuel: nat, x: U32)
    returns (n: nat, t: State)
    requires Ready(p, c, s, locals, mid, stack, depths)
    requires |stack| > 0 && stack[|stack| - 1] == V32(x)
    requires CompileBrIf(c, depth).Some? && Linked(p, CompileBrIf(c, depth).value)
    ensures var below := stack[..|stack| - 1];
      Sim(p, c, CompileBrIf(c, depth).value, s, n, t, mid, depths,
          if x != 0 then Branching(depth, locals, below) else Normal(locals, below), fuel)
  {
    hide Inv, Grows, GrowsAnyPage, Linked, Ready, At, FramesOk, Landed, Emit, EndsKnown, Pop, CopyTopToRegister,
      BranchTo, Define;
    ReadyFacts(p, c, s, locals, mid, stack, depths);
    ScopeAtOk(c, depth);
    var k := |Scopes(c)| - 1 - depth;
    ScopeKinds(c, k);
    var target := Scopes(c)[k];
    if target.kind == LoopScope {
      var ready := CopyTopToRegister(c).value;
      var popped := Pop(ready).value;
      n, t := BrIfLoopSim(p, c, k, s, locals, mid, stack, depths, x, ready, popped);
    } else if |target.results| > 0 || target.kind == FuncScope {
      n, t := BrIfPrologueSim(p, c, k, s, locals, mid, stack, depths, x);
    } else {
      t := BrIfBlockSim(p, c, k, s, locals, mid, stack, depths, x);
      n := 1;
    }
  }

  // ----- br_table -----

  lemma FramesSame(p: Program, c: CState, d: CState, sp: nat, frames: seq<Frame>, depths: seq<nat>)
    requires Scopes(d) == Scopes(c) && d.layout == c.layout && FramesOk(c, sp, frames, depths) && EndsKnown(p, c)
    ensures FramesOk(d, sp, frames, depths) && EndsKnown(p, d)
  {
  }

  /** Moving to another code address leaves the operands where they are. */
  lemma AtElsewhere(p: Program, c: CState, d: CState, s: State, t: State, locals: seq<Val>, mid: seq<Option<Val>>,
                    stack: seq<Val>)
    requires At(p, c, s, locals, mid, stack)
    requires d.layout == c.layout && d.block == c.block && d.stack == c.stack
    requires t == s.(pc := PcOf(d))
    ensures At(p, d, t, locals, mid, stack)
  {
  }

  lemma LinkedPage(p: Program, d: CState, page: nat)
    requires Linked(p, d.(page := page))
    ensures Linked(p, d)
  {
  }

  /** The code of the last target, on its own page. */
  lemma TrampolineSim(p: Program, c: CState, k: nat, s: State, locals: seq<Val>, mid: seq<Option<Val>>, stack: seq<Val>,
                      depths: seq<nat>)
    returns (n: nat, t: State)
    requires Inv(c) && !c.block.polymorphic && EndsKnown(p, c) && k < |Scopes(c)|
    requires var onNew := c.(pages := c.pages + [[]], page := |c.pages|);
      && BranchTo(onNew, Scopes(c)[k]).Some?
      && Linked(p, BranchTo(onNew, Scopes(c)[k]).value.(page := c.page))
      && s.Running? && s.pc == PcOf(onNew) && At(p, c, s.(pc := PcOf(c)), locals, mid, stack)
    requires FramesOk(c, s.sp, s.frames, depths)
    ensures Landed(p, c, s, n, t, k, mid, depths, locals, stack) && n > 0
  {
    hide Inv, Grows, GrowsAnyPage, Linked, At, FramesOk, Landed, BranchTo, EndsKnown, PcOf;
    var onNew := c.(pages := c.pages + [[]], page := |c.pages|);
    NewPageOk(c);
    LinkedPage(p, BranchTo(onNew, Scopes(c)[k]).value, c.page);
    FramesSame(p, c, onNew, s.sp, s.frames, depths);
    AtElsewhere(p, c, onNew, s.(pc := PcOf(c)), s, locals, mid, stack);
    n, t := BranchToSim(p, onNew, k, s, locals, mid, stack, depths);
    DepthCount(c, s.sp, s.frames, depths);
    StandStill(p, c, s);
    LandedLift(p, c, onNew, s, 0, s, n, t, k, mid, depths, locals, stack);
  }

  lemma DepthCount(c: CState, sp: nat, frames: seq<Frame>, depths: seq<nat>)
    requires FramesOk(c, sp, frames, depths)
    ensures |depths| == |Scopes(c)|
  {
  }

  lemma StandStill(p: Program, c: CState, s: State)
    requires s.Running?
    ensures Advance(p, c, s, 0, s)
  {
  }

  lemma {:induction false} TargetSim(p: Program, c: CState, ds: seq<nat>, j: nat, s: State, locals: seq<Val>,
                                     mid: seq<Option<Val>>, stack: seq<Val>, depths: seq<nat>)
    returns (n: nat, t: State)
    requires Inv(c) && !c.block.polymorphic && EndsKnown(p, c) && j < |ds|
    requires CompileTargets(c, ds).Some? && Linked(p, CompileTargets(c, ds).value.0)
    requires |CompileTargets(c, ds).value.1| == |ds|
    requires s.Running? && s.pc == CompileTargets(c, ds).value.1[j] && At(p, c, s.(pc := PcOf(c)), locals, mid, stack)
    requires FramesOk(c, s.sp, s.frames, depths) && |depths| == |Scopes(c)|
    ensures ds[j] < |Scopes(c)| && n > 0
    ensures Landed(p, c, s, n, t, |Scopes(c)| - 1 - ds[j], mid, depths, locals, stack)
    decreases |ds|
  {
    hide Inv, Grows, GrowsAnyPage, Linked, At, FramesOk, Landed, BranchTo, EndsKnown, PcOf;
    var last := |ds| - 1;
    var rest := ds[..last];
    TargetsOk(c, rest);
    var (s0, pcs0) := CompileTargets(c, rest).value;
    GrowsAny(c, s0);
    ScopeAtOk(s0, ds[last]);
    ScopesSame(c, s0);
    var k := |Scopes(c)| - 1 - ds[last];
    ScopeKinds(s0, k);
    ScopesSmall(s0, k);
    TrampolineOk(s0, Scopes(c)[k]);
    if j == last {
      FramesSame(p, c, s0, s.sp, s.frames, depths);
      AtElsewhere(p, c, s0, s.(pc := PcOf(c)), s.(pc := PcOf(s0)), locals, mid, stack);
      n, t := TrampolineSim(p, s0, k, s, locals, mid, stack, depths);
      StandStill(p, c, s);
      LandedLift(p, c, s0, s, 0, s, n, t, k, mid, depths, locals, stack);
    } else {
      var done := CompileTargets(c, ds).value.0;
      GrowsAny(s0, done);
      LinkedBefore(p, s0, done);
      n, t := TargetSim(p, c, rest, j, s, locals, mid, stack, depths);
    }
  }

  lemma ScopesSmall(c: CState, k: nat)
    requires Inv(c) && k < |Scopes(c)|
    ensures Scopes(c)[k].kind != FuncScope ==> |Scopes(c)[k].results| <= 1
  {
    assert ScopeOk(c, k);
  }

  /** The states of CompileBrTable. */
  lemma TableShape(c: CState, targets: seq<nat>, default: nat)
    returns (ready: CState, popped: CState, done: CState, pcs: seq<PC>)
    requires Inv(c) && !c.block.polymorphic && CompileBrTable(c, targets, default).Some?
    ensures PreserveRegister(c) == Some(ready) && Pop(ready) == Some(popped)
      && |ready.stack| == |c.stack| > c.block.base
    ensures CompileTargets(popped, targets + [default]) == Some((done, pcs)) && |pcs| == |targets| + 1
    ensures var op := BranchTable(ready.stack[|ready.stack| - 1].slot, pcs);
      Inv(Emit(done, op)) && GrowsAnyPage(done, Emit(done, op))
          && Ended(Emit(done, op), CompileBrTable(c, targets, default).value)
    ensures Inv(ready) && ready.reg == 0 && Good(c, ready) && Good(ready, popped) && Good(popped, done)
      && Good(c, popped)
    ensures PcOf(done) == PcOf(popped) && !popped.block.polymorphic
  {
    hide Inv, Grows, GrowsAnyPage, Ended, PreserveRegister, Pop, CompileTargets, SetPolymorphic, PcOf;
    ready := PreserveRegister(c).value;
    PreserveRegisterOk(c);
    TableOperandOk(c);
    popped := Pop(ready).value;
    GoodFacts(c, popped);
    GoodFacts(c, ready);
    PoppedSome(ready);
    PopOk(ready);
    TargetsOk(popped, targets + [default]);
    done := CompileTargets(popped, targets + [default]).value.0;
    pcs := CompileTargets(popped, targets + [default]).value.1;
    var op := BranchTable(ready.stack[|ready.stack| - 1].slot, pcs);
    EmitOk(done, op);
    GrowsAny(done, Emit(done, op));
    SetPolymorphicOk(Emit(done, op));
  }

  lemma PoppedSome(c: CState)
    requires !c.block.polymorphic && Pop(c).Some?
    ensures |c.stack| > c.block.base
  {
  }

  /** The operand of br_table is moved to a slot and popped. */
  lemma TableOperandSim(p: Program, c: CState, ready: CState, popped: CState, s: State, locals: seq<Val>,
                        mid: seq<Option<Val>>, stack: seq<Val>, x: U32)
    returns (m: nat, u: State)
    requires Inv(c) && At(p, c, s, locals, mid, stack) && |stack| > 0 && stack[|stack| - 1] == V32(x)
    requires PreserveRegister(c) == Some(ready) && Pop(ready) == Some(popped) && |ready.stack| == |c.stack|
    requires Linked(p, ready) && Good(c, ready)
    ensures Straight(p, s, m, u) && At(p, popped, u, locals, mid, stack[..|stack| - 1])
    ensures var cond := ready.stack[|ready.stack| - 1].slot; !IsAlias(cond) && ValueAt(cond, u.sp, u.mem, u.r0).lo == x
  {
    hide Inv, Grows, Linked, At, Match, PreserveRegister, Pop, Vals;
    AtSize(p, c, s, locals, mid, stack);
    AtParts(p, c, s, locals, mid, stack);
    m, u := PreserveRegisterSim(p, c, s, Vals(locals, mid, stack));
    PreserveRegisterOk(c);
    GoodFacts(c, ready);
    AtFrom(p, ready, u, locals, mid, stack);
    TopWord(p, ready, u, locals, mid, stack, x);
    AtPop(p, ready, u, locals, mid, stack);
    NoOtherAlias(ready, |ready.stack|);
  }

  lemma AtParts(p: Program, c: CState, s: State, locals: seq<Val>, mid: seq<Option<Val>>, stack: seq<Val>)
    requires At(p, c, s, locals, mid, stack)
    ensures Match(p, c, s, Vals(locals, mid, stack)) && |locals| == |c.layout.locals|
    ensures |mid| + |c.layout.locals| == c.block.base
  {
  }

  /** The code of br_table is in the program, up to the table itself. */
  lemma TableLinked(p: Program, ready: CState, popped: CState, done: CState, op: Op, result: CState)
    requires Inv(ready) && Good(ready, popped) && Good(popped, done)
    requires Inv(Emit(done, op)) && GrowsAnyPage(done, Emit(done, op)) && Ended(Emit(done, op), result)
    requires Linked(p, result)
    ensures Linked(p, ready) && Linked(p, popped) && Linked(p, done) && Fetch(p, PcOf(done)) == Some(op)
  {
    hide Inv, Grows, GrowsAnyPage, Ended, Linked, PcOf, Emit, Fetch;
    GoodFacts(ready, popped);
    GoodFacts(popped, done);
    LinkedEnded(p, Emit(done, op), result);
    LinkedBefore(p, done, Emit(done, op));
    GrowsAny(popped, done);
    LinkedBefore(p, popped, done);
    GrowsAny(ready, popped);
    LinkedBefore(p, ready, popped);
    FetchEmitted(p, done, op);
  }

  lemma BrTableSim(p: Program, c: CState, targets: seq<nat>, default: nat, s: State, locals: seq<Val>,
                   mid: seq<Option<Val>>, stack: seq<Val>, depths: seq<nat>, fuel: nat, x: U32)
    returns (n: nat, t: State)
    requires Ready(p, c, s, locals, mid, stack, depths) && |stack| > 0 && stack[|stack| - 1] == V32(x)
    requires CompileBrTable(c, targets, default).Some? && Linked(p, CompileBrTable(c, targets, default).value)
    ensures Sim(p, c, CompileBrTable(c, targets, default).value, s, n, t, mid, depths,
                Branching(if x < |targets| then targets[x] else default, locals, stack[..|stack| - 1]), fuel)
  {
    hide Inv, Grows, GrowsAnyPage, Ended, Linked, Ready, At, FramesOk, Landed, EndsKnown, PcOf, Emit, Pop,
      PreserveRegister,
      CompileTargets, CompileBrTable, Match, Vals, Straight;
    ReadyFacts(p, c, s, locals, mid, stack, depths);
    var below := stack[..|stack| - 1];
    var ready, popped, done, pcs := TableShape(c, targets, default);
    var op := BranchTable(ready.stack[|ready.stack| - 1].slot, pcs);
    TableLinked(p, ready, popped, done, op, CompileBrTable(c, targets, default).value);
    var m, u := TableOperandSim(p, c, ready, popped, s, locals, mid, stack, x);
    StraightAdvance(p, c, s, m, u);
    GrowsAny(c, popped);
    var j := if x < |targets| then x else |targets|;
    AtSize(p, popped, u, locals, mid, below);
    TableStep(p, done, u, ready.stack[|ready.stack| - 1].slot, pcs, x, j);
    ReadyLater(p, c, popped, s, m, u, locals, mid, below, depths);
    var q, v := TableJumpSim(p, popped, targets + [default], done, pcs, j, u, locals, mid, below, depths);
    ScopesSame(c, popped);
    var k := |Scopes(c)| - 1 - (targets + [default])[j];
    LandedLift(p, c, popped, s, m, u, q, v, k, mid, depths, locals, below);
    n, t := m + q, v;
    LandedSteps(p, c, s, n, t, k, mid, depths, locals, below);
  }

  /** From the table operation to the landing of the chosen target. */
  lemma TableJumpSim(p: Program, c: CState, ds: seq<nat>, done: CState, pcs: seq<PC>, j: nat, s: State,
                     locals: seq<Val>,
                     mid: seq<Option<Val>>, stack: seq<Val>, depths: seq<nat>)
    returns (n: nat, t: State)
    requires Ready(p, c, s, locals, mid, stack, depths) && CompileTargets(c, ds) == Some((done, pcs)) && Linked(p, done)
    requires j < |ds| == |pcs| && s.Running? && Step(p, s) == s.(pc := pcs[j]) && |depths| == |Scopes(c)|
    ensures ds[j] < |Scopes(c)| && n > 0
    ensures Landed(p, c, s, n, t, |Scopes(c)| - 1 - ds[j], mid, depths, locals, stack)
  {
    hide Inv, Linked, Ready, At, FramesOk, Landed, EndsKnown, PcOf, CompileTargets, Step;
    ReadyFacts(p, c, s, locals, mid, stack, depths);
    var w := s.(pc := pcs[j]);
    assert w.(pc := PcOf(c)) == s;
    var q, v := TargetSim(p, c, ds, j, w, locals, mid, stack, depths);
    JumpLanded(p, c, s, w, q, v, |Scopes(c)| - 1 - ds[j], mid, depths, locals, stack);
    n, t := 1 + q, v;
  }

  /** The table picks its target; anything out of range takes the default. */
  lemma TableStep(p: Program, c: CState, s: State, cond: nat, pcs: seq<PC>, x: U32, j: nat)
    requires s.Running? && s.pc == PcOf(c) && Fetch(p, PcOf(c)) == Some(BranchTable(cond, pcs))
    requires !IsAlias(cond) && ValueAt(cond, s.sp, s.mem, s.r0).lo == x
    requires |pcs| > 0 && j == if x < |pcs| - 1 then x else |pcs| - 1
    ensures Step(p, s) == s.(pc := pcs[j])
  {
  }

  /** A jump within the frame, then a landing. */
  lemma JumpLanded(p: Program, c: CState, s: State, t: State, n: nat, u: State, k: nat, mid: seq<Option<Val>>,
                   depths: seq<nat>, locals: seq<Val>, stack: seq<Val>)
    requires k < |Scopes(c)| == |depths| && s.Running? && t == Step(p, s) && t.Running? && t == s.(pc := t.pc)
    requires Landed(p, c, t, n, u, k, mid, depths, locals, stack)
    ensures Landed(p, c, s, 1 + n, u, k, mid, depths, locals, stack)
  {
    hide Outer, AtLanding, Unwind;
    assert Steps(p, 1 + n, s) == Steps(p, n, t);
    var sc := Scopes(c)[k];
    if sc.kind == FuncScope && HasTop(stack, sc.results) {
      ReturnedLift(s, t, u, depths[0], Top(stack, |sc.results|));
    }
  }
}
