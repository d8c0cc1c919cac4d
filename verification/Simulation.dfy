/** Branches, returns and traps of one instruction, related to the interpreter's outcomes. */
module Simulation {
  import opened Words
  import opened IntegerOps
  import opened Wasm
  import opened Machine
  import opened Allocator
  import opened Compiler
  import opened Invariant
  import opened CompilerInvariant
  import opened Relation
  import opened OperatorSimulation
  import opened Control

  /** The machine gave up for lack of stack slots: the one behaviour the source does not have. */
  ghost predicate Overflowed(t: State) {
    t.Halted? && t.ret == Trap(StackOverflow)
  }

  /** After `n` steps from `s`, where code from `c` to `d` starts, the machine has done what the interpreter did. */
  ghost predicate Sim(p: Program, c: CState, d: CState, s: State, n: nat, t: State, mid: seq<Option<Val>>,
                      depths: seq<nat>, o: Outcome, fuel: nat)
    requires |depths| == |Scopes(c)|
  {
    && s.Running? && t == Steps(p, n, s)
    && (Overflowed(t) ||
        match o
        case Normal(locals, stack) =>
          d.block == c.block && At(p, d, t, locals, mid, stack) && Advance(p, c, s, n, t)
        case Branching(k, locals, stack) =>
          n > 0 && (k < |Scopes(c)| ==> Landed(p, c, s, n, t, |Scopes(c)| - 1 - k, mid, depths, locals, stack))
        case Returning(stack) =>
          var ts := Scopes(c)[0].results;
          HasTop(stack, ts) ==> ReturnedWith(s, t, depths[0], Top(stack, |ts|))
        case Trapping(kind) => t.Halted? && t.ret == Trap(kind)
        case OutOfFuel => n >= fuel && t.Running?
        case Stuck => true)
  }

  /** The state in which an instruction is simulated. */
  ghost predicate Ready(p: Program, c: CState, s: State, locals: seq<Val>, mid: seq<Option<Val>>, stack: seq<Val>,
                        depths: seq<nat>) {
    && Inv(c) && !c.block.polymorphic && EndsKnown(p, c)
    && At(p, c, s, locals, mid, stack)
    && FramesOk(c, s.sp, s.frames, depths)
  }

  lemma ReadyFacts(p: Program, c: CState, s: State, locals: seq<Val>, mid: seq<Option<Val>>, stack: seq<Val>,
                   depths: seq<nat>)
    requires Ready(p, c, s, locals, mid, stack, depths)
    ensures Inv(c) && !c.block.polymorphic && |depths| == |Scopes(c)| && s.Running? && depths[0] <= |s.frames|
    ensures |c.stack| == c.block.base + |stack| == |Vals(locals, mid, stack)| && s.pc == PcOf(c)
    ensures Match(p, c, s, Vals(locals, mid, stack)) && c.layout.fn < |p.codes| && |locals| == |c.layout.locals|
    ensures |mid| + |c.layout.locals| == c.block.base && At(p, c, s, locals, mid, stack)
    ensures FramesOk(c, s.sp, s.frames, depths) && EndsKnown(p, c) && OnlyLoops(s.frames, depths[0])
  {
    AtSize(p, c, s, locals, mid, stack);
  }

  /** Everything carries over to a later state of the same block. */
  lemma ReadyLater(p: Program, c: CState, d: CState, s: State, n: nat, t: State, locals: seq<Val>,
                   mid: seq<Option<Val>>,
                   stack: seq<Val>, depths: seq<nat>)
    requires Inv(c) && EndsKnown(p, c) && s.Running? && FramesOk(c, s.sp, s.frames, depths) && !c.block.polymorphic
    requires Inv(d) && GrowsAnyPage(c, d) && Advance(p, c, s, n, t) && At(p, d, t, locals, mid, stack)
    ensures Ready(p, d, t, locals, mid, stack, depths)
  {
    assert Scopes(d) == Scopes(c);
    FramesAdvance(p, c, d, s, n, t, depths);
  }

  /** A simulation continued from a later state counts from the earlier one. */
  lemma SimLift(p: Program, c: CState, c1: CState, d: CState, s: State, m: nat, t: State, n: nat, u: State,
                mid: seq<Option<Val>>, depths: seq<nat>, o: Outcome, fuel: nat, fuel1: nat)
    requires Inv(c) && GrowsAnyPage(c, c1) && Advance(p, c, s, m, t) && FramesOk(c, s.sp, s.frames, depths)
    requires Sim(p, c1, d, t, n, u, mid, depths, o, fuel1) && fuel <= m + fuel1
    ensures Sim(p, c, d, s, m + n, u, mid, depths, o, fuel)
  {
    hide Inv, GrowsAnyPage, Landed, ReturnedWith, At, Advance, FramesOk;
    StepsCompose(p, m, n, s);
    ScopesSame(c, c1);
    LiftFacts(p, c, s, m, t, depths);
    if !Overflowed(u) {
      match o
      case Normal(_, _) => AdvanceTrans(p, c, c1, s, m, t, n, u);
      case Branching(k, locals, stack) =>
        if k < |Scopes(c)| {
          LandedLift(p, c, c1, s, m, t, n, u, |Scopes(c)| - 1 - k, mid, depths, locals, stack);
        }
      case Returning(stack) =>
        var ts := Scopes(c)[0].results;
        if HasTop(stack, ts) {
          ReturnedLift(s, t, u, depths[0], Top(stack, |ts|));
        }
      case _ =>
    }
  }

  lemma ScopesSame(c: CState, d: CState)
    requires GrowsAnyPage(c, d)
    ensures Scopes(c) == Scopes(d) && d.block == c.block && d.layout == c.layout
  {
  }

  lemma LiftFacts(p: Program, c: CState, s: State, m: nat, t: State, depths: seq<nat>)
    requires Advance(p, c, s, m, t) && FramesOk(c, s.sp, s.frames, depths)
    ensures s.Running? && t.Running? && t.sp == s.sp && Below(s.sp, s.mem, t.mem) && t == Steps(p, m, s)
    ensures |depths| == |Scopes(c)| && depths[0] <= |s.frames| && s.frames <= t.frames
  {
  }

  // ----- jumps -----

  /** Code that was linked before its block was closed off. */
  lemma LinkedEnded(p: Program, c: CState, d: CState)
    requires Inv(c) && Ended(c, d) && Linked(p, d)
    ensures Linked(p, c)
  {
    LinkedBefore(p, c, d.(block := c.block));
  }

  lemma BrSim(p: Program, c: CState, depth: nat, s: State, locals: seq<Val>, mid: seq<Option<Val>>, stack: seq<Val>,
              depths: seq<nat>, fuel: nat)
    returns (n: nat, t: State)
    requires Ready(p, c, s, locals, mid, stack, depths)
    requires CompileBr(c, depth).Some? && Linked(p, CompileBr(c, depth).value)
    ensures Sim(p, c, CompileBr(c, depth).value, s, n, t, mid, depths, Branching(depth, locals, stack), fuel)
  {
    hide Inv, Grows, GrowsAnyPage, Ended, Linked, Ready, At, FramesOk, Landed, Emit, SetPolymorphic, EndsKnown;
    ReadyFacts(p, c, s, locals, mid, stack, depths);
    ScopeAtOk(c, depth);
    var k := |Scopes(c)| - 1 - depth;
    var target := ScopeAt(c, depth).value;
    if target.kind == LoopScope {
      ScopeKinds(c, k);
      LinkedMarked(p, Emit(c, ContinueLoop(target.pc)), c.block.(polymorphic := true));
      BranchLoopSim(p, c, k, s, locals, mid, stack, depths);
      n, t := 1, Step(p, s);
      OneStep(p, s);
    } else {
      BranchToOk(c, target);
      var gone := BranchTo(c, target).value;
      SetPolymorphicOk(gone);
      LinkedEnded(p, gone, SetPolymorphic(gone).value);
      n, t := BranchToSim(p, c, k, s, locals, mid, stack, depths);
      LandedSteps(p, c, s, n, t, k, mid, depths, locals, stack);
    }
  }

  lemma LandedSteps(p: Program, c: CState, s: State, n: nat, t: State, k: nat, mid: seq<Option<Val>>,
                    depths: seq<nat>, locals: seq<Val>, stack: seq<Val>)
    requires k < |Scopes(c)| == |depths| && Landed(p, c, s, n, t, k, mid, depths, locals, stack)
    ensures s.Running? && t == Steps(p, n, s)
  {
  }

  lemma LinkedMarked(p: Program, c: CState, block: Scope)
    requires Linked(p, c.(block := block))
    ensures Linked(p, c)
  {
  }

  lemma ReturnInstrSim(p: Program, c: CState, s: State, locals: seq<Val>, mid: seq<Option<Val>>, stack: seq<Val>,
                       depths: seq<nat>, fuel: nat)
    returns (n: nat, t: State)
    requires Ready(p, c, s, locals, mid, stack, depths)
    requires CompileReturn(c).Some? && Linked(p, CompileReturn(c).value)
    ensures Sim(p, c, CompileReturn(c).value, s, n, t, mid, depths, Returning(stack), fuel)
  {
    hide Inv, Grows, GrowsAnyPage, Ended, Linked, Ready, At, FramesOk, Emit, SetPolymorphic, EndsKnown, ReturnedWith;
    ReadyFacts(p, c, s, locals, mid, stack, depths);
    var results := Scopes(c)[0].results;
    ScopeKinds(c, 0);
    ReturnValuesOk(c, results);
    var ready := ReturnValues(c, results, true).value;
    EmitOk(ready, OpReturn);
    SetPolymorphicOk(Emit(ready, OpReturn));
    LinkedEnded(p, Emit(ready, OpReturn), CompileReturn(c).value);
    n, t := ReturnSim(p, c, results, s, locals, mid, stack, depths[0]);
  }

  lemma UnreachableSim(p: Program, c: CState, s: State, locals: seq<Val>, mid: seq<Option<Val>>, stack: seq<Val>,
                       depths: seq<nat>, fuel: nat)
    returns (n: nat, t: State)
    requires Ready(p, c, s, locals, mid, stack, depths)
    requires CompileUnreachable(c).Some? && Linked(p, CompileUnreachable(c).value)
    ensures Sim(p, c, CompileUnreachable(c).value, s, n, t, mid, depths, Trapping(TrapKind.Unreachable), fuel)
  {
    hide Inv, Grows, GrowsAnyPage, Ended, Linked, Ready, At, FramesOk, Emit, SetPolymorphic, EndsKnown;
    ReadyFacts(p, c, s, locals, mid, stack, depths);
    EmitOk(c, OpUnreachable);
    SetPolymorphicOk(Emit(c, OpUnreachable));
    LinkedEnded(p, Emit(c, OpUnreachable), CompileUnreachable(c).value);
    FetchEmitted(p, c, OpUnreachable);
    OneStep(p, s);
    n, t := 1, Step(p, s);
    UnwindTrap(TrapKind.Unreachable, s.mem, s.frames);
  }
}
