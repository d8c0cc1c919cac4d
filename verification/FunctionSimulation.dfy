/** The first and the last operation of a function: op_Entry sets up the frame that CompileFunction laid out, and the
    final op_Return leaves the results where the caller looks for them.
 */
module FunctionSimulation {
  import opened Words
  import opened Wasm
  import opened Machine
  import opened Allocator
  import opened Compiler
  import opened Invariant
  import opened CompilerInvariant
  import opened BlockInvariant
  import opened Relation
  import opened OperatorSimulation
  import opened Control
  import opened Simulation
  import opened BranchSimulation
  import opened CallSimulation

  // ----- op_Entry -----

  /** The frame after op_Entry: arguments untouched, the other locals zero, the constants behind them. */
  lemma EntryMemory(k: Code, sp: nat, mem: Memory, numRets: nat, args: seq<Val>, types: seq<ValType>)
    requires k.numRetAndArgSlots == numRets + |args| && k.slotFirstConst == k.numRetAndArgSlots + |types|
    requires ArgsIn(mem, sp + numRets, args)
    ensures var zeroed := Fill(mem, sp + k.numRetAndArgSlots, seq(|types|, _ => ZERO));
      var m := Fill(zeroed, sp + k.slotFirstConst, k.consts);
      && ArgsIn(m, sp + numRets, args + Zeros(types)) && Below(sp, mem, m)
      && forall i :: 0 <= i < |k.consts| ==> Get(m, sp + k.slotFirstConst + i) == k.consts[i]
  {
    var zeroed := Fill(mem, sp + k.numRetAndArgSlots, seq(|types|, _ => ZERO));
    var m := Fill(zeroed, sp + k.slotFirstConst, k.consts);
    var locals := args + Zeros(types);
    forall i | 0 <= i < |locals|
      ensures Holds(Get(m, sp + numRets + i), locals[i])
    {
      if i >= |args| {
        var j := i - |args|;
        assert sp + numRets + i == sp + k.numRetAndArgSlots + j;
        assert seq(|types|, _ => ZERO)[j] == ZERO;
        assert Get(zeroed, sp + k.numRetAndArgSlots + j) == ZERO;
        assert locals[i] == Zero(types[j]);
      }
    }
  }

  /** The homes of the locals are the slots op_Entry filled. */
  lemma HomesHold(start: CState, fn: nat, f: Func, reserved: nat, sp: nat, mem: Memory, r0: Word, locals: seq<Val>)
    requires InitialState(fn, f, reserved) == Some(start)
    requires ArgsIn(mem, sp + |f.results|, locals) && TypesOf(locals) == f.params + f.locals
    ensures StackHolds(start.stack, Vals(locals, [], []), sp, mem, r0)
  {
    assert Vals(locals, [], []) == Somes(locals);
    forall i | 0 <= i < |start.stack|
      ensures EntryHolds(start.stack[i], Vals(locals, [], [])[i], sp, mem, r0)
    {
      assert Holds(Get(mem, sp + |f.results| + i), locals[i]);
      assert TypesOf(locals)[i] == start.stack[i].ty;
    }
  }

  /** op_Entry overflows exactly when the frame would reach the end of the stack; otherwise it sets up the frame. */
  lemma EntrySim(p: Program, fn: nat, f: Func, reserved: nat, start: CState, s: State, args: seq<Val>)
    requires InitialState(fn, f, reserved) == Some(start) && Linked(p, start)
    requires p.codes[fn].numRetAndArgSlots == |f.results| + |f.params|
    requires s.Running? && s.pc == PC(fn, 0, 0) && ArgsIn(s.mem, s.sp + |f.results|, args) && TypesOf(args) == f.params
    ensures var t := Step(p, s);
      if s.sp + p.codes[fn].maxStackSlots >= p.stackSlots then Overflowed(t)
      else Straight(p, s, 1, t) && Ready(p, start, t, args + Zeros(f.locals), [], [], [|s.frames|])
  {
    hide StackHolds, ArgsIn, Inv, Ready, Linked, Fill, Zeros;
    EntryFetch(p, fn, f, reserved, start);
    OneStep(p, s);
    var t := Step(p, s);
    var k := p.codes[fn];
    if s.sp + k.maxStackSlots >= p.stackSlots {
      UnwindTrap(StackOverflow, s.mem, s.frames);
    } else {
      EntryMemory(k, s.sp, s.mem, |f.results|, args, f.locals);
      EntryReady(p, fn, f, reserved, start, t, args + Zeros(f.locals));
    }
  }

  lemma EntryFetch(p: Program, fn: nat, f: Func, reserved: nat, start: CState)
    requires InitialState(fn, f, reserved) == Some(start) && Linked(p, start)
    ensures Fetch(p, PC(fn, 0, 0)) == Some(OpEntry) && fn < |p.codes|
    ensures p.codes[fn].slotFirstConst == |f.results| + |f.params| + |f.locals|
    ensures PcOf(start) == PC(fn, 0, 1)
  {
    assert start.pages[0] <= p.codes[fn].pages[0];
    assert start.pages[0][0] == OpEntry;
  }

  lemma EntryReady(p: Program, fn: nat, f: Func, reserved: nat, start: CState, t: State, locals: seq<Val>)
    requires InitialState(fn, f, reserved) == Some(start) && fn < |p.codes|
    requires p.codes[fn].slotFirstConst == |f.results| + |f.params| + |f.locals|
    requires t.Running? && t.pc == PC(fn, 0, 1)
    requires ArgsIn(t.mem, t.sp + |f.results|, locals) && TypesOf(locals) == f.params + f.locals
    requires forall i :: 0 <= i < |p.codes[fn].consts| ==>
      Get(t.mem, t.sp + p.codes[fn].slotFirstConst + i) == p.codes[fn].consts[i]
    ensures Ready(p, start, t, locals, [], [], [|t.frames|])
  {
    hide StackHolds, ArgsIn, Inv;
    InitialOk(fn, f, reserved);
    HomesHold(start, fn, f, reserved, t.sp, t.mem, t.r0, locals);
    assert ConstsHold(p, start.layout, t.sp, t.mem);
  }

  // ----- the final return -----

  /** CompileEnd on reachable code: copies, pops, op_Return. */
  lemma EndShape(c: CState) returns (copied: CState, popped: CState)
    requires Inv(c) && !c.block.polymorphic && CompileEnd(c).Some?
    ensures |c.stack| - c.block.base == |c.block.results|
    ensures ReturnCopies(c, c.block.results, 0) == Some(copied) && PopN(copied, |c.block.results|) == Some(popped)
    ensures CompileEnd(c) == Some(Emit(popped, OpReturn))
    ensures Good(c, copied) && Good(copied, popped) && Good(popped, Emit(popped, OpReturn))
      && PcOf(popped) == PcOf(copied)
  {
    hide Inv, Grows, ReturnCopies, PopN, Emit, PcOf;
    copied := ReturnCopies(c, c.block.results, 0).value;
    ReturnCopiesOk(c, c.block.results, 0);
    GoodFacts(c, copied);
    popped := PopN(copied, |c.block.results|).value;
    PopNOk(copied, |c.block.results|);
    EmitOk(popped, OpReturn);
  }

  lemma EndSim(p: Program, c: CState, s: State, locals: seq<Val>, mid: seq<Option<Val>>, stack: seq<Val>, depth: nat)
    returns (n: nat, t: State)
    requires Inv(c) && !c.block.polymorphic && CompileEnd(c).Some? && Linked(p, CompileEnd(c).value)
    requires |c.block.results| == c.layout.numRets
    requires At(p, c, s, locals, mid, stack) && depth <= |s.frames| && OnlyLoops(s.frames, depth)
    ensures t == Steps(p, n, s) && ReturnedWith(s, t, depth, stack)
  {
    hide Inv, Grows, GrowsAnyPage, Linked, Match, ReturnCopies, PopN, Emit, PcOf, Vals, CompileEnd;
    AtSize(p, c, s, locals, mid, stack);
    AtParts(p, c, s, locals, mid, stack);
    var copied, popped := EndShape(c);
    GoodFacts(copied, popped);
    GrowsAny(popped, Emit(popped, OpReturn));
    LinkedBefore(p, popped, Emit(popped, OpReturn));
    GrowsAny(copied, popped);
    LinkedBefore(p, copied, popped);
    FetchEmitted(p, popped, OpReturn);
    var vals := Vals(locals, mid, stack);
    assert forall i :: 0 <= i < |stack| ==> vals[|vals| - |stack| + i] == Some(stack[i]) by {
      forall i | 0 <= i < |stack|
        ensures vals[|vals| - |stack| + i] == Some(stack[i])
      {
        assert vals[c.block.base + i] == Some(stack[i]);
      }
    }
    var m, u := ReturnCopiesSim(p, c, c.block.results, 0, s, vals, stack);
    MatchSize(p, copied, u, vals);
    n, t := m + 1, Step(p, u);
    StraightThen(p, s, m, u);
    UnwindNull(u.mem, u.frames, depth);
  }

  // ----- whole functions -----

  /** After `n` steps from its first operation, the function has done what the interpreter's call did. */
  ghost predicate FunctionDone(p: Program, s: State, n: nat, t: State, o: CallOutcome, fuel: nat) {
    && s.Running? && t == Steps(p, n, s)
    && (Overflowed(t) ||
        match o
        case Results(vs) => ReturnedWith(s, t, |s.frames|, vs)
        case CallTraps(kind) => t.Halted? && t.ret == Trap(kind)
        case CallOutOfFuel => n >= fuel && t.Running?
        case CallStuck => true)
  }

  /** The code of `f` in the program is what CompileFunction made of it. */
  ghost predicate CompiledFrom(k: Code, m: Module, f: nat)
    requires f < |m|
  {
    exists reserved: nat :: CompileFunction(m, f, reserved).Some? && k == CodeOf(CompileFunction(m, f, reserved).value)
  }

  ghost predicate Compiled(p: Program, m: Module) {
    |p.codes| == |m| && forall f :: 0 <= f < |m| ==> CompiledFrom(p.codes[f], m, f)
  }

  /** The stages of compiling one function, all contained in its finished code. */
  lemma FunctionStages(p: Program, m: Module, f: nat) returns (reserved: nat, start: CState, done: CState)
    requires Compiled(p, m) && f < |m|
    ensures InitialState(f, m[f], reserved) == Some(start) && CompileBody(start, m, m[f].body) == Some(done)
    ensures CompileEnd(done).Some? && Linked(p, CompileEnd(done).value) && Linked(p, done) && Linked(p, start)
    ensures p.codes[f].numRetAndArgSlots == |m[f].results| + |m[f].params|
    ensures Inv(start) && Inv(done) && start.block.results == m[f].results && start.layout.numRets == |m[f].results|
    ensures Done(start, done) && start.outers == [] && start.block.kind == FuncScope
  {
    hide Inv, Grows, Ended, ReturnCopies, CompileBody;
    assert CompiledFrom(p.codes[f], m, f);
    reserved :| CompileFunction(m, f, reserved).Some? && p.codes[f] == CodeOf(CompileFunction(m, f, reserved).value);
    start := InitialState(f, m[f], reserved).value;
    done := CompileBody(start, m, m[f].body).value;
    var last := CompileEnd(done).value;
    InitialOk(f, m[f], reserved);
    BodyOk(start, m, m[f].body);
    DoneFacts(start, done);
    EndOk(done);
    GoodFacts(done, last);
    InvFacts(last);
    assert Linked(p, last);
    GrowsAny(done, last);
    LinkedBefore(p, done, last);
    LinkedDone(p, start, done);
  }

  lemma DoneFacts(c: CState, d: CState)
    requires Done(c, d)
    ensures Inv(d) && d.layout == c.layout && d.block.results == c.block.results
  {
  }

  /** CompileEnd keeps the invariant. */
  lemma EndOk(c: CState)
    requires Inv(c) && CompileEnd(c).Some?
    ensures Good(c, CompileEnd(c).value)
  {
    hide Inv, Grows, ReturnCopies, PopN;
    if c.block.polymorphic {
      EmitOk(c, OpReturn);
    } else {
      var copied, popped := EndShape(c);
      GoodTrans(c, copied, popped);
      GoodTrans(c, popped, Emit(popped, OpReturn));
    }
  }

  /** Code that contains a finished body contains its beginning. */
  lemma LinkedDone(p: Program, c: CState, d: CState)
    requires Inv(c) && Done(c, d) && Linked(p, d)
    ensures Linked(p, c)
  {
    if Ended(c, d) {
      LinkedEnded(p, c, d);
    } else {
      LinkedBefore(p, c, d);
    }
  }

  /** From the simulation of a body to the return of its function. */
  lemma FinishSim(p: Program, m: Module, f: nat, start: CState, done: CState, s: State, n: nat, t: State,
                  locals: seq<Val>, o: Outcome, fuel: nat)
    returns (n': nat, t': State)
    requires f < |m| && Inv(start) && Done(start, done) && start.outers == [] && start.block.kind == FuncScope
    requires !start.block.polymorphic && start.block.results == m[f].results && start.layout.numRets == |m[f].results|
    requires CompileEnd(done).Some? && Linked(p, CompileEnd(done).value) && Linked(p, done)
    requires s.Running? && Sim(p, start, done, s, n, t, [], [|s.frames|], o, fuel)
    ensures FunctionDone(p, s, n', t', LeaveFunction(o, m[f].results), fuel)
  {
    hide Inv, Grows, Ended, Linked, At, ReturnedWith, CompileEnd;
    n', t' := n, t;
    if !Overflowed(t) && o.Normal? && TypesOf(o.stack) == m[f].results {
      DoneFacts(start, done);
      OnlyLoopsAbove(p, start, s, n, t);
      var q, u := EndSim(p, done, t, o.locals, [], o.stack, |s.frames|);
      StepsCompose(p, n, q, s);
      ReturnedLift(s, t, u, |s.frames|, o.stack);
      n', t' := n + q, u;
    } else if !Overflowed(t) && o.Normal? {
    } else {
      assert Scopes(start)[0] == start.block;
    }
  }

  lemma OnlyLoopsAbove(p: Program, c: CState, s: State, n: nat, t: State)
    requires Advance(p, c, s, n, t)
    ensures |s.frames| <= |t.frames| && OnlyLoops(t.frames, |s.frames|)
  {
  }
}
