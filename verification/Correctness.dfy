/** Compilation preserves meaning: running the code of a function does what the interpreter does, for every instruction
    of the modelled language, every body and every call.
 */
module Correctness {
  import opened Words
  import opened Wasm
  import opened Machine
  import opened Allocator
  import opened Compiler
  import opened Invariant
  import opened CompilerInvariant
  import opened BlockInvariant
  import opened Relation
  import opened OperatorSimulation
  import opened Control
  import opened Simulation
  import opened BranchSimulation
  import opened BlockSimulation
  import opened InstructionSimulation
  import opened IfSimulation
  import opened CallSimulation
  import opened FunctionSimulation

  // ----- gluing simulations together -----

  /** Code before the simulated piece only adds steps. */
  lemma SimAfter(p: Program, c: CState, c1: CState, d: CState, s: State, m: nat, t: State, n: nat, u: State,
                 locals: seq<Val>, mid: seq<Option<Val>>, stack: seq<Val>, depths: seq<nat>, o: Outcome, fuel: nat)
    requires Ready(p, c, s, locals, mid, stack, depths) && GrowsAnyPage(c, c1) && Advance(p, c, s, m, t)
    requires |depths| == |Scopes(c1)| == |Scopes(c)|
    requires Sim(p, c1, d, t, n, u, mid, depths, o, fuel)
    ensures Sim(p, c, d, s, m + n, u, mid, depths, o, fuel)
  {
    hide Inv, GrowsAnyPage, Advance, FramesOk, Sim, At, EndsKnown;
    ReadyFacts(p, c, s, locals, mid, stack, depths);
    SimLift(p, c, c1, d, s, m, t, n, u, mid, depths, o, fuel, fuel);
  }

  /** Nothing is claimed for code the interpreter gets stuck on. */
  lemma SimStuck(p: Program, c: CState, d: CState, s: State, mid: seq<Option<Val>>, depths: seq<nat>, fuel: nat)
    requires |depths| == |Scopes(c)| && s.Running?
    ensures Sim(p, c, d, s, 0, s, mid, depths, Stuck, fuel)
  {
  }

  lemma SimNormal(p: Program, c: CState, d: CState, s: State, n: nat, t: State, locals: seq<Val>, mid: seq<Option<Val>>,
                  stack: seq<Val>, depths: seq<nat>, fuel: nat)
    requires |depths| == |Scopes(c)| && Advance(p, c, s, n, t) && d.block == c.block && At(p, d, t, locals, mid, stack)
    ensures Sim(p, c, d, s, n, t, mid, depths, Normal(locals, stack), fuel)
  {
    hide At, Straight;
  }

  // ----- blocks and if arms -----

  /** The code of a block is linked when the state after it is. */
  lemma BodyLinked(p: Program, c: CState, kind: ScopeKind, results: seq<ValType>, done: CState)
    requires Inv(c) && Clean(c) && !c.block.polymorphic && |results| <= 1 && kind != FuncScope
    requires ReserveLanding(c, results).Some? && Done(Opened(c, kind, results), done)
    requires LeaveScope(done, c.block, c.outers).Some? && Linked(p, LeaveScope(done, c.block, c.outers).value)
    ensures Linked(p, done) && c.layout.fn < |p.codes| && c.nextId in CodeFor(p, c).patched
  {
    hide Inv, Clean, ReserveLanding, Ended, Grows, GrowsAnyPage, ResolveResults, PcOf, Linked, LeaveScope;
    LeaveFacts(p, c, kind, results, done);
    OpenedOk(c, kind, results);
    DoneInv(Opened(c, kind, results), done);
    if !done.block.polymorphic {
      LeaveSome(done, c.block, c.outers);
      ResolveResultsOk(done, done.block, false);
      GrowsAny(done, ResolveResults(done, done.block, false).value);
      LinkedBefore(p, done, ResolveResults(done, done.block, false).value);
    }
  }

  lemma DoneInv(c: CState, d: CState)
    requires Done(c, d)
    ensures Inv(d) && d.block.results == c.block.results
  {
  }

  /** A block, seen through what its body did. */
  lemma AroundBlockSim(p: Program, m: Module, c: CState, kind: ScopeKind, results: seq<ValType>, body: Body, d: CState,
                       s: State, n: nat, t: State, locals: seq<Val>, mid: seq<Option<Val>>, stack: seq<Val>,
                       depths: seq<nat>, fuel: nat)
    returns (n': nat, t': State)
    requires Ready(p, c, s, locals, mid, stack, depths) && Clean(c) && |results| <= 1 && kind != FuncScope
    requires CompileBlock(c, m, kind, results, body).Some? && Linked(p, CompileBlock(c, m, kind, results, body).value)
    requires ExitState(c, results, d, CompileBlock(c, m, kind, results, body).value)
    requires |depths + [|s.frames|]| == |Scopes(Opened(c, kind, results))| && |depths| == |Scopes(c)| && s.Running?
    requires CompileBody(Opened(c, kind, results), m, body).Some?
    requires Sim(p, Opened(c, kind, results), CompileBody(Opened(c, kind, results), m, body).value, s, n, t,
                 Inner(mid, stack, results), depths + [|s.frames|], RunBody(m, fuel, body, locals, []), fuel)
    requires var o := RunBody(m, fuel, body, locals, []); kind == LoopScope ==> !(o.Branching? && o.depth == 0)
    ensures Sim(p, c, d, s, n', t', mid, depths, LeaveBlock(RunBody(m, fuel, body, locals, []), results, stack), fuel)
  {
    hide Inv, Clean, ReserveLanding, Ended, Grows, Linked, At, Sim, Ready, RunBody, LeaveScope, CompileBody, FramesOk,
      ExitState, Opened, EndsKnown, Inner;
    ReadyFacts(p, c, s, locals, mid, stack, depths);
    OpenedOk(c, kind, results);
    BodyOk(Opened(c, kind, results), m, body);
    BlockParts(c, m, kind, results, body);
    BodyKeepsLocals(m, fuel, body, locals, []);
    n', t' := LeaveSim(p, c, kind, results, CompileBody(Opened(c, kind, results), m, body).value, d, s, n, t, mid,
        stack,
                       depths, RunBody(m, fuel, body, locals, []), fuel);
  }

  lemma BlockParts(c: CState, m: Module, kind: ScopeKind, results: seq<ValType>, body: Body)
    requires CompileBlock(c, m, kind, results, body).Some?
    ensures ReserveLanding(c, results).Some? && CompileBody(Opened(c, kind, results), m, body).Some?
    ensures var done := CompileBody(Opened(c, kind, results), m, body).value;
      CompileBlock(c, m, kind, results, body) == LeaveScope(done, c.block, c.outers)
  {
    hide ReserveLanding, CompileBody, LeaveScope;
  }

  lemma ScopesOpened(c: CState, kind: ScopeKind, results: seq<ValType>)
    requires Inv(c) && Clean(c) && !c.block.polymorphic && |results| <= 1 && kind != FuncScope
    requires ReserveLanding(c, results).Some?
    ensures |Scopes(Opened(c, kind, results))| == |Scopes(c)| + 1
  {
    hide Inv, Clean, ReserveLanding;
    OpenedOk(c, kind, results);
  }

  /** Everything that has to hold before the body of a block is simulated. */
  lemma EnterSim(p: Program, m: Module, c: CState, kind: ScopeKind, results: seq<ValType>, body: Body, s: State,
                 locals: seq<Val>, mid: seq<Option<Val>>, stack: seq<Val>, depths: seq<nat>)
    requires Ready(p, c, s, locals, mid, stack, depths) && Clean(c) && |results| <= 1 && kind != FuncScope
    requires CompileBlock(c, m, kind, results, body).Some? && Linked(p, CompileBlock(c, m, kind, results, body).value)
    requires s.Running? && |depths| > 0
    requires kind == LoopScope ==> depths[0] < |s.frames| && s.frames[|s.frames| - 1] == LoopFrame(PcOf(c), s.sp)
    ensures ReserveLanding(c, results).Some? && CompileBody(Opened(c, kind, results), m, body).Some?
    ensures Ready(p, Opened(c, kind, results), s, locals, Inner(mid, stack, results), [], depths + [|s.frames|])
    ensures Linked(p, CompileBody(Opened(c, kind, results), m, body).value)
    ensures |depths + [|s.frames|]| == |Scopes(Opened(c, kind, results))| && |depths| == |Scopes(c)|
  {
    hide Inv, Clean, ReserveLanding, Ended, Grows, Linked, At, Ready, LeaveScope, CompileBody, FramesOk, Opened, PcOf,
      EndsKnown, Inner;
    ReadyFacts(p, c, s, locals, mid, stack, depths);
    BlockParts(c, m, kind, results, body);
    OpenedOk(c, kind, results);
    BodyOk(Opened(c, kind, results), m, body);
    BodyLinked(p, c, kind, results, CompileBody(Opened(c, kind, results), m, body).value);
    ScopesOpened(c, kind, results);
    ReadyOpened(p, c, kind, results, s, locals, mid, stack, depths);
  }

  /** A block or an if arm. `d` is where execution goes on. */
  lemma {:induction false} BlockSim(p: Program, m: Module, c: CState, kind: ScopeKind, results: seq<ValType>,
                                    body: Body,
                                    d: CState, s: State, locals: seq<Val>, mid: seq<Option<Val>>, stack: seq<Val>,
                                    depths: seq<nat>, fuel: nat)
    returns (n: nat, t: State)
    requires Compiled(p, m) && Ready(p, c, s, locals, mid, stack, depths) && Clean(c) && |results| <= 1
    requires kind != FuncScope && kind != LoopScope
    requires CompileBlock(c, m, kind, results, body).Some? && Linked(p, CompileBlock(c, m, kind, results, body).value)
    requires ExitState(c, results, d, CompileBlock(c, m, kind, results, body).value)
    requires |depths| == |Scopes(c)|
    ensures Sim(p, c, d, s, n, t, mid, depths, LeaveBlock(RunBody(m, fuel, body, locals, []), results, stack), fuel)
    decreases fuel, body, 1
  {
    hide Compiled, Clean, Linked, Ready, Sim, ExitState, RunBody, CompileBlock, CompileBody, ReserveLanding, Opened,
      LeaveBlock;
    ReadyFacts(p, c, s, locals, mid, stack, depths);
    EnterSim(p, m, c, kind, results, body, s, locals, mid, stack, depths);
    n, t := BodySim(p, m, Opened(c, kind, results), body, s, locals, Inner(mid, stack, results), [],
                    depths + [|s.frames|], fuel);
    n, t := AroundBlockSim(p, m, c, kind, results, body, d, s, n, t, locals, mid, stack, depths, fuel);
  }

  // ----- loops -----

  /** A loop that was continued stands at its first operation again, with its operands as the source says. */
  lemma RestartedSim(p: Program, c: CState, results: seq<ValType>, s: State, n: nat, t: State, locals: seq<Val>,
                     locals1: seq<Val>, mid: seq<Option<Val>>, stack: seq<Val>, top: seq<Val>, depths: seq<nat>)
    requires Ready(p, c, s, locals, mid, stack, depths) && Clean(c) && |results| <= 1
      && ReserveLanding(c, results).Some?
    requires |depths + [|s.frames|]| == |Scopes(Opened(c, LoopScope, results))| && |depths| == |Scopes(c)| && s.Running?
    requires |locals1| == |locals|
    requires Landed(p, Opened(c, LoopScope, results), s, n, t, |depths|, Inner(mid, stack, results),
      depths + [|s.frames|],
                    locals1, top)
    ensures Ready(p, c, t, locals1, mid, stack, depths) && Advance(p, c, s, n, t) && t.frames == s.frames
      && t.sp == s.sp
  {
    hide Inv, Clean, ReserveLanding, StackHolds, ConstsHold, PcOf, EndsKnown;
    ReadyFacts(p, c, s, locals, mid, stack, depths);
    var o := Opened(c, LoopScope, results);
    OpenedOk(c, LoopScope, results);
    assert Scopes(o)[|depths|] == o.block;
    assert o.stack[..|c.stack|] == c.stack;
    assert (Somes(locals1) + Inner(mid, stack, results))[..|c.stack|] == Vals(locals1, mid, stack);
    assert s.frames[..|s.frames|] == s.frames;
  }

  lemma {:induction false} LoopSim(p: Program, m: Module, c: CState, result: Option<ValType>, body: Body, s: State,
                                   locals: seq<Val>, mid: seq<Option<Val>>, stack: seq<Val>, depths: seq<nat>,
                                       fuel: nat)
    returns (n: nat, t: State)
    requires Compiled(p, m) && Ready(p, c, s, locals, mid, stack, depths) && Clean(c)
    requires CompileBlock(c, m, LoopScope, ResultSeq(result), body).Some?
    requires Linked(p, CompileBlock(c, m, LoopScope, ResultSeq(result), body).value)
    requires s.Running? && |depths| == |Scopes(c)| && depths[0] < |s.frames|
    requires s.frames[|s.frames| - 1] == LoopFrame(PcOf(c), s.sp)
    ensures Sim(p, c, CompileBlock(c, m, LoopScope, ResultSeq(result), body).value, s, n, t, mid, depths,
                RunLoop(m, fuel, result, body, locals, stack), fuel)
    decreases fuel, body, 1
  {
    hide Compiled, Clean, Linked, Ready, Landed, At, Advance, ExitState, RunBody, CompileBlock, CompileBody,
      ReserveLanding,
      Opened, LeaveBlock, Inner, PcOf;
    var results := ResultSeq(result);
    var e := CompileBlock(c, m, LoopScope, results, body).value;
    ReadyFacts(p, c, s, locals, mid, stack, depths);
    EnterSim(p, m, c, LoopScope, results, body, s, locals, mid, stack, depths);
    var deeper := depths + [|s.frames|];
    n, t := BodySim(p, m, Opened(c, LoopScope, results), body, s, locals, Inner(mid, stack, results), [], deeper, fuel);
    var o := RunBody(m, fuel, body, locals, []);
    if o.Branching? && o.depth == 0 {
      if !Overflowed(t) {
        BodyKeepsLocals(m, fuel, body, locals, []);
        RestartedSim(p, c, results, s, n, t, locals, o.locals, mid, stack, o.stack, depths);
        RestartedRunning(p, c, s, n, t);
        if fuel > 0 {
          var q, u := LoopSim(p, m, c, result, body, t, o.locals, mid, stack, depths, fuel - 1);
          SelfGrows(c);
          SimLift(p, c, c, e, s, n, t, q, u, mid, depths, RunLoop(m, fuel - 1, result, body, o.locals, stack), fuel,
              fuel - 1);
          n, t := n + q, u;
        }
      }
    } else {
      BlockExit(p, c, m, LoopScope, results, body);
      n, t := AroundBlockSim(p, m, c, LoopScope, results, body, e, s, n, t, locals, mid, stack, depths, fuel);
    }
  }

  lemma RestartedRunning(p: Program, c: CState, s: State, n: nat, t: State)
    requires Advance(p, c, s, n, t)
    ensures t.Running?
  {
  }

  lemma SelfGrows(c: CState)
    requires Inv(c)
    ensures GrowsAnyPage(c, c)
  {
    GrowsSelf(c);
  }

  /** Blocks and loops go on right behind their code. */
  lemma BlockExit(p: Program, c: CState, m: Module, kind: ScopeKind, results: seq<ValType>, body: Body)
    requires Inv(c) && Clean(c) && !c.block.polymorphic && |results| <= 1 && kind != FuncScope && kind != IfScope
    requires CompileBlock(c, m, kind, results, body).Some?
    ensures var e := CompileBlock(c, m, kind, results, body).value; ExitState(c, results, e, e) && Good(c, e)
  {
    hide Inv, Clean, Grows, CompileBlock, PcOf;
    BlockOk(c, m, kind, results, body);
    GoodFacts(c, CompileBlock(c, m, kind, results, body).value);
  }

  /** The code in front of a block: spilling the register, copying referenced locals. */
  lemma PreparedSim(p: Program, c: CState, s: State, locals: seq<Val>, mid: seq<Option<Val>>, stack: seq<Val>,
                    depths: seq<nat>, prepared: CState)
    returns (n: nat, t: State)
    requires Ready(p, c, s, locals, mid, stack, depths) && PreserveRegister(c).Some?
    requires PreserveArgsAndLocals(PreserveRegister(c).value) == Some(prepared) && Linked(p, prepared)
    ensures Good(c, prepared) && Clean(prepared) && Advance(p, c, s, n, t) && t.Running?
    ensures Ready(p, prepared, t, locals, mid, stack, depths)
  {
    hide Inv, Grows, GrowsAnyPage, Linked, Ready, At, Match, PreserveRegister, PreserveArgsAndLocals, Vals, Advance,
      FramesOk;
    ReadyFacts(p, c, s, locals, mid, stack, depths);
    PreserveRegisterOk(c);
    var kept := PreserveRegister(c).value;
    PreserveArgsAndLocalsOk(kept);
    PreparedOk(c);
    GrowsAny(kept, prepared);
    LinkedBefore(p, kept, prepared);
    var n1, t1 := PreserveRegisterSim(p, c, s, Vals(locals, mid, stack));
    var n2, t2 := PreserveArgsAndLocalsSim(p, kept, t1, Vals(locals, mid, stack));
    StraightTrans(p, s, n1, t1, n2, t2);
    n, t := n1 + n2, t2;
    StraightAdvance(p, c, s, n, t);
    GoodFacts(c, prepared);
    AtFrom(p, prepared, t, locals, mid, stack);
    GrowsAny(c, prepared);
    ReadyLater(p, c, prepared, s, n, t, locals, mid, stack, depths);
  }

  lemma {:induction false} BlockInstrSim(p: Program, m: Module, c: CState, i: Instr, s: State, locals: seq<Val>,
                                         mid: seq<Option<Val>>, stack: seq<Val>, depths: seq<nat>, fuel: nat)
    returns (n: nat, t: State)
    requires i.Block? && Compiled(p, m) && Ready(p, c, s, locals, mid, stack, depths)
    requires CompileInstr(c, m, i).Some? && Linked(p, CompileInstr(c, m, i).value) && |depths| == |Scopes(c)|
    ensures Sim(p, c, CompileInstr(c, m, i).value, s, n, t, mid, depths, RunInstr(m, fuel, i, locals, stack), fuel)
    decreases fuel, i, 0
  {
    hide Compiled, Inv, Grows, GrowsAnyPage, Clean, Linked, Ready, At, Advance, FramesOk, Sim, LeaveBlock, RunBody,
      CompileBlock,
      PreserveRegister, PreserveArgsAndLocals, ExitState;
    ReadyFacts(p, c, s, locals, mid, stack, depths);
    var results := ResultSeq(i.result);
    var e := CompileInstr(c, m, i).value;
    PreparedOk(c);
    var ready := PreserveArgsAndLocals(PreserveRegister(c).value).value;
    GoodFacts(c, ready);
    BlockExit(p, ready, m, BlockScope, results, i.body);
    GrowsAny(ready, e);
    LinkedBefore(p, ready, e);
    var n1, t1 := PreparedSim(p, c, s, locals, mid, stack, depths, ready);
    var n2, t2 := BlockSim(p, m, ready, BlockScope, results, i.body, e, t1, locals, mid, stack, depths, fuel);
    GrowsAny(c, ready);
    SimAfter(p, c, ready, e, s, n1, t1, n2, t2, locals, mid, stack, depths, RunInstr(m, fuel, i, locals, stack), fuel);
    n, t := n1 + n2, t2;
  }

  /** op_Loop opens an activation with the id that ContinueLoop will name. */
  lemma OpLoopSim(p: Program, c: CState, ready: CState, s: State, m: nat, u: State, locals: seq<Val>,
                  mid: seq<Option<Val>>, stack: seq<Val>, depths: seq<nat>)
    returns (t: State)
    requires Ready(p, c, s, locals, mid, stack, depths) && Good(c, ready) && Clean(ready)
    requires Advance(p, c, s, m, u) && Ready(p, ready, u, locals, mid, stack, depths) && Linked(p, Emit(ready, OpLoop))
    ensures Advance(p, c, s, m + 1, t) && t.Running? && Good(c, Emit(ready, OpLoop)) && Clean(Emit(ready, OpLoop))
    ensures Ready(p, Emit(ready, OpLoop), t, locals, mid, stack, depths)
    ensures |depths| > 0 && depths[0] < |t.frames|
      && t.frames[|t.frames| - 1] == LoopFrame(PcOf(Emit(ready, OpLoop)), t.sp)
  {
    hide Inv, Grows, GrowsAnyPage, Linked, Ready, At, FramesOk, Emit, PcOf, Clean, EndsKnown, Advance;
    ReadyFacts(p, ready, u, locals, mid, stack, depths);
    ReadyFacts(p, c, s, locals, mid, stack, depths);
    var l := Emit(ready, OpLoop);
    FetchEmitted(p, ready, OpLoop);
    EmittedClean(ready, OpLoop);
    EmitOk(ready, OpLoop);
    GoodTrans(c, ready, l);
    t := Step(p, u);
    OneStep(p, u);
    AtLoop(p, ready, u, locals, mid, stack);
    GrowsAny(c, ready);
    LoopBeyond(c, ready);
    AdvanceLoop(p, c, s, m, u, PcOf(l));
    GrowsAny(c, l);
    ReadyLater(p, c, l, s, m + 1, t, locals, mid, stack, depths);
  }

  lemma AtLoop(p: Program, ready: CState, u: State, locals: seq<Val>, mid: seq<Option<Val>>, stack: seq<Val>)
    requires Inv(ready) && Clean(ready) && At(p, ready, u, locals, mid, stack) && u.Running?
    ensures At(p, Emit(ready, OpLoop),
      u.(pc := u.pc.Next(), r0 := ZERO, frames := u.frames + [LoopFrame(u.pc.Next(), u.sp)]),
               locals, mid, stack)
  {
    hide Inv, StackHolds, ConstsHold, Emit, PcOf;
    EmitOk(ready, OpLoop);
    EmitFacts(ready, OpLoop);
    LoadedHolds(ready, Vals(locals, mid, stack), u.sp, u.mem, u.r0, ZERO);
  }

  lemma LoopBeyond(c: CState, ready: CState)
    requires Inv(ready) && GrowsAnyPage(c, ready)
    ensures Beyond(c, PcOf(Emit(ready, OpLoop)))
  {
    if ready.page < |c.pages| {
      assert c.pages[ready.page] <= ready.pages[ready.page];
    }
  }

  lemma AdvanceLoop(p: Program, c: CState, s: State, m: nat, u: State, id: PC)
    requires Advance(p, c, s, m, u) && Beyond(c, id)
    requires Step(p, u) == u.(pc := id, r0 := ZERO, frames := u.frames + [LoopFrame(id, u.sp)])
    ensures Advance(p, c, s, m + 1, Step(p, u))
  {
    StepsCompose(p, m, 1, s);
    OneStep(p, u);
  }

  lemma {:induction false} LoopInstrSim(p: Program, m: Module, c: CState, i: Instr, s: State, locals: seq<Val>,
                                        mid: seq<Option<Val>>, stack: seq<Val>, depths: seq<nat>, fuel: nat)
    returns (n: nat, t: State)
    requires i.Loop? && Compiled(p, m) && Ready(p, c, s, locals, mid, stack, depths)
    requires CompileInstr(c, m, i).Some? && Linked(p, CompileInstr(c, m, i).value) && |depths| == |Scopes(c)|
    ensures Sim(p, c, CompileInstr(c, m, i).value, s, n, t, mid, depths, RunInstr(m, fuel, i, locals, stack), fuel)
    decreases fuel, i, 0
  {
    hide Compiled, Inv, Grows, GrowsAnyPage, Clean, Linked, Ready, At, Advance, FramesOk, Sim, RunLoop, CompileBlock,
      Emit, PcOf,
      PreserveRegister, PreserveArgsAndLocals, ExitState;
    ReadyFacts(p, c, s, locals, mid, stack, depths);
    var results := ResultSeq(i.result);
    var e := CompileInstr(c, m, i).value;
    PreparedOk(c);
    var ready := PreserveArgsAndLocals(PreserveRegister(c).value).value;
    GoodFacts(c, ready);
    var l := Emit(ready, OpLoop);
    EmittedClean(ready, OpLoop);
    GoodFacts(ready, l);
    BlockExit(p, l, m, LoopScope, results, i.body);
    GrowsAny(l, e);
    LinkedBefore(p, l, e);
    GrowsAny(ready, l);
    LinkedBefore(p, ready, l);
    var n1, t1 := PreparedSim(p, c, s, locals, mid, stack, depths, ready);
    var t2 := OpLoopSim(p, c, ready, s, n1, t1, locals, mid, stack, depths);
    var n3, t3 := LoopSim(p, m, l, i.result, i.body, t2, locals, mid, stack, depths, fuel);
    GrowsAny(c, l);
    SimAfter(p, c, l, e, s, n1 + 1, t2, n3, t3, locals, mid, stack, depths, RunInstr(m, fuel, i, locals, stack), fuel);
    n, t := n1 + 1 + n3, t3;
  }

  // ----- if -----

  /** The else arm on its own page and the branch back. */
  lemma {:induction false} ElseSim(p: Program, m: Module, back: CState, id: nat, results: seq<ValType>, els: Body,
                                   e: CState,
                                   s: State, locals: seq<Val>, mid: seq<Option<Val>>, stack: seq<Val>, depths: seq<nat>,
                                   fuel: nat)
    returns (n: nat, t: State)
    requires Compiled(p, m) && Ready(p, ElseStart(back, id), s, locals, mid, stack, depths)
    requires Inv(back) && Clean(back) && !back.block.polymorphic && |results| <= 1 && id < back.nextId
      && id !in back.patched
    requires Inv(ElseStart(back, id)) && Clean(ElseStart(back, id)) && |depths| == |Scopes(ElseStart(back, id))|
    requires CompileElse(back, m, id, results, els) == Some(e) && Linked(p, e)
    ensures Sim(p, ElseStart(back, id), e, s, n, t, mid, depths,
                LeaveBlock(RunBody(m, fuel, els, locals, []), results, stack), fuel)
    decreases fuel, els, 2
  {
    hide Compiled, Inv, Grows, GrowsAnyPage, Clean, Linked, Ready, LeaveBlock, RunBody, CompileBlock, CompileElse,
      ExitState,
      Sim, ElseStart, PcOf, Emit;
    var there := ElseStart(back, id);
    var done := ElseParts(p, back, m, id, results, els);
    LeaveElse(there, done, results);
    n, t := BlockSim(p, m, there, ElseScope, results, els, done, s, locals, mid, stack, depths, fuel);
    n, t := ElseExitSim(p, there, done, e, back, s, n, t, mid, depths,
                        LeaveBlock(RunBody(m, fuel, els, locals, []), results, stack), fuel);
  }

  lemma {:induction false} IfInstrSim(p: Program, m: Module, c: CState, i: Instr, s: State, locals: seq<Val>,
                                      mid: seq<Option<Val>>, stack: seq<Val>, depths: seq<nat>, fuel: nat)
    returns (n: nat, t: State)
    requires i.If? && Compiled(p, m) && Ready(p, c, s, locals, mid, stack, depths)
    requires CompileInstr(c, m, i).Some? && Linked(p, CompileInstr(c, m, i).value) && |depths| == |Scopes(c)|
    ensures Sim(p, c, CompileInstr(c, m, i).value, s, n, t, mid, depths, RunInstr(m, fuel, i, locals, stack), fuel)
    decreases fuel, i, 0
  {
    hide Compiled, Inv, Grows, GrowsAnyPage, Clean, Linked, Ready, At, Advance, FramesOk, LeaveBlock, RunBody,
      CompileBlock,
      CompileIf, CompileElse, PreserveNonTopRegister, PreserveArgsAndLocals, ExitState, IfStarted, Sim;
    ReadyFacts(p, c, s, locals, mid, stack, depths);
    n, t := 0, s;
    if |stack| == 0 || !stack[|stack| - 1].V32? {
      SimStuck(p, c, CompileInstr(c, m, i).value, s, mid, depths, fuel);
      return;
    }
    var results := ResultSeq(i.result);
    var x := stack[|stack| - 1].bits32;
    var below := stack[..|stack| - 1];
    var e := CompileIf(c, m, i).value;
    var g := IfStagesOk(c, m, i);
    ThenExit(p, c, m, i, g);
    GoodFacts(c, g.started);
    LinkedArm(p, g);
    var there := if i.els.Some? then ElseStart(g.Back(), g.ready.nextId) else e;
    ThereOk(c, m, i, g);
    var n1, t1 := ConditionSim(p, c, g, there, s, locals, mid, stack, depths, x);
    if x != 0 {
      GrowsAny(c, g.started);
      ReadyLater(p, c, g.started, s, n1, t1, locals, mid, below, depths);
      var n2, t2 := BlockSim(p, m, g.started, IfScope, results, i.thn, e, t1, locals, mid, below, depths, fuel);
      SimAfter(p, c, g.started, e, s, n1, t1, n2, t2, locals, mid, stack, depths,
          RunInstr(m, fuel, i, locals, stack), fuel);
      n, t := n1 + n2, t2;
    } else if i.els.Some? {
      ElseReady(c, i, g);
      ReadyLater(p, c, there, s, n1, t1, locals, mid, below, depths);
      ScopesSame(c, there);
      var n2, t2 := ElseSim(p, m, g.Back(), g.ready.nextId, results, i.els.value, e, t1, locals, mid, below, depths,
          fuel);
      SimAfter(p, c, there, e, s, n1, t1, n2, t2, locals, mid, stack, depths, RunInstr(m, fuel, i, locals, stack),
          fuel);
      n, t := n1 + n2, t2;
    } else {
      n, t := n1, t1;
      ExitBlock(g.started, results, e, g.armed);
      SimNormal(p, c, e, s, n, t, locals, mid, below, depths, fuel);
    }
  }

  lemma ExitBlock(c: CState, results: seq<ValType>, d: CState, e: CState)
    requires |results| <= 1 && ExitState(c, results, d, e)
    ensures d.block == c.block
  {
  }

  /** Code with the then arm contains what comes before it. */
  lemma LinkedArm(p: Program, g: IfStages)
    requires Inv(g.started) && Good(g.started, g.Back()) && Linked(p, g.armed)
    ensures Linked(p, g.started)
  {
    LinkedStack(p, g.Back(), g.armed);
    LinkedBefore(p, g.started, g.Back());
  }

  /** Both ways past the then arm find the operands of the if. */
  lemma ThereOk(c: CState, m: Module, i: Instr, g: IfStages)
    requires i.If? && Good(g.started, g.Back())
    requires i.els.None? ==> CompileIf(c, m, i) == Some(Define(g.Back(), g.ready.nextId))
    requires i.els.None? ==> i.result.None?
    requires CompileIf(c, m, i).Some?
    ensures var there := if i.els.Some? then ElseStart(g.Back(), g.ready.nextId) else CompileIf(c, m, i).value;
      there.layout == g.started.layout && there.block == g.started.block && there.stack == g.started.stack
  {
    hide CompileIf;
  }

  lemma ElseReady(c: CState, i: Instr, g: IfStages)
    requires i.If? && Inv(c) && Good(c, g.ready) && Good(c, g.started) && Good(g.started, g.Back()) && Clean(g.started)
    requires g.armed.reg == 0 && g.started.nextId == g.ready.nextId + 1 && !g.started.block.polymorphic
    ensures var named := ElseStart(g.Back(), g.ready.nextId);
      && Inv(named) && Clean(named) && GrowsAnyPage(c, named) && Inv(g.Back()) && Clean(g.Back())
      && !g.Back().block.polymorphic && g.ready.nextId < g.Back().nextId
  {
    hide Inv, Grows, GrowsAnyPage, Clean;
    IdPending(c, g.ready, g.started, g.Back());
    GoodFacts(g.started, g.Back());
    BackClean(g.started, g.Back());
    GoodTrans(c, g.started, g.Back());
    ElseStartOk(c, g.Back(), g.ready.nextId, []);
  }

  lemma LeaveElse(named: CState, done: CState, results: seq<ValType>)
    requires Good(named, done) && |results| <= 1 && done.stack == named.stack + ResultRecords(named, results)
    ensures ExitState(named, results, done, done)
  {
  }

  // ----- calls -----

  lemma {:induction false} CallInstrSim(p: Program, m: Module, c: CState, i: Instr, s: State, locals: seq<Val>,
                                        mid: seq<Option<Val>>, stack: seq<Val>, depths: seq<nat>, fuel: nat)
    returns (n: nat, t: State)
    requires i.Call? && Compiled(p, m) && Ready(p, c, s, locals, mid, stack, depths)
    requires CompileInstr(c, m, i).Some? && Linked(p, CompileInstr(c, m, i).value) && |depths| == |Scopes(c)|
    ensures Sim(p, c, CompileInstr(c, m, i).value, s, n, t, mid, depths, RunInstr(m, fuel, i, locals, stack), fuel)
    decreases fuel, i, 0
  {
    hide Compiled, Inv, Grows, GrowsAnyPage, Linked, Ready, At, Match, Straight, Vals, CompileCall, Invoke,
      FunctionDone,
      ReturnedWith, Landed, ArgsIn, Ends, FramesOk;
    ReadyFacts(p, c, s, locals, mid, stack, depths);
    n, t := 0, s;
    if i.f >= |m| || !HasTop(stack, m[i.f].params) || fuel == 0 {
      return;
    }
    var k := |m[i.f].params|;
    var args := Top(stack, k);
    var d := CompileCall(c, m, i.f).value;
    var n1, t1, u, passed, pushed := ArgumentsSim(p, m, c, i.f, s, locals, mid, stack, depths);
    var n2, t2 := FunctionSim(p, m, i.f, t1, args, fuel - 1);
    n, t := n1 + 1 + n2, t2;
    var o := Invoke(m, fuel - 1, i.f, args);
    CallDone(p, s, n1 + 1, t1, n2, t2, o, fuel - 1);
    if !Overflowed(t2) && o.Results? {
      ResultTypes(m, fuel - 1, i.f, args);
      ReturnedSim(p, m, c, i.f, s, n1, u, t1, n2, t2, locals, mid, stack, passed, pushed, o.vals);
      CallOk(c, m, i.f);
      StraightSim(p, c, d, s, n, t, locals, mid, stack[..|stack| - k] + o.vals, depths, fuel);
    }
  }

  /** What a call returns has the types of the function's results. */
  lemma ResultTypes(m: Module, fuel: nat, f: nat, args: seq<Val>)
    requires f < |m| && Invoke(m, fuel, f, args).Results?
    ensures TypesOf(Invoke(m, fuel, f, args).vals) == m[f].results
  {
  }

  /** A run up to the callee's first operation, followed by the callee's run. */
  lemma CallDone(p: Program, s: State, m: nat, t: State, n: nat, u: State, o: CallOutcome, fuel: nat)
    requires s.Running? && t == Steps(p, m, s) && m > 0 && FunctionDone(p, t, n, u, o, fuel)
    ensures u == Steps(p, m + n, s)
    ensures !Overflowed(u) ==>
      && (o.Results? ==> ReturnedWith(t, u, |t.frames|, o.vals))
      && (o.CallTraps? ==> u.Halted? && u.ret == Trap(o.kind))
      && (o.CallOutOfFuel? ==> m + n >= fuel + 1 && u.Running?)
  {
    hide ReturnedWith;
    StepsCompose(p, m, n, s);
  }

  lemma {:induction false} FunctionSim(p: Program, m: Module, f: nat, s: State, args: seq<Val>, fuel: nat)
    returns (n: nat, t: State)
    requires Compiled(p, m) && f < |m| && s.Running? && s.pc == PC(f, 0, 0)
    requires ArgsIn(s.mem, s.sp + |m[f].results|, args) && TypesOf(args) == m[f].params
    ensures FunctionDone(p, s, n, t, Invoke(m, fuel, f, args), fuel)
    decreases fuel, m[f].body, 1
  {
    hide Compiled, Inv, Grows, Linked, Ready, At, Sim, RunBody, CompileBody, Done, CompileEnd, InitialState,
      LeaveFunction,
      ReturnedWith;
    var reserved, start, done := FunctionStages(p, m, f);
    EntrySim(p, f, m[f], reserved, start, s, args);
    n, t := 1, Step(p, s);
    OneStep(p, s);
    if !Overflowed(t) {
      var locals := args + Zeros(m[f].locals);
      var depths := [|s.frames|];
      ReadyFacts(p, start, t, locals, [], [], depths);
      var n1, t1 := BodySim(p, m, start, m[f].body, t, locals, [], [], depths, fuel);
      var n2, t2 := FinishSim(p, m, f, start, done, t, n1, t1, locals, RunBody(m, fuel, m[f].body, locals, []), fuel);
      FunctionLift(p, s, t, n2, t2, Invoke(m, fuel, f, args), fuel);
      n, t := 1 + n2, t2;
    }
  }

  lemma FunctionLift(p: Program, s: State, t: State, n: nat, u: State, o: CallOutcome, fuel: nat)
    requires Straight(p, s, 1, t) && FunctionDone(p, t, n, u, o, fuel)
    ensures FunctionDone(p, s, 1 + n, u, o, fuel)
  {
    StepsCompose(p, 1, n, s);
    if !Overflowed(u) && o.Results? {
      ReturnedLift(s, t, u, |s.frames|, o.vals);
    }
  }

  // ----- instructions and bodies -----

  lemma {:induction false} InstrSim(p: Program, m: Module, c: CState, i: Instr, s: State, locals: seq<Val>,
                                    mid: seq<Option<Val>>, stack: seq<Val>, depths: seq<nat>, fuel: nat)
    returns (n: nat, t: State)
    requires Compiled(p, m) && Ready(p, c, s, locals, mid, stack, depths)
    requires CompileInstr(c, m, i).Some? && Linked(p, CompileInstr(c, m, i).value) && |depths| == |Scopes(c)|
    ensures Sim(p, c, CompileInstr(c, m, i).value, s, n, t, mid, depths, RunInstr(m, fuel, i, locals, stack), fuel)
    decreases fuel, i, 1
  {
    hide Compiled, Linked, Ready, Sim, CompileBrIf, CompileBlock, CompileIf, CompileCall, RunBody, RunLoop, Invoke,
      LeaveBlock;
    match i
    case Block(_, _) => n, t := BlockInstrSim(p, m, c, i, s, locals, mid, stack, depths, fuel);
    case Loop(_, _) => n, t := LoopInstrSim(p, m, c, i, s, locals, mid, stack, depths, fuel);
    case If(_, _, _) => n, t := IfInstrSim(p, m, c, i, s, locals, mid, stack, depths, fuel);
    case Call(_) => n, t := CallInstrSim(p, m, c, i, s, locals, mid, stack, depths, fuel);
    case BrIf(d) => n, t := BrIfInstrSim(p, m, c, d, s, locals, mid, stack, depths, fuel);
    case _ => n, t := SimpleInstrSim(p, m, c, i, s, locals, mid, stack, depths, fuel);
  }

  lemma BrIfInstrSim(p: Program, m: Module, c: CState, d: nat, s: State, locals: seq<Val>, mid: seq<Option<Val>>,
                     stack: seq<Val>, depths: seq<nat>, fuel: nat)
    returns (n: nat, t: State)
    requires Ready(p, c, s, locals, mid, stack, depths) && |depths| == |Scopes(c)|
    requires CompileBrIf(c, d).Some? && Linked(p, CompileBrIf(c, d).value)
    ensures Sim(p, c, CompileBrIf(c, d).value, s, n, t, mid, depths, RunInstr(m, fuel, BrIf(d), locals, stack), fuel)
  {
    hide Ready, Linked, CompileBrIf, At, Advance, Landed, ReturnedWith;
    ReadyFacts(p, c, s, locals, mid, stack, depths);
    if |stack| > 0 && stack[|stack| - 1].V32? {
      n, t := BrIfSim(p, c, d, s, locals, mid, stack, depths, fuel, stack[|stack| - 1].bits32);
    } else {
      n, t := 0, s;
    }
  }

  lemma {:induction false} BodySim(p: Program, m: Module, c: CState, b: Body, s: State, locals: seq<Val>,
                                   mid: seq<Option<Val>>, stack: seq<Val>, depths: seq<nat>, fuel: nat)
    returns (n: nat, t: State)
    requires Compiled(p, m) && Ready(p, c, s, locals, mid, stack, depths)
    requires CompileBody(c, m, b).Some? && Linked(p, CompileBody(c, m, b).value) && |depths| == |Scopes(c)|
    ensures Sim(p, c, CompileBody(c, m, b).value, s, n, t, mid, depths, RunBody(m, fuel, b, locals, stack), fuel)
    decreases fuel, b, 0
  {
    hide Compiled, Inv, Linked, Ready, Sim, CompileBr, CompileBrTable, CompileReturn, CompileUnreachable,
      CompileInstr, RunInstr;
    ReadyFacts(p, c, s, locals, mid, stack, depths);
    match b
    case End =>
      n, t := 0, s;
      NothingSim(p, c, s, locals, mid, stack, depths, fuel);
    case Then(i, rest) => n, t := SequenceSim(p, m, c, i, rest, s, locals, mid, stack, depths, fuel);
    case Br(d) => n, t := BrSim(p, c, d, s, locals, mid, stack, depths, fuel);
    case BrTable(targets, default) => n,
        t := BrTableInstrSim(p, m, c, targets, default, s, locals, mid, stack, depths, fuel);
    case Return => n, t := ReturnInstrSim(p, c, s, locals, mid, stack, depths, fuel);
    case Unreachable => n, t := UnreachableSim(p, c, s, locals, mid, stack, depths, fuel);
  }

  lemma NothingSim(p: Program, c: CState, s: State, locals: seq<Val>, mid: seq<Option<Val>>, stack: seq<Val>,
                   depths: seq<nat>, fuel: nat)
    requires Ready(p, c, s, locals, mid, stack, depths) && |depths| == |Scopes(c)|
    ensures Sim(p, c, c, s, 0, s, mid, depths, Normal(locals, stack), fuel)
  {
    hide At, FramesOk, Inv, EndsKnown;
    ReadyFacts(p, c, s, locals, mid, stack, depths);
    StandStill(p, c, s);
  }

  lemma BrTableInstrSim(p: Program, m: Module, c: CState, targets: seq<nat>, default: nat, s: State, locals: seq<Val>,
                        mid: seq<Option<Val>>, stack: seq<Val>, depths: seq<nat>, fuel: nat)
    returns (n: nat, t: State)
    requires Ready(p, c, s, locals, mid, stack, depths) && |depths| == |Scopes(c)|
    requires CompileBrTable(c, targets, default).Some? && Linked(p, CompileBrTable(c, targets, default).value)
    ensures Sim(p, c, CompileBrTable(c, targets, default).value, s, n, t, mid, depths,
                RunBody(m, fuel, BrTable(targets, default), locals, stack), fuel)
  {
    hide Ready, Linked, CompileBrTable, At, Advance, Landed, ReturnedWith;
    ReadyFacts(p, c, s, locals, mid, stack, depths);
    if |stack| > 0 && stack[|stack| - 1].V32? {
      n, t := BrTableSim(p, c, targets, default, s, locals, mid, stack, depths, fuel, stack[|stack| - 1].bits32);
    } else {
      n, t := 0, s;
    }
  }

  lemma {:induction false} SequenceSim(p: Program, m: Module, c: CState, i: Instr, rest: Body, s: State,
                                       locals: seq<Val>,
                                       mid: seq<Option<Val>>, stack: seq<Val>, depths: seq<nat>, fuel: nat)
    returns (n: nat, t: State)
    requires Compiled(p, m) && Ready(p, c, s, locals, mid, stack, depths)
    requires CompileBody(c, m, Then(i, rest)).Some? && Linked(p, CompileBody(c, m, Then(i, rest)).value)
    requires |depths| == |Scopes(c)|
    ensures Sim(p, c, CompileBody(c, m, Then(i, rest)).value, s, n, t, mid, depths,
                RunBody(m, fuel, Then(i, rest), locals, stack), fuel)
    decreases fuel, Then(i, rest), -1
  {
    hide Compiled, Inv, Grows, GrowsAnyPage, Ended, Linked, Ready, At, Advance, FramesOk, Landed, ReturnedWith,
      CompileInstr, RunInstr;
    ReadyFacts(p, c, s, locals, mid, stack, depths);
    InstrOk(c, m, i);
    var next := CompileInstr(c, m, i).value;
    GoodFacts(c, next);
    BodyOk(next, m, rest);
    var d := CompileBody(next, m, rest).value;
    LinkedDone(p, next, d);
    n, t := InstrSim(p, m, c, i, s, locals, mid, stack, depths, fuel);
    var o := RunInstr(m, fuel, i, locals, stack);
    if !Overflowed(t) && o.Normal? {
      GrowsAny(c, next);
      ReadyLater(p, c, next, s, n, t, o.locals, mid, o.stack, depths);
      var q, u := BodySim(p, m, next, rest, t, o.locals, mid, o.stack, depths, fuel);
      SimAfter(p, c, next, d, s, n, t, q, u, locals, mid, stack, depths, RunBody(m, fuel, rest, o.locals, o.stack),
          fuel);
      n, t := n + q, u;
    }
  }
}
