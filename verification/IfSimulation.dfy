/** The states of an if, and how control reaches and leaves its arms. */
module IfSimulation {
  import opened Words
  import opened Wasm
  import opened Machine
  import opened Allocator
  import opened Compiler
  import opened Invariant
  import opened CompilerInvariant
  import opened BlockInvariant
  import opened Relation
  import opened OperatorSimulation
  import opened Control
  import opened Simulation
  import opened BranchSimulation
  import opened BlockSimulation

  function IfOp(ready: CState): Op
    requires |ready.stack| > 0
  {
    var cond, skip := ready.stack[|ready.stack| - 1].slot, Patched(ready.nextId);
    if IsAlias(cond) then IfR(skip) else IfS(cond, skip)
  }

  /** The stages of CompileIf: in front of the condition, in front of the arms, behind the then arm. */
  datatype IfStages = IfStages(kept: CState, ready: CState, started: CState, armed: CState)
  {
    /** The then arm leaves stale records behind, which Compile_If drops. */
    function Back(): CState {
      armed.(stack := started.stack)
    }
  }

  ghost predicate Stages(c: CState, m: Module, i: Instr, g: IfStages)
    requires i.If?
  {
    && PreserveNonTopRegister(c) == Some(g.kept) && PreserveArgsAndLocals(g.kept) == Some(g.ready)
    && |g.ready.stack| == |c.stack| > 0 && IfStarted(g.ready) == Some(g.started)
    && CompileBlock(g.started, m, IfScope, ResultSeq(i.result), i.thn) == Some(g.armed)
  }

  lemma IfStagesOk(c: CState, m: Module, i: Instr) returns (g: IfStages)
    requires i.If? && Inv(c) && !c.block.polymorphic && CompileIf(c, m, i).Some?
    ensures Stages(c, m, i, g)
    ensures Good(c, g.ready) && Good(c, g.started) && Clean(g.started) && Good(g.started, g.Back()) && g.armed.reg == 0
    ensures g.armed.block == g.started.block && g.started.nextId == g.ready.nextId + 1
    ensures g.started.stack == g.ready.stack[..|g.ready.stack| - 1] && g.ready.nextId !in g.Back().patched
    ensures !g.ready.block.polymorphic && !g.started.block.polymorphic && Good(g.ready, g.started)
    ensures CompileIf(c, m, i) == if i.els.Some?
      then CompileElse(g.Back(), m, g.ready.nextId, ResultSeq(i.result), i.els.value)
                                  else Some(Define(g.Back(), g.ready.nextId))
    ensures i.els.None? ==> i.result.None?
  {
    hide Inv, Grows, GrowsAnyPage, Clean, CompileBlock, CompileElse, PreserveNonTopRegister, PreserveArgsAndLocals,
      Emit, Pop;
    var results := ResultSeq(i.result);
    IfPreparedOk(c);
    var kept := PreserveNonTopRegister(c).value;
    var ready := PreserveArgsAndLocals(kept).value;
    GoodFacts(c, ready);
    IfStartedOk(ready);
    var started := IfStarted(ready).value;
    GoodTrans(c, ready, started);
    GoodFacts(c, started);
    BlockOk(started, m, IfScope, results, i.thn);
    var armed := CompileBlock(started, m, IfScope, results, i.thn).value;
    assert armed.stack[..|started.stack|] == started.stack;
    g := IfStages(kept, ready, started, armed);
    PendingStill(started, g.Back(), ready.nextId);
  }

  lemma PendingStill(started: CState, back: CState, id: nat)
    requires Good(started, back) && id < started.nextId && id !in started.patched
    ensures id !in back.patched
  {
  }

  // ----- the then arm -----

  lemma LinkedStack(p: Program, c: CState, d: CState)
    requires Linked(p, d) && d.pages == c.pages && d.patched == c.patched && d.consts == c.consts
    requires d.maxSlots == c.maxSlots && d.layout == c.layout
    ensures Linked(p, c)
  {
  }

  /** The finished else arm: where it starts, where it ends. */
  lemma ElseParts(p: Program, back: CState, m: Module, id: nat, results: seq<ValType>, els: Body) returns (done: CState)
    requires Inv(back) && Clean(back) && !back.block.polymorphic && |results| <= 1 && id < back.nextId
      && id !in back.patched
    requires Inv(ElseStart(back, id)) && Clean(ElseStart(back, id))
    requires CompileElse(back, m, id, results, els).Some? && Linked(p, CompileElse(back, m, id, results, els).value)
    ensures CompileBlock(ElseStart(back, id), m, ElseScope, results, els) == Some(done)
    ensures var named, op := ElseStart(back, id), Branch(Known(PcOf(done.(page := back.page))));
      && Inv(done) && Good(named, done) && done.stack == named.stack + ResultRecords(named, results)
      && CompileElse(back, m, id, results, els) == Some(Emit(done, op).(page := back.page))
      && Linked(p, Emit(done, op)) && Linked(p, done) && Linked(p, named) && Linked(p, back)
      && id in CodeFor(p, back).patched && CodeFor(p, back).patched[id] == PcOf(named)
      && PcOf(CompileElse(back, m, id, results, els).value) == PcOf(back) == PcOf(done.(page := back.page))
  {
    hide Inv, Grows, Clean, CompileBlock;
    var named := ElseStart(back, id);
    BlockOk(named, m, ElseScope, results, els);
    done := CompileBlock(named, m, ElseScope, results, els).value;
    var op := Branch(Known(PcOf(done.(page := back.page))));
    LinkedPage(p, Emit(done, op), back.page);
    EmitOk(done, op);
    GrowsAny(done, Emit(done, op));
    LinkedBefore(p, done, Emit(done, op));
    GrowsAny(named, done);
    LinkedBefore(p, named, done);
    LinkedElse(p, back, id);
    PageKept(back, named, done, op);
  }

  lemma LinkedElse(p: Program, back: CState, id: nat)
    requires Linked(p, ElseStart(back, id)) && id !in back.patched
    ensures Linked(p, back) && id in CodeFor(p, back).patched
      && CodeFor(p, back).patched[id] == PcOf(ElseStart(back, id))
  {
    assert id in ElseStart(back, id).patched;
    var named := ElseStart(back, id);
    assert forall q :: 0 <= q < |back.pages| ==> named.pages[q] == back.pages[q];
  }

  /** The page of the if is not written while the else arm is compiled. */
  lemma PageKept(back: CState, named: CState, done: CState, op: Op)
    requires Inv(back) && CodeGrows(named, done) && done.page == named.page == |back.pages|
    requires named.pages == back.pages + [[]] && named.layout == back.layout
    ensures PcOf(Emit(done, op).(page := back.page)) == PcOf(back) == PcOf(done.(page := back.page))
  {
    hide SlotsOk, ScopesOk;
    assert done.pages[back.page] == named.pages[back.page];
  }

  /** The then arm continues where the whole if ends. */
  lemma ThenExit(p: Program, c: CState, m: Module, i: Instr, g: IfStages)
    requires i.If? && Inv(c) && !c.block.polymorphic && CompileIf(c, m, i).Some? && Linked(p, CompileIf(c, m, i).value)
    requires Stages(c, m, i, g) && Clean(g.started) && Good(g.started, g.Back()) && g.armed.reg == 0 && Inv(g.started)
    requires Good(c, g.started) && Good(c, g.ready) && !g.started.block.polymorphic
      && g.started.nextId == g.ready.nextId + 1
    requires g.armed.block == g.started.block && g.ready.nextId !in g.Back().patched
    requires CompileIf(c, m, i) == if i.els.Some?
      then CompileElse(g.Back(), m, g.ready.nextId, ResultSeq(i.result), i.els.value)
                                  else Some(Define(g.Back(), g.ready.nextId))
    requires i.els.None? ==> i.result.None?
    ensures ExitState(g.started, ResultSeq(i.result), CompileIf(c, m, i).value, g.armed)
    ensures Linked(p, g.armed) && g.ready.nextId in CodeFor(p, c).patched
    ensures CodeFor(p, c).patched[g.ready.nextId]
         == if i.els.Some? then PcOf(ElseStart(g.Back(), g.ready.nextId)) else PcOf(CompileIf(c, m, i).value)
  {
    hide Inv, Grows, Clean, CompileBlock, CompileElse, CompileIf, Linked, Stages, IfStarted;
    var f := CompileIf(c, m, i).value;
    var results := ResultSeq(i.result);
    var back := g.Back();
    IdPending(c, g.ready, g.started, back);
    GoodFacts(c, g.started);
    GoodFacts(g.started, back);
    BackClean(g.started, back);
    SameFreeSlot(g.started, back);
    SameStackPc(g.armed, back);
    if i.els.Some? {
      GoodTrans(c, g.started, back);
      ElseStartOk(c, back, g.ready.nextId, results);
      var done := ElseParts(p, back, m, g.ready.nextId, results, i.els.value);
      LinkedStack(p, g.armed, back);
      ExitElse(g.started, back, f, done, g.ready.nextId, results);
    } else {
      DefinedLinked(p, back, g.ready.nextId);
      LinkedStack(p, g.armed, back);
    }
  }

  lemma SameStackPc(c: CState, d: CState)
    requires d.pages == c.pages && d.page == c.page && d.layout == c.layout
    ensures PcOf(c) == PcOf(d)
  {
  }

  lemma DefinedLinked(p: Program, back: CState, id: nat)
    requires Linked(p, Define(back, id)) && id !in back.patched
    ensures Linked(p, back) && id in CodeFor(p, back).patched && CodeFor(p, back).patched[id] == PcOf(Define(back, id))
    ensures PcOf(Define(back, id)) == PcOf(back)
  {
    assert id in Define(back, id).patched;
  }

  lemma ExitElse(started: CState, back: CState, f: CState, done: CState, id: nat, results: seq<ValType>)
    requires Good(started, back) && back.stack == started.stack && |results| <= 1 && FreeSlot(back) == FreeSlot(started)
    requires Good(ElseStart(back, id), done) && done.stack == back.stack + ResultRecords(ElseStart(back, id), results)
    requires f == Emit(done, Branch(Known(PcOf(done.(page := back.page))))).(page := back.page)
    ensures f.layout == started.layout && f.block == started.block
      && f.stack == started.stack + ResultRecords(started, results)
  {
  }

  // ----- the condition -----

  lemma PreserveNonTopRegisterSim(p: Program, c: CState, s: State, vals: seq<Option<Val>>) returns (n: nat, t: State)
    requires Inv(c) && PreserveNonTopRegister(c).Some? && Linked(p, PreserveNonTopRegister(c).value)
      && Match(p, c, s, vals)
    ensures Straight(p, s, n, t) && Match(p, PreserveNonTopRegister(c).value, t, vals)
  {
    hide Inv, Linked, Match, PreserveRegister;
    if c.reg != 0 && c.reg != |c.stack| {
      n, t := PreserveRegisterSim(p, c, s, vals);
    } else {
      n, t := 0, s;
      StraightSelf(p, c, s, vals);
    }
  }

  /** The code in front of the condition. */
  lemma IfPreparedSim(p: Program, c: CState, s: State, locals: seq<Val>, mid: seq<Option<Val>>, stack: seq<Val>,
                      depths: seq<nat>, kept: CState, ready: CState)
    returns (n: nat, t: State)
    requires Ready(p, c, s, locals, mid, stack, depths) && PreserveNonTopRegister(c) == Some(kept)
    requires PreserveArgsAndLocals(kept) == Some(ready) && Linked(p, ready)
    ensures Straight(p, s, n, t) && At(p, ready, t, locals, mid, stack)
  {
    hide Inv, Grows, GrowsAnyPage, Linked, Ready, At, Match, PreserveNonTopRegister, PreserveArgsAndLocals, Vals;
    ReadyFacts(p, c, s, locals, mid, stack, depths);
    PreserveNonTopRegisterOk(c);
    PreserveArgsAndLocalsOk(kept);
    GrowsAny(kept, ready);
    LinkedBefore(p, kept, ready);
    GoodTrans(c, kept, ready);
    var n1, t1 := PreserveNonTopRegisterSim(p, c, s, Vals(locals, mid, stack));
    var n2, t2 := PreserveArgsAndLocalsSim(p, kept, t1, Vals(locals, mid, stack));
    StraightTrans(p, s, n1, t1, n2, t2);
    n, t := n1 + n2, t2;
    GoodFacts(c, ready);
    AtFrom(p, ready, t, locals, mid, stack);
  }

  /** The condition takes control to the arm it selects; without an else arm, past the if. */
  lemma ConditionSim(p: Program, c: CState, g: IfStages, there: CState, s: State, locals: seq<Val>,
                     mid: seq<Option<Val>>, stack: seq<Val>, depths: seq<nat>, x: U32)
    returns (n: nat, t: State)
    requires Ready(p, c, s, locals, mid, stack, depths) && |stack| > 0 && stack[|stack| - 1] == V32(x)
    requires PreserveNonTopRegister(c) == Some(g.kept) && PreserveArgsAndLocals(g.kept) == Some(g.ready)
    requires |g.ready.stack| > 0 && IfStarted(g.ready) == Some(g.started)
    requires Good(c, g.ready) && Good(g.ready, g.started) && !g.ready.block.polymorphic && Good(c, g.started)
    requires Linked(p, g.started) && g.ready.nextId in CodeFor(p, c).patched
    requires x == 0 ==> CodeFor(p, c).patched[g.ready.nextId] == PcOf(there) && there.layout == g.started.layout
                        && there.block == g.started.block && there.stack == g.started.stack
    ensures Advance(p, c, s, n, t) && t.Running? && Straight(p, s, n, t)
    ensures At(p, if x != 0 then g.started else there, t, locals, mid, stack[..|stack| - 1])
  {
    hide Inv, Grows, GrowsAnyPage, Linked, Ready, At, PreserveNonTopRegister, PreserveArgsAndLocals, PcOf, Guarded,
      IfStarted;
    ReadyFacts(p, c, s, locals, mid, stack, depths);
    var below := stack[..|stack| - 1];
    GoodFacts(c, g.ready);
    GrowsAny(g.ready, g.started);
    LinkedBefore(p, g.ready, g.started);
    var n1, t1 := IfPreparedSim(p, c, s, locals, mid, stack, depths, g.kept, g.ready);
    IfGuarded(g.ready);
    GuardStep(p, g.ready, IfOp(g.ready), t1, locals, mid, stack, x);
    n, t := n1 + 1, Step(p, t1);
    StraightTrans(p, s, n1, t1, 1, t);
    StraightAdvance(p, c, s, n, t);
    if x == 0 {
      AtElsewhere(p, g.started, there, t1.(pc := t1.pc.Next()), t, locals, mid, below);
    }
  }

  lemma IfGuarded(ready: CState)
    requires |ready.stack| > 0
    ensures IfStarted(ready) == Guarded(ready, IfOp(ready))
    ensures IsGuard(IfOp(ready), ready.stack[|ready.stack| - 1].slot, ready.nextId)
  {
  }

  // ----- the else arm -----

  /** Behind the else arm one jump leads back to where the then arm ends. */
  lemma ElseExitSim(p: Program, c: CState, d: CState, e: CState, back: CState, s: State, n: nat, t: State,
                    mid: seq<Option<Val>>, depths: seq<nat>, o: Outcome, fuel: nat)
    returns (n': nat, t': State)
    requires |depths| == |Scopes(c)| && Sim(p, c, d, s, n, t, mid, depths, o, fuel) && Inv(d)
    requires var op := Branch(Known(PcOf(d.(page := back.page))));
      Linked(p, Emit(d, op)) && e == Emit(d, op).(page := back.page) && PcOf(e) == PcOf(d.(page := back.page))
    ensures Sim(p, c, e, s, n', t', mid, depths, o, fuel)
  {
    hide Inv, Linked, Landed, ReturnedWith, PcOf, Emit, Match, Advance;
    n', t' := n, t;
    if !Overflowed(t) && o.Normal? {
      var op := Branch(Known(PcOf(d.(page := back.page))));
      AtSize(p, d, t, o.locals, mid, o.stack);
      FetchEmitted(p, d, op);
      OneStep(p, t);
      n', t' := n + 1, Step(p, t);
      StepsCompose(p, n, 1, s);
      AdvanceStep(p, c, s, n, t, t');
      EmitFacts(d, op);
      AtMoved(p, d, e, t, t', o.locals, mid, o.stack);
    }
  }

  lemma AtMoved(p: Program, c: CState, d: CState, s: State, t: State, locals: seq<Val>, mid: seq<Option<Val>>,
                stack: seq<Val>)
    requires At(p, c, s, locals, mid, stack) && d.layout == c.layout && d.block == c.block && d.stack == c.stack
    requires t == s.(pc := PcOf(d))
    ensures At(p, d, t, locals, mid, stack)
  {
  }
}
