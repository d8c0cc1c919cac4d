/** Compiling a block is neutral for the allocator: when its code is done, the operands, the usage of every dynamic
    slot and the register are as they were at entry, so the landing slot reserved at entry is the very slot pushed at
    exit. With that, every function body keeps the invariant.
 */
module BlockInvariant {
  import opened Words
  import opened Wasm
  import opened Machine
  import opened Allocator
  import opened Compiler
  import opened Invariant
  import opened CompilerInvariant

  /** Before a block is entered no operand lives in the register or aliases a local. */
  ghost predicate Clean(c: CState) {
    c.reg == 0 && NoAliases(c, |c.layout.locals|)
  }

  /** The scope that CompileBlock opens in state `c`. */
  function Opened(c: CState, kind: ScopeKind, results: seq<ValType>): CState
    requires ReserveLanding(c, results).Some?
  {
    EnterScope(ReserveLanding(c, results).value, kind, results, |c.stack|)
  }

  /** The records of the landing slots. */
  function Landing(c: CState, results: seq<ValType>): seq<Entry>
    requires |results| <= 1
  {
    if results == [] then [] else [Entry.Entry(FreeSlot(c).GetOr(0), results[0], false)]
  }

  /** Reserving a landing slot changes no usage count. */
  lemma ReserveLandingShape(c: CState, results: seq<ValType>)
    requires Inv(c) && !c.block.polymorphic && |results| <= 1 && ReserveLanding(c, results).Some?
    ensures results != [] ==> FreeSlot(c).Some?
    ensures var l := ReserveLanding(c, results).value;
      && Inv(l.(stack := c.stack)) && Grows(c, l.(stack := c.stack))
      && l.stack == c.stack + Landing(c, results) && l.reg == c.reg && l.pages == c.pages && l.patched == c.patched
      && l.nextId == c.nextId && l.block == c.block && l.outers == c.outers && l.usage == c.usage
          && l.consts == c.consts
  {
    hide Inv, Grows;
    GoodSelf(c);
    GoodFacts(c, c);
    var l := ReserveLanding(c, results).value;
    if results == [] {
      assert PushBlockResults(c, results) == Some(c);
      assert l.stack == c.stack;
    } else {
      assert results[..0] == [] && PushBlockResults(c, results[..0]) == Some(c);
      PushAllocatedOk(c, results[0]);
      var pushed := PushAllocated(c, results[0]).value;
      PopOk(pushed);
      var popped := Pop(pushed).value;
      assert PopN(pushed, 1) == Some(popped);
      GrowsTrans(c, pushed, popped);
      assert popped.stack == c.stack;
      assert pushed.stack[|c.stack|..] == [Entry.Entry(FreeSlot(c).value, results[0], true)];
      assert l.(stack := c.stack) == popped;
      assert popped.usage == c.usage;
    }
  }

  lemma OpenedSlots(c: CState, l: CState, s: CState, kind: ScopeKind, results: seq<ValType>)
    requires Inv(c) && Clean(c) && !c.block.polymorphic && |results| <= 1
    requires Inv(l.(stack := c.stack)) && Grows(c, l.(stack := c.stack)) && l.reg == 0
    requires results != [] ==> FreeSlot(c).Some?
    requires l.stack == c.stack + Landing(c, results)
    requires s == EnterScope(l, kind, results, |c.stack|)
    ensures SlotsOk(s)
  {
    forall i | |s.layout.locals| <= i < |s.stack|
      ensures EntryOk(s, i)
    {
      if i < |c.stack| {
        assert EntryOk(c, i);
      }
    }
    forall k | s.layout.firstDynamic <= k < MAX_FUNCTION_SLOTS
      ensures s.usage[k] == Count(s.stack, k)
    {
      CountDead(c.stack, Landing(c, results), k);
      assert l.(stack := c.stack).usage[k] == Count(c.stack, k);
    }
  }

  lemma OpenedScopes(c: CState, l: CState, s: CState, kind: ScopeKind, results: seq<ValType>)
    requires Inv(c) && Clean(c) && !c.block.polymorphic && |results| <= 1 && kind != FuncScope
    requires results != [] ==> FreeSlot(c).Some?
    requires l.stack == c.stack + Landing(c, results) && l.pages == c.pages && l.patched == c.patched
    requires l.layout == c.layout && l.page == c.page && l.consts == c.consts
    requires l.nextId == c.nextId && l.block == c.block && l.outers == c.outers
    requires s == EnterScope(l, kind, results, |c.stack|)
    ensures ScopesOk(s)
  {
    var n := |Scopes(c)|;
    assert forall k :: 0 <= k < n ==> Scopes(s)[k] == Scopes(c)[k];
    forall k | 0 <= k < |Scopes(s)|
      ensures ScopeOk(s, k)
    {
      if k < n {
        assert ScopeOk(c, k);
        assert Scopes(c)[k].base <= |c.stack|;
      } else {
        LandingUnused(c, results);
        assert c.nextId !in c.patched;
      }
    }
  }

  /** A free slot is not named by any operand. */
  lemma LandingUnused(c: CState, results: seq<ValType>)
    requires Inv(c) && |results| <= 1
    requires results != [] ==> FreeSlot(c).Some?
    ensures forall i, j :: 0 <= i < |c.stack| && 0 <= j < |results| && c.stack[i].live ==>
      c.stack[i].slot != Landing(c, results)[j].slot
  {
    if results != [] {
      CountZero(c.stack, FreeSlot(c).value);
    }
  }

  lemma OpenedOk(c: CState, kind: ScopeKind, results: seq<ValType>)
    requires Inv(c) && Clean(c) && !c.block.polymorphic && |results| <= 1 && kind != FuncScope
    requires ReserveLanding(c, results).Some?
    ensures var s := Opened(c, kind, results);
      && Inv(s) && !s.block.polymorphic && s.stack == c.stack + Landing(c, results) && s.pages == c.pages
      && s.patched == c.patched && s.nextId == c.nextId + 1 && s.page == c.page && s.layout == c.layout
          && s.consts == c.consts
      && s.outers == c.outers + [c.block] && c.maxSlots <= s.maxSlots && s.reg == 0
      && s.block == Scope(kind, |s.stack|, |c.stack|, results, PcOf(c), c.nextId, false)
  {
    ReserveLandingShape(c, results);
    var l := ReserveLanding(c, results).value;
    var s := Opened(c, kind, results);
    OpenedSlots(c, l, s, kind, results);
    OpenedScopes(c, l, s, kind, results);
  }

  // ----- leaving -----

  /** The state of the enclosing scope right after a block's code, before its results are pushed. */
  function Back(c: CState, empty: CState): CState {
    Define(empty.(stack := c.stack), empty.block.end).(block := c.block, outers := c.outers)
  }

  lemma BackSlots(c: CState, s: CState, empty: CState, results: seq<ValType>)
    requires Inv(c) && Clean(c) && |results| <= 1
    requires s.stack == c.stack + Landing(c, results) && s.consts == c.consts && s.layout == c.layout
    requires Inv(empty) && CodeGrows(s, empty) && empty.stack == s.stack && empty.reg == 0
    ensures SlotsOk(Back(c, empty))
  {
    var b := Back(c, empty);
    forall i | |b.layout.locals| <= i < |b.stack|
      ensures EntryOk(b, i)
    {
      assert EntryOk(c, i);
    }
    forall k | b.layout.firstDynamic <= k < MAX_FUNCTION_SLOTS
      ensures b.usage[k] == Count(b.stack, k)
    {
      CountDead(c.stack, Landing(c, results), k);
    }
  }

  /** Everything the enclosing scope sees is as before, but for appended code. */
  lemma BackOk(c: CState, s: CState, empty: CState, results: seq<ValType>)
    requires Inv(c) && Clean(c) && |results| <= 1
    requires s.stack == c.stack + Landing(c, results) && s.consts == c.consts && s.layout == c.layout
      && s.pages == c.pages
    requires s.patched == c.patched && s.nextId == c.nextId + 1 && s.page == c.page && s.block.end == c.nextId
    requires c.maxSlots <= s.maxSlots
    requires Inv(empty) && CodeGrows(s, empty) && empty.stack == s.stack && empty.reg == 0
    requires empty.page == s.page && empty.block.end == s.block.end
    ensures Good(c, Back(c, empty))
  {
    BackSlots(c, s, empty, results);
    ScopesUnchanged(c, Back(c, empty));
  }

  /** The last statement of the block may have been a jump. */
  ghost predicate Done(s: CState, d: CState) {
    Ended(s, d) || (Good(s, d) && !d.block.polymorphic)
  }

  lemma EmptiedOk(s: CState, done: CState)
    requires Inv(s) && Done(s, done) && |s.block.results| <= 1 && |s.stack| == s.block.base
    requires !done.block.polymorphic ==> ResolveResults(done, done.block, false).Some?
    ensures var ready := if done.block.polymorphic then done else ResolveResults(done, done.block, false).value;
      && Inv(ready) && UnwindStack(ready).Some?
      && var empty := UnwindStack(ready).value;
         Inv(empty) && CodeGrows(s, empty) && empty.stack == s.stack && empty.reg == 0 && empty.page == s.page
         && empty.block == done.block && empty.block.(polymorphic := false) == s.block.(polymorphic := false)
         && empty.pages == ready.pages && empty.layout == s.layout && empty.outers == s.outers
  {
    var ready := if done.block.polymorphic then done else ResolveResults(done, done.block, false).value;
    if !done.block.polymorphic {
      ResolveResultsOk(done, done.block, false);
    }
    UnwindOk(ready);
    var empty := UnwindStack(ready).value;
    assert empty.stack == s.stack[..s.block.base];
  }

  /** What CompileBlock leaves: for an if arm the bare enclosing state under stale records, otherwise that state with
      the results pushed, in the slots that were reserved at entry. */
  lemma LeaveScopeOk(c: CState, kind: ScopeKind, results: seq<ValType>, done: CState)
    requires Inv(c) && Clean(c) && !c.block.polymorphic && |results| <= 1 && kind != FuncScope
    requires ReserveLanding(c, results).Some? && Done(Opened(c, kind, results), done)
    requires LeaveScope(done, c.block, c.outers).Some?
    ensures var e := LeaveScope(done, c.block, c.outers).value;
      if kind == IfScope then c.stack <= e.stack && Good(c, e.(stack := c.stack)) && e.reg == 0
      else Good(c, e) && e.stack == c.stack + ResultRecords(c, results)
    ensures LeaveScope(done, c.block, c.outers).value.block == c.block
  {
    hide Inv, Grows, CodeGrows, Ended, ResolveResults, PushBlockResults, UnwindStack, ReserveLanding;
    var s := Opened(c, kind, results);
    OpenedOk(c, kind, results);
    EmptiedOk(s, done);
    var ready := if done.block.polymorphic then done else ResolveResults(done, done.block, false).value;
    var empty := UnwindStack(ready).value;
    BackOk(c, s, empty, results);
    var b := Back(c, empty);
    assert empty.stack[..empty.block.exit] == c.stack;
    var e := LeaveScope(done, c.block, c.outers).value;
    if kind == IfScope {
      assert e.(stack := c.stack) == b;
      assert e.stack == c.stack + Landing(c, results);
    } else {
      PushedBack(c, b, empty, results, e);
    }
  }

  /** The live operands a block leaves. */
  function ResultRecords(c: CState, results: seq<ValType>): seq<Entry>
    requires |results| <= 1
  {
    if results == [] then [] else [Entry.Entry(FreeSlot(c).GetOr(0), results[0], true)]
  }

  /** The usage counts are back, so the allocator picks the same slot again. */
  lemma SameFreeSlot(c: CState, d: CState)
    requires Inv(c) && Inv(d) && d.layout == c.layout && d.stack == c.stack
    ensures FreeSlot(d) == FreeSlot(c)
  {
    FirstFreeSame(c.usage, d.usage, c.layout.firstDynamic, MAX_FUNCTION_SLOTS);
  }

  lemma {:induction false} FirstFreeSame(u: Usage, v: Usage, from: nat, limit: nat)
    requires forall s :: from <= s < limit && s < MAX_FUNCTION_SLOTS ==> u[s] == v[s]
    ensures FirstFree(u, from, limit) == FirstFree(v, from, limit)
    decreases if from < limit then limit - from else 0
  {
    if from < limit && from < MAX_FUNCTION_SLOTS {
      FirstFreeSame(u, v, from + 1, limit);
    }
  }

  /** Allocating a result commutes with closing the scope. */
  lemma PushAllocatedFrame(x: CState, patched: map<nat, PC>, block: Scope, outers: seq<Scope>, ty: ValType)
    requires PushAllocated(x, ty).Some?
    ensures PushAllocated(x.(patched := patched, block := block, outers := outers), ty)
         == Some(PushAllocated(x, ty).value.(patched := patched, block := block, outers := outers))
    ensures PcOf(PushAllocated(x, ty).value) == PcOf(x) && PushAllocated(x, ty).value.patched == x.patched
  {
  }

  lemma PushedBack(c: CState, b: CState, empty: CState, results: seq<ValType>, e: CState)
    requires Inv(c) && Good(c, b) && |results| <= 1 && b.stack == c.stack
    requires b == Back(c, empty)
    requires PushBlockResults(empty.(stack := c.stack), results).Some?
    requires e == Define(PushBlockResults(empty.(stack := c.stack), results).value, empty.block.end)
                  .(block := c.block, outers := c.outers)
    ensures Good(c, e) && e.stack == c.stack + ResultRecords(c, results)
  {
    hide Inv, Grows, CodeGrows, PushAllocated, PcOf;
    GoodFacts(c, b);
    var x := empty.(stack := c.stack);
    if results == [] {
      assert e == b;
    } else {
      assert results[..0] == [] && PushBlockResults(x, []) == Some(x);
      SameFreeSlot(c, b);
      PushAllocatedFrame(x, b.patched, c.block, c.outers, results[0]);
      PushAllocatedOk(b, results[0]);
      GoodTrans(c, b, e);
    }
  }

  // ----- whole bodies -----

  /** The common prologue of block and loop. */
  lemma PreparedOk(c: CState)
    requires Inv(c) && PreserveRegister(c).Some? && PreserveArgsAndLocals(PreserveRegister(c).value).Some?
    ensures var d := PreserveArgsAndLocals(PreserveRegister(c).value).value;
      Good(c, d) && Clean(d) && |d.stack| == |c.stack|
  {
    PreserveRegisterOk(c);
    var kept := PreserveRegister(c).value;
    PreserveArgsAndLocalsOk(kept);
    GoodTrans(c, kept, PreserveArgsAndLocals(kept).value);
  }

  lemma EmittedClean(c: CState, op: Op)
    requires Inv(c) && Clean(c)
    ensures Good(c, Emit(c, op)) && Clean(Emit(c, op))
  {
    EmitOk(c, op);
  }

  /** The state of an if just before its arms: a pending reference to the else arm, the condition popped. */
  function IfStarted(ready: CState): Option<CState>
    requires |ready.stack| > 0
  {
    var cond := ready.stack[|ready.stack| - 1].slot;
    var skip := Patched(ready.nextId);
    Pop(Emit(FreshId(ready), if IsAlias(cond) then IfR(skip) else IfS(cond, skip)))
  }

  /** The state of an if in front of its arms, from the one in front of the whole. */
  function Started(c: CState): Option<CState> {
    var kept :- PreserveNonTopRegister(c);
    var ready :- PreserveArgsAndLocals(kept);
    if |ready.stack| == 0 then None else IfStarted(ready)
  }

  lemma IfStartedOk(ready: CState)
    requires Inv(ready) && !ready.block.polymorphic && |ready.stack| > 0 && IfStarted(ready).Some?
    requires NoAliases(ready, |ready.layout.locals|) && (ready.reg == 0 || ready.reg == |ready.stack|)
    ensures var d := IfStarted(ready).value;
      Good(ready, d) && Clean(d) && d.nextId == ready.nextId + 1 && d.stack == ready.stack[..|ready.stack| - 1]
      && ready.nextId !in d.patched
  {
    var cond := ready.stack[|ready.stack| - 1].slot;
    var skip := Patched(ready.nextId);
    var op := if IsAlias(cond) then IfR(skip) else IfS(cond, skip);
    FreshIdOk(ready);
    EmitOk(FreshId(ready), op);
    PopOk(Emit(FreshId(ready), op));
    GoodTrans(ready, FreshId(ready), Emit(FreshId(ready), op));
    GoodTrans(ready, Emit(FreshId(ready), op), IfStarted(ready).value);
  }

  lemma IfPreparedOk(c: CState)
    requires Inv(c) && PreserveNonTopRegister(c).Some?
    requires PreserveArgsAndLocals(PreserveNonTopRegister(c).value).Some?
    ensures var d := PreserveArgsAndLocals(PreserveNonTopRegister(c).value).value;
      Good(c, d) && NoAliases(d, |d.layout.locals|) && (d.reg == 0 || d.reg == |d.stack|) && |d.stack| == |c.stack|
  {
    PreserveNonTopRegisterOk(c);
    var kept := PreserveNonTopRegister(c).value;
    PreserveArgsAndLocalsOk(kept);
    GoodTrans(c, kept, PreserveArgsAndLocals(kept).value);
  }

  lemma {:induction false} BlockOk(c: CState, m: Module, kind: ScopeKind, results: seq<ValType>, body: Body)
    requires Inv(c) && Clean(c) && !c.block.polymorphic && |results| <= 1 && kind != FuncScope
    requires CompileBlock(c, m, kind, results, body).Some?
    ensures var e := CompileBlock(c, m, kind, results, body).value;
      if kind == IfScope then c.stack <= e.stack && Good(c, e.(stack := c.stack)) && e.reg == 0
      else Good(c, e) && e.stack == c.stack + ResultRecords(c, results)
    ensures CompileBlock(c, m, kind, results, body).value.block == c.block
    decreases body, 1
  {
    hide Inv, Grows, Ended, ReserveLanding, LeaveScope;
    var s := Opened(c, kind, results);
    OpenedOk(c, kind, results);
    BodyOk(s, m, body);
    LeaveScopeOk(c, kind, results, CompileBody(s, m, body).value);
  }

  lemma {:induction false} ElseOk(c0: CState, c: CState, m: Module, id: nat, results: seq<ValType>, body: Body)
    requires Inv(c0) && Good(c0, c) && c0.nextId <= id < c.nextId
    requires Clean(c) && !c.block.polymorphic && |results| <= 1
    requires CompileElse(c, m, id, results, body).Some?
    ensures var d := CompileElse(c, m, id, results, body).value;
      Good(c0, d) && d.stack == c.stack + ResultRecords(c, results)
    decreases body, 2
  {
    hide Inv, Grows, GrowsAnyPage, CompileBlock;
    var named := ElseStart(c, id);
    ElseStartOk(c0, c, id, results);
    BlockOk(named, m, ElseScope, results, body);
    var done := CompileBlock(named, m, ElseScope, results, body).value;
    GoodFacts(c0, c);
    ElseEndOk(c0, named, done, c.page);
  }

  /** The first line of the else arm's page, where the pending reference goes. */
  function ElseStart(c: CState, id: nat): CState {
    Define(c.(pages := c.pages + [[]], page := |c.pages|), id)
  }

  lemma ElseStartOk(c0: CState, c: CState, id: nat, results: seq<ValType>)
    requires Inv(c0) && Good(c0, c) && c0.nextId <= id < c.nextId && Clean(c) && |results| <= 1
    ensures Inv(ElseStart(c, id)) && GrowsAnyPage(c0, ElseStart(c, id)) && Clean(ElseStart(c, id))
    ensures ElseStart(c, id).page >= |c0.pages|
    ensures ResultRecords(ElseStart(c, id), results) == ResultRecords(c, results)
  {
    var onNew := c.(pages := c.pages + [[]], page := |c.pages|);
    NewPageOk(c);
    DefineOk(c0, onNew, id);
  }

  lemma ElseEndOk(c0: CState, named: CState, done: CState, page: nat)
    requires Inv(c0) && GrowsAnyPage(c0, named) && Good(named, done) && page == c0.page && named.page >= |c0.pages|
    ensures var op := Branch(Known(PcOf(done.(page := page))));
      Good(c0, Emit(done, op).(page := page)) && Emit(done, op).(page := page).stack == done.stack
  {
    var op := Branch(Known(PcOf(done.(page := page))));
    EmitOk(done, op);
    GrowsTrans(named, done, Emit(done, op));
    assert GrowsAnyPage(c0, Emit(done, op));
    OldPageOk(c0, Emit(done, op));
  }

  lemma {:induction false} IfOk(c: CState, m: Module, i: Instr)
    requires i.If? && Inv(c) && !c.block.polymorphic && CompileIf(c, m, i).Some?
    ensures Good(c, CompileIf(c, m, i).value)
    decreases i, 3
  {
    hide Inv, Grows, GrowsAnyPage, Clean, CompileBlock, CompileElse, PreserveNonTopRegister, PreserveArgsAndLocals,
      Emit, Pop;
    var results := ResultSeq(i.result);
    IfPreparedOk(c);
    var ready := PreserveArgsAndLocals(PreserveNonTopRegister(c).value).value;
    GoodFacts(c, ready);
    IfStartedOk(ready);
    var started := IfStarted(ready).value;
    GoodTrans(c, ready, started);
    GoodFacts(c, started);
    BlockOk(started, m, IfScope, results, i.thn);
    var armed := CompileBlock(started, m, IfScope, results, i.thn).value;
    assert armed.stack[..|started.stack|] == started.stack;
    var back := armed.(stack := started.stack);
    GoodFacts(started, back);
    GoodTrans(c, started, back);
    IdPending(c, ready, started, back);
    if i.els.Some? {
      BackClean(started, back);
      ElseOk(c, back, m, ready.nextId, results, i.els.value);
    } else {
      DefinedOk(c, back, ready.nextId);
    }
  }

  /** Both arms of an if start with the same operands in the same dynamic slots and an empty register, reserve the same
      landing slot, and the operands afterwards are those the arms started with, and the result in that slot. */
  lemma {:induction false} IfArms(c: CState, m: Module, i: Instr)
    requires i.If? && Inv(c) && !c.block.polymorphic && CompileIf(c, m, i).Some?
    ensures Started(c).Some? && CompileBlock(Started(c).value, m, IfScope, ResultSeq(i.result), i.thn).Some?
    ensures var started, results := Started(c).value, ResultSeq(i.result);
      var back := CompileBlock(started, m, IfScope, results, i.thn).value.(stack := started.stack);
      && started.reg == 0 && back.reg == 0
      && (forall s :: c.layout.firstDynamic <= s < MAX_FUNCTION_SLOTS ==> back.usage[s] == started.usage[s])
      && ResultRecords(back, results) == ResultRecords(started, results)
    ensures var started := Started(c).value;
      CompileIf(c, m, i).value.stack
      == started.stack + if i.els.Some? then ResultRecords(started, ResultSeq(i.result)) else []
  {
    hide Inv, Grows, GrowsAnyPage, CompileBlock, CompileElse, PreserveNonTopRegister, PreserveArgsAndLocals, Emit, Pop;
    var results := ResultSeq(i.result);
    IfPreparedOk(c);
    var ready := PreserveArgsAndLocals(PreserveNonTopRegister(c).value).value;
    GoodFacts(c, ready);
    IfStartedOk(ready);
    var started := IfStarted(ready).value;
    GoodFacts(ready, started);
    BlockOk(started, m, IfScope, results, i.thn);
    var armed := CompileBlock(started, m, IfScope, results, i.thn).value;
    assert armed.stack[..|started.stack|] == started.stack;
    var back := armed.(stack := started.stack);
    GoodFacts(started, back);
    SameUsage(started, back);
    SameFreeSlot(started, back);
    if i.els.Some? {
      BackClean(started, back);
      GoodTrans(c, ready, started);
      GoodTrans(c, started, back);
      IdPending(c, ready, started, back);
      ElseOk(c, back, m, ready.nextId, results, i.els.value);
    }
  }

  lemma SameUsage(c: CState, d: CState)
    requires Inv(c) && Inv(d) && d.layout == c.layout && d.stack == c.stack
    ensures forall s :: c.layout.firstDynamic <= s < MAX_FUNCTION_SLOTS ==> d.usage[s] == c.usage[s]
  {
  }

  lemma IdPending(c: CState, ready: CState, started: CState, back: CState)
    requires Good(c, ready) && Good(started, back) && started.nextId == ready.nextId + 1
    ensures c.nextId <= ready.nextId < back.nextId
  {
  }

  lemma BackClean(started: CState, back: CState)
    requires Good(started, back) && Clean(started) && back.reg == 0 && back.stack == started.stack
    ensures Clean(back)
  {
  }

  lemma DefinedOk(c: CState, back: CState, id: nat)
    requires Inv(c) && Good(c, back) && c.nextId <= id < back.nextId
    ensures Good(c, Define(back, id))
  {
    DefineOk(c, back, id);
  }

  lemma {:induction false} InstrOk(c: CState, m: Module, i: Instr)
    requires Inv(c) && !c.block.polymorphic && CompileInstr(c, m, i).Some?
    ensures Good(c, CompileInstr(c, m, i).value)
    decreases i, 4
  {
    hide Inv, Grows, Clean, CompileBlock, PreserveRegister, PreserveArgsAndLocals, Emit, CompileIf, CompileCall,
      CompileBrIf,
      CompileSelect, CompileBinary, CompileUnary, CompileSetLocal, CompileGetLocal, PushConst;
    match i
    case Const(v) => PushConstOk(c, v);
    case LocalGet(n) => GetLocalOk(c, n);
    case LocalSet(n) => SetLocalOk(c, n, false);
    case LocalTee(n) => SetLocalOk(c, n, true);
    case Unary(op) => UnaryOk(c, op);
    case Binary(op) => BinaryOk(c, op);
    case Select => SelectOk(c);
    case Drop => DropOk(c);
    case Nop => GoodSelf(c);
    case Block(result, body) =>
      PreparedOk(c);
      var ready := PreserveArgsAndLocals(PreserveRegister(c).value).value;
      GoodFacts(c, ready);
      BlockOk(ready, m, BlockScope, ResultSeq(result), body);
      GoodTrans(c, ready, CompileInstr(c, m, i).value);
    case Loop(result, body) =>
      PreparedOk(c);
      var ready := PreserveArgsAndLocals(PreserveRegister(c).value).value;
      GoodFacts(c, ready);
      EmittedClean(ready, OpLoop);
      GoodFacts(ready, Emit(ready, OpLoop));
      BlockOk(Emit(ready, OpLoop), m, LoopScope, ResultSeq(result), body);
      GoodTrans(c, ready, Emit(ready, OpLoop));
      GoodTrans(c, Emit(ready, OpLoop), CompileInstr(c, m, i).value);
    case If(_, _, _) => IfOk(c, m, i);
    case BrIf(d) => BrIfOk(c, d);
    case Call(f) => CallOk(c, m, f);
  }

  /** Every body that compiles keeps the invariant, appends code, and leaves the operands below its block alone. */
  lemma {:induction false} BodyOk(c: CState, m: Module, b: Body)
    requires Inv(c) && !c.block.polymorphic && CompileBody(c, m, b).Some?
    ensures Done(c, CompileBody(c, m, b).value)
    decreases b, 0
  {
    hide Inv, Grows, Ended, CompileInstr, CompileBr, CompileBrTable, CompileReturn, CompileUnreachable;
    match b
    case End => GoodSelf(c);
    case Then(i, rest) =>
      InstrOk(c, m, i);
      var next := CompileInstr(c, m, i).value;
      GoodFacts(c, next);
      BodyOk(next, m, rest);
      DoneTrans(c, next, CompileBody(next, m, rest).value);
    case Br(d) => BrOk(c, d);
    case BrTable(targets, default) => BrTableOk(c, targets, default);
    case Return => ReturnOk(c);
    case Unreachable => UnreachableOk(c);
  }

  lemma DoneTrans(c: CState, d: CState, e: CState)
    requires Good(c, d) && Done(d, e)
    ensures Done(c, e)
  {
    if Ended(d, e) {
      EndedTrans(c, d, e);
    } else {
      GoodTrans(c, d, e);
    }
  }

  // ----- functions -----

  lemma {:induction false} HomesCount(l: Layout, stack: seq<Entry>, slot: nat)
    requires forall i :: 0 <= i < |stack| ==> stack[i].slot == l.numRets + i
    requires slot >= l.numRets + |stack|
    ensures Count(stack, slot) == 0
  {
    CountZero(stack, slot);
  }

  /** The state CompileFunction builds before the first opcode satisfies the invariant. */
  lemma InitialOk(fn: nat, f: Func, reserved: nat)
    requires InitialState(fn, f, reserved).Some?
    ensures Inv(InitialState(fn, f, reserved).value)
  {
    var c := InitialState(fn, f, reserved).value;
    forall s | c.layout.firstDynamic <= s < MAX_FUNCTION_SLOTS
      ensures Count(c.stack, s) == 0
    {
      HomesCount(c.layout, c.stack, s);
    }
  }
}
