/** Control flow and calls keep the bound of StackBound, so it holds of every compiled function, and in every run each
    slot access of a function's body is covered by the one stack check of its op_Entry.
 */
module CodeBound {
  import opened Words
  import opened IntegerOps
  import opened Wasm
  import opened Machine
  import opened Allocator
  import opened Compiler
  import opened Invariant
  import opened CompilerInvariant
  import opened BlockInvariant
  import opened Relation
  import opened Control
  import opened FunctionSimulation
  import opened StackBound

  // ----- results and branches -----

  lemma ResolveResultsBound(c: CState, k: nat, isBranch: bool, m: Module)
    requires Inv(c) && Bound(c, m) && k < |Scopes(c)| && Scopes(c)[k].kind != FuncScope
    requires ResolveResults(c, Scopes(c)[k], isBranch).Some?
    ensures Bound(ResolveResults(c, Scopes(c)[k], isBranch).value, m)
  {
    hide Bound, Inv, CopyStackSlotsR;
    var target := Scopes(c)[k];
    ScopeKinds(c, k);
    ExitBounds(c, k);
    var n := if target.kind == LoopScope && isBranch then 0 else |target.results|;
    if n > 0 && target.exit + n <= |c.stack| {
      LandingInSlots(c, k);
      MovesBound(c, target.exit, |c.stack| - n, |c.stack|, c.maxSlots, m);
    }
  }

  lemma LandingInSlots(c: CState, k: nat)
    requires Inv(c) && 0 < k < |Scopes(c)|
    ensures forall j :: Scopes(c)[k].exit <= j < Scopes(c)[k].base ==> j < |c.stack| && !IsAlias(c.stack[j].slot)
  {
    ExitBounds(c, k);
    assert ScopeOk(c, k);
    forall j | Scopes(c)[k].exit <= j < Scopes(c)[k].base
      ensures j < |c.stack| && !IsAlias(c.stack[j].slot)
    {
      assert EntryOk(c, j);
    }
  }

  lemma {:induction false} ReturnCopiesBound(c: CState, results: seq<ValType>, k: nat, m: Module)
    requires Bound(c, m) && k <= |results| <= c.maxSlots && ReturnCopies(c, results, k).Some?
    ensures Bound(ReturnCopies(c, results, k).value, m)
    decreases |results| - k
  {
    hide Bound;
    if k < |results| {
      CopyBound(c, |results| - 1 - k, |c.stack| - 1 - k, m);
      ReturnCopiesBound(CopyIndexToSlot(c, |results| - 1 - k, |c.stack| - 1 - k), results, k + 1, m);
    }
  }

  lemma ReturnSlotsWithin(c: CState, m: Module)
    requires Inv(c) && Bound(c, m)
    ensures c.layout.numRets <= c.maxSlots
  {
    InvFacts(c);
  }

  lemma ReturnValuesBound(c: CState, results: seq<ValType>, isBranch: bool, m: Module)
    requires Inv(c) && Bound(c, m) && |results| == c.layout.numRets && ReturnValues(c, results, isBranch).Some?
    ensures Bound(ReturnValues(c, results, isBranch).value, m)
  {
    hide Bound, Inv, ReturnCopies, PopN;
    if !c.block.polymorphic {
      ReturnSlotsWithin(c, m);
      ReturnCopiesBound(c, results, 0, m);
      if !isBranch {
        PopNBound(ReturnCopies(c, results, 0).value, |results|, m);
      }
    }
  }

  /** Operations that name no slot and no address of their own. */
  lemma BareBound(c: CState, op: Op, m: Module)
    requires Bound(c, m)
      && (op.OpReturn? || op.OpUnreachable? || op.OpLoop? || op.ContinueLoop? || op.ContinueLoopIf?)
    ensures Bound(Emit(c, op), m)
  {
    EmitBound(c, op, m);
  }

  lemma JumpBound(c: CState, to: Target, m: Module)
    requires Bound(c, m) && TargetIn(to, c.layout.fn)
    ensures Bound(Emit(c, Branch(to)), m)
  {
    EmitBound(c, Branch(to), m);
  }

  lemma BranchToBound(c: CState, k: nat, m: Module)
    requires Inv(c) && Bound(c, m) && k < |Scopes(c)| && BranchTo(c, Scopes(c)[k]).Some?
    ensures Bound(BranchTo(c, Scopes(c)[k]).value, m)
  {
    hide Bound, Inv, ResolveResults, ReturnValues, Emit;
    var target := Scopes(c)[k];
    ScopeKinds(c, k);
    if target.kind == LoopScope {
      ResolveResultsBound(c, k, true, m);
      BareBound(ResolveResults(c, target, true).value, ContinueLoop(target.pc), m);
    } else if target.kind == FuncScope {
      ReturnValuesBound(c, target.results, true, m);
      BareBound(ReturnValues(c, target.results, true).value, OpReturn, m);
    } else {
      ResolveResultsBound(c, k, true, m);
      JumpBound(ResolveResults(c, target, true).value, Patched(target.end), m);
    }
  }

  lemma BrBound(c: CState, depth: nat, m: Module)
    requires Inv(c) && Bound(c, m) && CompileBr(c, depth).Some?
    ensures Bound(CompileBr(c, depth).value, m)
  {
    hide Bound, Inv, BranchTo, SetPolymorphic, Emit;
    ScopeAtOk(c, depth);
    var target := ScopeAt(c, depth).value;
    if target.kind == LoopScope {
      BareBound(c, ContinueLoop(target.pc), m);
      MarkedBound(Emit(c, ContinueLoop(target.pc)), c.block.(polymorphic := true), m);
    } else {
      BranchToBound(c, |Scopes(c)| - 1 - depth, m);
      SetPolymorphicBound(BranchTo(c, target).value, m);
    }
  }

  lemma MarkedBound(c: CState, block: Scope, m: Module)
    requires Bound(c, m)
    ensures Bound(c.(block := block), m)
  {
  }

  lemma ReturnBound(c: CState, m: Module)
    requires Inv(c) && Bound(c, m) && CompileReturn(c).Some?
    ensures Bound(CompileReturn(c).value, m)
  {
    hide Bound, Inv, ReturnValues, SetPolymorphic, Emit;
    ScopeKinds(c, 0);
    var results := Scopes(c)[0].results;
    ReturnValuesBound(c, results, true, m);
    var ready := ReturnValues(c, results, true).value;
    BareBound(ready, OpReturn, m);
    SetPolymorphicBound(Emit(ready, OpReturn), m);
  }

  lemma UnreachableBound(c: CState, m: Module)
    requires Bound(c, m) && CompileUnreachable(c).Some?
    ensures Bound(CompileUnreachable(c).value, m)
  {
    hide Bound, SetPolymorphic, Emit;
    BareBound(c, OpUnreachable, m);
    SetPolymorphicBound(Emit(c, OpUnreachable), m);
  }

  // ----- conditions -----

  /** An operation that tests the operand on top of the stack and may go to a forward reference. */
  predicate Tests(op: Op, cond: nat) {
    match op
    case IfR(t) => IsAlias(cond) && t.Patched?
    case IfS(s, t) => s == cond && !IsAlias(cond) && t.Patched?
    case PrologueR(t) => IsAlias(cond) && t.Patched?
    case PrologueS(s, t) => s == cond && !IsAlias(cond) && t.Patched?
    case BranchIfR(t) => IsAlias(cond) && t.Patched?
    case BranchIfS(s, t) => s == cond && !IsAlias(cond) && t.Patched?
    case _ => false
  }

  lemma TestBound(c: CState, op: Op, m: Module)
    requires Bound(c, m) && |c.stack| > 0 && Tests(op, c.stack[|c.stack| - 1].slot)
    ensures Bound(Emit(c, op), m) && Bound(Emit(FreshId(c), op), m)
  {
    assert EntriesWithin(FreshId(c).stack, c.maxSlots);
    BoundKept(c, FreshId(c), m);
    EmitBound(c, op, m);
    EmitBound(FreshId(c), op, m);
  }

  lemma CopyTopToRegisterBound(c: CState, m: Module)
    requires Bound(c, m) && CopyTopToRegister(c).Some?
    ensures Bound(CopyTopToRegister(c).value, m)
  {
    hide Bound, PreserveRegister;
    var e := c.stack[|c.stack| - 1];
    if !InRegister(c, |c.stack| - 1) {
      PreserveRegisterBound(c, m);
      var kept := PreserveRegister(c).value;
      PreserveRegisterMax(c);
      OperandWithin(c, |c.stack| - 1, m);
      LoadBound(kept, e, m);
    }
  }

  lemma LoadBound(c: CState, e: Entry, m: Module)
    requires Bound(c, m) && e.slot < c.maxSlots
    ensures Bound(Emit(c, SetRegister(e.ty, e.slot)), m)
  {
    EmitBound(c, SetRegister(e.ty, e.slot), m);
  }

  lemma BrIfBound(c: CState, depth: nat, m: Module)
    requires Inv(c) && Bound(c, m) && !c.block.polymorphic && CompileBrIf(c, depth).Some?
    ensures Bound(CompileBrIf(c, depth).value, m)
  {
    hide Bound, Inv, BranchTo, CopyTopToRegister, Pop, Emit, Define;
    ScopeAtOk(c, depth);
    var target := ScopeAt(c, depth).value;
    var cond := c.stack[|c.stack| - 1].slot;
    if target.kind == LoopScope {
      CopyTopToRegisterBound(c, m);
      var ready := CopyTopToRegister(c).value;
      PopBound(ready, m);
      BareBound(Pop(ready).value, ContinueLoopIf(target.pc), m);
    } else if |target.results| > 0 || target.kind == FuncScope {
      PrologueBound(c, |Scopes(c)| - 1 - depth, m);
    } else {
      var op := if IsAlias(cond) then BranchIfR(Patched(target.end)) else BranchIfS(cond, Patched(target.end));
      TestBound(c, op, m);
      PopBound(Emit(c, op), m);
    }
  }

  lemma PrologueBound(c: CState, k: nat, m: Module)
    requires Inv(c) && Bound(c, m) && !c.block.polymorphic && |c.stack| > 0 && k < |Scopes(c)|
    requires var cond, skip := c.stack[|c.stack| - 1].slot, Patched(c.nextId);
      var popped := Pop(Emit(FreshId(c), if IsAlias(cond) then PrologueR(skip) else PrologueS(cond, skip)));
      popped.Some? && BranchTo(popped.value, Scopes(c)[k]).Some?
    ensures var cond, skip := c.stack[|c.stack| - 1].slot, Patched(c.nextId);
      var popped := Pop(Emit(FreshId(c), if IsAlias(cond) then PrologueR(skip) else PrologueS(cond, skip))).value;
      Bound(Define(BranchTo(popped, Scopes(c)[k]).value, c.nextId), m)
  {
    hide Bound, Inv, Grows, BranchTo, Pop, Emit, Define;
    var target := Scopes(c)[k];
    ScopeKinds(c, k);
    if k > 0 {
      ExitBounds(c, k);
    }
    var cond, skip := c.stack[|c.stack| - 1].slot, Patched(c.nextId);
    var op := if IsAlias(cond) then PrologueR(skip) else PrologueS(cond, skip);
    TestBound(c, op, m);
    PopBound(Emit(FreshId(c), op), m);
    var popped := Pop(Emit(FreshId(c), op)).value;
    PrologueOk(c, target);
    GoodFacts(c, popped);
    BranchToBound(popped, k, m);
    DefineBound(BranchTo(popped, target).value, c.nextId, m);
  }

  // ----- br_table -----

  /** The targets of a br_table are first lines of pages of the same function. */
  lemma {:induction false} TargetsBound(c: CState, depths: seq<nat>, m: Module)
    requires Inv(c) && Bound(c, m) && CompileTargets(c, depths).Some?
    ensures Bound(CompileTargets(c, depths).value.0, m)
    ensures forall pc <- CompileTargets(c, depths).value.1 :: pc.fn == c.layout.fn
    decreases |depths|
  {
    hide Bound, Inv, Grows, BranchTo;
    if depths != [] {
      var rest := depths[..|depths| - 1];
      TargetsBound(c, rest, m);
      TargetsOk(c, rest);
      var s := CompileTargets(c, rest).value.0;
      GoodFacts(c, s);
      TargetBound(s, depths[|depths| - 1], m);
    }
  }

  lemma TargetBound(c: CState, depth: nat, m: Module)
    requires Inv(c) && Bound(c, m) && ScopeAt(c, depth).Some?
    requires BranchTo(c.(pages := c.pages + [[]], page := |c.pages|), ScopeAt(c, depth).value).Some?
    ensures Bound(BranchTo(c.(pages := c.pages + [[]], page := |c.pages|),
      ScopeAt(c, depth).value).value.(page := c.page), m)
  {
    hide Inv, BranchTo, PagesWithin, EntriesWithin;
    ScopeAtOk(c, depth);
    var onNew := c.(pages := c.pages + [[]], page := |c.pages|);
    NewPageOk(c);
    NewPageBound(c, m);
    BranchToBound(onNew, |Scopes(c)| - 1 - depth, m);
  }

  lemma TableBound(c: CState, cond: nat, pcs: seq<PC>, m: Module)
    requires Bound(c, m) && cond < c.maxSlots && forall pc <- pcs :: pc.fn == c.layout.fn
    ensures Bound(Emit(c, BranchTable(cond, pcs)), m)
  {
    EmitBound(c, BranchTable(cond, pcs), m);
  }

  /** With the register preserved, the operand of br_table is in a slot. */
  lemma TableOperandWithin(c: CState, m: Module)
    requires Inv(c) && Bound(c, m) && PreserveRegister(c).Some? && |c.stack| > 0
    ensures var ready := PreserveRegister(c).value;
      Bound(ready, m) && |ready.stack| == |c.stack| && ready.stack[|ready.stack| - 1].slot < ready.maxSlots
  {
    hide PreserveRegister;
    PreserveRegisterBound(c, m);
    PreserveRegisterOk(c);
    var ready := PreserveRegister(c).value;
    OperandWithin(ready, |ready.stack| - 1, m);
  }

  lemma BrTableBound(c: CState, targets: seq<nat>, default: nat, m: Module)
    requires Inv(c) && Bound(c, m) && !c.block.polymorphic && CompileBrTable(c, targets, default).Some?
    ensures Bound(CompileBrTable(c, targets, default).value, m)
  {
    hide Bound, Inv, Grows, PreserveRegister, Pop, CompileTargets, SetPolymorphic, Emit;
    var ready := PreserveRegister(c).value;
    PreserveRegisterOk(c);
    TableOperandWithin(c, m);
    var cond := ready.stack[|ready.stack| - 1].slot;
    TableOperandOk(c);
    var popped := Pop(ready).value;
    GoodFacts(c, popped);
    PopBound(ready, m);
    TargetsBound(popped, targets + [default], m);
    TargetsOk(popped, targets + [default]);
    var done := CompileTargets(popped, targets + [default]).value;
    GoodFacts(popped, done.0);
    PopMax(ready);
    MaxGrows(popped, done.0);
    TableBound(done.0, cond, done.1, m);
    SetPolymorphicBound(Emit(done.0, BranchTable(cond, done.1)), m);
  }

  lemma PopMax(c: CState)
    requires Pop(c).Some?
    ensures Pop(c).value.maxSlots == c.maxSlots && Pop(c).value.layout == c.layout
  {
  }

  lemma MaxGrows(c: CState, d: CState)
    requires Good(c, d)
    ensures c.maxSlots <= d.maxSlots && d.layout == c.layout
  {
  }

  // ----- calls -----

  /** What passing arguments leaves alone. */
  ghost predicate OnlyPassed(c: CState, d: CState) {
    && d.layout == c.layout && d.maxSlots == c.maxSlots && d.maxAllocated == c.maxAllocated && d.consts == c.consts
    && d.patched == c.patched && d.page == c.page
  }

  /** The copies of `n` arguments, the last argument first. */
  ghost predicate ArgumentCopies(ops: seq<Op>, base: nat, n: nat, max: nat) {
    && |ops| == n
    && forall i :: 0 <= i < n ==>
      && Writes(ops[i]) == [base + n - 1 - i] && (forall r <- Reads(ops[i]) :: r < max)
      && !ops[i].OpCall? && forall fn: nat :: StaysIn(ops[i], fn)
  }

  lemma CopyArgEmits(c: CState, dst: nat, max: nat) returns (op: Op)
    requires c.page < |c.pages| && EntriesWithin(c.stack, max)
    requires CopyTopToSlot(c, dst).Some? && Pop(CopyTopToSlot(c, dst).value).Some?
    ensures var d := Pop(CopyTopToSlot(c, dst).value).value;
      && OnlyPassed(c, d) && EntriesWithin(d.stack, max)
      && d.pages == c.pages[c.page := c.pages[c.page] + [op]]
    ensures ArgumentCopies([op], dst, 1, max)
  {
    var e := c.stack[|c.stack| - 1];
    op := if IsAlias(e.slot) then SetSlot(e.ty, dst) else CopySlot(e.ty, dst, e.slot);
  }

  lemma {:induction false} CopyArgsEmit(c: CState, base: nat, n: nat, max: nat) returns (ops: seq<Op>)
    requires c.page < |c.pages| && EntriesWithin(c.stack, max) && CopyArgs(c, base, n).Some?
    ensures var d := CopyArgs(c, base, n).value;
      && OnlyPassed(c, d) && EntriesWithin(d.stack, max)
      && d.pages == c.pages[c.page := c.pages[c.page] + ops]
    ensures ArgumentCopies(ops, base, n, max)
    decreases n
  {
    hide CopyTopToSlot, Pop, EntriesWithin, Reads, Writes, StaysIn;
    if n == 0 {
      ops := [];
      assert c.pages[c.page] + ops == c.pages[c.page];
      assert c.pages == c.pages[c.page := c.pages[c.page]];
    } else {
      var op := CopyArgEmits(c, base + n - 1, max);
      var popped := Pop(CopyTopToSlot(c, base + n - 1).value).value;
      var rest := CopyArgsEmit(popped, base, n - 1, max);
      ops := [op] + rest;
      assert c.pages[c.page] + ops == (c.pages[c.page] + [op]) + rest;
    }
  }

  /** The slots of a call's results count as used. */
  lemma {:induction false} PushResultsAtMax(c: CState, base: nat, results: seq<ValType>)
    requires PushResultsAt(c, base, results).Some?
    ensures var d := PushResultsAt(c, base, results).value;
      && c.maxSlots <= d.maxSlots && (results != [] ==> base + |results| <= d.maxSlots)
      && d.consts == c.consts && d.patched == c.patched
      && (c.maxAllocated <= c.maxSlots ==> d.maxAllocated <= d.maxSlots)
    decreases |results|
  {
    if results != [] {
      PushResultsAtMax(c, base, results[..|results| - 1]);
    }
  }

  /** The page of a call: what was there, the copies of the arguments, the call itself. */
  lemma CallPage(m: Module, was: seq<Op>, ops: seq<Op>, f: nat, base: nat, fn: nat, max: nat, more: nat)
    requires f < |m| && base + |m[f].results| <= Max(1, more) && max <= more
    requires ArgumentCopies(ops, base + |m[f].results|, |m[f].params|, more)
    requires forall l :: 0 <= l < |was| ==> LineWithin(m, was, l, fn, max)
    ensures var page := was + ops + [OpCall(f, base)];
      forall l :: 0 <= l < |page| ==> LineWithin(m, page, l, fn, more)
  {
    hide LineWithin;
    var page, n := was + ops + [OpCall(f, base)], |ops|;
    assert page[|was| + n] == OpCall(f, base);
    forall l | 0 <= l < |page|
      ensures LineWithin(m, page, l, fn, more)
    {
      if l < |was| {
        LineMore(m, was, page, l, fn, max, more);
      } else if l < |was| + n {
        assert page[l] == ops[l - |was|];
        assert IsArgument(m, page, |was| + n, n - 1 - (l - |was|));
        ArgumentLine(m, page, l, fn, more);
      } else {
        forall j | 0 <= j < n
          ensures IsArgument(m, page, l, j)
        {
          assert page[l - 1 - j] == ops[n - 1 - j];
        }
        CallLine(m, page, l, fn, more);
      }
    }
  }

  lemma ArgumentLine(m: Module, ops: seq<Op>, l: nat, fn: nat, max: nat)
    requires l < |ops| && Passes(m, ops, l) && !ops[l].OpCall? && StaysIn(ops[l], fn)
    requires forall r <- Reads(ops[l]) :: r < max
    ensures LineWithin(m, ops, l, fn, max)
  {
  }

  lemma CallLine(m: Module, ops: seq<Op>, l: nat, fn: nat, max: nat)
    requires l < |ops| && ops[l].OpCall? && CallServed(m, ops, l, max)
    ensures LineWithin(m, ops, l, fn, max)
  {
  }

  lemma CallBaseWithin(c: CState, m: Module)
    requires Inv(c) && Bound(c, m)
    ensures FrameBase(c) <= Max(1, c.maxSlots) && TrimMax(c, c.maxAllocated) <= c.maxAllocated <= c.maxSlots
    ensures c.layout.firstDynamic <= c.maxSlots && c.layout.FirstConst() + |c.consts| <= c.maxSlots
    ensures c.page < |c.pages| && EntriesWithin(c.stack, c.maxSlots)
    ensures forall id <- c.patched :: c.patched[id].fn == c.layout.fn
  {
    hide TrimMax, PagesWithin, EntriesWithin;
    TrimMaxOk(c, c.maxAllocated);
    InvFacts(c);
  }

  lemma EntriesMore(stack: seq<Entry>, max: nat, more: nat)
    requires EntriesWithin(stack, max) && max <= more
    ensures EntriesWithin(stack, more)
  {
  }

  /** What a call leaves, put together. */
  lemma CalledBound(c: CState, passed: CState, pushed: CState, ops: seq<Op>, m: Module, f: nat, base: nat)
    requires Bound(c, m) && c.page < |c.pages| && f < |m| && c.maxSlots <= pushed.maxSlots
    requires passed.pages == c.pages[c.page := c.pages[c.page] + ops] && passed.page == pushed.page == c.page
    requires pushed.pages == passed.pages && pushed.layout == c.layout && pushed.patched == c.patched
    requires pushed.consts == c.consts && pushed.maxAllocated <= pushed.maxSlots
    requires ArgumentCopies(ops, base + |m[f].results|, |m[f].params|, pushed.maxSlots)
    requires base + |m[f].results| <= Max(1, pushed.maxSlots) && EntriesWithin(passed.stack, pushed.maxSlots)
    requires pushed.stack == passed.stack + ConsecutiveEntries(base, m[f].results)
    requires m[f].results != [] ==> base + |m[f].results| <= pushed.maxSlots
    ensures Bound(Emit(pushed, OpCall(f, base)), m)
  {
    hide LineWithin, ArgumentCopies;
    var d := Emit(pushed, OpCall(f, base));
    CallPage(m, c.pages[c.page], ops, f, base, c.layout.fn, c.maxSlots, d.maxSlots);
    assert d.pages[c.page] == c.pages[c.page] + ops + [OpCall(f, base)];
    forall p, l | 0 <= p < |d.pages| && 0 <= l < |d.pages[p]|
      ensures LineWithin(m, d.pages[p], l, d.layout.fn, d.maxSlots)
    {
      if p != c.page {
        LineMore(m, c.pages[p], d.pages[p], l, c.layout.fn, c.maxSlots, d.maxSlots);
      }
    }
  }

  lemma CallBound(c: CState, m: Module, f: nat)
    requires Inv(c) && Bound(c, m) && !c.block.polymorphic && CompileCall(c, m, f).Some?
    ensures Bound(CompileCall(c, m, f).value, m)
  {
    hide Bound, Inv, Grows, CopyArgs, PushResultsAt, FrameBase, TrimMax, EntriesWithin, ArgumentCopies, Emit;
    var base, n := FrameBase(c), |m[f].results|;
    CallBaseWithin(c, m);
    ArgsPassedOk(c, m, f);
    var trimmed := c.(maxAllocated := TrimMax(c, c.maxAllocated));
    var passed := CopyArgs(trimmed, base + n, |m[f].params|).value;
    FrameBaseOk(c);
    GoodFacts(c, passed);
    var pushed := PushResultsAt(passed, base, m[f].results).value;
    PushResultsAtMax(passed, base, m[f].results);
    PushResultsAtOk(passed, base, m[f].results);
    CallMax(c, passed, pushed);
    EntriesMore(trimmed.stack, c.maxSlots, pushed.maxSlots);
    var ops := CopyArgsEmit(trimmed, base + n, |m[f].params|, pushed.maxSlots);
    CalledBound(c, passed, pushed, ops, m, f, base);
  }

  lemma CallMax(c: CState, passed: CState, pushed: CState)
    requires Good(c, passed) && Good(passed, pushed)
    ensures c.maxSlots <= pushed.maxSlots && pushed.layout == c.layout && pushed.page == c.page
  {
  }

  // ----- blocks -----

  lemma {:induction false} PushBlockResultsBound(c: CState, results: seq<ValType>, m: Module)
    requires Bound(c, m) && PushBlockResults(c, results).Some?
    ensures Bound(PushBlockResults(c, results).value, m)
    decreases |results|
  {
    hide Bound, PushAllocated;
    var n := |results|;
    if n > 0 {
      PushBlockResultsBound(c, results[..n - 1], m);
      PushAllocatedBound(PushBlockResults(c, results[..n - 1]).value, results[n - 1], m);
    }
  }

  lemma ReserveLandingBound(c: CState, results: seq<ValType>, m: Module)
    requires Bound(c, m) && ReserveLanding(c, results).Some?
    ensures Bound(ReserveLanding(c, results).value, m)
  {
    hide Bound, PushBlockResults, PopN;
    var pushed := PushBlockResults(c, results).value;
    PushBlockResultsBound(c, results, m);
    PopNBound(pushed, |results|, m);
    var popped := PopN(pushed, |results|).value;
    RecordsBound(pushed, popped, |c.stack|, m);
  }

  lemma RecordsBound(pushed: CState, popped: CState, from: nat, m: Module)
    requires Bound(pushed, m) && Bound(popped, m) && popped.maxSlots == pushed.maxSlots
      && from <= |pushed.stack|
    ensures Bound(popped.(stack := popped.stack + MarkDead(pushed.stack[from..])), m)
  {
    BoundKept(popped, popped.(stack := popped.stack + MarkDead(pushed.stack[from..])), m);
  }

  lemma EnteredBound(c: CState, kind: ScopeKind, results: seq<ValType>, exit: nat, m: Module)
    requires Bound(c, m)
    ensures Bound(EnterScope(c, kind, results, exit), m)
  {
    BoundKept(c, EnterScope(c, kind, results, exit), m);
  }

  lemma CutBound(c: CState, n: nat, m: Module)
    requires Bound(c, m) && n <= |c.stack|
    ensures Bound(c.(stack := c.stack[..n]), m)
  {
    BoundKept(c, c.(stack := c.stack[..n]), m);
  }

  lemma ClosedBound(c: CState, block: Scope, outers: seq<Scope>, m: Module)
    requires Bound(c, m)
    ensures Bound(Define(c, c.block.end).(block := block, outers := outers), m)
    ensures forall id :: Bound(Define(c, id).(block := block, outers := outers), m)
  {
  }

  lemma LeaveScopeBound(c: CState, outer: Scope, outers: seq<Scope>, m: Module)
    requires Inv(c) && Bound(c, m) && c.block.kind != FuncScope && LeaveScope(c, outer, outers).Some?
    ensures Bound(LeaveScope(c, outer, outers).value, m)
  {
    hide Bound, Inv, ResolveResults, UnwindStack, PushBlockResults, Define;
    var ready := if c.block.polymorphic then c else ResolveResults(c, c.block, false).value;
    if !c.block.polymorphic {
      ResolveResultsBound(c, |Scopes(c)| - 1, false, m);
    }
    UnwindBound(ready, m);
    var empty := UnwindStack(ready).value;
    if c.block.kind == IfScope || c.block.exit > |empty.stack| {
      ClosedBound(empty, outer, outers, m);
    } else {
      CutBound(empty, c.block.exit, m);
      var cut := empty.(stack := empty.stack[..c.block.exit]);
      PushBlockResultsBound(cut, c.block.results, m);
      ClosedBound(PushBlockResults(cut, c.block.results).value, outer, outers, m);
    }
  }

  lemma PreserveLocalBound(c: CState, i: nat, m: Module)
    requires Inv(c) && Bound(c, m) && i < |c.layout.locals| && i < |c.stack| && PreserveLocal(c, i).Some?
    ensures Bound(PreserveLocal(c, i).value, m)
  {
    hide Bound, Inv, FindReferencedLocal, Emit;
    var home := c.stack[i];
    HomeWithin(c, i, m);
    FindReferencedLocalBound(c, home.slot, m);
    var (found, kept) := FindReferencedLocal(c, home.slot).value;
    if kept != home.slot {
      KeepBound(found, home, kept, m);
    }
  }

  lemma KeepBound(c: CState, home: Entry, kept: nat, m: Module)
    requires Bound(c, m) && home.slot < c.maxSlots && kept < c.maxSlots
    ensures Bound(Emit(c, CopySlot(home.ty, kept, home.slot)), m)
  {
    EmitBound(c, CopySlot(home.ty, kept, home.slot), m);
  }

  lemma {:induction false} PreserveLocalsBound(c: CState, i: nat, m: Module)
    requires Inv(c) && NoAliases(c, i) && Bound(c, m) && i <= |c.layout.locals| && PreserveLocals(c, i).Some?
    ensures Bound(PreserveLocals(c, i).value, m)
    decreases |c.layout.locals| - i
  {
    hide Bound, Inv, Grows, NoAliases, PreserveLocal;
    if i < |c.layout.locals| && i < |c.stack| {
      PreserveLocalBound(c, i, m);
      PreserveLocalOk(c, i);
      PreserveLocalsBound(PreserveLocal(c, i).value, i + 1, m);
    }
  }

  lemma ArgsAndLocalsBound(c: CState, m: Module)
    requires Inv(c) && Bound(c, m) && PreserveArgsAndLocals(c).Some?
    ensures Bound(PreserveArgsAndLocals(c).value, m)
  {
    hide Bound, Inv, PreserveLocals;
    if |c.stack| > |c.layout.locals| {
      PreserveLocalsBound(c, 0, m);
    }
  }

  lemma PreparedBound(c: CState, m: Module)
    requires Inv(c) && Bound(c, m) && PreserveRegister(c).Some?
      && PreserveArgsAndLocals(PreserveRegister(c).value).Some?
    ensures Bound(PreserveArgsAndLocals(PreserveRegister(c).value).value, m)
  {
    hide Bound, Inv, Grows, PreserveRegister, PreserveArgsAndLocals;
    PreserveRegisterBound(c, m);
    PreserveRegisterOk(c);
    ArgsAndLocalsBound(PreserveRegister(c).value, m);
  }

  lemma IfPreparedBound(c: CState, m: Module)
    requires Inv(c) && Bound(c, m) && PreserveNonTopRegister(c).Some?
    requires PreserveArgsAndLocals(PreserveNonTopRegister(c).value).Some?
    ensures Bound(PreserveArgsAndLocals(PreserveNonTopRegister(c).value).value, m)
  {
    hide Bound, Inv, Grows, PreserveRegister, PreserveArgsAndLocals;
    if c.reg != 0 && c.reg != |c.stack| {
      PreserveRegisterBound(c, m);
    }
    PreserveNonTopRegisterOk(c);
    ArgsAndLocalsBound(PreserveNonTopRegister(c).value, m);
  }

  // ----- whole bodies -----

  lemma {:induction false} BlockBound(c: CState, m: Module, kind: ScopeKind, results: seq<ValType>, body: Body)
    requires Inv(c) && Clean(c) && !c.block.polymorphic && |results| <= 1 && kind != FuncScope
    requires Bound(c, m) && CompileBlock(c, m, kind, results, body).Some?
    ensures Bound(CompileBlock(c, m, kind, results, body).value, m)
    decreases body, 1
  {
    hide Bound, Inv, Grows, Ended, ReserveLanding, LeaveScope, CompileBody, Clean;
    ReserveLandingBound(c, results, m);
    EnteredBound(ReserveLanding(c, results).value, kind, results, |c.stack|, m);
    var s := Opened(c, kind, results);
    OpenedOk(c, kind, results);
    BodyBound(s, m, body);
    BodyOk(s, m, body);
    var done := CompileBody(s, m, body).value;
    DoneKind(s, done);
    LeaveScopeBound(done, c.block, c.outers, m);
  }

  lemma DoneKind(s: CState, d: CState)
    requires Done(s, d)
    ensures Inv(d) && d.block.kind == s.block.kind
  {
  }

  lemma {:induction false} ElseBound(c: CState, m: Module, id: nat, results: seq<ValType>, body: Body)
    requires Inv(ElseStart(c, id)) && Clean(ElseStart(c, id)) && !c.block.polymorphic && |results| <= 1
    requires Bound(c, m) && CompileElse(c, m, id, results, body).Some?
    ensures Bound(CompileElse(c, m, id, results, body).value, m)
    decreases body, 2
  {
    hide Bound, Inv, Grows, CompileBlock, Clean;
    NewPageBound(c, m);
    DefineBound(c.(pages := c.pages + [[]], page := |c.pages|), id, m);
    var named := ElseStart(c, id);
    BlockBound(named, m, ElseScope, results, body);
    BlockOk(named, m, ElseScope, results, body);
    var done := CompileBlock(named, m, ElseScope, results, body).value;
    JumpBackBound(done, c.page, m);
  }

  lemma JumpBackBound(c: CState, page: nat, m: Module)
    requires Bound(c, m)
    ensures Bound(Emit(c, Branch(Known(PcOf(c.(page := page))))).(page := page), m)
  {
    var to := Known(PcOf(c.(page := page)));
    JumpBound(c, to, m);
  }

  lemma {:induction false} IfBound(c: CState, m: Module, i: Instr)
    requires i.If? && Inv(c) && !c.block.polymorphic && Bound(c, m)
      && CompileIf(c, m, i).Some?
    ensures Bound(CompileIf(c, m, i).value, m)
    decreases i, 3
  {
    hide Bound, Inv, Grows, GrowsAnyPage, Clean, CompileBlock, CompileElse, PreserveNonTopRegister,
      PreserveArgsAndLocals, Emit,
      Pop, Define, ElseStart;
    var results := ResultSeq(i.result);
    IfPreparedOk(c);
    IfPreparedBound(c, m);
    var ready := PreserveArgsAndLocals(PreserveNonTopRegister(c).value).value;
    GoodFacts(c, ready);
    var cond, skip := ready.stack[|ready.stack| - 1].slot, Patched(ready.nextId);
    var op := if IsAlias(cond) then IfR(skip) else IfS(cond, skip);
    TestBound(ready, op, m);
    PopBound(Emit(FreshId(ready), op), m);
    IfStartedOk(ready);
    var started := IfStarted(ready).value;
    GoodFacts(ready, started);
    BlockBound(started, m, IfScope, results, i.thn);
    BlockOk(started, m, IfScope, results, i.thn);
    var armed := CompileBlock(started, m, IfScope, results, i.thn).value;
    CutBound(armed, |started.stack|, m);
    var back := armed.(stack := armed.stack[..|started.stack|]);
    assert back.stack == started.stack;
    if i.els.Some? {
      GoodFacts(started, back);
      GoodTrans(c, ready, started);
      GoodTrans(c, started, back);
      IdPending(c, ready, started, back);
      BackClean(started, back);
      ElseStartOk(c, back, ready.nextId, results);
      ElseBound(back, m, ready.nextId, results, i.els.value);
    } else {
      DefineBound(back, ready.nextId, m);
    }
  }

  lemma GetLocalBound(c: CState, n: nat, m: Module)
    requires Inv(c) && Bound(c, m) && CompileGetLocal(c, n).Some?
    ensures Bound(CompileGetLocal(c, n).value, m)
  {
    hide Bound, Inv;
    HomeWithin(c, n, m);
    PushBound(c, c.stack[n].ty, c.stack[n].slot, m);
  }

  lemma {:induction false} InstrBound(c: CState, m: Module, i: Instr)
    requires Inv(c) && !c.block.polymorphic && Bound(c, m) && CompileInstr(c, m, i).Some?
    ensures Bound(CompileInstr(c, m, i).value, m)
    decreases i, 4
  {
    hide Bound, Inv, Grows, Clean, CompileBlock, PreserveRegister, PreserveArgsAndLocals, Emit, CompileIf,
      CompileCall,
      CompileBrIf, CompileSelect, CompileBinary, CompileUnary, CompileSetLocal, CompileGetLocal, PushConst, Pop;
    match i
    case Const(v) => PushConstBound(c, v, m);
    case LocalGet(n) => GetLocalBound(c, n, m);
    case LocalSet(n) => SetLocalBound(c, n, false, m);
    case LocalTee(n) => SetLocalBound(c, n, true, m);
    case Unary(op) => UnaryBound(c, op, m);
    case Binary(op) => BinaryBound(c, op, m);
    case Select => SelectBound(c, m);
    case Drop => PopBound(c, m);
    case Nop =>
    case Block(result, body) =>
      PreparedOk(c);
      PreparedBound(c, m);
      var ready := PreserveArgsAndLocals(PreserveRegister(c).value).value;
      GoodFacts(c, ready);
      BlockBound(ready, m, BlockScope, ResultSeq(result), body);
    case Loop(result, body) =>
      PreparedOk(c);
      PreparedBound(c, m);
      var ready := PreserveArgsAndLocals(PreserveRegister(c).value).value;
      GoodFacts(c, ready);
      BareBound(ready, OpLoop, m);
      EmittedClean(ready, OpLoop);
      GoodFacts(ready, Emit(ready, OpLoop));
      BlockBound(Emit(ready, OpLoop), m, LoopScope, ResultSeq(result), body);
    case If(_, _, _) => IfBound(c, m, i);
    case BrIf(d) => BrIfBound(c, d, m);
    case Call(f) => CallBound(c, m, f);
  }

  /** Compiling any body keeps the bound. */
  lemma {:induction false} BodyBound(c: CState, m: Module, b: Body)
    requires Inv(c) && !c.block.polymorphic && Bound(c, m) && CompileBody(c, m, b).Some?
    ensures Bound(CompileBody(c, m, b).value, m)
    decreases b, 0
  {
    hide Bound, Inv, Grows, CompileInstr, CompileBr, CompileBrTable, CompileReturn, CompileUnreachable;
    match b
    case End =>
    case Then(i, rest) =>
      InstrOk(c, m, i);
      InstrBound(c, m, i);
      GoodFacts(c, CompileInstr(c, m, i).value);
      BodyBound(CompileInstr(c, m, i).value, m, rest);
    case Br(d) => BrBound(c, d, m);
    case BrTable(targets, default) => BrTableBound(c, targets, default, m);
    case Return => ReturnBound(c, m);
    case Unreachable => UnreachableBound(c, m);
  }
}
