/** The opcode handlers and the block compiler as the source has them: procedures that update the compilation object.
    Each is proved to do exactly what its function does, so everything proved about those functions holds of the
    updates in place.
 */
module Handlers {
  import opened Words
  import opened IntegerOps
  import opened Wasm
  import opened Machine
  import opened Allocator
  import opened Invariant
  import opened CompilerInvariant
  import opened BlockInvariant
  import opened Compilation
  import Compiler

  // ----- constants -----

  lemma ConstantAllocated(c: CState, i: nat)
    requires Inv(c) && i < |c.consts|
    ensures c.layout.FirstConst() + i < MAX_FUNCTION_SLOTS && c.usage[c.layout.FirstConst() + i] != 0
  {
    assert IsConstant(c, c.layout.FirstConst() + i);
  }

  method PushConst(o: Compiling, v: Val) returns (ok: bool)
    requires o.Valid() && Inv(o.State())
    modifies o.Parts()
    ensures o.Did(ok, Compiler.PushConst(old(o.State()), v))
  {
    ghost var c := o.State();
    InvFacts(c);
    var first := o.layout.FirstConst();
    var i := 0;
    while i < o.numConstants
      invariant 0 <= i <= o.numConstants && o.Valid() && o.State() == c
      invariant Compiler.FindConstant(c.consts, v, 0) == Compiler.FindConstant(c.consts, v, i)
    {
      ConstantAllocated(c, i);
      assert o.constants[i] == c.consts[i] && o.m3Slots[first + i] == c.usage[first + i];
      if o.m3Slots[first + i] != 0 && Compiler.SameConstant(o.constants[i], v) {
        ok := o.Push(v.Type(), first + i);
        return;
      }
      i := i + 1;
    }
    ok := PushNewConst(o, v);
  }

  /** A constant that is not in the table: a new entry, or an inline constant when the table is full. */
  method PushNewConst(o: Compiling, v: Val) returns (ok: bool)
    requires o.Valid() && Inv(o.State()) && Compiler.FindConstant(o.State().consts, v, 0) == |o.State().consts|
    modifies o.Parts()
    ensures o.Did(ok, Compiler.PushConst(old(o.State()), v))
  {
    hide Inv;
    InvFacts(o.State());
    var slot;
    if FreeConstantSlot(o.State()).Some? {
      NextConstantSlot(o.State());
    }
    ok, slot := o.AllocateConstantSlots();
    if ok {
      WriteConst(o, v, slot - o.layout.FirstConst());
      ok := o.Push(v.Type(), slot);
    } else {
      ok, slot := o.AllocateSlots();
      if ok {
        o.EmitOp(SetConst(v.Type(), Compiler.ConstWord(v), slot));
        ok := o.Push(v.Type(), slot);
      }
    }
  }

  /** A 32-bit constant is written into the low half of its zeroed entry. */
  method WriteConst(o: Compiling, v: Val, index: nat)
    requires o.Valid() && index == o.numConstants < MAX_CONSTANTS
    modifies o.constants, o`numConstants
    ensures o.Valid() && o.State() == old(o.State()).(consts := old(o.State()).consts + [ToWord(v)])
  {
    ghost var c := o.State();
    match v {
      case V32(x) => o.constants[index] := o.constants[index].(lo := x);
      case V64(w) => o.constants[index] := w;
    }
    o.numConstants := index + 1;
    assert o.State().consts == c.consts + [ToWord(v)];
  }

  // ----- locals -----

  method CompileGetLocal(o: Compiling, n: nat) returns (ok: bool)
    requires o.Valid() && Inv(o.State())
    modifies o.Parts()
    ensures o.Did(ok, Compiler.CompileGetLocal(old(o.State()), n))
  {
    hide Inv, Compiling.State, Allocator.Push;
    InvFacts(o.State());
    o.Fields();
    ok := n < |o.layout.locals|;
    if ok {
      ok := o.Push(o.TypeAt(n), o.SlotAt(n));
    }
  }

  method CompileSetLocal(o: Compiling, n: nat, tee: bool) returns (ok: bool)
    requires o.Valid() && Inv(o.State())
    modifies o.Parts()
    ensures o.Did(ok, Compiler.CompileSetLocal(old(o.State()), n, tee))
  {
    hide Inv, Compiling.State, FindReferencedLocal, CopyTopToSlot, Allocator.PreservedCopyTop, Allocator.Pop;
    InvFacts(o.State());
    o.Fields();
    ok := n < |o.layout.locals|;
    if ok {
      var slot, preserved := o.SlotAt(n), 0;
      ok, preserved := o.FindReferencedLocalWithinCurrentBlock(slot);
      if ok {
        if preserved == slot {
          ok := o.CopyStackTopToSlot(slot);
        } else {
          ok := o.PreservedCopyTopSlot(slot, preserved);
        }
        if ok && !tee {
          ok := o.Pop();
        }
      }
    }
  }

  // ----- operators -----

  /** EmitSlotNumOfStackTopAndPop reads the operand's place before the pop; the operation carries it. */
  method CompileUnary(o: Compiling, op: UnOp) returns (ok: bool)
    requires o.Valid() && Inv(o.State())
    modifies o.Parts()
    ensures o.Did(ok, Compiler.CompileUnary(old(o.State()), op))
  {
    hide Inv, Compiling.State, Allocator.PreserveRegister, Allocator.Pop, Allocator.Push;
    InvFacts(o.State());
    o.Fields();
    ok := o.stackIndex > 0;
    if ok {
      var slot := o.SlotAt(o.stackIndex - 1);
      if IsAlias(slot) {
        o.EmitOp(UnaryR(op));
      } else {
        ok := o.PreserveRegisterIfOccupied();
        if !ok {
          return;
        }
        o.EmitOp(UnaryS(op, slot));
      }
      ok := o.Pop();
      if ok {
        ok := o.PushRegister(UnResult(op));
      }
    }
  }

  method PopN(o: Compiling, n: nat) returns (ok: bool)
    requires o.Valid()
    modifies o.m3Slots, o`stackIndex, o`regStackIndexPlusOne
    ensures o.Did(ok, Allocator.PopN(old(o.State()), n))
  {
    hide Compiling.State, Compiling.Valid, Allocator.Pop;
    ghost var c := o.State();
    ok := true;
    var i := n;
    while i > 0
      invariant 0 <= i <= n && o.Valid() && Allocator.PopN(c, n) == Allocator.PopN(o.State(), i)
    {
      ok := o.Pop();
      if !ok {
        return;
      }
      i := i - 1;
    }
  }

  method CompileBinary(o: Compiling, op: BinOp) returns (ok: bool)
    requires o.Valid() && Inv(o.State())
    modifies o.Parts()
    ensures o.Did(ok, Compiler.CompileBinary(old(o.State()), op))
  {
    hide Inv, Compiling.State, Allocator.PreserveRegister, Allocator.PopN, Allocator.Push;
    InvFacts(o.State());
    o.Fields();
    ok := o.stackIndex >= 2;
    if ok {
      var a, b := o.SlotAt(o.stackIndex - 1), o.SlotAt(o.stackIndex - 2);
      if IsAlias(a) {
        o.EmitOp(BinaryRS(op, b));
      } else if IsAlias(b) {
        o.EmitOp(if IsCommutative(op.kind) then BinaryRS(op, a) else BinarySR(op, a));
      } else {
        ok := o.PreserveRegisterIfOccupied();
        if !ok {
          return;
        }
        o.EmitOp(BinarySS(op, a, b));
      }
      ok := PopN(o, 2);
      if ok {
        ok := o.PushRegister(BinResult(op));
      }
    }
  }

  /** The three operands are inspected from the top; the last one found in the register selects the operation. */
  method CompileSelect(o: Compiling) returns (ok: bool)
    requires o.Valid() && Inv(o.State())
    modifies o.Parts()
    ensures o.Did(ok, Compiler.CompileSelect(old(o.State())))
  {
    hide Inv, Compiling.State, Allocator.PreserveRegister, Allocator.PopN, Allocator.Push;
    InvFacts(o.State());
    o.Fields();
    var h := o.stackIndex;
    ok := h >= 3 && h - 2 >= |o.layout.locals|;
    if ok {
      var ty := o.TypeAt(h - 2);
      var s0, s1, s2 := o.SlotAt(h - 1), o.SlotAt(h - 2), o.SlotAt(h - 3);
      if !IsAlias(s0) && !IsAlias(s1) && !IsAlias(s2) {
        ok := o.PreserveRegisterIfOccupied();
        if !ok {
          return;
        }
      }
      var op := if IsAlias(s2) then SelectSSR(ty, s0, s1)
                else if IsAlias(s1) then SelectSRS(ty, s0, s2)
                else if IsAlias(s0) then SelectRSS(ty, s1, s2)
                else SelectSSS(ty, s0, s1, s2);
      ok := PopN(o, 3);
      if ok {
        o.EmitOp(op);
        ok := o.PushRegister(ty);
      }
    }
  }

  // ----- results -----

  method PushBlockResults(o: Compiling, results: seq<ValType>) returns (ok: bool)
    requires o.Valid()
    modifies o.Parts()
    ensures o.Did(ok, Compiler.PushBlockResults(old(o.State()), results))
  {
    hide Compiling.State, PushAllocated;
    ghost var c := o.State();
    var i := 0;
    ok := true;
    while i < |results|
      invariant 0 <= i <= |results| && o.Valid() && Compiler.PushBlockResults(c, results[..i]) == Some(o.State())
    {
      assert results[..i + 1][..i] == results[..i];
      ok := o.PushAllocatedSlot(results[i]);
      if !ok {
        PushResultsPrefix(c, results, i + 1);
        return;
      }
      i := i + 1;
    }
    assert results[..i] == results;
  }

  lemma {:induction false} PushResultsPrefix(c: CState, results: seq<ValType>, i: nat)
    requires i <= |results| && Compiler.PushBlockResults(c, results[..i]).None?
    ensures Compiler.PushBlockResults(c, results).None?
    decreases |results|
  {
    if i < |results| {
      var shorter := results[..|results| - 1];
      assert shorter[..i] == results[..i];
      PushResultsPrefix(c, shorter, i);
    } else {
      assert results[..i] == results;
    }
  }

  method ResolveBlockResults(o: Compiling, target: Scope, isBranch: bool) returns (ok: bool)
    requires o.Valid() && o.block.base <= o.stackIndex && target.exit + |target.results| <= o.stackIndex
    modifies o.Parts()
    ensures o.Did(ok, Compiler.ResolveResults(old(o.State()), target, isBranch))
  {
    hide Compiling.State, CopyStackSlotsR;
    o.Fields();
    var n := if target.kind == LoopScope && isBranch then 0 else |target.results|;
    var height := o.stackIndex - o.block.base;
    ok := if isBranch then height >= n else height == n;
    if ok && n > 0 {
      ok := o.CopyStackSlotsR(target.exit, o.stackIndex - n, o.stackIndex, o.maxStackSlots);
    }
  }

  method ReturnValues(o: Compiling, results: seq<ValType>, isBranch: bool) returns (ok: bool)
    requires o.Valid() && o.block.base <= o.stackIndex
    modifies o.Parts()
    ensures o.Did(ok, Compiler.ReturnValues(old(o.State()), results, isBranch))
  {
    hide Compiling.State, Compiler.ReturnCopies, Allocator.PopN;
    o.Fields();
    if o.block.polymorphic {
      return true;
    }
    var n := |results|;
    var height := o.stackIndex - o.block.base;
    ok := if isBranch then height >= n else height == n;
    if ok {
      ok := CopyReturns(o, results);
      if ok && !isBranch {
        ok := PopN(o, n);
      }
    }
  }

  /** The operand `i` places from the top goes to return slot `n - 1 - i`, once its type has been checked. */
  method CopyReturns(o: Compiling, results: seq<ValType>) returns (ok: bool)
    requires o.Valid()
    modifies o`pages
    ensures o.Did(ok, Compiler.ReturnCopies(old(o.State()), results, 0))
  {
    hide Compiling.State, CopyIndexToSlot;
    ghost var c := o.State();
    var n := |results|;
    ok := true;
    var i := 0;
    while i < n
      invariant 0 <= i <= n && o.Valid()
        && Compiler.ReturnCopies(c, results, 0) == Compiler.ReturnCopies(o.State(), results, i)
    {
      o.Fields();
      if o.stackIndex <= i || o.stackIndex - 1 - i < |o.layout.locals|
          || o.TypeAt(o.stackIndex - 1 - i) != results[n - 1 - i] {
        return false;
      }
      o.CopyStackIndexToSlot(n - 1 - i, o.stackIndex - 1 - i);
      i := i + 1;
    }
  }

  // ----- branches -----

  /** GetBlockScope walks outwards. */
  method GetBlockScope(o: Compiling, depth: nat) returns (ok: bool, scope: Scope)
    requires o.Valid()
    ensures (if ok then Some(scope) else None) == Compiler.ScopeAt(o.State(), depth)
  {
    hide Compiling.State;
    o.Fields();
    scope := o.block;
    var k, d := |o.outers|, depth;
    while d > 0
      invariant 0 <= k <= |o.outers| && 0 <= d <= depth && depth - d == |o.outers| - k
      invariant scope == if k == |o.outers| then o.block else o.outers[k]
      decreases d
    {
      if k == 0 {
        return false, scope;
      }
      k := k - 1;
      scope := o.outers[k];
      d := d - 1;
    }
    ok := true;
  }

  /** Results to their landing slots, then the jump. */
  method BranchTo(o: Compiling, target: Scope) returns (ok: bool)
    requires o.Valid() && o.block.base <= o.stackIndex
    requires target.kind == FuncScope || target.exit + |target.results| <= o.stackIndex
    modifies o.Parts()
    ensures o.Did(ok, Compiler.BranchTo(old(o.State()), target))
  {
    hide Compiling.State, Compiler.ResolveResults, Compiler.ReturnValues;
    if target.kind == LoopScope {
      ok := ResolveBlockResults(o, target, true);
      if ok {
        o.EmitOp(ContinueLoop(target.pc));
      }
    } else if target.kind == FuncScope {
      ok := ReturnValues(o, target.results, true);
      if ok {
        o.EmitOp(OpReturn);
      }
    } else {
      ok := ResolveBlockResults(o, target, true);
      if ok {
        o.EmitOp(Branch(Patched(target.end)));
      }
    }
  }

  /** A branch target found in a sound state has its landing slots on the stack. */
  lemma TargetFits(c: CState, depth: nat)
    requires Inv(c) && Compiler.ScopeAt(c, depth).Some?
    ensures var target := Compiler.ScopeAt(c, depth).value;
      target.kind == FuncScope || target.exit + |target.results| <= c.block.base
  {
    ScopeAtOk(c, depth);
    var k := |Scopes(c)| - 1 - depth;
    assert ScopeOk(c, k);
    if k < |c.outers| {
      assert Scopes(c)[k] == c.outers[k];
    }
  }

  method CompileBr(o: Compiling, depth: nat) returns (ok: bool)
    requires o.Valid() && Inv(o.State())
    modifies o.Parts()
    ensures o.Did(ok, Compiler.CompileBr(old(o.State()), depth))
  {
    hide Inv, Compiler.BranchTo, SetPolymorphic, Compiler.ScopeAt;
    var target;
    ok, target := GetBlockScope(o, depth);
    if ok {
      InvFacts(o.State());
      TargetFits(o.State(), depth);
      if target.kind == LoopScope {
        o.EmitOp(ContinueLoop(target.pc));
        o.block := o.block.(polymorphic := true);
      } else {
        ok := BranchTo(o, target);
        if ok {
          ok := o.SetStackPolymorphic();
        }
      }
    }
  }

  method CompileBrIf(o: Compiling, depth: nat) returns (ok: bool)
    requires o.Valid() && Inv(o.State()) && !o.block.polymorphic
    modifies o.Parts()
    ensures o.Did(ok, Compiler.CompileBrIf(old(o.State()), depth))
  {
    hide Inv, Compiling.State, Compiler.BranchTo, Compiler.ScopeAt, CopyTopToRegister, Allocator.Pop, Allocator.PopType;
    o.Fields();
    var target;
    ok, target := GetBlockScope(o, depth);
    ok := ok && o.stackIndex > 0;
    if ok {
      InvFacts(o.State());
      TargetFits(o.State(), depth);
      if target.kind == LoopScope {
        ok := BrIfLoop(o, target);
      } else if |target.results| > 0 || target.kind == FuncScope {
        ok := BrIfPrologue(o, target);
      } else {
        var cond := o.SlotAt(o.stackIndex - 1);
        o.EmitOp(if IsAlias(cond) then BranchIfR(Patched(target.end)) else BranchIfS(cond, Patched(target.end)));
        ok := o.Pop();
      }
    }
  }

  method BrIfLoop(o: Compiling, target: Scope) returns (ok: bool)
    requires o.Valid() && Inv(o.State())
    modifies o.Parts()
    ensures o.Did(ok, LoopIf(old(o.State()), target))
  {
    hide Inv, CopyTopToRegister, Allocator.PopType;
    RegisterNotTop(o.State());
    InvFacts(o.State());
    ok := o.CopyStackTopToRegister();
    if ok {
      ok := o.PopType(I32);
      if ok {
        o.EmitOp(ContinueLoopIf(target.pc));
      }
    }
  }

  function LoopIf(c: CState, target: Scope): Option<CState> {
    var ready :- CopyTopToRegister(c);
    var popped :- Allocator.PopType(ready, I32);
    Some(Emit(popped, ContinueLoopIf(target.pc)))
  }

  lemma RegisterNotTop(c: CState)
    requires Inv(c)
    ensures c.reg <= |c.stack|
    ensures |c.stack| > 0 && !IsAlias(c.stack[|c.stack| - 1].slot) ==> c.reg != |c.stack|
  {
  }

  /** The conditional prologue: the jump around it is patched once its end is known. */
  method BrIfPrologue(o: Compiling, target: Scope) returns (ok: bool)
    requires o.Valid() && Inv(o.State()) && !o.block.polymorphic && o.stackIndex > 0
    requires target.kind == FuncScope || target.exit + |target.results| <= o.block.base
    modifies o.Parts()
    ensures o.Did(ok, Guarded(old(o.State()), target))
  {
    hide Inv, Compiling.State, Compiler.BranchTo, Allocator.Pop;
    InvFacts(o.State());
    o.Fields();
    ghost var c := o.State();
    var cond := o.SlotAt(o.stackIndex - 1);
    var id := o.ReservePointer();
    var op := if IsAlias(cond) then PrologueR(Patched(id)) else PrologueS(cond, Patched(id));
    o.EmitOp(op);
    ok := o.Pop();
    if ok {
      PrologueTop(c, op);
      o.Fields();
      ok := BranchTo(o, target);
      if ok {
        o.PatchHere(id);
      }
    }
  }

  /** The condition is an operand of the current block, so popping it leaves the landing slots in place. */
  lemma PrologueTop(c: CState, op: Op)
    requires Inv(c) && !c.block.polymorphic && Allocator.Pop(Emit(FreshId(c), op)).Some?
    ensures var popped := Allocator.Pop(Emit(FreshId(c), op)).value;
      popped.block == c.block && |popped.stack| >= c.block.base
  {
  }

  function Guarded(c: CState, target: Scope): Option<CState>
    requires |c.stack| > 0
  {
    var cond, skip := c.stack[|c.stack| - 1].slot, Patched(c.nextId);
    var popped :- Allocator.Pop(Emit(FreshId(c), if IsAlias(cond) then PrologueR(skip) else PrologueS(cond, skip)));
    var taken :- Compiler.BranchTo(popped, target);
    Some(Define(taken, c.nextId))
  }

  /** One code page per target; the pages' addresses become the operands of the table. */
  method CompileTargets(o: Compiling, depths: seq<nat>) returns (ok: bool, pcs: seq<PC>)
    requires o.Valid() && Inv(o.State())
    modifies o.Parts()
    ensures ok <==> Compiler.CompileTargets(old(o.State()), depths).Some?
    ensures ok ==> o.Valid() && Compiler.CompileTargets(old(o.State()), depths) == Some((o.State(), pcs))
  {
    hide Compiling.State, Inv, Compiler.BranchTo;
    ghost var c := o.State();
    ok, pcs := true, [];
    var i := 0;
    while i < |depths|
      invariant 0 <= i <= |depths| && o.Valid() && Compiler.CompileTargets(c, depths[..i]) == Some((o.State(), pcs))
    {
      assert depths[..i + 1][..i] == depths[..i];
      TargetsOk(c, depths[..i]);
      var pc;
      ok, pc := CompileTarget(o, depths[i]);
      if !ok {
        TargetsPrefix(c, depths, i + 1);
        return;
      }
      pcs := pcs + [pc];
      i := i + 1;
    }
    assert depths[..i] == depths;
  }

  method CompileTarget(o: Compiling, depth: nat) returns (ok: bool, pc: PC)
    requires o.Valid() && Inv(o.State())
    modifies o.Parts()
    ensures ok <==> OneTarget(old(o.State()), depth).Some?
    ensures ok ==> o.Valid() && OneTarget(old(o.State()), depth) == Some((o.State(), pc))
  {
    hide Inv, Compiler.BranchTo, Compiler.ScopeAt;
    ghost var c := o.State();
    InvFacts(c);
    var target;
    pc := o.GetPC();
    ok, target := GetBlockScope(o, depth);
    if ok {
      TargetFits(c, depth);
      var savedPage := o.page;
      o.page := |o.pages|;
      o.pages := o.pages + [[]];
      pc := o.GetPC();
      ghost var onNew := o.State();
      ok := BranchTo(o, target);
      if ok {
        TargetPage(c, depth);
        o.page := savedPage;
      }
    }
  }

  function OneTarget(c: CState, depth: nat): Option<(CState, PC)> {
    var target :- Compiler.ScopeAt(c, depth);
    var onNew := c.(pages := c.pages + [[]], page := |c.pages|);
    var done :- Compiler.BranchTo(onNew, target);
    Some((done.(page := c.page), PcOf(onNew)))
  }

  lemma TargetPage(c: CState, depth: nat)
    requires Inv(c) && OneTarget(c, depth).Some?
    ensures c.page < |OneTarget(c, depth).value.0.pages|
  {
    ScopeAtOk(c, depth);
    TrampolineOk(c, Compiler.ScopeAt(c, depth).value);
  }

  lemma {:induction false} TargetsPrefix(c: CState, depths: seq<nat>, i: nat)
    requires i <= |depths| && Compiler.CompileTargets(c, depths[..i]).None?
    ensures Compiler.CompileTargets(c, depths).None?
    decreases |depths|
  {
    if i < |depths| {
      var shorter := depths[..|depths| - 1];
      assert shorter[..i] == depths[..i];
      TargetsPrefix(c, shorter, i);
    } else {
      assert depths[..i] == depths;
    }
  }

  method CompileBrTable(o: Compiling, targets: seq<nat>, default: nat) returns (ok: bool)
    requires o.Valid() && Inv(o.State()) && !o.block.polymorphic
    modifies o.Parts()
    ensures o.Did(ok, Compiler.CompileBrTable(old(o.State()), targets, default))
  {
    hide Compiling.State, Inv, Allocator.PreserveRegister, SetPolymorphic, Compiler.CompileTargets, Allocator.Pop;
    ghost var c := o.State();
    InvFacts(c);
    o.Fields();
    ok := o.PreserveRegisterIfOccupied();
    if ok {
      o.Fields();
      ok := o.stackIndex > 0;
    }
    if ok {
      var cond := o.SlotAt(o.stackIndex - 1);
      ok := o.Pop();
      if ok {
        TableOperandOk(c);
        var pcs;
        ok, pcs := CompileTargets(o, targets + [default]);
        if ok {
          o.EmitOp(BranchTable(cond, pcs));
          ok := o.SetStackPolymorphic();
        }
      }
    }
  }

  method CompileReturn(o: Compiling) returns (ok: bool)
    requires o.Valid() && Inv(o.State())
    modifies o.Parts()
    ensures o.Did(ok, Compiler.CompileReturn(old(o.State())))
  {
    hide Compiling.State, Inv, Compiler.ReturnValues, SetPolymorphic;
    InvFacts(o.State());
    o.Fields();
    var results := (if |o.outers| > 0 then o.outers[0] else o.block).results;
    ok := ReturnValues(o, results, true);
    if ok {
      o.EmitOp(OpReturn);
      ok := o.SetStackPolymorphic();
    }
  }

  method CompileUnreachable(o: Compiling) returns (ok: bool)
    requires o.Valid()
    modifies o.Parts()
    ensures o.Did(ok, Compiler.CompileUnreachable(old(o.State())))
  {
    hide Compiling.State, SetPolymorphic;
    o.EmitOp(OpUnreachable);
    ok := o.SetStackPolymorphic();
  }

  // ----- calls -----

  /** One argument: copied to its slot, then popped. */
  function PassArg(c: CState, dst: nat): Option<CState> {
    var copied :- CopyTopToSlot(c, dst);
    Allocator.Pop(copied)
  }

  lemma ArgStep(c: CState, base: nat, n: nat)
    ensures Compiler.CopyArgs(c, base, n) ==
      if n == 0 then Some(c)
      else if PassArg(c, base + n - 1).None? then None
      else Compiler.CopyArgs(PassArg(c, base + n - 1).value, base, n - 1)
  {
    hide CopyTopToSlot, Allocator.Pop;
  }

  method CopyArg(o: Compiling, dst: nat) returns (ok: bool)
    requires o.Valid()
    modifies o.Parts()
    ensures o.Did(ok, PassArg(old(o.State()), dst))
  {
    hide Compiling.State, Compiling.Valid, CopyTopToSlot, Allocator.Pop;
    ok := o.CopyStackTopToSlot(dst);
    if ok {
      ok := o.Pop();
    }
  }

  method CopyArgs(o: Compiling, base: nat, n: nat) returns (ok: bool)
    requires o.Valid()
    modifies o.Parts()
    ensures o.Did(ok, Compiler.CopyArgs(old(o.State()), base, n))
  {
    hide Compiling.State, Compiling.Valid, PassArg, Compiler.CopyArgs;
    ghost var c := o.State();
    ok := true;
    var i := n;
    while i > 0
      invariant 0 <= i <= n && o.Valid() && Compiler.CopyArgs(c, base, n) == Compiler.CopyArgs(o.State(), base, i)
    {
      ArgStep(o.State(), base, i);
      ok := CopyArg(o, base + i - 1);
      if !ok {
        return;
      }
      i := i - 1;
    }
    ArgStep(o.State(), base, 0);
  }

  lemma ResultStep(c: CState, base: nat, results: seq<ValType>, i: nat)
    requires i < |results| && Compiler.PushResultsAt(c, base, results[..i]).Some?
    ensures Compiler.PushResultsAt(c, base, results[..i + 1]) ==
      (var pushed := Allocator.Push(Compiler.PushResultsAt(c, base, results[..i]).value, results[i], base + i);
       if pushed.None? || base + i >= MAX_FUNCTION_SLOTS then None else Some(MarkAllocated(pushed.value, base + i)))
  {
    hide MarkAllocated, Allocator.Push;
    assert results[..i + 1][..i] == results[..i];
  }

  lemma NoResults(c: CState, base: nat, results: seq<ValType>)
    ensures Compiler.PushResultsAt(c, base, results[..0]) == Some(c)
  {
  }

  method PushResultsAt(o: Compiling, base: nat, results: seq<ValType>) returns (ok: bool)
    requires o.Valid()
    modifies o.Parts()
    ensures o.Did(ok, Compiler.PushResultsAt(old(o.State()), base, results))
  {
    hide Compiling.State, Compiling.Valid, MarkAllocated, Allocator.Push, Compiler.PushResultsAt;
    ghost var c := o.State();
    NoResults(c, base, results);
    ok := true;
    var i := 0;
    while i < |results|
      invariant 0 <= i <= |results| && o.Valid() && Compiler.PushResultsAt(c, base, results[..i]) == Some(o.State())
    {
      ResultStep(c, base, results, i);
      ok := o.Push(results[i], base + i);
      ok := ok && base + i < MAX_FUNCTION_SLOTS;
      if !ok {
        ResultsAtPrefix(c, base, results, i + 1);
        return;
      }
      o.MarkSlotAllocated(base + i);
      i := i + 1;
    }
    assert results[..i] == results;
  }

  lemma {:induction false} ResultsAtPrefix(c: CState, base: nat, results: seq<ValType>, i: nat)
    requires i <= |results| && Compiler.PushResultsAt(c, base, results[..i]).None?
    ensures Compiler.PushResultsAt(c, base, results).None?
    decreases |results|
  {
    if i < |results| {
      var shorter := results[..|results| - 1];
      assert shorter[..i] == results[..i];
      ResultsAtPrefix(c, base, shorter, i);
    } else {
      assert results[..i] == results;
    }
  }

  method CompileCallArgsAndReturn(o: Compiling, params: seq<ValType>, results: seq<ValType>)
    returns (ok: bool, base: nat)
    requires o.Valid()
    modifies o.Parts()
    ensures base == Compiler.FrameBase(old(o.State()))
    ensures o.Did(ok, ArgsAndReturn(old(o.State()), base, params, results))
  {
    hide Compiling.State, Compiling.Valid, Compiler.CopyArgs, Compiler.PushResultsAt, TrimMax;
    o.Fields();
    base := o.GetMaxUsedSlotPlusOne();
    base := if base < 1 then 1 else base;
    ok := CopyArgs(o, base + |results|, |params|);
    if ok {
      ok := PushResultsAt(o, base, results);
    }
  }

  function ArgsAndReturn(c: CState, base: nat, params: seq<ValType>, results: seq<ValType>): Option<CState> {
    var passed :- Compiler.CopyArgs(c.(maxAllocated := TrimMax(c, c.maxAllocated)), base + |results|, |params|);
    Compiler.PushResultsAt(passed, base, results)
  }

  method CompileCall(o: Compiling, m: Module, f: nat) returns (ok: bool)
    requires o.Valid()
    modifies o.Parts()
    ensures o.Did(ok, Compiler.CompileCall(old(o.State()), m, f))
  {
    hide Compiling.State, Compiling.Valid, Compiler.CopyArgs, Compiler.PushResultsAt, TrimMax, Compiler.FrameBase;
    ok := f < |m|;
    if ok {
      var base;
      ok, base := CompileCallArgsAndReturn(o, m[f].params, m[f].results);
      if ok {
        o.EmitOp(OpCall(f, base));
      }
    }
  }

  // ----- copy-on-write at block entry -----

  method PreserveLocal(o: Compiling, i: nat) returns (ok: bool)
    requires o.Valid() && Inv(o.State()) && i < |o.layout.locals|
    modifies o.Parts()
    ensures i < |old(o.State()).stack| && o.Did(ok, Allocator.PreserveLocal(old(o.State()), i))
  {
    hide Compiling.State, Inv, FindReferencedLocal;
    InvFacts(o.State());
    o.Fields();
    var ty := o.TypeAt(i);
    var slot, preserved := o.SlotAt(i), 0;
    ok, preserved := o.FindReferencedLocalWithinCurrentBlock(slot);
    if ok && preserved != slot {
      o.EmitOp(CopySlot(ty, preserved, slot));
    }
  }

  method PreserveArgsAndLocals(o: Compiling) returns (ok: bool)
    requires o.Valid() && Inv(o.State())
    modifies o.Parts()
    ensures o.Did(ok, Allocator.PreserveArgsAndLocals(old(o.State())))
  {
    hide Compiling.State, Inv, Allocator.PreserveLocal, NoAliases;
    ghost var c := o.State();
    InvFacts(c);
    o.Fields();
    ok := true;
    if o.stackIndex > |o.layout.locals| {
      var i, n := 0, |o.layout.locals|;
      NoAliasesYet(c);
      while i < n
        invariant 0 <= i <= n == |o.layout.locals| && o.Valid() && Inv(o.State()) && NoAliases(o.State(), i)
        invariant o.State().layout == c.layout && PreserveLocals(c, 0) == PreserveLocals(o.State(), i)
      {
        ghost var now := o.State();
        InvFacts(now);
        ok := PreserveLocal(o, i);
        if !ok {
          return;
        }
        PreserveLocalOk(now, i);
        o.Fields();
        i := i + 1;
      }
    }
  }

  lemma NoAliasesYet(c: CState)
    ensures NoAliases(c, 0)
  {
  }

  // ----- blocks -----

  /** Finds the landing slots: the results are pushed and popped again, and the stack top put back over their
      records. */
  method ReserveLanding(o: Compiling, results: seq<ValType>) returns (ok: bool)
    requires o.Valid() && Inv(o.State()) && !o.block.polymorphic
    modifies o.Parts()
    ensures o.Did(ok, Compiler.ReserveLanding(old(o.State()), results))
  {
    hide Inv, Compiling.State, Compiler.PushBlockResults, Allocator.PopN;
    ghost var c := o.State();
    o.Fields();
    ok := PushBlockResults(o, results);
    if ok {
      ghost var pushed := o.State();
      o.Fields();
      var top := o.stackIndex;
      PopsUnder(c, results);
      o.AboveIs(|c.stack|);
      ok := PopN(o, |results|);
      if ok {
        o.Fields();
        o.KeepRecords(top);
      }
    }
  }

  /** Pushing results only adds to the stack, popping them restores it. */
  lemma {:induction false} PushedAbove(c: CState, results: seq<ValType>)
    requires Inv(c) && Compiler.PushBlockResults(c, results).Some?
    ensures var d := Compiler.PushBlockResults(c, results).value;
      Good(c, d) && |d.stack| == |c.stack| + |results| && d.stack[..|c.stack|] == c.stack
    decreases |results|
  {
    GoodSelf(c);
    if results != [] {
      var shorter := results[..|results| - 1];
      PushedAbove(c, shorter);
      var before := Compiler.PushBlockResults(c, shorter).value;
      PushAllocatedOk(before, results[|results| - 1]);
      var d := Compiler.PushBlockResults(c, results).value;
      GoodTrans(c, before, d);
      assert d.stack[..|c.stack|] == before.stack[..|c.stack|];
    }
  }

  lemma PopsUnder(c: CState, results: seq<ValType>)
    requires Inv(c) && !c.block.polymorphic && Compiler.PushBlockResults(c, results).Some?
    ensures var pushed := Compiler.PushBlockResults(c, results).value;
      && |c.stack| <= |pushed.stack|
      && (Allocator.PopN(pushed, |results|).Some? ==> Allocator.PopN(pushed, |results|).value.stack == c.stack)
  {
    PushedAbove(c, results);
    var pushed := Compiler.PushBlockResults(c, results).value;
    GoodFacts(c, pushed);
    if Allocator.PopN(pushed, |results|).Some? {
      PopNOk(pushed, |results|);
    }
  }

  method EnterScope(o: Compiling, kind: ScopeKind, results: seq<ValType>, exit: nat)
    requires o.Valid()
    modifies o`outers, o`block, o`nextId
    ensures o.Valid() && o.State() == Compiler.EnterScope(old(o.State()), kind, results, exit)
  {
    o.outers := o.outers + [o.block];
    o.block := Scope(kind, o.stackIndex, exit, results, o.GetPC(), o.nextId, o.block.polymorphic);
    o.nextId := o.nextId + 1;
  }

  /** From the last statement of a block back to the enclosing scope. */
  method LeaveScope(o: Compiling, outer: Scope, outers: seq<Scope>) returns (ok: bool)
    requires o.Valid() && Inv(o.State()) && |o.outers| > 0
    modifies o.Parts()
    ensures o.Did(ok, Compiler.LeaveScope(old(o.State()), outer, outers))
  {
    hide Compiler.ResolveResults, Compiler.PushBlockResults, UnwindStack, Inv, Compiling.State;
    ghost var c := o.State();
    InvFacts(c);
    o.Fields();
    LeavingFacts(c);
    ok := true;
    if !o.block.polymorphic {
      ok := ResolveBlockResults(o, o.block, false);
    }
    if ok {
      UnwindOk(o.State());
      ok := o.UnwindBlockStack();
      o.Fields();
      ok := CloseScope(o, outer, outers);
    }
  }

  /** The block's results become operands of the enclosing scope, and the branches to its end are patched. */
  method CloseScope(o: Compiling, outer: Scope, outers: seq<Scope>) returns (ok: bool)
    requires o.Valid() && o.block.exit <= o.stackIndex
    modifies o.Parts()
    ensures o.Did(ok, Closing(old(o.State()), outer, outers))
  {
    hide Compiler.PushBlockResults;
    ok := true;
    var end := o.block.end;
    if o.block.kind != IfScope {
      o.DropTo(o.block.exit);
      ok := PushBlockResults(o, o.block.results);
    }
    if ok {
      o.PatchHere(end);
      o.block := outer;
      o.outers := outers;
    }
  }

  function Closing(empty: CState, outer: Scope, outers: seq<Scope>): Option<CState> {
    var done :- if empty.block.kind == IfScope || empty.block.exit > |empty.stack| then Some(empty)
                else Compiler.PushBlockResults(empty.(stack := empty.stack[..empty.block.exit]), empty.block.results);
    Some(Define(done, empty.block.end).(block := outer, outers := outers))
  }

  /** At the end of a block the landing records are in place. */
  lemma LeavingFacts(c: CState)
    requires Inv(c) && |c.outers| > 0
    ensures c.block.exit + |c.block.results| == c.block.base <= |c.stack|
    ensures !c.block.polymorphic && Compiler.ResolveResults(c, c.block, false).Some? ==>
      var d := Compiler.ResolveResults(c, c.block, false).value; Inv(d) && d.block == c.block && d.stack == c.stack
  {
    assert ScopeOk(c, |c.outers|);
    if !c.block.polymorphic && Compiler.ResolveResults(c, c.block, false).Some? {
      ResolveResultsOk(c, c.block, false);
    }
  }

  method CompileBlock(o: Compiling, m: Module, kind: ScopeKind, results: seq<ValType>, body: Body) returns (ok: bool)
    requires o.Valid() && Inv(o.State()) && Clean(o.State()) && !o.block.polymorphic && |results| <= 1
      && kind != FuncScope
    modifies o.Parts()
    ensures o.Did(ok, Compiler.CompileBlock(old(o.State()), m, kind, results, body))
    decreases body, 1
  {
    hide Inv, Clean, Compiling.State, Compiler.ReserveLanding, Compiler.CompileBody, Compiler.LeaveScope;
    ghost var c := o.State();
    o.Fields();
    var outer, outers, exit := o.block, o.outers, o.stackIndex;
    ok := ReserveLanding(o, results);
    if ok {
      EnterScope(o, kind, results, exit);
      OpenedOk(c, kind, results);
      ghost var entered := o.State();
      o.Fields();
      ok := CompileBlockStatements(o, m, body);
      if ok {
        BodyOk(entered, m, body);
        DoneScopes(entered, o.State());
        o.Fields();
        ok := LeaveScope(o, outer, outers);
      }
    }
  }

  lemma DoneScopes(c: CState, d: CState)
    requires Done(c, d)
    ensures Inv(d) && d.outers == c.outers
  {
  }

  /** AcquireCompilationCodePage, and the pointer that waits for the else arm. */
  method StartElse(o: Compiling, id: nat)
    requires o.Valid()
    modifies o.Parts()
    ensures o.Valid() && o.State() == ElseStart(old(o.State()), id)
  {
    o.page := |o.pages|;
    o.pages := o.pages + [[]];
    o.PatchHere(id);
  }

  /** The branch back to the saved page, where compilation goes on. */
  method LeaveElse(o: Compiling, savedPage: nat)
    requires o.Valid() && savedPage < |o.pages|
    modifies o.Parts()
    ensures o.Valid()
    ensures var c := old(o.State());
      o.State() == Emit(c, Branch(Known(PcOf(c.(page := savedPage))))).(page := savedPage)
  {
    o.EmitOp(Branch(Known(PC(o.layout.fn, savedPage, |o.pages[savedPage]|))));
    o.page := savedPage;
  }

  lemma ElseArm(c: CState, m: Module, id: nat, results: seq<ValType>, body: Body)
    requires Inv(ElseStart(c, id)) && Clean(ElseStart(c, id)) && !c.block.polymorphic && |results| <= 1
      && c.page < |c.pages|
    ensures var arm, all := Compiler.CompileBlock(ElseStart(c, id), m, ElseScope, results, body),
              Compiler.CompileElse(c, m, id, results, body);
      all.Some? <==> arm.Some?
    ensures var arm := Compiler.CompileBlock(ElseStart(c, id), m, ElseScope, results, body);
      arm.Some? ==> (c.page < |arm.value.pages| && Compiler.CompileElse(c, m, id, results, body)
      == Some(Emit(arm.value, Branch(Known(PcOf(arm.value.(page := c.page))))).(page := c.page)))
  {
    hide Inv, Clean, Compiler.CompileBlock;
    if Compiler.CompileBlock(ElseStart(c, id), m, ElseScope, results, body).Some? {
      BlockOk(ElseStart(c, id), m, ElseScope, results, body);
    }
  }

  /** Leaves the operand stack as the then arm found it and compiles the else arm on a page of its own. */
  method CompileElseBlock(o: Compiling, m: Module, id: nat, results: seq<ValType>, body: Body) returns (ok: bool)
    requires o.Valid() && Inv(ElseStart(o.State(), id)) && Clean(ElseStart(o.State(), id)) && !o.block.polymorphic
      && |results| <= 1
    modifies o.Parts()
    ensures o.Did(ok, Compiler.CompileElse(old(o.State()), m, id, results, body))
    decreases body, 2
  {
    hide Inv, Clean, Compiling.State, Compiler.CompileBlock, Compiler.CompileElse, Emit, PcOf;
    ghost var c := o.State();
    o.Fields();
    var savedPage := o.page;
    ElseArm(c, m, id, results, body);
    StartElse(o, id);
    o.Fields();
    ok := CompileBlock(o, m, ElseScope, results, body);
    if ok {
      o.Fields();
      LeaveElse(o, savedPage);
    }
  }

  method CompileIf(o: Compiling, m: Module, i: Instr) returns (ok: bool)
    requires o.Valid() && Inv(o.State()) && !o.block.polymorphic && i.If?
    modifies o.Parts()
    ensures o.Did(ok, Compiler.CompileIf(old(o.State()), m, i))
    decreases i, 3
  {
    hide Inv, Clean, Compiling.State, Compiler.CompileBlock, Compiler.CompileElse, Allocator.PreserveArgsAndLocals,
      PreserveNonTopRegister, Grows, GrowsAnyPage;
    ghost var c := o.State();
    o.Fields();
    var results := ResultSeq(i.result);
    var id;
    ok, id := IfCondition(o);
    if ok {
      ConditionOk(c);
      ghost var started := o.State();
      o.Fields();
      var height := o.stackIndex;
      ok := CompileBlock(o, m, IfScope, results, i.thn);
      if ok {
        BlockOk(started, m, IfScope, results, i.thn);
        ghost var armed := o.State();
        o.Fields();
        GoodFacts(started, armed.(stack := started.stack));
        o.DropTo(height);
        o.Fields();
        assert o.State() == armed.(stack := started.stack);
        if i.els.Some? {
          ElseReadyOk(c, started, armed, id);
          ok := CompileElseBlock(o, m, id, results, i.els.value);
        } else if i.result.None? {
          o.PatchHere(id);
        } else {
          ok := false;
        }
      }
    }
  }

  lemma ElseReadyOk(c: CState, started: CState, armed: CState, id: nat)
    requires Inv(c) && Good(c, started) && Clean(started) && Good(started, armed.(stack := started.stack))
      && armed.reg == 0
    requires c.nextId <= id < started.nextId
    ensures var b := armed.(stack := started.stack); Inv(ElseStart(b, id)) && Clean(ElseStart(b, id))
  {
    var b := armed.(stack := started.stack);
    GoodTrans(c, started, b);
    BackClean(started, b);
    ElseStartOk(c, b, id, []);
  }

  lemma ConditionOk(c: CState)
    requires Inv(c) && !c.block.polymorphic && Started(c).Some?
    ensures var d := Started(c).value;
      Good(c, d) && Inv(d) && Clean(d) && !d.block.polymorphic && c.nextId < d.nextId
  {
    hide Inv, Clean, PreserveNonTopRegister, Allocator.PreserveArgsAndLocals, IfStarted;
    IfPreparedOk(c);
    var ready := Allocator.PreserveArgsAndLocals(PreserveNonTopRegister(c).value).value;
    GoodFacts(c, ready);
    IfStartedOk(ready);
    GoodTrans(c, ready, Started(c).value);
  }

  /** The conditional branch whose target the else arm, or the code behind the if, will define. */
  method EmitIf(o: Compiling) returns (ok: bool, id: nat)
    requires o.Valid() && Inv(o.State()) && |o.State().stack| > 0
    modifies o.Parts()
    ensures o.Did(ok, IfStarted(old(o.State()))) && id == old(o.State()).nextId
  {
    hide Inv, Compiling.State, Allocator.Pop;
    ghost var ready := o.State();
    InvFacts(ready);
    o.Fields();
    var cond := o.SlotAt(o.stackIndex - 1);
    id := o.ReservePointer();
    o.EmitOp(if IsAlias(cond) then IfR(Patched(id)) else IfS(cond, Patched(id)));
    ok := o.Pop();
  }

  method IfCondition(o: Compiling) returns (ok: bool, id: nat)
    requires o.Valid() && Inv(o.State()) && !o.block.polymorphic
    modifies o.Parts()
    ensures o.Did(ok, Started(old(o.State())))
    ensures ok ==> old(o.State()).nextId <= id && id + 1 == o.State().nextId
    ensures ok ==> IfId(old(o.State())) == Some(id)
  {
    hide Inv, Compiling.State, PreserveNonTopRegister, Allocator.PreserveArgsAndLocals, IfStarted;
    ghost var c := o.State();
    id := 0;
    InvFacts(c);
    o.Fields();
    ok := o.PreserveNonTopRegisters();
    if ok {
      PreserveNonTopRegisterOk(c);
      ok := PreserveArgsAndLocals(o);
      if ok {
        IfPreparedOk(c);
        o.Fields();
        ghost var ready := o.State();
        ok := o.stackIndex > 0;
        if ok {
          GoodFacts(c, ready);
          ok, id := EmitIf(o);
          if ok {
            IfStartedOk(ready);
            NextIds(c, ready);
          }
        }
      }
    }
  }

  lemma NextIds(c: CState, d: CState)
    requires Good(c, d)
    ensures c.nextId <= d.nextId
  {
  }

  /** The reference that waits for the else arm. */
  function IfId(c: CState): Option<nat> {
    var kept :- PreserveNonTopRegister(c);
    var ready :- Allocator.PreserveArgsAndLocals(kept);
    Some(ready.nextId)
  }

  method CompileLoopOrBlock(o: Compiling, m: Module, i: Instr) returns (ok: bool)
    requires o.Valid() && Inv(o.State()) && !o.block.polymorphic && (i.Block? || i.Loop?)
    modifies o.Parts()
    ensures o.Did(ok, Compiler.CompileInstr(old(o.State()), m, i))
    decreases i, 3
  {
    hide Inv, Clean, Compiling.State, Compiler.CompileBlock, Allocator.PreserveArgsAndLocals,
      Allocator.PreserveRegister;
    ghost var c := o.State();
    InvFacts(c);
    o.Fields();
    ok := o.PreserveRegisterIfOccupied();
    if ok {
      PreserveRegisterOk(c);
      ok := PreserveArgsAndLocals(o);
      if ok {
        PreparedOk(c);
        ghost var ready := o.State();
        GoodFacts(c, ready);
        o.Fields();
        if i.Loop? {
          EmittedClean(ready, OpLoop);
          o.EmitOp(OpLoop);
          GoodFacts(ready, o.State());
        }
        o.Fields();
        ok := CompileBlock(o, m, if i.Loop? then LoopScope else BlockScope, ResultSeq(i.result), i.body);
      }
    }
  }

  // ----- statements -----

  method CompileInstruction(o: Compiling, m: Module, i: Instr) returns (ok: bool)
    requires o.Valid() && Inv(o.State()) && !o.block.polymorphic
    modifies o.Parts()
    ensures o.Did(ok, Compiler.CompileInstr(old(o.State()), m, i))
    decreases i, 4
  {
    hide Inv, Compiling.State, Allocator.Pop, Compiler.PushConst, Compiler.CompileGetLocal, Compiler.CompileSetLocal,
      Compiler.CompileUnary, Compiler.CompileBinary, Compiler.CompileSelect, Compiler.CompileIf, Compiler.CompileBrIf,
      Compiler.CompileCall, Compiler.CompileBlock;
    match i
    case Const(v) => ok := PushConst(o, v);
    case LocalGet(n) => ok := CompileGetLocal(o, n);
    case LocalSet(n) => ok := CompileSetLocal(o, n, false);
    case LocalTee(n) => ok := CompileSetLocal(o, n, true);
    case Unary(op) => ok := CompileUnary(o, op);
    case Binary(op) => ok := CompileBinary(o, op);
    case Select => ok := CompileSelect(o);
    case Drop => ok := o.Pop();
    case Nop => ok := true;
    case Block(_, _) => ok := CompileLoopOrBlock(o, m, i);
    case Loop(_, _) => ok := CompileLoopOrBlock(o, m, i);
    case If(_, _, _) => ok := CompileIf(o, m, i);
    case BrIf(d) => ok := CompileBrIf(o, d);
    case Call(f) => ok := CompileCall(o, m, f);
  }

  /** Opcode by opcode until the block ends or the rest of it cannot be reached. */
  method CompileBlockStatements(o: Compiling, m: Module, body: Body) returns (ok: bool)
    requires o.Valid() && Inv(o.State()) && !o.block.polymorphic
    modifies o.Parts()
    ensures o.Did(ok, Compiler.CompileBody(old(o.State()), m, body))
    decreases body, 0
  {
    hide Inv, Compiling.State, Compiler.CompileInstr, Compiler.CompileBr, Compiler.CompileBrTable,
      Compiler.CompileReturn,
      Compiler.CompileUnreachable;
    ghost var c := o.State();
    var b := body;
    while b.Then?
      invariant o.Valid() && Inv(o.State()) && !o.block.polymorphic
      invariant Compiler.CompileBody(c, m, body) == Compiler.CompileBody(o.State(), m, b)
      invariant b == body || b < body
      decreases b
    {
      ghost var now := o.State();
      o.Fields();
      ok := CompileInstruction(o, m, b.head);
      if !ok {
        return;
      }
      InstrOk(now, m, b.head);
      GoodFacts(now, o.State());
      o.Fields();
      b := b.tail;
    }
    match b
    case End => ok := true;
    case Br(d) => ok := CompileBr(o, d);
    case BrTable(targets, default) => ok := CompileBrTable(o, targets, default);
    case Return => ok := CompileReturn(o);
    case Unreachable => ok := CompileUnreachable(o);
  }

  // ----- functions -----

  /** The home entries of the first `n` args and locals. */
  function Ones(n: nat): (u: Usage)
    ensures forall s :: 0 <= s < MAX_FUNCTION_SLOTS ==> u[s] == if s < n then 1 else 0
  {
    seq(MAX_FUNCTION_SLOTS, s => if s < n then 1 else 0)
  }

  /** With the first `n` slots taken, the next one is allocated. */
  lemma {:induction false} NextSlot(n: nat, from: nat)
    requires from <= n
    ensures FirstFree(Ones(n), from, MAX_FUNCTION_SLOTS) == if n < MAX_FUNCTION_SLOTS then Some(n) else None
    decreases n - from
  {
    if from < n && from < MAX_FUNCTION_SLOTS {
      NextSlot(n, from + 1);
    }
  }

  /** The compile-time state after `types` have been given their home slots. */
  ghost predicate Laid(c: CState, numRets: nat, types: seq<ValType>, blank: CState) {
    && c.stack == ConsecutiveEntries(numRets, types) && c.usage == Ones(numRets + |types|) && c.reg == 0
    && c.consts == [] && c.outers == [] && c.pages == [[]] && c.page == 0 && c.patched == map[] && c.nextId == 1
    && c.layout == blank.layout.(firstDynamic := c.layout.firstDynamic)
    && c.layout.firstDynamic <= numRets + |types| == c.maxAllocated <= MAX_FUNCTION_SLOTS
  }

  /** One more local gets the slot behind the last one. */
  lemma LaidNext(c: CState, numRets: nat, types: seq<ValType>, ty: ValType, blank: CState)
    requires Laid(c, numRets, types, blank)
    ensures PushAllocated(c, ty).Some? <==> numRets + |types| < MAX_FUNCTION_SLOTS && |types| < MAX_STACK_HEIGHT
    ensures PushAllocated(c, ty).Some? ==> Laid(PushAllocated(c, ty).value, numRets, types + [ty], blank)
  {
    NextSlot(numRets + |types|, c.layout.firstDynamic);
    if PushAllocated(c, ty).Some? {
      var d := PushAllocated(c, ty).value;
      assert d.stack == ConsecutiveEntries(numRets, types + [ty]);
      assert d.usage == Ones(numRets + |types| + 1);
    }
  }

  /** The return slots come first. */
  method MarkReturnSlots(o: Compiling, fn: nat, f: Func) returns (ghost blank: CState)
    requires o.Valid() && o.Blank() && |f.results| <= MAX_FUNCTION_SLOTS
    modifies o.Parts()
    ensures o.Valid() && Laid(o.State(), |f.results|, [], blank) && blank.layout == FuncLayoutOf(fn, f)
  {
    o.layout := FuncLayoutOf(fn, f);
    blank := o.State();
    var i := 0;
    assert o.State().usage == Ones(0);
    while i < |f.results|
      invariant 0 <= i <= |f.results| && o.Valid() && o.slotMaxAllocatedIndexPlusOne == i
      invariant o.State() == blank.(usage := Ones(i), maxAllocated := i, maxSlots := o.maxStackSlots)
    {
      o.MarkSlotAllocated(i);
      i := i + 1;
      assert o.State().usage == Ones(i);
    }
    assert o.State().stack == ConsecutiveEntries(|f.results|, []);
  }

  function FuncLayoutOf(fn: nat, f: Func): Layout {
    Layout(fn, |f.results|, |f.params|, f.params + f.locals, |f.results|)
  }

  /** The argument types are pushed; moving the first dynamic slot along keeps the allocator from filling in. */
  method PushArgs(o: Compiling, f: Func, ghost blank: CState) returns (ok: bool)
    requires o.Valid() && Laid(o.State(), |f.results|, [], blank) && o.layout.firstDynamic == |f.results|
    modifies o.Parts()
    ensures ok <==> |f.results| + |f.params| <= MAX_FUNCTION_SLOTS && |f.params| <= MAX_STACK_HEIGHT
    ensures ok ==> o.Valid() && Laid(o.State(), |f.results|, f.params, blank)
    ensures ok ==> o.layout.firstDynamic == |f.results| + |f.params|
  {
    hide PushAllocated, Compiling.State, Laid;
    LaidFacts(o.State(), |f.results|, [], blank);
    var i := 0;
    ok := true;
    assert f.params[..0] == [];
    while i < |f.params|
      invariant 0 <= i <= |f.params| && o.Valid() && Laid(o.State(), |f.results|, f.params[..i], blank)
      invariant o.layout.firstDynamic == |f.results| + i <= MAX_FUNCTION_SLOTS && i <= MAX_STACK_HEIGHT
    {
      assert f.params[..i + 1] == f.params[..i] + [f.params[i]];
      LaidNext(o.State(), |f.results|, f.params[..i], f.params[i], blank);
      ok := o.PushAllocatedSlot(f.params[i]);
      if !ok {
        return;
      }
      LaidFacts(o.State(), |f.results|, f.params[..i + 1], blank);
      o.Fields();
      MoveFirstDynamic(o, |f.results|, f.params[..i + 1], blank, |f.results| + i + 1);
      i := i + 1;
    }
    assert f.params[..i] == f.params;
  }

  lemma LaidFacts(c: CState, numRets: nat, types: seq<ValType>, blank: CState)
    requires Laid(c, numRets, types, blank)
    ensures c.layout.firstDynamic <= numRets + |types| == c.maxAllocated <= MAX_FUNCTION_SLOTS && |c.stack| == |types|
    ensures c.layout == blank.layout.(firstDynamic := c.layout.firstDynamic)
  {
  }

  method MoveFirstDynamic(o: Compiling, ghost numRets: nat, ghost types: seq<ValType>, ghost blank: CState, first: nat)
    requires o.Valid() && Laid(o.State(), numRets, types, blank) && first == numRets + |types|
    modifies o`layout
    ensures o.Valid() && Laid(o.State(), numRets, types, blank) && o.layout.firstDynamic == first
  {
    o.layout := o.layout.(firstDynamic := first);
  }

  /** CompileLocals. */
  method PushLocals(o: Compiling, f: Func, ghost blank: CState) returns (ok: bool)
    requires o.Valid() && Laid(o.State(), |f.results|, f.params, blank)
    modifies o.Parts()
    ensures ok <==>
      |f.results| + |f.params| + |f.locals| <= MAX_FUNCTION_SLOTS && |f.params| + |f.locals| <= MAX_STACK_HEIGHT
    ensures ok ==> o.Valid() && Laid(o.State(), |f.results|, f.params + f.locals, blank)
  {
    hide PushAllocated, Compiling.State, Laid;
    LaidFacts(o.State(), |f.results|, f.params, blank);
    o.Fields();
    var i := 0;
    ok := true;
    assert f.params + f.locals[..0] == f.params;
    while i < |f.locals|
      invariant 0 <= i <= |f.locals| && o.Valid() && Laid(o.State(), |f.results|, f.params + f.locals[..i], blank)
      invariant |f.results| + |f.params| + i <= MAX_FUNCTION_SLOTS && |f.params| + i <= MAX_STACK_HEIGHT
    {
      assert f.params + f.locals[..i + 1] == (f.params + f.locals[..i]) + [f.locals[i]];
      LaidNext(o.State(), |f.results|, f.params + f.locals[..i], f.locals[i], blank);
      ok := o.PushAllocatedSlot(f.locals[i]);
      if !ok {
        return;
      }
      i := i + 1;
    }
    assert f.locals[..i] == f.locals;
  }

  /** Everything CompileFunction does before the first opcode. */
  method LayOut(o: Compiling, fn: nat, f: Func, reserved: nat) returns (ok: bool)
    requires o.Valid() && o.Blank() && |f.results| <= MAX_FUNCTION_SLOTS
    modifies o.Parts()
    ensures o.Did(ok, Compiler.InitialState(fn, f, reserved))
  {
    hide Laid;
    ghost var blank := MarkReturnSlots(o, fn, f);
    LaidFacts(o.State(), |f.results|, [], blank);
    MoveFirstDynamic(o, |f.results|, [], blank, |f.results|);
    ok := PushArgs(o, f, blank);
    if ok {
      ok := PushLocals(o, f, blank);
      if ok {
        LaidFacts(o.State(), |f.results|, f.params + f.locals, blank);
        ok := StartBody(o, fn, f, reserved, blank);
      }
    }
  }

  lemma InitialShape(fn: nat, f: Func, reserved: nat, numRets: nat, types: seq<ValType>)
    requires numRets == |f.results| && types == f.params + f.locals
    ensures var first := numRets + |types| + reserved;
      Compiler.InitialState(fn, f, reserved) ==
      if first >= MAX_FUNCTION_SLOTS || |types| > MAX_STACK_HEIGHT then None
      else
        Some(CState(Layout(fn, numRets, |f.params|, types, first), ConsecutiveEntries(numRets, types),
                    Ones(numRets + |types|), 0, first, first, [],
                    Scope(FuncScope, |types|, 0, f.results, PC(fn, 0, 0), 0, false), [],
                    [[OpEntry]], 0, map[], 1))
  {
    if Compiler.InitialState(fn, f, reserved).Some? {
      var d := Compiler.InitialState(fn, f, reserved).value;
      assert d.stack == ConsecutiveEntries(numRets, types) && d.usage == Ones(numRets + |types|);
    }
  }

  lemma FirstPage(pages: seq<seq<Op>>, op: Op)
    requires pages == [[]]
    ensures pages[0 := pages[0] + [op]] == [[op]]
  {
    assert pages[0] + [op] == [op];
  }

  /** The constant slots are reserved behind the locals, the dynamic slots begin behind them. */
  method StartBody(o: Compiling, fn: nat, f: Func, reserved: nat, ghost blank: CState) returns (ok: bool)
    requires o.Valid() && Laid(o.State(), |f.results|, f.params + f.locals, blank)
      && blank.layout == FuncLayoutOf(fn, f)
    requires |f.params + f.locals| <= MAX_STACK_HEIGHT
    modifies o.Parts()
    ensures o.Did(ok, Compiler.InitialState(fn, f, reserved))
  {
    hide Compiler.InitialState, ConsecutiveEntries, Ones;
    InitialShape(fn, f, reserved, |f.results|, f.params + f.locals);
    var maxSlot := o.GetMaxUsedSlotPlusOne();
    assert maxSlot == |f.results| + |f.params + f.locals|;
    var first := maxSlot + reserved;
    ok := first < MAX_FUNCTION_SLOTS;
    if ok {
      o.layout := o.layout.(firstDynamic := first);
      o.maxStackSlots := first;
      o.slotMaxAllocatedIndexPlusOne := first;
      o.block := Scope(FuncScope, o.stackIndex, 0, f.results, PC(fn, 0, 0), 0, false);
      FirstPage(o.pages, OpEntry);
      o.EmitOp(OpEntry);
    }
  }

  method CompileEnd(o: Compiling) returns (ok: bool)
    requires o.Valid() && o.block.base <= o.stackIndex
    modifies o.Parts()
    ensures o.Did(ok, Compiler.CompileEnd(old(o.State())))
  {
    hide Compiling.State, Compiler.ReturnValues;
    o.Fields();
    ok := ReturnValues(o, o.block.results, false);
    if ok {
      o.EmitOp(OpReturn);
    }
  }

  /** Compiling a function on a fresh compilation object. */
  method CompileFunction(m: Module, fn: nat, reserved: nat) returns (ok: bool, o: Compiling)
    requires fn < |m| && |m[fn].results| <= MAX_FUNCTION_SLOTS
    ensures ok <==> Compiler.CompileFunction(m, fn, reserved).Some?
    ensures ok ==> o.Valid() && Compiler.CompileFunction(m, fn, reserved) == Some(o.State())
  {
    hide Compiling.State, Compiler.InitialState, Compiler.CompileBody, Compiler.CompileEnd, Inv;
    o := new Compiling();
    ok := LayOut(o, fn, m[fn], reserved);
    if ok {
      InitialOk(fn, m[fn], reserved);
      InitialReachable(fn, m[fn], reserved);
      ghost var start := o.State();
      o.Fields();
      ok := CompileBlockStatements(o, m, m[fn].body);
      if ok {
        BodyOk(start, m, m[fn].body);
        DoneScopes(start, o.State());
        InvFacts(o.State());
        o.Fields();
        ok := CompileEnd(o);
      }
    }
  }

  lemma InitialReachable(fn: nat, f: Func, reserved: nat)
    requires Compiler.InitialState(fn, f, reserved).Some?
    ensures !Compiler.InitialState(fn, f, reserved).value.block.polymorphic
  {
  }
}
