/** Every opcode handler keeps the compile-time invariant and only appends code. */
module CompilerInvariant {
  import opened Words
  import opened IntegerOps
  import opened Wasm
  import opened Machine
  import opened Allocator
  import opened Compiler
  import opened Invariant

  /** A handler's result on a state where code is still reachable. */
  ghost predicate Good(c: CState, d: CState) {
    Inv(d) && Grows(c, d)
  }

  lemma GoodTrans(c: CState, d: CState, e: CState)
    requires Good(c, d) && Good(d, e)
    ensures Good(c, e)
  {
    GrowsTrans(c, d, e);
  }

  lemma GoodSelf(c: CState)
    requires Inv(c)
    ensures Good(c, c)
  {
  }

  /** What stays the same whatever is compiled. */
  lemma GoodFacts(c: CState, d: CState)
    requires Good(c, d)
    ensures d.block == c.block && d.outers == c.outers && d.layout == c.layout && d.page == c.page
    ensures c.block.base <= |c.stack| && c.block.base <= |d.stack| && d.reg <= |d.stack|
  {
  }

  // ----- constants -----

  /** The constant table fills up from its first slot. */
  lemma NextConstantSlot(c: CState)
    requires Inv(c) && FreeConstantSlot(c).Some?
    ensures FreeConstantSlot(c).value == c.layout.FirstConst() + |c.consts|
    ensures |c.consts| < MAX_CONSTANTS && FreeConstantSlot(c).value < c.layout.firstDynamic
  {
    var first := c.layout.FirstConst();
    var slot := FreeConstantSlot(c).value;
    assert !IsConstant(c, slot) && !IsConstant(c, first + |c.consts|);
  }

  lemma NewConstantOk(c: CState, d: CState, w: Word)
    requires Inv(c) && FreeConstantSlot(c).Some?
    requires d == MarkAllocated(c, FreeConstantSlot(c).value).(consts := c.consts + [w])
    ensures Good(c, d) && IsConstant(d, FreeConstantSlot(c).value) && PcOf(d) == PcOf(c)
  {
    NextConstantSlot(c);
    forall i | |d.layout.locals| <= i < |d.stack|
      ensures EntryOk(d, i)
    {
      assert EntryOk(c, i);
    }
    ScopesUnchanged(c, d);
  }

  lemma PushConstOk(c: CState, v: Val)
    requires Inv(c) && PushConst(c, v).Some?
    ensures Good(c, PushConst(c, v).value)
    ensures var d := PushConst(c, v).value; |d.stack| == |c.stack| + 1
  {
    var first := c.layout.FirstConst();
    var k := FindConstant(c.consts, v, 0);
    if k < |c.consts| {
      PushOk(c, v.Type(), first + k);
    } else if FreeConstantSlot(c).Some? {
      NextConstantSlot(c);
      var slot := FreeConstantSlot(c).value;
      var added := MarkAllocated(c, slot).(consts := c.consts + [ToWord(v)]);
      NewConstantOk(c, added, ToWord(v));
      PushOk(added, v.Type(), slot);
      GoodTrans(c, added, PushConst(c, v).value);
    } else {
      InlineConstant(c, v);
    }
  }

  /** The table holds the constant. Negative i32 constants are compared sign-extended with zero-extended entries and are
      never found. */
  predicate Tabled(consts: seq<Word>, v: Val) {
    match v
    case V32(x) => x < 0x8000_0000 && exists k :: 0 <= k < |consts| && consts[k].lo == x
    case V64(w) => w in consts
  }

  lemma TabledFound(consts: seq<Word>, v: Val)
    ensures FindConstant(consts, v, 0) < |consts| <==> Tabled(consts, v)
  {
    if Tabled(consts, v) {
      var k :| 0 <= k < |consts| && (if v.V32? then consts[k].lo == v.bits32 else consts[k] == v.bits64);
      assert SameConstant(consts[k], v);
      FoundBefore(consts, v, 0, k);
    }
    if FindConstant(consts, v, 0) < |consts| {
      EntryTabled(consts, v, FindConstant(consts, v, 0));
    }
  }

  lemma EntryTabled(consts: seq<Word>, v: Val, k: nat)
    requires k < |consts| && SameConstant(consts[k], v)
    ensures Tabled(consts, v)
  {
  }

  lemma {:induction false} FoundBefore(consts: seq<Word>, v: Val, i: nat, k: nat)
    requires i <= k < |consts| && SameConstant(consts[k], v)
    ensures FindConstant(consts, v, i) <= k
    decreases k - i
  {
    if i < k {
      FoundBefore(consts, v, i + 1, k);
    }
  }

  /** A constant that is in the table costs nothing but an operand; another one takes the next entry as long as there is
      one; only then is code emitted for it. */
  lemma ConstantPlaced(c: CState, v: Val)
    requires Inv(c) && PushConst(c, v).Some?
    ensures var d := PushConst(c, v).value;
      if Tabled(c.consts, v) then
        d == c.(stack := d.stack) && IsConstant(c, d.stack[|c.stack|].slot)
      else if |c.consts| < MAX_CONSTANTS && c.layout.FirstConst() + |c.consts| < c.layout.firstDynamic then
        d.pages == c.pages && d.consts == c.consts + [ToWord(v)]
        && d.stack[|c.stack|].slot == c.layout.FirstConst() + |c.consts|
      else
        d.consts == c.consts
        && d.pages[c.page] == c.pages[c.page] + [SetConst(v.Type(), ConstWord(v), FreeSlot(c).GetOr(0))]
        && d.stack[|c.stack|].slot == FreeSlot(c).GetOr(0)
  {
    hide SameConstant, ScopesOk;
    TabledFound(c.consts, v);
    InvFacts(c);
    if |c.consts| < MAX_CONSTANTS && c.layout.FirstConst() + |c.consts| < c.layout.firstDynamic {
      PlaceLeft(c);
    }
    if FreeConstantSlot(c).Some? {
      NextConstantSlot(c);
    }
  }

  lemma PlaceLeft(c: CState)
    requires Inv(c) && |c.consts| < MAX_CONSTANTS && c.layout.FirstConst() + |c.consts| < c.layout.firstDynamic
    ensures FreeConstantSlot(c).Some?
  {
    var slot := c.layout.FirstConst() + |c.consts|;
    assert c.usage[slot] == 0;
  }

  /** The fallback when the table is full is an ordinary allocated operand. */
  lemma InlineConstant(c: CState, v: Val)
    requires Inv(c) && PushConst(c, v).Some?
    requires FindConstant(c.consts, v, 0) == |c.consts| && FreeConstantSlot(c).None?
    ensures PushAllocated(c, v.Type()).Some? && FreeSlot(c).Some?
    ensures PushConst(c, v).value
         == Emit(PushAllocated(c, v.Type()).value, SetConst(v.Type(), ConstWord(v), FreeSlot(c).value))
    ensures Good(c, PushConst(c, v).value)
    ensures |PushConst(c, v).value.stack| == |c.stack| + 1
  {
    PushAllocatedOk(c, v.Type());
    var pushed := PushAllocated(c, v.Type()).value;
    var op := SetConst(v.Type(), ConstWord(v), FreeSlot(c).value);
    EmitOk(pushed, op);
    GoodTrans(c, pushed, Emit(pushed, op));
  }

  // ----- locals and operators -----

  lemma GetLocalOk(c: CState, n: nat)
    requires Inv(c) && CompileGetLocal(c, n).Some?
    ensures Good(c, CompileGetLocal(c, n).value)
  {
    PushOk(c, c.stack[n].ty, c.stack[n].slot);
  }

  /** The operation that stores the top of the stack into a local. */
  function StoreOp(found: CState, slot: nat, kept: nat): Op
    requires |found.stack| > 0
  {
    var e := found.stack[|found.stack| - 1];
    if kept == slot then (if IsAlias(e.slot) then SetSlot(e.ty, slot) else CopySlot(e.ty, slot, e.slot))
    else if IsAlias(e.slot) then PreserveSetSlot(e.ty, slot, kept)
    else PreserveCopySlot(e.ty, slot, e.slot, kept)
  }

  /** local.tee redirects the references to the local, then stores. */
  lemma TeeLocalShape(c: CState, n: nat)
    requires CompileSetLocal(c, n, true).Some?
    ensures n < |c.stack| && n < |c.layout.locals| && FindReferencedLocal(c, c.stack[n].slot).Some?
    ensures var (found, kept) := FindReferencedLocal(c, c.stack[n].slot).value;
      |found.stack| > 0 && CompileSetLocal(c, n, true).value == Emit(found, StoreOp(found, c.stack[n].slot, kept))
  {
  }

  lemma TeeLocalOk(c: CState, n: nat)
    requires Inv(c) && CompileSetLocal(c, n, true).Some?
    ensures var d := CompileSetLocal(c, n, true).value;
      Good(c, d) && |d.stack| == |c.stack| && d.reg == c.reg
  {
    TeeLocalShape(c, n);
    var slot := c.stack[n].slot;
    FindReferencedLocalOk(c, slot);
    var (found, kept) := FindReferencedLocal(c, slot).value;
    EmitOk(found, StoreOp(found, slot, kept));
    GoodTrans(c, found, Emit(found, StoreOp(found, slot, kept)));
  }

  lemma SetLocalOk(c: CState, n: nat, tee: bool)
    requires Inv(c) && !c.block.polymorphic && CompileSetLocal(c, n, tee).Some?
    ensures CompileSetLocal(c, n, true).Some?
    ensures Good(c, CompileSetLocal(c, n, tee).value)
  {
    TeeLocalOk(c, n);
    if !tee {
      var d := CompileSetLocal(c, n, true).value;
      PopOk(d);
      GoodTrans(c, d, Pop(d).value);
    }
  }

  lemma {:induction false} PopNOk(c: CState, n: nat)
    requires Inv(c) && !c.block.polymorphic && PopN(c, n).Some?
    ensures |c.stack| >= c.block.base + n
    ensures Good(c, PopN(c, n).value) && PopN(c, n).value.stack == c.stack[..|c.stack| - n]
    ensures PopN(c, n).value.reg == if c.reg > |c.stack| - n then 0 else c.reg
    ensures PopN(c, n).value.block == c.block && PopN(c, n).value.pages == c.pages && PcOf(PopN(c, n).value) == PcOf(c)
    ensures PopN(c, n).value.consts == c.consts && PopN(c, n).value.patched == c.patched
    decreases n
  {
    if n > 0 {
      PopOk(c);
      var d := Pop(c).value;
      PopNOk(d, n - 1);
      GoodTrans(c, d, PopN(d, n - 1).value);
    }
  }

  lemma UnaryOk(c: CState, op: UnOp)
    requires Inv(c) && !c.block.polymorphic && CompileUnary(c, op).Some?
    ensures Good(c, CompileUnary(c, op).value)
  {
    var n := |c.stack|;
    var inReg := InRegister(c, n - 1);
    if inReg {
      RegisterIndex(c, n - 1);
    } else {
      PreserveRegisterOk(c);
    }
    var ready := if inReg then c else PreserveRegister(c).value;
    var word := if inReg then UnaryR(op) else UnaryS(op, c.stack[n - 1].slot);
    GrowsSelf(c);
    FinishOperator(c, ready, word, 1, UnResult(op));
    assert PopN(Emit(ready, word), 1) == Pop(Emit(ready, word));
  }

  lemma BinaryOk(c: CState, op: BinOp)
    requires Inv(c) && !c.block.polymorphic && CompileBinary(c, op).Some?
    ensures Good(c, CompileBinary(c, op).value)
  {
    hide Inv, Grows, PopN, PreserveRegister;
    var n := |c.stack|;
    var a, b := c.stack[n - 1].slot, c.stack[n - 2].slot;
    GoodSelf(c);
    if InRegister(c, n - 1) {
      RegisterIndex(c, n - 1);
      FinishOperator(c, c, BinaryRS(op, b), 2, BinResult(op));
    } else if InRegister(c, n - 2) {
      RegisterIndex(c, n - 2);
      FinishOperator(c, c, if IsCommutative(op.kind) then BinaryRS(op, a) else BinarySR(op, a), 2, BinResult(op));
    } else {
      PreserveRegisterOk(c);
      GoodFacts(c, PreserveRegister(c).value);
      FinishOperator(c, PreserveRegister(c).value, BinarySS(op, a, b), 2, BinResult(op));
    }
  }

  /** Popping the operands of an operation and pushing its result in the register. */
  lemma FinishOperator(c: CState, ready: CState, op: Op, n: nat, ty: ValType)
    requires Inv(c) && Good(c, ready)
    requires !ready.block.polymorphic
    requires PopN(Emit(ready, op), n).Some? && PushRegister(PopN(Emit(ready, op), n).value, ty).Some?
    requires ready.reg == 0 || ready.reg > |ready.stack| - n
    ensures var d := PushRegister(PopN(Emit(ready, op), n).value, ty).value;
      && Good(c, d) && Good(Emit(ready, op), d) && PcOf(d) == PcOf(Emit(ready, op)) && |ready.stack| >= n
      && d.stack == ready.stack[..|ready.stack| - n] + [Entry.Entry(REG0_ALIAS, ty, true)]
  {
    var emitted := Emit(ready, op);
    EmitOk(ready, op);
    PopNOk(emitted, n);
    var popped := PopN(emitted, n).value;
    PushOk(popped, ty, REG0_ALIAS);
    var d := PushRegister(popped, ty).value;
    GoodTrans(emitted, popped, d);
    GoodTrans(ready, emitted, d);
    GoodTrans(c, ready, d);
  }

  lemma SelectOk(c: CState)
    requires Inv(c) && !c.block.polymorphic && CompileSelect(c).Some?
    ensures Good(c, CompileSelect(c).value)
  {
    hide Inv, Grows, SelectOp, PopN, PreserveRegister;
    var n := |c.stack|;
    GoodSelf(c);
    var anyReg := InRegister(c, n - 1) || InRegister(c, n - 2) || InRegister(c, n - 3);
    if anyReg {
      RegisterIndex(c, if InRegister(c, n - 1) then n - 1 else if InRegister(c, n - 2) then n - 2 else n - 3);
      FinishSelect(c, c, SelectOp(c), c.stack[n - 2].ty);
    } else {
      PreserveRegisterOk(c);
      GoodFacts(c, PreserveRegister(c).value);
      FinishSelect(c, PreserveRegister(c).value, SelectOp(c), c.stack[n - 2].ty);
    }
  }

  lemma FinishSelect(c: CState, ready: CState, op: Op, ty: ValType)
    requires Inv(c) && Good(c, ready) && !ready.block.polymorphic
    requires PopN(ready, 3).Some? && PushRegister(Emit(PopN(ready, 3).value, op), ty).Some?
    requires ready.reg == 0 || ready.reg > |ready.stack| - 3
    ensures var d := PushRegister(Emit(PopN(ready, 3).value, op), ty).value;
      && Good(c, d) && Good(Emit(ready, op), d) && PcOf(d) == PcOf(Emit(ready, op)) && |ready.stack| >= 3
      && d.stack == ready.stack[..|ready.stack| - 3] + [Entry.Entry(REG0_ALIAS, ty, true)]
  {
    PopNEmit(ready, op, 3);
    FinishOperator(c, ready, op, 3, ty);
  }

  /** Popping and emitting do not interfere. */
  lemma {:induction false} PopNEmit(c: CState, op: Op, n: nat)
    requires PopN(c, n).Some?
    ensures PopN(Emit(c, op), n) == Some(Emit(PopN(c, n).value, op))
    decreases n
  {
    if n > 0 {
      assert Pop(Emit(c, op)) == Some(Emit(Pop(c).value, op));
      PopNEmit(Pop(c).value, op, n - 1);
    }
  }

  // ----- results and branches -----

  /** With at most one result, the recursive move is a single copy or nothing. */
  lemma MoveOne(c: CState, target: nat, temp: nat)
    requires |c.stack| > 0 && target < |c.stack|
    ensures var i := |c.stack| - 1;
      CopyStackSlotsR(c, target, i, |c.stack|, temp)
        == Some(if c.stack[i].slot == c.stack[target].slot then c else CopyIndexToSlot(c, c.stack[target].slot, i))
  {
    var i, end := |c.stack| - 1, |c.stack|;
    var src, dst := c.stack[i].slot, c.stack[target].slot;
    assert c.stack[i := c.stack[i].(slot := src)] == c.stack;
    if src != dst {
      var copied := CopyIndexToSlot(c, dst, i);
      var moved := copied.(stack := c.stack[i := c.stack[i].(slot := dst)]);
      assert CopyStackSlotsR(moved, target + 1, i + 1, end, temp) == Some(moved);
      assert moved.stack[i := moved.stack[i].(slot := src)] == c.stack;
    }
  }

  lemma CopyOk(c: CState, dst: nat, i: nat)
    requires Inv(c) && i < |c.stack|
    ensures var d := CopyIndexToSlot(c, dst, i);
      Good(c, d) && d == c.(pages := d.pages)
  {
    var e := c.stack[i];
    EmitOk(c, if IsAlias(e.slot) then SetSlot(e.ty, dst) else CopySlot(e.ty, dst, e.slot));
  }

  lemma ResolveResultsOk(c: CState, target: Scope, isBranch: bool)
    requires Inv(c) && |target.results| <= 1 && ResolveResults(c, target, isBranch).Some?
    ensures var d := ResolveResults(c, target, isBranch).value;
      Good(c, d) && d == c.(pages := d.pages)
  {
    hide Inv, Grows, CopyStackSlotsR, CopyIndexToSlot;
    var n := if target.kind == LoopScope && isBranch then 0 else |target.results|;
    GrowsSelf(c);
    if n > 0 && target.exit + n <= |c.stack| {
      MoveOne(c, target.exit, c.maxSlots);
      CopyOk(c, c.stack[target.exit].slot, |c.stack| - 1);
    }
  }

  lemma {:induction false} ReturnCopiesOk(c: CState, results: seq<ValType>, k: nat)
    requires Inv(c) && k <= |results| && ReturnCopies(c, results, k).Some?
    ensures var d := ReturnCopies(c, results, k).value;
      Good(c, d) && d == c.(pages := d.pages)
    decreases |results| - k
  {
    GrowsSelf(c);
    if k < |results| {
      var copied := CopyIndexToSlot(c, |results| - 1 - k, |c.stack| - 1 - k);
      CopyOk(c, |results| - 1 - k, |c.stack| - 1 - k);
      ReturnCopiesOk(copied, results, k + 1);
      GoodTrans(c, copied, ReturnCopies(copied, results, k + 1).value);
    }
  }

  lemma ReturnValuesOk(c: CState, results: seq<ValType>)
    requires Inv(c) && ReturnValues(c, results, true).Some?
    ensures var d := ReturnValues(c, results, true).value;
      Good(c, d) && d == c.(pages := d.pages)
  {
    GrowsSelf(c);
    if !c.block.polymorphic {
      ReturnCopiesOk(c, results, 0);
    }
  }

  lemma ScopeAtOk(c: CState, depth: nat)
    requires Inv(c) && ScopeAt(c, depth).Some?
    ensures depth < |Scopes(c)| && ScopeAt(c, depth).value == Scopes(c)[|Scopes(c)| - 1 - depth]
    ensures ScopeAt(c, depth).value.kind != FuncScope ==> |ScopeAt(c, depth).value.results| <= 1
  {
    assert ScopeOk(c, |Scopes(c)| - 1 - depth);
  }

  lemma BranchToOk(c: CState, target: Scope)
    requires Inv(c) && BranchTo(c, target).Some?
    requires target.kind != FuncScope ==> |target.results| <= 1
    ensures var d := BranchTo(c, target).value;
      Good(c, d) && d == c.(pages := d.pages)
  {
    var op := if target.kind == LoopScope then ContinueLoop(target.pc)
              else if target.kind == FuncScope then OpReturn
              else Branch(Patched(target.end));
    var ready := if target.kind == FuncScope then ReturnValues(c, target.results, true).value
                 else ResolveResults(c, target, true).value;
    if target.kind == FuncScope {
      ReturnValuesOk(c, target.results);
    } else {
      ResolveResultsOk(c, target, true);
    }
    EmitOk(ready, op);
    GoodTrans(c, ready, Emit(ready, op));
  }

  lemma {:induction false} UnwindOk(c: CState)
    requires Inv(c)
    ensures UnwindStack(c).Some?
    ensures var d := UnwindStack(c).value;
      Good(c, d) && d.stack == c.stack[..c.block.base] && d.reg == 0
      && d.block == c.block && d.pages == c.pages && d.patched == c.patched
    decreases |c.stack|
  {
    GrowsSelf(c);
    if |c.stack| > c.block.base {
      PopOk(c);
      var d := Pop(c).value;
      UnwindOk(d);
      GoodTrans(c, d, UnwindStack(d).value);
    }
  }

  /** A body that ended in a jump: the operands of its block may be gone. */
  ghost predicate Ended(c: CState, d: CState) {
    Inv(d) && d.block == c.block.(polymorphic := true) && Grows(c, d.(block := c.block))
  }

  lemma EndedTrans(c: CState, d: CState, e: CState)
    requires Good(c, d) && Ended(d, e)
    ensures Ended(c, e)
  {
    GrowsTrans(c, d, e.(block := d.block));
  }

  lemma MarkPolymorphicOk(c: CState)
    requires Inv(c)
    ensures Inv(c.(block := c.block.(polymorphic := true)))
  {
    var d := c.(block := c.block.(polymorphic := true));
    SlotsUnchanged(c, d);
    forall k | 0 <= k < |Scopes(d)|
      ensures ScopeOk(d, k)
    {
      assert ScopeOk(c, k);
    }
  }

  lemma SetPolymorphicOk(c: CState)
    requires Inv(c)
    ensures SetPolymorphic(c).Some?
    ensures var d := SetPolymorphic(c).value;
      Ended(c, d) && d.stack == c.stack[..c.block.base] && d.reg == 0 && d.pages == c.pages && d.patched == c.patched
  {
    MarkPolymorphicOk(c);
    UnwindOk(c.(block := c.block.(polymorphic := true)));
  }

  lemma BrOk(c: CState, depth: nat)
    requires Inv(c) && CompileBr(c, depth).Some?
    ensures Ended(c, CompileBr(c, depth).value)
  {
    ScopeAtOk(c, depth);
    var target := ScopeAt(c, depth).value;
    if target.kind == LoopScope {
      EmitOk(c, ContinueLoop(target.pc));
      MarkPolymorphicOk(Emit(c, ContinueLoop(target.pc)));
    } else {
      BranchToOk(c, target);
      var gone := BranchTo(c, target).value;
      SetPolymorphicOk(gone);
      EndedTrans(c, gone, SetPolymorphic(gone).value);
    }
  }

  lemma ReturnOk(c: CState)
    requires Inv(c) && CompileReturn(c).Some?
    ensures Ended(c, CompileReturn(c).value)
  {
    var results := Scopes(c)[0].results;
    ReturnValuesOk(c, results);
    var ready := ReturnValues(c, results, true).value;
    EmitOk(ready, OpReturn);
    SetPolymorphicOk(Emit(ready, OpReturn));
    GoodTrans(c, ready, Emit(ready, OpReturn));
    EndedTrans(c, Emit(ready, OpReturn), CompileReturn(c).value);
  }

  lemma UnreachableOk(c: CState)
    requires Inv(c)
    ensures CompileUnreachable(c).Some? && Ended(c, CompileUnreachable(c).value)
  {
    EmitOk(c, OpUnreachable);
    SetPolymorphicOk(Emit(c, OpUnreachable));
    EndedTrans(c, Emit(c, OpUnreachable), CompileUnreachable(c).value);
  }

  // ----- forward references -----

  lemma FreshIdOk(c: CState)
    requires Inv(c)
    ensures Good(c, FreshId(c))
  {
    SlotsUnchanged(c, FreshId(c));
    ScopesUnchanged(c, FreshId(c));
  }

  /** A reference created after state `c` can be resolved without disturbing the references `c` knows. */
  lemma DefineOk(c: CState, d: CState, id: nat)
    requires Inv(c) && Inv(d) && GrowsAnyPage(c, d) && c.nextId <= id < d.nextId
    ensures Inv(Define(d, id)) && GrowsAnyPage(c, Define(d, id))
  {
    SlotsUnchanged(d, Define(d, id));
    ScopesUnchanged(c, Define(d, id));
  }

  lemma NewPageOk(c: CState)
    requires Inv(c)
    ensures var d := c.(pages := c.pages + [[]], page := |c.pages|); Inv(d) && GrowsAnyPage(c, d)
  {
    var d := c.(pages := c.pages + [[]], page := |c.pages|);
    SlotsUnchanged(c, d);
    ScopesUnchanged(c, d);
  }

  lemma OldPageOk(c: CState, d: CState)
    requires Inv(c) && Inv(d) && GrowsAnyPage(c, d)
    ensures Good(c, d.(page := c.page))
  {
    SlotsUnchanged(d, d.(page := c.page));
    ScopesUnchanged(c, d.(page := c.page));
  }

  lemma BrIfOk(c: CState, depth: nat)
    requires Inv(c) && !c.block.polymorphic && CompileBrIf(c, depth).Some?
    ensures Good(c, CompileBrIf(c, depth).value)
  {
    hide Inv, Grows, Emit, Pop, CopyTopToRegister, BranchTo, Define;
    ScopeAtOk(c, depth);
    GoodSelf(c);
    GoodFacts(c, c);
    var target := ScopeAt(c, depth).value;
    var cond := c.stack[|c.stack| - 1].slot;
    if target.kind == LoopScope {
      CopyTopToRegisterOk(c);
      var ready := CopyTopToRegister(c).value;
      GoodFacts(c, ready);
      DropOk(ready);
      var popped := Pop(ready).value;
      EmitOk(popped, ContinueLoopIf(target.pc));
      GoodTrans(c, ready, popped);
      GoodTrans(c, popped, Emit(popped, ContinueLoopIf(target.pc)));
    } else if |target.results| > 0 || target.kind == FuncScope {
      PrologueOk(c, target);
    } else {
      var to := Patched(target.end);
      var op := if IsAlias(cond) then BranchIfR(to) else BranchIfS(cond, to);
      EmitOk(c, op);
      GoodFacts(c, Emit(c, op));
      DropOk(Emit(c, op));
      GoodTrans(c, Emit(c, op), Pop(Emit(c, op)).value);
    }
  }

  lemma DropOk(c: CState)
    requires Inv(c) && !c.block.polymorphic && Pop(c).Some?
    ensures Good(c, Pop(c).value)
  {
    PopOk(c);
  }

  /** br_if through a prologue: the copies run only when the branch is taken. */
  lemma PrologueOk(c: CState, target: Scope)
    requires Inv(c) && !c.block.polymorphic && |c.stack| > 0
    requires target.kind != FuncScope ==> |target.results| <= 1
    requires var cond, skip := c.stack[|c.stack| - 1].slot, Patched(c.nextId);
      var popped := Pop(Emit(FreshId(c), if IsAlias(cond) then PrologueR(skip) else PrologueS(cond, skip)));
      popped.Some? && BranchTo(popped.value, target).Some?
    ensures var cond, skip := c.stack[|c.stack| - 1].slot, Patched(c.nextId);
      var popped := Pop(Emit(FreshId(c), if IsAlias(cond) then PrologueR(skip) else PrologueS(cond, skip))).value;
      Good(c, popped) && Good(popped, BranchTo(popped, target).value)
      && Good(c, Define(BranchTo(popped, target).value, c.nextId))
  {
    var cond, skip := c.stack[|c.stack| - 1].slot, Patched(c.nextId);
    var named := FreshId(c);
    FreshIdOk(c);
    var op := if IsAlias(cond) then PrologueR(skip) else PrologueS(cond, skip);
    EmitOk(named, op);
    PopOk(Emit(named, op));
    var popped := Pop(Emit(named, op)).value;
    GoodTrans(c, named, Emit(named, op));
    GoodTrans(c, Emit(named, op), popped);
    BranchToOk(popped, target);
    var taken := BranchTo(popped, target).value;
    GoodTrans(c, popped, taken);
    DefineOk(c, taken, c.nextId);
  }

  lemma CopyTopToRegisterOk(c: CState)
    requires Inv(c) && CopyTopToRegister(c).Some?
    ensures Good(c, CopyTopToRegister(c).value) && |CopyTopToRegister(c).value.stack| == |c.stack|
  {
    GrowsSelf(c);
    var e := c.stack[|c.stack| - 1];
    if !IsAlias(e.slot) {
      PreserveRegisterOk(c);
      var kept := PreserveRegister(c).value;
      EmitOk(kept, SetRegister(e.ty, e.slot));
      GoodTrans(c, kept, Emit(kept, SetRegister(e.ty, e.slot)));
    }
  }

  /** Compiling the code of one br_table target on a page of its own. */
  lemma TrampolineOk(c: CState, target: Scope)
    requires Inv(c) && (target.kind != FuncScope ==> |target.results| <= 1)
    requires BranchTo(c.(pages := c.pages + [[]], page := |c.pages|), target).Some?
    ensures var d := BranchTo(c.(pages := c.pages + [[]], page := |c.pages|), target).value.(page := c.page);
      Good(c, d) && d == c.(pages := d.pages) && PcOf(d) == PcOf(c)
  {
    var onNew := c.(pages := c.pages + [[]], page := |c.pages|);
    NewPageOk(c);
    BranchToOk(onNew, target);
    OldPageOk(c, BranchTo(onNew, target).value);
  }

  lemma {:induction false} TargetsOk(c: CState, depths: seq<nat>)
    requires Inv(c) && CompileTargets(c, depths).Some?
    ensures var d := CompileTargets(c, depths).value.0;
      Good(c, d) && d == c.(pages := d.pages) && PcOf(d) == PcOf(c)
    ensures |CompileTargets(c, depths).value.1| == |depths|
    decreases |depths|
  {
    GrowsSelf(c);
    if depths != [] {
      var rest := depths[..|depths| - 1];
      TargetsOk(c, rest);
      var s := CompileTargets(c, rest).value.0;
      ScopeAtOk(s, depths[|depths| - 1]);
      var target := ScopeAt(s, depths[|depths| - 1]).value;
      TrampolineOk(s, target);
      GoodTrans(c, s, CompileTargets(c, depths).value.0);
    }
  }

  lemma TableOperandOk(c: CState)
    requires Inv(c) && !c.block.polymorphic && PreserveRegister(c).Some? && Pop(PreserveRegister(c).value).Some?
    ensures Good(c, Pop(PreserveRegister(c).value).value)
  {
    PreserveRegisterOk(c);
    var ready := PreserveRegister(c).value;
    PopOk(ready);
    GoodTrans(c, ready, Pop(ready).value);
  }

  lemma BrTableOk(c: CState, targets: seq<nat>, default: nat)
    requires Inv(c) && !c.block.polymorphic && CompileBrTable(c, targets, default).Some?
    ensures Ended(c, CompileBrTable(c, targets, default).value)
  {
    hide Inv, Grows, Ended, PreserveRegister, Pop, CompileTargets, SetPolymorphic;
    TableOperandOk(c);
    var ready := PreserveRegister(c).value;
    var popped := Pop(ready).value;
    TargetsOk(popped, targets + [default]);
    var done := CompileTargets(popped, targets + [default]).value;
    var op := BranchTable(ready.stack[|ready.stack| - 1].slot, done.1);
    EmitOk(done.0, op);
    SetPolymorphicOk(Emit(done.0, op));
    EndedTrans(done.0, Emit(done.0, op), CompileBrTable(c, targets, default).value);
    EndedTrans(popped, done.0, CompileBrTable(c, targets, default).value);
    EndedTrans(c, popped, CompileBrTable(c, targets, default).value);
  }

  // ----- calls -----

  lemma {:induction false} TrimMaxOk(c: CState, max: nat)
    requires c.layout.firstDynamic <= max <= MAX_FUNCTION_SLOTS
    requires forall s :: max <= s < MAX_FUNCTION_SLOTS ==> c.usage[s] == 0
    ensures c.layout.firstDynamic <= TrimMax(c, max) <= max
    ensures forall s :: TrimMax(c, max) <= s < MAX_FUNCTION_SLOTS ==> c.usage[s] == 0
    decreases max
  {
    if max > c.layout.firstDynamic && c.usage[max - 1] == 0 {
      TrimMaxOk(c, max - 1);
    }
  }

  lemma TrimmedOk(c: CState, t: nat)
    requires Inv(c) && c.layout.firstDynamic <= t <= c.maxAllocated
    requires forall s :: t <= s < MAX_FUNCTION_SLOTS ==> c.usage[s] == 0
    ensures Good(c, c.(maxAllocated := t))
  {
    var d := c.(maxAllocated := t);
    forall i | |d.layout.locals| <= i < |d.stack|
      ensures EntryOk(d, i)
    {
      assert EntryOk(c, i);
    }
    ScopesUnchanged(c, d);
  }

  /** The frame of a call starts above every slot in use. */
  lemma FrameBaseOk(c: CState)
    requires Inv(c)
    ensures var d := c.(maxAllocated := TrimMax(c, c.maxAllocated)); Good(c, d) && d.maxAllocated <= FrameBase(c)
    ensures FrameBase(c) > 0 && c.layout.firstDynamic <= FrameBase(c)
    ensures forall s :: FrameBase(c) <= s < MAX_FUNCTION_SLOTS ==> c.usage[s] == 0
  {
    TrimMaxOk(c, c.maxAllocated);
    TrimmedOk(c, TrimMax(c, c.maxAllocated));
  }

  lemma CopyArgOk(c: CState, dst: nat)
    requires Inv(c) && !c.block.polymorphic && CopyTopToSlot(c, dst).Some? && Pop(CopyTopToSlot(c, dst).value).Some?
    ensures |c.stack| > c.block.base
    ensures var d := Pop(CopyTopToSlot(c, dst).value).value;
      Good(c, d) && d.maxAllocated == c.maxAllocated && d.stack == c.stack[..|c.stack| - 1]
      && d.reg == (if c.reg == |c.stack| then 0 else c.reg)
  {
    var copied := CopyTopToSlot(c, dst).value;
    CopyOk(c, dst, |c.stack| - 1);
    PopOk(copied);
    GoodTrans(c, copied, Pop(copied).value);
  }

  lemma {:induction false} CopyArgsOk(c: CState, base: nat, n: nat)
    requires Inv(c) && !c.block.polymorphic && CopyArgs(c, base, n).Some?
    ensures n <= |c.stack| - c.block.base
    ensures var d := CopyArgs(c, base, n).value;
      Good(c, d) && d.maxAllocated == c.maxAllocated && d.stack == c.stack[..|c.stack| - n]
      && d.reg == (if c.reg > |c.stack| - n then 0 else c.reg)
    decreases n
  {
    hide Inv, Grows, IsAlias, Push, Pop, CopyTopToSlot;
    GoodSelf(c);
    GoodFacts(c, c);
    if n > 0 {
      CopyArgOk(c, base + n - 1);
      var popped := Pop(CopyTopToSlot(c, base + n - 1).value).value;
      GoodFacts(c, popped);
      CopyArgsOk(popped, base, n - 1);
      GoodTrans(c, popped, CopyArgs(popped, base, n - 1).value);
    }
  }

  function ConsecutiveEntries(base: nat, results: seq<ValType>): (r: seq<Entry>)
    ensures |r| == |results|
    ensures forall i :: 0 <= i < |r| ==> r[i] == Entry.Entry(base + i, results[i], true)
  {
    seq(|results|, i requires 0 <= i < |results| => Entry.Entry(base + i, results[i], true))
  }

  lemma PushResultAtOk(c: CState, ty: ValType, slot: nat)
    requires Inv(c) && c.layout.firstDynamic <= slot < MAX_FUNCTION_SLOTS && c.maxAllocated <= slot
    requires Push(c, ty, slot).Some?
    ensures var d := MarkAllocated(Push(c, ty, slot).value, slot);
      Good(c, d) && d.maxAllocated == slot + 1 && d.stack == c.stack + [Entry.Entry(slot, ty, true)]
      && d.reg == c.reg && d.pages == c.pages && d.layout == c.layout
  {
    PushAtOk(c, ty, slot);
  }

  lemma {:induction false} PushResultsAtOk(c: CState, base: nat, results: seq<ValType>)
    requires Inv(c) && c.maxAllocated <= base && PushResultsAt(c, base, results).Some?
    requires c.layout.firstDynamic <= base
    ensures var d := PushResultsAt(c, base, results).value;
      Good(c, d) && d.maxAllocated <= base + |results| && d.stack == c.stack + ConsecutiveEntries(base, results)
      && d.reg == c.reg && d.pages == c.pages && d.layout == c.layout
    decreases |results|
  {
    hide Inv, Grows, Push, MarkAllocated;
    GoodSelf(c);
    var n := |results|;
    if n == 0 {
      assert ConsecutiveEntries(base, results) == [];
    } else {
      var rest := results[..n - 1];
      PushResultsAtOk(c, base, rest);
      var before := PushResultsAt(c, base, rest).value;
      var slot := base + n - 1;
      PushResultAtOk(before, results[n - 1], slot);
      GoodTrans(c, before, PushResultsAt(c, base, results).value);
      assert ConsecutiveEntries(base, results)
        == ConsecutiveEntries(base, rest) + [Entry.Entry(slot, results[n - 1], true)];
    }
  }

  /** The state once the arguments have been passed. */
  lemma ArgsPassedOk(c: CState, m: Module, f: nat)
    requires Inv(c) && !c.block.polymorphic && CompileCall(c, m, f).Some?
    ensures f < |m| && |m[f].params| <= |c.stack| - c.block.base
    ensures var trimmed := c.(maxAllocated := TrimMax(c, c.maxAllocated));
      var passed := CopyArgs(trimmed, FrameBase(c) + |m[f].results|, |m[f].params|);
      passed.Some? && Good(c, trimmed) && Good(c, passed.value) && passed.value.maxAllocated <= FrameBase(c)
      && passed.value.stack == c.stack[..|c.stack| - |m[f].params|]
      && passed.value.reg == (if c.reg > |c.stack| - |m[f].params| then 0 else c.reg)
  {
    hide Inv, Grows, CopyArgs, PushResultsAt, FrameBase, TrimMax;
    FrameBaseOk(c);
    var trimmed := c.(maxAllocated := TrimMax(c, c.maxAllocated));
    CopyArgsOk(trimmed, FrameBase(c) + |m[f].results|, |m[f].params|);
    GoodTrans(c, trimmed, CopyArgs(trimmed, FrameBase(c) + |m[f].results|, |m[f].params|).value);
  }

  lemma CallOk(c: CState, m: Module, f: nat)
    requires Inv(c) && !c.block.polymorphic && CompileCall(c, m, f).Some?
    ensures Good(c, CompileCall(c, m, f).value)
    ensures f < |m| && |m[f].params| <= |c.stack| - c.block.base
    ensures CompileCall(c, m, f).value.stack
         == c.stack[..|c.stack| - |m[f].params|] + ConsecutiveEntries(FrameBase(c), m[f].results)
  {
    hide Inv, Grows, CopyArgs, PushResultsAt, FrameBase, TrimMax;
    var base := FrameBase(c);
    FrameBaseOk(c);
    ArgsPassedOk(c, m, f);
    var trimmed := c.(maxAllocated := TrimMax(c, c.maxAllocated));
    var passed := CopyArgs(trimmed, base + |m[f].results|, |m[f].params|).value;
    GoodFacts(c, passed);
    PushResultsAtOk(passed, base, m[f].results);
    var pushed := PushResultsAt(passed, base, m[f].results).value;
    EmitOk(pushed, OpCall(f, base));
    GoodTrans(c, passed, pushed);
    GoodTrans(c, pushed, Emit(pushed, OpCall(f, base)));
  }
}
