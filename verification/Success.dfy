/** Every valid function compiles as long as what it needs, computed from its syntax, stays within the literal limits of
    the operand stack, the slots and the usage counts; and its maxStackSlots stays within that need, too.
 */
module Success {
  import opened Words
  import opened IntegerOps
  import opened Wasm
  import opened Machine
  import opened Allocator
  import opened Compiler
  import opened Invariant
  import opened CompilerInvariant
  import opened BlockInvariant
  import opened FunctionSimulation
  import opened Needs
  import opened Room

  // ----- compile-time states that agree with validation -----

  /** What a branch to the scope takes. */
  function LabelTypes(s: Scope): seq<ValType> {
    if s.kind == LoopScope then [] else s.results
  }

  ghost predicate Labelled(c: CState, x: Context) {
    && x.locals == c.layout.locals && |x.labels| == |Scopes(c)| && Scopes(c)[0].results == x.results
    && forall d :: 0 <= d < |x.labels| ==> x.labels[d] == LabelTypes(Scopes(c)[|Scopes(c)| - 1 - d])
  }

  predicate Roomy(c: CState, lim: Need) {
    c.maxSlots <= c.layout.firstDynamic + lim.height + lim.reach
  }

  ghost predicate Fits(c: CState, x: Context, ops: seq<Operand>, below: nat, lim: Need) {
    && Inv(c) && !c.block.polymorphic && Labelled(c, x) && Enough(c.layout, lim) && Roomy(c, lim)
    && StackFits(c.layout, lim, c.stack, c.block.base, ops, below)
  }

  /** `n` more operands than those of the enclosing blocks. */
  predicate HeightFits(c: CState, n: nat, lim: Need) {
    c.block.base + n <= |c.layout.locals| + lim.height
  }

  lemma FitsFacts(c: CState, x: Context, ops: seq<Operand>, below: nat, lim: Need)
    requires Fits(c, x, ops, below, lim)
    ensures Inv(c) && !c.block.polymorphic && |c.stack| == c.block.base + |ops| && Enough(c.layout, lim)
    ensures |c.layout.locals| <= c.block.base && x.locals == c.layout.locals && Labelled(c, x) && Roomy(c, lim)
    ensures forall i :: 0 <= i < |ops| ==> EntryFits(c.layout, lim, c.stack[c.block.base + i], ops[i])
    ensures StackFits(c.layout, lim, c.stack, c.block.base, ops, below)
    ensures c.layout.FirstConst() <= c.layout.firstDynamic <= MAX_FUNCTION_SLOTS
  {
  }

  /** A handler's result on such a state is one again. */
  lemma FitsAgain(c: CState, d: CState, x: Context, ops: seq<Operand>, ops': seq<Operand>, below: nat, lim: Need)
    requires Fits(c, x, ops, below, lim) && Good(c, d) && Roomy(d, lim)
    requires StackFits(c.layout, lim, d.stack, c.block.base, ops', below)
    ensures Fits(d, x, ops', below, lim)
  {
    hide Inv, StackFits;
    GoodFacts(c, d);
  }

  /** There is room for one more operand. */
  lemma RoomLeft(c: CState, x: Context, ops: seq<Operand>, below: nat, lim: Need)
    requires Fits(c, x, ops, below, lim) && HeightFits(c, |ops| + 1, lim)
    ensures |c.stack| < MAX_STACK_HEIGHT
    ensures FreeSlot(c).Some? && FreeSlot(c).value < c.layout.firstDynamic + lim.height
  {
    hide StackFits, Labelled;
    FitsFacts(c, x, ops, below, lim);
    InvFacts(c);
    SlotsAbove(c.stack, c.layout.firstDynamic, MAX_FUNCTION_SLOTS, |c.layout.locals|);
    FreeNear(c, lim.height);
  }

  /** There is a slot for an operand that does not have one yet. */
  lemma RoomForOne(c: CState, x: Context, ops: seq<Operand>, below: nat, lim: Need, j: nat)
    requires Fits(c, x, ops, below, lim) && HeightFits(c, |ops|, lim)
    requires |c.layout.locals| <= j < |c.stack| && !IsDynamic(c.layout, c.stack[j].slot)
    ensures FreeSlot(c).Some? && FreeSlot(c).value < c.layout.firstDynamic + lim.height
  {
    hide StackFits, Labelled;
    FitsFacts(c, x, ops, below, lim);
    InvFacts(c);
    SlotsBut(c.stack, c.layout.firstDynamic, MAX_FUNCTION_SLOTS, |c.layout.locals|, j);
    FreeNear(c, lim.height);
  }

  // ----- constants and locals -----

  lemma ConstFits(c: CState, x: Context, v: Val, ops: seq<Operand>, below: nat, lim: Need)
    requires Fits(c, x, ops, below, lim) && HeightFits(c, |ops| + 1, lim)
    ensures PushConst(c, v).Some? && Fits(PushConst(c, v).value, x, ops + [Plain(v.Type())], below, lim)
  {
    hide Inv, StackFits, Labelled, Grows, SameConstant;
    FitsFacts(c, x, ops, below, lim);
    InvFacts(c);
    RoomLeft(c, x, ops, below, lim);
    if FindConstant(c.consts, v, 0) == |c.consts| && FreeConstantSlot(c).Some? {
      NextConstantSlot(c);
    }
    assert PushConst(c, v).Some?;
    var d := PushConst(c, v).value;
    PushConstOk(c, v);
    var e := d.stack[|c.stack|];
    assert d.stack == c.stack + [e];
    PlainFits(c.layout, lim, e.slot, v.Type());
    FitsPushed(c.layout, lim, c.stack, c.block.base, ops, below, e, Plain(v.Type()));
    FitsAgain(c, d, x, ops, ops + [Plain(v.Type())], below, lim);
  }

  lemma GetLocalFits(c: CState, x: Context, n: nat, ops: seq<Operand>, below: nat, lim: Need)
    requires Fits(c, x, ops, below, lim) && HeightFits(c, |ops| + 1, lim) && n < |x.locals|
    ensures CompileGetLocal(c, n).Some?
    ensures Fits(CompileGetLocal(c, n).value, x, ops + [Operand(x.locals[n], Some(n), 0)], below, lim)
  {
    hide Inv, StackFits, Labelled, Grows;
    FitsFacts(c, x, ops, below, lim);
    InvFacts(c);
    RoomLeft(c, x, ops, below, lim);
    GetLocalOk(c, n);
    var o := Operand(x.locals[n], Some(n), 0);
    FitsPushed(c.layout, lim, c.stack, c.block.base, ops, below, c.stack[n], o);
    FitsAgain(c, CompileGetLocal(c, n).value, x, ops, ops + [o], below, lim);
  }

  /** The operands that alias a local are among those read from it. */
  lemma {:induction false} RefsBound(l: Layout, lim: Need, stack: seq<Entry>, base: nat, ops: seq<Operand>, from: nat,
                                     n: nat)
    requires n < |l.locals| && |stack| == base + |ops|
    requires forall i :: 0 <= i < |ops| ==> EntryFits(l, lim, stack[base + i], ops[i])
    requires forall i :: from <= i < base ==> stack[i].slot != l.numRets + n
    ensures References(stack, from, l.numRets + n) <= Refs(ops, n)
    decreases |ops|
  {
    if ops == [] {
      ReferencesZero(stack, from, l.numRets + n);
    } else {
      RefsBound(l, lim, stack[..|stack| - 1], base, ops[..|ops| - 1], from, n);
      assert EntryFits(l, lim, stack[base + (|ops| - 1)], ops[|ops| - 1]);
    }
  }

  lemma LocalRefs(c: CState, x: Context, ops: seq<Operand>, below: nat, lim: Need, n: nat)
    requires Fits(c, x, ops, below, lim) && n < |x.locals|
    ensures c.stack[n].slot == c.layout.numRets + n && IsLocal(c.layout, c.stack[n].slot)
    ensures References(c.stack, ScanStart(c.outers, c.block), c.stack[n].slot) <= Refs(ops, n)
    ensures forall j :: |c.layout.locals| <= j < |c.stack| && c.stack[j].slot == c.stack[n].slot ==> j >= c.block.base
  {
    hide Labelled;
    FitsFacts(c, x, ops, below, lim);
    InvFacts(c);
    ReferencesAbove(c, c.stack[n].slot);
    RefsBound(c.layout, lim, c.stack, c.block.base, ops, ScanStart(c.outers, c.block), n);
  }

  lemma FindFits(c: CState, x: Context, n: nat, ops: seq<Operand>, below: nat, lim: Need)
    requires Fits(c, x, ops, below, lim) && HeightFits(c, |ops|, lim) && n < |x.locals| && Refs(ops, n) <= lim.refs
    ensures |c.stack| > n && FindReferencedLocal(c, c.stack[n].slot).Some?
    ensures var d := FindReferencedLocal(c, c.stack[n].slot).value.0;
      Good(c, d) && d.reg == c.reg && |d.stack| == |c.stack| && Fits(d, x, Moved(ops, n), below, lim)
  {
    hide Inv, StackFits, Labelled, Grows;
    FitsFacts(c, x, ops, below, lim);
    InvFacts(c);
    LocalRefs(c, x, ops, below, lim, n);
    var slot, from := c.stack[n].slot, ScanStart(c.outers, c.block);
    ReferencesAbove(c, slot);
    ReferencesZero(c.stack, from, slot);
    if References(c.stack, from, slot) > 0 {
      var j :| from <= j < |c.stack| && c.stack[j].slot == slot;
      RoomForOne(c, x, ops, below, lim, j);
    }
    assert FindReferencedLocal(c, slot).Some?;
    var (d, kept) := FindReferencedLocal(c, slot).value;
    FindReferencedLocalOk(c, slot);
    MovedFits(c, x, ops, below, lim, n, d, kept);
    FitsAgain(c, d, x, ops, Moved(ops, n), below, lim);
  }

  lemma MovedFits(c: CState, x: Context, ops: seq<Operand>, below: nat, lim: Need, n: nat, d: CState, kept: nat)
    requires Fits(c, x, ops, below, lim) && n < |x.locals| && d.layout == c.layout && |d.stack| == |c.stack|
    requires forall i :: 0 <= i < |c.stack| ==>
      d.stack[i] == if i >= |c.layout.locals| && c.stack[i].slot == c.layout.numRets + n
                    then c.stack[i].(slot := kept) else c.stack[i]
    requires if kept == c.layout.numRets + n
             then forall i :: |c.layout.locals| <= i < |c.stack| ==> c.stack[i].slot != kept
             else IsDynamic(c.layout, kept) && kept < c.layout.firstDynamic + lim.height
    ensures StackFits(c.layout, lim, d.stack, c.block.base, Moved(ops, n), below)
  {
    hide Inv, Labelled;
    FitsFacts(c, x, ops, below, lim);
    forall i | 0 <= i < |ops|
      ensures EntryFits(c.layout, lim, d.stack[c.block.base + i], Moved(ops, n)[i])
    {
      assert EntryFits(c.layout, lim, c.stack[c.block.base + i], ops[i]);
    }
  }

  lemma SetLocalFits(c: CState, x: Context, n: nat, tee: bool, ops: seq<Operand>, below: nat, lim: Need)
    requires Fits(c, x, ops, below, lim) && HeightFits(c, |ops|, lim) && n < |x.locals| && Refs(ops, n) <= lim.refs
    requires ops != []
    ensures CompileSetLocal(c, n, tee).Some?
    ensures Fits(CompileSetLocal(c, n, tee).value, x, if tee then Moved(ops, n) else Without(Moved(ops, n), 1), below,
                 lim)
  {
    hide Inv, StackFits, Labelled, Grows, FindReferencedLocal;
    FitsFacts(c, x, ops, below, lim);
    InvFacts(c);
    FindFits(c, x, n, ops, below, lim);
    var (found, kept) := FindReferencedLocal(c, c.stack[n].slot).value;
    var d := Emit(found, StoreOp(found, c.stack[n].slot, kept));
    assert CompileSetLocal(c, n, true) == Some(d);
    FitsFacts(found, x, Moved(ops, n), below, lim);
    EmitOk(found, StoreOp(found, c.stack[n].slot, kept));
    FitsAgain(found, d, x, Moved(ops, n), Moved(ops, n), below, lim);
    if !tee {
      DropFits(d, x, Moved(ops, n), below, lim);
    }
  }

  lemma DropFits(c: CState, x: Context, ops: seq<Operand>, below: nat, lim: Need)
    requires Fits(c, x, ops, below, lim) && ops != []
    ensures Pop(c).Some? && Fits(Pop(c).value, x, Without(ops, 1), below, lim)
  {
    hide Inv, StackFits, Labelled, Grows;
    FitsFacts(c, x, ops, below, lim);
    PopOk(c);
    FitsDropped(c.layout, lim, c.stack, c.block.base, ops, below, 1);
    FitsAgain(c, Pop(c).value, x, ops, Without(ops, 1), below, lim);
  }

  // ----- operators -----

  lemma {:induction false} PopNFits(c: CState, x: Context, ops: seq<Operand>, below: nat, lim: Need, n: nat)
    requires Fits(c, x, ops, below, lim) && n <= |ops|
    ensures PopN(c, n).Some? && Fits(PopN(c, n).value, x, Without(ops, n), below, lim)
    decreases n
  {
    hide Fits, Pop;
    if n == 0 {
      assert Without(ops, 0) == ops;
    } else {
      DropFits(c, x, ops, below, lim);
      PopNFits(Pop(c).value, x, Without(ops, 1), below, lim, n - 1);
      assert Without(Without(ops, 1), n - 1) == Without(ops, n);
    }
  }

  lemma EmitFits(c: CState, x: Context, ops: seq<Operand>, below: nat, lim: Need, op: Op)
    requires Fits(c, x, ops, below, lim)
    ensures Fits(Emit(c, op), x, ops, below, lim) && Good(c, Emit(c, op))
  {
    hide Inv, StackFits, Labelled, Grows;
    FitsFacts(c, x, ops, below, lim);
    EmitOk(c, op);
    FitsAgain(c, Emit(c, op), x, ops, ops, below, lim);
  }

  lemma RegisterFits(c: CState, x: Context, ops: seq<Operand>, below: nat, lim: Need, ty: ValType)
    requires Fits(c, x, ops, below, lim) && HeightFits(c, |ops| + 1, lim) && c.reg == 0
    ensures PushRegister(c, ty).Some? && Fits(PushRegister(c, ty).value, x, ops + [Plain(ty)], below, lim)
  {
    hide Inv, StackFits, Labelled, Grows;
    FitsFacts(c, x, ops, below, lim);
    RoomLeft(c, x, ops, below, lim);
    PushOk(c, ty, REG0_ALIAS);
    PlainFits(c.layout, lim, REG0_ALIAS, ty);
    FitsPushed(c.layout, lim, c.stack, c.block.base, ops, below, Entry.Entry(REG0_ALIAS, ty, true), Plain(ty));
    FitsAgain(c, PushRegister(c, ty).value, x, ops, ops + [Plain(ty)], below, lim);
  }

  lemma PreserveRegisterFits(c: CState, x: Context, ops: seq<Operand>, below: nat, lim: Need)
    requires Fits(c, x, ops, below, lim) && HeightFits(c, |ops|, lim)
    ensures PreserveRegister(c).Some?
    ensures var d := PreserveRegister(c).value;
      Fits(d, x, ops, below, lim) && d.reg == 0 && |d.stack| == |c.stack| && Good(c, d)
  {
    hide Inv, StackFits, Labelled, Grows;
    FitsFacts(c, x, ops, below, lim);
    InvFacts(c);
    if c.reg == 0 {
      GoodSelf(c);
    } else {
      RegisterPlace(c);
      RoomForOne(c, x, ops, below, lim, c.reg - 1);
      PreserveRegisterOk(c);
      var d := PreserveRegister(c).value;
      SpilledFits(c, x, ops, below, lim, d, FreeSlot(c).value);
      FitsAgain(c, d, x, ops, ops, below, lim);
    }
  }

  lemma RegisterPlace(c: CState)
    requires Inv(c) && c.reg != 0
    ensures |c.layout.locals| <= c.block.base <= c.reg - 1 < |c.stack| && IsAlias(c.stack[c.reg - 1].slot)
  {
  }

  lemma SpilledFits(c: CState, x: Context, ops: seq<Operand>, below: nat, lim: Need, d: CState, slot: nat)
    requires Fits(c, x, ops, below, lim) && |d.stack| == |c.stack|
    requires IsDynamic(c.layout, slot) && slot < c.layout.firstDynamic + lim.height
    requires forall i :: 0 <= i < |c.stack| ==>
      d.stack[i] == if IsAlias(c.stack[i].slot) then c.stack[i].(slot := slot) else c.stack[i]
    ensures StackFits(c.layout, lim, d.stack, c.block.base, ops, below)
  {
    hide Labelled;
    FitsFacts(c, x, ops, below, lim);
    forall i | |c.layout.locals| <= i < c.block.base && IsDynamic(c.layout, d.stack[i].slot)
      ensures d.stack[i].slot < c.layout.firstDynamic + lim.height + below
    {
      if !IsAlias(c.stack[i].slot) {
        assert d.stack[i] == c.stack[i];
      }
    }
    forall i | 0 <= i < |ops|
      ensures EntryFits(c.layout, lim, d.stack[c.block.base + i], ops[i])
    {
      assert EntryFits(c.layout, lim, c.stack[c.block.base + i], ops[i]);
    }
  }

  /** Emitting an operator, popping its operands, pushing its result. */
  lemma OperatorFits(c: CState, x: Context, ops: seq<Operand>, below: nat, lim: Need, op: Op, n: nat, ty: ValType)
    requires Fits(c, x, ops, below, lim) && HeightFits(c, |ops|, lim) && 0 < n <= |ops|
    requires c.reg == 0 || c.reg > |c.stack| - n
    ensures PopN(Emit(c, op), n).Some? && PushRegister(PopN(Emit(c, op), n).value, ty).Some?
    ensures Fits(PushRegister(PopN(Emit(c, op), n).value, ty).value, x, Without(ops, n) + [Plain(ty)], below, lim)
  {
    hide Inv, StackFits, Labelled, Grows, Fits;
    FitsFacts(c, x, ops, below, lim);
    EmitFits(c, x, ops, below, lim, op);
    FitsFacts(Emit(c, op), x, ops, below, lim);
    PopNFits(Emit(c, op), x, ops, below, lim, n);
    PopNOk(Emit(c, op), n);
    var popped := PopN(Emit(c, op), n).value;
    GoodFacts(Emit(c, op), popped);
    RegisterFits(popped, x, Without(ops, n), below, lim, ty);
  }

  lemma UnaryFits(c: CState, x: Context, op: UnOp, ops: seq<Operand>, below: nat, lim: Need)
    requires Fits(c, x, ops, below, lim) && HeightFits(c, |ops|, lim) && ops != []
    ensures CompileUnary(c, op).Some?
    ensures Fits(CompileUnary(c, op).value, x, Without(ops, 1) + [Plain(UnResult(op))], below, lim)
  {
    hide Inv, StackFits, Labelled, Grows, Fits, Pop, PreserveRegister, PushRegister;
    FitsFacts(c, x, ops, below, lim);
    var n := |c.stack|;
    if InRegister(c, n - 1) {
      RegisterIndex(c, n - 1);
      OperatorFits(c, x, ops, below, lim, UnaryR(op), 1, UnResult(op));
      OnePop(Emit(c, UnaryR(op)));
    } else {
      PreserveRegisterFits(c, x, ops, below, lim);
      var free, word := PreserveRegister(c).value, UnaryS(op, c.stack[n - 1].slot);
      GoodFacts(c, free);
      OperatorFits(free, x, ops, below, lim, word, 1, UnResult(op));
      OnePop(Emit(free, word));
    }
  }

  lemma OnePop(c: CState)
    ensures PopN(c, 1) == Pop(c)
  {
    hide Pop;
    if Pop(c).Some? {
      assert PopN(Pop(c).value, 0) == Pop(c);
    }
  }

  lemma BinaryFits(c: CState, x: Context, op: BinOp, ops: seq<Operand>, below: nat, lim: Need)
    requires Fits(c, x, ops, below, lim) && HeightFits(c, |ops|, lim) && |ops| >= 2
    ensures CompileBinary(c, op).Some?
    ensures Fits(CompileBinary(c, op).value, x, Without(ops, 2) + [Plain(BinResult(op))], below, lim)
  {
    hide Inv, StackFits, Labelled, Grows, Fits, PopN, PreserveRegister, PushRegister;
    FitsFacts(c, x, ops, below, lim);
    var n := |c.stack|;
    var a, b := c.stack[n - 1].slot, c.stack[n - 2].slot;
    if InRegister(c, n - 1) {
      RegisterIndex(c, n - 1);
      OperatorFits(c, x, ops, below, lim, BinaryRS(op, b), 2, BinResult(op));
    } else if InRegister(c, n - 2) {
      RegisterIndex(c, n - 2);
      var word := if IsCommutative(op.kind) then BinaryRS(op, a) else BinarySR(op, a);
      OperatorFits(c, x, ops, below, lim, word, 2, BinResult(op));
    } else {
      PreserveRegisterFits(c, x, ops, below, lim);
      GoodFacts(c, PreserveRegister(c).value);
      OperatorFits(PreserveRegister(c).value, x, ops, below, lim, BinarySS(op, a, b), 2, BinResult(op));
    }
  }

  lemma SelectFits(c: CState, x: Context, ops: seq<Operand>, below: nat, lim: Need)
    requires Fits(c, x, ops, below, lim) && HeightFits(c, |ops|, lim) && |ops| >= 3
    ensures CompileSelect(c).Some?
    ensures Fits(CompileSelect(c).value, x, Without(ops, 3) + [Plain(ops[|ops| - 2].ty)], below, lim)
  {
    hide Inv, StackFits, Labelled, Grows, Fits, PopN, PreserveRegister, PushRegister, SelectOp;
    FitsFacts(c, x, ops, below, lim);
    var n := |c.stack|;
    var word, ty := SelectOp(c), c.stack[n - 2].ty;
    assert EntryFits(c.layout, lim, c.stack[c.block.base + (|ops| - 2)], ops[|ops| - 2]);
    if InRegister(c, n - 1) || InRegister(c, n - 2) || InRegister(c, n - 3) {
      RegisterIndex(c, if InRegister(c, n - 1) then n - 1 else if InRegister(c, n - 2) then n - 2 else n - 3);
      PopNFits(c, x, ops, below, lim, 3);
      OperatorFits(c, x, ops, below, lim, word, 3, ty);
      PopNEmit(c, word, 3);
    } else {
      PreserveRegisterFits(c, x, ops, below, lim);
      var ready := PreserveRegister(c).value;
      GoodFacts(c, ready);
      PopNFits(ready, x, ops, below, lim, 3);
      OperatorFits(ready, x, ops, below, lim, word, 3, ty);
      PopNEmit(ready, word, 3);
    }
  }

  // ----- before blocks -----

  lemma PreserveLocalFits(c: CState, x: Context, i: nat, ops: seq<Operand>, below: nat, lim: Need)
    requires Fits(c, x, ops, below, lim) && HeightFits(c, |ops|, lim) && i < |x.locals| && Refs(ops, i) <= lim.refs
    ensures i < |c.stack| && PreserveLocal(c, i).Some?
    ensures Fits(PreserveLocal(c, i).value, x, Moved(ops, i), below, lim)
    ensures PreserveLocal(c, i).value.reg == c.reg && PreserveLocal(c, i).value.block == c.block
  {
    hide Inv, StackFits, Labelled, Grows, Fits, FindReferencedLocal;
    FitsFacts(c, x, ops, below, lim);
    FindFits(c, x, i, ops, below, lim);
    var (found, kept) := FindReferencedLocal(c, c.stack[i].slot).value;
    GoodFacts(c, found);
    EmitFits(found, x, Moved(ops, i), below, lim, CopySlot(c.stack[i].ty, kept, c.stack[i].slot));
  }

  lemma {:induction false} PreserveLocalsFits(c: CState, x: Context, i: nat, ops: seq<Operand>, below: nat, lim: Need)
    requires Fits(c, x, ops, below, lim) && HeightFits(c, |ops|, lim) && i <= |x.locals| && NoAliases(c, i)
    requires forall k :: 0 <= k < |x.locals| ==> Refs(ops, k) <= lim.refs
    ensures PreserveLocals(c, i).Some? && Fits(PreserveLocals(c, i).value, x, AllMoved(ops), below, lim)
    ensures PreserveLocals(c, i).value.reg == c.reg
    decreases |x.locals| - i
  {
    hide Inv, StackFits, Labelled, Grows, Fits, PreserveLocal, NoAliases, Refs;
    FitsFacts(c, x, ops, below, lim);
    if i == |x.locals| {
      NoneLeft(c, x, ops, below, lim);
    } else {
      PreserveLocalFits(c, x, i, ops, below, lim);
      PreserveLocalOk(c, i);
      forall k | 0 <= k < |x.locals|
        ensures Refs(Moved(ops, i), k) <= lim.refs
      {
        RefsMoved(ops, i, k);
      }
      PreserveLocalsFits(PreserveLocal(c, i).value, x, i + 1, Moved(ops, i), below, lim);
      assert AllMoved(Moved(ops, i)) == AllMoved(ops);
    }
  }

  lemma NoneLeft(c: CState, x: Context, ops: seq<Operand>, below: nat, lim: Need)
    requires Fits(c, x, ops, below, lim) && NoAliases(c, |c.layout.locals|)
    ensures Fits(c, x, AllMoved(ops), below, lim)
  {
    hide Inv, Labelled;
    FitsFacts(c, x, ops, below, lim);
    forall i | 0 <= i < |ops|
      ensures EntryFits(c.layout, lim, c.stack[c.block.base + i], AllMoved(ops)[i])
    {
      assert EntryFits(c.layout, lim, c.stack[c.block.base + i], ops[i]);
    }
  }

  lemma PreserveArgsFits(c: CState, x: Context, ops: seq<Operand>, below: nat, lim: Need)
    requires Fits(c, x, ops, below, lim) && HeightFits(c, |ops|, lim) && MostRefs(ops, |x.locals|) <= lim.refs
    ensures PreserveArgsAndLocals(c).Some? && Fits(PreserveArgsAndLocals(c).value, x, AllMoved(ops), below, lim)
    ensures PreserveArgsAndLocals(c).value.reg == c.reg && NoAliases(PreserveArgsAndLocals(c).value, |x.locals|)
    ensures PreserveArgsAndLocals(c).value.block == c.block && Good(c, PreserveArgsAndLocals(c).value)
  {
    hide Inv, StackFits, Labelled, Grows, Fits, PreserveLocals, MostRefs;
    FitsFacts(c, x, ops, below, lim);
    forall k | 0 <= k < |x.locals|
      ensures Refs(ops, k) <= lim.refs
    {
      RefsAt(ops, |x.locals|, k);
    }
    if |c.stack| > |c.layout.locals| {
      PreserveLocalsFits(c, x, 0, ops, below, lim);
    } else {
      assert AllMoved(ops) == ops;
    }
    PreserveArgsAndLocalsOk(c);
    GoodFacts(c, PreserveArgsAndLocals(c).value);
  }

  // ----- branches -----

  /** The operands on top have these types. */
  predicate TopTypes(c: CState, ts: seq<ValType>) {
    |ts| <= |c.stack| && forall i :: 0 <= i < |ts| ==> c.stack[|c.stack| - |ts| + i].ty == ts[i]
  }

  lemma TopFits(c: CState, x: Context, ops: seq<Operand>, below: nat, lim: Need, ts: seq<ValType>)
    requires Fits(c, x, ops, below, lim) && EndsWith(Types(ops), ts)
    ensures TopTypes(c, ts) && |ts| <= |ops|
  {
    hide Inv, StackFits, Labelled, Types, EndsWith;
    FitsFacts(c, x, ops, below, lim);
    SuffixShort(Types(ops), ts);
    forall i | 0 <= i < |ts|
      ensures c.stack[|c.stack| - |ts| + i].ty == ts[i]
    {
      SuffixAt(Types(ops), ts, i);
      assert EntryFits(c.layout, lim, c.stack[c.block.base + (|ops| - |ts| + i)], ops[|ops| - |ts| + i]);
    }
  }

  lemma SuffixShort(ts: seq<ValType>, suffix: seq<ValType>)
    requires EndsWith(ts, suffix)
    ensures |suffix| <= |ts|
  {
  }

  lemma {:induction false} ReturnCopiesSome(c: CState, results: seq<ValType>, k: nat)
    requires k <= |results| && TopTypes(c, results) && |c.layout.locals| + |results| <= |c.stack|
    ensures ReturnCopies(c, results, k).Some?
    decreases |results| - k
  {
    hide Emit;
    if k < |results| {
      var n := |results|;
      assert c.stack[|c.stack| - n + (n - 1 - k)].ty == results[n - 1 - k];
      EmitKeeps(c, n - 1 - k, |c.stack| - 1 - k);
      ReturnCopiesSome(CopyIndexToSlot(c, n - 1 - k, |c.stack| - 1 - k), results, k + 1);
    }
  }

  lemma EmitKeeps(c: CState, dst: nat, i: nat)
    requires i < |c.stack|
    ensures CopyIndexToSlot(c, dst, i).stack == c.stack && CopyIndexToSlot(c, dst, i).layout == c.layout
  {
  }

  lemma BranchToFits(c: CState, x: Context, ops: seq<Operand>, below: nat, lim: Need, d: nat)
    requires Fits(c, x, ops, below, lim) && d < |x.labels| && EndsWith(Types(ops), x.labels[d])
    ensures ScopeAt(c, d).Some? && BranchTo(c, ScopeAt(c, d).value).Some?
    ensures var e := BranchTo(c, ScopeAt(c, d).value).value; Good(c, e) && e == c.(pages := e.pages)
  {
    hide Inv, StackFits, Grows, ReturnCopies, CopyStackSlotsR, Types, EndsWith;
    FitsFacts(c, x, ops, below, lim);
    ScopeFits(c, x, d);
    var target := ScopeAt(c, d).value;
    if target.kind != LoopScope {
      TopFits(c, x, ops, below, lim, target.results);
      if target.kind == FuncScope {
        ReturnCopiesSome(c, target.results, 0);
      } else if |target.results| > 0 && target.exit + 1 <= |c.stack| {
        MoveOneSome(c, target);
      }
    }
    BranchToOk(c, target);
  }

  lemma ScopeFits(c: CState, x: Context, d: nat)
    requires Inv(c) && Labelled(c, x) && d < |x.labels|
    ensures ScopeAt(c, d).Some? && x.labels[d] == LabelTypes(ScopeAt(c, d).value)
    ensures ScopeAt(c, d).value.kind != FuncScope ==> |ScopeAt(c, d).value.results| <= 1
  {
    hide SlotsOk, CodeOk;
    ScopeAtOk(c, d);
  }

  lemma MoveOneSome(c: CState, target: Scope)
    requires |target.results| == 1 && target.exit + 1 <= |c.stack|
    ensures CopyStackSlotsR(c, target.exit, |c.stack| - 1, |c.stack|, c.maxSlots).Some?
  {
    hide CopyStackSlotsR;
    MoveOne(c, target.exit, c.maxSlots);
  }

  /** How a body ends: with the expected operands, or by a jump. */
  predicate Ends(d: CState, expected: seq<ValType>, lim: Need) {
    && Roomy(d, lim)
    && (d.block.polymorphic || (|d.stack| == d.block.base + |expected| && TopTypes(d, expected)))
  }

  lemma JumpEnds(c: CState, x: Context, ops: seq<Operand>, below: nat, lim: Need, e: CState, op: Op,
                 expected: seq<ValType>)
    requires Fits(c, x, ops, below, lim) && Good(c, e) && e == c.(pages := e.pages)
    ensures SetPolymorphic(e).Some? && Ends(SetPolymorphic(e).value, expected, lim)
    ensures SetPolymorphic(Emit(e, op)).Some? && Ends(SetPolymorphic(Emit(e, op)).value, expected, lim)
  {
    hide Inv, StackFits, Labelled, Grows, Fits, UnwindStack;
    FitsFacts(c, x, ops, below, lim);
    EmitOk(e, op);
    JumpRoom(e);
    JumpRoom(Emit(e, op));
  }

  lemma JumpRoom(c: CState)
    requires Inv(c)
    ensures SetPolymorphic(c).Some? && SetPolymorphic(c).value.maxSlots == c.maxSlots
    ensures SetPolymorphic(c).value.block.polymorphic && SetPolymorphic(c).value.layout == c.layout
  {
    hide Inv, UnwindStack;
    SetPolymorphicOk(c);
    MarkPolymorphicOk(c);
    var marked := c.(block := c.block.(polymorphic := true));
    UnwindOk(marked);
    GoodFacts(marked, UnwindStack(marked).value);
    UnwindMax(marked);
  }

  lemma {:induction false} UnwindMax(c: CState)
    requires UnwindStack(c).Some?
    ensures UnwindStack(c).value.maxSlots == c.maxSlots
    decreases |c.stack|
  {
    if |c.stack| > c.block.base {
      UnwindMax(Pop(c).value);
    }
  }

  lemma BrFits(c: CState, x: Context, d: nat, ops: seq<Operand>, below: nat, lim: Need, expected: seq<ValType>)
    requires Fits(c, x, ops, below, lim) && d < |x.labels| && EndsWith(Types(ops), x.labels[d])
    ensures CompileBr(c, d).Some? && Ends(CompileBr(c, d).value, expected, lim)
  {
    hide Inv, StackFits, Labelled, Grows, Fits, BranchTo, SetPolymorphic;
    FitsFacts(c, x, ops, below, lim);
    ScopeFits(c, x, d);
    var target := ScopeAt(c, d).value;
    if target.kind != LoopScope {
      BranchToFits(c, x, ops, below, lim, d);
      JumpEnds(c, x, ops, below, lim, BranchTo(c, target).value, OpReturn, expected);
    }
  }

  lemma ReturnFits(c: CState, x: Context, ops: seq<Operand>, below: nat, lim: Need, expected: seq<ValType>)
    requires Fits(c, x, ops, below, lim) && EndsWith(Types(ops), x.results)
    ensures CompileReturn(c).Some? && Ends(CompileReturn(c).value, expected, lim)
  {
    hide Inv, StackFits, Grows, Fits, ReturnCopies, SetPolymorphic, Types, EndsWith;
    FitsFacts(c, x, ops, below, lim);
    TopFits(c, x, ops, below, lim, x.results);
    ReturnCopiesSome(c, x.results, 0);
    ReturnValuesOk(c, x.results);
    var ready := ReturnValues(c, x.results, true).value;
    JumpEnds(c, x, ops, below, lim, ready, OpReturn, expected);
  }

  lemma UnreachableFits(c: CState, x: Context, ops: seq<Operand>, below: nat, lim: Need, expected: seq<ValType>)
    requires Fits(c, x, ops, below, lim)
    ensures CompileUnreachable(c).Some? && Ends(CompileUnreachable(c).value, expected, lim)
  {
    hide Inv, StackFits, Grows, Fits, SetPolymorphic;
    FitsFacts(c, x, ops, below, lim);
    GoodSelf(c);
    JumpEnds(c, x, ops, below, lim, c, OpUnreachable, expected);
  }

  lemma {:induction false} TargetsFit(c: CState, x: Context, ops: seq<Operand>, below: nat, lim: Need, depths: seq<nat>)
    requires Fits(c, x, ops, below, lim)
    requires forall d <- depths :: d < |x.labels| && EndsWith(Types(ops), x.labels[d])
    ensures CompileTargets(c, depths).Some?
    ensures var e := CompileTargets(c, depths).value.0; Good(c, e) && e == c.(pages := e.pages)
    ensures Fits(CompileTargets(c, depths).value.0, x, ops, below, lim)
    decreases |depths|
  {
    hide Inv, StackFits, Grows, Fits, BranchTo, Types, EndsWith;
    FitsFacts(c, x, ops, below, lim);
    GoodSelf(c);
    if depths != [] {
      var rest, d := depths[..|depths| - 1], depths[|depths| - 1];
      TargetsFit(c, x, ops, below, lim, rest);
      var s := CompileTargets(c, rest).value.0;
      FitsFacts(s, x, ops, below, lim);
      assert d in depths;
      TrampolineFits(s, x, ops, below, lim, d);
    }
    TargetsOk(c, depths);
    var e := CompileTargets(c, depths).value.0;
    FitsAgain(c, e, x, ops, ops, below, lim);
  }

  lemma TrampolineFits(c: CState, x: Context, ops: seq<Operand>, below: nat, lim: Need, d: nat)
    requires Fits(c, x, ops, below, lim) && d < |x.labels| && EndsWith(Types(ops), x.labels[d])
    ensures var onNew := c.(pages := c.pages + [[]], page := |c.pages|);
      ScopeAt(c, d).Some? && BranchTo(onNew, ScopeAt(c, d).value).Some?
  {
    hide Inv, StackFits, Grows, BranchTo, Types, EndsWith;
    FitsFacts(c, x, ops, below, lim);
    var onNew := c.(pages := c.pages + [[]], page := |c.pages|);
    NewPageOk(c);
    BranchToFits(onNew, x, ops, below, lim, d);
  }

  lemma BrTableFits(c: CState, x: Context, targets: seq<nat>, default: nat, ops: seq<Operand>, below: nat, lim: Need,
                    expected: seq<ValType>)
    requires Fits(c, x, ops, below, lim) && HeightFits(c, |ops|, lim) && ops != []
    requires forall d <- targets + [default] :: d < |x.labels| && EndsWith(Types(Without(ops, 1)), x.labels[d])
    ensures CompileBrTable(c, targets, default).Some? && Ends(CompileBrTable(c, targets, default).value, expected, lim)
  {
    hide Inv, StackFits, Labelled, Grows, Fits, CompileTargets, SetPolymorphic, PreserveRegister, Pop, Types, EndsWith;
    FitsFacts(c, x, ops, below, lim);
    PreserveRegisterFits(c, x, ops, below, lim);
    var ready := PreserveRegister(c).value;
    DropFits(ready, x, ops, below, lim);
    var popped := Pop(ready).value;
    TargetsFit(popped, x, Without(ops, 1), below, lim, targets + [default]);
    var done := CompileTargets(popped, targets + [default]).value;
    var op := BranchTable(ready.stack[|ready.stack| - 1].slot, done.1);
    JumpEnds(popped, x, Without(ops, 1), below, lim, done.0, op, expected);
  }

  lemma BrIfFits(c: CState, x: Context, d: nat, ops: seq<Operand>, below: nat, lim: Need)
    requires Fits(c, x, ops, below, lim) && HeightFits(c, |ops|, lim) && d < |x.labels|
    requires EndsWith(Types(ops), [I32]) && EndsWith(Types(Without(ops, 1)), x.labels[d])
    ensures CompileBrIf(c, d).Some? && Fits(CompileBrIf(c, d).value, x, Without(ops, 1), below, lim)
  {
    hide Inv, StackFits, Labelled, Grows, Fits, BranchTo, Pop, Types, EndsWith, CopyTopToRegister;
    FitsFacts(c, x, ops, below, lim);
    TopFits(c, x, ops, below, lim, [I32]);
    ScopeFits(c, x, d);
    var target := ScopeAt(c, d).value;
    var cond := c.stack[|c.stack| - 1].slot;
    if target.kind == LoopScope {
      ConditionFits(c, x, ops, below, lim);
      var ready := CopyTopToRegister(c).value;
      DropFits(ready, x, ops, below, lim);
      EmitFits(Pop(ready).value, x, Without(ops, 1), below, lim, ContinueLoopIf(target.pc));
    } else if |target.results| > 0 || target.kind == FuncScope {
      PrologueFits(c, x, d, ops, below, lim);
    } else {
      var to := Patched(target.end);
      var op := if IsAlias(cond) then BranchIfR(to) else BranchIfS(cond, to);
      EmitFits(c, x, ops, below, lim, op);
      DropFits(Emit(c, op), x, ops, below, lim);
    }
  }

  lemma ConditionFits(c: CState, x: Context, ops: seq<Operand>, below: nat, lim: Need)
    requires Fits(c, x, ops, below, lim) && HeightFits(c, |ops|, lim) && ops != [] && TopTypes(c, [I32])
    ensures CopyTopToRegister(c).Some? && Fits(CopyTopToRegister(c).value, x, ops, below, lim)
    ensures TypeFromTop(CopyTopToRegister(c).value, 0) == Some(I32)
  {
    hide Inv, StackFits, Labelled, Grows, Fits, PreserveRegister;
    FitsFacts(c, x, ops, below, lim);
    assert c.stack[|c.stack| - 1 + 0].ty == [I32][0];
    if !InRegister(c, |c.stack| - 1) {
      PreserveRegisterFits(c, x, ops, below, lim);
      var kept := PreserveRegister(c).value;
      FitsFacts(kept, x, ops, below, lim);
      GoodFacts(c, kept);
      var e := c.stack[|c.stack| - 1];
      EmitFits(kept, x, ops, below, lim, SetRegister(e.ty, e.slot));
      assert EntryFits(c.layout, lim, c.stack[c.block.base + (|ops| - 1)], ops[|ops| - 1]);
      assert EntryFits(c.layout, lim, kept.stack[c.block.base + (|ops| - 1)], ops[|ops| - 1]);
    }
  }

  lemma PrologueFits(c: CState, x: Context, d: nat, ops: seq<Operand>, below: nat, lim: Need)
    requires Fits(c, x, ops, below, lim) && ops != [] && d < |x.labels|
    requires EndsWith(Types(Without(ops, 1)), x.labels[d])
    ensures ScopeAt(c, d).Some?
    ensures var cond, skip := c.stack[|c.stack| - 1].slot, Patched(c.nextId);
      var popped := Pop(Emit(FreshId(c), if IsAlias(cond) then PrologueR(skip) else PrologueS(cond, skip)));
      && popped.Some? && BranchTo(popped.value, ScopeAt(c, d).value).Some?
      && Fits(Define(BranchTo(popped.value, ScopeAt(c, d).value).value, c.nextId), x, Without(ops, 1), below, lim)
  {
    hide Inv, StackFits, Labelled, Grows, Fits, BranchTo, Pop, Types, EndsWith, Emit;
    FitsFacts(c, x, ops, below, lim);
    ScopeFits(c, x, d);
    var target := ScopeAt(c, d).value;
    var cond, skip := c.stack[|c.stack| - 1].slot, Patched(c.nextId);
    var op := if IsAlias(cond) then PrologueR(skip) else PrologueS(cond, skip);
    FreshIdOk(c);
    FitsAgain(c, FreshId(c), x, ops, ops, below, lim);
    EmitFits(FreshId(c), x, ops, below, lim, op);
    var emitted := Emit(FreshId(c), op);
    GoodFacts(FreshId(c), emitted);
    DropFits(emitted, x, ops, below, lim);
    var popped := Pop(emitted).value;
    SameScopes(c, emitted, popped, d);
    BranchToFits(popped, x, Without(ops, 1), below, lim, d);
    PrologueOk(c, target);
    var taken := BranchTo(popped, target).value;
    FitsFacts(popped, x, Without(ops, 1), below, lim);
    GoodFacts(popped, taken);
    DefinedFits(c, popped, x, ops, below, lim, Define(taken, c.nextId));
  }

  lemma SameScopes(c: CState, emitted: CState, popped: CState, d: nat)
    requires Good(FreshId(c), emitted) && emitted.block == c.block && Pop(emitted) == Some(popped)
    ensures ScopeAt(popped, d) == ScopeAt(c, d)
  {
  }

  lemma DefinedFits(c: CState, popped: CState, x: Context, ops: seq<Operand>, below: nat, lim: Need, e: CState)
    requires Fits(c, x, ops, below, lim) && Fits(popped, x, Without(ops, 1), below, lim)
    requires Good(c, popped) && Good(c, e) && e.stack == popped.stack && e.maxSlots == popped.maxSlots
    ensures Fits(e, x, Without(ops, 1), below, lim)
  {
    hide Inv, StackFits, Labelled, Grows;
    GoodFacts(c, popped);
    GoodFacts(c, e);
    FitsFacts(popped, x, Without(ops, 1), below, lim);
    FitsAgain(c, e, x, ops, Without(ops, 1), below, lim);
  }

  // ----- calls -----

  lemma {:induction false} CopyArgsFits(c: CState, x: Context, ops: seq<Operand>, below: nat, lim: Need, base: nat,
                                        n: nat)
    requires Fits(c, x, ops, below, lim) && n <= |ops|
    ensures CopyArgs(c, base, n).Some? && Fits(CopyArgs(c, base, n).value, x, Without(ops, n), below, lim)
    decreases n
  {
    hide Fits, Pop, Emit;
    FitsFacts(c, x, ops, below, lim);
    if n == 0 {
      assert Without(ops, 0) == ops;
    } else {
      var e := c.stack[|c.stack| - 1];
      var dst := base + n - 1;
      var op := if IsAlias(e.slot) then SetSlot(e.ty, dst) else CopySlot(e.ty, dst, e.slot);
      EmitFits(c, x, ops, below, lim, op);
      DropFits(Emit(c, op), x, ops, below, lim);
      CopyArgsFits(Pop(Emit(c, op)).value, x, Without(ops, 1), below, lim, base, n - 1);
      assert Without(Without(ops, 1), n - 1) == Without(ops, n);
    }
  }

  lemma {:induction false} TrimNear(c: CState, max: nat, t: nat)
    requires c.layout.firstDynamic <= t && max <= MAX_FUNCTION_SLOTS
    requires forall s :: t <= s < MAX_FUNCTION_SLOTS ==> c.usage[s] == 0
    ensures TrimMax(c, max) <= max && TrimMax(c, max) <= t
    decreases max
  {
    if max > c.layout.firstDynamic && c.usage[max - 1] == 0 {
      TrimNear(c, max - 1, t);
    }
  }

  /** The frame of a call starts within the reach of the operands. */
  lemma FrameNear(c: CState, x: Context, ops: seq<Operand>, below: nat, lim: Need)
    requires Fits(c, x, ops, below, lim) && MostReach(ops, below) <= lim.reach
    ensures FrameBase(c) <= c.layout.firstDynamic + lim.height + MostReach(ops, below)
  {
    hide Labelled, ScopesOk;
    FitsFacts(c, x, ops, below, lim);
    InvFacts(c);
    var t := c.layout.firstDynamic + lim.height + MostReach(ops, below);
    forall s | t <= s < MAX_FUNCTION_SLOTS
      ensures c.usage[s] == 0
    {
      BeyondReach(c, x, ops, below, lim, s);
    }
    TrimNear(c, c.maxAllocated, t);
  }

  lemma BeyondReach(c: CState, x: Context, ops: seq<Operand>, below: nat, lim: Need, s: nat)
    requires Fits(c, x, ops, below, lim) && s < MAX_FUNCTION_SLOTS
    requires s >= c.layout.firstDynamic + lim.height + MostReach(ops, below)
    ensures c.usage[s] == 0
  {
    hide Labelled, ScopesOk;
    FitsFacts(c, x, ops, below, lim);
    InvFacts(c);
    forall i | 0 <= i < |c.stack|
      ensures c.stack[i].slot != s
    {
      if i >= c.block.base {
        assert EntryFits(c.layout, lim, c.stack[c.block.base + (i - c.block.base)], ops[i - c.block.base]);
        ReachAt(ops, below, i - c.block.base);
      } else {
        ReachBelow(ops, below);
      }
    }
    CountZero(c.stack, s);
  }

  lemma {:induction false} PushResultsSome(c: CState, base: nat, results: seq<ValType>)
    requires |c.stack| + |results| <= MAX_STACK_HEIGHT && base + |results| <= MAX_FUNCTION_SLOTS
    ensures PushResultsAt(c, base, results).Some?
    ensures var d := PushResultsAt(c, base, results).value;
      |d.stack| == |c.stack| + |results| && d.maxSlots <= Max(c.maxSlots, base + |results|)
    decreases |results|
  {
    if results != [] {
      PushResultsSome(c, base, results[..|results| - 1]);
    }
  }

  lemma ResultsFit(l: Layout, lim: Need, stack: seq<Entry>, base: nat, ops: seq<Operand>, below: nat, from: nat,
                   results: seq<ValType>, reach: nat)
    requires StackFits(l, lim, stack, base, ops, below) && l.FirstConst() <= l.firstDynamic <= from
    requires from + |results| <= l.firstDynamic + lim.height + reach
    ensures StackFits(l, lim, stack + ConsecutiveEntries(from, results), base, ops + Plains(results, reach), below)
  {
    var more, all := stack + ConsecutiveEntries(from, results), ops + Plains(results, reach);
    forall i | 0 <= i < |all|
      ensures EntryFits(l, lim, more[base + i], all[i])
    {
      if i < |ops| {
        assert more[base + i] == stack[base + i];
      } else {
        assert more[base + i] == ConsecutiveEntries(from, results)[i - |ops|];
      }
    }
  }

  lemma CallFits(c: CState, x: Context, f: nat, ops: seq<Operand>, below: nat, lim: Need)
    requires Fits(c, x, ops, below, lim) && HeightFits(c, |ops|, lim) && f < |x.m|
    requires EndsWith(Types(ops), x.m[f].params) && HeightFits(c, |ops| - |x.m[f].params| + |x.m[f].results|, lim)
    requires MostReach(ops, below) + |x.m[f].results| <= lim.reach
    ensures CompileCall(c, x.m, f).Some?
    ensures Fits(CompileCall(c, x.m, f).value, x, Without(ops, |x.m[f].params|)
      + Plains(x.m[f].results, MostReach(ops, below) + |x.m[f].results|), below, lim)
  {
    hide Inv, StackFits, Labelled, Grows, Fits, CopyArgs, PushResultsAt, FrameBase, TrimMax, Types, EndsWith, MostReach;
    FitsFacts(c, x, ops, below, lim);
    SuffixShort(Types(ops), x.m[f].params);
    var base, results, n := FrameBase(c), x.m[f].results, |x.m[f].params|;
    FrameBaseOk(c);
    FrameNear(c, x, ops, below, lim);
    var trimmed := c.(maxAllocated := TrimMax(c, c.maxAllocated));
    FitsAgain(c, trimmed, x, ops, ops, below, lim);
    CopyArgsFits(trimmed, x, ops, below, lim, base + |results|, n);
    var passed := CopyArgs(trimmed, base + |results|, n).value;
    FitsFacts(passed, x, Without(ops, n), below, lim);
    CopyArgsOk(trimmed, base + |results|, n);
    GoodFacts(trimmed, passed);
    PushResultsSome(passed, base, results);
    var d := CompileCall(c, x.m, f).value;
    CallOk(c, x.m, f);
    FitsDropped(c.layout, lim, c.stack, c.block.base, ops, below, n);
    ResultsFit(c.layout, lim, c.stack[..|c.stack| - n], c.block.base, Without(ops, n), below, base, results,
      MostReach(ops, below) + |results|);
    EmitMax(PushResultsAt(passed, base, results).value, OpCall(f, base));
    GoodFacts(c, d);
    FitsAgain(c, d, x, ops, Without(ops, n) + Plains(results, MostReach(ops, below) + |results|), below, lim);
  }

  lemma EmitMax(c: CState, op: Op)
    ensures Emit(c, op).maxSlots == c.maxSlots
  {
  }

  // ----- blocks -----

  lemma LandingSome(c: CState, x: Context, ops: seq<Operand>, below: nat, lim: Need, results: seq<ValType>)
    requires Fits(c, x, ops, below, lim) && |results| <= 1 && HeightFits(c, |ops| + |results|, lim)
    ensures ReserveLanding(c, results).Some? && ReserveLanding(c, results).value.maxSlots
      <= Max(c.maxSlots, c.layout.firstDynamic + lim.height)
    ensures results != [] ==> FreeSlot(c).Some? && FreeSlot(c).value < c.layout.firstDynamic + lim.height
  {
    hide Inv, StackFits, Labelled, Fits;
    FitsFacts(c, x, ops, below, lim);
    if results == [] {
      assert PushBlockResults(c, results) == Some(c);
    } else {
      assert results[..0] == [] && PushBlockResults(c, results[..0]) == Some(c);
      RoomLeft(c, x, ops, below, lim);
      PushAllocatedOk(c, results[0]);
      var pushed := PushAllocated(c, results[0]).value;
      PopOk(pushed);
      OnePop(pushed);
    }
  }

  lemma OpenedFits(c: CState, x: Context, ops: seq<Operand>, below: nat, lim: Need, kind: ScopeKind,
                   results: seq<ValType>)
    requires Fits(c, x, ops, below, lim) && Clean(c) && |results| <= 1 && kind != FuncScope
    requires HeightFits(c, |ops| + |results|, lim)
    ensures ReserveLanding(c, results).Some?
    ensures Fits(Opened(c, kind, results), x.Enter(if kind == LoopScope then [] else results), [],
                 MostReach(ops, below), lim)
    ensures Opened(c, kind, results).block.base == c.block.base + |ops| + |results|
  {
    hide Inv, Labelled, ReserveLanding, MostReach, StackFits, Fits;
    FitsFacts(c, x, ops, below, lim);
    LandingSome(c, x, ops, below, lim, results);
    OpenedOk(c, kind, results);
    var s := Opened(c, kind, results);
    BelowFits(c, x, ops, below, lim, results);
    EnterLabelled(c, s, x, if kind == LoopScope then [] else results);
    JoinFits(s, x.Enter(if kind == LoopScope then [] else results), MostReach(ops, below), lim);
  }

  lemma BelowFits(c: CState, x: Context, ops: seq<Operand>, below: nat, lim: Need, results: seq<ValType>)
    requires Fits(c, x, ops, below, lim) && |results| <= 1
    requires results != [] ==> FreeSlot(c).Some? && FreeSlot(c).value < c.layout.firstDynamic + lim.height
    ensures var stack := c.stack + Landing(c, results);
      StackFits(c.layout, lim, stack, |stack|, [], MostReach(ops, below))
  {
    hide Inv, Labelled;
    FitsFacts(c, x, ops, below, lim);
    ReachBelow(ops, below);
    var stack := c.stack + Landing(c, results);
    forall i | |c.layout.locals| <= i < |stack| && IsDynamic(c.layout, stack[i].slot)
      ensures stack[i].slot < c.layout.firstDynamic + lim.height + MostReach(ops, below)
    {
      if c.block.base <= i < |c.stack| {
        assert EntryFits(c.layout, lim, c.stack[c.block.base + (i - c.block.base)], ops[i - c.block.base]);
        ReachAt(ops, below, i - c.block.base);
      }
    }
  }

  lemma EnterLabelled(c: CState, s: CState, x: Context, taken: seq<ValType>)
    requires Labelled(c, x) && s.layout == c.layout && s.outers == c.outers + [c.block] && LabelTypes(s.block) == taken
    ensures Labelled(s, x.Enter(taken))
  {
    assert Scopes(s) == Scopes(c) + [s.block];
    var y := x.Enter(taken);
    forall d | 0 <= d < |y.labels|
      ensures y.labels[d] == LabelTypes(Scopes(s)[|Scopes(s)| - 1 - d])
    {
      if d > 0 {
        assert y.labels[d] == x.labels[d - 1];
      }
    }
  }

  lemma JoinFits(s: CState, x: Context, below: nat, lim: Need)
    requires Inv(s) && !s.block.polymorphic && Labelled(s, x) && Enough(s.layout, lim) && Roomy(s, lim)
    requires StackFits(s.layout, lim, s.stack, s.block.base, [], below)
    ensures Fits(s, x, [], below, lim)
  {
  }

  /** The operands of a finished block go to its landing slots. */
  lemma ResolveSome(done: CState, results: seq<ValType>, lim: Need)
    requires Ends(done, results, lim) && done.block.results == results && |results| <= 1 && !done.block.polymorphic
    ensures ResolveResults(done, done.block, false).Some?
  {
    hide CopyStackSlotsR;
    if |results| > 0 && done.block.exit + 1 <= |done.stack| {
      MoveOneSome(done, done.block);
    }
  }

  lemma LeaveFits(c: CState, x: Context, ops: seq<Operand>, below: nat, lim: Need, kind: ScopeKind,
                  results: seq<ValType>, done: CState)
    requires Fits(c, x, ops, below, lim) && Clean(c) && |results| <= 1 && kind != FuncScope
    requires HeightFits(c, |ops| + |results|, lim) && ReserveLanding(c, results).Some?
    requires Done(Opened(c, kind, results), done) && Ends(done, results, lim)
    ensures LeaveScope(done, c.block, c.outers).Some? && Roomy(LeaveScope(done, c.block, c.outers).value, lim)
    ensures LeaveScope(done, c.block, c.outers).value.layout == c.layout
  {
    hide Inv, Labelled, StackFits, Fits, Grows, CodeGrows, Ended, ResolveResults, UnwindStack, ReserveLanding,
      PushBlockResults;
    FitsFacts(c, x, ops, below, lim);
    LandingSome(c, x, ops, below, lim, results);
    OpenedOk(c, kind, results);
    var s := Opened(c, kind, results);
    DoneResults(s, done);
    if !done.block.polymorphic {
      ResolveSome(done, results, lim);
      DoneInv(s, done);
      ResolveResultsOk(done, done.block, false);
    }
    EmptiedOk(s, done);
    var ready := if done.block.polymorphic then done else ResolveResults(done, done.block, false).value;
    UnwindMax(ready);
    var empty := UnwindStack(ready).value;
    BackOk(c, s, empty, results);
    GoodFacts(c, Back(c, empty));
    SameFreeSlot(c, Back(c, empty));
    assert empty.stack[..empty.block.exit] == c.stack;
    PushedResults(c, empty, results, lim);
  }

  lemma DoneResults(s: CState, done: CState)
    requires Done(s, done)
    ensures done.block.results == s.block.results && done.layout == s.layout
  {
  }

  lemma DoneInv(s: CState, done: CState)
    requires Done(s, done)
    ensures Inv(done)
  {
  }

  lemma PushedResults(c: CState, empty: CState, results: seq<ValType>, lim: Need)
    requires |results| <= 1 && empty.layout == c.layout && FreeSlot(Back(c, empty)) == FreeSlot(c)
    requires results != [] ==> FreeSlot(c).Some? && FreeSlot(c).value < c.layout.firstDynamic + lim.height
    requires |c.stack| + |results| <= MAX_STACK_HEIGHT && Roomy(empty, lim)
    ensures var d := PushBlockResults(empty.(stack := c.stack), results);
      d.Some? && Roomy(d.value, lim) && d.value.layout == c.layout && d.value.block == empty.block
  {
    if results != [] {
      assert results[..0] == [] && PushBlockResults(empty.(stack := c.stack), results[..0]).Some?;
      assert FreeSlot(empty.(stack := c.stack)) == FreeSlot(c);
    }
  }

  lemma {:induction false} BlockFits(c: CState, x: Context, kind: ScopeKind, results: seq<ValType>, body: Body,
                                     ops: seq<Operand>, below: nat, lim: Need)
    requires Fits(c, x, ops, below, lim) && Clean(c) && |results| <= 1 && kind != FuncScope
    requires HeightFits(c, |ops| + |results|, lim)
    requires CheckBody(x.Enter(if kind == LoopScope then [] else results), body, [], results)
    requires BodyNeed(x.Enter(if kind == LoopScope then [] else results), body, [],
                      c.block.base - |c.layout.locals| + |ops| + |results|, MostReach(ops, below)).Within(lim)
    ensures CompileBlock(c, x.m, kind, results, body).Some?
    ensures var e := CompileBlock(c, x.m, kind, results, body).value;
      if kind == IfScope then |e.stack| >= |c.stack| && Fits(e.(stack := c.stack), x, ops, below, lim)
      else Fits(e, x, ops + Plains(results, 0), below, lim)
    decreases body, 1
  {
    hide Inv, Labelled, StackFits, Fits, Grows, Ended, ReserveLanding, LeaveScope, CompileBody, CheckBody, BodyNeed,
      MostReach;
    FitsFacts(c, x, ops, below, lim);
    OpenedFits(c, x, ops, below, lim, kind, results);
    var s := Opened(c, kind, results);
    OpenedOk(c, kind, results);
    FitsFacts(s, x.Enter(if kind == LoopScope then [] else results), [], MostReach(ops, below), lim);
    assert Types([]) == [];
    BodyFits(s, x.Enter(if kind == LoopScope then [] else results), body, [], MostReach(ops, below), lim, results);
    var done := CompileBody(s, x.m, body).value;
    BodyOk(s, x.m, body);
    LeaveFits(c, x, ops, below, lim, kind, results, done);
    LandingSome(c, x, ops, below, lim, results);
    BlockOk(c, x.m, kind, results, body);
    var e := CompileBlock(c, x.m, kind, results, body).value;
    if kind == IfScope {
      FitsAgain(c, e.(stack := c.stack), x, ops, ops, below, lim);
    } else {
      RecordsFit(c, x, ops, below, lim, results);
      FitsAgain(c, e, x, ops, ops + Plains(results, 0), below, lim);
    }
  }

  lemma RecordsFit(c: CState, x: Context, ops: seq<Operand>, below: nat, lim: Need, results: seq<ValType>)
    requires Fits(c, x, ops, below, lim) && |results| <= 1
    requires results != [] ==> FreeSlot(c).Some? && FreeSlot(c).value < c.layout.firstDynamic + lim.height
    ensures StackFits(c.layout, lim, c.stack + ResultRecords(c, results), c.block.base, ops + Plains(results, 0), below)
  {
    hide Inv, Labelled, StackFits;
    FitsFacts(c, x, ops, below, lim);
    if results == [] {
      assert c.stack + ResultRecords(c, results) == c.stack && ops + Plains(results, 0) == ops;
    } else {
      PlainFits(c.layout, lim, FreeSlot(c).value, results[0]);
      FitsPushed(c.layout, lim, c.stack, c.block.base, ops, below, ResultRecords(c, results)[0], Plain(results[0]));
      assert Plains(results, 0) == [Plain(results[0])];
    }
  }

  // ----- if -----

  lemma {:induction false} MovedReach(ops: seq<Operand>, below: nat)
    ensures MostReach(AllMoved(ops), below) == MostReach(ops, below)
    decreases |ops|
  {
    if ops != [] {
      MovedReach(ops[..|ops| - 1], below);
      assert AllMoved(ops)[..|ops| - 1] == AllMoved(ops[..|ops| - 1]);
    }
  }

  /** The state in front of the arms. */
  lemma StartedFits(c: CState, x: Context, ops: seq<Operand>, below: nat, lim: Need)
    requires Fits(c, x, ops, below, lim) && HeightFits(c, |ops|, lim) && MostRefs(ops, |x.locals|) <= lim.refs
    requires ops != []
    ensures PreserveNonTopRegister(c).Some? && PreserveArgsAndLocals(PreserveNonTopRegister(c).value).Some?
    ensures var ready := PreserveArgsAndLocals(PreserveNonTopRegister(c).value).value;
      |ready.stack| > 0 && IfStarted(ready).Some? && Good(c, ready)
      && Fits(IfStarted(ready).value, x, Without(AllMoved(ops), 1), below, lim) && Clean(IfStarted(ready).value)
      && Good(ready, IfStarted(ready).value) && IfStarted(ready).value.nextId == ready.nextId + 1
  {
    hide Inv, StackFits, Labelled, Grows, Fits, PreserveArgsAndLocals, PreserveRegister, Pop, Emit, MostRefs;
    FitsFacts(c, x, ops, below, lim);
    NonTopFits(c, x, ops, below, lim);
    var kept := PreserveNonTopRegister(c).value;
    GoodFacts(c, kept);
    PreserveArgsFits(kept, x, ops, below, lim);
    IfPreparedOk(c);
    var ready := PreserveArgsAndLocals(kept).value;
    GoodFacts(c, ready);
    FitsFacts(ready, x, AllMoved(ops), below, lim);
    var cond, skip := ready.stack[|ready.stack| - 1].slot, Patched(ready.nextId);
    var op := if IsAlias(cond) then IfR(skip) else IfS(cond, skip);
    FreshIdOk(ready);
    FitsAgain(ready, FreshId(ready), x, AllMoved(ops), AllMoved(ops), below, lim);
    EmitFits(FreshId(ready), x, AllMoved(ops), below, lim, op);
    DropFits(Emit(FreshId(ready), op), x, AllMoved(ops), below, lim);
    IfStartedOk(ready);
    GoodFacts(ready, IfStarted(ready).value);
  }

  lemma NonTopFits(c: CState, x: Context, ops: seq<Operand>, below: nat, lim: Need)
    requires Fits(c, x, ops, below, lim) && HeightFits(c, |ops|, lim)
    ensures PreserveNonTopRegister(c).Some? && Fits(PreserveNonTopRegister(c).value, x, ops, below, lim)
    ensures Good(c, PreserveNonTopRegister(c).value)
  {
    hide Fits, Inv, Grows, PreserveRegister;
    FitsFacts(c, x, ops, below, lim);
    PreserveRegisterFits(c, x, ops, below, lim);
    GoodSelf(c);
  }

  lemma ElseStartFits(c: CState, back: CState, x: Context, ops: seq<Operand>, below: nat, lim: Need, id: nat)
    requires Fits(back, x, ops, below, lim) && Inv(c) && Good(c, back) && Clean(back) && c.nextId <= id < back.nextId
    ensures Fits(ElseStart(back, id), x, ops, below, lim) && Clean(ElseStart(back, id))
    ensures ElseStart(back, id).block == back.block && ElseStart(back, id).layout == back.layout
  {
    hide Inv, StackFits, Labelled, Grows;
    FitsFacts(back, x, ops, below, lim);
    ElseStartOk(c, back, id, []);
    OtherPage(back, ElseStart(back, id), x, ops, below, lim);
  }

  lemma OtherPage(c: CState, d: CState, x: Context, ops: seq<Operand>, below: nat, lim: Need)
    requires Fits(c, x, ops, below, lim) && Inv(d)
    requires d.stack == c.stack && d.layout == c.layout && d.block == c.block && d.outers == c.outers
      && d.maxSlots == c.maxSlots
    ensures Fits(d, x, ops, below, lim)
  {
    hide Inv, StackFits;
  }

  lemma {:induction false} ElseFits(c: CState, back: CState, x: Context, results: seq<ValType>, body: Body,
                                    ops: seq<Operand>, below: nat, lim: Need, id: nat)
    requires Fits(back, x, ops, below, lim) && Inv(c) && Good(c, back) && Clean(back) && c.nextId <= id < back.nextId
    requires |results| <= 1 && HeightFits(back, |ops| + |results|, lim)
    requires CheckBody(x.Enter(results), body, [], results)
    requires BodyNeed(x.Enter(results), body, [], back.block.base - |back.layout.locals| + |ops| + |results|,
                      MostReach(ops, below)).Within(lim)
    ensures CompileElse(back, x.m, id, results, body).Some?
    ensures Fits(CompileElse(back, x.m, id, results, body).value, x, ops + Plains(results, 0), below, lim)
    decreases body, 2
  {
    hide Inv, StackFits, Labelled, Fits, Grows, CompileBlock, CheckBody, BodyNeed, MostReach;
    FitsFacts(back, x, ops, below, lim);
    ElseStartFits(c, back, x, ops, below, lim, id);
    BlockFits(ElseStart(back, id), x, ElseScope, results, body, ops, below, lim);
    var done := CompileBlock(ElseStart(back, id), x.m, ElseScope, results, body).value;
    ElseOk(c, back, x.m, id, results, body);
    var e := CompileElse(back, x.m, id, results, body).value;
    FitsFacts(done, x, ops + Plains(results, 0), below, lim);
    GoodFacts(c, e);
    GoodFacts(c, back);
    ElseShape(back, x.m, id, results, body);
    OtherPage(done, e, x, ops + Plains(results, 0), below, lim);
  }

  lemma ElseShape(c: CState, m: Module, id: nat, results: seq<ValType>, body: Body)
    requires CompileElse(c, m, id, results, body).Some?
    ensures var done := CompileBlock(ElseStart(c, id), m, ElseScope, results, body);
      var e := CompileElse(c, m, id, results, body).value;
      && done.Some? && e.stack == done.value.stack && e.layout == done.value.layout && e.block == done.value.block
      && e.outers == done.value.outers && e.maxSlots == done.value.maxSlots
  {
    hide CompileBlock;
  }

  /** The then arm, and the state in which the else arm or what follows is compiled. */
  lemma {:induction false} ThenFits(c: CState, x: Context, i: Instr, ops: seq<Operand>, below: nat, lim: Need)
    returns (back: CState)
    requires i.If? && Fits(c, x, ops, below, lim) && HeightFits(c, |ops|, lim) && MostRefs(ops, |x.locals|) <= lim.refs
    requires CheckInstr(x, i, Types(ops)).Some? && ops != [] && HeightFits(c, |After(x, i, ops, below)|, lim)
    requires InstrNeed(x, i, ops, c.block.base - |c.layout.locals|, below).Within(lim)
    ensures PreserveNonTopRegister(c).Some? && PreserveArgsAndLocals(PreserveNonTopRegister(c).value).Some?
    ensures var ready := PreserveArgsAndLocals(PreserveNonTopRegister(c).value).value;
      |ready.stack| > 0 && IfStarted(ready).Some?
      && var started := IfStarted(ready).value;
         var armed := CompileBlock(started, x.m, IfScope, ResultSeq(i.result), i.thn);
         && armed.Some? && |armed.value.stack| >= |started.stack|
         && back == armed.value.(stack := armed.value.stack[..|started.stack|])
         && c.nextId <= ready.nextId < back.nextId
    ensures Fits(back, x, Without(AllMoved(ops), 1), below, lim) && Good(c, back) && Clean(back)
    decreases i, 2
  {
    hide Inv, StackFits, Labelled, Fits, Grows, CompileBlock, CheckBody, BodyNeed, MostReach, MostRefs,
      PreserveNonTopRegister, PreserveArgsAndLocals, Clean, Pop, Emit, IfStarted, Types, EndsWith, CheckInstr,
      InstrNeed, After, Without, AllMoved, EntryFits, Enough, Roomy;
    FitsFacts(c, x, ops, below, lim);
    var results, left := ResultSeq(i.result), Without(AllMoved(ops), 1);
    StartedFits(c, x, ops, below, lim);
    var ready := PreserveArgsAndLocals(PreserveNonTopRegister(c).value).value;
    var started := IfStarted(ready).value;
    FitsFacts(started, x, left, below, lim);
    GoodTrans(c, ready, started);
    GoodFacts(c, started);
    LeftFacts(ops, below);
    ArmNeed(x, i, ops, c.block.base - |c.layout.locals|, below, lim);
    BlockFits(started, x, IfScope, results, i.thn, left, below, lim);
    BlockOk(started, x.m, IfScope, results, i.thn);
    var armed := CompileBlock(started, x.m, IfScope, results, i.thn).value;
    assert armed.stack[..|started.stack|] == started.stack;
    back := armed.(stack := started.stack);
    GoodFacts(started, back);
    GoodTrans(c, started, back);
    IdPending(c, ready, started, back);
    BackClean(started, back);
  }

  /** The operands below the condition. */
  lemma LeftFacts(ops: seq<Operand>, below: nat)
    requires ops != []
    ensures var left := Without(AllMoved(ops), 1);
      |left| == |ops| - 1 && MostReach(left, below) == MostReach(Without(ops, 1), below)
  {
    hide MostReach;
    MovedReach(Without(ops, 1), below);
    assert AllMoved(Without(ops, 1)) == Without(AllMoved(ops), 1);
  }

  /** Both arms are valid and need no more than the whole. */
  lemma ArmNeed(x: Context, i: Instr, ops: seq<Operand>, h: nat, below: nat, lim: Need)
    requires i.If? && CheckInstr(x, i, Types(ops)).Some? && ops != [] && InstrNeed(x, i, ops, h, below).Within(lim)
    ensures var results, reach := ResultSeq(i.result), MostReach(Without(ops, 1), below);
      && CheckBody(x.Enter(results), i.thn, [], results)
      && BodyNeed(x.Enter(results), i.thn, [], h + (|ops| - 1) + |results|, reach).Within(lim)
      && (if i.els.Some? then
            && CheckBody(x.Enter(results), i.els.value, [], results)
            && BodyNeed(x.Enter(results), i.els.value, [], h + (|ops| - 1) + |results|, reach).Within(lim)
          else results == [])
    ensures After(x, i, ops, below) == Without(AllMoved(ops), 1) + Plains(ResultSeq(i.result), 0)
    ensures |After(x, i, ops, below)| == |ops| - 1 + |ResultSeq(i.result)|
  {
    hide CheckBody, BodyNeed, MostReach, MostRefs, Refs;
  }

  lemma {:induction false} IfFits(c: CState, x: Context, i: Instr, ops: seq<Operand>, below: nat, lim: Need)
    requires i.If? && Fits(c, x, ops, below, lim) && HeightFits(c, |ops|, lim) && MostRefs(ops, |x.locals|) <= lim.refs
    requires CheckInstr(x, i, Types(ops)).Some? && ops != [] && HeightFits(c, |After(x, i, ops, below)|, lim)
    requires InstrNeed(x, i, ops, c.block.base - |c.layout.locals|, below).Within(lim)
    ensures CompileIf(c, x.m, i).Some? && Fits(CompileIf(c, x.m, i).value, x, After(x, i, ops, below), below, lim)
    decreases i, 3
  {
    hide Inv, StackFits, Labelled, Fits, Grows, CompileBlock, CompileElse, CheckBody, BodyNeed, MostReach, MostRefs,
      PreserveNonTopRegister, PreserveArgsAndLocals, Clean, Pop, Emit, CheckInstr, InstrNeed, Types, Without, AllMoved,
      EntryFits, Enough, Roomy, EndsWith, After, Plains;
    var results, left := ResultSeq(i.result), Without(AllMoved(ops), 1);
    var back := ThenFits(c, x, i, ops, below, lim);
    var ready := PreserveArgsAndLocals(PreserveNonTopRegister(c).value).value;
    FitsFacts(c, x, ops, below, lim);
    FitsFacts(back, x, left, below, lim);
    GoodFacts(c, back);
    LeftFacts(ops, below);
    ArmNeed(x, i, ops, c.block.base - |c.layout.locals|, below, lim);
    if i.els.Some? {
      ElseFits(c, back, x, results, i.els.value, left, below, lim, ready.nextId);
    } else {
      DefinedOk(c, back, ready.nextId);
      OtherPage(back, Define(back, ready.nextId), x, left, below, lim);
      NoResults(left);
    }
  }

  lemma NoResults(ops: seq<Operand>)
    ensures ops + Plains([], 0) == ops
  {
  }

  // ----- instructions, bodies, functions -----

  lemma {:induction false} StructuredFits(c: CState, x: Context, i: Instr, ops: seq<Operand>, below: nat, lim: Need)
    requires i.Block? || i.Loop?
    requires Fits(c, x, ops, below, lim) && HeightFits(c, |ops|, lim) && CheckInstr(x, i, Types(ops)).Some?
    requires InstrNeed(x, i, ops, c.block.base - |c.layout.locals|, below).Within(lim)
    ensures CompileInstr(c, x.m, i).Some?
    ensures Fits(CompileInstr(c, x.m, i).value, x, After(x, i, ops, below), below, lim)
    decreases i, 3
  {
    hide Inv, StackFits, Labelled, Fits, Grows, CompileBlock, CheckBody, BodyNeed, MostReach, MostRefs, Emit,
      PreserveRegister, PreserveArgsAndLocals, NoAliases;
    FitsFacts(c, x, ops, below, lim);
    PreserveRegisterFits(c, x, ops, below, lim);
    var kept := PreserveRegister(c).value;
    GoodFacts(c, kept);
    PreserveArgsFits(kept, x, ops, below, lim);
    var ready := PreserveArgsAndLocals(kept).value;
    FitsFacts(ready, x, AllMoved(ops), below, lim);
    GoodFacts(kept, ready);
    MovedReach(ops, below);
    if i.Block? {
      BlockFits(ready, x, BlockScope, ResultSeq(i.result), i.body, AllMoved(ops), below, lim);
    } else {
      EmitFits(ready, x, AllMoved(ops), below, lim, OpLoop);
      EmittedClean(ready, OpLoop);
      GoodFacts(ready, Emit(ready, OpLoop));
      BlockFits(Emit(ready, OpLoop), x, LoopScope, ResultSeq(i.result), i.body, AllMoved(ops), below, lim);
    }
  }

  /** A valid instruction compiles, and the state afterwards has the operands the syntax says. */
  lemma {:induction false} InstrFits(c: CState, x: Context, i: Instr, ops: seq<Operand>, below: nat, lim: Need)
    requires Fits(c, x, ops, below, lim) && CheckInstr(x, i, Types(ops)).Some?
    requires c.block.base >= |c.layout.locals|
    requires InstrNeed(x, i, ops, c.block.base - |c.layout.locals|, below).Within(lim)
    ensures CompileInstr(c, x.m, i).Some?
    ensures Fits(CompileInstr(c, x.m, i).value, x, After(x, i, ops, below), below, lim)
    decreases i, 4
  {
    hide Inv, StackFits, Labelled, Fits, Grows, CompileBlock, CheckBody, BodyNeed, MostReach, MostRefs, Refs,
      PushConst, CompileGetLocal, CompileSetLocal, CompileUnary, CompileBinary, CompileSelect, Pop, CompileIf,
      CompileBrIf, CompileCall, PreserveRegister, PreserveArgsAndLocals, EndsWith, InnerNeed;
    OperandCount(x, i, ops);
    NeedHere(x, i, ops, c.block.base - |c.layout.locals|, below, lim);
    FitsFacts(c, x, ops, below, lim);
    match i
    case Const(v) => ConstFits(c, x, v, ops, below, lim);
    case LocalGet(n) => GetLocalFits(c, x, n, ops, below, lim);
    case LocalSet(n) => SetLocalFits(c, x, n, false, ops, below, lim);
    case LocalTee(n) => SetLocalFits(c, x, n, true, ops, below, lim);
    case Unary(op) => UnaryFits(c, x, op, ops, below, lim);
    case Binary(op) => BinaryFits(c, x, op, ops, below, lim);
    case Select => SelectFits(c, x, ops, below, lim);
    case Drop => DropFits(c, x, ops, below, lim);
    case Nop =>
    case Block(_, _) => StructuredFits(c, x, i, ops, below, lim);
    case Loop(_, _) => StructuredFits(c, x, i, ops, below, lim);
    case If(_, _, _) => IfFits(c, x, i, ops, below, lim);
    case BrIf(d) =>
      PoppedTypes(ops);
      BrIfFits(c, x, d, ops, below, lim);
    case Call(f) => CallFits(c, x, f, ops, below, lim);
  }

  lemma PoppedTypes(ops: seq<Operand>)
    requires ops != []
    ensures Types(Without(ops, 1)) == Types(ops)[..|ops| - 1]
  {
  }

  /** Valid instructions find their operands. */
  lemma OperandCount(x: Context, i: Instr, ops: seq<Operand>)
    requires CheckInstr(x, i, Types(ops)).Some?
    ensures i.LocalSet? || i.LocalTee? || i.Unary? || i.Drop? || i.If? || i.BrIf? ==> ops != []
    ensures i.Binary? ==> |ops| >= 2
    ensures i.Select? ==> |ops| >= 3
    ensures i.LocalGet? || i.LocalSet? || i.LocalTee? ==> i.n < |x.locals|
    ensures i.Call? ==> i.f < |x.m| && EndsWith(Types(ops), x.m[i.f].params) && |x.m[i.f].params| <= |ops|
    ensures i.BrIf? ==> i.depth < |x.labels| && EndsWith(Types(ops), [I32])
    ensures i.BrIf? ==> EndsWith(Types(ops)[..|ops| - 1], x.labels[i.depth])
  {
    hide CheckBody;
  }

  lemma NeedHere(x: Context, i: Instr, ops: seq<Operand>, h: nat, below: nat, lim: Need)
    requires InstrNeed(x, i, ops, h, below).Within(lim)
    ensures h + |ops| <= lim.height && h + |After(x, i, ops, below)| <= lim.height
    ensures i.LocalSet? || i.LocalTee? ==> Refs(ops, i.n) <= lim.refs
    ensures i.If? ==> MostRefs(ops, |x.locals|) <= lim.refs
    ensures i.Call? && i.f < |x.m| ==> MostReach(ops, below) + |x.m[i.f].results| <= lim.reach
  {
    hide InnerNeed, MostReach, MostRefs, Refs, After;
  }

  /** A valid body compiles, and ends as validation says. */
  lemma {:induction false} BodyFits(c: CState, x: Context, b: Body, ops: seq<Operand>, below: nat, lim: Need,
                                    expected: seq<ValType>)
    requires Fits(c, x, ops, below, lim) && CheckBody(x, b, Types(ops), expected)
    requires c.block.base >= |c.layout.locals|
    requires BodyNeed(x, b, ops, c.block.base - |c.layout.locals|, below).Within(lim)
    ensures CompileBody(c, x.m, b).Some? && Ends(CompileBody(c, x.m, b).value, expected, lim)
    decreases b, 0
  {
    hide Inv, StackFits, Labelled, Fits, Grows, CompileInstr, CompileBr, CompileBrTable, CompileReturn,
      CompileUnreachable, After, CheckInstr, InstrNeed, EndsWith, Types;
    FitsFacts(c, x, ops, below, lim);
    match b
    case End =>
      WholeSuffix(Types(ops));
      TopFits(c, x, ops, below, lim, expected);
    case Then(i, rest) =>
      NextNeed(x, b, ops, c.block.base - |c.layout.locals|, below, lim);
      InstrFits(c, x, i, ops, below, lim);
      AfterTypes(x, i, ops, below);
      var next := CompileInstr(c, x.m, i).value;
      InstrOk(c, x.m, i);
      GoodFacts(c, next);
      BodyFits(next, x, rest, After(x, i, ops, below), below, lim, expected);
    case Br(d) => BrFits(c, x, d, ops, below, lim, expected);
    case BrTable(targets, default) =>
      OneOnTop(ops);
      PoppedTypes(ops);
      BrTableFits(c, x, targets, default, ops, below, lim, expected);
    case Return => ReturnFits(c, x, ops, below, lim, expected);
    case Unreachable => UnreachableFits(c, x, ops, below, lim, expected);
  }

  lemma WholeSuffix(ts: seq<ValType>)
    ensures EndsWith(ts, ts)
  {
  }

  lemma OneOnTop(ops: seq<Operand>)
    ensures EndsWith(Types(ops), [I32]) ==> ops != []
    ensures |Types(ops)| == |ops|
  {
  }

  lemma NextNeed(x: Context, b: Body, ops: seq<Operand>, h: nat, below: nat, lim: Need)
    requires b.Then? && BodyNeed(x, b, ops, h, below).Within(lim)
    ensures InstrNeed(x, b.head, ops, h, below).Within(lim)
    ensures BodyNeed(x, b.tail, After(x, b.head, ops, below), h, below).Within(lim)
  {
    hide InstrNeed, After;
  }

  /** What a function needs, with room for one operand at least. */
  function Limit(m: Module, f: nat): Need
    requires f < |m|
  {
    Need(Max(1, FunctionNeed(m, f).height), FunctionNeed(m, f).reach, FunctionNeed(m, f).refs)
  }

  /** Operands, slots and references stay within 2000, 4000 and 255. */
  predicate WithinLimits(m: Module, f: nat, reserved: nat)
    requires f < |m|
  {
    var n, locals := Limit(m, f), |m[f].params| + |m[f].locals|;
    && locals + n.height <= 2000
    && |m[f].results| + locals + reserved + n.height + n.reach <= 4000
    && n.refs <= 255
  }

  lemma StartFits(m: Module, f: nat, reserved: nat)
    requires f < |m| && WithinLimits(m, f, reserved)
    ensures InitialState(f, m[f], reserved).Some?
    ensures var c := InitialState(f, m[f], reserved).value;
      Fits(c, FuncContext(m, m[f]), [], 0, Limit(m, f)) && c.block.base == |c.layout.locals|
      && c.block.results == m[f].results && c.layout == FuncLayout(f, m[f], reserved)
  {
    hide Inv, FunctionNeed;
    InitialOk(f, m[f], reserved);
  }

  lemma EndFits(done: CState, expected: seq<ValType>, lim: Need)
    requires Inv(done) && Ends(done, expected, lim) && done.block.results == expected
    ensures CompileEnd(done).Some? && CompileEnd(done).value.maxSlots == done.maxSlots
    ensures CompileEnd(done).value.layout == done.layout
  {
    hide Inv, ReturnCopies, PopN;
    if !done.block.polymorphic {
      InvFacts(done);
      ReturnCopiesSome(done, expected, 0);
      ReturnCopiesOk(done, expected, 0);
      var copied := ReturnCopies(done, expected, 0).value;
      GoodFacts(done, copied);
      PopNSome(copied, |expected|);
    }
  }

  lemma {:induction false} PopNSome(c: CState, n: nat)
    requires Inv(c) && c.block.base + n <= |c.stack|
    ensures PopN(c, n).Some? && PopN(c, n).value.maxSlots == c.maxSlots && PopN(c, n).value.layout == c.layout
    decreases n
  {
    hide Inv, Grows;
    if n > 0 {
      PopOk(c);
      PopMax(c);
      PopNSome(Pop(c).value, n - 1);
    }
  }

  lemma PopMax(c: CState)
    requires Pop(c).Some?
    ensures Pop(c).value.maxSlots == c.maxSlots && Pop(c).value.layout == c.layout && Pop(c).value.block == c.block
  {
  }

  /** Every valid function whose needs stay within the limits compiles, and asks op_Entry for no more slots than its
      layout and those needs. */
  lemma FunctionCompiles(m: Module, f: nat, reserved: nat)
    requires f < |m| && ValidFunc(m, m[f]) && WithinLimits(m, f, reserved)
    ensures CompileFunction(m, f, reserved).Some?
    ensures var n := FunctionNeed(m, f);
      CompileFunction(m, f, reserved).value.maxSlots
      <= |m[f].results| + |m[f].params| + |m[f].locals| + reserved + Max(1, n.height) + n.reach
  {
    hide Inv, Fits, Ended, Grows, CompileBody, CompileEnd, BodyNeed, CheckBody, InitialState;
    StartFits(m, f, reserved);
    var start := InitialState(f, m[f], reserved).value;
    var x := FuncContext(m, m[f]);
    FitsFacts(start, x, [], 0, Limit(m, f));
    assert Types([]) == [];
    BodyFits(start, x, m[f].body, [], 0, Limit(m, f), m[f].results);
    BodyOk(start, m, m[f].body);
    var done := CompileBody(start, m, m[f].body).value;
    DoneResults(start, done);
    DoneInv(start, done);
    EndFits(done, m[f].results, Limit(m, f));
  }

  /** A valid module whose functions stay within the limits can be compiled as a whole, whatever the numbers of constant
      slots reserved. */
  lemma ModuleCompiles(m: Module, reserved: seq<nat>, stackSlots: nat) returns (p: Program)
    requires ValidModule(m) && |reserved| == |m| && forall f :: 0 <= f < |m| ==> WithinLimits(m, f, reserved[f])
    ensures Compiled(p, m) && p.stackSlots == stackSlots
    ensures forall f :: 0 <= f < |m| ==>
      p.codes[f].maxStackSlots <= FuncLayout(f, m[f], reserved[f]).firstDynamic + Limit(m, f).height + Limit(m, f).reach
  {
    hide CompileFunction, FunctionNeed, CodeOf;
    var codes: seq<Code> := [];
    while |codes| < |m|
      invariant |codes| <= |m| && forall f :: 0 <= f < |codes| ==>
        CompiledFrom(codes[f], m, f) && codes[f].maxStackSlots
          <= FuncLayout(f, m[f], reserved[f]).firstDynamic + Limit(m, f).height + Limit(m, f).reach
    {
      var f := |codes|;
      FunctionCompiles(m, f, reserved[f]);
      CodeSlots(CompileFunction(m, f, reserved[f]).value);
      codes := codes + [CodeOf(CompileFunction(m, f, reserved[f]).value)];
    }
    p := Program(codes, stackSlots);
  }

  lemma CodeSlots(c: CState)
    ensures CodeOf(c).maxStackSlots == c.maxSlots
  {
  }
}
