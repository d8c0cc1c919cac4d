/** maxStackSlots bounds every slot a function's code names, apart from the argument slots of the calls it makes, so the
    one test in op_Entry covers all accesses of the body.
 */
module StackBound {
  import opened Words
  import opened IntegerOps
  import opened Wasm
  import opened Machine
  import opened Allocator
  import opened Compiler
  import opened Invariant
  import opened CompilerInvariant
  import opened BlockInvariant
  import opened ParallelMove

  // ----- what an operation touches -----

  function Reads(op: Op): seq<nat> {
    match op
    case UnaryS(_, a) => [a]
    case BinaryRS(_, a) => [a]
    case BinarySR(_, a) => [a]
    case BinarySS(_, a, b) => [a, b]
    case SelectRSS(_, a, b) => [a, b]
    case SelectSRS(_, c, b) => [c, b]
    case SelectSSR(_, c, a) => [c, a]
    case SelectSSS(_, c, a, b) => [c, a, b]
    case CopySlot(_, _, src) => [src]
    case SetRegister(_, src) => [src]
    case PreserveCopySlot(_, dst, src, _) => [dst, src]
    case PreserveSetSlot(_, dst, _) => [dst]
    case IfS(c, _) => [c]
    case BranchIfS(c, _) => [c]
    case PrologueS(c, _) => [c]
    case BranchTable(c, _) => [c]
    case _ => []
  }

  function Writes(op: Op): seq<nat> {
    match op
    case CopySlot(_, dst, _) => [dst]
    case SetSlot(_, dst) => [dst]
    case PreserveCopySlot(_, dst, _, preserve) => [dst, preserve]
    case PreserveSetSlot(_, dst, preserve) => [dst, preserve]
    case SetConst(_, _, dst) => [dst]
    case _ => []
  }

  /** Code addresses an operation may go to directly. */
  predicate StaysIn(op: Op, fn: nat) {
    match op
    case IfR(t) => TargetIn(t, fn)
    case IfS(_, t) => TargetIn(t, fn)
    case Branch(t) => TargetIn(t, fn)
    case BranchIfR(t) => TargetIn(t, fn)
    case BranchIfS(_, t) => TargetIn(t, fn)
    case PrologueR(t) => TargetIn(t, fn)
    case PrologueS(_, t) => TargetIn(t, fn)
    case BranchTable(_, pcs) => forall pc <- pcs :: pc.fn == fn
    case _ => true
  }

  predicate TargetIn(t: Target, fn: nat) {
    t.Known? ==> t.pc.fn == fn
  }

  /** Every slot named lies below `max`, every code address in the same function. */
  predicate OpWithin(op: Op, fn: nat, max: nat) {
    && (forall r <- Reads(op) :: r < max)
    && (forall w <- Writes(op) :: w < max)
    && StaysIn(op, fn)
  }

  /** Line `at` is a call, and the line `j + 1` before it copies argument `j` to its place in the callee's frame. */
  predicate IsArgument(m: Module, ops: seq<Op>, at: nat, j: nat) {
    && at < |ops| && ops[at].OpCall? && ops[at].callee < |m| && j < |m[ops[at].callee].params| && j < at
    && Writes(ops[at - 1 - j]) == [ops[at].offset + |m[ops[at].callee].results| + j]
  }

  /** Line `l` is the copy of an argument. */
  ghost predicate Passes(m: Module, ops: seq<Op>, l: nat) {
    exists at: nat, j: nat :: IsArgument(m, ops, at, j) && l == at - 1 - j
  }

  /** The frame of a call starts with its results, which count for the caller's maximum, and all its arguments are
      copied by the lines before it. A frame never starts at slot 0, hence the 1 for a function that needs no slot. */
  ghost predicate CallServed(m: Module, ops: seq<Op>, at: nat, max: nat)
    requires at < |ops| && ops[at].OpCall?
  {
    var op := ops[at];
    && op.callee < |m| && op.offset + |m[op.callee].results| <= Max(1, max)
    && forall j :: 0 <= j < |m[op.callee].params| ==> IsArgument(m, ops, at, j)
  }

  /** Only the copy of a call's argument writes a slot from `max` on. */
  ghost predicate LineWithin(m: Module, ops: seq<Op>, l: nat, fn: nat, max: nat)
    requires l < |ops|
  {
    && (forall r <- Reads(ops[l]) :: r < max)
    && ((forall w <- Writes(ops[l]) :: w < max) || Passes(m, ops, l))
    && StaysIn(ops[l], fn)
    && (ops[l].OpCall? ==> CallServed(m, ops, l, max))
  }

  /** Lines stay what they are when code is appended and the maximum grows. */
  lemma LineMore(m: Module, ops: seq<Op>, longer: seq<Op>, l: nat, fn: nat, max: nat, more: nat)
    requires l < |ops| && ops <= longer && max <= more && LineWithin(m, ops, l, fn, max)
    ensures LineWithin(m, longer, l, fn, more)
  {
    hide Reads, Writes, StaysIn, IsArgument;
    assert longer[l] == ops[l];
    if Passes(m, ops, l) {
      var at: nat, j: nat :| IsArgument(m, ops, at, j) && l == at - 1 - j;
      ArgumentMore(m, ops, longer, at, j);
    }
    if ops[l].OpCall? {
      forall j | 0 <= j < |m[ops[l].callee].params|
        ensures IsArgument(m, longer, l, j)
      {
        ArgumentMore(m, ops, longer, l, j);
      }
    }
  }

  lemma ArgumentMore(m: Module, ops: seq<Op>, longer: seq<Op>, at: nat, j: nat)
    requires ops <= longer && IsArgument(m, ops, at, j)
    ensures IsArgument(m, longer, at, j)
  {
    assert longer[at] == ops[at] && longer[at - 1 - j] == ops[at - 1 - j];
  }

  // ----- the bound while compiling -----

  ghost predicate PagesWithin(pages: seq<seq<Op>>, fn: nat, max: nat, m: Module) {
    forall p, l :: 0 <= p < |pages| && 0 <= l < |pages[p]| ==> LineWithin(m, pages[p], l, fn, max)
  }

  ghost predicate EntriesWithin(stack: seq<Entry>, max: nat) {
    forall i :: 0 <= i < |stack| ==> IsAlias(stack[i].slot) || stack[i].slot < max
  }

  ghost predicate Bound(c: CState, m: Module) {
    && PagesWithin(c.pages, c.layout.fn, c.maxSlots, m)
    && EntriesWithin(c.stack, c.maxSlots)
    && c.maxAllocated <= c.maxSlots && c.layout.firstDynamic <= c.maxSlots
    && c.layout.FirstConst() + |c.consts| <= c.maxSlots
    && (forall id <- c.patched :: c.patched[id].fn == c.layout.fn)
  }

  /** Nothing emitted, nothing forgotten. */
  lemma BoundKept(c: CState, d: CState, m: Module)
    requires Bound(c, m) && d.pages == c.pages && d.layout == c.layout && d.consts == c.consts && d.patched == c.patched
    requires c.maxSlots <= d.maxSlots && d.maxAllocated <= d.maxSlots && EntriesWithin(d.stack, d.maxSlots)
    ensures Bound(d, m)
  {
    hide LineWithin;
    forall p, l | 0 <= p < |d.pages| && 0 <= l < |d.pages[p]|
      ensures LineWithin(m, d.pages[p], l, d.layout.fn, d.maxSlots)
    {
      LineMore(m, c.pages[p], d.pages[p], l, c.layout.fn, c.maxSlots, d.maxSlots);
    }
  }

  lemma DefineBound(c: CState, id: nat, m: Module)
    requires Bound(c, m)
    ensures Bound(Define(c, id), m)
  {
    hide LineWithin;
  }

  lemma NewPageBound(c: CState, m: Module)
    requires Bound(c, m)
    ensures Bound(c.(pages := c.pages + [[]], page := |c.pages|), m)
  {
    hide LineWithin;
  }

  lemma EmitBound(c: CState, op: Op, m: Module)
    requires Bound(c, m) && OpWithin(op, c.layout.fn, c.maxSlots) && !op.OpCall?
    ensures Bound(Emit(c, op), m)
  {
    hide LineWithin, OpWithin;
    var d := Emit(c, op);
    forall p, l | 0 <= p < |d.pages| && 0 <= l < |d.pages[p]|
      ensures LineWithin(m, d.pages[p], l, d.layout.fn, d.maxSlots)
    {
      if l < |c.pages[p]| {
        LineMore(m, c.pages[p], d.pages[p], l, c.layout.fn, c.maxSlots, c.maxSlots);
      } else {
        NewLineWithin(m, d.pages[p], l, c.layout.fn, c.maxSlots);
      }
    }
  }

  lemma NewLineWithin(m: Module, ops: seq<Op>, l: nat, fn: nat, max: nat)
    requires l < |ops| && OpWithin(ops[l], fn, max) && !ops[l].OpCall?
    ensures LineWithin(m, ops, l, fn, max)
  {
  }

  lemma MarkBound(c: CState, slot: nat, m: Module)
    requires Bound(c, m) && slot < MAX_FUNCTION_SLOTS
    ensures Bound(MarkAllocated(c, slot), m) && slot < MarkAllocated(c, slot).maxSlots
  {
    var d := MarkAllocated(c, slot);
    BoundKept(c, d, m);
  }

  lemma PushBound(c: CState, ty: ValType, slot: nat, m: Module)
    requires Bound(c, m) && Push(c, ty, slot).Some? && (IsAlias(slot) || slot < c.maxSlots)
    ensures Bound(Push(c, ty, slot).value, m)
  {
    BoundKept(c, Push(c, ty, slot).value, m);
  }

  lemma PushAllocatedBound(c: CState, ty: ValType, m: Module)
    requires Bound(c, m) && PushAllocated(c, ty).Some?
    ensures Bound(PushAllocated(c, ty).value, m)
  {
    var slot := FreeSlot(c).value;
    MarkBound(c, slot, m);
    PushBound(MarkAllocated(c, slot), ty, slot, m);
  }

  lemma PopBound(c: CState, m: Module)
    requires Bound(c, m) && Pop(c).Some?
    ensures Bound(Pop(c).value, m)
  {
    BoundKept(c, Pop(c).value, m);
  }

  lemma {:induction false} PopNBound(c: CState, n: nat, m: Module)
    requires Bound(c, m) && PopN(c, n).Some?
    ensures Bound(PopN(c, n).value, m) && PopN(c, n).value.maxSlots == c.maxSlots
    decreases n
  {
    hide Bound;
    if n > 0 {
      PopBound(c, m);
      PopNBound(Pop(c).value, n - 1, m);
    }
  }

  lemma {:induction false} UnwindBound(c: CState, m: Module)
    requires Bound(c, m) && UnwindStack(c).Some?
    ensures Bound(UnwindStack(c).value, m)
    decreases |c.stack|
  {
    hide Bound;
    if |c.stack| > c.block.base {
      PopBound(c, m);
      UnwindBound(Pop(c).value, m);
    }
  }

  lemma SetPolymorphicBound(c: CState, m: Module)
    requires Bound(c, m) && SetPolymorphic(c).Some?
    ensures Bound(SetPolymorphic(c).value, m)
  {
    var d := c.(block := c.block.(polymorphic := true));
    BoundKept(c, d, m);
    UnwindBound(d, m);
  }

  lemma PreserveRegisterBound(c: CState, m: Module)
    requires Bound(c, m) && PreserveRegister(c).Some?
    ensures Bound(PreserveRegister(c).value, m)
  {
    if c.reg != 0 && c.reg <= |c.stack| {
      var i, slot := c.reg - 1, FreeSlot(c).value;
      var moved := MarkAllocated(c.(reg := 0), slot);
      BoundKept(c, c.(reg := 0), m);
      MarkBound(c.(reg := 0), slot, m);
      var d := moved.(stack := c.stack[i := c.stack[i].(slot := slot)]);
      BoundKept(moved, d, m);
      EmitBound(d, SetSlot(c.stack[i].ty, slot), m);
    }
  }

    lemma CopyBound(c: CState, dst: nat, i: nat, m: Module)
    requires Bound(c, m) && i < |c.stack| && dst < c.maxSlots
    ensures Bound(CopyIndexToSlot(c, dst, i), m) && CopyIndexToSlot(c, dst, i).maxSlots == c.maxSlots
  {
    var e := c.stack[i];
    EmitBound(c, if IsAlias(e.slot) then SetSlot(e.ty, dst) else CopySlot(e.ty, dst, e.slot), m);
  }

  lemma {:induction false} EmitAllBound(c: CState, ops: seq<Op>, m: Module)
    requires Bound(c, m) && forall k :: 0 <= k < |ops| ==> OpWithin(ops[k], c.layout.fn, c.maxSlots) && !ops[k].OpCall?
    ensures Bound(EmitAll(c, ops), m)
    decreases |ops|
  {
    hide Bound, OpWithin;
    if ops != [] {
      EmitBound(c, ops[0], m);
      EmitAllBound(Emit(c, ops[0]), ops[1..], m);
    }
  }

  ghost predicate MovesWithin(ms: seq<Move>, max: nat) {
    forall k :: 0 <= k < |ms| ==> (IsAlias(ms[k].src) || ms[k].src < max) && ms[k].dst < max
  }

  /** The copies of a parallel move stay below its last temporary. */
  lemma {:induction false} MoveOpsWithin(ms: seq<Move>, temp: nat, fn: nat, max: nat)
    requires MovesWithin(ms, max) && MoveOps(ms, temp).Some?
      && (TempsEnd(ms, temp) == temp || TempsEnd(ms, temp) <= max)
    ensures forall k :: 0 <= k < |MoveOps(ms, temp).value| ==>
      OpWithin(MoveOps(ms, temp).value[k], fn, max) && !MoveOps(ms, temp).value[k].OpCall?
    decreases |ms|
  {
    hide FirstOps, Rest, NeedsTemp, OpWithin, MovesWithin;
    if ms != [] {
      var next := if NeedsTemp(ms) then temp + 1 else temp;
      RestWithin(ms, temp, fn, max);
      MoveOpsWithin(Rest(ms, temp), next, fn, max);
    }
  }

  lemma {:induction false} RestWithin(ms: seq<Move>, temp: nat, fn: nat, max: nat)
    requires ms != [] && MovesWithin(ms, max) && (NeedsTemp(ms) ==> temp < max)
    ensures MovesWithin(Rest(ms, temp), max)
    ensures forall k :: 0 <= k < |FirstOps(ms, temp)| ==>
      OpWithin(FirstOps(ms, temp)[k], fn, max) && !FirstOps(ms, temp)[k].OpCall?
  {
    var j := FirstReader(ms, ms[0].dst, 1);
    CopyOpWithin(ms[0], fn, max);
    if NeedsTemp(ms) {
      CopyOpWithin(ms[j].(dst := temp), fn, max);
    }
  }

  lemma CopyOpWithin(mv: Move, fn: nat, max: nat)
    requires (IsAlias(mv.src) || mv.src < max) && mv.dst < max
    ensures OpWithin(CopyOp(mv), fn, max)
  {
  }

  lemma {:induction false} MovesBound(c: CState, target: nat, i: nat, end: nat, temp: nat, m: Module)
    requires Bound(c, m) && i <= end <= |c.stack| && target + (end - i) <= i
    requires forall k :: target <= k < target + (end - i) ==> !IsAlias(c.stack[k].slot)
    requires CopyStackSlotsR(c, target, i, end, temp).Some?
    ensures Bound(CopyStackSlotsR(c, target, i, end, temp).value, m)
  {
    hide CopyStackSlotsR, MoveOps, TempsEnd, EmitAll, PagesWithin, OpWithin;
    var ms := StackMoves(c.stack, target, i, end);
    CopyIsMove(c, target, i, end, temp);
    var ops := MoveOps(ms, temp).value;
    var d := c.(maxSlots := MaxAfter(c.maxSlots, ms, temp));
    BoundKept(c, d, m);
    MoveOpsWithin(ms, temp, c.layout.fn, d.maxSlots);
    EmitAllBound(d, ops, m);
    EmitAllFrame(c, ops, c.stack, d.maxSlots);
  }

  // ----- handlers -----

  lemma PushConstBound(c: CState, v: Val, m: Module)
    requires Inv(c) && Bound(c, m) && PushConst(c, v).Some?
    ensures Bound(PushConst(c, v).value, m)
  {
    hide Bound, Inv, FindConstant, FreeConstantSlot, MarkAllocated, Emit, Push;
    var first := c.layout.FirstConst();
    var k := FindConstant(c.consts, v, 0);
    if k < |c.consts| {
      TableSlotWithin(c, k, m);
      PushBound(c, v.Type(), first + k, m);
    } else if FreeConstantSlot(c).Some? {
      NextConstantSlot(c);
      InvFacts(c);
      var slot := FreeConstantSlot(c).value;
      AddedConstantBound(c, slot, ToWord(v), m);
      PushBound(MarkAllocated(c, slot).(consts := c.consts + [ToWord(v)]), v.Type(), slot, m);
    } else {
      var dst := FreeSlot(c).value;
      MarkBound(c, dst, m);
      InlineConstantBound(MarkAllocated(c, dst), v, dst, m);
    }
  }

  lemma TableSlotWithin(c: CState, k: nat, m: Module)
    requires Bound(c, m) && k < |c.consts|
    ensures c.layout.FirstConst() + k < c.maxSlots
  {
  }

  lemma AddedConstantBound(c: CState, slot: nat, w: Word, m: Module)
    requires Bound(c, m) && slot < MAX_FUNCTION_SLOTS && slot == c.layout.FirstConst() + |c.consts|
    ensures var d := MarkAllocated(c, slot).(consts := c.consts + [w]); Bound(d, m) && slot < d.maxSlots
  {
    hide PagesWithin, EntriesWithin;
    MarkBound(c, slot, m);
  }

  lemma InlineConstantBound(c: CState, v: Val, dst: nat, m: Module)
    requires Bound(c, m) && dst < c.maxSlots
      && Push(Emit(c, SetConst(v.Type(), ConstWord(v), dst)), v.Type(), dst).Some?
    ensures Bound(Push(Emit(c, SetConst(v.Type(), ConstWord(v), dst)), v.Type(), dst).value, m)
  {
    hide ConstWord;
    EmitBound(c, SetConst(v.Type(), ConstWord(v), dst), m);
    PushBound(Emit(c, SetConst(v.Type(), ConstWord(v), dst)), v.Type(), dst, m);
  }

  lemma FindReferencedLocalBound(c: CState, slot: nat, m: Module)
    requires Bound(c, m) && FindReferencedLocal(c, slot).Some?
    ensures var (found, kept) := FindReferencedLocal(c, slot).value;
      Bound(found, m) && c.maxSlots <= found.maxSlots && (kept == slot || kept < found.maxSlots)
          && |found.stack| == |c.stack|
  {
    var from := ScanStart(c.outers, c.block);
    if References(c.stack, from, slot) > 0 {
      var kept := FreeSlot(c).value;
      MarkBound(c, kept, m);
      BoundKept(MarkAllocated(c, kept), FindReferencedLocal(c, slot).value.0, m);
    }
  }

  lemma StoreOpWithin(found: CState, slot: nat, kept: nat, m: Module)
    requires Bound(found, m) && |found.stack| > 0 && slot < found.maxSlots && kept < found.maxSlots
    ensures OpWithin(StoreOp(found, slot, kept), found.layout.fn, found.maxSlots) && !StoreOp(found, slot, kept).OpCall?
  {
    hide PagesWithin;
  }

  lemma SetLocalBound(c: CState, n: nat, tee: bool, m: Module)
    requires Inv(c) && Bound(c, m) && CompileSetLocal(c, n, tee).Some?
    ensures Bound(CompileSetLocal(c, n, tee).value, m)
  {
    hide Bound, Inv, OpWithin, FindReferencedLocal, StoreOp;
    TeeLocalShape(c, n);
    var slot := c.stack[n].slot;
    HomeWithin(c, n, m);
    FindReferencedLocalBound(c, slot, m);
    var (found, kept) := FindReferencedLocal(c, slot).value;
    StoreOpWithin(found, slot, kept, m);
    var op := StoreOp(found, slot, kept);
    EmitBound(found, op, m);
    if !tee {
      PopBound(Emit(found, op), m);
    }
  }

  lemma HomeWithin(c: CState, n: nat, m: Module)
    requires Inv(c) && Bound(c, m) && n < |c.layout.locals|
    ensures n < |c.stack| && c.stack[n].slot < c.maxSlots
  {
    InvFacts(c);
  }

  lemma OperandWithin(c: CState, i: nat, m: Module)
    requires Bound(c, m) && i < |c.stack| && !IsAlias(c.stack[i].slot)
    ensures c.stack[i].slot < c.maxSlots
  {
  }

  lemma PreserveRegisterMax(c: CState)
    requires PreserveRegister(c).Some?
    ensures c.maxSlots <= PreserveRegister(c).value.maxSlots && PreserveRegister(c).value.layout == c.layout
    ensures |PreserveRegister(c).value.stack| == |c.stack|
  {
  }

  lemma UnaryBound(c: CState, op: UnOp, m: Module)
    requires Bound(c, m) && CompileUnary(c, op).Some?
    ensures Bound(CompileUnary(c, op).value, m)
  {
    hide PreserveRegister, PagesWithin;
    var n := |c.stack|;
    var ready := if InRegister(c, n - 1) then c else PreserveRegister(c).value;
    if !InRegister(c, n - 1) {
      PreserveRegisterBound(c, m);
      PreserveRegisterMax(c);
      OperandWithin(c, n - 1, m);
    }
    var word := if InRegister(c, n - 1) then UnaryR(op) else UnaryS(op, c.stack[n - 1].slot);
    EmitBound(ready, word, m);
    PopBound(Emit(ready, word), m);
    PushBound(Pop(Emit(ready, word)).value, UnResult(op), REG0_ALIAS, m);
  }

  /** The last two operands of a binary operation are not both in the register. */
  lemma BinaryBound(c: CState, op: BinOp, m: Module)
    requires Inv(c) && Bound(c, m) && CompileBinary(c, op).Some?
    ensures Bound(CompileBinary(c, op).value, m)
  {
    hide PreserveRegister, PagesWithin, PopN, Inv;
    var n := |c.stack|;
    var a, b := c.stack[n - 1].slot, c.stack[n - 2].slot;
    OneInRegister(c, n - 2, n - 1);
    var ready := if IsAlias(a) || IsAlias(b) then c else PreserveRegister(c).value;
    if !IsAlias(a) && !IsAlias(b) {
      PreserveRegisterBound(c, m);
      PreserveRegisterMax(c);
    }
    var word := if IsAlias(a) then BinaryRS(op, b)
                else if IsAlias(b) then (if IsCommutative(op.kind) then BinaryRS(op, a) else BinarySR(op, a))
                else BinarySS(op, a, b);
    EmitBound(ready, word, m);
    PopNBound(Emit(ready, word), 2, m);
    PushBound(PopN(Emit(ready, word), 2).value, BinResult(op), REG0_ALIAS, m);
  }

  lemma SelectBound(c: CState, m: Module)
    requires Inv(c) && Bound(c, m) && CompileSelect(c).Some?
    ensures Bound(CompileSelect(c).value, m)
  {
    hide PreserveRegister, PagesWithin, PopN, Inv;
    var n := |c.stack|;
    OneInRegister(c, n - 2, n - 1);
    OneInRegister(c, n - 3, n - 1);
    OneInRegister(c, n - 3, n - 2);
    var anyReg := InRegister(c, n - 1) || InRegister(c, n - 2) || InRegister(c, n - 3);
    var ready := if anyReg then c else PreserveRegister(c).value;
    if !anyReg {
      PreserveRegisterBound(c, m);
      PreserveRegisterMax(c);
    }
    PopNBound(ready, 3, m);
    var popped := PopN(ready, 3).value;
    PopNLayout(ready, 3);
    EmitBound(popped, SelectOp(c), m);
    PushBound(Emit(popped, SelectOp(c)), c.stack[n - 2].ty, REG0_ALIAS, m);
  }

  lemma {:induction false} PopNLayout(c: CState, n: nat)
    requires PopN(c, n).Some?
    ensures PopN(c, n).value.layout == c.layout
    decreases n
  {
    if n > 0 {
      PopNLayout(Pop(c).value, n - 1);
    }
  }
}
