/** The opcode handlers: one function per handler of the source, from compile-time state to compile-time state.
    The code pages only grow; a forward reference is an id whose address is defined when the source patches it.
 */
module Compiler {
  import opened Words
  import opened IntegerOps
  import opened Wasm
  import opened Machine
  import opened Allocator

  // ----- constants -----

  /** `i_word`: an i32 constant arrives sign-extended. */
  function ConstWord(v: Val): Word {
    match v
    case V32(x) => LoadSigned(I32, Word(x, 0))
    case V64(w) => w
  }

  /** The comparison made against each entry of the constant table. */
  predicate SameConstant(entry: Word, v: Val) {
    match v
    case V32(_) => Word(entry.lo, 0) == ConstWord(v)
    case V64(_) => entry == ConstWord(v)
  }

  function FindConstant(consts: seq<Word>, v: Val, i: nat): (r: nat)
    requires i <= |consts|
    ensures i <= r <= |consts|
    ensures r < |consts| ==> SameConstant(consts[r], v)
    decreases |consts| - i
  {
    if i == |consts| || SameConstant(consts[i], v) then i else FindConstant(consts, v, i + 1)
  }

  function PushConst(c: CState, v: Val): Option<CState> {
    var first := c.layout.FirstConst();
    var k := FindConstant(c.consts, v, 0);
    if k < |c.consts| then Push(c, v.Type(), first + k)
    else
      var slot := FreeConstantSlot(c);
      if slot.Some? then
        var index := slot.value - first;
        var entry := ToWord(v);
        Push(MarkAllocated(c, slot.value).(consts :=
               if index < |c.consts| then c.consts[index := entry] else c.consts + [entry]),
             v.Type(), slot.value)
      else
        var dst :- FreeSlot(c);
        Push(Emit(MarkAllocated(c, dst), SetConst(v.Type(), ConstWord(v), dst)), v.Type(), dst)
  }

  // ----- locals -----

  function CompileGetLocal(c: CState, n: nat): Option<CState> {
    if n < |c.layout.locals| && n < |c.stack| then Push(c, c.stack[n].ty, c.stack[n].slot) else None
  }

  function CompileSetLocal(c: CState, n: nat, tee: bool): Option<CState> {
    if n < |c.layout.locals| && n < |c.stack| then
      var slot := c.stack[n].slot;
      var found :- FindReferencedLocal(c, slot);
      var copied :- if found.1 == slot then CopyTopToSlot(found.0, slot) else PreservedCopyTop(found.0, slot, found.1);
      if tee then Some(copied) else Pop(copied)
    else None
  }

  // ----- operators -----

  function CompileUnary(c: CState, op: UnOp): Option<CState> {
    var n := |c.stack|;
    if n == 0 then None
    else if InRegister(c, n - 1) then
      var popped :- Pop(Emit(c, UnaryR(op)));
      PushRegister(popped, UnResult(op))
    else
      var free :- PreserveRegister(c);
      var popped :- Pop(Emit(free, UnaryS(op, c.stack[n - 1].slot)));
      PushRegister(popped, UnResult(op))
  }

  function CompileBinary(c: CState, op: BinOp): Option<CState> {
    var n := |c.stack|;
    if n < 2 then None
    else
      var a, b := c.stack[n - 1].slot, c.stack[n - 2].slot;
      var emitted :-
        if InRegister(c, n - 1) then Some(Emit(c, BinaryRS(op, b)))
        else if InRegister(c, n - 2) then
          Some(Emit(c, if IsCommutative(op.kind) then BinaryRS(op, a) else BinarySR(op, a)))
        else
          var free :- PreserveRegister(c);
          Some(Emit(free, BinarySS(op, a, b)));
      var popped :- PopN(emitted, 2);
      PushRegister(popped, BinResult(op))
  }

  /** The form of select; the last operand found in the register decides. */
  function SelectOp(c: CState): Op
    requires |c.stack| >= 3
  {
    var n := |c.stack|;
    var ty := c.stack[n - 2].ty;
    var s0, s1, s2 := c.stack[n - 1].slot, c.stack[n - 2].slot, c.stack[n - 3].slot;
    if InRegister(c, n - 3) then SelectSSR(ty, s0, s1)
    else if InRegister(c, n - 2) then SelectSRS(ty, s0, s2)
    else if InRegister(c, n - 1) then SelectRSS(ty, s1, s2)
    else SelectSSS(ty, s0, s1, s2)
  }

  function CompileSelect(c: CState): Option<CState> {
    var n := |c.stack|;
    if n < 3 || n - 2 < |c.layout.locals| then None
    else
      var ready :-
        if InRegister(c, n - 1) || InRegister(c, n - 2) || InRegister(c, n - 3) then Some(c) else PreserveRegister(c);
      var popped :- PopN(ready, 3);
      PushRegister(Emit(popped, SelectOp(c)), c.stack[n - 2].ty)
  }

  // ----- results -----

  /** ResolveBlockResults: the operands a branch to `target`, or its end, leaves behind go to their landing slots. */
  function ResolveResults(c: CState, target: Scope, isBranch: bool): Option<CState> {
    var n := if target.kind == LoopScope && isBranch then 0 else |target.results|;
    var height := |c.stack| - c.block.base;
    if (if isBranch then height < n else height != n) then None
    else if n > 0 && target.exit + n <= |c.stack| then
      CopyStackSlotsR(c, target.exit, |c.stack| - n, |c.stack|, c.maxSlots)
    else Some(c)
  }

  /** The copies of ReturnValues: the operand `k` places from the top goes to return slot `n - 1 - k`. */
  function ReturnCopies(c: CState, results: seq<ValType>, k: nat): Option<CState>
    requires k <= |results|
    decreases |results| - k
  {
    var n := |results|;
    if k == n then Some(c)
    else if |c.stack| <= k || TypeFromTop(c, k) != Some(results[n - 1 - k]) then None
    else
      var copied := CopyIndexToSlot(c, n - 1 - k, |c.stack| - 1 - k);
      ReturnCopies(copied, results, k + 1)
  }

  function ReturnValues(c: CState, results: seq<ValType>, isBranch: bool): Option<CState> {
    var height := |c.stack| - c.block.base;
    if c.block.polymorphic then Some(c)
    else if (if isBranch then height < |results| else height != |results|) then None
    else
      var copied :- ReturnCopies(c, results, 0);
      if isBranch then Some(copied) else PopN(copied, |results|)
  }

  // ----- branches -----

  /** GetBlockScope. */
  function ScopeAt(c: CState, depth: nat): Option<Scope> {
    if depth == 0 then Some(c.block)
    else if depth <= |c.outers| then Some(c.outers[|c.outers| - depth])
    else None
  }

  /** The code of a taken branch, with the operands still on the compile-time stack. */
  function BranchTo(c: CState, target: Scope): Option<CState> {
    if target.kind == LoopScope then
      var ready :- ResolveResults(c, target, true);
      Some(Emit(ready, ContinueLoop(target.pc)))
    else if target.kind == FuncScope then
      var ready :- ReturnValues(c, target.results, true);
      Some(Emit(ready, OpReturn))
    else
      var ready :- ResolveResults(c, target, true);
      Some(Emit(ready, Branch(Patched(target.end))))
  }

  function CompileBr(c: CState, depth: nat): Option<CState> {
    var target :- ScopeAt(c, depth);
    if target.kind == LoopScope then
      Some(Emit(c, ContinueLoop(target.pc)).(block := c.block.(polymorphic := true)))
    else
      var gone :- BranchTo(c, target);
      SetPolymorphic(gone)
  }

  function CompileBrIf(c: CState, depth: nat): Option<CState> {
    var target :- ScopeAt(c, depth);
    var n := |c.stack|;
    if n == 0 then None
    else if target.kind == LoopScope then
      var ready :- CopyTopToRegister(c);
      var popped :- PopType(ready, I32);
      Some(Emit(popped, ContinueLoopIf(target.pc)))
    else
      var cond := c.stack[n - 1].slot;
      if |target.results| > 0 || target.kind == FuncScope then
        var id := c.nextId;
        var skip := Patched(id);
        var popped :- Pop(Emit(FreshId(c), if IsAlias(cond) then PrologueR(skip) else PrologueS(cond, skip)));
        var taken :- BranchTo(popped, target);
        Some(Define(taken, id))
      else
        var to := Patched(target.end);
        Pop(Emit(c, if IsAlias(cond) then BranchIfR(to) else BranchIfS(cond, to)))
  }

  /** One code page per target of a br_table. */
  function CompileTargets(c: CState, depths: seq<nat>): Option<(CState, seq<PC>)> {
    if depths == [] then Some((c, []))
    else
      var before :- CompileTargets(c, depths[..|depths| - 1]);
      var s := before.0;
      var target :- ScopeAt(s, depths[|depths| - 1]);
      var onNew := s.(pages := s.pages + [[]], page := |s.pages|);
      var done :- BranchTo(onNew, target);
      Some((done.(page := s.page), before.1 + [PcOf(onNew)]))
  }

  function CompileBrTable(c: CState, targets: seq<nat>, default: nat): Option<CState> {
    var ready :- PreserveRegister(c);
    if |ready.stack| == 0 then None
    else
      var cond := ready.stack[|ready.stack| - 1].slot;
      var popped :- Pop(ready);
      var done :- CompileTargets(popped, targets + [default]);
      SetPolymorphic(Emit(done.0, BranchTable(cond, done.1)))
  }

  function CompileReturn(c: CState): Option<CState> {
    var results := (if |c.outers| > 0 then c.outers[0] else c.block).results;
    var ready :- ReturnValues(c, results, true);
    SetPolymorphic(Emit(ready, OpReturn))
  }

  function CompileUnreachable(c: CState): Option<CState> {
    SetPolymorphic(Emit(c, OpUnreachable))
  }

  // ----- calls -----

  /** Argument `n - 1`, ..., 0 from the top of the stack into consecutive slots from `base`. */
  function CopyArgs(c: CState, base: nat, n: nat): Option<CState>
    decreases n
  {
    if n == 0 then Some(c)
    else
      var copied :- CopyTopToSlot(c, base + n - 1);
      var popped :- Pop(copied);
      CopyArgs(popped, base, n - 1)
  }

  /** The results of a call are live where the callee leaves them. */
  function PushResultsAt(c: CState, base: nat, results: seq<ValType>): Option<CState> {
    var n := |results|;
    if n == 0 then Some(c)
    else
      var before :- PushResultsAt(c, base, results[..n - 1]);
      var slot := base + n - 1;
      var pushed :- Push(before, results[n - 1], slot);
      if slot < MAX_FUNCTION_SLOTS then Some(MarkAllocated(pushed, slot)) else None
  }

  function FrameBase(c: CState): nat {
    Max(1, TrimMax(c, c.maxAllocated))
  }

  function CompileCall(c: CState, m: Module, f: nat): Option<CState> {
    if f < |m| then
      var base := FrameBase(c);
      var trimmed := c.(maxAllocated := TrimMax(c, c.maxAllocated));
      var numRets := |m[f].results|;
      var passed :- CopyArgs(trimmed, base + numRets, |m[f].params|);
      var pushed :- PushResultsAt(passed, base, m[f].results);
      Some(Emit(pushed, OpCall(f, base)))
    else None
  }

  // ----- blocks -----

  function PushBlockResults(c: CState, results: seq<ValType>): Option<CState> {
    var n := |results|;
    if n == 0 then Some(c)
    else
      var before :- PushBlockResults(c, results[..n - 1]);
      PushAllocated(before, results[n - 1])
  }

  function MarkDead(entries: seq<Entry>): (r: seq<Entry>)
    ensures |r| == |entries|
    ensures forall i :: 0 <= i < |r| ==> r[i] == entries[i].(live := false)
  {
    seq(|entries|, i requires 0 <= i < |entries| => entries[i].(live := false))
  }

  /** Finds the landing slots: the results are pushed and popped again, but their entries stay as records. */
  function ReserveLanding(c: CState, results: seq<ValType>): Option<CState> {
    var pushed :- PushBlockResults(c, results);
    var popped :- PopN(pushed, |results|);
    if |c.stack| <= |pushed.stack| then Some(popped.(stack := popped.stack + MarkDead(pushed.stack[|c.stack|..])))
    else None
  }

  function EnterScope(c: CState, kind: ScopeKind, results: seq<ValType>, exit: nat): CState {
    c.(outers := c.outers + [c.block],
       block := Scope(kind, |c.stack|, exit, results, PcOf(c), c.nextId, c.block.polymorphic),
       nextId := c.nextId + 1)
  }

  /** From the last statement of a block to the state of the enclosing scope. */
  function LeaveScope(c: CState, outer: Scope, outers: seq<Scope>): Option<CState> {
    var ready :- if c.block.polymorphic then Some(c) else ResolveResults(c, c.block, false);
    var empty :- UnwindStack(ready);
    var done :- if c.block.kind == IfScope || c.block.exit > |empty.stack| then Some(empty)
                else PushBlockResults(empty.(stack := empty.stack[..c.block.exit]), c.block.results);
    Some(Define(done, c.block.end).(block := outer, outers := outers))
  }

  function CompileBlock(c: CState, m: Module, kind: ScopeKind, results: seq<ValType>, body: Body): Option<CState>
    decreases body, 1
  {
    var landing :- ReserveLanding(c, results);
    var done :- CompileBody(EnterScope(landing, kind, results, |c.stack|), m, body);
    LeaveScope(done, c.block, c.outers)
  }

  function CompileIf(c: CState, m: Module, i: Instr): Option<CState>
    requires i.If?
    decreases i, 3
  {
    var results := ResultSeq(i.result);
    var kept :- PreserveNonTopRegister(c);
    var ready :- PreserveArgsAndLocals(kept);
    if |ready.stack| == 0 then None
    else
      var cond := ready.stack[|ready.stack| - 1].slot;
      var id := ready.nextId;
      var skip := Patched(id);
      var started :- Pop(Emit(FreshId(ready), if IsAlias(cond) then IfR(skip) else IfS(cond, skip)));
      var armed :- CompileBlock(started, m, IfScope, results, i.thn);
      if |started.stack| > |armed.stack| then None
      else
        var back := armed.(stack := armed.stack[..|started.stack|]);
        if i.els.Some? then CompileElse(back, m, id, results, i.els.value)
        else if i.result.None? then Some(Define(back, id))
        else None  // the else arm the source makes up here has no operand to leave as its result
  }

  /** The else arm goes to a page of its own and branches back. */
  function CompileElse(c: CState, m: Module, id: nat, results: seq<ValType>, body: Body): Option<CState>
    decreases body, 2
  {
    var onNew := c.(pages := c.pages + [[]], page := |c.pages|);
    var done :- CompileBlock(Define(onNew, id), m, ElseScope, results, body);
    Some(Emit(done, Branch(Known(PcOf(done.(page := c.page))))).(page := c.page))
  }

  function CompileInstr(c: CState, m: Module, i: Instr): Option<CState>
    decreases i, 4
  {
    match i
    case Const(v) => PushConst(c, v)
    case LocalGet(n) => CompileGetLocal(c, n)
    case LocalSet(n) => CompileSetLocal(c, n, false)
    case LocalTee(n) => CompileSetLocal(c, n, true)
    case Unary(op) => CompileUnary(c, op)
    case Binary(op) => CompileBinary(c, op)
    case Select => CompileSelect(c)
    case Drop => Pop(c)
    case Nop => Some(c)
    case Block(result, body) =>
      var kept :- PreserveRegister(c);
      var ready :- PreserveArgsAndLocals(kept);
      CompileBlock(ready, m, BlockScope, ResultSeq(result), body)
    case Loop(result, body) =>
      var kept :- PreserveRegister(c);
      var ready :- PreserveArgsAndLocals(kept);
      CompileBlock(Emit(ready, OpLoop), m, LoopScope, ResultSeq(result), body)
    case If(_, _, _) => CompileIf(c, m, i)
    case BrIf(d) => CompileBrIf(c, d)
    case Call(f) => CompileCall(c, m, f)
  }

  function CompileBody(c: CState, m: Module, b: Body): Option<CState>
    decreases b, 0
  {
    match b
    case End => Some(c)
    case Then(i, rest) =>
      var next :- CompileInstr(c, m, i);
      CompileBody(next, m, rest)
    case Br(d) => CompileBr(c, d)
    case BrTable(targets, default) => CompileBrTable(c, targets, default)
    case Return => CompileReturn(c)
    case Unreachable => CompileUnreachable(c)
  }

  // ----- functions -----

  function FuncLayout(fn: nat, f: Func, reserved: nat): Layout {
    Layout(fn, |f.results|, |f.params|, f.params + f.locals, |f.results| + |f.params| + |f.locals| + reserved)
  }

  /** The state before the first opcode. `reserved` is the number of constant slots found by ReserveConstants. */
  function InitialState(fn: nat, f: Func, reserved: nat): Option<CState> {
    var layout := FuncLayout(fn, f, reserved);
    var n := |layout.locals|;
    if layout.firstDynamic >= MAX_FUNCTION_SLOTS || n > MAX_STACK_HEIGHT then None
    else
      Some(CState(
             layout,
             seq(n, i requires 0 <= i < n => Entry(layout.numRets + i, layout.locals[i], true)),
             seq(MAX_FUNCTION_SLOTS, s => if s < layout.FirstConst() then 1 else 0),
             0, layout.firstDynamic, layout.firstDynamic, [],
             Scope(FuncScope, n, 0, f.results, PC(fn, 0, 0), 0, false), [],
             [[OpEntry]], 0, map[], 1))
  }

  /** The final `end` of a function. */
  function CompileEnd(c: CState): Option<CState> {
    var ready :- ReturnValues(c, c.block.results, false);
    Some(Emit(ready, OpReturn))
  }

  function CompileFunction(m: Module, fn: nat, reserved: nat): Option<CState>
    requires fn < |m|
  {
    var start :- InitialState(fn, m[fn], reserved);
    var done :- CompileBody(start, m, m[fn].body);
    CompileEnd(done)
  }

  function CodeOf(c: CState): Code {
    Code(c.pages, c.patched, c.consts, c.layout.numRets + c.layout.numArgs, c.layout.FirstConst(), c.maxSlots)
  }
}
