/** The compile-time state and the slot allocator, operand stack and register table that all opcode handlers share.
    Functions returning an Option fail where the source returns an error, and in two places where it does not look:
    a call whose results lie beyond the last slot, and a block whose landing slots cannot be reserved.
 */
module Allocator {
  import opened Words
  import opened Machine

  const MAX_STACK_HEIGHT: nat := 2000
  const MAX_FUNCTION_SLOTS: nat := 4000
  const MAX_CONSTANTS: nat := 120
  const REG0_ALIAS: nat := 60000
  const MAX_USAGE: nat := 0xFF

  /** One entry of wasmStack/typeStack. Entries that CompileBlock keeps only as a record of a result's landing slot
      are marked dead; the flag is bookkeeping of the model. */
  datatype Entry = Entry(slot: nat, ty: ValType, live: bool)

  datatype ScopeKind = FuncScope | BlockScope | LoopScope | IfScope | ElseScope

  /** M3CompilationScope. `end` names the forward references to the end of the block that `patches` chains. */
  datatype Scope = Scope(kind: ScopeKind, base: nat, exit: nat, results: seq<ValType>, pc: PC, end: nat,
                         polymorphic: bool)

  /** What CompileFunction fixes before the first opcode: returns, then args and locals, then reserved constants. */
  datatype Layout = Layout(fn: nat, numRets: nat, numArgs: nat, locals: seq<ValType>, firstDynamic: nat)
  {
    function FirstConst(): nat {
      numRets + |locals|
    }
  }

  type Usage = u: seq<int> | |u| == MAX_FUNCTION_SLOTS witness seq(MAX_FUNCTION_SLOTS, _ => 0)

  datatype CState = CState(
    layout: Layout,
    stack: seq<Entry>,        // the home entries of args and locals come first
    usage: Usage,             // m3Slots
    reg: nat,                 // regStackIndexPlusOne [0]
    maxAllocated: nat,        // slotMaxAllocatedIndexPlusOne
    maxSlots: nat,            // maxStackSlots
    consts: seq<Word>,        // constants up to slotMaxConstIndex
    block: Scope,
    outers: seq<Scope>,       // enclosing scopes, outermost first
    pages: seq<seq<Op>>,
    page: nat,
    patched: map<nat, PC>,
    nextId: nat)

  predicate IsAlias(slot: nat) {
    slot >= REG0_ALIAS
  }

  function Max(a: nat, b: nat): nat {
    if a < b then b else a
  }

  function Min(a: nat, b: nat): nat {
    if a < b then a else b
  }

  // ----- emission -----

  function PcOf(c: CState): PC {
    PC(c.layout.fn, c.page, if c.page < |c.pages| then |c.pages[c.page]| else 0)
  }

  function Emit(c: CState, op: Op): CState {
    if c.page < |c.pages| then c.(pages := c.pages[c.page := c.pages[c.page] + [op]]) else c
  }

  /** A new forward reference. */
  function FreshId(c: CState): CState {
    c.(nextId := c.nextId + 1)
  }

  /** Writing the current pc into every word that waits for `id`. */
  function Define(c: CState, id: nat): CState {
    c.(patched := c.patched[id := PcOf(c)])
  }

  // ----- slots -----

  function Touch(c: CState, slot: nat): CState {
    c.(maxSlots := Max(c.maxSlots, slot + 1))
  }

  function MarkAllocated(c: CState, slot: nat): CState
    requires slot < MAX_FUNCTION_SLOTS
  {
    Touch(c.(usage := c.usage[slot := 1], maxAllocated := Max(c.maxAllocated, slot + 1)), slot)
  }

  /** The lowest free slot in a range. */
  function FirstFree(usage: Usage, from: nat, limit: nat): (r: Option<nat>)
    ensures r.Some? ==> from <= r.value < limit && r.value < MAX_FUNCTION_SLOTS && usage[r.value] == 0
    ensures r.Some? ==> forall s :: from <= s < r.value ==> usage[s] != 0
    ensures r.None? ==> (forall s :: from <= s < limit && s < MAX_FUNCTION_SLOTS ==> usage[s] != 0)
    decreases if from < limit then limit - from else 0
  {
    if from >= limit || from >= MAX_FUNCTION_SLOTS then None
    else if usage[from] == 0 then Some(from)
    else FirstFree(usage, from + 1, limit)
  }

  function FreeSlot(c: CState): Option<nat> {
    FirstFree(c.usage, c.layout.firstDynamic, MAX_FUNCTION_SLOTS)
  }

  function FreeConstantSlot(c: CState): Option<nat> {
    var first := c.layout.FirstConst();
    FirstFree(c.usage, first, Min(c.layout.firstDynamic, first + MAX_CONSTANTS))
  }

  function Release(c: CState, slot: nat): CState {
    if slot < MAX_FUNCTION_SLOTS then c.(usage := c.usage[slot := c.usage[slot] - 1]) else c
  }

  function TrimMax(c: CState, max: nat): nat
    decreases max
  {
    if max > c.layout.firstDynamic && (max > MAX_FUNCTION_SLOTS || c.usage[max - 1] == 0) then TrimMax(c, max - 1)
    else max
  }

  // ----- the operand stack -----

  predicate InRegister(c: CState, i: int) {
    0 <= i < |c.stack| && IsAlias(c.stack[i].slot)
  }

  function Push(c: CState, ty: ValType, slot: nat): Option<CState> {
    if |c.stack| >= MAX_STACK_HEIGHT then None
    else
      var pushed := c.(stack := c.stack + [Entry(slot, ty, true)]);
      Some(if IsAlias(slot) then pushed.(reg := |c.stack| + 1) else pushed)
  }

  function PushRegister(c: CState, ty: ValType): Option<CState> {
    Push(c, ty, REG0_ALIAS)
  }

  function PushAllocated(c: CState, ty: ValType): Option<CState> {
    var slot :- FreeSlot(c);
    Push(MarkAllocated(c, slot), ty, slot)
  }

  function Pop(c: CState): Option<CState> {
    var n := |c.stack|;
    if n > c.block.base then
      var slot := c.stack[n - 1].slot;
      var popped := c.(stack := c.stack[..n - 1]);
      Some(if IsAlias(slot) then popped.(reg := 0)
           else if slot >= c.layout.firstDynamic then Release(popped, slot)
           else popped)
    else if c.block.polymorphic then Some(c)
    else None
  }

  function PopN(c: CState, n: nat): Option<CState>
    decreases n
  {
    if n == 0 then Some(c)
    else
      var popped :- Pop(c);
      PopN(popped, n - 1)
  }

  /** Type of an operand counted from the top; args and locals are hidden. */
  function TypeFromTop(c: CState, offset: nat): Option<ValType> {
    var i := |c.stack| - 1 - offset;
    if i >= |c.layout.locals| then Some(c.stack[i].ty) else None
  }

  function PopType(c: CState, ty: ValType): Option<CState> {
    if TypeFromTop(c, 0) == Some(ty) || c.block.polymorphic then Pop(c) else None
  }

  function UnwindStack(c: CState): Option<CState>
    decreases |c.stack|
  {
    if |c.stack| > c.block.base then
      var popped :- Pop(c);
      UnwindStack(popped)
    else Some(c)
  }

  function SetPolymorphic(c: CState): Option<CState> {
    UnwindStack(c.(block := c.block.(polymorphic := true)))
  }

  // ----- the register -----

  function PreserveRegister(c: CState): Option<CState> {
    if c.reg == 0 || c.reg > |c.stack| then Some(c)
    else
      var i := c.reg - 1;
      var slot :- FreeSlot(c);
      var moved := MarkAllocated(c.(reg := 0), slot);
      var ty := c.stack[i].ty;
      Some(Emit(moved.(stack := c.stack[i := c.stack[i].(slot := slot)]), SetSlot(ty, slot)))
  }

  function PreserveNonTopRegister(c: CState): Option<CState> {
    if c.reg != 0 && c.reg != |c.stack| then PreserveRegister(c) else Some(c)
  }

  // ----- copies -----

  function CopyIndexToSlot(c: CState, dst: nat, i: nat): CState
    requires i < |c.stack|
  {
    var e := c.stack[i];
    Emit(c, if IsAlias(e.slot) then SetSlot(e.ty, dst) else CopySlot(e.ty, dst, e.slot))
  }

  function CopyTopToSlot(c: CState, dst: nat): Option<CState> {
    if |c.stack| == 0 then None else Some(CopyIndexToSlot(c, dst, |c.stack| - 1))
  }

  /** Storing the top into a local whose previous value is still referenced. */
  function PreservedCopyTop(c: CState, dst: nat, preserve: nat): Option<CState> {
    if |c.stack| == 0 then None
    else
      var e := c.stack[|c.stack| - 1];
      Some(Emit(c, if IsAlias(e.slot) then PreserveSetSlot(e.ty, dst, preserve)
                   else PreserveCopySlot(e.ty, dst, e.slot, preserve)))
  }

  /** CopyStackTopToRegister without updating the stack. */
  function CopyTopToRegister(c: CState): Option<CState> {
    if |c.stack| == 0 then None
    else if InRegister(c, |c.stack| - 1) then Some(c)
    else
      var kept :- PreserveRegister(c);
      var e := c.stack[|c.stack| - 1];
      Some(Emit(kept, SetRegister(e.ty, e.slot)))
  }

  /** The first entry of a range that still lives in `slot`; `limit` when there is none. */
  function FirstCollision(stack: seq<Entry>, slot: nat, from: nat, limit: nat): (r: nat)
    requires from <= limit <= |stack|
    ensures from <= r <= limit
    ensures r < limit ==> stack[r].slot == slot
    ensures (forall i :: from <= i < r ==> stack[i].slot != slot)
    decreases limit - from
  {
    if from == limit then limit
    else if stack[from].slot == slot then from
    else FirstCollision(stack, slot, from + 1, limit)
  }

  /** Moves the entries [i, end) to the slots recorded at target, target + 1, ...; the stack itself is restored. */
  function CopyStackSlotsR(c: CState, target: nat, i: nat, end: nat, temp: nat): (r: Option<CState>)
    requires end <= |c.stack| && target + (end - i) <= |c.stack|
    ensures r.Some? ==> |r.value.stack| == |c.stack|
    decreases if i < end then end - i else 0
  {
    if i >= end then Some(c)
    else
      var src, dst := c.stack[i].slot, c.stack[target].slot;
      if src == dst then
        var rest :- CopyStackSlotsR(c, target + 1, i + 1, end, temp);
        Some(rest.(stack := rest.stack[i := rest.stack[i].(slot := src)]))
      else
        var j := FirstCollision(c.stack, dst, i + 1, end);
        if j < end && temp >= MAX_FUNCTION_SLOTS then None
        else
          var saved := if j < end
            then Touch(CopyIndexToSlot(c, temp, j).(stack := c.stack[j := c.stack[j].(slot := temp)]), temp) else c;
          var copied := CopyIndexToSlot(saved, dst, i);
          var moved := copied.(stack := saved.stack[i := saved.stack[i].(slot := dst)]);
          var rest :- CopyStackSlotsR(moved, target + 1, i + 1, end, if j < end then temp + 1 else temp);
          var back := rest.stack[i := rest.stack[i].(slot := src)];
          Some(rest.(stack := if j < end then back[j := back[j].(slot := dst)] else back))
  }

  // ----- copy-on-write locals -----

  /** Where the search for references to a local starts: transparent blocks are looked through. */
  function ScanStart(outers: seq<Scope>, block: Scope): nat
    decreases |outers|
  {
    if block.kind == BlockScope && |outers| > 0 then ScanStart(outers[..|outers| - 1], outers[|outers| - 1])
    else block.base
  }

  /** Number of entries from index `from` that name `slot`. */
  function References(stack: seq<Entry>, from: nat, slot: nat): nat {
    var n := |stack|;
    if n <= from then 0
    else References(stack[..n - 1], from, slot) + if stack[n - 1].slot == slot then 1 else 0
  }

  function Redirect(stack: seq<Entry>, from: nat, slot: nat, to: nat): (r: seq<Entry>)
    ensures |r| == |stack|
    ensures forall i :: 0 <= i < |stack| ==>
      r[i] == if i >= from && stack[i].slot == slot then stack[i].(slot := to) else stack[i]
  {
    seq(|stack|, i requires 0 <= i < |stack| =>
      if i >= from && stack[i].slot == slot then stack[i].(slot := to) else stack[i])
  }

  /** FindReferencedLocalWithinCurrentBlock: every operand that aliases the local is redirected to one fresh slot.
      Returns the local's own slot when there is none. */
  function FindReferencedLocal(c: CState, slot: nat): (r: Option<(CState, nat)>)
    ensures r.Some? ==> r.value.0.layout == c.layout
  {
    var from := ScanStart(c.outers, c.block);
    var n := References(c.stack, from, slot);
    if n == 0 then Some((c, slot))
    else
      var kept :- FreeSlot(c);
      if n > MAX_USAGE then None
      else
        var marked := MarkAllocated(c, kept);
        Some((marked.(usage := marked.usage[kept := n], stack := Redirect(c.stack, from, slot, kept)), kept))
  }

  /** PreserveArgsAndLocals, from local `i` on. */
  function PreserveLocals(c: CState, i: nat): Option<CState>
    decreases if i < |c.layout.locals| then |c.layout.locals| - i else 0
  {
    if i >= |c.layout.locals| || i >= |c.stack| then Some(c)
    else
      var next :- PreserveLocal(c, i);
      PreserveLocals(next, i + 1)
  }

  function PreserveLocal(c: CState, i: nat): (r: Option<CState>)
    requires i < |c.stack|
    ensures r.Some? ==> r.value.layout == c.layout
  {
    var home := c.stack[i];
    var found :- FindReferencedLocal(c, home.slot);
    Some(if found.1 == home.slot then found.0 else Emit(found.0, CopySlot(home.ty, found.1, home.slot)))
  }

  function PreserveArgsAndLocals(c: CState): Option<CState> {
    if |c.stack| > |c.layout.locals| then PreserveLocals(c, 0) else Some(c)
  }
}
