/** M3Compilation: the compile-time state as the source keeps it, in fixed-size buffers that the handlers update in
    place. Every method is proved against the function of the same name on abstract states; errors are results, and
    the state after an error is left open.
 */
module Compilation {
  import opened Words
  import opened IntegerOps
  import opened Wasm
  import opened Machine
  import opened Allocator
  import opened Compiler
  import opened Invariant

  /** The operand stack of three parallel buffers. */
  function Entries(slots: seq<nat>, types: seq<ValType>, live: seq<bool>): (r: seq<Entry>)
    requires |slots| == |types| == |live|
    ensures |r| == |slots|
    ensures forall i :: 0 <= i < |r| ==> r[i] == Entry.Entry(slots[i], types[i], live[i])
  {
    seq(|slots|, i requires 0 <= i < |slots| => Entry.Entry(slots[i], types[i], live[i]))
  }

  class Compiling {
    var layout: Layout
    var stackIndex: nat
    const wasmStack: array<nat>
    const typeStack: array<ValType>
    ghost var live: seq<bool>
    const m3Slots: array<int>
    var regStackIndexPlusOne: nat
    var slotMaxAllocatedIndexPlusOne: nat
    var maxStackSlots: nat
    const constants: array<Word>
    var numConstants: nat
    var block: Scope
    var outers: seq<Scope>
    var pages: seq<seq<Op>>
    var page: nat
    var patched: map<nat, PC>
    var nextId: nat

    /** memset of the whole object, and its first code page. */
    constructor ()
      ensures Valid() && fresh(Parts()) && Blank()
    {
      layout := Layout(0, 0, 0, [], 0);
      stackIndex, regStackIndexPlusOne, slotMaxAllocatedIndexPlusOne, maxStackSlots, numConstants := 0, 0, 0, 0, 0;
      wasmStack := new nat[MAX_STACK_HEIGHT](_ => 0);
      typeStack := new ValType[MAX_STACK_HEIGHT](_ => I32);
      live := seq(MAX_STACK_HEIGHT, _ => false);
      m3Slots := new int[MAX_FUNCTION_SLOTS](_ => 0);
      constants := new Word[MAX_CONSTANTS](_ => ZERO);
      block := Scope(FuncScope, 0, 0, [], PC(0, 0, 0), 0, false);
      outers, pages, page, patched, nextId := [], [[]], 0, map[], 1;
    }

    /** Nothing has been compiled yet. */
    ghost predicate Blank()
      reads this, m3Slots
    {
      && stackIndex == 0 && regStackIndexPlusOne == 0 && slotMaxAllocatedIndexPlusOne == 0 && numConstants == 0
      && (forall i :: 0 <= i < m3Slots.Length ==> m3Slots[i] == 0)
      && outers == [] && pages == [[]] && page == 0 && patched == map[] && nextId == 1
    }

    ghost predicate Valid()
      reads this, constants
    {
      && wasmStack.Length == typeStack.Length == |live| == MAX_STACK_HEIGHT && stackIndex <= MAX_STACK_HEIGHT
      && m3Slots.Length == MAX_FUNCTION_SLOTS && constants.Length == MAX_CONSTANTS && numConstants <= MAX_CONSTANTS
      && slotMaxAllocatedIndexPlusOne <= MAX_FUNCTION_SLOTS && page < |pages|
      && wasmStack as object != m3Slots as object && wasmStack as object != typeStack as object
      && m3Slots as object != typeStack as object && constants as object !in {wasmStack, m3Slots, typeStack}
      && forall i :: numConstants <= i < MAX_CONSTANTS ==> constants[i] == ZERO
    }

    ghost function Parts(): set<object> {
      {this, wasmStack, typeStack, m3Slots, constants}
    }

    ghost function State(): CState
      requires Valid()
      reads this, wasmStack, typeStack, m3Slots, constants
    {
      CState(layout, Entries(wasmStack[..stackIndex], typeStack[..stackIndex], live[..stackIndex]), m3Slots[..],
             regStackIndexPlusOne, slotMaxAllocatedIndexPlusOne, maxStackSlots, constants[..numConstants], block,
                 outers,
             pages, page, patched, nextId)
    }

    /** What a handler promises: it fails exactly where its function does, and otherwise reaches its state. */
    ghost predicate Did(ok: bool, r: Option<CState>)
      reads this, wasmStack, typeStack, m3Slots, constants
    {
      (ok <==> r.Some?) && (ok ==> Valid() && State() == r.value)
    }

    /** The abstract state shows the scalar fields as they are. */
    lemma Fields()
      requires Valid()
      ensures var c := State();
        && stackIndex == |c.stack| && layout == c.layout && block == c.block && outers == c.outers
        && regStackIndexPlusOne == c.reg && slotMaxAllocatedIndexPlusOne == c.maxAllocated
            && maxStackSlots == c.maxSlots
        && pages == c.pages && page == c.page && nextId == c.nextId && GetPC() == PcOf(c)
    {
    }

    // ----- emission -----

    function GetPC(): PC
      reads this
    {
      PC(layout.fn, page, if page < |pages| then |pages[page]| else 0)
    }

    method EmitOp(op: Op)
      requires Valid()
      modifies this`pages
      ensures Valid() && State() == Emit(old(State()), op)
    {
      pages := pages[page := pages[page] + [op]];
    }

    /** EmitPointer of a pc that is not known yet. */
    method ReservePointer() returns (id: nat)
      requires Valid()
      modifies this`nextId
      ensures Valid() && id == old(nextId) && State() == FreshId(old(State()))
    {
      id := nextId;
      nextId := nextId + 1;
    }

    /** `* jumpTo = GetPC (o)`. */
    method PatchHere(id: nat)
      requires Valid()
      modifies this`patched
      ensures Valid() && State() == Define(old(State()), id)
    {
      patched := patched[id := GetPC()];
    }

    // ----- slots -----

    method TouchSlot(slot: nat)
      requires Valid()
      modifies this`maxStackSlots
      ensures Valid() && State() == Touch(old(State()), slot)
    {
      if maxStackSlots < slot + 1 {
        maxStackSlots := slot + 1;
      }
    }

    method MarkSlotAllocated(slot: nat)
      requires Valid() && slot < MAX_FUNCTION_SLOTS
      modifies m3Slots, this`slotMaxAllocatedIndexPlusOne, this`maxStackSlots
      ensures Valid() && State() == MarkAllocated(old(State()), slot)
    {
      m3Slots[slot] := 1;
      if slotMaxAllocatedIndexPlusOne < slot + 1 {
        slotMaxAllocatedIndexPlusOne := slot + 1;
      }
      TouchSlot(slot);
      assert m3Slots[..] == old(m3Slots[..])[slot := 1];
    }

    method AllocateSlotsWithinRange(from: nat, limit: nat) returns (ok: bool, slot: nat)
      requires Valid() && limit <= MAX_FUNCTION_SLOTS
      modifies m3Slots, this`slotMaxAllocatedIndexPlusOne, this`maxStackSlots
      ensures Valid()
      ensures ok <==> FirstFree(old(State()).usage, from, limit).Some?
      ensures ok ==>
        FirstFree(old(State()).usage, from, limit) == Some(slot) && State() == MarkAllocated(old(State()), slot)
      ensures !ok ==> State() == old(State())
    {
      ghost var usage := State().usage;
      var i := from;
      while i < limit
        invariant from <= i && FirstFree(usage, from, limit) == FirstFree(usage, i, limit)
        invariant Valid() && State() == old(State())
        decreases limit - i
      {
        if m3Slots[i] == 0 {
          assert State().usage[i] == 0;
          MarkSlotAllocated(i);
          return true, i;
        }
        assert State().usage[i] != 0;
        i := i + 1;
      }
      ok, slot := false, 0;
    }

    method AllocateSlots() returns (ok: bool, slot: nat)
      requires Valid()
      modifies m3Slots, this`slotMaxAllocatedIndexPlusOne, this`maxStackSlots
      ensures Valid()
      ensures ok <==> FreeSlot(old(State())).Some?
      ensures ok ==> FreeSlot(old(State())) == Some(slot) && slot < MAX_FUNCTION_SLOTS
                     && State() == MarkAllocated(old(State()), slot)
      ensures !ok ==> State() == old(State())
    {
      ok, slot := AllocateSlotsWithinRange(layout.firstDynamic, MAX_FUNCTION_SLOTS);
    }

    method AllocateConstantSlots() returns (ok: bool, slot: nat)
      requires Valid() && layout.firstDynamic <= MAX_FUNCTION_SLOTS
      modifies m3Slots, this`slotMaxAllocatedIndexPlusOne, this`maxStackSlots
      ensures Valid()
      ensures ok <==> FreeConstantSlot(old(State())).Some?
      ensures ok ==> FreeConstantSlot(old(State())) == Some(slot) && slot < MAX_FUNCTION_SLOTS
                     && State() == MarkAllocated(old(State()), slot)
      ensures !ok ==> State() == old(State())
    {
      var first := layout.FirstConst();
      ok, slot := AllocateSlotsWithinRange(first, Min(layout.firstDynamic, first + MAX_CONSTANTS));
    }

    method DeallocateSlot(slot: nat)
      requires Valid()
      modifies m3Slots
      ensures Valid() && State() == Release(old(State()), slot)
    {
      if slot < MAX_FUNCTION_SLOTS {
        m3Slots[slot] := m3Slots[slot] - 1;
        assert m3Slots[..] == old(m3Slots[..])[slot := old(m3Slots[..])[slot] - 1];
      }
    }

    /** Lowers the maximum over slots that have been freed since. */
    method GetMaxUsedSlotPlusOne() returns (max: nat)
      requires Valid()
      modifies this`slotMaxAllocatedIndexPlusOne
      ensures Valid() && max == TrimMax(old(State()), old(slotMaxAllocatedIndexPlusOne))
      ensures State() == old(State()).(maxAllocated := max)
    {
      while slotMaxAllocatedIndexPlusOne > layout.firstDynamic
        invariant Valid() && State() == old(State()).(maxAllocated := slotMaxAllocatedIndexPlusOne)
        invariant TrimMax(old(State()), old(slotMaxAllocatedIndexPlusOne))
          == TrimMax(old(State()), slotMaxAllocatedIndexPlusOne)
        decreases slotMaxAllocatedIndexPlusOne
      {
        assert m3Slots[slotMaxAllocatedIndexPlusOne - 1] == old(State()).usage[slotMaxAllocatedIndexPlusOne - 1];
        if m3Slots[slotMaxAllocatedIndexPlusOne - 1] != 0 {
          break;
        }
        slotMaxAllocatedIndexPlusOne := slotMaxAllocatedIndexPlusOne - 1;
      }
      max := slotMaxAllocatedIndexPlusOne;
    }

    // ----- the operand stack -----

    /** GetSlotForStackIndex. */
    function SlotAt(i: nat): (slot: nat)
      requires Valid() && i < stackIndex
      reads this, wasmStack, typeStack, m3Slots, constants
      ensures slot == State().stack[i].slot && stackIndex == |State().stack|
    {
      wasmStack[i]
    }

    /** GetStackTypeFromBottom. */
    function TypeAt(i: nat): (ty: ValType)
      requires Valid() && i < stackIndex
      reads this, wasmStack, typeStack, m3Slots, constants
      ensures ty == State().stack[i].ty && stackIndex == |State().stack|
    {
      typeStack[i]
    }

    method Push(ty: ValType, slot: nat) returns (ok: bool)
      requires Valid()
      modifies wasmStack, typeStack, this`stackIndex, this`live, this`regStackIndexPlusOne
      ensures Did(ok, Allocator.Push(old(State()), ty, slot))
    {
      ghost var before := State();
      var i := stackIndex;
      stackIndex := stackIndex + 1;
      if i < MAX_STACK_HEIGHT {
        wasmStack[i] := slot;
        typeStack[i] := ty;
        live := live[i := true];
        if IsAlias(slot) {
          regStackIndexPlusOne := i + 1;
        }
        assert State().stack == before.stack + [Entry.Entry(slot, ty, true)];
        ok := true;
      } else {
        ok := false;
      }
    }

    method PushRegister(ty: ValType) returns (ok: bool)
      requires Valid()
      modifies wasmStack, typeStack, this`stackIndex, this`live, this`regStackIndexPlusOne
      ensures Did(ok, Allocator.PushRegister(old(State()), ty))
    {
      ok := Push(ty, REG0_ALIAS);
    }

    method PushAllocatedSlot(ty: ValType) returns (ok: bool)
      requires Valid()
      modifies Parts()
      ensures Did(ok, PushAllocated(old(State()), ty))
    {
      var slot;
      ok, slot := AllocateSlots();
      if ok {
        ok := Push(ty, slot);
      }
    }

    method Pop() returns (ok: bool)
      requires Valid()
      modifies m3Slots, this`stackIndex, this`regStackIndexPlusOne
      ensures Did(ok, Allocator.Pop(old(State())))
    {
      ghost var before := State();
      if stackIndex > block.base {
        stackIndex := stackIndex - 1;
        var slot := wasmStack[stackIndex];
        assert State().stack == before.stack[..stackIndex] && before.stack[stackIndex].slot == slot;
        if IsAlias(slot) {
          regStackIndexPlusOne := 0;
        } else if slot >= layout.firstDynamic {
          DeallocateSlot(slot);
        }
        ok := true;
      } else {
        ok := block.polymorphic;
      }
    }

    /** What the buffers hold between the stack top and `top`. */
    ghost function Above(top: nat): (r: seq<Entry>)
      requires Valid() && stackIndex <= top <= MAX_STACK_HEIGHT
      reads this, wasmStack, typeStack, constants
      ensures |r| == top - stackIndex
    {
      Entries(wasmStack[stackIndex..top], typeStack[stackIndex..top], live[stackIndex..top])
    }

    lemma AboveIs(height: nat)
      requires Valid() && height <= stackIndex
      ensures State().stack[height..]
        == Entries(wasmStack[height..stackIndex], typeStack[height..stackIndex], live[height..stackIndex])
    {
    }

    /** Readjusts the stack top over popped entries: they stay as records. */
    method KeepRecords(top: nat)
      requires Valid() && stackIndex <= top <= MAX_STACK_HEIGHT
      modifies this`stackIndex, this`live
      ensures Valid() && State() == old(State()).(stack := old(State()).stack + MarkDead(old(Above(top))))
    {
      ghost var before, records := State(), Above(top);
      ghost var was, bottom := live, stackIndex;
      live := seq(MAX_STACK_HEIGHT, i requires 0 <= i < MAX_STACK_HEIGHT => if bottom <= i < top then false
          else was[i]);
      stackIndex := top;
      assert State().stack == before.stack + MarkDead(records);
    }

    /** Readjusts the stack top downwards without releasing anything. */
    method DropTo(height: nat)
      requires Valid() && height <= stackIndex
      modifies this`stackIndex
      ensures Valid() && State() == old(State()).(stack := old(State()).stack[..height])
    {
      ghost var before := State();
      stackIndex := height;
      assert State().stack == before.stack[..height];
    }

    method PopType(ty: ValType) returns (ok: bool)
      requires Valid()
      modifies m3Slots, this`stackIndex, this`regStackIndexPlusOne
      ensures Did(ok, Allocator.PopType(old(State()), ty))
    {
      if block.polymorphic || (stackIndex > |layout.locals| && typeStack[stackIndex - 1] == ty) {
        ok := Pop();
      } else {
        ok := false;
      }
    }

    method UnwindBlockStack() returns (ok: bool)
      requires Valid()
      modifies m3Slots, this`stackIndex, this`regStackIndexPlusOne
      ensures Did(ok, UnwindStack(old(State())))
    {
      while stackIndex > block.base
        invariant Valid() && UnwindStack(State()) == UnwindStack(old(State()))
        decreases stackIndex
      {
        var popped := Pop();
      }
      ok := true;
    }

    method SetStackPolymorphic() returns (ok: bool)
      requires Valid()
      modifies m3Slots, this`stackIndex, this`regStackIndexPlusOne, this`block
      ensures Did(ok, SetPolymorphic(old(State())))
    {
      block := block.(polymorphic := true);
      ok := UnwindBlockStack();
    }

    // ----- the register -----

    method PreserveRegisterIfOccupied() returns (ok: bool)
      requires Valid() && regStackIndexPlusOne <= stackIndex
      modifies Parts()
      ensures Did(ok, PreserveRegister(old(State())))
      ensures stackIndex == old(stackIndex) && typeStack[..] == old(typeStack[..])
      ensures forall k :: 0 <= k < stackIndex && k + 1 != old(regStackIndexPlusOne) ==>
        wasmStack[k] == old(wasmStack[k])
    {
      hide FirstFree, Emit;
      ghost var before := State();
      if regStackIndexPlusOne == 0 {
        return true;
      }
      var i := regStackIndexPlusOne - 1;
      regStackIndexPlusOne := 0;
      var ty := typeStack[i];
      var slot;
      ok, slot := AllocateSlots();
      if ok {
        MoveEntry(i, slot);
        EmitOp(SetSlot(ty, slot));
      }
    }

    /** `wasmStack [i] = slot`. */
    method MoveEntry(i: nat, slot: nat)
      requires Valid() && i < stackIndex
      modifies wasmStack
      ensures Valid()
      ensures var c := old(State()); i < |c.stack| && State() == c.(stack := c.stack[i := c.stack[i].(slot := slot)])
      ensures forall k :: 0 <= k < stackIndex && k != i ==> wasmStack[k] == old(wasmStack[k])
    {
      wasmStack[i] := slot;
      assert State().stack == old(State().stack)[i := old(State().stack)[i].(slot := slot)];
    }

    method PreserveNonTopRegisters() returns (ok: bool)
      requires Valid() && regStackIndexPlusOne <= stackIndex
      modifies Parts()
      ensures Did(ok, PreserveNonTopRegister(old(State())))
    {
      ok := true;
      if regStackIndexPlusOne != 0 && regStackIndexPlusOne != stackIndex {
        ok := PreserveRegisterIfOccupied();
      }
    }

    // ----- copies -----

    method CopyStackIndexToSlot(dst: nat, i: nat)
      requires Valid() && i < stackIndex
      modifies this`pages
      ensures Valid() && State() == CopyIndexToSlot(old(State()), dst, i)
    {
      EmitOp(if IsAlias(wasmStack[i]) then SetSlot(typeStack[i], dst) else CopySlot(typeStack[i], dst, wasmStack[i]));
    }

    method CopyStackTopToSlot(dst: nat) returns (ok: bool)
      requires Valid()
      modifies this`pages
      ensures Did(ok, CopyTopToSlot(old(State()), dst))
    {
      ok := stackIndex > 0;
      if ok {
        CopyStackIndexToSlot(dst, stackIndex - 1);
      }
    }

    method PreservedCopyTopSlot(dst: nat, preserve: nat) returns (ok: bool)
      requires Valid()
      modifies this`pages
      ensures Did(ok, PreservedCopyTop(old(State()), dst, preserve))
    {
      ok := stackIndex > 0;
      if ok {
        var slot, ty := wasmStack[stackIndex - 1], typeStack[stackIndex - 1];
        EmitOp(if IsAlias(slot) then PreserveSetSlot(ty, dst, preserve) else PreserveCopySlot(ty, dst, slot, preserve));
      }
    }

    method CopyStackTopToRegister() returns (ok: bool)
      requires Valid() && regStackIndexPlusOne <= stackIndex
      requires stackIndex > 0 && !IsAlias(wasmStack[stackIndex - 1]) ==> regStackIndexPlusOne != stackIndex
      modifies Parts()
      ensures Did(ok, CopyTopToRegister(old(State())))
    {
      hide PreserveRegister;
      ok := stackIndex > 0;
      if ok && !IsAlias(wasmStack[stackIndex - 1]) {
        ok := PreserveRegisterIfOccupied();
        if ok {
          EmitOp(SetRegister(typeStack[stackIndex - 1], wasmStack[stackIndex - 1]));
        }
      }
    }

    /** Saves the first later value that still lives in `dst`. */
    method SaveCollision(dst: nat, i: nat, end: nat, temp: nat) returns (ok: bool, j: nat)
      requires Valid() && i < end <= stackIndex
      modifies wasmStack, this`pages, this`maxStackSlots
      ensures j == FirstCollision(old(State()).stack, dst, i + 1, end)
      ensures ok <==> j == end || temp < MAX_FUNCTION_SLOTS
      ensures ok ==> Valid() && State() == Saved(old(State()), j, end, temp)
    {
      ghost var before := State();
      j := i + 1;
      while j < end && wasmStack[j] != dst
        invariant i < j <= end
          && FirstCollision(before.stack, dst, i + 1, end) == FirstCollision(before.stack, dst, j, end)
      {
        j := j + 1;
      }
      ok := j == end || temp < MAX_FUNCTION_SLOTS;
      if j < end && ok {
        CopyStackIndexToSlot(temp, j);
        wasmStack[j] := temp;
        assert State().stack == before.stack[j := before.stack[j].(slot := temp)];
        TouchSlot(temp);
      }
    }

    /** Puts an entry's slot back. */
    method Restore(i: nat, slot: nat)
      requires Valid() && i < stackIndex
      modifies wasmStack
      ensures Valid() && State()
        == old(State()).(stack := old(State()).stack[i := old(State()).stack[i].(slot := slot)])
    {
      ghost var before := State();
      wasmStack[i] := slot;
      assert State().stack == before.stack[i := before.stack[i].(slot := slot)];
    }

    /** The parallel move; on success the stack is restored on the way back. */
    method CopyStackSlotsR(target: nat, i: nat, end: nat, temp: nat) returns (ok: bool)
      requires Valid() && end <= stackIndex && target + (end - i) <= stackIndex
      modifies wasmStack, this`pages, this`maxStackSlots
      ensures Did(ok, Allocator.CopyStackSlotsR(old(State()), target, i, end, temp))
      decreases if i < end then end - i else 0
    {
      hide CopyIndexToSlot, State, Allocator.CopyStackSlotsR, MovedOne, MovedBack;
      ghost var c := State();
      Fields();
      ok := true;
      if i >= end {
        MoveNothing(c, target, i, end, temp);
      } else {
        var src, dst := SlotAt(i), SlotAt(target);
        ghost var first := FirstCollision(c.stack, dst, i + 1, end);
        MoveEquation(c, target, i, end, temp);
        if dst == src {
          ok := CopyStackSlotsR(target + 1, i + 1, end, temp);
          if ok {
            PutBack(i, end, end, src, dst);
          }
        } else {
          var j;
          ok, j := SaveCollision(dst, i, end, temp);
          if ok {
            MoveOne(c, i, j, end, dst, temp);
            ok := CopyStackSlotsR(target + 1, i + 1, end, if j < end then temp + 1 else temp);
            if ok {
              PutBack(i, j, end, src, dst);
            }
          }
        }
      }
    }

    method MoveOne(ghost c: CState, i: nat, j: nat, end: nat, dst: nat, ghost temp: nat)
      requires Valid() && i < end <= stackIndex && j <= end <= |c.stack| && State() == Saved(c, j, end, temp)
      modifies wasmStack, this`pages
      ensures Valid() && State() == MovedOne(c, i, j, end, dst, temp)
    {
      CopyStackIndexToSlot(dst, i);
      Restore(i, dst);
    }

    method PutBack(i: nat, j: nat, end: nat, src: nat, dst: nat)
      requires Valid() && i < end <= stackIndex && j <= end
      modifies wasmStack
      ensures Valid() && State() == MovedBack(old(State()), i, j, end, src, dst)
    {
      Restore(i, src);
      if j < end {
        Restore(j, dst);
      }
    }

    // ----- copy-on-write locals -----

    /** Where the search starts: enclosing plain blocks are looked through. */
    method SearchStart() returns (start: nat)
      requires Valid()
      ensures start == ScanStart(outers, block)
    {
      var scope, k := block, |outers|;
      assert outers[..k] == outers;
      while scope.kind == BlockScope && k > 0
        invariant k <= |outers| && ScanStart(outers, block) == ScanStart(outers[..k], scope)
        decreases k
      {
        k := k - 1;
        scope := outers[k];
        assert outers[..k + 1][..k] == outers[..k];
      }
      start := scope.base;
    }

    function UsageAt(slot: nat): (n: int)
      requires Valid() && slot < MAX_FUNCTION_SLOTS
      reads this, wasmStack, typeStack, m3Slots, constants
      ensures n == State().usage[slot]
    {
      m3Slots[slot]
    }

    /** One more operand refers to the preserved value. */
    method RedirectEntry(i: nat, preserved: nat)
      requires Valid() && i < stackIndex && preserved < MAX_FUNCTION_SLOTS
      modifies wasmStack, m3Slots
      ensures Valid()
      ensures var c := old(State());
        State() == c.(usage := c.usage[preserved := c.usage[preserved] + 1],
            stack := c.stack[i := c.stack[i].(slot := preserved)])
    {
      ghost var before := State();
      m3Slots[preserved] := m3Slots[preserved] + 1;
      wasmStack[i] := preserved;
      assert State().stack == before.stack[i := before.stack[i].(slot := preserved)];
      assert State().usage == before.usage[preserved := before.usage[preserved] + 1];
    }

    /** The first operand that refers to the local gets the slot everything else will share. */
    method RedirectFirst(i: nat) returns (ok: bool, preserved: nat)
      requires Valid() && i < stackIndex
      modifies Parts()
      ensures ok <==> FreeSlot(old(State())).Some?
      ensures ok ==>
        && FreeSlot(old(State())) == Some(preserved) && preserved < MAX_FUNCTION_SLOTS && Valid()
        && State() == MarkAllocated(old(State()), preserved).(stack :=
             old(State()).stack[i := old(State()).stack[i].(slot := preserved)])
    {
      ok, preserved := AllocateSlots();
      if ok {
        Restore(i, preserved);
      }
    }

    /** One entry of the search. */
    method SearchEntry(i: nat, slot: nat, kept: nat, ghost c: CState, ghost from: nat, ghost n: nat)
      returns (ok: bool, preserved: nat, ghost found: nat)
      requires Valid() && Searched(c, from, i, slot, kept, n, State()) && from <= i < |c.stack|
      requires from == ScanStart(c.outers, c.block) && slot < c.layout.firstDynamic
      modifies Parts()
      ensures ok ==> Valid() && Searched(c, from, i + 1, slot, preserved, found, State())
      ensures !ok ==> FindReferencedLocal(c, slot).None?
    {
      hide MarkAllocated, State, Redirecting, FindReferencedLocal, References, ScanStart, FirstFree;
      Fields();
      ReferencesStep(c.stack, from, slot, i);
      RedirectingAt(c, from, i, slot, kept, n);
      ok, preserved, found := true, kept, n;
      if SlotAt(i) == slot {
        if kept == slot {
          ok, preserved := RedirectFirst(i);
          if !ok {
            NoRoom(c, from, slot, i + 1);
            return;
          }
        } else {
          if UsageAt(kept) >= MAX_USAGE {
            TooMany(c, from, slot, i + 1);
            return false, kept, n;
          }
          RedirectEntry(i, kept);
        }
        found := n + 1;
        RedirectingStep(c, from, i, slot, preserved, found);
      } else if n > 0 {
        RedirectingSkip(c, from, i, slot, kept, n);
      }
    }

    method FindReferencedLocalWithinCurrentBlock(slot: nat) returns (ok: bool, preserved: nat)
      requires Valid() && slot < layout.firstDynamic
      modifies Parts()
      ensures Did(ok, if FindReferencedLocal(old(State()), slot).Some?
        then Some(FindReferencedLocal(old(State()), slot).value.0) else None)
      ensures ok ==> FindReferencedLocal(old(State()), slot).value.1 == preserved
    {
      hide State, FindReferencedLocal, ScanStart, Searched;
      ghost var before := State();
      Fields();
      var start := SearchStart();
      ok, preserved := true, slot;
      var i := start;
      ghost var n := 0;
      SearchedNothing(before, start, slot);
      while i < stackIndex
        invariant Valid() && start <= i && stackIndex == |before.stack|
        invariant start <= |before.stack| ==> i <= |before.stack|
        invariant Searched(before, start, if i <= |before.stack| then i
          else |before.stack|, slot, preserved, n, State())
        decreases stackIndex - i
      {
        ok, preserved, n := SearchEntry(i, slot, preserved, before, start, n);
        if !ok {
          return;
        }
        Fields();
        SearchedSize(before, start, i + 1, slot, preserved, n, State());
        i := i + 1;
      }
      RedirectingDone(before, start, slot, preserved, n, State());
    }
  }

  /** The search for references to a local has passed the first `i` entries and found `n`. */
  ghost predicate Searched(c: CState, from: nat, i: nat, slot: nat, preserved: nat, n: nat, now: CState) {
    && i <= |c.stack| && n == References(c.stack[..i], from, slot) && n <= MAX_USAGE
    && (n == 0 ==> preserved == slot && now == c)
    && (n > 0 ==> FreeSlot(c) == Some(preserved) && slot < preserved < MAX_FUNCTION_SLOTS
                  && now == Redirecting(c, from, i, slot, preserved, n))
  }

  lemma SearchedNothing(c: CState, from: nat, slot: nat)
    ensures Searched(c, from, if from <= |c.stack| then from else |c.stack|, slot, slot, 0, c)
  {
    ReferencesBelow(c.stack, from, slot);
  }

  lemma SearchedSize(c: CState, from: nat, i: nat, slot: nat, preserved: nat, n: nat, now: CState)
    requires Searched(c, from, i, slot, preserved, n, now)
    ensures |now.stack| == |c.stack|
  {
  }

  /** The state once a value that lives in the way has been moved to the temporary. */
  ghost function Saved(c: CState, j: nat, end: nat, temp: nat): CState
    requires j <= end <= |c.stack|
  {
    if j < end then Touch(CopyIndexToSlot(c, temp, j).(stack := c.stack[j := c.stack[j].(slot := temp)]), temp) else c
  }

  /** ... and the first value has been moved. */
  ghost function MovedOne(c: CState, i: nat, j: nat, end: nat, dst: nat, temp: nat): (d: CState)
    requires i < end <= |c.stack| && j <= end
    ensures |d.stack| == |c.stack|
  {
    var copied := CopyIndexToSlot(Saved(c, j, end, temp), dst, i);
    copied.(stack := copied.stack[i := copied.stack[i].(slot := dst)])
  }

  /** The slots of the moved and of the saved entry are put back. */
  ghost function MovedBack(c: CState, i: nat, j: nat, end: nat, src: nat, dst: nat): (d: CState)
    requires i < end <= |c.stack| && j <= end
    ensures |d.stack| == |c.stack|
  {
    var back := c.stack[i := c.stack[i].(slot := src)];
    c.(stack := if j < end then back[j := back[j].(slot := dst)] else back)
  }

  lemma {:induction false} MoveNothing(c: CState, target: nat, i: nat, end: nat, temp: nat)
    requires i >= end && end <= |c.stack| && target + (end - i) <= |c.stack|
    ensures Allocator.CopyStackSlotsR(c, target, i, end, temp) == Some(c)
  {
  }

  /** One level of the recursion. */
  lemma {:induction false} MoveEquation(c: CState, target: nat, i: nat, end: nat, temp: nat)
    requires i < end <= |c.stack| && target + (end - i) <= |c.stack|
    ensures var src, dst := c.stack[i].slot, c.stack[target].slot;
      var j := if src == dst then end else FirstCollision(c.stack, dst, i + 1, end);
      var d := if src == dst then c else MovedOne(c, i, j, end, dst, temp);
      var rest := Allocator.CopyStackSlotsR(d, target + 1, i + 1, end, if j < end then temp + 1 else temp);
      Allocator.CopyStackSlotsR(c, target, i, end, temp)
      == if (j < end && temp >= MAX_FUNCTION_SLOTS) || rest.None? then None
         else Some(MovedBack(rest.value, i, j, end, src, dst))
  {
  }

  /** The state in which the first `upto` entries have been searched and `n` references redirected. */
  ghost function Redirecting(c: CState, from: nat, upto: nat, slot: nat, kept: nat, n: nat): (d: CState)
    requires upto <= |c.stack| && kept < MAX_FUNCTION_SLOTS
    ensures |d.stack| == |c.stack|
  {
    var marked := MarkAllocated(c, kept);
    marked.(usage := marked.usage[kept := n], stack := Redirect(c.stack[..upto], from, slot, kept) + c.stack[upto..])
  }

  lemma RedirectingAt(c: CState, from: nat, i: nat, slot: nat, kept: nat, n: nat)
    requires from <= i < |c.stack|
    ensures kept < MAX_FUNCTION_SLOTS ==>
      Redirecting(c, from, i, slot, kept, n).stack[i] == c.stack[i]
          && Redirecting(c, from, i, slot, kept, n).usage[kept] == n
  {
  }

  /** Redirecting one more entry. */
  lemma RedirectingStep(c: CState, from: nat, i: nat, slot: nat, kept: nat, n: nat)
    requires from <= i < |c.stack| && kept < MAX_FUNCTION_SLOTS && c.stack[i].slot == slot && n > 0
    ensures var next := Redirecting(c, from, i + 1, slot, kept, n);
      && next.stack == Redirecting(c, from, i, slot, kept, n - 1).stack[i := c.stack[i].(slot := kept)]
      && next == Redirecting(c, from, i, slot, kept, n - 1).(usage := next.usage, stack := next.stack)
      && next.usage == Redirecting(c, from, i, slot, kept, n - 1).usage[kept := n]
      && (n == 1 && References(c.stack[..i], from, slot) == 0 ==>
          next == MarkAllocated(c, kept).(stack := c.stack[i := c.stack[i].(slot := kept)]))
  {
    if n == 1 && References(c.stack[..i], from, slot) == 0 {
      NoneRedirected(c.stack[..i], from, slot, kept);
      assert Redirect(c.stack[..i + 1], from, slot, kept) + c.stack[i + 1..] == c.stack[i := c.stack[i].(slot := kept)];
      assert MarkAllocated(c, kept).usage[kept := 1] == MarkAllocated(c, kept).usage;
    }
  }

  lemma {:induction false} NoneRedirected(stack: seq<Entry>, from: nat, slot: nat, kept: nat)
    requires References(stack, from, slot) == 0
    ensures Redirect(stack, from, slot, kept) == stack
  {
    ReferencesZero(stack, from, slot);
  }

  lemma RedirectingSkip(c: CState, from: nat, i: nat, slot: nat, kept: nat, n: nat)
    requires from <= i < |c.stack| && kept < MAX_FUNCTION_SLOTS && c.stack[i].slot != slot
    ensures Redirecting(c, from, i + 1, slot, kept, n) == Redirecting(c, from, i, slot, kept, n)
  {
    assert Redirecting(c, from, i + 1, slot, kept, n).stack == Redirecting(c, from, i, slot, kept, n).stack;
  }

  lemma {:induction false} ReferencesStep(stack: seq<Entry>, from: nat, slot: nat, i: nat)
    requires from <= i < |stack|
    ensures References(stack[..i + 1], from, slot) == References(stack[..i], from, slot) + if stack[i].slot == slot
      then 1 else 0
    ensures References(stack[..i + 1], from, slot) <= References(stack, from, slot)
  {
    assert stack[..i + 1][..i] == stack[..i];
    ReferencesGrow(stack, from, slot, i + 1);
  }

  /** When the whole stack has been searched. */
  lemma {:induction false} RedirectingDone(c: CState, from: nat, slot: nat, kept: nat, n: nat, now: CState)
    requires Searched(c, from, |c.stack|, slot, kept, n, now) && from == ScanStart(c.outers, c.block)
    ensures FindReferencedLocal(c, slot) == Some((now, kept))
  {
    assert c.stack[..|c.stack|] == c.stack;
    if n > 0 {
      assert Redirecting(c, from, |c.stack|, slot, kept, n).stack == Redirect(c.stack, from, slot, kept);
    }
  }

  lemma NoRoom(c: CState, from: nat, slot: nat, upto: nat)
    requires from == ScanStart(c.outers, c.block) && FreeSlot(c).None? && References(c.stack, from, slot) > 0
    ensures FindReferencedLocal(c, slot).None?
  {
  }

  lemma TooMany(c: CState, from: nat, slot: nat, upto: nat)
    requires from == ScanStart(c.outers, c.block) && References(c.stack, from, slot) > MAX_USAGE
    ensures FindReferencedLocal(c, slot).None?
  {
  }

  lemma {:induction false} ReferencesBelow(stack: seq<Entry>, from: nat, slot: nat)
    ensures forall upto :: 0 <= upto <= |stack| && upto <= from ==> References(stack[..upto], from, slot) == 0
    ensures |stack| <= from ==> References(stack, from, slot) == 0
  {
  }

  lemma {:induction false} ReferencesGrow(stack: seq<Entry>, from: nat, slot: nat, upto: nat)
    requires upto <= |stack|
    ensures References(stack[..upto], from, slot) <= References(stack, from, slot)
    decreases |stack|
  {
    if upto == |stack| {
      assert stack[..upto] == stack;
    } else {
      var shorter := stack[..|stack| - 1];
      assert shorter[..upto] == stack[..upto];
      ReferencesGrow(shorter, from, slot, upto);
      ReferencesBelow(stack, from, slot);
    }
  }
}
