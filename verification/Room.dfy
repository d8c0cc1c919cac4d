/** As long as the operands a body needs fit below the limits, the allocator always finds a slot, and finds it near. */
module Room {
  import opened Words
  import opened IntegerOps
  import opened Wasm
  import opened Machine
  import opened Allocator
  import opened Compiler
  import opened Invariant
  import opened CompilerInvariant
  import opened Needs

  // ----- the pigeonhole principle -----

  /** Live operands in the slots from `lo` up to `hi`. */
  function InSlots(stack: seq<Entry>, lo: nat, hi: nat): nat {
    var n := |stack|;
    if n == 0 then 0
    else
      InSlots(stack[..n - 1], lo, hi)
      + if stack[n - 1].live && lo <= stack[n - 1].slot < hi then 1 else 0
  }

  lemma {:induction false} OneSlotMore(stack: seq<Entry>, lo: nat, hi: nat)
    requires lo <= hi
    ensures InSlots(stack, lo, hi + 1) == InSlots(stack, lo, hi) + Count(stack, hi)
  {
    if stack != [] {
      OneSlotMore(stack[..|stack| - 1], lo, hi);
    }
  }

  lemma {:induction false} NoSlots(stack: seq<Entry>, lo: nat)
    ensures InSlots(stack, lo, lo) == 0
  {
    if stack != [] {
      NoSlots(stack[..|stack| - 1], lo);
    }
  }

  /** Slots that are all in use need as many operands. */
  lemma {:induction false} UsedSlots(stack: seq<Entry>, lo: nat, hi: nat)
    requires lo <= hi && forall s :: lo <= s < hi ==> Count(stack, s) > 0
    ensures hi - lo <= InSlots(stack, lo, hi)
    decreases hi
  {
    if lo == hi {
      NoSlots(stack, lo);
    } else {
      UsedSlots(stack, lo, hi - 1);
      OneSlotMore(stack, lo, hi - 1);
    }
  }

  /** The first `n` operands live elsewhere. */
  lemma {:induction false} SlotsAbove(stack: seq<Entry>, lo: nat, hi: nat, n: nat)
    requires n <= |stack| && forall i :: 0 <= i < n ==> !(lo <= stack[i].slot < hi)
    ensures InSlots(stack, lo, hi) <= |stack| - n
  {
    if |stack| > n {
      SlotsAbove(stack[..|stack| - 1], lo, hi, n);
    } else if n > 0 {
      SlotsAbove(stack[..n - 1], lo, hi, n - 1);
    }
  }

  /** ... and so does operand `j`. */
  lemma {:induction false} SlotsBut(stack: seq<Entry>, lo: nat, hi: nat, n: nat, j: nat)
    requires n <= j < |stack| && forall i :: 0 <= i < n || i == j ==> !(lo <= stack[i].slot < hi)
    ensures InSlots(stack, lo, hi) < |stack| - n
  {
    if j < |stack| - 1 {
      SlotsBut(stack[..|stack| - 1], lo, hi, n, j);
    } else {
      SlotsAbove(stack[..|stack| - 1], lo, hi, n);
    }
  }

  /** With fewer than `h` operands in dynamic slots, one of the first `h` dynamic slots is free. */
  lemma {:induction false} FreeNear(c: CState, h: nat)
    requires Inv(c) && InSlots(c.stack, c.layout.firstDynamic, MAX_FUNCTION_SLOTS) < h
    requires c.layout.firstDynamic + h <= MAX_FUNCTION_SLOTS
    ensures FreeSlot(c).Some? && FreeSlot(c).value < c.layout.firstDynamic + h
  {
    var fd := c.layout.firstDynamic;
    if FreeSlot(c).None? || FreeSlot(c).value >= fd + h {
      UsedSlots(c.stack, fd, fd + h);
      InFewerSlots(c.stack, fd, fd + h, MAX_FUNCTION_SLOTS);
    }
  }

  lemma {:induction false} InFewerSlots(stack: seq<Entry>, lo: nat, hi: nat, end: nat)
    requires hi <= end
    ensures InSlots(stack, lo, hi) <= InSlots(stack, lo, end)
  {
    if stack != [] {
      InFewerSlots(stack[..|stack| - 1], lo, hi, end);
    }
  }

  // ----- operands and their slots -----

  /** The literal limits leave room for `lim`. */
  predicate Enough(l: Layout, lim: Need) {
    && lim.height > 0 && lim.refs <= MAX_USAGE
    && |l.locals| + lim.height <= MAX_STACK_HEIGHT
    && l.firstDynamic + lim.height + lim.reach <= MAX_FUNCTION_SLOTS
  }

  /** The operand has the type, refers to the local if to any, and its slot is among the near ones or within reach. */
  predicate EntryFits(l: Layout, lim: Need, e: Entry, o: Operand) {
    && e.ty == o.ty
    && (IsLocal(l, e.slot) ==> o.local == Some(e.slot - l.numRets))
    && (IsDynamic(l, e.slot) ==> e.slot < l.firstDynamic + lim.height + o.reach)
  }

  /** The operands of the current block are `ops`; those of the enclosing ones reach no farther than `below`. */
  ghost predicate StackFits(l: Layout, lim: Need, stack: seq<Entry>, base: nat, ops: seq<Operand>, below: nat) {
    && |stack| == base + |ops|
    && (forall i :: 0 <= i < |ops| ==> EntryFits(l, lim, stack[base + i], ops[i]))
    && forall i :: |l.locals| <= i < base ==>
      IsDynamic(l, stack[i].slot) ==> stack[i].slot < l.firstDynamic + lim.height + below
  }

  lemma FitsDropped(l: Layout, lim: Need, stack: seq<Entry>, base: nat, ops: seq<Operand>, below: nat, k: nat)
    requires StackFits(l, lim, stack, base, ops, below) && k <= |ops|
    ensures StackFits(l, lim, stack[..|stack| - k], base, Without(ops, k), below)
  {
  }

  lemma FitsPushed(l: Layout, lim: Need, stack: seq<Entry>, base: nat, ops: seq<Operand>, below: nat, e: Entry,
                   o: Operand)
    requires StackFits(l, lim, stack, base, ops, below) && EntryFits(l, lim, e, o)
    ensures StackFits(l, lim, stack + [e], base, ops + [o], below)
  {
  }

  /** The register, or a slot that was free, holds a plain operand. */
  lemma PlainFits(l: Layout, lim: Need, slot: nat, ty: ValType)
    requires l.FirstConst() <= l.firstDynamic <= MAX_FUNCTION_SLOTS
    requires slot >= l.FirstConst()
    requires IsDynamic(l, slot) ==> slot < l.firstDynamic + lim.height
    ensures EntryFits(l, lim, Entry.Entry(slot, ty, true), Plain(ty))
  {
  }
}
