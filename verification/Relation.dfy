/** The relation between a compile-time state and a running machine, and how the allocator's primitives and the straight
    line operations move along it.
 */
module Relation {
  import opened Words
  import opened IntegerOps
  import opened Machine
  import opened Allocator
  import opened Compiler
  import opened Invariant
  import opened CompilerInvariant
  import opened BlockInvariant

  // ----- linked code -----

  /** The finished code of a function contains everything state `c` has emitted so far. */
  ghost predicate Within(c: CState, k: Code) {
    && |c.pages| <= |k.pages|
    && (forall p :: 0 <= p < |c.pages| ==> c.pages[p] <= k.pages[p])
    && (forall id <- c.patched :: id in k.patched && k.patched[id] == c.patched[id])
    && c.consts <= k.consts
    && c.maxSlots <= k.maxStackSlots
    && k.slotFirstConst == c.layout.FirstConst()
    && c.layout.FirstConst() + |k.consts| <= c.layout.firstDynamic
  }

  ghost predicate Linked(p: Program, c: CState) {
    c.layout.fn < |p.codes| && Within(c, p.codes[c.layout.fn])
  }

  function CodeFor(p: Program, c: CState): Code
    requires c.layout.fn < |p.codes|
  {
    p.codes[c.layout.fn]
  }

  /** Code that contains a later state contains the earlier ones. */
  lemma LinkedBefore(p: Program, c: CState, d: CState)
    requires Inv(c) && GrowsAnyPage(c, d) && Linked(p, d)
    ensures Linked(p, c)
  {
  }

  lemma FetchEmitted(p: Program, c: CState, op: Op)
    requires Inv(c) && Linked(p, Emit(c, op))
    ensures Fetch(p, PcOf(c)) == Some(op)
  {
    var d := Emit(c, op);
    var line := |c.pages[c.page]|;
    assert d.pages[c.page][line] == op;
  }

  // ----- operands -----

  function ValueAt(slot: nat, sp: nat, mem: Memory, r0: Word): Word {
    if IsAlias(slot) then r0 else Get(mem, sp + slot)
  }

  /** A live entry denotes its operand; a dead one denotes nothing. */
  ghost predicate EntryHolds(e: Entry, v: Option<Val>, sp: nat, mem: Memory, r0: Word) {
    && (v.Some? <==> e.live)
    && (v.Some? ==> v.value.Type() == e.ty && Holds(ValueAt(e.slot, sp, mem, r0), v.value))
  }

  ghost predicate StackHolds(stack: seq<Entry>, vals: seq<Option<Val>>, sp: nat, mem: Memory, r0: Word) {
    && |stack| == |vals|
    && forall i :: 0 <= i < |stack| ==> EntryHolds(stack[i], vals[i], sp, mem, r0)
  }

  /** The constants that op_Entry copied are in their slots. */
  ghost predicate ConstsHold(p: Program, l: Layout, sp: nat, mem: Memory)
    requires l.fn < |p.codes|
  {
    var consts := p.codes[l.fn].consts;
    forall i :: 0 <= i < |consts| ==> Get(mem, sp + l.FirstConst() + i) == consts[i]
  }

  /** The machine is about to run what is compiled after state `c`, and the operands are where `c` says. */
  ghost predicate Match(p: Program, c: CState, s: State, vals: seq<Option<Val>>) {
    && c.layout.fn < |p.codes|
    && s.Running? && s.pc == PcOf(c)
    && StackHolds(c.stack, vals, s.sp, s.mem, s.r0)
    && ConstsHold(p, c.layout, s.sp, s.mem)
  }

  /** Nothing below the frame changes. */
  ghost predicate Below(sp: nat, m: Memory, n: Memory) {
    forall a: nat {:trigger Get(n, a)} :: a < sp ==> Get(n, a) == Get(m, a)
  }

  /** A run of `n` steps that stays in its frame and enters no loop. */
  ghost predicate Straight(p: Program, s: State, n: nat, t: State) {
    && s.Running? && t == Steps(p, n, s)
    && t.Running? && t.sp == s.sp && t.frames == s.frames && Below(s.sp, s.mem, t.mem)
  }

  lemma StraightTrans(p: Program, s: State, m: nat, t: State, n: nat, u: State)
    requires Straight(p, s, m, t) && Straight(p, t, n, u)
    ensures Straight(p, s, m + n, u)
  {
    StepsCompose(p, m, n, s);
  }

  lemma OneStep(p: Program, s: State)
    requires s.Running?
    ensures Steps(p, 1, s) == Step(p, s)
  {
    assert Steps(p, 0, Step(p, s)) == Step(p, s);
  }

  // ----- writes -----

  /** Writing a slot no live operand names. */
  lemma WriteUnused(stack: seq<Entry>, vals: seq<Option<Val>>, sp: nat, m: Memory, n: Memory, r0: Word, d: nat)
    requires StackHolds(stack, vals, sp, m, r0)
    requires forall a: nat {:trigger Get(n, a)} :: a != sp + d ==> Get(n, a) == Get(m, a)
    requires forall i :: 0 <= i < |stack| && stack[i].live && !IsAlias(stack[i].slot) ==> stack[i].slot != d
    ensures StackHolds(stack, vals, sp, n, r0)
  {
    forall i | 0 <= i < |stack|
      ensures EntryHolds(stack[i], vals[i], sp, n, r0)
    {
      assert EntryHolds(stack[i], vals[i], sp, m, r0);
    }
  }

  lemma WriteKeepsConsts(p: Program, c: CState, sp: nat, m: Memory, n: Memory, d: nat)
    requires Linked(p, c) && ConstsHold(p, c.layout, sp, m)
    requires forall a: nat {:trigger Get(n, a)} :: a != sp + d ==> Get(n, a) == Get(m, a)
    requires d < c.layout.FirstConst() || d >= c.layout.firstDynamic
    ensures ConstsHold(p, c.layout, sp, n)
  {
  }

  /** A free slot is named by no operand. */
  lemma FreeUnused(c: CState, d: nat)
    requires Inv(c) && c.layout.firstDynamic <= d < MAX_FUNCTION_SLOTS && c.usage[d] == 0
    ensures forall i :: 0 <= i < |c.stack| && c.stack[i].live ==> c.stack[i].slot != d
  {
    CountZero(c.stack, d);
  }

  /** Storing a typed value over a slot makes it hold the value. */
  lemma StoreHolds(was: Word, ty: ValType, w: Word, v: Val)
    requires Holds(w, v) && v.Type() == ty
    ensures Holds(Store(was, ty, w), v)
  {
  }

  lemma LoadHolds(ty: ValType, w: Word, v: Val)
    requires Holds(w, v) && v.Type() == ty
    ensures Holds(LoadSigned(ty, w), v)
  {
  }

  /** One operand changes place. */
  lemma Relocated(stack: seq<Entry>, vals: seq<Option<Val>>, sp: nat, m: Memory, r0: Word, i: nat, slot: nat)
    requires StackHolds(stack, vals, sp, m, r0) && i < |stack| && stack[i].live
    requires Holds(ValueAt(slot, sp, m, r0), vals[i].value)
    ensures StackHolds(stack[i := stack[i].(slot := slot)], vals, sp, m, r0)
  {
    var moved := stack[i := stack[i].(slot := slot)];
    forall k | 0 <= k < |moved|
      ensures EntryHolds(moved[k], vals[k], sp, m, r0)
    {
      assert EntryHolds(stack[k], vals[k], sp, m, r0);
    }
  }

  // ----- spilling the register -----

  lemma PreserveRegisterSim(p: Program, c: CState, s: State, vals: seq<Option<Val>>) returns (n: nat, t: State)
    requires Inv(c) && PreserveRegister(c).Some? && Linked(p, PreserveRegister(c).value) && Match(p, c, s, vals)
    ensures Straight(p, s, n, t) && Match(p, PreserveRegister(c).value, t, vals)
  {
    var d := PreserveRegister(c).value;
    PreserveRegisterOk(c);
    LinkedBefore(p, c, d);
    if c.reg == 0 {
      n, t := 0, s;
    } else {
      var i := c.reg - 1;
      var slot := FreeSlot(c).value;
      var ty := c.stack[i].ty;
      var moved := MarkAllocated(c.(reg := 0), slot).(stack := c.stack[i := c.stack[i].(slot := slot)]);
      MovedOk(c, moved, i, slot);
      FetchEmitted(p, moved, SetSlot(ty, slot));
      FreeUnused(c, slot);
      assert EntryHolds(c.stack[i], vals[i], s.sp, s.mem, s.r0);
      OneStep(p, s);
      n, t := 1, Step(p, s);
      WriteUnused(c.stack, vals, s.sp, s.mem, t.mem, s.r0, slot);
      WriteKeepsConsts(p, c, s.sp, s.mem, t.mem, slot);
      StoreHolds(Get(s.mem, s.sp + slot), ty, s.r0, vals[i].value);
      Relocated(c.stack, vals, s.sp, t.mem, s.r0, i, slot);
      EmitOk(moved, SetSlot(ty, slot));
    }
  }

  // ----- copy-on-write locals -----

  /** Copying a local to the slot its references were redirected to. */
  lemma RedirectHolds(p: Program, c: CState, slot: nat, vals: seq<Option<Val>>, sp: nat, m: Memory, r0: Word)
    requires Inv(c) && Linked(p, c) && IsLocal(c.layout, slot) && FindReferencedLocal(c, slot).Some?
    requires FindReferencedLocal(c, slot).value.1 != slot
    requires StackHolds(c.stack, vals, sp, m, r0) && ConstsHold(p, c.layout, sp, m)
    ensures var (found, kept) := FindReferencedLocal(c, slot).value;
      var n := SetTyped(m, sp + kept, c.layout.locals[slot - c.layout.numRets], Get(m, sp + slot));
      StackHolds(found.stack, vals, sp, n, r0) && ConstsHold(p, c.layout, sp, n) && Below(sp, m, n)
  {
    hide Inv, Grows, Linked, ConstsHold, FindReferencedLocal, ScanStart, StackHolds;
    var (found, kept) := FindReferencedLocal(c, slot).value;
    var ty := c.layout.locals[slot - c.layout.numRets];
    var n := SetTyped(m, sp + kept, ty, Get(m, sp + slot));
    InvFacts(c);
    FindReferencedLocalOk(c, slot);
    ReferencesAbove(c, slot);
    FreeUnused(c, kept);
    WriteUnused(c.stack, vals, sp, m, n, r0, kept);
    WriteKeepsConsts(p, c, sp, m, n, kept);
    StoreKeeps(Get(m, sp + kept), ty, Get(m, sp + slot));
    RedirectedHold(c.stack, found.stack, vals, sp, n, r0, |c.layout.locals|, slot, kept, ty);
  }

  lemma StoreKeeps(was: Word, ty: ValType, w: Word)
    ensures forall v: Val :: v.Type() == ty && Holds(w, v) ==> Holds(Store(was, ty, w), v)
  {
  }

  /** Two slots with the same content can stand for each other. */
  lemma RedirectedHold(stack: seq<Entry>, moved: seq<Entry>, vals: seq<Option<Val>>, sp: nat, m: Memory, r0: Word,
                       from: nat, slot: nat, kept: nat, ty: ValType)
    requires StackHolds(stack, vals, sp, m, r0) && |moved| == |stack| && !IsAlias(slot) && !IsAlias(kept)
    requires forall i :: 0 <= i < |stack| ==>
      moved[i] == if i >= from && stack[i].slot == slot then stack[i].(slot := kept) else stack[i]
    requires forall i :: from <= i < |stack| && stack[i].slot == slot ==> stack[i].live && stack[i].ty == ty
    requires forall v: Val :: v.Type() == ty && Holds(Get(m, sp + slot), v) ==> Holds(Get(m, sp + kept), v)
    ensures StackHolds(moved, vals, sp, m, r0)
  {
    forall i | 0 <= i < |stack|
      ensures EntryHolds(moved[i], vals[i], sp, m, r0)
    {
      assert EntryHolds(stack[i], vals[i], sp, m, r0);
    }
  }

  lemma PreserveLocalSim(p: Program, c: CState, i: nat, s: State, vals: seq<Option<Val>>) returns (n: nat, t: State)
    requires Inv(c) && i < |c.layout.locals| && PreserveLocal(c, i).Some?
    requires Linked(p, PreserveLocal(c, i).value) && Match(p, c, s, vals) && NoAliases(c, i)
    ensures Straight(p, s, n, t) && Match(p, PreserveLocal(c, i).value, t, vals)
  {
    hide Inv, Grows, GrowsAnyPage, Linked, ConstsHold, FindReferencedLocal, StackHolds, NoAliases, Emit, PcOf;
    InvFacts(c);
    var slot := c.stack[i].slot;
    var d := PreserveLocal(c, i).value;
    PreserveLocalOk(c, i);
    GrowsAny(c, d);
    LinkedBefore(p, c, d);
    FindReferencedLocalOk(c, slot);
    var (found, kept) := FindReferencedLocal(c, slot).value;
    if kept == slot {
      n, t := 0, s;
      Unredirected(c, slot);
    } else {
      var op := CopySlot(c.stack[i].ty, kept, slot);
      GrowsAny(c, found);
      FetchEmitted(p, found, op);
      OneStep(p, s);
      n, t := 1, Step(p, s);
      RedirectHolds(p, c, slot, vals, s.sp, s.mem, s.r0);
      EmitOk(found, op);
      EmitFacts(found, op);
    }
  }

  lemma GrowsAny(c: CState, d: CState)
    requires Grows(c, d)
    ensures GrowsAnyPage(c, d) && d.layout == c.layout && d.block == c.block && d.outers == c.outers && d.page == c.page
  {
  }

  lemma EmitFacts(c: CState, op: Op)
    ensures var d := Emit(c, op);
      d.stack == c.stack && d.layout == c.layout && d.consts == c.consts && d.reg == c.reg && d.block == c.block
  {
  }

  /** No operand aliased the local. */
  lemma Unredirected(c: CState, slot: nat)
    requires FindReferencedLocal(c, slot).Some? && FindReferencedLocal(c, slot).value.1 == slot
    requires Inv(c) && IsLocal(c.layout, slot)
    ensures FindReferencedLocal(c, slot).value.0 == c
    ensures forall i :: |c.layout.locals| <= i < |c.stack| ==> c.stack[i].slot != slot
  {
    hide Inv;
    InvFacts(c);
    ReferencesAbove(c, slot);
    ReferencesZero(c.stack, ScanStart(c.outers, c.block), slot);
  }

  lemma {:induction false} PreserveLocalsSim(p: Program, c: CState, i: nat, s: State, vals: seq<Option<Val>>)
    returns (n: nat, t: State)
    requires Inv(c) && i <= |c.layout.locals| && PreserveLocals(c, i).Some? && NoAliases(c, i)
    requires Linked(p, PreserveLocals(c, i).value) && Match(p, c, s, vals)
    ensures Straight(p, s, n, t) && Match(p, PreserveLocals(c, i).value, t, vals)
    decreases |c.layout.locals| - i
  {
    hide Inv, Grows, GrowsAnyPage, Linked, Match, NoAliases, PreserveLocal;
    InvFacts(c);
    if i < |c.layout.locals| {
      PreserveLocalOk(c, i);
      var next := PreserveLocal(c, i).value;
      PreserveLocalsOk(next, i + 1);
      GrowsAny(next, PreserveLocals(next, i + 1).value);
      LinkedBefore(p, next, PreserveLocals(next, i + 1).value);
      var n1, t1 := PreserveLocalSim(p, c, i, s, vals);
      var n2, t2 := PreserveLocalsSim(p, next, i + 1, t1, vals);
      n, t := n1 + n2, t2;
      StraightTrans(p, s, n1, t1, n2, t2);
    } else {
      n, t := 0, s;
      StraightSelf(p, c, s, vals);
    }
  }

  lemma StraightSelf(p: Program, c: CState, s: State, vals: seq<Option<Val>>)
    requires Match(p, c, s, vals)
    ensures Straight(p, s, 0, s)
  {
  }

  lemma PreserveArgsAndLocalsSim(p: Program, c: CState, s: State, vals: seq<Option<Val>>) returns (n: nat, t: State)
    requires Inv(c) && PreserveArgsAndLocals(c).Some? && Linked(p, PreserveArgsAndLocals(c).value)
      && Match(p, c, s, vals)
    ensures Straight(p, s, n, t) && Match(p, PreserveArgsAndLocals(c).value, t, vals)
  {
    if |c.stack| > |c.layout.locals| {
      n, t := PreserveLocalsSim(p, c, 0, s, vals);
    } else {
      n, t := 0, s;
    }
  }

  /** A local that no operand aliases takes a new value. */
  lemma LocalWritten(c: CState, vals: seq<Option<Val>>, sp: nat, m: Memory, n: Memory, r0: Word, i: nat, v: Val)
    requires Inv(c) && StackHolds(c.stack, vals, sp, m, r0) && i < |c.layout.locals|
    requires forall k :: |c.layout.locals| <= k < |c.stack| ==> c.stack[k].slot != c.layout.numRets + i
    requires forall a: nat {:trigger Get(n, a)} :: a != sp + c.layout.numRets + i ==> Get(n, a) == Get(m, a)
    requires Holds(Get(n, sp + c.layout.numRets + i), v) && v.Type() == c.layout.locals[i]
    ensures StackHolds(c.stack, vals[i := Some(v)], sp, n, r0)
  {
    hide Inv;
    InvFacts(c);
    forall k | 0 <= k < |c.stack|
      ensures EntryHolds(c.stack[k], vals[i := Some(v)][k], sp, n, r0)
    {
      assert EntryHolds(c.stack[k], vals[k], sp, m, r0);
    }
  }

  /** After the search, nothing aliases the local any more. */
  lemma Redirected(c: CState, slot: nat)
    requires FindReferencedLocal(c, slot).Some? && Inv(c) && IsLocal(c.layout, slot)
    ensures var (found, kept) := FindReferencedLocal(c, slot).value;
      (kept == slot ==> found == c) && !IsAlias(kept)
      && (forall i :: |c.layout.locals| <= i < |found.stack| ==> found.stack[i].slot != slot)
  {
    hide Inv, Grows;
    InvFacts(c);
    FindReferencedLocalOk(c, slot);
    if FindReferencedLocal(c, slot).value.1 == slot {
      Unredirected(c, slot);
    }
  }

  /** local.tee: the operands keep their values, the local takes the top one's. */
  lemma TeeLocalSim(p: Program, c: CState, i: nat, s: State, vals: seq<Option<Val>>) returns (n: nat, t: State)
    requires Inv(c) && CompileSetLocal(c, i, true).Some? && Linked(p, CompileSetLocal(c, i, true).value)
    requires Match(p, c, s, vals) && |c.stack| > |c.layout.locals| && vals[|vals| - 1].Some?
    requires i < |c.layout.locals| && vals[|vals| - 1].value.Type() == c.layout.locals[i]
    ensures Straight(p, s, n, t)
    ensures Match(p, CompileSetLocal(c, i, true).value, t, vals[i := vals[|vals| - 1]])
  {
    hide Inv, Grows, GrowsAnyPage, Linked, FindReferencedLocal, CompileSetLocal, StoreOp, Emit, PcOf, StackHolds,
      ConstsHold;
    InvFacts(c);
    var slot := c.stack[i].slot;
    var d := CompileSetLocal(c, i, true).value;
    TeeLocalOk(c, i);
    TeeLocalShape(c, i);
    GrowsAny(c, d);
    LinkedBefore(p, c, d);
    FindReferencedLocalOk(c, slot);
    var (found, kept) := FindReferencedLocal(c, slot).value;
    GrowsAny(c, found);
    var op := StoreOp(found, slot, kept);
    FetchEmitted(p, found, op);
    OneStep(p, s);
    n, t := 1, Step(p, s);
    EmitOk(found, op);
    EmitFacts(found, op);
    StoredLocal(p, c, i, s, vals);
  }

  /** The memory once the references have been saved. */
  function SavedMemory(c: CState, i: nat, s: State): Memory
    requires s.Running? && i < |c.stack| && i < |c.layout.locals| && FindReferencedLocal(c, c.stack[i].slot).Some?
  {
    var slot := c.stack[i].slot;
    var kept := FindReferencedLocal(c, slot).value.1;
    if kept == slot then s.mem else SetTyped(s.mem, s.sp + kept, c.layout.locals[i], Get(s.mem, s.sp + slot))
  }

  lemma SavedHolds(p: Program, c: CState, i: nat, s: State, vals: seq<Option<Val>>)
    requires Inv(c) && Linked(p, c) && Match(p, c, s, vals) && i < |c.layout.locals|
    requires i < |c.stack| && FindReferencedLocal(c, c.stack[i].slot).Some?
    ensures var found := FindReferencedLocal(c, c.stack[i].slot).value.0;
      var m := SavedMemory(c, i, s);
      StackHolds(found.stack, vals, s.sp, m, s.r0) && ConstsHold(p, c.layout, s.sp, m) && Below(s.sp, s.mem, m)
  {
    hide Inv, Linked, StackHolds, ConstsHold, FindReferencedLocal;
    InvFacts(c);
    var slot := c.stack[i].slot;
    if FindReferencedLocal(c, slot).value.1 == slot {
      Unredirected(c, slot);
    } else {
      RedirectHolds(p, c, slot, vals, s.sp, s.mem, s.r0);
    }
  }

  /** The store operation first saves the old value if it is still referenced, then assigns the local. */
  lemma StoreStep(p: Program, c: CState, i: nat, s: State)
    requires s.Running? && i < |c.stack| && i < |c.layout.locals| && FindReferencedLocal(c, c.stack[i].slot).Some?
    requires var (found, kept) := FindReferencedLocal(c, c.stack[i].slot).value;
      |found.stack| > 0 && found.stack[|found.stack| - 1].ty == c.layout.locals[i]
    ensures var (found, kept) := FindReferencedLocal(c, c.stack[i].slot).value;
      var e := found.stack[|found.stack| - 1];
      var m := SavedMemory(c, i, s);
      StepOp(p, s, StoreOp(found, c.stack[i].slot, kept))
      == s.(pc := s.pc.Next(),
            mem := SetTyped(m, s.sp + c.stack[i].slot, e.ty, ValueAt(e.slot, s.sp, m, s.r0)))
  {
    hide FindReferencedLocal, SetTyped, Get;
  }

  /** What the store operation does to memory. */
  lemma StoredLocal(p: Program, c: CState, i: nat, s: State, vals: seq<Option<Val>>)
    requires Inv(c) && CompileSetLocal(c, i, true).Some? && Linked(p, c)
    requires Match(p, c, s, vals) && |c.stack| > |c.layout.locals| && vals[|vals| - 1].Some?
    requires i < |c.layout.locals| && vals[|vals| - 1].value.Type() == c.layout.locals[i]
    requires FindReferencedLocal(c, c.stack[i].slot).Some?
    ensures var (found, kept) := FindReferencedLocal(c, c.stack[i].slot).value;
      |found.stack| > 0
      && var t := StepOp(p, s, StoreOp(found, c.stack[i].slot, kept));
        && t.Running? && t.sp == s.sp && t.r0 == s.r0 && t.frames == s.frames && t.pc == s.pc.Next()
        && Below(s.sp, s.mem, t.mem) && ConstsHold(p, c.layout, s.sp, t.mem)
        && StackHolds(found.stack, vals[i := vals[|vals| - 1]], s.sp, t.mem, s.r0)
  {
    hide Inv, Grows, FindReferencedLocal, StoreOp, CompileSetLocal, Linked, ConstsHold, SavedMemory, StepOp;
    InvFacts(c);
    var slot := c.stack[i].slot;
    FindReferencedLocalOk(c, slot);
    Redirected(c, slot);
    var (found, kept) := FindReferencedLocal(c, slot).value;
    GrowsAny(c, found);
    var top := |c.stack| - 1;
    var v := vals[top].value;
    var m := SavedMemory(c, i, s);
    SavedHolds(p, c, i, s, vals);
    assert EntryHolds(found.stack[top], vals[top], s.sp, m, s.r0);
    StoreStep(p, c, i, s);
    var t := StepOp(p, s, StoreOp(found, slot, kept));
    StoreHolds(Get(m, s.sp + slot), found.stack[top].ty, ValueAt(found.stack[top].slot, s.sp, m, s.r0), v);
    WriteKeepsConsts(p, c, s.sp, m, t.mem, slot);
    LocalWritten(found, vals, s.sp, m, t.mem, s.r0, i, v);
  }

  // ----- operands without code -----

  /** An operand pushed where its value already is. */
  lemma PushedHolds(stack: seq<Entry>, vals: seq<Option<Val>>, sp: nat, m: Memory, r0: Word, e: Entry, v: Val)
    requires StackHolds(stack, vals, sp, m, r0) && EntryHolds(e, Some(v), sp, m, r0)
    ensures StackHolds(stack + [e], vals + [Some(v)], sp, m, r0)
  {
  }

  lemma PoppedHolds(stack: seq<Entry>, vals: seq<Option<Val>>, sp: nat, m: Memory, r0: Word, k: nat)
    requires StackHolds(stack, vals, sp, m, r0) && k <= |stack|
    ensures StackHolds(stack[..k], vals[..k], sp, m, r0)
  {
    forall i | 0 <= i < k
      ensures EntryHolds(stack[..k][i], vals[..k][i], sp, m, r0)
    {
      assert EntryHolds(stack[i], vals[i], sp, m, r0);
    }
  }

  lemma GetLocalSim(p: Program, c: CState, i: nat, s: State, vals: seq<Option<Val>>)
    requires Inv(c) && CompileGetLocal(c, i).Some? && Match(p, c, s, vals)
    ensures i < |vals| && vals[i].Some?
    ensures Match(p, CompileGetLocal(c, i).value, s, vals + [vals[i]])
  {
    hide Inv;
    InvFacts(c);
    PushOk(c, c.stack[i].ty, c.stack[i].slot);
    assert EntryHolds(c.stack[i], vals[i], s.sp, s.mem, s.r0);
    PushedHolds(c.stack, vals, s.sp, s.mem, s.r0, c.stack[i], vals[i].value);
  }

  lemma PopSim(p: Program, c: CState, s: State, vals: seq<Option<Val>>)
    requires Inv(c) && |c.stack| > c.block.base && Match(p, c, s, vals)
    ensures Pop(c).Some? && Match(p, Pop(c).value, s, vals[..|vals| - 1])
  {
    hide Inv;
    PopOk(c);
    PoppedHolds(c.stack, vals, s.sp, s.mem, s.r0, |c.stack| - 1);
  }

  // ----- constants -----

  /** A table entry that passes the comparison, and the entry made for a new constant, denote the constant. */
  lemma ConstantHolds(v: Val, w: Word)
    requires SameConstant(w, v) || w == ToWord(v) || w == ConstWord(v)
    ensures Holds(w, v)
  {
  }

  lemma PushConstSim(p: Program, c: CState, v: Val, s: State, vals: seq<Option<Val>>) returns (n: nat, t: State)
    requires Inv(c) && PushConst(c, v).Some? && Linked(p, PushConst(c, v).value) && Match(p, c, s, vals)
    ensures Straight(p, s, n, t) && Match(p, PushConst(c, v).value, t, vals + [Some(v)])
  {
    var first := c.layout.FirstConst();
    var k := FindConstant(c.consts, v, 0);
    PushConstOk(c, v);
    InvFacts(c);
    n, t := 0, s;
    if k < |c.consts| || FreeConstantSlot(c).Some? {
      TableConstantSim(p, c, v, s, vals);
    } else {
      n, t := InlineConstantSim(p, c, v, s, vals);
    }
  }

  /** A constant found in the table or added to it becomes an operand in its table slot. */
  lemma TableConstant(c: CState, v: Val)
    requires Inv(c) && PushConst(c, v).Some?
    requires FindConstant(c.consts, v, 0) < |c.consts| || FreeConstantSlot(c).Some?
    ensures var d := PushConst(c, v).value;
      var k := FindConstant(c.consts, v, 0);
      && d.stack == c.stack + [Entry.Entry(c.layout.FirstConst() + k, v.Type(), true)]
      && k < |d.consts| && c.consts <= d.consts && Holds(d.consts[k], v)
      && d.layout == c.layout && PcOf(d) == PcOf(c) && c.layout.FirstConst() + k < MAX_FUNCTION_SLOTS
  {
    hide Inv;
    InvFacts(c);
    var k := FindConstant(c.consts, v, 0);
    if k == |c.consts| {
      NextConstantSlot(c);
    }
    ConstantHolds(v, if k < |c.consts| then c.consts[k] else ToWord(v));
  }

  lemma TableConstantSim(p: Program, c: CState, v: Val, s: State, vals: seq<Option<Val>>)
    requires Inv(c) && PushConst(c, v).Some? && Linked(p, PushConst(c, v).value) && Match(p, c, s, vals)
    requires FindConstant(c.consts, v, 0) < |c.consts| || FreeConstantSlot(c).Some?
    ensures Match(p, PushConst(c, v).value, s, vals + [Some(v)])
  {
    hide Inv, PushConst, FindConstant, FreeConstantSlot, StackHolds, PcOf;
    var k := FindConstant(c.consts, v, 0);
    var d := PushConst(c, v).value;
    TableConstant(c, v);
    assert d.consts[k] == CodeFor(p, c).consts[k];
    PushedHolds(c.stack, vals, s.sp, s.mem, s.r0, Entry.Entry(c.layout.FirstConst() + k, v.Type(), true), v);
  }

  lemma InlineConstantSim(p: Program, c: CState, v: Val, s: State, vals: seq<Option<Val>>) returns (n: nat, t: State)
    requires Inv(c) && PushConst(c, v).Some? && Linked(p, PushConst(c, v).value) && Match(p, c, s, vals)
    requires FindConstant(c.consts, v, 0) == |c.consts| && FreeConstantSlot(c).None?
    ensures Straight(p, s, n, t) && Match(p, PushConst(c, v).value, t, vals + [Some(v)])
  {
    hide Inv, Grows, GrowsAnyPage, Linked, PushConst, PushAllocated, ConstsHold, StackHolds, Emit, PcOf;
    InvFacts(c);
    InlineConstant(c, v);
    PushAllocatedOk(c, v.Type());
    var pushed := PushAllocated(c, v.Type()).value;
    var slot := FreeSlot(c).value;
    var op := SetConst(v.Type(), ConstWord(v), slot);
    var d := PushConst(c, v).value;
    GrowsAny(c, d);
    GrowsAny(c, pushed);
    LinkedBefore(p, c, d);
    FetchEmitted(p, pushed, op);
    OneStep(p, s);
    n, t := 1, Step(p, s);
    FreeUnused(c, slot);
    WriteUnused(c.stack, vals, s.sp, s.mem, t.mem, s.r0, slot);
    WriteKeepsConsts(p, c, s.sp, s.mem, t.mem, slot);
    ConstantHolds(v, ConstWord(v));
    StoreHolds(Get(s.mem, s.sp + slot), v.Type(), ConstWord(v), v);
    PushedHolds(c.stack, vals, s.sp, t.mem, s.r0, Entry.Entry(slot, v.Type(), true), v);
    EmitOk(pushed, op);
    EmitFacts(pushed, op);
  }

  // ----- operators -----

  /** The operands of an operation are consumed and its result appears in the register. */
  lemma ResultInRegister(stack: seq<Entry>, vals: seq<Option<Val>>, sp: nat, m: Memory, r0: Word, k: nat, ty: ValType,
                         r1: Word, v: Val)
    requires StackHolds(stack, vals, sp, m, r0) && k <= |stack|
    requires forall i :: 0 <= i < k ==> !IsAlias(stack[i].slot)
    requires Holds(r1, v) && v.Type() == ty
    ensures StackHolds(stack[..k] + [Entry.Entry(REG0_ALIAS, ty, true)], vals[..k] + [Some(v)], sp, m, r1)
  {
    forall i | 0 <= i < k
      ensures EntryHolds(stack[..k][i], vals[..k][i], sp, m, r1)
    {
      assert EntryHolds(stack[i], vals[i], sp, m, r0);
    }
  }

  lemma NoOtherAlias(c: CState, k: nat)
    requires Inv(c) && k <= |c.stack| && (c.reg == 0 || c.reg > k)
    ensures forall i :: 0 <= i < k ==> !IsAlias(c.stack[i].slot)
  {
    forall i | 0 <= i < k && IsAlias(c.stack[i].slot)
      ensures false
    {
      RegisterIndex(c, i);
    }
  }

  /** One operation from `ready` to `d` that leaves `w` in the register. */
  lemma OperatorSim(p: Program, ready: CState, op: Op, d: CState, s: State, vals: seq<Option<Val>>, n: nat, ty: ValType,
                    w: Word, v: Val)
    requires Inv(ready) && Inv(Emit(ready, op)) && Good(Emit(ready, op), d) && Linked(p, d) && Match(p, ready, s, vals)
    requires PcOf(d) == PcOf(Emit(ready, op)) && n <= |ready.stack|
    requires d.stack == ready.stack[..|ready.stack| - n] + [Entry.Entry(REG0_ALIAS, ty, true)]
    requires ready.reg == 0 || ready.reg > |ready.stack| - n
    requires StepOp(p, s, op) == s.(pc := s.pc.Next(), r0 := w)
    requires Holds(w, v) && v.Type() == ty
    ensures Straight(p, s, 1, Step(p, s)) && Match(p, d, Step(p, s), vals[..|vals| - n] + [Some(v)])
  {
    hide Inv, Grows, GrowsAnyPage, Linked, StackHolds, ConstsHold, Emit, PcOf, StepOp;
    GrowsAny(Emit(ready, op), d);
    LinkedBefore(p, Emit(ready, op), d);
    FetchEmitted(p, ready, op);
    OneStep(p, s);
    EmitOk(ready, op);
    EmitFacts(ready, op);
    NoOtherAlias(ready, |ready.stack| - n);
    StackSize(ready.stack, vals, s.sp, s.mem, s.r0);
    ResultInRegister(ready.stack, vals, s.sp, s.mem, s.r0, |ready.stack| - n, ty, w, v);
  }

  lemma StackSize(stack: seq<Entry>, vals: seq<Option<Val>>, sp: nat, m: Memory, r0: Word)
    requires StackHolds(stack, vals, sp, m, r0)
    ensures |stack| == |vals|
  {
  }

  lemma Operand(p: Program, c: CState, s: State, vals: seq<Option<Val>>, i: nat, v: Val)
    requires Match(p, c, s, vals) && i < |vals| && vals[i] == Some(v)
    ensures i < |c.stack| && c.stack[i].ty == v.Type() && Holds(ValueAt(c.stack[i].slot, s.sp, s.mem, s.r0), v)
  {
    assert EntryHolds(c.stack[i], vals[i], s.sp, s.mem, s.r0);
  }
}
