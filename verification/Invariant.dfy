/** The invariant every reachable compile-time state satisfies, and the proof that the allocator's primitives keep it.

    A dynamic slot's usage count is the number of live operands naming it; the register table names the one operand
    that lives in the register; operands below the current block alias neither a local nor the register; the landing
    slots recorded for enclosing blocks are not used by any operand below them.
 */
module Invariant {
  import opened Words
  import opened Machine
  import opened Allocator

  // ----- counting references -----

  function One(e: Entry, slot: nat): nat {
    if e.live && e.slot == slot then 1 else 0
  }

  /** Number of live operands that name `slot`. */
  function Count(stack: seq<Entry>, slot: nat): nat {
    var n := |stack|;
    if n == 0 then 0 else Count(stack[..n - 1], slot) + One(stack[n - 1], slot)
  }

  lemma CountPush(stack: seq<Entry>, e: Entry, slot: nat)
    ensures Count(stack + [e], slot) == Count(stack, slot) + One(e, slot)
  {
    assert (stack + [e])[..|stack|] == stack;
  }

  lemma {:induction false} CountSet(stack: seq<Entry>, i: nat, e: Entry, slot: nat)
    requires i < |stack|
    ensures Count(stack[i := e], slot) + One(stack[i], slot) == Count(stack, slot) + One(e, slot)
  {
    var n := |stack|;
    if i == n - 1 {
      assert stack[i := e][..n - 1] == stack[..n - 1];
    } else {
      CountSet(stack[..n - 1], i, e, slot);
      assert stack[i := e][..n - 1] == stack[..n - 1][i := e];
    }
  }

  /** A slot is counted exactly when a live operand names it. */
  lemma {:induction false} CountZero(stack: seq<Entry>, slot: nat)
    ensures Count(stack, slot) == 0 <==> forall i :: 0 <= i < |stack| && stack[i].live ==> stack[i].slot != slot
  {
    var n := |stack|;
    if n > 0 {
      CountZero(stack[..n - 1], slot);
      if Count(stack, slot) == 0 {
        forall i | 0 <= i < n && stack[i].live
          ensures stack[i].slot != slot
        {
          if i < n - 1 {
            assert stack[..n - 1][i] == stack[i];
          }
        }
      } else if Count(stack[..n - 1], slot) != 0 {
        var i :| 0 <= i < n - 1 && stack[..n - 1][i].live && stack[..n - 1][i].slot == slot;
        assert stack[i].live && stack[i].slot == slot;
      }
    }
  }

  lemma {:induction false} CountDead(stack: seq<Entry>, dead: seq<Entry>, slot: nat)
    requires forall i :: 0 <= i < |dead| ==> !dead[i].live
    ensures Count(stack + dead, slot) == Count(stack, slot)
  {
    var n := |dead|;
    if n == 0 {
      assert stack + dead == stack;
    } else {
      CountDead(stack, dead[..n - 1], slot);
      assert (stack + dead)[..|stack| + n - 1] == stack + dead[..n - 1];
    }
  }

  /** Redirecting the references to a local moves them all to the new slot. */
  lemma {:induction false} CountRedirect(stack: seq<Entry>, from: nat, local: nat, kept: nat, slot: nat)
    requires local != kept
    requires forall i :: 0 <= i < |stack| && stack[i].slot == local && i >= from ==> stack[i].live
    ensures slot != local && slot != kept ==> Count(Redirect(stack, from, local, kept), slot) == Count(stack, slot)
    ensures Count(Redirect(stack, from, local, kept), kept) == Count(stack, kept) + References(stack, from, local)
  {
    var n := |stack|;
    var r := Redirect(stack, from, local, kept);
    if n > 0 {
      CountRedirect(stack[..n - 1], from, local, kept, slot);
      assert r[..n - 1] == Redirect(stack[..n - 1], from, local, kept);
      if n <= from {
        NoReferences(stack[..n - 1], from, local);
      }
    }
  }

  lemma NoReferences(stack: seq<Entry>, from: nat, slot: nat)
    requires |stack| <= from
    ensures References(stack, from, slot) == 0
  {
  }

  lemma {:induction false} ReferencesZero(stack: seq<Entry>, from: nat, slot: nat)
    ensures References(stack, from, slot) == 0 <==> forall i :: from <= i < |stack| ==> stack[i].slot != slot
  {
    var n := |stack|;
    if n > from {
      ReferencesZero(stack[..n - 1], from, slot);
      if References(stack, from, slot) == 0 {
        forall i | from <= i < n
          ensures stack[i].slot != slot
        {
          if i < n - 1 {
            assert stack[..n - 1][i] == stack[i];
          }
        }
      } else if References(stack[..n - 1], from, slot) != 0 {
        var i :| from <= i < n - 1 && stack[..n - 1][i].slot == slot;
        assert stack[i].slot == slot;
      }
    }
  }

  // ----- the invariant -----

  predicate IsDynamic(l: Layout, slot: nat) {
    l.firstDynamic <= slot < MAX_FUNCTION_SLOTS
  }

  predicate IsLocal(l: Layout, slot: nat) {
    l.numRets <= slot < l.FirstConst()
  }

  predicate IsConstant(c: CState, slot: nat) {
    c.layout.FirstConst() <= slot < c.layout.FirstConst() + |c.consts|
  }

  ghost predicate LayoutOk(c: CState) {
    && c.layout.numArgs <= |c.layout.locals|
    && c.layout.FirstConst() + |c.consts| <= c.layout.firstDynamic <= MAX_FUNCTION_SLOTS
    && |c.consts| <= MAX_CONSTANTS
  }

  ghost predicate HomesOk(c: CState) {
    && |c.layout.locals| <= c.block.base <= |c.stack|
    && forall i :: 0 <= i < |c.layout.locals| ==>
      c.stack[i] == Entry.Entry(c.layout.numRets + i, c.layout.locals[i], true)
  }

  /** Where operand `i` may live. */
  ghost predicate EntryOk(c: CState, i: nat)
    requires i < |c.stack|
  {
    var e := c.stack[i];
    if !e.live then IsDynamic(c.layout, e.slot) && i < c.block.base
    else
      || IsDynamic(c.layout, e.slot)
      || IsConstant(c, e.slot)
      || (i >= c.block.base && IsLocal(c.layout, e.slot) && e.ty == c.layout.locals[e.slot - c.layout.numRets])
      || (i >= c.block.base && e.slot == REG0_ALIAS && c.reg == i + 1)
  }

  ghost predicate EntriesOk(c: CState) {
    forall i :: |c.layout.locals| <= i < |c.stack| ==> EntryOk(c, i)
  }

  ghost predicate RegisterOk(c: CState) {
    c.reg == 0 || (c.block.base < c.reg <= |c.stack| && c.stack[c.reg - 1].live
        && c.stack[c.reg - 1].slot == REG0_ALIAS)
  }

  ghost predicate UsageOk(c: CState) {
    && (forall s :: c.layout.firstDynamic <= s < MAX_FUNCTION_SLOTS ==> c.usage[s] == Count(c.stack, s))
    && (forall s :: c.layout.FirstConst() <= s < c.layout.firstDynamic && s < MAX_FUNCTION_SLOTS ==>
          (c.usage[s] != 0 <==> IsConstant(c, s)))
    && (forall s :: c.layout.firstDynamic <= s < MAX_FUNCTION_SLOTS && c.maxAllocated <= s ==> c.usage[s] == 0)
    && c.layout.firstDynamic <= c.maxAllocated <= MAX_FUNCTION_SLOTS
  }

  ghost predicate SlotsOk(c: CState) {
    LayoutOk(c) && HomesOk(c) && EntriesOk(c) && RegisterOk(c) && UsageOk(c)
  }

  // ----- scopes -----

  function Scopes(c: CState): (r: seq<Scope>)
    ensures |r| == |c.outers| + 1 && r[|r| - 1] == c.block
  {
    c.outers + [c.block]
  }

  /** The records between `exit` and `base` are landing slots that nothing below uses. */
  ghost predicate LandingOk(stack: seq<Entry>, s: Scope) {
    && s.exit <= s.base <= |stack|
    && forall i, j :: 0 <= i < s.exit <= j < s.base && stack[i].live ==> stack[i].slot != stack[j].slot
  }

  /** A code address that has been emitted, or is the next one on its page. */
  ghost predicate Emitted(c: CState, pc: PC) {
    pc.fn == c.layout.fn && pc.page < |c.pages| && pc.line <= |c.pages[pc.page]|
  }

  ghost predicate ScopeOk(c: CState, k: nat)
    requires k < |Scopes(c)|
  {
    var s := Scopes(c)[k];
    if k == 0 then s.kind == FuncScope && s.base == |c.layout.locals| && |s.results| == c.layout.numRets
    else
      && s.kind != FuncScope
      && |s.results| <= 1
      && Scopes(c)[k - 1].base <= s.exit
      && s.base == s.exit + |s.results|
      && LandingOk(c.stack, s)
      && (forall j :: s.exit <= j < s.base ==> !c.stack[j].live)
      && s.end < c.nextId && s.end !in c.patched
      && Emitted(c, s.pc)
  }

  ghost predicate ScopesOk(c: CState) {
    && (forall k :: 0 <= k < |Scopes(c)| ==> ScopeOk(c, k))
    && (forall k :: 0 <= k < |c.outers| ==>
          !c.outers[k].polymorphic && |c.layout.locals| <= c.outers[k].base <= c.block.base)
  }

  ghost predicate CodeOk(c: CState) {
    && c.page < |c.pages|
    && (forall id <- c.patched :: id < c.nextId)
  }

  ghost predicate Inv(c: CState) {
    SlotsOk(c) && ScopesOk(c) && CodeOk(c)
  }

  /** The shape of the stack and of the slot ranges. */
  lemma InvFacts(c: CState)
    requires Inv(c)
    ensures |c.layout.locals| <= c.block.base <= |c.stack| && c.reg <= |c.stack| && c.page < |c.pages|
    ensures c.layout.FirstConst() + |c.consts| <= c.layout.firstDynamic <= MAX_FUNCTION_SLOTS
    ensures forall i :: 0 <= i < |c.layout.locals| ==>
      c.stack[i] == Entry.Entry(c.layout.numRets + i, c.layout.locals[i], true)
    ensures c.layout.numArgs <= |c.layout.locals| && c.maxAllocated <= MAX_FUNCTION_SLOTS
    ensures Scopes(c)[0].kind == FuncScope && |Scopes(c)[0].results| == c.layout.numRets
  {
    assert ScopeOk(c, 0);
  }

  // ----- growth -----

  /** What compiling more code may do to code already emitted: append, on this and on new pages. */
  ghost predicate CodeGrows(c: CState, d: CState) {
    && d.layout == c.layout
    && |c.pages| <= |d.pages|
    && (forall p :: 0 <= p < |c.pages| ==> c.pages[p] <= d.pages[p])
    && (forall p :: 0 <= p < |c.pages| && p != c.page ==> d.pages[p] == c.pages[p])
    && c.consts <= d.consts
    && c.nextId <= d.nextId
    && (forall id: nat :: id < c.nextId ==> (id in c.patched <==> id in d.patched))
    && (forall id: nat :: id < c.nextId && id in c.patched ==> d.patched[id] == c.patched[id])
    && c.maxSlots <= d.maxSlots
  }

  /** ... and to the operands below the current block: nothing. */
  ghost predicate GrowsAnyPage(c: CState, d: CState) {
    && CodeGrows(c, d)
    && d.outers == c.outers
    && d.block == c.block
    && c.block.base <= |c.stack| && c.block.base <= |d.stack|
    && d.stack[..c.block.base] == c.stack[..c.block.base]
  }

  ghost predicate Grows(c: CState, d: CState) {
    GrowsAnyPage(c, d) && d.page == c.page
  }

  lemma GrowsTrans(c: CState, d: CState, e: CState)
    requires Grows(c, d) && Grows(d, e)
    ensures Grows(c, e)
  {
  }

  lemma GrowsSelf(c: CState)
    requires c.block.base <= |c.stack|
    ensures Grows(c, c)
  {
  }

  // ----- primitives -----

  /** The allocator's part of the invariant only reads the allocator's fields. */
  lemma SlotsUnchanged(c: CState, d: CState)
    requires SlotsOk(c)
    requires d.layout == c.layout && d.stack == c.stack && d.usage == c.usage && d.reg == c.reg
    requires d.maxAllocated == c.maxAllocated && d.consts == c.consts && d.block.base == c.block.base
    ensures SlotsOk(d)
  {
    forall i | |d.layout.locals| <= i < |d.stack|
      ensures EntryOk(d, i)
    {
      assert EntryOk(c, i);
    }
  }

  lemma ScopesUnchanged(c: CState, d: CState)
    requires ScopesOk(c) && GrowsAnyPage(c, d)
    ensures ScopesOk(d)
  {
    forall k | 0 <= k < |Scopes(d)|
      ensures ScopeOk(d, k)
    {
      ScopeUnchanged(c, d, k);
    }
  }

  lemma ScopeUnchanged(c: CState, d: CState, k: nat)
    requires ScopesOk(c) && GrowsAnyPage(c, d) && k < |Scopes(d)|
    ensures ScopeOk(d, k)
  {
    assert ScopeOk(c, k);
    var s := Scopes(c)[k];
    assert s.base <= c.block.base;
    assert forall i :: 0 <= i < s.base ==> d.stack[i] == c.stack[i] by {
      assert forall i :: 0 <= i < s.base ==> d.stack[..c.block.base][i] == c.stack[..c.block.base][i];
    }
    if k > 0 {
      assert Emitted(d, s.pc);
    }
  }

  lemma EmitOk(c: CState, op: Op)
    requires Inv(c)
    ensures Inv(Emit(c, op)) && Grows(c, Emit(c, op))
    ensures PcOf(Emit(c, op)) == PcOf(c).Next()
  {
    var d := Emit(c, op);
    SlotsUnchanged(c, d);
    ScopesUnchanged(c, d);
  }

  /** Pushing an operand that lives in a constant slot, a local or the free register. */
  lemma PushOk(c: CState, ty: ValType, slot: nat)
    requires Inv(c) && Push(c, ty, slot).Some?
    requires || IsConstant(c, slot)
             || (IsLocal(c.layout, slot) && ty == c.layout.locals[slot - c.layout.numRets])
             || (slot == REG0_ALIAS && c.reg == 0)
    ensures var d := Push(c, ty, slot).value;
      Inv(d) && Grows(c, d) && d.stack == c.stack + [Entry.Entry(slot, ty, true)] && PcOf(d) == PcOf(c)
  {
    var d := Push(c, ty, slot).value;
    PushedSlots(c, d, Entry.Entry(slot, ty, true));
    ScopesUnchanged(c, d);
  }

  lemma PushedSlots(c: CState, d: CState, e: Entry)
    requires SlotsOk(c) && e.live
    requires d == c.(stack := c.stack + [e], reg := if IsAlias(e.slot) then |c.stack| + 1 else c.reg)
    requires || IsConstant(c, e.slot)
             || (IsLocal(c.layout, e.slot) && e.ty == c.layout.locals[e.slot - c.layout.numRets])
             || (e.slot == REG0_ALIAS && c.reg == 0)
    ensures SlotsOk(d)
  {
    forall i | |d.layout.locals| <= i < |d.stack|
      ensures EntryOk(d, i)
    {
      if i < |c.stack| {
        assert EntryOk(c, i);
      }
    }
    forall s | c.layout.firstDynamic <= s < MAX_FUNCTION_SLOTS
      ensures d.usage[s] == Count(d.stack, s)
    {
      CountPush(c.stack, e, s);
    }
  }

  /** Pushing an operand into a dynamic slot nobody uses. */
  lemma PushAtOk(c: CState, ty: ValType, slot: nat)
    requires Inv(c) && IsDynamic(c.layout, slot) && c.usage[slot] == 0 && Push(c, ty, slot).Some?
    ensures var d := MarkAllocated(Push(c, ty, slot).value, slot);
      Inv(d) && Grows(c, d) && d.stack == c.stack + [Entry.Entry(slot, ty, true)] && PcOf(d) == PcOf(c)
  {
    hide EntriesOk, UsageOk, ScopesOk;
    var d := MarkAllocated(Push(c, ty, slot).value, slot);
    PushedAtEntries(c, d, ty, slot);
    PushedAtUsage(c, d, ty, slot);
    assert d.stack[..d.block.base] == c.stack[..c.block.base];
    ScopesUnchanged(c, d);
  }

  lemma PushedAtEntries(c: CState, d: CState, ty: ValType, slot: nat)
    requires SlotsOk(c) && IsDynamic(c.layout, slot) && Push(c, ty, slot).Some?
    requires d == MarkAllocated(Push(c, ty, slot).value, slot)
    ensures EntriesOk(d) && RegisterOk(d) && HomesOk(d)
  {
    forall i | |d.layout.locals| <= i < |d.stack|
      ensures EntryOk(d, i)
    {
      if i < |c.stack| {
        assert EntryOk(c, i);
      }
    }
  }

  lemma PushedAtUsage(c: CState, d: CState, ty: ValType, slot: nat)
    requires SlotsOk(c) && IsDynamic(c.layout, slot) && c.usage[slot] == 0 && Push(c, ty, slot).Some?
    requires d == MarkAllocated(Push(c, ty, slot).value, slot)
    ensures UsageOk(d)
  {
    hide EntriesOk;
    forall s | c.layout.firstDynamic <= s < MAX_FUNCTION_SLOTS
      ensures d.usage[s] == Count(d.stack, s)
    {
      CountPush(c.stack, Entry.Entry(slot, ty, true), s);
    }
  }

  /** Pushing an operand into the lowest free dynamic slot. */
  lemma PushAllocatedOk(c: CState, ty: ValType)
    requires Inv(c) && PushAllocated(c, ty).Some?
    ensures FreeSlot(c).Some?
    ensures var d := PushAllocated(c, ty).value;
      Inv(d) && Grows(c, d) && d.stack == c.stack + [Entry.Entry(FreeSlot(c).value, ty, true)] && PcOf(d) == PcOf(c)
  {
    var slot := FreeSlot(c).value;
    PushAtOk(c, ty, slot);
    assert MarkAllocated(Push(c, ty, slot).value, slot) == PushAllocated(c, ty).value;
  }

  /** The top operand can be popped without touching the usage of any slot but its own. */
  lemma TopEntry(c: CState)
    requires SlotsOk(c) && |c.stack| > c.block.base
    ensures var e := c.stack[|c.stack| - 1];
      e.live && (e.slot < MAX_FUNCTION_SLOTS || (e.slot == REG0_ALIAS && c.reg == |c.stack|))
    ensures c.reg == |c.stack| ==> c.stack[|c.stack| - 1].slot == REG0_ALIAS
  {
    assert EntryOk(c, |c.stack| - 1);
  }

  lemma PoppedEntries(c: CState, d: CState)
    requires SlotsOk(c) && |c.stack| > c.block.base && Pop(c) == Some(d)
    ensures EntriesOk(d) && RegisterOk(d) && HomesOk(d)
  {
    TopEntry(c);
    forall i | |d.layout.locals| <= i < |d.stack|
      ensures EntryOk(d, i)
    {
      assert EntryOk(c, i);
    }
  }

  lemma PoppedUsage(c: CState, d: CState)
    requires SlotsOk(c) && |c.stack| > c.block.base && Pop(c) == Some(d)
    ensures UsageOk(d)
  {
    TopEntry(c);
    var e := c.stack[|c.stack| - 1];
    forall s | c.layout.firstDynamic <= s < MAX_FUNCTION_SLOTS
      ensures d.usage[s] == Count(d.stack, s)
      ensures c.maxAllocated <= s ==> d.usage[s] == 0
    {
      assert Count(c.stack, s) == Count(d.stack, s) + One(e, s);
    }
  }

  lemma PopOk(c: CState)
    requires Inv(c) && |c.stack| > c.block.base
    ensures Pop(c).Some?
    ensures var d := Pop(c).value;
      Inv(d) && Grows(c, d) && d.stack == c.stack[..|c.stack| - 1] && PcOf(d) == PcOf(c)
    ensures Pop(c).value.reg == if c.reg == |c.stack| then 0 else c.reg
    ensures Pop(c).value.maxAllocated == c.maxAllocated && Pop(c).value.pages == c.pages
      && Pop(c).value.consts == c.consts && Pop(c).value.patched == c.patched
  {
    hide EntriesOk, UsageOk, RegisterOk, ScopesOk;
    var d := Pop(c).value;
    TopEntry(c);
    PoppedEntries(c, d);
    PoppedUsage(c, d);
    assert d.stack[..d.block.base] == c.stack[..c.block.base];
    ScopesUnchanged(c, d);
  }

  /** Moving operand `i` to a free slot. */
  lemma MovedOk(c: CState, d: CState, i: nat, slot: nat)
    requires Inv(c) && c.block.base <= i < |c.stack| && IsAlias(c.stack[i].slot)
    requires FreeSlot(c) == Some(slot)
    requires d == MarkAllocated(c.(reg := 0), slot).(stack := c.stack[i := c.stack[i].(slot := slot)])
    ensures Inv(d) && Grows(c, d)
  {
    var e := c.stack[i].(slot := slot);
    assert EntryOk(c, i);
    forall k | |d.layout.locals| <= k < |d.stack|
      ensures EntryOk(d, k)
    {
      assert EntryOk(c, k);
    }
    forall s | c.layout.firstDynamic <= s < MAX_FUNCTION_SLOTS
      ensures d.usage[s] == Count(d.stack, s)
    {
      CountSet(c.stack, i, e, s);
    }
    ScopesUnchanged(c, d);
  }

  /** The register belongs to the operand the register table names. */
  lemma RegisterIndex(c: CState, i: nat)
    requires Inv(c) && InRegister(c, i)
    ensures c.reg == i + 1 && i >= c.block.base && c.stack[i].slot == REG0_ALIAS
  {
    if i >= |c.layout.locals| {
      assert EntryOk(c, i);
    }
  }

  /** At most one operand lives there. */
  lemma OneInRegister(c: CState, i: nat, j: nat)
    requires Inv(c) && i < j < |c.stack|
    ensures !(IsAlias(c.stack[i].slot) && IsAlias(c.stack[j].slot))
  {
    if InRegister(c, i) && InRegister(c, j) {
      RegisterIndex(c, i);
      RegisterIndex(c, j);
    }
  }

  lemma PreserveRegisterOk(c: CState)
    requires Inv(c) && PreserveRegister(c).Some?
    ensures var d := PreserveRegister(c).value;
      Inv(d) && Grows(c, d) && d.reg == 0 && |d.stack| == |c.stack|
    ensures var d := PreserveRegister(c).value;
      forall i :: 0 <= i < |c.stack| ==>
        d.stack[i] == if IsAlias(c.stack[i].slot) then c.stack[i].(slot := FreeSlot(c).GetOr(0)) else c.stack[i]
  {
    forall i | 0 <= i < |c.stack| && IsAlias(c.stack[i].slot)
      ensures c.reg == i + 1
    {
      RegisterIndex(c, i);
    }
    if c.reg != 0 {
      var slot := FreeSlot(c).value;
      var i := c.reg - 1;
      var moved := MarkAllocated(c.(reg := 0), slot).(stack := c.stack[i := c.stack[i].(slot := slot)]);
      MovedOk(c, moved, i, slot);
      EmitOk(moved, SetSlot(c.stack[i].ty, slot));
      GrowsTrans(c, moved, PreserveRegister(c).value);
    }
  }

  lemma PreserveNonTopRegisterOk(c: CState)
    requires Inv(c) && PreserveNonTopRegister(c).Some?
    ensures var d := PreserveNonTopRegister(c).value;
      Inv(d) && Grows(c, d) && |d.stack| == |c.stack| && (d.reg == 0 || d.reg == |d.stack|)
  {
    if c.reg != 0 && c.reg != |c.stack| {
      PreserveRegisterOk(c);
    }
  }

  // ----- copy-on-write locals -----

  lemma {:induction false} ScanStartBounds(outers: seq<Scope>, block: Scope, lo: nat, hi: nat)
    requires lo <= block.base <= hi
    requires forall k :: 0 <= k < |outers| ==> lo <= outers[k].base <= hi
    ensures lo <= ScanStart(outers, block) <= hi
    decreases |outers|
  {
    if block.kind == BlockScope && |outers| > 0 {
      ScanStartBounds(outers[..|outers| - 1], outers[|outers| - 1], lo, hi);
    }
  }

  /** Operands below the current block never alias a local, so where the search starts makes no difference. */
  lemma ReferencesAbove(c: CState, slot: nat)
    requires Inv(c) && IsLocal(c.layout, slot)
    ensures |c.layout.locals| <= ScanStart(c.outers, c.block) <= c.block.base
    ensures forall i :: |c.layout.locals| <= i < |c.stack| && c.stack[i].slot == slot ==>
      i >= c.block.base && c.stack[i].live && c.stack[i].ty == c.layout.locals[slot - c.layout.numRets]
  {
    ScanStartBounds(c.outers, c.block, |c.layout.locals|, c.block.base);
    forall i | |c.layout.locals| <= i < |c.stack| && c.stack[i].slot == slot
      ensures i >= c.block.base && c.stack[i].live && c.stack[i].ty == c.layout.locals[slot - c.layout.numRets]
    {
      assert EntryOk(c, i);
    }
  }

  lemma RedirectedEntries(c: CState, d: CState, slot: nat, kept: nat)
    requires Inv(c) && IsLocal(c.layout, slot) && IsDynamic(c.layout, kept)
    requires d.layout == c.layout && d.consts == c.consts && d.block == c.block && d.reg == c.reg
    requires d.stack == Redirect(c.stack, ScanStart(c.outers, c.block), slot, kept)
    ensures HomesOk(d) && EntriesOk(d) && RegisterOk(d)
  {
    ReferencesAbove(c, slot);
    forall i | |d.layout.locals| <= i < |d.stack|
      ensures EntryOk(d, i)
    {
      assert EntryOk(c, i);
    }
  }

  /** All operands that alias the local move to one fresh slot, counted once for each of them. */
  lemma FindReferencedLocalOk(c: CState, slot: nat)
    requires Inv(c) && IsLocal(c.layout, slot) && FindReferencedLocal(c, slot).Some?
    ensures var (d, kept) := FindReferencedLocal(c, slot).value;
      && Inv(d) && Grows(c, d) && d.reg == c.reg && PcOf(d) == PcOf(c) && d.pages == c.pages && |d.stack| == |c.stack|
      && (kept == slot || FreeSlot(c) == Some(kept))
      && (forall i :: 0 <= i < |c.stack| ==>
            d.stack[i] == if i >= |c.layout.locals|
                && c.stack[i].slot == slot then c.stack[i].(slot := kept) else c.stack[i])
  {
    var (d, kept) := FindReferencedLocal(c, slot).value;
    var from := ScanStart(c.outers, c.block);
    ReferencesAbove(c, slot);
    ReferencesZero(c.stack, from, slot);
    if kept != slot {
      RedirectedEntries(c, d, slot, kept);
      forall s | c.layout.firstDynamic <= s < MAX_FUNCTION_SLOTS
        ensures d.usage[s] == Count(d.stack, s)
      {
        CountRedirect(c.stack, from, slot, kept, s);
      }
      assert UsageOk(d);
      assert d.stack[..c.block.base] == c.stack[..c.block.base];
      ScopesUnchanged(c, d);
    }
  }

  /** No operand aliases one of the locals below `n`. */
  ghost predicate NoAliases(c: CState, n: nat) {
    forall i :: |c.layout.locals| <= i < |c.stack| ==>
      !(c.layout.numRets <= c.stack[i].slot < c.layout.numRets + n)
  }

  lemma PreserveLocalOk(c: CState, i: nat)
    requires Inv(c) && i < |c.layout.locals| && NoAliases(c, i) && PreserveLocal(c, i).Some?
    ensures var d := PreserveLocal(c, i).value;
      Inv(d) && Grows(c, d) && d.reg == c.reg && |d.stack| == |c.stack| && NoAliases(d, i + 1)
  {
    var slot := c.stack[i].slot;
    FindReferencedLocalOk(c, slot);
    var (found, kept) := FindReferencedLocal(c, slot).value;
    if kept == slot {
      assert c.stack == found.stack;
      ReferencesAbove(c, slot);
      ReferencesZero(c.stack, ScanStart(c.outers, c.block), slot);
    } else {
      var op := CopySlot(c.stack[i].ty, kept, slot);
      EmitOk(found, op);
      GrowsTrans(c, found, Emit(found, op));
    }
  }

  lemma {:induction false} PreserveLocalsOk(c: CState, i: nat)
    requires Inv(c) && i <= |c.layout.locals| && NoAliases(c, i) && PreserveLocals(c, i).Some?
    ensures var d := PreserveLocals(c, i).value;
      Inv(d) && Grows(c, d) && d.reg == c.reg && |d.stack| == |c.stack| && NoAliases(d, |d.layout.locals|)
    decreases |c.layout.locals| - i
  {
    if i < |c.layout.locals| {
      PreserveLocalOk(c, i);
      var next := PreserveLocal(c, i).value;
      PreserveLocalsOk(next, i + 1);
      GrowsTrans(c, next, PreserveLocals(next, i + 1).value);
    }
  }

  /** After PreserveArgsAndLocals no operand aliases a local any more. */
  lemma PreserveArgsAndLocalsOk(c: CState)
    requires Inv(c) && PreserveArgsAndLocals(c).Some?
    ensures var d := PreserveArgsAndLocals(c).value;
      Inv(d) && Grows(c, d) && d.reg == c.reg && |d.stack| == |c.stack| && NoAliases(d, |d.layout.locals|)
  {
    if |c.stack| > |c.layout.locals| {
      PreserveLocalsOk(c, 0);
    }
  }
}
