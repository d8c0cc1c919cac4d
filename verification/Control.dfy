/** Where control can go, and that branches and returns take it there: results in their landing slots, everything below
    the target's operands intact, native frames unwound to the right loop or call.
 */
module Control {
  import opened Words
  import opened Wasm
  import opened Machine
  import opened Allocator
  import opened Compiler
  import opened Invariant
  import opened CompilerInvariant
  import opened Relation
  import opened OperatorSimulation

  // ----- source state and machine state -----

  function Somes(vs: seq<Val>): (r: seq<Option<Val>>)
    ensures |r| == |vs|
    ensures forall i :: 0 <= i < |r| ==> r[i] == Some(vs[i])
  {
    seq(|vs|, i requires 0 <= i < |vs| => Some(vs[i]))
  }

  /** What the entries of the compile-time stack denote: locals, operands of enclosing blocks, operands of this
      block. */
  function Vals(locals: seq<Val>, mid: seq<Option<Val>>, stack: seq<Val>): seq<Option<Val>> {
    Somes(locals) + mid + Somes(stack)
  }

  /** The machine is in state `s` where the source program has these locals and block operands. */
  ghost predicate At(p: Program, c: CState, s: State, locals: seq<Val>, mid: seq<Option<Val>>, stack: seq<Val>) {
    && |locals| == |c.layout.locals|
    && |mid| + |c.layout.locals| == c.block.base
    && Match(p, c, s, Vals(locals, mid, stack))
  }

  lemma AtSize(p: Program, c: CState, s: State, locals: seq<Val>, mid: seq<Option<Val>>, stack: seq<Val>)
    requires At(p, c, s, locals, mid, stack)
    ensures |c.stack| == c.block.base + |stack| == |Vals(locals, mid, stack)|
    ensures forall k :: 0 <= k < |stack| ==> Vals(locals, mid, stack)[c.block.base + k] == Some(stack[k])
    ensures forall k :: 0 <= k < |locals| ==> Vals(locals, mid, stack)[k] == Some(locals[k])
    ensures s.Running? && s.pc == PcOf(c) && c.layout.fn < |p.codes|
  {
    hide ConstsHold, EntryHolds, PcOf;
  }

  /** An address not yet reached by the code of state `c`. */
  ghost predicate Beyond(c: CState, pc: PC) {
    pc.fn == c.layout.fn && (pc.page >= |c.pages| || pc.line > |c.pages[pc.page]|)
  }

  /** A run that stays in its frame and may leave behind activations of finished loops. */
  ghost predicate Advance(p: Program, c: CState, s: State, n: nat, t: State) {
    && s.Running? && t == Steps(p, n, s)
    && t.Running? && t.sp == s.sp && Below(s.sp, s.mem, t.mem)
    && s.frames <= t.frames
    && forall j :: |s.frames| <= j < |t.frames| ==> t.frames[j].LoopFrame? && Beyond(c, t.frames[j].pc)
  }

  lemma StraightAdvance(p: Program, c: CState, s: State, n: nat, t: State)
    requires Straight(p, s, n, t)
    ensures Advance(p, c, s, n, t)
  {
  }

  lemma BeyondBefore(c: CState, d: CState, pc: PC)
    requires GrowsAnyPage(c, d) && Beyond(d, pc)
    ensures Beyond(c, pc)
  {
    if pc.page < |c.pages| {
      assert c.pages[pc.page] <= d.pages[pc.page];
    }
  }

  lemma AdvanceTrans(p: Program, c: CState, d: CState, s: State, m: nat, t: State, n: nat, u: State)
    requires Advance(p, c, s, m, t) && GrowsAnyPage(c, d) && Advance(p, d, t, n, u)
    ensures Advance(p, c, s, m + n, u)
  {
    StepsCompose(p, m, n, s);
    forall j | |s.frames| <= j < |u.frames|
      ensures u.frames[j].LoopFrame? && Beyond(c, u.frames[j].pc)
    {
      if j < |t.frames| {
        assert u.frames[j] == t.frames[j];
      } else {
        BeyondBefore(c, d, u.frames[j].pc);
      }
    }
  }

  /** Each enclosing loop has its activation of op_Loop at a known depth, and no activation above it has its id. */
  ghost predicate FramesOk(c: CState, sp: nat, frames: seq<Frame>, depths: seq<nat>) {
    && |depths| == |Scopes(c)| && depths[0] <= |frames| && OnlyLoops(frames, depths[0])
    && forall k :: 0 <= k < |Scopes(c)| && Scopes(c)[k].kind == LoopScope ==>
      && depths[0] < depths[k] <= |frames|
      && frames[depths[k] - 1] == LoopFrame(Scopes(c)[k].pc, sp)
      && forall j :: depths[k] <= j < |frames| ==> frames[j].pc != Scopes(c)[k].pc
  }

  /** Loops finished since state `c` have ids of their own. */
  lemma FramesAdvance(p: Program, c: CState, d: CState, s: State, n: nat, t: State, depths: seq<nat>)
    requires Inv(c) && Advance(p, c, s, n, t) && FramesOk(c, s.sp, s.frames, depths)
    requires Scopes(d) == Scopes(c)
    ensures FramesOk(d, t.sp, t.frames, depths)
  {
    forall k | 0 <= k < |Scopes(d)| && Scopes(d)[k].kind == LoopScope
      ensures && depths[0] < depths[k] <= |t.frames|
              && t.frames[depths[k] - 1] == LoopFrame(Scopes(d)[k].pc, t.sp)
              && forall j :: depths[k] <= j < |t.frames| ==> t.frames[j].pc != Scopes(d)[k].pc
    {
      assert ScopeOk(c, k);
      forall j | depths[k] <= j < |t.frames|
        ensures t.frames[j].pc != Scopes(d)[k].pc
      {
        if j < |s.frames| {
          assert t.frames[j] == s.frames[j];
        }
      }
    }
  }

  /** The ends of all enclosing blocks are patched in the finished code. */
  ghost predicate EndsKnown(p: Program, c: CState) {
    c.layout.fn < |p.codes|
    && forall k :: 0 < k < |Scopes(c)| ==> Scopes(c)[k].end in CodeFor(p, c).patched
  }

  // ----- where a branch lands -----

  /** The locals and the first `n` entries are as the source says. */
  ghost predicate Outer(p: Program, c: CState, n: nat, t: State, locals: seq<Val>, mid: seq<Option<Val>>) {
    && c.layout.fn < |p.codes| && t.Running?
    && n <= |c.stack| && n <= |locals| + |mid|
    && StackHolds(c.stack[..n], (Somes(locals) + mid)[..n], t.sp, t.mem, t.r0)
    && ConstsHold(p, c.layout, t.sp, t.mem)
  }

  ghost predicate ResultsIn(mem: Memory, sp: nat, vs: seq<Val>) {
    forall i :: 0 <= i < |vs| ==> Holds(Get(mem, sp + i), vs[i])
  }

  /** The function returned: its results are in its first slots and the frames of its loops are gone. */
  ghost predicate ReturnedWith(s: State, t: State, depth: nat, vs: seq<Val>) {
    && s.Running? && depth <= |s.frames|
    && exists mem: Memory ::
      t == Unwind(Null, mem, s.frames[..depth]) && ResultsIn(mem, s.sp, vs) && Below(s.sp, s.mem, mem)
  }

  ghost predicate AtLanding(p: Program, c: CState, sc: Scope, t: State, vs: seq<Val>) {
    && t.Running? && |vs| == |sc.results| && sc.exit + |vs| <= |c.stack|
    && forall i :: 0 <= i < |vs| ==> Holds(Get(t.mem, t.sp + c.stack[sc.exit + i].slot), vs[i])
  }

  /** A branch to scope `k` with `stack` as the operands of the branching block has arrived. */
  ghost predicate Landed(p: Program, c: CState, s: State, n: nat, t: State, k: nat, mid: seq<Option<Val>>,
                         depths: seq<nat>, locals: seq<Val>, stack: seq<Val>)
    requires k < |Scopes(c)| == |depths|
  {
    var sc := Scopes(c)[k];
    && s.Running? && c.layout.fn < |p.codes| && t == Steps(p, n, s)
    && if sc.kind == FuncScope then
         HasTop(stack, sc.results) ==> ReturnedWith(s, t, depths[0], Top(stack, |sc.results|))
       else if sc.kind == LoopScope then
         && t.Running? && t.pc == sc.pc && t.sp == s.sp && Below(s.sp, s.mem, t.mem)
         && depths[k] <= |s.frames| && t.frames == s.frames[..depths[k]]
         && Outer(p, c, sc.exit, t, locals, mid)
       else
         HasTop(stack, sc.results) ==>
           && Advance(p, c, s, n, t)
           && sc.end in CodeFor(p, c).patched && t.pc == CodeFor(p, c).patched[sc.end]
           && Outer(p, c, sc.exit, t, locals, mid)
           && AtLanding(p, c, sc, t, Top(stack, |sc.results|))
  }

  // ----- moving results to their landing slots -----

  lemma PrefixHolds(p: Program, c: CState, s: State, locals: seq<Val>, mid: seq<Option<Val>>, stack: seq<Val>, n: nat)
    requires At(p, c, s, locals, mid, stack) && n <= c.block.base
    ensures Outer(p, c, n, s, locals, mid)
  {
    PoppedHolds(c.stack, Vals(locals, mid, stack), s.sp, s.mem, s.r0, n);
    assert Vals(locals, mid, stack)[..n] == (Somes(locals) + mid)[..n];
  }

  /** One operand copied to an unused slot. */
  lemma CopySim(p: Program, c: CState, dst: nat, i: nat, s: State, vals: seq<Option<Val>>, v: Val) returns (t: State)
    requires Inv(c) && i < |c.stack| && Linked(p, CopyIndexToSlot(c, dst, i))
    requires Match(p, c, s, vals) && vals[i] == Some(v)
    ensures Straight(p, s, 1, t) && t.pc == PcOf(CopyIndexToSlot(c, dst, i)) && t.r0 == s.r0
    ensures Holds(Get(t.mem, t.sp + dst), v)
    ensures forall a: nat {:trigger Get(t.mem, a)} :: a != s.sp + dst ==> Get(t.mem, a) == Get(s.mem, a)
  {
    hide Inv, Linked, PcOf, Emit, StackHolds, ConstsHold;
    var e := c.stack[i];
    var op := if IsAlias(e.slot) then SetSlot(e.ty, dst) else CopySlot(e.ty, dst, e.slot);
    MatchSize(p, c, s, vals);
    Operand(p, c, s, vals, i, v);
    EmitOk(c, op);
    FetchEmitted(p, c, op);
    OneStep(p, s);
    t := Step(p, s);
    StoreHolds(Get(s.mem, s.sp + dst), e.ty, ValueAt(e.slot, s.sp, s.mem, s.r0), v);
  }

  /** The landing slot of an enclosing block is a dynamic slot that no operand below the block uses. */
  lemma LandingSlot(c: CState, k: nat)
    requires Inv(c) && 0 < k < |Scopes(c)| && |Scopes(c)[k].results| == 1
    ensures var sc := Scopes(c)[k];
      && sc.exit < sc.base <= c.block.base && sc.exit < |c.stack|
      && IsDynamic(c.layout, c.stack[sc.exit].slot)
      && |c.layout.locals| <= sc.exit
      && (forall i :: 0 <= i < sc.exit && c.stack[i].live ==> c.stack[i].slot != c.stack[sc.exit].slot)
  {
    var sc := Scopes(c)[k];
    assert ScopeOk(c, k);
    ExitBounds(c, k);
    assert EntryOk(c, sc.exit);
  }

  lemma ExitBounds(c: CState, k: nat)
    requires Inv(c) && 0 < k < |Scopes(c)|
    ensures |c.layout.locals| <= Scopes(c)[k].exit <= Scopes(c)[k].base <= c.block.base <= |c.stack|
    ensures |Scopes(c)[k].results| <= 1 && Scopes(c)[k].kind != FuncScope && Emitted(c, Scopes(c)[k].pc)
    ensures Scopes(c)[k].base == Scopes(c)[k].exit + |Scopes(c)[k].results|
  {
    assert ScopeOk(c, k);
    if k == 1 {
      assert ScopeOk(c, 0);
    } else {
      assert c.outers[k - 1] == Scopes(c)[k - 1];
    }
  }

  lemma OuterAfterWrite(p: Program, c: CState, n: nat, s: State, t: State, locals: seq<Val>, mid: seq<Option<Val>>,
                        d: nat)
    requires Linked(p, c) && Outer(p, c, n, s, locals, mid) && t.Running? && t.sp == s.sp && t.r0 == s.r0
    requires forall a: nat {:trigger Get(t.mem, a)} :: a != s.sp + d ==> Get(t.mem, a) == Get(s.mem, a)
    requires forall i :: 0 <= i < n && c.stack[i].live ==> c.stack[i].slot != d
    requires d >= c.layout.firstDynamic
    ensures Outer(p, c, n, t, locals, mid)
  {
    WriteUnused(c.stack[..n], (Somes(locals) + mid)[..n], s.sp, s.mem, t.mem, s.r0, d);
    WriteKeepsConsts(p, c, s.sp, s.mem, t.mem, d);
  }

  /** ResolveBlockResults for a block-like target: afterwards the result is in its landing slot. */
  lemma ResolveSim(p: Program, c: CState, k: nat, isBranch: bool, s: State, locals: seq<Val>, mid: seq<Option<Val>>,
                   stack: seq<Val>)
    returns (n: nat, t: State)
    requires Inv(c) && 0 < k < |Scopes(c)| && At(p, c, s, locals, mid, stack)
    requires var sc := Scopes(c)[k];
      && (sc.kind != LoopScope || !isBranch) && HasTop(stack, sc.results)
      && ResolveResults(c, sc, isBranch).Some? && Linked(p, ResolveResults(c, sc, isBranch).value)
    ensures var sc := Scopes(c)[k];
      && Straight(p, s, n, t) && t.pc == PcOf(ResolveResults(c, sc, isBranch).value)
      && Outer(p, c, sc.exit, t, locals, mid) && AtLanding(p, c, sc, t, Top(stack, |sc.results|))
  {
    hide Inv, Grows, GrowsAnyPage, Linked, StackHolds, ConstsHold, PcOf, CopyStackSlotsR, CopyIndexToSlot;
    var sc := Scopes(c)[k];
    var d := ResolveResults(c, sc, isBranch).value;
    ExitBounds(c, k);
    AtSize(p, c, s, locals, mid, stack);
    ResolveResultsOk(c, sc, isBranch);
    GrowsAny(c, d);
    LinkedBefore(p, c, d);
    PrefixHolds(p, c, s, locals, mid, stack, sc.exit);
    if sc.results == [] {
      n, t := 0, s;
    } else {
      LandingSlot(c, k);
      n, t := ResolveOneSim(p, c, sc, isBranch, s, locals, mid, stack);
    }
  }

  /** With one result the move is one copy, or nothing when the operand already lives in the landing slot. */
  lemma ResolveOneShape(c: CState, sc: Scope, isBranch: bool)
    requires |sc.results| == 1 && (sc.kind != LoopScope || !isBranch) && sc.exit < |c.stack|
    requires ResolveResults(c, sc, isBranch).Some?
    ensures var dst, top := c.stack[sc.exit].slot, |c.stack| - 1;
      ResolveResults(c, sc, isBranch).value == if c.stack[top].slot == dst then c else CopyIndexToSlot(c, dst, top)
  {
    hide CopyIndexToSlot;
    MoveOne(c, sc.exit, c.maxSlots);
  }

  lemma ResolveOneSim(p: Program, c: CState, sc: Scope, isBranch: bool, s: State, locals: seq<Val>,
                      mid: seq<Option<Val>>,
                      stack: seq<Val>)
    returns (n: nat, t: State)
    requires Inv(c) && At(p, c, s, locals, mid, stack) && Linked(p, c)
    requires |sc.results| == 1 && (sc.kind != LoopScope || !isBranch) && |stack| > 0 && sc.exit < |c.stack|
    requires ResolveResults(c, sc, isBranch).Some? && Linked(p, ResolveResults(c, sc, isBranch).value)
    requires Outer(p, c, sc.exit, s, locals, mid)
    requires IsDynamic(c.layout, c.stack[sc.exit].slot)
    requires forall i :: 0 <= i < sc.exit && c.stack[i].live ==> c.stack[i].slot != c.stack[sc.exit].slot
    ensures Straight(p, s, n, t) && t.pc == PcOf(ResolveResults(c, sc, isBranch).value)
    ensures Outer(p, c, sc.exit, t, locals, mid) && AtLanding(p, c, sc, t, Top(stack, 1))
  {
    hide Inv, Grows, Linked, StackHolds, ConstsHold, PcOf, ResolveResults, CopyIndexToSlot, Outer, Vals, Match;
    AtSize(p, c, s, locals, mid, stack);
    var dst := c.stack[sc.exit].slot;
    var top := |c.stack| - 1;
    var v := stack[|stack| - 1];
    var vals := Vals(locals, mid, stack);
    assert vals[c.block.base + (|stack| - 1)] == Some(v);
    ResolveOneShape(c, sc, isBranch);
    Operand(p, c, s, vals, top, v);
    assert Top(stack, 1) == [v];
    if c.stack[top].slot == dst {
      n, t := 0, s;
    } else {
      t := CopySim(p, c, dst, top, s, vals, v);
      n := 1;
      OuterAfterWrite(p, c, sc.exit, s, t, locals, mid, dst);
    }
  }

  // ----- returning -----

  lemma EntriesAboveReturns(c: CState)
    requires Inv(c)
    ensures forall i :: 0 <= i < |c.stack| && c.stack[i].live ==> c.stack[i].slot >= c.layout.numRets
  {
    forall i | 0 <= i < |c.stack| && c.stack[i].live
      ensures c.stack[i].slot >= c.layout.numRets
    {
      if i >= |c.layout.locals| {
        assert EntryOk(c, i);
      }
    }
  }

  /** One return value copied to its slot; nothing else moves. */
  lemma ReturnCopySim(p: Program, c: CState, dst: nat, i: nat, s: State, vals: seq<Option<Val>>,
                      v: Val) returns (t: State)
    requires Inv(c) && i < |c.stack| && Linked(p, CopyIndexToSlot(c, dst, i)) && dst < c.layout.numRets
    requires Match(p, c, s, vals) && i < |vals| && vals[i] == Some(v)
    ensures Straight(p, s, 1, t) && Match(p, CopyIndexToSlot(c, dst, i), t, vals)
    ensures Holds(Get(t.mem, t.sp + dst), v)
    ensures forall a: nat {:trigger Get(t.mem, a)} :: a != s.sp + dst ==> Get(t.mem, a) == Get(s.mem, a)
  {
    hide Inv, Grows, Linked, PcOf, CopyIndexToSlot, StackHolds, ConstsHold;
    InvFacts(c);
    MatchSize(p, c, s, vals);
    t := CopySim(p, c, dst, i, s, vals, v);
    CopyOk(c, dst, i);
    GrowsAny(c, CopyIndexToSlot(c, dst, i));
    LinkedBefore(p, c, CopyIndexToSlot(c, dst, i));
    EntriesAboveReturns(c);
    WriteUnused(c.stack, vals, s.sp, s.mem, t.mem, s.r0, dst);
    WriteKeepsConsts(p, c, s.sp, s.mem, t.mem, dst);
  }

  ghost predicate ResultsFrom(mem: Memory, sp: nat, vs: seq<Val>, from: nat) {
    forall i :: from <= i < |vs| ==> Holds(Get(mem, sp + i), vs[i])
  }

  lemma {:induction false} ReturnCopiesSim(p: Program, c: CState, results: seq<ValType>, k: nat, s: State,
                                           vals: seq<Option<Val>>, vs: seq<Val>)
    returns (n: nat, t: State)
    requires Inv(c) && k <= |results| == |vs| == c.layout.numRets && ReturnCopies(c, results, k).Some?
    requires Linked(p, ReturnCopies(c, results, k).value) && Match(p, c, s, vals)
    requires |vs| <= |vals| && forall i :: 0 <= i < |vs| ==> vals[|vals| - |vs| + i] == Some(vs[i])
    requires ResultsFrom(s.mem, s.sp, vs, |vs| - k)
    ensures Straight(p, s, n, t) && Match(p, ReturnCopies(c, results, k).value, t, vals)
    ensures ResultsIn(t.mem, s.sp, vs)
    decreases |results| - k
  {
    hide Inv, Grows, Linked, Match, CopyIndexToSlot, TypeFromTop;
    MatchSize(p, c, s, vals);
    if k == |results| {
      n, t := 0, s;
      StraightSelf(p, c, s, vals);
    } else {
      var dst, i := |vs| - 1 - k, |c.stack| - 1 - k;
      var next := CopyIndexToSlot(c, dst, i);
      CopyOk(c, dst, i);
      ReturnCopiesOk(next, results, k + 1);
      GoodFacts(c, next);
      GrowsAny(next, ReturnCopies(next, results, k + 1).value);
      LinkedBefore(p, next, ReturnCopies(next, results, k + 1).value);
      assert vals[|vals| - |vs| + dst] == Some(vs[dst]);
      var u := ReturnCopySim(p, c, dst, i, s, vals, vs[dst]);
      var m, w := ReturnCopiesSim(p, next, results, k + 1, u, vals, vs);
      n, t := 1 + m, w;
      StraightTrans(p, s, 1, u, m, w);
    }
  }

  /** ReturnValues and op_Return: the results are in the return slots and the function's frames are left. */
  lemma ReturnSim(p: Program, c: CState, results: seq<ValType>, s: State, locals: seq<Val>, mid: seq<Option<Val>>,
                  stack: seq<Val>, depth: nat)
    returns (n: nat, t: State)
    requires Inv(c) && !c.block.polymorphic && |results| == c.layout.numRets && |results| <= |stack|
    requires ReturnValues(c, results, true).Some?
    requires Linked(p, Emit(ReturnValues(c, results, true).value, OpReturn))
    requires At(p, c, s, locals, mid, stack) && depth <= |s.frames| && OnlyLoops(s.frames, depth)
    ensures t == Steps(p, n, s) && n > 0 && ReturnedWith(s, t, depth, Top(stack, |results|))
  {
    hide Inv, Grows, Linked, Match, ReturnCopies, Emit, PcOf, Vals;
    AtSize(p, c, s, locals, mid, stack);
    var vs := Top(stack, |results|);
    var vals := Vals(locals, mid, stack);
    var ready := ReturnValues(c, results, true).value;
    ReturnCopiesOk(c, results, 0);
    EmitOk(ready, OpReturn);
    GrowsAny(ready, Emit(ready, OpReturn));
    LinkedBefore(p, ready, Emit(ready, OpReturn));
    FetchEmitted(p, ready, OpReturn);
    assert forall i :: 0 <= i < |vs| ==> vals[|vals| - |vs| + i] == Some(vs[i]) by {
      forall i | 0 <= i < |vs|
        ensures vals[|vals| - |vs| + i] == Some(vs[i])
      {
        assert vals[c.block.base + (|stack| - |vs| + i)] == Some(stack[|stack| - |vs| + i]);
      }
    }
    var m, u := ReturnCopiesSim(p, c, results, 0, s, vals, vs);
    MatchSize(p, ready, u, vals);
    n, t := m + 1, Step(p, u);
    StraightThen(p, s, m, u);
    UnwindNull(u.mem, u.frames, depth);
  }

  // ----- branching -----

  /** A restarted loop finds its register cleared; nothing below a block lives there. */
  lemma OuterRegister(p: Program, c: CState, n: nat, s: State, t: State, locals: seq<Val>, mid: seq<Option<Val>>)
    requires Inv(c) && n <= c.block.base && Outer(p, c, n, s, locals, mid)
    requires t.Running? && t.sp == s.sp && t.mem == s.mem
    ensures Outer(p, c, n, t, locals, mid)
  {
    forall i | 0 <= i < n
      ensures EntryHolds(c.stack[..n][i], (Somes(locals) + mid)[..n][i], t.sp, t.mem, t.r0)
    {
      assert EntryHolds(c.stack[..n][i], (Somes(locals) + mid)[..n][i], s.sp, s.mem, s.r0);
      if InRegister(c, i) {
        RegisterIndex(c, i);
      }
    }
  }

  /** ContinueLoop, with the id of an enclosing loop. */
  lemma ContinueSim(p: Program, c: CState, k: nat, s: State, locals: seq<Val>, mid: seq<Option<Val>>, stack: seq<Val>,
                    depths: seq<nat>)
    requires Inv(c) && 0 < k < |Scopes(c)| && Scopes(c)[k].kind == LoopScope
    requires At(p, c, s, locals, mid, stack) && FramesOk(c, s.sp, s.frames, depths)
    ensures var t := Unwind(LoopId(Scopes(c)[k].pc), s.mem, s.frames);
      && t.Running? && t.pc == Scopes(c)[k].pc && t.sp == s.sp && t.mem == s.mem
      && depths[k] <= |s.frames| && t.frames == s.frames[..depths[k]]
      && Outer(p, c, Scopes(c)[k].exit, t, locals, mid)
  {
    hide Inv, StackHolds, ConstsHold, Match, Outer;
    AtSize(p, c, s, locals, mid, stack);
    ExitBounds(c, k);
    UnwindLoop(s.mem, s.frames, depths[k] - 1);
    PrefixHolds(p, c, s, locals, mid, stack, Scopes(c)[k].exit);
    OuterRegister(p, c, Scopes(c)[k].exit, s, Unwind(LoopId(Scopes(c)[k].pc), s.mem, s.frames), locals, mid);
  }

  lemma BranchLoopSim(p: Program, c: CState, k: nat, s: State, locals: seq<Val>, mid: seq<Option<Val>>, stack: seq<Val>,
                      depths: seq<nat>)
    requires Inv(c) && 0 < k < |Scopes(c)| && Scopes(c)[k].kind == LoopScope
    requires Linked(p, Emit(c, ContinueLoop(Scopes(c)[k].pc)))
    requires At(p, c, s, locals, mid, stack) && FramesOk(c, s.sp, s.frames, depths)
    ensures Landed(p, c, s, 1, Step(p, s), k, mid, depths, locals, stack)
  {
    hide Inv, StackHolds, ConstsHold, Match, Outer, Emit, PcOf, Linked;
    AtSize(p, c, s, locals, mid, stack);
    ContinueSim(p, c, k, s, locals, mid, stack, depths);
    FetchEmitted(p, c, ContinueLoop(Scopes(c)[k].pc));
    OneStep(p, s);
  }

  lemma BranchBlockSim(p: Program, c: CState, k: nat, s: State, locals: seq<Val>, mid: seq<Option<Val>>,
                       stack: seq<Val>,
                       depths: seq<nat>)
    returns (n: nat, t: State)
    requires Inv(c) && 0 < k < |Scopes(c)| && Scopes(c)[k].kind != LoopScope && EndsKnown(p, c)
    requires HasTop(stack, Scopes(c)[k].results) && |depths| == |Scopes(c)|
    requires BranchTo(c, Scopes(c)[k]).Some? && Linked(p, BranchTo(c, Scopes(c)[k]).value)
    requires At(p, c, s, locals, mid, stack)
    ensures Landed(p, c, s, n, t, k, mid, depths, locals, stack) && n > 0
  {
    hide Inv, Grows, Linked, StackHolds, ConstsHold, Match, Outer, Emit, PcOf, ResolveResults, AtLanding;
    var sc := Scopes(c)[k];
    ExitBounds(c, k);
    AtSize(p, c, s, locals, mid, stack);
    ResolveResultsOk(c, sc, true);
    var ready := ResolveResults(c, sc, true).value;
    var op := Branch(Patched(sc.end));
    EmitOk(ready, op);
    GrowsAny(ready, Emit(ready, op));
    LinkedBefore(p, ready, Emit(ready, op));
    FetchEmitted(p, ready, op);
    var m, u := ResolveSim(p, c, k, true, s, locals, mid, stack);
    GrowsAny(c, ready);
    n, t := m + 1, Step(p, u);
    StraightThen(p, s, m, u);
    PcFn(ready);
    assert t == u.(pc := CodeFor(p, c).patched[sc.end]);
    OuterMoved(p, c, sc, u, t, locals, mid, Top(stack, |sc.results|));
  }

  lemma PcFn(c: CState)
    ensures PcOf(c).fn == c.layout.fn
  {
  }

  /** Only the pc changes at a jump. */
  lemma OuterMoved(p: Program, c: CState, sc: Scope, u: State, t: State, locals: seq<Val>, mid: seq<Option<Val>>,
                   vs: seq<Val>)
    requires u.Running? && t.Running? && t == u.(pc := t.pc)
    requires Outer(p, c, sc.exit, u, locals, mid) && AtLanding(p, c, sc, u, vs)
    ensures Outer(p, c, sc.exit, t, locals, mid) && AtLanding(p, c, sc, t, vs)
  {
  }

  /** The code of a taken branch lands. */
  lemma BranchToSim(p: Program, c: CState, k: nat, s: State, locals: seq<Val>, mid: seq<Option<Val>>, stack: seq<Val>,
                    depths: seq<nat>)
    returns (n: nat, t: State)
    requires Inv(c) && !c.block.polymorphic && k < |Scopes(c)| && EndsKnown(p, c)
    requires BranchTo(c, Scopes(c)[k]).Some? && Linked(p, BranchTo(c, Scopes(c)[k]).value)
    requires At(p, c, s, locals, mid, stack) && FramesOk(c, s.sp, s.frames, depths)
    ensures Landed(p, c, s, n, t, k, mid, depths, locals, stack) && n > 0
  {
    hide Inv, Linked, Match, ReturnValues, ResolveResults, Emit, PcOf;
    var sc := Scopes(c)[k];
    AtSize(p, c, s, locals, mid, stack);
    ScopeKinds(c, k);
    if sc.kind == LoopScope {
      ResolveLoop(c, sc);
      BranchLoopSim(p, c, k, s, locals, mid, stack, depths);
      n, t := 1, Step(p, s);
      OneStep(p, s);
    } else if !HasTop(stack, sc.results) {
      n, t := 1, Steps(p, 1, s);
    } else if sc.kind == FuncScope {
      n, t := ReturnSim(p, c, sc.results, s, locals, mid, stack, depths[0]);
    } else {
      n, t := BranchBlockSim(p, c, k, s, locals, mid, stack, depths);
    }
  }

  lemma ScopeKinds(c: CState, k: nat)
    requires Inv(c) && k < |Scopes(c)|
    ensures k == 0 <==> Scopes(c)[k].kind == FuncScope
    ensures k == 0 ==> |Scopes(c)[k].results| == c.layout.numRets
  {
    assert ScopeOk(c, k);
  }

  /** Nothing is moved for a branch to a loop. */
  lemma ResolveLoop(c: CState, sc: Scope)
    requires sc.kind == LoopScope && ResolveResults(c, sc, true).Some?
    ensures ResolveResults(c, sc, true).value == c
  {
  }

  // ----- changing the point of view -----

  /** A landing seen from an earlier state of the same block. */
  lemma LandedLift(p: Program, c: CState, d: CState, s: State, m: nat, t: State, n: nat, u: State, k: nat,
                   mid: seq<Option<Val>>, depths: seq<nat>, locals: seq<Val>, stack: seq<Val>)
    requires Inv(c) && GrowsAnyPage(c, d) && k < |Scopes(c)| && |depths| == |Scopes(c)|
    requires Advance(p, c, s, m, t) && FramesOk(c, s.sp, s.frames, depths)
    requires Landed(p, d, t, n, u, k, mid, depths, locals, stack)
    ensures Landed(p, c, s, m + n, u, k, mid, depths, locals, stack)
  {
    hide Inv, StackHolds, ConstsHold;
    assert Scopes(d) == Scopes(c);
    var sc := Scopes(c)[k];
    StepsCompose(p, m, n, s);
    ScopeKinds(c, k);
    if sc.kind == FuncScope {
      if HasTop(stack, sc.results) {
        ReturnedLift(s, t, u, depths[0], Top(stack, |sc.results|));
      }
    } else {
      ExitBounds(c, k);
      PrefixSame(c, d, sc.exit);
      if sc.kind == LoopScope {
        assert t.frames[..depths[k]] == s.frames[..depths[k]];
      } else if HasTop(stack, sc.results) {
        AdvanceTrans(p, c, d, s, m, t, n, u);
        LandingSame(p, c, d, sc, u, Top(stack, |sc.results|));
      }
    }
  }

  lemma LandingSame(p: Program, c: CState, d: CState, sc: Scope, u: State, vs: seq<Val>)
    requires GrowsAnyPage(c, d) && sc.base <= c.block.base && sc.base == sc.exit + |sc.results|
    requires AtLanding(p, d, sc, u, vs)
    ensures AtLanding(p, c, sc, u, vs)
  {
    PrefixSame(c, d, sc.base);
    forall i | 0 <= i < |vs|
      ensures Holds(Get(u.mem, u.sp + c.stack[sc.exit + i].slot), vs[i])
    {
      assert c.stack[..sc.base][sc.exit + i] == d.stack[..sc.base][sc.exit + i];
    }
  }

  lemma PrefixSame(c: CState, d: CState, n: nat)
    requires GrowsAnyPage(c, d) && n <= c.block.base
    ensures n <= |c.stack| && n <= |d.stack| && c.stack[..n] == d.stack[..n] && c.layout == d.layout
  {
    assert c.stack[..n] == c.stack[..c.block.base][..n];
    assert d.stack[..n] == d.stack[..c.block.base][..n];
  }

  lemma ReturnedLift(s: State, t: State, u: State, depth: nat, vs: seq<Val>)
    requires s.Running? && t.Running? && t.sp == s.sp && Below(s.sp, s.mem, t.mem)
    requires depth <= |s.frames| && s.frames <= t.frames && ReturnedWith(t, u, depth, vs)
    ensures ReturnedWith(s, u, depth, vs)
  {
    var mem: Memory :| u == Unwind(Null, mem, t.frames[..depth]) && ResultsIn(mem, t.sp, vs) && Below(t.sp, t.mem, mem);
    assert t.frames[..depth] == s.frames[..depth];
  }
}
