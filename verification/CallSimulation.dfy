/** Calls: the caller's placement of arguments and results is the callee's slot layout, and the callee's frame lies
    above everything the caller still needs.
 */
module CallSimulation {
  import opened Words
  import opened Wasm
  import opened Machine
  import opened Allocator
  import opened Compiler
  import opened Invariant
  import opened CompilerInvariant
  import opened Relation
  import opened OperatorSimulation
  import opened Control
  import opened Simulation
  import opened BranchSimulation
  import opened InstructionSimulation

  /** Every operand in memory lives below the next call frame. */
  lemma OperandsBelow(c: CState, base: nat)
    requires Inv(c) && c.maxAllocated <= base && c.layout.firstDynamic <= base
    ensures forall i :: 0 <= i < |c.stack| && c.stack[i].live && !IsAlias(c.stack[i].slot) ==> c.stack[i].slot < base
  {
    forall i | 0 <= i < |c.stack| && c.stack[i].live && !IsAlias(c.stack[i].slot)
      ensures c.stack[i].slot < base
    {
      if i >= |c.layout.locals| {
        assert EntryOk(c, i);
        if IsDynamic(c.layout, c.stack[i].slot) {
          CountZero(c.stack, c.stack[i].slot);
        }
      }
    }
  }

  /** The arguments `vs` are in consecutive slots from `a`. */
  ghost predicate ArgsIn(mem: Memory, a: nat, vs: seq<Val>) {
    forall i :: 0 <= i < |vs| ==> Holds(Get(mem, a + i), vs[i])
  }

  /** Passing one argument. */
  lemma CopyArgSim(p: Program, c: CState, dst: nat, s: State, vals: seq<Option<Val>>, v: Val) returns (t: State)
    requires Inv(c) && !c.block.polymorphic && CopyTopToSlot(c, dst).Some? && Pop(CopyTopToSlot(c, dst).value).Some?
    requires Linked(p, Pop(CopyTopToSlot(c, dst).value).value)
    requires Match(p, c, s, vals) && |vals| > 0 && vals[|vals| - 1] == Some(v)
    requires c.maxAllocated <= dst && c.layout.firstDynamic <= dst
    ensures Straight(p, s, 1, t) && Match(p, Pop(CopyTopToSlot(c, dst).value).value, t, vals[..|vals| - 1])
    ensures Holds(Get(t.mem, t.sp + dst), v)
    ensures forall a: nat {:trigger Get(t.mem, a)} :: a != s.sp + dst ==> Get(t.mem, a) == Get(s.mem, a)
  {
    hide Inv, Grows, GrowsAnyPage, Linked, StackHolds, ConstsHold, PcOf, Pop, CopyIndexToSlot;
    MatchSize(p, c, s, vals);
    var i := |c.stack| - 1;
    var copied := CopyIndexToSlot(c, dst, i);
    CopyOk(c, dst, i);
    GoodFacts(c, copied);
    CopyArgOk(c, dst);
    PopOk(copied);
    GrowsAny(copied, Pop(copied).value);
    LinkedBefore(p, copied, Pop(copied).value);
    GrowsAny(c, copied);
    LinkedBefore(p, c, copied);
    t := CopySim(p, c, dst, i, s, vals, v);
    OperandsBelow(c, dst);
    WriteUnused(c.stack, vals, s.sp, s.mem, t.mem, s.r0, dst);
    WriteKeepsConsts(p, c, s.sp, s.mem, t.mem, dst);
    PopSim(p, copied, t, vals);
  }

  /** The operands `vs` are the topmost ones. */
  ghost predicate Ends(vals: seq<Option<Val>>, vs: seq<Val>) {
    |vs| <= |vals| && vals[|vals| - |vs|..] == Somes(vs)
  }

  lemma EndsTop(vals: seq<Option<Val>>, vs: seq<Val>)
    requires Ends(vals, vs) && |vs| > 0
    ensures |vals| > 0 && vals[|vals| - 1] == Some(vs[|vs| - 1])
    ensures Ends(vals[..|vals| - 1], vs[..|vs| - 1])
  {
    var k := |vals| - |vs|;
    assert vals[k..][|vs| - 1] == Some(vs[|vs| - 1]);
    assert vals[..|vals| - 1][k..] == vals[k..][..|vs| - 1] == Somes(vs[..|vs| - 1]);
  }

  lemma {:induction false} CopyArgsSim(p: Program, c: CState, base: nat, k: nat, s: State, vals: seq<Option<Val>>,
                                       vs: seq<Val>)
    returns (n: nat, t: State)
    requires Inv(c) && !c.block.polymorphic && CopyArgs(c, base, k).Some? && Linked(p, CopyArgs(c, base, k).value)
    requires Match(p, c, s, vals) && |vs| == k && Ends(vals, vs)
    requires c.maxAllocated <= base && c.layout.firstDynamic <= base
    ensures Straight(p, s, n, t) && Match(p, CopyArgs(c, base, k).value, t, vals[..|vals| - k])
    ensures ArgsIn(t.mem, s.sp + base, vs)
    ensures forall a: nat {:trigger Get(t.mem, a)} ::
      a < s.sp + base || a >= s.sp + base + k ==> Get(t.mem, a) == Get(s.mem, a)
    decreases k
  {
    hide Inv, Grows, GrowsAnyPage, Linked, Match, Pop, CopyTopToSlot, Ends;
    if k == 0 {
      n, t := 0, s;
      assert vals[..|vals| - k] == vals;
      StraightSelf(p, c, s, vals);
    } else {
      var dst := base + k - 1;
      var next := Pop(CopyTopToSlot(c, dst).value).value;
      CopyArgOk(c, dst);
      GoodFacts(c, next);
      CopyArgsOk(next, base, k - 1);
      GrowsAny(next, CopyArgs(next, base, k - 1).value);
      LinkedBefore(p, next, CopyArgs(next, base, k - 1).value);
      EndsTop(vals, vs);
      var u := CopyArgSim(p, c, dst, s, vals, vs[k - 1]);
      var shorter := vals[..|vals| - 1];
      var m, w := CopyArgsSim(p, next, base, k - 1, u, shorter, vs[..k - 1]);
      n, t := 1 + m, w;
      StraightTrans(p, s, 1, u, m, w);
      assert shorter[..|shorter| - (k - 1)] == vals[..|vals| - k];
      ArgsJoined(t.mem, s.sp + base, vs);
    }
  }

  lemma ArgsJoined(mem: Memory, a: nat, vs: seq<Val>)
    requires |vs| > 0 && ArgsIn(mem, a, vs[..|vs| - 1]) && Holds(Get(mem, a + |vs| - 1), vs[|vs| - 1])
    ensures ArgsIn(mem, a, vs)
  {
    forall i | 0 <= i < |vs|
      ensures Holds(Get(mem, a + i), vs[i])
    {
      if i < |vs| - 1 {
        assert vs[..|vs| - 1][i] == vs[i];
      }
    }
  }

  // ----- the states of a call -----

  /** The state after the arguments were passed. */
  function Passed(c: CState, m: Module, f: nat): Option<CState>
    requires f < |m|
  {
    CopyArgs(c.(maxAllocated := TrimMax(c, c.maxAllocated)), FrameBase(c) + |m[f].results|, |m[f].params|)
  }

  lemma CallShape(c: CState, m: Module, f: nat) returns (passed: CState, pushed: CState)
    requires Inv(c) && !c.block.polymorphic && CompileCall(c, m, f).Some?
    ensures f < |m| && Passed(c, m, f) == Some(passed)
    ensures CompileCall(c, m, f).value == Emit(pushed, OpCall(f, FrameBase(c)))
    ensures Inv(c.(maxAllocated := TrimMax(c, c.maxAllocated))) && Inv(passed) && Inv(pushed)
    ensures Good(c, passed) && GrowsAnyPage(passed, pushed) && GrowsAnyPage(pushed, CompileCall(c, m, f).value)
    ensures passed.maxAllocated <= FrameBase(c) && c.layout.firstDynamic <= FrameBase(c)
    ensures pushed.stack == passed.stack + ConsecutiveEntries(FrameBase(c), m[f].results)
    ensures PcOf(pushed) == PcOf(passed) && pushed.layout == passed.layout == c.layout && pushed.block == c.block
    ensures TrimMax(c, c.maxAllocated) <= FrameBase(c)
    ensures FrameBase(c) + |m[f].results| <= MAX_FUNCTION_SLOTS || |m[f].results| == 0
  {
    hide Inv, Grows, GrowsAnyPage, CopyArgs, PushResultsAt, FrameBase, TrimMax, PcOf, Emit;
    FrameBaseOk(c);
    ArgsPassedOk(c, m, f);
    var base := FrameBase(c);
    passed := Passed(c, m, f).value;
    GoodFacts(c, passed);
    PushResultsAtOk(passed, base, m[f].results);
    ResultsInRange(passed, base, m[f].results);
    pushed := PushResultsAt(passed, base, m[f].results).value;
    GoodFacts(passed, pushed);
    GrowsAny(passed, pushed);
    SamePagesPc(passed, pushed);
    EmitOk(pushed, OpCall(f, base));
    GrowsAny(pushed, Emit(pushed, OpCall(f, base)));
  }

  lemma SamePagesPc(c: CState, d: CState)
    requires d.pages == c.pages && d.page == c.page && d.layout == c.layout
    ensures PcOf(d) == PcOf(c)
  {
  }

  lemma {:induction false} ResultsInRange(c: CState, base: nat, results: seq<ValType>)
    requires PushResultsAt(c, base, results).Some?
    ensures base + |results| <= MAX_FUNCTION_SLOTS || |results| == 0
  {
  }

  /** The callee returned: the caller goes on with the results in place and everything else untouched. */
  lemma Resumed(p: Program, passed: CState, d: CState, pushed: CState, base: nat, results: seq<ValType>, u: State,
                t: State,
                vals: seq<Option<Val>>, vs: seq<Val>)
    requires Inv(passed) && passed.maxAllocated <= base && passed.layout.firstDynamic <= base
    requires Match(p, passed, u, vals) && Linked(p, passed)
    requires t.Running? && t.sp == u.sp && t.r0 == u.r0 && Below(u.sp + base, u.mem, t.mem)
    requires ArgsIn(t.mem, u.sp + base, vs) && TypesOf(vs) == results
    requires base + |results| <= MAX_FUNCTION_SLOTS || |results| == 0
    requires d.layout == passed.layout && d.stack == passed.stack + ConsecutiveEntries(base, results) && t.pc == PcOf(d)
    ensures Match(p, d, t, vals + Somes(vs))
  {
    hide Inv;
    OperandsBelow(passed, base);
    forall i | 0 <= i < |d.stack|
      ensures EntryHolds(d.stack[i], (vals + Somes(vs))[i], t.sp, t.mem, t.r0)
    {
      if i < |passed.stack| {
        assert EntryHolds(passed.stack[i], vals[i], u.sp, u.mem, u.r0);
      } else {
        assert d.stack[i].ty == TypesOf(vs)[i - |passed.stack|];
      }
    }
  }

  lemma EndsStack(locals: seq<Val>, mid: seq<Option<Val>>, stack: seq<Val>, k: nat)
    requires k <= |stack|
    ensures Ends(Vals(locals, mid, stack), Top(stack, k)) && k <= |Vals(locals, mid, stack)|
    ensures Vals(locals, mid, stack)[..|Vals(locals, mid, stack)| - k] == Vals(locals, mid, stack[..|stack| - k])
  {
    var vals := Vals(locals, mid, stack);
    assert vals[|vals| - k..] == Somes(Top(stack, k));
  }

  /** From a call's first argument to the callee's first operation: its frame holds exactly the arguments. */
  lemma ArgumentsSim(p: Program, m: Module, c: CState, f: nat, s: State, locals: seq<Val>, mid: seq<Option<Val>>,
                     stack: seq<Val>, depths: seq<nat>)
    returns (n: nat, t: State, u: State, passed: CState, pushed: CState)
    requires Ready(p, c, s, locals, mid, stack, depths) && CompileCall(c, m, f).Some?
    requires Linked(p, CompileCall(c, m, f).value) && f < |m| && |m[f].params| <= |stack|
    ensures Straight(p, s, n, u) && s.Running? && t == Steps(p, n + 1, s) && u.Running?
    ensures t == Running(PC(f, 0, 0), u.sp + FrameBase(c), u.mem, ZERO, u.frames + [CallFrame(u.pc.Next(), u.sp, u.r0)])
    ensures ArgsIn(t.mem, t.sp + |m[f].results|, Top(stack, |m[f].params|))
    ensures Match(p, passed, u, Vals(locals, mid, stack[..|stack| - |m[f].params|])) && Linked(p, passed)
    ensures Inv(passed) && passed.maxAllocated <= FrameBase(c) && passed.layout.firstDynamic <= FrameBase(c)
    ensures CompileCall(c, m, f).value == Emit(pushed, OpCall(f, FrameBase(c))) && Inv(pushed)
    ensures pushed.stack == passed.stack + ConsecutiveEntries(FrameBase(c), m[f].results)
      && pushed.layout == passed.layout
    ensures FrameBase(c) + |m[f].results| <= MAX_FUNCTION_SLOTS || |m[f].results| == 0
    ensures u.pc == PcOf(pushed)
  {
    hide Inv, Grows, GrowsAnyPage, Linked, Ready, At, Match, CompileCall, CopyArgs, FrameBase, TrimMax, Emit, PcOf,
      ArgsIn, Ends, Vals,
      StackHolds, ConstsHold;
    ReadyFacts(p, c, s, locals, mid, stack, depths);
    var k := |m[f].params|;
    passed, pushed := CallShape(c, m, f);
    var base := FrameBase(c);
    var op := OpCall(f, base);
    LinkedBefore(p, pushed, Emit(pushed, op));
    LinkedBefore(p, passed, pushed);
    FetchEmitted(p, pushed, op);
    var trimmed := c.(maxAllocated := TrimMax(c, c.maxAllocated));
    MatchTrimmed(p, c, trimmed, s, Vals(locals, mid, stack));
    EndsStack(locals, mid, stack, k);
    n, u := CopyArgsSim(p, trimmed, base + |m[f].results|, k, s, Vals(locals, mid, stack), Top(stack, k));
    MatchSize(p, passed, u, Vals(locals, mid, stack[..|stack| - k]));
    t := Step(p, u);
    StraightThen(p, s, n, u);
    CallStep(p, u, f, base, |m[f].results|, Top(stack, k), s.sp);
  }

  lemma MatchTrimmed(p: Program, c: CState, d: CState, s: State, vals: seq<Option<Val>>)
    requires Match(p, c, s, vals) && d == c.(maxAllocated := d.maxAllocated)
    ensures Match(p, d, s, vals)
  {
  }

  lemma CallStep(p: Program, u: State, f: nat, base: nat, rets: nat, args: seq<Val>, sp: nat)
    requires u.Running? && Fetch(p, u.pc) == Some(OpCall(f, base)) && u.sp == sp
      && ArgsIn(u.mem, sp + (base + rets), args)
    ensures Step(p, u) == Running(PC(f, 0, 0), u.sp + base, u.mem, ZERO,
      u.frames + [CallFrame(u.pc.Next(), u.sp, u.r0)])
    ensures ArgsIn(u.mem, u.sp + base + rets, args)
  {
  }

  /** The callee's return resumes the caller with its register and all its operands. */
  lemma ReturnedSim(p: Program, m: Module, c: CState, f: nat, s: State, n: nat, u: State, t: State, n2: nat, t2: State,
                    locals: seq<Val>, mid: seq<Option<Val>>, stack: seq<Val>, passed: CState, pushed: CState,
                        vs: seq<Val>)
    requires f < |m| && |m[f].params| <= |stack| && Straight(p, s, n, u) && t == Steps(p, n + 1, s) && u.Running?
    requires t == Running(PC(f, 0, 0), u.sp + FrameBase(c), u.mem, ZERO,
      u.frames + [CallFrame(u.pc.Next(), u.sp, u.r0)])
    requires Match(p, passed, u, Vals(locals, mid, stack[..|stack| - |m[f].params|])) && Linked(p, passed)
    requires Inv(passed) && passed.maxAllocated <= FrameBase(c) && passed.layout.firstDynamic <= FrameBase(c)
    requires CompileCall(c, m, f).Some? && CompileCall(c, m, f).value == Emit(pushed, OpCall(f, FrameBase(c)))
      && Inv(pushed)
    requires pushed.stack == passed.stack + ConsecutiveEntries(FrameBase(c), m[f].results)
      && pushed.layout == passed.layout
    requires FrameBase(c) + |m[f].results| <= MAX_FUNCTION_SLOTS || |m[f].results| == 0
    requires u.pc == PcOf(pushed)
    requires ReturnedWith(t, t2, |t.frames|, vs) && TypesOf(vs) == m[f].results && t2 == Steps(p, n + 1 + n2, s)
    ensures Straight(p, s, n + 1 + n2, t2)
    ensures Match(p, CompileCall(c, m, f).value, t2, Vals(locals, mid, stack[..|stack| - |m[f].params|] + vs))
  {
    hide Inv, Linked, Match, CompileCall, FrameBase, PcOf, Emit, Vals;
    assert t.frames[..|t.frames|] == t.frames;
    var mem: Memory :| t2 == Unwind(Null, mem, t.frames) && ResultsIn(mem, t.sp, vs) && Below(t.sp, t.mem, mem);
    assert t.frames[..|t.frames| - 1] == u.frames;
    assert t2 == Running(u.pc.Next(), u.sp, mem, u.r0, u.frames);
    var below := Vals(locals, mid, stack[..|stack| - |m[f].params|]);
    var op := OpCall(f, FrameBase(c));
    EmitOk(pushed, op);
    EmitFacts(pushed, op);
    Resumed(p, passed, Emit(pushed, op), pushed, FrameBase(c), m[f].results, u, t2, below, vs);
    ValsAppend(locals, mid, stack[..|stack| - |m[f].params|], vs);
  }

  lemma ValsAppend(locals: seq<Val>, mid: seq<Option<Val>>, stack: seq<Val>, vs: seq<Val>)
    ensures Vals(locals, mid, stack) + Somes(vs) == Vals(locals, mid, stack + vs)
  {
  }
}
