/** Call arguments are the one thing op_Entry's comparison does not cover. This says exactly when they stay inside the
    memory allocated for the stack, and gives a call that does not.
 */
module StackReach {
  import opened Words
  import opened IntegerOps
  import opened Wasm
  import opened Machine
  import opened Allocator
  import opened Compiler
  import opened Invariant
  import opened CompilerInvariant
  import opened BlockInvariant
  import opened FunctionSimulation
  import opened StackBound
  import opened CodeBound
  import opened StackSafety

  /** The runtime allocates that many slots more than it lets op_Entry use. */
  const SPARE_SLOTS: nat := 4

  // ----- when arguments stay inside -----

  /** No call's frame with its results and parameters ends further than that behind the caller's slots. */
  ghost predicate CallsReach(m: Module, k: Code) {
    forall p, at :: 0 <= p < |k.pages| && 0 <= at < |k.pages[p]| && k.pages[p][at].OpCall? ==>
      CallReaches(m, k.pages[p][at], k.maxStackSlots)
  }

  predicate CallReaches(m: Module, op: Op, max: nat)
    requires op.OpCall?
  {
    op.callee < |m| && op.offset + |m[op.callee].results| + |m[op.callee].params| <= max + SPARE_SLOTS + 1
  }

  /** An operation of an activation at `sp` touches only allocated slots. */
  predicate Allocated(op: Op, sp: nat, stackSlots: nat) {
    && (forall r <- Reads(op) :: sp + r < stackSlots + SPARE_SLOTS)
    && (forall w <- Writes(op) :: sp + w < stackSlots + SPARE_SLOTS)
  }

  /** ... whatever the size of the stack and wherever the activation is, provided op_Entry let it through. */
  ghost predicate StaysAllocated(k: Code) {
    forall sp: nat, stackSlots: nat, p, l ::
      sp + k.maxStackSlots < stackSlots && 0 <= p < |k.pages| && 0 <= l < |k.pages[p]| ==>
        Allocated(k.pages[p][l], sp, stackSlots)
  }

  lemma LineAllocated(m: Module, k: Code, fn: nat, sp: nat, stackSlots: nat, p: nat, l: nat)
    requires CodeFits(k, fn, m) && CallsReach(m, k)
    requires sp + k.maxStackSlots < stackSlots && p < |k.pages| && l < |k.pages[p]|
    ensures Allocated(k.pages[p][l], sp, stackSlots)
  {
    hide Reads, Writes, StaysIn;
    var ops := k.pages[p];
    assert LineWithin(m, ops, l, fn, k.maxStackSlots);
    if Passes(m, ops, l) {
      var at: nat, j: nat :| IsArgument(m, ops, at, j) && l == at - 1 - j;
      assert CallReaches(m, ops[at], k.maxStackSlots);
    }
  }

  /** The last argument of a call that reaches too far, from the activation highest up in the stack. */
  lemma CallLeaves(m: Module, k: Code, fn: nat, p: nat, at: nat) returns (l: nat)
    requires CodeFits(k, fn, m) && p < |k.pages| && at < |k.pages[p]| && k.pages[p][at].OpCall?
    requires !CallReaches(m, k.pages[p][at], k.maxStackSlots)
    ensures l < |k.pages[p]| && !Allocated(k.pages[p][l], 0, k.maxStackSlots + 1)
  {
    hide Reads, Writes, StaysIn;
    var op := k.pages[p][at];
    assert LineWithin(m, k.pages[p], at, fn, k.maxStackSlots);
    var j := |m[op.callee].params| - 1;
    assert IsArgument(m, k.pages[p], at, j);
    l := at - 1 - j;
    var w := op.offset + |m[op.callee].results| + j;
    assert w in Writes(k.pages[p][l]);
  }

  /** The code of a function stays inside the allocation, in every activation op_Entry lets through, if and only if each
      of its calls satisfies CallReaches. */
  lemma SpareSlotsExact(m: Module, k: Code, fn: nat)
    requires CodeFits(k, fn, m)
    ensures StaysAllocated(k) <==> CallsReach(m, k)
  {
    hide CodeFits, CallReaches, Allocated;
    if CallsReach(m, k) {
      forall sp: nat, stackSlots: nat, p, l
        | sp + k.maxStackSlots < stackSlots && 0 <= p < |k.pages| && 0 <= l < |k.pages[p]|
        ensures Allocated(k.pages[p][l], sp, stackSlots)
      {
        LineAllocated(m, k, fn, sp, stackSlots, p, l);
      }
    } else {
      var p, at :| 0 <= p < |k.pages| && 0 <= at < |k.pages[p]| && k.pages[p][at].OpCall?
        && !CallReaches(m, k.pages[p][at], k.maxStackSlots);
      var l := CallLeaves(m, k, fn, p, at);
    }
  }

  /** Everything the next operation touches was allocated. */
  ghost predicate AccessAllocated(p: Program, s: State)
    requires s.Running? && Fetch(p, s.pc).Some?
  {
    if Fetch(p, s.pc).value.OpEntry? then EntryInside(p, s) else Allocated(Fetch(p, s.pc).value, s.sp, p.stackSlots)
  }

  /** If the condition holds of every function, no run leaves the allocation. */
  lemma RunsStayAllocated(p: Program, m: Module, f: nat, s: State, n: nat)
    requires Compiled(p, m) && s.Running? && s.pc == PC(f, 0, 0) && s.frames == []
    requires forall g :: 0 <= g < |p.codes| ==> CallsReach(m, p.codes[g])
    ensures var t := Steps(p, n, s);
      t.Running? && Fetch(p, t.pc).Some? ==> AccessAllocated(p, t)
  {
    hide Compiled, Steps, CodeFits, FetchedWithin, CallsReach, Allocated, Passes, Reads, Writes;
    var t := Steps(p, n, s);
    RunChecked(p, m, f, s, n);
    if t.Running? && Fetch(p, t.pc).Some? {
      FetchedFits(p, t.pc, m);
      Inside(p, t, m);
      if !Fetch(p, t.pc).value.OpEntry? {
        LineAllocated(m, p.codes[t.pc.fn], t.pc.fn, t.sp, p.stackSlots, t.pc.page, t.pc.line);
      }
    }
  }

  lemma FewParameters(m: Module, k: Code, fn: nat)
    requires CodeFits(k, fn, m) && forall g :: 0 <= g < |m| ==> |m[g].params| <= 4
    ensures CallsReach(m, k)
  {
    hide Reads, Writes, StaysIn, IsArgument;
    forall p, at | 0 <= p < |k.pages| && 0 <= at < |k.pages[p]| && k.pages[p][at].OpCall?
      ensures CallReaches(m, k.pages[p][at], k.maxStackSlots)
    {
      assert LineWithin(m, k.pages[p], at, fn, k.maxStackSlots);
    }
  }

  /** That is so when no function takes more parameters than there are spare slots. */
  lemma SpareSlotsSuffice(p: Program, m: Module, f: nat, s: State, n: nat)
    requires Compiled(p, m) && s.Running? && s.pc == PC(f, 0, 0) && s.frames == []
    requires forall g :: 0 <= g < |m| ==> |m[g].params| <= 4
    ensures var t := Steps(p, n, s);
      t.Running? && Fetch(p, t.pc).Some? ==> AccessAllocated(p, t)
  {
    hide Compiled, Steps, CodeFits, CallsReach, AccessAllocated;
    RunChecked(p, m, f, s, n);
    forall g | 0 <= g < |p.codes|
      ensures CallsReach(m, p.codes[g])
    {
      assert CodeFits(p.codes[g], g, m);
      FewParameters(m, p.codes[g], g);
    }
    RunsStayAllocated(p, m, f, s, n);
  }

  /** How far a call reaches: the first operation it emits writes the last argument to the slot that ends the parameters
      in the callee's frame. */
  lemma CallReach(c: CState, m: Module, f: nat)
    requires Inv(c) && !c.block.polymorphic && CompileCall(c, m, f).Some? && m[f].params != []
    ensures var d, line := CompileCall(c, m, f).value, PcOf(c).line;
      && c.page < |d.pages| && line < |d.pages[c.page]|
      && Writes(d.pages[c.page][line]) == [FrameBase(c) + |m[f].results| + |m[f].params| - 1]
  {
    hide Inv, Grows, CopyArgs, PushResultsAt, FrameBase, TrimMax;
    var base, n := FrameBase(c) + |m[f].results|, |m[f].params|;
    ArgsPassedOk(c, m, f);
    FrameBaseOk(c);
    var trimmed := c.(maxAllocated := TrimMax(c, c.maxAllocated));
    var passed := CopyArgs(trimmed, base, n).value;
    GoodFacts(c, passed);
    FirstArgument(trimmed, base, n);
    PushResultsAtOk(passed, FrameBase(c), m[f].results);
    var pushed := PushResultsAt(passed, FrameBase(c), m[f].results).value;
    EmitOk(pushed, OpCall(f, FrameBase(c)));
    GoodFacts(c, trimmed);
    LineKept(passed, pushed, trimmed.page, PcOf(c).line);
    LineKept(pushed, Emit(pushed, OpCall(f, FrameBase(c))), trimmed.page, PcOf(c).line);
  }

  lemma FirstArgument(c: CState, base: nat, n: nat)
    requires Inv(c) && !c.block.polymorphic && CopyArgs(c, base, n).Some? && n > 0
    ensures var d, line := CopyArgs(c, base, n).value, PcOf(c).line;
      c.page < |d.pages| && line < |d.pages[c.page]| && Writes(d.pages[c.page][line]) == [base + n - 1]
  {
    hide Inv, Grows, Pop, CopyTopToSlot, Writes, PcOf;
    var popped := Pop(CopyTopToSlot(c, base + n - 1).value).value;
    InvFacts(c);
    ArgumentEmitted(c, base + n - 1);
    CopyArgOk(c, base + n - 1);
    GoodFacts(c, popped);
    CopyArgsOk(popped, base, n - 1);
    LineKept(popped, CopyArgs(popped, base, n - 1).value, c.page, PcOf(c).line);
  }

  lemma ArgumentEmitted(c: CState, dst: nat)
    requires c.page < |c.pages| && CopyTopToSlot(c, dst).Some? && Pop(CopyTopToSlot(c, dst).value).Some?
    ensures var d, line := Pop(CopyTopToSlot(c, dst).value).value, PcOf(c).line;
      c.page < |d.pages| && line < |d.pages[c.page]| && Writes(d.pages[c.page][line]) == [dst]
  {
    var copied := CopyTopToSlot(c, dst).value;
    assert Pop(copied).value.pages == copied.pages;
  }

  lemma LineKept(c: CState, d: CState, page: nat, line: nat)
    requires Good(c, d) && page < |c.pages| && line < |c.pages[page]|
    ensures page < |d.pages| && line < |d.pages[page]| && d.pages[page][line] == c.pages[page][line]
  {
    assert c.pages[page] <= d.pages[page];
  }

  // ----- a call that leaves the allocation -----

  function Sevens(n: nat, rest: Body): Body {
    if n == 0 then rest else Then(Const(V32(7)), Sevens(n - 1, rest))
  }

  function SixI32(): seq<ValType> {
    [I32, I32, I32, I32, I32, I32]
  }

  /** Function 0 pushes 7 six times and calls function 1, which takes six i32. */
  function SixArguments(): Module {
    [Func([], [], [], Sevens(6, Then(Call(1), End))), Func(SixI32(), [], [], End)]
  }

  lemma {:induction false} SevensValid(c: Context, n: nat, rest: Body, ts: seq<ValType>, expected: seq<ValType>)
    requires CheckBody(c, rest, ts + seq(n, _ => I32), expected)
    ensures CheckBody(c, Sevens(n, rest), ts, expected)
    decreases n
  {
    if n == 0 {
      assert ts + seq(n, _ => I32) == ts;
    } else {
      assert (ts + [I32]) + seq(n - 1, _ => I32) == ts + seq(n, _ => I32);
      SevensValid(c, n - 1, rest, ts + [I32], expected);
    }
  }

  lemma SixArgumentsValid()
    ensures ValidModule(SixArguments())
  {
    var m := SixArguments();
    var c := FuncContext(m, m[0]);
    var six := [] + seq(6, _ => I32);
    assert six == SixI32() && six[..0] + [] == [];
    assert six[0..] == six;
    assert CheckInstr(c, Call(1), six) == Some([]);
    assert CheckBody(c, End, [], []);
    assert CheckBody(c, Then(Call(1), End), six, []);
    SevensValid(c, 6, Then(Call(1), End), [], []);
  }

  /** The caller's state with some sevens pushed, all of them in constant slot 0. */
  ghost predicate Pushed(c: CState, n: nat) {
    && Inv(c) && c.layout == FuncLayout(0, SixArguments()[0], 6) && !c.block.polymorphic
    && c.block.base == 0 && c.block.results == [] && c.outers == []
    && |c.stack| == n && (forall i :: 0 <= i < n ==> c.stack[i] == Entry.Entry(0, I32, true))
    && c.maxAllocated == 6 && c.maxSlots == 6 && c.page == 0 && c.pages == [[OpEntry]]
    && (if n == 0 then c.consts == [] && c.usage[0] == 0 else c.consts == [Word(7, 0)])
  }

  lemma SevenPushed(c: CState, n: nat)
    requires Pushed(c, n) && n < 6
    ensures PushConst(c, V32(7)).Some? && Pushed(PushConst(c, V32(7)).value, n + 1)
  {
    hide Inv, Grows;
    if n == 0 {
      assert FirstFree(c.usage, 0, 6) == Some(0);
    } else {
      assert SameConstant(c.consts[0], V32(7));
      assert FindConstant(c.consts, V32(7), 0) == 0;
    }
    PushConstOk(c, V32(7));
  }

  lemma {:induction false} SevensPushed(c: CState, n: nat, k: nat, rest: Body) returns (d: CState)
    requires Pushed(c, n) && n + k <= 6
    ensures Pushed(d, n + k) && CompileBody(c, SixArguments(), Sevens(k, rest)) == CompileBody(d, SixArguments(), rest)
    decreases k
  {
    hide Pushed, PushConst;
    if k == 0 {
      d := c;
    } else {
      SevenPushed(c, n);
      d := SevensPushed(PushConst(c, V32(7)).value, n + 1, k - 1, rest);
    }
  }

  /** Arguments in constant slots are copied and forgotten. */
  lemma {:induction false} ArgumentsCopied(c: CState, base: nat, n: nat)
    requires c.layout.firstDynamic > 0 && c.block.base + n <= |c.stack|
    requires forall i :: 0 <= i < |c.stack| ==> c.stack[i].slot == 0
    ensures CopyArgs(c, base, n).Some?
    ensures var d := CopyArgs(c, base, n).value;
      d.stack == c.stack[..|c.stack| - n] && d.maxSlots == c.maxSlots && d.block == c.block
    decreases n
  {
    if n > 0 {
      ArgumentsCopied(Pop(CopyTopToSlot(c, base + n - 1).value).value, base, n - 1);
    }
  }

  lemma CallerCompiled(d: CState)
    requires Pushed(d, 6)
    ensures var e := CompileCall(d, SixArguments(), 1);
      && e.Some? && CompileEnd(e.value).Some? && CompileEnd(e.value).value.maxSlots == 6
      && e.value.block == d.block && |e.value.stack| == 0
    ensures FrameBase(d) == 6
  {
    hide Inv, CopyArgs;
    assert TrimMax(d, 6) == 6;
    var trimmed := d.(maxAllocated := 6);
    ArgumentsCopied(trimmed, 6, 6);
  }

  /** The call of the example emits the copy to slot 11 right behind op_Entry. */
  lemma CallEmitted(d: CState) returns (e: CState)
    requires Pushed(d, 6)
    ensures CompileCall(d, SixArguments(), 1) == Some(e) && Inv(e)
    ensures |e.pages| > 0 && |e.pages[0]| > 1 && e.layout == d.layout && !e.block.polymorphic
    ensures e.pages[0][0] == OpEntry && Writes(e.pages[0][1]) == [11]
    ensures CompileEnd(e).Some? && CompileEnd(e).value.maxSlots == 6
    ensures CompileBody(d, SixArguments(), Then(Call(1), End)) == Some(e)
  {
    hide Inv, Grows, CompileCall, CompileEnd, Writes, FrameBase;
    var m := SixArguments();
    CallerCompiled(d);
    e := CompileCall(d, m, 1).value;
    CallReach(d, m, 1);
    CallOk(d, m, 1);
    GoodFacts(d, e);
    LineKept(d, e, 0, 0);
    assert CompileBody(d, m, Then(Call(1), End)) == Some(e);
  }

  lemma PushedLayout(c: CState, n: nat)
    requires Pushed(c, n)
    ensures c.layout == FuncLayout(0, SixArguments()[0], 6)
  {
  }

  /** The example compiles; the second line of the caller writes slot 11. */
  lemma CallerReach(start: CState) returns (last: CState)
    requires Pushed(start, 0)
    ensures CompileBody(start, SixArguments(), SixArguments()[0].body).Some?
    ensures CompileEnd(CompileBody(start, SixArguments(), SixArguments()[0].body).value) == Some(last)
    ensures last.maxSlots == 6 && |last.pages| > 0 && |last.pages[0]| > 1 && last.pages[0][0] == OpEntry
    ensures Writes(last.pages[0][1]) == [11] && last.layout == start.layout
  {
    hide Inv, Grows, Good, CompileBody, CompileEnd, Writes, Pushed, FuncLayout;
    var d := SevensPushed(start, 0, 6, Then(Call(1), End));
    PushedLayout(start, 0);
    PushedLayout(d, 6);
    var e := CallEmitted(d);
    last := CompileEnd(e).value;
    EndOk(e);
    GoodFacts(e, last);
    LineKept(e, last, 0, 0);
    LineKept(e, last, 0, 1);
  }

  lemma CalleeCompiled()
    ensures CompileFunction(SixArguments(), 1, 0).Some?
  {
    var start := InitialState(1, SixArguments()[1], 0).value;
    assert CompileBody(start, SixArguments(), End) == Some(start);
  }

  lemma CallerStarts()
    ensures InitialState(0, SixArguments()[0], 6).Some? && Pushed(InitialState(0, SixArguments()[0], 6).value, 0)
  {
    hide Inv;
    InitialOk(0, SixArguments()[0], 6);
    var c := InitialState(0, SixArguments()[0], 6).value;
    assert c.stack == [];
    assert c.layout.locals == [] && c.usage[0] == 0;
  }

  lemma EntryWritesNoOperand()
    ensures Writes(OpEntry) == []
  {
  }

  /** With seven slots op_Entry lets function 0 through, and its next operation writes slot 11 of the eleven
      allocated. */
  lemma SixArgumentsLeave() returns (p: Program, s: State)
    ensures ValidModule(SixArguments()) && Compiled(p, SixArguments()) && p.stackSlots == 7
    ensures s == Running(PC(0, 0, 0), 0, map[], ZERO, [])
    ensures var t := Steps(p, 1, s); t.Running? && Fetch(p, t.pc).Some? && !AccessAllocated(p, t)
  {
    hide Inv, CompileBody, CompileEnd, Writes, Fill, ValidModule;
    var m := SixArguments();
    SixArgumentsValid();
    CallerStarts();
    CalleeCompiled();
    var start := InitialState(0, m[0], 6).value;
    var last := CallerReach(start);
    p := Program([CodeOf(last), CodeOf(CompileFunction(m, 1, 0).value)], 7);
    s := Running(PC(0, 0, 0), 0, map[], ZERO, []);
    assert CompileFunction(m, 0, 6) == Some(last);
    assert CompiledFrom(p.codes[0], m, 0) && CompiledFrom(p.codes[1], m, 1);
    assert Fetch(p, s.pc) == Some(OpEntry);
    var t := Steps(p, 1, s);
    assert Steps(p, 0, Step(p, s)) == Step(p, s);
    assert t == EnterFunction(p, s);
    EntryWritesNoOperand();
    assert 11 in Writes(Fetch(p, t.pc).value);
  }
}
