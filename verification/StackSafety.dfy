/** The one comparison in op_Entry covers every slot access of a function's body, in every run: while a function is
    active, all slots its operations read lie inside the runtime's stack.
 */
module StackSafety {
  import opened Words
  import opened IntegerOps
  import opened Wasm
  import opened Machine
  import opened Allocator
  import opened Compiler
  import opened Invariant
  import opened CompilerInvariant
  import opened BlockInvariant
  import opened FunctionSimulation
  import opened StackBound
  import opened CodeBound

  /** What the finished code of a function promises. */
  ghost predicate CodeFits(k: Code, fn: nat, m: Module) {
    && PagesWithin(k.pages, fn, k.maxStackSlots, m)
    && (forall id <- k.patched :: k.patched[id].fn == fn)
    && |k.pages| > 0 && |k.pages[0]| > 0 && k.pages[0][0] == OpEntry
    && k.slotFirstConst + |k.consts| <= k.maxStackSlots
  }

  lemma InitialBound(fn: nat, f: Func, reserved: nat, m: Module)
    requires InitialState(fn, f, reserved).Some?
    ensures Bound(InitialState(fn, f, reserved).value, m)
  {
    NewLineWithin(m, [OpEntry], 0, fn, InitialState(fn, f, reserved).value.maxSlots);
  }

  lemma EndBound(c: CState, m: Module)
    requires Inv(c) && Bound(c, m) && |c.block.results| == c.layout.numRets && CompileEnd(c).Some?
    ensures Bound(CompileEnd(c).value, m)
  {
    hide Bound, Inv, ReturnValues, Emit;
    ReturnValuesBound(c, c.block.results, false, m);
    BareBound(ReturnValues(c, c.block.results, false).value, OpReturn, m);
  }

  lemma EntryFirst(start: CState, done: CState, last: CState)
    requires Done(start, done) && Good(done, last)
    requires |start.pages| > 0 && start.pages[0] == [OpEntry]
    ensures last.layout == start.layout && |last.pages| > 0 && |last.pages[0]| > 0 && last.pages[0][0] == OpEntry
  {
    assert start.pages[0] <= done.pages[0] <= last.pages[0];
  }

  lemma BoundFits(c: CState, m: Module)
    requires Bound(c, m) && |c.pages| > 0 && |c.pages[0]| > 0 && c.pages[0][0] == OpEntry
    ensures CodeFits(CodeOf(c), c.layout.fn, m)
  {
  }

  /** maxStackSlots is an upper bound on every slot operand emitted for a function, the temporaries of moves included;
      only the arguments of outgoing calls may be written beyond it. */
  lemma MaxStackSlotsBounds(m: Module, fn: nat, reserved: nat)
    requires fn < |m| && CompileFunction(m, fn, reserved).Some?
    ensures CodeFits(CodeOf(CompileFunction(m, fn, reserved).value), fn, m)
  {
    hide Bound, Inv, Grows, Ended, CompileBody, CompileEnd, CodeFits;
    var start := InitialState(fn, m[fn], reserved).value;
    InitialOk(fn, m[fn], reserved);
    InitialBound(fn, m[fn], reserved, m);
    BodyOk(start, m, m[fn].body);
    BodyBound(start, m, m[fn].body);
    var done := CompileBody(start, m, m[fn].body).value;
    DoneFacts(start, done);
    EndOk(done);
    EndBound(done, m);
    EntryFirst(start, done, CompileEnd(done).value);
    BoundFits(CompileEnd(done).value, m);
  }

  // ----- runs -----

  ghost predicate ProgramFits(p: Program, m: Module) {
    forall f :: 0 <= f < |p.codes| ==> CodeFits(p.codes[f], f, m)
  }

  lemma CompiledFits(p: Program, m: Module)
    requires Compiled(p, m)
    ensures ProgramFits(p, m)
  {
    hide CodeFits;
    forall f | 0 <= f < |p.codes|
      ensures CodeFits(p.codes[f], f, m)
    {
      assert CompiledFrom(p.codes[f], m, f);
      var reserved: nat :| CompileFunction(m, f, reserved).Some?
          && p.codes[f] == CodeOf(CompileFunction(m, f, reserved).value);
      MaxStackSlotsBounds(m, f, reserved);
    }
  }

  /** op_Entry has let this activation through. */
  ghost predicate Covered(p: Program, pc: PC, sp: nat) {
    pc.fn < |p.codes| && sp + p.codes[pc.fn].maxStackSlots < p.stackSlots
  }

  /** Only the activation about to run its op_Entry has not been checked yet. */
  ghost predicate Checked(p: Program, s: State) {
    s.Running? ==>
      && (Fetch(p, s.pc) in {None, Some(OpEntry)} || Covered(p, s.pc, s.sp))
      && forall i :: 0 <= i < |s.frames| ==> Covered(p, s.frames[i].pc, s.frames[i].sp)
  }

  lemma {:induction false} UnwindChecked(p: Program, r: Ret, mem: Memory, frames: seq<Frame>)
    requires forall i :: 0 <= i < |frames| ==> Covered(p, frames[i].pc, frames[i].sp)
    ensures Checked(p, Unwind(r, mem, frames))
    decreases |frames|
  {
    if frames != [] {
      UnwindChecked(p, r, mem, frames[..|frames| - 1]);
    }
  }

  lemma FetchedFits(p: Program, pc: PC, m: Module)
    requires ProgramFits(p, m) && Fetch(p, pc).Some?
    ensures CodeFits(p.codes[pc.fn], pc.fn, m)
    ensures FetchedWithin(p, m, pc)
  {
    hide LineWithin;
  }

  /** Where an operation was fetched from, it is inside the bound. */
  ghost predicate FetchedWithin(p: Program, m: Module, pc: PC) {
    && Fetch(p, pc).Some?
    && LineWithin(m, p.codes[pc.fn].pages[pc.page], pc.line, pc.fn, p.codes[pc.fn].maxStackSlots)
  }

  lemma FetchedStays(p: Program, m: Module, pc: PC)
    requires FetchedWithin(p, m, pc)
    ensures StaysIn(Fetch(p, pc).value, pc.fn)
  {
  }

  /** Jumps stay inside the activation. */
  lemma JumpChecked(p: Program, s: State, t: Target, m: Module)
    requires ProgramFits(p, m) && s.Running? && Checked(p, s) && Covered(p, s.pc, s.sp) && TargetIn(t, s.pc.fn)
    ensures Checked(p, Jump(p, s, t))
  {
    hide PagesWithin;
    assert CodeFits(p.codes[s.pc.fn], s.pc.fn, m);
  }

  lemma EntryChecked(p: Program, s: State)
    requires s.Running? && Checked(p, s)
    ensures Checked(p, EnterFunction(p, s))
  {
    if s.pc.fn < |p.codes| && s.sp + p.codes[s.pc.fn].maxStackSlots >= p.stackSlots {
      UnwindChecked(p, Trap(StackOverflow), s.mem, s.frames);
    }
  }

  lemma CalledFirst(p: Program, f: nat, m: Module)
    requires ProgramFits(p, m)
    ensures Fetch(p, PC(f, 0, 0)) in {None, Some(OpEntry)}
  {
    if f < |p.codes| {
      assert CodeFits(p.codes[f], f, m);
    }
  }

  lemma StepChecked(p: Program, s: State, m: Module)
    requires ProgramFits(p, m) && s.Running? && Checked(p, s)
    ensures Checked(p, Step(p, s))
  {
    hide ProgramFits, CodeFits, EnterFunction, Unwind, StaysIn, LineWithin, FetchedWithin, Fill, UnaryWord, BinaryWord;
    if Fetch(p, s.pc).Some? {
      var op := Fetch(p, s.pc).value;
      FetchedFits(p, s.pc, m);
      if op.OpEntry? {
        EntryChecked(p, s);
      } else {
        FetchedStays(p, m, s.pc);
        BodyStepChecked(p, s, op, m);
      }
    }
  }

  lemma BodyStepChecked(p: Program, s: State, op: Op, m: Module)
    requires ProgramFits(p, m) && s.Running? && Checked(p, s) && Covered(p, s.pc, s.sp) && !op.OpEntry?
    requires StaysIn(op, s.pc.fn)
    ensures Checked(p, StepOp(p, s, op))
  {
    hide ProgramFits, CodeFits, EnterFunction, Unwind, Fill, UnaryWord, BinaryWord, Reads, Writes, Jump, Fetch,
      SetTyped;
    match op
    case BinaryRS(o, a) => UnwindAnyChecked(p, s);
    case BinarySR(o, a) => UnwindAnyChecked(p, s);
    case BinarySS(o, a, b) => UnwindAnyChecked(p, s);
    case ContinueLoop(_) => UnwindAnyChecked(p, s);
    case ContinueLoopIf(_) => UnwindAnyChecked(p, s);
    case OpReturn => UnwindAnyChecked(p, s);
    case OpUnreachable => UnwindAnyChecked(p, s);
    case IfR(t) => JumpChecked(p, s, t, m);
    case IfS(_, t) => JumpChecked(p, s, t, m);
    case Branch(t) => JumpChecked(p, s, t, m);
    case BranchIfR(t) => JumpChecked(p, s, t, m);
    case BranchIfS(_, t) => JumpChecked(p, s, t, m);
    case PrologueR(t) => JumpChecked(p, s, t, m);
    case PrologueS(_, t) => JumpChecked(p, s, t, m);
    case OpCall(f, _) => CalledFirst(p, f, m);
    case _ =>
  }

  lemma UnwindAnyChecked(p: Program, s: State)
    requires s.Running? && Checked(p, s)
    ensures forall r: Ret {:trigger Unwind(r, s.mem, s.frames)} :: Checked(p, Unwind(r, s.mem, s.frames))
  {
    hide Unwind;
    forall r: Ret
      ensures Checked(p, Unwind(r, s.mem, s.frames))
    {
      UnwindChecked(p, r, s.mem, s.frames);
    }
  }

  lemma {:induction false} StepsChecked(p: Program, n: nat, s: State, m: Module)
    requires ProgramFits(p, m) && Checked(p, s)
    ensures Checked(p, Steps(p, n, s))
    decreases n
  {
    hide ProgramFits, Checked, Step;
    if n > 0 && s.Running? {
      StepChecked(p, s, m);
      StepsChecked(p, n - 1, Step(p, s), m);
    }
  }

  /** The next operation touches only slots of the runtime's stack, unless it is the copy of a call's argument, which
      may write beyond. An op_Entry that lets the function through initialises only slots of the stack. */
  ghost predicate AccessInside(p: Program, m: Module, s: State)
    requires s.Running? && Fetch(p, s.pc).Some?
  {
    var op := Fetch(p, s.pc).value;
    if op.OpEntry? then EntryInside(p, s)
    else
      && (forall r <- Reads(op) :: s.sp + r < p.stackSlots)
      && ((forall w <- Writes(op) :: s.sp + w < p.stackSlots)
          || Passes(m, p.codes[s.pc.fn].pages[s.pc.page], s.pc.line))
  }

  ghost predicate EntryInside(p: Program, s: State)
    requires s.Running?
  {
    Covered(p, s.pc, s.sp) ==>
      s.sp + p.codes[s.pc.fn].slotFirstConst + |p.codes[s.pc.fn].consts| < p.stackSlots
  }

  /** In every run from a function's first operation, no slot outside the stack is read, and none is written but by the
      copies of call arguments. */
  lemma SlotAccessesCovered(p: Program, m: Module, f: nat, s: State, n: nat)
    requires Compiled(p, m) && s.Running? && s.pc == PC(f, 0, 0) && s.frames == []
    ensures var t := Steps(p, n, s);
      t.Running? && Fetch(p, t.pc).Some? ==> AccessInside(p, m, t)
  {
    hide Compiled, ProgramFits, Steps, CodeFits, FetchedWithin;
    var t := Steps(p, n, s);
    RunChecked(p, m, f, s, n);
    if t.Running? && Fetch(p, t.pc).Some? {
      FetchedFits(p, t.pc, m);
      Inside(p, t, m);
    }
  }

  lemma RunChecked(p: Program, m: Module, f: nat, s: State, n: nat)
    requires Compiled(p, m) && s.Running? && s.pc == PC(f, 0, 0) && s.frames == []
    ensures ProgramFits(p, m) && Checked(p, Steps(p, n, s))
  {
    hide Compiled, ProgramFits, Steps;
    CompiledFits(p, m);
    CalledFirst(p, f, m);
    StepsChecked(p, n, s, m);
  }

  lemma Inside(p: Program, s: State, m: Module)
    requires s.Running? && FetchedWithin(p, m, s.pc) && CodeFits(p.codes[s.pc.fn], s.pc.fn, m)
    requires Fetch(p, s.pc).value.OpEntry? || Covered(p, s.pc, s.sp)
    ensures AccessInside(p, m, s)
  {
    hide PagesWithin, Reads, Writes, Passes;
  }
}
