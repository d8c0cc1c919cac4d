/** When a run ends for lack of stack slots: exactly when it has reached an activation that does not fit. */
module Overflow {
  import opened Words
  import opened IntegerOps
  import opened Machine
  import opened Simulation

  /** The function about to be entered needs slots up to the end of the stack or beyond. */
  predicate DoesNotFit(p: Program, s: State) {
    && s.Running? && Fetch(p, s.pc) == Some(OpEntry)
    && s.sp + p.codes[s.pc.fn].maxStackSlots >= p.stackSlots
  }

  /** An operator's own traps are others. */
  lemma OperatorTraps(op: BinOp, a: Word, b: Word)
    ensures BinaryWord(op, a, b) != Traps(StackOverflow)
  {
    hide Read, Convert, Bitwise, TruncDiv, RotateLeft, RotateRight, Pow2;
  }

  /** What stops a run is what was returned. */
  lemma {:induction false} UnwindStops(r: Ret, mem: Memory, frames: seq<Frame>)
    requires r != Trap(StackOverflow)
    ensures !Overflowed(Unwind(r, mem, frames))
    decreases |frames|
  {
    if frames != [] {
      UnwindStops(r, mem, frames[..|frames| - 1]);
    }
  }

  lemma UnwindsNever(mem: Memory, frames: seq<Frame>)
    ensures forall r: Ret {:trigger Unwind(r, mem, frames)} ::
      r != Trap(StackOverflow) ==> !Overflowed(Unwind(r, mem, frames))
  {
    forall r: Ret | r != Trap(StackOverflow)
      ensures !Overflowed(Unwind(r, mem, frames))
    {
      UnwindStops(r, mem, frames);
    }
  }

  lemma AssignOverflows(s: State, op: BinOp, a: Word, b: Word)
    requires s.Running?
    ensures !Overflowed(AssignRegister(s, BinaryWord(op, a, b)))
  {
    hide BinaryWord;
    OperatorTraps(op, a, b);
    UnwindsNever(s.mem, s.frames);
  }

  /** No other operation overflows. */
  lemma OtherOperations(p: Program, s: State, op: Op)
    requires s.Running? && !op.OpEntry?
    ensures !Overflowed(StepOp(p, s, op))
  {
    hide BinaryWord, UnaryWord, Unwind, AssignRegister, SetTyped, Get;
    UnwindsNever(s.mem, s.frames);
    var next := s.(pc := s.pc.Next());
    match op
    case BinaryRS(o, a) => AssignOverflows(next, o, Slot(s, a), s.r0);
    case BinarySR(o, a) => AssignOverflows(next, o, s.r0, Slot(s, a));
    case BinarySS(o, a, b) => AssignOverflows(next, o, Slot(s, b), Slot(s, a));
    case _ =>
  }

  lemma StepOverflows(p: Program, s: State)
    requires s.Running?
    ensures Overflowed(Step(p, s)) <==> DoesNotFit(p, s)
  {
    hide Fill, Unwind;
    var fetched := Fetch(p, s.pc);
    if fetched == Some(OpEntry) {
      UnwindTrap(StackOverflow, s.mem, s.frames);
    } else if fetched.Some? {
      OtherOperations(p, s, fetched.value);
    }
  }

  /** Some activation reached within `n` steps does not fit. */
  ghost predicate RunsOut(p: Program, s: State, n: nat) {
    exists k: nat :: k < n && DoesNotFit(p, Steps(p, k, s))
  }

  /** A run has overflowed if and only if it has reached an activation that does not fit. */
  lemma {:induction false} OverflowExact(p: Program, s: State, n: nat)
    requires s.Running?
    ensures Overflowed(Steps(p, n, s)) <==> RunsOut(p, s, n)
    decreases n
  {
    hide Step, DoesNotFit, Overflowed;
    if n > 0 {
      OverflowExact(p, s, n - 1);
      var last := Steps(p, n - 1, s);
      StepsCompose(p, n - 1, 1, s);
      OneMore(p, last);
      RunsOutLater(p, s, n);
    } else {
      NotYet(s);
    }
  }

  lemma RunsOutLater(p: Program, s: State, n: nat)
    requires n > 0
    ensures RunsOut(p, s, n) <==> RunsOut(p, s, n - 1) || DoesNotFit(p, Steps(p, n - 1, s))
  {
    hide DoesNotFit, Steps;
    if RunsOut(p, s, n - 1) {
      var k: nat :| k < n - 1 && DoesNotFit(p, Steps(p, k, s));
      assert k < n;
    }
  }

  /** One step from any state. */
  lemma OneMore(p: Program, s: State)
    ensures Overflowed(Steps(p, 1, s)) <==> Overflowed(s) || DoesNotFit(p, s)
  {
    hide Step;
    assert Steps(p, 0, if s.Running? then Step(p, s) else s) == if s.Running? then Step(p, s) else s;
    if s.Running? {
      StepOverflows(p, s);
    }
  }

  lemma NotYet(s: State)
    requires s.Running?
    ensures !Overflowed(s)
  {
  }
}
