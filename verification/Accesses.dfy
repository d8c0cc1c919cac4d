/** `StackBound.Reads` and `StackBound.Writes` are what the machine's operations read and write: an operation changes no
    other slot, and what it does depends on no other slot. Calls and op_Entry change the frame and are treated apart.
 */
module Accesses {
  import opened Words
  import opened IntegerOps
  import opened Machine
  import opened StackBound

  /** Two memories with the same content in the slots of a list, from `sp` on. */
  ghost predicate AgreeOn(mem: Memory, mem': Memory, sp: nat, slots: seq<nat>) {
    forall k <- slots :: Get(mem, sp + k) == Get(mem', sp + k)
  }

  /** The memory a state carries. */
  function MemoryOf(s: State): Memory {
    match s
    case Running(_, _, mem, _, _) => mem
    case Halted(_, final) => final
    case Fault => map[]
  }

  function WithMemory(s: State, mem: Memory): State {
    match s
    case Running(pc, sp, _, r0, frames) => Running(pc, sp, mem, r0, frames)
    case Halted(ret, _) => Halted(ret, mem)
    case Fault => Fault
  }

  lemma {:induction false} UnwindMemory(r: Ret, mem: Memory, mem': Memory, frames: seq<Frame>)
    ensures Unwind(r, mem', frames) == WithMemory(Unwind(r, mem, frames), mem')
    ensures Unwind(r, mem, frames).Fault? || MemoryOf(Unwind(r, mem, frames)) == mem
    decreases |frames|
  {
    if frames != [] {
      UnwindMemory(r, mem, mem', frames[..|frames| - 1]);
    }
  }

  lemma UnwindsMemory(mem: Memory, mem': Memory, frames: seq<Frame>)
    ensures forall r: Ret {:trigger Unwind(r, mem, frames)} {:trigger Unwind(r, mem', frames)} ::
      && Unwind(r, mem', frames) == WithMemory(Unwind(r, mem, frames), mem')
      && (Unwind(r, mem, frames).Fault? || MemoryOf(Unwind(r, mem, frames)) == mem)
  {
    forall r: Ret
      ensures Unwind(r, mem', frames) == WithMemory(Unwind(r, mem, frames), mem')
      ensures Unwind(r, mem, frames).Fault? || MemoryOf(Unwind(r, mem, frames)) == mem
    {
      UnwindMemory(r, mem, mem', frames);
    }
  }

  /** An operation that names no slot to write leaves the memory alone. */
  lemma WritesNothing(p: Program, s: State, op: Op)
    requires s.Running? && !op.OpEntry? && Writes(op) == []
    ensures var t := StepOp(p, s, op); t.Fault? || MemoryOf(t) == s.mem
  {
    hide Unwind, BinaryWord, UnaryWord, Get, Fetch, LoadSigned, SetTyped, Resolve;
    UnwindsMemory(s.mem, s.mem, s.frames);
  }

  /** Only the slots of `Writes` change. */
  lemma WritesOnly(p: Program, s: State, op: Op, a: nat)
    requires s.Running? && !op.OpEntry? && forall w <- Writes(op) :: a != s.sp + w
    ensures var t := StepOp(p, s, op); t.Fault? || Get(MemoryOf(t), a) == Get(s.mem, a)
  {
    hide Unwind, BinaryWord, UnaryWord, Get, Fetch, LoadSigned, Store, SetTyped, Set, AssignRegister, Jump;
    match op
    case CopySlot(_, dst, _) => assert dst in Writes(op);
    case SetSlot(_, dst) => assert dst in Writes(op);
    case PreserveCopySlot(_, dst, _, preserve) => assert dst in Writes(op) && preserve in Writes(op);
    case PreserveSetSlot(_, dst, preserve) => assert dst in Writes(op) && preserve in Writes(op);
    case SetConst(_, _, dst) => assert dst in Writes(op);
    case _ => WritesNothing(p, s, op);
  }

  /** The content of two slots that agree. */
  lemma Agreed(mem: Memory, mem': Memory, sp: nat, slots: seq<nat>, k: nat)
    requires AgreeOn(mem, mem', sp, slots) && k in slots
    ensures Get(mem, sp + k) == Get(mem', sp + k)
  {
  }

  predicate IsOperator(op: Op) {
    op.UnaryR? || op.UnaryS? || op.BinaryRS? || op.BinarySR? || op.BinarySS?
  }

  predicate IsSelect(op: Op) {
    op.SelectRSS? || op.SelectSRS? || op.SelectSSR? || op.SelectSSS?
  }

  /** Copies and constants: the same goes into the slot. */
  lemma StoringOperation(p: Program, s: State, op: Op, mem: Memory)
    requires s.Running? && (op.CopySlot? || op.SetSlot? || op.SetConst?)
    requires AgreeOn(s.mem, mem, s.sp, Reads(op)) && AgreeOn(s.mem, mem, s.sp, Writes(op))
    ensures var t, t' := StepOp(p, s, op), StepOp(p, WithMemory(s, mem), op);
      t' == WithMemory(t, MemoryOf(t')) && AgreeOn(MemoryOf(t), MemoryOf(t'), s.sp, Writes(op))
  {
    hide BinaryWord, UnaryWord, Get, Fetch, LoadSigned, Store, SetTyped, Set, Unwind, EnterFunction, Jump,
      AssignRegister;
    assert op.dst in Writes(op);
    if op.CopySlot? {
      Agreed(s.mem, mem, s.sp, Reads(op), op.src);
    }
  }

  /** Assignments to a local whose old value is kept. */
  lemma PreservingOperation(p: Program, s: State, op: Op, mem: Memory)
    requires s.Running? && (op.PreserveCopySlot? || op.PreserveSetSlot?)
    requires AgreeOn(s.mem, mem, s.sp, Reads(op)) && AgreeOn(s.mem, mem, s.sp, Writes(op))
    ensures var t, t' := StepOp(p, s, op), StepOp(p, WithMemory(s, mem), op);
      t' == WithMemory(t, MemoryOf(t')) && AgreeOn(MemoryOf(t), MemoryOf(t'), s.sp, Writes(op))
  {
    hide BinaryWord, UnaryWord, Get, Fetch, LoadSigned, Store, SetTyped, Set, Unwind, EnterFunction, Jump,
      AssignRegister;
    assert op.dst in Writes(op) && op.preserve in Writes(op) && op.dst in Reads(op);
    if op.PreserveCopySlot? {
      assert op.src in Reads(op);
    }
  }

  lemma AssignMemory(s: State, w: Checked<Word>, mem: Memory)
    requires s.Running?
    ensures AssignRegister(WithMemory(s, mem), w) == WithMemory(AssignRegister(s, w), mem)
  {
    hide Unwind;
    UnwindsMemory(s.mem, mem, s.frames);
  }

  /** Operators: the same operands, the same result or trap. */
  lemma OperatorOperation(p: Program, s: State, op: Op, mem: Memory)
    requires s.Running? && IsOperator(op)
    requires AgreeOn(s.mem, mem, s.sp, Reads(op))
    ensures StepOp(p, WithMemory(s, mem), op) == WithMemory(StepOp(p, s, op), mem)
  {
    hide Unwind, BinaryWord, UnaryWord, Get, Fetch, LoadSigned, AssignRegister, EnterFunction, SetTyped, Jump;
    var next := s.(pc := s.pc.Next());
    match op
    case UnaryR(_) =>
    case UnaryS(_, a) => Agreed(s.mem, mem, s.sp, Reads(op), a);
    case BinaryRS(o, a) =>
      Agreed(s.mem, mem, s.sp, Reads(op), a);
      AssignMemory(next, BinaryWord(o, Slot(s, a), s.r0), mem);
    case BinarySR(o, a) =>
      Agreed(s.mem, mem, s.sp, Reads(op), a);
      AssignMemory(next, BinaryWord(o, s.r0, Slot(s, a)), mem);
    case BinarySS(o, a, b) =>
      Agreed(s.mem, mem, s.sp, Reads(op), a);
      Agreed(s.mem, mem, s.sp, Reads(op), b);
      AssignMemory(next, BinaryWord(o, Slot(s, b), Slot(s, a)), mem);
  }

  lemma SelectOperation(p: Program, s: State, op: Op, mem: Memory)
    requires s.Running? && IsSelect(op)
    requires AgreeOn(s.mem, mem, s.sp, Reads(op))
    ensures StepOp(p, WithMemory(s, mem), op) == WithMemory(StepOp(p, s, op), mem)
  {
    hide Unwind, BinaryWord, UnaryWord, Get, Fetch, LoadSigned, AssignRegister, EnterFunction, SetTyped, Jump;
    match op
    case SelectRSS(_, a, b) =>
      Agreed(s.mem, mem, s.sp, Reads(op), a);
      Agreed(s.mem, mem, s.sp, Reads(op), b);
    case SelectSRS(_, c, b) =>
      Agreed(s.mem, mem, s.sp, Reads(op), c);
      Agreed(s.mem, mem, s.sp, Reads(op), b);
    case SelectSSR(_, c, a) =>
      Agreed(s.mem, mem, s.sp, Reads(op), c);
      Agreed(s.mem, mem, s.sp, Reads(op), a);
    case SelectSSS(_, c, a, b) =>
      Agreed(s.mem, mem, s.sp, Reads(op), c);
      Agreed(s.mem, mem, s.sp, Reads(op), a);
      Agreed(s.mem, mem, s.sp, Reads(op), b);
  }

  predicate Unwinds(op: Op) {
    op.ContinueLoop? || op.ContinueLoopIf? || op.OpReturn? || op.OpUnreachable?
  }

  /** Returns, traps and continues: the same frame stops them. */
  lemma UnwindingOperation(p: Program, s: State, op: Op, mem: Memory)
    requires s.Running? && Unwinds(op)
    ensures StepOp(p, WithMemory(s, mem), op) == WithMemory(StepOp(p, s, op), mem)
  {
    hide Unwind, BinaryWord, UnaryWord, Get, Fetch, LoadSigned, AssignRegister, EnterFunction, SetTyped, Jump;
    UnwindsMemory(s.mem, mem, s.frames);
  }

  lemma JumpMemory(p: Program, s: State, to: Target, mem: Memory)
    requires s.Running?
    ensures Jump(p, WithMemory(s, mem), to) == WithMemory(Jump(p, s, to), mem)
  {
    hide Resolve;
  }

  /** Branches, calls, loads: they go to the same place with the same register. */
  lemma ControlOperation(p: Program, s: State, op: Op, mem: Memory)
    requires s.Running? && !op.OpEntry? && Writes(op) == [] && !IsOperator(op) && !IsSelect(op) && !Unwinds(op)
    requires AgreeOn(s.mem, mem, s.sp, Reads(op))
    ensures StepOp(p, WithMemory(s, mem), op) == WithMemory(StepOp(p, s, op), mem)
  {
    hide Unwind, BinaryWord, UnaryWord, Get, Fetch, LoadSigned, AssignRegister, EnterFunction, SetTyped, Jump;
    match op
    case SetRegister(_, src) => Agreed(s.mem, mem, s.sp, Reads(op), src);
    case IfR(els) => JumpMemory(p, s, els, mem);
    case IfS(c, els) =>
      Agreed(s.mem, mem, s.sp, Reads(op), c);
      JumpMemory(p, s, els, mem);
    case Branch(to) => JumpMemory(p, s, to, mem);
    case BranchIfR(to) => JumpMemory(p, s, to, mem);
    case BranchIfS(c, to) =>
      Agreed(s.mem, mem, s.sp, Reads(op), c);
      JumpMemory(p, s, to, mem);
    case PrologueR(skip) => JumpMemory(p, s, skip, mem);
    case PrologueS(c, skip) =>
      Agreed(s.mem, mem, s.sp, Reads(op), c);
      JumpMemory(p, s, skip, mem);
    case BranchTable(c, _) => Agreed(s.mem, mem, s.sp, Reads(op), c);
    case _ =>
  }

  /** Whatever the other slots hold, the same happens: the next operation, the register, the native frames, and what is
      written. */
  lemma ReadsOnly(p: Program, s: State, op: Op, mem: Memory)
    requires s.Running? && !op.OpEntry?
    requires AgreeOn(s.mem, mem, s.sp, Reads(op)) && AgreeOn(s.mem, mem, s.sp, Writes(op))
    ensures var t, t' := StepOp(p, s, op), StepOp(p, WithMemory(s, mem), op);
      t' == WithMemory(t, MemoryOf(t')) && (t.Fault? || AgreeOn(MemoryOf(t), MemoryOf(t'), s.sp, Writes(op)))
  {
    hide StepOp, Reads;
    if op.CopySlot? || op.SetSlot? || op.SetConst? {
      StoringOperation(p, s, op, mem);
    } else if op.PreserveCopySlot? || op.PreserveSetSlot? {
      PreservingOperation(p, s, op, mem);
    } else {
      MemoryBack(StepOp(p, s, op), mem);
      if IsOperator(op) {
        OperatorOperation(p, s, op, mem);
      } else if IsSelect(op) {
        SelectOperation(p, s, op, mem);
      } else if Unwinds(op) {
        UnwindingOperation(p, s, op, mem);
      } else {
        ControlOperation(p, s, op, mem);
      }
    }
  }

  lemma MemoryBack(s: State, mem: Memory)
    ensures WithMemory(s, mem) == WithMemory(s, MemoryOf(WithMemory(s, mem)))
  {
  }
}
