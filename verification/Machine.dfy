/** The M3 machine: the operations the compiler emits, and a small-step semantics for them.

    An operation calls the next one by a native tail call, so the native stack only grows at `op_Loop` and `op_Call`.
    That stack is kept explicitly as a sequence of frames (innermost last), and the `m3ret_t` an operation returns
    travels up through it.
 */
module Machine {
  import opened Words
  import opened IntegerOps

  /** A code address: the line of a page of one compiled function. */
  datatype PC = PC(fn: nat, page: nat, line: nat)
  {
    function Next(): PC {
      this.(line := line + 1)
    }
  }

  /** A code-address operand: known when it was emitted, or a forward reference filled in later. */
  datatype Target = Known(pc: PC) | Patched(id: nat)

  datatype Op =
    | OpEntry
    | UnaryR(uop: UnOp)
    | UnaryS(uop: UnOp, a: nat)
    | BinaryRS(bop: BinOp, a: nat)            // operand on top of the stack in the register
    | BinarySR(bop: BinOp, a: nat)            // operand on top of the stack in a slot
    | BinarySS(bop: BinOp, a: nat, b: nat)    // top of the stack first
    | SelectRSS(ty: ValType, a: nat, b: nat)
    | SelectSRS(ty: ValType, cond: nat, b: nat)
    | SelectSSR(ty: ValType, cond: nat, a: nat)
    | SelectSSS(ty: ValType, cond: nat, a: nat, b: nat)
    | CopySlot(ty: ValType, dst: nat, src: nat)
    | SetSlot(ty: ValType, dst: nat)
    | SetRegister(ty: ValType, src: nat)
    | PreserveCopySlot(ty: ValType, dst: nat, src: nat, preserve: nat)
    | PreserveSetSlot(ty: ValType, dst: nat, preserve: nat)
    | SetConst(ty: ValType, word: Word, dst: nat)
    | OpLoop
    | ContinueLoop(loop: PC)
    | ContinueLoopIf(loop: PC)
    | IfR(els: Target)
    | IfS(cond: nat, els: Target)
    | Branch(to: Target)
    | BranchIfR(to: Target)
    | BranchIfS(cond: nat, to: Target)
    | PrologueR(skip: Target)
    | PrologueS(cond: nat, skip: Target)
    | BranchTable(cond: nat, targets: seq<PC>)  // the default target is last
    | OpCall(callee: nat, offset: nat)
    | OpReturn
    | OpUnreachable

  /** A compiled function: its code pages, the addresses its forward references were patched to, and what `op_Entry`
      needs to set up a frame. */
  datatype Code = Code(pages: seq<seq<Op>>, patched: map<nat, PC>, consts: seq<Word>,
                       numRetAndArgSlots: nat, slotFirstConst: nat, maxStackSlots: nat)

  /** All compiled functions and the number of slots of the runtime's stack. */
  datatype Program = Program(codes: seq<Code>, stackSlots: nat)

  // ----- the slot stack -----

  type Memory = map<nat, Word>

  function Get(mem: Memory, a: nat): Word {
    if a in mem then mem[a] else ZERO
  }

  function Set(mem: Memory, a: nat, w: Word): (r: Memory)
    ensures Get(r, a) == w
    ensures forall b: nat {:trigger Get(r, b)} :: b != a ==> Get(r, b) == Get(mem, b)
  {
    mem[a := w]
  }

  function SetTyped(mem: Memory, a: nat, ty: ValType, w: Word): (r: Memory)
    ensures Get(r, a) == Store(Get(mem, a), ty, w)
    ensures forall b: nat {:trigger Get(r, b)} :: b != a ==> Get(r, b) == Get(mem, b)
  {
    Set(mem, a, Store(Get(mem, a), ty, w))
  }

  /** memset / memcpy of whole slots. */
  function Fill(mem: Memory, a: nat, ws: seq<Word>): (r: Memory)
    ensures forall k :: 0 <= k < |ws| ==> Get(r, a + k) == ws[k]
    ensures forall b: nat {:trigger Get(r, b)} :: b < a || b >= a + |ws| ==> Get(r, b) == Get(mem, b)
  {
    var n := |ws|;
    if n == 0 then mem else Set(Fill(mem, a, ws[..n - 1]), a + n - 1, ws[n - 1])
  }

  // ----- native frames -----

  /** `LoopFrame`: an activation of op_Loop, with its `_pc`. `CallFrame`: an activation of op_Call, with the operation
      it continues with, its `_sp` and its own copy of `_r0`. */
  datatype Frame = LoopFrame(pc: PC, sp: nat) | CallFrame(pc: PC, sp: nat, r0: Word)

  /** `m3ret_t`: no error, a trap, or a loop id. */
  datatype Ret = Null | Trap(kind: TrapKind) | LoopId(pc: PC)

  datatype State =
    | Running(pc: PC, sp: nat, mem: Memory, r0: Word, frames: seq<Frame>)
    | Halted(ret: Ret, final: Memory)
    | Fault

  /** Returning `r` from the innermost operation. */
  function Unwind(r: Ret, mem: Memory, frames: seq<Frame>): State
    decreases |frames|
  {
    if frames == [] then Halted(r, mem)
    else
      var rest := frames[..|frames| - 1];
      match frames[|frames| - 1]
      case LoopFrame(pc, sp) =>
        if r == LoopId(pc) then Running(pc, sp, mem, ZERO, frames) else Unwind(r, mem, rest)
      case CallFrame(pc, sp, r0) =>
        if r == Null then Running(pc, sp, mem, r0, rest) else Unwind(r, mem, rest)
  }

  // ----- steps -----

  function Fetch(p: Program, pc: PC): Option<Op> {
    if pc.fn < |p.codes| && pc.page < |p.codes[pc.fn].pages| && pc.line < |p.codes[pc.fn].pages[pc.page]|
    then Some(p.codes[pc.fn].pages[pc.page][pc.line]) else None
  }

  function Resolve(p: Program, fn: nat, t: Target): Option<PC> {
    match t
    case Known(pc) => Some(pc)
    case Patched(id) => if fn < |p.codes| && id in p.codes[fn].patched then Some(p.codes[fn].patched[id]) else None
  }

  /** `(i32)` of a word is non-zero. */
  predicate IsTrue(w: Word) {
    w.lo != 0
  }

  function Step(p: Program, s: State): State
    requires s.Running?
  {
    var fetched := Fetch(p, s.pc);
    if fetched.None? then Fault else StepOp(p, s, fetched.value)
  }

  function Slot(s: State, k: nat): Word
    requires s.Running?
  {
    Get(s.mem, s.sp + k)
  }

  function StepOp(p: Program, s: State, op: Op): State
    requires s.Running?
  {
    var next := s.(pc := s.pc.Next());
    match op
    case OpEntry => EnterFunction(p, s)
    case UnaryR(o) => next.(r0 := UnaryWord(o, s.r0))
    case UnaryS(o, a) => next.(r0 := UnaryWord(o, Slot(s, a)))
    case BinaryRS(o, a) => AssignRegister(next, BinaryWord(o, Slot(s, a), s.r0))
    case BinarySR(o, a) => AssignRegister(next, BinaryWord(o, s.r0, Slot(s, a)))
    case BinarySS(o, a, b) => AssignRegister(next, BinaryWord(o, Slot(s, b), Slot(s, a)))
    case SelectRSS(ty, a, b) => next.(r0 := LoadSigned(ty, if IsTrue(s.r0) then Slot(s, b) else Slot(s, a)))
    case SelectSRS(ty, c, b) => next.(r0 := LoadSigned(ty, if IsTrue(Slot(s, c)) then Slot(s, b) else s.r0))
    case SelectSSR(ty, c, a) => next.(r0 := LoadSigned(ty, if IsTrue(Slot(s, c)) then s.r0 else Slot(s, a)))
    case SelectSSS(ty, c, a, b) => next.(r0 := LoadSigned(ty, if IsTrue(Slot(s, c)) then Slot(s, b) else Slot(s, a)))
    case CopySlot(ty, dst, src) => next.(mem := SetTyped(s.mem, s.sp + dst, ty, Slot(s, src)))
    case SetSlot(ty, dst) => next.(mem := SetTyped(s.mem, s.sp + dst, ty, s.r0))
    case SetRegister(ty, src) => next.(r0 := LoadSigned(ty, Slot(s, src)))
    case PreserveCopySlot(ty, dst, src, preserve) =>
      var kept := SetTyped(s.mem, s.sp + preserve, ty, Slot(s, dst));
      next.(mem := SetTyped(kept, s.sp + dst, ty, Get(kept, s.sp + src)))
    case PreserveSetSlot(ty, dst, preserve) =>
      var kept := SetTyped(s.mem, s.sp + preserve, ty, Slot(s, dst));
      next.(mem := SetTyped(kept, s.sp + dst, ty, s.r0))
    case SetConst(ty, w, dst) => next.(mem := SetTyped(s.mem, s.sp + dst, ty, w))
    case OpLoop => next.(r0 := ZERO, frames := s.frames + [LoopFrame(next.pc, s.sp)])
    case ContinueLoop(id) => Unwind(LoopId(id), s.mem, s.frames)
    case ContinueLoopIf(id) => if IsTrue(s.r0) then Unwind(LoopId(id), s.mem, s.frames) else next
    case IfR(els) => if IsTrue(s.r0) then next else Jump(p, s, els)
    case IfS(c, els) => if IsTrue(Slot(s, c)) then next else Jump(p, s, els)
    case Branch(to) => Jump(p, s, to)
    case BranchIfR(to) => if IsTrue(s.r0) then Jump(p, s, to) else next
    case BranchIfS(c, to) => if IsTrue(Slot(s, c)) then Jump(p, s, to) else next
    case PrologueR(skip) => if IsTrue(s.r0) then next else Jump(p, s, skip)
    case PrologueS(c, skip) => if IsTrue(Slot(s, c)) then next else Jump(p, s, skip)
    case BranchTable(c, targets) =>
      var k := Slot(s, c).lo;
      if targets == [] then Fault
      else s.(pc := targets[if k > |targets| - 1 then |targets| - 1 else k])
    case OpCall(f, offset) =>
      Running(PC(f, 0, 0), s.sp + offset, s.mem, ZERO, s.frames + [CallFrame(next.pc, s.sp, s.r0)])
    case OpReturn => Unwind(Null, s.mem, s.frames)
    case OpUnreachable => Unwind(Trap(Unreachable), s.mem, s.frames)
  }

  function AssignRegister(s: State, w: Checked<Word>): State
    requires s.Running?
  {
    match w
    case Fine(r) => s.(r0 := r)
    case Traps(k) => Unwind(Trap(k), s.mem, s.frames)
  }

  function Jump(p: Program, s: State, t: Target): State
    requires s.Running?
  {
    var to := Resolve(p, s.pc.fn, t);
    if to.None? then Fault else s.(pc := to.value)
  }

  /** op_Entry: one stack check, zeroed locals, constants copied behind them. */
  function EnterFunction(p: Program, s: State): State
    requires s.Running?
  {
    if s.pc.fn >= |p.codes| then Fault
    else
      var k := p.codes[s.pc.fn];
      if s.sp + k.maxStackSlots >= p.stackSlots then Unwind(Trap(StackOverflow), s.mem, s.frames)
      else if k.slotFirstConst < k.numRetAndArgSlots then Fault
      else
        var zeroed := Fill(s.mem, s.sp + k.numRetAndArgSlots,
                           seq(k.slotFirstConst - k.numRetAndArgSlots, _ => ZERO));
        Running(s.pc.Next(), s.sp, Fill(zeroed, s.sp + k.slotFirstConst, k.consts), ZERO, s.frames)
  }

  function Steps(p: Program, n: nat, s: State): State {
    if n == 0 || !s.Running? then s else Steps(p, n - 1, Step(p, s))
  }

  // ----- general facts -----

  lemma {:induction false} StepsCompose(p: Program, m: nat, n: nat, s: State)
    ensures Steps(p, m + n, s) == Steps(p, n, Steps(p, m, s))
  {
    if m > 0 && s.Running? {
      StepsCompose(p, m - 1, n, Step(p, s));
    }
  }

  /** No frame stops a trap. */
  lemma {:induction false} UnwindTrap(k: TrapKind, mem: Memory, frames: seq<Frame>)
    ensures Unwind(Trap(k), mem, frames) == Halted(Trap(k), mem)
    decreases |frames|
  {
    if frames != [] {
      UnwindTrap(k, mem, frames[..|frames| - 1]);
    }
  }

  ghost predicate OnlyLoops(frames: seq<Frame>, from: nat) {
    forall j :: from <= j < |frames| ==> frames[j].LoopFrame?
  }

  /** A plain return passes through every activation of op_Loop. */
  lemma {:induction false} UnwindNull(mem: Memory, frames: seq<Frame>, from: nat)
    requires from <= |frames| && OnlyLoops(frames, from)
    ensures Unwind(Null, mem, frames) == Unwind(Null, mem, frames[..from])
    decreases |frames|
  {
    if from < |frames| {
      var rest := frames[..|frames| - 1];
      UnwindNull(mem, rest, from);
      assert rest[..from] == frames[..from];
    } else {
      assert frames[..from] == frames;
    }
  }

  /** A loop id passes through the activations of other loops and restarts the one it names. */
  lemma {:induction false} UnwindLoop(mem: Memory, frames: seq<Frame>, at: nat)
    requires at < |frames| && OnlyLoops(frames, at)
    requires forall j :: at < j < |frames| ==> frames[j].pc != frames[at].pc
    ensures Unwind(LoopId(frames[at].pc), mem, frames)
         == Running(frames[at].pc, frames[at].sp, mem, ZERO, frames[..at + 1])
    decreases |frames|
  {
    if at < |frames| - 1 {
      var rest := frames[..|frames| - 1];
      UnwindLoop(mem, rest, at);
      assert rest[..at + 1] == frames[..at + 1];
    } else {
      assert frames[..at + 1] == frames;
    }
  }
}
