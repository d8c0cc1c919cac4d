/** How deep calls must be nested before the stack can run out. */
module Depth {
  import opened Words
  import opened IntegerOps
  import opened Wasm
  import opened Machine
  import opened Allocator
  import opened FunctionSimulation
  import opened StackBound
  import opened CodeBound
  import opened StackSafety
  import opened Overflow

  /** The number of calls in progress. */
  function Calls(frames: seq<Frame>): nat {
    var n := |frames|;
    if n == 0 then 0 else Calls(frames[..n - 1]) + if frames[n - 1].CallFrame? then 1 else 0
  }

  lemma CallsNext(frames: seq<Frame>, f: Frame)
    ensures Calls(frames + [f]) == Calls(frames) + if f.CallFrame? then 1 else 0
  {
    assert (frames + [f])[..|frames|] == frames;
  }

  /** No activation lies higher than `size` slots for each call that led to it. */
  ghost predicate FramesLow(frames: seq<Frame>, sp: nat, size: nat) {
    forall i :: 0 <= i < |frames| ==> frames[i].sp <= sp + size * Calls(frames[..i])
  }

  ghost predicate Low(s: State, sp: nat, size: nat) {
    s.Running? ==> s.sp <= sp + size * Calls(s.frames) && FramesLow(s.frames, sp, size)
  }

  lemma FramesPushed(frames: seq<Frame>, f: Frame, sp: nat, size: nat)
    requires FramesLow(frames, sp, size) && f.sp <= sp + size * Calls(frames)
    ensures FramesLow(frames + [f], sp, size)
  {
    var all := frames + [f];
    forall i | 0 <= i < |all|
      ensures all[i].sp <= sp + size * Calls(all[..i])
    {
      assert all[..i] == if i < |frames| then frames[..i] else frames;
    }
  }

  lemma FramesPopped(frames: seq<Frame>, sp: nat, size: nat)
    requires FramesLow(frames, sp, size) && frames != []
    ensures FramesLow(frames[..|frames| - 1], sp, size)
  {
    var rest := frames[..|frames| - 1];
    assert forall i :: 0 <= i < |rest| ==> rest[..i] == frames[..i];
  }

  lemma {:induction false} UnwindLow(r: Ret, mem: Memory, frames: seq<Frame>, sp: nat, size: nat)
    requires FramesLow(frames, sp, size)
    ensures Low(Unwind(r, mem, frames), sp, size)
    decreases |frames|
  {
    if frames != [] {
      FramesPopped(frames, sp, size);
      UnwindLow(r, mem, frames[..|frames| - 1], sp, size);
    }
  }

  lemma UnwindsLow(mem: Memory, frames: seq<Frame>, sp: nat, size: nat)
    requires FramesLow(frames, sp, size)
    ensures forall r: Ret {:trigger Unwind(r, mem, frames)} :: Low(Unwind(r, mem, frames), sp, size)
  {
    forall r: Ret
      ensures Low(Unwind(r, mem, frames), sp, size)
    {
      UnwindLow(r, mem, frames, sp, size);
    }
  }

  /** No function's frame is larger. */
  ghost predicate FramesWithin(p: Program, size: nat) {
    forall f :: 0 <= f < |p.codes| ==> Max(1, p.codes[f].maxStackSlots) <= size
  }

  lemma CallWithin(p: Program, m: Module, s: State, size: nat)
    requires ProgramFits(p, m) && FramesWithin(p, size) && s.Running? && Fetch(p, s.pc).Some?
    requires Fetch(p, s.pc).value.OpCall?
    ensures Fetch(p, s.pc).value.offset <= size
  {
    hide CodeFits;
    FetchedFits(p, s.pc, m);
  }

  lemma NextLow(s: State, offset: nat, sp: nat, size: nat, frame: Frame)
    requires s.Running? && Low(s, sp, size) && offset <= size && frame.CallFrame? && frame.sp == s.sp
    ensures s.sp + offset <= sp + size * Calls(s.frames + [frame])
    ensures FramesLow(s.frames + [frame], sp, size)
  {
    CallsNext(s.frames, frame);
    FramesPushed(s.frames, frame, sp, size);
    assert size * (Calls(s.frames) + 1) == size * Calls(s.frames) + size;
  }

  lemma StepLow(p: Program, m: Module, s: State, sp: nat, size: nat)
    requires ProgramFits(p, m) && FramesWithin(p, size) && s.Running? && Low(s, sp, size)
    ensures Low(Step(p, s), sp, size)
  {
    hide ProgramFits, FramesWithin, FramesLow, Unwind, UnaryWord, BinaryWord, SetTyped, Fill, Get, LoadSigned, Calls;
    UnwindsLow(s.mem, s.frames, sp, size);
    if Fetch(p, s.pc).Some? {
      var op, next := Fetch(p, s.pc).value, s.pc.Next();
      if op.OpCall? {
        CallWithin(p, m, s, size);
        NextLow(s, op.offset, sp, size, CallFrame(next, s.sp, s.r0));
      } else if op.OpLoop? {
        CallsNext(s.frames, LoopFrame(next, s.sp));
        FramesPushed(s.frames, LoopFrame(next, s.sp), sp, size);
      }
    }
  }

  lemma {:induction false} StepsLow(p: Program, m: Module, n: nat, s: State, sp: nat, size: nat)
    requires ProgramFits(p, m) && FramesWithin(p, size) && Low(s, sp, size)
    ensures Low(Steps(p, n, s), sp, size)
    decreases n
  {
    hide ProgramFits, FramesWithin, Low, Step;
    if n > 0 && s.Running? {
      StepLow(p, m, s, sp, size);
      StepsLow(p, m, n - 1, Step(p, s), sp, size);
    }
  }

  /** One more frame above all those of the calls in progress would reach the end of the stack. */
  ghost predicate TooHigh(p: Program, t: State, sp: nat, size: nat)
    requires t.Running?
  {
    sp + size * (Calls(t.frames) + 1) >= p.stackSlots
  }

  /** A run that starts at `s.sp` overflows only after calls nested so deep that one more frame of the largest size
      would not fit above them all. */
  lemma OverflowNeedsDepth(p: Program, m: Module, f: nat, s: State, n: nat, size: nat)
    requires Compiled(p, m) && s.Running? && s.pc == PC(f, 0, 0) && s.frames == [] && FramesWithin(p, size)
    requires RunsOut(p, s, n)
    ensures exists k: nat :: k < n && DoesNotFit(p, Steps(p, k, s)) && TooHigh(p, Steps(p, k, s), s.sp, size)
  {
    hide Compiled, ProgramFits, Steps;
    CompiledFits(p, m);
    var k: nat :| k < n && DoesNotFit(p, Steps(p, k, s));
    StepsLow(p, m, k, s, s.sp, size);
    var t := Steps(p, k, s);
    assert size * (Calls(t.frames) + 1) == size * Calls(t.frames) + size;
  }
}
