/** Unary and binary operations and select: whichever form the operands' places call for, the emitted operation leaves
    the value the specification prescribes, or traps exactly when it does.
 */
module OperatorSimulation {
  import opened Words
  import opened IntegerOps
  import opened Machine
  import opened Allocator
  import opened Compiler
  import opened Invariant
  import opened CompilerInvariant
  import opened Relation

  /** Spilling the register before an operation that finds none of its operands there. */
  lemma SpillSim(p: Program, c: CState, skip: bool, d: CState, s: State, vals: seq<Option<Val>>)
    returns (ready: CState, n: nat, t: State)
    requires Inv(c) && Match(p, c, s, vals) && (skip || PreserveRegister(c).Some?)
    requires Good(if skip then c else PreserveRegister(c).value, d) && Linked(p, d)
    ensures ready == (if skip then c else PreserveRegister(c).value)
    ensures Inv(ready) && Good(c, ready) && Straight(p, s, n, t) && Match(p, ready, t, vals) && Linked(p, ready)
    ensures !skip ==> ready.reg == 0
    ensures |ready.stack| == |c.stack|
    ensures forall i :: 0 <= i < |c.stack| && !IsAlias(c.stack[i].slot) ==> ready.stack[i] == c.stack[i]
  {
    hide Inv, Grows, GrowsAnyPage, Linked, Match, PreserveRegister;
    ready := if skip then c else PreserveRegister(c).value;
    GoodSelf(c);
    if skip {
      GrowsAny(c, d);
      LinkedBefore(p, c, d);
      n, t := 0, s;
      StraightSelf(p, c, s, vals);
    } else {
      PreserveRegisterOk(c);
      GrowsAny(ready, d);
      LinkedBefore(p, ready, d);
      n, t := PreserveRegisterSim(p, c, s, vals);
    }
  }

  lemma UnarySim(p: Program, c: CState, op: UnOp, s: State, vals: seq<Option<Val>>, v: Val) returns (n: nat, t: State)
    requires Inv(c) && !c.block.polymorphic && CompileUnary(c, op).Some? && Linked(p, CompileUnary(c, op).value)
    requires Match(p, c, s, vals) && |vals| > 0 && vals[|vals| - 1] == Some(v) && v.Type() == UnOperand(op)
    ensures Straight(p, s, n, t)
    ensures Match(p, CompileUnary(c, op).value, t, vals[..|vals| - 1] + [Some(UnaryVal(op, v))])
  {
    hide Inv, Grows, GrowsAnyPage, Linked, Match, Good, Emit, PcOf, UnaryVal, UnaryWord, PushRegister,
      PreserveRegister, Pop;
    var d := CompileUnary(c, op).value;
    Operand(p, c, s, vals, |vals| - 1, v);
    MatchSize(p, c, s, vals);
    var k := |c.stack| - 1;
    var inReg := IsAlias(c.stack[k].slot);
    var word := if inReg then UnaryR(op) else UnaryS(op, c.stack[k].slot);
    var pre := UnaryShape(c, op);
    var ready, n1, t1 := SpillSim(p, c, inReg, d, s, vals);
    MatchRunning(p, ready, t1, vals);
    Operand(p, ready, t1, vals, k, v);
    var w := UnaryWord(op, ValueAt(ready.stack[k].slot, t1.sp, t1.mem, t1.r0));
    UnaryAgrees(op, ValueAt(ready.stack[k].slot, t1.sp, t1.mem, t1.r0), v);
    if inReg {
      SpilledAlias(c, ready, k);
    }
    OperatorSim(p, ready, word, d, t1, vals, 1, UnResult(op), w, UnaryVal(op, v));
    n, t := n1 + 1, Step(p, t1);
    StraightTrans(p, s, n1, t1, 1, t);
  }

  lemma MatchSize(p: Program, c: CState, s: State, vals: seq<Option<Val>>)
    requires Match(p, c, s, vals)
    ensures |vals| == |c.stack| && s.Running? && c.layout.fn < |p.codes| && s.pc == PcOf(c)
  {
  }

  lemma MatchRunning(p: Program, c: CState, s: State, vals: seq<Option<Val>>)
    requires Match(p, c, s, vals)
    ensures s.Running?
  {
  }

  /** With no spill nothing moved. */
  lemma SpilledAlias(c: CState, ready: CState, k: nat)
    requires ready == c && Inv(c) && InRegister(c, k)
    ensures ready.stack[k].slot == REG0_ALIAS && ready.reg == k + 1
  {
    RegisterIndex(c, k);
  }

  /** The pieces of CompileUnary. */
  lemma UnaryShape(c: CState, op: UnOp) returns (ready: CState)
    requires Inv(c) && !c.block.polymorphic && CompileUnary(c, op).Some?
    ensures |c.stack| > 0
    ensures var inReg := IsAlias(c.stack[|c.stack| - 1].slot);
      var word := if inReg then UnaryR(op) else UnaryS(op, c.stack[|c.stack| - 1].slot);
      var d := CompileUnary(c, op).value;
      && (inReg || PreserveRegister(c).Some?) && ready == (if inReg then c else PreserveRegister(c).value)
      && Inv(ready) && Inv(Emit(ready, word)) && Good(Emit(ready, word), d) && Good(ready, d)
      && PcOf(d) == PcOf(Emit(ready, word)) && |ready.stack| == |c.stack|
      && d.stack == ready.stack[..|ready.stack| - 1] + [Entry.Entry(REG0_ALIAS, UnResult(op), true)]
      && (ready.reg == 0 || ready.reg == |ready.stack|)
  {
    hide Inv, Grows, GrowsAnyPage, Emit, PcOf, PushRegister, Pop, PreserveRegister;
    var n := |c.stack|;
    var inReg := InRegister(c, n - 1);
    if inReg {
      RegisterIndex(c, n - 1);
    } else {
      PreserveRegisterOk(c);
    }
    ready := if inReg then c else PreserveRegister(c).value;
    var word := if inReg then UnaryR(op) else UnaryS(op, c.stack[n - 1].slot);
    GoodSelf(c);
    GoodFacts(c, ready);
    PopNOne(Emit(ready, word));
    FinishOperator(c, ready, word, 1, UnResult(op));
    EmitOk(ready, word);
    GoodTrans(ready, Emit(ready, word), CompileUnary(c, op).value);
  }

  lemma PopNOne(c: CState)
    ensures PopN(c, 1) == Pop(c)
  {
    if Pop(c).Some? {
      assert PopN(Pop(c).value, 0) == Pop(c);
    }
  }

  // ----- binary operations -----

  /** The operation CompileBinary emits. */
  function BinaryWordOp(c: CState, op: BinOp): Op
    requires |c.stack| >= 2
  {
    var n := |c.stack|;
    var a, b := c.stack[n - 1].slot, c.stack[n - 2].slot;
    if IsAlias(a) then BinaryRS(op, b)
    else if IsAlias(b) then (if IsCommutative(op.kind) then BinaryRS(op, a) else BinarySR(op, a))
    else BinarySS(op, a, b)
  }

  /** An operation on the top `k` operands: the register is spilled first unless it holds one of them. */
  ghost predicate Pieces(c: CState, inReg: bool, ready: CState, word: Op, d: CState, k: nat, ty: ValType) {
    && (inReg || PreserveRegister(c).Some?) && ready == (if inReg then c else PreserveRegister(c).value)
    && Inv(ready) && Inv(Emit(ready, word)) && Good(Emit(ready, word), d) && Good(ready, d)
    && PcOf(d) == PcOf(Emit(ready, word)) && |ready.stack| == |c.stack| >= k
    && d.stack == ready.stack[..|ready.stack| - k] + [Entry.Entry(REG0_ALIAS, ty, true)]
    && (ready.reg == 0 || ready.reg > |ready.stack| - k)
  }

  /** The pieces of CompileBinary. */
  lemma BinaryShape(c: CState, op: BinOp) returns (ready: CState)
    requires Inv(c) && !c.block.polymorphic && CompileBinary(c, op).Some?
    ensures |c.stack| >= 2
    ensures var n := |c.stack|;
      Pieces(c, IsAlias(c.stack[n - 1].slot) || IsAlias(c.stack[n - 2].slot), ready, BinaryWordOp(c, op),
             CompileBinary(c, op).value, 2, BinResult(op))
  {
    hide Inv, Grows, GrowsAnyPage, Emit, PcOf, PushRegister, PopN, PreserveRegister;
    var n := |c.stack|;
    var inReg := InRegister(c, n - 1) || InRegister(c, n - 2);
    if inReg {
      RegisterIndex(c, if InRegister(c, n - 1) then n - 1 else n - 2);
    } else {
      PreserveRegisterOk(c);
    }
    ready := if inReg then c else PreserveRegister(c).value;
    var word := BinaryWordOp(c, op);
    GoodSelf(c);
    GoodFacts(c, ready);
    FinishOperator(c, ready, word, 2, BinResult(op));
    EmitOk(ready, word);
    GoodTrans(ready, Emit(ready, word), CompileBinary(c, op).value);
  }

  /** In every form the operation computes `op` on the deeper operand and the top one, in that order. */
  lemma BinaryForm(p: Program, c: CState, ready: CState, op: BinOp, s: State)
    requires Inv(c) && |c.stack| >= 2 && |ready.stack| == |c.stack| && s.Running?
    requires var n := |c.stack|;
      if IsAlias(c.stack[n - 1].slot) || IsAlias(c.stack[n - 2].slot) then ready == c
      else ready.stack[n - 1] == c.stack[n - 1] && ready.stack[n - 2] == c.stack[n - 2]
    ensures var n := |c.stack|;
      var x, y := ValueAt(ready.stack[n - 2].slot, s.sp, s.mem, s.r0),
          ValueAt(ready.stack[n - 1].slot, s.sp, s.mem, s.r0);
      StepOp(p, s, BinaryWordOp(c, op)) == AssignRegister(s.(pc := s.pc.Next()), BinaryWord(op, x, y))
  {
    hide Inv, AssignRegister, BinaryWord;
    var n := |c.stack|;
    OneInRegister(c, n - 2, n - 1);
    if IsCommutative(op.kind) {
      CommutativeWord(op, s.r0, ValueAt(c.stack[n - 1].slot, s.sp, s.mem, s.r0));
    }
  }

  lemma BinarySim(p: Program, c: CState, op: BinOp, s: State, vals: seq<Option<Val>>, x: Val, y: Val)
    returns (n: nat, t: State)
    requires Inv(c) && !c.block.polymorphic && CompileBinary(c, op).Some? && Linked(p, CompileBinary(c, op).value)
    requires Match(p, c, s, vals) && |vals| > 1 && vals[|vals| - 2] == Some(x) && vals[|vals| - 1] == Some(y)
    requires x.Type() == y.Type() == op.width
    ensures t == Steps(p, n, s)
    ensures match BinaryVal(op, x, y)
      case Fine(v) => Straight(p, s, n, t) && Match(p, CompileBinary(c, op).value, t, vals[..|vals| - 2] + [Some(v)])
      case Traps(k) => t.Halted? && t.ret == Trap(k)
  {
    hide Inv, Grows, GrowsAnyPage, Linked, Match, Good, Emit, PcOf, BinaryVal, BinaryWord, StepOp, PreserveRegister,
      BinaryWordOp, CompileBinary;
    var d := CompileBinary(c, op).value;
    MatchSize(p, c, s, vals);
    var k := |c.stack| - 2;
    var inReg := IsAlias(c.stack[k + 1].slot) || IsAlias(c.stack[k].slot);
    var pre := BinaryShape(c, op);
    var word := BinaryWordOp(c, op);
    var ready, n1, t1 := SpillSim(p, c, inReg, d, s, vals);
    MatchSize(p, ready, t1, vals);
    Operand(p, ready, t1, vals, k, x);
    Operand(p, ready, t1, vals, k + 1, y);
    var a := ValueAt(ready.stack[k].slot, t1.sp, t1.mem, t1.r0);
    var b := ValueAt(ready.stack[k + 1].slot, t1.sp, t1.mem, t1.r0);
    BinaryAgrees(op, a, b, x, y);
    BinaryForm(p, c, ready, op, t1);
    match BinaryWord(op, a, b) {
      case Fine(w) =>
        OperatorSim(p, ready, word, d, t1, vals, 2, BinResult(op), w, BinaryVal(op, x, y).result);
        n, t := n1 + 1, Step(p, t1);
        StraightTrans(p, s, n1, t1, 1, t);
      case Traps(kind) =>
        TrapSim(p, ready, word, d, t1, kind);
        n, t := n1 + 1, Step(p, t1);
        StraightThen(p, s, n1, t1);
    }
  }

  /** One more step after a straight run. */
  lemma StraightThen(p: Program, s: State, n: nat, t: State)
    requires Straight(p, s, n, t)
    ensures Steps(p, n + 1, s) == Step(p, t)
  {
    StepsCompose(p, n, 1, s);
    OneStep(p, t);
  }

  lemma TrapSim(p: Program, ready: CState, op: Op, d: CState, s: State, kind: TrapKind)
    requires Inv(ready) && Inv(Emit(ready, op)) && Good(Emit(ready, op), d) && Linked(p, d)
    requires s.Running? && s.pc == PcOf(ready)
    requires StepOp(p, s, op) == AssignRegister(s.(pc := s.pc.Next()), Traps(kind))
    ensures Step(p, s) == Halted(Trap(kind), s.mem)
  {
    hide Inv, Grows, GrowsAnyPage, Linked, Emit, PcOf, StepOp;
    GrowsAny(Emit(ready, op), d);
    LinkedBefore(p, Emit(ready, op), d);
    FetchEmitted(p, ready, op);
    UnwindTrap(kind, s.mem, s.frames);
  }

  // ----- select -----

  /** The pieces of CompileSelect. */
  lemma SelectShape(c: CState) returns (ready: CState)
    requires Inv(c) && !c.block.polymorphic && CompileSelect(c).Some?
    ensures |c.stack| >= 3
    ensures var n := |c.stack|;
      Pieces(c, IsAlias(c.stack[n - 1].slot) || IsAlias(c.stack[n - 2].slot)
          || IsAlias(c.stack[n - 3].slot), ready, SelectOp(c),
             CompileSelect(c).value, 3, c.stack[n - 2].ty)
  {
    hide Inv, Good, Grows, GrowsAnyPage, Emit, PcOf, PushRegister, PopN, PreserveRegister, SelectOp, CompileSelect;
    ready := SelectUnfold(c);
    var n := |c.stack|;
    var inReg := InRegister(c, n - 1) || InRegister(c, n - 2) || InRegister(c, n - 3);
    SelectReady(c, ready, inReg);
    FinishSelect(c, ready, SelectOp(c), c.stack[n - 2].ty);
    EmitGood(ready, SelectOp(c));
    GoodTrans(ready, Emit(ready, SelectOp(c)), CompileSelect(c).value);
  }

  lemma EmitGood(c: CState, op: Op)
    requires Inv(c)
    ensures Inv(Emit(c, op)) && Good(c, Emit(c, op))
  {
    EmitOk(c, op);
  }

  lemma SelectUnfold(c: CState) returns (ready: CState)
    requires CompileSelect(c).Some?
    ensures |c.stack| >= 3
    ensures var n := |c.stack|;
      var inReg := InRegister(c, n - 1) || InRegister(c, n - 2) || InRegister(c, n - 3);
      && (inReg || PreserveRegister(c).Some?) && ready == (if inReg then c else PreserveRegister(c).value)
      && PopN(ready, 3).Some?
      && PushRegister(Emit(PopN(ready, 3).value, SelectOp(c)), c.stack[n - 2].ty) == CompileSelect(c)
  {
    hide PreserveRegister, PopN, PushRegister, Emit, SelectOp;
    var n := |c.stack|;
    ready := if InRegister(c, n - 1) || InRegister(c, n - 2)
        || InRegister(c, n - 3) then c else PreserveRegister(c).value;
  }

  lemma SelectReady(c: CState, ready: CState, inReg: bool)
    requires Inv(c) && !c.block.polymorphic && |c.stack| >= 3
    requires var n := |c.stack|; inReg == (InRegister(c, n - 1) || InRegister(c, n - 2) || InRegister(c, n - 3))
    requires inReg || PreserveRegister(c).Some?
    requires ready == if inReg then c else PreserveRegister(c).value
    ensures Good(c, ready) && Inv(ready) && !ready.block.polymorphic && |ready.stack| == |c.stack|
    ensures ready.reg == 0 || ready.reg > |ready.stack| - 3
  {
    hide Inv, Grows, PreserveRegister;
    var n := |c.stack|;
    GoodSelf(c);
    if inReg {
      RegisterIndex(c, if InRegister(c, n - 1) then n - 1 else if InRegister(c, n - 2) then n - 2 else n - 3);
    } else {
      PreserveRegisterOk(c);
      GoodFacts(c, ready);
    }
  }

  /** In every form the selector picks the deepest operand when non-zero and the middle one otherwise. */
  lemma SelectForm(p: Program, c: CState, ready: CState, s: State)
    requires Inv(c) && |c.stack| >= 3 && |ready.stack| == |c.stack| && s.Running?
    requires var n := |c.stack|;
      if IsAlias(c.stack[n - 1].slot) || IsAlias(c.stack[n - 2].slot) || IsAlias(c.stack[n - 3].slot) then ready == c
      else
        && ready.stack[n - 1] == c.stack[n - 1]
        && ready.stack[n - 2] == c.stack[n - 2]
        && ready.stack[n - 3] == c.stack[n - 3]
    ensures var n := |c.stack|;
      var sel := ValueAt(ready.stack[n - 1].slot, s.sp, s.mem, s.r0);
      var y := ValueAt(ready.stack[n - 2].slot, s.sp, s.mem, s.r0);
      var x := ValueAt(ready.stack[n - 3].slot, s.sp, s.mem, s.r0);
      StepOp(p, s, SelectOp(c))
          == s.(pc := s.pc.Next(), r0 := LoadSigned(c.stack[n - 2].ty, if IsTrue(sel) then x else y))
  {
    hide Inv, LoadSigned;
    var n := |c.stack|;
    OneInRegister(c, n - 2, n - 1);
    OneInRegister(c, n - 3, n - 1);
    OneInRegister(c, n - 3, n - 2);
  }

  lemma SelectSim(p: Program, c: CState, s: State, vals: seq<Option<Val>>, x: Val, y: Val, sel: U32)
    returns (n: nat, t: State)
    requires Inv(c) && !c.block.polymorphic && CompileSelect(c).Some? && Linked(p, CompileSelect(c).value)
    requires Match(p, c, s, vals) && |vals| > 2 && vals[|vals| - 1] == Some(V32(sel))
    requires vals[|vals| - 2] == Some(y) && vals[|vals| - 3] == Some(x) && x.Type() == y.Type()
    ensures Straight(p, s, n, t)
    ensures Match(p, CompileSelect(c).value, t, vals[..|vals| - 3] + [Some(if sel != 0 then x else y)])
  {
    hide Inv, Grows, GrowsAnyPage, Linked, Match, Good, Emit, PcOf, StepOp, PreserveRegister, SelectOp, CompileSelect;
    var d := CompileSelect(c).value;
    MatchSize(p, c, s, vals);
    var k := |c.stack| - 3;
    var inReg := IsAlias(c.stack[k + 2].slot) || IsAlias(c.stack[k + 1].slot) || IsAlias(c.stack[k].slot);
    var pre := SelectShape(c);
    var ready, n1, t1 := SpillSim(p, c, inReg, d, s, vals);
    MatchSize(p, ready, t1, vals);
    Operand(p, c, s, vals, k + 1, y);
    Operand(p, ready, t1, vals, k, x);
    Operand(p, ready, t1, vals, k + 1, y);
    Operand(p, ready, t1, vals, k + 2, V32(sel));
    SelectForm(p, c, ready, t1);
    var from := if sel != 0 then k else k + 1;
    var w := ValueAt(ready.stack[from].slot, t1.sp, t1.mem, t1.r0);
    var v := if sel != 0 then x else y;
    LoadHolds(v.Type(), w, v);
    OperatorSim(p, ready, SelectOp(c), d, t1, vals, 3, v.Type(), LoadSigned(v.Type(), w), v);
    n, t := n1 + 1, Step(p, t1);
    StraightTrans(p, s, n1, t1, 1, t);
  }
}
