/** Instructions without control flow, and the argument passing of calls, related to the interpreter. */
module InstructionSimulation {
  import opened Words
  import opened IntegerOps
  import opened Wasm
  import opened Machine
  import opened Allocator
  import opened Compiler
  import opened Invariant
  import opened CompilerInvariant
  import opened Relation
  import opened OperatorSimulation
  import opened Control
  import opened Simulation
  import opened BranchSimulation

  lemma StraightSim(p: Program, c: CState, d: CState, s: State, n: nat, t: State, locals: seq<Val>,
                    mid: seq<Option<Val>>, stack: seq<Val>, depths: seq<nat>, fuel: nat)
    requires Straight(p, s, n, t) && Good(c, d) && Match(p, d, t, Vals(locals, mid, stack))
    requires |locals| == |c.layout.locals| && |mid| + |locals| == c.block.base && |depths| == |Scopes(c)|
    ensures Sim(p, c, d, s, n, t, mid, depths, Normal(locals, stack), fuel)
  {
    hide Inv, Match;
    GoodFacts(c, d);
  }

  predicate IsSimple(i: Instr) {
    i.Const? || i.LocalGet? || i.LocalSet? || i.LocalTee? || i.Unary? || i.Binary? || i.Select? || i.Drop? || i.Nop?
  }

  lemma ValsPush(locals: seq<Val>, mid: seq<Option<Val>>, stack: seq<Val>, v: Val)
    ensures Vals(locals, mid, stack) + [Some(v)] == Vals(locals, mid, stack + [v])
  {
  }

  lemma ValsPop(locals: seq<Val>, mid: seq<Option<Val>>, stack: seq<Val>)
    requires |stack| > 0
    ensures |Vals(locals, mid, stack)| > 0
    ensures Vals(locals, mid, stack)[..|Vals(locals, mid, stack)| - 1] == Vals(locals, mid, stack[..|stack| - 1])
  {
  }

  lemma PoppedPushed(locals: seq<Val>, mid: seq<Option<Val>>, stack: seq<Val>, k: nat, v: Val)
    requires k <= |stack|
    ensures Vals(locals, mid, stack)[..|Vals(locals, mid, stack)| - k] + [Some(v)]
         == Vals(locals, mid, stack[..|stack| - k] + [v])
  {
  }

  lemma TopVals(locals: seq<Val>, mid: seq<Option<Val>>, stack: seq<Val>, k: nat)
    requires 0 < k <= |stack|
    ensures Vals(locals, mid, stack)[|Vals(locals, mid, stack)| - k] == Some(stack[|stack| - k])
  {
  }

  lemma OperatorInstrSim(p: Program, m: Module, c: CState, i: Instr, s: State, locals: seq<Val>, mid: seq<Option<Val>>,
                         stack: seq<Val>, depths: seq<nat>, fuel: nat)
    returns (n: nat, t: State)
    requires Ready(p, c, s, locals, mid, stack, depths) && (i.Unary? || i.Binary? || i.Select?)
    requires CompileInstr(c, m, i).Some? && Linked(p, CompileInstr(c, m, i).value)
    ensures Sim(p, c, CompileInstr(c, m, i).value, s, n, t, mid, depths, RunInstr(m, fuel, i, locals, stack), fuel)
  {
    hide Inv, Grows, Linked, Ready, At, Match, Vals, CompileUnary, CompileBinary, CompileSelect, UnaryVal, BinaryVal;
    ReadyFacts(p, c, s, locals, mid, stack, depths);
    var d := CompileInstr(c, m, i).value;
    var o := RunInstr(m, fuel, i, locals, stack);
    var h := |stack|;
    n, t := 0, s;
    if o.Stuck? {
      return;
    }
    TopVals(locals, mid, stack, 1);
    match i
    case Unary(op) =>
      UnaryOk(c, op);
      n, t := UnarySim(p, c, op, s, Vals(locals, mid, stack), stack[h - 1]);
      PoppedPushed(locals, mid, stack, 1, UnaryVal(op, stack[h - 1]));
      StraightSim(p, c, d, s, n, t, locals, mid, stack[..h - 1] + [UnaryVal(op, stack[h - 1])], depths, fuel);
    case Binary(op) =>
      BinaryOk(c, op);
      TopVals(locals, mid, stack, 2);
      n, t := BinarySim(p, c, op, s, Vals(locals, mid, stack), stack[h - 2], stack[h - 1]);
      match BinaryVal(op, stack[h - 2], stack[h - 1]) {
        case Fine(v) =>
          PoppedPushed(locals, mid, stack, 2, v);
          StraightSim(p, c, d, s, n, t, locals, mid, stack[..h - 2] + [v], depths, fuel);
        case Traps(k) =>
      }
    case Select =>
      SelectOk(c);
      TopVals(locals, mid, stack, 2);
      TopVals(locals, mid, stack, 3);
      var v := if stack[h - 1].bits32 != 0 then stack[h - 3] else stack[h - 2];
      n, t := SelectSim(p, c, s, Vals(locals, mid, stack), stack[h - 3], stack[h - 2], stack[h - 1].bits32);
      PoppedPushed(locals, mid, stack, 3, v);
      StraightSim(p, c, d, s, n, t, locals, mid, stack[..h - 3] + [v], depths, fuel);
  }

  lemma LocalsUpdated(locals: seq<Val>, mid: seq<Option<Val>>, stack: seq<Val>, i: nat, v: Val)
    requires i < |locals|
    ensures Vals(locals, mid, stack)[i := Some(v)] == Vals(locals[i := v], mid, stack)
  {
  }

  /** local.tee, which local.set starts with. */
  lemma TeeInstrSim(p: Program, c: CState, i: nat, s: State, locals: seq<Val>, mid: seq<Option<Val>>,
                    stack: seq<Val>)
    returns (n: nat, t: State)
    requires Inv(c) && At(p, c, s, locals, mid, stack)
    requires CompileSetLocal(c, i, true).Some? && Linked(p, CompileSetLocal(c, i, true).value)
    requires i < |locals| && |stack| > 0 && stack[|stack| - 1].Type() == locals[i].Type()
    ensures Straight(p, s, n, t)
    ensures Match(p, CompileSetLocal(c, i, true).value, t, Vals(locals[i := stack[|stack| - 1]], mid, stack))
  {
    hide Inv, Linked, At, Match, CompileSetLocal, Vals;
    AtSize(p, c, s, locals, mid, stack);
    AtParts(p, c, s, locals, mid, stack);
    InvFacts(c);
    LocalType(p, c, s, locals, mid, stack, i);
    TopVals(locals, mid, stack, 1);
    n, t := TeeLocalSim(p, c, i, s, Vals(locals, mid, stack));
    LocalsUpdated(locals, mid, stack, i, stack[|stack| - 1]);
  }

  /** local.set and local.tee. */
  lemma StoreInstrSim(p: Program, c: CState, i: nat, tee: bool, s: State, locals: seq<Val>, mid: seq<Option<Val>>,
                      stack: seq<Val>, depths: seq<nat>, fuel: nat)
    returns (n: nat, t: State)
    requires Ready(p, c, s, locals, mid, stack, depths)
    requires CompileSetLocal(c, i, tee).Some? && Linked(p, CompileSetLocal(c, i, tee).value)
    requires i < |locals| && |stack| > 0 && stack[|stack| - 1].Type() == locals[i].Type()
    ensures var v := stack[|stack| - 1];
      Sim(p, c, CompileSetLocal(c, i, tee).value, s, n, t, mid, depths,
          Normal(locals[i := v], if tee then stack else stack[..|stack| - 1]), fuel)
  {
    hide Inv, Grows, GrowsAnyPage, Linked, Ready, At, Match, CompileSetLocal, Pop, Vals, Straight, Sim;
    ReadyFacts(p, c, s, locals, mid, stack, depths);
    var updated := locals[i := stack[|stack| - 1]];
    SetLocalOk(c, i, tee);
    TeeLocalOk(c, i);
    var d := CompileSetLocal(c, i, true).value;
    SetFromTee(c, i, tee);
    GoodFacts(c, d);
    if tee {
      n, t := TeeInstrSim(p, c, i, s, locals, mid, stack);
      StraightSim(p, c, d, s, n, t, updated, mid, stack, depths, fuel);
    } else {
      PopOk(d);
      GrowsAny(d, Pop(d).value);
      LinkedBefore(p, d, Pop(d).value);
      n, t := TeeInstrSim(p, c, i, s, locals, mid, stack);
      PopSim(p, d, t, Vals(updated, mid, stack));
      ValsPop(updated, mid, stack);
      StraightSim(p, c, Pop(d).value, s, n, t, updated, mid, stack[..|stack| - 1], depths, fuel);
    }
  }

  lemma SetFromTee(c: CState, i: nat, tee: bool)
    requires CompileSetLocal(c, i, tee).Some? && CompileSetLocal(c, i, true).Some?
    ensures CompileSetLocal(c, i, tee) == if tee then CompileSetLocal(c, i, true)
      else Pop(CompileSetLocal(c, i, true).value)
    ensures i < |c.layout.locals|
  {
  }

  lemma LocalType(p: Program, c: CState, s: State, locals: seq<Val>, mid: seq<Option<Val>>, stack: seq<Val>, i: nat)
    requires Inv(c) && At(p, c, s, locals, mid, stack) && i < |locals|
    ensures locals[i].Type() == c.layout.locals[i]
  {
    InvFacts(c);
    AtSize(p, c, s, locals, mid, stack);
    Operand(p, c, s, Vals(locals, mid, stack), i, locals[i]);
  }

  lemma SimpleInstrSim(p: Program, m: Module, c: CState, i: Instr, s: State, locals: seq<Val>, mid: seq<Option<Val>>,
                       stack: seq<Val>, depths: seq<nat>, fuel: nat)
    returns (n: nat, t: State)
    requires Ready(p, c, s, locals, mid, stack, depths) && IsSimple(i)
    requires CompileInstr(c, m, i).Some? && Linked(p, CompileInstr(c, m, i).value)
    ensures Sim(p, c, CompileInstr(c, m, i).value, s, n, t, mid, depths, RunInstr(m, fuel, i, locals, stack), fuel)
  {
    hide Inv, Grows, Linked, Ready, At, Match, Vals, CompileSetLocal, CompileGetLocal, PushConst, Pop;
    ReadyFacts(p, c, s, locals, mid, stack, depths);
    var d := CompileInstr(c, m, i).value;
    var o := RunInstr(m, fuel, i, locals, stack);
    var vals := Vals(locals, mid, stack);
    n, t := 0, s;
    if o.Stuck? {
      return;
    }
    match i
    case Const(v) =>
      PushConstOk(c, v);
      n, t := PushConstSim(p, c, v, s, vals);
      ValsPush(locals, mid, stack, v);
      StraightSim(p, c, d, s, n, t, locals, mid, stack + [v], depths, fuel);
    case LocalGet(k) =>
      GetLocalOk(c, k);
      GetLocalSim(p, c, k, s, vals);
      AtSize(p, c, s, locals, mid, stack);
      ValsPush(locals, mid, stack, locals[k]);
      StraightSelf(p, c, s, vals);
      StraightSim(p, c, d, s, 0, s, locals, mid, stack + [locals[k]], depths, fuel);
    case LocalSet(k) => n, t := StoreInstrSim(p, c, k, false, s, locals, mid, stack, depths, fuel);
    case LocalTee(k) => n, t := StoreInstrSim(p, c, k, true, s, locals, mid, stack, depths, fuel);
    case Unary(_) => n, t := OperatorInstrSim(p, m, c, i, s, locals, mid, stack, depths, fuel);
    case Binary(_) => n, t := OperatorInstrSim(p, m, c, i, s, locals, mid, stack, depths, fuel);
    case Select => n, t := OperatorInstrSim(p, m, c, i, s, locals, mid, stack, depths, fuel);
    case Drop =>
      PopOk(c);
      PopSim(p, c, s, vals);
      ValsPop(locals, mid, stack);
      StraightSelf(p, c, s, vals);
      StraightSim(p, c, d, s, 0, s, locals, mid, stack[..|stack| - 1], depths, fuel);
    case Nop =>
      GoodSelf(c);
      StraightSelf(p, c, s, vals);
      StraightSim(p, c, d, s, 0, s, locals, mid, stack, depths, fuel);
  }
}
