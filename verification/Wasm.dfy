/** The source language: integer WebAssembly 1.0 as structured instructions, its meaning as a fuelled interpreter
    (sections 4.4.1 to 4.4.7 of the WebAssembly Core Specification 1.0), and its validation rules (section 3).

    Code that can never run (after br, return or unreachable) cannot be written: those instructions end a body.
 */
module Wasm {
  import opened Words
  import opened IntegerOps

  datatype Instr =
    | Const(v: Val)
    | LocalGet(n: nat)
    | LocalSet(n: nat)
    | LocalTee(n: nat)
    | Unary(uop: UnOp)
    | Binary(bop: BinOp)
    | Select
    | Drop
    | Nop
    | Block(result: Option<ValType>, body: Body)
    | Loop(result: Option<ValType>, body: Body)
    | If(result: Option<ValType>, thn: Body, els: Option<Body>)
    | BrIf(depth: nat)
    | Call(f: nat)

  datatype Body =
    | End
    | Then(head: Instr, tail: Body)
    | Br(depth: nat)
    | BrTable(targets: seq<nat>, default: nat)
    | Return
    | Unreachable

  datatype Func = Func(params: seq<ValType>, results: seq<ValType>, locals: seq<ValType>, body: Body)

  type Module = seq<Func>

  function ResultSeq(result: Option<ValType>): seq<ValType> {
    if result.Some? then [result.value] else []
  }

  // ----- execution -----

  /** How running a piece of code inside one block ends. `stack` holds the operands of that block only. */
  datatype Outcome =
    | Normal(locals: seq<Val>, stack: seq<Val>)
    | Branching(depth: nat, locals: seq<Val>, stack: seq<Val>)
    | Returning(stack: seq<Val>)
    | Trapping(kind: TrapKind)
    | OutOfFuel
    | Stuck

  datatype CallOutcome = Results(vals: seq<Val>) | CallTraps(kind: TrapKind) | CallOutOfFuel | CallStuck

  function Top(stack: seq<Val>, n: nat): seq<Val>
    requires n <= |stack|
  {
    stack[|stack| - n..]
  }

  /** The operands a branch or return takes along, when they are there and have the label's types. */
  predicate HasTop(stack: seq<Val>, ts: seq<ValType>) {
    |ts| <= |stack| && TypesOf(Top(stack, |ts|)) == ts
  }

  function Zeros(ts: seq<ValType>): (vs: seq<Val>)
    ensures |vs| == |ts|
    ensures forall i :: 0 <= i < |ts| ==> vs[i] == Zero(ts[i])
  {
    seq(|ts|, i requires 0 <= i < |ts| => Zero(ts[i]))
  }

  /** Leaving a block or an if arm whose label takes `ts`: `outer` are the operands below the block. */
  function LeaveBlock(o: Outcome, ts: seq<ValType>, outer: seq<Val>): Outcome {
    match o
    case Normal(locals, s) => if TypesOf(s) == ts then Normal(locals, outer + s) else Stuck
    case Branching(d, locals, s) =>
      if d > 0 then Branching(d - 1, locals, s)
      else if HasTop(s, ts) then Normal(locals, outer + Top(s, |ts|))
      else Stuck
    case _ => o
  }

  /** Leaving a function body. */
  function LeaveFunction(o: Outcome, ts: seq<ValType>): CallOutcome {
    match o
    case Normal(_, s) => if TypesOf(s) == ts then Results(s) else CallStuck
    case Branching(d, _, s) => if d == 0 && HasTop(s, ts) then Results(Top(s, |ts|)) else CallStuck
    case Returning(s) => if HasTop(s, ts) then Results(Top(s, |ts|)) else CallStuck
    case Trapping(k) => CallTraps(k)
    case OutOfFuel => CallOutOfFuel
    case Stuck => CallStuck
  }

  function RunBody(m: Module, fuel: nat, b: Body, locals: seq<Val>, stack: seq<Val>): Outcome
    decreases fuel, b, 0
  {
    match b
    case End => Normal(locals, stack)
    case Then(i, rest) =>
      var o := RunInstr(m, fuel, i, locals, stack);
      if o.Normal? then RunBody(m, fuel, rest, o.locals, o.stack) else o
    case Br(d) => Branching(d, locals, stack)
    case BrTable(targets, default) =>
      if |stack| == 0 || !stack[|stack| - 1].V32? then Stuck
      else
        var k := stack[|stack| - 1].bits32;
        Branching(if k < |targets| then targets[k] else default, locals, stack[..|stack| - 1])
    case Return => Returning(stack)
    case Unreachable => Trapping(TrapKind.Unreachable)
  }

  function RunInstr(m: Module, fuel: nat, i: Instr, locals: seq<Val>, stack: seq<Val>): Outcome
    decreases fuel, i, 0
  {
    var h := |stack|;
    match i
    case Const(v) => Normal(locals, stack + [v])
    case LocalGet(n) => if n < |locals| then Normal(locals, stack + [locals[n]]) else Stuck
    case LocalSet(n) =>
      if n < |locals| && h > 0 && stack[h - 1].Type() == locals[n].Type()
      then Normal(locals[n := stack[h - 1]], stack[..h - 1]) else Stuck
    case LocalTee(n) =>
      if n < |locals| && h > 0 && stack[h - 1].Type() == locals[n].Type()
      then Normal(locals[n := stack[h - 1]], stack) else Stuck
    case Unary(op) =>
      if h > 0 && stack[h - 1].Type() == UnOperand(op)
      then Normal(locals, stack[..h - 1] + [UnaryVal(op, stack[h - 1])]) else Stuck
    case Binary(op) =>
      if h > 1 && stack[h - 1].Type() == op.width && stack[h - 2].Type() == op.width then
        match BinaryVal(op, stack[h - 2], stack[h - 1])
        case Fine(v) => Normal(locals, stack[..h - 2] + [v])
        case Traps(k) => Trapping(k)
      else Stuck
    case Select =>
      if h > 2 && stack[h - 1].V32? && stack[h - 2].Type() == stack[h - 3].Type()
      then Normal(locals, stack[..h - 3] + [if stack[h - 1].bits32 != 0 then stack[h - 3] else stack[h - 2]])
      else Stuck
    case Drop => if h > 0 then Normal(locals, stack[..h - 1]) else Stuck
    case Nop => Normal(locals, stack)
    case Block(result, body) => LeaveBlock(RunBody(m, fuel, body, locals, []), ResultSeq(result), stack)
    case Loop(result, body) => RunLoop(m, fuel, result, body, locals, stack)
    case If(result, thn, els) =>
      if h == 0 || !stack[h - 1].V32? then Stuck
      else if stack[h - 1].bits32 != 0 then
        LeaveBlock(RunBody(m, fuel, thn, locals, []), ResultSeq(result), stack[..h - 1])
      else if els.Some? then
        LeaveBlock(RunBody(m, fuel, els.value, locals, []), ResultSeq(result), stack[..h - 1])
      else if result.None? then Normal(locals, stack[..h - 1])
      else Stuck
    case BrIf(d) =>
      if h == 0 || !stack[h - 1].V32? then Stuck
      else if stack[h - 1].bits32 != 0 then Branching(d, locals, stack[..h - 1])
      else Normal(locals, stack[..h - 1])
    case Call(f) =>
      if f < |m| && HasTop(stack, m[f].params) then
        var n := |m[f].params|;
        if fuel == 0 then OutOfFuel
        else match Invoke(m, fuel - 1, f, Top(stack, n))
          case Results(vs) => Normal(locals, stack[..h - n] + vs)
          case CallTraps(k) => Trapping(k)
          case CallOutOfFuel => OutOfFuel
          case CallStuck => Stuck
      else Stuck
  }

  function RunLoop(m: Module, fuel: nat, result: Option<ValType>, body: Body, locals: seq<Val>,
                   stack: seq<Val>): Outcome
    decreases fuel, body, 1
  {
    var o := RunBody(m, fuel, body, locals, []);
    if o.Branching? && o.depth == 0 then
      if fuel == 0 then OutOfFuel else RunLoop(m, fuel - 1, result, body, o.locals, stack)
    else LeaveBlock(o, ResultSeq(result), stack)
  }

  function Invoke(m: Module, fuel: nat, f: nat, args: seq<Val>): CallOutcome
    requires f < |m|
    decreases fuel, m[f].body, 1
  {
    LeaveFunction(RunBody(m, fuel, m[f].body, args + Zeros(m[f].locals), []), m[f].results)
  }

  // ----- validation -----

  /** `labels[d]` are the operand types a branch of depth `d` takes. */
  datatype Context = Context(m: Module, locals: seq<ValType>, labels: seq<seq<ValType>>, results: seq<ValType>)
  {
    function Enter(ts: seq<ValType>): Context {
      this.(labels := [ts] + labels)
    }
  }

  predicate EndsWith(ts: seq<ValType>, suffix: seq<ValType>) {
    |suffix| <= |ts| && ts[|ts| - |suffix|..] == suffix
  }

  /** The operand types after an instruction, when it is valid on operands of types `ts`. */
  function CheckInstr(c: Context, i: Instr, ts: seq<ValType>): Option<seq<ValType>>
    decreases i
  {
    var h := |ts|;
    match i
    case Const(v) => Some(ts + [v.Type()])
    case LocalGet(n) => if n < |c.locals| then Some(ts + [c.locals[n]]) else None
    case LocalSet(n) => if n < |c.locals| && EndsWith(ts, [c.locals[n]]) then Some(ts[..h - 1]) else None
    case LocalTee(n) => if n < |c.locals| && EndsWith(ts, [c.locals[n]]) then Some(ts) else None
    case Unary(op) => if EndsWith(ts, [UnOperand(op)]) then Some(ts[..h - 1] + [UnResult(op)]) else None
    case Binary(op) =>
      if EndsWith(ts, [op.width, op.width]) then Some(ts[..h - 2] + [BinResult(op)]) else None
    case Select => if h > 2 && ts[h - 1] == I32 && ts[h - 2] == ts[h - 3] then Some(ts[..h - 2]) else None
    case Drop => if h > 0 then Some(ts[..h - 1]) else None
    case Nop => Some(ts)
    case Block(result, body) =>
      if CheckBody(c.Enter(ResultSeq(result)), body, [], ResultSeq(result)) then Some(ts + ResultSeq(result)) else None
    case Loop(result, body) =>
      if CheckBody(c.Enter([]), body, [], ResultSeq(result)) then Some(ts + ResultSeq(result)) else None
    case If(result, thn, els) =>
      if EndsWith(ts, [I32])
         && CheckBody(c.Enter(ResultSeq(result)), thn, [], ResultSeq(result))
         && (if els.Some? then CheckBody(c.Enter(ResultSeq(result)), els.value, [], ResultSeq(result))
             else result.None?)
      then Some(ts[..h - 1] + ResultSeq(result)) else None
    case BrIf(d) =>
      if d < |c.labels| && EndsWith(ts, [I32]) && EndsWith(ts[..h - 1], c.labels[d]) then Some(ts[..h - 1]) else None
    case Call(f) =>
      if f < |c.m| && EndsWith(ts, c.m[f].params) then Some(ts[..h - |c.m[f].params|] + c.m[f].results) else None
  }

  predicate CheckBody(c: Context, b: Body, ts: seq<ValType>, expected: seq<ValType>)
    decreases b
  {
    match b
    case End => ts == expected
    case Then(i, rest) =>
      var r := CheckInstr(c, i, ts);
      r.Some? && CheckBody(c, rest, r.value, expected)
    case Br(d) => d < |c.labels| && EndsWith(ts, c.labels[d])
    case BrTable(targets, default) =>
      && EndsWith(ts, [I32])
      && default < |c.labels|
      && EndsWith(ts[..|ts| - 1], c.labels[default])
      && forall d <- targets :: d < |c.labels| && EndsWith(ts[..|ts| - 1], c.labels[d])
    case Return => EndsWith(ts, c.results)
    case Unreachable => true
  }

  function FuncContext(m: Module, fn: Func): Context {
    Context(m, fn.params + fn.locals, [fn.results], fn.results)
  }

  predicate ValidFunc(m: Module, fn: Func) {
    CheckBody(FuncContext(m, fn), fn.body, [], fn.results)
  }

  predicate ValidModule(m: Module) {
    forall f :: 0 <= f < |m| ==> ValidFunc(m, m[f])
  }

  // ----- valid code never gets stuck -----

  /** What an outcome of valid code looks like. */
  ghost predicate Sound(c: Context, o: Outcome, ts: seq<ValType>) {
    match o
    case Normal(locals, s) => TypesOf(locals) == c.locals && TypesOf(s) == ts
    case Branching(d, locals, s) => d < |c.labels| && TypesOf(locals) == c.locals && HasTop(s, c.labels[d])
    case Returning(s) => HasTop(s, c.results)
    case Trapping(_) => true
    case OutOfFuel => true
    case Stuck => false
  }

  ghost predicate SoundCall(o: CallOutcome, ts: seq<ValType>) {
    match o
    case Results(vs) => TypesOf(vs) == ts
    case CallTraps(_) => true
    case CallOutOfFuel => true
    case CallStuck => false
  }

  lemma TopTypes(stack: seq<Val>, ts: seq<ValType>)
    requires EndsWith(TypesOf(stack), ts)
    ensures HasTop(stack, ts)
  {
    assert TypesOf(Top(stack, |ts|)) == TypesOf(stack)[|stack| - |ts|..];
  }

  lemma PoppedTypes(stack: seq<Val>, k: nat)
    requires k <= |stack|
    ensures TypesOf(stack[..|stack| - k]) == TypesOf(stack)[..|stack| - k]
  {
  }

  lemma LeaveBlockSound(c: Context, taken: seq<ValType>, ts: seq<ValType>, o: Outcome, outer: seq<Val>)
    requires Sound(c.Enter(taken), o, ts)
    requires o.Branching? && o.depth == 0 ==> taken == ts
    ensures Sound(c, LeaveBlock(o, ts, outer), TypesOf(outer) + ts)
  {
    match o
    case Normal(_, s) => assert TypesOf(outer + s) == TypesOf(outer) + ts;
    case Branching(d, _, s) =>
      if d == 0 {
        assert TypesOf(outer + Top(s, |ts|)) == TypesOf(outer) + ts;
      }
    case _ =>
  }

  lemma {:induction false} BodySound(c: Context, fuel: nat, b: Body, locals: seq<Val>, stack: seq<Val>,
                                     expected: seq<ValType>)
    requires ValidModule(c.m) && CheckBody(c, b, TypesOf(stack), expected) && TypesOf(locals) == c.locals
    ensures Sound(c, RunBody(c.m, fuel, b, locals, stack), expected)
    decreases fuel, b, 0
  {
    match b
    case End =>
    case Then(i, rest) =>
      InstrSound(c, fuel, i, locals, stack);
      var o := RunInstr(c.m, fuel, i, locals, stack);
      if o.Normal? {
        BodySound(c, fuel, rest, o.locals, o.stack, expected);
      }
    case Br(d) => TopTypes(stack, c.labels[d]);
    case BrTable(targets, default) =>
      TopTypes(stack, [I32]);
      assert stack[|stack| - 1].V32? by { assert TypesOf(stack)[|stack| - 1] == I32; }
      PoppedTypes(stack, 1);
      var k := stack[|stack| - 1].bits32;
      var d := if k < |targets| then targets[k] else default;
      assert k < |targets| ==> d in targets;
      TopTypes(stack[..|stack| - 1], c.labels[d]);
    case Return => TopTypes(stack, c.results);
    case Unreachable =>
  }

  lemma {:induction false} InstrSound(c: Context, fuel: nat, i: Instr, locals: seq<Val>, stack: seq<Val>)
    requires ValidModule(c.m) && CheckInstr(c, i, TypesOf(stack)).Some? && TypesOf(locals) == c.locals
    ensures Sound(c, RunInstr(c.m, fuel, i, locals, stack), CheckInstr(c, i, TypesOf(stack)).value)
    decreases fuel, i, 1
  {
    match i
    case Block(_, _) => BlockSound(c, fuel, i, locals, stack);
    case Loop(result, body) => LoopSound(c, fuel, result, body, locals, stack);
    case If(_, _, _) => IfSound(c, fuel, i, locals, stack);
    case Call(_) => CallSound(c, fuel, i, locals, stack);
    case LocalGet(_) => LocalSound(c, fuel, i, locals, stack);
    case LocalSet(_) => LocalSound(c, fuel, i, locals, stack);
    case LocalTee(_) => LocalSound(c, fuel, i, locals, stack);
    case Unary(_) => OperatorSound(c, fuel, i, locals, stack);
    case Binary(_) => OperatorSound(c, fuel, i, locals, stack);
    case Select => SelectSound(c, fuel, locals, stack);
    case BrIf(d) => BrIfSound(c, fuel, d, locals, stack);
    case _ => SimpleSound(c, fuel, i, locals, stack);
  }

  lemma EndsWithOne(stack: seq<Val>, t: ValType)
    requires EndsWith(TypesOf(stack), [t])
    ensures |stack| > 0 && stack[|stack| - 1].Type() == t
  {
    assert TypesOf(stack)[|stack| - 1..][0] == t;
  }

  lemma EndsWithTwo(stack: seq<Val>, t: ValType, u: ValType)
    requires EndsWith(TypesOf(stack), [t, u])
    ensures |stack| > 1 && stack[|stack| - 1].Type() == u && stack[|stack| - 2].Type() == t
  {
    var s := TypesOf(stack)[|stack| - 2..];
    assert s[0] == t && s[1] == u;
  }

  lemma LocalSound(c: Context, fuel: nat, i: Instr, locals: seq<Val>, stack: seq<Val>)
    requires i.LocalGet? || i.LocalSet? || i.LocalTee?
    requires CheckInstr(c, i, TypesOf(stack)).Some? && TypesOf(locals) == c.locals
    ensures Sound(c, RunInstr(c.m, fuel, i, locals, stack), CheckInstr(c, i, TypesOf(stack)).value)
  {
    if !i.LocalGet? {
      EndsWithOne(stack, c.locals[i.n]);
      PoppedTypes(stack, 1);
      assert TypesOf(locals[i.n := stack[|stack| - 1]]) == c.locals;
    }
  }

  /** Operands replaced by one value. */
  lemma ReplacedTypes(stack: seq<Val>, k: nat, v: Val)
    requires k <= |stack|
    ensures TypesOf(stack[..|stack| - k] + [v]) == TypesOf(stack)[..|stack| - k] + [v.Type()]
  {
  }

  lemma OperatorSound(c: Context, fuel: nat, i: Instr, locals: seq<Val>, stack: seq<Val>)
    requires i.Unary? || i.Binary?
    requires CheckInstr(c, i, TypesOf(stack)).Some? && TypesOf(locals) == c.locals
    ensures Sound(c, RunInstr(c.m, fuel, i, locals, stack), CheckInstr(c, i, TypesOf(stack)).value)
  {
    hide BinaryVal, UnaryVal, EndsWith, TypesOf;
    var h := |stack|;
    match i
    case Unary(op) =>
      EndsWithOne(stack, UnOperand(op));
      ReplacedTypes(stack, 1, UnaryVal(op, stack[h - 1]));
    case Binary(op) =>
      EndsWithTwo(stack, op.width, op.width);
      var r := BinaryVal(op, stack[h - 2], stack[h - 1]);
      if r.Fine? {
        ReplacedTypes(stack, 2, r.result);
      }
  }

  lemma SelectSound(c: Context, fuel: nat, locals: seq<Val>, stack: seq<Val>)
    requires CheckInstr(c, Select, TypesOf(stack)).Some? && TypesOf(locals) == c.locals
    ensures Sound(c, RunInstr(c.m, fuel, Select, locals, stack), CheckInstr(c, Select, TypesOf(stack)).value)
  {
    var h := |stack|;
    var v := if stack[h - 1].V32? && stack[h - 1].bits32 != 0 then stack[h - 3] else stack[h - 2];
    ReplacedTypes(stack, 3, v);
    assert TypesOf(stack)[h - 1] == I32 && TypesOf(stack)[..h - 2] == TypesOf(stack)[..h - 3] + [v.Type()];
  }

  lemma BrIfSound(c: Context, fuel: nat, d: nat, locals: seq<Val>, stack: seq<Val>)
    requires CheckInstr(c, BrIf(d), TypesOf(stack)).Some? && TypesOf(locals) == c.locals
    ensures Sound(c, RunInstr(c.m, fuel, BrIf(d), locals, stack), CheckInstr(c, BrIf(d), TypesOf(stack)).value)
  {
    hide EndsWith, HasTop, TypesOf;
    var h := |stack|;
    EndsWithOne(stack, I32);
    PoppedTypes(stack, 1);
    assert stack[..|stack| - 1] == stack[..h - 1];
    TopTypes(stack[..h - 1], c.labels[d]);
  }

  lemma SimpleSound(c: Context, fuel: nat, i: Instr, locals: seq<Val>, stack: seq<Val>)
    requires i.Const? || i.Drop? || i.Nop?
    requires CheckInstr(c, i, TypesOf(stack)).Some? && TypesOf(locals) == c.locals
    ensures Sound(c, RunInstr(c.m, fuel, i, locals, stack), CheckInstr(c, i, TypesOf(stack)).value)
  {
    match i
    case Const(v) => assert TypesOf(stack + [v]) == TypesOf(stack) + [v.Type()];
    case Drop => PoppedTypes(stack, 1);
    case Nop =>
  }

  lemma {:induction false} BlockSound(c: Context, fuel: nat, i: Instr, locals: seq<Val>, stack: seq<Val>)
    requires i.Block?
    requires ValidModule(c.m) && CheckInstr(c, i, TypesOf(stack)).Some? && TypesOf(locals) == c.locals
    ensures Sound(c, RunInstr(c.m, fuel, i, locals, stack), CheckInstr(c, i, TypesOf(stack)).value)
    decreases fuel, i, 0
  {
    var ts := ResultSeq(i.result);
    BodySound(c.Enter(ts), fuel, i.body, locals, [], ts);
    LeaveBlockSound(c, ts, ts, RunBody(c.m, fuel, i.body, locals, []), stack);
  }

  lemma {:induction false} IfSound(c: Context, fuel: nat, i: Instr, locals: seq<Val>, stack: seq<Val>)
    requires i.If?
    requires ValidModule(c.m) && CheckInstr(c, i, TypesOf(stack)).Some? && TypesOf(locals) == c.locals
    ensures Sound(c, RunInstr(c.m, fuel, i, locals, stack), CheckInstr(c, i, TypesOf(stack)).value)
    decreases fuel, i, 0
  {
    EndsWithOne(stack, I32);
    PoppedTypes(stack, 1);
    var ts := ResultSeq(i.result);
    var outer := stack[..|stack| - 1];
    if stack[|stack| - 1].bits32 != 0 {
      BodySound(c.Enter(ts), fuel, i.thn, locals, [], ts);
      LeaveBlockSound(c, ts, ts, RunBody(c.m, fuel, i.thn, locals, []), outer);
    } else if i.els.Some? {
      BodySound(c.Enter(ts), fuel, i.els.value, locals, [], ts);
      LeaveBlockSound(c, ts, ts, RunBody(c.m, fuel, i.els.value, locals, []), outer);
    } else {
      assert TypesOf(outer) + ts == TypesOf(outer);
    }
  }

  lemma {:induction false} CallSound(c: Context, fuel: nat, i: Instr, locals: seq<Val>, stack: seq<Val>)
    requires i.Call?
    requires ValidModule(c.m) && CheckInstr(c, i, TypesOf(stack)).Some? && TypesOf(locals) == c.locals
    ensures Sound(c, RunInstr(c.m, fuel, i, locals, stack), CheckInstr(c, i, TypesOf(stack)).value)
    decreases fuel, i, 0
  {
    TopTypes(stack, c.m[i.f].params);
    var n := |c.m[i.f].params|;
    PoppedTypes(stack, n);
    if fuel > 0 {
      InvokeSound(c.m, fuel - 1, i.f, Top(stack, n));
      var r := Invoke(c.m, fuel - 1, i.f, Top(stack, n));
      if r.Results? {
        assert TypesOf(stack[..|stack| - n] + r.vals) == TypesOf(stack[..|stack| - n]) + TypesOf(r.vals);
      }
    }
  }

  lemma {:induction false} LoopSound(c: Context, fuel: nat, result: Option<ValType>, body: Body, locals: seq<Val>,
                                     stack: seq<Val>)
    requires ValidModule(c.m) && CheckBody(c.Enter([]), body, [], ResultSeq(result)) && TypesOf(locals) == c.locals
    ensures Sound(c, RunLoop(c.m, fuel, result, body, locals, stack), TypesOf(stack) + ResultSeq(result))
    decreases fuel, body, 1
  {
    var ts := ResultSeq(result);
    BodySound(c.Enter([]), fuel, body, locals, [], ts);
    var o := RunBody(c.m, fuel, body, locals, []);
    if o.Branching? && o.depth == 0 {
      if fuel > 0 {
        LoopSound(c, fuel - 1, result, body, o.locals, stack);
      }
    } else {
      LeaveBlockSound(c, [], ts, o, stack);
    }
  }

  /** In a valid module a call with arguments of the declared types never gets stuck and returns the declared types. */
  lemma {:induction false} InvokeSound(m: Module, fuel: nat, f: nat, args: seq<Val>)
    requires ValidModule(m) && f < |m| && TypesOf(args) == m[f].params
    ensures SoundCall(Invoke(m, fuel, f, args), m[f].results)
    decreases fuel, m[f].body, 1
  {
    var fn := m[f];
    var c := FuncContext(m, fn);
    var locals := args + Zeros(fn.locals);
    assert ValidFunc(m, fn);
    assert TypesOf(locals) == c.locals;
    BodySound(c, fuel, fn.body, locals, [], fn.results);
  }

  // ----- locals -----

  ghost predicate KeepsLocals(o: Outcome, n: nat) {
    o.Normal? || o.Branching? ==> |o.locals| == n
  }

  /** No code adds or drops a local. */
  lemma {:induction false} BodyKeepsLocals(m: Module, fuel: nat, b: Body, locals: seq<Val>, stack: seq<Val>)
    ensures KeepsLocals(RunBody(m, fuel, b, locals, stack), |locals|)
    decreases fuel, b, 0
  {
    match b
    case Then(i, rest) =>
      InstrKeepsLocals(m, fuel, i, locals, stack);
      var o := RunInstr(m, fuel, i, locals, stack);
      if o.Normal? {
        BodyKeepsLocals(m, fuel, rest, o.locals, o.stack);
      }
    case _ =>
  }

  lemma {:induction false} InstrKeepsLocals(m: Module, fuel: nat, i: Instr, locals: seq<Val>, stack: seq<Val>)
    ensures KeepsLocals(RunInstr(m, fuel, i, locals, stack), |locals|)
    decreases fuel, i, 0
  {
    match i
    case Block(_, body) => BodyKeepsLocals(m, fuel, body, locals, []);
    case Loop(result, body) => LoopKeepsLocals(m, fuel, result, body, locals, stack);
    case If(_, thn, els) =>
      BodyKeepsLocals(m, fuel, thn, locals, []);
      if els.Some? {
        BodyKeepsLocals(m, fuel, els.value, locals, []);
      }
    case _ =>
  }

  lemma {:induction false} LoopKeepsLocals(m: Module, fuel: nat, result: Option<ValType>, body: Body, locals: seq<Val>,
                                           stack: seq<Val>)
    ensures KeepsLocals(RunLoop(m, fuel, result, body, locals, stack), |locals|)
    decreases fuel, body, 1
  {
    BodyKeepsLocals(m, fuel, body, locals, []);
    var o := RunBody(m, fuel, body, locals, []);
    if o.Branching? && o.depth == 0 && fuel > 0 {
      LoopKeepsLocals(m, fuel - 1, result, body, o.locals, stack);
    }
  }
}
