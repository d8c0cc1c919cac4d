/** How much room a function body asks for, computed from its syntax alone: how many operands and landing records are on
    the compile-time stack at most, how far beyond them call frames push slots, and how many operands refer to one local
    at a time where they have to be moved out of its way.
 */
module Needs {
  import opened Words
  import opened IntegerOps
  import opened Wasm

  /** An operand: its type, the local it was read from if it has not been moved since, and how many slots its own may
      lie beyond those that are allocated one by one. */
  datatype Operand = Operand(ty: ValType, local: Option<nat>, reach: nat)

  datatype Need = Need(height: nat, reach: nat, refs: nat)
  {
    function Join(n: Need): Need {
      Need(Most(height, n.height), Most(reach, n.reach), Most(refs, n.refs))
    }

    predicate Within(lim: Need) {
      height <= lim.height && reach <= lim.reach && refs <= lim.refs
    }
  }

  function Most(a: nat, b: nat): nat {
    if a < b then b else a
  }

  // ----- operands -----

  function Plain(ty: ValType): Operand {
    Operand(ty, None, 0)
  }

  function Plains(ts: seq<ValType>, reach: nat): (r: seq<Operand>)
    ensures |r| == |ts| && forall i :: 0 <= i < |r| ==> r[i] == Operand(ts[i], None, reach)
  {
    seq(|ts|, i requires 0 <= i < |ts| => Operand(ts[i], None, reach))
  }

  function Types(ops: seq<Operand>): (r: seq<ValType>)
    ensures |r| == |ops| && forall i :: 0 <= i < |r| ==> r[i] == ops[i].ty
  {
    seq(|ops|, i requires 0 <= i < |ops| => ops[i].ty)
  }

  /** The operands without the top `k`. */
  function Without(ops: seq<Operand>, k: nat): seq<Operand> {
    if k <= |ops| then ops[..|ops| - k] else []
  }

  /** Operands read from local `n` have been moved to a slot of their own. */
  function Moved(ops: seq<Operand>, n: nat): (r: seq<Operand>)
    ensures |r| == |ops|
    ensures forall i :: 0 <= i < |r| ==> r[i] == if ops[i].local == Some(n) then ops[i].(local := None) else ops[i]
  {
    seq(|ops|, i requires 0 <= i < |ops| => if ops[i].local == Some(n) then ops[i].(local := None) else ops[i])
  }

  function AllMoved(ops: seq<Operand>): (r: seq<Operand>)
    ensures |r| == |ops| && forall i :: 0 <= i < |r| ==> r[i] == ops[i].(local := None)
  {
    seq(|ops|, i requires 0 <= i < |ops| => ops[i].(local := None))
  }

  /** The number of operands read from local `n`. */
  function Refs(ops: seq<Operand>, n: nat): nat {
    if ops == [] then 0
    else Refs(ops[..|ops| - 1], n) + if ops[|ops| - 1].local == Some(n) then 1 else 0
  }

  /** ... from the one of the first `k` locals with the most. */
  function MostRefs(ops: seq<Operand>, k: nat): nat {
    if k == 0 then 0 else Most(MostRefs(ops, k - 1), Refs(ops, k - 1))
  }

  /** The farthest reach of the operands, or that of those below. */
  function MostReach(ops: seq<Operand>, below: nat): nat {
    if ops == [] then below else Most(MostReach(ops[..|ops| - 1], below), ops[|ops| - 1].reach)
  }

  // ----- instructions -----

  /** The operands after a valid instruction; `below` is the reach of the operands of the enclosing blocks. */
  function After(x: Context, i: Instr, ops: seq<Operand>, below: nat): seq<Operand> {
    match i
    case Const(v) => ops + [Plain(v.Type())]
    case LocalGet(n) => if n < |x.locals| then ops + [Operand(x.locals[n], Some(n), 0)] else ops
    case LocalSet(n) => Without(Moved(ops, n), 1)
    case LocalTee(n) => Moved(ops, n)
    case Unary(op) => Without(ops, 1) + [Plain(UnResult(op))]
    case Binary(op) => Without(ops, 2) + [Plain(BinResult(op))]
    case Select => Without(ops, 3) + if |ops| > 1 then [Plain(ops[|ops| - 2].ty)] else []
    case Drop => Without(ops, 1)
    case Nop => ops
    case Block(result, _) => AllMoved(ops) + Plains(ResultSeq(result), 0)
    case Loop(result, _) => AllMoved(ops) + Plains(ResultSeq(result), 0)
    case If(result, _, _) => Without(AllMoved(ops), 1) + Plains(ResultSeq(result), 0)
    case BrIf(_) => Without(ops, 1)
    case Call(f) =>
      if f < |x.m| then
        Without(ops, |x.m[f].params|) + Plains(x.m[f].results, MostReach(ops, below) + |x.m[f].results|)
      else ops
  }

  /** `h` operands and landing records lie below those of the current block. */
  function InstrNeed(x: Context, i: Instr, ops: seq<Operand>, h: nat, below: nat): Need
    decreases i
  {
    var here := Need(h + Most(|ops|, |After(x, i, ops, below)|), 0, 0);
    match i
    case LocalSet(n) => here.Join(Need(0, 0, Refs(ops, n)))
    case LocalTee(n) => here.Join(Need(0, 0, Refs(ops, n)))
    case Block(result, body) =>
      here.Join(Need(0, 0, MostRefs(ops, |x.locals|)))
      .Join(InnerNeed(x, ResultSeq(result), ResultSeq(result), body, ops, h, below))
    case Loop(result, body) =>
      here.Join(Need(0, 0, MostRefs(ops, |x.locals|)))
      .Join(InnerNeed(x, [], ResultSeq(result), body, ops, h, below))
    case If(result, thn, els) =>
      var (ts, left) := (ResultSeq(result), Without(ops, 1));
      var arms := InnerNeed(x, ts, ts, thn, left, h, below);
      here.Join(Need(0, 0, MostRefs(ops, |x.locals|))).Join(
        if els.Some? then arms.Join(InnerNeed(x, ts, ts, els.value, left, h, below)) else arms)
    case Call(f) =>
      here.Join(Need(0, MostReach(ops, below) + if f < |x.m| then |x.m[f].results| else 0, 0))
    case _ => here
  }

  /** A block's body lies above the records of its results. */
  function InnerNeed(x: Context, taken: seq<ValType>, results: seq<ValType>, body: Body, ops: seq<Operand>, h: nat,
                     below: nat): Need
    decreases body, 1
  {
    BodyNeed(x.Enter(taken), body, [], h + |ops| + |results|, MostReach(ops, below))
  }

  function BodyNeed(x: Context, b: Body, ops: seq<Operand>, h: nat, below: nat): Need
    decreases b, 0
  {
    match b
    case Then(i, rest) =>
      InstrNeed(x, i, ops, h, below).Join(BodyNeed(x, rest, After(x, i, ops, below), h, below))
    case _ => Need(h + |ops|, 0, 0)
  }

  function FunctionNeed(m: Module, f: nat): Need
    requires f < |m|
  {
    BodyNeed(FuncContext(m, m[f]), m[f].body, [], 0, 0)
  }

  // ----- facts -----

  lemma {:induction false} ReachAt(ops: seq<Operand>, below: nat, i: nat)
    requires i < |ops|
    ensures ops[i].reach <= MostReach(ops, below)
  {
    if i < |ops| - 1 {
      ReachAt(ops[..|ops| - 1], below, i);
    }
  }

  lemma {:induction false} ReachBelow(ops: seq<Operand>, below: nat)
    ensures below <= MostReach(ops, below)
  {
    if ops != [] {
      ReachBelow(ops[..|ops| - 1], below);
    }
  }

  lemma {:induction false} RefsAt(ops: seq<Operand>, k: nat, n: nat)
    requires n < k
    ensures Refs(ops, n) <= MostRefs(ops, k)
  {
    if n < k - 1 {
      RefsAt(ops, k - 1, n);
    }
  }

  /** Moving the references to other locals leaves those to `n` or removes them. */
  lemma {:induction false} RefsMoved(ops: seq<Operand>, k: nat, n: nat)
    ensures Refs(Moved(ops, k), n) <= Refs(ops, n)
  {
    if ops != [] {
      RefsMoved(ops[..|ops| - 1], k, n);
      assert Moved(ops, k)[..|ops| - 1] == Moved(ops[..|ops| - 1], k);
    }
  }

  lemma SuffixAt(ts: seq<ValType>, suffix: seq<ValType>, i: nat)
    requires EndsWith(ts, suffix) && i < |suffix|
    ensures ts[|ts| - |suffix| + i] == suffix[i]
  {
    assert ts[|ts| - |suffix|..][i] == ts[|ts| - |suffix| + i];
  }

  lemma TypesAppend(a: seq<Operand>, b: seq<Operand>)
    ensures Types(a + b) == Types(a) + Types(b)
  {
  }

  lemma TypesWithout(ops: seq<Operand>, k: nat)
    requires k <= |ops|
    ensures Types(Without(ops, k)) == Types(ops)[..|ops| - k] && |Types(ops)| == |ops|
  {
  }

  lemma TypesMoved(ops: seq<Operand>, n: nat)
    ensures Types(Moved(ops, n)) == Types(ops) && Types(AllMoved(ops)) == Types(ops)
    ensures |Moved(ops, n)| == |AllMoved(ops)| == |ops|
  {
  }

  lemma TypesPlain(ty: ValType, n: nat, ts: seq<ValType>, reach: nat)
    ensures Types([Plain(ty)]) == [ty] && Types([Operand(ty, Some(n), 0)]) == [ty] && Types(Plains(ts, reach)) == ts
  {
  }

  /** Popping `k` operands and pushing others. */
  lemma TypesReplaced(ops: seq<Operand>, k: nat, more: seq<Operand>, ts: seq<ValType>)
    requires k <= |ops| && Types(more) == ts
    ensures Types(Without(ops, k) + more) == Types(ops)[..|ops| - k] + ts && |Types(ops)| == |ops|
  {
    hide Types;
    TypesWithout(ops, k);
    TypesAppend(Without(ops, k), more);
  }

  /** The operands after an instruction have the types validation gives them. */
  lemma {:induction false} AfterTypes(x: Context, i: Instr, ops: seq<Operand>, below: nat)
    requires CheckInstr(x, i, Types(ops)).Some?
    ensures Types(After(x, i, ops, below)) == CheckInstr(x, i, Types(ops)).value
  {
    hide CheckBody, MostReach, Types, Plains, Moved, AllMoved;
    TypesWithout(ops, 0);
    TypesMoved(ops, 0);
    match i
    case Const(v) =>
      TypesPlain(v.Type(), 0, [], 0);
      TypesAppend(ops, [Plain(v.Type())]);
    case LocalGet(n) =>
      TypesPlain(x.locals[n], n, [], 0);
      TypesAppend(ops, [Operand(x.locals[n], Some(n), 0)]);
    case LocalSet(n) =>
      TypesMoved(ops, n);
      TypesWithout(Moved(ops, n), 1);
    case LocalTee(n) => TypesMoved(ops, n);
    case Unary(op) =>
      TypesPlain(UnResult(op), 0, [], 0);
      TypesReplaced(ops, 1, [Plain(UnResult(op))], [UnResult(op)]);
    case Binary(op) =>
      TypesPlain(BinResult(op), 0, [], 0);
      TypesReplaced(ops, 2, [Plain(BinResult(op))], [BinResult(op)]);
    case Select => SelectTypes(ops);
    case Drop => TypesWithout(ops, 1);
    case Nop =>
    case Block(result, _) => BlockTypes(ops, result);
    case Loop(result, _) => BlockTypes(ops, result);
    case If(result, _, _) =>
      TypesPlain(I32, 0, ResultSeq(result), 0);
      TypesReplaced(AllMoved(ops), 1, Plains(ResultSeq(result), 0), ResultSeq(result));
    case BrIf(_) => TypesWithout(ops, 1);
    case Call(f) =>
      var reach := MostReach(ops, below) + |x.m[f].results|;
      TypesPlain(I32, 0, x.m[f].results, reach);
      TypesReplaced(ops, |x.m[f].params|, Plains(x.m[f].results, reach), x.m[f].results);
  }

  lemma SelectTypes(ops: seq<Operand>)
    requires |ops| > 2 && Types(ops)[|ops| - 2] == Types(ops)[|ops| - 3]
    ensures Types(Without(ops, 3) + [Plain(ops[|ops| - 2].ty)]) == Types(ops)[..|ops| - 2]
  {
  }

  lemma BlockTypes(ops: seq<Operand>, result: Option<ValType>)
    ensures Types(AllMoved(ops) + Plains(ResultSeq(result), 0)) == Types(ops) + ResultSeq(result)
  {
  }
}
