/** A coarse measure of a function's size that bounds what it needs: short functions compile. */
module Weights {
  import opened Words
  import opened IntegerOps
  import opened Wasm
  import opened Allocator
  import opened Compiler
  import opened Needs
  import opened Success

  /** The number of instructions, results of blocks and calls counted as well. */
  function BodyWeight(m: Module, b: Body): nat
    decreases b
  {
    match b
    case Then(i, rest) => InstrWeight(m, i) + BodyWeight(m, rest)
    case _ => 0
  }

  function InstrWeight(m: Module, i: Instr): nat
    decreases i
  {
    match i
    case Block(result, body) => 1 + |ResultSeq(result)| + BodyWeight(m, body)
    case Loop(result, body) => 1 + |ResultSeq(result)| + BodyWeight(m, body)
    case If(result, thn, els) =>
      1 + |ResultSeq(result)| + BodyWeight(m, thn) + if els.Some? then BodyWeight(m, els.value) else 0
    case Call(f) => 1 + if f < |m| then |m[f].results| else 0
    case _ => 1
  }

  lemma {:induction false} ReachBounded(ops: seq<Operand>, below: nat, bound: nat)
    requires below <= bound && forall i :: 0 <= i < |ops| ==> ops[i].reach <= bound
    ensures MostReach(ops, below) <= bound
    decreases |ops|
  {
    if ops != [] {
      ReachBounded(ops[..|ops| - 1], below, bound);
    }
  }

  lemma {:induction false} RefsBounded(ops: seq<Operand>, n: nat)
    ensures Refs(ops, n) <= |ops|
    decreases |ops|
  {
    if ops != [] {
      RefsBounded(ops[..|ops| - 1], n);
    }
  }

  lemma {:induction false} MostRefsBounded(ops: seq<Operand>, k: nat)
    ensures MostRefs(ops, k) <= |ops|
    decreases k
  {
    if k > 0 {
      RefsBounded(ops, k - 1);
      MostRefsBounded(ops, k - 1);
    }
  }

  /** One instruction adds at most its weight. */
  lemma {:induction false} AfterBounded(x: Context, i: Instr, ops: seq<Operand>, below: nat)
    ensures |After(x, i, ops, below)| <= |ops| + InstrWeight(x.m, i)
    ensures MostReach(After(x, i, ops, below), below) <= MostReach(ops, below) + InstrWeight(x.m, i)
  {
    var after, bound := After(x, i, ops, below), MostReach(ops, below) + InstrWeight(x.m, i);
    ReachBelow(ops, below);
    forall k | 0 <= k < |ops|
      ensures ops[k].reach <= MostReach(ops, below)
    {
      ReachAt(ops, below, k);
    }
    AfterReach(x, i, ops, below);
    ReachBounded(after, below, bound);
  }

  lemma AfterReach(x: Context, i: Instr, ops: seq<Operand>, below: nat)
    requires forall k :: 0 <= k < |ops| ==> ops[k].reach <= MostReach(ops, below)
    ensures |After(x, i, ops, below)| <= |ops| + InstrWeight(x.m, i)
    ensures forall k :: 0 <= k < |After(x, i, ops, below)| ==>
      After(x, i, ops, below)[k].reach <= MostReach(ops, below) + InstrWeight(x.m, i)
  {
    hide MostReach, BodyWeight;
  }

  lemma {:induction false} BodyBounded(x: Context, b: Body, ops: seq<Operand>, h: nat, below: nat, lim: Need)
    requires h + |ops| + BodyWeight(x.m, b) <= lim.height && |ops| + BodyWeight(x.m, b) <= lim.refs
    requires MostReach(ops, below) + BodyWeight(x.m, b) <= lim.reach
    ensures BodyNeed(x, b, ops, h, below).Within(lim)
    decreases b, 0
  {
    hide MostReach, InstrNeed, InstrWeight, After;
    if b.Then? {
      AfterBounded(x, b.head, ops, below);
      InstrBounded(x, b.head, ops, h, below, lim);
      BodyBounded(x, b.tail, After(x, b.head, ops, below), h, below, lim);
    }
  }

  lemma {:induction false} InstrBounded(x: Context, i: Instr, ops: seq<Operand>, h: nat, below: nat, lim: Need)
    requires h + |ops| + InstrWeight(x.m, i) <= lim.height && |ops| + InstrWeight(x.m, i) <= lim.refs
    requires MostReach(ops, below) + InstrWeight(x.m, i) <= lim.reach
    ensures InstrNeed(x, i, ops, h, below).Within(lim)
    decreases i, 3
  {
    hide MostReach, MostRefs, Refs, BodyWeight, BodyNeed, After;
    AfterBounded(x, i, ops, below);
    MostRefsBounded(ops, |x.locals|);
    match i
    case LocalSet(n) => RefsBounded(ops, n);
    case LocalTee(n) => RefsBounded(ops, n);
    case Block(result, body) => InnerBounded(x, ResultSeq(result), ResultSeq(result), body, ops, h, below, lim);
    case Loop(result, body) => InnerBounded(x, [], ResultSeq(result), body, ops, h, below, lim);
    case If(result, thn, els) =>
      FewerReach(ops, below);
      InnerBounded(x, ResultSeq(result), ResultSeq(result), thn, Without(ops, 1), h, below, lim);
      if els.Some? {
        InnerBounded(x, ResultSeq(result), ResultSeq(result), els.value, Without(ops, 1), h, below, lim);
      }
    case _ =>
  }

  lemma FewerReach(ops: seq<Operand>, below: nat)
    ensures MostReach(Without(ops, 1), below) <= MostReach(ops, below) && |Without(ops, 1)| <= |ops|
  {
    ReachBelow(ops, below);
  }

  lemma {:induction false} InnerBounded(x: Context, taken: seq<ValType>, results: seq<ValType>, body: Body,
                                        ops: seq<Operand>, h: nat, below: nat, lim: Need)
    requires h + |ops| + |results| + BodyWeight(x.m, body) <= lim.height && BodyWeight(x.m, body) <= lim.refs
    requires MostReach(ops, below) + BodyWeight(x.m, body) <= lim.reach
    ensures InnerNeed(x, taken, results, body, ops, h, below).Within(lim)
    decreases body, 1
  {
    hide BodyNeed, BodyWeight;
    BodyBounded(x.Enter(taken), body, [], h + |ops| + |results|, MostReach(ops, below), lim);
  }

  /** A valid function of at most 255 instructions compiles if its results, parameters, locals and reserved constants
      leave slots and operands for them. */
  lemma SmallFunctionsCompile(m: Module, f: nat, reserved: nat)
    requires f < |m| && ValidFunc(m, m[f]) && BodyWeight(m, m[f].body) <= 255
    requires |m[f].params| + |m[f].locals| <= 1744
    requires |m[f].results| + |m[f].params| + |m[f].locals| + reserved <= 3489
    ensures CompileFunction(m, f, reserved).Some?
  {
    hide CompileFunction, BodyNeed, BodyWeight, ValidFunc;
    var w := BodyWeight(m, m[f].body);
    BodyBounded(FuncContext(m, m[f]), m[f].body, [], 0, 0, Need(w, w, w));
    FunctionCompiles(m, f, reserved);
  }
}
