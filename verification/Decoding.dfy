/** Where the compiler's read cursor goes. On every byte string compiling a body terminates, never moves the cursor
    past the end, and on success has consumed exactly one expression of the grammar below, although the handler of `if`
    steps back by one byte to make up a missing else arm. The grammar is the compiler's own; `Format` compares it with
    the binary format.

    The cursor's moves depend on the bytes and on the module's function types only; everything else that may make a
    handler fail is a nondeterministic choice here.
 */
module Decoding {
  import opened Words
  import opened Leb128

  const OP_BLOCK: nat := 0x02
  const OP_LOOP: nat := 0x03
  const OP_IF: nat := 0x04
  const OP_ELSE: nat := 0x05
  const OP_END: nat := 0x0B
  const OP_BR_TABLE: nat := 0x0E
  const OP_EXTENDED: nat := 0xFC

  // ----- the grammar -----

  /** The immediates of an opcode, read left to right. */
  datatype Immediate = Unsigned(bits: nat) | Signed(bits: nat) | Raw(size: nat)

  predicate Sound(i: Immediate) {
    match i
    case Unsigned(bits) => 0 < bits <= 64
    case Signed(bits) => 0 < bits <= 64
    case Raw(_) => true
  }

  function ImmediateEnd(bs: seq<nat>, at: nat, i: Immediate): (r: Option<nat>)
    requires at <= |bs|
    ensures r.Some? ==> at <= r.value <= |bs|
  {
    match i
    case Unsigned(bits) => LebEnd(bits, bs, at)
    case Signed(bits) => LebEnd(bits, bs, at)
    case Raw(size) => if at + size <= |bs| then Some(at + size) else None
  }

  function LebEnd(bits: nat, bs: seq<nat>, at: nat): (r: Option<nat>)
    requires at <= |bs|
    ensures r.Some? ==> at < r.value <= |bs|
  {
    if ReadStatus(bits, bs, at) == Decoded then Some(ReadEnd(bits, bs, at)) else None
  }

  function ImmediatesEnd(bs: seq<nat>, at: nat, parts: seq<Immediate>): (r: Option<nat>)
    requires at <= |bs|
    ensures r.Some? ==> at <= r.value <= |bs|
    decreases |parts|
  {
    if parts == [] then Some(at)
    else
      var next :- ImmediateEnd(bs, at, parts[0]);
      ImmediatesEnd(bs, next, parts[1..])
  }

  /** The opcodes that are neither structured nor br_table nor extended; None for those without a handler. */
  function Immediates(op: nat): (r: Option<seq<Immediate>>)
    ensures r.Some? ==> forall i <- r.value :: Sound(i)
  {
    if op in {0x00, 0x01, 0x0F, 0x1A, 0x1B} then Some([])
    else if op in {0x0C, 0x0D, 0x10, 0x12} || 0x20 <= op <= 0x24 then Some([Unsigned(32)])
    else if op in {0x11, 0x13} then Some([Unsigned(32), Signed(7)])
    else if 0x28 <= op <= 0x3E then Some([Unsigned(32), Unsigned(32)])
    else if op in {0x3F, 0x40} then Some([Signed(7)])
    else if op == 0x41 then Some([Signed(32)])
    else if op == 0x42 then Some([Signed(64)])
    else if op == 0x43 then Some([Raw(4)])
    else if op == 0x44 then Some([Raw(8)])
    else if 0x45 <= op <= 0xC4 then Some([])
    else None
  }

  /** The second byte of an extended opcode: saturating truncations, memory.copy, memory.fill. */
  function ExtendedImmediates(op: nat): (r: Option<seq<Immediate>>)
    ensures r.Some? ==> forall i <- r.value :: Sound(i)
  {
    if op <= 0x07 then Some([])
    else if op == 0x0A then Some([Signed(7), Signed(7)])
    else if op == 0x0B then Some([Signed(7)])
    else None
  }

  function ExtendedEnd(bs: seq<nat>, at: nat): (r: Option<nat>)
    requires at <= |bs|
    ensures r.Some? ==> at < r.value <= |bs|
  {
    if at == |bs| then None
    else
      var parts :- ExtendedImmediates(bs[at]);
      ImmediatesEnd(bs, at + 1, parts)
  }

  /** `n` branch targets. */
  function LabelsEnd(bs: seq<nat>, at: nat, n: nat): (r: Option<nat>)
    requires at <= |bs|
    ensures r.Some? ==> at <= r.value <= |bs|
    decreases n
  {
    if n == 0 then Some(at)
    else
      var next :- LebEnd(32, bs, at);
      LabelsEnd(bs, next, n - 1)
  }

  function U32At(bs: seq<nat>, at: nat, next: nat): nat
    requires at <= next <= |bs|
  {
    Number(bs[at..next]) % TWO_64 % 0x1_0000_0000
  }

  /** Targets and default; the count is a u32. */
  function LabelCount(targets: nat): nat {
    (targets + 1) % 0x1_0000_0000
  }

  function TableEnd(bs: seq<nat>, at: nat): (r: Option<nat>)
    requires at <= |bs|
    ensures r.Some? ==> at < r.value <= |bs|
  {
    var next :- LebEnd(32, bs, at);
    LabelsEnd(bs, next, LabelCount(U32At(bs, at, next)))
  }

  /** NormalizeType on an `i8`: the number of values of a type byte. */
  function ValueCount(v: int): Option<nat> {
    var t := -v % 0x100;
    if t == 0x40 then Some(0) else if 1 <= t <= 4 then Some(1) else None
  }

  function SignedAt(bs: seq<nat>, at: nat, next: nat): int
    requires at <= next <= |bs|
  {
    AsSigned(SignedNumber(bs[at..next]) % TWO_64)
  }

  /** A block type: its end and its number of results. `types` gives the result counts of the module's types. */
  function BlockType(bs: seq<nat>, at: nat, types: seq<nat>): (r: Option<(nat, nat)>)
    requires at <= |bs|
    ensures r.Some? ==> at < r.value.0 <= |bs|
  {
    var next :- LebEnd(33, bs, at);
    var v := SignedAt(bs, at, next);
    if v < 0 then
      var n :- ValueCount(v);
      Some((next, n))
    else if v < |types| then Some((next, types[v]))
    else None
  }

  /** Where a sequence of instructions stops, and whether at an `else`. */
  datatype Stop = Stop(next: nat, byElse: bool)

  /** Instructions up to and including `end`, or `else` in the first arm of an if. */
  function SequenceEnd(bs: seq<nat>, at: nat, types: seq<nat>, inIf: bool): (r: Option<Stop>)
    requires at <= |bs|
    ensures r.Some? ==> at < r.value.next <= |bs| && (r.value.byElse ==> inIf)
    decreases |bs| - at, 1
  {
    if at == |bs| then None
    else if bs[at] == OP_END then Some(Stop(at + 1, false))
    else if bs[at] == OP_ELSE then (if inIf then Some(Stop(at + 1, true)) else None)
    else
      var next :- InstructionEnd(bs, at, types);
      SequenceEnd(bs, next, types, inIf)
  }

  function InstructionEnd(bs: seq<nat>, at: nat, types: seq<nat>): (r: Option<nat>)
    requires at < |bs|
    ensures r.Some? ==> at < r.value <= |bs|
    decreases |bs| - at, 0
  {
    var op := bs[at];
    if op == OP_BLOCK || op == OP_LOOP then
      var bt :- BlockType(bs, at + 1, types);
      var body :- SequenceEnd(bs, bt.0, types, false);
      Some(body.next)
    else if op == OP_IF then
      var bt :- BlockType(bs, at + 1, types);
      var thn :- SequenceEnd(bs, bt.0, types, true);
      if thn.byElse then
        var els :- SequenceEnd(bs, thn.next, types, false);
        Some(els.next)
      else Some(thn.next)
    else if op == OP_BR_TABLE then TableEnd(bs, at + 1)
    else if op == OP_EXTENDED then ExtendedEnd(bs, at + 1)
    else
      var parts :- Immediates(op);
      ImmediatesEnd(bs, at + 1, parts)
  }

  /** Groups of locals: a count and a value type each. */
  function LocalsEnd(bs: seq<nat>, at: nat, groups: nat): (r: Option<nat>)
    requires at <= |bs|
    ensures r.Some? ==> at <= r.value <= |bs|
    decreases groups
  {
    if groups == 0 then Some(at)
    else
      var count :- LebEnd(32, bs, at);
      var next :- LebEnd(7, bs, count);
      if ValueCount(SignedAt(bs, count, next)).None? then None else LocalsEnd(bs, next, groups - 1)
  }

  /** The code of a function: its size, its locals, its body (section 5.5.13). */
  function FunctionEnd(bs: seq<nat>, types: seq<nat>): (r: Option<nat>)
    ensures r.Some? ==> 0 < r.value <= |bs|
  {
    var size :- LebEnd(32, bs, 0);
    var groups :- LebEnd(32, bs, size);
    var locals :- LocalsEnd(bs, groups, U32At(bs, size, groups));
    var body :- SequenceEnd(bs, locals, types, false);
    Some(body.next)
  }

  // ----- facts -----

  /** A sequence that does not stop at `else` stops right behind an `end` byte. */
  lemma {:induction false} StopsAtEnd(bs: seq<nat>, at: nat, types: seq<nat>, inIf: bool)
    requires at <= |bs| && SequenceEnd(bs, at, types, inIf).Some?
    ensures var s := SequenceEnd(bs, at, types, inIf).value;
      bs[s.next - 1] == if s.byElse then OP_ELSE else OP_END
    decreases |bs| - at
  {
    hide InstructionEnd;
    if bs[at] != OP_END && bs[at] != OP_ELSE {
      StopsAtEnd(bs, InstructionEnd(bs, at, types).value, types, inIf);
    }
  }

  /** Compiling the made-up else arm from that byte brings the cursor back to where it was. */
  lemma FakeElse(bs: seq<nat>, at: nat, types: seq<nat>, inIf: bool)
    requires at <= |bs| && SequenceEnd(bs, at, types, inIf).Some? && !SequenceEnd(bs, at, types, inIf).value.byElse
    ensures var next := SequenceEnd(bs, at, types, inIf).value.next;
      SequenceEnd(bs, next - 1, types, false) == Some(Stop(next, false))
  {
    StopsAtEnd(bs, at, types, inIf);
  }

  lemma FirstInstruction(bs: seq<nat>, at: nat, types: seq<nat>, inIf: bool, next: nat)
    requires at < |bs| && bs[at] != OP_END && bs[at] != OP_ELSE && InstructionEnd(bs, at, types) == Some(next)
    ensures SequenceEnd(bs, at, types, inIf) == SequenceEnd(bs, next, types, inIf)
  {
  }

  // ----- the compiler's cursor -----

  /** The fields of M3Compilation that decide what is read next. */
  class Cursor {
    const code: Bytes          // what lies between the start and wasmEnd
    const types: seq<nat>      // numbers of results of the module's function types
    const declines: nat -> bool   // where a handler gives up, whatever the bytes: wrong operands, no slots, ...
    var wasm: nat              // the cursor
    var previousOpcode: nat
    var blockOpcode: nat

    ghost predicate Valid()
      reads this
    {
      wasm <= |code|
    }

    constructor (code: Bytes, types: seq<nat>, declines: nat -> bool)
      ensures Valid() && this.code == code && this.types == types && this.declines == declines
      ensures wasm == 0 && blockOpcode == 0
    {
      this.code, this.types, this.declines := code, types, declines;
      wasm, previousOpcode, blockOpcode := 0, 0, 0;
    }

    /** A handler gives up on the way from one cursor position to another. */
    ghost predicate Declined(from: nat, to: nat) {
      exists a: nat :: from <= a <= to && declines(a)
    }

    /** The cursor has moved to where the grammar says, or the handler has failed further on: because the grammar says
        nothing, or a handler gives up. */
    twostate predicate Moved(ok: bool, end: Option<nat>)
      reads this
    {
      && Valid() && old(wasm) <= wasm
      && (ok ==> end == Some(wasm))
      && (!ok ==> end == None || Declined(old(wasm), wasm))
    }

    method ReadImmediate(i: Immediate) returns (ok: bool)
      requires Valid() && Sound(i)
      modifies this`wasm
      ensures Moved(ok, old(ImmediateEnd(code, wasm, i)))
    {
      match i
      case Unsigned(bits) =>
        var status, value, next := ReadLebUnsigned(bits, code, wasm);
        ok, wasm := status == Decoded, next;
      case Signed(bits) =>
        var status, value, next := ReadLebSigned(bits, code, wasm);
        ok, wasm := status == Decoded, next;
      case Raw(size) =>
        ok := wasm + size <= |code|;
        if ok {
          wasm := wasm + size;
        }
    }

    method ReadImmediates(parts: seq<Immediate>) returns (ok: bool)
      requires Valid() && forall i <- parts :: Sound(i)
      modifies this`wasm
      ensures Moved(ok, old(ImmediatesEnd(code, wasm, parts)))
    {
      var k := 0;
      assert parts[0..] == parts;
      while k < |parts|
        invariant k <= |parts| && Valid() && old(wasm) <= wasm
        invariant ImmediatesEnd(code, wasm, parts[k..]) == old(ImmediatesEnd(code, wasm, parts))
      {
        assert parts[k..][1..] == parts[k + 1..];
        ok := ReadImmediate(parts[k]);
        if !ok {
          return;
        }
        k := k + 1;
      }
      ok := true;
    }

    method ReadU32() returns (ok: bool, value: nat)
      requires Valid()
      modifies this`wasm
      ensures Moved(ok, old(LebEnd(32, code, wasm)))
      ensures ok ==> value == U32At(code, old(wasm), wasm)
    {
      var status, v, next := ReadLebUnsigned(32, code, wasm);
      ok, value, wasm := status == Decoded, v % 0x1_0000_0000, next;
    }

    method ReadBlockType() returns (ok: bool, numResults: nat)
      requires Valid()
      modifies this`wasm
      ensures Valid() && old(wasm) <= wasm
      ensures ok ==> old(BlockType(code, wasm, types)) == Some((wasm, numResults))
      ensures !ok ==> old(BlockType(code, wasm, types)) == None
    {
      var status, v, next := ReadLebSigned(33, code, wasm);
      ok, numResults := status == Decoded, 0;
      ghost var start := wasm;
      wasm := next;
      if ok {
        assert v == SignedAt(code, start, next);
        if v < 0 {
          var n := ValueCount(v);
          ok := n.Some?;
          numResults := n.GetOr(0);
        } else {
          ok := v < |types|;
          numResults := if ok then types[v] else 0;
        }
      }
    }

    method CompileBranchTable() returns (ok: bool)
      requires Valid()
      modifies this`wasm
      ensures Moved(ok, old(TableEnd(code, wasm)))
    {
      hide LebEnd, U32At;
      var targetCount: nat;
      ok, targetCount := ReadU32();
      if !ok {
        return;
      }
      targetCount := (targetCount + 1) % 0x1_0000_0000;
      var i := 0;
      while i < targetCount
        invariant i <= targetCount && Valid() && old(wasm) <= wasm
        invariant LabelsEnd(code, wasm, targetCount - i) == old(TableEnd(code, wasm))
      {
        var depth: nat;
        ok, depth := ReadU32();
        if !ok {
          return;
        }
        if declines(wasm) {
          return false;  // no such scope, or no room for its code
        }
        i := i + 1;
      }
    }

    method CompileExtendedOpcode() returns (ok: bool)
      requires Valid()
      modifies this`wasm
      ensures Moved(ok, old(ExtendedEnd(code, wasm)))
    {
      if wasm == |code| {
        return false;
      }
      var parts := ExtendedImmediates(code[wasm]);
      wasm := wasm + 1;
      if parts.None? {
        return false;
      }
      ok := ReadImmediates(parts.value);
    }

    /** Compile_LoopOrBlock, behind its opcode. */
    method CompileLoopOrBlock(opcode: nat) returns (ok: bool)
      requires Valid() && opcode in {OP_BLOCK, OP_LOOP} && 0 < wasm && code[wasm - 1] == opcode
      modifies this
      ensures Moved(ok, old(InstructionEnd(code, wasm - 1, types)))
      ensures ok ==> blockOpcode == old(blockOpcode)
      decreases |code| - wasm, 2
    {
      ghost var start := wasm;
      var numResults: nat;
      ok, numResults := ReadBlockType();
      if !ok {
        return;
      }
      ok := CompileBlock(opcode);
    }

    /** Compile_If, behind its opcode. */
    method CompileIf() returns (ok: bool)
      requires Valid() && 0 < wasm && code[wasm - 1] == OP_IF
      modifies this
      ensures Moved(ok, old(InstructionEnd(code, wasm - 1, types)))
      ensures ok ==> blockOpcode == old(blockOpcode)
      decreases |code| - wasm, 2
    {
      hide BlockType, SequenceEnd;
      var numResults: nat;
      ok, numResults := ReadBlockType();
      if !ok {
        return;
      }
      ghost var arm := wasm;
      ok := CompileBlock(OP_IF);
      if !ok {
        return;
      }
      if previousOpcode == OP_ELSE {
        ok := CompileBlock(OP_ELSE);
      } else if numResults > 0 {
        FakeElse(code, arm, types, true);
        wasm := wasm - 1;
        ok := CompileBlock(OP_ELSE);
      }
    }

    /** CompileBlock: the statements of one block; an else arm is a block of its own. */
    method CompileBlock(opcode: nat) returns (ok: bool)
      requires Valid()
      modifies this
      ensures Valid() && old(wasm) <= wasm
      ensures ok ==> old(SequenceEnd(code, wasm, types, opcode == OP_IF)) == Some(Stop(wasm, previousOpcode == OP_ELSE))
      ensures !ok ==> old(SequenceEnd(code, wasm, types, opcode == OP_IF)) == None || Declined(old(wasm), wasm)
      ensures ok ==> blockOpcode == old(blockOpcode)
      decreases |code| - wasm, 1
    {
      var outer := blockOpcode;
      blockOpcode := opcode;
      ok := CompileBlockStatements();
      if ok {
        blockOpcode := outer;
      }
    }

    /** One opcode with its immediates, wherever it leads. */
    method CompileOpcode(opcode: nat) returns (ok: bool)
      requires Valid() && 0 < wasm && code[wasm - 1] == opcode && opcode !in {OP_ELSE, OP_END}
      modifies this
      ensures Moved(ok, old(InstructionEnd(code, wasm - 1, types)))
      ensures ok ==> blockOpcode == old(blockOpcode)
      decreases |code| - wasm, 3
    {
      if declines(wasm) {
        return false;  // too many slots, unknown index, wrong operand, ...
      }
      if opcode == OP_BLOCK || opcode == OP_LOOP {
        ok := CompileLoopOrBlock(opcode);
      } else if opcode == OP_IF {
        ok := CompileIf();
      } else if opcode == OP_BR_TABLE {
        ok := CompileBranchTable();
      } else if opcode == OP_EXTENDED {
        ok := CompileExtendedOpcode();
      } else {
        var parts := Immediates(opcode);
        if parts.None? {
          return false;
        }
        ok := ReadImmediates(parts.value);
      }
    }

    method CompileBlockStatements() returns (ok: bool)
      requires Valid()
      modifies this
      ensures Valid() && old(wasm) <= wasm
      ensures ok ==>
        old(SequenceEnd(code, wasm, types, blockOpcode == OP_IF)) == Some(Stop(wasm, previousOpcode == OP_ELSE))
      ensures !ok ==> old(SequenceEnd(code, wasm, types, blockOpcode == OP_IF)) == None || Declined(old(wasm), wasm)
      ensures ok ==> blockOpcode == old(blockOpcode) && previousOpcode in {OP_ELSE, OP_END}
      decreases |code| - wasm, 0
    {
      while wasm < |code|
        invariant Valid() && old(wasm) <= wasm && blockOpcode == old(blockOpcode)
        invariant SequenceEnd(code, wasm, types, blockOpcode == OP_IF)
          == old(SequenceEnd(code, wasm, types, blockOpcode == OP_IF))
        decreases |code| - wasm
      {
        var opcode := code[wasm];
        wasm := wasm + 1;
        if opcode != OP_ELSE && opcode != OP_END {
          ok := CompileOpcode(opcode);
          if !ok {
            return;
          }
        }
        previousOpcode := opcode;
        if opcode == OP_ELSE {
          return blockOpcode == OP_IF;
        } else if opcode == OP_END {
          return true;
        }
      }
      return false;
    }

    method CompileLocals() returns (ok: bool)
      requires Valid()
      modifies this`wasm
      ensures Valid() && old(wasm) <= wasm
      ensures ok ==> old(LebEnd(32, code, wasm)).Some?
      ensures ok ==> var groups := old(LebEnd(32, code, wasm)).value;
        LocalsEnd(code, groups, U32At(code, old(wasm), groups)) == Some(wasm)
      ensures !ok && old(LebEnd(32, code, wasm)).Some? && !Declined(old(wasm), wasm) ==>
        var groups := old(LebEnd(32, code, wasm)).value;
        LocalsEnd(code, groups, U32At(code, old(wasm), groups)) == None
    {
      hide U32At, ValueCount, Number, SignedNumber, ReadStatus, ReadEnd, AsSigned;
      var numLocalBlocks: nat;
      ok, numLocalBlocks := ReadU32();
      if !ok {
        return;
      }
      ghost var groups := wasm;
      var l := 0;
      while l < numLocalBlocks
        invariant l <= numLocalBlocks && Valid() && groups <= wasm
        invariant LocalsEnd(code, wasm, numLocalBlocks - l) == LocalsEnd(code, groups, numLocalBlocks)
      {
        var varCount: nat;
        ok, varCount := ReadU32();
        if !ok {
          return;
        }
        var status, waType, next := ReadLebSigned(7, code, wasm);
        ghost var start := wasm;
        wasm := next;
        if status != Decoded || ValueCount(waType).None? {
          return false;
        }
        assert waType == SignedAt(code, start, next);
        if declines(wasm) {
          return false;  // no slots for that many locals
        }
        l := l + 1;
      }
    }

    /** The reading part of CompileFunction. */
    method CompileFunction() returns (ok: bool)
      requires Valid() && wasm == 0 && blockOpcode == 0
      modifies this
      ensures Valid()
      ensures ok ==> FunctionEnd(code, types) == Some(wasm)
      ensures !ok ==> FunctionEnd(code, types) == None || Declined(0, wasm)
    {
      var size: nat;
      ok, size := ReadU32();
      if !ok {
        return;
      }
      ok := CompileLocals();
      if !ok {
        return;
      }
      ok := CompileBlockStatements();
      if ok {
        ok := previousOpcode == OP_END;
      }
    }
  }
}
