/** The binary format of a function's code as specified: section 5.4 and 5.5.13 of the WebAssembly Core Specification
    1.0, with the proposals the compiler knows (multi-value block types, sign extension, saturating truncation, bulk
    memory, tail calls). It is defined apart from the compiler, whose cursor follows the grammar of `Decoding`; the
    main result says exactly for which bytes the two agree.
 */
module Format {
  import opened Words
  import opened Leb128
  import opened LebFormat
  import opened Decoding

  // ----- immediates -----

  datatype Field = UInt(bits: nat) | SInt(bits: nat) | Octets(count: nat) | ZeroByte

  predicate WellFormed(f: Field) {
    match f
    case UInt(n) => 0 < n <= 64
    case SInt(n) => 0 < n <= 64
    case Octets(_) => true
    case ZeroByte => true
  }

  function FieldEnd(bs: Bytes, at: nat, f: Field): (r: Option<nat>)
    requires at <= |bs| && WellFormed(f)
    ensures r.Some? ==> at <= r.value <= |bs|
  {
    match f
    case UInt(n) =>
      var v :- UnsignedInteger(n, bs, at);
      Some(v.1)
    case SInt(n) =>
      var v :- SignedInteger(n, bs, at);
      Some(v.1)
    case Octets(n) => if at + n <= |bs| then Some(at + n) else None
    case ZeroByte => if at < |bs| && bs[at] == 0 then Some(at + 1) else None
  }

  predicate AllWellFormed(fs: seq<Field>) {
    forall f <- fs :: WellFormed(f)
  }

  function FieldsEnd(bs: Bytes, at: nat, fs: seq<Field>): (r: Option<nat>)
    requires at <= |bs| && AllWellFormed(fs)
    ensures r.Some? ==> at <= r.value <= |bs|
    decreases |fs|
  {
    if fs == [] then Some(at)
    else
      var next :- FieldEnd(bs, at, fs[0]);
      FieldsEnd(bs, next, fs[1..])
  }

  /** What follows an opcode that opens no block and is not br_table. */
  function Fields(op: nat): (r: Option<seq<Field>>)
    ensures r.Some? ==> AllWellFormed(r.value)
  {
    if op <= 0x01 then Some([])                            // unreachable, nop
    else if op == 0x0C || op == 0x0D then Some([UInt(32)]) // br, br_if
    else if op == 0x0F then Some([])                       // return
    else if op == 0x10 || op == 0x12 then Some([UInt(32)]) // call, return_call
    else if op == 0x11 || op == 0x13 then Some([UInt(32), ZeroByte])  // call_indirect, return_call_indirect
    else if op == 0x1A || op == 0x1B then Some([])         // drop, select
    else if 0x20 <= op <= 0x24 then Some([UInt(32)])       // locals, globals
    else if 0x28 <= op <= 0x3E then Some([UInt(32), UInt(32)])        // loads, stores: alignment and offset
    else if op == 0x3F || op == 0x40 then Some([ZeroByte]) // memory.size, memory.grow
    else if op == 0x41 then Some([SInt(32)])
    else if op == 0x42 then Some([SInt(64)])
    else if op == 0x43 then Some([Octets(4)])
    else if op == 0x44 then Some([Octets(8)])
    else if 0x45 <= op <= 0xC4 then Some([])               // numeric
    else None
  }

  /** Behind 0xFC and the second opcode, which is a u32. */
  function ExtendedFields(op: nat): (r: Option<seq<Field>>)
    ensures r.Some? ==> AllWellFormed(r.value)
  {
    if op < 8 then Some([])                                // saturating truncations
    else if op == 10 then Some([ZeroByte, ZeroByte])       // memory.copy
    else if op == 11 then Some([ZeroByte])                 // memory.fill
    else None
  }

  function ExtendedFormat(bs: Bytes, at: nat): (r: Option<nat>)
    requires at <= |bs|
    ensures r.Some? ==> at < r.value <= |bs|
  {
    var op :- UnsignedInteger(32, bs, at);
    var fs :- ExtendedFields(op.0);
    FieldsEnd(bs, op.1, fs)
  }

  /** `n` label indices. */
  function LabelsFormat(bs: Bytes, at: nat, n: nat): (r: Option<nat>)
    requires at <= |bs|
    ensures r.Some? ==> at + n <= r.value <= |bs|
    decreases n
  {
    if n == 0 then Some(at)
    else
      var l :- UnsignedInteger(32, bs, at);
      LabelsFormat(bs, l.1, n - 1)
  }

  /** br_table: a vector of labels and a default one. */
  function TableFormat(bs: Bytes, at: nat): (r: Option<nat>)
    requires at <= |bs|
    ensures r.Some? ==> at < r.value <= |bs|
  {
    var count :- UnsignedInteger(32, bs, at);
    LabelsFormat(bs, count.1, count.0 + 1)
  }

  // ----- instructions -----

  predicate IsValueType(b: nat) {
    0x7C <= b <= 0x7F
  }

  /** A block type and its number of results: empty, one value type, or the index of a function type. */
  function BlockTypeFormat(bs: Bytes, at: nat, types: seq<nat>): (r: Option<(nat, nat)>)
    requires at <= |bs|
    ensures r.Some? ==> at < r.value.0 <= |bs|
  {
    if at < |bs| && bs[at] == 0x40 then Some((at + 1, 0))
    else if at < |bs| && IsValueType(bs[at]) then Some((at + 1, 1))
    else
      var index :- SignedInteger(33, bs, at);
      if 0 <= index.0 < |types| then Some((index.1, types[index.0])) else None
  }

  /** Instructions up to `end`, or `else` in the first arm of an if. */
  function SequenceFormat(bs: Bytes, at: nat, types: seq<nat>, inIf: bool): (r: Option<Stop>)
    requires at <= |bs|
    ensures r.Some? ==> at < r.value.next <= |bs| && (r.value.byElse ==> inIf)
    decreases |bs| - at, 1
  {
    if at == |bs| then None
    else if bs[at] == OP_END then Some(Stop(at + 1, false))
    else if bs[at] == OP_ELSE then (if inIf then Some(Stop(at + 1, true)) else None)
    else
      var next :- InstructionFormat(bs, at, types);
      SequenceFormat(bs, next, types, inIf)
  }

  function InstructionFormat(bs: Bytes, at: nat, types: seq<nat>): (r: Option<nat>)
    requires at < |bs|
    ensures r.Some? ==> at < r.value <= |bs|
    decreases |bs| - at, 0
  {
    var op := bs[at];
    if op == OP_BLOCK || op == OP_LOOP || op == OP_IF then
      var bt :- BlockTypeFormat(bs, at + 1, types);
      var first :- SequenceFormat(bs, bt.0, types, op == OP_IF);
      if first.byElse then
        var second :- SequenceFormat(bs, first.next, types, false);
        Some(second.next)
      else Some(first.next)
    else if op == OP_BR_TABLE then TableFormat(bs, at + 1)
    else if op == OP_EXTENDED then ExtendedFormat(bs, at + 1)
    else
      var fs :- Fields(op);
      FieldsEnd(bs, at + 1, fs)
  }

  // ----- functions -----

  /** Groups of locals, and how many there are altogether. */
  function LocalsFormat(bs: Bytes, at: nat, groups: nat): (r: Option<(nat, nat)>)
    requires at <= |bs|
    ensures r.Some? ==> at <= r.value.0 <= |bs|
    decreases groups
  {
    if groups == 0 then Some((at, 0))
    else
      var count :- UnsignedInteger(32, bs, at);
      if count.1 == |bs| || !IsValueType(bs[count.1]) then None
      else
        var rest :- LocalsFormat(bs, count.1 + 1, groups - 1);
        Some((rest.0, count.0 + rest.1))
  }

  /** A code entry: the size of the function in bytes and the function, which has less than 2^32 locals. */
  function FunctionFormat(bs: Bytes, types: seq<nat>): Option<nat> {
    var size :- UnsignedInteger(32, bs, 0);
    var groups :- UnsignedInteger(32, bs, size.1);
    var locals :- LocalsFormat(bs, groups.1, groups.0);
    var body :- SequenceFormat(bs, locals.0, types, false);
    if locals.1 < 0x1_0000_0000 && body.next == size.1 + size.0 then Some(body.next) else None
  }

  // ----- which instructions are read -----

  /** The positions of the instructions the compiler reads, nested ones included. */
  ghost function SequenceRead(bs: Bytes, at: nat, types: seq<nat>, inIf: bool): set<nat>
    requires at <= |bs|
    decreases |bs| - at, 1
  {
    if at == |bs| || bs[at] == OP_END || bs[at] == OP_ELSE then {}
    else
      InstructionRead(bs, at, types)
      + match InstructionEnd(bs, at, types)
        case None => {}
        case Some(next) => SequenceRead(bs, next, types, inIf)
  }

  ghost function InstructionRead(bs: Bytes, at: nat, types: seq<nat>): set<nat>
    requires at < |bs|
    decreases |bs| - at, 0
  {
    var op := bs[at];
    if op == OP_BLOCK || op == OP_LOOP || op == OP_IF then
      match BlockType(bs, at + 1, types)
      case None => {at}
      case Some(bt) =>
        {at} + SequenceRead(bs, bt.0, types, op == OP_IF)
        + match SequenceEnd(bs, bt.0, types, op == OP_IF)
          case None => {}
          case Some(first) => if first.byElse then SequenceRead(bs, first.next, types, false) else {}
    else {at}
  }

  /** The same positions as the format has them. */
  ghost function SequenceParts(bs: Bytes, at: nat, types: seq<nat>, inIf: bool): set<nat>
    requires at <= |bs|
    decreases |bs| - at, 1
  {
    if at == |bs| || bs[at] == OP_END || bs[at] == OP_ELSE then {}
    else
      InstructionParts(bs, at, types)
      + match InstructionFormat(bs, at, types)
        case None => {}
        case Some(next) => SequenceParts(bs, next, types, inIf)
  }

  ghost function InstructionParts(bs: Bytes, at: nat, types: seq<nat>): set<nat>
    requires at < |bs|
    decreases |bs| - at, 0
  {
    var op := bs[at];
    if op == OP_BLOCK || op == OP_LOOP || op == OP_IF then
      match BlockTypeFormat(bs, at + 1, types)
      case None => {at}
      case Some(bt) =>
        {at} + SequenceParts(bs, bt.0, types, op == OP_IF)
        + match SequenceFormat(bs, bt.0, types, op == OP_IF)
          case None => {}
          case Some(first) => if first.byElse then SequenceParts(bs, first.next, types, false) else {}
    else {at}
  }

  // ----- where the compiler reads more, or other, than the format has -----

  function AsRead(f: Field): Immediate {
    match f
    case UInt(n) => Unsigned(n)
    case SInt(n) => Signed(n)
    case Octets(n) => Raw(n)
    case ZeroByte => Signed(7)
  }

  /** The compiler drops excess bits, and does not look at reserved bytes. */
  predicate FieldConforms(bs: Bytes, at: nat, f: Field)
    requires at <= |bs| && WellFormed(f)
  {
    match f
    case UInt(n) => UnsignedTight(n, bs, at)
    case SInt(n) => SignedTight(n, bs, at)
    case Octets(_) => true
    case ZeroByte => at < |bs| ==> bs[at] == 0
  }

  predicate FieldsConform(bs: Bytes, at: nat, fs: seq<Field>)
    requires at <= |bs| && AllWellFormed(fs)
    decreases |fs|
  {
    fs == [] || (FieldConforms(bs, at, fs[0]) && match ImmediateEnd(bs, at, AsRead(fs[0]))
                                                 case None => true
                                                 case Some(next) => FieldsConform(bs, next, fs[1..]))
  }

  predicate LabelsConform(bs: Bytes, at: nat, n: nat)
    requires at <= |bs|
    decreases n
  {
    n == 0 || (UnsignedTight(32, bs, at) && match LebEnd(32, bs, at)
                                            case None => true
                                            case Some(next) => LabelsConform(bs, next, n - 1))
  }

  /** The largest count of a u32 has no successor there. */
  predicate TableConforms(bs: Bytes, at: nat)
    requires at <= |bs|
  {
    && UnsignedTight(32, bs, at)
    && match LebEnd(32, bs, at)
       case None => true
       case Some(next) =>
         U32At(bs, at, next) != 0xFFFF_FFFF && LabelsConform(bs, next, U32At(bs, at, next) + 1)
  }

  /** Negative block types are single bytes, the others have no sign bit. */
  predicate BlockTypeConforms(bs: Bytes, at: nat)
    requires at <= |bs|
  {
    match LebEnd(33, bs, at)
    case None => true
    case Some(next) =>
      bs[at] == 0x40 || IsValueType(bs[at]) || (SignedTight(33, bs, at) && bs[next - 1] % 128 < 64)
  }

  /** What to check of one instruction: its own immediates. */
  predicate Conforms(bs: Bytes, at: nat) {
    at < |bs|
    && var op := bs[at];
       if op == OP_BLOCK || op == OP_LOOP || op == OP_IF then BlockTypeConforms(bs, at + 1)
       else if op == OP_BR_TABLE then TableConforms(bs, at + 1)
       else if op == OP_EXTENDED then
         at + 1 < |bs| && ExtendedFields(bs[at + 1]).Some? ==>
           FieldsConform(bs, at + 2, ExtendedFields(bs[at + 1]).value)
       else Fields(op).Some? ==> FieldsConform(bs, at + 1, Fields(op).value)
  }

  /** The compiler wants the second opcode in one byte. */
  predicate Short(bs: Bytes, at: nat) {
    at < |bs| && (bs[at] == OP_EXTENDED && at + 1 < |bs| ==> bs[at + 1] < 128)
  }

  ghost predicate AllConform(bs: Bytes, ps: set<nat>) {
    forall p <- ps :: Conforms(bs, p)
  }

  ghost predicate AllShort(bs: Bytes, ps: set<nat>) {
    forall p <- ps :: Short(bs, p)
  }

  // ----- immediates agree -----

  /** What is read, where a check made beforehand succeeds. */
  ghost function Checked<T>(check: bool, r: Option<T>): Option<T> {
    if check then r else None
  }

  function AllAsRead(fs: seq<Field>): (r: seq<Immediate>)
    ensures |r| == |fs|
  {
    seq(|fs|, i requires 0 <= i < |fs| => AsRead(fs[i]))
  }

  lemma TablesAgree(op: nat)
    ensures Immediates(op) == if Fields(op).Some? then Some(AllAsRead(Fields(op).value)) else None
  {
    if Fields(op).Some? {
      assert AllAsRead(Fields(op).value) == Immediates(op).value;
    }
  }

  lemma ExtendedTablesAgree(op: nat)
    ensures ExtendedImmediates(op)
      == if ExtendedFields(op).Some? then Some(AllAsRead(ExtendedFields(op).value)) else None
  {
    if ExtendedFields(op).Some? {
      assert AllAsRead(ExtendedFields(op).value) == ExtendedImmediates(op).value;
    }
  }

  lemma U32Agrees(bs: Bytes, at: nat)
    requires at <= |bs|
    ensures UnsignedInteger(32, bs, at)
      == if LebEnd(32, bs, at).Some? && UnsignedTight(32, bs, at)
         then Some((U32At(bs, at, LebEnd(32, bs, at).value), LebEnd(32, bs, at).value)) else None
  {
    hide UnsignedInteger, Number, Pow2;
    UnsignedExact(32, bs, at);
    if ReadStatus(32, bs, at) == Decoded {
      Widths();
      U32Exact(bs, at);
      UnsignedRange(32, bs, at);
      FiveBytes(bs, at);
      LowBits(Number(bs[at..ReadEnd(32, bs, at)]));
    }
  }

  lemma {:induction false} FieldExact(bs: Bytes, at: nat, f: Field)
    requires at <= |bs| && WellFormed(f)
    ensures FieldEnd(bs, at, f) == Checked(FieldConforms(bs, at, f), ImmediateEnd(bs, at, AsRead(f)))
  {
    hide UnsignedInteger, SignedInteger, Number, SignedNumber, Pow2, UnsignedTight, SignedTight;
    match f
    case UInt(n) => UnsignedExact(n, bs, at);
    case SInt(n) => SignedExact(n, bs, at);
    case Octets(_) =>
    case ZeroByte =>
      if at < |bs| && bs[at] == 0 {
        ReadEnds(7, bs, at, 0);
      }
  }

  lemma {:induction false} FieldsExact(bs: Bytes, at: nat, fs: seq<Field>)
    requires at <= |bs| && AllWellFormed(fs)
    ensures FieldsEnd(bs, at, fs) == Checked(FieldsConform(bs, at, fs), ImmediatesEnd(bs, at, AllAsRead(fs)))
    decreases |fs|
  {
    hide FieldEnd, ImmediateEnd, FieldConforms, AsRead;
    if fs != [] {
      FieldExact(bs, at, fs[0]);
      assert AllAsRead(fs)[1..] == AllAsRead(fs[1..]);
      var next := ImmediateEnd(bs, at, AsRead(fs[0]));
      if next.Some? {
        FieldsExact(bs, next.value, fs[1..]);
      }
    }
  }

  lemma {:induction false} LabelsExact(bs: Bytes, at: nat, n: nat)
    requires at <= |bs|
    ensures LabelsFormat(bs, at, n) == Checked(LabelsConform(bs, at, n), LabelsEnd(bs, at, n))
    decreases n
  {
    hide LebEnd, U32At, UnsignedTight, UnsignedInteger;
    if n > 0 {
      U32Agrees(bs, at);
      if LebEnd(32, bs, at).Some? {
        LabelsExact(bs, LebEnd(32, bs, at).value, n - 1);
      }
    }
  }

  /** A table of 2^32 labels has no room in a module. */
  lemma TableExact(bs: Bytes, at: nat)
    requires at <= |bs| && |bs| - at < 0x1_0000_0000
    ensures TableFormat(bs, at) == Checked(TableConforms(bs, at), TableEnd(bs, at))
  {
    hide LebEnd, U32At, UnsignedTight, UnsignedInteger, LabelsFormat, LabelsEnd, LabelsConform;
    U32Agrees(bs, at);
    if LebEnd(32, bs, at).Some? {
      var next := LebEnd(32, bs, at).value;
      U32Small(bs, at, next);
      LabelsExact(bs, next, U32At(bs, at, next) + 1);
    }
  }

  lemma U32Small(bs: seq<nat>, at: nat, next: nat)
    requires at <= next <= |bs|
    ensures U32At(bs, at, next) < 0x1_0000_0000
  {
  }

  lemma {:induction false} ExtendedExact(bs: Bytes, at: nat)
    requires at < |bs| && bs[at] == OP_EXTENDED
    ensures Checked(Short(bs, at), ExtendedFormat(bs, at + 1)) == Checked(Conforms(bs, at), ExtendedEnd(bs, at + 1))
  {
    hide FieldsEnd, ImmediatesEnd, FieldsConform, ExtendedFields, ExtendedImmediates, AllAsRead, Pow2;
    if at + 1 < |bs| {
      var op := bs[at + 1];
      ExtendedTablesAgree(op);
      if op < 128 {
        SevenBits(32);
        assert UnsignedInteger(32, bs, at + 1) == Some((op, at + 2));
        if ExtendedFields(op).Some? {
          FieldsExact(bs, at + 2, ExtendedFields(op).value);
        }
      } else {
        NoWideOpcode(op);
      }
    }
  }

  lemma NoWideOpcode(op: nat)
    requires op >= 128
    ensures ExtendedImmediates(op).None?
  {
  }

  /** What a single byte reads as. */
  lemma {:induction false} ByteType(bs: Bytes, at: nat)
    requires at < |bs| && 64 <= bs[at] < 128
    ensures LebEnd(33, bs, at) == Some(at + 1) && SignedAt(bs, at, at + 1) == Negative(bs[at])
  {
    hide Number, SignedNumber, Pow2, AsSigned;
    ReadEnds(33, bs, at, 0);
    FirstDigit(bs, at, at + 1);
    AsSignedMod(Negative(bs[at]));
  }

  /** A type index. */
  lemma {:induction false} IndexType(bs: Bytes, at: nat)
    requires at <= |bs| && LebEnd(33, bs, at).Some?
    ensures var next := LebEnd(33, bs, at).value;
      SignedAt(bs, at, next) == SignedNumber(bs[at..next]) && (SignedAt(bs, at, next) >= 0 <==> bs[next - 1] % 128 < 64)
  {
    hide Number, Pow2, AsSigned;
    var next := LebEnd(33, bs, at).value;
    NumberBound(bs[at..next]);
    WeightsGrow(next - at, 8);
    Weights();
    assert Pow128(9) == 128 * Pow128(8);
    AsSignedMod(SignedNumber(bs[at..next]));
  }

  lemma {:induction false} BlockTypeExact(bs: Bytes, at: nat, types: seq<nat>)
    requires at <= |bs|
    ensures BlockTypeFormat(bs, at, types) == Checked(BlockTypeConforms(bs, at), BlockType(bs, at, types))
  {
    hide SignedAt, SignedTight, SignedNumber, SignedInteger, ReadStatus, ReadEnd;
    SignedExact(33, bs, at);
    if at < |bs| && (bs[at] == 0x40 || IsValueType(bs[at])) {
      ByteType(bs, at);
    } else if LebEnd(33, bs, at).Some? {
      IndexType(bs, at);
    }
  }

  // ----- the grammars agree -----

  lemma ConformUnion(bs: Bytes, ps: set<nat>, qs: set<nat>)
    ensures AllConform(bs, ps + qs) <==> AllConform(bs, ps) && AllConform(bs, qs)
    ensures AllShort(bs, ps + qs) <==> AllShort(bs, ps) && AllShort(bs, qs)
  {
    assert forall p <- ps :: p in ps + qs;
    assert forall p <- qs :: p in ps + qs;
  }

  /** An instruction that opens no block. */
  lemma {:induction false} PlainAgrees(bs: Bytes, at: nat, types: seq<nat>)
    requires at < |bs| && |bs| - at < 0x1_0000_0000 && bs[at] !in {OP_BLOCK, OP_LOOP, OP_IF}
    ensures Checked(Short(bs, at), InstructionFormat(bs, at, types))
      == Checked(Conforms(bs, at), InstructionEnd(bs, at, types))
  {
    hide FieldsEnd, ImmediatesEnd, FieldsConform, Fields, Immediates, AllAsRead, TableConforms, TableFormat, TableEnd,
      ExtendedFormat, ExtendedEnd, ExtendedFields;
    var op := bs[at];
    if op == OP_BR_TABLE {
      TableExact(bs, at + 1);
    } else if op == OP_EXTENDED {
      ExtendedExact(bs, at);
    } else {
      TablesAgree(op);
      if Fields(op).Some? {
        FieldsExact(bs, at + 1, Fields(op).value);
      }
    }
  }

  lemma OneOrNone(bs: Bytes, p: nat)
    ensures AllConform(bs, {p}) == Conforms(bs, p) && AllShort(bs, {p}) == Short(bs, p)
    ensures AllConform(bs, {}) && AllShort(bs, {})
  {
  }

  lemma {:induction false} InstructionAgrees(bs: Bytes, at: nat, types: seq<nat>)
    requires at < |bs| && |bs| - at < 0x1_0000_0000
    ensures Checked(AllShort(bs, InstructionParts(bs, at, types)), InstructionFormat(bs, at, types))
      == Checked(AllConform(bs, InstructionRead(bs, at, types)), InstructionEnd(bs, at, types))
    decreases |bs| - at, 0
  {
    hide SequenceEnd, SequenceFormat, SequenceRead, SequenceParts, AllConform, AllShort, BlockType, BlockTypeFormat,
      BlockTypeConforms;
    OneOrNone(bs, at);
    if bs[at] !in {OP_BLOCK, OP_LOOP, OP_IF} {
      hide Conforms, Short;
      PlainAgrees(bs, at, types);
    } else {
      BlockTypeExact(bs, at + 1, types);
      var inIf := bs[at] == OP_IF;
      var bt := BlockType(bs, at + 1, types);
      if bt.Some? {
        var start := bt.value.0;
        var code, form := SequenceEnd(bs, start, types, inIf), SequenceFormat(bs, start, types, inIf);
        var codeElse :=
          if code.Some? && code.value.byElse then SequenceRead(bs, code.value.next, types, false) else {};
        var formElse :=
          if form.Some? && form.value.byElse then SequenceParts(bs, form.value.next, types, false) else {};
        SequenceAgrees(bs, start, types, inIf);
        if code.Some? && code.value.byElse {
          SequenceAgrees(bs, code.value.next, types, false);
        }
        ConformUnion(bs, {at}, SequenceRead(bs, start, types, inIf));
        ConformUnion(bs, {at} + SequenceRead(bs, start, types, inIf), codeElse);
        ConformUnion(bs, {at}, SequenceParts(bs, start, types, inIf));
        ConformUnion(bs, {at} + SequenceParts(bs, start, types, inIf), formElse);
      }
    }
  }

  lemma {:induction false} SequenceAgrees(bs: Bytes, at: nat, types: seq<nat>, inIf: bool)
    requires at <= |bs| && |bs| - at < 0x1_0000_0000
    ensures Checked(AllShort(bs, SequenceParts(bs, at, types, inIf)), SequenceFormat(bs, at, types, inIf))
      == Checked(AllConform(bs, SequenceRead(bs, at, types, inIf)), SequenceEnd(bs, at, types, inIf))
    decreases |bs| - at, 1
  {
    hide InstructionFormat, InstructionEnd, InstructionParts, InstructionRead, AllShort, AllConform;
    OneOrNone(bs, at);
    if at < |bs| && bs[at] != OP_END && bs[at] != OP_ELSE {
      InstructionAgrees(bs, at, types);
      var read, parts := InstructionRead(bs, at, types), InstructionParts(bs, at, types);
      var next, next' := InstructionEnd(bs, at, types), InstructionFormat(bs, at, types);
      if next.Some? {
        ConformUnion(bs, read, SequenceRead(bs, next.value, types, inIf));
        SequenceAgrees(bs, next.value, types, inIf);
      }
      if next'.Some? {
        ConformUnion(bs, parts, SequenceParts(bs, next'.value, types, inIf));
      }
    }
  }

  /** The compiler's cursor takes an instruction sequence for the one the format has there, if and only if none of the
      instructions read has excess bits, a reserved byte that is not zero, a nonstandard block type or 2^32 - 1
      targets; second opcode bytes of more than one byte are the only thing it misses. */
  lemma SequenceExact(bs: Bytes, at: nat, types: seq<nat>, inIf: bool, e: Stop)
    requires at <= |bs| < 0x1_0000_0000
    ensures SequenceFormat(bs, at, types, inIf) == Some(e) && AllShort(bs, SequenceParts(bs, at, types, inIf))
      <==> SequenceEnd(bs, at, types, inIf) == Some(e) && AllConform(bs, SequenceRead(bs, at, types, inIf))
  {
    hide SequenceFormat, SequenceEnd, SequenceParts, SequenceRead, AllShort, AllConform;
    SequenceAgrees(bs, at, types, inIf);
  }

  // ----- functions agree -----

  /** What CompileLocals does not check. */
  predicate LocalsConform(bs: Bytes, at: nat, groups: nat)
    requires at <= |bs|
    decreases groups
  {
    groups == 0 || (UnsignedTight(32, bs, at)
                    && match LebEnd(32, bs, at)
                       case None => true
                       case Some(next) =>
                         next < |bs| ==> IsValueType(bs[next]) && LocalsConform(bs, next + 1, groups - 1))
  }

  /** The number of locals the compiler reads. */
  function LocalsRead(bs: Bytes, at: nat, groups: nat): nat
    requires at <= |bs|
    decreases groups
  {
    if groups == 0 then 0
    else
      match LebEnd(32, bs, at)
      case None => 0
      case Some(next) =>
        U32At(bs, at, next) + if next == |bs| then 0 else LocalsRead(bs, next + 1, groups - 1)
  }

  /** One value type, as the compiler reads it. */
  lemma {:induction false} ValueTypeByte(bs: Bytes, at: nat)
    requires at <= |bs|
    ensures LebEnd(7, bs, at) == if at < |bs| && bs[at] < 128 then Some(at + 1) else None
    ensures at < |bs| && IsValueType(bs[at]) ==> ValueCount(SignedAt(bs, at, at + 1)).Some?
  {
    hide Number, SignedNumber, AsSigned;
    if at < |bs| && bs[at] < 128 {
      ReadEnds(7, bs, at, 0);
      FirstDigit(bs, at, at + 1);
      if IsValueType(bs[at]) {
        AsSignedMod(Negative(bs[at]));
      }
    } else {
      NotDecoded(7, bs, at);
    }
  }

  lemma {:induction false} LocalsExact(bs: Bytes, at: nat, groups: nat)
    requires at <= |bs|
    ensures LocalsFormat(bs, at, groups)
      == if LocalsConform(bs, at, groups) && LocalsEnd(bs, at, groups).Some?
         then Some((LocalsEnd(bs, at, groups).value, LocalsRead(bs, at, groups))) else None
    decreases groups
  {
    hide LebEnd, U32At, UnsignedTight, UnsignedInteger, ValueCount, SignedAt;
    if groups > 0 {
      U32Agrees(bs, at);
      if LebEnd(32, bs, at).Some? {
        var next := LebEnd(32, bs, at).value;
        ValueTypeByte(bs, next);
        if next < |bs| {
          LocalsExact(bs, next + 1, groups - 1);
        }
      }
    }
  }

  /** What CompileFunction does not check of a code entry, its body excepted. */
  ghost predicate EntryConforms(bs: Bytes, types: seq<nat>, end: nat) {
    && UnsignedTight(32, bs, 0)
    && match LebEnd(32, bs, 0)
       case None => true
       case Some(size) =>
         && end == size + U32At(bs, 0, size)
         && UnsignedTight(32, bs, size)
         && match LebEnd(32, bs, size)
            case None => true
            case Some(groups) =>
              && LocalsConform(bs, groups, U32At(bs, size, groups))
              && LocalsRead(bs, groups, U32At(bs, size, groups)) < 0x1_0000_0000
  }

  /** Where the instructions of a code entry start, as the compiler and as the format read it. */
  function BodyRead(bs: Bytes): (r: Option<nat>)
    ensures r.Some? ==> r.value <= |bs|
  {
    var size :- LebEnd(32, bs, 0);
    var groups :- LebEnd(32, bs, size);
    LocalsEnd(bs, groups, U32At(bs, size, groups))
  }

  function BodyPart(bs: Bytes): (r: Option<nat>)
    ensures r.Some? ==> r.value <= |bs|
  {
    var size :- UnsignedInteger(32, bs, 0);
    var groups :- UnsignedInteger(32, bs, size.1);
    var locals :- LocalsFormat(bs, groups.1, groups.0);
    Some(locals.0)
  }

  /** A whole code entry. The compiler does not look at what is left of the entry behind the final `end`. */
  lemma {:induction false} FunctionExact(bs: Bytes, types: seq<nat>, end: nat)
    requires |bs| < 0x1_0000_0000
    ensures
      FunctionFormat(bs, types) == Some(end)
      && (BodyPart(bs).Some? ==> AllShort(bs, SequenceParts(bs, BodyPart(bs).value, types, false)))
      <==>
      FunctionEnd(bs, types) == Some(end) && EntryConforms(bs, types, end)
      && (BodyRead(bs).Some? ==> AllConform(bs, SequenceRead(bs, BodyRead(bs).value, types, false)))
  {
    hide SequenceFormat, SequenceEnd, SequenceParts, SequenceRead, AllShort, AllConform, LebEnd, U32At, UnsignedTight,
      UnsignedInteger, LocalsFormat, LocalsEnd, LocalsRead, LocalsConform;
    U32Agrees(bs, 0);
    if LebEnd(32, bs, 0).Some? {
      var size := LebEnd(32, bs, 0).value;
      U32Agrees(bs, size);
      if LebEnd(32, bs, size).Some? {
        var groups := LebEnd(32, bs, size).value;
        var n := U32At(bs, size, groups);
        LocalsExact(bs, groups, n);
        if LocalsEnd(bs, groups, n).Some? {
          SequenceAgrees(bs, LocalsEnd(bs, groups, n).value, types, false);
        }
      }
    }
  }

  // ----- inputs -----

  lemma FirstPart(bs: Bytes, at: nat, types: seq<nat>, inIf: bool)
    requires at < |bs| && bs[at] != OP_END && bs[at] != OP_ELSE
    ensures SequenceFormat(bs, at, types, inIf)
      == match InstructionFormat(bs, at, types)
         case None => None
         case Some(next) => SequenceFormat(bs, next, types, inIf)
  {
  }

  /** A constant in front. */
  lemma {:induction false} ConstantRead(bs: Bytes)
    requires |bs| > 2 && bs[0] == 0x41 && bs[1] == 0x00
    ensures InstructionEnd(bs, 0, []) == Some(2) && InstructionFormat(bs, 0, []) == Some(2)
  {
    hide UnsignedTight, SignedTight, Number, ReadStatus, ReadEnd;
    ReadEnds(32, bs, 1, 0);
    LastSigned(32, bs, 1);
    assert ImmediatesEnd(bs, 1, [Signed(32)]) == Some(2);
    assert FieldsEnd(bs, 1, [SInt(32)]) == Some(2);
  }

  lemma {:induction false} LargestCount(bs: Bytes)
    requires |bs| == 9 && bs[2..] == [OP_BR_TABLE, 0xFF, 0xFF, 0xFF, 0xFF, 0x0F, OP_END]
    ensures LebEnd(32, bs, 3) == Some(8) && U32At(bs, 3, 8) == 0xFFFF_FFFF && bs[2] == OP_BR_TABLE && bs[8] == OP_END
  {
    hide Number, ReadStatus, ReadEnd;
    assert forall i :: 2 <= i < 9 ==> bs[i] == bs[2..][i - 2];
    ReadEnds(32, bs, 3, 4);
    FirstDigit(bs, 3, 8);
    FirstDigit(bs, 4, 8);
    FirstDigit(bs, 5, 8);
    FirstDigit(bs, 6, 8);
    FirstDigit(bs, 7, 8);
  }

  /** br_table with 2^32 - 1 targets, behind its operand: not one label is read, where the format wants 2^32. */
  lemma {:induction false} TableCountWraps()
    ensures var bs: Bytes := [0x41, 0x00, OP_BR_TABLE, 0xFF, 0xFF, 0xFF, 0xFF, 0x0F, OP_END];
      SequenceEnd(bs, 0, [], false) == Some(Stop(9, false)) && SequenceFormat(bs, 0, [], false) == None
  {
    hide LebEnd, U32At, TableFormat, FieldsEnd, ImmediatesEnd, Fields, Immediates, SequenceFormat;
    var bs: Bytes := [0x41, 0x00, OP_BR_TABLE, 0xFF, 0xFF, 0xFF, 0xFF, 0x0F, OP_END];
    ConstantRead(bs);
    LargestCount(bs);
    FirstInstruction(bs, 0, [], false, 2);
    assert LabelCount(0xFFFF_FFFF) == 0;
    FirstInstruction(bs, 2, [], false, 8);
    TableExact(bs, 3);
    FirstPart(bs, 0, [], false);
    FirstPart(bs, 2, [], false);
  }

  /** The compiler reads a reserved byte of memory.size as it reads any other i7. */
  lemma {:induction false} ReservedByteIgnored()
    ensures var bs: Bytes := [0x3F, 0x01, 0x1A, OP_END];
      InstructionEnd(bs, 0, []) == Some(2) && InstructionFormat(bs, 0, []) == None
  {
    hide ReadStatus, ReadEnd;
    var bs: Bytes := [0x3F, 0x01, 0x1A, OP_END];
    ReadEnds(7, bs, 1, 0);
    assert ImmediatesEnd(bs, 1, [Signed(7)]) == Some(2);
  }

  /** The one thing it misses: a second opcode in two bytes. */
  lemma {:induction false} LongOpcodeRefused()
    ensures var bs: Bytes := [OP_EXTENDED, 0x80, 0x00, OP_END];
      InstructionEnd(bs, 0, []) == None && InstructionFormat(bs, 0, []) == Some(3)
  {
    hide Pow2;
    var bs: Bytes := [OP_EXTENDED, 0x80, 0x00, OP_END];
    NoWideOpcode(0x80);
    SevenBits(25);
    assert UnsignedInteger(25, bs, 2) == Some((0, 3));
    assert UnsignedInteger(32, bs, 1) == Some((0, 3));
  }

  /** Bytes below 128 are integers of their own. */
  lemma {:induction false} SmallU32(bs: Bytes, at: nat)
    requires at < |bs| && bs[at] < 128
    ensures LebEnd(32, bs, at) == Some(at + 1) && U32At(bs, at, at + 1) == bs[at]
    ensures UnsignedInteger(32, bs, at) == Some((bs[at], at + 1))
  {
    hide Pow2;
    ReadEnds(32, bs, at, 0);
    FirstDigit(bs, at, at + 1);
    SevenBits(32);
  }

  /** A local of the empty type 0x40, and a code entry with a byte left over, are read without complaint. */
  lemma {:induction false} LooseEntries()
    ensures var bs: Bytes := [0x04, 0x01, 0x01, 0x40, OP_END];
      FunctionEnd(bs, []) == Some(5) && FunctionFormat(bs, []) == None
    ensures var bs: Bytes := [0x03, 0x00, OP_END, 0x01];
      FunctionEnd(bs, []) == Some(3) && FunctionFormat(bs, []) == None
  {
    hide UnsignedInteger, LebEnd, U32At, SignedAt, Number;
    var bs: Bytes := [0x04, 0x01, 0x01, 0x40, OP_END];
    SmallU32(bs, 0);
    SmallU32(bs, 1);
    SmallU32(bs, 2);
    ValueTypeByte(bs, 3);
    ByteType(bs, 3);
    assert LocalsEnd(bs, 4, 0) == Some(4);
    assert LocalsEnd(bs, 2, 1) == Some(4);
    var cs: Bytes := [0x03, 0x00, OP_END, 0x01];
    SmallU32(cs, 0);
    SmallU32(cs, 1);
    assert LocalsEnd(cs, 2, 0) == Some(2);
    assert LocalsFormat(cs, 2, 0) == Some((2, 0));
  }
}
