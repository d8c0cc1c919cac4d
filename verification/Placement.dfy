/** Where the lines of compiled code are. `Machine` fetches line `l` of page `k`; what lies in memory are words on
    bridged code pages. A scheme says at which address each line stands, and the words of every operation are found
    there, in front of those of the next line.
 */
module Placement {
  import opened Words
  import opened Machine
  import opened Allocator
  import CodePages

  type CodeWord = CodePages.CodeWord
  type Segment = CodePages.Segment
  type Text = map<CodePages.Page, seq<CodeWord>>

  /** `fn` is the function, `tag` numbers the operations' C functions, `places` the address of each line, and `patched`
      what the function's forward references stand for in the end. */
  datatype Scheme = Scheme(fn: nat, tag: Op -> nat, places: map<PC, CodeWord>, patched: map<nat, PC>)
  {
    function Place(pc: PC): CodeWord {
      if pc in places then places[pc] else CodePages.Operand(0)
    }

    function TargetWord(t: Target): CodeWord {
      match t
      case Known(pc) => Place(pc)
      case Patched(id) => if id in patched then Place(patched[id]) else CodePages.Operand(0)
    }

    /** The words behind an operation, in the order it takes them. */
    function Operands(op: Op): seq<CodeWord> {
      match op
      case OpEntry => [CodePages.Operand(fn)]
      case UnaryR(_) => []
      case UnaryS(_, a) => [CodePages.Operand(a)]
      case BinaryRS(_, a) => [CodePages.Operand(a)]
      case BinarySR(_, a) => [CodePages.Operand(a)]
      case BinarySS(_, a, b) => [CodePages.Operand(a), CodePages.Operand(b)]
      case SelectRSS(_, a, b) => [CodePages.Operand(a), CodePages.Operand(b)]
      case SelectSRS(_, c, b) => [CodePages.Operand(c), CodePages.Operand(b)]
      case SelectSSR(_, c, a) => [CodePages.Operand(c), CodePages.Operand(a)]
      case SelectSSS(_, c, a, b) => [CodePages.Operand(c), CodePages.Operand(a), CodePages.Operand(b)]
      case CopySlot(_, dst, src) => [CodePages.Operand(dst), CodePages.Operand(src)]
      case SetSlot(_, dst) => [CodePages.Operand(dst)]
      case SetRegister(_, src) => [CodePages.Operand(src)]
      case PreserveCopySlot(_, dst, src, preserve) =>
        [CodePages.Operand(dst), CodePages.Operand(src), CodePages.Operand(preserve)]
      case PreserveSetSlot(_, dst, preserve) => [CodePages.Operand(dst), CodePages.Operand(preserve)]
      case SetConst(_, w, dst) => [CodePages.Operand(w.lo + 0x1_0000_0000 * w.hi), CodePages.Operand(dst)]
      case OpLoop => []
      case ContinueLoop(pc) => [Place(pc)]
      case ContinueLoopIf(pc) => [Place(pc)]
      case IfR(els) => [TargetWord(els)]
      case IfS(c, els) => [CodePages.Operand(c), TargetWord(els)]
      case Branch(to) => [TargetWord(to)]
      case BranchIfR(to) => [TargetWord(to)]
      case BranchIfS(c, to) => [CodePages.Operand(c), TargetWord(to)]
      case PrologueR(skip) => [TargetWord(skip)]
      case PrologueS(c, skip) => [CodePages.Operand(c), TargetWord(skip)]
      case BranchTable(c, targets) =>
        [CodePages.Operand(c), CodePages.Operand(|targets| - 1)]
        + seq(|targets|, i requires 0 <= i < |targets| => Place(targets[i]))
      case OpCall(f, offset) => [Place(PC(f, 0, 0)), CodePages.Operand(offset)]
      case OpReturn => []
      case OpUnreachable => []
    }

    function LineWords(op: Op): seq<CodeWord> {
      [CodePages.Operation(tag(op))] + Operands(op)
    }

    function PageWords(ops: seq<Op>): seq<CodeWord> {
      if ops == [] then [] else PageWords(ops[..|ops| - 1]) + LineWords(ops[|ops| - 1])
    }
  }

  /** An address in a stream in front of which there are `n` words. */
  ghost predicate StandsAt(segs: seq<Segment>, a: CodeWord, n: nat) {
    exists j, m :: 0 <= j < |segs| && 0 <= m <= |segs[j].words| && IsSpot(segs, j, m, a, n)
  }

  ghost predicate IsSpot(segs: seq<Segment>, j: nat, m: nat, a: CodeWord, n: nat)
    requires j < |segs|
  {
    a == CodePages.Address(segs[j].page, segs[j].from + m) && n == |CodePages.Stream(segs[..j])| + m
  }

  /** The operations of page `i` and the place behind them. */
  ghost predicate PageLaid(z: Scheme, i: nat, ops: seq<Op>, segs: seq<Segment>) {
    && segs != [] && CodePages.Stream(segs) == z.PageWords(ops)
    && forall l :: 0 <= l <= |ops| ==> StandsAt(segs, z.Place(PC(z.fn, i, l)), |z.PageWords(ops[..l])|)
  }

  ghost predicate Laid(z: Scheme, pages: seq<seq<Op>>, streams: seq<seq<Segment>>) {
    && |streams| == |pages|
    && forall i :: 0 <= i < |pages| ==> PageLaid(z, i, pages[i], streams[i])
  }

  /** Apart from br_table, which makes room for itself, an operation has at most five operands. */
  lemma OperandsFit(z: Scheme, op: Op)
    requires !op.BranchTable?
    ensures |z.Operands(op)| <= 5
  {
  }

  lemma WordsNext(z: Scheme, ops: seq<Op>, op: Op)
    ensures z.PageWords(ops + [op]) == z.PageWords(ops) + z.LineWords(op)
  {
    assert (ops + [op])[..|ops|] == ops;
  }

  lemma {:induction false} WordsPrefix(z: Scheme, ops: seq<Op>, l: nat)
    requires l <= |ops|
    ensures z.PageWords(ops[..l]) <= z.PageWords(ops)
    decreases |ops|
  {
    if l == |ops| {
      assert ops[..l] == ops;
    } else {
      var front := ops[..|ops| - 1];
      WordsPrefix(z, front, l);
      assert front[..l] == ops[..l];
    }
  }

  // ----- what operations take -----

  /** `slot (TYPE)` and `immediate (u32)`. */
  function Number(w: CodeWord): nat {
    if w.Operand? && w.value >= 0 then w.value else 0
  }

  /** The operation with the slots that its C function takes from the words behind it, one after the other, in the order
      of its body; what it does with them is Machine.StepOp. Addresses of code are taken as words. */
  function Taken(op: Op, ws: seq<CodeWord>): Op {
    var a := if |ws| > 0 then Number(ws[0]) else 0;
    var b := if |ws| > 1 then Number(ws[1]) else 0;
    var c := if |ws| > 2 then Number(ws[2]) else 0;
    match op
    case UnaryS(o, _) => UnaryS(o, a)
    case BinaryRS(o, _) => BinaryRS(o, a)                  // operand
    case BinarySR(o, _) => BinarySR(o, a)                  // operand
    case BinarySS(o, _, _) => BinarySS(o, a, b)            // operand2, operand1
    case SelectRSS(ty, _, _) => SelectRSS(ty, a, b)        // operand2, operand1
    case SelectSRS(ty, _, _) => SelectSRS(ty, a, b)        // condition, operand1
    case SelectSSR(ty, _, _) => SelectSSR(ty, a, b)        // condition, operand2
    case SelectSSS(ty, _, _, _) => SelectSSS(ty, a, b, c)  // condition, operand2, operand1
    case CopySlot(ty, _, _) => CopySlot(ty, a, b)          // dst, src
    case SetSlot(ty, _) => SetSlot(ty, a)
    case SetRegister(ty, _) => SetRegister(ty, a)
    case PreserveCopySlot(ty, _, _, _) => PreserveCopySlot(ty, a, b, c)  // dest, src, preserve
    case PreserveSetSlot(ty, _, _) => PreserveSetSlot(ty, a, b)          // stack, preserve
    case SetConst(ty, _, _) => SetConst(ty, Word(a % 0x1_0000_0000, a / 0x1_0000_0000 % 0x1_0000_0000), b)
    case IfS(_, t) => IfS(a, t)
    case BranchIfS(_, t) => BranchIfS(a, t)
    case PrologueS(_, t) => PrologueS(a, t)
    case BranchTable(_, targets) => BranchTable(a, targets)
    case OpCall(f, _) => OpCall(f, b)                      // behind the callee's address
    case _ => op
  }

  /** Each operation finds in the words behind it the slots it was emitted with. */
  lemma OperandsTaken(z: Scheme, op: Op)
    ensures Taken(op, z.Operands(op)) == op
  {
    hide Scheme.TargetWord, Scheme.Place;
  }

  // ----- reading -----

  lemma StandsReads(t: Text, segs: seq<Segment>, a: CodeWord, n: nat) returns (hops: nat)
    requires CodePages.BridgedIn(t, segs) && StandsAt(segs, a, n)
    ensures n <= |CodePages.Stream(segs)| && a.Address?
    ensures CodePages.Reads(t, a.page, a.line, CodePages.Stream(segs)[n..], hops)
  {
    hide CodePages.Reads, CodePages.Stream, CodePages.BridgedIn;
    var j, m :| 0 <= j < |segs| && 0 <= m <= |segs[j].words| && IsSpot(segs, j, m, a, n);
    hops := |segs| - 1 - j;
    CodePages.ReadsFrom(t, segs, j, m);
    CodePages.StreamAt(segs, j);
    Skip(CodePages.Stream(segs[..j]), segs[j].words, m, CodePages.StreamFrom(segs, j + 1));
  }

  lemma Skip(before: seq<CodeWord>, words: seq<CodeWord>, m: nat, after: seq<CodeWord>)
    requires m <= |words|
    ensures |before| + m <= |before + (words + after)|
    ensures (before + (words + after))[|before| + m..] == words[m..] + after
  {
  }

  /** The address of a line: what is read there are the words of the operation the machine fetches, and then what is
      read at the address of the next line. */
  lemma FetchReads(p: Program, z: Scheme, streams: seq<seq<Segment>>, t: Text, pc: PC)
    returns (rest: seq<CodeWord>, hops: nat, hops': nat)
    requires z.fn < |p.codes| && Laid(z, p.codes[z.fn].pages, streams) && pc.fn == z.fn && Fetch(p, pc).Some?
    requires CodePages.BridgedIn(t, streams[pc.page])
    ensures z.Place(pc).Address? && z.Place(pc.Next()).Address?
    ensures CodePages.Reads(t, z.Place(pc).page, z.Place(pc).line, z.LineWords(Fetch(p, pc).value) + rest, hops)
    ensures CodePages.Reads(t, z.Place(pc.Next()).page, z.Place(pc.Next()).line, rest, hops')
  {
    hide CodePages.Reads, CodePages.Stream, CodePages.BridgedIn, StandsAt, Scheme.PageWords, Scheme.LineWords,
      Scheme.Operands, Scheme.Place;
    var ops, segs := p.codes[z.fn].pages[pc.page], streams[pc.page];
    assert PageLaid(z, pc.page, ops, segs);
    var l := pc.line;
    assert pc == PC(z.fn, pc.page, l) && pc.Next() == PC(z.fn, pc.page, l + 1);
    hops := StandsReads(t, segs, z.Place(pc), |z.PageWords(ops[..l])|);
    hops' := StandsReads(t, segs, z.Place(pc.Next()), |z.PageWords(ops[..l + 1])|);
    assert ops[..l + 1] == ops[..l] + [ops[l]];
    WordsNext(z, ops[..l], ops[l]);
    WordsPrefix(z, ops, l + 1);
    rest := CodePages.Stream(segs)[|z.PageWords(ops[..l + 1])|..];
    Between(z.PageWords(ops), z.PageWords(ops[..l]), z.LineWords(ops[l]));
  }

  lemma Between(all: seq<CodeWord>, before: seq<CodeWord>, words: seq<CodeWord>)
    requires before + words <= all
    ensures all[|before|..] == words + all[|before + words|..]
  {
    assert all[..|before + words|] == before + words;
  }

  /** The word of a branch target is the address of the line the machine goes to. */
  lemma TargetPlaced(p: Program, z: Scheme, target: Target, pc: PC)
    requires z.fn < |p.codes| && p.codes[z.fn].patched == z.patched && Resolve(p, z.fn, target) == Some(pc)
    ensures z.TargetWord(target) == z.Place(pc)
  {
  }

  // ----- writing -----

  lemma EndStands(segs: seq<Segment>)
    requires segs != []
    ensures StandsAt(segs, CodePages.EndOf(segs), |CodePages.Stream(segs)|)
  {
    hide CodePages.Stream;
    var j := |segs| - 1;
    CodePages.StreamNext(segs[..j], segs[j]);
    assert segs == segs[..j] + [segs[j]];
    assert IsSpot(segs, j, |segs[j].words|, CodePages.EndOf(segs), |CodePages.Stream(segs)|);
  }

  /** An address keeps standing where it stood, bridges notwithstanding. */
  lemma StandsStill(was: seq<Segment>, now: seq<Segment>, a: CodeWord, n: nat)
    requires CodePages.Grown(was, now) && StandsAt(was, a, n)
    ensures StandsAt(now, a, n)
  {
    hide CodePages.Stream;
    var j, m :| 0 <= j < |was| && 0 <= m <= |was[j].words| && IsSpot(was, j, m, a, n);
    CodePages.StreamPrefix(was, now, j);
    assert IsSpot(now, j, m, a, n);
  }

  /** Emitting an operation with its operands keeps every line where it is, if the address taken for the next line is
      the one behind the words just written. */
  lemma EmitLaid(c: CState, op: Op, z: Scheme, streams: seq<seq<Segment>>, now: seq<Segment>)
    requires z.fn == c.layout.fn && c.page < |c.pages| && Laid(z, c.pages, streams)
    requires CodePages.Grown(streams[c.page], now)
    requires CodePages.Stream(now) == CodePages.Stream(streams[c.page]) + z.LineWords(op)
    requires now != [] && z.Place(PcOf(Emit(c, op))) == CodePages.EndOf(now)
    ensures Laid(z, Emit(c, op).pages, streams[c.page := now])
  {
    hide StandsAt, CodePages.Grown, CodePages.Stream;
    var i, ops, segs := c.page, c.pages[c.page], streams[c.page];
    assert PageLaid(z, i, ops, segs);
    var more := ops + [op];
    WordsNext(z, ops, op);
    EndStands(now);
    forall l | 0 <= l <= |more|
      ensures StandsAt(now, z.Place(PC(z.fn, i, l)), |z.PageWords(more[..l])|)
    {
      if l <= |ops| {
        assert more[..l] == ops[..l];
        StandsStill(segs, now, z.Place(PC(z.fn, i, l)), |z.PageWords(ops[..l])|);
      } else {
        assert more[..l] == more;
      }
    }
    assert PageLaid(z, i, more, now);
  }

  /** A new page, and nothing on it yet. */
  lemma NewPageLaid(c: CState, z: Scheme, streams: seq<seq<Segment>>, first: Segment)
    requires z.fn == c.layout.fn && Laid(z, c.pages, streams)
    requires first.words == [] && z.Place(PC(z.fn, |c.pages|, 0)) == CodePages.EndOf([first])
    ensures Laid(z, c.pages + [[]], streams + [[first]])
  {
    hide PageLaid;
    EmptyPage(z, |c.pages|, first);
  }

  lemma EmptyPage(z: Scheme, i: nat, first: Segment)
    requires first.words == [] && z.Place(PC(z.fn, i, 0)) == CodePages.EndOf([first])
    ensures PageLaid(z, i, [], [first])
  {
    hide StandsAt;
    NothingYet(first);
    EndStands([first]);
  }

  lemma NothingYet(first: Segment)
    requires first.words == []
    ensures CodePages.Stream([first]) == []
  {
    CodePages.StreamNext([], first);
    assert [] + [first] == [first];
  }

  /** A reference resolved at the current pc stands for the address behind what has been emitted: its words lead to
      whatever comes next on this page. */
  lemma DefinedHere(c: CState, id: nat, z: Scheme, streams: seq<seq<Segment>>)
    requires z.fn == c.layout.fn && c.page < |c.pages| && Laid(z, c.pages, streams)
    requires id in z.patched && z.patched[id] == Define(c, id).patched[id]
    ensures StandsAt(streams[c.page], z.TargetWord(Patched(id)), |CodePages.Stream(streams[c.page])|)
  {
    hide StandsAt, CodePages.Stream;
    var ops := c.pages[c.page];
    assert PageLaid(z, c.page, ops, streams[c.page]);
    assert ops[..|ops|] == ops;
  }
}
