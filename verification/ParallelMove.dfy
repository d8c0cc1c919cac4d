/** CopyStackSlotsR as a parallel move: any number of values go from their slots to as many target slots, through chains
    and cycles. The emitted copies are right for every memory exactly when no source is read twice after being
    overwritten, because the collision search stops at the first reader.
 */
module ParallelMove {
  import opened Words
  import opened Machine
  import opened Allocator
  import opened Relation

  /** One value to be moved. */
  datatype Move = Move(src: nat, ty: ValType, dst: nat)

  function CopyOp(m: Move): Op {
    if IsAlias(m.src) then SetSlot(m.ty, m.dst) else CopySlot(m.ty, m.dst, m.src)
  }

  /** The first move from `from` on that reads `slot`. */
  function FirstReader(ms: seq<Move>, slot: nat, from: nat): (r: nat)
    requires from <= |ms|
    ensures from <= r <= |ms|
    ensures r < |ms| ==> ms[r].src == slot
    ensures forall k :: from <= k < r ==> ms[k].src != slot
    decreases |ms| - from
  {
    if from == |ms| || ms[from].src == slot then from else FirstReader(ms, slot, from + 1)
  }

  /** The moves left after the first one, its reader redirected to the temporary. */
  function Rest(ms: seq<Move>, temp: nat): (r: seq<Move>)
    requires ms != []
    ensures |r| == |ms| - 1
  {
    var j := FirstReader(ms, ms[0].dst, 1);
    if ms[0].src != ms[0].dst && j < |ms| then ms[j := ms[j].(src := temp)][1..] else ms[1..]
  }

  /** The copies emitted for the first move. */
  function FirstOps(ms: seq<Move>, temp: nat): seq<Op>
    requires ms != []
  {
    var j := FirstReader(ms, ms[0].dst, 1);
    if ms[0].src == ms[0].dst then []
    else if j < |ms| then [CopyOp(ms[j].(dst := temp)), CopyOp(ms[0])]
    else [CopyOp(ms[0])]
  }

  predicate NeedsTemp(ms: seq<Move>)
    requires ms != []
  {
    ms[0].src != ms[0].dst && FirstReader(ms, ms[0].dst, 1) < |ms|
  }

  /** All copies, unless the temporaries run out of slots. */
  function MoveOps(ms: seq<Move>, temp: nat): Option<seq<Op>>
    decreases |ms|
  {
    if ms == [] then Some([])
    else if NeedsTemp(ms) && temp >= MAX_FUNCTION_SLOTS then None
    else
      var rest :- MoveOps(Rest(ms, temp), if NeedsTemp(ms) then temp + 1 else temp);
      Some(FirstOps(ms, temp) + rest)
  }

  /** The first temporary not used. */
  function TempsEnd(ms: seq<Move>, temp: nat): (r: nat)
    ensures temp <= r <= temp + |ms|
    decreases |ms|
  {
    if ms == [] then temp else TempsEnd(Rest(ms, temp), if NeedsTemp(ms) then temp + 1 else temp)
  }

  // ----- running copies -----

  function RunCopy(op: Op, sp: nat, mem: Memory, r0: Word): Memory {
    match op
    case CopySlot(ty, dst, src) => SetTyped(mem, sp + dst, ty, Get(mem, sp + src))
    case SetSlot(ty, dst) => SetTyped(mem, sp + dst, ty, r0)
    case _ => mem
  }

  function RunCopies(ops: seq<Op>, sp: nat, mem: Memory, r0: Word): Memory
    decreases |ops|
  {
    if ops == [] then mem else RunCopies(ops[1..], sp, RunCopy(ops[0], sp, mem, r0), r0)
  }

  lemma {:induction false} RunConcat(xs: seq<Op>, ys: seq<Op>, sp: nat, mem: Memory, r0: Word)
    ensures RunCopies(xs + ys, sp, mem, r0) == RunCopies(ys, sp, RunCopies(xs, sp, mem, r0), r0)
    decreases |xs|
  {
    if xs == [] {
      assert xs + ys == ys;
    } else {
      assert (xs + ys)[1..] == xs[1..] + ys;
      RunConcat(xs[1..], ys, sp, RunCopy(xs[0], sp, mem, r0), r0);
    }
  }

  /** The memory after the copies of the first move. */
  function AfterFirst(ms: seq<Move>, temp: nat, sp: nat, mem: Memory, r0: Word): Memory
    requires ms != []
  {
    RunCopies(FirstOps(ms, temp), sp, mem, r0)
  }

  // ----- what a correct move is -----

  /** The part of a word a copy of this type transports. */
  predicate SameAt(ty: ValType, a: Word, b: Word) {
    a.lo == b.lo && (ty == I64 ==> a == b)
  }

  /** Every target holds what its source held before. */
  ghost predicate Moved(ms: seq<Move>, sp: nat, before: Memory, r0: Word, after: Memory) {
    forall k :: 0 <= k < |ms| ==>
      SameAt(ms[k].ty, Get(after, sp + ms[k].dst), ValueAt(ms[k].src, sp, before, r0))
  }

  /** Targets are distinct and, like the sources, below the temporaries; sources may also be the register. */
  ghost predicate Placed(ms: seq<Move>, temp: nat) {
    && (forall k :: 0 <= k < |ms| ==> ms[k].dst < temp && (ms[k].src < temp || ms[k].src == REG0_ALIAS))
    && (forall j, k :: 0 <= j < k < |ms| ==> ms[j].dst != ms[k].dst)
    && temp + |ms| <= REG0_ALIAS
  }

  /** Move `i` overwrites the common source of the later moves `j` and `k`. */
  ghost predicate Clash(ms: seq<Move>, i: nat, j: nat, k: nat) {
    i < j < k < |ms| && ms[i].src != ms[i].dst && ms[j].src == ms[i].dst == ms[k].src
  }

  /** Move `k` does not come too late for its source because of the first move. */
  ghost predicate NoClashAt(ms: seq<Move>, k: nat) {
    forall j: nat :: !Clash(ms, 0, j, k)
  }

  ghost predicate NoClash(ms: seq<Move>) {
    forall i: nat, j: nat, k: nat :: !Clash(ms, i, j, k)
  }

  // ----- one move -----

  lemma {:induction false} RestPlaced(ms: seq<Move>, temp: nat)
    requires ms != [] && Placed(ms, temp)
    ensures Placed(Rest(ms, temp), if NeedsTemp(ms) then temp + 1 else temp)
  {
  }

  /** Two copies in a row. */
  lemma {:induction false} RunTwo(a: Op, b: Op, sp: nat, mem: Memory, r0: Word)
    ensures RunCopies([a, b], sp, mem, r0) == RunCopy(b, sp, RunCopy(a, sp, mem, r0), r0)
    ensures RunCopies([a], sp, mem, r0) == RunCopy(a, sp, mem, r0)
  {
    assert [a, b][1..] == [b] && [a][1..] == [] && [b][1..] == [];
    assert RunCopies([b], sp, RunCopy(a, sp, mem, r0), r0) == RunCopy(b, sp, RunCopy(a, sp, mem, r0), r0);
  }

  /** The first target gets the first source. */
  lemma {:induction false} FirstMoved(ms: seq<Move>, temp: nat, sp: nat, mem: Memory, r0: Word)
    requires ms != [] && Placed(ms, temp)
    ensures var m := AfterFirst(ms, temp, sp, mem, r0);
      && SameAt(ms[0].ty, Get(m, sp + ms[0].dst), ValueAt(ms[0].src, sp, mem, r0))
      && (forall a: nat {:trigger Get(m, a)} :: a != sp + ms[0].dst && a != sp + temp ==> Get(m, a) == Get(mem, a))
      && (!NeedsTemp(ms) ==> Get(m, sp + temp) == Get(mem, sp + temp))
  {
    if NeedsTemp(ms) {
      FirstSaved(ms, temp, sp, mem, r0);
    } else {
      RunTwo(CopyOp(ms[0]), CopyOp(ms[0]), sp, mem, r0);
    }
  }

  /** If a later move reads the first target, the temporary keeps its old content for it. */
  lemma {:induction false} FirstSaved(ms: seq<Move>, temp: nat, sp: nat, mem: Memory, r0: Word)
    requires ms != [] && Placed(ms, temp) && NeedsTemp(ms)
    ensures var m := AfterFirst(ms, temp, sp, mem, r0);
      && SameAt(ms[0].ty, Get(m, sp + ms[0].dst), ValueAt(ms[0].src, sp, mem, r0))
      && (forall a: nat {:trigger Get(m, a)} :: a != sp + ms[0].dst && a != sp + temp ==> Get(m, a) == Get(mem, a))
      && SameAt(ms[FirstReader(ms, ms[0].dst, 1)].ty, Get(m, sp + temp), Get(mem, sp + ms[0].dst))
  {
    var j := FirstReader(ms, ms[0].dst, 1);
    RunTwo(CopyOp(ms[j].(dst := temp)), CopyOp(ms[0]), sp, mem, r0);
  }

  /** The moves that are left only write their own targets and temporaries. */
  lemma {:induction false} Untouched(ms: seq<Move>, temp: nat, sp: nat, mem: Memory, r0: Word, a: nat)
    requires Placed(ms, temp) && MoveOps(ms, temp).Some?
    requires a < sp + temp && forall k :: 0 <= k < |ms| ==> a != sp + ms[k].dst
    ensures Get(RunCopies(MoveOps(ms, temp).value, sp, mem, r0), a) == Get(mem, a)
    decreases |ms|
  {
    if ms != [] {
      var next := if NeedsTemp(ms) then temp + 1 else temp;
      RestPlaced(ms, temp);
      FirstMoved(ms, temp, sp, mem, r0);
      RunConcat(FirstOps(ms, temp), MoveOps(Rest(ms, temp), next).value, sp, mem, r0);
      Untouched(Rest(ms, temp), next, sp, AfterFirst(ms, temp, sp, mem, r0), r0, a);
    }
  }

  /** A run of all copies is a run of the first move's, then of the rest. */
  lemma {:induction false} RunSplit(ms: seq<Move>, temp: nat, sp: nat, mem: Memory, r0: Word)
    requires ms != [] && Placed(ms, temp) && MoveOps(ms, temp).Some?
    ensures var next := if NeedsTemp(ms) then temp + 1 else temp;
      && MoveOps(Rest(ms, temp), next).Some? && Placed(Rest(ms, temp), next)
      && RunCopies(MoveOps(ms, temp).value, sp, mem, r0)
         == RunCopies(MoveOps(Rest(ms, temp), next).value, sp, AfterFirst(ms, temp, sp, mem, r0), r0)
  {
    var next := if NeedsTemp(ms) then temp + 1 else temp;
    RestPlaced(ms, temp);
    RunConcat(FirstOps(ms, temp), MoveOps(Rest(ms, temp), next).value, sp, mem, r0);
  }

  /** The first target is not written again. */
  lemma {:induction false} FirstStays(ms: seq<Move>, temp: nat, sp: nat, mem: Memory, r0: Word)
    requires ms != [] && Placed(ms, temp) && MoveOps(ms, temp).Some?
    ensures SameAt(ms[0].ty, Get(RunCopies(MoveOps(ms, temp).value, sp, mem, r0), sp + ms[0].dst),
                   ValueAt(ms[0].src, sp, mem, r0))
  {
    hide RunCopies, FirstOps, MoveOps, AfterFirst;
    var next := if NeedsTemp(ms) then temp + 1 else temp;
    RunSplit(ms, temp, sp, mem, r0);
    FirstMoved(ms, temp, sp, mem, r0);
    assert forall i :: 0 <= i < |Rest(ms, temp)| ==> Rest(ms, temp)[i].dst == ms[i + 1].dst;
    Untouched(Rest(ms, temp), next, sp, AfterFirst(ms, temp, sp, mem, r0), r0, sp + ms[0].dst);
  }

  // ----- correct when there is no clash -----

  lemma {:induction false} RestNoClash(ms: seq<Move>, temp: nat)
    requires ms != [] && Placed(ms, temp) && NoClash(ms)
    ensures NoClash(Rest(ms, temp))
  {
    var rest := Rest(ms, temp);
    forall i: nat, j: nat, k: nat
      ensures !Clash(rest, i, j, k)
    {
      assert !Clash(ms, i + 1, j + 1, k + 1);
    }
  }

  /** Without a clash, what the remaining moves read is what they would have read before the first one. */
  lemma {:induction false} SourcesKept(ms: seq<Move>, temp: nat, sp: nat, mem: Memory, r0: Word, k: nat)
    requires ms != [] && Placed(ms, temp) && k < |ms| - 1
    requires NoClashAt(ms, k + 1)
    ensures var m := AfterFirst(ms, temp, sp, mem, r0);
      SameAt(ms[k + 1].ty, ValueAt(Rest(ms, temp)[k].src, sp, m, r0), ValueAt(ms[k + 1].src, sp, mem, r0))
    ensures Rest(ms, temp)[k].dst == ms[k + 1].dst && Rest(ms, temp)[k].ty == ms[k + 1].ty
  {
    FirstMoved(ms, temp, sp, mem, r0);
    var j := FirstReader(ms, ms[0].dst, 1);
    if NeedsTemp(ms) {
      FirstSaved(ms, temp, sp, mem, r0);
      assert !Clash(ms, 0, j, k + 1);
    }
  }

  /** The copies for `ms` bring every value to its target. */
  ghost predicate Delivers(ops: seq<Op>, ms: seq<Move>, sp: nat, mem: Memory, r0: Word) {
    Moved(ms, sp, mem, r0, RunCopies(ops, sp, mem, r0))
  }

  lemma {:induction false} MovesRight(ms: seq<Move>, temp: nat, sp: nat, mem: Memory, r0: Word)
    requires Placed(ms, temp) && NoClash(ms) && MoveOps(ms, temp).Some?
    ensures Moved(ms, sp, mem, r0, RunCopies(MoveOps(ms, temp).value, sp, mem, r0))
    decreases |ms|
  {
    hide RunCopies, FirstOps, Placed, Rest, NeedsTemp, ValueAt, SameAt, AfterFirst, MoveOps, NoClash, NoClashAt;
    if ms != [] {
      var next := if NeedsTemp(ms) then temp + 1 else temp;
      var rest := Rest(ms, temp);
      var m := AfterFirst(ms, temp, sp, mem, r0);
      var last := RunCopies(MoveOps(ms, temp).value, sp, mem, r0);
      RestNoClash(ms, temp);
      RunSplit(ms, temp, sp, mem, r0);
      FirstStays(ms, temp, sp, mem, r0);
      MovesRight(rest, next, sp, m, r0);
      forall k | 0 <= k < |ms|
        ensures SameAt(ms[k].ty, Get(last, sp + ms[k].dst), ValueAt(ms[k].src, sp, mem, r0))
      {
        if k > 0 {
          NoClashAtHead(ms, k);
          SourcesKept(ms, temp, sp, mem, r0, k - 1);
          assert SameAt(rest[k - 1].ty, Get(last, sp + rest[k - 1].dst), ValueAt(rest[k - 1].src, sp, m, r0));
          SameTrans(ms[k].ty, Get(last, sp + ms[k].dst), ValueAt(rest[k - 1].src, sp, m, r0),
              ValueAt(ms[k].src, sp, mem, r0));
        }
      }
    }
  }

  lemma {:induction false} NoClashAtHead(ms: seq<Move>, k: nat)
    requires NoClash(ms)
    ensures NoClashAt(ms, k)
  {
  }

  lemma {:induction false} SameTrans(ty: ValType, a: Word, b: Word, c: Word)
    requires SameAt(ty, a, b) && SameAt(ty, b, c)
    ensures SameAt(ty, a, c)
  {
  }

  // ----- wrong when there is one -----

  /** Only a move that reads the first target is redirected. */
  lemma {:induction false} NotRedirected(ms: seq<Move>, temp: nat, k: nat)
    requires 0 < k < |ms| && ms[k].src != ms[0].dst
    ensures Rest(ms, temp)[k - 1] == ms[k]
    ensures forall i :: 0 <= i < |ms| - 1 ==> Rest(ms, temp)[i].dst == ms[i + 1].dst
  {
  }

  /** A source that no earlier move overwrites is moved, whatever happens to the others. */
  lemma {:induction false} UnwrittenSource(ms: seq<Move>, temp: nat, sp: nat, mem: Memory, r0: Word, k: nat)
    requires Placed(ms, temp) && MoveOps(ms, temp).Some? && k < |ms|
    requires forall i :: 0 <= i < k ==> ms[i].dst != ms[k].src
    ensures SameAt(ms[k].ty, Get(RunCopies(MoveOps(ms, temp).value, sp, mem, r0), sp + ms[k].dst),
                   ValueAt(ms[k].src, sp, mem, r0))
    decreases |ms|
  {
    hide RunCopies, FirstOps, MoveOps, AfterFirst, SameAt, Rest, NeedsTemp;
    var next := if NeedsTemp(ms) then temp + 1 else temp;
    if k == 0 {
      FirstStays(ms, temp, sp, mem, r0);
    } else {
      var rest := Rest(ms, temp);
      RunSplit(ms, temp, sp, mem, r0);
      FirstMoved(ms, temp, sp, mem, r0);
      NotRedirected(ms, temp, k);
      UnwrittenSource(rest, next, sp, AfterFirst(ms, temp, sp, mem, r0), r0, k - 1);
    }
  }

  /** The slots a set of moves reads or writes. */
  predicate Uses(ms: seq<Move>, slot: nat) {
    exists k :: 0 <= k < |ms| && (ms[k].src == slot || ms[k].dst == slot)
  }

  /** No two of them hold the same low half. */
  ghost predicate Distinct(ms: seq<Move>, sp: nat, mem: Memory, r0: Word) {
    forall a: nat, b: nat :: Uses(ms, a) && Uses(ms, b) && a != b ==>
      ValueAt(a, sp, mem, r0).lo != ValueAt(b, sp, mem, r0).lo
  }

  /** Some value went wrong. */
  ghost predicate Lost(ms: seq<Move>, sp: nat, before: Memory, r0: Word, after: Memory) {
    exists k :: 0 <= k < |ms| && Get(after, sp + ms[k].dst).lo != ValueAt(ms[k].src, sp, before, r0).lo
  }

  lemma {:induction false} RestUses(ms: seq<Move>, temp: nat, slot: nat)
    requires ms != [] && Placed(ms, temp) && Uses(Rest(ms, temp), slot)
    requires forall j: nat, k: nat :: !Clash(ms, 0, j, k)
    ensures Uses(ms, slot) || (NeedsTemp(ms) && slot == temp)
    ensures ms[0].src != ms[0].dst ==> slot != ms[0].dst
  {
    var rest := Rest(ms, temp);
    var k :| 0 <= k < |rest| && (rest[k].src == slot || rest[k].dst == slot);
    assert rest[k].dst == ms[k + 1].dst;
    var j := FirstReader(ms, ms[0].dst, 1);
    assert !Clash(ms, 0, j, k + 1);
  }

  lemma {:induction false} RestDistinct(ms: seq<Move>, temp: nat, sp: nat, mem: Memory, r0: Word)
    requires ms != [] && Placed(ms, temp) && Distinct(ms, sp, mem, r0)
    requires forall j: nat, k: nat :: !Clash(ms, 0, j, k)
    ensures Distinct(Rest(ms, temp), sp, AfterFirst(ms, temp, sp, mem, r0), r0)
  {
    var rest := Rest(ms, temp);
    var m := AfterFirst(ms, temp, sp, mem, r0);
    FirstMoved(ms, temp, sp, mem, r0);
    assert Uses(ms, ms[0].dst);
    forall a: nat, b: nat | Uses(rest, a) && Uses(rest, b) && a != b
      ensures ValueAt(a, sp, m, r0).lo != ValueAt(b, sp, m, r0).lo
    {
      RestUses(ms, temp, a);
      RestUses(ms, temp, b);
      UsedBelow(ms, temp, ms[0].dst);
      KeptValue(ms, temp, sp, mem, r0, a);
      KeptValue(ms, temp, sp, mem, r0, b);
    }
  }

  lemma {:induction false} UsedBelow(ms: seq<Move>, temp: nat, slot: nat)
    requires Placed(ms, temp) && Uses(ms, slot)
    ensures slot < temp || slot == REG0_ALIAS
  {
  }

  /** A slot still in use keeps its content; the temporary has the first target's. */
  lemma {:induction false} KeptValue(ms: seq<Move>, temp: nat, sp: nat, mem: Memory, r0: Word, a: nat)
    requires ms != [] && Placed(ms, temp)
    requires Uses(ms, a) || (NeedsTemp(ms) && a == temp)
    requires ms[0].src != ms[0].dst ==> a != ms[0].dst
    ensures ValueAt(a, sp, AfterFirst(ms, temp, sp, mem, r0), r0).lo
         == ValueAt(if Uses(ms, a) then a else ms[0].dst, sp, mem, r0).lo
  {
    FirstMoved(ms, temp, sp, mem, r0);
    if NeedsTemp(ms) {
      FirstSaved(ms, temp, sp, mem, r0);
    }
    if Uses(ms, a) {
      UsedBelow(ms, temp, a);
    } else {
      assert ms[0].dst < temp;
    }
  }

  lemma {:induction false} ClashLoses(ms: seq<Move>, temp: nat, sp: nat, mem: Memory, r0: Word, i: nat, j: nat, k: nat)
    requires Placed(ms, temp) && MoveOps(ms, temp).Some? && Distinct(ms, sp, mem, r0) && Clash(ms, i, j, k)
    ensures Lost(ms, sp, mem, r0, RunCopies(MoveOps(ms, temp).value, sp, mem, r0))
    decreases |ms|
  {
    hide RunCopies, FirstOps, MoveOps, AfterFirst, SameAt, Placed, Distinct, Rest, ValueAt, NeedsTemp, NoClashAt, Get;
    if j0: nat, k0: nat :| Clash(ms, 0, j0, k0) {
      ClashAtHead(ms, temp, sp, mem, r0, j0, k0);
    } else {
      var next := if NeedsTemp(ms) then temp + 1 else temp;
      var rest := Rest(ms, temp);
      var m := AfterFirst(ms, temp, sp, mem, r0);
      var last := RunCopies(MoveOps(ms, temp).value, sp, mem, r0);
      RunSplit(ms, temp, sp, mem, r0);
      RestDistinct(ms, temp, sp, mem, r0);
      RestClash(ms, temp, i, j, k);
      ClashLoses(rest, next, sp, m, r0, i - 1, j - 1, k - 1);
      var l :| 0 <= l < |rest| && Get(last, sp + rest[l].dst).lo != ValueAt(rest[l].src, sp, m, r0).lo;
      NotAtHead(ms, l + 1);
      SourcesKept(ms, temp, sp, mem, r0, l);
      SameLow(ms[l + 1].ty, ValueAt(rest[l].src, sp, m, r0), ValueAt(ms[l + 1].src, sp, mem, r0));
      assert Get(last, sp + ms[l + 1].dst).lo != ValueAt(ms[l + 1].src, sp, mem, r0).lo;
    }
  }

  lemma {:induction false} NotAtHead(ms: seq<Move>, k: nat)
    requires forall j: nat, k: nat :: !Clash(ms, 0, j, k)
    ensures NoClashAt(ms, k)
  {
  }

  lemma {:induction false} SameLow(ty: ValType, a: Word, b: Word)
    requires SameAt(ty, a, b)
    ensures a.lo == b.lo
  {
  }

  /** A clash among later moves is still there. */
  lemma {:induction false} RestClash(ms: seq<Move>, temp: nat, i: nat, j: nat, k: nat)
    requires ms != [] && Placed(ms, temp) && Clash(ms, i, j, k) && i > 0
    ensures Clash(Rest(ms, temp), i - 1, j - 1, k - 1)
  {
  }

  /** The second reader of an overwritten source gets the value that overwrote it. */
  lemma {:induction false} ClashAtHead(ms: seq<Move>, temp: nat, sp: nat, mem: Memory, r0: Word, j: nat, k: nat)
    requires Placed(ms, temp) && MoveOps(ms, temp).Some? && Distinct(ms, sp, mem, r0) && Clash(ms, 0, j, k)
    ensures Lost(ms, sp, mem, r0, RunCopies(MoveOps(ms, temp).value, sp, mem, r0))
  {
    hide RunCopies, FirstOps, MoveOps, AfterFirst;
    var next := if NeedsTemp(ms) then temp + 1 else temp;
    var rest := Rest(ms, temp);
    var m := AfterFirst(ms, temp, sp, mem, r0);
    var last := RunCopies(MoveOps(ms, temp).value, sp, mem, r0);
    RunSplit(ms, temp, sp, mem, r0);
    FirstMoved(ms, temp, sp, mem, r0);
    LateReader(ms, temp, j, k);
    UnwrittenSource(rest, next, sp, m, r0, k - 1);
    assert Uses(ms, ms[0].src) && Uses(ms, ms[0].dst);
    assert Get(last, sp + ms[k].dst).lo == ValueAt(ms[0].src, sp, mem, r0).lo;
  }

  lemma {:induction false} LateReader(ms: seq<Move>, temp: nat, j: nat, k: nat)
    requires Placed(ms, temp) && Clash(ms, 0, j, k)
    ensures Rest(ms, temp)[k - 1] == ms[k] && forall i :: 0 <= i < k - 1 ==> Rest(ms, temp)[i].dst == ms[i + 1].dst
  {
    assert FirstReader(ms, ms[0].dst, 1) <= j;
  }

  // ----- exactly -----

  /** A frame at address 0 in which every slot holds its own number. */
  function Numbered(n: nat): (m: Memory)
    requires n <= REG0_ALIAS
    ensures forall a: nat {:trigger Get(m, a)} :: a < n ==> Get(m, a) == Word(a, 0)
  {
    var ws := seq(n, i requires 0 <= i < n => Word(i, 0));
    assert forall a: nat {:trigger Get(Fill(map[], 0, ws), a)} :: a < n ==> Get(Fill(map[], 0, ws), 0 + a) == ws[a];
    Fill(map[], 0, ws)
  }

  /** The copies are right for every frame, memory and register exactly when there is no clash. */
  lemma {:induction false} MovesExact(ms: seq<Move>, temp: nat)
    requires Placed(ms, temp) && MoveOps(ms, temp).Some?
    ensures (forall sp: nat, mem: Memory, r0: Word ::
      Delivers(MoveOps(ms, temp).value, ms, sp, mem, r0)) <==> NoClash(ms)
  {
    var ops := MoveOps(ms, temp).value;
    if NoClash(ms) {
      forall sp: nat, mem: Memory, r0: Word {:trigger Delivers(ops, ms, sp, mem, r0)}
        ensures Delivers(ops, ms, sp, mem, r0)
      {
        MovesRight(ms, temp, sp, mem, r0);
      }
    } else {
      var i: nat, j: nat, k: nat :| Clash(ms, i, j, k);
      var mem, r0 := Numbered(temp), Word(REG0_ALIAS, 0);
      NumberedDistinct(ms, temp);
      ClashLoses(ms, temp, 0, mem, r0, i, j, k);
      assert !Delivers(ops, ms, 0, mem, r0);
    }
  }

  lemma {:induction false} NumberedDistinct(ms: seq<Move>, temp: nat)
    requires Placed(ms, temp)
    ensures Distinct(ms, 0, Numbered(temp), Word(REG0_ALIAS, 0))
  {
    forall a: nat | Uses(ms, a)
      ensures ValueAt(a, 0, Numbered(temp), Word(REG0_ALIAS, 0)).lo == a
    {
      UsedBelow(ms, temp, a);
    }
  }

  /** With room for one temporary per value the move always succeeds. */
  lemma {:induction false} MovesFit(ms: seq<Move>, temp: nat)
    requires temp + |ms| <= MAX_FUNCTION_SLOTS
    ensures MoveOps(ms, temp).Some?
    decreases |ms|
  {
    if ms != [] {
      MovesFit(Rest(ms, temp), if NeedsTemp(ms) then temp + 1 else temp);
    }
  }

  // ----- the compiler's copies -----

  /** The moves that CopyStackSlotsR is asked for; the targets are recorded below the values. */
  function StackMoves(stack: seq<Entry>, target: nat, i: nat, end: nat): (ms: seq<Move>)
    requires i <= end <= |stack| && target + (end - i) <= i
    ensures |ms| == end - i
  {
    seq(end - i, k requires 0 <= k < end - i => Move(stack[i + k].slot, stack[i + k].ty, stack[target + k].slot))
  }

  function EmitAll(c: CState, ops: seq<Op>): (d: CState)
    ensures d == c.(pages := d.pages)
    decreases |ops|
  {
    if ops == [] then c else EmitAll(Emit(c, ops[0]), ops[1..])
  }

  lemma {:induction false} EmitAllConcat(c: CState, xs: seq<Op>, ys: seq<Op>)
    ensures EmitAll(c, xs + ys) == EmitAll(EmitAll(c, xs), ys)
    decreases |xs|
  {
    if xs == [] {
      assert xs + ys == ys;
    } else {
      assert (xs + ys)[1..] == xs[1..] + ys;
      EmitAllConcat(Emit(c, xs[0]), xs[1..], ys);
    }
  }

  /** Emission reads neither the operand stack nor the slot maximum. */
  lemma {:induction false} EmitAllFrame(c: CState, ops: seq<Op>, stack: seq<Entry>, max: nat)
    ensures EmitAll(c.(stack := stack, maxSlots := max), ops) == EmitAll(c, ops).(stack := stack, maxSlots := max)
    decreases |ops|
  {
    if ops != [] {
      EmitAllFrame(Emit(c, ops[0]), ops[1..], stack, max);
    }
  }

  lemma {:induction false} CollisionIsReader(stack: seq<Entry>, target: nat, i: nat, end: nat, slot: nat, k: nat)
    requires i <= end <= |stack| && target + (end - i) <= i && k <= end - i
    ensures FirstCollision(stack, slot, i + k, end) == i + FirstReader(StackMoves(stack, target, i, end), slot, k)
    decreases end - i - k
  {
    if k < end - i && stack[i + k].slot != slot {
      CollisionIsReader(stack, target, i, end, slot, k + 1);
    }
  }

  /** The slot maximum after the temporaries were taken. */
  function MaxAfter(max: nat, ms: seq<Move>, temp: nat): nat {
    if TempsEnd(ms, temp) == temp then max else Max(max, TempsEnd(ms, temp))
  }

  /** What CopyStackSlotsR makes of its moves; the compile-time stack comes back unchanged. */
  function MoveResult(c: CState, ms: seq<Move>, temp: nat): Option<CState> {
    var ops :- MoveOps(ms, temp);
    Some(EmitAll(c, ops).(maxSlots := MaxAfter(c.maxSlots, ms, temp)))
  }

  /** The state in which the remaining moves are compiled. */
  function AfterOne(c: CState, target: nat, i: nat, end: nat, temp: nat): CState
    requires i < end <= |c.stack| && target + (end - i) <= i
  {
    var src, dst := c.stack[i].slot, c.stack[target].slot;
    var j := FirstCollision(c.stack, dst, i + 1, end);
    if src == dst then c
    else
      var saved := if j < end
        then Touch(CopyIndexToSlot(c, temp, j).(stack := c.stack[j := c.stack[j].(slot := temp)]), temp) else c;
      CopyIndexToSlot(saved, dst, i).(stack := saved.stack[i := saved.stack[i].(slot := dst)])
  }

  lemma {:induction false} AfterOneMoves(c: CState, target: nat, i: nat, end: nat, temp: nat)
    requires i < end <= |c.stack| && target + (end - i) <= i
    ensures var ms := StackMoves(c.stack, target, i, end);
      var d := AfterOne(c, target, i, end, temp);
      && |d.stack| == |c.stack| && StackMoves(d.stack, target + 1, i + 1, end) == Rest(ms, temp)
  {
    hide Emit;
    var ms := StackMoves(c.stack, target, i, end);
    var d := AfterOne(c, target, i, end, temp);
    CollisionIsReader(c.stack, target, i, end, ms[0].dst, 1);
    assert StackMoves(d.stack, target + 1, i + 1, end) == Rest(ms, temp);
  }

  lemma {:induction false} EmitTwo(c: CState, a: Op, b: Op)
    ensures EmitAll(c, [a, b]) == Emit(Emit(c, a), b) && EmitAll(c, [a]) == Emit(c, a)
  {
    hide Emit;
    assert [a, b][1..] == [b] && [b][1..] == [] && [a][1..] == [];
    assert EmitAll(Emit(c, a), [b]) == Emit(Emit(c, a), b);
  }

  lemma {:induction false} AfterOneShape(c: CState, target: nat, i: nat, end: nat, temp: nat)
    requires i < end <= |c.stack| && target + (end - i) <= i
    ensures var ms := StackMoves(c.stack, target, i, end);
      var d := AfterOne(c, target, i, end, temp);
      && |d.stack| == |c.stack| && StackMoves(d.stack, target + 1, i + 1, end) == Rest(ms, temp)
      && d.(stack := c.stack)
          == EmitAll(c, FirstOps(ms, temp)).(maxSlots := if NeedsTemp(ms) then Max(c.maxSlots, temp + 1)
              else c.maxSlots)
  {
    hide Rest, EmitAll;
    var ms := StackMoves(c.stack, target, i, end);
    var d := AfterOne(c, target, i, end, temp);
    AfterOneMoves(c, target, i, end, temp);
    CollisionIsReader(c.stack, target, i, end, ms[0].dst, 1);
    var j := FirstReader(ms, ms[0].dst, 1);
    if NeedsTemp(ms) {
      EmitTwo(c, CopyOp(ms[j].(dst := temp)), CopyOp(ms[0]));
    } else {
      EmitTwo(c, CopyOp(ms[0]), CopyOp(ms[0]));
      assert EmitAll(c, []) == c by { EmitNone(c); }
    }
  }

  lemma {:induction false} EmitNone(c: CState)
    ensures EmitAll(c, []) == c
  {
  }

  lemma {:induction false} CopyStep(c: CState, target: nat, i: nat, end: nat, temp: nat)
    requires i < end <= |c.stack| && target + (end - i) <= i
    ensures var ms := StackMoves(c.stack, target, i, end);
      var d := AfterOne(c, target, i, end, temp);
      var next := if NeedsTemp(ms) then temp + 1 else temp;
      |d.stack| == |c.stack|
      && var r := CopyStackSlotsR(d, target + 1, i + 1, end, next);
         && (CopyStackSlotsR(c, target, i, end, temp).Some? <==>
             !(NeedsTemp(ms) && temp >= MAX_FUNCTION_SLOTS) && r.Some?)
         && (CopyStackSlotsR(c, target, i, end, temp).Some? && r.value.stack == d.stack ==>
             CopyStackSlotsR(c, target, i, end, temp).value == r.value.(stack := c.stack))
  {
    hide Emit, CopyIndexToSlot, FirstCollision, FirstReader;
    var ms := StackMoves(c.stack, target, i, end);
    CollisionIsReader(c.stack, target, i, end, ms[0].dst, 1);
    var d := AfterOne(c, target, i, end, temp);
    assert c.stack[i := c.stack[i].(slot := ms[0].src)] == c.stack;
    if NeedsTemp(ms) {
      var j := FirstCollision(c.stack, ms[0].dst, i + 1, end);
      assert d.stack[i := d.stack[i].(slot := ms[0].src)][j := c.stack[j].(slot := ms[0].dst)] == c.stack;
    } else if ms[0].src != ms[0].dst {
      assert d.stack[i := d.stack[i].(slot := ms[0].src)] == c.stack;
    }
  }

  /** CopyStackSlotsR emits exactly the copies of `MoveOps` and restores the compile-time stack. */
  lemma {:induction false} CopyIsMove(c: CState, target: nat, i: nat, end: nat, temp: nat)
    requires i <= end <= |c.stack| && target + (end - i) <= i
    ensures CopyStackSlotsR(c, target, i, end, temp) == MoveResult(c, StackMoves(c.stack, target, i, end), temp)
    decreases end - i, 1
  {
    if i == end {
      assert StackMoves(c.stack, target, i, end) == [];
    } else {
      CopyIsMoveStep(c, target, i, end, temp);
    }
  }

  lemma {:induction false} CopyIsMoveStep(c: CState, target: nat, i: nat, end: nat, temp: nat)
    requires i < end <= |c.stack| && target + (end - i) <= i
    ensures CopyStackSlotsR(c, target, i, end, temp) == MoveResult(c, StackMoves(c.stack, target, i, end), temp)
    decreases end - i, 0
  {
    hide AfterOne, FirstOps, Rest, NeedsTemp, CopyStackSlotsR, MoveOps, MoveResult;
    var ms := StackMoves(c.stack, target, i, end);
    var d := AfterOne(c, target, i, end, temp);
    var next := if NeedsTemp(ms) then temp + 1 else temp;
    AfterOneShape(c, target, i, end, temp);
    CopyStep(c, target, i, end, temp);
    CopyIsMove(d, target + 1, i + 1, end, next);
    RestFits(c, d, ms, temp);
    if MoveOps(ms, temp).Some? {
      RestEmitted(c, d, ms, temp);
    }
  }

  lemma {:induction false} RestFits(c: CState, d: CState, ms: seq<Move>, temp: nat)
    requires ms != []
    ensures var next := if NeedsTemp(ms) then temp + 1 else temp;
      && (MoveOps(ms, temp).Some? <==>
          !(NeedsTemp(ms) && temp >= MAX_FUNCTION_SLOTS) && MoveOps(Rest(ms, temp), next).Some?)
      && (MoveResult(c, ms, temp).Some? <==> MoveOps(ms, temp).Some?)
      && (MoveResult(d, Rest(ms, temp), next).Some? <==> MoveOps(Rest(ms, temp), next).Some?)
  {
  }

  lemma {:induction false} RestEmitted(c: CState, d: CState, ms: seq<Move>, temp: nat)
    requires ms != [] && MoveOps(ms, temp).Some?
    requires d.(stack := c.stack)
      == EmitAll(c, FirstOps(ms, temp)).(maxSlots := if NeedsTemp(ms) then Max(c.maxSlots, temp + 1) else c.maxSlots)
    ensures var next := if NeedsTemp(ms) then temp + 1 else temp;
      && MoveResult(d, Rest(ms, temp), next).Some?
      && MoveResult(d, Rest(ms, temp), next).value.stack == d.stack
      && MoveResult(c, ms, temp) == Some(MoveResult(d, Rest(ms, temp), next).value.(stack := c.stack))
  {
    hide FirstOps, Rest, NeedsTemp;
    var next := if NeedsTemp(ms) then temp + 1 else temp;
    var rest := MoveOps(Rest(ms, temp), next).value;
    EmitAllConcat(c, FirstOps(ms, temp), rest);
    EmitAllFrame(EmitAll(c, FirstOps(ms, temp)), rest, d.stack, d.maxSlots);
  }

  // ----- on the machine -----

  predicate AllCopies(ops: seq<Op>) {
    forall k :: 0 <= k < |ops| ==> ops[k].CopySlot? || ops[k].SetSlot?
  }

  lemma {:induction false} MoveOpsCopies(ms: seq<Move>, temp: nat)
    requires MoveOps(ms, temp).Some?
    ensures AllCopies(MoveOps(ms, temp).value)
    decreases |ms|
  {
    if ms != [] {
      MoveOpsCopies(Rest(ms, temp), if NeedsTemp(ms) then temp + 1 else temp);
    }
  }

  lemma {:induction false} EmitAllPages(c: CState, ops: seq<Op>)
    requires c.page < |c.pages|
    ensures EmitAll(c, ops).pages == c.pages[c.page := c.pages[c.page] + ops]
    decreases |ops|
  {
    if ops == [] {
      assert c.pages[c.page] + ops == c.pages[c.page];
    } else {
      EmitAllPages(Emit(c, ops[0]), ops[1..]);
      assert c.pages[c.page] + [ops[0]] + ops[1..] == c.pages[c.page] + ops;
    }
  }

  lemma {:induction false} CopiesRun(p: Program, c: CState, ops: seq<Op>, s: State)
    requires c.page < |c.pages| && Linked(p, EmitAll(c, ops)) && AllCopies(ops) && s.Running? && s.pc == PcOf(c)
    ensures Steps(p, |ops|, s) == s.(pc := PcOf(EmitAll(c, ops)), mem := RunCopies(ops, s.sp, s.mem, s.r0))
    decreases |ops|
  {
    hide Linked, PcOf, Fetch;
    if ops != [] {
      EmitAllPages(c, ops);
      CopyFetched(p, c, ops);
      CopiesRun(p, Emit(c, ops[0]), ops[1..], Step(p, s));
    }
  }

  lemma {:induction false} CopyFetched(p: Program, c: CState, ops: seq<Op>)
    requires c.page < |c.pages| && Linked(p, EmitAll(c, ops)) && ops != []
    ensures Fetch(p, PcOf(c)) == Some(ops[0]) && PcOf(Emit(c, ops[0])) == PcOf(c).Next()
  {
    var d := EmitAll(c, ops);
    EmitAllPages(c, ops);
    assert d.pages[c.page][|c.pages[c.page]|] == ops[0];
    assert d.pages[c.page] <= p.codes[c.layout.fn].pages[c.page];
  }

  /** The state with which the machine reaches the copies compiled in state `c`. */
  function Start(c: CState, sp: nat, mem: Memory, r0: Word, frames: seq<Frame>): State {
    Running(PcOf(c), sp, mem, r0, frames)
  }

  /** After `n` steps the machine is past the copies that take state `c` to `d`, and every value is where it belongs. */
  ghost predicate MovedBy(p: Program, c: CState, d: CState, ms: seq<Move>, n: nat, sp: nat, mem: Memory, r0: Word,
                          frames: seq<Frame>) {
    var t := Steps(p, n, Start(c, sp, mem, r0, frames));
    t == Start(d, sp, if t.Running? then t.mem else mem, r0, frames) && Moved(ms, sp, mem, r0, t.mem)
  }

  lemma LinkedCopies(p: Program, c: CState, d: CState)
    requires Linked(p, d) && d == c.(maxSlots := d.maxSlots) && c.maxSlots <= d.maxSlots
    ensures Linked(p, c)
  {
  }

  lemma SamePc(c: CState, d: CState)
    requires d == c.(maxSlots := d.maxSlots)
    ensures PcOf(d) == PcOf(c)
  {
  }

  /** The emitted code moves all values at once, from any frame, exactly when no overwritten source has two later
      readers. The compile-time stack is restored, and nothing but targets and temporaries is written. */
  lemma {:induction false} ParallelMoveExact(p: Program, c: CState, target: nat, i: nat, end: nat,
                                             temp: nat) returns (n: nat)
    requires c.page < |c.pages| && i <= end <= |c.stack| && target + (end - i) <= i
    requires Placed(StackMoves(c.stack, target, i, end), temp)
    requires CopyStackSlotsR(c, target, i, end, temp).Some? && Linked(p, CopyStackSlotsR(c, target, i, end, temp).value)
    ensures var ms, d := StackMoves(c.stack, target, i, end), CopyStackSlotsR(c, target, i, end, temp).value;
      && d.stack == c.stack
      && ((forall sp: nat, mem: Memory, r0: Word, frames: seq<Frame> :: MovedBy(p, c, d, ms, n, sp, mem, r0, frames))
          <==> NoClash(ms))
  {
    hide RunCopies, MoveOps, CopyStackSlotsR, Linked, Moved, Steps, Placed, NoClash, EmitAll, PcOf;
    var ms := StackMoves(c.stack, target, i, end);
    CopyIsMove(c, target, i, end, temp);
    var d := CopyStackSlotsR(c, target, i, end, temp).value;
    var ops := MoveOps(ms, temp).value;
    n := |ops|;
    MoveOpsCopies(ms, temp);
    LinkedCopies(p, EmitAll(c, ops), d);
    MovesExact(ms, temp);
    forall sp: nat, mem: Memory, r0: Word, frames: seq<Frame>
      ensures MovedBy(p, c, d, ms, n, sp, mem, r0, frames) <==> Delivers(ops, ms, sp, mem, r0)
    {
      CopiesRun(p, c, ops, Start(c, sp, mem, r0, frames));
      SamePc(EmitAll(c, ops), d);
    }
    if !NoClash(ms) {
      var sp: nat, mem: Memory, r0: Word :| !Delivers(ops, ms, sp, mem, r0);
      assert !MovedBy(p, c, d, ms, n, sp, mem, r0, []);
    }
  }

  /** What is neither a target nor a temporary keeps its content. */
  lemma {:induction false} ParallelMoveFrame(p: Program, c: CState, target: nat, i: nat, end: nat, temp: nat,
                                             s: State, a: nat)
    returns (n: nat)
    requires c.page < |c.pages| && i <= end <= |c.stack| && target + (end - i) <= i
    requires Placed(StackMoves(c.stack, target, i, end), temp) && s.Running? && s.pc == PcOf(c)
    requires CopyStackSlotsR(c, target, i, end, temp).Some? && Linked(p, CopyStackSlotsR(c, target, i, end, temp).value)
    requires a < s.sp + temp
    requires forall k :: 0 <= k < end - i ==> a != s.sp + StackMoves(c.stack, target, i, end)[k].dst
    ensures var t := Steps(p, n, s);
      t.Running? && t.pc == PcOf(CopyStackSlotsR(c, target, i, end, temp).value) && Get(t.mem, a) == Get(s.mem, a)
  {
    hide RunCopies, MoveOps, CopyStackSlotsR, Linked, Steps, Placed, EmitAll, PcOf;
    var ms := StackMoves(c.stack, target, i, end);
    CopyIsMove(c, target, i, end, temp);
    var d := CopyStackSlotsR(c, target, i, end, temp).value;
    var ops := MoveOps(ms, temp).value;
    n := |ops|;
    MoveOpsCopies(ms, temp);
    LinkedCopies(p, EmitAll(c, ops), d);
    CopiesRun(p, c, ops, s);
    SamePc(EmitAll(c, ops), d);
    Untouched(ms, temp, s.sp, s.mem, s.r0, a);
  }

  /** Three values in slots 7, 5 and 5 above their targets 5, 6 and 8. */
  function ClashStack(): seq<Entry> {
    [Entry.Entry(5, I32, false), Entry.Entry(6, I32, false), Entry.Entry(8, I32, false),
     Entry.Entry(7, I32, true), Entry.Entry(5, I32, true), Entry.Entry(5, I32, true)]
  }

  lemma ClashMoves()
    ensures var ms := StackMoves(ClashStack(), 0, 3, 6); Placed(ms, 10) && !NoClash(ms)
  {
    var ms := StackMoves(ClashStack(), 0, 3, 6);
    assert ms == [Move(7, I32, 5), Move(5, I32, 6), Move(5, I32, 8)];
    assert Clash(ms, 0, 1, 2);
  }

  /** Slot 5 is overwritten while two later values still come from it: only the first of them is saved, and from some
      frame the code that CopyStackSlotsR emits loses the other. */
  lemma ClashExample(p: Program, c: CState) returns (n: nat)
    requires c.stack == ClashStack() && c.page < |c.pages|
    requires CopyStackSlotsR(c, 0, 3, 6, 10).Some? ==> Linked(p, CopyStackSlotsR(c, 0, 3, 6, 10).value)
    ensures CopyStackSlotsR(c, 0, 3, 6, 10).Some?
    ensures exists sp: nat, mem: Memory, r0: Word, frames: seq<Frame> ::
      !MovedBy(p, c, CopyStackSlotsR(c, 0, 3, 6, 10).value, StackMoves(c.stack, 0, 3, 6), n, sp, mem, r0, frames)
  {
    hide CopyStackSlotsR, Linked, Placed, NoClash, MovedBy, StackMoves;
    ParallelMoveFits(c, 0, 3, 6, 10);
    ClashMoves();
    n := ParallelMoveExact(p, c, 0, 3, 6, 10);
  }

  /** The move fails only when it runs out of slots for temporaries. */
  lemma {:induction false} ParallelMoveFits(c: CState, target: nat, i: nat, end: nat, temp: nat)
    requires i <= end <= |c.stack| && target + (end - i) <= i && temp + (end - i) <= MAX_FUNCTION_SLOTS
    ensures CopyStackSlotsR(c, target, i, end, temp).Some?
  {
    CopyIsMove(c, target, i, end, temp);
    MovesFit(StackMoves(c.stack, target, i, end), temp);
  }
}
