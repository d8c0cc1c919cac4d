/** Entering and leaving blocks, related to the interpreter. */
module BlockSimulation {
  import opened Words
  import opened Wasm
  import opened Machine
  import opened Allocator
  import opened Compiler
  import opened Invariant
  import opened CompilerInvariant
  import opened BlockInvariant
  import opened Relation
  import opened Control
  import opened Simulation

  // ----- entering -----

  /** What the records of landing slots denote: nothing. */
  function Dead(n: nat): (r: seq<Option<Val>>)
    ensures |r| == n && forall i :: 0 <= i < n ==> r[i] == None
  {
    seq(n, _ => None)
  }

  /** The operands below a block that is being entered. */
  function Inner(mid: seq<Option<Val>>, stack: seq<Val>, results: seq<ValType>): seq<Option<Val>> {
    mid + Somes(stack) + Dead(|results|)
  }

  lemma AtOpened(p: Program, c: CState, kind: ScopeKind, results: seq<ValType>, s: State, locals: seq<Val>,
                 mid: seq<Option<Val>>, stack: seq<Val>)
    requires Inv(c) && Clean(c) && !c.block.polymorphic && |results| <= 1 && kind != FuncScope
    requires ReserveLanding(c, results).Some? && At(p, c, s, locals, mid, stack)
    ensures At(p, Opened(c, kind, results), s, locals, Inner(mid, stack, results), [])
  {
    hide Inv, Clean, ReserveLanding, ConstsHold;
    var d := Opened(c, kind, results);
    OpenedOk(c, kind, results);
    InvFacts(c);
    var vals := Vals(locals, mid, stack);
    assert Vals(locals, Inner(mid, stack, results), []) == vals + Dead(|results|);
    forall i | 0 <= i < |d.stack|
      ensures EntryHolds(d.stack[i], (vals + Dead(|results|))[i], s.sp, s.mem, s.r0)
    {
      if i < |c.stack| {
        assert EntryHolds(c.stack[i], vals[i], s.sp, s.mem, s.r0);
      }
    }
  }

  /** The native frame depths with the new scope's. */
  lemma FramesOpened(c: CState, d: CState, sp: nat, frames: seq<Frame>, depths: seq<nat>)
    requires FramesOk(c, sp, frames, depths) && d.outers == c.outers + [c.block]
    requires d.block.kind == LoopScope ==> depths[0] < |frames| && frames[|frames| - 1] == LoopFrame(d.block.pc, sp)
    ensures FramesOk(d, sp, frames, depths + [|frames|])
  {
    var n := |Scopes(c)|;
    assert forall k :: 0 <= k < n ==> Scopes(d)[k] == Scopes(c)[k];
    var deeper := depths + [|frames|];
    assert forall k :: 0 <= k < n ==> deeper[k] == depths[k];
  }

  lemma EndsOpened(p: Program, c: CState, d: CState)
    requires EndsKnown(p, c) && d.outers == c.outers + [c.block] && d.layout == c.layout
    requires d.block.end in CodeFor(p, c).patched
    ensures EndsKnown(p, d)
  {
    assert forall k :: 0 <= k < |Scopes(c)| ==> Scopes(d)[k] == Scopes(c)[k];
  }

  lemma ReadyOpened(p: Program, c: CState, kind: ScopeKind, results: seq<ValType>, s: State, locals: seq<Val>,
                    mid: seq<Option<Val>>, stack: seq<Val>, depths: seq<nat>)
    requires Ready(p, c, s, locals, mid, stack, depths) && Clean(c) && |results| <= 1 && kind != FuncScope
    requires ReserveLanding(c, results).Some?
    requires c.layout.fn < |p.codes| && c.nextId in CodeFor(p, c).patched
    requires kind == LoopScope ==> depths[0] < |s.frames| && s.frames[|s.frames| - 1] == LoopFrame(PcOf(c), s.sp)
    ensures Ready(p, Opened(c, kind, results), s, locals, Inner(mid, stack, results), [], depths + [|s.frames|])
  {
    hide Inv, Clean, ReserveLanding, At, FramesOk, EndsKnown, PcOf;
    ReadyFacts(p, c, s, locals, mid, stack, depths);
    OpenedOk(c, kind, results);
    AtOpened(p, c, kind, results, s, locals, mid, stack);
    FramesOpened(c, Opened(c, kind, results), s.sp, s.frames, depths);
    EndsOpened(p, c, Opened(c, kind, results));
  }

  // ----- leaving -----

  /** The state that goes on after a block in state `c` whose code ended at the pc of `e`. */
  ghost predicate ExitState(c: CState, results: seq<ValType>, d: CState, e: CState)
    requires |results| <= 1
  {
    && d.layout == c.layout && d.block == c.block && PcOf(d) == PcOf(e)
    && d.stack == c.stack + ResultRecords(c, results)
  }

  /** The results in the landing slots become the operands the block leaves. */
  lemma Arrived(p: Program, c: CState, x: CState, sc: Scope, results: seq<ValType>, d: CState, t: State,
                locals: seq<Val>,
                mid: seq<Option<Val>>, stack: seq<Val>, vs: seq<Val>)
    requires |results| <= 1 && x.layout == c.layout && sc.exit == |c.stack| && sc.results == results
    requires |c.stack| + |results| <= |x.stack| && x.stack[..|c.stack| + |results|] == c.stack + Landing(c, results)
    requires results != [] ==> FreeSlot(c).Some?
    requires Outer(p, x, sc.exit, t, locals, Inner(mid, stack, results)) && AtLanding(p, x, sc, t, vs)
    requires |locals| == |c.layout.locals| && |mid| + |locals| == c.block.base && c.block.base + |stack| == |c.stack|
    requires d.layout == c.layout && d.block == c.block && d.stack == c.stack + ResultRecords(c, results)
    requires TypesOf(vs) == results && t.pc == PcOf(d)
    ensures At(p, d, t, locals, mid, stack + vs)
  {
    var vals := Vals(locals, mid, stack + vs);
    assert vals == Vals(locals, mid, stack) + Somes(vs);
    assert (Somes(locals) + Inner(mid, stack, results))[..sc.exit] == Vals(locals, mid, stack);
    assert c.stack == x.stack[..sc.exit] by {
      assert x.stack[..|c.stack| + |results|][..sc.exit] == x.stack[..sc.exit];
      assert (c.stack + Landing(c, results))[..sc.exit] == c.stack;
    }
    forall i | 0 <= i < |d.stack|
      ensures EntryHolds(d.stack[i], vals[i], t.sp, t.mem, t.r0)
    {
      if i < |c.stack| {
        assert EntryHolds(c.stack[i], Vals(locals, mid, stack)[i], t.sp, t.mem, t.r0);
      } else {
        assert x.stack[i] == x.stack[..|c.stack| + |results|][i];
        assert vals[i] == Some(vs[0]);
        assert TypesOf(vs)[0] == results[0];
      }
    }
  }

  /** Linked code contains the state at the end of a block's body, and its end is patched to where the block leaves. */
  lemma LeaveFacts(p: Program, c: CState, kind: ScopeKind, results: seq<ValType>, done: CState)
    requires Inv(c) && Clean(c) && !c.block.polymorphic && |results| <= 1 && kind != FuncScope
    requires ReserveLanding(c, results).Some? && Done(Opened(c, kind, results), done)
    requires LeaveScope(done, c.block, c.outers).Some? && Linked(p, LeaveScope(done, c.block, c.outers).value)
    ensures var e := LeaveScope(done, c.block, c.outers).value;
      var ready := if done.block.polymorphic then done else ResolveResults(done, done.block, false).value;
      && Linked(p, ready) && PcOf(e) == PcOf(ready) && e.layout == c.layout
      && c.layout.fn < |p.codes| && c.nextId in CodeFor(p, c).patched && CodeFor(p, c).patched[c.nextId] == PcOf(e)
  {
    hide Inv, Clean, ReserveLanding, Ended, Grows, CodeGrows, ResolveResults, PushBlockResults, UnwindStack, PcOf;
    var s := Opened(c, kind, results);
    OpenedOk(c, kind, results);
    EmptiedOk(s, done);
    var ready := if done.block.polymorphic then done else ResolveResults(done, done.block, false).value;
    UnwindOk(ready);
    var empty := UnwindStack(ready).value;
    GoodFacts(ready, empty);
    SamePc(ready, empty);
    var e := LeaveScope(done, c.block, c.outers).value;
    PushedCode(done, empty, results);
    EndUndefined(empty);
    LinkedLeft(p, ready, empty, e, c.block, c.outers);
  }

  lemma SamePc(c: CState, d: CState)
    requires d.pages == c.pages && d.page == c.page && d.layout == c.layout
    ensures PcOf(d) == PcOf(c)
  {
  }

  /** The end of the current block is patched only when it is left. */
  lemma EndUndefined(c: CState)
    requires Inv(c) && |c.outers| > 0
    ensures c.block.end !in c.patched
  {
    assert ScopeOk(c, |c.outers|);
  }

  /** The state whose scope is closed at the end of a block. */
  function Closing(done: CState, empty: CState): Option<CState> {
    if done.block.kind == IfScope || done.block.exit > |empty.stack| then Some(empty)
    else PushBlockResults(empty.(stack := empty.stack[..done.block.exit]), done.block.results)
  }

  /** Pushing results emits nothing. */
  lemma PushedCode(done: CState, empty: CState, results: seq<ValType>)
    requires done.block.results == results && |results| <= 1 && Closing(done, empty).Some?
    ensures var x := Closing(done, empty).value;
      && x.pages == empty.pages && x.page == empty.page && x.layout == empty.layout && x.patched == empty.patched
      && x.consts == empty.consts && empty.maxSlots <= x.maxSlots && PcOf(x) == PcOf(empty)
  {
    if results != [] && done.block.kind != IfScope && done.block.exit <= |empty.stack| {
      var x := empty.(stack := empty.stack[..done.block.exit]);
      assert results[..0] == [] && PushBlockResults(x, results[..0]) == Some(x);
      assert Closing(done, empty) == PushAllocated(x, results[0]);
    }
  }

  lemma LinkedLeft(p: Program, ready: CState, empty: CState, e: CState, block: Scope, outers: seq<Scope>)
    requires Good(ready, empty) && empty.pages == ready.pages && empty.patched == ready.patched
      && PcOf(empty) == PcOf(ready)
    requires Linked(p, e) && empty.block.end !in empty.patched
    requires exists x: CState ::
      && x.pages == empty.pages && x.page == empty.page && x.layout == empty.layout && x.patched == empty.patched
      && x.consts == empty.consts && empty.maxSlots <= x.maxSlots && PcOf(x) == PcOf(empty)
      && e == Define(x, empty.block.end).(block := block, outers := outers)
    ensures Linked(p, ready) && PcOf(e) == PcOf(ready)
    ensures e.layout == ready.layout && e.layout.fn < |p.codes|
    ensures empty.block.end in CodeFor(p, e).patched && CodeFor(p, e).patched[empty.block.end] == PcOf(e)
  {
    var x: CState :|
      && x.pages == empty.pages && x.page == empty.page && x.layout == empty.layout && x.patched == empty.patched
      && x.consts == empty.consts && empty.maxSlots <= x.maxSlots && PcOf(x) == PcOf(empty)
      && e == Define(x, empty.block.end).(block := block, outers := outers);
    assert empty.block.end in e.patched;
    assert forall id <- ready.patched :: id in e.patched && e.patched[id] == ready.patched[id];
  }

  // ----- outcomes of a block seen from outside -----

  /** A landing beyond the block is the same landing seen from the enclosing scope. */
  lemma LandedOut(p: Program, c: CState, kind: ScopeKind, results: seq<ValType>, s: State, n: nat, t: State, k: nat,
                  mid: seq<Option<Val>>, stack: seq<Val>, depths: seq<nat>, locals: seq<Val>, top: seq<Val>)
    requires Inv(c) && Clean(c) && !c.block.polymorphic && |results| <= 1 && kind != FuncScope
    requires ReserveLanding(c, results).Some? && k < |Scopes(c)| == |depths|
    requires |Scopes(Opened(c, kind, results))| == |depths| + 1 && s.Running?
    requires Landed(p, Opened(c, kind, results), s, n, t, k, Inner(mid, stack, results), depths + [|s.frames|],
      locals, top)
    requires |mid| + |c.layout.locals| == c.block.base && |locals| == |c.layout.locals|
    ensures Landed(p, c, s, n, t, k, mid, depths, locals, top)
  {
    hide Inv, Clean, ReserveLanding, StackHolds, ConstsHold, ReturnedWith;
    var d := Opened(c, kind, results);
    OpenedOk(c, kind, results);
    assert Scopes(d)[k] == Scopes(c)[k];
    var sc := Scopes(c)[k];
    ScopeKinds(c, k);
    InvFacts(c);
    if k > 0 {
      ExitBounds(c, k);
      assert d.stack[..sc.exit] == c.stack[..sc.exit];
      assert (Somes(locals) + Inner(mid, stack, results))[..sc.exit] == (Somes(locals) + mid)[..sc.exit];
      if sc.kind != LoopScope && HasTop(top, sc.results) {
        LandingBelow(p, c, d, sc, t, Top(top, |sc.results|));
      }
    }
  }

  lemma LandingBelow(p: Program, c: CState, d: CState, sc: Scope, t: State, vs: seq<Val>)
    requires AtLanding(p, d, sc, t, vs) && c.stack <= d.stack && sc.exit + |sc.results| <= |c.stack|
    ensures AtLanding(p, c, sc, t, vs)
  {
    forall i | 0 <= i < |vs|
      ensures Holds(Get(t.mem, t.sp + c.stack[sc.exit + i].slot), vs[i])
    {
      assert c.stack[sc.exit + i] == d.stack[sc.exit + i];
    }
  }

  lemma DoneGood(o: CState, done: CState)
    requires Done(o, done) && done.block == o.block && !o.block.polymorphic
    ensures Good(o, done)
  {
  }

  lemma LeaveSome(done: CState, outer: Scope, outers: seq<Scope>)
    requires LeaveScope(done, outer, outers).Some?
    ensures done.block.polymorphic || ResolveResults(done, done.block, false).Some?
  {
  }

  lemma ReturnedOut(c: CState, kind: ScopeKind, results: seq<ValType>, depths: seq<nat>, deepest: nat)
    requires Inv(c) && Clean(c) && !c.block.polymorphic && |results| <= 1 && kind != FuncScope
    requires ReserveLanding(c, results).Some? && |depths| == |Scopes(c)|
    ensures Scopes(Opened(c, kind, results))[0] == Scopes(c)[0] && (depths + [deepest])[0] == depths[0]
    ensures |Scopes(Opened(c, kind, results))| == |Scopes(c)| + 1
    ensures Opened(c, kind, results).block == Scopes(Opened(c, kind, results))[|Scopes(c)|]
  {
    hide Inv, Clean, ReserveLanding;
    OpenedOk(c, kind, results);
  }

  /** Advancing inside the block is advancing outside. */
  lemma AdvanceOut(p: Program, c: CState, d: CState, s: State, n: nat, t: State)
    requires d.pages == c.pages && d.layout == c.layout && Advance(p, d, s, n, t)
    ensures Advance(p, c, s, n, t)
  {
  }

  /** The body ended with its results on the operand stack: they move to the landing slots. */
  lemma FallThroughSim(p: Program, c: CState, kind: ScopeKind, results: seq<ValType>, done: CState, d: CState, s: State,
                       n: nat, t: State, locals: seq<Val>, mid: seq<Option<Val>>, stack: seq<Val>, vs: seq<Val>)
    returns (n': nat, t': State)
    requires Inv(c) && Clean(c) && !c.block.polymorphic && |results| <= 1 && kind != FuncScope
    requires ReserveLanding(c, results).Some? && Done(Opened(c, kind, results), done)
    requires LeaveScope(done, c.block, c.outers).Some? && Linked(p, LeaveScope(done, c.block, c.outers).value)
    requires ExitState(c, results, d, LeaveScope(done, c.block, c.outers).value)
    requires done.block == Opened(c, kind, results).block && At(p, done, t, locals, Inner(mid, stack, results), vs)
    requires Advance(p, Opened(c, kind, results), s, n, t) && TypesOf(vs) == results
    requires |locals| == |c.layout.locals| && |mid| + |locals| == c.block.base && c.block.base + |stack| == |c.stack|
    ensures t' == Steps(p, n', s) && At(p, d, t', locals, mid, stack + vs) && Advance(p, c, s, n', t')
  {
    hide Inv, Clean, ReserveLanding, Ended, Grows, ResolveResults, PcOf, Linked, At, Outer, AtLanding, LeaveScope;
    var o := Opened(c, kind, results);
    OpenedOk(c, kind, results);
    ReserveLandingShape(c, results);
    LeaveFacts(p, c, kind, results, done);
    DoneGood(o, done);
    LeaveSome(done, c.block, c.outers);
    EmptiedOk(o, done);
    GoodFacts(o, done);
    GrowsAny(o, done);
    var k := |done.outers|;
    AtSize(p, done, t, locals, Inner(mid, stack, results), vs);
    assert Top(vs, |results|) == vs;
    assert Scopes(done)[k] == done.block;
    OpenedIsInner(c, kind, results);
    var m, u := ResolveSim(p, done, k, false, t, locals, Inner(mid, stack, results), vs);
    DoneStack(c, o, done, results);
    Arrived(p, c, done, done.block, results, d, u, locals, mid, stack, vs);
    AdvanceOut(p, c, o, s, n, t);
    StraightAdvance(p, o, t, m, u);
    AdvanceOut(p, c, o, t, m, u);
    GrowsSelf(c);
    AdvanceTrans(p, c, c, s, n, t, m, u);
    n', t' := n + m, u;
  }

  lemma OpenedIsInner(c: CState, kind: ScopeKind, results: seq<ValType>)
    requires Inv(c) && Clean(c) && !c.block.polymorphic && |results| <= 1 && kind != FuncScope
    requires ReserveLanding(c, results).Some?
    ensures |Opened(c, kind, results).outers| > 0
  {
    hide Inv, Clean, ReserveLanding;
    OpenedOk(c, kind, results);
  }

  /** The body has not touched what lies below it. */
  lemma DoneStack(c: CState, o: CState, done: CState, results: seq<ValType>)
    requires |results| <= 1 && o.stack == c.stack + Landing(c, results) && o.block.base == |o.stack|
    requires GrowsAnyPage(o, done)
    ensures |c.stack| + |results| <= |done.stack|
      && done.stack[..|c.stack| + |results|] == c.stack + Landing(c, results)
  {
    assert o.stack[..o.block.base] == o.stack;
  }

  /** A branch to the end of the block has arrived with the results in the landing slots. */
  lemma BranchedOutSim(p: Program, c: CState, kind: ScopeKind, results: seq<ValType>, done: CState, d: CState, s: State,
                       n: nat, t: State, locals: seq<Val>, mid: seq<Option<Val>>, stack: seq<Val>, top: seq<Val>,
                       depths: seq<nat>)
    requires Inv(c) && Clean(c) && !c.block.polymorphic && |results| <= 1 && kind != FuncScope && kind != LoopScope
    requires ReserveLanding(c, results).Some? && Done(Opened(c, kind, results), done)
    requires LeaveScope(done, c.block, c.outers).Some? && Linked(p, LeaveScope(done, c.block, c.outers).value)
    requires ExitState(c, results, d, LeaveScope(done, c.block, c.outers).value)
    requires |Scopes(Opened(c, kind, results))| == |depths| + 1 && |depths| == |Scopes(c)|
    requires s.Running?
    requires Landed(p, Opened(c, kind, results), s, n, t, |depths|, Inner(mid, stack, results),
      depths + [|s.frames|], locals, top)
    requires HasTop(top, results)
    requires |locals| == |c.layout.locals| && |mid| + |locals| == c.block.base && c.block.base + |stack| == |c.stack|
    ensures t == Steps(p, n, s) && At(p, d, t, locals, mid, stack + Top(top, |results|)) && Advance(p, c, s, n, t)
  {
    hide Inv, Clean, ReserveLanding, Ended, Grows, PcOf, Linked, At, Outer, AtLanding, LeaveScope;
    var o := Opened(c, kind, results);
    OpenedOk(c, kind, results);
    ReserveLandingShape(c, results);
    LeaveFacts(p, c, kind, results, done);
    ReturnedOut(c, kind, results, depths, |s.frames|);
    Arrived(p, c, o, o.block, results, d, t, locals, mid, stack, Top(top, |results|));
    AdvanceOut(p, c, o, s, n, t);
  }

  /** Whatever the body did, the block as a whole did what the interpreter says. */
  lemma LeaveSim(p: Program, c: CState, kind: ScopeKind, results: seq<ValType>, done: CState, d: CState, s: State,
                 n: nat, t: State, mid: seq<Option<Val>>, stack: seq<Val>, depths: seq<nat>, o: Outcome, fuel: nat)
    returns (n': nat, t': State)
    requires Inv(c) && Clean(c) && !c.block.polymorphic && |results| <= 1 && kind != FuncScope
    requires ReserveLanding(c, results).Some? && Done(Opened(c, kind, results), done)
    requires LeaveScope(done, c.block, c.outers).Some? && Linked(p, LeaveScope(done, c.block, c.outers).value)
    requires ExitState(c, results, d, LeaveScope(done, c.block, c.outers).value)
    requires |depths| == |Scopes(c)| && s.Running?
    requires |depths + [|s.frames|]| == |Scopes(Opened(c, kind, results))|
    requires Sim(p, Opened(c, kind, results), done, s, n, t, Inner(mid, stack, results), depths + [|s.frames|], o, fuel)
    requires kind == LoopScope ==> !(o.Branching? && o.depth == 0)
    requires |mid| + |c.layout.locals| == c.block.base && c.block.base + |stack| == |c.stack|
    requires o.Normal? || o.Branching? ==> |o.locals| == |c.layout.locals|
    ensures Sim(p, c, d, s, n', t', mid, depths, LeaveBlock(o, results, stack), fuel)
  {
    hide Inv, Clean, ReserveLanding, Ended, Grows, Linked, At, Advance, Landed, LeaveScope, ReturnedWith, Inner;
    n', t' := n, t;
    if Overflowed(t) {
    } else {
      ReturnedOut(c, kind, results, depths, |s.frames|);
      match o
      case Normal(locals, vs) =>
        if TypesOf(vs) == results {
          n', t' := FallThroughSim(p, c, kind, results, done, d, s, n, t, locals, mid, stack, vs);
        }
      case Branching(j, locals, top) =>
        if j == 0 {
          if HasTop(top, results) {
            BranchedOutSim(p, c, kind, results, done, d, s, n, t, locals, mid, stack, top, depths);
          }
        } else if j - 1 < |Scopes(c)| {
          LandedOut(p, c, kind, results, s, n, t, |Scopes(c)| - j, mid, stack, depths, locals, top);
        }
      case _ =>
    }
  }
}
