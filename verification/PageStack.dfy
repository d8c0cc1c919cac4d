/** The code of one function on several pages at a time: every else arm and every br_table target is compiled on a page
    of its own while the page being written is put aside, to any depth, and taken up again afterwards.
 */
module PageStack {
  import opened CodePages

  /** An operation and its operands. */
  datatype Line = Line(op: CodeWord, operands: seq<CodeWord>)

  predicate Fits(lines: seq<Line>) {
    forall l <- lines :: |l.operands| <= 5
  }

  function Words(lines: seq<Line>): seq<CodeWord> {
    if lines == [] then []
    else Words(lines[..|lines| - 1]) + [lines[|lines| - 1].op] + lines[|lines| - 1].operands
  }

  lemma WordsNext(lines: seq<Line>, line: Line)
    ensures Words(lines + [line]) == Words(lines) + [line.op] + line.operands
  {
    assert (lines + [line])[..|lines|] == lines;
  }

  lemma WordsTo(lines: seq<Line>, i: nat)
    requires i < |lines|
    ensures Words(lines[..i + 1]) == Words(lines[..i]) + [lines[i].op] + lines[i].operands
  {
    assert lines[..i + 1] == lines[..i] + [lines[i]];
    WordsNext(lines[..i], lines[i]);
  }

  lemma StartKept(was: seq<Segment>, now: seq<Segment>)
    requires Grown(was, now)
    ensures was != [] && now != [] && StartOf(now) == StartOf(was)
  {
    assert |was| > 1 ==> now[0] == was[0];
  }

  /** The streams of the first `n` targets have been added, and `starts` is where they start. */
  ghost predicate TargetsDone(was: seq<seq<Segment>>, now: seq<seq<Segment>>, targets: seq<seq<Line>>,
                              starts: seq<CodeWord>, n: nat)
    requires n <= |targets|
  {
    && |now| == |was| + n && now[..|was|] == was && |starts| == n
    && forall j :: 0 <= j < n ==> IsTarget(now[|was| + j], targets[j], starts[j])
  }

  predicate IsTarget(segs: seq<Segment>, lines: seq<Line>, start: CodeWord) {
    segs != [] && Stream(segs) == Words(lines) && start == StartOf(segs)
  }

  lemma OneTarget(was: seq<seq<Segment>>, before: seq<seq<Segment>>, now: seq<seq<Segment>>, targets: seq<seq<Line>>,
                  starts: seq<CodeWord>, start: CodeWord, n: nat)
    requires n < |targets| && TargetsDone(was, before, targets, starts, n)
    requires |now| == |before| + 1 && now[..|before|] == before && IsTarget(now[|before|], targets[n], start)
    ensures TargetsDone(was, now, targets, starts + [start], n + 1)
  {
    hide IsTarget;
    assert forall j :: 0 <= j < |before| ==> now[j] == before[j];
  }

  // ----- several streams on one runtime -----

  ghost function PagesOf(es: seq<Emitter>): set<Page>
    reads es
  {
    set i | 0 <= i < |es| :: es[i].page
  }

  ghost function PagesIn(es: seq<Emitter>): set<Page>
    reads es
  {
    set i, j | 0 <= i < |es| && 0 <= j < |es[i].segs| :: es[i].segs[j].page
  }

  /** Each stream can be written on. */
  ghost predicate Writable(rt: Runtime, es: seq<Emitter>)
    reads rt, rt.open`next, rt.full`next, rt.released`next, es, PagesOf(es)`code, PagesIn(es)`code
  {
    forall i :: 0 <= i < |es| ==> es[i].rt == rt && es[i].Valid()
  }

  /** No two of them write to one page. */
  ghost predicate Distinct(es: seq<Emitter>)
    reads es
  {
    forall i, j :: 0 <= i < j < |es| ==> es[i] != es[j] && es[i].page != es[j].page
  }

  ghost function PagesDone(done: seq<seq<Segment>>): set<Page> {
    set i, j | 0 <= i < |done| && 0 <= j < |done[i]| :: done[i][j].page
  }

  ghost predicate AllBridged(done: seq<seq<Segment>>)
    reads PagesDone(done)`code
  {
    forall i :: 0 <= i < |done| ==> done[i] != [] && Bridged(done[i])
  }

  twostate predicate Untouched(e: Emitter)
    reads e, e.page`code
  {
    e.segs == old(e.segs) && e.page == old(e.page) && e.page.code == old(e.page.code)
  }

  /** Emission on the last of several streams, which leaves the pages of the others alone. */
  twostate predicate LastEmitted(es: seq<Emitter>)
    requires es != []
    reads es, es[|es| - 1].rt, PagesOf(es)`code
  {
    && es[|es| - 1].OthersKept()
    && forall i :: 0 <= i < |es| - 1 ==> Untouched(es[i])
  }

  /** Another stream goes on where it was, whatever the last one has emitted. */
  twostate lemma OtherKept(es: seq<Emitter>, new i: nat)
    requires i < |es| - 1 && LastEmitted(es)
    requires forall q: Page :: old(allocated(q)) ==> old(q.code) <= q.code
    requires old(es[i].Valid())
    requires old(es[i].page != es[|es| - 1].page)
    requires es[|es| - 1].Valid() && es[i].rt == es[|es| - 1].rt
    ensures es[i].Valid() && es[i].page != es[|es| - 1].page
  {
    hide Bridged, Runtime.Valid;
    var e, f := es[|es| - 1], es[i];
    assert Untouched(f);
    StillBridged(f.segs);
    assert f.page in old(e.rt.active) - {old(e.page)};
    assert f.page in e.rt.active - {e.page};
  }

  twostate lemma StreamsKept(es: seq<Emitter>)
    requires es != [] && LastEmitted(es) && es[|es| - 1].Valid()
    requires forall q: Page :: old(allocated(q)) ==> old(q.code) <= q.code
    requires old(Writable(es[|es| - 1].rt, es))
    requires old(Distinct(es))
    ensures Writable(es[|es| - 1].rt, es) && Distinct(es)
  {
    hide Emitter.Valid, Emitter.OthersKept, Untouched;
    var last := |es| - 1;
    forall i | 0 <= i < last
      ensures es[i].rt == es[last].rt && es[i].Valid() && es[i].page != es[last].page
    {
      OtherKept(es, i);
    }
    forall i, j | 0 <= i < j < |es|
      ensures es[i] != es[j] && es[i].page != es[j].page
    {
      if j < last {
        SamePages(es, i, j);
      }
    }
  }

  twostate lemma SamePages(es: seq<Emitter>, new i: nat, new j: nat)
    requires i < j < |es| - 1 && LastEmitted(es)
    requires old(Distinct(es))
    ensures es[i].page != es[j].page
  {
    assert Untouched(es[i]) && Untouched(es[j]);
  }

  twostate lemma StillAllBridged(done: seq<seq<Segment>>)
    requires old(AllBridged(done))
    requires forall q: Page :: old(allocated(q)) ==> old(q.code) <= q.code
    ensures AllBridged(done)
  {
    hide Bridged;
    forall i | 0 <= i < |done|
      ensures done[i] != [] && Bridged(done[i])
    {
      StillBridged(done[i]);
    }
  }

  // ----- accounting -----

  lemma PagesSplit(es: seq<Emitter>, e: Emitter)
    ensures PagesOf(es + [e]) == PagesOf(es) + {e.page}
  {
    var all := es + [e];
    assert all[|es|] == e;
    assert forall i :: 0 <= i < |es| ==> all[i] == es[i];
  }

  lemma OneMore(rt: Runtime, es: seq<Emitter>, e: Emitter)
    requires Writable(rt, es) && Distinct(es) && e.rt == rt && e.Valid()
    requires forall i :: 0 <= i < |es| ==> es[i] != e && es[i].page != e.page
    ensures Writable(rt, es + [e]) && Distinct(es + [e])
  {
    hide Emitter.Valid;
  }

  lemma NoStreams(rt: Runtime)
    ensures Writable(rt, []) && Distinct([]) && AllBridged([]) && PagesOf([]) == {}
  {
  }

  lemma OneLess(rt: Runtime, es: seq<Emitter>, e: Emitter)
    requires Writable(rt, es + [e]) && Distinct(es + [e])
    ensures Writable(rt, es) && Distinct(es) && e.rt == rt && e.Valid()
    ensures forall i :: 0 <= i < |es| ==> es[i] != e && es[i].page != e.page
  {
    hide Emitter.Valid;
    var all := es + [e];
    assert all[|es|] == e;
    forall i | 0 <= i < |es|
      ensures es[i].rt == rt && es[i].Valid() && es[i] != e && es[i].page != e.page
    {
      assert all[i] == es[i];
    }
    forall i, j | 0 <= i < j < |es|
      ensures es[i] != es[j] && es[i].page != es[j].page
    {
      assert all[i] == es[i] && all[j] == es[j];
    }
  }

  lemma MoreBridged(done: seq<seq<Segment>>, segs: seq<Segment>)
    requires AllBridged(done) && segs != [] && Bridged(segs)
    ensures AllBridged(done + [segs])
  {
    hide Bridged;
  }

  lemma ActiveElsewhere(rt: Runtime)
    requires rt.Valid()
    ensures forall p <- rt.active :: p !in Members(rt.open) && p !in Members(rt.released)
  {
    PlacesApart(rt.open, rt.full, rt.released, rt.active);
  }

  lemma WritesActive(e: Emitter)
    requires e.Valid()
    ensures e.page in e.rt.active && e.rt.Valid()
  {
    hide Runtime.Valid, Bridged;
  }

  /** One active page has been replaced. */
  lemma PageReplaced(was: set<Page>, now: set<Page>, others: set<Page>, kept: set<Page>, p: Page, q: Page)
    requires was == others + (kept + {p}) && p !in others && p !in kept
    requires now - {q} == was - {p} && q in now && (q == p || q !in was)
    ensures now == others + (kept + {q}) && q !in others && q !in kept
  {
    assert others + kept == was - {p};
    assert now == (now - {q}) + {q};
  }

  // ----- one compilation -----

  /** What of M3Compilation emits code, and the pages put aside. */
  class CompilationPages {
    const rt: Runtime
    ghost const others: set<Page>      // active pages of other compilations
    var current: Emitter               // writes to `o->page`
    var saved: seq<Emitter>            // write to the pages put aside, outermost first
    ghost var done: seq<seq<Segment>>  // the code of finished arms and targets

    ghost function Streams(): seq<Emitter>
      reads this
    {
      saved + [current]
    }

    ghost predicate Valid()
      reads this, rt, rt.open`next, rt.full`next, rt.released`next, Streams(), PagesOf(Streams())`code
      reads PagesIn(Streams())`code, PagesDone(done)`code
    {
      && Writable(rt, Streams()) && Distinct(Streams()) && AllBridged(done) && Accounted()
    }

    /** The active pages are those being written and those put aside. */
    ghost predicate Accounted()
      reads this, rt, Streams()
    {
      rt.active == others + PagesOf(Streams()) && others !! PagesOf(Streams())
    }

    ghost function Reach(): set<object>
      reads this, current, current.rt
    {
      {this} + current.Reach()
    }

    /** The streams put aside have not changed, nor has what was written on their pages. */
    twostate predicate SavedKept()
      reads this, saved, PagesOf(saved)`code
    {
      && saved == old(saved) && current == old(current) && done == old(done)
      && forall i :: 0 <= i < |saved| ==> Untouched(saved[i])
    }

    /** CompileFunction's page. */
    constructor (runtime: Runtime)
      requires runtime.Valid()
      modifies runtime, runtime.open`next, runtime.released`next
      ensures Valid() && rt == runtime && others == old(runtime.active) && saved == [] && done == []
      ensures fresh(current) && current.Code() == []
      ensures fresh(Reach() - ({runtime} + Members(old(runtime.open)) + Members(old(runtime.released))))
    {
      hide Writable, Distinct, AllBridged, Emitter.Valid, Runtime.Valid, Stream;
      others := runtime.active;
      var e := new Emitter(runtime);
      rt, current, saved, done := runtime, e, [], [];
      new;
      IncludedMembers(old(runtime.open), rt.open);
      IncludedMembers(old(runtime.released), rt.released);
      NoStreams(runtime);
      OneMore(runtime, [], e);
      PagesSplit([], e);
    }

    lemma Undisturbed()
      requires Valid()
      ensures forall i :: 0 <= i < |saved| ==>
        saved[i] != current && saved[i].page !in current.Reach() && saved[i].page in rt.active
      ensures current.Valid() && current.rt == rt && current.page !in PagesOf(saved)
    {
      hide Writable, Distinct, AllBridged, Emitter.Valid, Runtime.Valid;
      StreamFacts();
      OneLess(rt, saved, current);
      ActiveElsewhere(rt);
    }

    lemma Apart()
      requires Valid()
      ensures rt.active == others + (PagesOf(saved) + {current.page})
      ensures current.page !in others && current.page !in PagesOf(saved) && others !! PagesOf(saved)
    {
      hide Writable, AllBridged, Emitter.Valid;
      PagesSplit(saved, current);
      Undisturbed();
    }

    /** Whatever the current stream has emitted, the others go on where they were. */
    twostate lemma Emitted()
      requires old(Valid())
      requires current == old(current) && current.rt == rt && current.Valid() && current.OthersKept()
      requires SavedKept() && done == old(done) && Accounted()
      requires forall q: Page :: old(allocated(q)) ==> old(q.code) <= q.code
      ensures Valid()
    {
      hide Emitter.Valid, Writable, Distinct, AllBridged, Emitter.OthersKept, Untouched;
      var all := Streams();
      assert all[|saved|] == current;
      StreamsKept(all);
      StillAllBridged(done);
    }

    /** After an emission that may have replaced the current page `p`. */
    twostate lemma Settled(new was: set<Page>, new kept: set<Page>, new p: Page)
      requires old(Valid())
      requires was == old(rt.active) == others + (kept + {p}) && p == old(current.page) && p !in others && p !in kept
      requires kept == PagesOf(saved) && others !! kept
      requires current == old(current) && current.rt == rt && current.Valid() && current.OthersKept() && SavedKept()
      requires forall q: Page :: old(allocated(q)) ==> old(q.code) <= q.code
      ensures Valid()
    {
      hide Writable, Distinct, AllBridged, Emitter.Valid, Untouched;
      PagesSplit(saved, current);
      WritesActive(current);
      PageReplaced(was, rt.active, others, kept, p, current.page);
      Emitted();
    }

    /** EmitOp with its operands. */
    method EmitOperation(op: CodeWord, operands: seq<CodeWord>)
      requires Valid() && |operands| <= 5
      modifies current.Reach()
      ensures Valid() && fresh(Reach() - old(Reach())) && SavedKept()
      ensures current.Code() == old(current.Code()) + [op] + operands && Grown(old(current.segs), current.segs)
      ensures forall q: Page :: old(allocated(q)) ==> old(q.code) <= q.code
    {
      hide Writable, Distinct, AllBridged, Emitter.Valid, Stream, Grown;
      Apart();
      Undisturbed();
      ghost var was, kept, p := rt.active, PagesOf(saved), current.page;
      current.EmitOperation(op, operands);
      Settled(was, kept, p);
    }

    method EmitTableHead(op: CodeWord, slot: CodeWord, count: CodeWord, targets: nat)
      requires Valid() && targets > 0
      modifies current.Reach()
      ensures Valid() && fresh(Reach() - old(Reach())) && SavedKept() && current.page.NumFreeLines() >= targets + 2
      ensures current.Code() == old(current.Code()) + [op, slot, count] && Grown(old(current.segs), current.segs)
      ensures forall q: Page :: old(allocated(q)) ==> old(q.code) <= q.code
    {
      hide Writable, Distinct, AllBridged, Emitter.Valid, Stream, Grown;
      Apart();
      Undisturbed();
      ghost var was, kept, p := rt.active, PagesOf(saved), current.page;
      current.EmitTableHead(op, slot, count, targets);
      Settled(was, kept, p);
    }

    /** One more word on the current page, which has been made sure to have room. */
    method EmitPointer(w: CodeWord)
      requires Valid() && current.page.NumFreeLines() >= 3
      modifies current`segs, current.page`code
      ensures Valid() && SavedKept() && current.page == old(current.page) && Reach() == old(Reach())
      ensures current.page.NumFreeLines() == old(current.page.NumFreeLines()) - 1
      ensures current.Code() == old(current.Code()) + [w] && Grown(old(current.segs), current.segs)
      ensures forall q: Page :: old(allocated(q)) ==> old(q.code) <= q.code
    {
      hide Writable, Distinct, AllBridged, Emitter.Valid, Stream, Grown;
      Undisturbed();
      PagesSplit(saved, current);
      current.EmitWord(w);
      assert SavedKept();
      PagesSplit(saved, current);
      Emitted();
    }

    /** Pages are acquired or released, nothing is written. */
    twostate lemma Waiting(es: seq<Emitter>)
      requires old(Writable(rt, es))
      requires rt.Valid() && forall i :: 0 <= i < |es| ==> es[i].page in rt.active && Untouched(es[i])
      requires forall q: Page :: old(allocated(q)) ==> q.code == old(q.code)
      ensures Writable(rt, es)
    {
      hide Runtime.Valid, Bridged;
      forall i | 0 <= i < |es|
        ensures es[i].rt == rt && es[i].Valid()
      {
        StillBridged(es[i].segs);
      }
    }

    lemma StreamFacts()
      requires Valid()
      ensures forall i :: 0 <= i < |saved| ==> saved[i].page in rt.active && saved[i].rt == rt
      ensures forall i :: 0 <= i < |Streams()| ==> Streams()[i].page in rt.active
      ensures Distinct(Streams()) && rt.Valid() && current.page in rt.active && current.rt == rt
    {
      hide Runtime.Valid, Bridged;
      var all := Streams();
      assert all[|saved|] == current;
      forall i | 0 <= i < |saved|
        ensures saved[i].page in rt.active && saved[i].rt == rt
      {
        assert all[i] == saved[i];
      }
    }

    /** A new stream on a page just acquired. */
    twostate lemma ArmStarted()
      requires old(Valid())
      requires saved == old(Streams()) && done == old(done) && forall i :: 0 <= i < |saved| ==> Untouched(saved[i])
      requires forall i :: 0 <= i < |saved| ==> saved[i] != current
      requires current.Valid() && current.rt == rt && rt.Valid()
      requires rt.active == old(rt.active) + {current.page} && current.page !in old(rt.active)
      requires forall q: Page :: old(allocated(q)) ==> q.code == old(q.code)
      ensures Valid()
    {
      hide Writable, Distinct, AllBridged, Emitter.Valid, Runtime.Valid;
      OldStreams();
      Waiting(saved);
      StillAllBridged(done);
      SamePagesOf(saved);
      OneMore(rt, saved, current);
      PagesSplit(saved, current);
    }

    twostate lemma OldStreams()
      requires old(Valid())
      requires saved == old(Streams()) && forall i :: 0 <= i < |saved| ==> Untouched(saved[i])
      ensures Distinct(saved) && forall i :: 0 <= i < |saved| ==> saved[i].page in old(rt.active)
    {
      hide Bridged, Runtime.Valid;
      forall i | 0 <= i < |saved|
        ensures saved[i].page in old(rt.active)
      {
        assert old(Streams())[i] == saved[i];
      }
    }

    twostate lemma SamePagesOf(es: seq<Emitter>)
      requires forall i :: 0 <= i < |es| ==> Untouched(es[i])
      ensures PagesOf(es) == old(PagesOf(es))
    {
      assert forall i :: 0 <= i < |es| ==> es[i].page == old(es[i].page);
    }

    /** `savedPage = o->page; o->page = a page of its own`. */
    method StartArm()
      requires Valid()
      modifies this, rt, rt.open`next, rt.released`next
      ensures Valid() && saved == old(saved) + [old(current)] && done == old(done)
      ensures fresh(current) && fresh(Reach() - old(Reach())) && |current.segs| == 1 && current.Code() == []
    {
      hide Valid, Writable, Distinct, AllBridged, Emitter.Valid, Stream, Runtime.Valid, Includes;
      StreamFacts();
      ghost var open, released := rt.open, rt.released;
      var e := new Emitter(rt);
      IncludedMembers(open, rt.open);
      IncludedMembers(released, rt.released);
      assert e.page in Members(open) || e.page in Members(released) || fresh(e.page);
      saved := saved + [current];
      current := e;
      WritesActive(current);
      ArmStarted();
    }

    /** What is known of the streams put aside, and of the arm about to be closed. */
    ghost predicate Closing()
      reads this, rt, rt.open`next, rt.full`next, rt.released`next, saved, current, PagesOf(saved)`code
      reads PagesIn(saved)`code, PagesDone(done + [current.segs])`code
    {
      && Writable(rt, saved) && Distinct(saved) && AllBridged(done + [current.segs])
      && rt.active - {current.page} == others + PagesOf(saved) && others !! PagesOf(saved)
      && forall i :: 0 <= i < |saved| ==> saved[i].page in rt.active && saved[i].page != current.page
    }

    lemma ReadyToClose()
      requires Valid()
      ensures Closing()
    {
      hide Writable, Distinct, AllBridged, Emitter.Valid, Runtime.Valid, Bridged;
      StreamFacts();
      Apart();
      OneLess(rt, saved, current);
      CurrentBridged();
      MoreBridged(done, current.segs);
    }

    lemma CurrentBridged()
      requires current.Valid()
      ensures current.segs != [] && Bridged(current.segs)
    {
    }

    /** A page is given back whose stream is finished. */
    twostate lemma ArmClosed()
      requires old(Closing())
      requires old(saved) == Streams() && forall i :: 0 <= i < |Streams()| ==> Untouched(Streams()[i])
      requires rt.Valid() && rt.active == old(rt.active) - {old(current.page)} && done == old(done + [current.segs])
      requires forall q: Page :: old(allocated(q)) ==> q.code == old(q.code)
      ensures Valid()
    {
      hide Writable, AllBridged, Emitter.Valid, Runtime.Valid, Bridged;
      var es := Streams();
      Waiting(es);
      StillAllBridged(done);
      SamePagesOf(es);
      assert forall i :: 0 <= i < |es| ==> es[i].page == old(es[i].page);
    }

    /** The arm's page is released and the one put aside taken up again. */
    method CloseArm()
      requires Valid() && saved != []
      modifies this, rt, current.page`next
      ensures Valid() && saved == old(saved[..|saved| - 1]) && current == old(saved[|saved| - 1])
      ensures done == old(done) + [old(current.segs)]
      ensures Reach() <= old(Reach()) + {current, current.page}
    {
      hide Valid, Writable, Distinct, AllBridged, Emitter.Valid, Stream, Runtime.Valid, Bridged;
      StreamFacts();
      ReadyToClose();
      ghost var es := saved;
      FrontMembers(current.page, rt.open);
      rt.ReleaseCodePage(current.page);
      done := done + [current.segs];
      current := saved[|saved| - 1];
      saved := saved[..|saved| - 1];
      assert Streams() == es;
      ArmClosed();
    }

    /** The end of an else arm: a branch to where the page put aside goes on. */
    method FinishElse(branch: CodeWord)
      requires Valid() && saved != []
      modifies Reach()
      ensures Valid() && saved == old(saved[..|saved| - 1]) && current == old(saved[|saved| - 1]) && Untouched(current)
      ensures current.segs != []
      ensures forall i :: 0 <= i < |saved| ==> Untouched(saved[i])
      ensures |done| == |old(done)| + 1 && done[..|old(done)|] == old(done)
      ensures var arm := done[|old(done)|];
        Stream(arm) == old(current.Code()) + [branch] + [EndOf(current.segs)] && Grown(old(current.segs), arm)
      ensures forall q: Page :: old(allocated(q)) ==> old(q.code) <= q.code
    {
      hide Valid, Writable, Distinct, AllBridged, Emitter.Valid, Emitter.Reach, Reach, Stream, Grown;
      var to := saved[|saved| - 1];
      SavedEnd(|saved| - 1);
      InReach();
      EmitOperation(branch, [Address(to.page, |to.page.code|)]);
      InReach();
      CloseArm();
    }

    lemma InReach()
      requires Valid()
      ensures current.Reach() <= Reach() && this in Reach() && rt in Reach() && current in Reach()
      ensures current.page in Reach()
      ensures (forall p <- rt.open :: p in Reach()) && (forall p <- rt.released :: p in Reach())
    {
      Undisturbed();
    }

    lemma SavedEnd(i: nat)
      requires Valid() && i < |saved|
      ensures saved[i].segs != [] && EndOf(saved[i].segs) == Address(saved[i].page, |saved[i].page.code|)
    {
      hide Runtime.Valid, Bridged;
      assert Streams()[i] == saved[i];
    }

    /** All operations of an arm. */
    method EmitLines(lines: seq<Line>)
      requires Valid() && Fits(lines)
      modifies current.Reach()
      ensures Valid() && fresh(Reach() - old(Reach())) && SavedKept()
      ensures current.Code() == old(current.Code()) + Words(lines) && Grown(old(current.segs), current.segs)
      ensures forall q: Page :: old(allocated(q)) ==> old(q.code) <= q.code
    {
      hide Valid, Writable, Distinct, AllBridged, Emitter.Valid, Stream, Grown, Words;
      var i := 0;
      ghost var reach := current.Reach();
      Nothing(lines);
      while i < |lines|
        invariant 0 <= i <= |lines| && Valid() && SavedKept() && fresh(current.Reach() - reach)
        invariant current.Code() == old(current.Code()) + Words(lines[..i]) && Grown(old(current.segs), current.segs)
        invariant forall q: Page :: old(allocated(q)) ==> old(q.code) <= q.code
      {
        ghost var before := current.segs;
        EmitOperation(lines[i].op, lines[i].operands);
        GrownTrans(old(current.segs), before, current.segs);
        WordsTo(lines, i);
        i := i + 1;
      }
      assert lines[..i] == lines;
    }

    lemma Nothing(lines: seq<Line>)
      requires Valid()
      ensures Words(lines[..0]) == [] && Grown(current.segs, current.segs)
    {
      hide Runtime.Valid, Bridged;
      assert Streams()[|saved|] == current;
    }

    /** The code for one target of br_table, on a page of its own, and where it starts. */
    method EmitTarget(lines: seq<Line>) returns (start: CodeWord)
      requires Valid() && Fits(lines)
      modifies Reach()
      ensures Valid() && fresh(Reach() - old(Reach())) && saved == old(saved) && current == old(current)
      ensures Untouched(current) && forall i :: 0 <= i < |saved| ==> Untouched(saved[i])
      ensures |done| == |old(done)| + 1 && done[..|old(done)|] == old(done) && done[|old(done)|] != []
      ensures Stream(done[|old(done)|]) == Words(lines) && start == StartOf(done[|old(done)|])
      ensures forall q: Page :: old(allocated(q)) ==> old(q.code) <= q.code
    {
      hide Valid, Writable, Distinct, AllBridged, Emitter.Valid, Stream, Grown, Words, Reach, Emitter.Reach;
      InReach();
      ghost var streams, reach := saved + [current], Reach();
      StartArm();
      ghost var reach' := Reach();
      FirstStretch();
      start := Address(current.page, |current.page.code|);
      ghost var first := current.segs;
      InReach();
      EmitLines(lines);
      ghost var reach'' := Reach();
      assert forall o <- reach'' :: o in reach' || !old(allocated(o));
      StartKept(first, current.segs);
      InReach();
      CloseArm();
      assert streams == saved + [current];
      assert forall o <- Reach() :: o in reach'' || o in reach;
    }

    lemma FirstStretch()
      requires Valid() && |current.segs| == 1 && current.Code() == []
      ensures StartOf(current.segs) == Address(current.page, |current.page.code|)
    {
      hide Runtime.Valid, Bridged;
      assert Streams()[|saved|] == current;
      assert current.segs == [] + [current.segs[0]];
      StreamNext([], current.segs[0]);
    }

    /** Compile_BranchTable: the table's words stay together on one page, although the code of its targets is emitted
        in between. */
    method EmitBranchTable(op: CodeWord, slot: CodeWord, count: CodeWord, targets: seq<seq<Line>>)
      returns (starts: seq<CodeWord>)
      requires Valid() && targets != [] && forall ls <- targets :: Fits(ls)
      modifies Reach()
      ensures Valid() && SavedButDone()
      ensures current.Code() == old(current.Code()) + [op, slot, count] + starts
      ensures Grown(old(current.segs), current.segs)
      ensures TargetsDone(old(done), done, targets, starts, |targets|)
      ensures forall q: Page :: old(allocated(q)) ==> old(q.code) <= q.code
    {
      hide Valid, Writable, Distinct, AllBridged, Emitter.Valid, Stream, Grown, Words, Reach, Emitter.Reach;
      InReach();
      ghost var reach := Reach();
      EmitTableHead(op, slot, count, |targets|);
      starts := [];
      var i := 0;
      assert current.Code() == old(current.Code()) + [op, slot, count] + starts;
      while i < |targets|
        invariant 0 <= i <= |targets| && Valid() && SavedButDone()
        invariant forall o <- Reach() :: o in reach || !old(allocated(o))
        invariant current.page.NumFreeLines() >= |targets| - i + 2
        invariant current.Code() == old(current.Code()) + [op, slot, count] + starts
        invariant Grown(old(current.segs), current.segs) && TargetsDone(old(done), done, targets, starts, i)
        invariant forall q: Page :: old(allocated(q)) ==> old(q.code) <= q.code
      {
        ghost var before, was := done, current.segs;
        var start := EmitTarget(targets[i]);
        InReach();
        EmitPointer(start);
        GrownTrans(old(current.segs), was, current.segs);
        OneTarget(old(done), before, done, targets, starts, start, i);
        starts := starts + [start];
        i := i + 1;
      }
    }

    twostate predicate SavedButDone()
      reads this, saved, PagesOf(saved)`code
    {
      && saved == old(saved) && current == old(current)
      && forall i :: 0 <= i < |saved| ==> Untouched(saved[i])
    }

    /** The end of CompileFunction: nothing of this compilation stays active. */
    method Finish()
      requires Valid() && saved == []
      modifies this`done, rt, current.page`next
      ensures rt.Valid() && rt.active == others && AllBridged(done) && done == old(done) + [old(current.segs)]
    {
      hide Writable, Distinct, AllBridged, Emitter.Valid, Runtime.Valid, Bridged;
      StreamFacts();
      Apart();
      ReadyToClose();
      rt.ReleaseCodePage(current.page);
      done := done + [current.segs];
      StillAllBridged(done);
    }

    /** The end after an error: only the page being written is released. The pages put aside stay active for good, so
        nothing is lost if and only if there are none. */
    method Abandon()
      requires Valid()
      modifies rt, current.page`next
      ensures rt.Valid() && rt.active == others + PagesOf(saved) && (rt.active == others <==> saved == [])
    {
      hide Writable, Distinct, AllBridged, Emitter.Valid, Runtime.Valid, Bridged;
      StreamFacts();
      Apart();
      rt.ReleaseCodePage(current.page);
      if saved != [] {
        assert saved[0].page in PagesOf(saved);
      }
    }
  }

  // ----- reading -----

  /** Whoever runs an else arm meets its code and then, at the address it ends with, whatever was emitted on the page
      put aside afterwards, bridges on either side notwithstanding. */
  lemma ArmReturns(arm: seq<Segment>, code: seq<CodeWord>, was: seq<Segment>, now: seq<Segment>)
    requires arm != [] && Bridged(arm) && Grown(was, now) && Bridged(now) && Stream(arm) == code + [EndOf(was)]
    ensures Reads(Texts(arm), arm[0].page, arm[0].from, Stream(arm), |arm| - 1)
    ensures |Stream(was)| <= |Stream(now)|
    ensures var back := Stream(arm)[|code|];
      back.Address? && Reads(Texts(now), back.page, back.line, Stream(now)[|Stream(was)|..], |now| - |was|)
  {
    hide Reads, Stream, Bridged, Texts, Grown;
    BridgingTransparent(arm);
    LastStretch(was, now);
    AddressReads(was, now);
  }

  /** An error in an else arm: the page put aside stays active for good, so it is neither open nor full nor released. */
  method LostPage() returns (rt: Runtime, lost: Page)
    ensures rt.Valid() && rt.active == {lost}
  {
    hide CompilationPages.Valid, CompilationPages.Reach, Emitter.Valid, Emitter.Reach, Runtime.Valid;
    rt := new Runtime();
    NoMembers();
    var o := new CompilationPages(rt);
    o.InReach();
    o.StartArm();
    o.InReach();
    lost := o.saved[0].page;
    o.Abandon();
  }

  lemma NoMembers()
    ensures Members([]) == {}
  {
  }
}
