/** Forward branches: the words that wait for the end of a block are threaded into a list through the code itself,
    across code pages, one list per open scope, and rewritten in place when the block ends.

    The rest of the model keeps a map from forward references to addresses instead. Here every branch operand also
    remembers which reference it stands for, and the words of the code are shown to hold what that map says.
 */
module PatchList {
  import Machine

  type PC = Machine.PC

  /** One line of code: a null pointer, a code address, or anything else. */
  datatype CodeWord = Null | Address(pc: PC) | Other(value: int)

  /** The code pages of one function; a page's lines are filled from the front. */
  datatype Text = Text(fn: nat, pages: seq<seq<CodeWord>>)
  {
    predicate Has(a: PC) {
      a.fn == fn && a.page < |pages| && a.line < |pages[a.page]|
    }

    function At(a: PC): CodeWord
      requires Has(a)
    {
      pages[a.page][a.line]
    }

    /** `* a = w`. */
    function With(a: PC, w: CodeWord): (t: Text)
      requires Has(a)
      ensures forall b :: t.Has(b) <==> Has(b)
      ensures forall b {:trigger t.At(b)} :: Has(b) ==> t.At(b) == if b == a then w else At(b)
    {
      Text(fn, pages[a.page := pages[a.page][a.line := w]])
    }

    /** The first unused line of a page. */
    function End(page: nat): PC
      requires page < |pages|
    {
      Machine.PC.PC(fn, page, |pages[page]|)
    }

    function Append(page: nat, w: CodeWord): (t: Text)
      requires page < |pages|
      ensures !Has(End(page)) && t.Has(End(page)) && t.At(End(page)) == w
      ensures forall b :: Has(b) ==> t.Has(b)
      ensures forall b :: t.Has(b) ==> b == End(page) || (Has(b) && t.At(b) == At(b))
    {
      Appended(this, page, w);
      Text(fn, pages[page := pages[page] + [w]])
    }
  }

  lemma Appended(t: Text, page: nat, w: CodeWord)
    requires page < |t.pages|
    ensures var u := Text(t.fn, t.pages[page := t.pages[page] + [w]]);
      forall b :: u.Has(b) ==> b == t.End(page) || (t.Has(b) && u.At(b) == t.At(b))
  {
    var u := Text(t.fn, t.pages[page := t.pages[page] + [w]]);
    forall b | u.Has(b) && b != t.End(page)
      ensures t.Has(b) && u.At(b) == t.At(b)
    {
      assert b == Machine.PC.PC(b.fn, b.page, b.line);
    }
  }

  // ----- lists -----

  /** The words at addresses `at`, each holding the address of the next; the last one holds a null pointer. */
  ghost predicate Chain(t: Text, head: CodeWord, at: seq<PC>)
    decreases |at|
  {
    if at == [] then head == Null
    else head == Address(at[0]) && t.Has(at[0]) && Chain(t, t.At(at[0]), at[1..])
  }

  ghost predicate NoDuplicates(at: seq<PC>) {
    forall i, j :: 0 <= i < j < |at| ==> at[i] != at[j]
  }

  /** A list does not notice changes elsewhere. */
  lemma {:induction false} ChainKept(t: Text, u: Text, head: CodeWord, at: seq<PC>)
    requires Chain(t, head, at)
    requires forall a <- at :: t.Has(a) ==> u.Has(a) && u.At(a) == t.At(a)
    ensures Chain(u, head, at)
    decreases |at|
  {
    if at != [] {
      assert at[0] in at;
      ChainKept(t, u, t.At(at[0]), at[1..]);
    }
  }

  lemma {:induction false} ChainInside(t: Text, head: CodeWord, at: seq<PC>)
    requires Chain(t, head, at)
    ensures forall a <- at :: t.Has(a)
    decreases |at|
  {
    if at != [] {
      ChainInside(t, t.At(at[0]), at[1..]);
    }
  }

  /** What patching is: exactly these words become `pc`. */
  ghost predicate Rewritten(t: Text, u: Text, at: seq<PC>, pc: PC) {
    && u.fn == t.fn
    && (forall b :: u.Has(b) <==> t.Has(b))
    && (forall b {:trigger u.At(b)} :: t.Has(b) ==> u.At(b) == if b in at then Address(pc) else t.At(b))
  }

  /** The next word of the list has not been overwritten yet. */
  lemma NextPatch(t: Text, u: Text, head: CodeWord, done: seq<PC>, rest: seq<PC>, pc: PC)
    requires Chain(t, head, rest) && head != Null && NoDuplicates(done + rest) && Rewritten(t, u, done, pc)
    ensures rest != [] && head == Address(rest[0]) && u.Has(rest[0]) && u.At(rest[0]) == t.At(rest[0])
    ensures done + rest == (done + [rest[0]]) + rest[1..] && Chain(t, t.At(rest[0]), rest[1..])
    ensures Rewritten(t, u.With(rest[0], Address(pc)), done + [rest[0]], pc)
  {
    assert forall i :: 0 <= i < |done| ==> (done + rest)[i] == done[i];
    assert (done + rest)[|done|] == rest[0];
    assert forall x :: x in done + [rest[0]] <==> x in done || x == rest[0];
  }

  // ----- references -----

  /** `operands` says which forward reference each branch operand stands for, `ids` are the references to the ends of
      the open scopes, and `patched` maps the references that have been resolved. */
  datatype References = References(operands: map<PC, nat>, ids: seq<nat>, patched: map<nat, PC>, nextId: nat)

  ghost predicate IdsOk(r: References) {
    && (forall i, j :: 0 <= i < j < |r.ids| ==> r.ids[i] != r.ids[j])
    && (forall id <- r.ids :: id < r.nextId && id !in r.patched)
    && (forall id <- r.patched :: id < r.nextId)
    && (forall a <- r.operands :: r.operands[a] < r.nextId)
  }

  /** The word of a resolved operand holds the address the map gives its reference. */
  ghost predicate Resolved(t: Text, r: References) {
    forall a <- r.operands :: t.Has(a) && (r.operands[a] in r.patched ==> t.At(a) == Address(r.patched[r.operands[a]]))
  }

  /** The operands waiting for reference `id` are those of one list, each once. */
  ghost predicate ListOk(t: Text, r: References, head: CodeWord, at: seq<PC>, id: nat) {
    Chain(t, head, at) && NoDuplicates(at) && forall a :: a in at <==> a in r.operands && r.operands[a] == id
  }

  /** The lists of all open scopes, innermost last. */
  ghost predicate Lists(t: Text, r: References, heads: seq<CodeWord>, pending: seq<seq<PC>>) {
    && |heads| == |pending| == |r.ids| && IdsOk(r) && Resolved(t, r)
    && forall k :: 0 <= k < |heads| ==> ListOk(t, r, heads[k], pending[k], r.ids[k])
  }

  lemma ListKept(t: Text, u: Text, r: References, q: References, head: CodeWord, at: seq<PC>, id: nat)
    requires ListOk(t, r, head, at, id)
    requires forall a :: a in r.operands && r.operands[a] == id <==> a in q.operands && q.operands[a] == id
    requires forall a <- at :: t.Has(a) ==> u.Has(a) && u.At(a) == t.At(a)
    ensures ListOk(u, q, head, at, id)
  {
    ChainKept(t, u, head, at);
  }

  /** Another word at the end of a page. */
  lemma {:induction false} ListsGrown(t: Text, r: References, heads: seq<CodeWord>, pending: seq<seq<PC>>, page: nat,
                                      w: CodeWord)
    requires Lists(t, r, heads, pending) && page < |t.pages|
    ensures Lists(t.Append(page, w), r, heads, pending)
  {
    var u := t.Append(page, w);
    forall k | 0 <= k < |heads|
      ensures ListOk(u, r, heads[k], pending[k], r.ids[k])
    {
      assert ListOk(t, r, heads[k], pending[k], r.ids[k]);
      ListKept(t, u, r, r, heads[k], pending[k], r.ids[k]);
    }
  }

  lemma {:induction false} ListsOnNewPage(t: Text, r: References, heads: seq<CodeWord>, pending: seq<seq<PC>>)
    requires Lists(t, r, heads, pending)
    ensures Lists(Text(t.fn, t.pages + [[]]), r, heads, pending)
  {
    var u := Text(t.fn, t.pages + [[]]);
    assert forall a :: t.Has(a) ==> u.Has(a) && u.At(a) == t.At(a);
    forall k | 0 <= k < |heads|
      ensures ListOk(u, r, heads[k], pending[k], r.ids[k])
    {
      assert ListOk(t, r, heads[k], pending[k], r.ids[k]);
      ListKept(t, u, r, r, heads[k], pending[k], r.ids[k]);
    }
  }

  /** A new operand that stands for a reference without a list. */
  lemma {:induction false} ListsReserved(t: Text, r: References, heads: seq<CodeWord>, pending: seq<seq<PC>>, page: nat)
    requires Lists(t, r, heads, pending) && page < |t.pages|
    ensures Lists(t.Append(page, Null), r.(operands := r.operands[t.End(page) := r.nextId], nextId := r.nextId + 1),
      heads, pending)
  {
    var u, a := t.Append(page, Null), t.End(page);
    var q := r.(operands := r.operands[a := r.nextId], nextId := r.nextId + 1);
    assert a !in r.operands;
    forall k | 0 <= k < |heads|
      ensures ListOk(u, q, heads[k], pending[k], q.ids[k])
    {
      assert ListOk(t, r, heads[k], pending[k], r.ids[k]);
      assert r.ids[k] in r.ids;
      ListKept(t, u, r, q, heads[k], pending[k], r.ids[k]);
    }
  }

  /** A new operand at the end of a page joins the list of scope `k`. */
  lemma {:induction false} ListsLinked(t: Text, r: References, heads: seq<CodeWord>, pending: seq<seq<PC>>,
                                       page: nat, k: nat)
    requires Lists(t, r, heads, pending) && page < |t.pages| && k < |heads|
    ensures var a := t.End(page);
      Lists(t.Append(page, heads[k]), r.(operands := r.operands[a := r.ids[k]]), heads[k := Address(a)],
            pending[k := [a] + pending[k]])
  {
    var a := t.End(page);
    var u, q := t.Append(page, heads[k]), r.(operands := r.operands[a := r.ids[k]]);
    var lists := pending[k := [a] + pending[k]];
    assert a !in r.operands;
    assert r.ids[k] in r.ids;
    LinkedList(t, r, heads[k], pending[k], page, r.ids[k]);
    forall i | 0 <= i < |heads|
      ensures ListOk(u, q, heads[k := Address(a)][i], lists[i], q.ids[i])
    {
      if i != k {
        assert ListOk(t, r, heads[i], pending[i], r.ids[i]);
        ListKept(t, u, r, q, heads[i], pending[i], r.ids[i]);
      }
    }
  }

  lemma LinkedList(t: Text, r: References, head: CodeWord, at: seq<PC>, page: nat, id: nat)
    requires ListOk(t, r, head, at, id) && page < |t.pages| && t.End(page) !in r.operands
    ensures var a := t.End(page);
      ListOk(t.Append(page, head), r.(operands := r.operands[a := id]), Address(a), [a] + at, id)
  {
    var a, u := t.End(page), t.Append(page, head);
    var grown := [a] + at;
    assert grown[1..] == at;
    ChainKept(t, u, head, at);
    assert forall x :: x in grown <==> x == a || x in at;
    assert a !in at;
    forall i, j | 0 <= i < j < |grown|
      ensures grown[i] != grown[j]
    {
      assert grown[j] == at[j - 1];
      assert i > 0 ==> grown[i] == at[i - 1];
      assert at[j - 1] in at;
    }
  }

  /** Patching the innermost list resolves its reference and leaves the other lists as they are. */
  lemma {:induction false} ListsPatched(t: Text, u: Text, r: References, heads: seq<CodeWord>, pending: seq<seq<PC>>,
                                        pc: PC)
    requires Lists(t, r, heads, pending) && heads != [] && Rewritten(t, u, pending[|heads| - 1], pc)
    ensures var n := |heads| - 1;
      Lists(u, r.(ids := r.ids[..n], patched := r.patched[r.ids[n] := pc]), heads[..n], pending[..n])
  {
    var n := |heads| - 1;
    var q := r.(ids := r.ids[..n], patched := r.patched[r.ids[n] := pc]);
    assert ListOk(t, r, heads[n], pending[n], r.ids[n]);
    assert r.ids[n] in r.ids;
    ResolvedAfter(t, u, r, pending[n], r.ids[n], pc);
    forall k | 0 <= k < n
      ensures ListOk(u, q, heads[k], pending[k], q.ids[k])
    {
      assert ListOk(t, r, heads[k], pending[k], r.ids[k]);
      ChainInside(t, heads[k], pending[k]);
      ListKept(t, u, r, q, heads[k], pending[k], r.ids[k]);
    }
    assert forall id <- q.ids :: id in r.ids && id != r.ids[n] by {
      forall id | id in q.ids
        ensures id in r.ids && id != r.ids[n]
      {
        var i :| 0 <= i < n && r.ids[..n][i] == id;
        assert r.ids[i] == id;
      }
    }
  }

  lemma ResolvedAfter(t: Text, u: Text, r: References, at: seq<PC>, id: nat, pc: PC)
    requires Resolved(t, r) && Rewritten(t, u, at, pc) && id !in r.patched
    requires forall a :: a in at <==> a in r.operands && r.operands[a] == id
    ensures Resolved(u, r.(patched := r.patched[id := pc]))
  {
  }

  /** Filling in an operand that is the only one to stand for its reference. */
  lemma {:induction false} ListsAssigned(t: Text, r: References, heads: seq<CodeWord>, pending: seq<seq<PC>>, a: PC,
                                         pc: PC)
    requires Lists(t, r, heads, pending) && a in r.operands && t.Has(a)
    requires var id := r.operands[a];
      id !in r.ids && id !in r.patched && forall b <- r.operands :: r.operands[b] == id ==> b == a
    ensures Lists(t.With(a, Address(pc)), r.(patched := r.patched[r.operands[a] := pc]), heads, pending)
  {
    var u, q := t.With(a, Address(pc)), r.(patched := r.patched[r.operands[a] := pc]);
    forall k | 0 <= k < |heads|
      ensures ListOk(u, q, heads[k], pending[k], q.ids[k])
    {
      assert ListOk(t, r, heads[k], pending[k], r.ids[k]);
      assert r.ids[k] in r.ids;
      ListKept(t, u, r, q, heads[k], pending[k], r.ids[k]);
    }
  }

  // ----- the compiler's part -----

  class Patcher {
    const fn: nat
    var pages: seq<seq<CodeWord>>
    var page: nat                       // the page code goes to
    var patches: seq<CodeWord>          // of the enclosing blocks on the native stack, then of o->block
    ghost var pending: seq<seq<PC>>     // the addresses of the words that wait for each block's end
    ghost var refs: References

    constructor (fn: nat)
      ensures Valid() && this.fn == fn && patches == [] && refs == References(map[], [], map[], 0)
    {
      this.fn, pages, page := fn, [[]], 0;
      patches, pending, refs := [], [], References(map[], [], map[], 0);
    }

    function Code(): Text
      reads this
    {
      Text(fn, pages)
    }

    ghost predicate Valid()
      reads this
    {
      page < |pages| && Lists(Code(), refs, patches, pending)
    }

    function GetPC(): PC
      requires page < |pages|
      reads this
    {
      Code().End(page)
    }

    method EmitWord(w: CodeWord)
      requires Valid()
      modifies this`pages
      ensures Valid() && Code() == old(Code().Append(page, w))
    {
      ListsGrown(Code(), refs, patches, pending, page, w);
      pages := pages[page := pages[page] + [w]];
    }

    /** AcquireCompilationCodePage: a page nobody has written to. */
    method AcquireNewPage()
      requires Valid()
      modifies this`pages, this`page
      ensures Valid() && pages == old(pages) + [[]] && page == |old(pages)|
    {
      ListsOnNewPage(Code(), refs, patches, pending);
      page := |pages|;
      pages := pages + [[]];
    }

    /** Going on on another page: one with free lines that is reused, or the page saved before an else arm or the
        code of a br_table target. */
    method SwitchPage(to: nat)
      requires Valid() && to < |pages|
      modifies this`page
      ensures Valid() && page == to
    {
      page := to;
    }

    /** The address operand of a branch out of `depth` blocks: the scope's list so far. */
    method EmitPatchingBranchPointer(depth: nat)
      requires Valid() && depth < |patches|
      modifies this`pages, this`patches, this`pending, this`refs
      ensures Valid()
      ensures |old(patches)| == |old(pending)| == |old(refs).ids|
      ensures var k, a := |old(patches)| - 1 - depth, old(GetPC());
        && Code() == old(Code()).Append(page, old(patches)[k])
        && pending == old(pending)[k := [a] + old(pending)[k]]
        && refs == old(refs).(operands := old(refs).operands[a := old(refs).ids[k]])
    {
      hide Lists;
      LengthsEqual(Code(), refs, patches, pending);
      var k, a := |patches| - 1 - depth, GetPC();
      ListsLinked(Code(), refs, patches, pending, page, k);
      pending, refs := pending[k := [a] + pending[k]], refs.(operands := refs.operands[a := refs.ids[k]]);
      pages := pages[page := pages[page] + [patches[k]]];
      patches := patches[k := Address(a)];
    }

    /** ReservePointer: an operand that is filled in by an assignment of its own. */
    method ReservePointer() returns (a: PC)
      requires Valid()
      modifies this`pages, this`refs
      ensures Valid() && a == old(GetPC()) && Code() == old(Code().Append(page, Null))
      ensures refs == old(refs).(operands := old(refs).operands[a := old(refs).nextId], nextId := old(refs).nextId + 1)
    {
      a := GetPC();
      ListsReserved(Code(), refs, patches, pending, page);
      refs := refs.(operands := refs.operands[a := refs.nextId], nextId := refs.nextId + 1);
      pages := pages[page := pages[page] + [Null]];
    }

    /** `* pc = GetPC (o)`, for the operand of an if without an else or of a branch prologue. */
    method ResolvePointer(a: PC)
      requires Valid() && a in refs.operands
      requires var id := refs.operands[a];
        id !in refs.ids && id !in refs.patched && forall b <- refs.operands :: refs.operands[b] == id ==> b == a
      modifies this`pages, this`refs
      ensures Valid() && page < |old(pages)| && old(Code()).Has(a)
      ensures Code() == old(Code()).With(a, Address(old(GetPC())))
      ensures refs == old(refs).(patched := old(refs).patched[old(refs).operands[a] := old(GetPC())])
    {
      ghost var pc := GetPC();
      assert Code().Has(a);
      ListsAssigned(Code(), refs, patches, pending, a, pc);
      refs := refs.(patched := refs.patched[refs.operands[a] := pc]);
      pages := pages[a.page := pages[a.page][a.line := Address(GetPC())]];
    }

    /** The code holds what the map of resolved references says, so a machine that reads the word of a branch
        operand goes where one that looks its reference up in the map goes. */
    lemma OperandsResolved()
      requires Valid()
      ensures forall a <- refs.operands :: Code().Has(a)
      ensures forall a <- refs.operands :: refs.operands[a] in refs.patched ==>
        Code().At(a) == Address(refs.patched[refs.operands[a]])
      ensures patches == [] ==> forall a <- refs.operands :: refs.operands[a] !in refs.ids
    {
    }

    /** At block end: every word that waits for it, on whatever page, and no other, gets the current address. */
    method PatchBranches()
      requires Valid() && patches != []
      modifies this`pages, this`patches, this`pending, this`refs
      ensures Valid() && page < |old(pages)| && |old(pages)| == |pages|
      ensures |old(patches)| == |old(pending)| == |old(refs).ids|
      ensures var n := |old(patches)| - 1;
        && Rewritten(old(Code()), Code(), old(pending)[n], old(GetPC()))
        && patches == old(patches)[..n] && pending == old(pending)[..n]
        && refs == old(refs).(ids := old(refs).ids[..n], patched := old(refs).patched[old(refs).ids[n] := old(GetPC())])
    {
      hide Lists, Rewritten;
      ghost var was := Code();
      var pc, n := GetPC(), |patches| - 1;
      Innermost(was, refs, patches, pending, pc);
      var at := patches[n];
      ghost var done, rest := [], pending[n];
      while at != Null
        invariant patches == old(patches) && pending == old(pending) && refs == old(refs)
        invariant |pages| == |old(pages)| && Rewritten(was, Code(), done, pc)
        invariant old(pending)[n] == done + rest && NoDuplicates(done + rest) && Chain(was, at, rest)
        decreases |rest|
      {
        NextPatch(was, Code(), at, done, rest, pc);
        var a := at.pc;
        at := pages[a.page][a.line];
        pages := pages[a.page := pages[a.page][a.line := Address(pc)]];
        done, rest := done + [rest[0]], rest[1..];
      }
      assert done == old(pending)[n];
      ListsPatched(was, Code(), refs, patches, pending, pc);
      refs := refs.(ids := refs.ids[..n], patched := refs.patched[refs.ids[n] := pc]);
      patches, pending := patches[..n], pending[..n];
    }

    /** CompileBlock saves o->block, whose list goes on collecting through `outer`; leaving it is PatchBranches and the
        restored `o->block`. */
    method EnterBlock()
      requires Valid()
      modifies this`patches, this`pending, this`refs
      ensures Valid() && patches == old(patches) + [Null] && pending == old(pending) + [[]]
      ensures refs == old(refs).(ids := old(refs).ids + [old(refs).nextId], nextId := old(refs).nextId + 1)
    {
      NewList(Code(), refs, patches, pending);
      patches, pending := patches + [Null], pending + [[]];
      refs := refs.(ids := refs.ids + [refs.nextId], nextId := refs.nextId + 1);
    }
  }

  lemma LengthsEqual(t: Text, r: References, heads: seq<CodeWord>, pending: seq<seq<PC>>)
    requires Lists(t, r, heads, pending)
    ensures |heads| == |pending| == |r.ids|
  {
  }

  lemma Innermost(t: Text, r: References, heads: seq<CodeWord>, pending: seq<seq<PC>>, pc: PC)
    requires Lists(t, r, heads, pending) && heads != []
    ensures |heads| == |pending| == |r.ids|
    ensures Chain(t, heads[|heads| - 1], pending[|heads| - 1]) && NoDuplicates(pending[|heads| - 1])
    ensures pending[|heads| - 1] == [] + pending[|heads| - 1] && Rewritten(t, t, [], pc)
  {
    assert ListOk(t, r, heads[|heads| - 1], pending[|heads| - 1], r.ids[|heads| - 1]);
  }

  lemma NewList(t: Text, r: References, heads: seq<CodeWord>, pending: seq<seq<PC>>)
    requires Lists(t, r, heads, pending)
    ensures Lists(t, r.(ids := r.ids + [r.nextId], nextId := r.nextId + 1), heads + [Null], pending + [[]])
  {
    var q := r.(ids := r.ids + [r.nextId], nextId := r.nextId + 1);
    assert forall i :: 0 <= i < |r.ids| ==> q.ids[i] == r.ids[i] && r.ids[i] in r.ids;
    forall k | 0 <= k < |heads| + 1
      ensures ListOk(t, q, (heads + [Null])[k], (pending + [[]])[k], q.ids[k])
    {
      if k < |heads| {
        assert ListOk(t, r, heads[k], pending[k], r.ids[k]);
        ListKept(t, t, r, q, heads[k], pending[k], r.ids[k]);
      }
    }
  }
}
