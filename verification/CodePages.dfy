/** Code pages: a runtime's pages are linked into lists of open and full ones or are being written to, the environment
    keeps released ones for reuse, and a compilation that runs out of lines bridges to another page with a branch.
 */
module CodePages {

  const CODE_PAGE_ALIGN_SIZE: nat := 4096
  const FREE_LINES_THRESHOLD: nat := 6
  const HEADER_SIZE: nat := 24   // sizeof (M3CodePageHeader)
  const WORD_SIZE: nat := 8      // sizeof (code_t)

  /** One line of code: an operation, an operand, or a code address. */
  datatype CodeWord = Operation(op: nat) | Operand(value: int) | BranchOp | Address(page: Page, line: nat)

  // ----- sizes -----

  function AlignUp(n: nat): (r: nat)
    ensures n <= r < n + CODE_PAGE_ALIGN_SIZE && r % CODE_PAGE_ALIGN_SIZE == 0
  {
    (n + (CODE_PAGE_ALIGN_SIZE - 1)) / CODE_PAGE_ALIGN_SIZE * CODE_PAGE_ALIGN_SIZE
  }

  /** The lines of a page asked to hold at least `min`: what is left of whole blocks of memory behind the header. */
  function PageLines(min: nat): nat {
    (AlignUp(HEADER_SIZE + WORD_SIZE * min) - HEADER_SIZE) / WORD_SIZE
  }

  /** Enough lines, and less than one block of memory more than needed. */
  lemma PageLinesFit(min: nat)
    ensures min <= PageLines(min) < min + CODE_PAGE_ALIGN_SIZE / WORD_SIZE
    ensures (HEADER_SIZE + WORD_SIZE * PageLines(min)) % CODE_PAGE_ALIGN_SIZE == 0
  {
  }

  // ----- pages -----

  /** A page's lines are filled from the front; `|code|` is the line index. */
  class Page {
    const numLines: nat
    var code: seq<CodeWord>
    var next: Page?

    constructor (lines: nat)
      ensures numLines == lines && code == [] && next == null
    {
      numLines, code, next := lines, [], null;
    }

    function NumFreeLines(): nat
      reads this`code
    {
      if |code| <= numLines then numLines - |code| else 0
    }

    method EmitWord(w: CodeWord)
      requires NumFreeLines() > 0
      modifies this`code
      ensures code == old(code) + [w] && |code| <= numLines
    {
      code := code + [w];
    }
  }

  // ----- lists -----

  /** `head` is the first of the pages linked by `next` in this order. */
  ghost predicate IsList(head: Page?, ps: seq<Page>)
    reads ps`next
  {
    && head == (if ps == [] then null else ps[0])
    && forall i :: 0 <= i < |ps| ==> ps[i].next == if i + 1 < |ps| then ps[i + 1] else null
  }

  ghost predicate NoDuplicates(ps: seq<Page>) {
    forall i, j :: 0 <= i < j < |ps| ==> ps[i] != ps[j]
  }

  ghost function Members(ps: seq<Page>): set<Page> {
    set p | p in ps
  }

  lemma {:induction false} MemberCount(ps: seq<Page>)
    requires NoDuplicates(ps)
    ensures |Members(ps)| == |ps|
    decreases |ps|
  {
    if ps != [] {
      var rest := ps[..|ps| - 1];
      MemberCount(rest);
      assert Members(ps) == Members(rest) + {ps[|ps| - 1]};
    } else {
      assert Members(ps) == {};
    }
  }

  /** The list without its element `i`. */
  ghost function Without(ps: seq<Page>, i: nat): (r: seq<Page>)
    requires i < |ps|
    ensures |r| == |ps| - 1
  {
    ps[..i] + ps[i + 1..]
  }

  lemma {:induction false} WithoutSubset(ps: seq<Page>, i: nat)
    requires i < |ps|
    ensures Includes(ps, Without(ps, i))
  {
  }

  ghost predicate Includes(ps: seq<Page>, qs: seq<Page>) {
    forall p <- qs :: p in ps
  }

  lemma IncludesSelf(ps: seq<Page>)
    ensures Includes(ps, ps)
  {
  }

  lemma IncludedMembers(ps: seq<Page>, qs: seq<Page>)
    requires Includes(ps, qs)
    ensures Members(qs) <= Members(ps)
  {
  }

  lemma FrontMembers(page: Page, ps: seq<Page>)
    ensures Members([page] + ps) == Members(ps) + {page}
  {
    assert forall p :: p in [page] + ps <==> p == page || p in ps;
  }

  lemma {:induction false} WithoutMembers(ps: seq<Page>, i: nat)
    requires i < |ps| && NoDuplicates(ps)
    ensures NoDuplicates(Without(ps, i)) && ps[i] !in Without(ps, i)
    ensures forall p :: p in Without(ps, i) <==> p in ps && p != ps[i]
  {
    var r := Without(ps, i);
    forall p | p in ps && p != ps[i]
      ensures p in r
    {
      var k :| 0 <= k < |ps| && ps[k] == p;
      assert r[if k < i then k else k - 1] == p;
    }
  }

  ghost predicate LinkedAt(ps: seq<Page>, i: nat)
    requires i < |ps|
    reads ps`next
  {
    ps[i].next == if i + 1 < |ps| then ps[i + 1] else null
  }

  /** All links but the one into element `at` are those of the list, and that one skips the element. */
  ghost predicate Skips(ps: seq<Page>, at: nat)
    requires at < |ps|
    reads ps
  {
    && (forall i :: 0 <= i < |ps| && i != at - 1 ==> LinkedAt(ps, i))
    && (at > 0 ==> ps[at - 1].next == if at + 1 < |ps| then ps[at + 1] else null)
  }

  lemma {:induction false} SkipAt(ps: seq<Page>, at: nat, i: nat)
    requires at < |ps| && Skips(ps, at) && i < |ps| - 1
    ensures var r := Without(ps, at); r[i].next == if i + 1 < |r| then r[i + 1] else null
  {
    var k := if i < at then i else i + 1;
    assert Without(ps, at)[i] == ps[k];
    assert k != at - 1 ==> LinkedAt(ps, k);
  }

  /** One link was moved past element `at`. */
  lemma {:induction false} Unlinked(ps: seq<Page>, at: nat, list: Page?)
    requires at < |ps| && Skips(ps, at)
    requires list == if at > 0 then ps[0] else if |ps| > 1 then ps[1] else null
    ensures IsList(list, Without(ps, at))
  {
    hide Skips;
    var r := Without(ps, at);
    forall i | 0 <= i < |r|
      ensures r[i].next == if i + 1 < |r| then r[i + 1] else null
    {
      SkipAt(ps, at, i);
    }
    Chained(list, r);
  }

  lemma LinkAt(head: Page?, ps: seq<Page>, i: nat)
    requires IsList(head, ps) && i < |ps|
    ensures ps[i].next == null <==> i + 1 == |ps|
    ensures i + 1 < |ps| ==> ps[i].next == ps[i + 1]
  {
    assert ps[i].next == if i + 1 < |ps| then ps[i + 1] else null;
  }

  lemma Chained(head: Page?, ps: seq<Page>)
    requires head == if ps == [] then null else ps[0]
    requires forall i :: 0 <= i < |ps| ==> ps[i].next == if i + 1 < |ps| then ps[i + 1] else null
    ensures IsList(head, ps)
  {
  }

  /** None of the first `n` pages has enough free lines. */
  ghost predicate TooFull(ps: seq<Page>, n: nat, min: nat)
    reads ps`code
  {
    forall i :: 0 <= i < n && i < |ps| ==> ps[i].NumFreeLines() < min
  }

  /** The first page with enough free lines, or the length of the list. */
  ghost function FirstWithRoom(ps: seq<Page>, min: nat): (r: nat)
    reads ps`code
    ensures r <= |ps| && TooFull(ps, r, min) && (r < |ps| ==> ps[r].NumFreeLines() >= min)
  {
    if ps == [] || ps[0].NumFreeLines() >= min then 0 else 1 + FirstWithRoom(ps[1..], min)
  }

  lemma FoundFirst(ps: seq<Page>, min: nat, at: nat)
    requires at <= |ps| && TooFull(ps, at, min) && (at < |ps| ==> ps[at].NumFreeLines() >= min)
    ensures FirstWithRoom(ps, min) == at
  {
  }

  /** Unlinks the first page with enough free lines. */
  method RemoveCodePageOfCapacity(head: Page?, ghost ps: seq<Page>, min: nat)
    returns (page: Page?, list: Page?, ghost at: nat)
    requires IsList(head, ps) && NoDuplicates(ps)
    modifies ps`next
    ensures page == null ==> list == head && IsList(list, ps) && TooFull(ps, |ps|, min)
    ensures page != null ==>
      at < |ps| && page == ps[at] && page.NumFreeLines() >= min && TooFull(ps, at, min) && IsList(list, Without(ps, at))
  {
    list, page := head, head;
    var prev: Page? := null;
    at := 0;
    while page != null
      invariant 0 <= at <= |ps| && IsList(head, ps) && list == head
      invariant page == (if at < |ps| then ps[at] else null) && prev == (if at > 0 then ps[at - 1] else null)
      invariant TooFull(ps, at, min)
      decreases |ps| - at
    {
      LinkAt(head, ps, at);
      if page.NumFreeLines() >= min {
        var next := page.next;
        if prev != null {
          prev.next := next;
        } else {
          list := next;
        }
        Unlinked(ps, at, list);
        return;
      }
      prev := page;
      page := page.next;
      at := at + 1;
    }
  }

  lemma PushedMembers(ps: seq<Page>, page: Page)
    requires NoDuplicates(ps) && page !in ps
    ensures NoDuplicates([page] + ps)
  {
    assert forall i :: 0 <= i < |ps| ==> ([page] + ps)[i + 1] == ps[i];
  }

  ghost predicate AllEmpty(ps: seq<Page>, n: nat)
    reads ps`code
  {
    forall i :: 0 <= i < n && i < |ps| ==> ps[i].code == []
  }

  /** A chain hooked in front of another by its last link. */
  lemma ChainsJoined(head: Page?, ps: seq<Page>, front: Page?, qs: seq<Page>)
    requires ps != [] && head == ps[0] && IsList(front, qs)
    requires forall i :: 0 <= i < |ps| ==> ps[i].next == if i + 1 < |ps| then ps[i + 1] else front
    ensures IsList(head, ps + qs)
  {
    var both := ps + qs;
    forall i | 0 <= i < |both|
      ensures both[i].next == if i + 1 < |both| then both[i + 1] else null
    {
      if i >= |ps| {
        LinkAt(front, qs, i - |ps|);
        assert both[i] == qs[i - |ps|];
        assert i + 1 < |both| ==> both[i + 1] == qs[i + 1 - |ps|];
      } else {
        assert ps[i].next == if i + 1 < |ps| then ps[i + 1] else front;
        assert i + 1 == |ps| && qs != [] ==> both[i + 1] == qs[0] == front;
      }
    }
    Chained(head, both);
  }

  /** Environment_ReleaseCodePages: resets the pages of a list and puts them in front of the released ones. */
  method ReleaseCodePages(list: Page?, ghost ps: seq<Page>, released: Page?, ghost qs: seq<Page>) returns (head: Page?)
    requires IsList(list, ps) && IsList(released, qs) && NoDuplicates(ps) && Apart(ps, qs)
    modifies ps`next, ps`code
    ensures IsList(head, ps + qs) && AllEmpty(ps, |ps|)
  {
    if list == null {
      assert ps + qs == qs;
      return released;
    }
    var end := list;
    ghost var i := 0;
    end.code := [];
    while end.next != null
      invariant 0 <= i < |ps| && end == ps[i] && IsList(list, ps) && IsList(released, qs) && AllEmpty(ps, i + 1)
      decreases |ps| - i
    {
      LinkAt(list, ps, i);
      end := end.next;
      end.code := [];
      i := i + 1;
    }
    LinkAt(list, ps, i);
    end.next := released;
    ChainsJoined(list, ps, released, qs);
    return list;
  }

  /** One list after the other. */
  method ReleaseTwice(list: Page?, ghost ps: seq<Page>, list': Page?, ghost ps': seq<Page>, released: Page?,
                      ghost qs: seq<Page>)
    returns (head: Page?)
    requires IsList(list, ps) && IsList(list', ps') && IsList(released, qs) && NoDuplicates(ps) && NoDuplicates(ps')
    requires Apart(ps, qs) && Apart(ps', ps + qs)
    modifies ps`next, ps`code, ps'`next, ps'`code
    ensures IsList(head, ps' + (ps + qs)) && AllEmpty(ps, |ps|) && AllEmpty(ps', |ps'|)
  {
    assert Apart(ps', ps) by {
      forall i, j | 0 <= i < |ps'| && 0 <= j < |ps|
        ensures ps'[i] != ps[j]
      {
        assert (ps + qs)[j] == ps[j];
      }
    }
    head := ReleaseCodePages(list, ps, released, qs);
    head := ReleaseCodePages(list', ps', head, ps + qs);
  }

  /** The page that stood at place `i` has left the list. */
  ghost predicate IsFirst(page: Page, was: seq<Page>, now: seq<Page>, i: nat) {
    i < |was| && page == was[i] && now == Without(was, i)
  }

  // ----- a runtime's pages -----

  /** No page is in two places, or twice on a list. */
  ghost predicate Places(open: seq<Page>, full: seq<Page>, released: seq<Page>, active: set<Page>) {
    && NoDuplicates(open) && NoDuplicates(full) && NoDuplicates(released)
    && (forall p <- open :: p !in full && p !in released && p !in active)
    && (forall p <- full :: p !in released && p !in active)
    && (forall p <- released :: p !in active)
  }

  lemma PlacesApart(open: seq<Page>, full: seq<Page>, released: seq<Page>, active: set<Page>)
    requires Places(open, full, released, active)
    ensures NoDuplicates(open) && NoDuplicates(full) && NoDuplicates(released)
    ensures Apart(open, full) && Apart(open, released) && Apart(full, released)
    ensures forall p :: p in active ==> p !in open && p !in full && p !in released
  {
    assert forall i :: 0 <= i < |open| ==> open[i] in open;
    assert forall i :: 0 <= i < |full| ==> full[i] in full;
    assert forall i :: 0 <= i < |released| ==> released[i] in released;
  }

  /** Relinking one list leaves the two others alone. */
  lemma OthersApart(open: seq<Page>, full: seq<Page>, released: seq<Page>, active: set<Page>)
    requires Places(open, full, released, active)
    ensures NoDuplicates(open) && NoDuplicates(released) && Apart(full, open) && Apart(released, open)
    ensures Apart(full, released) && Apart(open, released)
  {
    PlacesApart(open, full, released, active);
  }

  /** Elementwise, as frames need it. */
  ghost predicate Apart(ps: seq<Page>, qs: seq<Page>) {
    forall i, j :: 0 <= i < |ps| && 0 <= j < |qs| ==> ps[i] != qs[j]
  }

  lemma PlacesTaken(open: seq<Page>, full: seq<Page>, released: seq<Page>, active: set<Page>, at: nat)
    requires Places(open, full, released, active)
    ensures at < |open| ==> Places(Without(open, at), full, released, active + {open[at]}) && open[at] !in active
                            && |Without(open, at)| == |open| - 1
    ensures at < |released| ==>
      Places(open, full, Without(released, at), active + {released[at]}) && released[at] !in active
  {
    if at < |open| {
      WithoutMembers(open, at);
    }
    if at < |released| {
      WithoutMembers(released, at);
    }
  }

  lemma PlacesNew(open: seq<Page>, full: seq<Page>, released: seq<Page>, active: set<Page>, page: Page)
    requires Places(open, full, released, active) && page !in open && page !in full && page !in released
    ensures Places(open, full, released, active + {page})
  {
  }

  lemma PlacesPut(open: seq<Page>, full: seq<Page>, released: seq<Page>, active: set<Page>, page: Page)
    requires Places(open, full, released, active) && page in active
    ensures Places([page] + open, full, released, active - {page})
      && Places(open, [page] + full, released, active - {page})
  {
    PushedMembers(open, page);
    PushedMembers(full, page);
  }

  /** A page put in front of a chain. */
  lemma ChainedFront(head: Page?, ps: seq<Page>, page: Page)
    requires IsList(head, ps) && page.next == head
    ensures IsList(page, [page] + ps)
  {
    var longer := [page] + ps;
    forall i | 0 <= i < |longer|
      ensures longer[i].next == if i + 1 < |longer| then longer[i + 1] else null
    {
      if i > 0 {
        assert longer[i] == ps[i - 1];
        assert ps[i - 1].next == if i < |ps| then ps[i] else null;
      } else {
        assert longer[0] == page && page.next == if ps == [] then null else ps[0];
      }
    }
    Chained(page, longer);
  }

  /** The code pages of one runtime, and the environment's released ones. */
  class Runtime {
    var pagesOpen: Page?
    var pagesFull: Page?
    var pagesReleased: Page?
    var numCodePages: nat
    var numActiveCodePages: nat
    ghost var open: seq<Page>
    ghost var full: seq<Page>
    ghost var released: seq<Page>
    ghost var active: set<Page>

    constructor ()
      ensures Valid() && open == full == released == [] && active == {}
    {
      pagesOpen, pagesFull, pagesReleased := null, null, null;
      numCodePages, numActiveCodePages := 0, 0;
      open, full, released, active := [], [], [], {};
    }

    /** Every page is in exactly one place, the lists are acyclic chains, the counters are the numbers of pages. */
    ghost predicate Valid()
      reads this, open`next, full`next, released`next
    {
      IsList(pagesOpen, open) && IsList(pagesFull, full) && IsList(pagesReleased, released) && Counted()
    }

    ghost predicate Counted()
      reads this
    {
      && Places(open, full, released, active)
      && numActiveCodePages == |active|
      && numCodePages == |open| + |full| + |active|
    }

    /** The accounting identity the source asserts when a page is released: the counters are numbers of distinct
        pages. */
    lemma Conserved()
      requires Valid()
      ensures |open| + |full| + numActiveCodePages == numCodePages == |Members(open) + Members(full) + active|
    {
      MemberCount(open);
      MemberCount(full);
    }

    /** Links a page in front of the open or the full list, by the lines it has left. */
    method ReleaseCodePage(page: Page)
      requires Valid() && page in active
      modifies this, page`next
      ensures Valid() && active == old(active) - {page} && released == old(released)
        && numCodePages == old(numCodePages)
      ensures if page.NumFreeLines() < FREE_LINES_THRESHOLD then full == [page] + old(full) && open == old(open)
              else open == [page] + old(open) && full == old(full)
    {
      hide Places, IsList, NoDuplicates;
      PlacesApart(open, full, released, active);
      PlacesPut(open, full, released, active, page);
      if page.NumFreeLines() < FREE_LINES_THRESHOLD {
        page.next := pagesFull;
        ChainedFront(pagesFull, full, page);
        pagesFull := page;
        full := [page] + full;
      } else {
        page.next := pagesOpen;
        ChainedFront(pagesOpen, open, page);
        pagesOpen := page;
        open := [page] + open;
      }
      active := active - {page};
      numActiveCodePages := numActiveCodePages - 1;
    }

    /** The first open page with room. */
    method TakeOpen(min: nat) returns (page: Page?)
      requires Valid()
      modifies this, open`next
      ensures Valid() && full == old(full) && released == old(released) && numCodePages == old(numCodePages)
      ensures page == null ==> open == old(open) && active == old(active) && old(FirstWithRoom(open, min)) == |open|
      ensures page != null ==> page.NumFreeLines() >= min && active == old(active) + {page}
      ensures page != null ==> IsFirst(page, old(open), open, old(FirstWithRoom(open, min)))
      ensures Includes(old(open), open)
    {
      hide Places, IsList, NoDuplicates, TooFull, Without, Includes, FirstWithRoom;
      var list;
      ghost var at;
      OthersApart(open, full, released, active);
      IncludesSelf(open);
      page, list, at := RemoveCodePageOfCapacity(pagesOpen, open, min);
      FoundFirst(open, min, if page == null then |open| else at);
      if page != null {
        AdoptOpen(page, list, at);
      }
    }

    /** The bookkeeping for a page that was just unlinked from the open ones. */
    method AdoptOpen(page: Page, list: Page?, ghost at: nat)
      requires Counted() && IsList(pagesReleased, released) && IsList(pagesFull, full)
      requires at < |open| && page == open[at] && IsList(list, Without(open, at))
      modifies this
      ensures Valid() && full == old(full) && released == old(released) && active == old(active) + {page}
      ensures IsFirst(page, old(open), open, at) && Includes(old(open), open) && numCodePages == old(numCodePages)
    {
      hide Places, IsList, NoDuplicates, Without, Includes;
      PlacesTaken(open, full, released, active, at);
      WithoutSubset(open, at);
      assert page in open;
      pagesOpen := list;
      open := Without(open, at);
      active := active + {page};
      numActiveCodePages := numActiveCodePages + 1;
    }

    /** The first released page with room, which the runtime then counts as its own. */
    method TakeReleased(min: nat) returns (page: Page?)
      requires Valid()
      modifies this, released`next
      ensures Valid() && full == old(full) && open == old(open)
      ensures numCodePages == old(numCodePages) + if page == null then 0 else 1
      ensures page == null ==> released == old(released) && active == old(active)
      ensures page == null ==> old(FirstWithRoom(released, min)) == |released|
      ensures page != null ==> page.NumFreeLines() >= min && active == old(active) + {page}
      ensures page != null ==> IsFirst(page, old(released), released, old(FirstWithRoom(released, min)))
      ensures Includes(old(released), released)
    {
      hide Places, IsList, NoDuplicates, TooFull, Without, Includes, FirstWithRoom;
      var list;
      ghost var at;
      OthersApart(open, full, released, active);
      IncludesSelf(released);
      page, list, at := RemoveCodePageOfCapacity(pagesReleased, released, min);
      FoundFirst(released, min, if page == null then |released| else at);
      if page != null {
        AdoptReleased(page, list, at);
      }
    }

    /** The bookkeeping for a page that was just unlinked from the released ones. */
    method AdoptReleased(page: Page, list: Page?, ghost at: nat)
      requires Counted() && IsList(pagesOpen, open) && IsList(pagesFull, full)
      requires at < |released| && page == released[at] && IsList(list, Without(released, at))
      modifies this
      ensures Valid() && full == old(full) && open == old(open) && active == old(active) + {page}
      ensures IsFirst(page, old(released), released, at) && Includes(old(released), released)
        && numCodePages == old(numCodePages) + 1
    {
      hide Places, IsList, NoDuplicates, Without, Includes;
      PlacesTaken(open, full, released, active, at);
      WithoutSubset(released, at);
      assert page in released;
      pagesReleased := list;
      released := Without(released, at);
      active := active + {page};
      numActiveCodePages := numActiveCodePages + 1;
      numCodePages := numCodePages + 1;
    }

    /** The first open page with room; else the first released one, which the runtime then counts as its own; only when
        there is neither a new one. */
    method AcquireCodePageWithCapacity(min: nat) returns (page: Page)
      requires Valid()
      modifies this, open`next, released`next
      ensures Valid() && active == old(active) + {page} && page !in old(active)
      ensures page.NumFreeLines() >= min && full == old(full)
      ensures var i, j := old(FirstWithRoom(open, min)), old(FirstWithRoom(released, min));
        if i < |old(open)| then
          IsFirst(page, old(open), open, i) && released == old(released) && numCodePages == old(numCodePages)
        else if j < |old(released)| then
          IsFirst(page, old(released), released, j) && open == old(open) && numCodePages == old(numCodePages) + 1
        else
          fresh(page) && page.code == [] && page.numLines == PageLines(min) && open == old(open)
          && released == old(released) && numCodePages == old(numCodePages) + 1
      ensures page in old(open) || page in old(released) || (fresh(page) && page.code == [])
      ensures Includes(old(open), open) && Includes(old(released), released)
    {
      hide Places, IsList, NoDuplicates, TooFull, Without, FirstWithRoom;
      PlacesApart(open, full, released, active);
      ghost var j := FirstWithRoom(released, min);
      var found := TakeOpen(min);
      if found == null {
        assert FirstWithRoom(released, min) == j;
        found := TakeReleased(min);
      }
      if found != null {
        page := found;
      } else {
        PageLinesFit(min);
        page := new Page(PageLines(min));
        AdoptNew(page);
      }
    }

    method AdoptNew(page: Page)
      requires Valid() && page !in open && page !in full && page !in released && page !in active
      modifies this
      ensures Valid() && full == old(full) && open == old(open) && released == old(released)
        && active == old(active) + {page} && numCodePages == old(numCodePages) + 1
    {
      hide Places, IsList;
      PlacesNew(open, full, released, active, page);
      active := active + {page};
      numActiveCodePages := numActiveCodePages + 1;
      numCodePages := numCodePages + 1;
    }

    /** Runtime_Release, when no compilation is active: all pages go back to the environment, empty, none is lost
        and none is there twice. */
    method Release()
      requires Valid() && active == {}
      modifies this, open`next, open`code, full`next, full`code
      ensures Valid() && open == full == [] && released == old(full) + (old(open) + old(released))
      ensures |released| == old(numCodePages) + |old(released)|
      ensures AllEmpty(old(open), |old(open)|) && AllEmpty(old(full), |old(full)|)
    {
      hide Places, IsList, AllEmpty, NoDuplicates, Apart;
      ghost var o, f, r := open, full, released;
      PlacesApart(o, f, r, {});
      PlacesJoined(o, f, r);
      pagesReleased := ReleaseTwice(pagesOpen, o, pagesFull, f, pagesReleased, r);
      pagesOpen, pagesFull, numCodePages := null, null, 0;
      open, full, released := [], [], f + (o + r);
      NoPages();
    }
  }

  lemma NoPages()
    ensures IsList(null, [])
  {
  }

  lemma PlacesJoined(open: seq<Page>, full: seq<Page>, released: seq<Page>)
    requires Places(open, full, released, {})
    ensures Places([], [], full + (open + released), {}) && Apart(full, open + released)
  {
    PlacesApart(open, full, released, {});
    forall i, j | 0 <= i < |full| && 0 <= j < |open + released|
      ensures full[i] != (open + released)[j]
    {
      if j >= |open| {
        assert (open + released)[j] == released[j - |open|];
      }
    }
  }

  // ----- one compilation's stream of code -----

  /** A stretch of one page that belongs to the code of a function, and the words on it. */
  datatype Segment = Segment(page: Page, from: nat, words: seq<CodeWord>)
  {
    function End(): nat {
      from + |words|
    }
  }

  function StartOf(segs: seq<Segment>): CodeWord
    requires segs != []
  {
    Address(segs[0].page, segs[0].from)
  }

  /** The address behind what has been emitted so far: GetPagePC. */
  function EndOf(segs: seq<Segment>): CodeWord
    requires segs != []
  {
    Address(segs[|segs| - 1].page, segs[|segs| - 1].End())
  }

  predicate Written(code: seq<CodeWord>, seg: Segment) {
    seg.End() <= |code| && code[seg.from..seg.End()] == seg.words
  }

  /** Behind the stretch there is a branch to the beginning of the next one. */
  predicate BridgesTo(code: seq<CodeWord>, seg: Segment, next: Segment) {
    seg.End() + 2 <= |code| && code[seg.End()] == BranchOp && code[seg.End() + 1] == Address(next.page, next.from)
  }

  /** What a reader that follows the bridges sees: one unbounded page. */
  function Stream(segs: seq<Segment>): seq<CodeWord> {
    if segs == [] then [] else Stream(segs[..|segs| - 1]) + segs[|segs| - 1].words
  }

  ghost predicate Bridged(segs: seq<Segment>)
    reads set i | 0 <= i < |segs| :: segs[i].page`code
  {
    forall i :: 0 <= i < |segs| ==>
      && Written(segs[i].page.code, segs[i])
      && (i + 1 < |segs| ==> BridgesTo(segs[i].page.code, segs[i], segs[i + 1]))
  }

  /** Code pages only grow, so what was bridged stays bridged. */
  twostate lemma StillBridged(segs: seq<Segment>)
    requires old(Bridged(segs))
    requires forall i :: 0 <= i < |segs| ==> old(segs[i].page.code) <= segs[i].page.code
    ensures Bridged(segs)
  {
    forall i | 0 <= i < |segs|
      ensures && Written(segs[i].page.code, segs[i])
              && (i + 1 < |segs| ==> BridgesTo(segs[i].page.code, segs[i], segs[i + 1]))
    {
      var was, now := old(segs[i].page.code), segs[i].page.code;
      assert now[..|was|] == was;
      assert now[segs[i].from..segs[i].End()] == was[segs[i].from..segs[i].End()];
    }
  }

  lemma StreamNext(segs: seq<Segment>, seg: Segment)
    ensures Stream(segs + [seg]) == Stream(segs) + seg.words
  {
    assert (segs + [seg])[..|segs|] == segs;
  }

  /** One more word on the last stretch. */
  lemma StreamGrows(segs: seq<Segment>, w: CodeWord)
    requires segs != []
    ensures var n := |segs| - 1;
      Stream(segs[n := segs[n].(words := segs[n].words + [w])]) == Stream(segs) + [w]
  {
    var n := |segs| - 1;
    var seg := segs[n].(words := segs[n].words + [w]);
    assert segs[n := seg] == segs[..n] + [seg];
    StreamNext(segs[..n], seg);
  }

  lemma LastWritten(segs: seq<Segment>)
    requires segs != [] && Bridged(segs)
    ensures Written(segs[|segs| - 1].page.code, segs[|segs| - 1])
  {
  }

  /** The last stretch extended by the word that was just written behind it. */
  lemma BridgedGrows(segs: seq<Segment>, w: CodeWord)
    requires segs != [] && Bridged(segs)
    requires var last := segs[|segs| - 1]; last.End() + 1 <= |last.page.code| && last.page.code[last.End()] == w
    ensures var n := |segs| - 1; Bridged(segs[n := segs[n].(words := segs[n].words + [w])])
  {
    var n := |segs| - 1;
    var last := segs[n];
    assert last.page.code[last.from..last.End() + 1] == last.page.code[last.from..last.End()] + [w];
  }

  /** A new stretch behind a bridge. */
  lemma BridgedOn(segs: seq<Segment>, next: Segment)
    requires segs != [] && Bridged(segs) && BridgesTo(segs[|segs| - 1].page.code, segs[|segs| - 1], next)
    requires Written(next.page.code, next)
    ensures Bridged(segs + [next])
  {
    var longer := segs + [next];
    forall i | 0 <= i < |longer|
      ensures && Written(longer[i].page.code, longer[i])
              && (i + 1 < |longer| ==> BridgesTo(longer[i].page.code, longer[i], longer[i + 1]))
    {
      if i < |segs| {
        assert longer[i] == segs[i];
      }
    }
  }

  // ----- the reader -----

  ghost function Texts(segs: seq<Segment>): (t: map<Page, seq<CodeWord>>)
    reads set i | 0 <= i < |segs| :: segs[i].page`code
    ensures forall i :: 0 <= i < |segs| ==> segs[i].page in t && t[segs[i].page] == segs[i].page.code
  {
    map i | 0 <= i < |segs| :: segs[i].page := segs[i].page.code
  }

  /** Reading on from a code address one meets `ws`, following at most `hops` branches on the way. */
  ghost predicate Reads(t: map<Page, seq<CodeWord>>, page: Page, line: nat, ws: seq<CodeWord>, hops: nat)
    decreases |ws|, hops
  {
    || ws == []
    || (page in t && line < |t[page]| && t[page][line] == ws[0] && Reads(t, page, line + 1, ws[1..], hops))
    || (page in t && hops > 0 && line + 1 < |t[page]| && t[page][line] == BranchOp && t[page][line + 1].Address?
        && Reads(t, t[page][line + 1].page, t[page][line + 1].line, ws, hops - 1))
  }

  function StreamFrom(segs: seq<Segment>, i: nat): seq<CodeWord>
    requires i <= |segs|
    decreases |segs| - i
  {
    if i == |segs| then [] else segs[i].words + StreamFrom(segs, i + 1)
  }

  lemma {:induction false} StreamSplits(segs: seq<Segment>, i: nat)
    requires i <= |segs|
    ensures Stream(segs) == Stream(segs[..i]) + StreamFrom(segs, i)
    decreases |segs| - i
  {
    hide Stream;
    if i == |segs| {
      assert segs[..i] == segs;
    } else {
      StreamSplits(segs, i + 1);
      assert segs[..i + 1] == segs[..i] + [segs[i]];
      StreamNext(segs[..i], segs[i]);
      var before, words, after := Stream(segs[..i]), segs[i].words, StreamFrom(segs, i + 1);
      assert before + (words + after) == (before + words) + after;
    }
  }

  ghost predicate BridgedIn(t: map<Page, seq<CodeWord>>, segs: seq<Segment>) {
    forall i :: 0 <= i < |segs| ==>
      && segs[i].page in t && Written(t[segs[i].page], segs[i])
      && (i + 1 < |segs| ==> BridgesTo(t[segs[i].page], segs[i], segs[i + 1]))
  }

  /** One word read in the middle of a stretch. */
  lemma {:induction false} ReadWord(t: map<Page, seq<CodeWord>>, seg: Segment, j: nat, rest: seq<CodeWord>, hops: nat)
    requires seg.page in t && Written(t[seg.page], seg) && j < |seg.words|
    requires Reads(t, seg.page, seg.from + j + 1, seg.words[j + 1..] + rest, hops)
    ensures Reads(t, seg.page, seg.from + j, seg.words[j..] + rest, hops)
  {
    var ws := seg.words[j..] + rest;
    assert ws[1..] == seg.words[j + 1..] + rest;
    assert t[seg.page][seg.from..seg.End()][j] == seg.words[j];
  }

  lemma {:induction false} ReadsFrom(t: map<Page, seq<CodeWord>>, segs: seq<Segment>, i: nat, j: nat)
    requires BridgedIn(t, segs) && i < |segs| && j <= |segs[i].words|
    ensures Reads(t, segs[i].page, segs[i].from + j, segs[i].words[j..] + StreamFrom(segs, i + 1), |segs| - 1 - i)
    decreases |segs| - i, |segs[i].words| - j
  {
    hide Reads, BridgesTo, Written, StreamFrom, BridgedIn;
    var seg := segs[i];
    StretchIn(t, segs, i);
    if j < |seg.words| {
      ReadsFrom(t, segs, i, j + 1);
      ReadWord(t, seg, j, StreamFrom(segs, i + 1), |segs| - 1 - i);
    } else {
      NothingLeft(seg.words, j, StreamFrom(segs, i + 1));
      if i + 1 < |segs| {
        ReadsFrom(t, segs, i + 1, 0);
        NextStretch(segs, i + 1);
        ReadBridge(t, seg, segs[i + 1], StreamFrom(segs, i + 1), |segs| - 2 - i);
      } else {
        NoStretch(segs);
        ReadNothing(t, seg, |segs| - 1 - i);
      }
    }
  }

  lemma StretchIn(t: map<Page, seq<CodeWord>>, segs: seq<Segment>, i: nat)
    requires BridgedIn(t, segs) && i < |segs|
    ensures segs[i].page in t && Written(t[segs[i].page], segs[i])
    ensures i + 1 < |segs| ==> BridgesTo(t[segs[i].page], segs[i], segs[i + 1])
  {
  }

  lemma NothingLeft(ws: seq<CodeWord>, j: nat, rest: seq<CodeWord>)
    requires j == |ws|
    ensures ws[j..] + rest == rest
  {
  }

  lemma NextStretch(segs: seq<Segment>, i: nat)
    requires i < |segs|
    ensures StreamFrom(segs, i) == segs[i].words[0..] + StreamFrom(segs, i + 1)
  {
  }

  lemma NoStretch(segs: seq<Segment>)
    ensures StreamFrom(segs, |segs|) == []
  {
  }

  lemma {:induction false} ReadBridge(t: map<Page, seq<CodeWord>>, seg: Segment, next: Segment, ws: seq<CodeWord>,
                                      hops: nat)
    requires seg.page in t && BridgesTo(t[seg.page], seg, next) && Reads(t, next.page, next.from + 0, ws, hops)
    ensures Reads(t, seg.page, seg.from + |seg.words|, ws, hops + 1)
  {
  }

  lemma {:induction false} ReadNothing(t: map<Page, seq<CodeWord>>, seg: Segment, hops: nat)
    ensures Reads(t, seg.page, seg.from + |seg.words|, [], hops)
  {
  }

  lemma BridgedTexts(segs: seq<Segment>)
    requires Bridged(segs)
    ensures BridgedIn(Texts(segs), segs)
  {
    hide Written, BridgesTo;
  }

  /** From the beginning of the first stretch the reader meets the whole stream: bridging is invisible. */
  lemma {:induction false} BridgingTransparent(segs: seq<Segment>)
    requires Bridged(segs) && segs != []
    ensures Reads(Texts(segs), segs[0].page, segs[0].from, Stream(segs), |segs| - 1)
  {
    hide Reads, Bridged, Texts, BridgedIn;
    BridgedTexts(segs);
    ReadsFrom(Texts(segs), segs, 0, 0);
    StreamSplits(segs, 0);
    assert segs[0].words[0..] + StreamFrom(segs, 1) == Stream(segs);
  }

  // ----- addresses -----

  /** Emission extends the last stretch and adds further ones. */
  ghost predicate Grown(was: seq<Segment>, now: seq<Segment>) {
    && was != [] && |was| <= |now|
    && (forall i :: 0 <= i < |was| - 1 ==> now[i] == was[i])
    && var (a, b) := (was[|was| - 1], now[|was| - 1]);
       a.page == b.page && a.from == b.from && a.words <= b.words
  }

  lemma GrownTrans(a: seq<Segment>, b: seq<Segment>, c: seq<Segment>)
    requires Grown(a, b) && Grown(b, c)
    ensures Grown(a, c)
  {
    var n := |a| - 1;
    if n < |b| - 1 {
      assert c[n] == b[n];
    }
  }

  lemma {:induction false} StreamPrefix(was: seq<Segment>, now: seq<Segment>, n: nat)
    requires n <= |was| && n <= |now| && forall i :: 0 <= i < n ==> now[i] == was[i]
    ensures Stream(was[..n]) == Stream(now[..n])
  {
    assert was[..n] == now[..n];
  }

  lemma Reassociate(p: seq<CodeWord>, a: seq<CodeWord>, b: seq<CodeWord>, r: seq<CodeWord>)
    ensures p + ((a + b) + r) == (p + a) + (b + r)
  {
  }

  lemma Suffix(x: seq<CodeWord>, r: seq<CodeWord>, y: seq<CodeWord>)
    requires y == x + r
    ensures |x| <= |y| && y[..|x|] == x && y[|x|..] == r
  {
  }

  /** What has been emitted since, as it reads from the last stretch of the earlier code on. */
  function Since(was: seq<Segment>, now: seq<Segment>): seq<CodeWord>
    requires was != [] && |was| <= |now| && |was[|was| - 1].words| <= |now[|was| - 1].words|
  {
    now[|was| - 1].words[|was[|was| - 1].words|..] + StreamFrom(now, |was|)
  }

  lemma StreamRest(was: seq<Segment>, now: seq<Segment>)
    requires Grown(was, now)
    ensures Stream(now) == Stream(was) + Since(was, now)
  {
    hide Stream, StreamFrom;
    var n := |was| - 1;
    StreamPrefix(was, now, n);
    assert was == was[..n] + [was[n]];
    StreamNext(was[..n], was[n]);
    var more := now[n].words[|was[n].words|..];
    assert now[n].words == was[n].words + more;
    StreamAt(now, n);
    Reassociate(Stream(was[..n]), was[n].words, more, StreamFrom(now, n + 1));
  }

  lemma StreamAt(segs: seq<Segment>, i: nat)
    requires i < |segs|
    ensures Stream(segs) == Stream(segs[..i]) + (segs[i].words + StreamFrom(segs, i + 1))
  {
    StreamSplits(segs, i);
  }

  lemma LastStretch(was: seq<Segment>, now: seq<Segment>)
    requires Grown(was, now)
    ensures 0 < |was| <= |now|
    ensures var a, b := was[|was| - 1], now[|was| - 1];
      a.page == b.page && a.End() == b.from + |a.words| && |a.words| <= |b.words|
    ensures Since(was, now) == now[|was| - 1].words[|was[|was| - 1].words|..] + StreamFrom(now, |was| - 1 + 1)
  {
  }

  lemma SinceReads(t: map<Page, seq<CodeWord>>, was: seq<Segment>, now: seq<Segment>)
    requires Grown(was, now) && BridgedIn(t, now)
    ensures Reads(t, was[|was| - 1].page, was[|was| - 1].End(), Since(was, now), |now| - |was|)
  {
    hide Reads, StreamFrom, BridgedIn, Since, Grown;
    LastStretch(was, now);
    ReadsFrom(t, now, |was| - 1, |was[|was| - 1].words|);
  }

  /** The address a stretch of code ended at when it was taken reads on to whatever was emitted since, whether on
      the same page or behind bridges. */
  lemma AddressReads(was: seq<Segment>, now: seq<Segment>)
    requires Grown(was, now) && Bridged(now)
    ensures |Stream(was)| <= |Stream(now)| && Stream(now)[..|Stream(was)|] == Stream(was)
    ensures var last := was[|was| - 1];
      Reads(Texts(now), last.page, last.End(), Stream(now)[|Stream(was)|..], |now| - |was|)
  {
    hide Reads, Stream, Since, Bridged, BridgedIn, Texts;
    BridgedTexts(now);
    SinceReads(Texts(now), was, now);
    StreamRest(was, now);
    Suffix(Stream(was), Since(was, now), Stream(now));
  }

  /** The emitting side of a compilation. */
  class Emitter {
    const rt: Runtime
    var page: Page
    ghost var segs: seq<Segment>

    /** AcquireCompilationCodePage. */
    constructor (runtime: Runtime)
      requires runtime.Valid()
      modifies runtime, runtime.open`next, runtime.released`next
      ensures Valid() && rt == runtime && Code() == [] && |segs| == 1
      ensures rt.active == old(runtime.active) + {page} && page !in old(runtime.active)
      ensures Includes(old(runtime.open), rt.open) && Includes(old(runtime.released), rt.released)
      ensures page in old(runtime.open) || page in old(runtime.released) || fresh(page)
    {
      hide IsFirst, FirstWithRoom;
      var p := runtime.AcquireCodePageWithCapacity(FREE_LINES_THRESHOLD);
      rt, page := runtime, p;
      segs := [Segment(p, |p.code|, [])];
      new;
      StreamNext([], segs[0]);
    }

    /** At any time two lines are left for a bridge. */
    ghost predicate Valid()
      reads this, rt, rt.open`next, rt.full`next, rt.released`next, page`code, set i | 0 <= i < |segs| ::
        segs[i].page`code
    {
      && rt.Valid() && page in rt.active && page.NumFreeLines() >= 2
      && segs != [] && Bridged(segs) && segs[|segs| - 1].page == page && segs[|segs| - 1].End() == |page.code|
    }

    /** What emitting may write to: the current page and the pages it may be replaced by. */
    ghost function Reach(): set<object>
      reads this, rt
    {
      {this, rt, page} + Members(rt.open) + Members(rt.released)
    }

    ghost function Code(): seq<CodeWord>
      reads this
    {
      Stream(segs)
    }

    /** Of the runtime's active pages only the stream's own has been replaced, if at all, and by none of the others. */
    twostate predicate OthersKept()
      reads this, rt
    {
      && rt.active - {page} == old(rt.active) - {old(page)}
      && (page == old(page) || page !in old(rt.active))
    }

    /** One more line on the current page. */
    method EmitWord(w: CodeWord)
      requires Valid() && page.NumFreeLines() >= 3
      modifies this`segs, page`code
      ensures Valid() && page == old(page) && page.NumFreeLines() == old(page.NumFreeLines()) - 1
      ensures Code() == old(Code()) + [w] && Grown(old(segs), segs) && old(page.code) <= page.code
    {
      hide Places, IsList, Bridged, Runtime.Valid, Stream;
      LastWritten(segs);
      page.EmitWord(w);
      StillBridged(segs);
      StreamGrows(segs, w);
      BridgedGrows(segs, w);
      ghost var n := |segs| - 1;
      segs := segs[n := segs[n].(words := segs[n].words + [w])];
    }

    /** The two words of a bridge. */
    method WriteBridge(next: Page)
      requires Valid() && next in rt.active && next != page
      modifies page`code
      ensures rt.Valid() && Bridged(segs + [Segment(next, |next.code|, [])]) && next.code == old(next.code)
      ensures old(page.code) <= page.code
    {
      hide Places, IsList, Bridged, Runtime.Valid, Stream;
      LastWritten(segs);
      page.EmitWord(BranchOp);
      page.EmitWord(Address(next, |next.code|));
      StillBridged(segs);
      BridgedOn(segs, Segment(next, |next.code|, []));
    }

    /** The bridge is written: the old page is released and the new one, where the bridge leads, takes its place. */
    method Turn(next: Page)
      requires rt.Valid() && page in rt.active && next in rt.active && next != page
      requires Bridged(segs + [Segment(next, |next.code|, [])]) && next.NumFreeLines() >= 2
      modifies this, rt, page`next
      ensures Valid() && page == next && segs == old(segs) + [Segment(next, |next.code|, [])]
      ensures rt.active == old(rt.active) - {old(page)} && rt.released == old(rt.released)
      ensures Members(rt.open) <= Members(old(rt.open)) + {old(page)}
    {
      hide Places, IsList, Bridged, Runtime.Valid;
      FrontMembers(page, rt.open);
      rt.ReleaseCodePage(page);
      segs := segs + [Segment(next, |next.code|, [])];
      StillBridged(segs);
      page := next;
    }

    /** Goes on on another page; the reader does not notice. */
    method Bridge(numLines: nat)
      requires Valid() && numLines >= 2
      modifies Reach()
      ensures Valid() && fresh(Reach() - old(Reach())) && OthersKept()
      ensures page.NumFreeLines() >= numLines && Code() == old(Code()) && Grown(old(segs), segs)
      ensures forall q: Page :: old(allocated(q)) ==> old(q.code) <= q.code
    {
      hide Places, IsList, Bridged, Runtime.Valid, Stream, IsFirst, FirstWithRoom;
      ghost var open, released := rt.open, rt.released;
      var next := rt.AcquireCodePageWithCapacity(numLines);
      IncludedMembers(open, rt.open);
      IncludedMembers(released, rt.released);
      StillBridged(segs);
      WriteBridge(next);
      StreamNext(segs, Segment(next, |next.code|, []));
      Turn(next);
    }

    /** A branch to another page, when this one has too few lines left. */
    method EnsureCodePageNumLines(numLines: nat)
      requires Valid()
      modifies Reach()
      ensures Valid() && fresh(Reach() - old(Reach())) && page.NumFreeLines() >= numLines + 2 && Code() == old(Code())
      ensures Grown(old(segs), segs) && OthersKept()
      ensures forall q: Page :: old(allocated(q)) ==> old(q.code) <= q.code
      ensures old(page.NumFreeLines()) >= numLines + 2 ==>
        page == old(page) && page.NumFreeLines() == old(page.NumFreeLines())
    {
      if page.NumFreeLines() < numLines + 2 {
        Bridge(numLines + 2);
      }
    }

    /** Operands follow their operation on the same page. */
    method EmitWords(ws: seq<CodeWord>)
      requires Valid() && page.NumFreeLines() >= |ws| + 2
      modifies this`segs, page`code
      ensures Valid() && page == old(page) && page.NumFreeLines() == old(page.NumFreeLines()) - |ws|
      ensures Code() == old(Code()) + ws && Grown(old(segs), segs) && old(page.code) <= page.code
    {
      hide Places, IsList, Bridged, Runtime.Valid, Stream;
      var i := 0;
      assert ws[..0] == [];
      while i < |ws|
        invariant 0 <= i <= |ws| && Valid() && page == old(page) && page.NumFreeLines() == old(page.NumFreeLines()) - i
        invariant Code() == old(Code()) + ws[..i] && Grown(old(segs), segs) && old(page.code) <= page.code
      {
        ghost var before := segs;
        EmitWord(ws[i]);
        GrownTrans(old(segs), before, segs);
        assert ws[..i + 1] == ws[..i] + [ws[i]];
        i := i + 1;
      }
      assert ws[..i] == ws;
    }

    /** An operation and its operands, all on the current page. */
    method EmitLines(op: CodeWord, operands: seq<CodeWord>)
      requires Valid() && page.NumFreeLines() >= |operands| + 3
      modifies this`segs, page`code
      ensures Valid() && page == old(page) && Code() == old(Code()) + [op] + operands && Grown(old(segs), segs)
      ensures old(page.code) <= page.code && page.NumFreeLines() == old(page.NumFreeLines()) - 1 - |operands|
    {
      hide Places, IsList, Bridged, Runtime.Valid, Stream, Grown;
      EmitWord(op);
      ghost var named := segs;
      EmitWords(operands);
      GrownTrans(old(segs), named, segs);
    }

    /** An operation with at most five operands always fits behind the bridge check made for it. */
    method EmitOperation(op: CodeWord, operands: seq<CodeWord>)
      requires Valid() && |operands| <= 5
      modifies Reach()
      ensures Valid() && fresh(Reach() - old(Reach())) && Code() == old(Code()) + [op] + operands
      ensures Grown(old(segs), segs) && OthersKept()
      ensures forall q: Page :: old(allocated(q)) ==> old(q.code) <= q.code
    {
      hide Places, IsList, Bridged, Runtime.Valid, Stream, Grown;
      EnsureCodePageNumLines(FREE_LINES_THRESHOLD);
      ghost var ready := segs;
      EmitLines(op, operands);
      GrownTrans(old(segs), ready, segs);
    }

    /** br_table makes room for its operation, operand, count and targets at once; the targets follow one by one. */
    method EmitTableHead(op: CodeWord, slot: CodeWord, count: CodeWord, targets: nat)
      requires Valid() && targets > 0
      modifies Reach()
      ensures Valid() && fresh(Reach() - old(Reach())) && Code() == old(Code()) + [op, slot, count]
      ensures page.NumFreeLines() >= targets + 2 && Grown(old(segs), segs) && OthersKept()
      ensures forall q: Page :: old(allocated(q)) ==> old(q.code) <= q.code
    {
      hide Places, IsList, Bridged, Runtime.Valid, Stream, Grown;
      EnsureCodePageNumLines(targets - 1 + 4);
      ghost var roomy := segs;
      EnsureCodePageNumLines(FREE_LINES_THRESHOLD);
      ghost var ready := segs;
      EmitLines(op, [slot, count]);
      GrownTrans(roomy, ready, segs);
      GrownTrans(old(segs), roomy, segs);
      assert [op] + [slot, count] == [op, slot, count];
    }
  }
}
