/**
 * The heap's records, lists and free lists as the kernel keeps them, changed
 * in place (kern/vm/kmalloc.c). The list of all pages and the size lists are
 * index links between records; a ghost sequence of pages, newest first, says
 * what they hold, and every method computes the specified heap on it.
 */
module Kmallocator {
  import opened Layout
  import opened Coremap
  import opened KHeap
  import opened HeapAllocation
  import opened HeapFreeing
  import opened Frames

  const INVALID_OFFSET: nat := 0xffff

  /** A page record; `nextSame` and `nextAll` are slots, -1 for null. */
  datatype PageRef = PageRef(nextSame: int, nextAll: int, addr: nat, blk: nat, freeOff: nat, nfree: nat)

  // ---- the lists against the sequence of pages ----

  /** The first page of a class from position `i` on, or the number of pages. */
  function NextOf(pages: seq<HeapPage>, b: nat, i: nat): (r: nat)
    requires i <= |pages|
    ensures i <= r <= |pages|
    ensures forall j :: i <= j < r ==> pages[j].blk != b
    ensures r < |pages| ==> pages[r].blk == b
    decreases |pages| - i
  {
    if i == |pages| || pages[i].blk == b then i else NextOf(pages, b, i + 1)
  }

  function SlotAt(pages: seq<HeapPage>, i: nat): int {
    if i < |pages| then pages[i].slot else -1
  }

  /** The slots are in range, and no two pages share one. */
  ghost predicate Slotted(pages: seq<HeapPage>, refs: seq<PageRef>) {
    && (forall i :: 0 <= i < |pages| ==> pages[i].slot < |refs| && pages[i].blk < NSIZES)
    && (forall i, j :: 0 <= i < j < |pages| ==> pages[i].slot != pages[j].slot)
  }

  /** What the record of a page says of it. */
  ghost predicate InfoOk(g: HeapPage, r: PageRef) {
    && r.addr == g.addr && r.blk == g.blk && r.nfree == |g.free|
    && r.freeOff == if g.free == [] then INVALID_OFFSET else g.free[0]
  }

  ghost predicate Informs(pages: seq<HeapPage>, refs: seq<PageRef>, i: nat)
    requires Slotted(pages, refs) && i < |pages|
  {
    InfoOk(pages[i], refs[pages[i].slot])
  }

  ghost predicate Informed(pages: seq<HeapPage>, refs: seq<PageRef>)
    requires Slotted(pages, refs)
  {
    forall i {:trigger Informs(pages, refs, i)} :: 0 <= i < |pages| ==> Informs(pages, refs, i)
  }

  ghost predicate AllLink(pages: seq<HeapPage>, refs: seq<PageRef>, i: nat)
    requires Slotted(pages, refs) && i < |pages|
  {
    refs[pages[i].slot].nextAll == SlotAt(pages, i + 1)
  }

  /** The list of all pages is `pages`. */
  ghost predicate AllLinked(pages: seq<HeapPage>, refs: seq<PageRef>, all: int)
    requires Slotted(pages, refs)
  {
    all == SlotAt(pages, 0) && forall i {:trigger AllLink(pages, refs, i)} :: 0 <= i < |pages| ==> AllLink(pages, refs, i)
  }

  ghost predicate SameLink(pages: seq<HeapPage>, refs: seq<PageRef>, i: nat)
    requires Slotted(pages, refs) && i < |pages|
  {
    refs[pages[i].slot].nextSame == SlotAt(pages, NextOf(pages, pages[i].blk, i + 1))
  }

  ghost predicate BaseLink(pages: seq<HeapPage>, sizes: seq<int>, b: nat)
    requires b < |sizes|
  {
    sizes[b] == SlotAt(pages, NextOf(pages, b, 0))
  }

  /** List `b` is the pages of class `b`, in the order of the list of all pages: the lists partition it. */
  ghost predicate SameLinked(pages: seq<HeapPage>, refs: seq<PageRef>, sizes: seq<int>)
    requires Slotted(pages, refs)
  {
    && |sizes| == NSIZES
    && (forall b {:trigger BaseLink(pages, sizes, b)} :: 0 <= b < NSIZES ==> BaseLink(pages, sizes, b))
    && (forall i {:trigger SameLink(pages, refs, i)} :: 0 <= i < |pages| ==> SameLink(pages, refs, i))
  }

  /** The first word of the `k`-th free block leads to the next, or is null. */
  ghost predicate WordOk(g: HeapPage, words: map<nat, nat>, k: nat)
    requires k < |g.free|
  {
    && g.addr + g.free[k] in words
    && words[g.addr + g.free[k]] == if k + 1 < |g.free| then g.addr + g.free[k + 1] else 0
  }

  /** The first words of the free blocks link them in the order of the free list. */
  ghost predicate PageThreaded(g: HeapPage, words: map<nat, nat>) {
    forall k {:trigger WordOk(g, words, k)} :: 0 <= k < |g.free| ==> WordOk(g, words, k)
  }

  ghost predicate Threaded(pages: seq<HeapPage>, words: map<nat, nat>) {
    forall i {:trigger PageThreaded(pages[i], words)} :: 0 <= i < |pages| ==> PageThreaded(pages[i], words)
  }

  /** The marked slots from `lo` up to `hi`. */
  function Marked(inuse: seq<bool>, lo: nat, hi: nat): (n: nat)
    requires lo <= hi <= |inuse|
    ensures n <= hi - lo
    ensures n == hi - lo <==> forall s :: lo <= s < hi ==> inuse[s]
    ensures n == 0 <==> forall s :: lo <= s < hi ==> !inuse[s]
    decreases hi - lo
  {
    if lo == hi then 0 else Marked(inuse, lo, hi - 1) + (if inuse[hi - 1] then 1 else 0)
  }

  lemma {:induction false} MarkedUpdate(inuse: seq<bool>, lo: nat, hi: nat, s: nat, v: bool)
    requires lo <= hi <= |inuse| && s < |inuse| && inuse[s] != v
    ensures Marked(inuse[s := v], lo, hi) == Marked(inuse, lo, hi) + (if lo <= s < hi then (if v then 1 else -1) else 0)
    decreases hi - lo
  {
    if lo < hi {
      MarkedUpdate(inuse, lo, hi - 1, s, v);
    }
  }

  /** Each root's count is its number of marked slots. */
  ghost predicate Counted(inuse: seq<bool>, numinuse: seq<nat>) {
    && |inuse| == TOTAL_REFS && |numinuse| == ROOTS
    && (forall q :: 0 <= q < ROOTS ==> numinuse[q] == Marked(inuse, q * REFS_PER_PAGE, (q + 1) * REFS_PER_PAGE))
  }

  /** Marking or clearing a slot moves its root's count by one. */
  lemma CountedUpdate(inuse: seq<bool>, numinuse: seq<nat>, s: nat, v: bool)
    requires Counted(inuse, numinuse) && s < TOTAL_REFS && inuse[s] != v
    ensures RootOf(s) < ROOTS && (!v ==> numinuse[RootOf(s)] > 0)
    ensures var n := if v then numinuse[RootOf(s)] + 1 else numinuse[RootOf(s)] - 1;
      n >= 0 && Counted(inuse[s := v], numinuse[RootOf(s) := n])
  {
    forall q | 0 <= q < ROOTS
      ensures Marked(inuse[s := v], q * REFS_PER_PAGE, (q + 1) * REFS_PER_PAGE)
        == numinuse[q] + (if q == RootOf(s) then (if v then 1 else -1) else 0)
    {
      MarkedUpdate(inuse, q * REFS_PER_PAGE, (q + 1) * REFS_PER_PAGE, s, v);
    }
  }

  /** Another free list for one page changes no list. */
  lemma NextOfSame(pages: seq<HeapPage>, pages': seq<HeapPage>, b: nat, i: nat)
    requires |pages'| == |pages| && i <= |pages| && forall k :: 0 <= k < |pages| ==> pages'[k].blk == pages[k].blk
    ensures NextOf(pages', b, i) == NextOf(pages, b, i)
  {
    var r, r' := NextOf(pages, b, i), NextOf(pages', b, i);
    assert r < |pages| ==> pages'[r].blk == b;
    assert r' < |pages| ==> pages[r'].blk == b;
  }

  lemma NextIs(pages: seq<HeapPage>, b: nat, i: nat, e: nat)
    requires i <= e <= |pages| && (forall j :: i <= j < e ==> pages[j].blk != b) && (e < |pages| ==> pages[e].blk == b)
    ensures NextOf(pages, b, i) == e
  {
  }

  lemma NextOfFront(g: HeapPage, pages: seq<HeapPage>, b: nat, i: nat)
    requires i <= |pages|
    ensures NextOf([g] + pages, b, i + 1) == NextOf(pages, b, i) + 1
  {
    NextIs([g] + pages, b, i + 1, NextOf(pages, b, i) + 1);
  }

  lemma NextOfFirst(g: HeapPage, pages: seq<HeapPage>, b: nat)
    ensures NextOf([g] + pages, b, 0) == if g.blk == b then 0 else NextOf(pages, b, 0) + 1
  {
    NextIs([g] + pages, b, 0, if g.blk == b then 0 else NextOf(pages, b, 0) + 1);
  }

  function Without(pages: seq<HeapPage>, t: nat): (r: seq<HeapPage>)
    requires t < |pages|
    ensures |r| == |pages| - 1 && forall j :: 0 <= j < |r| ==> r[j] == pages[Skip(t, j)]
  {
    pages[..t] + pages[t + 1..]
  }

  /** The next page of a class from `i` on, passing over page `t`. */
  function NextBut(pages: seq<HeapPage>, t: nat, b: nat, i: nat): nat
    requires t < |pages| && i <= |pages|
  {
    var n := NextOf(pages, b, i);
    if n == t then NextOf(pages, b, t + 1) else n
  }

  /** The slot found once page `t` is gone is the one found passing over it. */
  lemma NextOfCut(pages: seq<HeapPage>, t: nat, b: nat, k: nat)
    requires t < |pages| && k < |pages|
    ensures SlotAt(Without(pages, t), NextOf(Without(pages, t), b, k)) == SlotAt(pages, NextBut(pages, t, b, Skip(t, k)))
  {
    var m := NextBut(pages, t, b, Skip(t, k));
    var e := if m < t then m else m - 1;
    NextIs(Without(pages, t), b, k, e);
  }

  // ---- a page at the front ----

  lemma FrontSlotted(g: HeapPage, pages: seq<HeapPage>, refs: seq<PageRef>, r: PageRef)
    requires Slotted(pages, refs) && g.slot < |refs| && g.blk < NSIZES && forall i :: 0 <= i < |pages| ==> pages[i].slot != g.slot
    ensures Slotted([g] + pages, refs[g.slot := r])
    ensures forall i :: 0 <= i < |pages| ==> ([g] + pages)[i + 1] == pages[i] && refs[g.slot := r][pages[i].slot] == refs[pages[i].slot]
  {
  }

  lemma FrontOne(g: HeapPage, pages: seq<HeapPage>, refs: seq<PageRef>, sizes: seq<int>, all: int, r: PageRef, i: nat)
    requires Slotted(pages, refs) && g.slot < |refs| && g.blk < NSIZES && forall i :: 0 <= i < |pages| ==> pages[i].slot != g.slot
    requires Informed(pages, refs) && AllLinked(pages, refs, all) && SameLinked(pages, refs, sizes) && i <= |pages|
    requires InfoOk(g, r) && r.nextSame == sizes[g.blk] && r.nextAll == all
    ensures var ps := [g] + pages;
      var refs' := refs[g.slot := r];
      Slotted(ps, refs') && Informs(ps, refs', i) && AllLink(ps, refs', i) && SameLink(ps, refs', i)
  {
    FrontSlotted(g, pages, refs, r);
    if i == 0 {
      FrontHead(g, pages, refs, sizes, all, r);
    } else {
      FrontTail(g, pages, refs, sizes, all, r, i - 1);
    }
  }

  lemma SlotFront(g: HeapPage, pages: seq<HeapPage>, i: nat)
    ensures SlotAt([g] + pages, i + 1) == SlotAt(pages, i)
  {
  }

  lemma FrontHead(g: HeapPage, pages: seq<HeapPage>, refs: seq<PageRef>, sizes: seq<int>, all: int, r: PageRef)
    requires Slotted(pages, refs) && g.slot < |refs| && g.blk < NSIZES && Slotted([g] + pages, refs[g.slot := r])
    requires AllLinked(pages, refs, all) && SameLinked(pages, refs, sizes)
    requires InfoOk(g, r) && r.nextSame == sizes[g.blk] && r.nextAll == all
    ensures var ps := [g] + pages;
      var refs' := refs[g.slot := r];
      Informs(ps, refs', 0) && AllLink(ps, refs', 0) && SameLink(ps, refs', 0)
  {
    assert BaseLink(pages, sizes, g.blk);
    NextOfFront(g, pages, g.blk, 0);
    SlotFront(g, pages, 0);
    SlotFront(g, pages, NextOf(pages, g.blk, 0));
  }

  lemma FrontTail(g: HeapPage, pages: seq<HeapPage>, refs: seq<PageRef>, sizes: seq<int>, all: int, r: PageRef, i: nat)
    requires Slotted(pages, refs) && g.slot < |refs| && Slotted([g] + pages, refs[g.slot := r]) && i < |pages|
    requires pages[i].slot != g.slot
    requires Informed(pages, refs) && AllLinked(pages, refs, all) && SameLinked(pages, refs, sizes)
    ensures var ps := [g] + pages;
      var refs' := refs[g.slot := r];
      Informs(ps, refs', i + 1) && AllLink(ps, refs', i + 1) && SameLink(ps, refs', i + 1)
  {
    assert Informs(pages, refs, i) && AllLink(pages, refs, i) && SameLink(pages, refs, i);
    assert ([g] + pages)[i + 1] == pages[i];
    NextOfFront(g, pages, pages[i].blk, i + 1);
    SlotFront(g, pages, i + 1);
    SlotFront(g, pages, NextOf(pages, pages[i].blk, i + 1));
  }

  lemma FrontBase(g: HeapPage, pages: seq<HeapPage>, refs: seq<PageRef>, sizes: seq<int>, b: nat)
    requires Slotted(pages, refs) && SameLinked(pages, refs, sizes) && g.blk < NSIZES && b < NSIZES
    ensures BaseLink([g] + pages, sizes[g.blk := g.slot], b)
  {
    NextOfFirst(g, pages, b);
    assert BaseLink(pages, sizes, b);
    assert ([g] + pages)[0] == g;
  }

  lemma FrontLinked(g: HeapPage, pages: seq<HeapPage>, refs: seq<PageRef>, sizes: seq<int>, all: int, r: PageRef)
    requires Slotted(pages, refs) && g.slot < |refs| && g.blk < NSIZES && forall i :: 0 <= i < |pages| ==> pages[i].slot != g.slot
    requires Informed(pages, refs) && AllLinked(pages, refs, all) && SameLinked(pages, refs, sizes)
    requires InfoOk(g, r) && r.nextSame == sizes[g.blk] && r.nextAll == all
    ensures var ps := [g] + pages;
      var refs' := refs[g.slot := r];
      Slotted(ps, refs') && Informed(ps, refs') && AllLinked(ps, refs', g.slot) && SameLinked(ps, refs', sizes[g.blk := g.slot])
  {
    var ps := [g] + pages;
    FrontSlotted(g, pages, refs, r);
    var refs' := refs[g.slot := r];
    var sizes' := sizes[g.blk := g.slot];
    forall i | 0 <= i < |ps| ensures Informs(ps, refs', i) && AllLink(ps, refs', i) && SameLink(ps, refs', i) {
      FrontOne(g, pages, refs, sizes, all, r, i);
    }
    forall b | 0 <= b < NSIZES ensures BaseLink(ps, sizes', b) {
      FrontBase(g, pages, refs, sizes, b);
    }
  }

  // ---- another free list for a page ----

  lemma RelistOne(pages: seq<HeapPage>, refs: seq<PageRef>, sizes: seq<int>, all: int, t: nat, free: seq<nat>, r: PageRef, i: nat)
    requires Slotted(pages, refs) && t < |pages| && i < |pages|
    requires Informed(pages, refs) && AllLinked(pages, refs, all) && SameLinked(pages, refs, sizes)
    requires InfoOk(pages[t].(free := free), r)
    requires r.nextSame == refs[pages[t].slot].nextSame && r.nextAll == refs[pages[t].slot].nextAll
    ensures var ps := pages[t := pages[t].(free := free)];
      var refs' := refs[pages[t].slot := r];
      Slotted(ps, refs') && Informs(ps, refs', i) && AllLink(ps, refs', i) && SameLink(ps, refs', i)
  {
    var ps := pages[t := pages[t].(free := free)];
    assert Informs(pages, refs, i) && AllLink(pages, refs, i) && SameLink(pages, refs, i);
    NextOfSame(pages, ps, ps[i].blk, i + 1);
  }

  lemma RelistLinked(pages: seq<HeapPage>, refs: seq<PageRef>, sizes: seq<int>, all: int, t: nat, free: seq<nat>, r: PageRef)
    requires Slotted(pages, refs) && t < |pages|
    requires Informed(pages, refs) && AllLinked(pages, refs, all) && SameLinked(pages, refs, sizes)
    requires InfoOk(pages[t].(free := free), r)
    requires r.nextSame == refs[pages[t].slot].nextSame && r.nextAll == refs[pages[t].slot].nextAll
    ensures var ps := pages[t := pages[t].(free := free)];
      var refs' := refs[pages[t].slot := r];
      Slotted(ps, refs') && Informed(ps, refs') && AllLinked(ps, refs', all) && SameLinked(ps, refs', sizes)
  {
    var ps := pages[t := pages[t].(free := free)];
    var refs' := refs[pages[t].slot := r];
    forall i | 0 <= i < |ps| ensures Slotted(ps, refs') && Informs(ps, refs', i) && AllLink(ps, refs', i) && SameLink(ps, refs', i) {
      RelistOne(pages, refs, sizes, all, t, free, r, i);
    }
    forall b | 0 <= b < NSIZES ensures BaseLink(ps, sizes, b) {
      NextOfSame(pages, ps, b, 0);
      assert BaseLink(pages, sizes, b);
    }
  }

  // ---- a page out of the lists ----

  lemma SlottedCut(pages: seq<HeapPage>, refs: seq<PageRef>, t: nat)
    requires Slotted(pages, refs) && t < |pages|
    ensures Slotted(Without(pages, t), refs)
    ensures Informed(pages, refs) ==> Informed(Without(pages, t), refs)
  {
    var ps := Without(pages, t);
    forall k, m | 0 <= k < m < |ps| ensures ps[k].slot != ps[m].slot {
      assert pages[Skip(t, k)].slot != pages[Skip(t, m)].slot;
    }
    if Informed(pages, refs) {
      forall k | 0 <= k < |ps| ensures Informs(ps, refs, k) {
        assert Informs(pages, refs, Skip(t, k));
      }
    }
  }

  /** The page before `t` on the list of its class, or -1. */
  ghost predicate PrevOf(pages: seq<HeapPage>, t: nat, p: int)
    requires t < |pages|
  {
    && -1 <= p < t
    && (p >= 0 ==> pages[p].blk == pages[t].blk)
    && NextOf(pages, pages[t].blk, p + 1) == t
  }

  /** The record links once the one that led to page `t` leads past it. */
  function Relinked(pages: seq<HeapPage>, refs: seq<PageRef>, t: nat, p: int): (r: seq<PageRef>)
    requires t < |pages| && pages[t].slot < |refs| && -1 <= p < |pages| && (p >= 0 ==> pages[p].slot < |refs|)
    ensures |r| == |refs|
  {
    if p == -1 then refs else refs[pages[p].slot := refs[pages[p].slot].(nextSame := refs[pages[t].slot].nextSame)]
  }

  /** The heads of the lists, likewise. */
  function Rebased(pages: seq<HeapPage>, refs: seq<PageRef>, sizes: seq<int>, t: nat, p: int): (r: seq<int>)
    requires t < |pages| && pages[t].slot < |refs| && pages[t].blk < |sizes|
    ensures |r| == |sizes|
  {
    if p == -1 then sizes[pages[t].blk := refs[pages[t].slot].nextSame] else sizes
  }

  lemma LinksCut(pages: seq<HeapPage>, refs: seq<PageRef>, t: nat, p: int, k: nat)
    requires Slotted(pages, refs) && t < |pages| && PrevOf(pages, t, p) && k < |pages| - 1
    requires SameLink(pages, refs, Skip(t, k)) && SameLink(pages, refs, t)
    ensures Slotted(Without(pages, t), Relinked(pages, refs, t, p)) && SameLink(Without(pages, t), Relinked(pages, refs, t, p), k)
  {
    SlottedCut(pages, Relinked(pages, refs, t, p), t);
    PastLink(pages, refs, t, p, Relinked(pages, refs, t, p), Skip(t, k));
    CutLink(pages, Relinked(pages, refs, t, p), t, k);
  }

  lemma BaseCut(pages: seq<HeapPage>, refs: seq<PageRef>, sizes: seq<int>, t: nat, p: int, b: nat)
    requires Slotted(pages, refs) && t < |pages| && PrevOf(pages, t, p) && |sizes| == NSIZES && b < NSIZES
    requires BaseLink(pages, sizes, b) && SameLink(pages, refs, t)
    ensures BaseLink(Without(pages, t), Rebased(pages, refs, sizes, t, p), b)
  {
    if |pages| > 1 {
      NextOfCut(pages, t, b, 0);
    }
  }

  /** A link that led to page `t` now leads past it. */
  lemma SameCut(pages: seq<HeapPage>, refs: seq<PageRef>, sizes: seq<int>, t: nat, p: int)
    requires Slotted(pages, refs) && t < |pages| && SameLinked(pages, refs, sizes) && PrevOf(pages, t, p)
    ensures Slotted(Without(pages, t), Relinked(pages, refs, t, p))
    ensures SameLinked(Without(pages, t), Relinked(pages, refs, t, p), Rebased(pages, refs, sizes, t, p))
  {
    var ps := Without(pages, t);
    var refs', sizes' := Relinked(pages, refs, t, p), Rebased(pages, refs, sizes, t, p);
    SlottedCut(pages, refs', t);
    assert SameLink(pages, refs, t);
    forall k | 0 <= k < |ps| ensures SameLink(ps, refs', k) {
      assert SameLink(pages, refs, Skip(t, k));
      LinksCut(pages, refs, t, p, k);
    }
    forall b | 0 <= b < NSIZES ensures BaseLink(ps, sizes', b) {
      assert BaseLink(pages, sizes, b);
      BaseCut(pages, refs, sizes, t, p, b);
    }
  }

  lemma CutLink(pages: seq<HeapPage>, refs: seq<PageRef>, t: nat, k: nat)
    requires t < |pages| && k < |pages| - 1 && Slotted(Without(pages, t), refs)
    requires var g := pages[Skip(t, k)];
      g.slot < |refs| && refs[g.slot].nextSame == SlotAt(pages, NextBut(pages, t, g.blk, Skip(t, k) + 1))
    ensures SameLink(Without(pages, t), refs, k)
  {
    var b := pages[Skip(t, k)].blk;
    NextOfCut(pages, t, b, k + 1);
    NextButSkip(pages, t, b, k);
  }

  /** The link of every other page, passing over page `t`. */
  lemma PastLink(pages: seq<HeapPage>, refs: seq<PageRef>, t: nat, p: int, refs': seq<PageRef>, j: nat)
    requires Slotted(pages, refs) && t < |pages| && PrevOf(pages, t, p) && j < |pages| && j != t
    requires SameLink(pages, refs, j) && SameLink(pages, refs, t)
    requires refs' == if p == -1 then refs else refs[pages[p].slot := refs[pages[p].slot].(nextSame := refs[pages[t].slot].nextSame)]
    ensures refs'[pages[j].slot].nextSame == SlotAt(pages, NextBut(pages, t, pages[j].blk, j + 1))
  {
    if NextOf(pages, pages[j].blk, j + 1) == t {
      OnlyBefore(pages, t, p, j);
    } else {
      assert j != p;
    }
  }

  lemma NextButSkip(pages: seq<HeapPage>, t: nat, b: nat, k: nat)
    requires t < |pages| && k < |pages| - 1
    ensures NextBut(pages, t, b, Skip(t, k + 1)) == NextBut(pages, t, b, Skip(t, k) + 1)
  {
  }

  lemma OnlyBefore(pages: seq<HeapPage>, t: nat, p: int, j: nat)
    requires t < |pages| && PrevOf(pages, t, p) && j < |pages| && NextOf(pages, pages[j].blk, j + 1) == t
    ensures j == p
  {
  }

  /** The same for the list of all pages. */
  lemma AllCut(pages: seq<HeapPage>, refs: seq<PageRef>, all: int, t: nat, refs': seq<PageRef>, all': int)
    requires Slotted(pages, refs) && t < |pages| && AllLinked(pages, refs, all)
    requires var past := refs[pages[t].slot].nextAll;
      && all' == (if t == 0 then past else all)
      && refs' == (if t == 0 then refs else refs[pages[t - 1].slot := refs[pages[t - 1].slot].(nextAll := past)])
    ensures Slotted(Without(pages, t), refs') && AllLinked(Without(pages, t), refs', all')
  {
    var ps := Without(pages, t);
    SlottedCut(pages, refs', t);
    assert AllLink(pages, refs, t);
    forall k | 0 <= k < |ps| ensures AllLink(ps, refs', k) {
      assert AllLink(pages, refs, Skip(t, k));
    }
  }

  // ---- the words of the free lists ----

  /** The address is no free block's. */
  ghost predicate NotFree(pages: seq<HeapPage>, a: nat) {
    forall i {:trigger NotFreeOn(pages[i], a)} :: 0 <= i < |pages| ==> NotFreeOn(pages[i], a)
  }

  ghost predicate NotFreeOn(g: HeapPage, a: nat) {
    forall k :: 0 <= k < |g.free| ==> g.addr + g.free[k] != a
  }

  /** Writing a word that is no free block's leaves every free list alone. */
  lemma PageWritten(g: HeapPage, words: map<nat, nat>, a: nat, v: nat)
    requires PageThreaded(g, words) && NotFreeOn(g, a)
    ensures PageThreaded(g, words[a := v])
  {
    var words' := words[a := v];
    forall k | 0 <= k < |g.free| ensures WordOk(g, words', k) {
      assert WordOk(g, words, k);
    }
  }

  lemma WordWritten(pages: seq<HeapPage>, words: map<nat, nat>, a: nat, v: nat)
    requires Threaded(pages, words) && NotFree(pages, a)
    ensures Threaded(pages, words[a := v])
  {
    forall i | 0 <= i < |pages| ensures PageThreaded(pages[i], words[a := v]) {
      assert PageThreaded(pages[i], words) && NotFreeOn(pages[i], a);
      PageWritten(pages[i], words, a, v);
    }
  }

  lemma TailThreaded(g: HeapPage, words: map<nat, nat>)
    requires PageThreaded(g, words) && g.free != []
    ensures PageThreaded(g.(free := g.free[1..]), words) && WordOk(g, words, 0)
  {
    var g' := g.(free := g.free[1..]);
    forall k | 0 <= k < |g'.free| ensures WordOk(g', words, k) {
      assert WordOk(g, words, k + 1);
    }
    assert WordOk(g, words, 0);
  }

  lemma PushThreaded(g: HeapPage, words: map<nat, nat>, o: nat)
    requires PageThreaded(g, words) && NotFreeOn(g, g.addr + o)
    ensures PageThreaded(g.(free := [o] + g.free), words[g.addr + o := if g.free == [] then 0 else g.addr + g.free[0]])
  {
    var g' := g.(free := [o] + g.free);
    var v := if g.free == [] then 0 else g.addr + g.free[0];
    PageWritten(g, words, g.addr + o, v);
    var words' := words[g.addr + o := v];
    forall k | 0 <= k < |g'.free| ensures WordOk(g', words', k) {
      if k > 0 {
        assert WordOk(g, words', k - 1);
      }
    }
  }

  lemma RelistThreaded(pages: seq<HeapPage>, words: map<nat, nat>, t: nat, free: seq<nat>)
    requires Threaded(pages, words) && t < |pages| && PageThreaded(pages[t].(free := free), words)
    ensures Threaded(pages[t := pages[t].(free := free)], words)
  {
    var ps := pages[t := pages[t].(free := free)];
    forall i | 0 <= i < |ps| ensures PageThreaded(ps[i], words) {
      assert PageThreaded(pages[i], words);
    }
  }

  lemma CutThreaded(pages: seq<HeapPage>, words: map<nat, nat>, t: nat)
    requires Threaded(pages, words) && t < |pages|
    ensures Threaded(Without(pages, t), words)
  {
    forall i | 0 <= i < |Without(pages, t)| ensures PageThreaded(Without(pages, t)[i], words) {
      assert PageThreaded(pages[Skip(t, i)], words);
    }
  }

  lemma FrontThreaded(g: HeapPage, pages: seq<HeapPage>, words: map<nat, nat>)
    requires Threaded(pages, words) && PageThreaded(g, words)
    ensures Threaded([g] + pages, words)
  {
    forall i | 0 <= i < |[g] + pages| ensures PageThreaded(([g] + pages)[i], words) {
      if i > 0 {
        assert PageThreaded(pages[i - 1], words);
      }
    }
  }

  // ---- the allocator ----

  class Allocator {
    const frames: FrameTable
    const refs: array<PageRef>
    const sizebases: array<int>
    const inuse: array<bool>
    const numinuse: array<nat>
    const roots: array<nat>
    var allbase: int
    var words: map<nat, nat>
    ghost var pages: seq<HeapPage>
    ghost var live: Live

    ghost function Value(): Heap
      reads this, frames, frames.entries, inuse, roots
    {
      Heap(pages, inuse[..], roots[..], frames.entries[..], frames.base, frames.clock)
    }

    ghost predicate Shape()
    {
      && refs.Length == TOTAL_REFS && sizebases.Length == NSIZES && inuse.Length == TOTAL_REFS
      && numinuse.Length == ROOTS && roots.Length == ROOTS && numinuse != roots && frames.base > 0
    }

    ghost predicate Lists()
      reads this, refs, sizebases
    {
      && Slotted(pages, refs[..]) && Informed(pages, refs[..])
      && AllLinked(pages, refs[..], allbase) && SameLinked(pages, refs[..], sizebases[..])
    }

    ghost predicate Valid()
      reads this, refs, sizebases, frames, frames.entries, inuse, numinuse, roots
    {
      && Shape() && Lists() && Threaded(pages, words)
      && Counted(inuse[..], numinuse[..])
      && HeapInv(Value(), live)
    }

    constructor (frames: FrameTable)
      requires frames.base > 0 && FramesOk(Heap([], [], [], frames.entries[..], frames.base, frames.clock))
      ensures Valid() && this.frames == frames && live == map[] && pages == []
      ensures fresh(refs) && fresh(sizebases) && fresh(inuse) && fresh(numinuse) && fresh(roots)
    {
      this.frames := frames;
      refs := new PageRef[TOTAL_REFS](_ => PageRef(-1, -1, 0, 0, 0, 0));
      sizebases := new int[NSIZES](_ => -1);
      inuse := new bool[TOTAL_REFS](_ => false);
      numinuse := new nat[ROOTS](_ => 0);
      roots := new nat[ROOTS](_ => 0);
      allbase, words, pages, live := -1, map[], [], map[];
      new;
      EmptyInv(Value());
    }

    // ---- whole pages ----

    /** `alloc_kpages`. */
    method AllocKpages(n: nat) returns (va: nat)
      requires frames.base > 0
      modifies frames`clock, frames.entries
      ensures (Value(), va) == KHeap.AllocKpages(old(Value()), n)
    {
      var pa := frames.FrameKalloc(n);
      if pa == 0 {
        return 0;
      }
      va := pa + KSEG0;
    }

    /** `free_kpages`. */
    method FreeKpages(va: nat)
      requires exists n :: HeadAt(Value(), va, n)
      requires FramesOk(Value())
      modifies frames.entries
      ensures Value() == KHeap.FreeKpages(old(Value()), va)
    {
      frames.FrameKfree(va);
    }

    // ---- page records ----

    /** `allocpageref`. */
    method AllocRef() returns (ref: Ref)
      requires Shape() && Counted(inuse[..], numinuse[..])
      modifies frames`clock, frames.entries, inuse, numinuse, roots
      ensures Counted(inuse[..], numinuse[..])
      ensures (Value(), ref) == KHeap.AllocRef(old(Value()))
    {
      for q := 0 to ROOTS
        invariant Value() == old(Value()) && Counted(inuse[..], numinuse[..])
        invariant forall s :: 0 <= s < q * REFS_PER_PAGE ==> inuse[s]
      {
        if numinuse[q] < REFS_PER_PAGE {
          var s := Mark(q);
          if roots[q] == 0 {
            roots[q] := AllocKpages(1);
          }
          return if roots[q] == 0 then NoRef else Ref(s);
        }
      }
      return NoRef;
    }

    /** Mark the first clear slot of a root that has one. */
    method Mark(q: nat) returns (s: nat)
      requires Shape() && q < ROOTS && Counted(inuse[..], numinuse[..]) && numinuse[q] < REFS_PER_PAGE
      requires forall k :: 0 <= k < q * REFS_PER_PAGE ==> inuse[k]
      modifies inuse, numinuse
      ensures s == FirstClear(old(inuse[..])) && s < TOTAL_REFS && RootOf(s) == q
      ensures inuse[..] == old(inuse[..])[s := true] && Counted(inuse[..], numinuse[..])
    {
      s := FreeSlot(q);
      CountedUpdate(inuse[..], numinuse[..], s, true);
      inuse[s] := true;
      numinuse[q] := numinuse[q] + 1;
    }

    /** The search for a clear bit, word by word, in a root that has one. */
    method FreeSlot(q: nat) returns (s: nat)
      requires Shape() && q < ROOTS && Counted(inuse[..], numinuse[..]) && numinuse[q] < REFS_PER_PAGE
      requires forall k :: 0 <= k < q * REFS_PER_PAGE ==> inuse[k]
      ensures s == FirstClear(inuse[..]) && RootOf(s) == q && s < TOTAL_REFS
    {
      for i := 0 to REFS_PER_PAGE / 32
        invariant forall k :: 0 <= k < q * REFS_PER_PAGE + 32 * i ==> inuse[k]
      {
        s := q * REFS_PER_PAGE + 32 * i;
        if exists k | s <= k < s + 32 :: !inuse[k] {
          ghost var word := s + 32;
          while inuse[s]
            invariant word - 32 <= s < word && (forall k :: 0 <= k < s ==> inuse[k]) && (exists k :: s <= k < word && !inuse[k])
            decreases word - s
          {
            s := s + 1;
          }
          return;
        }
      }
      assert false;
    }

    /** `freepageref`; false when its assertion about roots without a page fails. */
    method FreeRef(slot: nat) returns (ok: bool)
      requires Shape() && Counted(inuse[..], numinuse[..]) && slot < TOTAL_REFS && inuse[slot] && roots[RootOf(slot)] != 0
      modifies inuse, numinuse
      ensures ok <==> RootsBefore(old(Value()), slot)
      ensures Value() == if ok then old(Value()).(inuse := old(inuse[..])[slot := false]) else old(Value())
      ensures Counted(inuse[..], numinuse[..])
    {
      for q := 0 to RootOf(slot)
        invariant Value() == old(Value()) && Counted(inuse[..], numinuse[..])
        invariant forall r :: 0 <= r < q && roots[r] == 0 ==> RootEmpty(Value(), r)
      {
        if roots[q] == 0 && numinuse[q] != 0 {
          assert !RootEmpty(Value(), q);
          return false;
        }
      }
      CountedUpdate(inuse[..], numinuse[..], slot, false);
      inuse[slot] := false;
      numinuse[RootOf(slot)] := numinuse[RootOf(slot)] - 1;
      ok := true;
    }

    // ---- searching the lists ----

    /** The search of `subpage_kmalloc`: the first page of the class with a free block; -1 for none. */
    method FindFreePage(b: nat) returns (pr: int, ghost i: nat)
      requires Shape() && Lists() && b < NSIZES
      ensures i == FindFree(pages, b) && pr == SlotAt(pages, i)
    {
      pr, i := sizebases[b], NextOf(pages, b, 0);
      assert BaseLink(pages, sizebases[..], b);
      while pr != -1 && refs[pr].nfree == 0
        invariant i <= |pages| && pr == SlotAt(pages, i) && (i < |pages| ==> pages[i].blk == b)
        invariant pr != -1 ==> 0 <= pr < refs.Length && Informs(pages, refs[..], i)
        invariant FindFree(pages, b) == FindFree(pages, b, i)
        decreases |pages| - i
      {
        assert SameLink(pages, refs[..], i);
        FindFreeNext(pages, b, i);
        pr, i := refs[pr].nextSame, NextOf(pages, b, i + 1);
      }
    }

    /** The search of `subpage_kfree`: the page an address lies on; -1 for none. */
    method FindPageOf(a: nat) returns (pr: int, ghost i: nat)
      requires Shape() && Lists()
      ensures i == FindPage(pages, a) && pr == SlotAt(pages, i)
    {
      pr, i := allbase, 0;
      while pr != -1 && !(refs[pr].addr <= a < refs[pr].addr + PAGE_SIZE)
        invariant i <= |pages| && pr == SlotAt(pages, i)
        invariant pr != -1 ==> 0 <= pr < refs.Length && Informs(pages, refs[..], i)
        invariant FindPage(pages, a) == FindPage(pages, a, i)
        decreases |pages| - i
      {
        assert AllLink(pages, refs[..], i);
        pr, i := refs[pr].nextAll, i + 1;
      }
    }

    // ---- handing a block out ----

    /** A fresh page's free list: each block leads to the one before it. */
    method ThreadPage(prpage: nat, b: nat, ghost g: HeapPage)
      requires g.addr == prpage && g.blk == b && b < NSIZES && g.free == FreshList(g.blk, BlocksPer(g.blk)) && Threaded(pages, words)
      requires forall x :: g.addr <= x < g.addr + PAGE_SIZE ==> NotFree(pages, x)
      modifies this`words
      ensures Threaded(pages, words) && PageThreaded(g, words)
    {
      var n := BlocksPer(b);
      OffApart(b, 0, 0);
      WordWritten(pages, words, prpage, 0);
      words := words[prpage := 0];
      assert Off(b, 0) == 0;
      for i := 1 to n
        invariant Threaded(pages, words)
        invariant forall j {:trigger Chained(g, words, j)} :: 0 <= j < i ==> Chained(g, words, j)
      {
        ghost var before := words;
        OffApart(b, i, i);
        WordWritten(pages, words, prpage + Off(b, i), prpage + Off(b, i - 1));
        words := words[prpage + Off(b, i) := prpage + Off(b, i - 1)];
        forall j | 0 <= j < i ensures Chained(g, words, j) {
          assert Chained(g, before, j);
          OffApart(g.blk, i, j);
        }
      }
      ChainThreaded(g, words);
    }

    /** `doalloc`: the block at the head of a page's free list. */
    method TakeBlock(pr: nat, ghost i: nat) returns (a: nat)
      requires Shape() && Lists() && Threaded(pages, words)
      requires i < |pages| && pr == pages[i].slot && pages[i].free != [] && FreeOk(pages[i]) && pages[i].addr > 0
      modifies this`pages, refs
      ensures (Value(), Got(a)) == Take(old(Value()), i)
      ensures Lists() && Threaded(pages, words)
    {
      ghost var g := pages[i];
      var r := refs[pr];
      assert Informs(pages, refs[..], i) && PageThreaded(g, words) && IsBlock(g, g.free[0]);
      TailThreaded(g, words);
      a := r.addr + r.freeOff;
      var next := words[a];
      var r' := r.(nfree := r.nfree - 1, freeOff := if next != 0 then next - r.addr else INVALID_OFFSET);
      RelistLinked(pages, refs[..], sizebases[..], allbase, i, g.free[1..], r');
      RelistThreaded(pages, words, i, g.free[1..]);
      refs[pr] := r';
      pages := pages[i := g.(free := g.free[1..])];
    }

    /** A fresh page for a class, at the front of both its lists; false when there is no room. */
    method NewPage(b: nat) returns (ok: bool)
      requires Valid() && b < NSIZES
      modifies this`pages, this`words, this`allbase, refs, sizebases, frames`clock, frames.entries, inuse, numinuse, roots
      ensures (Value(), ok) == KHeap.NewPage(old(Value()), b)
      ensures Lists() && Threaded(pages, words) && Counted(inuse[..], numinuse[..])
    {
      PageAndRef(Value(), live);
      var prpage := AllocKpages(1);
      if prpage == 0 {
        return false;
      }
      var ref := AllocRef();
      assert Inv(Value(), live) && Unused(Value(), live, prpage);
      if ref == NoRef {
        assert HeadAt(Value(), prpage, 1);
        FreeKpages(prpage);
        return false;
      }
      LinkPage(prpage, b, ref.slot);
      ok := true;
    }

    /** The record and the free list of a fresh page, and its place on the lists. */
    method LinkPage(prpage: nat, b: nat, slot: nat)
      requires Shape() && Lists() && Threaded(pages, words) && b < NSIZES && slot < TOTAL_REFS
      requires Inv(Value(), live) && Unused(Value(), live, prpage)
      requires forall i :: 0 <= i < |pages| ==> pages[i].slot != slot
      modifies this`pages, this`words, this`allbase, refs, sizebases
      ensures pages == [HeapPage(slot, prpage, b, FreshList(b, BlocksPer(b)))] + old(pages)
      ensures Lists() && Threaded(pages, words)
    {
      ghost var g := HeapPage(slot, prpage, b, FreshList(b, BlocksPer(b)));
      FreshNotFree(Value(), live, prpage);
      ThreadPage(prpage, b, g);
      OffApart(b, BlocksPer(b) - 1, 0);
      var r := PageRef(sizebases[b], allbase, prpage, b, Off(b, BlocksPer(b) - 1), BlocksPer(b));
      FrontLinked(g, pages, refs[..], sizebases[..], allbase, r);
      FrontThreaded(g, pages, words);
      refs[slot] := r;
      sizebases[b] := slot;
      allbase := slot;
      pages := [g] + pages;
    }

    /** A page of the class with a free block: one on the list, else a fresh one; -1 when there is no room. */
    method FindOrMake(b: nat) returns (pr: int, ghost i: nat)
      requires Valid() && b < NSIZES
      modifies this`pages, this`words, this`allbase, refs, sizebases, frames`clock, frames.entries, inuse, numinuse, roots
      ensures Lists() && Threaded(pages, words) && Counted(inuse[..], numinuse[..])
      ensures pr != -1 ==> i < |pages| && pr == pages[i].slot && pages[i].free != [] && PageOk(Value(), pages[i])
      ensures SubAlloc(old(Value()), b) == if pr == -1 then (Value(), Null) else Take(Value(), i)
    {
      pr, i := FindFreePage(b);
      if pr == -1 {
        NewPageInv(Value(), live, b);
        var ok := NewPage(b);
        if ok {
          pr, i := allbase, 0;
          assert PageOk(Value(), pages[0]);
        }
      } else {
        assert PageOk(Value(), pages[i]);
      }
    }

    /** `subpage_kmalloc`. */
    method SubpageKmalloc(sz: nat) returns (r: Result)
      requires Valid() && sz < LARGEST
      modifies this`pages, this`words, this`allbase, this`live, refs, sizebases, frames`clock, frames.entries, inuse, numinuse, roots
      ensures BlockType(sz) < NSIZES && (Value(), r) == SubAlloc(old(Value()), BlockType(sz))
      ensures Valid() && live == if r.Got? then old(live)[r.addr := sz] else old(live)
    {
      var b := BlockType(sz);
      assert SizeOf(NSIZES - 1) == LARGEST;
      SubAllocInv(Value(), live, sz);
      var pr, i := FindOrMake(b);
      if pr == -1 {
        return Null;
      }
      var a := TakeBlock(pr, i);
      live := live[a := sz];
      r := Got(a);
    }

    /** `kmalloc`. */
    method Kmalloc(sz: nat) returns (r: Result)
      requires Valid()
      modifies this`pages, this`words, this`allbase, this`live, refs, sizebases, frames`clock, frames.entries, inuse, numinuse, roots
      ensures (Value(), r) == KHeap.Kmalloc(old(Value()), sz)
      ensures Valid() && live == if r.Got? then old(live)[r.addr := sz] else old(live)
    {
      if sz >= LARGEST {
        KmallocInv(Value(), live, sz);
        var va := AllocKpages((sz + PAGE_SIZE - 1) / PAGE_SIZE);
        if va == 0 {
          return Null;
        }
        live := live[va := sz];
        return Got(va);
      }
      assert SizeOf(NSIZES - 1) == LARGEST;
      r := SubpageKmalloc(sz);
    }

    // ---- taking a page off the lists ----

    /** The first loop of `remove_lists`, over the list of the page's class. */
    method UnlinkSame(pr: nat, ghost t: nat) returns (ghost p: int)
      requires Shape() && Lists() && t < |pages| && pr == pages[t].slot
      modifies refs, sizebases
      ensures PrevOf(pages, t, p)
      ensures refs[..] == Relinked(pages, old(refs[..]), t, p)
      ensures sizebases[..] == Rebased(pages, old(refs[..]), old(sizebases[..]), t, p)
    {
      assert Informs(pages, refs[..], t);
      var b := refs[pr].blk;
      var prev, cur := -1, sizebases[b];
      ghost var i := NextOf(pages, b, 0);
      p := -1;
      assert BaseLink(pages, sizebases[..], b);
      while cur != pr
        invariant refs[..] == old(refs[..]) && sizebases[..] == old(sizebases[..])
        invariant -1 <= p < t && i == NextOf(pages, b, p + 1) && i <= t && cur == pages[i].slot
        invariant prev == if p == -1 then -1 else pages[p].slot
        invariant p >= 0 ==> pages[p].blk == b
        decreases t - i
      {
        assert SameLink(pages, refs[..], i);
        prev, p := cur, i;
        cur, i := refs[cur].nextSame, NextOf(pages, b, i + 1);
      }
      if prev == -1 {
        sizebases[b] := refs[pr].nextSame;
      } else {
        refs[prev] := refs[prev].(nextSame := refs[pr].nextSame);
      }
    }

    /** The second loop, over the list of all pages. */
    method UnlinkAll(pr: nat, ghost t: nat)
      requires Shape() && Slotted(pages, refs[..]) && AllLinked(pages, refs[..], allbase) && t < |pages| && pr == pages[t].slot
      modifies refs, this`allbase
      ensures var past := old(refs[pages[t].slot]).nextAll;
        && allbase == (if t == 0 then past else old(allbase))
        && refs[..] == (if t == 0 then old(refs[..]) else old(refs[..])[pages[t - 1].slot := old(refs[..])[pages[t - 1].slot].(nextAll := past)])
    {
      var prev, cur := -1, allbase;
      ghost var i := 0;
      while cur != pr
        invariant refs[..] == old(refs[..]) && allbase == old(allbase)
        invariant i <= t && cur == pages[i].slot && prev == if i == 0 then -1 else pages[i - 1].slot
        decreases t - i
      {
        assert AllLink(pages, refs[..], i);
        prev, cur, i := cur, refs[cur].nextAll, i + 1;
      }
      if prev == -1 {
        allbase := refs[pr].nextAll;
      } else {
        refs[prev] := refs[prev].(nextAll := refs[pr].nextAll);
      }
    }

    /** `remove_lists`. */
    method RemoveLists(pr: nat, ghost t: nat)
      requires Shape() && Lists() && t < |pages| && pr == pages[t].slot
      modifies refs, sizebases, this`allbase, this`pages
      ensures pages == Without(old(pages), t) && Lists()
    {
      ghost var refs0 := refs[..];
      ghost var p := UnlinkSame(pr, t);
      SameCut(pages, refs0, old(sizebases[..]), t, p);
      ghost var refs1 := refs[..];
      RelinkedRest(pages, refs0, allbase, t, p);
      UnlinkAll(pr, t);
      AllCut(pages, refs1, old(allbase), t, refs[..], allbase);
      SlottedCut(pages, refs[..], t);
      NextAllRest(pages, refs1, refs[..], sizebases[..], t);
      pages := Without(pages, t);
    }

    // ---- `kfree` ----

    /** A block back on its page's free list. */
    method PushBlock(pr: nat, ghost i: nat, offset: nat)
      requires Shape() && Lists() && Threaded(pages, words)
      requires i < |pages| && pr == pages[i].slot && FreeOk(pages[i]) && pages[i].addr > 0
      requires NotFree(pages, pages[i].addr + offset)
      modifies this`pages, this`words, refs
      ensures pages == old(pages)[i := old(pages)[i].(free := [offset] + old(pages)[i].free)]
      ensures Lists() && Threaded(pages, words)
    {
      ghost var g := pages[i];
      var r := refs[pr];
      assert Informs(pages, refs[..], i) && PageThreaded(g, words) && NotFreeOn(g, g.addr + offset);
      if r.nfree > 0 {
        assert IsBlock(g, g.free[0]);
      }
      var next := if r.freeOff == INVALID_OFFSET then 0 else r.addr + r.freeOff;
      PushThreaded(g, words, offset);
      WordWritten(pages, words, r.addr + offset, next);
      var r' := r.(nfree := r.nfree + 1, freeOff := offset);
      RelistLinked(pages, refs[..], sizebases[..], allbase, i, [offset] + g.free, r');
      RelistThreaded(pages, words[r.addr + offset := next], i, [offset] + g.free);
      words := words[r.addr + offset := next];
      refs[pr] := r';
      pages := pages[i := g.(free := [offset] + g.free)];
    }

    /** A page with no block in use leaves the heap; false when the assertion of `freepageref` fails. */
    method DropPage(pr: nat, ghost i: nat) returns (ok: bool)
      requires Shape() && Lists() && Threaded(pages, words) && Counted(inuse[..], numinuse[..])
      requires i < |pages| && pr == pages[i].slot && PageOk(Value(), pages[i]) && FramesOk(Value())
      modifies this`pages, this`allbase, refs, sizebases, inuse, numinuse, frames.entries
      ensures ok <==> RootsBefore(old(Value()), pr)
      ensures ok ==>
        && Value() == KHeap.FreeKpages(WithoutPage(old(Value()), i), old(pages)[i].addr)
        && Lists() && Threaded(pages, words) && Counted(inuse[..], numinuse[..])
    {
      ghost var g := pages[i];
      assert Informs(pages, refs[..], i);
      var prpage := refs[pr].addr;
      CutThreaded(pages, words, i);
      RemoveLists(pr, i);
      ok := FreeRef(pr);
      if ok {
        assert HeadAt(Value(), prpage, 1);
        FreeKpages(prpage);
      }
    }

    /** The block of a live address goes back on its page's list. */
    method ReturnBlock(pr: nat, ghost i: nat, offset: nat)
      requires Valid() && i < |pages| && pr == pages[i].slot
      requires pages[i].addr + offset in live && FindPage(pages, pages[i].addr + offset) == i
      modifies this`pages, this`words, refs
      ensures Value() == WithFree(old(Value()), i, [offset] + old(pages)[i].free)
      ensures Lists() && Threaded(pages, words)
    {
      assert PageOk(Value(), pages[i]);
      LiveNotFreeBlock(Value(), live, pages[i].addr + offset);
      PushBlock(pr, i, offset);
    }

    /** A page goes when all its blocks are free. */
    method DropIfFree(pr: nat, ghost i: nat) returns (r: Result)
      requires Shape() && Lists() && Threaded(pages, words) && Counted(inuse[..], numinuse[..])
      requires i < |pages| && pr == pages[i].slot && PageOk(Value(), pages[i]) && FramesOk(Value())
      modifies this`pages, this`allbase, refs, sizebases, inuse, numinuse, frames.entries
      ensures Dropped(old(Value()), i, Value(), r)
      ensures r != Panic ==> Lists() && Threaded(pages, words) && Counted(inuse[..], numinuse[..])
    {
      assert Informs(pages, refs[..], i);
      if refs[pr].nfree == BlocksPer(refs[pr].blk) {
        var ok := DropPage(pr, i);
        if !ok {
          return Panic;
        }
      }
      r := Freed;
    }

    /** `subpage_kfree` once the page is found. */
    method FreeOnPage(pr: nat, ghost i: nat, a: nat) returns (r: Result)
      requires Valid() && (a in live || Caught(Value(), a)) && i == FindPage(pages, a) && i < |pages| && pr == pages[i].slot
      modifies this`pages, this`words, this`allbase, this`live, refs, sizebases, frames.entries, inuse, numinuse
      ensures r == KHeap.Kfree(old(Value()), a).1
      ensures r != Panic ==> Value() == KHeap.Kfree(old(Value()), a).0 && Valid() && live == old(live) - {a}
    {
      assert PageOk(Value(), pages[i]) && Informs(pages, refs[..], i);
      var offset := a - refs[pr].addr;
      CaughtPanics(Value(), live, a);
      if !Aligned(refs[pr].blk, offset) || refs[pr].freeOff == offset {
        return Panic;
      }
      r := FreeLive(pr, i, offset);
    }

    /** The rest of it, for a block that passes the checks. */
    method FreeLive(pr: nat, ghost i: nat, offset: nat) returns (r: Result)
      requires Valid() && i < |pages| && pr == pages[i].slot
      requires var a := pages[i].addr + offset; a in live && FindPage(pages, a) == i
      modifies this`pages, this`words, this`allbase, this`live, refs, sizebases, frames.entries, inuse, numinuse
      ensures var a := old(pages)[i].addr + offset;
        && r == KHeap.Kfree(old(Value()), a).1
        && (r != Panic ==> Value() == KHeap.Kfree(old(Value()), a).0 && Valid() && live == old(live) - {a})
    {
      ghost var h, was, a := Value(), live, pages[i].addr + offset;
      ghost var o := OnPageCases(h, was, a);
      ReturnBlock(pr, i, offset);
      live := was - {a};
      r := DropIfFree(pr, i);
      DroppedIsFreed(h, was, a, offset, Value(), r);
    }

    /** `kfree` of a live block, of the null pointer, or of an address at which its checks fail. */
    method Kfree(a: nat) returns (r: Result)
      requires Valid() && (a == 0 || a in live || Caught(Value(), a))
      modifies this`pages, this`words, this`allbase, this`live, refs, sizebases, frames.entries, inuse, numinuse
      ensures a == 0 ==> r == Freed && Value() == old(Value()) && Valid() && live == old(live)
      ensures a != 0 ==> r == KHeap.Kfree(old(Value()), a).1
      ensures a != 0 && r != Panic ==> Value() == KHeap.Kfree(old(Value()), a).0 && Valid() && live == old(live) - {a}
    {
      if a == 0 {
        return Freed;
      }
      var pr, i := FindPageOf(a);
      if pr != -1 {
        r := FreeOnPage(pr, i, a);
      } else if a % PAGE_SIZE != 0 {
        r := Panic;
      } else {
        FreePages(a);
        r := Freed;
      }
    }

    /** `kfree` of a block of whole pages. */
    method FreePages(a: nat)
      requires Valid() && a in live && FindPage(pages, a) == |pages|
      modifies this`live, frames.entries
      ensures (Value(), Freed) == KHeap.Kfree(old(Value()), a) && Valid() && live == old(live) - {a}
    {
      assert IsLive(Value(), a, live[a]);
      KfreeInv(Value(), live, a);
      assert HeadAt(Value(), a, PagesFor(live[a]));
      FreeKpages(a);
      live := live - {a};
    }
  }

  /** The address fails a check of `kfree`: no block starts there, or the block heads its page's free list. */
  predicate Caught(h: Heap, a: nat) {
    var i := FindPage(h.pages, a);
    if i == |h.pages| then a % PAGE_SIZE != 0
    else
      var g := h.pages[i];
      g.blk < NSIZES && (!Aligned(g.blk, a - g.addr) || (g.free != [] && g.free[0] == a - g.addr))
  }

  /** `kfree` panics at an address that fails its checks, and no live block does. */
  lemma CaughtPanics(h: Heap, live: Live, a: nat)
    requires HeapInv(h, live)
    ensures Caught(h, a) ==> KHeap.Kfree(h, a) == (h, Panic) && a !in live
  {
    if Caught(h, a) && a in live {
      assert IsLive(h, a, live[a]);
      if FindPage(h.pages, a) < |h.pages| {
        OnPageIsSub(h, a, live[a]);
      } else {
        PosOfVAddr(h, PosOf(h, a));
      }
    }
  }

  /** A page all free has gone, unless the assertion about earlier roots fails. */
  ghost predicate Dropped(h: Heap, i: nat, h': Heap, r: Result)
    requires i < |h.pages| && h.pages[i].blk < NSIZES && h.pages[i].slot < |h.inuse|
  {
    var g := h.pages[i];
    if |g.free| < BlocksPer(g.blk) then r == Freed && h' == h
    else if RootsBefore(h, g.slot) then r == Freed && h' == KHeap.FreeKpages(WithoutPage(h, i), g.addr)
    else r == Panic
  }

  /** The block put back, and its page dropped if it is all free, is `kfree` of a live block. */
  lemma DroppedIsFreed(h: Heap, live: Live, a: nat, o: nat, h': Heap, r: Result)
    requires HeapInv(h, live) && a in live && FindPage(h.pages, a) < |h.pages| && a == h.pages[FindPage(h.pages, a)].addr + o
    requires var i := FindPage(h.pages, a);
      h.pages[i].blk < NSIZES && h.pages[i].slot < |h.inuse| && Dropped(WithFree(h, i, [o] + h.pages[i].free), i, h', r)
    ensures r == KHeap.Kfree(h, a).1
    ensures r != Panic ==> h' == KHeap.Kfree(h, a).0 && HeapInv(h', live - {a})
  {
    var p := OnPageCases(h, live, a);
  }

  /** What `kfree` of a live block of a heap page comes to. */
  lemma OnPageCases(h: Heap, live: Live, a: nat) returns (o: nat)
    requires HeapInv(h, live) && a in live && FindPage(h.pages, a) < |h.pages|
    ensures var i := FindPage(h.pages, a);
      var g := h.pages[i];
      var hp := WithFree(h, i, [o] + g.free);
      && a == g.addr + o && IsBlock(g, o) && g.slot < |h.inuse| && PageOk(hp, hp.pages[i]) && FramesOk(hp)
      && (|g.free| + 1 < BlocksPer(g.blk) ==> KHeap.Kfree(h, a) == (hp, Freed) && HeapInv(hp, live - {a}))
      && (|g.free| + 1 >= BlocksPer(g.blk) ==>
            if RootsBefore(hp, g.slot)
            then KHeap.Kfree(h, a) == (KHeap.FreeKpages(WithoutPage(hp, i), g.addr), Freed) && HeapInv(KHeap.Kfree(h, a).0, live - {a})
            else KHeap.Kfree(h, a).1 == Panic)
  {
    assert IsLive(h, a, live[a]);
    OnPageIsSub(h, a, live[a]);
    var i;
    i, o := SubLiveAt(h, a, live[a]);
    SubFreeCases(h, i, o);
    PushedPage(h, i, o);
    KfreeInv(h, live, a);
    PushInv(h, live, i, o);
    assert PageOk(WithFree(h, i, [o] + h.pages[i].free), WithFree(h, i, [o] + h.pages[i].free).pages[i]);
  }

  /** A live block is no free block. */
  lemma LiveNotFreeBlock(h: Heap, live: Live, a: nat)
    requires HeapInv(h, live) && a in live
    ensures NotFree(h.pages, a)
  {
    forall i | 0 <= i < |h.pages| ensures NotFreeOn(h.pages[i], a) {
      forall k | 0 <= k < |h.pages[i].free| ensures h.pages[i].addr + h.pages[i].free[k] != a {
        FreeNotLive(h, live, i, h.pages[i].free[k]);
      }
    }
  }

  /** The block put back is out of the way when its page goes. */
  lemma PushedPage(h: Heap, i: nat, o: nat)
    requires i < |h.pages| && h.pages[i].slot < |h.inuse|
    ensures WithoutPage(WithFree(h, i, [o] + h.pages[i].free), i) == WithoutPage(h, i)
  {
  }

  /** Unlinking from a class list leaves what the records say and the list of all pages. */
  lemma RelinkedRest(pages: seq<HeapPage>, refs: seq<PageRef>, all: int, t: nat, p: int)
    requires Slotted(pages, refs) && Informed(pages, refs) && AllLinked(pages, refs, all) && t < |pages| && PrevOf(pages, t, p)
    ensures var refs' := Relinked(pages, refs, t, p);
      Slotted(pages, refs') && Informed(pages, refs') && AllLinked(pages, refs', all)
  {
    var refs' := Relinked(pages, refs, t, p);
    forall i | 0 <= i < |pages| ensures Informs(pages, refs', i) && AllLink(pages, refs', i) {
      assert Informs(pages, refs, i) && AllLink(pages, refs, i);
    }
  }

  /** Unlinking from the list of all pages leaves what the records say and the class lists. */
  lemma NextAllRest(pages: seq<HeapPage>, refs: seq<PageRef>, refs': seq<PageRef>, sizes: seq<int>, t: nat)
    requires Slotted(pages, refs) && Informed(pages, refs) && t < |pages|
    requires |refs'| == |refs| && forall s :: 0 <= s < |refs| ==> refs'[s] == refs[s].(nextAll := refs'[s].nextAll)
    requires Slotted(Without(pages, t), refs) && SameLinked(Without(pages, t), refs, sizes)
    ensures Slotted(Without(pages, t), refs') && Informed(Without(pages, t), refs') && SameLinked(Without(pages, t), refs', sizes)
  {
    var ps := Without(pages, t);
    forall k | 0 <= k < |ps| ensures Informs(ps, refs', k) && SameLink(ps, refs', k) {
      assert Informs(pages, refs, Skip(t, k)) && SameLink(ps, refs, k);
    }
    forall b | 0 <= b < NSIZES ensures BaseLink(ps, sizes, b) {
    }
  }

  /** No free block is on a page that is none of the heap's. */
  lemma FreshNotFree(h: Heap, live: Live, va: nat)
    requires Inv(h, live) && Unused(h, live, va)
    ensures forall x :: va <= x < va + PAGE_SIZE ==> NotFree(h.pages, x)
  {
    forall x, i | va <= x < va + PAGE_SIZE && 0 <= i < |h.pages| ensures NotFreeOn(h.pages[i], x) {
      assert PageOk(h, h.pages[i]);
      HeadsApart(h, va, 1, h.pages[i].addr, 1);
      forall k | 0 <= k < |h.pages[i].free| ensures h.pages[i].addr + h.pages[i].free[k] != x {
        assert IsBlock(h.pages[i], h.pages[i].free[k]);
      }
    }
  }

  /** The `j`-th block leads to the one before it. */
  ghost predicate Chained(g: HeapPage, words: map<nat, nat>, j: nat)
    requires g.blk < NSIZES
  {
    g.addr + Off(g.blk, j) in words && words[g.addr + Off(g.blk, j)] == if j == 0 then 0 else g.addr + Off(g.blk, j - 1)
  }

  lemma ChainThreaded(g: HeapPage, words: map<nat, nat>)
    requires g.blk < NSIZES && g.free == FreshList(g.blk, BlocksPer(g.blk))
    requires forall j {:trigger Chained(g, words, j)} :: 0 <= j < BlocksPer(g.blk) ==> Chained(g, words, j)
    ensures PageThreaded(g, words)
  {
    forall k | 0 <= k < |g.free| ensures WordOk(g, words, k) {
      assert Chained(g, words, BlocksPer(g.blk) - 1 - k);
    }
  }

  lemma OffApart(b: nat, i: nat, j: nat)
    requires b < NSIZES && i < BlocksPer(b)
    ensures Off(b, i) < PAGE_SIZE && (i != j ==> Off(b, i) != Off(b, j))
  {
  }

  lemma FindFreeNext(pages: seq<HeapPage>, b: nat, i: nat)
    requires i < |pages| && pages[i].free == []
    ensures FindFree(pages, b, i) == FindFree(pages, b, NextOf(pages, b, i + 1))
  {
    var r, q := FindFree(pages, b, i), FindFree(pages, b, NextOf(pages, b, i + 1));
  }
}
