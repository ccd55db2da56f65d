/**
 * `kmalloc` keeps the kernel heap (kern/vm/kmalloc.c): a block handed out
 * was not live, and every block of every page is then free or live.
 */
module HeapAllocation {
  import opened Layout
  import opened Coremap
  import opened KHeap

  // ---- allocating ----

  lemma KpagesKept(h: Heap, live: Live, n: nat)
    requires Inv(h, live) && n > 0
    ensures var (h', va) := AllocKpages(h, n);
      && Inv(h', live) && HeadsKept(h, h', 0) && h' == h.(cm := h'.cm, clock := h'.clock)
      && (va != 0 ==> HeadAt(h', va, n) && va % PAGE_SIZE == 0 && NoPageAt(h', va) && va !in h'.roots && va !in live)
      && (va != 0 ==> forall k :: !HeadAt(h, va, k))
  {
    AllocHeads(h, n);
    var (h', va) := AllocKpages(h, n);
    NewIsUnused(h, live, 0);
    FramesChanged(h, h', live, 0);
    if va != 0 {
      NewIsUnused(h, live, va);
    }
  }

  /** A block of whole pages becomes live. */
  lemma BigAllocInv(h: Heap, live: Live, sz: nat)
    requires Inv(h, live) && sz >= LARGEST
    ensures var (h', va) := AllocKpages(h, PagesFor(sz));
      if va == 0 then Inv(h', live) else va !in live && Inv(h', live[va := sz]) && BigLive(h', va, sz)
  {
    KpagesKept(h, live, PagesFor(sz));
  }

  lemma RefFree(h: Heap, slot: nat)
    requires AllPagesOk(h) && slot < |h.inuse| && !h.inuse[slot]
    ensures forall i :: 0 <= i < |h.pages| ==> h.pages[i].slot != slot
  {
    forall i | 0 <= i < |h.pages| ensures h.pages[i].slot != slot {
      assert PageOk(h, h.pages[i]);
    }
  }

  /** Marking a slot keeps the heap. */
  lemma MarkKept(h: Heap, live: Live, slot: nat)
    requires Inv(h, live) && slot < |h.inuse|
    ensures Inv(h.(inuse := h.inuse[slot := true]), live)
  {
    var h' := h.(inuse := h.inuse[slot := true]);
    forall i | 0 <= i < |h.pages| ensures PageOk(h', h.pages[i]) {
      assert PageOk(h, h.pages[i]);
    }
    forall r | 0 <= r < |h.roots| && h.roots[r] != 0 ensures RootOk(h', h.roots[r]) {
      assert RootOk(h, h.roots[r]);
    }
    LiveKept(h, h', live, 0) by {
      NewIsUnused(h, live, 0);
    }
  }

  lemma RootsAdded(h: Heap, r: nat, va: nat)
    requires RootsOk(h) && r < |h.roots| && h.roots[r] == 0 && HeadAt(h, va, 1) && va != 0 && NoPageAt(h, va) && va !in h.roots
    ensures RootsOk(h.(roots := h.roots[r := va]))
  {
    var h' := h.(roots := h.roots[r := va]);
    forall q | 0 <= q < |h'.roots| && h'.roots[q] != 0 ensures RootOk(h', h'.roots[q]) {
      if q != r {
        assert RootOk(h, h.roots[q]);
      }
    }
  }

  lemma PagesRooted(h: Heap, r: nat, va: nat)
    requires AllPagesOk(h) && r < |h.roots| && h.roots[r] == 0
    ensures AllPagesOk(h.(roots := h.roots[r := va]))
  {
    var h' := h.(roots := h.roots[r := va]);
    forall i | 0 <= i < |h.pages| ensures PageOk(h', h.pages[i]) {
      assert PageOk(h, h.pages[i]);
    }
  }

  lemma BlockRooted(h: Heap, a: nat, sz: nat, r: nat, va: nat)
    requires IsLive(h, a, sz)
    requires r < |h.roots| && va != a
    ensures var h' := h.(roots := h.roots[r := va]); IsLive(h', a, sz)
  {
  }

  lemma LiveRooted(h: Heap, live: Live, r: nat, va: nat)
    requires LiveOk(h, live) && r < |h.roots| && va !in live
    ensures LiveOk(h.(roots := h.roots[r := va]), live)
  {
    var h' := h.(roots := h.roots[r := va]);
    forall a | a in live ensures IsLive(h', a, live[a]) {
      assert IsLive(h, a, live[a]);
      BlockRooted(h, a, live[a], r, va);
    }
  }

  /** A new page of records keeps the heap. */
  lemma RootAdded(h: Heap, live: Live, r: nat, va: nat)
    requires Inv(h, live) && r < |h.roots| && h.roots[r] == 0 && HeadAt(h, va, 1)
    requires va != 0 && NoPageAt(h, va) && va !in h.roots && va !in live
    ensures Inv(h.(roots := h.roots[r := va]), live)
  {
    RootsAdded(h, r, va);
    PagesRooted(h, r, va);
    LiveRooted(h, live, r, va);
  }

  /** The heap and the heads it had are kept; addresses that headed a block are no new page of records. */
  ghost predicate RefStep(h: Heap, h': Heap, live: Live) {
    && Inv(h', live) && HeadsKept(h, h', 0) && h'.pages == h.pages && h'.base == h.base
    && (forall a, k {:trigger HeadAt(h, a, k)} :: HeadAt(h, a, k) && a !in h.roots ==> a !in h'.roots)
  }

  /** The page of records for a slot just marked. */
  lemma RootForSlot(h: Heap, live: Live, slot: nat)
    requires Inv(h, live) && slot < |h.inuse| && RootOf(slot) < |h.roots| && h.roots[RootOf(slot)] == 0
    ensures var (h2, va) := AllocKpages(h, 1);
      if va == 0 then RefStep(h, h2, live) else RefStep(h, h2.(roots := h2.roots[RootOf(slot) := va]), live)
  {
    KpagesKept(h, live, 1);
    var (h2, va) := AllocKpages(h, 1);
    if va != 0 {
      RootAdded(h2, live, RootOf(slot), va);
    }
  }

  /** `allocpageref` keeps the heap; a record it returns is nobody's, and on a page of records. */
  lemma AllocRefInv(h: Heap, live: Live)
    requires Inv(h, live)
    ensures var (h', ref) := AllocRef(h);
      && RefStep(h, h', live)
      && (ref != NoRef ==> RefOk(h', ref.slot) && forall i :: 0 <= i < |h.pages| ==> h.pages[i].slot != ref.slot)
  {
    var s := FirstClear(h.inuse);
    if s < |h.inuse| {
      RefFree(h, s);
      var h1 := h.(inuse := h.inuse[s := true]);
      MarkKept(h, live, s);
      if h.roots[RootOf(s)] == 0 {
        RootForSlot(h1, live, s);
        RefChain(h, h1, AllocRef(h).0, live);
      }
    }
  }

  lemma RefChain(h: Heap, h1: Heap, h2: Heap, live: Live)
    requires h1 == h.(inuse := h1.inuse) && RefStep(h1, h2, live)
    ensures RefStep(h, h2, live)
  {
    forall a: nat, k: nat | HeadAt(h, a, k) ensures HeadAt(h1, a, k) {
    }
  }

  lemma FindPageSame(ps: seq<HeapPage>, qs: seq<HeapPage>, a: nat)
    requires |qs| == |ps| && forall i :: 0 <= i < |ps| ==> qs[i].addr == ps[i].addr
    ensures FindPage(qs, a) == FindPage(ps, a)
  {
    var r, q := FindPage(ps, a), FindPage(qs, a);
    assert r < |ps| ==> OnPage(qs[r], a);
    assert q < |qs| ==> OnPage(ps[q], a);
  }

  /** A kernel block other than the page itself lies off the page. */
  lemma OffPage(h: Heap, a: nat, n: nat, i: nat)
    requires FramesOk(h) && AllPagesOk(h) && HeadAt(h, a, n) && i < |h.pages| && h.pages[i].addr != a
    ensures a + n * PAGE_SIZE <= h.pages[i].addr || h.pages[i].addr + PAGE_SIZE <= a
  {
    assert PageOk(h, h.pages[i]);
    HeadsApart(h, a, n, h.pages[i].addr, 1);
  }

  /** A free block is not live. */
  lemma FreeNotLive(h: Heap, live: Live, i: nat, o: nat)
    requires Inv(h, live) && i < |h.pages| && o in h.pages[i].free
    ensures h.pages[i].addr + o !in live
  {
    var a := h.pages[i].addr + o;
    assert PageOk(h, h.pages[i]);
    var k :| 0 <= k < |h.pages[i].free| && h.pages[i].free[k] == o;
    assert IsBlock(h.pages[i], o);
    OnePage(h, a, i);
    if a in live && !SubLive(h, a, live[a]) {
      assert IsLive(h, a, live[a]);
      OffPage(h, a, PagesFor(live[a]), i);
    }
  }

  /** Page `i` with another free list. */
  function WithFree(h: Heap, i: nat, free: seq<nat>): (r: Heap)
    requires i < |h.pages|
    ensures |r.pages| == |h.pages| && forall k :: 0 <= k < |h.pages| ==> r.pages[k] == h.pages[k].(free := r.pages[k].free)
  {
    h.(pages := h.pages[i := h.pages[i].(free := free)])
  }

  lemma PagesRelisted(h: Heap, i: nat, free: seq<nat>)
    requires AllPagesOk(h) && i < |h.pages| && FreeOk(h.pages[i].(free := free))
    ensures AllPagesOk(WithFree(h, i, free))
  {
    var h' := WithFree(h, i, free);
    forall k | 0 <= k < |h'.pages| ensures PageOk(h', h'.pages[k]) {
      assert PageOk(h, h.pages[k]);
    }
  }

  lemma RootsRelisted(h: Heap, i: nat, free: seq<nat>)
    requires RootsOk(h) && i < |h.pages|
    ensures RootsOk(WithFree(h, i, free))
  {
    var h' := WithFree(h, i, free);
    forall r | 0 <= r < |h'.roots| && h'.roots[r] != 0 ensures RootOk(h', h'.roots[r]) {
      assert RootOk(h, h.roots[r]);
    }
  }

  lemma HeapRelisted(h: Heap, i: nat, free: seq<nat>)
    requires HeapOk(h) && i < |h.pages| && FreeOk(h.pages[i].(free := free))
    ensures HeapOk(WithFree(h, i, free))
  {
    PagesRelisted(h, i, free);
    RootsRelisted(h, i, free);
  }

  /** A live block stays live if its page's free list does not gain it. */
  lemma BlockRelisted(h: Heap, i: nat, free: seq<nat>, a: nat, sz: nat)
    requires IsLive(h, a, sz)
    requires i < |h.pages| && (FindPage(h.pages, a) == i && a >= h.pages[i].addr ==> a - h.pages[i].addr !in free)
    ensures IsLive(WithFree(h, i, free), a, sz)
  {
    FindPageSame(h.pages, WithFree(h, i, free).pages, a);
  }

  // ---- handing a block out ----

  lemma TailOk(g: HeapPage)
    requires FreeOk(g) && g.free != []
    ensures FreeOk(g.(free := g.free[1..])) && g.free[0] !in g.free[1..] && |g.free[1..]| < BlocksPer(g.blk)
    ensures IsBlock(g, g.free[0])
  {
    var g' := g.(free := g.free[1..]);
    forall k | 0 <= k < |g'.free| ensures IsBlock(g', g'.free[k]) {
      assert IsBlock(g, g.free[k + 1]);
    }
    assert IsBlock(g, g.free[0]);
  }

  /** The block taken is live in the new heap. */
  lemma TakenIsLive(h: Heap, i: nat, sz: nat)
    requires HeapOk(h) && i < |h.pages| && h.pages[i].free != []
    requires sz < LARGEST && h.pages[i].blk == BlockType(sz)
    ensures SubLive(WithFree(h, i, h.pages[i].free[1..]), h.pages[i].addr + h.pages[i].free[0], sz)
  {
    var g := h.pages[i];
    assert PageOk(h, g);
    TailOk(g);
    OnePage(h, g.addr + g.free[0], i);
    FindPageSame(h.pages, WithFree(h, i, g.free[1..]).pages, g.addr + g.free[0]);
  }

  lemma OthersStayLive(h: Heap, live: Live, i: nat, x: nat)
    requires Inv(h, live) && i < |h.pages| && h.pages[i].free != [] && x in live
    ensures var h' := WithFree(h, i, h.pages[i].free[1..]); IsLive(h', x, live[x])
  {
    assert IsLive(h, x, live[x]);
    if x >= h.pages[i].addr {
      LiveNotFree(h, live, i, x);
    }
    BlockRelisted(h, i, h.pages[i].free[1..], x, live[x]);
  }

  lemma TakenLive(h: Heap, live: Live, i: nat, sz: nat)
    requires Inv(h, live) && i < |h.pages| && h.pages[i].free != []
    requires sz < LARGEST && h.pages[i].blk == BlockType(sz)
    ensures var a := h.pages[i].addr + h.pages[i].free[0];
      LiveOk(WithFree(h, i, h.pages[i].free[1..]), live[a := sz]) && a !in live
  {
    FreeNotLive(h, live, i, h.pages[i].free[0]);
    TakenIsLive(h, i, sz);
    var h' := WithFree(h, i, h.pages[i].free[1..]);
    forall x | x in live ensures IsLive(h', x, live[x]) {
      OthersStayLive(h, live, i, x);
    }
    LiveAdded(h', live, h.pages[i].addr + h.pages[i].free[0], sz);
  }

  lemma LiveAdded(h: Heap, live: Live, a: nat, sz: nat)
    requires LiveOk(h, live) && IsLive(h, a, sz)
    ensures LiveOk(h, live[a := sz])
  {
    var live' := live[a := sz];
    forall x | x in live' ensures IsLive(h, x, live'[x]) {
      if x != a {
        assert IsLive(h, x, live[x]);
      }
    }
  }

  lemma LiveNotFree(h: Heap, live: Live, i: nat, x: nat)
    requires Inv(h, live) && i < |h.pages| && x in live && x >= h.pages[i].addr
    ensures x - h.pages[i].addr !in h.pages[i].free
  {
    if x - h.pages[i].addr in h.pages[i].free {
      FreeNotLive(h, live, i, x - h.pages[i].addr);
    }
  }

  lemma TakenAccounted(h: Heap, live: Live, i: nat, sz: nat)
    requires Accounted(h, live) && i < |h.pages| && h.pages[i].free != []
    ensures Accounted(WithFree(h, i, h.pages[i].free[1..]), live[h.pages[i].addr + h.pages[i].free[0] := sz])
  {
    var h' := WithFree(h, i, h.pages[i].free[1..]);
    forall k, o: nat | 0 <= k < |h'.pages| && IsBlock(h'.pages[k], o) && o !in h'.pages[k].free
      ensures h'.pages[k].addr + o in live[h.pages[i].addr + h.pages[i].free[0] := sz]
    {
      assert IsBlock(h.pages[k], o);
      if k == i && o in h.pages[i].free {
        assert o == h.pages[i].free[0];
      }
    }
  }

  /** The head of a page's free list becomes live. */
  lemma TakeInv(h: Heap, live: Live, i: nat, sz: nat)
    requires Inv(h, live) && i < |h.pages| && h.pages[i].free != []
    requires sz < LARGEST && h.pages[i].blk == BlockType(sz)
    ensures var (h', r) := Take(h, i);
      && r.Got? && r.addr !in live && Inv(h', live[r.addr := sz])
      && h' == WithFree(h, i, h.pages[i].free[1..]) && |h'.pages[i].free| < BlocksPer(h.pages[i].blk)
  {
    HeadRelisted(h, i);
    TakenLive(h, live, i, sz);
    TakenAccounted(h, live, i, sz);
  }

  lemma HeadRelisted(h: Heap, i: nat)
    requires HeapOk(h) && i < |h.pages| && h.pages[i].free != []
    ensures var h' := WithFree(h, i, h.pages[i].free[1..]);
      && HeapOk(h') && h.pages[i].blk < NSIZES && |h'.pages[i].free| < BlocksPer(h.pages[i].blk)
      && Take(h, i) == (h', Got(h.pages[i].addr + h.pages[i].free[0]))
  {
    assert PageOk(h, h.pages[i]);
    TailOk(h.pages[i]);
    HeapRelisted(h, i, h.pages[i].free[1..]);
  }

  // ---- a fresh page ----

  /** The list made for a fresh page names each of its blocks once. */
  lemma FreshOk(g: HeapPage)
    requires g.blk < NSIZES && g.free == FreshList(g.blk, BlocksPer(g.blk))
    ensures FreeOk(g) && |g.free| == BlocksPer(g.blk)
    ensures forall o: nat :: IsBlock(g, o) ==> o in g.free
  {
    var b, n := g.blk, BlocksPer(g.blk);
    forall k | 0 <= k < n ensures IsBlock(g, g.free[k]) {
      FreshBlock(b, n, k);
    }
    forall i, j | 0 <= i < j < n ensures g.free[i] != g.free[j] {
      FreshApart(b, n, i, j);
    }
    forall o: nat | IsBlock(g, o) ensures o in g.free {
      var k := FreshIndex(b, n, o);
      assert g.free[k] == o;
    }
  }

  lemma FreshBlock(b: nat, n: nat, k: nat)
    requires b < NSIZES && n == BlocksPer(b) && k < n
    ensures FreshList(b, n)[k] < PAGE_SIZE && Aligned(b, FreshList(b, n)[k])
  {
    if b == 0 {
    } else if b == 1 {
    } else if b == 2 {
    } else if b == 3 {
    } else if b == 4 {
    } else if b == 5 {
    } else if b == 6 {
    } else {
    }
  }

  lemma FreshApart(b: nat, n: nat, i: nat, j: nat)
    requires b < NSIZES && n == BlocksPer(b) && i < j < n
    ensures FreshList(b, n)[i] != FreshList(b, n)[j]
  {
    if b == 0 {
    } else if b == 1 {
    } else if b == 2 {
    } else if b == 3 {
    } else if b == 4 {
    } else if b == 5 {
    } else if b == 6 {
    } else {
    }
  }

  lemma FreshIndex(b: nat, n: nat, o: nat) returns (k: nat)
    requires b < NSIZES && n == BlocksPer(b) && Aligned(b, o) && o < PAGE_SIZE
    ensures k < n && FreshList(b, n)[k] == o
  {
    if b == 0 {
      k := n - 1 - o / 16;
    } else if b == 1 {
      k := n - 1 - o / 32;
    } else if b == 2 {
      k := n - 1 - o / 64;
    } else if b == 3 {
      k := n - 1 - o / 128;
    } else if b == 4 {
      k := n - 1 - o / 256;
    } else if b == 5 {
      k := n - 1 - o / 512;
    } else if b == 6 {
      k := n - 1 - o / 1024;
    } else {
      k := n - 1 - o / 2048;
    }
  }

  // ---- adding a page ----

  /** An address that heads a kernel block used for nothing. */
  ghost predicate Unused(h: Heap, live: Live, va: nat) {
    va != 0 && va % PAGE_SIZE == 0 && HeadAt(h, va, 1) && NoPageAt(h, va) && va !in h.roots && va !in live
  }

  function WithPage(h: Heap, g: HeapPage): Heap {
    h.(pages := [g] + h.pages)
  }

  lemma PageAdded(h: Heap, g: HeapPage)
    requires AllPagesOk(h) && PagesApart(h) && PageOk(h, g) && NoPageAt(h, g.addr)
    requires forall i :: 0 <= i < |h.pages| ==> h.pages[i].slot != g.slot
    ensures AllPagesOk(WithPage(h, g)) && PagesApart(WithPage(h, g))
  {
    var h' := WithPage(h, g);
    forall i | 0 <= i < |h'.pages| ensures PageOk(h', h'.pages[i]) {
      if i > 0 {
        assert PageOk(h, h.pages[i - 1]);
      }
    }
  }

  lemma RootsWithPage(h: Heap, g: HeapPage)
    requires RootsOk(h) && g.addr !in h.roots
    ensures RootsOk(WithPage(h, g))
  {
    var h' := WithPage(h, g);
    forall r | 0 <= r < |h'.roots| && h'.roots[r] != 0 ensures RootOk(h', h'.roots[r]) {
      assert RootOk(h, h.roots[r]);
    }
  }

  lemma FindPageShift(g: HeapPage, ps: seq<HeapPage>, a: nat)
    requires !OnPage(g, a)
    ensures FindPage([g] + ps, a) == 1 + FindPage(ps, a)
  {
    var r, q := FindPage([g] + ps, a), FindPage(ps, a);
    assert q < |ps| ==> OnPage(([g] + ps)[1 + q], a);
    assert r > 0;
    assert r < 1 + |ps| ==> OnPage(ps[r - 1], a);
  }

  lemma LiveWithPage(h: Heap, live: Live, g: HeapPage, x: nat)
    requires HeapOk(h) && LiveOk(h, live) && HeadAt(h, g.addr, 1) && NoPageAt(h, g.addr) && g.addr !in live && x in live
    ensures IsLive(WithPage(h, g), x, live[x])
  {
    assert IsLive(h, x, live[x]);
    if SubLive(h, x, live[x]) {
      var i := FindPage(h.pages, x);
      assert PageOk(h, h.pages[i]);
      HeadsApart(h, g.addr, 1, h.pages[i].addr, 1);
      FindPageShift(g, h.pages, x);
    }
  }

  lemma AccountedWithPage(h: Heap, live: Live, g: HeapPage)
    requires Accounted(h, live) && forall o: nat :: IsBlock(g, o) ==> o in g.free
    ensures Accounted(WithPage(h, g), live)
  {
    var h' := WithPage(h, g);
    forall i, o: nat | 0 <= i < |h'.pages| && IsBlock(h'.pages[i], o) && o !in h'.pages[i].free
      ensures h'.pages[i].addr + o in live
    {
      if i > 0 {
        assert IsBlock(h.pages[i - 1], o);
      }
    }
  }

  /** A fresh page with all its blocks free joins the heap. */
  lemma AddPageInv(h: Heap, live: Live, g: HeapPage)
    requires Inv(h, live) && Unused(h, live, g.addr) && RefOk(h, g.slot)
    requires forall i :: 0 <= i < |h.pages| ==> h.pages[i].slot != g.slot
    requires g.blk < NSIZES && g.free == FreshList(g.blk, BlocksPer(g.blk))
    ensures Inv(WithPage(h, g), live)
  {
    FreshOk(g);
    PageAdded(h, g);
    RootsWithPage(h, g);
    AccountedWithPage(h, live, g);
    forall x | x in live ensures IsLive(WithPage(h, g), x, live[x]) {
      LiveWithPage(h, live, g, x);
    }
  }

  /** `alloc_kpages(1)` for a heap page, then its record. */
  lemma PageAndRef(h: Heap, live: Live)
    requires Inv(h, live)
    ensures var (h1, va) := AllocKpages(h, 1);
      && Inv(h1, live) && h1.pages == h.pages
      && (va != 0 ==>
            var (h2, ref) := AllocRef(h1);
            && Inv(h2, live) && h2.pages == h.pages && Unused(h2, live, va)
            && (ref != NoRef ==> RefOk(h2, ref.slot) && forall i :: 0 <= i < |h2.pages| ==> h2.pages[i].slot != ref.slot))
  {
    KpagesKept(h, live, 1);
    var (h1, va) := AllocKpages(h, 1);
    if va != 0 {
      AllocRefInv(h1, live);
    }
  }

  /** Giving back a page that was not used after all. */
  lemma UnusedFreed(h: Heap, live: Live, va: nat)
    requires Inv(h, live) && Unused(h, live, va)
    ensures Inv(FreeKpages(h, va), live)
  {
    FreeHeads(h, va, 1);
    FramesChanged(h, FreeKpages(h, va), live, va);
  }

  lemma NewPageInv(h: Heap, live: Live, b: nat)
    requires Inv(h, live) && b < NSIZES
    ensures var (h', ok) := NewPage(h, b);
      && Inv(h', live)
      && (ok ==> h'.pages != [] && h'.pages[1..] == h.pages && h'.pages[0].blk == b && h'.pages[0].free == FreshList(b, BlocksPer(b)))
      && (!ok ==> h'.pages == h.pages)
  {
    PageAndRef(h, live);
    var (h1, va) := AllocKpages(h, 1);
    if va != 0 {
      var (h2, ref) := AllocRef(h1);
      if ref == NoRef {
        UnusedFreed(h2, live, va);
      } else {
        AddPageInv(h2, live, HeapPage(ref.slot, va, b, FreshList(b, BlocksPer(b))));
      }
    }
  }

  /** The heap before the first allocation. */
  lemma EmptyInv(h: Heap)
    requires FramesOk(h) && h.pages == [] && |h.inuse| == TOTAL_REFS && |h.roots| == ROOTS
    requires forall r :: 0 <= r < ROOTS ==> h.roots[r] == 0
    ensures HeapInv(h, map[])
  {
  }

  /** What an allocation may return, and what it leaves. */
  ghost predicate Allocated(h': Heap, r: Result, live: Live, sz: nat) {
    match r
    case Got(a) => a !in live && HeapInv(h', live[a := sz])
    case Null => HeapInv(h', live)
    case _ => false
  }

  lemma TakeHeapInv(h: Heap, live: Live, i: nat, sz: nat)
    requires Inv(h, live) && i < |h.pages| && h.pages[i].free != []
    requires sz < LARGEST && h.pages[i].blk == BlockType(sz)
    requires forall k :: 0 <= k < |h.pages| && k != i ==> h.pages[k].blk < NSIZES && |h.pages[k].free| < BlocksPer(h.pages[k].blk)
    ensures Allocated(Take(h, i).0, Take(h, i).1, live, sz)
  {
    TakeInv(h, live, i, sz);
  }

  lemma SubAllocInv(h: Heap, live: Live, sz: nat)
    requires HeapInv(h, live) && sz < LARGEST && BlockType(sz) < NSIZES
    ensures var (h', r) := SubAlloc(h, BlockType(sz)); Allocated(h', r, live, sz)
  {
    var b := BlockType(sz);
    var i := FindFree(h.pages, b);
    if i < |h.pages| {
      TakeHeapInv(h, live, i, sz);
    } else {
      NewPageInv(h, live, b);
      var (h1, ok) := NewPage(h, b);
      if ok {
        forall k | 1 <= k < |h1.pages| ensures h1.pages[k] == h.pages[k - 1] {
          assert h1.pages[1..][k - 1] == h1.pages[k];
        }
        TakeHeapInv(h1, live, 0, sz);
      }
    }
  }

  /** `kmalloc` never panics; what it returns was not live, is from the smallest class that fits, and the heap is kept. */
  lemma KmallocInv(h: Heap, live: Live, sz: nat)
    requires HeapInv(h, live)
    ensures var (h', r) := Kmalloc(h, sz); Allocated(h', r, live, sz)
  {
    if sz >= LARGEST {
      BigAllocInv(h, live, sz);
      KpagesKept(h, live, PagesFor(sz));
    } else {
      assert SizeOf(NSIZES - 1) == LARGEST;
      SubAllocInv(h, live, sz);
    }
  }
}
