/** When `kmalloc` succeeds, and what it then returns (kern/vm/kmalloc.c, coremap.c). */
module HeapSuccess {
  import opened Layout
  import opened Coremap
  import opened KHeap
  import opened HeapAllocation

  // ---- whole pages ----

  /** `n` consecutive free frames from position `p` on. */
  predicate FreeRun(cm: seq<CmEntry>, p: nat, n: nat) {
    p + n <= |cm| && forall f :: p <= f < p + n ==> cm[f].state == FrameState.Free
  }

  /** The kernel address of the frame at position `p`. */
  function KernelAddr(h: Heap, p: nat): nat {
    h.base + p * PAGE_SIZE + KSEG0
  }

  /**
   * `kmalloc` of 2048 bytes or more fails if and only if there is no run of
   * as many free frames as the size takes pages; else it returns the address
   * of the lowest such run, whose frames alone change and become FIXED.
   */
  lemma BigSucceeds(h: Heap, sz: nat)
    requires sz >= 2048
    ensures var n := (sz + PAGE_SIZE - 1) / PAGE_SIZE;
      var (h', r) := Kmalloc(h, sz);
      && (r == Null <==> forall p: nat :: !FreeRun(h.cm, p, n))
      && (r == Null ==> h' == h)
      && (r != Null ==>
            exists p: nat :: FreeRun(h.cm, p, n) && (forall q: nat :: q < p ==> !FreeRun(h.cm, q, n))
              && r == Got(KernelAddr(h, p))
              && |h'.cm| == |h.cm|
              && (forall f :: 0 <= f < |h.cm| ==> if p <= f < p + n then h'.cm[f].state == Fixed && h'.cm[f].owner == Nobody else h'.cm[f] == h.cm[f])
              && h'.cm[p].npages == n
              && h' == h.(cm := h'.cm, clock := h.clock + 1))
  {
    var n := (sz + PAGE_SIZE - 1) / PAGE_SIZE;
    var p := LowestRun(h.cm, n);
    RunsAreFree(h.cm, n);
    if p < |h.cm| {
      assert FreeRun(h.cm, p, n) && IsRun(h.cm, p, n);
    }
  }

  lemma RunsAreFree(cm: seq<CmEntry>, n: nat)
    requires n > 0
    ensures forall p: nat :: FreeRun(cm, p, n) <==> IsRun(cm, p, n)
    ensures LowestRun(cm, n) == |cm| <==> forall p: nat :: !FreeRun(cm, p, n)
    ensures LowestRun(cm, n) < |cm| ==> forall q: nat :: q < LowestRun(cm, n) ==> !FreeRun(cm, q, n)
  {
    var p := LowestRun(cm, n);
    if p < |cm| {
      assert IsRun(cm, p, n) && FreeRun(cm, p, n);
    }
  }

  // ---- small blocks ----

  /** The smallest block size that holds `sz`. */
  ghost predicate SmallestClass(sz: nat, b: nat) {
    b < NSIZES && sz <= SizeOf(b) && forall c :: 0 <= c < b ==> SizeOf(c) < sz
  }

  ghost predicate NoFreeBlock(h: Heap, b: nat) {
    forall i :: 0 <= i < |h.pages| && h.pages[i].blk == b ==> h.pages[i].free == []
  }

  ghost predicate NoFreeFrame(h: Heap) {
    forall f :: 0 <= f < |h.cm| ==> h.cm[f].state != FrameState.Free
  }

  ghost predicate OneFreeFrame(h: Heap) {
    forall f, g :: 0 <= f < g < |h.cm| ==> h.cm[f].state != FrameState.Free || h.cm[g].state != FrameState.Free
  }

  ghost predicate AllMarked(h: Heap) {
    forall s :: 0 <= s < |h.inuse| ==> h.inuse[s]
  }

  /** The root of the first unmarked record has no page of records. */
  ghost predicate NextRootless(h: Heap) {
    exists s :: 0 <= s < |h.inuse| && !h.inuse[s] && (forall j :: 0 <= j < s ==> h.inuse[j])
      && s / REFS_PER_PAGE < |h.roots| && h.roots[s / REFS_PER_PAGE] == 0
  }

  /** No page for a block can be had: no frame, no record, or no second frame for a page of records. */
  ghost predicate NoPage(h: Heap) {
    NoFreeFrame(h) || AllMarked(h) || (NextRootless(h) && OneFreeFrame(h))
  }

  lemma OneFrame(cm: seq<CmEntry>)
    ensures LowestRun(cm, 1) == |cm| <==> forall f :: 0 <= f < |cm| ==> cm[f].state != FrameState.Free
    ensures LowestRun(cm, 1) < |cm| ==>
      cm[LowestRun(cm, 1)].state == FrameState.Free && forall f :: 0 <= f < LowestRun(cm, 1) ==> cm[f].state != FrameState.Free
  {
    var p := LowestRun(cm, 1);
    if p < |cm| {
      assert IsRun(cm, p, 1) && cm[p].state == FrameState.Free;
    }
    forall f | 0 <= f < |cm| && cm[f].state == FrameState.Free ensures p <= f {
      assert IsRun(cm, f, 1);
    }
  }

  /** After one frame is claimed there is another exactly when there were two. */
  lemma SecondFrame(h: Heap)
    requires !NoFreeFrame(h)
    ensures AllocKpages(h, 1).1 != 0
    ensures NoFreeFrame(AllocKpages(h, 1).0) <==> OneFreeFrame(h)
    ensures AllocKpages(h, 1).0 == h.(cm := AllocKpages(h, 1).0.cm, clock := h.clock + 1)
  {
    OneFrame(h.cm);
    var p := LowestRun(h.cm, 1);
    var h' := AllocKpages(h, 1).0;
    PosOfVAddr(h, p);
    forall f | 0 <= f < |h.cm| ensures h'.cm[f].state == if f == p then Fixed else h.cm[f].state {
    }
    if !OneFreeFrame(h) {
      var f, g :| 0 <= f < g < |h.cm| && h.cm[f].state == FrameState.Free && h.cm[g].state == FrameState.Free;
      assert h'.cm[g].state == FrameState.Free;
    }
  }

  lemma NoFrameNoPage(h: Heap)
    ensures AllocKpages(h, 1).1 == 0 <==> NoFreeFrame(h)
  {
    OneFrame(h.cm);
    PosOfVAddr(h, LowestRun(h.cm, 1));
  }

  /** A record is had if and only if one is unmarked and its root has a page or gets one. */
  lemma RefSucceeds(h: Heap)
    requires |h.inuse| == TOTAL_REFS && |h.roots| == ROOTS
    ensures AllocRef(h).1 == NoRef <==> AllMarked(h) || (NextRootless(h) && NoFreeFrame(h))
  {
    var s := FirstClear(h.inuse);
    if s < |h.inuse| {
      var h1 := h.(inuse := h.inuse[s := true]);
      NoFrameNoPage(h1);
      assert RootOf(s) == s / REFS_PER_PAGE < |h.roots|;
      if NextRootless(h) {
        var q :| 0 <= q < |h.inuse| && !h.inuse[q] && (forall j :: 0 <= j < q ==> h.inuse[j])
          && q / REFS_PER_PAGE < |h.roots| && h.roots[q / REFS_PER_PAGE] == 0;
        assert q == s;
      }
    }
  }

  lemma PageSucceeds(h: Heap, b: nat)
    requires b < NSIZES && |h.inuse| == TOTAL_REFS && |h.roots| == ROOTS
    ensures NewPage(h, b).1 <==> !NoPage(h)
  {
    NoFrameNoPage(h);
    if !NoFreeFrame(h) {
      SecondFrame(h);
      RefSucceeds(AllocKpages(h, 1).0);
    }
  }

  /** The result is the head of page `i`'s free list, the first of its class with a free block; nothing else changes. */
  ghost predicate HeadOf(h: Heap, b: nat, i: nat, r: (Heap, Result))
    requires i < |h.pages|
  {
    var g := h.pages[i];
    && g.blk == b && g.free != [] && (forall j :: 0 <= j < i ==> h.pages[j].blk != b || h.pages[j].free == [])
    && r == (h.(pages := h.pages[i := g.(free := g.free[1..])]), Got(g.addr + g.free[0]))
  }

  /** The result is the last block of a page in frame `p`, the lowest free one. */
  ghost predicate LastOf(h: Heap, b: nat, p: nat, r: Result)
    requires b < NSIZES && p < |h.cm|
  {
    && h.cm[p].state == FrameState.Free && (forall f :: 0 <= f < p ==> h.cm[f].state != FrameState.Free)
    && r == Got(KernelAddr(h, p) + (PAGE_SIZE - SizeOf(b)))
  }

  lemma FromList(h: Heap, b: nat)
    requires b < NSIZES && !NoFreeBlock(h, b)
    ensures exists i :: 0 <= i < |h.pages| && HeadOf(h, b, i, SubAlloc(h, b))
  {
    var i := FindFree(h.pages, b);
    assert HeadOf(h, b, i, SubAlloc(h, b));
  }

  lemma LastBlock(b: nat)
    requires b < NSIZES
    ensures FreshList(b, BlocksPer(b))[0] == PAGE_SIZE - SizeOf(b)
  {
  }

  /** A block of a fresh page in the lowest free frame. */
  lemma FromPage(h: Heap, b: nat)
    requires b < NSIZES && |h.inuse| == TOTAL_REFS && |h.roots| == ROOTS && NoFreeBlock(h, b)
    ensures SubAlloc(h, b).1 == Null <==> NoPage(h)
    ensures !NoPage(h) ==>
      exists p :: 0 <= p < |h.cm| && LastOf(h, b, p, SubAlloc(h, b).1)
  {
    PageSucceeds(h, b);
    NoFrameNoPage(h);
    assert FindFree(h.pages, b) == |h.pages|;
    if !NoPage(h) {
      OneFrame(h.cm);
      LastBlock(b);
      var p := LowestRun(h.cm, 1);
      assert AllocKpages(h, 1).1 == KernelAddr(h, p);
      assert LastOf(h, b, p, SubAlloc(h, b).1);
    }
  }

  /**
   * `kmalloc` of less than 2048 bytes fails if and only if no page of the
   * smallest class that fits has a free block and no page can be had for
   * one. Where a page has one, it returns the head of the free list of the
   * first such page; else the last block of a fresh page in the lowest free
   * frame.
   */
  lemma SmallSucceeds(h: Heap, live: Live, sz: nat) returns (b: nat)
    requires HeapInv(h, live) && sz < 2048
    ensures SmallestClass(sz, b)
    ensures Kmalloc(h, sz).1 == Null <==> NoFreeBlock(h, b) && NoPage(h)
    ensures !NoFreeBlock(h, b) ==>
      exists i :: 0 <= i < |h.pages| && HeadOf(h, b, i, Kmalloc(h, sz))
    ensures NoFreeBlock(h, b) && !NoPage(h) ==>
      exists p :: 0 <= p < |h.cm| && LastOf(h, b, p, Kmalloc(h, sz).1)
  {
    b := ClassOf(sz);
    if NoFreeBlock(h, b) {
      FromPage(h, b);
    } else {
      FromList(h, b);
    }
  }

  lemma ClassOf(sz: nat) returns (b: nat)
    requires sz < 2048
    ensures SmallestClass(sz, b) && forall h :: Kmalloc(h, sz) == SubAlloc(h, b)
  {
    b := BlockType(sz);
    assert SizeOf(7) == 2048;
  }
}
