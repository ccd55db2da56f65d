/** No frame is lost between the heap and the frame allocator (kern/vm/kmalloc.c, coremap.c). */
module HeapConservation {
  import opened Layout
  import opened Coremap
  import opened KHeap
  import opened HeapAllocation
  import opened HeapFreeing

  // ---- what `kfree` gives back ----

  /** `kfree` of a large block frees its frames and changes nothing else. */
  lemma BigFreed(h: Heap, live: Live, a: nat)
    requires HeapInv(h, live) && a in live && live[a] >= 2048
    ensures var n := PagesFor(live[a]);
      var p := PosOf(h, a);
      var (h', r) := Kfree(h, a);
      && r == Freed && 0 <= p && p + n <= |h.cm| && h' == h.(cm := h'.cm) && |h'.cm| == |h.cm|
      && (forall f :: 0 <= f < |h.cm| ==> h'.cm[f] == if p <= f < p + n then FREE_ENTRY else h.cm[f])
  {
    assert IsLive(h, a, live[a]);
    BigFreeInv(h, live, a);
    var p := PosOf(h, a);
    forall f | p <= f < p + h.cm[p].npages ensures h.cm[f].state == Fixed {
    }
  }

  /** `kfree` of a small block puts it at the head of its page's list; the last of a page frees the page's frame and its record. */
  lemma SmallFreed(h: Heap, live: Live, a: nat)
    requires HeapInv(h, live) && a in live && live[a] < 2048 && Kfree(h, a).1 == Freed
    ensures FindPage(h.pages, a) < |h.pages|
    ensures var i := FindPage(h.pages, a);
      var g := h.pages[i];
      var h' := Kfree(h, a).0;
      if LastOnPage(h, a) then
        && g.slot < |h.inuse|
        && h'.pages == h.pages[..i] + h.pages[i + 1..] && h'.inuse == h.inuse[g.slot := false] && h'.roots == h.roots
        && 0 <= PosOf(h, g.addr) < |h.cm| && h'.cm == h.cm[PosOf(h, g.addr) := FREE_ENTRY]
      else
        a >= g.addr && h' == h.(pages := h.pages[i := g.(free := [a - g.addr] + g.free)])
  {
    assert IsLive(h, a, live[a]);
    var i, o := SubLiveAt(h, a, live[a]);
    SubFreeCases(h, i, o);
    assert PageOk(h, h.pages[i]);
    if LastOnPage(h, a) {
      PageFreed(WithoutPage(h, i), h.pages[i].addr);
    }
  }

  lemma PageFreed(h: Heap, a: nat)
    requires FramesOk(h) && HeadAt(h, a, 1)
    ensures 0 <= PosOf(h, a) < |h.cm| && FreeKpages(h, a) == h.(cm := h.cm[PosOf(h, a) := FREE_ENTRY])
  {
    var p := PosOf(h, a);
    assert h.cm[p].npages == 1 && Released(h.cm[p]) == FREE_ENTRY;
    assert Release(h.cm, p, 1) == h.cm[p := FREE_ENTRY];
  }

  // ---- conservation ----

  /** The address is a heap page, a page of records or a large live block. */
  ghost predicate UsedAt(h: Heap, live: Live, a: nat) {
    !NoPageAt(h, a) || a in h.roots || (a in live && live[a] >= LARGEST)
  }

  /** Every kernel block is used, but for one. */
  ghost predicate HeadsUsedBut(h: Heap, live: Live, but: nat) {
    forall a: nat, n: nat {:trigger HeadAt(h, a, n)} :: HeadAt(h, a, n) && a != but ==> UsedAt(h, live, a)
  }

  /** Every FIXED frame other than the coremap's own is in a kernel block. */
  ghost predicate FixedInBlocks(cm: seq<CmEntry>, boot: set<nat>) {
    forall f :: 0 <= f < |cm| && cm[f].state == Fixed && f !in boot ==> InSomeBlock(cm, f)
  }

  ghost predicate InSomeBlock(cm: seq<CmEntry>, f: nat) {
    exists p :: 0 <= p < |cm| && IsHead(cm, p) && p <= f < p + cm[p].npages
  }

  /** All kernel memory is accounted for. */
  ghost predicate Conserved(h: Heap, live: Live, boot: set<nat>) {
    HeadsUsedBut(h, live, 0) && FixedInBlocks(h.cm, boot)
  }

  /** A new block is the only new head, and holds the frames that became FIXED. */
  lemma AllocAdds(h: Heap, n: nat, boot: set<nat>)
    requires FramesOk(h) && n > 0 && FixedInBlocks(h.cm, boot)
    ensures var (h', va) := AllocKpages(h, n);
      && FixedInBlocks(h'.cm, boot)
      && (forall a, k {:trigger HeadAt(h', a, k)} :: HeadAt(h', a, k) && (va == 0 || a != va) ==> HeadAt(h, a, k))
  {
    var p := LowestRun(h.cm, n);
    if p < |h.cm| {
      ClaimKeepsBlocks(h.cm, h.base, h.clock, p, n);
      ClaimInBlocks(h.cm, h.base, h.clock, p, n, boot);
      PosOfVAddr(h, p);
    }
  }

  lemma ClaimInBlocks(cm: seq<CmEntry>, base: nat, clock: nat, p: nat, n: nat, boot: set<nat>)
    requires FixedInBlocks(cm, boot) && FreeClean(cm) && IsRun(cm, p, n) && n > 0
    ensures FixedInBlocks(Claim(cm, base, clock, p, n), boot)
  {
    var cm' := Claim(cm, base, clock, p, n);
    forall f | 0 <= f < |cm'| && cm'[f].state == Fixed && f !in boot ensures InSomeBlock(cm', f) {
      if p <= f < p + n {
        assert IsHead(cm', p);
      } else {
        assert InSomeBlock(cm, f);
        var q :| 0 <= q < |cm| && IsHead(cm, q) && q <= f < q + cm[q].npages;
        assert cm'[q] == cm[q] && IsHead(cm', q);
      }
    }
  }

  /** Freeing a block leaves no head there and keeps the frames of the others in their blocks. */
  lemma FreeRemoves(h: Heap, a: nat, n: nat, boot: set<nat>)
    requires FramesOk(h) && HeadAt(h, a, n) && FixedInBlocks(h.cm, boot)
    ensures var h' := FreeKpages(h, a);
      && FixedInBlocks(h'.cm, boot)
      && (forall b, k {:trigger HeadAt(h', b, k)} :: HeadAt(h', b, k) ==> b != a && HeadAt(h, b, k))
  {
    var p := PosOf(h, a);
    ReleaseKeepsBlocks(h.cm, p);
    var cm' := FreeKpages(h, a).cm;
    forall f | 0 <= f < |cm'| && cm'[f].state == Fixed && f !in boot ensures InSomeBlock(cm', f) {
      assert InSomeBlock(h.cm, f);
      var q :| 0 <= q < |h.cm| && IsHead(h.cm, q) && q <= f < q + h.cm[q].npages;
      assert q != p;
      assert IsHead(cm', q) && cm'[q] == h.cm[q];
    }
  }

  lemma HeadNotNull(h: Heap, a: nat, n: nat)
    requires HeadAt(h, a, n)
    ensures a != 0
  {
    PosOfVAddr(h, PosOf(h, a));
  }

  /** A page of records for root `r`. */
  function Rooted(h: Heap, r: nat): Heap
    requires r < |h.roots|
  {
    var (h', va) := AllocKpages(h, 1);
    if va == 0 then h' else h'.(roots := h'.roots[r := va])
  }

  lemma RootUsed(h: Heap, live: Live, r: nat, a: nat, k: nat)
    requires r < |h.roots| && h.roots[r] == 0 && HeadAt(Rooted(h, r), a, k)
    requires var va := AllocKpages(h, 1).1; va == 0 || a != va ==> UsedAt(h, live, a)
    ensures UsedAt(Rooted(h, r), live, a)
  {
    HeadNotNull(Rooted(h, r), a, k);
    var (h', va) := AllocKpages(h, 1);
    if va != 0 {
      assert Rooted(h, r).roots[r] == va;
      if a != va && a in h.roots {
        var i :| 0 <= i < |h.roots| && h.roots[i] == a;
        assert Rooted(h, r).roots[i] == a;
      }
    }
  }

  lemma RootConserves(h: Heap, live: Live, r: nat, but: nat, boot: set<nat>)
    requires FramesOk(h) && HeadsUsedBut(h, live, but) && FixedInBlocks(h.cm, boot) && r < |h.roots| && h.roots[r] == 0
    ensures var h' := Rooted(h, r); FramesOk(h') && HeadsUsedBut(h', live, but) && FixedInBlocks(h'.cm, boot) && h'.pages == h.pages
  {
    var (h1, va) := AllocKpages(h, 1);
    AllocAdds(h, 1, boot);
    AllocHeads(h, 1);
    forall a: nat, k: nat | HeadAt(Rooted(h, r), a, k) && a != but ensures UsedAt(Rooted(h, r), live, a) {
      assert HeadAt(h1, a, k);
      RootUsed(h, live, r, a, k);
    }
  }

  /** Between the page and the record of a new heap page the page alone is not yet used. */
  lemma RefConserves(h: Heap, live: Live, but: nat, boot: set<nat>)
    requires FramesOk(h) && HeadsUsedBut(h, live, but) && FixedInBlocks(h.cm, boot)
    ensures var h' := AllocRef(h).0; FramesOk(h') && HeadsUsedBut(h', live, but) && FixedInBlocks(h'.cm, boot) && h'.pages == h.pages
  {
    var s := FirstClear(h.inuse);
    if s < |h.inuse| && RootOf(s) < |h.roots| {
      var h1 := h.(inuse := h.inuse[s := true]);
      forall a: nat, k: nat | HeadAt(h1, a, k) && a != but ensures UsedAt(h1, live, a) {
        assert HeadAt(h, a, k);
      }
      if h.roots[RootOf(s)] == 0 {
        RootConserves(h1, live, RootOf(s), but, boot);
      }
    }
  }

  lemma NewPageConserves(h: Heap, live: Live, b: nat, boot: set<nat>)
    requires FramesOk(h) && Conserved(h, live, boot) && b < NSIZES
    ensures Conserved(NewPage(h, b).0, live, boot)
  {
    var (h1, va) := AllocKpages(h, 1);
    AllocAdds(h, 1, boot);
    AllocHeads(h, 1);
    forall a: nat, k: nat | HeadAt(h1, a, k) && a != va ensures UsedAt(h1, live, a) {
      assert HeadAt(h, a, k);
    }
    if va != 0 {
      RefConserves(h1, live, va, boot);
      var (h2, ref) := AllocRef(h1);
      if ref == NoRef {
        HeadThroughRef(h1, va);
        FreeConserves(h2, live, live, va, 1, boot);
      } else {
        PageConserves(h2, live, HeapPage(ref.slot, va, b, FreshList(b, BlocksPer(b))), boot);
      }
    }
  }

  lemma HeadThroughRef(h: Heap, a: nat)
    requires FramesOk(h) && HeadAt(h, a, 1) && a != 0
    ensures HeadAt(AllocRef(h).0, a, 1)
  {
    var s := FirstClear(h.inuse);
    if s < |h.inuse| && RootOf(s) < |h.roots| {
      AllocHeads(h.(inuse := h.inuse[s := true]), 1);
    }
  }

  lemma PageConserves(h: Heap, live: Live, g: HeapPage, boot: set<nat>)
    requires HeadsUsedBut(h, live, g.addr) && FixedInBlocks(h.cm, boot)
    ensures Conserved(h.(pages := [g] + h.pages), live, boot)
  {
    var h' := h.(pages := [g] + h.pages);
    assert h'.pages[0] == g;
    forall a: nat, k: nat | HeadAt(h', a, k) && a != 0 ensures UsedAt(h', live, a) {
      if a != g.addr {
        assert HeadAt(h, a, k);
        if !NoPageAt(h, a) {
          var i :| 0 <= i < |h.pages| && h.pages[i].addr == a;
          assert h'.pages[i + 1].addr == a;
        }
      }
    }
  }

  /** Freeing the one block that is not used. */
  lemma FreeConserves(h: Heap, live: Live, live': Live, a: nat, n: nat, boot: set<nat>)
    requires FramesOk(h) && HeadAt(h, a, n) && FixedInBlocks(h.cm, boot) && HeadsUsedBut(h, live, a)
    requires forall x :: x in live && x != a && live[x] >= LARGEST ==> x in live' && live'[x] == live[x]
    ensures Conserved(FreeKpages(h, a), live', boot)
  {
    FreeRemoves(h, a, n, boot);
    var h' := FreeKpages(h, a);
    forall x: nat, k: nat | HeadAt(h', x, k) && x != 0 ensures UsedAt(h', live', x) {
      assert HeadAt(h, x, k) && UsedAt(h, live, x);
    }
  }

  lemma BigConserves(h: Heap, live: Live, sz: nat, boot: set<nat>)
    requires FramesOk(h) && Conserved(h, live, boot) && sz >= LARGEST
    ensures var (h', r) := Kmalloc(h, sz);
      Conserved(h', if r.Got? then live[r.addr := sz] else live, boot)
  {
    var n := (sz + PAGE_SIZE - 1) / PAGE_SIZE;
    AllocAdds(h, n, boot);
    var (h', va) := AllocKpages(h, n);
    var live' := if va == 0 then live else live[va := sz];
    forall a: nat, k: nat | HeadAt(h', a, k) && a != 0 ensures UsedAt(h', live', a) {
      if va == 0 || a != va {
        assert HeadAt(h, a, k) && UsedAt(h, live, a);
      }
    }
  }

  /** Lists of the same pages, and more live blocks, keep the account. */
  lemma SameConserves(h: Heap, h': Heap, live: Live, live': Live, boot: set<nat>)
    requires Conserved(h, live, boot) && h' == h.(pages := h'.pages) && |h'.pages| == |h.pages|
    requires forall i :: 0 <= i < |h.pages| ==> h'.pages[i].addr == h.pages[i].addr
    requires forall x :: x in live && live[x] >= LARGEST ==> x in live' && live'[x] == live[x]
    ensures Conserved(h', live', boot)
  {
    forall a: nat, k: nat | HeadAt(h', a, k) && a != 0 ensures UsedAt(h', live', a) {
      assert HeadAt(h, a, k) && UsedAt(h, live, a);
      if !NoPageAt(h, a) {
        var i :| 0 <= i < |h.pages| && h.pages[i].addr == a;
        assert h'.pages[i].addr == a;
      }
    }
  }

  lemma SubConserves(h: Heap, live: Live, sz: nat, boot: set<nat>)
    requires HeapInv(h, live) && Conserved(h, live, boot) && sz < LARGEST && BlockType(sz) < NSIZES
    ensures var (h', r) := SubAlloc(h, BlockType(sz));
      Conserved(h', if r.Got? then live[r.addr := sz] else live, boot)
  {
    var b := BlockType(sz);
    var (h', r) := SubAlloc(h, b);
    KmallocInv(h, live, sz);
    var i := FindFree(h.pages, b);
    if i < |h.pages| {
      SameConserves(h, h', live, live[r.addr := sz], boot);
    } else {
      NewPageConserves(h, live, b, boot);
      var (h1, ok) := NewPage(h, b);
      if ok && h1.pages != [] && h1.pages[0].free != [] {
        SameConserves(h1, h', live, live[r.addr := sz], boot);
      }
    }
  }

  /** `kmalloc` loses no frame. */
  lemma KmallocConserves(h: Heap, live: Live, sz: nat, boot: set<nat>)
    requires HeapInv(h, live) && Conserved(h, live, boot)
    ensures var (h', r) := Kmalloc(h, sz);
      Conserved(h', if r.Got? then live[r.addr := sz] else live, boot)
  {
    if sz >= LARGEST {
      BigConserves(h, live, sz, boot);
    } else if BlockType(sz) < NSIZES {
      SubConserves(h, live, sz, boot);
    }
  }

  lemma CutConserves(h: Heap, live: Live, i: nat, boot: set<nat>)
    requires Conserved(h, live, boot) && i < |h.pages| && h.pages[i].slot < |h.inuse|
    ensures HeadsUsedBut(WithoutPage(h, i), live, h.pages[i].addr) && FixedInBlocks(WithoutPage(h, i).cm, boot)
  {
    var h' := WithoutPage(h, i);
    forall a: nat, k: nat | HeadAt(h', a, k) && a != h.pages[i].addr ensures UsedAt(h', live, a) {
      HeadNotNull(h', a, k);
      assert HeadAt(h, a, k) && UsedAt(h, live, a);
      if !NoPageAt(h, a) {
        var j :| 0 <= j < |h.pages| && h.pages[j].addr == a;
        assert h'.pages[if j < i then j else j - 1].addr == a;
      }
    }
  }

  lemma LastConserves(h: Heap, live: Live, a: nat, i: nat, boot: set<nat>)
    requires HeapInv(h, live) && Conserved(h, live, boot) && a in live && live[a] < LARGEST && i < |h.pages| && h.pages[i].slot < |h.inuse|
    ensures Conserved(FreeKpages(WithoutPage(h, i), h.pages[i].addr), live - {a}, boot)
  {
    assert PageOk(h, h.pages[i]);
    var h' := WithoutPage(h, i);
    CutConserves(h, live, i, boot);
    assert HeadAt(h', h.pages[i].addr, 1);
    FreeConserves(h', live, live - {a}, h.pages[i].addr, 1, boot);
  }

  /** `kfree` of a live block loses none either. */
  lemma KfreeConserves(h: Heap, live: Live, a: nat, boot: set<nat>)
    requires HeapInv(h, live) && Conserved(h, live, boot) && a in live && Kfree(h, a).1 != Panic
    ensures Conserved(Kfree(h, a).0, live - {a}, boot)
  {
    assert IsLive(h, a, live[a]);
    if live[a] >= LARGEST {
      BigFreeInv(h, live, a);
      FreeConserves(h, live, live - {a}, a, PagesFor(live[a]), boot);
    } else {
      var i, o := SubLiveAt(h, a, live[a]);
      SubFreeCases(h, i, o);
      if LastOnPage(h, a) {
        LastConserves(h, live, a, i, boot);
      } else {
        SameConserves(h, Kfree(h, a).0, live, live - {a}, boot);
      }
    }
  }

  /** With every block freed, all that is left FIXED beside the coremap's own frames is the pages of records. */
  lemma NothingLeft(h: Heap, boot: set<nat>, f: nat)
    requires HeapInv(h, map[]) && Conserved(h, map[], boot) && f < |h.cm| && h.cm[f].state == Fixed && f !in boot
    ensures h.pages == [] && VAddr(h, f) in h.roots
  {
    if h.pages != [] {
      var g := h.pages[0];
      assert PageOk(h, g);
      NotAllFree(g);
    }
    assert InSomeBlock(h.cm, f);
    var p :| 0 <= p < |h.cm| && IsHead(h.cm, p) && p <= f < p + h.cm[p].npages;
    PosOfVAddr(h, p);
    assert HeadAt(h, VAddr(h, p), h.cm[p].npages) && UsedAt(h, map[], VAddr(h, p));
    var r :| 0 <= r < |h.roots| && h.roots[r] == VAddr(h, p);
    assert RootOk(h, h.roots[r]);
  }

  /** A page with fewer free blocks than blocks has one that is not free. */
  lemma NotAllFree(g: HeapPage)
    requires FreeOk(g) && |g.free| < BlocksPer(g.blk)
    ensures exists o: nat :: IsBlock(g, o) && o !in g.free
  {
    FullList(g);
  }
}
