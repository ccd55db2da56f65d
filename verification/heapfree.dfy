/** `kfree` keeps the kernel heap, and when it cannot (kern/vm/kmalloc.c). */
module HeapFreeing {
  import opened Layout
  import opened Coremap
  import opened KHeap
  import opened HeapAllocation

  // ---- counting blocks ----

  ghost function SetOf(s: seq<nat>): set<nat> {
    set i | 0 <= i < |s| :: s[i]
  }

  lemma {:induction false} DistinctCard(s: seq<nat>)
    requires Distinct(s)
    ensures |SetOf(s)| == |s|
    decreases |s|
  {
    if s != [] {
      var k := |s| - 1;
      DistinctCard(s[..k]);
      assert SetOf(s) == SetOf(s[..k]) + {s[k]};
      assert s[k] !in SetOf(s[..k]);
    }
  }

  lemma SubsetCard(a: set<nat>, b: set<nat>)
    requires a <= b
    ensures |a| <= |b| && (|a| == |b| ==> a == b)
  {
    assert b == a + (b - a);
    assert |b| == |a| + |b - a|;
  }

  /** A list of distinct blocks names them all exactly when it is as long as the page has blocks. */
  lemma FullList(g: HeapPage)
    requires FreeOk(g)
    ensures |g.free| == BlocksPer(g.blk) <==> forall o: nat :: IsBlock(g, o) ==> o in g.free
  {
    var n := BlocksPer(g.blk);
    var all := g.(free := FreshList(g.blk, n));
    FreshOk(all);
    DistinctCard(all.free);
    DistinctCard(g.free);
    forall o | o in SetOf(g.free) ensures o in SetOf(all.free) {
      var k :| 0 <= k < |g.free| && g.free[k] == o;
      assert IsBlock(g, g.free[k]) && IsBlock(all, o);
      assert o in all.free;
    }
    SubsetCard(SetOf(g.free), SetOf(all.free));
    if |g.free| == n {
      forall o: nat | IsBlock(g, o) ensures o in g.free {
        assert IsBlock(all, o) && o in SetOf(all.free);
      }
    }
    if forall o: nat :: IsBlock(g, o) ==> o in g.free {
      forall o | o in SetOf(all.free) ensures o in SetOf(g.free) {
        var k :| 0 <= k < n && all.free[k] == o;
        assert IsBlock(all, all.free[k]) && IsBlock(g, o);
      }
      SubsetCard(SetOf(all.free), SetOf(g.free));
    }
  }

  /** The block pushed is the only one not free, on a page with one block in use. */
  lemma OnlyOneInUse(g: HeapPage, o: nat, x: nat)
    requires FreeOk(g) && IsBlock(g, o) && o !in g.free && |g.free| + 1 == BlocksPer(g.blk) && IsBlock(g, x)
    ensures x == o || x in g.free
  {
    var g' := g.(free := [o] + g.free);
    PushedOk(g, o);
    FullList(g');
    assert IsBlock(g', x);
  }

  /** A page with two blocks in use has another than a given one. */
  lemma AnotherInUse(g: HeapPage, o: nat) returns (x: nat)
    requires FreeOk(g) && IsBlock(g, o) && o !in g.free && |g.free| + 1 < BlocksPer(g.blk)
    ensures IsBlock(g, x) && x != o && x !in g.free
  {
    var g' := g.(free := [o] + g.free);
    PushedOk(g, o);
    FullList(g');
    x :| IsBlock(g', x) && x !in g'.free;
    assert g'.free[0] == o;
    assert forall k :: 0 <= k < |g.free| ==> g'.free[k + 1] == g.free[k];
  }

  // ---- freeing a block ----

  /** The page after a live block comes back. */
  lemma PushedOk(g: HeapPage, o: nat)
    requires FreeOk(g) && IsBlock(g, o) && o !in g.free && |g.free| < BlocksPer(g.blk)
    ensures FreeOk(g.(free := [o] + g.free))
  {
    var g' := g.(free := [o] + g.free);
    forall k | 0 <= k < |g'.free| ensures IsBlock(g', g'.free[k]) {
      assert k > 0 ==> IsBlock(g, g.free[k - 1]);
    }
  }

  lemma PushedLive(h: Heap, live: Live, i: nat, o: nat)
    requires Inv(h, live) && i < |h.pages|
    ensures LiveOk(WithFree(h, i, [o] + h.pages[i].free), live - {h.pages[i].addr + o})
  {
    var h' := WithFree(h, i, [o] + h.pages[i].free);
    var live' := live - {h.pages[i].addr + o};
    forall x | x in live' ensures IsLive(h', x, live'[x]) {
      assert IsLive(h, x, live[x]);
      if x >= h.pages[i].addr {
        LiveNotFree(h, live, i, x);
      }
      BlockRelisted(h, i, [o] + h.pages[i].free, x, live[x]);
    }
  }

  lemma PushedAccounted(h: Heap, live: Live, i: nat, o: nat)
    requires Inv(h, live) && i < |h.pages| && IsBlock(h.pages[i], o)
    ensures Accounted(WithFree(h, i, [o] + h.pages[i].free), live - {h.pages[i].addr + o})
  {
    var h' := WithFree(h, i, [o] + h.pages[i].free);
    forall k, x: nat | 0 <= k < |h'.pages| && IsBlock(h'.pages[k], x) && x !in h'.pages[k].free
      ensures h'.pages[k].addr + x in live - {h.pages[i].addr + o}
    {
      assert IsBlock(h.pages[k], x);
      assert x !in h.pages[k].free;
      if k != i {
        OnePage(h, h.pages[k].addr + x, k);
        OnePage(h, h.pages[i].addr + o, i);
      }
    }
  }

  /** A live block of a heap page goes back on its page's list. */
  lemma PushInv(h: Heap, live: Live, i: nat, o: nat)
    requires Inv(h, live) && i < |h.pages| && IsBlock(h.pages[i], o) && o !in h.pages[i].free
    requires |h.pages[i].free| < BlocksPer(h.pages[i].blk)
    ensures Inv(WithFree(h, i, [o] + h.pages[i].free), live - {h.pages[i].addr + o})
  {
    assert PageOk(h, h.pages[i]);
    PushedOk(h.pages[i], o);
    HeapRelisted(h, i, [o] + h.pages[i].free);
    PushedLive(h, live, i, o);
    PushedAccounted(h, live, i, o);
  }

  // ---- giving a page back ----

  function WithoutPage(h: Heap, i: nat): Heap
    requires i < |h.pages| && h.pages[i].slot < |h.inuse|
  {
    h.(pages := h.pages[..i] + h.pages[i + 1..], inuse := h.inuse[h.pages[i].slot := false])
  }

  function Skip(i: nat, k: nat): nat {
    if k < i then k else k + 1
  }

  lemma CutAt(h: Heap, i: nat, k: nat)
    requires i < |h.pages| && h.pages[i].slot < |h.inuse| && k < |WithoutPage(h, i).pages|
    ensures Skip(i, k) < |h.pages| && Skip(i, k) != i && WithoutPage(h, i).pages[k] == h.pages[Skip(i, k)]
  {
  }

  lemma PageCut(h: Heap, i: nat)
    requires AllPagesOk(h) && PagesApart(h) && i < |h.pages| && h.pages[i].slot < |h.inuse|
    ensures AllPagesOk(WithoutPage(h, i)) && PagesApart(WithoutPage(h, i)) && NoPageAt(WithoutPage(h, i), h.pages[i].addr)
  {
    var h' := WithoutPage(h, i);
    forall k | 0 <= k < |h'.pages| ensures PageOk(h', h'.pages[k]) && h'.pages[k].addr != h.pages[i].addr {
      CutAt(h, i, k);
      assert PageOk(h, h.pages[Skip(i, k)]);
    }
    forall k, m | 0 <= k < m < |h'.pages| ensures h'.pages[k].addr != h'.pages[m].addr && h'.pages[k].slot != h'.pages[m].slot {
      CutAt(h, i, k);
      CutAt(h, i, m);
    }
  }

  lemma NoPageCut(h: Heap, i: nat, a: nat)
    requires NoPageAt(h, a) && i < |h.pages| && h.pages[i].slot < |h.inuse|
    ensures NoPageAt(WithoutPage(h, i), a)
  {
    forall k | 0 <= k < |WithoutPage(h, i).pages| ensures WithoutPage(h, i).pages[k].addr != a {
      CutAt(h, i, k);
    }
  }

  lemma RootsCut(h: Heap, i: nat)
    requires RootsOk(h) && i < |h.pages| && h.pages[i].slot < |h.inuse|
    ensures RootsOk(WithoutPage(h, i))
  {
    var h' := WithoutPage(h, i);
    forall r | 0 <= r < |h'.roots| && h'.roots[r] != 0 ensures RootOk(h', h'.roots[r]) {
      assert RootOk(h, h.roots[r]);
      NoPageCut(h, i, h.roots[r]);
    }
  }

  /** A live block off the page that goes stays live. */
  lemma LiveCut(h: Heap, live: Live, i: nat, x: nat)
    requires HeapOk(h) && LiveOk(h, live) && i < |h.pages| && h.pages[i].slot < |h.inuse|
    requires x in live && FindPage(h.pages, x) != i
    ensures IsLive(WithoutPage(h, i), x, live[x])
  {
    var h' := WithoutPage(h, i);
    assert IsLive(h, x, live[x]);
    if SubLive(h, x, live[x]) {
      var j := FindPage(h.pages, x);
      var k := if j < i then j else j - 1;
      CutAt(h, i, k);
      PageCut(h, i);
      OnePage(h', x, k);
    } else {
      NoPageCut(h, i, x);
    }
  }

  lemma AccountedCut(h: Heap, live: Live, i: nat)
    requires Accounted(h, live) && i < |h.pages| && h.pages[i].slot < |h.inuse|
    ensures Accounted(WithoutPage(h, i), live)
  {
    var h' := WithoutPage(h, i);
    forall k, o: nat | 0 <= k < |h'.pages| && IsBlock(h'.pages[k], o) && o !in h'.pages[k].free
      ensures h'.pages[k].addr + o in live
    {
      CutAt(h, i, k);
      assert IsBlock(h.pages[Skip(i, k)], o);
    }
  }

  /** No live block is on a page whose blocks are all free. */
  lemma NoneOnFree(h: Heap, live: Live, i: nat, x: nat)
    requires HeapOk(h) && LiveOk(h, live) && i < |h.pages| && x in live
    requires forall o: nat :: IsBlock(h.pages[i], o) ==> o in h.pages[i].free
    ensures FindPage(h.pages, x) != i && x != h.pages[i].addr
  {
    assert IsLive(h, x, live[x]);
    assert PageOk(h, h.pages[i]);
    if BigLive(h, x, live[x]) {
      OffPage(h, x, PagesFor(live[x]), i);
    } else {
      OnePage(h, h.pages[i].addr, i);
    }
  }

  /** A page whose blocks are all free leaves the heap, with its record and its frame. */
  lemma PageGoneInv(h: Heap, live: Live, i: nat)
    requires Inv(h, live) && i < |h.pages| && h.pages[i].slot < |h.inuse|
    requires forall o: nat :: IsBlock(h.pages[i], o) ==> o in h.pages[i].free
    ensures var h' := FreeKpages(WithoutPage(h, i), h.pages[i].addr);
      Inv(h', live) && h'.pages == WithoutPage(h, i).pages && (forall k :: !HeadAt(h', h.pages[i].addr, k))
  {
    var h1 := WithoutPage(h, i);
    var a := h.pages[i].addr;
    assert PageOk(h, h.pages[i]);
    PageCut(h, i);
    RootsCut(h, i);
    AccountedCut(h, live, i);
    forall x | x in live ensures IsLive(h1, x, live[x]) && x != a {
      NoneOnFree(h, live, i, x);
      LiveCut(h, live, i, x);
    }
    RootsNotPages(h, i);
    FreeHeads(h1, a, 1);
    FramesChanged(h1, FreeKpages(h1, a), live, a);
  }

  lemma RootsNotPages(h: Heap, i: nat)
    requires RootsOk(h) && i < |h.pages| && h.pages[i].addr != 0
    ensures h.pages[i].addr !in h.roots
  {
    forall r | 0 <= r < |h.roots| ensures h.roots[r] != h.pages[i].addr {
      assert h.roots[r] != 0 ==> RootOk(h, h.roots[r]);
    }
  }

  // ---- `kfree` ----

  /** The block's page has no other block in use. */
  predicate LastOnPage(h: Heap, a: nat) {
    var i := FindPage(h.pages, a);
    i < |h.pages| && h.pages[i].blk < NSIZES && |h.pages[i].free| + 1 == BlocksPer(h.pages[i].blk)
  }

  lemma SubFreeCases(h: Heap, i: nat, o: nat)
    requires HeapOk(h) && NoneEmpty(h) && i < |h.pages| && IsBlock(h.pages[i], o) && o !in h.pages[i].free
    ensures var g := h.pages[i];
      && g.slot < |h.inuse|
      && (|g.free| + 1 < BlocksPer(g.blk) ==> SubFree(h, i, o) == (WithFree(h, i, [o] + g.free), Freed))
      && (|g.free| + 1 == BlocksPer(g.blk) ==>
            SubFree(h, i, o) == if RootsBefore(h, g.slot) then (FreeKpages(WithoutPage(h, i), g.addr), Freed) else (h, Panic))
  {
    assert PageOk(h, h.pages[i]);
  }

  /** The last block in use of a page is freed: the page goes. */
  lemma LastFreed(h: Heap, live: Live, i: nat, o: nat)
    requires HeapInv(h, live) && i < |h.pages| && IsBlock(h.pages[i], o) && o !in h.pages[i].free
    requires |h.pages[i].free| + 1 == BlocksPer(h.pages[i].blk) && h.pages[i].slot < |h.inuse|
    ensures HeapInv(FreeKpages(WithoutPage(h, i), h.pages[i].addr), live - {h.pages[i].addr + o})
    ensures forall k :: !HeadAt(FreeKpages(WithoutPage(h, i), h.pages[i].addr), h.pages[i].addr, k)
  {
    var g := h.pages[i];
    assert PageOk(h, g);
    var hp := WithFree(h, i, [o] + g.free);
    PushInv(h, live, i, o);
    PushedOk(g, o);
    FullList(hp.pages[i]);
    PageGoneInv(hp, live - {g.addr + o}, i);
    assert WithoutPage(hp, i) == WithoutPage(h, i);
    forall k | 0 <= k < |WithoutPage(h, i).pages|
      ensures WithoutPage(h, i).pages[k].blk < NSIZES && |WithoutPage(h, i).pages[k].free| < BlocksPer(WithoutPage(h, i).pages[k].blk)
    {
      CutAt(h, i, k);
    }
  }

  /** What `kfree` of a live block of a heap page may return, and what it leaves. */
  ghost predicate FreedOk(h: Heap, h': Heap, r: Result, live: Live, a: nat) {
    && (r == Panic <==> LastOnPage(h, a) && !RootsBefore(h, h.pages[FindPage(h.pages, a)].slot))
    && (r != Panic ==> r == Freed && HeapInv(h', live - {a}))
  }

  lemma SubFreed(h: Heap, live: Live, i: nat, o: nat, a: nat)
    requires HeapInv(h, live) && i < |h.pages| && IsBlock(h.pages[i], o) && o !in h.pages[i].free
    requires a == h.pages[i].addr + o && i == FindPage(h.pages, a)
    ensures FreedOk(h, SubFree(h, i, o).0, SubFree(h, i, o).1, live, a)
  {
    SubFreeCases(h, i, o);
    if |h.pages[i].free| + 1 == BlocksPer(h.pages[i].blk) {
      LastFreed(h, live, i, o);
    } else {
      PushInv(h, live, i, o);
    }
  }

  /** Where a live block of a heap page is, and what `kfree` does with it. */
  lemma SubLiveAt(h: Heap, a: nat, sz: nat) returns (i: nat, o: nat)
    requires SubLive(h, a, sz)
    ensures i == FindPage(h.pages, a) && i < |h.pages| && a == h.pages[i].addr + o
    ensures IsBlock(h.pages[i], o) && o !in h.pages[i].free
    ensures Kfree(h, a) == SubFree(h, i, o)
  {
    i := FindPage(h.pages, a);
    o := a - h.pages[i].addr;
  }

  lemma SubFreeInv(h: Heap, live: Live, a: nat)
    requires HeapInv(h, live) && a in live && SubLive(h, a, live[a])
    ensures FreedOk(h, Kfree(h, a).0, Kfree(h, a).1, live, a)
  {
    var i, o := SubLiveAt(h, a, live[a]);
    SubFreed(h, live, i, o, a);
  }

  lemma BigFreeInv(h: Heap, live: Live, a: nat)
    requires HeapInv(h, live) && a in live && BigLive(h, a, live[a])
    ensures var (h', r) := Kfree(h, a);
      r == Freed && h' == FreeKpages(h, a) && FindPage(h.pages, a) == |h.pages| && HeapInv(h', live - {a})
  {
    var i := FindPage(h.pages, a);
    if i < |h.pages| {
      OffPage(h, a, PagesFor(live[a]), i);
      assert false;
    }
    PosOfVAddr(h, PosOf(h, a));
    FreeHeads(h, a, PagesFor(live[a]));
    LessInv(h, live, a);
    FramesChanged(h, FreeKpages(h, a), live - {a}, a);
  }

  /** A block of whole pages is no part of what the heap pages account for. */
  lemma LessInv(h: Heap, live: Live, a: nat)
    requires Inv(h, live) && a in live && BigLive(h, a, live[a])
    ensures Inv(h, live - {a})
  {
    forall x | x in live - {a} ensures IsLive(h, x, (live - {a})[x]) {
      assert IsLive(h, x, live[x]);
    }
    forall i, o: nat | 0 <= i < |h.pages| && IsBlock(h.pages[i], o) && o !in h.pages[i].free
      ensures h.pages[i].addr + o in live - {a}
    {
      OffPage(h, a, PagesFor(live[a]), i);
    }
  }

  /**
   * `kfree` of any live block is routed to the layer that produced it and
   * keeps the heap. It fails in one case only: the block is the last of its
   * page, and an earlier root has marked slots but no page of records, which
   * a failed allocation of such a page leaves behind.
   */
  lemma KfreeInv(h: Heap, live: Live, a: nat)
    requires HeapInv(h, live) && a in live
    ensures FreedOk(h, Kfree(h, a).0, Kfree(h, a).1, live, a)
      && (FindPage(h.pages, a) < |h.pages| <==> live[a] < LARGEST)
  {
    assert IsLive(h, a, live[a]);
    if SubLive(h, a, live[a]) {
      SubFreeInv(h, live, a);
    } else {
      BigFreeInv(h, live, a);
    }
  }

  /** A page goes back to the frame allocator exactly when its last live block is freed. */
  lemma PageReturned(h: Heap, live: Live, a: nat)
    requires HeapInv(h, live) && a in live && live[a] < LARGEST
    ensures FindPage(h.pages, a) < |h.pages|
    ensures LastOnPage(h, a) <==> forall x :: x in live && FindPage(h.pages, x) == FindPage(h.pages, a) ==> x == a
    ensures var g := h.pages[FindPage(h.pages, a)];
      var (h', r) := Kfree(h, a);
      r == Freed ==> (LastOnPage(h, a) <==> NoPageAt(h', g.addr)) && (LastOnPage(h, a) <==> forall k :: !HeadAt(h', g.addr, k))
  {
    assert IsLive(h, a, live[a]);
    var i, o := SubLiveAt(h, a, live[a]);
    PageKept(h, live, i, o);
    if LastOnPage(h, a) {
      OthersOffPage(h, live, a);
    } else {
      var x := AnotherOnPage(h, live, a);
    }
  }

  lemma PageKept(h: Heap, live: Live, i: nat, o: nat)
    requires HeapInv(h, live) && i < |h.pages| && IsBlock(h.pages[i], o) && o !in h.pages[i].free
    ensures var g := h.pages[i];
      var (h', r) := SubFree(h, i, o);
      r == Freed ==>
        if |g.free| + 1 == BlocksPer(g.blk) then NoPageAt(h', g.addr) && forall k :: !HeadAt(h', g.addr, k)
        else !NoPageAt(h', g.addr) && HeadAt(h', g.addr, 1)
  {
    SubFreeCases(h, i, o);
    assert PageOk(h, h.pages[i]);
    if |h.pages[i].free| + 1 == BlocksPer(h.pages[i].blk) {
      LastFreed(h, live, i, o);
      PageCut(h, i);
    } else {
      assert WithFree(h, i, [o] + h.pages[i].free).pages[i].addr == h.pages[i].addr;
    }
  }

  lemma OthersOffPage(h: Heap, live: Live, a: nat)
    requires HeapInv(h, live) && a in live && SubLive(h, a, live[a]) && LastOnPage(h, a)
    ensures forall x :: x in live && FindPage(h.pages, x) == FindPage(h.pages, a) ==> x == a
  {
    forall x | x in live && FindPage(h.pages, x) == FindPage(h.pages, a) ensures x == a {
      OtherOffPage(h, live, a, x);
    }
  }

  lemma OtherOffPage(h: Heap, live: Live, a: nat, x: nat)
    requires HeapOk(h) && LiveOk(h, live) && a in live && SubLive(h, a, live[a]) && LastOnPage(h, a)
    requires x in live && FindPage(h.pages, x) == FindPage(h.pages, a)
    ensures x == a
  {
    var i := FindPage(h.pages, a);
    assert IsLive(h, x, live[x]);
    OnPageIsSub(h, x, live[x]);
    assert PageOk(h, h.pages[i]);
    OnlyOneInUse(h.pages[i], a - h.pages[i].addr, x - h.pages[i].addr);
  }

  lemma OnPageIsSub(h: Heap, x: nat, sz: nat)
    requires HeapOk(h) && IsLive(h, x, sz) && FindPage(h.pages, x) < |h.pages|
    ensures SubLive(h, x, sz)
  {
    if BigLive(h, x, sz) {
      OffPage(h, x, PagesFor(sz), FindPage(h.pages, x));
    }
  }

  lemma InUseIsLive(h: Heap, live: Live, i: nat, o: nat)
    requires Accounted(h, live) && i < |h.pages| && IsBlock(h.pages[i], o) && o !in h.pages[i].free
    ensures h.pages[i].addr + o in live
  {
  }

  lemma AnotherOnPage(h: Heap, live: Live, a: nat) returns (x: nat)
    requires HeapInv(h, live) && a in live && SubLive(h, a, live[a]) && !LastOnPage(h, a)
    ensures x in live && FindPage(h.pages, x) == FindPage(h.pages, a) && x != a
  {
    var i := FindPage(h.pages, a);
    assert PageOk(h, h.pages[i]);
    var o := AnotherInUse(h.pages[i], a - h.pages[i].addr);
    InUseIsLive(h, live, i, o);
    x := h.pages[i].addr + o;
    OnePage(h, x, i);
  }
}
