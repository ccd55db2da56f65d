/** The kernel heap's blocks as memory, and the heap over whole runs (kern/vm/kmalloc.c). */
module KHeapRuns {
  import opened Layout
  import opened Coremap
  import opened KHeap
  import opened HeapAllocation
  import opened HeapFreeing
  import M = Kmallocator

  // ---- live blocks as memory ----

  /** The bytes set aside for a live block of the size asked for. */
  function Extent(sz: nat): (n: nat)
    ensures sz <= n
  {
    if sz >= LARGEST then PagesFor(sz) * PAGE_SIZE
    else if BlockType(sz) == NSIZES then LARGEST
    else SizeOf(BlockType(sz))
  }

  lemma {:induction false} MultiplesApart(k: nat, x: nat, y: nat)
    requires x < y
    ensures k * x + k <= k * y
    decreases y
  {
    assert k * y == k * (y - 1) + k;
    if x < y - 1 {
      MultiplesApart(k, x, y - 1);
    }
  }

  lemma MultiplesOrdered(k: nat, x: nat, y: nat)
    requires k * x < k * y
    ensures k * x + k <= k * y
  {
    if x < y {
      MultiplesApart(k, x, y);
    } else if y < x {
      MultiplesApart(k, y, x);
    }
  }

  lemma BlocksApart(b: nat, o: nat, p: nat)
    requires b < NSIZES && Aligned(b, o) && Aligned(b, p) && o < p < PAGE_SIZE
    ensures o + SizeOf(b) <= p
  {
    AlignedMeans(b, o);
    AlignedMeans(b, p);
    var s := SizeOf(b);
    assert o == s * (o / s) && p == s * (p / s);
    MultiplesOrdered(s, o / s, p / s);
  }

  lemma BlockInside(b: nat, o: nat)
    requires b < NSIZES && Aligned(b, o) && o < PAGE_SIZE
    ensures o + SizeOf(b) <= PAGE_SIZE
  {
    if b == 0 {
    } else if b == 1 {
    } else if b == 2 {
    } else if b == 3 {
    } else if b == 4 {
    } else if b == 5 {
    } else if b == 6 {
    } else {
    }
  }

  /** The kernel block a live block lies in: its heap page, or its own pages. */
  function HomeOf(h: Heap, a: nat, sz: nat): (nat, nat) {
    if FindPage(h.pages, a) < |h.pages| then (h.pages[FindPage(h.pages, a)].addr, 1) else (a, PagesFor(sz))
  }

  lemma LiveHome(h: Heap, live: Live, a: nat)
    requires HeapInv(h, live) && a in live
    ensures var (home, n) := HomeOf(h, a, live[a]);
      && HeadAt(h, home, n) && home <= a && a + Extent(live[a]) <= home + n * PAGE_SIZE
      && (FindPage(h.pages, a) < |h.pages| <==> live[a] < LARGEST)
  {
    KfreeInv(h, live, a);
    assert IsLive(h, a, live[a]);
    if live[a] < LARGEST {
      var i, o := SubLiveAt(h, a, live[a]);
      assert PageOk(h, h.pages[i]);
      BlockInside(h.pages[i].blk, o);
    }
  }

  /** A free block of a page is apart from every live block, so what programs write to theirs leaves the free lists alone. */
  lemma FreeApartFromLive(h: Heap, live: Live, a: nat, i: nat, o: nat)
    requires HeapInv(h, live) && a in live && i < |h.pages| && o in h.pages[i].free
    ensures h.pages[i].blk < NSIZES
    ensures var f := h.pages[i].addr + o;
      a + Extent(live[a]) <= f || f + SizeOf(h.pages[i].blk) <= a
  {
    assert PageOk(h, h.pages[i]);
    var k :| 0 <= k < |h.pages[i].free| && h.pages[i].free[k] == o;
    assert IsBlock(h.pages[i], h.pages[i].free[k]);
    BlockInside(h.pages[i].blk, o);
    LiveHome(h, live, a);
    var (home, n) := HomeOf(h, a, live[a]);
    if home != h.pages[i].addr {
      HeadsApart(h, home, n, h.pages[i].addr, 1);
    } else {
      FreeOnSamePage(h, live, a, i, o);
    }
  }

  /** So a store anywhere in a live block keeps every free list threaded as it was. */
  lemma StoreKeepsLists(h: Heap, live: Live, a: nat, x: nat, words: map<nat, nat>, v: nat)
    requires HeapInv(h, live) && a in live && a <= x < a + Extent(live[a]) && M.Threaded(h.pages, words)
    ensures M.Threaded(h.pages, words[x := v])
  {
    forall i | 0 <= i < |h.pages| ensures M.NotFreeOn(h.pages[i], x) {
      forall k | 0 <= k < |h.pages[i].free| ensures h.pages[i].addr + h.pages[i].free[k] != x {
        FreeApartFromLive(h, live, a, i, h.pages[i].free[k]);
      }
    }
    M.WordWritten(h.pages, words, x, v);
  }

  lemma FreeOnSamePage(h: Heap, live: Live, a: nat, i: nat, o: nat)
    requires HeapInv(h, live) && a in live && i < |h.pages| && o in h.pages[i].free && IsBlock(h.pages[i], o)
    requires HomeOf(h, a, live[a]).0 == h.pages[i].addr
    ensures var f := h.pages[i].addr + o;
      a + Extent(live[a]) <= f || f + SizeOf(h.pages[i].blk) <= a
  {
    assert IsLive(h, a, live[a]);
    LiveHome(h, live, a);
    assert PageOk(h, h.pages[i]);
    OnePage(h, h.pages[i].addr, i);
    if live[a] < LARGEST {
      var j, p := SubLiveAt(h, a, live[a]);
      OnePage(h, h.pages[j].addr, j);
      if p < o {
        BlocksApart(h.pages[i].blk, p, o);
      } else {
        BlocksApart(h.pages[i].blk, o, p);
      }
    }
  }

  lemma SamePageApart(h: Heap, a: nat, sa: nat, b: nat, sb: nat)
    requires SubLive(h, a, sa) && SubLive(h, b, sb) && FindPage(h.pages, a) == FindPage(h.pages, b) && a < b
    ensures a + Extent(sa) <= b
  {
    var i, o := SubLiveAt(h, a, sa);
    var j, p := SubLiveAt(h, b, sb);
    BlocksApart(h.pages[i].blk, o, p);
  }

  /** Two live blocks never overlap, and each is at least as large as was asked for. */
  lemma LiveDisjoint(h: Heap, live: Live, a: nat, b: nat)
    requires HeapInv(h, live) && a in live && b in live && a != b
    ensures a + Extent(live[a]) <= b || b + Extent(live[b]) <= a
  {
    LiveHome(h, live, a);
    LiveHome(h, live, b);
    var (ha, na) := HomeOf(h, a, live[a]);
    var (hb, nb) := HomeOf(h, b, live[b]);
    if ha != hb {
      HeadsApart(h, ha, na, hb, nb);
    } else {
      SameHome(h, live, a, b);
    }
  }

  lemma SameHome(h: Heap, live: Live, a: nat, b: nat)
    requires HeapInv(h, live) && a in live && b in live && a != b
    requires HomeOf(h, a, live[a]).0 == HomeOf(h, b, live[b]).0
    ensures a + Extent(live[a]) <= b || b + Extent(live[b]) <= a
  {
    assert IsLive(h, a, live[a]) && IsLive(h, b, live[b]);
    LiveHome(h, live, a);
    LiveHome(h, live, b);
    if live[a] < LARGEST && live[b] < LARGEST {
      assert FindPage(h.pages, a) == FindPage(h.pages, b) by {
        OnePage(h, h.pages[FindPage(h.pages, a)].addr, FindPage(h.pages, a));
        OnePage(h, h.pages[FindPage(h.pages, b)].addr, FindPage(h.pages, b));
      }
      if a < b {
        SamePageApart(h, a, live[a], b, live[b]);
      } else {
        SamePageApart(h, b, live[b], a, live[a]);
      }
    }
  }

  // ---- runs ----

  /** What happens: heap operations, and changes elsewhere in the coremap. */
  datatype Op = Malloc(sz: nat) | Free(a: nat) | Elsewhere(cm: seq<CmEntry>, clock: nat)

  /** The heap with the blocks handed out; `failed` once `kfree` has failed its assertion. */
  datatype State = State(h: Heap, live: Live, failed: bool)

  /** Only live blocks are freed, and the rest of the kernel leaves kernel blocks alone. */
  ghost predicate Enabled(s: State, op: Op) {
    match op
    case Malloc(_) => true
    case Free(a) => a in s.live
    case Elsewhere(cm, clock) =>
      var h' := s.h.(cm := cm, clock := clock);
      |cm| == |s.h.cm| && FramesOk(h') && HeadsKept(s.h, h', 0)
  }

  ghost function Next(s: State, op: Op): State
    requires Enabled(s, op)
  {
    match op
    case Malloc(sz) =>
      var (h', r) := Kmalloc(s.h, sz);
      State(h', if r.Got? then s.live[r.addr := sz] else s.live, s.failed)
    case Free(a) =>
      var (h', r) := Kfree(s.h, a);
      if r == Panic then s.(failed := true) else State(h', s.live - {a}, s.failed)
    case Elsewhere(cm, clock) => s.(h := s.h.(cm := cm, clock := clock))
  }

  lemma StepInv(s: State, op: Op)
    requires HeapInv(s.h, s.live) && Enabled(s, op)
    ensures HeapInv(Next(s, op).h, Next(s, op).live)
  {
    match op
    case Malloc(sz) => KmallocInv(s.h, s.live, sz);
    case Free(a) => KfreeInv(s.h, s.live, a);
    case Elsewhere(cm, clock) =>
      NewIsUnused(s.h, s.live, 0);
      FramesChanged(s.h, s.h.(cm := cm, clock := clock), s.live, 0);
  }

  ghost predicate Feasible(s: State, ops: seq<Op>)
    decreases |ops|
  {
    ops == [] || (Enabled(s, ops[0]) && Feasible(Next(s, ops[0]), ops[1..]))
  }

  ghost function After(s: State, ops: seq<Op>): State
    requires Feasible(s, ops)
    decreases |ops|
  {
    if ops == [] then s else After(Next(s, ops[0]), ops[1..])
  }

  /** Over every sequence of allocations, frees of live blocks and paging activity the heap keeps its invariant. */
  lemma {:induction false} HeapKept(s: State, ops: seq<Op>)
    requires HeapInv(s.h, s.live) && Feasible(s, ops)
    ensures HeapInv(After(s, ops).h, After(s, ops).live)
    decreases |ops|
  {
    if ops != [] {
      StepInv(s, ops[0]);
      HeapKept(Next(s, ops[0]), ops[1..]);
    }
  }

  /** A live block lies in kernel frames, so no user page ever shares memory with it. */
  lemma LiveIsKernel(h: Heap, live: Live, a: nat, x: nat)
    requires HeapInv(h, live) && a in live && a <= x < a + Extent(live[a])
    ensures 0 <= PosOf(h, x) < |h.cm| && h.cm[PosOf(h, x)].state == Fixed
  {
    LiveHome(h, live, a);
    var (home, n) := HomeOf(h, a, live[a]);
    assert IsHead(h.cm, PosOf(h, home));
    var p := PosOf(h, home);
    assert PosOf(h, x) < p + n;
    assert PosOf(h, x) > p ==> h.cm[PosOf(h, x)].state == Fixed;
  }
}
