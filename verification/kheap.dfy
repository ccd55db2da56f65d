/**
 * The kernel heap over the frame allocator: size classes, free lists and
 * page records, and the invariant they keep (kern/vm/kmalloc.c).
 */
module KHeap {
  import opened Layout
  import opened Coremap

  const NSIZES: nat := 8
  const LARGEST: nat := 2048

  /** The block size of a class: 16, 32, .. 2048. */
  function SizeOf(b: nat): (s: nat)
    requires b < NSIZES
    ensures 16 <= s <= LARGEST
  {
    match b
    case 0 => 16
    case 1 => 32
    case 2 => 64
    case 3 => 128
    case 4 => 256
    case 5 => 512
    case 6 => 1024
    case _ => 2048
  }

  /** `PAGE_SIZE / sizes[b]`. */
  function BlocksPer(b: nat): (n: nat)
    requires b < NSIZES
    ensures 2 <= n <= 256
  {
    match b
    case 0 => 256
    case 1 => 128
    case 2 => 64
    case 3 => 32
    case 4 => 16
    case 5 => 8
    case 6 => 4
    case _ => 2
  }

  /** Whether an offset is a multiple of the block size. */
  predicate Aligned(b: nat, o: nat)
    requires b < NSIZES
  {
    match b
    case 0 => o % 16 == 0
    case 1 => o % 32 == 0
    case 2 => o % 64 == 0
    case 3 => o % 128 == 0
    case 4 => o % 256 == 0
    case 5 => o % 512 == 0
    case 6 => o % 1024 == 0
    case _ => o % 2048 == 0
  }

  lemma AlignedMeans(b: nat, o: nat)
    requires b < NSIZES
    ensures Aligned(b, o) <==> o % SizeOf(b) == 0
    ensures SizeOf(b) * BlocksPer(b) == PAGE_SIZE
  {
    if b == 0 {
    } else if b == 1 {
    } else if b == 2 {
    } else if b == 3 {
    } else if b == 4 {
    } else if b == 5 {
    } else if b == 6 {
    } else {
    }
  }

  /** `blocktype`: the smallest class whose blocks hold `sz` bytes. */
  function BlockType(sz: nat, i: nat := 0): (b: nat)
    requires i <= NSIZES
    ensures i <= b <= NSIZES
    ensures b < NSIZES ==> sz <= SizeOf(b)
    ensures forall c :: i <= c < b ==> SizeOf(c) < sz
    decreases NSIZES - i
  {
    if i == NSIZES || sz <= SizeOf(i) then i else BlockType(sz, i + 1)
  }

  // ---- state ----

  const ROOTS: nat := 16
  const REFS_PER_PAGE: nat := 256
  const TOTAL_REFS: nat := 4096

  /** A heap page: its record's slot, its address, its class, and its free list as offsets, head first. */
  datatype HeapPage = HeapPage(slot: nat, addr: nat, blk: nat, free: seq<nat>)

  /** `pages` is the list of all heap pages, head first; `inuse` the record slots taken; `roots` the pages of records, 0 for none. */
  datatype Heap = Heap(pages: seq<HeapPage>, inuse: seq<bool>, roots: seq<nat>, cm: seq<CmEntry>, base: nat, clock: nat)

  datatype Result = Got(addr: nat) | Freed | Null | Panic

  // ---- whole pages ----

  function VAddr(h: Heap, p: nat): nat {
    FrameAddr(h.base, p) + KSEG0
  }

  /** The frame of a kernel address, or -1. */
  function PosOf(h: Heap, a: nat): int {
    if a < KSEG0 then -1 else FrameIndex(h.base, a - KSEG0)
  }

  /** `alloc_kpages`; 0 when there is no run of free frames. */
  function AllocKpages(h: Heap, n: nat): (r: (Heap, nat))
  {
    var p := LowestRun(h.cm, if n == 0 then 1 else n);
    if p == |h.cm| then (h, 0)
    else (h.(cm := Claim(h.cm, h.base, h.clock, p, n), clock := h.clock + 1), VAddr(h, p))
  }

  /** `free_kpages`, for an address in the managed range. */
  function FreeKpages(h: Heap, a: nat): Heap {
    var p := PosOf(h, a);
    if 0 <= p < |h.cm| && p + h.cm[p].npages <= |h.cm| then h.(cm := Release(h.cm, p, h.cm[p].npages)) else h
  }

  // ---- page records ----

  /** A page record by its slot; `NoRef` is the null pointer. */
  datatype Ref = NoRef | Ref(slot: nat)

  /** The lowest record slot that is not in use. */
  function FirstClear(inuse: seq<bool>, i: nat := 0): (r: nat)
    requires i <= |inuse|
    ensures i <= r <= |inuse|
    ensures forall j :: i <= j < r ==> inuse[j]
    ensures r < |inuse| ==> !inuse[r]
    decreases |inuse| - i
  {
    if i == |inuse| || !inuse[i] then i else FirstClear(inuse, i + 1)
  }

  function RootOf(slot: nat): nat {
    slot / REFS_PER_PAGE
  }

  /** `allocpageref`: the slot stays marked even when its page of records cannot be had. */
  function AllocRef(h: Heap): (r: (Heap, Ref)) {
    var s := FirstClear(h.inuse);
    if s == |h.inuse| || RootOf(s) >= |h.roots| then (h, NoRef)
    else
      var h1 := h.(inuse := h.inuse[s := true]);
      if h.roots[RootOf(s)] != 0 then (h1, Ref(s))
      else
        var (h2, va) := AllocKpages(h1, 1);
        if va == 0 then (h2, NoRef) else (h2.(roots := h2.roots[RootOf(s) := va]), Ref(s))
  }

  /** No slot of a root is marked. */
  predicate RootEmpty(h: Heap, q: nat) {
    forall s :: q * REFS_PER_PAGE <= s < (q + 1) * REFS_PER_PAGE && s < |h.inuse| ==> !h.inuse[s]
  }

  /** The assertion of `freepageref` on the roots before the one with the record. */
  predicate RootsBefore(h: Heap, slot: nat) {
    forall q :: 0 <= q < RootOf(slot) && q < |h.roots| && h.roots[q] == 0 ==> RootEmpty(h, q)
  }

  // ---- blocks ----

  /** Where the `j`-th block of a page starts, `j * sizes[b]`. */
  function Off(b: nat, j: nat): (o: nat)
    requires b < NSIZES
  {
    match b
    case 0 => 16 * j
    case 1 => 32 * j
    case 2 => 64 * j
    case 3 => 128 * j
    case 4 => 256 * j
    case 5 => 512 * j
    case 6 => 1024 * j
    case _ => 2048 * j
  }

  /** The free list of a fresh page: the last block first. */
  function FreshList(b: nat, n: nat): (r: seq<nat>)
    requires b < NSIZES
    ensures |r| == n && forall i :: 0 <= i < n ==> r[i] == Off(b, n - 1 - i)
  {
    seq(n, i requires 0 <= i < n => Off(b, n - 1 - i))
  }

  /** The first page of a class with a free block, or the number of pages. */
  function FindFree(pages: seq<HeapPage>, b: nat, i: nat := 0): (r: nat)
    requires i <= |pages|
    ensures i <= r <= |pages|
    ensures forall j :: i <= j < r ==> pages[j].blk != b || pages[j].free == []
    ensures r < |pages| ==> pages[r].blk == b && pages[r].free != []
    decreases |pages| - i
  {
    if i == |pages| || (pages[i].blk == b && pages[i].free != []) then i else FindFree(pages, b, i + 1)
  }

  predicate OnPage(g: HeapPage, a: nat) {
    g.addr <= a < g.addr + PAGE_SIZE
  }

  /** The first page an address lies on, or the number of pages. */
  function FindPage(pages: seq<HeapPage>, a: nat, i: nat := 0): (r: nat)
    requires i <= |pages|
    ensures i <= r <= |pages|
    ensures forall j :: i <= j < r ==> !OnPage(pages[j], a)
    ensures r < |pages| ==> OnPage(pages[r], a)
    decreases |pages| - i
  {
    if i == |pages| || OnPage(pages[i], a) then i else FindPage(pages, a, i + 1)
  }

  /** The block at the head of page `i`'s free list. */
  function Take(h: Heap, i: nat): (r: (Heap, Result))
    requires i < |h.pages| && h.pages[i].free != []
  {
    var g := h.pages[i];
    (h.(pages := h.pages[i := g.(free := g.free[1..])]), Got(g.addr + g.free[0]))
  }

  /** A fresh page of a class at the front of the list; the flag tells whether there was room. */
  function NewPage(h: Heap, b: nat): (r: (Heap, bool))
    requires b < NSIZES
  {
    var (h1, va) := AllocKpages(h, 1);
    if va == 0 then (h1, false)
    else
      var (h2, ref) := AllocRef(h1);
      if ref == NoRef then (FreeKpages(h2, va), false)
      else (h2.(pages := [HeapPage(ref.slot, va, b, FreshList(b, BlocksPer(b)))] + h2.pages), true)
  }

  /** `subpage_kmalloc` for a class. */
  function SubAlloc(h: Heap, b: nat): (r: (Heap, Result))
    requires b < NSIZES
  {
    var i := FindFree(h.pages, b);
    if i < |h.pages| then Take(h, i)
    else
      var (h1, ok) := NewPage(h, b);
      if !ok || h1.pages == [] || h1.pages[0].free == [] then (h1, Null) else Take(h1, 0)
  }

  /** `kmalloc`. */
  function Kmalloc(h: Heap, sz: nat): (r: (Heap, Result)) {
    if sz >= LARGEST then
      var (h1, va) := AllocKpages(h, (sz + PAGE_SIZE - 1) / PAGE_SIZE);
      (h1, if va == 0 then Null else Got(va))
    else if BlockType(sz) == NSIZES then (h, Panic)
    else SubAlloc(h, BlockType(sz))
  }

  /** A block goes back on page `i`'s free list; a page all free goes back to the frame allocator. */
  function SubFree(h: Heap, i: nat, offset: nat): (r: (Heap, Result))
    requires i < |h.pages|
  {
    var g := h.pages[i];
    if g.blk >= NSIZES || !Aligned(g.blk, offset) then (h, Panic)
    else if g.free != [] && g.free[0] == offset then (h, Panic)
    else if |g.free| + 1 < BlocksPer(g.blk) then (h.(pages := h.pages[i := g.(free := [offset] + g.free)]), Freed)
    else if |g.free| + 1 > BlocksPer(g.blk) || g.slot >= |h.inuse| || !h.inuse[g.slot] || !RootsBefore(h, g.slot) then (h, Panic)
    else
      (FreeKpages(h.(pages := h.pages[..i] + h.pages[i + 1..], inuse := h.inuse[g.slot := false]), g.addr), Freed)
  }

  /** `kfree` of a pointer that is not null. */
  function Kfree(h: Heap, a: nat): (r: (Heap, Result)) {
    var i := FindPage(h.pages, a);
    if i < |h.pages| then SubFree(h, i, a - h.pages[i].addr)
    else if a % PAGE_SIZE != 0 then (h, Panic)
    else (FreeKpages(h, a), Freed)
  }

  // ---- invariants ----

  /** The coremap under the heap. */
  ghost predicate FramesOk(h: Heap) {
    && h.base % PAGE_SIZE == 0
    && Blocks(h.cm) && FreeClean(h.cm)
    && (forall i :: 0 <= i < |h.cm| && h.cm[i].state == Fixed ==> h.cm[i].owner == Nobody)
  }

  /** The address heads a kernel block of `n` pages. */
  ghost predicate HeadAt(h: Heap, a: nat, n: nat) {
    var p := PosOf(h, a);
    0 <= p < |h.cm| && a == VAddr(h, p) && IsHead(h.cm, p) && h.cm[p].npages == n
  }

  /** A block of the page. */
  predicate IsBlock(g: HeapPage, o: nat) {
    g.blk < NSIZES && Aligned(g.blk, o) && o < PAGE_SIZE
  }

  ghost predicate Distinct(s: seq<nat>) {
    forall i, j :: 0 <= i < j < |s| ==> s[i] != s[j]
  }

  /** The free list names blocks of the page, none twice. */
  ghost predicate FreeOk(g: HeapPage) {
    && g.blk < NSIZES && |g.free| <= BlocksPer(g.blk)
    && (forall k :: 0 <= k < |g.free| ==> IsBlock(g, g.free[k]))
    && Distinct(g.free)
  }

  ghost predicate RefOk(h: Heap, slot: nat) {
    slot < |h.inuse| && h.inuse[slot] && RootOf(slot) < |h.roots| && h.roots[RootOf(slot)] != 0
  }

  ghost predicate PageOk(h: Heap, g: HeapPage) {
    FreeOk(g) && HeadAt(h, g.addr, 1) && RefOk(h, g.slot)
  }

  ghost predicate AllPagesOk(h: Heap) {
    forall i {:trigger PageOk(h, h.pages[i])} :: 0 <= i < |h.pages| ==> PageOk(h, h.pages[i])
  }

  /** No two pages share an address or a record. */
  ghost predicate PagesApart(h: Heap) {
    forall i, j :: 0 <= i < j < |h.pages| ==> h.pages[i].addr != h.pages[j].addr && h.pages[i].slot != h.pages[j].slot
  }

  ghost predicate NoPageAt(h: Heap, a: nat) {
    forall i :: 0 <= i < |h.pages| ==> h.pages[i].addr != a
  }

  ghost predicate RootOk(h: Heap, a: nat) {
    HeadAt(h, a, 1) && NoPageAt(h, a)
  }

  /** The pages of records are kernel blocks of their own. */
  ghost predicate RootsOk(h: Heap) {
    && |h.roots| == ROOTS && |h.inuse| == TOTAL_REFS
    && (forall r {:trigger RootOk(h, h.roots[r])} :: 0 <= r < |h.roots| && h.roots[r] != 0 ==> RootOk(h, h.roots[r]))
    && (forall q, r :: 0 <= q < r < |h.roots| && h.roots[q] != 0 ==> h.roots[q] != h.roots[r])
  }

  ghost predicate HeapOk(h: Heap) {
    FramesOk(h) && AllPagesOk(h) && PagesApart(h) && RootsOk(h)
  }

  // ---- live blocks ----

  /** `live` maps the address of every block handed out to the size asked for. */
  type Live = map<nat, nat>

  function PagesFor(sz: nat): nat {
    (sz + PAGE_SIZE - 1) / PAGE_SIZE
  }

  /** A live block of a heap page: in the smallest class that fits, and not free. */
  ghost predicate SubLive(h: Heap, a: nat, sz: nat) {
    var i := FindPage(h.pages, a);
    && sz < LARGEST && i < |h.pages|
    && h.pages[i].blk == BlockType(sz)
    && IsBlock(h.pages[i], a - h.pages[i].addr)
    && a - h.pages[i].addr !in h.pages[i].free
  }

  /** A live block of whole pages: a kernel block of its own. */
  ghost predicate BigLive(h: Heap, a: nat, sz: nat) {
    sz >= LARGEST && HeadAt(h, a, PagesFor(sz)) && NoPageAt(h, a) && a !in h.roots
  }

  ghost predicate IsLive(h: Heap, a: nat, sz: nat) {
    SubLive(h, a, sz) || BigLive(h, a, sz)
  }

  ghost predicate LiveOk(h: Heap, live: Live) {
    forall a {:trigger IsLive(h, a, live[a])} :: a in live ==> IsLive(h, a, live[a])
  }

  /** Every block of every heap page is free or live. */
  ghost predicate Accounted(h: Heap, live: Live) {
    forall i, o: nat {:trigger IsBlock(h.pages[i], o)} ::
      0 <= i < |h.pages| && IsBlock(h.pages[i], o) && o !in h.pages[i].free ==> h.pages[i].addr + o in live
  }

  ghost predicate Inv(h: Heap, live: Live) {
    HeapOk(h) && LiveOk(h, live) && Accounted(h, live)
  }

  /** No page is kept with all its blocks free. */
  ghost predicate NoneEmpty(h: Heap) {
    forall i :: 0 <= i < |h.pages| ==> h.pages[i].blk < NSIZES && |h.pages[i].free| < BlocksPer(h.pages[i].blk)
  }

  // ---- addresses and frames ----

  lemma PosOfVAddr(h: Heap, p: nat)
    ensures PosOf(h, VAddr(h, p)) == p && VAddr(h, p) > 0
    ensures h.base % PAGE_SIZE == 0 ==> VAddr(h, p) % PAGE_SIZE == 0
  {
  }

  /** Kernel blocks kept from one state to another, but for one. */
  ghost predicate HeadsKept(h: Heap, h': Heap, but: nat) {
    forall a: nat, n: nat {:trigger HeadAt(h', a, n)} :: HeadAt(h, a, n) && a != but ==> HeadAt(h', a, n)
  }

  /** A new kernel block is none of those there were. */
  lemma AllocHeads(h: Heap, n: nat)
    requires FramesOk(h) && n > 0
    ensures var (h', va) := AllocKpages(h, n);
      && FramesOk(h') && HeadsKept(h, h', 0) && h' == h.(cm := h'.cm, clock := h'.clock)
      && (va == 0 ==> h' == h)
      && (va != 0 ==> HeadAt(h', va, n) && va % PAGE_SIZE == 0 && forall k :: !HeadAt(h, va, k))
  {
    var p := LowestRun(h.cm, n);
    if p < |h.cm| {
      ClaimHeads(h, p, n);
    }
  }

  lemma ClaimHeads(h: Heap, p: nat, n: nat)
    requires FramesOk(h) && n > 0 && IsRun(h.cm, p, n)
    ensures var h' := h.(cm := Claim(h.cm, h.base, h.clock, p, n), clock := h.clock + 1);
      var va := VAddr(h, p);
      FramesOk(h') && HeadsKept(h, h', 0) && HeadAt(h', va, n) && va % PAGE_SIZE == 0 && va != 0 && forall k :: !HeadAt(h, va, k)
  {
    PosOfVAddr(h, p);
    ClaimKeepsBlocks(h.cm, h.base, h.clock, p, n);
  }

  /** Freeing a kernel block leaves the others. */
  lemma FreeHeads(h: Heap, a: nat, n: nat)
    requires FramesOk(h) && HeadAt(h, a, n)
    ensures var h' := FreeKpages(h, a);
      && FramesOk(h') && HeadsKept(h, h', a) && h' == h.(cm := h'.cm)
      && (forall k :: !HeadAt(h', a, k))
  {
    ReleaseKeepsBlocks(h.cm, PosOf(h, a));
  }

  /** Two kernel blocks are disjoint as memory. */
  lemma HeadsApart(h: Heap, a: nat, n: nat, b: nat, m: nat)
    requires FramesOk(h) && HeadAt(h, a, n) && HeadAt(h, b, m) && a != b
    ensures a + n * PAGE_SIZE <= b || b + m * PAGE_SIZE <= a
  {
    var p, q := PosOf(h, a), PosOf(h, b);
    if p < q {
      BlocksDisjoint(h.cm, p, q);
    } else {
      BlocksDisjoint(h.cm, q, p);
    }
  }

  /** An address lies on at most one heap page. */
  lemma OnePage(h: Heap, a: nat, i: nat)
    requires FramesOk(h) && AllPagesOk(h) && PagesApart(h) && i < |h.pages| && OnPage(h.pages[i], a)
    ensures FindPage(h.pages, a) == i
  {
    var r := FindPage(h.pages, a);
    assert PageOk(h, h.pages[r]) && PageOk(h, h.pages[i]);
    if r != i {
      HeadsApart(h, h.pages[r].addr, 1, h.pages[i].addr, 1);
    }
  }

  // ---- the frame allocator under the heap ----

  lemma BlockKept(h: Heap, h': Heap, a: nat, sz: nat, but: nat)
    requires IsLive(h, a, sz)
    requires h'.pages == h.pages && h'.roots == h.roots && HeadsKept(h, h', but) && but != a
    ensures IsLive(h', a, sz)
  {
  }

  lemma LiveKept(h: Heap, h': Heap, live: Live, but: nat)
    requires LiveOk(h, live) && h'.pages == h.pages && h'.roots == h.roots
    requires HeadsKept(h, h', but) && but !in live
    ensures LiveOk(h', live)
  {
    forall a | a in live ensures IsLive(h', a, live[a]) {
      assert IsLive(h, a, live[a]);
      BlockKept(h, h', a, live[a], but);
    }
  }

  lemma PagesKept(h: Heap, h': Heap, but: nat)
    requires AllPagesOk(h) && h'.pages == h.pages && h'.roots == h.roots && h'.inuse == h.inuse && h'.base == h.base
    requires HeadsKept(h, h', but) && NoPageAt(h, but)
    ensures AllPagesOk(h')
  {
    forall i | 0 <= i < |h.pages| ensures PageOk(h', h.pages[i]) {
      assert PageOk(h, h.pages[i]);
    }
  }

  lemma RootsKept(h: Heap, h': Heap, but: nat)
    requires RootsOk(h) && h'.pages == h.pages && h'.roots == h.roots && h'.inuse == h.inuse
    requires HeadsKept(h, h', but) && (but == 0 || but !in h.roots)
    ensures RootsOk(h')
  {
    forall r | 0 <= r < |h.roots| && h.roots[r] != 0 ensures RootOk(h', h.roots[r]) {
      assert RootOk(h, h.roots[r]);
    }
  }

  /** A change of the coremap that keeps the heap's kernel blocks keeps the heap. */
  lemma FramesChanged(h: Heap, h': Heap, live: Live, but: nat)
    requires Inv(h, live) && h' == h.(cm := h'.cm, clock := h'.clock) && FramesOk(h')
    requires HeadsKept(h, h', but) && NoPageAt(h, but) && (but == 0 || but !in h.roots) && but !in live
    ensures Inv(h', live)
  {
    LiveKept(h, h', live, but);
    PagesKept(h, h', but);
    RootsKept(h, h', but);
  }

  lemma SubLiveAddr(h: Heap, a: nat, sz: nat)
    requires AllPagesOk(h) && FramesOk(h) && SubLive(h, a, sz)
    ensures a != 0 && (a % PAGE_SIZE == 0 ==> HeadAt(h, a, 1))
  {
    var g := h.pages[FindPage(h.pages, a)];
    assert PageOk(h, g);
    PosOfVAddr(h, PosOf(h, g.addr));
    if a % PAGE_SIZE == 0 {
      SamePage(g.addr, a);
    }
  }

  /** A live block is not at 0, and one at the start of a page heads a kernel block. */
  lemma LiveAddr(h: Heap, live: Live, a: nat)
    requires AllPagesOk(h) && FramesOk(h) && LiveOk(h, live) && a in live
    ensures a != 0 && (a % PAGE_SIZE == 0 ==> HeadAt(h, a, 1) || HeadAt(h, a, PagesFor(live[a])))
  {
    assert IsLive(h, a, live[a]);
    if SubLive(h, a, live[a]) {
      SubLiveAddr(h, a, live[a]);
    } else {
      PosOfVAddr(h, PosOf(h, a));
    }
  }

  /** What heads no kernel block is no heap page, no page of records and no live block. */
  lemma NewIsUnused(h: Heap, live: Live, va: nat)
    requires Inv(h, live) && va % PAGE_SIZE == 0 && forall k :: !HeadAt(h, va, k)
    ensures NoPageAt(h, va) && (va == 0 || va !in h.roots) && va !in live
  {
    forall i | 0 <= i < |h.pages| ensures h.pages[i].addr != va {
      assert PageOk(h, h.pages[i]);
    }
    forall r | 0 <= r < |h.roots| && h.roots[r] != 0 ensures h.roots[r] != va {
      assert RootOk(h, h.roots[r]);
    }
    forall a | a in live ensures a != va {
      LiveAddr(h, live, a);
    }
  }

  /** Two page-aligned addresses on one page are equal. */
  lemma SamePage(a: nat, b: nat)
    requires a % PAGE_SIZE == 0 && b % PAGE_SIZE == 0 && a <= b < a + PAGE_SIZE
    ensures a == b
  {
  }

  // ---- the whole invariant ----

  ghost predicate HeapInv(h: Heap, live: Live) {
    Inv(h, live) && NoneEmpty(h)
  }
}
