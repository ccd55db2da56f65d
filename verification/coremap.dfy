/** The coremap: one record per physical frame (kern/vm/coremap.c). */
module Coremap {
  import opened Layout

  datatype FrameState = Free | Fixed | Loading | Clean

  /** A load time; `Never` is the timestamp -1, the largest unsigned value. */
  datatype Stamp = Never | At(time: nat)

  /** The address space a frame belongs to; `Nobody` is the null pointer. */
  datatype Owner = Nobody | As(id: nat)

  datatype CmEntry = CmEntry(owner: Owner, page: nat, state: FrameState, npages: nat, stamp: Stamp)

  const FREE_ENTRY := CmEntry(Nobody, 0, Free, 0, Never)

  /** The record `cm_bootstrap` writes for frame `i`; frames up to `last` hold the coremap itself. */
  function BootEntry(i: nat, last: nat): CmEntry {
    if i <= last then CmEntry(Nobody, 0, Fixed, 0, At(i)) else FREE_ENTRY
  }

  predicate BootTable(cm: seq<CmEntry>, last: nat) {
    forall i :: 0 <= i < |cm| ==> cm[i] == BootEntry(i, last)
  }

  /** The physical address of a frame. */
  function FrameAddr(base: nat, i: nat): (pa: nat)
    ensures FrameIndex(base, pa) == i
    ensures base > 0 ==> pa > 0
  {
    base + i * PAGE_SIZE
  }

  /** The coremap position of a physical address, or -1 for an address below the managed range. */
  function FrameIndex(base: nat, pa: nat): int {
    if pa < base then -1 else (pa - base) / PAGE_SIZE
  }

  /** Position of the first free frame, or the number of frames. */
  function FirstFree(cm: seq<CmEntry>, i: nat := 0): (r: nat)
    requires i <= |cm|
    ensures i <= r <= |cm|
    ensures forall j :: i <= j < r ==> cm[j].state != Free
    ensures r < |cm| ==> cm[r].state == Free
    decreases |cm| - i
  {
    if i == |cm| || cm[i].state == Free then i else FirstFree(cm, i + 1)
  }

  predicate Evictable(e: CmEntry, id: nat) {
    e.owner == As(id) && e.state != Fixed && e.state != Loading
  }

  predicate Before(s: Stamp, t: nat) {
    s.At? && s.time < t
  }

  /** The scan of `cm_evict`: position of the oldest evictable frame seen, -1 for none. */
  function Oldest(cm: seq<CmEntry>, id: nat, i: nat, min: nat, pos: int): (r: int)
    requires i <= |cm|
    ensures r == pos || i <= r < |cm|
    ensures r != pos ==> Evictable(cm[r], id) && Before(cm[r].stamp, min)
    ensures r != pos ==> forall j :: i <= j < |cm| && Evictable(cm[j], id) ==> !Before(cm[j].stamp, cm[r].stamp.time)
    ensures r == pos && !(i <= pos < |cm|) ==>
      forall j :: i <= j < |cm| && Evictable(cm[j], id) ==> !Before(cm[j].stamp, min)
    decreases |cm| - i
  {
    if i == |cm| then pos
    else if Evictable(cm[i], id) && Before(cm[i].stamp, min) then Oldest(cm, id, i + 1, cm[i].stamp.time, i)
    else Oldest(cm, id, i + 1, min, pos)
  }

  /** What `cm_asfree` leaves: the address space's frames free, the others as they were. */
  function OwnerFreed(cm: seq<CmEntry>, id: nat): (r: seq<CmEntry>) {
    seq(|cm|, i requires 0 <= i < |cm| => if cm[i].owner == As(id) && cm[i].state != Fixed then FREE_ENTRY else cm[i])
  }

  // ---- kernel blocks ----

  /** Where the kernel sees physical address 0. */
  const KSEG0: nat := 0x8000_0000

  /** `n` free frames from position `p` on. */
  predicate IsRun(cm: seq<CmEntry>, p: nat, n: nat) {
    p + n <= |cm| && forall i :: p <= i < p + n ==> cm[i].state == Free
  }

  /** The lowest run of `n` free frames, or the number of frames. */
  function LowestRun(cm: seq<CmEntry>, n: nat, p: nat := 0): (r: nat)
    requires p <= |cm|
    ensures p <= r <= |cm|
    ensures r < |cm| ==> IsRun(cm, r, n)
    ensures forall q :: p <= q < r ==> !IsRun(cm, q, n)
    decreases |cm| - p
  {
    if p == |cm| || IsRun(cm, p, n) then p else LowestRun(cm, n, p + 1)
  }

  /** The record `frame_kalloc` writes for frame `i` of a block of `n` from `p`; only the head records the size. */
  function KernelEntry(cm: seq<CmEntry>, base: nat, clock: nat, p: nat, n: nat, i: nat): CmEntry
    requires i < |cm|
  {
    CmEntry(Nobody, FrameAddr(base, i) + KSEG0, Fixed, if i == p then n else cm[i].npages, At(clock))
  }

  function Claim(cm: seq<CmEntry>, base: nat, clock: nat, p: nat, n: nat): (r: seq<CmEntry>)
    requires p + n <= |cm|
    ensures |r| == |cm|
    ensures forall i :: 0 <= i < |cm| ==> r[i] == if p <= i < p + n then KernelEntry(cm, base, clock, p, n, i) else cm[i]
  {
    seq(|cm|, i requires 0 <= i < |cm| => if p <= i < p + n then KernelEntry(cm, base, clock, p, n, i) else cm[i])
  }

  /** What `frame_kfree` leaves of a record; the owner field is not written. */
  function Released(e: CmEntry): CmEntry {
    e.(state := Free, npages := 0, page := 0, stamp := Never)
  }

  function Release(cm: seq<CmEntry>, p: nat, n: nat): (r: seq<CmEntry>)
    requires p + n <= |cm|
    ensures |r| == |cm|
    ensures forall i :: 0 <= i < |cm| ==> r[i] == if p <= i < p + n then Released(cm[i]) else cm[i]
  {
    seq(|cm|, i requires 0 <= i < |cm| => if p <= i < p + n then Released(cm[i]) else cm[i])
  }

  /** Position `p` heads an allocated kernel block. */
  predicate IsHead(cm: seq<CmEntry>, p: nat) {
    p < |cm| && cm[p].state == Fixed && cm[p].npages > 0
  }

  /** Every block lies in the coremap, and its frames but the first are FIXED and record no size. */
  ghost predicate Blocks(cm: seq<CmEntry>) {
    && (forall p: nat :: IsHead(cm, p) ==> p + cm[p].npages <= |cm|)
    && (forall p: nat, i: nat :: IsHead(cm, p) && p < i < p + cm[p].npages ==> cm[i].state == Fixed && cm[i].npages == 0)
  }

  /** Two blocks never share a frame. */
  lemma BlocksDisjoint(cm: seq<CmEntry>, p: nat, q: nat)
    requires Blocks(cm) && IsHead(cm, p) && IsHead(cm, q) && p < q
    ensures p + cm[p].npages <= q
  {
  }

  /** A free frame keeps no trace of its last use. */
  ghost predicate FreeClean(cm: seq<CmEntry>) {
    forall i :: 0 <= i < |cm| && cm[i].state == Free ==> cm[i] == FREE_ENTRY
  }

  /** A new block leaves the others alone and is disjoint from them. */
  lemma ClaimKeepsBlocks(cm: seq<CmEntry>, base: nat, clock: nat, p: nat, n: nat)
    requires Blocks(cm) && FreeClean(cm) && IsRun(cm, p, n) && n > 0
    ensures var cm' := Claim(cm, base, clock, p, n);
      && Blocks(cm') && FreeClean(cm') && IsHead(cm', p) && cm'[p].npages == n
      && (forall q: nat :: IsHead(cm', q) <==> q == p || IsHead(cm, q))
  {
  }

  /** Freeing a block frees its frames and no other block's. */
  lemma ReleaseKeepsBlocks(cm: seq<CmEntry>, p: nat)
    requires Blocks(cm) && FreeClean(cm) && IsHead(cm, p)
    requires forall i :: 0 <= i < |cm| && cm[i].state == Fixed ==> cm[i].owner == Nobody
    ensures p + cm[p].npages <= |cm|
    ensures var cm' := Release(cm, p, cm[p].npages);
      && Blocks(cm') && FreeClean(cm')
      && (forall q: nat :: IsHead(cm', q) <==> q != p && IsHead(cm, q))
      && (forall q: nat :: IsHead(cm', q) ==> cm'[q] == cm[q])
  {
    var n := cm[p].npages;
    var cm' := Release(cm, p, n);
    forall q: nat, i: nat | IsHead(cm', q) && q < i < q + cm'[q].npages ensures cm'[i].state == Fixed && cm'[i].npages == 0 {
      assert IsHead(cm, q);
      assert i == p || cm[i].npages == 0;
    }
  }

  /** Allocating a block and freeing it again restores the coremap exactly. */
  lemma ReleaseUndoesClaim(cm: seq<CmEntry>, base: nat, clock: nat, p: nat, n: nat)
    requires FreeClean(cm) && IsRun(cm, p, n) && n > 0
    ensures Release(Claim(cm, base, clock, p, n), p, n) == cm
  {
  }

  /** Rewriting the record of a frame outside the kernel's blocks leaves them alone. */
  lemma UserFrameKeepsBlocks(cm: seq<CmEntry>, f: nat, e: CmEntry)
    requires Blocks(cm) && f < |cm| && cm[f].state != Fixed && e.state != Fixed
    ensures Blocks(cm[f := e])
  {
    var cm' := cm[f := e];
    assert forall p: nat :: IsHead(cm', p) ==> IsHead(cm, p) && cm'[p] == cm[p];
  }
}
