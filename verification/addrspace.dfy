/** Segments and page tables of an address space (kern/vm/addrspace.c, pt.c, segment.c). */
module AddressSpace {
  import opened Layout

  datatype Pte = Pte(page: nat, frame: nat, inMem: bool, inSwap: bool)

  /**
   * A segment. `suffix` places `first_pt_entry`: it is the number of page
   * table entries from there to the end of the address space's list, which
   * later definitions, prepended to the list, leave unchanged.
   */
  datatype Segment = Segment(base: nat, npages: nat, size: nat, offset: int, write: int, exec: int, suffix: nat)

  /** `pt` is the whole page table list, head first; `segs` the segment list, head first. */
  datatype Space = Space(segs: seq<Segment>, pt: seq<Pte>, elf: seq<Byte>)

  predicate Covers(s: Segment, va: nat) {
    s.base <= va < s.base + s.npages * PAGE_SIZE
  }

  /** The first segment covering an address, or the number of segments. */
  function FindSeg(segs: seq<Segment>, va: nat, i: nat := 0): (r: nat)
    requires i <= |segs|
    ensures i <= r <= |segs|
    ensures forall j :: i <= j < r ==> !Covers(segs[j], va)
    ensures r < |segs| ==> Covers(segs[r], va)
    decreases |segs| - i
  {
    if i == |segs| || Covers(segs[i], va) then i else FindSeg(segs, va, i + 1)
  }

  /** Result of the bounded page search; `RanOff` is a null dereference. */
  datatype Walked = Found(k: nat) | NotFound | RanOff

  /** The search over `n` entries from position `k` on. */
  function Walk(pt: seq<Pte>, k: nat, n: nat, va: nat): (r: Walked)
    ensures r.Found? ==> k <= r.k < |pt| && r.k < k + n && pt[r.k].page == va
    ensures r.Found? ==> forall i :: k <= i < r.k ==> pt[i].page != va
    ensures r.NotFound? ==> n == 0 || k + n <= |pt|
    ensures r.NotFound? ==> forall i :: k <= i < k + n ==> pt[i].page != va
    ensures r.RanOff? ==> k + n > |pt|
    decreases n
  {
    if n == 0 then NotFound
    else if k >= |pt| then RanOff
    else if pt[k].page == va then Found(k)
    else Walk(pt, k + 1, n - 1, va)
  }

  /** The full scan of `pt_update`: first entry for a page, or the length of the list. */
  function FirstEntry(pt: seq<Pte>, va: nat, i: nat := 0): (r: nat)
    requires i <= |pt|
    ensures i <= r <= |pt|
    ensures forall j :: i <= j < r ==> pt[j].page != va
    ensures r < |pt| ==> pt[r].page == va
    decreases |pt| - i
  {
    if i == |pt| || pt[i].page == va then i else FirstEntry(pt, va, i + 1)
  }

  /** `pt_update`: mark the page as swapped out. */
  function MarkSwapped(pt: seq<Pte>, va: nat): (r: seq<Pte>)
    ensures |r| == |pt| && forall i :: 0 <= i < |pt| ==> r[i].page == pt[i].page
  {
    var k := FirstEntry(pt, va);
    if k < |pt| then pt[k := Pte(va, 0, false, true)] else pt
  }

  /** The page of a segment's i-th entry: ascending for a program segment, descending for the stack. */
  function PageAt(s: Segment, i: nat): nat
    requires i < s.npages
  {
    if s.offset < 0 then s.base + (s.npages - 1 - i) * PAGE_SIZE else s.base + i * PAGE_SIZE
  }

  /** The list from position `at` on is the concatenation of the segments' page chains, in order. */
  ghost predicate Laid(segs: seq<Segment>, pt: seq<Pte>, at: nat)
    decreases |segs|
  {
    if segs == [] then at == |pt|
    else
      var s := segs[0];
      && at + s.suffix == |pt|
      && s.npages <= s.suffix
      && s.base % PAGE_SIZE == 0
      && (forall i :: at <= i < at + s.npages ==> pt[i].page == PageAt(s, i - at))
      && Laid(segs[1..], pt, at + s.npages)
  }

  // ---- definitions ----

  /** `as_define_region` for page-aligned `base`: a new segment and its chain of entries go in front. */
  function Prepend(sp: Space, s: Segment): Space
    requires s.suffix == |sp.pt| + s.npages
  {
    sp.(segs := [s] + sp.segs, pt := Chain(s) + sp.pt)
  }

  /** The fresh entries of a segment, in list order. */
  function Chain(s: Segment): (r: seq<Pte>)
    ensures |r| == s.npages
    ensures forall i :: 0 <= i < |r| ==> r[i] == Pte(PageAt(s, i), 0, false, false)
  {
    seq(s.npages, i requires 0 <= i < s.npages => Pte(PageAt(s, i), 0, false, false))
  }

  const STACK_PAGES: nat := 18

  function StackBase(top: nat): nat
    requires top >= STACK_PAGES * PAGE_SIZE
  {
    top - STACK_PAGES * PAGE_SIZE
  }

  /** The segment of `as_define_stack`: writable, with no file behind it. */
  function StackSegment(top: nat, suffix: nat): Segment
    requires top >= STACK_PAGES * PAGE_SIZE
  {
    Segment(StackBase(top), STACK_PAGES, 0, -1, 2, 0, suffix)
  }

  /** Where the entry for a covered page sits in its segment's chain. */
  lemma PageInChain(s: Segment, va: nat) returns (i: nat)
    requires Covers(s, va) && s.base % PAGE_SIZE == 0 && va % PAGE_SIZE == 0
    ensures i < s.npages && PageAt(s, i) == va
  {
    var d := (va - s.base) / PAGE_SIZE;
    assert va == s.base + d * PAGE_SIZE;
    i := if s.offset < 0 then s.npages - 1 - d else d;
  }

  /** The search argument over a suffix of the segment list. */
  lemma {:induction false} SearchFrom(segs: seq<Segment>, pt: seq<Pte>, at: nat, va: nat, j: nat)
    requires Laid(segs, pt, at) && va % PAGE_SIZE == 0
    requires j <= |segs| && (forall i :: 0 <= i < j ==> !Covers(segs[i], va))
    requires j < |segs| ==> Covers(segs[j], va)
    ensures at <= |pt|
    ensures j == |segs| ==> forall i :: at <= i < |pt| ==> pt[i].page != va
    ensures j < |segs| ==>
      var first := |pt| - segs[j].suffix;
      && at <= first && segs[j].npages <= segs[j].suffix
      && (forall i :: at <= i < first ==> pt[i].page != va)
      && exists i :: first <= i < first + segs[j].npages && pt[i].page == va
    decreases |segs|
  {
    if segs != [] {
      var s := segs[0];
      if j == 0 {
        var i := PageInChain(s, va);
        assert pt[at + i].page == va;
      } else {
        forall i | at <= i < at + s.npages ensures pt[i].page != va {
          assert Covers(s, PageAt(s, i - at));
        }
        SearchFrom(segs[1..], pt, at + s.npages, va, j - 1);
      }
    }
  }

  /**
   * The search of `vm_fault` (first covering segment, then at most `npages`
   * entries from its first one) and the full scan of `pt_update` find the
   * same entry, also when segments share pages; the bounded walk never runs
   * off the list, and neither search finds a page no segment covers.
   */
  lemma SearchAgrees(sp: Space, va: nat)
    requires Laid(sp.segs, sp.pt, 0) && va % PAGE_SIZE == 0
    ensures FindSeg(sp.segs, va) == |sp.segs| <==> FirstEntry(sp.pt, va) == |sp.pt|
    ensures FindSeg(sp.segs, va) == |sp.segs| <==> forall s :: s in sp.segs ==> !Covers(s, va)
    ensures FindSeg(sp.segs, va) < |sp.segs| ==>
      var s := sp.segs[FindSeg(sp.segs, va)];
      && s.suffix <= |sp.pt|
      && Walk(sp.pt, |sp.pt| - s.suffix, s.npages, va) == Found(FirstEntry(sp.pt, va))
  {
    var j := FindSeg(sp.segs, va);
    SearchFrom(sp.segs, sp.pt, 0, va, j);
    if j == |sp.segs| {
      assert forall s :: s in sp.segs ==> exists i :: 0 <= i < |sp.segs| && sp.segs[i] == s;
    }
  }

  /** The layout depends on the page fields alone. */
  lemma {:induction false} LaidSamePages(segs: seq<Segment>, pt: seq<Pte>, pt': seq<Pte>, at: nat)
    requires Laid(segs, pt, at) && |pt'| == |pt|
    requires forall i :: 0 <= i < |pt| ==> pt'[i].page == pt[i].page
    ensures Laid(segs, pt', at)
    decreases |segs|
  {
    if segs != [] {
      LaidSamePages(segs[1..], pt, pt', at + segs[0].npages);
    }
  }

  /** So does the full scan. */
  lemma FirstEntrySamePages(pt: seq<Pte>, pt': seq<Pte>, va: nat)
    requires |pt'| == |pt| && forall i :: 0 <= i < |pt| ==> pt'[i].page == pt[i].page
    ensures FirstEntry(pt', va) == FirstEntry(pt, va)
  {
    var r, r' := FirstEntry(pt, va), FirstEntry(pt', va);
    assert r < |pt| ==> pt'[r].page == va;
    assert r' < |pt| ==> pt[r'].page == va;
  }

  /** Prepending entries moves the layout of the older ones along. */
  lemma {:induction false} LaidShift(segs: seq<Segment>, pt: seq<Pte>, at: nat, front: seq<Pte>)
    requires Laid(segs, pt, at)
    ensures Laid(segs, front + pt, at + |front|)
    decreases |segs|
  {
    if segs != [] {
      LaidShift(segs[1..], pt, at + segs[0].npages, front);
    }
  }

  /** The list stays the concatenation of the segments' chains when a segment is defined. */
  lemma PrependLaid(sp: Space, s: Segment)
    requires Laid(sp.segs, sp.pt, 0) && s.suffix == |sp.pt| + s.npages && s.base % PAGE_SIZE == 0
    ensures Laid(Prepend(sp, s).segs, Prepend(sp, s).pt, 0)
  {
    LaidShift(sp.segs, sp.pt, 0, Chain(s));
    assert Prepend(sp, s).segs[1..] == sp.segs;
  }

  /** The pages of a segment's chain are the pages it covers. */
  lemma ChainPages(s: Segment, va: nat)
    requires s.base % PAGE_SIZE == 0 && va % PAGE_SIZE == 0
    ensures Covers(s, va) <==> exists i :: 0 <= i < s.npages && PageAt(s, i) == va
    ensures Covers(s, va) <==> FirstEntry(Chain(s), va) < s.npages
  {
    if Covers(s, va) {
      var i := PageInChain(s, va);
      assert Chain(s)[i].page == va;
    }
  }

  /** Where a page is found after a definition: in the new chain if the segment covers it, else where it was. */
  lemma PrependFirst(sp: Space, s: Segment, va: nat)
    requires s.suffix == |sp.pt| + s.npages && s.base % PAGE_SIZE == 0 && va % PAGE_SIZE == 0
    ensures FirstEntry(Prepend(sp, s).pt, va) == if Covers(s, va) then FirstEntry(Chain(s), va) else s.npages + FirstEntry(sp.pt, va)
    ensures FindSeg(Prepend(sp, s).segs, va) == if Covers(s, va) then 0 else 1 + FindSeg(sp.segs, va)
  {
    ChainPages(s, va);
    var pt' := Prepend(sp, s).pt;
    var r := FirstEntry(pt', va);
    if Covers(s, va) {
      assert pt'[FirstEntry(Chain(s), va)].page == va;
    } else {
      var q := FirstEntry(sp.pt, va);
      assert q < |sp.pt| ==> pt'[s.npages + q].page == va;
      assert forall i :: 0 <= i < s.npages ==> pt'[i].page != va;
      if r < |pt'| {
        assert sp.pt[r - s.npages].page == va;
      }
    }
    var segs' := Prepend(sp, s).segs;
    assert segs'[0] == s;
    var f := FindSeg(segs', va);
    if !Covers(s, va) {
      var g := FindSeg(sp.segs, va);
      assert g < |sp.segs| ==> segs'[1 + g] == sp.segs[g];
      assert f > 0;
      assert f < |segs'| ==> segs'[f] == sp.segs[f - 1];
    }
  }
}
