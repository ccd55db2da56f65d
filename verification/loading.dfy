/** How the page-by-page demand loads of a segment add up to the whole segment (kern/vm/vm.c, addrspace.c). */
module Loading {
  import opened Layout
  import opened AddressSpace
  import opened Demand
  import opened Paging

  /** Pages of a region of `sz` bytes at `vaddr`. */
  function RegionPages(vaddr: nat, sz: nat): nat {
    (sz + vaddr % PAGE_SIZE + PAGE_SIZE - 1) / PAGE_SIZE
  }

  /** The segment `as_define_region` records. */
  function RegionSegment(vaddr: nat, offset: nat, sz: nat, write: int, exec: int, suffix: nat): Segment {
    Segment(PageBase(vaddr), RegionPages(vaddr, sz), sz, offset, write, exec, suffix)
  }

  /**
   * The file offset and the address agree within their pages, as the ELF
   * alignment rule demands, and a segment shorter than a page does not
   * straddle two.
   */
  predicate WellPlaced(vaddr: nat, offset: nat, sz: nat) {
    sz == 0 || (offset % PAGE_SIZE == vaddr % PAGE_SIZE && (sz >= PAGE_SIZE || vaddr % PAGE_SIZE + sz <= PAGE_SIZE))
  }

  /** The load of page `i` puts the byte at file offset `o` at address `a`. */
  predicate LoadsByte(s: Segment, i: nat, a: nat, o: int)
    requires 1 <= i <= s.npages && s.offset >= 0
  {
    var from := PageAt(s, i - 1) + LoadStart(s, i);
    from <= a < from + ComputeMemsz(s, i) && o == ComputeOffset(s.offset, i) + (a - from)
  }

  ghost predicate Loads(s: Segment, a: nat, o: int)
    requires s.offset >= 0
  {
    exists i :: 1 <= i <= s.npages && LoadsByte(s, i, a, o)
  }

  /** One copy of the whole segment puts the byte at file offset `o` at address `a`. */
  predicate WholeCopy(vaddr: nat, offset: nat, sz: nat, a: nat, o: int) {
    vaddr <= a < vaddr + sz && o == offset + (a - vaddr)
  }

  lemma PageNumbers(vaddr: nat, offset: nat, sz: nat, i: nat)
    requires WellPlaced(vaddr, offset, sz) && sz > 0 && 1 <= i <= RegionPages(vaddr, sz)
    ensures var v := vaddr % PAGE_SIZE;
      var n := RegionPages(vaddr, sz);
      && (n - 1) * PAGE_SIZE < v + sz <= n * PAGE_SIZE
      && (i > 1 ==> sz >= PAGE_SIZE && ComputeOffset(offset, i) == offset - v + (i - 1) * PAGE_SIZE)
  {
    assert ((i - 1) * PAGE_SIZE + offset) % PAGE_SIZE == offset % PAGE_SIZE;
  }

  /** The load of page `i` is the part of the whole copy that lies in that page. */
  lemma PageLoad(vaddr: nat, offset: nat, sz: nat, write: int, exec: int, suffix: nat, i: nat, a: nat, o: int)
    requires WellPlaced(vaddr, offset, sz) && 1 <= i <= RegionPages(vaddr, sz)
    ensures var s := RegionSegment(vaddr, offset, sz, write, exec, suffix);
      var page := PageAt(s, i - 1);
      LoadsByte(s, i, a, o) <==> WholeCopy(vaddr, offset, sz, a, o) && page <= a < page + PAGE_SIZE
  {
    if sz > 0 {
      PageNumbers(vaddr, offset, sz, i);
    }
  }

  /** A well-placed segment's loads each stay within their page. */
  lemma WellPlacedIsLocal(vaddr: nat, offset: nat, sz: nat, write: int, exec: int, suffix: nat)
    requires WellPlaced(vaddr, offset, sz)
    ensures PageLocal(RegionSegment(vaddr, offset, sz, write, exec, suffix))
  {
    var s := RegionSegment(vaddr, offset, sz, write, exec, suffix);
    forall i | 1 <= i <= s.npages
      ensures 0 <= ComputeMemsz(s, i) && LoadStart(s, i) + ComputeMemsz(s, i) <= PAGE_SIZE
    {
      if sz > 0 {
        PageNumbers(vaddr, offset, sz, i);
      }
    }
  }

  /** Two pages never load the same address. */
  lemma LoadsDisjoint(vaddr: nat, offset: nat, sz: nat, write: int, exec: int, suffix: nat, i: nat, j: nat, a: nat, o: int, o': int)
    requires WellPlaced(vaddr, offset, sz) && 1 <= i <= RegionPages(vaddr, sz) && 1 <= j <= RegionPages(vaddr, sz)
    requires var s := RegionSegment(vaddr, offset, sz, write, exec, suffix); LoadsByte(s, i, a, o) && LoadsByte(s, j, a, o')
    ensures i == j && o == o'
  {
    PageLoad(vaddr, offset, sz, write, exec, suffix, i, a, o);
    PageLoad(vaddr, offset, sz, write, exec, suffix, j, a, o');
  }

  /** A badly placed segment has an address its loads get wrong. */
  lemma BadlyPlaced(vaddr: nat, offset: nat, sz: nat, write: int, exec: int, suffix: nat) returns (a: nat, o: int)
    requires !WellPlaced(vaddr, offset, sz)
    ensures var s := RegionSegment(vaddr, offset, sz, write, exec, suffix);
      Loads(s, a, o) != WholeCopy(vaddr, offset, sz, a, o)
  {
    var s := RegionSegment(vaddr, offset, sz, write, exec, suffix);
    var v, f := vaddr % PAGE_SIZE, offset % PAGE_SIZE;
    if f < v {
      a, o := s.base + f, offset;
      assert LoadsByte(s, 1, a, o);
    } else if f > v {
      a, o := vaddr, offset;
      forall i | 1 <= i <= s.npages ensures !LoadsByte(s, i, a, o) {
      }
    } else {
      a := s.base + PAGE_SIZE + sz - 1;
      o := ComputeOffset(offset, 2) + sz - 1;
      assert LoadsByte(s, 2, a, o);
    }
  }

  /** The demand loads of all pages equal one copy of the whole segment exactly when it is well placed. */
  lemma LoadsTileSegment(vaddr: nat, offset: nat, sz: nat, write: int, exec: int, suffix: nat)
    ensures var s := RegionSegment(vaddr, offset, sz, write, exec, suffix);
      (forall a: nat, o: int :: Loads(s, a, o) <==> WholeCopy(vaddr, offset, sz, a, o)) <==> WellPlaced(vaddr, offset, sz)
  {
    var s := RegionSegment(vaddr, offset, sz, write, exec, suffix);
    if WellPlaced(vaddr, offset, sz) {
      forall a: nat, o: int ensures Loads(s, a, o) <==> WholeCopy(vaddr, offset, sz, a, o) {
        if Loads(s, a, o) {
          var i :| 1 <= i <= s.npages && LoadsByte(s, i, a, o);
          PageLoad(vaddr, offset, sz, write, exec, suffix, i, a, o);
        }
        if WholeCopy(vaddr, offset, sz, a, o) {
          var i := (a - s.base) / PAGE_SIZE + 1;
          PageNumbers(vaddr, offset, sz, 1);
          PageLoad(vaddr, offset, sz, write, exec, suffix, i, a, o);
          assert LoadsByte(s, i, a, o);
        }
      }
    } else {
      var a, o := BadlyPlaced(vaddr, offset, sz, write, exec, suffix);
    }
  }

  /** The page at `page` of a region filled by one copy of the whole segment, zero elsewhere. */
  function RegionPage(vaddr: nat, offset: nat, sz: nat, elf: seq<Byte>, page: nat): (r: Page)
  {
    seq(PAGE_SIZE, k requires 0 <= k < PAGE_SIZE =>
      var a := page + k;
      if vaddr <= a < vaddr + sz && offset + (a - vaddr) < |elf| then elf[offset + (a - vaddr)] else 0)
  }

  /** The demand-loaded image of a page is its part of the whole-segment image. */
  lemma InitialIsRegion(vaddr: nat, offset: nat, sz: nat, write: int, exec: int, suffix: nat, i: nat, elf: seq<Byte>)
    requires WellPlaced(vaddr, offset, sz) && 1 <= i <= RegionPages(vaddr, sz)
    ensures var s := RegionSegment(vaddr, offset, sz, write, exec, suffix);
      InitialPage(s, i, elf) == RegionPage(vaddr, offset, sz, elf, PageAt(s, i - 1))
  {
    var s := RegionSegment(vaddr, offset, sz, write, exec, suffix);
    WellPlacedIsLocal(vaddr, offset, sz, write, exec, suffix);
    var page := PageAt(s, i - 1);
    var p, r := InitialPage(s, i, elf), RegionPage(vaddr, offset, sz, elf, page);
    forall k | 0 <= k < PAGE_SIZE ensures p[k] == r[k] {
      var a := page + k;
      var o := ComputeOffset(offset, i) + (k - LoadStart(s, i));
      PageLoad(vaddr, offset, sz, write, exec, suffix, i, a, o);
      PageLoad(vaddr, offset, sz, write, exec, suffix, i, a, offset + (a - vaddr));
    }
  }

  /** A file of two bytes, a segment with one byte in the file and two in memory: the second byte is loaded where a zero should be. */
  lemma ElfImageDiffers()
    ensures var elf: seq<Byte> := [1, 2];
      RegionPage(0, 0, 2, elf, 0)[1] == 2 && RegionPage(0, 0, 1, elf, 0)[1] == 0
      && RegionPage(0, 0, 2, elf, 0) != RegionPage(0, 0, 1, elf, 0)
  {
    var elf: seq<Byte> := [1, 2];
    assert RegionPage(0, 0, 2, elf, 0)[1] == 2 && RegionPage(0, 0, 1, elf, 0)[1] == 0;
  }

  /**
   * The image an ELF segment asks for: `filesz` bytes of the file, then
   * zeros. The loads take `memsz` bytes of the file instead, so the images
   * agree exactly when the file has nothing but zeros, or ends, in between.
   */
  lemma ElfImage(vaddr: nat, offset: nat, filesz: nat, memsz: nat, elf: seq<Byte>)
    requires filesz <= memsz
    ensures (forall page: nat :: RegionPage(vaddr, offset, memsz, elf, page) == RegionPage(vaddr, offset, filesz, elf, page))
      <==> (forall k :: offset + filesz <= k < offset + memsz && k < |elf| ==> elf[k] == 0)
  {
    if forall k :: offset + filesz <= k < offset + memsz && k < |elf| ==> elf[k] == 0 {
      forall page: nat ensures RegionPage(vaddr, offset, memsz, elf, page) == RegionPage(vaddr, offset, filesz, elf, page) {
      }
    } else {
      var k :| offset + filesz <= k < offset + memsz && k < |elf| && elf[k] != 0;
      var a := vaddr + (k - offset);
      var page := PageBase(a);
      assert RegionPage(vaddr, offset, memsz, elf, page)[a - page] == elf[k];
      assert RegionPage(vaddr, offset, filesz, elf, page)[a - page] == 0;
    }
  }
}
