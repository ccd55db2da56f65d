/** Where defined segments lie in a program's memory and what it finds there (kern/vm/addrspace.c). */
module Definitions {
  import opened Layout
  import opened AddressSpace
  import opened Demand
  import opened Loading
  import opened Kernel
  import opened Spaces
  import opened Refinement

  /** The pages of a program on flat memory. */
  ghost function ProgramPages(w: World): map<nat, FlatPage>
    requires w.running != Nothing && w.running.id in Flatten(w).spaces
  {
    Flatten(w).spaces[w.running.id].pages
  }

  /** Only the running program's memory differs. */
  ghost predicate OthersSame(w: World, w': World) {
    && w'.running == w.running && w.running != Nothing
    && w.running.id in Flatten(w).spaces && w.running.id in Flatten(w').spaces
    && forall id :: id != w.running.id ==>
         (id in Flatten(w').spaces <==> id in Flatten(w).spaces)
         && (id in Flatten(w).spaces ==> Flatten(w').spaces[id] == Flatten(w).spaces[id])
  }

  /** A page outside the definition is as it was. */
  ghost predicate PageSame(w: World, w': World, q: nat)
    requires OthersSame(w, w')
  {
    && (q in ProgramPages(w') <==> q in ProgramPages(w))
    && (q in ProgramPages(w) ==> ProgramPages(w')[q] == ProgramPages(w)[q])
  }

  lemma PagesFrom(base: nat, n: nat, q: nat)
    requires base % PAGE_SIZE == 0
    ensures q in PagesOf(base, n) <==> q % PAGE_SIZE == 0 && base <= q < base + n * PAGE_SIZE
  {
    if q % PAGE_SIZE == 0 && base <= q < base + n * PAGE_SIZE {
      var i := (q - base) / PAGE_SIZE;
      assert q == base + i * PAGE_SIZE;
    }
  }

  /** A definition adds its pages and leaves the rest. */
  lemma DefineAdds(w: World, w': World, pages: map<nat, FlatPage>)
    requires w.running != Nothing && w.running.id in Flatten(w).spaces && w'.running == w.running
    requires Flatten(w') == FlatDefine(Flatten(w), pages)
    ensures OthersSame(w, w')
    ensures forall q :: q in pages ==> q in ProgramPages(w') && ProgramPages(w')[q] == pages[q]
    ensures forall q: nat :: q !in pages ==> PageSame(w, w', q)
  {
    FlatAdds(Flatten(w), Flatten(w'), pages);
    assert ProgramPages(w') == ProgramPages(w) + pages;
    forall q: nat | q !in pages ensures PageSame(w, w', q) {
    }
  }

  lemma FlatAdds(f: Flat, f': Flat, pages: map<nat, FlatPage>)
    requires f.running != Nothing && f.running.id in f.spaces && f' == FlatDefine(f, pages)
    ensures f'.running == f.running && f.running.id in f'.spaces
    ensures f'.spaces[f.running.id].pages == f.spaces[f.running.id].pages + pages
    ensures forall id :: id != f.running.id ==> (id in f'.spaces <==> id in f.spaces) && (id in f.spaces ==> f'.spaces[id] == f.spaces[id])
  {
  }

  // ---- the stack ----

  /** The 18 pages below the top. */
  predicate InStack(top: nat, q: nat) {
    q % 4096 == 0 && top <= q + 18 * 4096 && q < top
  }

  lemma StackPagesAre(top: nat, q: nat)
    requires top >= 18 * 4096 && top % 4096 == 0
    ensures q in FlatStack(StackBase(top)) <==> InStack(top, q)
  {
    PagesFrom(StackBase(top), STACK_PAGES, q);
  }

  /** What the stack's definition leaves of a page. */
  ghost predicate StackPageOk(w: World, w': World, top: nat, q: nat)
    requires OthersSame(w, w')
  {
    if InStack(top, q) then q in ProgramPages(w') && ProgramPages(w')[q] == FlatPage(ZeroPage(), true)
    else PageSame(w, w', q)
  }

  /** After `as_define_stack` the 18 pages below the top, and no others, are new: zero and writable. */
  lemma StackLies(w: World, top: nat, depth: nat)
    requires Inv(w) && Enabled(w, DefineStack(top))
    ensures var w' := Step(w, DefineStack(top), depth).0;
      Inv(w') && OthersSame(w, w') && forall q: nat :: StackPageOk(w, w', top, q)
  {
    var w' := Defined(w, NewStack(w, top));
    StackKeeps(w, top);
    DefineAdds(w, w', FlatStack(StackBase(top)));
    forall q: nat ensures StackPageOk(w, w', top, q) {
      StackPagesAre(top, q);
    }
  }

  /** What a load gives on flat memory. */
  lemma FlatLoad(w: World, va: nat, s: Schedule)
    requires w.running != Nothing && w.running.id in Flatten(w).spaces
    ensures FlatStep(Flatten(w), Load(va, s)).1 ==
      if PageBase(va) in ProgramPages(w) then Value(ProgramPages(w)[PageBase(va)].data[va % PAGE_SIZE]) else Killed
  {
  }

  lemma LoadResult(w: World, va: nat, s: Schedule, depth: nat)
    requires Inv(w) && depth > 0 && w.running != Nothing && w.running.id in Flatten(w).spaces
    ensures var r := Step(w, Load(va, s), depth).1;
      OutOfRoom(r) ||
      r == if PageBase(va) in ProgramPages(w) then Value(ProgramPages(w)[PageBase(va)].data[va % PAGE_SIZE]) else Killed
  {
    StepRefines(w, Load(va, s), depth);
    FlatLoad(w, va, s);
  }

  lemma BaseInStack(top: nat, va: nat)
    requires top >= 18 * 4096 && top % 4096 == 0
    ensures InStack(top, PageBase(va)) <==> top - 18 * 4096 <= va < top
  {
  }

  /** The program's first loads: 0 anywhere in the stack, and elsewhere what they would have given before. */
  lemma StackServes(w: World, top: nat, va: nat, s: Schedule, depth: nat)
    requires Inv(w) && Enabled(w, DefineStack(top)) && depth > 0
    ensures Inv(Step(w, DefineStack(top), depth).0)
    ensures var r := Step(w, Load(va, s), depth).1;
      var r' := Step(Step(w, DefineStack(top), depth).0, Load(va, s), depth).1;
      OutOfRoom(r) || OutOfRoom(r') || r' == if top - 18 * 4096 <= va < top then Value(0) else r
  {
    var w' := Step(w, DefineStack(top), depth).0;
    StackLies(w, top, depth);
    BaseInStack(top, va);
    LoadResult(w, va, s, depth);
    LoadResult(w', va, s, depth);
    assert StackPageOk(w, w', top, PageBase(va));
  }

  // ---- program segments ----

  /** The pages that hold some of the region's bytes, and the page of its address. */
  predicate InRegion(vaddr: nat, sz: nat, q: nat) {
    q % 4096 == 0 && vaddr < q + 4096 && q < vaddr + sz
  }

  lemma RegionPagesAre(vaddr: nat, offset: nat, sz: nat, write: int, elf: seq<Byte>, q: nat)
    ensures q in FlatRegion(vaddr, offset, sz, write, elf) <==> InRegion(vaddr, sz, q)
  {
    PagesFrom(PageBase(vaddr), RegionPages(vaddr, sz), q);
    if q % 4096 == 0 {
      PagesReach(vaddr, sz, q);
    }
  }

  lemma PagesReach(vaddr: nat, sz: nat, q: nat)
    requires q % 4096 == 0
    ensures q < PageBase(vaddr) + RegionPages(vaddr, sz) * 4096 <==> q < vaddr + sz
    ensures PageBase(vaddr) <= q <==> vaddr < q + 4096
  {
  }

  /** The byte a whole copy of the segment leaves at an address. */
  function ByteOf(vaddr: nat, offset: nat, sz: nat, elf: seq<Byte>, a: nat): Byte {
    if vaddr <= a < vaddr + sz && offset + (a - vaddr) < |elf| then elf[offset + (a - vaddr)] else 0
  }

  /** What a region's page is like. */
  ghost predicate RegionData(op: Op, elf: seq<Byte>, q: nat, page: FlatPage)
    requires op.DefineRegion?
  {
    && (page.writable <==> op.write > 0)
    && (WellPlaced(op.vaddr, op.offset, op.sz) ==>
          forall k :: 0 <= k < 4096 ==> page.data[k] == ByteOf(op.vaddr, op.offset, op.sz, elf, q + k))
  }

  lemma RegionDataIs(op: Op, elf: seq<Byte>, q: nat)
    requires op.DefineRegion? && InRegion(op.vaddr, op.sz, q)
    ensures var pages := FlatRegion(op.vaddr, op.offset, op.sz, op.write, elf); q in pages && RegionData(op, elf, q, pages[q])
  {
    RegionPagesAre(op.vaddr, op.offset, op.sz, op.write, elf, q);
    if WellPlaced(op.vaddr, op.offset, op.sz) {
      AsWhole(op.vaddr, op.offset, op.sz, elf, q);
    }
  }

  /** What the region's definition leaves of a page. */
  ghost predicate RegionPageOk(w: World, w': World, op: Op, q: nat)
    requires op.DefineRegion? && OthersSame(w, w')
  {
    if InRegion(op.vaddr, op.sz, q) then q in ProgramPages(w') && RegionData(op, w.m.sp.elf, q, ProgramPages(w')[q])
    else PageSame(w, w', q)
  }

  /**
   * After `as_define_region` the pages with bytes of the region, and no
   * others, are new; they are writable as asked, and those of a well-placed
   * region hold the program file's bytes, zeros around them.
   */
  lemma RegionLies(w: World, op: Op, depth: nat)
    requires Inv(w) && op.DefineRegion? && Enabled(w, op)
    ensures var w' := Step(w, op, depth).0;
      Inv(w') && OthersSame(w, w') && forall q: nat :: RegionPageOk(w, w', op, q)
  {
    var w' := Defined(w, NewRegion(w, op));
    var elf := w.m.sp.elf;
    RegionKeeps(w, op);
    FlattenRunning(w);
    DefineAdds(w, w', FlatRegion(op.vaddr, op.offset, op.sz, op.write, elf));
    forall q: nat ensures RegionPageOk(w, w', op, q) {
      RegionPagesAre(op.vaddr, op.offset, op.sz, op.write, elf, q);
      if InRegion(op.vaddr, op.sz, q) {
        RegionDataIs(op, elf, q);
      }
    }
  }
}
