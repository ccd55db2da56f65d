/**
 * Switching, defining and destroying address spaces, and the kernel's own
 * blocks, as flat memory shows them (kern/vm/addrspace.c, coremap.c).
 */
module Spaces {
  import opened Layout
  import opened Coremap
  import opened SwapSpace
  import opened Tlb
  import opened AddressSpace
  import opened Demand
  import opened Soundness
  import opened Paging
  import opened Transparency
  import opened Loading
  import opened Kernel

  // ---- switching, kernel blocks ----

  lemma FlushKeeps(w: World)
    requires Inv(w)
    ensures Invisible(w, w.(m := Flushed(w.m)))
  {
    SameMemory(w, Flushed(w.m));
  }

  /** A change of the running space's slot in the machine disturbs nothing. */
  lemma SpUndisturbed(m: Machine, m': Machine, id: nat)
    requires m' == m.(sp := m'.sp, tlb := m'.tlb, st := m'.st)
    ensures Undisturbed(m, m', id)
  {
  }

  /** A switch moves address spaces between the machine and the parked map. */
  ghost predicate Switched(w: World, w': World) {
    && Ids(w') == Ids(w)
    && w'.m == w.m.(sp := w'.m.sp, tlb := w'.m.tlb, st := w'.m.st)
    && (forall id :: id in Ids(w) ==> SpaceOf(w', id) == SpaceOf(w, id))
  }

  lemma SwitchedSame(w: World, w': World, id: nat)
    requires Inv(w) && Switched(w, w') && id in Ids(w)
    ensures Coherent(w'.m, id, SpaceOf(w', id)) && FlatSpaceOf(w'.m, id, SpaceOf(w', id)) == FlatSpaceOf(w.m, id, SpaceOf(w, id))
  {
    SpUndisturbed(w.m, w'.m, id);
    UndisturbedSame(w.m, w'.m, id, SpaceOf(w, id));
  }

  lemma SwitchedFlat(w: World, w': World)
    requires Inv(w) && Switched(w, w')
    ensures Flatten(w') == Flatten(w).(running := w'.running)
  {
    forall id | id in Ids(w) ensures FlatSpaceOf(w'.m, id, SpaceOf(w', id)) == FlatSpaceOf(w.m, id, SpaceOf(w, id)) {
      SwitchedSame(w, w', id);
    }
    FlattenSame(w, w');
  }

  lemma SwitchedInv(w: World, w': World)
    requires Inv(w) && Switched(w, w')
    requires TlbShape(w'.m.tlb) && Owed(w'.m) == (0, 0, 0, 0, 0)
    requires w'.running != Nothing ==> w'.running.id !in w'.parked && Sound(w'.m.tlb.slots, w'.m.sp, -1)
    ensures Inv(w')
  {
    forall id | id in Ids(w') ensures Coherent(w'.m, id, SpaceOf(w', id)) {
      SwitchedSame(w, w', id);
    }
  }

  lemma ParkKeeps(w: World)
    requires Inv(w) && w.running != Nothing
    ensures Inv(ParkRunning(w)) && Flatten(ParkRunning(w)) == Flatten(w).(running := Nothing)
  {
    var w' := ParkRunning(w);
    assert Ids(w') == Ids(w);
    SwitchedInv(w, w');
    SwitchedFlat(w, w');
  }

  /** A flushed TLB is sound for any address space. */
  lemma FlushedFacts(m: Machine, sp: Space)
    requires TlbShape(m.tlb)
    ensures var m' := Flushed(m.(sp := sp));
      TlbShape(m'.tlb) && Owed(m') == Owed(m) && Sound(m'.tlb.slots, sp, -1) && m' == m.(sp := sp, tlb := m'.tlb, st := m'.st)
  {
  }

  lemma ResumeSwitched(w: World, id: nat)
    requires w.running == Nothing && id in w.parked
    ensures Switched(w, World(Flushed(w.m.(sp := w.parked[id])), User(id), w.parked - {id}))
  {
    assert Ids(World(Flushed(w.m.(sp := w.parked[id])), User(id), w.parked - {id})) == Ids(w);
  }

  lemma ResumeKeeps(w: World, id: nat)
    requires Inv(w) && Enabled(w, Resume(id))
    ensures var w' := World(Flushed(w.m.(sp := w.parked[id])), User(id), w.parked - {id});
      Inv(w') && Flatten(w') == Flatten(w).(running := User(id))
  {
    var w' := World(Flushed(w.m.(sp := w.parked[id])), User(id), w.parked - {id});
    ResumeSwitched(w, id);
    FlushedFacts(w.m, w.parked[id]);
    SwitchedInv(w, w');
    SwitchedFlat(w, w');
  }

  /** A new address space finds nothing in the tables under its name, also when a destroyed one had it before. */
  lemma NewSpace(m: Machine, id: nat, ids: set<nat>, elf: seq<Byte>)
    requires Tables(m) && OwnersLive(m, ids) && id !in ids
    ensures Coherent(m, id, EMPTY_SPACE.(elf := elf)) && FlatSpaceOf(m, id, EMPTY_SPACE.(elf := elf)) == FlatSpace(elf, map[])
  {
    assert PageSet(EMPTY_SPACE.(elf := elf)) == {};
  }

  lemma CreateInv(w: World, id: nat, elf: seq<Byte>)
    requires Inv(w) && Enabled(w, Create(id, elf))
    ensures Inv(World(Flushed(w.m.(sp := EMPTY_SPACE.(elf := elf))), User(id), w.parked))
  {
    var w' := World(Flushed(w.m.(sp := EMPTY_SPACE.(elf := elf))), User(id), w.parked);
    assert Ids(w') == Ids(w) + {id};
    assert OwnersLive(w'.m, Ids(w));
    NewSpace(w'.m, id, Ids(w), elf);
    CreateOthers(w, id, elf);
  }

  lemma CreateOthers(w: World, id: nat, elf: seq<Byte>)
    requires Inv(w) && Enabled(w, Create(id, elf))
    ensures var w' := World(Flushed(w.m.(sp := EMPTY_SPACE.(elf := elf))), User(id), w.parked);
      forall i :: i in Ids(w) ==> i in Ids(w') && Coherent(w'.m, i, SpaceOf(w', i))
  {
    var w' := World(Flushed(w.m.(sp := EMPTY_SPACE.(elf := elf))), User(id), w.parked);
    forall i | i in Ids(w) ensures i in Ids(w') && Coherent(w'.m, i, SpaceOf(w', i)) {
      SpUndisturbed(w.m, w'.m, i);
      UndisturbedSame(w.m, w'.m, i, SpaceOf(w, i));
    }
  }

  lemma CreateFlat(w: World, id: nat, elf: seq<Byte>)
    requires Inv(w) && Enabled(w, Create(id, elf))
    ensures var w' := World(Flushed(w.m.(sp := EMPTY_SPACE.(elf := elf))), User(id), w.parked);
      Flatten(w') == Flat(User(id), Flatten(w).spaces[id := FlatSpace(elf, map[])])
  {
    var w' := World(Flushed(w.m.(sp := EMPTY_SPACE.(elf := elf))), User(id), w.parked);
    assert Ids(w') == Ids(w) + {id};
    assert OwnersLive(w'.m, Ids(w));
    NewSpace(w'.m, id, Ids(w), elf);
    forall i | i in Ids(w) ensures FlatSpaceOf(w'.m, i, SpaceOf(w', i)) == FlatSpaceOf(w.m, i, SpaceOf(w, i)) {
      SpUndisturbed(w.m, w'.m, i);
      UndisturbedSame(w.m, w'.m, i, SpaceOf(w, i));
    }
    FlattenExtend(w, w', id);
  }

  lemma KernelAllocKeeps(w: World, p: nat, n: nat)
    requires Inv(w) && IsRun(w.m.cm, p, n)
    ensures Invisible(w, w.(m := WithBlock(w.m, p, n)))
  {
    var m' := WithBlock(w.m, p, n);
    ClaimTables(w.m, p, n);
    forall id | id in Ids(w) ensures Same(w.m, m', id, SpaceOf(w, id), SpaceOf(w.(m := m'), id)) {
      UndisturbedSame(w.m, m', id, SpaceOf(w, id));
    }
    InvisibleIntro(w, m');
  }

  lemma ClaimTables(m: Machine, p: nat, n: nat)
    requires Tables(m) && Blocks(m.cm) && IsRun(m.cm, p, n)
    ensures var m' := WithBlock(m, p, n);
      Tables(m') && Blocks(m'.cm) && (forall f :: 0 <= f < |m.cm| && m'.cm[f].owner.As? ==> m'.cm[f] == m.cm[f])
      && forall id :: Undisturbed(m, m', id)
  {
    TablesFreeClean(m);
    if n > 0 {
      ClaimKeepsBlocks(m.cm, m.base, m.clock, p, n);
    } else {
      assert Claim(m.cm, m.base, m.clock, p, n) == m.cm;
    }
    var m' := WithBlock(m, p, n);
    forall f | 0 <= f < |m.cm| ensures EntryOk(m'.cm[f], m'.clock) {
      assert EntryOk(m.cm[f], m.clock);
    }
    forall f | p <= f < p + n ensures m.cm[f].owner == Nobody {
      assert EntryOk(m.cm[f], m.clock);
    }
  }

  lemma TablesFreeClean(m: Machine)
    requires Tables(m)
    ensures FreeClean(m.cm)
    ensures forall i :: 0 <= i < |m.cm| && m.cm[i].state == Fixed ==> m.cm[i].owner == Nobody
  {
    forall i | 0 <= i < |m.cm| ensures EntryOk(m.cm[i], m.clock) {
    }
  }

  lemma ReleaseTables(m: Machine, p: nat)
    requires Tables(m) && Blocks(m.cm) && IsHead(m.cm, p)
    ensures p + m.cm[p].npages <= |m.cm|
    ensures var m' := WithoutBlock(m, p);
      Tables(m') && Blocks(m'.cm) && (forall f :: 0 <= f < |m.cm| && m'.cm[f].owner.As? ==> m'.cm[f] == m.cm[f])
      && forall id :: Undisturbed(m, m', id)
  {
    TablesFreeClean(m);
    ReleaseKeepsBlocks(m.cm, p);
    var m' := WithoutBlock(m, p);
    forall f | p <= f < p + m.cm[p].npages ensures m.cm[f].state == Fixed {
    }
    forall f | 0 <= f < |m.cm| ensures EntryOk(m'.cm[f], m'.clock) {
      assert EntryOk(m.cm[f], m.clock);
    }
  }

  lemma KernelFreeKeeps(w: World, p: nat)
    requires Inv(w) && IsHead(w.m.cm, p)
    ensures Invisible(w, w.(m := WithoutBlock(w.m, p)))
  {
    var m' := WithoutBlock(w.m, p);
    ReleaseTables(w.m, p);
    forall id | id in Ids(w) ensures Same(w.m, m', id, SpaceOf(w, id), SpaceOf(w.(m := m'), id)) {
      UndisturbedSame(w.m, m', id, SpaceOf(w, id));
    }
    InvisibleIntro(w, m');
  }

  lemma KernelStoreKeeps(w: World, f: nat, data: Page)
    requires Inv(w) && Enabled(w, KernelStore(f, data))
    ensures Invisible(w, w.(m := WithPage(w.m, f, data)))
  {
    var m' := WithPage(w.m, f, data);
    assert EntryOk(w.m.cm[f], w.m.clock);
    forall id | id in Ids(w) ensures Same(w.m, m', id, SpaceOf(w, id), SpaceOf(w.(m := m'), id)) {
      UndisturbedSame(w.m, m', id, SpaceOf(w, id));
    }
    InvisibleIntro(w, m');
  }

  // ---- destroying and defining ----

  /** After `as_destroy` no frame and no swap slot names the address space, and nothing else has changed. */
  lemma FreeAllEffect(m: Machine, id: nat)
    requires Tables(m) && Blocks(m.cm)
    ensures var m' := FreeAll(m, id);
      && Tables(m') && Blocks(m'.cm)
      && (forall f :: 0 <= f < |m'.cm| ==> m'.cm[f].owner != As(id))
      && (forall j :: 0 <= j < |m'.slots| && m'.slots[j].Held? ==> m'.slots[j].id != id)
      && (forall other: nat :: other != id ==> Undisturbed(m, m', other))
  {
    var m' := FreeAll(m, id);
    forall f | 0 <= f < |m'.cm| ensures EntryOk(m'.cm[f], m'.clock) && m'.cm[f].owner != As(id) {
      assert EntryOk(m.cm[f], m.clock);
    }
    assert forall p: nat :: IsHead(m'.cm, p) ==> IsHead(m.cm, p) && m'.cm[p] == m.cm[p];
    forall i | 0 <= i < |m.cm| && m.cm[i].state == Fixed ensures m'.cm[i] == m.cm[i] {
    }
  }

  lemma DestroySame(w: World, id: nat, i: nat)
    requires Inv(w) && id in Ids(w) && i in Ids(w) && i != id
    ensures i in Ids(DestroyWorld(w, id)) && SpaceOf(DestroyWorld(w, id), i) == SpaceOf(w, i)
    ensures Same(w.m, DestroyWorld(w, id).m, i, SpaceOf(w, i), SpaceOf(w, i))
  {
    FreeAllEffect(w.m, id);
    var m1 := FreeAll(w.m, id);
    var w' := DestroyWorld(w, id);
    UndisturbedSame(w.m, m1, i, SpaceOf(w, i));
    SpUndisturbed(m1, w'.m, i);
    UndisturbedSame(m1, w'.m, i, SpaceOf(w, i));
  }

  lemma FreedOwners(m: Machine, id: nat, ids: set<nat>)
    requires OwnersLive(m, ids) && (forall f :: 0 <= f < |m.cm| && m.cm[f].state == Fixed ==> m.cm[f].owner == Nobody)
    ensures OwnersLive(FreeAll(m, id), ids - {id})
  {
  }

  lemma DestroyTables(w: World, id: nat)
    requires Inv(w) && id in Ids(w)
    ensures var w' := DestroyWorld(w, id);
      && Ids(w') == Ids(w) - {id} && Tables(w'.m) && Blocks(w'.m.cm) && OwnersLive(w'.m, Ids(w'))
      && Owed(w'.m) == (0, 0, 0, 0, 0)
  {
    assert Ids(DestroyWorld(w, id)) == Ids(w) - {id};
    FreeAllEffect(w.m, id);
    TablesFreeClean(w.m);
    FreedOwners(w.m, id, Ids(w));
  }

  lemma DestroyInv(w: World, id: nat)
    requires Inv(w) && id in Ids(w)
    ensures Inv(DestroyWorld(w, id)) && Ids(DestroyWorld(w, id)) == Ids(w) - {id}
  {
    var w' := DestroyWorld(w, id);
    DestroyTables(w, id);
    forall i | i in Ids(w') ensures Coherent(w'.m, i, SpaceOf(w', i)) {
      DestroySame(w, id, i);
    }
  }

  lemma DestroyFlat(w: World, id: nat)
    requires Inv(w) && id in Ids(w)
    ensures Flatten(DestroyWorld(w, id)) == Flat(if w.running == User(id) then Nothing else w.running, Flatten(w).spaces - {id})
  {
    var w' := DestroyWorld(w, id);
    DestroyInv(w, id);
    forall i | i in Ids(w') ensures FlatSpaceOf(w'.m, i, SpaceOf(w', i)) == FlatSpaceOf(w.m, i, SpaceOf(w, i)) {
      DestroySame(w, id, i);
    }
    FlattenShrink(w, w', id);
  }

  lemma PageAtAligned(s: Segment, i: nat)
    requires i < s.npages && s.base % PAGE_SIZE == 0
    ensures PageAt(s, i) % PAGE_SIZE == 0
  {
  }

  lemma PrependTouched(sp: Space, s: Segment, k: nat)
    requires SpaceOk(sp) && s.suffix == |sp.pt| + s.npages && s.base % PAGE_SIZE == 0 && Untouched(sp, s)
    requires k < |Prepend(sp, s).pt| && (Prepend(sp, s).pt[k].inMem || Prepend(sp, s).pt[k].inSwap)
    ensures var sp' := Prepend(sp, s);
      k >= s.npages && sp'.pt[k] == sp.pt[k - s.npages] && FirstEntry(sp'.pt, sp'.pt[k].page) == s.npages + FirstEntry(sp.pt, sp'.pt[k].page)
  {
    var sp' := Prepend(sp, s);
    assert sp'.pt[k] == sp.pt[k - s.npages];
    PrependFirst(sp, s, sp'.pt[k].page);
  }

  lemma PrependOwned(m: Machine, id: nat, sp: Space, s: Segment, f: nat)
    requires Coherent(m, id, sp) && s.suffix == |sp.pt| + s.npages && s.base % PAGE_SIZE == 0 && Untouched(sp, s)
    requires f < |m.cm| && m.cm[f].owner == As(id)
    ensures var sp' := Prepend(sp, s);
      var k := FirstEntry(sp'.pt, m.cm[f].page);
      k < |sp'.pt| && sp'.pt[k].inMem && sp'.pt[k].frame == FrameAddr(m.base, f)
  {
    PrependFirst(sp, s, m.cm[f].page);
  }

  lemma PrependHeld(m: Machine, id: nat, sp: Space, s: Segment, j: nat)
    requires Coherent(m, id, sp) && s.suffix == |sp.pt| + s.npages && s.base % PAGE_SIZE == 0 && Untouched(sp, s)
    requires j < |m.slots| && m.slots[j].Held? && m.slots[j].id == id
    ensures var sp' := Prepend(sp, s);
      var k := FirstEntry(sp'.pt, m.slots[j].page);
      k < |sp'.pt| && sp'.pt[k].inSwap
  {
    PrependFirst(sp, s, m.slots[j].page);
  }

  lemma UntouchedCoherent(m: Machine, id: nat, sp: Space, s: Segment)
    requires Coherent(m, id, sp) && s.suffix == |sp.pt| + s.npages && s.base % PAGE_SIZE == 0
    requires PageLocal(s) && Untouched(sp, s)
    ensures Coherent(m, id, Prepend(sp, s))
  {
    var sp' := Prepend(sp, s);
    PrependSpaceOk(sp, s);
    forall k | 0 <= k < |sp'.pt| && (sp'.pt[k].inMem || sp'.pt[k].inSwap)
      ensures k >= s.npages && sp'.pt[k] == sp.pt[k - s.npages] && FirstEntry(sp'.pt, sp'.pt[k].page) == s.npages + FirstEntry(sp.pt, sp'.pt[k].page)
    {
      PrependTouched(sp, s, k);
    }
    forall f | 0 <= f < |m.cm| && m.cm[f].owner == As(id)
      ensures var k := FirstEntry(sp'.pt, m.cm[f].page);
        k < |sp'.pt| && sp'.pt[k].inMem && sp'.pt[k].frame == FrameAddr(m.base, f)
    {
      PrependOwned(m, id, sp, s, f);
    }
    forall j | 0 <= j < |m.slots| && m.slots[j].Held? && m.slots[j].id == id
      ensures var k := FirstEntry(sp'.pt, m.slots[j].page);
        k < |sp'.pt| && sp'.pt[k].inSwap
    {
      PrependHeld(m, id, sp, s, j);
    }
  }

  /** An entry for a page of the new segment is no longer the first for its page. */
  lemma TouchedLost(m: Machine, id: nat, sp: Space, s: Segment, k: nat)
    requires SpaceOk(sp) && s.suffix == |sp.pt| + s.npages && s.base % PAGE_SIZE == 0
    requires k < |sp.pt| && Covers(s, sp.pt[k].page) && (sp.pt[k].inMem || sp.pt[k].inSwap)
    ensures !Coherent(m, id, Prepend(sp, s))
  {
    var sp' := Prepend(sp, s);
    assert sp'.pt[s.npages + k] == sp.pt[k];
    PrependFirst(sp, s, sp.pt[k].page);
    ChainPages(s, sp.pt[k].page);
  }

  /**
   * A definition keeps the address space coherent exactly when none of the
   * new segment's pages has been touched: the new entry of a page in memory
   * or in swap hides the old one, and its frame or slot is lost.
   */
  lemma PrependCoherent(m: Machine, id: nat, sp: Space, s: Segment)
    requires Coherent(m, id, sp) && s.suffix == |sp.pt| + s.npages && s.base % PAGE_SIZE == 0 && PageLocal(s)
    ensures Coherent(m, id, Prepend(sp, s)) <==> Untouched(sp, s)
  {
    if Untouched(sp, s) {
      UntouchedCoherent(m, id, sp, s);
    } else {
      var k :| 0 <= k < |sp.pt| && Covers(s, sp.pt[k].page) && (sp.pt[k].inMem || sp.pt[k].inSwap);
      TouchedLost(m, id, sp, s, k);
    }
  }

  lemma PrependSpaceOk(sp: Space, s: Segment)
    requires SpaceOk(sp) && s.suffix == |sp.pt| + s.npages && s.base % PAGE_SIZE == 0 && PageLocal(s)
    ensures SpaceOk(Prepend(sp, s))
  {
    var sp' := Prepend(sp, s);
    PrependLaid(sp, s);
    forall k | 0 <= k < |sp'.pt| ensures sp'.pt[k].page % PAGE_SIZE == 0 {
      if k < s.npages {
        PageAtAligned(s, k);
      }
    }
  }

  /** The pages of other segments have what they had. */
  lemma PrependOld(m: Machine, id: nat, sp: Space, s: Segment, q: nat)
    requires s.suffix == |sp.pt| + s.npages && s.base % PAGE_SIZE == 0 && q % PAGE_SIZE == 0 && !Covers(s, q)
    ensures Writable(Prepend(sp, s), q) == Writable(sp, q)
    ensures Contents(m, id, Prepend(sp, s), q) == Contents(m, id, sp, q)
  {
    var sp' := Prepend(sp, s);
    PrependFirst(sp, s, q);
    var k := FirstEntry(sp.pt, q);
    assert k < |sp.pt| ==> sp'.pt[s.npages + k] == sp.pt[k];
    assert Covered(sp', q) == Covered(sp, q);
    assert Covered(sp, q) ==> SegOf(sp', q) == SegOf(sp, q) && IndexOf(sp', q) == IndexOf(sp, q);
  }

  /** The pages of the new segment have their initial images. */
  lemma PrependNew(m: Machine, id: nat, sp: Space, s: Segment, q: nat)
    requires s.suffix == |sp.pt| + s.npages && s.base % PAGE_SIZE == 0 && q % PAGE_SIZE == 0 && Covers(s, q)
    ensures Writable(Prepend(sp, s), q) == (s.write > 0)
    ensures var i := FirstEntry(Chain(s), q);
      i < s.npages && PageAt(s, i) == q && Contents(m, id, Prepend(sp, s), q) == InitialPage(s, i + 1, sp.elf)
  {
    var sp' := Prepend(sp, s);
    PrependFirst(sp, s, q);
    ChainPages(s, q);
    var i := FirstEntry(Chain(s), q);
    assert sp'.pt[i] == Chain(s)[i];
    assert SegOf(sp', q) == s && IndexOf(sp', q) == i + 1;
  }

  lemma PagesOfSegment(s: Segment, q: nat)
    requires s.base % PAGE_SIZE == 0
    ensures q in PagesOf(s.base, s.npages) <==> Covers(s, q) && q % PAGE_SIZE == 0
  {
    if Covers(s, q) && q % PAGE_SIZE == 0 {
      var i := (q - s.base) / PAGE_SIZE;
      assert q == s.base + i * PAGE_SIZE;
    }
  }

  /** `pages` maps the segment's pages to their initial images. */
  ghost predicate Images(s: Segment, elf: seq<Byte>, pages: map<nat, FlatPage>) {
    && pages.Keys == PagesOf(s.base, s.npages)
    && (forall k :: 0 <= k < s.npages ==>
          PageAt(s, k) in pages && pages[PageAt(s, k)] == FlatPage(InitialPage(s, k + 1, elf), s.write > 0))
  }

  /** A definition adds the segment's pages, with their images, to the flat memory. */
  lemma PrependFlat(m: Machine, id: nat, sp: Space, s: Segment, pages: map<nat, FlatPage>)
    requires Coherent(m, id, sp) && s.suffix == |sp.pt| + s.npages && s.base % PAGE_SIZE == 0 && SpaceOk(Prepend(sp, s))
    requires Images(s, sp.elf, pages)
    ensures FlatPages(m, id, Prepend(sp, s)) == FlatPages(m, id, sp) + pages
  {
    var sp' := Prepend(sp, s);
    forall q ensures q in PageSet(sp') <==> q in PageSet(sp) || q in pages {
      PrependPages(sp, s, q);
    }
    forall q | q in PageSet(sp')
      ensures FlatPage(Contents(m, id, sp', q), Writable(sp', q))
        == if q in pages then pages[q] else FlatPage(Contents(m, id, sp, q), Writable(sp, q))
    {
      var k :| 0 <= k < |sp'.pt| && sp'.pt[k].page == q;
      PagesOfSegment(s, q);
      if Covers(s, q) {
        PrependNew(m, id, sp, s, q);
      } else {
        PrependOld(m, id, sp, s, q);
      }
    }
    FlatPagesUnion(m, id, sp, sp', pages);
  }

  lemma FlatPagesUnion(m: Machine, id: nat, sp: Space, sp': Space, pages: map<nat, FlatPage>)
    requires forall q :: q in PageSet(sp') <==> q in PageSet(sp) || q in pages
    requires forall q :: q in PageSet(sp') ==>
      FlatPage(Contents(m, id, sp', q), Writable(sp', q))
        == (if q in pages then pages[q] else FlatPage(Contents(m, id, sp, q), Writable(sp, q)))
    ensures FlatPages(m, id, sp') == FlatPages(m, id, sp) + pages
  {
    var a, b := FlatPages(m, id, sp'), FlatPages(m, id, sp) + pages;
    forall q ensures q in a <==> q in b {
    }
    forall q | q in a ensures a[q] == b[q] {
      assert a[q] == FlatPage(Contents(m, id, sp', q), Writable(sp', q));
    }
    SameMap(a, b);
  }

  lemma PrependPages(sp: Space, s: Segment, q: nat)
    requires s.suffix == |sp.pt| + s.npages && s.base % PAGE_SIZE == 0
    ensures q in PageSet(Prepend(sp, s)) <==> q in PageSet(sp) || q in PagesOf(s.base, s.npages)
  {
    var pt' := Prepend(sp, s).pt;
    if q in PageSet(sp) {
      var k :| 0 <= k < |sp.pt| && sp.pt[k].page == q;
      assert pt'[s.npages + k].page == q;
    }
    if q in PagesOf(s.base, s.npages) {
      PagesOfSegment(s, q);
      ChainPages(s, q);
      var i := FirstEntry(Chain(s), q);
      assert pt'[i].page == q;
    }
    if q in PageSet(Prepend(sp, s)) {
      var k :| 0 <= k < |pt'| && pt'[k].page == q;
      if k < s.npages {
        PageAtAligned(s, k);
        PagesOfSegment(s, q);
      } else {
        assert sp.pt[k - s.npages].page == q;
      }
    }
  }

  /** Other address spaces do not see a definition. */
  lemma DefineOthers(w: World, s: Segment, i: nat)
    requires Inv(w) && s.suffix == |w.m.sp.pt| + s.npages && i in Ids(w) && w.running != User(i)
    ensures var w' := Defined(w, s); i in Ids(w') && FlatSpaceOf(w'.m, i, SpaceOf(w', i)) == FlatSpaceOf(w.m, i, SpaceOf(w, i))
  {
    var w' := Defined(w, s);
    SpUndisturbed(w.m, w'.m, i);
    UndisturbedSame(w.m, w'.m, i, SpaceOf(w, i));
  }

  lemma DefineOwn(w: World, s: Segment, pages: map<nat, FlatPage>)
    requires Inv(w) && w.running != Nothing
    requires s.suffix == |w.m.sp.pt| + s.npages && s.base % PAGE_SIZE == 0 && PageLocal(s) && Untouched(w.m.sp, s)
    requires Images(s, w.m.sp.elf, pages)
    ensures var w' := Defined(w, s);
      FlatPages(w'.m, w.running.id, w'.m.sp) == FlatPages(w.m, w.running.id, w.m.sp) + pages
  {
    var id := w.running.id;
    assert id in Ids(w) && SpaceOf(w, id) == w.m.sp;
    PrependCoherent(w.m, id, w.m.sp, s);
    PrependFlat(w.m, id, w.m.sp, s, pages);
    var w' := Defined(w, s);
    SpUndisturbed(w.m, w'.m, id);
    UndisturbedSame(w.m, w'.m, id, w'.m.sp);
  }

  /** A definition in the running address space, as seen in flat memory. */
  lemma DefineFlat(w: World, s: Segment, pages: map<nat, FlatPage>)
    requires Inv(w) && w.running != Nothing
    requires s.suffix == |w.m.sp.pt| + s.npages && s.base % PAGE_SIZE == 0 && PageLocal(s) && Untouched(w.m.sp, s)
    requires Images(s, w.m.sp.elf, pages)
    ensures w.running.id in Flatten(w).spaces && Flatten(Defined(w, s)) == FlatDefine(Flatten(w), pages)
  {
    var id := w.running.id;
    var w' := Defined(w, s);
    DefineOwn(w, s, pages);
    forall i | i in Ids(w) && i != id ensures FlatSpaceOf(w'.m, i, SpaceOf(w', i)) == FlatSpaceOf(w.m, i, SpaceOf(w, i)) {
      DefineOthers(w, s, i);
    }
    FlattenUpdate(w, w', id);
  }

  lemma DefineSound(slots: seq<TlbEntry>, sp: Space, s: Segment)
    requires Sound(slots, sp, -1) && SpaceOk(sp) && s.suffix == |sp.pt| + s.npages && s.base % PAGE_SIZE == 0 && Untouched(sp, s)
    ensures Sound(slots, Prepend(sp, s), -1)
  {
    var sp' := Prepend(sp, s);
    forall i | 0 <= i < |slots| && slots[i].Mapping? ensures MappingOk(slots[i], sp', -1) {
      assert MappingOk(slots[i], sp, -1);
      var q := slots[i].page;
      var k := FirstEntry(sp.pt, q);
      assert sp.pt[k].page % PAGE_SIZE == 0;
      PrependFirst(sp, s, q);
      assert sp'.pt[s.npages + k] == sp.pt[k];
      assert Writable(sp', q) == Writable(sp, q);
    }
  }

  lemma DefineInv(w: World, s: Segment)
    requires Inv(w) && w.running != Nothing
    requires s.suffix == |w.m.sp.pt| + s.npages && s.base % PAGE_SIZE == 0 && PageLocal(s) && Untouched(w.m.sp, s)
    ensures Inv(Defined(w, s))
  {
    var w' := Defined(w, s);
    var id := w.running.id;
    assert id in Ids(w) && SpaceOf(w, id) == w.m.sp;
    PrependCoherent(w.m, id, w.m.sp, s);
    DefineSound(w.m.tlb.slots, w.m.sp, s);
    forall i | i in Ids(w') ensures Coherent(w'.m, i, SpaceOf(w', i)) {
      SpUndisturbed(w.m, w'.m, i);
      UndisturbedCoherent(w.m, w'.m, i, SpaceOf(w', i));
    }
  }

  lemma FlattenRunning(w: World)
    requires w.running != Nothing
    ensures var f := Flatten(w); f.running == w.running && w.running.id in f.spaces && f.spaces[w.running.id].elf == w.m.sp.elf
  {
    assert w.running.id in Ids(w);
  }

  lemma RegionImages(vaddr: nat, offset: nat, sz: nat, write: int, exec: int, suffix: nat, elf: seq<Byte>)
    ensures Images(RegionSegment(vaddr, offset, sz, write, exec, suffix), elf, FlatRegion(vaddr, offset, sz, write, elf))
  {
    var s := RegionSegment(vaddr, offset, sz, write, exec, suffix);
    var pages := FlatRegion(vaddr, offset, sz, write, elf);
    assert pages.Keys == PagesOf(s.base, s.npages);
    forall k | 0 <= k < s.npages
      ensures PageAt(s, k) in pages && pages[PageAt(s, k)] == FlatPage(InitialPage(s, k + 1, elf), s.write > 0)
    {
      OnSegment(s, k);
      RegionImageIs(vaddr, offset, sz, write, exec, suffix, k, elf);
    }
  }

  lemma RegionImageIs(vaddr: nat, offset: nat, sz: nat, write: int, exec: int, suffix: nat, k: nat, elf: seq<Byte>)
    requires k < RegionPages(vaddr, sz)
    ensures var s := RegionSegment(vaddr, offset, sz, write, exec, suffix);
      RegionImage(vaddr, offset, sz, elf, PageAt(s, k)) == InitialPage(s, k + 1, elf)
  {
    var s := RegionSegment(vaddr, offset, sz, write, exec, suffix);
    if WellPlaced(vaddr, offset, sz) {
      InitialIsRegion(vaddr, offset, sz, write, exec, suffix, k + 1, elf);
      AsWhole(vaddr, offset, sz, elf, PageAt(s, k));
    } else {
      OwnImageIs(vaddr, offset, sz, write, exec, suffix, k, elf);
    }
  }

  lemma AsWhole(vaddr: nat, offset: nat, sz: nat, elf: seq<Byte>, q: nat)
    requires WellPlaced(vaddr, offset, sz)
    ensures RegionImage(vaddr, offset, sz, elf, q) == RegionPage(vaddr, offset, sz, elf, q)
  {
  }

  lemma OwnImageIs(vaddr: nat, offset: nat, sz: nat, write: int, exec: int, suffix: nat, k: nat, elf: seq<Byte>)
    requires k < RegionPages(vaddr, sz) && !WellPlaced(vaddr, offset, sz)
    ensures var s := RegionSegment(vaddr, offset, sz, write, exec, suffix);
      RegionImage(vaddr, offset, sz, elf, PageAt(s, k)) == InitialPage(s, k + 1, elf)
  {
    var s := RegionSegment(vaddr, offset, sz, write, exec, suffix);
    PageNumber(s, k);
    ByPage(vaddr, offset, sz, elf, PageAt(s, k), k);
    SameImage(RegionSegment(vaddr, offset, sz, 0, 0, 0), s, k + 1, elf);
  }

  lemma ByPage(vaddr: nat, offset: nat, sz: nat, elf: seq<Byte>, q: nat, k: nat)
    requires !WellPlaced(vaddr, offset, sz) && q >= PageBase(vaddr) && (q - PageBase(vaddr)) / PAGE_SIZE == k
    ensures RegionImage(vaddr, offset, sz, elf, q) == OwnImage(vaddr, offset, sz, elf, k)
  {
  }

  lemma PageNumber(s: Segment, k: nat)
    requires k < s.npages && s.offset >= 0
    ensures PageAt(s, k) >= s.base && (PageAt(s, k) - s.base) / PAGE_SIZE == k
  {
  }

  /** A page's image depends on its segment's size, offset and number of pages alone. */
  lemma SameImage(s: Segment, s': Segment, i: nat, elf: seq<Byte>)
    requires i >= 1 && s'.size == s.size && s'.offset == s.offset && s'.npages == s.npages
    ensures InitialPage(s', i, elf) == InitialPage(s, i, elf)
  {
  }

  lemma OnSegment(s: Segment, k: nat)
    requires k < s.npages && s.base % PAGE_SIZE == 0
    ensures PageAt(s, k) in PagesOf(s.base, s.npages)
  {
    PageAtAligned(s, k);
    PagesOfSegment(s, PageAt(s, k));
  }

  lemma StackImages(top: nat, suffix: nat, elf: seq<Byte>)
    requires top >= STACK_PAGES * PAGE_SIZE && top % PAGE_SIZE == 0
    ensures var s := StackSegment(top, suffix); Images(s, elf, FlatStack(s.base))
  {
    var s := StackSegment(top, suffix);
    forall k | 0 <= k < s.npages ensures PageAt(s, k) in PagesOf(s.base, s.npages) {
      PageAtAligned(s, k);
      PagesOfSegment(s, PageAt(s, k));
    }
  }

  lemma RegionKeeps(w: World, op: Op)
    requires Inv(w) && op.DefineRegion? && Enabled(w, op)
    ensures var w' := Defined(w, NewRegion(w, op)); Inv(w') && FlatStep(Flatten(w), op) == (Flatten(w'), Done)
  {
    var s := NewRegion(w, op);
    var elf := w.m.sp.elf;
    var pages := FlatRegion(op.vaddr, op.offset, op.sz, op.write, elf);
    RegionImages(op.vaddr, op.offset, op.sz, op.write, op.exec, s.suffix, elf);
    DefineInv(w, s);
    DefineFlat(w, s, pages);
    FlattenRunning(w);
  }

  lemma StackReady(w: World, top: nat)
    requires Enabled(w, DefineStack(top))
    ensures var s := NewStack(w, top);
      && s.suffix == |w.m.sp.pt| + s.npages && s.base % PAGE_SIZE == 0 && PageLocal(s) && Untouched(w.m.sp, s)
      && s.base == StackBase(top) && w.running != Nothing
      && Images(s, w.m.sp.elf, FlatStack(s.base))
  {
    var s := NewStack(w, top);
    StackImages(top, s.suffix, w.m.sp.elf);
  }

  lemma StackKeeps(w: World, top: nat)
    requires Inv(w) && Enabled(w, DefineStack(top))
    ensures var w' := Defined(w, NewStack(w, top));
      && Inv(w') && w.running != Nothing && w.running.id in Flatten(w).spaces
      && Flatten(w') == FlatDefine(Flatten(w), FlatStack(StackBase(top)))
  {
    var s := NewStack(w, top);
    StackReady(w, top);
    DefineInv(w, s);
    DefineFlat(w, s, FlatStack(StackBase(top)));
  }
}
