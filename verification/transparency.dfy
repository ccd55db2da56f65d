/**
 * The one-step page-in keeps the kernel's tables coherent and every page's
 * contents, of its own address space and of all others (kern/vm/vm.c, swap.c).
 */
module Transparency {
  import opened Layout
  import opened Coremap
  import opened SwapSpace
  import opened Tlb
  import opened AddressSpace
  import opened Demand
  import opened Soundness
  import opened Paging

  /**
   * The contents of a covered page: its frame, else its swapfile block, else
   * its initial image. In a coherent state the indices are always in range.
   */
  function Contents(m: Machine, id: nat, sp: Space, page: nat): Page {
    var k := FirstEntry(sp.pt, page);
    if k == |sp.pt| || !Covered(sp, page) then ZeroPage()
    else if sp.pt[k].inMem then
      var f := FrameIndex(m.base, sp.pt[k].frame);
      if 0 <= f < |m.ram| then m.ram[f] else ZeroPage()
    else if sp.pt[k].inSwap then
      var j := FindSlot(m.slots, id, page);
      if j < |m.blocks| then m.blocks[j] else ZeroPage()
    else FirstImage(sp, page)
  }

  /** The initial image of a covered page. */
  function FirstImage(sp: Space, page: nat): Page
    requires Covered(sp, page)
  {
    if IndexOf(sp, page) >= 1 then InitialPage(SegOf(sp, page), IndexOf(sp, page), sp.elf) else ZeroPage()
  }

  /** What is known of the frame a load takes. */
  lemma TargetFrame(m: Machine, id: nat, page: nat)
    requires Loadable(m, id, page)
    ensures var f := Target(m, id);
      && 0 <= f < |m.cm|
      && (NeedsEviction(m) ==> Evictable(m.cm[f], id) && m.cm[f].state == Clean)
      && (!NeedsEviction(m) ==> m.cm[f].owner == Nobody)
  {
  }

  /** The coremap record of every frame but the target stays, and the target goes to the page. */
  lemma NetTables(m: Machine, id: nat, page: nat)
    requires Loadable(m, id, page)
    ensures Tables(Net(m, id, page))
  {
    var m' := Net(m, id, page);
    TargetFrame(m, id, page);
    var f := Target(m, id);
    forall g | 0 <= g < |m'.cm| ensures EntryOk(m'.cm[g], m'.clock) {
      assert g != f ==> EntryOk(m.cm[g], m.clock);
    }
    forall i, j | 0 <= i < j < |m'.slots| && m'.slots[i].Held? ensures m'.slots[i] != m'.slots[j] {
      NetSlots(m, id, page);
    }
  }

  /** The victim's slot is new: no slot held its page before. */
  lemma NetSlots(m: Machine, id: nat, page: nat)
    requires Loadable(m, id, page)
    ensures NeedsEviction(m) ==> forall j :: 0 <= j < |m.slots| ==> m.slots[j] != Held(id, m.cm[Target(m, id)].page)
  {
    TargetFrame(m, id, page);
    if NeedsEviction(m) {
      var victim := m.cm[Target(m, id)].page;
      var kv := VictimEntry(m, id, Target(m, id));
      assert !m.sp.pt[kv].inSwap;
    }
  }

  lemma NetPages(m: Machine, id: nat, page: nat)
    requires Loadable(m, id, page)
    ensures var pt' := Net(m, id, page).sp.pt;
      && |pt'| == |m.sp.pt|
      && (forall i :: 0 <= i < |pt'| ==> pt'[i].page == m.sp.pt[i].page)
      && (forall va :: FirstEntry(pt', va) == FirstEntry(m.sp.pt, va))
      && SpaceOk(Net(m, id, page).sp)
  {
    var pt' := Net(m, id, page).sp.pt;
    LaidSamePages(m.sp.segs, m.sp.pt, pt', 0);
    forall va ensures FirstEntry(pt', va) == FirstEntry(m.sp.pt, va) {
      FirstEntrySamePages(m.sp.pt, pt', va);
    }
  }

  /** Entries in memory: the loaded page has the target frame, the others keep theirs. */
  lemma NetResident(m: Machine, id: nat, page: nat, k: nat)
    requires Loadable(m, id, page) && k < |m.sp.pt| && Net(m, id, page).sp.pt[k].inMem
    ensures var m' := Net(m, id, page);
      && !m'.sp.pt[k].inSwap && FirstEntry(m'.sp.pt, m'.sp.pt[k].page) == k && Backed(m', id, m'.sp.pt[k])
      && (m.sp.pt[k].page != page ==> m'.sp.pt[k] == m.sp.pt[k] && FrameIndex(m.base, m.sp.pt[k].frame) != Target(m, id))
  {
    var m' := Net(m, id, page);
    NetPages(m, id, page);
    TargetFrame(m, id, page);
    if k != FirstEntry(m.sp.pt, page) {
      assert m.sp.pt[k].inMem && Backed(m, id, m.sp.pt[k]);
      if NeedsEviction(m) {
        var kv := VictimEntry(m, id, Target(m, id));
      }
    }
  }

  /** Entries swapped out: the victim has its new slot, the others keep theirs. */
  lemma NetSwapped(m: Machine, id: nat, page: nat, k: nat)
    requires Loadable(m, id, page) && k < |m.sp.pt| && Net(m, id, page).sp.pt[k].inSwap
    ensures var m' := Net(m, id, page);
      && FirstEntry(m'.sp.pt, m'.sp.pt[k].page) == k
      && FindSlot(m'.slots, id, m'.sp.pt[k].page) < |m'.slots|
  {
    var m' := Net(m, id, page);
    NetPages(m, id, page);
    TargetFrame(m, id, page);
    var q := m.sp.pt[k].page;
    if NeedsEviction(m) && m.cm[Target(m, id)].page == q {
      var kv := VictimEntry(m, id, Target(m, id));
      assert m'.slots[FirstVacant(m.slots)] == Held(id, q);
    } else {
      assert m.sp.pt[k].inSwap;
      assert m'.slots[FindSlot(m.slots, id, q)] == Held(id, q);
    }
  }

  lemma NetOwned(m: Machine, id: nat, page: nat, f: nat)
    requires Loadable(m, id, page) && f < |m.cm| && Net(m, id, page).cm[f].owner == As(id)
    ensures var m' := Net(m, id, page);
      var k := FirstEntry(m'.sp.pt, m'.cm[f].page);
      k < |m'.sp.pt| && m'.sp.pt[k].inMem && m'.sp.pt[k].frame == FrameAddr(m'.base, f)
  {
    NetPages(m, id, page);
    TargetFrame(m, id, page);
    if f != Target(m, id) && NeedsEviction(m) {
      var kv := VictimEntry(m, id, Target(m, id));
    }
  }

  lemma NetHeld(m: Machine, id: nat, page: nat, j: nat)
    requires Loadable(m, id, page) && j < |m.slots|
    requires Net(m, id, page).slots[j].Held? && Net(m, id, page).slots[j].id == id
    ensures var m' := Net(m, id, page);
      var k := FirstEntry(m'.sp.pt, m'.slots[j].page);
      k < |m'.sp.pt| && m'.sp.pt[k].inSwap
  {
    NetPages(m, id, page);
    TargetFrame(m, id, page);
    if NeedsEviction(m) {
      var kv := VictimEntry(m, id, Target(m, id));
    }
  }

  lemma NetCoherent(m: Machine, id: nat, page: nat)
    requires Loadable(m, id, page)
    ensures Coherent(Net(m, id, page), id, Net(m, id, page).sp)
  {
    var m' := Net(m, id, page);
    NetPages(m, id, page);
    forall k | 0 <= k < |m'.sp.pt| && m'.sp.pt[k].inMem
      ensures !m'.sp.pt[k].inSwap && FirstEntry(m'.sp.pt, m'.sp.pt[k].page) == k && Backed(m', id, m'.sp.pt[k])
    {
      NetResident(m, id, page, k);
    }
    forall k | 0 <= k < |m'.sp.pt| && m'.sp.pt[k].inSwap
      ensures FirstEntry(m'.sp.pt, m'.sp.pt[k].page) == k && FindSlot(m'.slots, id, m'.sp.pt[k].page) < |m'.slots|
    {
      NetSwapped(m, id, page, k);
    }
    forall f | 0 <= f < |m'.cm| && m'.cm[f].owner == As(id)
      ensures var k := FirstEntry(m'.sp.pt, m'.cm[f].page);
        k < |m'.sp.pt| && m'.sp.pt[k].inMem && m'.sp.pt[k].frame == FrameAddr(m'.base, f)
    {
      NetOwned(m, id, page, f);
    }
    forall j | 0 <= j < |m'.slots| && m'.slots[j].Held? && m'.slots[j].id == id
      ensures var k := FirstEntry(m'.sp.pt, m'.slots[j].page);
        k < |m'.sp.pt| && m'.sp.pt[k].inSwap
    {
      NetHeld(m, id, page, j);
    }
  }

  /** The loaded page has in its frame what it had in swap or initially. */
  lemma NetContentsLoaded(m: Machine, id: nat, page: nat)
    requires Loadable(m, id, page)
    ensures Contents(Net(m, id, page), id, Net(m, id, page).sp, page) == Contents(m, id, m.sp, page)
  {
    var m' := Net(m, id, page);
    var f := Target(m, id);
    FirstEntrySamePages(m.sp.pt, m'.sp.pt, page);
    assert FrameIndex(m.base, FrameAddr(m.base, f)) == f;
  }

  /** A page in neither memory nor swap has its initial image in both states. */
  lemma SameInitial(m: Machine, m': Machine, id: nat, sp: Space, sp': Space, q: nat)
    requires sp' == sp.(pt := sp'.pt) && |sp'.pt| == |sp.pt|
    requires FirstEntry(sp'.pt, q) == FirstEntry(sp.pt, q) < |sp.pt|
    requires var k := FirstEntry(sp.pt, q); sp'.pt[k] == sp.pt[k] && !sp.pt[k].inMem && !sp.pt[k].inSwap
    ensures Contents(m', id, sp', q) == Contents(m, id, sp, q)
  {
    if Covered(sp, q) {
      SameFirstImage(sp, sp', q);
    }
  }

  lemma SameFirstImage(sp: Space, sp': Space, q: nat)
    requires sp' == sp.(pt := sp'.pt) && |sp'.pt| == |sp.pt| && Covered(sp, q)
    requires FirstEntry(sp'.pt, q) == FirstEntry(sp.pt, q)
    ensures FirstImage(sp', q) == FirstImage(sp, q)
  {
    assert IndexOf(sp', q) == IndexOf(sp, q);
  }

  /** A page in swap in the second state has what it had in the first. */
  lemma SameSwapped(m: Machine, m': Machine, id: nat, sp: Space, sp': Space, q: nat)
    requires sp' == sp.(pt := sp'.pt) && |sp'.pt| == |sp.pt| && Covered(sp, q)
    requires FirstEntry(sp'.pt, q) == FirstEntry(sp.pt, q) < |sp.pt|
    requires var k := FirstEntry(sp.pt, q);
      && sp'.pt[k].inSwap && !sp'.pt[k].inMem && FindSlot(m'.slots, id, q) < |m'.blocks|
      && var b := m'.blocks[FindSlot(m'.slots, id, q)];
        if sp.pt[k].inMem then 0 <= FrameIndex(m.base, sp.pt[k].frame) < |m.ram| && b == m.ram[FrameIndex(m.base, sp.pt[k].frame)]
        else sp.pt[k].inSwap && FindSlot(m.slots, id, q) < |m.blocks| && b == m.blocks[FindSlot(m.slots, id, q)]
    ensures Contents(m', id, sp', q) == Contents(m, id, sp, q)
  {
  }

  /** A page in memory in the second state has what it had in the first, in the same frame. */
  lemma SameResident(m: Machine, m': Machine, id: nat, sp: Space, sp': Space, q: nat)
    requires sp' == sp.(pt := sp'.pt) && |sp'.pt| == |sp.pt| && Covered(sp, q)
    requires FirstEntry(sp'.pt, q) == FirstEntry(sp.pt, q) < |sp.pt|
    requires m'.base == m.base && |m'.ram| == |m.ram|
    requires var k := FirstEntry(sp.pt, q);
      var f := FrameIndex(m.base, sp.pt[k].frame);
      sp'.pt[k] == sp.pt[k] && sp.pt[k].inMem && 0 <= f < |m.ram| && m'.ram[f] == m.ram[f]
    ensures Contents(m', id, sp', q) == Contents(m, id, sp, q)
  {
  }

  lemma KeptInMemory(m: Machine, id: nat, page: nat, q: nat)
    requires Loadable(m, id, page) && Covered(m.sp, q) && q != page
    requires InMemory(Net(m, id, page).sp, q)
    ensures Contents(Net(m, id, page), id, Net(m, id, page).sp, q) == Contents(m, id, m.sp, q)
  {
    FirstEntrySamePages(m.sp.pt, Net(m, id, page).sp.pt, q);
    NetResident(m, id, page, FirstEntry(m.sp.pt, q));
    NetOtherFrames(m, id, page);
    SameResident(m, Net(m, id, page), id, m.sp, Net(m, id, page).sp, q);
  }

  /** The load writes no frame but its target. */
  lemma NetOtherFrames(m: Machine, id: nat, page: nat)
    requires Loadable(m, id, page)
    ensures var m' := Net(m, id, page);
      && m'.base == m.base && |m'.ram| == |m.ram| && m'.sp == m.sp.(pt := m'.sp.pt) && |m'.sp.pt| == |m.sp.pt|
      && (forall f :: 0 <= f < |m.ram| && f != Target(m, id) ==> m'.ram[f] == m.ram[f])
  {
    TargetFrame(m, id, page);
  }

  lemma KeptInSwap(m: Machine, id: nat, page: nat, q: nat)
    requires Loadable(m, id, page) && Covered(m.sp, q) && q != page && !InMemory(Net(m, id, page).sp, q)
    requires var k := FirstEntry(m.sp.pt, q); k < |m.sp.pt| && Net(m, id, page).sp.pt[k].inSwap
    ensures Contents(Net(m, id, page), id, Net(m, id, page).sp, q) == Contents(m, id, m.sp, q)
  {
    var k := FirstEntry(m.sp.pt, q);
    NetTables(m, id, page);
    NetPages(m, id, page);
    NetSwapped(m, id, page, k);
    NetSlotContents(m, id, page, k);
    SameSwapped(m, Net(m, id, page), id, m.sp, Net(m, id, page).sp, q);
  }

  lemma KeptInitial(m: Machine, id: nat, page: nat, q: nat)
    requires Loadable(m, id, page) && Covered(m.sp, q) && q != page && !InMemory(Net(m, id, page).sp, q)
    requires var k := FirstEntry(m.sp.pt, q); k < |m.sp.pt| && !Net(m, id, page).sp.pt[k].inSwap
    ensures Contents(Net(m, id, page), id, Net(m, id, page).sp, q) == Contents(m, id, m.sp, q)
  {
    NetPages(m, id, page);
    SameInitial(m, Net(m, id, page), id, m.sp, Net(m, id, page).sp, q);
  }

  /** So has every other page. */
  lemma NetContentsKept(m: Machine, id: nat, page: nat, q: nat)
    requires Loadable(m, id, page) && Covered(m.sp, q) && q % PAGE_SIZE == 0 && q != page
    ensures Contents(Net(m, id, page), id, Net(m, id, page).sp, q) == Contents(m, id, m.sp, q)
  {
    SearchAgrees(m.sp, q);
    if InMemory(Net(m, id, page).sp, q) {
      KeptInMemory(m, id, page, q);
    } else if Net(m, id, page).sp.pt[FirstEntry(m.sp.pt, q)].inSwap {
      KeptInSwap(m, id, page, q);
    } else {
      KeptInitial(m, id, page, q);
    }
  }

  /** No page of the running address space changes: neither the loaded one, nor the victim, nor any other. */
  lemma NetContents(m: Machine, id: nat, page: nat, q: nat)
    requires Loadable(m, id, page) && Covered(m.sp, q) && q % PAGE_SIZE == 0
    ensures Contents(Net(m, id, page), id, Net(m, id, page).sp, q) == Contents(m, id, m.sp, q)
  {
    if q == page {
      NetContentsLoaded(m, id, page);
    } else {
      NetContentsKept(m, id, page, q);
    }
  }

  /** The block of every page in swap after the load holds that page's contents. */
  lemma NetSlotContents(m: Machine, id: nat, page: nat, k: nat)
    requires Loadable(m, id, page) && k < |m.sp.pt| && Net(m, id, page).sp.pt[k].inSwap
    requires Tables(Net(m, id, page)) && FirstEntry(m.sp.pt, m.sp.pt[k].page) == k
    requires FindSlot(Net(m, id, page).slots, id, m.sp.pt[k].page) < |m.slots|
    ensures var m' := Net(m, id, page);
      var q := m.sp.pt[k].page;
      var b := m'.blocks[FindSlot(m'.slots, id, q)];
      if m.sp.pt[k].inMem then
        0 <= FrameIndex(m.base, m.sp.pt[k].frame) < |m.ram| && b == m.ram[FrameIndex(m.base, m.sp.pt[k].frame)]
      else
        m.sp.pt[k].inSwap && FindSlot(m.slots, id, q) < |m.slots| && b == m.blocks[FindSlot(m.slots, id, q)]
  {
    var m' := Net(m, id, page);
    TargetFrame(m, id, page);
    NetSlots(m, id, page);
    var q := m.sp.pt[k].page;
    var r := FindSlot(m'.slots, id, q);
    if NeedsEviction(m) {
      var kv := VictimEntry(m, id, Target(m, id));
    }
    if m.sp.pt[k].inMem {
      assert r == FirstVacant(m.slots);
    } else {
      assert m'.slots[FindSlot(m.slots, id, q)] == Held(id, q);
      assert m'.slots[r] == Held(id, q);
      assert r == FindSlot(m.slots, id, q);
    }
  }

  /** Nothing an address space owns differs between two states. */
  ghost predicate Undisturbed(m: Machine, m': Machine, id: nat) {
    && m'.base == m.base && |m'.cm| == |m.cm| && |m'.ram| == |m.ram| && |m'.slots| == |m.slots| && |m'.blocks| == |m.blocks|
    && (forall f :: 0 <= f < |m.cm| && f < |m.ram| && m.cm[f].owner == As(id) ==> m'.cm[f] == m.cm[f] && m'.ram[f] == m.ram[f])
    && (forall f :: 0 <= f < |m.cm| && m'.cm[f].owner == As(id) ==> m.cm[f].owner == As(id))
    && (forall j :: 0 <= j < |m.slots| && j < |m.blocks| && m.slots[j].Held? && m.slots[j].id == id ==>
          m'.slots[j] == m.slots[j] && m'.blocks[j] == m.blocks[j])
    && (forall j :: 0 <= j < |m.slots| && m'.slots[j].Held? && m'.slots[j].id == id ==> m.slots[j] == m'.slots[j])
  }

  lemma UndisturbedSlot(m: Machine, m': Machine, id: nat, q: nat)
    requires Undisturbed(m, m', id) && |m.blocks| == |m.slots|
    ensures FindSlot(m'.slots, id, q) == FindSlot(m.slots, id, q)
  {
    var r, r' := FindSlot(m.slots, id, q), FindSlot(m'.slots, id, q);
    assert r < |m.slots| ==> m'.slots[r] == Held(id, q);
    assert r' < |m.slots| ==> m.slots[r'] == Held(id, q);
  }

  /** An address space whose frames and slots are left alone stays coherent, with every page as it was. */
  lemma UndisturbedCoherent(m: Machine, m': Machine, id: nat, sp: Space)
    requires Undisturbed(m, m', id) && Coherent(m, id, sp) && |m.ram| == |m.cm| && |m.blocks| == |m.slots|
    ensures Coherent(m', id, sp)
    ensures forall q: nat :: Contents(m', id, sp, q) == Contents(m, id, sp, q)
  {
    forall k | 0 <= k < |sp.pt| && sp.pt[k].inMem ensures Backed(m', id, sp.pt[k]) {
      assert Backed(m, id, sp.pt[k]);
    }
    forall k | 0 <= k < |sp.pt| && sp.pt[k].inSwap ensures FindSlot(m'.slots, id, sp.pt[k].page) < |m'.slots| {
      UndisturbedSlot(m, m', id, sp.pt[k].page);
    }
    forall q: nat ensures Contents(m', id, sp, q) == Contents(m, id, sp, q) {
      UndisturbedContents(m, m', id, sp, q);
    }
  }

  lemma UndisturbedContents(m: Machine, m': Machine, id: nat, sp: Space, q: nat)
    requires Undisturbed(m, m', id) && Coherent(m, id, sp) && |m.ram| == |m.cm| && |m.blocks| == |m.slots|
    ensures Contents(m', id, sp, q) == Contents(m, id, sp, q)
  {
    var k := FirstEntry(sp.pt, q);
    if k < |sp.pt| {
      if sp.pt[k].inMem {
        assert Backed(m, id, sp.pt[k]);
      } else if sp.pt[k].inSwap {
        UndisturbedSlot(m, m', id, q);
        assert m.slots[FindSlot(m.slots, id, q)] == Held(id, q);
      }
    }
  }

  /** A load disturbs no other address space. */
  lemma NetUndisturbed(m: Machine, id: nat, page: nat, other: nat)
    requires Loadable(m, id, page) && other != id
    ensures Undisturbed(m, Net(m, id, page), other)
  {
    TargetFrame(m, id, page);
  }

  // ---- one fault ----

  /** The pages of an address space have in one state what they have in another. */
  ghost predicate SameContents(m: Machine, m': Machine, id: nat) {
    forall q: nat :: Covered(m.sp, q) && q % PAGE_SIZE == 0 ==> Contents(m', id, m'.sp, q) == Contents(m, id, m.sp, q)
  }

  /** TLB, counters and tally are no part of the tables or the contents. */
  lemma BooksAside(m: Machine, m': Machine, id: nat)
    requires Tables(m) && Coherent(m, id, m.sp) && SameTables(m, m') && TlbShape(m'.tlb)
    ensures Tables(m') && Coherent(m', id, m'.sp)
    ensures forall q: nat :: Contents(m', id, m'.sp, q) == Contents(m, id, m.sp, q)
  {
    UndisturbedCoherent(m, m', id, m.sp);
  }

  lemma LoadTransparent(m: Machine, id: nat, page: nat, m': Machine)
    requires Loadable(m, id, page) && Loaded(m, id, page, m')
    ensures Settled(m', id) && SameContents(m, m', id)
  {
    var n := Net(m, id, page);
    NetTables(m, id, page);
    NetCoherent(m, id, page);
    BooksAside(n, m', id);
    forall q: nat | Covered(m.sp, q) && q % PAGE_SIZE == 0 ensures Contents(m', id, m'.sp, q) == Contents(m, id, m.sp, q) {
      NetContents(m, id, page, q);
    }
  }

  /** The tables are between faults again, the counters as balanced as before and no page changed. */
  ghost predicate Kept(m: Machine, m': Machine, id: nat) {
    Settled(m', id) && SameContents(m, m', id) && Owed(m') == Owed(m)
  }

  lemma UncoveredKept(m: Machine, id: nat, addr: nat, s: Schedule, depth: nat)
    requires Settled(m, id) && !Covered(m.sp, PageBase(addr))
    ensures var (m', o) := Fault(m, id, addr, s, depth); o == EFault && Kept(m, m', id)
  {
    FaultUncovered(m, id, addr, s, depth);
    BooksAside(m, Fault(m, id, addr, s, depth).0, id);
  }

  lemma ReloadKept(m: Machine, id: nat, addr: nat, s: Schedule, depth: nat)
    requires Settled(m, id) && Covered(m.sp, PageBase(addr)) && InMemory(m.sp, PageBase(addr))
    ensures var (m', o) := Fault(m, id, addr, s, depth);
      && o == Ok && Kept(m, m', id)
      && InMemory(m'.sp, PageBase(addr)) && Mapped(m'.tlb.slots, PageBase(addr), Writable(m.sp, PageBase(addr)))
  {
    FaultReload(m, id, addr, s, depth);
    BooksAside(m, Fault(m, id, addr, s, depth).0, id);
  }

  lemma LoadKept(m: Machine, id: nat, addr: nat, s: Schedule, depth: nat)
    requires Loadable(m, id, PageBase(addr)) && depth > 0
    ensures var (m', o) := Fault(m, id, addr, s, depth);
      && o == Ok && Kept(m, m', id)
      && InMemory(m'.sp, PageBase(addr)) && Mapped(m'.tlb.slots, PageBase(addr), Writable(m.sp, PageBase(addr)))
  {
    FaultLoad(m, id, addr, s, depth);
    LoadTransparent(m, id, PageBase(addr), Fault(m, id, addr, s, depth).0);
    NowInMemory(m, id, PageBase(addr));
  }

  /**
   * One fault, with everything nested in it: it fails with EFAULT exactly
   * outside every segment, panics exactly when there is no room for a page
   * out of memory, and otherwise leaves the tables coherent, the TLB sound,
   * the page in memory, and every page of the address space as it was.
   */
  lemma FaultTransparent(m: Machine, id: nat, addr: nat, s: Schedule, depth: nat)
    requires Settled(m, id) && depth > 0
    ensures var page := PageBase(addr);
      var (m', o) := Fault(m, id, addr, s, depth);
      && (o == EFault <==> !Covered(m.sp, page))
      && (o == Panic(NoVictim) || o == Panic(SwapFull) <==> Covered(m.sp, page) && !InMemory(m.sp, page) && !CanLoad(m, id))
      && (o == Ok || o == EFault || o == Panic(NoVictim) || o == Panic(SwapFull))
      && (o == Ok || o == EFault ==> Settled(m', id) && SameContents(m, m', id) && Owed(m') == Owed(m))
      && (o == Ok ==> InMemory(m'.sp, page) && Mapped(m'.tlb.slots, page, Writable(m.sp, page)))
  {
    var page := PageBase(addr);
    if !Covered(m.sp, page) {
      UncoveredKept(m, id, addr, s, depth);
    } else if InMemory(m.sp, page) {
      ReloadKept(m, id, addr, s, depth);
    } else if CanLoad(m, id) {
      LoadableIntro(m, id, page);
      LoadKept(m, id, addr, s, depth);
    } else {
      FaultNoRoom(m, id, addr, s, depth);
    }
  }

  lemma NowInMemory(m: Machine, id: nat, page: nat)
    requires Loadable(m, id, page)
    ensures InMemory(Net(m, id, page).sp, page)
  {
    FirstEntrySamePages(m.sp.pt, Net(m, id, page).sp.pt, page);
  }
}
