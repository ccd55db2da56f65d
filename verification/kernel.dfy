/**
 * The paged machine and its reference. The machine has many address spaces,
 * one of them running, and kernel blocks beside the user frames; the
 * reference is a flat memory that maps pages to bytes. `Flatten` sees the one
 * as the other, and `Inv` is what every run of the machine keeps.
 */
module Kernel {
  import opened Layout
  import opened Coremap
  import opened SwapSpace
  import opened Tlb
  import opened AddressSpace
  import opened Demand
  import opened Soundness
  import opened Paging
  import opened Transparency
  import opened Loading

  /** The address space running on the processor, if any; a kernel thread has none. */
  datatype Running = Nothing | User(id: nat)

  /** The machine holds the running address space; the others are parked. */
  datatype World = World(m: Machine, running: Running, parked: map<nat, Space>)

  datatype Op =
    | Load(va: nat, s: Schedule)
    | Store(va: nat, b: Byte, s: Schedule)
    | FlushTlb
    | Park
    | Resume(id: nat)
    | Create(id: nat, elf: seq<Byte>)
    | DefineRegion(vaddr: nat, offset: nat, sz: nat, write: int, exec: int)
    | DefineStack(top: nat)
    | Destroy(id: nat)
    | KernelAlloc(n: nat)
    | KernelFree(p: nat)
    | KernelStore(f: nat, data: Page)

  datatype Result = Value(b: Byte) | Done | Killed | Stopped(why: Outcome)

  const EMPTY_SPACE := Space([], [], [])

  // ---- the machine's step ----

  /** A user access: a miss faults and is retried, a denied write is a read-only fault. */
  function Access(m: Machine, id: nat, page: nat, write: bool, s: Schedule, depth: nat): (Machine, Outcome) {
    match Translate(m.tlb.slots, page, write)
    case Hit(_) => (m, Ok)
    case Denied => (m, Panic(ReadOnly))
    case Miss =>
      var (m1, o) := Fault(m, id, page, s, depth);
      if o != Ok then (m1, o)
      else
        match Translate(m1.tlb.slots, page, write)
        case Hit(_) => (m1, Ok)
        case Denied => (m1, Panic(ReadOnly))
        case Miss => (m1, Crash)
  }

  /** The frame an access that hits goes to. */
  function HitFrame(m: Machine, page: nat, write: bool): int {
    var a := Translate(m.tlb.slots, page, write);
    if a.Hit? then FrameIndex(m.base, a.frame) else -1
  }

  function FailResult(o: Outcome): Result {
    if o == EFault then Killed else Stopped(o)
  }

  function UserStep(w: World, op: Op, depth: nat): (World, Result)
    requires op.Load? || op.Store?
  {
    if w.running == Nothing then (w, Killed)
    else
      var page := PageBase(op.va);
      var (m1, o) := Access(w.m, w.running.id, page, op.Store?, op.s, depth);
      var w1 := w.(m := m1);
      var f := HitFrame(m1, page, op.Store?);
      if o != Ok then (w1, FailResult(o))
      else if !(0 <= f < |m1.ram|) then (w1, Stopped(Crash))
      else if op.Load? then (w1, Value(m1.ram[f][op.va % PAGE_SIZE]))
      else (w.(m := m1.(ram := m1.ram[f := m1.ram[f][op.va % PAGE_SIZE := op.b]])), Done)
  }

  function Defined(w: World, seg: Segment): World
    requires seg.suffix == |w.m.sp.pt| + seg.npages
  {
    w.(m := w.m.(sp := Prepend(w.m.sp, seg)))
  }

  /** `cm_asfree` and `swap_asfree`. */
  function FreeAll(m: Machine, id: nat): Machine {
    m.(cm := OwnerFreed(m.cm, id), slots := HolderFreed(m.slots, id))
  }

  /** `as_destroy`. */
  function DestroyWorld(w: World, id: nat): World {
    if w.running == User(id) then World(FreeAll(w.m, id).(sp := EMPTY_SPACE), Nothing, w.parked)
    else World(FreeAll(w.m, id), w.running, w.parked - {id})
  }

  function ParkRunning(w: World): World {
    if w.running == Nothing then w
    else World(w.m.(sp := EMPTY_SPACE), Nothing, w.parked[w.running.id := w.m.sp])
  }

  function NewRegion(w: World, op: Op): Segment
    requires op.DefineRegion?
  {
    RegionSegment(op.vaddr, op.offset, op.sz, op.write, op.exec, |w.m.sp.pt| + RegionPages(op.vaddr, op.sz))
  }

  function NewStack(w: World, top: nat): Segment
    requires top >= STACK_PAGES * PAGE_SIZE
  {
    StackSegment(top, |w.m.sp.pt| + STACK_PAGES)
  }

  /** No page of the segment has been touched yet. */
  ghost predicate Untouched(sp: Space, s: Segment) {
    forall k :: 0 <= k < |sp.pt| && Covers(s, sp.pt[k].page) ==> !sp.pt[k].inMem && !sp.pt[k].inSwap
  }

  function Ids(w: World): set<nat> {
    w.parked.Keys + if w.running == Nothing then {} else {w.running.id}
  }

  function SpaceOf(w: World, id: nat): Space
    requires id in Ids(w)
  {
    if w.running == User(id) then w.m.sp else w.parked[id]
  }

  /**
   * What callers of the operations see to: a program segment is not empty,
   * its loads stay within their pages, and none of its pages has been
   * touched when it is defined, without which coherence is lost
   * (`Spaces.PrependCoherent`); only a block's head address is freed; the
   * kernel writes its own blocks only.
   */
  ghost predicate Enabled(w: World, op: Op) {
    match op
    case Load(_, _) => true
    case Store(_, _, _) => true
    case FlushTlb => true
    case Park => true
    case Resume(id) => w.running == Nothing && id in w.parked
    case Create(id, _) => w.running == Nothing && id !in w.parked
    case DefineRegion(vaddr, offset, sz, _, _) =>
      w.running != Nothing && RegionPages(vaddr, sz) > 0 && PageLocal(NewRegion(w, op)) && Untouched(w.m.sp, NewRegion(w, op))
    case DefineStack(top) =>
      w.running != Nothing && top >= STACK_PAGES * PAGE_SIZE && top % PAGE_SIZE == 0 && Untouched(w.m.sp, NewStack(w, top))
    case Destroy(id) => id in Ids(w)
    case KernelAlloc(_) => true
    case KernelFree(p) => IsHead(w.m.cm, p)
    case KernelStore(f, _) => f < |w.m.cm| && w.m.cm[f].state == Fixed
  }

  function Max(a: nat, b: nat): nat {
    if a < b then b else a
  }

  /** `frame_kalloc`, once the run is found. */
  function WithBlock(m: Machine, p: nat, n: nat): Machine
    requires p + n <= |m.cm|
  {
    m.(cm := Claim(m.cm, m.base, m.clock, p, n), clock := m.clock + 1)
  }

  /** `frame_kfree`, for the block at `p`. */
  function WithoutBlock(m: Machine, p: nat): Machine
    requires p < |m.cm| && p + m.cm[p].npages <= |m.cm|
  {
    m.(cm := Release(m.cm, p, m.cm[p].npages))
  }

  function WithPage(m: Machine, f: nat, data: Page): Machine
    requires f < |m.ram|
  {
    m.(ram := m.ram[f := data])
  }

  ghost function Step(w: World, op: Op, depth: nat): (World, Result)
    requires Enabled(w, op)
  {
    match op
    case Load(_, _) => UserStep(w, op, depth)
    case Store(_, _, _) => UserStep(w, op, depth)
    case FlushTlb => (if w.running == Nothing then w else w.(m := Flushed(w.m)), Done)
    case Park => (ParkRunning(w), Done)
    case Resume(id) => (World(Flushed(w.m.(sp := w.parked[id])), User(id), w.parked - {id}), Done)
    case Create(id, elf) => (World(Flushed(w.m.(sp := EMPTY_SPACE.(elf := elf))), User(id), w.parked), Done)
    case DefineRegion(_, _, _, _, _) => (Defined(w, NewRegion(w, op)), Done)
    case DefineStack(top) => (Defined(w, NewStack(w, top)), Done)
    case Destroy(id) => (DestroyWorld(w, id), Done)
    case KernelAlloc(n) =>
      var p := LowestRun(w.m.cm, Max(n, 1));
      if p == |w.m.cm| then (w, Done)
      else (w.(m := WithBlock(w.m, p, n)), Done)
    case KernelFree(p) =>
      if p + w.m.cm[p].npages > |w.m.cm| then (w, Stopped(Crash)) else (w.(m := WithoutBlock(w.m, p)), Done)
    case KernelStore(f, data) =>
      if f >= |w.m.ram| then (w, Stopped(Crash)) else (w.(m := WithPage(w.m, f, data)), Done)
  }

  // ---- flat memory ----

  datatype FlatPage = FlatPage(data: Page, writable: bool)

  datatype FlatSpace = FlatSpace(elf: seq<Byte>, pages: map<nat, FlatPage>)

  /** Memory as programs see it: every address space maps pages to bytes; no frames, no swap, no TLB. */
  datatype Flat = Flat(running: Running, spaces: map<nat, FlatSpace>)

  function FlatUser(f: Flat, op: Op): (Flat, Result)
    requires op.Load? || op.Store?
  {
    if f.running == Nothing || f.running.id !in f.spaces then (f, Killed)
    else
      var page := PageBase(op.va);
      var sp := f.spaces[f.running.id];
      if page !in sp.pages then (f, Killed)
      else if op.Load? then (f, Value(sp.pages[page].data[op.va % PAGE_SIZE]))
      else if !sp.pages[page].writable then (f, Stopped(Panic(ReadOnly)))
      else
        var data' := sp.pages[page].data[op.va % PAGE_SIZE := op.b];
        (f.(spaces := f.spaces[f.running.id := sp.(pages := sp.pages[page := FlatPage(data', true)])]), Done)
  }

  /** The pages `base`, `base + PAGE_SIZE`, .. of a segment. */
  ghost function PagesOf(base: nat, n: nat): set<nat> {
    set i | 0 <= i < n :: base + i * PAGE_SIZE
  }

  /**
   * The image of a page of a program region: its part of one copy of the
   * whole segment, zeros around it, where the segment is well placed; else
   * what the page's own load brings.
   */
  ghost function RegionImage(vaddr: nat, offset: nat, sz: nat, elf: seq<Byte>, q: nat): Page {
    if WellPlaced(vaddr, offset, sz) || q < PageBase(vaddr) then RegionPage(vaddr, offset, sz, elf, q)
    else OwnImage(vaddr, offset, sz, elf, (q - PageBase(vaddr)) / PAGE_SIZE)
  }

  /** What the load of the region's `k`-th page, counted from 0, brings. */
  function OwnImage(vaddr: nat, offset: nat, sz: nat, elf: seq<Byte>, k: nat): Page {
    InitialPage(RegionSegment(vaddr, offset, sz, 0, 0, 0), k + 1, elf)
  }

  ghost function FlatRegion(vaddr: nat, offset: nat, sz: nat, write: int, elf: seq<Byte>): map<nat, FlatPage> {
    map q | q in PagesOf(PageBase(vaddr), RegionPages(vaddr, sz)) :: FlatPage(RegionImage(vaddr, offset, sz, elf, q), write > 0)
  }

  ghost function FlatStack(base: nat): map<nat, FlatPage> {
    map q | q in PagesOf(base, STACK_PAGES) :: FlatPage(ZeroPage(), true)
  }

  /** New pages in the running space. */
  function FlatDefine(f: Flat, pages: map<nat, FlatPage>): Flat
    requires f.running != Nothing && f.running.id in f.spaces
  {
    var sp := f.spaces[f.running.id];
    f.(spaces := f.spaces[f.running.id := sp.(pages := sp.pages + pages)])
  }

  /** The same operations on flat memory; paging, the TLB and kernel blocks are not visible in it. */
  ghost function FlatStep(f: Flat, op: Op): (Flat, Result) {
    match op
    case Load(_, _) => FlatUser(f, op)
    case Store(_, _, _) => FlatUser(f, op)
    case Park => (f.(running := Nothing), Done)
    case Resume(id) => (f.(running := User(id)), Done)
    case Create(id, elf) => (Flat(User(id), f.spaces[id := FlatSpace(elf, map[])]), Done)
    case DefineRegion(vaddr, offset, sz, write, _) =>
      if f.running == Nothing || f.running.id !in f.spaces then (f, Done)
      else (FlatDefine(f, FlatRegion(vaddr, offset, sz, write, f.spaces[f.running.id].elf)), Done)
    case DefineStack(top) =>
      if f.running == Nothing || f.running.id !in f.spaces || top < STACK_PAGES * PAGE_SIZE then (f, Done)
      else (FlatDefine(f, FlatStack(StackBase(top))), Done)
    case Destroy(id) => (Flat(if f.running == User(id) then Nothing else f.running, f.spaces - {id}), Done)
    case _ => (f, Done)
  }

  // ---- the machine seen as flat memory ----

  ghost function PageSet(sp: Space): set<nat> {
    set k | 0 <= k < |sp.pt| :: sp.pt[k].page
  }

  ghost function FlatPages(m: Machine, id: nat, sp: Space): map<nat, FlatPage> {
    map q | q in PageSet(sp) :: FlatPage(Contents(m, id, sp, q), Writable(sp, q))
  }

  lemma SamePageSet(sp: Space, sp': Space)
    requires |sp'.pt| == |sp.pt| && forall k :: 0 <= k < |sp.pt| ==> sp'.pt[k].page == sp.pt[k].page
    ensures PageSet(sp') == PageSet(sp)
  {
    forall q ensures q in PageSet(sp') <==> q in PageSet(sp) {
      if q in PageSet(sp') {
        var k :| 0 <= k < |sp.pt| && sp'.pt[k].page == q;
        assert sp.pt[k].page == q;
      }
      if q in PageSet(sp) {
        var k :| 0 <= k < |sp.pt| && sp.pt[k].page == q;
        assert sp'.pt[k].page == q;
      }
    }
  }

  lemma FlatPagesEqual(m: Machine, m': Machine, id: nat, sp: Space, sp': Space)
    requires sp'.segs == sp.segs && |sp'.pt| == |sp.pt|
    requires forall k :: 0 <= k < |sp.pt| ==> sp'.pt[k].page == sp.pt[k].page
    requires forall k :: 0 <= k < |sp.pt| ==> Contents(m', id, sp', sp.pt[k].page) == Contents(m, id, sp, sp.pt[k].page)
    ensures FlatPages(m', id, sp') == FlatPages(m, id, sp)
  {
    SamePageSet(sp, sp');
    forall q | q in PageSet(sp) ensures Contents(m', id, sp', q) == Contents(m, id, sp, q) && Writable(sp', q) == Writable(sp, q) {
      var k :| 0 <= k < |sp.pt| && sp.pt[k].page == q;
    }
    FlatPagesSame(m, m', id, sp, sp');
  }

  lemma FlatPagesSame(m: Machine, m': Machine, id: nat, sp: Space, sp': Space)
    requires PageSet(sp') == PageSet(sp)
    requires forall q :: q in PageSet(sp) ==> Contents(m', id, sp', q) == Contents(m, id, sp, q) && Writable(sp', q) == Writable(sp, q)
    ensures FlatPages(m', id, sp') == FlatPages(m, id, sp)
  {
  }

  /** The flat view of one address space. */
  ghost function FlatSpaceOf(m: Machine, id: nat, sp: Space): FlatSpace {
    FlatSpace(sp.elf, FlatPages(m, id, sp))
  }

  ghost function FlatSpaces(w: World): map<nat, FlatSpace> {
    map id | id in Ids(w) :: FlatSpaceOf(w.m, id, SpaceOf(w, id))
  }

  ghost function Flatten(w: World): Flat {
    Flat(w.running, FlatSpaces(w))
  }

  ghost predicate Inv(w: World) {
    && Tables(w.m) && Blocks(w.m.cm)
    && (w.running != Nothing ==> w.running.id !in w.parked && Sound(w.m.tlb.slots, w.m.sp, -1))
    && (forall id :: id in Ids(w) ==> Coherent(w.m, id, SpaceOf(w, id)))
    && OwnersLive(w.m, Ids(w))
    && Owed(w.m) == (0, 0, 0, 0, 0)
  }

  // ---- paging is invisible ----

  /** A change the flat memory does not show. */
  ghost predicate Invisible(w: World, w': World) {
    Inv(w') && Flatten(w') == Flatten(w)
  }

  /** One address space comes through a change coherent and with its memory as it was. */
  ghost predicate Same(m: Machine, m': Machine, id: nat, sp: Space, sp': Space) {
    Coherent(m', id, sp') && sp'.elf == sp.elf && FlatPages(m', id, sp') == FlatPages(m, id, sp)
  }

  /** Every owner the tables name is a live address space. */
  ghost predicate OwnersLive(m: Machine, ids: set<nat>) {
    && (forall f :: 0 <= f < |m.cm| && m.cm[f].owner.As? ==> m.cm[f].owner.id in ids)
    && (forall j :: 0 <= j < |m.slots| && m.slots[j].Held? ==> m.slots[j].id in ids)
  }

  lemma SameMap<K, V>(a: map<K, V>, b: map<K, V>)
    requires forall q :: q in a <==> q in b
    requires forall q :: q in a ==> a[q] == b[q]
    ensures a == b
  {
    assert a.Keys == b.Keys;
  }

  /** A change that touches one live address space shows in that space alone. */
  lemma FlattenUpdate(w: World, w': World, r: nat)
    requires r in Ids(w) && Ids(w') == Ids(w) && w'.running == w.running
    requires forall id :: id in Ids(w) && id != r ==> FlatSpaceOf(w'.m, id, SpaceOf(w', id)) == FlatSpaceOf(w.m, id, SpaceOf(w, id))
    ensures r in Flatten(w).spaces
    ensures Flatten(w') == Flatten(w).(spaces := Flatten(w).spaces[r := FlatSpaceOf(w'.m, r, SpaceOf(w', r))])
  {
    SameMap(FlatSpaces(w'), FlatSpaces(w)[r := FlatSpaceOf(w'.m, r, SpaceOf(w', r))]);
  }

  lemma FlattenSame(w: World, w': World)
    requires Ids(w') == Ids(w)
    requires forall id :: id in Ids(w) ==> FlatSpaceOf(w'.m, id, SpaceOf(w', id)) == FlatSpaceOf(w.m, id, SpaceOf(w, id))
    ensures Flatten(w') == Flatten(w).(running := w'.running)
  {
    SameMap(FlatSpaces(w'), FlatSpaces(w));
  }

  lemma FlattenExtend(w: World, w': World, id: nat)
    requires Ids(w') == Ids(w) + {id} && id !in Ids(w)
    requires forall i :: i in Ids(w) ==> FlatSpaceOf(w'.m, i, SpaceOf(w', i)) == FlatSpaceOf(w.m, i, SpaceOf(w, i))
    ensures Flatten(w') == Flat(w'.running, Flatten(w).spaces[id := FlatSpaceOf(w'.m, id, SpaceOf(w', id))])
  {
    SameMap(FlatSpaces(w'), FlatSpaces(w)[id := FlatSpaceOf(w'.m, id, SpaceOf(w', id))]);
  }

  lemma FlattenShrink(w: World, w': World, id: nat)
    requires Ids(w') == Ids(w) - {id}
    requires forall i :: i in Ids(w') ==> FlatSpaceOf(w'.m, i, SpaceOf(w', i)) == FlatSpaceOf(w.m, i, SpaceOf(w, i))
    ensures Flatten(w') == Flat(w'.running, Flatten(w).spaces - {id})
  {
    SameMap(FlatSpaces(w'), FlatSpaces(w) - {id});
  }

  lemma InvisibleIntro(w: World, m': Machine)
    requires Inv(w) && Tables(m') && Blocks(m'.cm) && Owed(m') == (0, 0, 0, 0, 0) && OwnersLive(m', Ids(w))
    requires w.running != Nothing ==> Sound(m'.tlb.slots, m'.sp, -1)
    requires forall id :: id in Ids(w) ==> Same(w.m, m', id, SpaceOf(w, id), SpaceOf(w.(m := m'), id))
    ensures Invisible(w, w.(m := m'))
  {
    FlattenSame(w, w.(m := m'));
  }

  lemma UndisturbedSame(m: Machine, m': Machine, id: nat, sp: Space)
    requires Undisturbed(m, m', id) && Coherent(m, id, sp) && |m.ram| == |m.cm| && |m.blocks| == |m.slots|
    ensures Same(m, m', id, sp, sp)
  {
    UndisturbedCoherent(m, m', id, sp);
    FlatPagesEqual(m, m', id, sp, sp);
  }

  lemma SameTablesUndisturbed(m: Machine, m': Machine, id: nat)
    requires SameTables(m, m')
    ensures Undisturbed(m, m', id)
  {
  }

  /** A change of TLB and counters alone. */
  lemma SameMemory(w: World, m': Machine)
    requires Inv(w) && SameTables(w.m, m') && TlbShape(m'.tlb) && Owed(m') == (0, 0, 0, 0, 0)
    requires w.running != Nothing ==> Sound(m'.tlb.slots, w.m.sp, -1)
    ensures Invisible(w, w.(m := m'))
  {
    forall id | id in Ids(w) ensures Same(w.m, m', id, SpaceOf(w, id), SpaceOf(w.(m := m'), id)) {
      SameTablesUndisturbed(w.m, m', id);
      UndisturbedSame(w.m, m', id, SpaceOf(w, id));
    }
    InvisibleIntro(w, m');
  }

  lemma NetBlocks(m: Machine, id: nat, page: nat)
    requires Loadable(m, id, page) && Blocks(m.cm)
    ensures Blocks(Net(m, id, page).cm)
  {
    TargetFrame(m, id, page);
    var f := Target(m, id);
    assert EntryOk(m.cm[f], m.clock);
    UserFrameKeepsBlocks(m.cm, f, Net(m, id, page).cm[f]);
    assert Net(m, id, page).cm == m.cm[f := Net(m, id, page).cm[f]];
  }

  lemma OwnSame(m: Machine, id: nat, page: nat)
    requires Loadable(m, id, page)
    ensures Same(m, Net(m, id, page), id, m.sp, Net(m, id, page).sp)
  {
    var n := Net(m, id, page);
    NetCoherent(m, id, page);
    NetPages(m, id, page);
    forall k | 0 <= k < |m.sp.pt| ensures Contents(n, id, n.sp, m.sp.pt[k].page) == Contents(m, id, m.sp, m.sp.pt[k].page) {
      SearchAgrees(m.sp, m.sp.pt[k].page);
      NetContents(m, id, page, m.sp.pt[k].page);
    }
    FlatPagesEqual(m, n, id, m.sp, n.sp);
  }

  lemma NetOwners(m: Machine, id: nat, page: nat, ids: set<nat>)
    requires Loadable(m, id, page) && OwnersLive(m, ids) && id in ids
    ensures OwnersLive(Net(m, id, page), ids)
  {
    TargetFrame(m, id, page);
  }

  /** A page-in changes no page of any address space. */
  lemma LoadedMemory(w: World, page: nat, m': Machine)
    requires Inv(w) && w.running != Nothing && Loadable(w.m, w.running.id, page)
    requires Loaded(w.m, w.running.id, page, m') && Owed(m') == Owed(w.m)
    ensures Invisible(w, w.(m := m'))
  {
    var r := w.running.id;
    var n := Net(w.m, r, page);
    NetTables(w.m, r, page);
    NetBlocks(w.m, r, page);
    NetOwners(w.m, r, page, Ids(w));
    forall id | id in Ids(w) ensures Same(w.m, m', id, SpaceOf(w, id), SpaceOf(w.(m := m'), id)) {
      if id == r {
        OwnSame(w.m, r, page);
        SameTablesUndisturbed(n, m', r);
        UndisturbedSame(n, m', r, n.sp);
      } else {
        NetUndisturbed(w.m, r, page, id);
        SameTablesUndisturbed(n, m', id);
        UndisturbedSame(w.m, n, id, SpaceOf(w, id));
        UndisturbedSame(n, m', id, SpaceOf(w, id));
      }
    }
    InvisibleIntro(w, m');
  }

  // ---- refinement ----

  ghost predicate OutOfRoom(r: Result) {
    r == Stopped(Panic(NoVictim)) || r == Stopped(Panic(SwapFull))
  }

  /** One step of the machine is one step of flat memory, unless memory and swap run out. */
  ghost predicate Refines(w: World, w': World, r: Result, f': Flat, fr: Result) {
    OutOfRoom(r) || (r == fr && Inv(w') && Flatten(w') == f')
  }
}
