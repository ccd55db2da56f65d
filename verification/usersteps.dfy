/**
 * User instructions on the paged machine and on flat memory (kern/vm/vm.c):
 * what an access may end in, and that loads and stores see the same bytes.
 */
module UserSteps {
  import opened Layout
  import opened Coremap
  import opened SwapSpace
  import opened Tlb
  import opened AddressSpace
  import opened Demand
  import opened Soundness
  import opened Paging
  import opened Transparency
  import opened Loading
  import opened Kernel

  // ---- user instructions ----

  /** What a sound TLB answers for a page it maps. */
  lemma TranslateMapped(m: Machine, page: nat, write: bool)
    requires Sound(m.tlb.slots, m.sp, -1) && Probe(m.tlb.slots, page) < |m.tlb.slots|
    ensures var a := Translate(m.tlb.slots, page, write);
      && FirstEntry(m.sp.pt, page) < |m.sp.pt| && InMemory(m.sp, page)
      && (write && !Writable(m.sp, page) ==> a == Denied)
      && (write ==> Writable(m.sp, page) || a == Denied)
      && (!write || Writable(m.sp, page) ==> a == Hit(FrameOf(m, page)))
  {
    assert MappingOk(m.tlb.slots[Probe(m.tlb.slots, page)], m.sp, -1);
  }

  /** What a user access may do to the machine. */
  ghost predicate AccessOk(w: World, page: nat, write: bool, m1: Machine, o: Outcome) {
    && (o == Panic(NoVictim) || o == Panic(SwapFull) || (Invisible(w, w.(m := m1)) && m1.sp.segs == w.m.sp.segs))
    && (o == Ok ==> InMemory(m1.sp, page) && Translate(m1.tlb.slots, page, write) == Hit(FrameOf(m1, page)))
    && AnswerOk(w.m.sp, page, write, o)
  }

  /** How an access may end, by the segments alone. */
  ghost predicate AnswerOk(sp: Space, page: nat, write: bool, o: Outcome) {
    && (o == Ok ==> Covered(sp, page) && (write ==> Writable(sp, page)))
    && (o == EFault ==> !Covered(sp, page))
    && (o == Panic(ReadOnly) ==> Covered(sp, page) && write && !Writable(sp, page))
    && (o == Ok || o == EFault || (o.Panic? && o.why != SlotMissing))
  }

  /** After a fault that succeeds, the retried access is answered by the TLB. */
  lemma RetryOk(w: World, page: nat, write: bool, m1: Machine)
    requires Inv(w) && w.running != Nothing && Invisible(w, w.(m := m1)) && m1.sp.segs == w.m.sp.segs
    requires Covered(w.m.sp, page) && Probe(m1.tlb.slots, page) < |m1.tlb.slots|
    ensures var a := Translate(m1.tlb.slots, page, write);
      && (a.Hit? ==> AccessOk(w, page, write, m1, Ok))
      && (a == Denied ==> AccessOk(w, page, write, m1, Panic(ReadOnly)))
      && a != Miss
  {
    TranslateMapped(m1, page, write);
    assert Writable(m1.sp, page) == Writable(w.m.sp, page);
  }

  /** The fault went well and is invisible, with the page mapped. */
  ghost predicate Served(w: World, page: nat, m1: Machine) {
    Probe(m1.tlb.slots, page) < |m1.tlb.slots| && Invisible(w, w.(m := m1)) && m1.sp.segs == w.m.sp.segs
  }

  lemma ServedReload(w: World, page: nat, s: Schedule, depth: nat)
    requires Inv(w) && w.running != Nothing && Settled(w.m, w.running.id) && page % PAGE_SIZE == 0
    requires Covered(w.m.sp, page) && InMemory(w.m.sp, page)
    ensures Fault(w.m, w.running.id, page, s, depth).1 == Ok && Served(w, page, Fault(w.m, w.running.id, page, s, depth).0)
  {
    FaultReload(w.m, w.running.id, page, s, depth);
    SameMemory(w, Fault(w.m, w.running.id, page, s, depth).0);
  }

  lemma ServedLoad(w: World, page: nat, s: Schedule, depth: nat)
    requires Inv(w) && w.running != Nothing && Loadable(w.m, w.running.id, page) && depth > 0
    ensures Fault(w.m, w.running.id, page, s, depth).1 == Ok && Served(w, page, Fault(w.m, w.running.id, page, s, depth).0)
  {
    FaultLoad(w.m, w.running.id, page, s, depth);
    LoadedMemory(w, page, Fault(w.m, w.running.id, page, s, depth).0);
  }

  lemma NotServed(w: World, page: nat, s: Schedule, depth: nat)
    requires Inv(w) && w.running != Nothing && Settled(w.m, w.running.id) && page % PAGE_SIZE == 0 && !Covered(w.m.sp, page)
    ensures var (m1, o) := Fault(w.m, w.running.id, page, s, depth);
      o == EFault && Invisible(w, w.(m := m1)) && m1.sp.segs == w.m.sp.segs
  {
    FaultUncovered(w.m, w.running.id, page, s, depth);
    SameMemory(w, Fault(w.m, w.running.id, page, s, depth).0);
  }

  lemma RunningSettled(w: World)
    requires Inv(w) && w.running != Nothing
    ensures Settled(w.m, w.running.id)
  {
    assert w.running.id in Ids(w) && SpaceOf(w, w.running.id) == w.m.sp;
  }

  lemma FaultOk(w: World, page: nat, s: Schedule, depth: nat)
    requires Inv(w) && w.running != Nothing && page % PAGE_SIZE == 0 && depth > 0
    ensures var (m1, o) := Fault(w.m, w.running.id, page, s, depth);
      && (o == Ok ==> Covered(w.m.sp, page) && Served(w, page, m1))
      && (o == EFault ==> !Covered(w.m.sp, page) && Invisible(w, w.(m := m1)) && m1.sp.segs == w.m.sp.segs)
      && (o == Ok || o == EFault || o == Panic(NoVictim) || o == Panic(SwapFull))
  {
    RunningSettled(w);
    if !Covered(w.m.sp, page) {
      NotServed(w, page, s, depth);
    } else if InMemory(w.m.sp, page) {
      ServedReload(w, page, s, depth);
    } else if CanLoad(w.m, w.running.id) {
      LoadableIntro(w.m, w.running.id, page);
      ServedLoad(w, page, s, depth);
    } else {
      FaultNoRoom(w.m, w.running.id, page, s, depth);
    }
  }

  lemma AccessKeeps(w: World, page: nat, write: bool, s: Schedule, depth: nat)
    requires Inv(w) && w.running != Nothing && page % PAGE_SIZE == 0 && depth > 0
    ensures var (m1, o) := Access(w.m, w.running.id, page, write, s, depth); AccessOk(w, page, write, m1, o)
  {
    if Translate(w.m.tlb.slots, page, write) == Miss {
      FaultOk(w, page, s, depth);
      var (m1, o) := Fault(w.m, w.running.id, page, s, depth);
      if o == Ok {
        RetryOk(w, page, write, m1);
      }
    } else {
      assert InMemory(w.m.sp, page) by { TranslateMapped(w.m, page, write); }
      assert Coherent(w.m, w.running.id, w.m.sp) by { assert w.running.id in Ids(w); }
      SearchAgrees(w.m.sp, page);
      RetryOk(w, page, write, w.m);
    }
  }

  /** The frame of a page in memory is in range and holds its contents. */
  lemma FrameContents(w: World, page: nat)
    requires Inv(w) && w.running != Nothing && page % PAGE_SIZE == 0 && InMemory(w.m.sp, page)
    ensures var f := FrameIndex(w.m.base, FrameOf(w.m, page));
      && 0 <= f < |w.m.ram| && w.m.ram[f] == Contents(w.m, w.running.id, w.m.sp, page)
      && w.m.cm[f].owner == As(w.running.id) && w.m.cm[f].page == page
  {
    var k := FirstEntry(w.m.sp.pt, page);
    assert Coherent(w.m, w.running.id, w.m.sp) by { assert w.running.id in Ids(w); }
    assert Backed(w.m, w.running.id, w.m.sp.pt[k]);
    SearchAgrees(w.m.sp, page);
  }

  /** A page is in the flat memory of the running space exactly when a segment covers it. */
  lemma FlatLookup(w: World, page: nat)
    requires Inv(w) && w.running != Nothing && page % PAGE_SIZE == 0
    ensures w.running.id in Flatten(w).spaces
    ensures var pages := Flatten(w).spaces[w.running.id].pages;
      && (page in pages <==> Covered(w.m.sp, page))
      && (page in pages ==> pages[page] == FlatPage(Contents(w.m, w.running.id, w.m.sp, page), Writable(w.m.sp, page)))
  {
    assert w.running.id in Ids(w);
    assert Coherent(w.m, w.running.id, SpaceOf(w, w.running.id));
    SearchAgrees(w.m.sp, page);
    if Covered(w.m.sp, page) {
      assert w.m.sp.pt[FirstEntry(w.m.sp.pt, page)].page in PageSet(w.m.sp);
    }
    if page in PageSet(w.m.sp) {
      var k :| 0 <= k < |w.m.sp.pt| && w.m.sp.pt[k].page == page;
    }
  }

  // ---- stores ----

  /** The machine after a byte is stored in frame `f`. */
  function Poke(m: Machine, f: nat, off: nat, b: Byte): Machine
    requires f < |m.ram| && off < PAGE_SIZE
  {
    m.(ram := m.ram[f := m.ram[f][off := b]])
  }

  lemma PokeCoherent(m: Machine, f: nat, off: nat, b: Byte, id: nat, sp: Space)
    requires Coherent(m, id, sp) && f < |m.ram| && off < PAGE_SIZE
    ensures Coherent(Poke(m, f, off, b), id, sp)
  {
    var m' := Poke(m, f, off, b);
    forall k | 0 <= k < |sp.pt| && sp.pt[k].inMem ensures Backed(m', id, sp.pt[k]) {
      assert Backed(m, id, sp.pt[k]);
    }
  }

  /** A store changes the page of the frame it goes to and no other page of its address space. */
  lemma PokeContents(m: Machine, f: nat, off: nat, b: Byte, id: nat, sp: Space, q: nat)
    requires Coherent(m, id, sp) && f < |m.ram| && |m.ram| == |m.cm| && off < PAGE_SIZE
    requires m.cm[f].owner == As(id) && Covered(sp, q) && q % PAGE_SIZE == 0
    ensures Contents(Poke(m, f, off, b), id, sp, q) == if q == m.cm[f].page then Contents(m, id, sp, q)[off := b] else Contents(m, id, sp, q)
  {
    SearchAgrees(sp, q);
    var k := FirstEntry(sp.pt, q);
    if sp.pt[k].inMem {
      assert Backed(m, id, sp.pt[k]);
    }
  }

  lemma FlatPagesChange(m: Machine, m': Machine, id: nat, sp: Space, page: nat, data: Page)
    requires page in PageSet(sp)
    requires forall q :: q in PageSet(sp) ==> Contents(m', id, sp, q) == if q == page then data else Contents(m, id, sp, q)
    ensures FlatPages(m', id, sp) == FlatPages(m, id, sp)[page := FlatPage(data, Writable(sp, page))]
  {
  }

  lemma PokeFlat(m: Machine, f: nat, off: nat, b: Byte, id: nat, sp: Space)
    requires Coherent(m, id, sp) && f < |m.ram| && |m.ram| == |m.cm| && off < PAGE_SIZE && m.cm[f].owner == As(id)
    ensures var page := m.cm[f].page;
      && page in PageSet(sp)
      && FlatPages(Poke(m, f, off, b), id, sp) ==
        FlatPages(m, id, sp)[page := FlatPage(Contents(m, id, sp, page)[off := b], Writable(sp, page))]
  {
    var page := m.cm[f].page;
    var m' := Poke(m, f, off, b);
    assert sp.pt[FirstEntry(sp.pt, page)].page in PageSet(sp);
    forall q | q in PageSet(sp)
      ensures Contents(m', id, sp, q) == if q == page then Contents(m, id, sp, page)[off := b] else Contents(m, id, sp, q)
    {
      var k :| 0 <= k < |sp.pt| && sp.pt[k].page == q;
      SearchAgrees(sp, q);
      PokeContents(m, f, off, b, id, sp, q);
    }
    FlatPagesChange(m, m', id, sp, page, Contents(m, id, sp, page)[off := b]);
  }

  lemma PokeUndisturbed(m: Machine, f: nat, off: nat, b: Byte, other: nat)
    requires f < |m.ram| && |m.ram| == |m.cm| && off < PAGE_SIZE && m.cm[f].owner != As(other)
    ensures Undisturbed(m, Poke(m, f, off, b), other)
  {
  }

  function FlatStore(f: Flat, id: nat, page: nat, off: nat, b: Byte): Flat
    requires id in f.spaces && page in f.spaces[id].pages && off < PAGE_SIZE
  {
    var sp := f.spaces[id];
    f.(spaces := f.spaces[id := sp.(pages := sp.pages[page := FlatPage(sp.pages[page].data[off := b], sp.pages[page].writable)])])
  }

  lemma PokeInv(w: World, f: nat, off: nat, b: Byte)
    requires Inv(w) && f < |w.m.ram| && off < PAGE_SIZE
    ensures Inv(w.(m := Poke(w.m, f, off, b)))
  {
    var w' := w.(m := Poke(w.m, f, off, b));
    forall id | id in Ids(w') ensures Coherent(w'.m, id, SpaceOf(w', id)) {
      PokeCoherent(w.m, f, off, b, id, SpaceOf(w, id));
    }
  }

  /** A store to a page in memory is the store of flat memory. */
  lemma PokeFlatten(w: World, f: nat, off: nat, b: Byte)
    requires Inv(w) && w.running != Nothing && off < PAGE_SIZE
    requires f < |w.m.ram| && w.m.cm[f].owner == As(w.running.id)
    ensures w.running.id in Flatten(w).spaces && w.m.cm[f].page in Flatten(w).spaces[w.running.id].pages
    ensures Flatten(w.(m := Poke(w.m, f, off, b))) == FlatStore(Flatten(w), w.running.id, w.m.cm[f].page, off, b)
  {
    var r := w.running.id;
    var m' := Poke(w.m, f, off, b);
    var w' := w.(m := m');
    assert r in Ids(w) && SpaceOf(w, r) == w.m.sp;
    PokeFlat(w.m, f, off, b, r, w.m.sp);
    forall id | id in Ids(w) && id != r ensures FlatSpaceOf(m', id, SpaceOf(w', id)) == FlatSpaceOf(w.m, id, SpaceOf(w, id)) {
      PokeUndisturbed(w.m, f, off, b, id);
      UndisturbedSame(w.m, m', id, SpaceOf(w, id));
    }
    FlattenUpdate(w, w', r);
  }

  /** `UserStep` by the outcome of its access. */
  lemma UserStepCases(w: World, op: Op, depth: nat)
    requires w.running != Nothing && (op.Load? || op.Store?)
    ensures var page := PageBase(op.va);
      var (m1, o) := Access(w.m, w.running.id, page, op.Store?, op.s, depth);
      var f := HitFrame(m1, page, op.Store?);
      && (o != Ok ==> UserStep(w, op, depth) == (w.(m := m1), FailResult(o)))
      && (o == Ok && 0 <= f < |m1.ram| && op.Load? ==> UserStep(w, op, depth) == (w.(m := m1), Value(m1.ram[f][op.va % PAGE_SIZE])))
      && (o == Ok && 0 <= f < |m1.ram| && op.Store? ==> UserStep(w, op, depth) == (w.(m := Poke(m1, f, op.va % PAGE_SIZE, op.b)), Done))
  {
  }

  /** What flat memory answers a running program, by the page. */
  lemma FlatUserCases(f: Flat, op: Op)
    requires (op.Load? || op.Store?) && f.running != Nothing && f.running.id in f.spaces
    ensures var page := PageBase(op.va);
      var pages := f.spaces[f.running.id].pages;
      FlatUser(f, op) ==
        if page !in pages then (f, Killed)
        else if op.Load? then (f, Value(pages[page].data[op.va % PAGE_SIZE]))
        else if !pages[page].writable then (f, Stopped(Panic(ReadOnly)))
        else (FlatStore(f, f.running.id, page, op.va % PAGE_SIZE, op.b), Done)
  {
  }

  /** What flat memory answers, given what the machine's access found. */
  lemma FlatAnswer(w: World, op: Op, o: Outcome)
    requires Inv(w) && w.running != Nothing && (op.Load? || op.Store?)
    requires AnswerOk(w.m.sp, PageBase(op.va), op.Store?, o)
    ensures o == EFault ==> FlatUser(Flatten(w), op) == (Flatten(w), Killed)
    ensures o == Panic(ReadOnly) ==> FlatUser(Flatten(w), op) == (Flatten(w), Stopped(Panic(ReadOnly)))
    ensures o == Ok ==>
      var page := PageBase(op.va);
      var id := w.running.id;
      && id in Flatten(w).spaces && page in Flatten(w).spaces[id].pages
      && FlatUser(Flatten(w), op) ==
        if op.Load? then (Flatten(w), Value(Flatten(w).spaces[id].pages[page].data[op.va % PAGE_SIZE]))
        else (FlatStore(Flatten(w), id, page, op.va % PAGE_SIZE, op.b), Done)
  {
    FlatLookup(w, PageBase(op.va));
    FlatUserCases(Flatten(w), op);
  }

  /** The frame an access that succeeds goes to. */
  lemma HitIsFrame(w: World, page: nat, write: bool, m1: Machine)
    requires Inv(w) && w.running != Nothing && page % PAGE_SIZE == 0 && AccessOk(w, page, write, m1, Ok)
    ensures var f := HitFrame(m1, page, write);
      && 0 <= f < |m1.ram| && f < |m1.cm| && m1.cm[f].owner == As(w.running.id) && m1.cm[f].page == page
      && w.running.id in Flatten(w).spaces && page in Flatten(w).spaces[w.running.id].pages
      && Flatten(w).spaces[w.running.id].pages[page].data == m1.ram[f]
  {
    FrameContents(w.(m := m1), page);
    FlatLookup(w.(m := m1), page);
  }

  /** The ways an access ends an instruction. */
  lemma FailKinds(w: World, page: nat, write: bool, m1: Machine, o: Outcome)
    requires AccessOk(w, page, write, m1, o) && o != Ok
    ensures OutOfRoom(FailResult(o)) || (Invisible(w, w.(m := m1)) && (o == EFault || o == Panic(ReadOnly)))
    ensures AnswerOk(w.m.sp, page, write, o)
  {
  }

  lemma InvisibleRefines(w: World, w': World, r: Result)
    requires OutOfRoom(r) || Invisible(w, w')
    ensures Refines(w, w', r, Flatten(w), r)
  {
  }

  /** An access that ends the instruction ends it on flat memory. */
  lemma UserFails(w: World, op: Op, m1: Machine, o: Outcome)
    requires Inv(w) && w.running != Nothing && (op.Load? || op.Store?) && o != Ok
    requires AccessOk(w, PageBase(op.va), op.Store?, m1, o)
    ensures Refines(w, w.(m := m1), FailResult(o), FlatUser(Flatten(w), op).0, FlatUser(Flatten(w), op).1)
  {
    FailKinds(w, PageBase(op.va), op.Store?, m1, o);
    if !OutOfRoom(FailResult(o)) {
      InvisibleRefines(w, w.(m := m1), FailResult(o));
      FlatAnswer(w, op, o);
    }
  }

  lemma UserLoads(w: World, op: Op, m1: Machine)
    requires Inv(w) && w.running != Nothing && op.Load?
    requires AccessOk(w, PageBase(op.va), false, m1, Ok)
    ensures var f := HitFrame(m1, PageBase(op.va), false);
      && 0 <= f < |m1.ram|
      && Refines(w, w.(m := m1), Value(m1.ram[f][op.va % PAGE_SIZE]), FlatUser(Flatten(w), op).0, FlatUser(Flatten(w), op).1)
  {
    FlatAnswer(w, op, Ok);
    HitIsFrame(w, PageBase(op.va), false, m1);
  }

  lemma UserStores(w: World, op: Op, m1: Machine)
    requires Inv(w) && w.running != Nothing && op.Store?
    requires AccessOk(w, PageBase(op.va), true, m1, Ok)
    ensures var f := HitFrame(m1, PageBase(op.va), true);
      && 0 <= f < |m1.ram|
      && Refines(w, w.(m := Poke(m1, f, op.va % PAGE_SIZE, op.b)), Done, FlatUser(Flatten(w), op).0, FlatUser(Flatten(w), op).1)
  {
    FlatAnswer(w, op, Ok);
    HitIsFrame(w, PageBase(op.va), true, m1);
    var f := HitFrame(m1, PageBase(op.va), true);
    PokeInv(w.(m := m1), f, op.va % PAGE_SIZE, op.b);
    PokeFlatten(w.(m := m1), f, op.va % PAGE_SIZE, op.b);
  }

  /** Every user instruction behaves as on flat memory. */
  lemma UserRefines(w: World, op: Op, depth: nat)
    requires Inv(w) && (op.Load? || op.Store?) && depth > 0
    ensures var (w', r) := UserStep(w, op, depth);
      var (f', fr) := FlatUser(Flatten(w), op);
      Refines(w, w', r, f', fr)
  {
    if w.running != Nothing {
      var page := PageBase(op.va);
      AccessKeeps(w, page, op.Store?, op.s, depth);
      var (m1, o) := Access(w.m, w.running.id, page, op.Store?, op.s, depth);
      UserStepCases(w, op, depth);
      if o != Ok {
        UserFails(w, op, m1, o);
      } else if op.Load? {
        UserLoads(w, op, m1);
      } else {
        UserStores(w, op, m1);
      }
    }
  }
}
