/** The kernel heap and demand paging on the same frames, over every interleaving of both (kern/vm/kmalloc.c, vm.c, coremap.c). */
module JointRuns {
  import opened Layout
  import opened Coremap
  import opened KHeap
  import opened HeapAllocation
  import opened HeapFreeing
  import H = KHeapRuns
  import K = Kernel
  import D = Demand
  import B = Spaces
  import Refinement
  import F = Fifo
  import R = Runs

  // ---- the frames both use ----

  /** The heap stands on the coremap of the paging kernel. */
  ghost predicate SharedFrames(w: K.World, h: Heap) {
    h.cm == w.m.cm && h.clock == w.m.clock && h.base == w.m.base
  }

  /** The paging kernel with the heap's coremap. */
  function Onto(w: K.World, h: Heap): K.World {
    w.(m := w.m.(cm := h.cm, clock := h.clock))
  }

  /** What the heap does with the frames is invisible to every program. */
  ghost predicate Moves(w: K.World, h: Heap, h': Heap) {
    SharedFrames(w, h) && h'.base == h.base && K.Invisible(w, Onto(w, h'))
  }

  lemma MovesTwice(w: K.World, h: Heap, h1: Heap, h2: Heap)
    requires Moves(w, h, h1) && Moves(Onto(w, h1), h1, h2)
    ensures Moves(w, h, h2)
  {
    assert Onto(Onto(w, h1), h2) == Onto(w, h2);
  }

  lemma MovesNone(w: K.World, h: Heap, h': Heap)
    requires K.Inv(w) && SharedFrames(w, h) && h'.cm == h.cm && h'.clock == h.clock && h'.base == h.base
    ensures Moves(w, h, h') && Onto(w, h') == w
  {
    assert Onto(w, h') == w;
  }

  /** `alloc_kpages` under the heap is the paging kernel's allocation of a block. */
  lemma AllocMoves(w: K.World, h: Heap, n: nat)
    requires K.Inv(w) && SharedFrames(w, h)
    ensures Moves(w, h, AllocKpages(h, n).0)
  {
    var op := K.KernelAlloc(n);
    Refinement.HeapInvisible(w, op, 1);
    Refinement.StepHeap(w, op, 1);
    assert K.Step(w, op, 1).0 == Onto(w, AllocKpages(h, n).0);
  }

  /** `free_kpages` is its release of one. */
  lemma FreeMoves(w: K.World, h: Heap, a: nat, n: nat)
    requires K.Inv(w) && SharedFrames(w, h) && HeadAt(h, a, n)
    ensures Moves(w, h, FreeKpages(h, a))
  {
    var op := K.KernelFree(PosOf(h, a));
    Refinement.HeapInvisible(w, op, 1);
    Refinement.StepHeap(w, op, 1);
    assert K.Step(w, op, 1).0 == Onto(w, FreeKpages(h, a));
  }

  lemma RefMoves(w: K.World, h: Heap)
    requires K.Inv(w) && SharedFrames(w, h)
    ensures Moves(w, h, AllocRef(h).0)
  {
    MovesNone(w, h, h);
    var s := FirstClear(h.inuse);
    if s < |h.inuse| && RootOf(s) < |h.roots| {
      var h1 := h.(inuse := h.inuse[s := true]);
      MovesNone(w, h, h1);
      if h.roots[RootOf(s)] == 0 {
        AllocMoves(w, h1, 1);
        MovesTwice(w, h, h1, AllocKpages(h1, 1).0);
      }
    }
  }

  /** A kernel block survives `allocpageref`. */
  lemma HeadAfterRef(h: Heap, a: nat)
    requires FramesOk(h) && HeadAt(h, a, 1) && a != 0
    ensures HeadAt(AllocRef(h).0, a, 1)
  {
    var s := FirstClear(h.inuse);
    if s < |h.inuse| && RootOf(s) < |h.roots| {
      AllocHeads(h.(inuse := h.inuse[s := true]), 1);
    }
  }

  lemma NewPageMoves(w: K.World, h: Heap, b: nat)
    requires K.Inv(w) && SharedFrames(w, h) && FramesOk(h) && b < NSIZES
    ensures Moves(w, h, NewPage(h, b).0)
  {
    var (h1, va) := AllocKpages(h, 1);
    AllocMoves(w, h, 1);
    AllocHeads(h, 1);
    if va != 0 {
      var (h2, ref) := AllocRef(h1);
      RefMoves(Onto(w, h1), h1);
      MovesTwice(w, h, h1, h2);
      if ref == NoRef {
        HeadAfterRef(h1, va);
        FreeMoves(Onto(w, h2), h2, va, 1);
        MovesTwice(w, h, h2, FreeKpages(h2, va));
      }
    }
  }

  lemma KmallocMoves(w: K.World, h: Heap, sz: nat)
    requires K.Inv(w) && SharedFrames(w, h) && FramesOk(h)
    ensures Moves(w, h, Kmalloc(h, sz).0)
  {
    MovesNone(w, h, h);
    if sz >= LARGEST {
      AllocMoves(w, h, (sz + PAGE_SIZE - 1) / PAGE_SIZE);
    } else if BlockType(sz) < NSIZES && FindFree(h.pages, BlockType(sz)) == |h.pages| {
      NewPageMoves(w, h, BlockType(sz));
    }
  }

  lemma KfreeMoves(w: K.World, h: Heap, live: Live, a: nat)
    requires K.Inv(w) && SharedFrames(w, h) && HeapInv(h, live) && a in live && Kfree(h, a).1 != Panic
    ensures Moves(w, h, Kfree(h, a).0)
  {
    assert IsLive(h, a, live[a]);
    KfreeInv(h, live, a);
    MovesNone(w, h, h);
    var i := FindPage(h.pages, a);
    if i == |h.pages| {
      FreeMoves(w, h, a, PagesFor(live[a]));
    } else {
      assert PageOk(h, h.pages[i]);
      DropMoves(w, h, i);
    }
  }

  /** A heap page going back is the release of its block. */
  lemma DropMoves(w: K.World, h: Heap, i: nat)
    requires K.Inv(w) && SharedFrames(w, h) && i < |h.pages| && h.pages[i].slot < |h.inuse| && HeadAt(h, h.pages[i].addr, 1)
    ensures Moves(w, h, FreeKpages(WithoutPage(h, i), h.pages[i].addr))
  {
    var h1 := WithoutPage(h, i);
    MovesNone(w, h, h1);
    assert HeadAt(h1, h.pages[i].addr, 1);
    FreeMoves(w, h1, h.pages[i].addr, 1);
    MovesTwice(w, h, h1, FreeKpages(h1, h.pages[i].addr));
  }

  // ---- joint runs ----

  /**
   * An allocation, a free of a live block, a store of the kernel to a byte
   * of a live block, or an operation of the paging kernel on its own frames.
   */
  datatype Op = Alloc(sz: nat) | Release(a: nat) | Write(a: nat, x: nat, b: Byte) | Paging(op: K.Op)

  datatype State = State(w: K.World, heap: H.State)

  ghost predicate BothInv(s: State) {
    K.Inv(s.w) && HeapInv(s.heap.h, s.heap.live) && SharedFrames(s.w, s.heap.h)
  }

  /** User accesses, switches, definitions, creation and destruction of address spaces. */
  predicate PagingOp(op: K.Op) {
    !op.KernelAlloc? && !op.KernelFree? && !op.KernelStore?
  }

  /** The address is in the live block. */
  predicate InBlock(live: Live, a: nat, x: nat) {
    a in live && a <= x < a + H.Extent(live[a])
  }

  function OffsetOf(h: Heap, x: nat): nat {
    (x - KSEG0 - h.base) % PAGE_SIZE
  }

  /** The byte the kernel has at an address. */
  function ByteAt(s: State, x: nat): Byte {
    var f := PosOf(s.heap.h, x);
    if 0 <= f < |s.w.m.ram| then s.w.m.ram[f][OffsetOf(s.heap.h, x)] else 0
  }

  /** The frame of an address with the byte there rewritten. */
  function Stored(s: State, x: nat, b: Byte): Page
    requires 0 <= PosOf(s.heap.h, x) < |s.w.m.ram|
  {
    s.w.m.ram[PosOf(s.heap.h, x)][OffsetOf(s.heap.h, x) := b]
  }

  ghost predicate Enabled(s: State, op: Op) {
    match op
    case Alloc(_) => true
    case Release(a) => a in s.heap.live
    case Write(a, x, _) => InBlock(s.heap.live, a, x)
    case Paging(p) => PagingOp(p) && K.Enabled(s.w, p)
  }

  ghost function Next(s: State, op: Op, depth: nat): (State, K.Result)
    requires Enabled(s, op)
  {
    match op
    case Alloc(sz) => (HeapStep(s, H.Malloc(sz)), K.Done)
    case Release(a) => (HeapStep(s, H.Free(a)), K.Done)
    case Write(_, x, b) =>
      var f := PosOf(s.heap.h, x);
      if !(0 <= f < |s.w.m.ram|) then (s, K.Stopped(D.Crash))
      else (s.(w := s.w.(m := K.WithPage(s.w.m, f, Stored(s, x, b)))), K.Done)
    case Paging(p) =>
      var (w', r) := K.Step(s.w, p, depth);
      (State(w', s.heap.(h := s.heap.h.(cm := w'.m.cm, clock := w'.m.clock))), r)
  }

  ghost function HeapStep(s: State, op: H.Op): State
    requires H.Enabled(s.heap, op)
  {
    var heap' := H.Next(s.heap, op);
    State(Onto(s.w, heap'.h), heap')
  }

  // ---- paging under the heap ----

  lemma FixedKept(w: K.World, op: K.Op, depth: nat)
    requires K.Inv(w) && K.Enabled(w, op) && depth > 0 && PagingOp(op) && !K.OutOfRoom(K.Step(w, op, depth).1)
    ensures var w' := K.Step(w, op, depth).0;
      forall f :: 0 <= f < |w.m.cm| && w.m.cm[f].state == Fixed ==>
        && f < |w'.m.cm| && w'.m.cm[f] == w.m.cm[f]
        && f < |w'.m.ram| && f < |w.m.ram| && w'.m.ram[f] == w.m.ram[f]
  {
    var w' := K.Step(w, op, depth).0;
    assert |w.m.ram| == |w.m.cm|;
    forall f | 0 <= f < |w.m.cm| && w.m.cm[f].state == Fixed
      ensures f < |w'.m.cm| && w'.m.cm[f] == w.m.cm[f] && f < |w'.m.ram| && w'.m.ram[f] == w.m.ram[f]
    {
      F.KernelFramesKept(w, op, depth, f);
    }
  }

  /** The coremap of the paging kernel is fit for the heap after every step. */
  lemma PagingFrames(w: K.World, op: K.Op, depth: nat)
    requires K.Inv(w) && K.Enabled(w, op) && depth > 0 && !K.OutOfRoom(K.Step(w, op, depth).1)
    ensures var m' := K.Step(w, op, depth).0.m;
      && Blocks(m'.cm) && FreeClean(m'.cm)
      && (forall i :: 0 <= i < |m'.cm| && m'.cm[i].state == Fixed ==> m'.cm[i].owner == Nobody)
  {
    Refinement.StepRefines(w, op, depth);
    B.TablesFreeClean(K.Step(w, op, depth).0.m);
  }

  lemma RecordsKept(h: Heap, h': Heap)
    requires h' == h.(cm := h'.cm, clock := h'.clock) && |h'.cm| == |h.cm|
    requires forall f :: 0 <= f < |h.cm| && h.cm[f].state == Fixed ==> h'.cm[f] == h.cm[f]
    ensures HeadsKept(h, h', 0)
  {
  }

  lemma ShapeKept(w: K.World, op: K.Op, depth: nat)
    requires K.Inv(w) && K.Enabled(w, op) && depth > 0 && PagingOp(op) && !K.OutOfRoom(K.Step(w, op, depth).1)
    ensures var m' := K.Step(w, op, depth).0.m; m'.base == w.m.base && |m'.cm| == |w.m.cm|
  {
    if (op.Load? || op.Store?) && w.running != K.Nothing {
      R.UserStepMoves(w, op, depth);
    }
  }

  /**
   * Whatever demand paging does, it is a change elsewhere for the heap: the
   * kernel blocks of heap pages and large blocks keep their records, and
   * every byte of theirs stays as it is.
   */
  lemma PagingIsElsewhere(w: K.World, s: H.State, op: K.Op, depth: nat)
    requires K.Inv(w) && K.Enabled(w, op) && depth > 0 && PagingOp(op)
    requires !K.OutOfRoom(K.Step(w, op, depth).1)
    requires SharedFrames(w, s.h) && HeapInv(s.h, s.live)
    ensures var w' := K.Step(w, op, depth).0;
      && H.Enabled(s, H.Elsewhere(w'.m.cm, w'.m.clock))
      && SharedFrames(w', H.Next(s, H.Elsewhere(w'.m.cm, w'.m.clock)).h)
      && (forall f :: 0 <= f < |w.m.cm| && w.m.cm[f].state == Fixed ==>
            f < |w'.m.ram| && f < |w.m.ram| && w'.m.ram[f] == w.m.ram[f])
  {
    var w' := K.Step(w, op, depth).0;
    ShapeKept(w, op, depth);
    FixedKept(w, op, depth);
    PagingFrames(w, op, depth);
    RecordsKept(s.h, s.h.(cm := w'.m.cm, clock := w'.m.clock));
  }

  // ---- one joint step ----

  /** A step other than of paging is invisible to programs; one of paging is its step of flat memory. */
  ghost predicate Follows(s: State, op: Op, s': State, r: K.Result) {
    match op
    case Paging(p) => var (f', fr) := K.FlatStep(K.Flatten(s.w), p); r == fr && K.Flatten(s'.w) == f'
    case _ => K.Flatten(s'.w) == K.Flatten(s.w)
  }

  lemma HeapStepOk(s: State, op: H.Op)
    requires BothInv(s) && H.Enabled(s.heap, op) && !op.Elsewhere?
    ensures BothInv(HeapStep(s, op)) && K.Flatten(HeapStep(s, op).w) == K.Flatten(s.w)
  {
    H.StepInv(s.heap, op);
    MovesNone(s.w, s.heap.h, s.heap.h);
    match op
    case Malloc(sz) => KmallocMoves(s.w, s.heap.h, sz);
    case Free(a) =>
      if Kfree(s.heap.h, a).1 != Panic {
        KfreeMoves(s.w, s.heap.h, s.heap.live, a);
      }
  }

  lemma PagingStepOk(s: State, p: K.Op, depth: nat)
    requires BothInv(s) && PagingOp(p) && K.Enabled(s.w, p) && depth > 0 && !K.OutOfRoom(K.Step(s.w, p, depth).1)
    ensures var (s', r) := Next(s, Paging(p), depth); BothInv(s') && Follows(s, Paging(p), s', r)
  {
    var w' := K.Step(s.w, p, depth).0;
    PagingIsElsewhere(s.w, s.heap, p, depth);
    H.StepInv(s.heap, H.Elsewhere(w'.m.cm, w'.m.clock));
    Refinement.StepRefines(s.w, p, depth);
  }

  lemma WriteStepOk(s: State, a: nat, x: nat, b: Byte, depth: nat)
    requires BothInv(s) && Enabled(s, Write(a, x, b))
    ensures 0 <= PosOf(s.heap.h, x) < |s.w.m.ram|
    ensures var (s', r) := Next(s, Write(a, x, b), depth); BothInv(s') && r == K.Done && Follows(s, Write(a, x, b), s', r)
  {
    H.LiveIsKernel(s.heap.h, s.heap.live, a, x);
    B.KernelStoreKeeps(s.w, PosOf(s.heap.h, x), Stored(s, x, b));
  }

  lemma StepOk(s: State, op: Op, depth: nat)
    requires BothInv(s) && Enabled(s, op) && depth > 0 && !K.OutOfRoom(Next(s, op, depth).1)
    ensures var (s', r) := Next(s, op, depth); BothInv(s') && Follows(s, op, s', r)
  {
    match op
    case Alloc(sz) => HeapStepOk(s, H.Malloc(sz));
    case Release(a) => HeapStepOk(s, H.Free(a));
    case Write(a, x, b) => WriteStepOk(s, a, x, b, depth);
    case Paging(p) => PagingStepOk(s, p, depth);
  }

  // ---- whole runs ----

  ghost predicate Feasible(s: State, ops: seq<Op>, depth: nat)
    decreases |ops|
  {
    ops == [] ||
    (Enabled(s, ops[0]) && !K.OutOfRoom(Next(s, ops[0], depth).1) && Feasible(Next(s, ops[0], depth).0, ops[1..], depth))
  }

  ghost function After(s: State, ops: seq<Op>, depth: nat): State
    requires Feasible(s, ops, depth)
    decreases |ops|
  {
    if ops == [] then s else After(Next(s, ops[0], depth).0, ops[1..], depth)
  }

  /** The paging operations of a run. */
  function PagingPart(ops: seq<Op>): (r: seq<K.Op>) {
    if ops == [] then []
    else (if ops[0].Paging? then [ops[0].op] else []) + PagingPart(ops[1..])
  }

  /** Flat memory over the paging operations, from the first operation on. */
  lemma FlatFollows(f: K.Flat, ops: seq<Op>)
    requires ops != []
    ensures R.FlatRun(f, PagingPart(ops)).0 ==
      R.FlatRun(if ops[0].Paging? then K.FlatStep(f, ops[0].op).0 else f, PagingPart(ops[1..])).0
  {
    if ops[0].Paging? {
      R.FlatRunStep(f, PagingPart(ops));
      assert PagingPart(ops)[1..] == PagingPart(ops[1..]);
    } else {
      assert PagingPart(ops) == PagingPart(ops[1..]);
    }
  }

  /**
   * Over every interleaving of allocations, frees of live blocks, stores to
   * them and paging, the tables of paging and the heap keep their invariants
   * on the frames they share, and programs see the paging operations alone.
   */
  lemma {:induction false} SharingKept(s: State, ops: seq<Op>, depth: nat)
    requires BothInv(s) && depth > 0 && Feasible(s, ops, depth)
    ensures BothInv(After(s, ops, depth))
    ensures K.Flatten(After(s, ops, depth).w) == R.FlatRun(K.Flatten(s.w), PagingPart(ops)).0
    decreases |ops|
  {
    if ops != [] {
      StepOk(s, ops[0], depth);
      SharingKept(Next(s, ops[0], depth).0, ops[1..], depth);
      FlatFollows(K.Flatten(s.w), ops);
    }
  }

  // ---- what a live block holds ----

  /** The operation neither frees the block nor stores at the address. */
  predicate Spares(op: Op, a: nat, x: nat) {
    op != Release(a) && (op.Write? ==> op.x != x)
  }

  lemma PlaceIsAddress(h: Heap, x: nat, y: nat)
    requires PosOf(h, x) == PosOf(h, y) >= 0 && OffsetOf(h, x) == OffsetOf(h, y)
    ensures x == y
  {
  }

  /** A page with one byte rewritten. */
  lemma OtherByte(p: Page, o: nat, b: Byte, k: nat)
    requires o < PAGE_SIZE && k < PAGE_SIZE && k != o
    ensures p[o := b][k] == p[k]
  {
  }

  lemma StoredApart(s: State, s': State, x: nat, b: Byte, y: nat)
    requires 0 <= PosOf(s.heap.h, x) < |s.w.m.ram| && x != y && s'.heap == s.heap
    requires s'.w.m.ram == s.w.m.ram[PosOf(s.heap.h, x) := Stored(s, x, b)]
    ensures ByteAt(s', y) == ByteAt(s, y)
  {
    if PosOf(s.heap.h, y) == PosOf(s.heap.h, x) {
      if OffsetOf(s.heap.h, y) == OffsetOf(s.heap.h, x) {
        PlaceIsAddress(s.heap.h, x, y);
      } else {
        OtherByte(s.w.m.ram[PosOf(s.heap.h, x)], OffsetOf(s.heap.h, x), b, OffsetOf(s.heap.h, y));
      }
    }
  }

  lemma WriteSpares(s: State, op: Op, depth: nat, a: nat, x: nat)
    requires BothInv(s) && op.Write? && Enabled(s, op) && InBlock(s.heap.live, a, x) && Spares(op, a, x)
    ensures var s' := Next(s, op, depth).0; InBlock(s'.heap.live, a, x) && ByteAt(s', x) == ByteAt(s, x)
  {
    WriteStepOk(s, op.a, op.x, op.b, depth);
    StoredApart(s, Next(s, op, depth).0, op.x, op.b, x);
  }

  /** A block stays live through every heap operation but its own release. */
  lemma HeapStepLive(s: State, op: H.Op, a: nat)
    requires BothInv(s) && H.Enabled(s.heap, op) && !op.Elsewhere? && op != H.Free(a) && a in s.heap.live
    ensures var live' := H.Next(s.heap, op).live; a in live' && live'[a] == s.heap.live[a]
  {
    if op.Malloc? {
      KmallocInv(s.heap.h, s.heap.live, op.sz);
    }
  }

  lemma HeapStepBase(s: State, op: H.Op)
    requires BothInv(s) && H.Enabled(s.heap, op) && !op.Elsewhere?
    ensures H.Next(s.heap, op).h.base == s.heap.h.base
  {
    MovesNone(s.w, s.heap.h, s.heap.h);
    match op
    case Malloc(sz) => KmallocMoves(s.w, s.heap.h, sz);
    case Free(b) =>
      if Kfree(s.heap.h, b).1 != Panic {
        KfreeMoves(s.w, s.heap.h, s.heap.live, b);
      }
  }

  lemma SameByte(s: State, s': State, x: nat)
    requires s'.heap.h.base == s.heap.h.base && |s'.w.m.ram| == |s.w.m.ram|
    requires var f := PosOf(s.heap.h, x); 0 <= f < |s.w.m.ram| ==> s'.w.m.ram[f] == s.w.m.ram[f]
    ensures ByteAt(s', x) == ByteAt(s, x)
  {
  }

  lemma HeapStepSpares(s: State, op: H.Op, a: nat, x: nat)
    requires BothInv(s) && H.Enabled(s.heap, op) && !op.Elsewhere? && op != H.Free(a) && InBlock(s.heap.live, a, x)
    ensures var s' := HeapStep(s, op); InBlock(s'.heap.live, a, x) && ByteAt(s', x) == ByteAt(s, x)
  {
    HeapStepLive(s, op, a);
    HeapStepBase(s, op);
    SameByte(s, HeapStep(s, op), x);
  }

  lemma PagingSpares(s: State, p: K.Op, depth: nat, a: nat, x: nat)
    requires BothInv(s) && PagingOp(p) && K.Enabled(s.w, p) && depth > 0 && !K.OutOfRoom(K.Step(s.w, p, depth).1)
    requires InBlock(s.heap.live, a, x)
    ensures var s' := Next(s, Paging(p), depth).0; InBlock(s'.heap.live, a, x) && ByteAt(s', x) == ByteAt(s, x)
  {
    H.LiveIsKernel(s.heap.h, s.heap.live, a, x);
    FixedKept(s.w, p, depth);
    PagingStepOk(s, p, depth);
    ShapeKept(s.w, p, depth);
    SameByte(s, Next(s, Paging(p), depth).0, x);
  }

  /** A step that neither frees a live block nor stores at the address leaves the block live and the byte as it was. */
  lemma StepSpares(s: State, op: Op, depth: nat, a: nat, x: nat)
    requires BothInv(s) && Enabled(s, op) && depth > 0 && !K.OutOfRoom(Next(s, op, depth).1)
    requires InBlock(s.heap.live, a, x) && Spares(op, a, x)
    ensures var s' := Next(s, op, depth).0; InBlock(s'.heap.live, a, x) && ByteAt(s', x) == ByteAt(s, x)
  {
    match op
    case Alloc(sz) => HeapStepSpares(s, H.Malloc(sz), a, x);
    case Release(b) => HeapStepSpares(s, H.Free(b), a, x);
    case Write(_, _, _) => WriteSpares(s, op, depth, a, x);
    case Paging(p) => PagingSpares(s, p, depth, a, x);
  }

  /** Over every run a live block that is not freed keeps each byte not stored to. */
  lemma {:induction false} BlockBytesKept(s: State, ops: seq<Op>, depth: nat, a: nat, x: nat)
    requires BothInv(s) && depth > 0 && Feasible(s, ops, depth) && InBlock(s.heap.live, a, x)
    requires forall i :: 0 <= i < |ops| ==> Spares(ops[i], a, x)
    ensures var s' := After(s, ops, depth); InBlock(s'.heap.live, a, x) && ByteAt(s', x) == ByteAt(s, x)
    decreases |ops|
  {
    if ops != [] {
      StepOk(s, ops[0], depth);
      StepSpares(s, ops[0], depth, a, x);
      BlockBytesKept(Next(s, ops[0], depth).0, ops[1..], depth, a, x);
    }
  }
}
