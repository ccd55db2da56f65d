/** How `allocpageref` loses records when it gets no page for them, and a run in which a later `kfree` fails for it (kern/vm/kmalloc.c). */
module RecordLeak {
  import opened Layout
  import opened Coremap
  import opened KHeap
  import opened HeapAllocation
  import opened HeapFreeing
  import opened JointRuns
  import H = KHeapRuns
  import K = Kernel
  import D = Demand
  import P = Paging
  import AS = AddressSpace
  import R = Runs
  import Balance
  import Tlb

  // ---- the search for free frames and clear slots ----

  lemma FrameIsLowest(cm: seq<CmEntry>, p: nat)
    requires p <= |cm| && (p < |cm| ==> cm[p].state == FrameState.Free)
    requires forall q :: 0 <= q < p ==> cm[q].state != FrameState.Free
    ensures LowestRun(cm, 1) == p
  {
    var r := LowestRun(cm, 1);
    assert r < |cm| ==> cm[r].state == FrameState.Free;
    assert p < |cm| ==> IsRun(cm, p, 1);
  }

  lemma SlotIsFirst(inuse: seq<bool>, k: nat)
    requires k < |inuse| && !inuse[k] && forall j :: 0 <= j < k ==> inuse[j]
    ensures FirstClear(inuse) == k
  {
    var r := FirstClear(inuse);
    assert r <= k;
  }

  /** The first `k` slots are marked and no other. */
  predicate MarkedTo(h: Heap, k: nat) {
    |h.inuse| == TOTAL_REFS && forall x :: 0 <= x < TOTAL_REFS ==> (h.inuse[x] <==> x < k)
  }

  /** The free frames are those from `p` on. */
  predicate FreeFrom(cm: seq<CmEntry>, p: nat) {
    forall x :: 0 <= x < |cm| ==> (cm[x].state == FrameState.Free <==> x >= p)
  }

  // ---- the leak ----

  /**
   * Root `q` is the first without a page of records, those before it are
   * full, `i` of its own slots are marked, one frame is free, and no page of
   * the class has a free block.
   */
  ghost predicate Starved(h: Heap, b: nat, q: nat, i: nat, p: nat) {
    && FramesOk(h) && MarkedTo(h, q * REFS_PER_PAGE + i) && |h.roots| == ROOTS && q < ROOTS && h.roots[q] == 0
    && p < |h.cm| && (forall x :: 0 <= x < |h.cm| ==> (h.cm[x].state == FrameState.Free <==> x == p))
    && b < NSIZES && FindFree(h.pages, b) == |h.pages|
  }

  /** The heap with one more slot marked and the clock moved on. */
  function Leaked(h: Heap, slot: nat): Heap
    requires slot < |h.inuse|
  {
    h.(inuse := h.inuse[slot := true], clock := h.clock + 1)
  }

  lemma RefLeaks(h: Heap, slot: nat)
    requires MarkedTo(h, slot) && slot < TOTAL_REFS && RootOf(slot) < |h.roots| && h.roots[RootOf(slot)] == 0
    requires FreeFrom(h.cm, |h.cm|)
    ensures AllocRef(h) == (h.(inuse := h.inuse[slot := true]), NoRef)
  {
    SlotIsFirst(h.inuse, slot);
    FrameIsLowest(h.cm, |h.cm|);
  }

  /** The allocation gets its page but no page of records, gives the page back, and leaves the slot marked. */
  lemma LeakOne(h: Heap, sz: nat, b: nat, q: nat, i: nat, p: nat)
    requires Starved(h, b, q, i, p) && i < REFS_PER_PAGE && sz < LARGEST && b == BlockType(sz)
    ensures q * REFS_PER_PAGE + i < TOTAL_REFS
    ensures Kmalloc(h, sz) == (Leaked(h, q * REFS_PER_PAGE + i), Null)
    ensures Starved(Leaked(h, q * REFS_PER_PAGE + i), b, q, i + 1, p)
  {
    var slot := q * REFS_PER_PAGE + i;
    FrameIsLowest(h.cm, p);
    var (h1, va) := AllocKpages(h, 1);
    PosOfVAddr(h, p);
    RefLeaks(h1, slot);
    ReleaseUndoesClaim(h.cm, h.base, h.clock, p, 1);
    assert FreeKpages(h1.(inuse := h.inuse[slot := true]), va).cm == h.cm;
  }

  // ---- runs put together ----

  /** One step of a run. */
  ghost predicate Steps(s: State, op: Op, s1: State, depth: nat) {
    Enabled(s, op) && Next(s, op, depth).0 == s1 && !K.OutOfRoom(Next(s, op, depth).1)
  }

  /** The operations lead from one state to the other. */
  ghost predicate Reaches(s: State, ops: seq<Op>, s2: State, depth: nat) {
    Feasible(s, ops, depth) && After(s, ops, depth) == s2
  }

  lemma Onward(s: State, op: Op, s1: State, rest: seq<Op>, s2: State, depth: nat)
    requires Steps(s, op, s1, depth) && Reaches(s1, rest, s2, depth)
    ensures Reaches(s, [op] + rest, s2, depth)
  {
    var ops := [op] + rest;
    assert ops[0] == op && ops[1..] == rest;
  }

  lemma FirstOf(s: State, ops: seq<Op>, s2: State, depth: nat) returns (s1: State)
    requires ops != [] && Reaches(s, ops, s2, depth)
    ensures Steps(s, ops[0], s1, depth) && Reaches(s1, ops[1..], s2, depth)
  {
    s1 := Next(s, ops[0], depth).0;
  }

  lemma Regroup<T>(a: seq<T>, b: seq<T>)
    ensures a == [] ==> a + b == b
    ensures a != [] ==> [a[0]] + (a[1..] + b) == a + b
  {
  }

  lemma OneMore<T>(x: T, n: nat)
    ensures [x] + seq(n, _ => x) == seq(n + 1, _ => x)
  {
  }

  lemma {:induction false} Append(s: State, ops: seq<Op>, s1: State, more: seq<Op>, s2: State, depth: nat)
    requires Reaches(s, ops, s1, depth) && Reaches(s1, more, s2, depth)
    ensures Reaches(s, ops + more, s2, depth)
    decreases |ops|
  {
    Regroup(ops, more);
    if ops != [] {
      var s' := FirstOf(s, ops, s1, depth);
      Append(s', ops[1..], s1, more, s2, depth);
      Onward(s, ops[0], s', ops[1..] + more, s2, depth);
    }
  }

  lemma AllocOnward(s: State, sz: nat, depth: nat) returns (s1: State)
    requires BothInv(s) && depth > 0
    ensures Steps(s, Alloc(sz), s1, depth) && BothInv(s1)
    ensures s1.heap == H.Next(s.heap, H.Malloc(sz)) && s1.w == Onto(s.w, s1.heap.h)
  {
    s1 := Next(s, Alloc(sz), depth).0;
    StepOk(s, Alloc(sz), depth);
  }

  // ---- the leak over runs ----

  /** Nothing but marked slots and the clock differs. */
  ghost predicate OnlyMarks(s: State, s': State) {
    && s'.heap == s.heap.(h := s.heap.h.(inuse := s'.heap.h.inuse, clock := s'.heap.h.clock))
    && s'.w == s.w.(m := s.w.m.(clock := s'.w.m.clock))
  }

  lemma LeakStep(s: State, sz: nat, q: nat, i: nat, p: nat, depth: nat) returns (s1: State)
    requires BothInv(s) && depth > 0 && sz < LARGEST && i < REFS_PER_PAGE && Starved(s.heap.h, BlockType(sz), q, i, p)
    ensures Steps(s, Alloc(sz), s1, depth) && BothInv(s1) && OnlyMarks(s, s1) && Starved(s1.heap.h, BlockType(sz), q, i + 1, p)
  {
    LeakOne(s.heap.h, sz, BlockType(sz), q, i, p);
    s1 := AllocOnward(s, sz, depth);
  }

  /**
   * While one frame is free, as many allocations as the first root without a
   * page has slots fail and mark every one of them: the root is then full
   * of records that no page has, on no page of records. Root `q` is any
   * root, with all before it full.
   */
  lemma {:induction false} RootLeaks(s: State, sz: nat, q: nat, i: nat, p: nat, depth: nat) returns (ops: seq<Op>, s': State)
    requires BothInv(s) && depth > 0 && sz < LARGEST && i <= REFS_PER_PAGE && Starved(s.heap.h, BlockType(sz), q, i, p)
    ensures ops == seq(REFS_PER_PAGE - i, _ => Alloc(sz)) && Reaches(s, ops, s', depth)
    ensures BothInv(s') && OnlyMarks(s, s') && Starved(s'.heap.h, BlockType(sz), q, REFS_PER_PAGE, p)
    decreases REFS_PER_PAGE - i
  {
    if i == REFS_PER_PAGE {
      ops, s' := [], s;
    } else {
      var s1 := LeakStep(s, sz, q, i, p, depth);
      var rest;
      rest, s' := RootLeaks(s1, sz, q, i + 1, p, depth);
      OneMore(Alloc(sz), REFS_PER_PAGE - i - 1);
      ops := [Alloc(sz)] + rest;
      Onward(s, Alloc(sz), s1, rest, s', depth);
    }
  }

  // ---- filling the first root ----

  /** Frames enough for 256 heap pages and their page of records, and two more. */
  const FRAMES: nat := 260

  /** Blocks of half a page. */
  const HALF: nat := 1500

  /** The first free frame once `k` pages are full: the coremap's own frame, a page of records and the pages come first. */
  function Top(k: nat): nat {
    if k == 0 then 1 else k + 2
  }

  ghost predicate FullPages(pages: seq<HeapPage>, from: nat) {
    forall i :: from <= i < |pages| ==> pages[i].blk == 7 && pages[i].free == []
  }

  /** Records and frames once `k` heap pages have been had. */
  ghost predicate Taken(h: Heap, k: nat) {
    && FramesOk(h) && |h.cm| == FRAMES && k <= REFS_PER_PAGE && FreeFrom(h.cm, Top(k))
    && |h.pages| == k && MarkedTo(h, k) && |h.roots| == ROOTS
    && forall q :: 0 <= q < ROOTS ==> (h.roots[q] == 0 <==> q > 0 || k == 0)
  }

  ghost predicate Packed(h: Heap, k: nat) {
    Taken(h, k) && FullPages(h.pages, 0)
  }

  /** The newest page has one block left. */
  ghost predicate HalfPacked(h: Heap, k: nat) {
    Taken(h, k) && k > 0 && FullPages(h.pages, 1) && h.pages[0].blk == 7 && |h.pages[0].free| == 1
  }

  /** A frame claimed for one page. */
  lemma OnePageAlloc(h: Heap, p: nat)
    requires FramesOk(h) && FreeFrom(h.cm, p) && p < |h.cm|
    ensures var (h', va) := AllocKpages(h, 1);
      && va != 0 && FramesOk(h') && FreeFrom(h'.cm, p + 1) && |h'.cm| == |h.cm| && h' == h.(cm := h'.cm, clock := h'.clock)
  {
    FrameIsLowest(h.cm, p);
    AllocHeads(h, 1);
    PosOfVAddr(h, p);
  }

  /** A record for the page, with a page of records for the first. */
  lemma OneRef(h: Heap, k: nat)
    requires FramesOk(h) && k < REFS_PER_PAGE && |h.cm| == FRAMES && FreeFrom(h.cm, Top(k) + 1)
    requires MarkedTo(h, k) && |h.roots| == ROOTS && forall q :: 0 <= q < ROOTS ==> (h.roots[q] == 0 <==> q > 0 || k == 0)
    ensures var (h', ref) := AllocRef(h);
      && ref == Ref(k) && FramesOk(h') && |h'.cm| == FRAMES && FreeFrom(h'.cm, Top(k + 1)) && h'.pages == h.pages
      && MarkedTo(h', k + 1) && |h'.roots| == ROOTS && forall q :: 0 <= q < ROOTS ==> (h'.roots[q] == 0 <==> q > 0)
  {
    SlotIsFirst(h.inuse, k);
    var h1 := h.(inuse := h.inuse[k := true]);
    if k == 0 {
      OnePageAlloc(h1, 2);
    }
  }

  lemma NewHalf(h: Heap, k: nat)
    requires Packed(h, k) && k < REFS_PER_PAGE
    ensures Kmalloc(h, HALF).1.Got? && HalfPacked(Kmalloc(h, HALF).0, k + 1)
  {
    assert BlockType(HALF) == 7 && FindFree(h.pages, 7) == |h.pages|;
    OnePageAlloc(h, Top(k));
    var (h1, va) := AllocKpages(h, 1);
    OneRef(h1, k);
    var (h2, ref) := AllocRef(h1);
    var g := HeapPage(k, va, 7, FreshList(7, 2));
    var h3 := h2.(pages := [g] + h2.pages);
    assert NewPage(h, 7) == (h3, true);
    assert Kmalloc(h, HALF) == Take(h3, 0);
  }

  lemma OtherHalf(h: Heap, k: nat)
    requires HalfPacked(h, k)
    ensures Kmalloc(h, HALF).1.Got? && Packed(Kmalloc(h, HALF).0, k)
  {
    assert BlockType(HALF) == 7 && FindFree(h.pages, 7) == 0;
  }

  /** Nothing but the heap and its coremap differs. */
  ghost predicate SameWorld(s: State, s': State) {
    s'.w == Onto(s.w, s'.heap.h) && s'.heap.failed == s.heap.failed
  }

  lemma FillPage(s: State, k: nat, depth: nat) returns (s': State, ops: seq<Op>)
    requires BothInv(s) && depth > 0 && Packed(s.heap.h, k) && k < REFS_PER_PAGE
    ensures Reaches(s, ops, s', depth) && BothInv(s') && Packed(s'.heap.h, k + 1) && SameWorld(s, s')
  {
    NewHalf(s.heap.h, k);
    var s1 := AllocOnward(s, HALF, depth);
    OtherHalf(s1.heap.h, k + 1);
    s' := AllocOnward(s1, HALF, depth);
    Onward(s1, Alloc(HALF), s', [], s', depth);
    ops := [Alloc(HALF)] + ([Alloc(HALF)] + []);
    Onward(s, Alloc(HALF), s1, [Alloc(HALF)] + [], s', depth);
  }

  lemma {:induction false} FillRoot(s: State, k: nat, depth: nat) returns (s': State, ops: seq<Op>)
    requires BothInv(s) && depth > 0 && Packed(s.heap.h, k) && k <= REFS_PER_PAGE
    ensures Reaches(s, ops, s', depth) && BothInv(s') && Packed(s'.heap.h, REFS_PER_PAGE) && SameWorld(s, s')
    decreases REFS_PER_PAGE - k
  {
    if k == REFS_PER_PAGE {
      s', ops := s, [];
      assert Onto(s.w, s.heap.h) == s.w;
    } else {
      var s1, first := FillPage(s, k, depth);
      var rest;
      s', rest := FillRoot(s1, k + 1, depth);
      Append(s, first, s1, rest, s', depth);
      ops := first + rest;
    }
  }

  // ---- a program takes a frame, and gives it back ----

  const STACK_TOP: nat := 73728

  lemma PagingOnward(s: State, p: K.Op, depth: nat) returns (s1: State)
    requires BothInv(s) && PagingOp(p) && K.Enabled(s.w, p) && depth > 0 && !K.OutOfRoom(K.Step(s.w, p, depth).1)
    ensures Steps(s, Paging(p), s1, depth) && BothInv(s1)
    ensures s1.w == K.Step(s.w, p, depth).0
    ensures s1.heap == s.heap.(h := s.heap.h.(cm := s1.w.m.cm, clock := s1.w.m.clock))
  {
    s1 := Next(s, Paging(p), depth).0;
    StepOk(s, Paging(p), depth);
  }

  lemma CreateStep(w: K.World, op: K.Op, depth: nat)
    requires w.running == K.Nothing && w.parked == map[] && op == K.Create(0, [])
    ensures K.Enabled(w, op) && K.Step(w, op, depth).1 == K.Done
    ensures var w' := K.Step(w, op, depth).0; w'.running == K.User(0) && w'.parked == map[] && w'.m.sp == K.EMPTY_SPACE && w'.m.cm == w.m.cm
  {
  }

  lemma StackStep(w: K.World, op: K.Op, depth: nat)
    requires w.running == K.User(0) && w.m.sp == K.EMPTY_SPACE && op == K.DefineStack(STACK_TOP)
    ensures K.Enabled(w, op) && K.Step(w, op, depth).1 == K.Done
    ensures var w' := K.Step(w, op, depth).0;
      w'.running == K.User(0) && w'.parked == w.parked && R.MustLoad(w'.m, 0) && w'.m.cm == w.m.cm
  {
    var seg := K.NewStack(w, STACK_TOP);
    var sp := AS.Prepend(w.m.sp, seg);
    assert AS.Covers(sp.segs[0], 0);
    var k := AS.FirstEntry(sp.pt, 0);
    assert k < |sp.pt| ==> !sp.pt[k].inMem;
  }

  /** One frame has gone to the program. */
  ghost predicate OneLodged(cm: seq<CmEntry>, cm': seq<CmEntry>, f: nat)
    requires f < |cm|
  {
    |cm'| == |cm| && cm'[f].state == Clean && cm'[f].owner == As(0) && forall x :: 0 <= x < |cm| && x != f ==> cm'[x] == cm[x]
  }

  lemma LodgedFrames(cm: seq<CmEntry>, cm': seq<CmEntry>)
    requires Vacated(cm) && OneLodged(cm, cm', FRAMES - 2)
    ensures Lodged(cm')
  {
  }

  /** The page takes the first free frame. */
  lemma TouchStep(w: K.World, op: K.Op, depth: nat, f: nat)
    requires K.Inv(w) && w.running == K.User(0) && w.parked == map[] && R.MustLoad(w.m, 0) && depth > 0 && op.Load? && op.va == 0
    requires f < |w.m.cm| && FirstFree(w.m.cm) == f
    ensures !K.OutOfRoom(K.Step(w, op, depth).1)
    ensures var w' := K.Step(w, op, depth).0;
      w'.running == K.User(0) && w'.parked == map[] && OneLodged(w.m.cm, w'.m.cm, f)
  {
    TouchMoves(w, op, depth, f);
    MovedOne(w.m, K.Step(w, op, depth).0.m, f);
    StaysRunning(w, op, depth);
  }

  lemma TouchMoves(w: K.World, op: K.Op, depth: nat, f: nat)
    requires K.Inv(w) && w.running == K.User(0) && R.MustLoad(w.m, 0) && depth > 0 && op.Load? && op.va == 0
    requires f < |w.m.cm| && FirstFree(w.m.cm) == f
    ensures !K.OutOfRoom(K.Step(w, op, depth).1) && R.UserMoves(w.m, 0, 0, K.Step(w, op, depth).0.m)
  {
    Balance.UserRoom(w, op, depth);
    R.UserStepMoves(w, op, depth);
  }

  lemma StaysRunning(w: K.World, op: K.Op, depth: nat)
    requires op.Load?
    ensures var w' := K.Step(w, op, depth).0; w'.running == w.running && w'.parked == w.parked
  {
  }

  lemma MovedOne(m: D.Machine, m': D.Machine, f: nat)
    requires R.UserMoves(m, 0, 0, m') && R.MustLoad(m, 0) && f < |m.cm| && FirstFree(m.cm) == f
    ensures OneLodged(m.cm, m'.cm, f)
  {
  }

  lemma ExitStep(w: K.World, op: K.Op, depth: nat)
    requires w.running == K.User(0) && op == K.Destroy(0)
    ensures K.Enabled(w, op) && K.Step(w, op, depth).1 == K.Done
    ensures K.Step(w, op, depth).0.m.cm == OwnerFreed(w.m.cm, 0)
  {
  }

  /** No program, no frame of a program. */
  lemma NoneOwned(w: K.World, x: nat)
    requires K.Inv(w) && w.running == K.Nothing && w.parked == map[] && x < |w.m.cm| && w.m.cm[x].state != FrameState.Free
    ensures w.m.cm[x].state == Fixed && w.m.cm[x].owner == Nobody
  {
    assert P.EntryOk(w.m.cm[x], w.m.clock);
    assert K.Ids(w) == {};
  }

  /** The frames once the program has its page: the coremap's, the heap's, the program's, one free. */
  ghost predicate Lodged(cm: seq<CmEntry>) {
    && |cm| == FRAMES
    && (forall x :: 0 <= x < FRAMES - 2 ==> cm[x].state == Fixed && cm[x].owner == Nobody)
    && cm[FRAMES - 2].state == Clean && cm[FRAMES - 2].owner == As(0)
    && cm[FRAMES - 1].state == FrameState.Free
  }

  /** The coremap before that. */
  ghost predicate Vacated(cm: seq<CmEntry>) {
    && |cm| == FRAMES && FreeFrom(cm, FRAMES - 2)
    && forall x :: 0 <= x < FRAMES - 2 ==> cm[x].state == Fixed && cm[x].owner == Nobody
  }

  lemma PackedVacated(s: State)
    requires BothInv(s) && Packed(s.heap.h, REFS_PER_PAGE) && s.w.running == K.Nothing && s.w.parked == map[]
    ensures Vacated(s.w.m.cm)
  {
    forall x | 0 <= x < FRAMES - 2 ensures s.w.m.cm[x].state == Fixed && s.w.m.cm[x].owner == Nobody {
      NoneOwned(s.w, x);
    }
  }

  lemma FirstFreeIs(cm: seq<CmEntry>, p: nat)
    requires p < |cm| && FreeFrom(cm, p)
    ensures FirstFree(cm) == p
  {
    var r := FirstFree(cm);
    assert cm[p].state == FrameState.Free;
  }

  /** Nothing but the coremap differs in the heap. */
  ghost predicate SameHeap(s: State, s': State) {
    s'.heap == s.heap.(h := s.heap.h.(cm := s'.heap.h.cm, clock := s'.heap.h.clock))
  }

  /** A program with a stack. */
  lemma Arrive(s: State, create: K.Op, stack: K.Op, depth: nat) returns (s1: State, s2: State)
    requires BothInv(s) && depth > 0 && s.w.running == K.Nothing && s.w.parked == map[]
    requires create == K.Create(0, []) && stack == K.DefineStack(STACK_TOP)
    ensures Steps(s, Paging(create), s1, depth) && Steps(s1, Paging(stack), s2, depth) && BothInv(s2) && SameHeap(s, s2)
    ensures s2.w.running == K.User(0) && s2.w.parked == map[] && R.MustLoad(s2.w.m, 0) && s2.w.m.cm == s.w.m.cm
  {
    CreateStep(s.w, create, depth);
    s1 := PagingOnward(s, create, depth);
    StackStep(s1.w, stack, depth);
    s2 := PagingOnward(s1, stack, depth);
  }

  lemma Touch(s: State, touch: K.Op, depth: nat) returns (s': State)
    requires BothInv(s) && depth > 0 && touch.Load? && touch.va == 0 && Vacated(s.w.m.cm)
    requires s.w.running == K.User(0) && s.w.parked == map[] && R.MustLoad(s.w.m, 0)
    ensures Steps(s, Paging(touch), s', depth) && BothInv(s') && SameHeap(s, s')
    ensures s'.w.running == K.User(0) && Lodged(s'.w.m.cm)
  {
    FirstFreeIs(s.w.m.cm, FRAMES - 2);
    TouchStep(s.w, touch, depth, FRAMES - 2);
    LodgedFrames(s.w.m.cm, K.Step(s.w, touch, depth).0.m.cm);
    s' := PagingOnward(s, touch, depth);
  }

  lemma Lodge(s: State, create: K.Op, stack: K.Op, touch: K.Op, depth: nat) returns (s': State, ops: seq<Op>)
    requires BothInv(s) && depth > 0 && Vacated(s.w.m.cm) && s.w.running == K.Nothing && s.w.parked == map[]
    requires create == K.Create(0, []) && stack == K.DefineStack(STACK_TOP) && touch.Load? && touch.va == 0
    ensures Reaches(s, ops, s', depth) && BothInv(s') && SameHeap(s, s') && s'.w.running == K.User(0) && Lodged(s'.w.m.cm)
  {
    var s1, s2 := Arrive(s, create, stack, depth);
    s' := Touch(s2, touch, depth);
    ops := ThreeSteps(s, Paging(create), s1, Paging(stack), s2, Paging(touch), s', depth);
  }

  lemma ThreeSteps(s: State, a: Op, s1: State, b: Op, s2: State, c: Op, s3: State, depth: nat) returns (ops: seq<Op>)
    requires Steps(s, a, s1, depth) && Steps(s1, b, s2, depth) && Steps(s2, c, s3, depth)
    ensures Reaches(s, ops, s3, depth)
  {
    Onward(s2, c, s3, [], s3, depth);
    Onward(s1, b, s2, [c] + [], s3, depth);
    Onward(s, a, s1, [b] + ([c] + []), s3, depth);
    ops := [a] + ([b] + ([c] + []));
  }

  lemma FreedFrames(cm: seq<CmEntry>)
    requires Lodged(cm)
    ensures |OwnerFreed(cm, 0)| == FRAMES && FreeFrom(OwnerFreed(cm, 0), FRAMES - 2)
  {
  }

  /** The program exits. */
  lemma Exit(s: State, op: K.Op, depth: nat) returns (s': State)
    requires BothInv(s) && depth > 0 && s.w.running == K.User(0) && Lodged(s.w.m.cm) && op == K.Destroy(0)
    ensures Steps(s, Paging(op), s', depth) && BothInv(s') && SameHeap(s, s')
    ensures |s'.heap.h.cm| == FRAMES && FreeFrom(s'.heap.h.cm, FRAMES - 2)
  {
    ExitStep(s.w, op, depth);
    FreedFrames(s.w.m.cm);
    s' := PagingOnward(s, op, depth);
  }

  // ---- a block on the root after the leaked one ----

  /** Two roots are used up, the second without a page of records, and there are two frames again. */
  ghost predicate Leaky(h: Heap) {
    && FramesOk(h) && |h.cm| == FRAMES && FreeFrom(h.cm, FRAMES - 2)
    && MarkedTo(h, 2 * REFS_PER_PAGE) && |h.roots| == ROOTS && h.roots[1] == 0 && h.roots[2] == 0
    && FindFree(h.pages, 0) == |h.pages|
  }

  const SMALL: nat := 16

  /** The next block is on a page recorded on the third root. */
  lemma ThirdRoot(h: Heap) returns (a: nat, g: HeapPage)
    requires Leaky(h)
    ensures var (h', r) := Kmalloc(h, SMALL);
      && r == Got(a) && h'.pages == [g] + h.pages && MarkedTo(h', 2 * REFS_PER_PAGE + 1) && h'.roots[1] == 0 && |h'.roots| == ROOTS
    ensures g.blk == 0 && |g.free| == 255 && g.slot == 2 * REFS_PER_PAGE && a >= g.addr
    ensures IsBlock(g, a - g.addr) && a - g.addr !in g.free
  {
    assert BlockType(SMALL) == 0;
    OnePageAlloc(h, FRAMES - 2);
    var (h1, va) := AllocKpages(h, 1);
    var slot := 2 * REFS_PER_PAGE;
    SlotIsFirst(h1.inuse, slot);
    OnePageAlloc(h1.(inuse := h1.inuse[slot := true]), FRAMES - 1);
    var (h2, ref) := AllocRef(h1);
    assert ref == Ref(slot);
    var whole := HeapPage(slot, va, 0, FreshList(0, 256));
    var h3 := h2.(pages := [whole] + h2.pages);
    assert NewPage(h, 0) == (h3, true);
    assert Kmalloc(h, SMALL) == Take(h3, 0);
    g := whole.(free := whole.free[1..]);
    a := va + whole.free[0];
    assert (h3.pages[0 := g]) == [g] + h.pages;
  }

  /** Freeing it fails the assertion that the second root is unused. */
  lemma FreeFails(h: Heap, a: nat, g: HeapPage)
    requires h.pages != [] && h.pages[0] == g && g.blk == 0 && |g.free| == 255 && g.slot == 2 * REFS_PER_PAGE
    requires a >= g.addr && IsBlock(g, a - g.addr) && a - g.addr !in g.free
    requires MarkedTo(h, 2 * REFS_PER_PAGE + 1) && |h.roots| == ROOTS && h.roots[1] == 0
    ensures Kfree(h, a).1 == Panic
  {
    assert FindPage(h.pages, a) == 0;
    assert h.inuse[REFS_PER_PAGE];
    assert !RootEmpty(h, 1);
    assert !RootsBefore(h, g.slot);
  }

  // ---- the whole run ----

  /** The kernel as booted, with nothing on its heap. */
  ghost predicate Start(s: State) {
    && R.Booted(s.w) && s.w.m.base % PAGE_SIZE == 0 && |s.w.m.cm| == FRAMES && BootTable(s.w.m.cm, 0)
    && s.heap == H.State(Heap([], seq(TOTAL_REFS, _ => false), seq(ROOTS, _ => 0), s.w.m.cm, s.w.m.base, s.w.m.clock), map[], false)
  }

  lemma StartExists() returns (s: State)
    ensures Start(s)
  {
    var cm := seq(FRAMES, i requires 0 <= i < FRAMES => BootEntry(i, 0));
    var m := D.Machine(PAGE_SIZE, cm, 0, [], [], seq(FRAMES, _ => ZeroPage()), Tlb.TlbState([Tlb.Invalid], 0, Tlb.NO_PAST), R.NO_STATS, R.NO_TALLY, K.EMPTY_SPACE);
    s := State(K.World(m, K.Nothing, map[]),
               H.State(Heap([], seq(TOTAL_REFS, _ => false), seq(ROOTS, _ => 0), cm, PAGE_SIZE, 0), map[], false));
    assert BootTable(cm, 0);
  }

  lemma StartOk(s: State)
    requires Start(s)
    ensures BothInv(s) && Packed(s.heap.h, 0)
  {
    R.BootedInv(s.w);
    var cm := s.w.m.cm;
    assert forall x :: 0 <= x < |cm| ==> cm[x] == BootEntry(x, 0);
    assert FramesOk(s.heap.h);
    EmptyInv(s.heap.h);
  }

  lemma PackedStarved(h: Heap)
    requires MarkedTo(h, REFS_PER_PAGE) && |h.roots| == ROOTS && h.roots[1] == 0 && FullPages(h.pages, 0)
    requires FramesOk(h) && Lodged(h.cm)
    ensures Starved(h, BlockType(SMALL), 1, 0, FRAMES - 1)
  {
    assert BlockType(SMALL) == 0;
  }

  /** The first root full, a program in the last frame but one. */
  lemma UntilStarved(s: State, sched: D.Schedule, depth: nat) returns (s': State, ops: seq<Op>)
    requires Start(s) && depth > 0
    ensures Reaches(s, ops, s', depth) && BothInv(s') && s'.w.running == K.User(0) && Lodged(s'.w.m.cm)
    ensures Starved(s'.heap.h, BlockType(SMALL), 1, 0, FRAMES - 1) && s'.heap.h.roots[2] == 0 && !s'.heap.failed
  {
    StartOk(s);
    var s1, fill := FillRoot(s, 0, depth);
    PackedVacated(s1);
    var lodge;
    s', lodge := Lodge(s1, K.Create(0, []), K.DefineStack(STACK_TOP), K.Load(0, sched), depth);
    PackedStarved(s'.heap.h);
    Append(s, fill, s1, lodge, s', depth);
    ops := fill + lodge;
  }

  /** The second root leaked, and memory free again. */
  lemma UntilLeaky(s: State, sched: D.Schedule, depth: nat) returns (s': State, ops: seq<Op>)
    requires Start(s) && depth > 0
    ensures Reaches(s, ops, s', depth) && BothInv(s') && Leaky(s'.heap.h) && !s'.heap.failed
  {
    var s1, before := UntilStarved(s, sched, depth);
    var leak, s2 := RootLeaks(s1, SMALL, 1, 0, FRAMES - 1, depth);
    var exit := K.Destroy(0);
    s' := Exit(s2, exit, depth);
    Onward(s2, Paging(exit), s', [], s', depth);
    Append(s1, leak, s2, [Paging(exit)] + [], s', depth);
    Append(s, before, s1, leak + ([Paging(exit)] + []), s', depth);
    ops := before + (leak + ([Paging(exit)] + []));
  }

  lemma AllocThenFail(s: State, depth: nat) returns (s': State, ops: seq<Op>)
    requires BothInv(s) && depth > 0 && Leaky(s.heap.h)
    ensures Reaches(s, ops, s', depth) && s'.heap.failed
  {
    var a, g := ThirdRoot(s.heap.h);
    var s1 := AllocOnward(s, SMALL, depth);
    FreeFails(s1.heap.h, a, g);
    s' := Next(s1, Release(a), depth).0;
    Onward(s1, Release(a), s', [], s', depth);
    Onward(s, Alloc(SMALL), s1, [Release(a)] + [], s', depth);
    ops := [Alloc(SMALL)] + ([Release(a)] + []);
  }

  /**
   * A run from the booted kernel in which `kfree` of a live block fails. The
   * records of the first root are used up; a program leaves one frame free,
   * and 256 small allocations each mark a record of the second root in vain;
   * the program exits, a block comes from a page recorded on the third root,
   * and freeing it fails the assertion that the second root is unused.
   */
  lemma KfreeCanFail(s: State, sched: D.Schedule, depth: nat) returns (ops: seq<Op>)
    requires Start(s) && depth > 0
    ensures Feasible(s, ops, depth) && After(s, ops, depth).heap.failed
  {
    var s1, before := UntilLeaky(s, sched, depth);
    var s2, last := AllocThenFail(s1, depth);
    Append(s, before, s1, last, s2, depth);
    ops := before + last;
  }
}
