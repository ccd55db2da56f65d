/** The statistics over whole runs: what they come to by the operations alone, and runs in which the printed checks fail. */
module Balance {
  import opened Layout
  import opened Coremap
  import opened SwapSpace
  import opened Tlb
  import opened AddressSpace
  import opened Demand
  import opened Soundness
  import opened Paging
  import opened Transparency
  import opened Loading
  import opened Kernel
  import opened UserSteps
  import opened Spaces
  import opened Refinement
  import opened Runs

  /** The equalities `vmstats_print` checks. */
  predicate CheckPlaced(st: Stats) { st.free + st.replace == st.faults }
  predicate CheckServed(st: Stats) { st.reload + st.disk + st.zero == st.faults }
  predicate CheckDisk(st: Stats) { st.elf + st.swap == st.disk }

  // ---- what the counters do not record ----

  /** A program's access to an address in none of its segments. */
  predicate Strays(f: Flat, op: Op) {
    (op.Load? || op.Store?) && f.running != Nothing && f.running.id in f.spaces
    && PageBase(op.va) !in f.spaces[f.running.id].pages
  }

  /** How many accesses stray, on flat memory. */
  ghost function StrayCount(f: Flat, ops: seq<Op>): nat
    decreases |ops|
  {
    if ops == [] then 0
    else (if Strays(f, ops[0]) then 1 else 0) + StrayCount(FlatStep(f, ops[0]).0, ops[1..])
  }

  /** The access evicts a page: its own is out of memory and no frame is free. */
  predicate Evicts(w: World, op: Op) {
    (op.Load? || op.Store?) && w.running != Nothing && MustLoad(w.m, PageBase(op.va)) && NeedsEviction(w.m)
  }

  /** No flush closes the write-out of the victim, whose TLB entry `tlbR` therefore finds. */
  predicate Reuses(w: World, op: Op) {
    Evicts(w, op) && !EndsFlushed(op.s.out.after)
  }

  ghost function EvictCount(w: World, ops: seq<Op>, depth: nat): nat
    requires Feasible(w, ops, depth)
    decreases |ops|
  {
    if ops == [] || OutOfRoom(Step(w, ops[0], depth).1) then 0
    else (if Evicts(w, ops[0]) then 1 else 0) + EvictCount(Step(w, ops[0], depth).0, ops[1..], depth)
  }

  ghost function ReuseCount(w: World, ops: seq<Op>, depth: nat): nat
    requires Feasible(w, ops, depth)
    decreases |ops|
  {
    if ops == [] || OutOfRoom(Step(w, ops[0], depth).1) then 0
    else (if Reuses(w, ops[0]) then 1 else 0) + ReuseCount(Step(w, ops[0], depth).0, ops[1..], depth)
  }

  // ---- one step ----

  /** The tally grows by what the operation does. */
  ghost predicate Grown(w: World, op: Op, m': Machine) {
    m'.log == Added(w.m.log, Strays(Flatten(w), op), Reuses(w, op), Evicts(w, op))
  }

  function Added(log: Tally, failed: bool, reused: bool, evicted: bool): Tally {
    Tally(log.failed + (if failed then 1 else 0), log.reused + (if reused then 1 else 0), log.evicted + (if evicted then 1 else 0))
  }

  /** The tally of an access to a page, by the page table alone. */
  function AccessTally(m: Machine, page: nat, s: Schedule): Tally {
    var evicts := MustLoad(m, page) && NeedsEviction(m);
    Added(m.log, !Covered(m.sp, page), evicts && !EndsFlushed(s.out.after), evicts)
  }

  lemma FaultTally(m: Machine, id: nat, page: nat, s: Schedule, depth: nat)
    requires Settled(m, id) && page % PAGE_SIZE == 0 && depth > 0
    ensures var (m', o) := Fault(m, id, page, s, depth);
      && (o == Panic(NoVictim) || o == Panic(SwapFull) <==> MustLoad(m, page) && !CanLoad(m, id))
      && (o == Panic(NoVictim) || o == Panic(SwapFull) || m'.log == AccessTally(m, page, s))
  {
    FaultTransparent(m, id, page, s, depth);
    if !Covered(m.sp, page) {
      FaultUncovered(m, id, page, s, depth);
    } else if InMemory(m.sp, page) {
      FaultReload(m, id, page, s, depth);
    } else if CanLoad(m, id) {
      LoadableIntro(m, id, page);
      FaultLoad(m, id, page, s, depth);
    }
  }

  lemma MappedCovered(w: World, page: nat, write: bool)
    requires Inv(w) && w.running != Nothing && page % PAGE_SIZE == 0 && Translate(w.m.tlb.slots, page, write) != Miss
    ensures Covered(w.m.sp, page) && InMemory(w.m.sp, page)
  {
    TranslateMapped(w.m, page, write);
    RunningSettled(w);
    SearchAgrees(w.m.sp, page);
  }

  lemma AccessGrows(w: World, page: nat, write: bool, s: Schedule, depth: nat)
    requires Inv(w) && w.running != Nothing && page % PAGE_SIZE == 0 && depth > 0
    ensures var (m1, o) := Access(w.m, w.running.id, page, write, s, depth);
      && (o == Panic(NoVictim) || o == Panic(SwapFull) <==> MustLoad(w.m, page) && !CanLoad(w.m, w.running.id))
      && (o == Panic(NoVictim) || o == Panic(SwapFull) || m1.log == AccessTally(w.m, page, s))
  {
    AccessCases(w.m, w.running.id, page, write, s, depth);
    if Translate(w.m.tlb.slots, page, write) == Miss {
      RunningSettled(w);
      FaultTally(w.m, w.running.id, page, s, depth);
    } else {
      MappedCovered(w, page, write);
    }
  }

  /** A user access stops the kernel for want of room exactly when its page is out of memory and cannot be loaded. */
  lemma UserRoom(w: World, op: Op, depth: nat)
    requires Inv(w) && w.running != Nothing && (op.Load? || op.Store?) && depth > 0
    ensures OutOfRoom(UserStep(w, op, depth).1) <==> MustLoad(w.m, PageBase(op.va)) && !CanLoad(w.m, w.running.id)
    ensures !OutOfRoom(UserStep(w, op, depth).1) ==>
      UserStep(w, op, depth).0.m.log == AccessTally(w.m, PageBase(op.va), op.s)
  {
    var page := PageBase(op.va);
    AccessGrows(w, page, op.Store?, op.s, depth);
    UserStepCases(w, op, depth);
    if Access(w.m, w.running.id, page, op.Store?, op.s, depth).1 == Ok {
      var f := HitOwned(w, op, depth);
    }
  }

  lemma UserGrows(w: World, op: Op, depth: nat)
    requires Inv(w) && w.running != Nothing && (op.Load? || op.Store?) && depth > 0
    requires !OutOfRoom(UserStep(w, op, depth).1)
    ensures Grown(w, op, UserStep(w, op, depth).0.m)
  {
    UserRoom(w, op, depth);
    StraysUncovered(w, op);
    TallyGrown(w, op, UserStep(w, op, depth).0.m);
  }

  lemma TallyGrown(w: World, op: Op, m': Machine)
    requires w.running != Nothing && (op.Load? || op.Store?)
    requires m'.log == AccessTally(w.m, PageBase(op.va), op.s)
    requires Strays(Flatten(w), op) <==> !Covered(w.m.sp, PageBase(op.va))
    ensures Grown(w, op, m')
  {
  }

  lemma StraysUncovered(w: World, op: Op)
    requires Inv(w) && w.running != Nothing && (op.Load? || op.Store?)
    ensures Strays(Flatten(w), op) <==> !Covered(w.m.sp, PageBase(op.va))
  {
    FlatLookup(w, PageBase(op.va));
  }

  /** Other operations leave the tally alone. */
  lemma OthersGrow(w: World, op: Op, depth: nat)
    requires Inv(w) && Enabled(w, op) && !op.Load? && !op.Store?
    ensures Step(w, op, depth).0.m.log == w.m.log && Grown(w, op, Step(w, op, depth).0.m)
  {
  }

  lemma IdleGrows(w: World, op: Op, depth: nat)
    requires Inv(w) && w.running == Nothing && (op.Load? || op.Store?)
    ensures Grown(w, op, UserStep(w, op, depth).0.m)
  {
  }

  lemma StepGrows(w: World, op: Op, depth: nat)
    requires Inv(w) && Enabled(w, op) && depth > 0 && !OutOfRoom(Step(w, op, depth).1)
    ensures Grown(w, op, Step(w, op, depth).0.m)
  {
    if !op.Load? && !op.Store? {
      OthersGrow(w, op, depth);
    } else if w.running != Nothing {
      UserGrows(w, op, depth);
    } else {
      IdleGrows(w, op, depth);
    }
  }

  // ---- runs ----

  lemma {:induction false} RunGrows(w: World, ops: seq<Op>, depth: nat)
    requires Inv(w) && depth > 0 && Feasible(w, ops, depth) && !Ended(Run(w, ops, depth).1)
    ensures var m := Run(w, ops, depth).0.m;
      && m.log.failed == w.m.log.failed + StrayCount(Flatten(w), ops)
      && m.log.evicted == w.m.log.evicted + EvictCount(w, ops, depth)
      && m.log.reused == w.m.log.reused + ReuseCount(w, ops, depth)
    decreases |ops|
  {
    if ops != [] {
      var (w1, r) := Step(w, ops[0], depth);
      RunStep(w, ops, depth);
      if !OutOfRoom(r) {
        EndedTail(r, Run(w1, ops[1..], depth).1);
        StepRefines(w, ops[0], depth);
        StepGrows(w, ops[0], depth);
        RunGrows(w1, ops[1..], depth);
      }
    }
  }

  /**
   * The exact balance of the counters after any run: F counts the accesses
   * outside every segment, which flat memory knows, and R the evictions
   * whose write-out no flush closes. So the first printed check comes out
   * when there are as many of the one as of the other, the second when no
   * access strays, and the third always.
   */
  lemma CounterLaws(w: World, ops: seq<Op>, depth: nat)
    requires Booted(w) && depth > 0 && Feasible(w, ops, depth) && !Ended(Run(w, ops, depth).1)
    ensures var st := Run(w, ops, depth).0.m.st;
      var F := StrayCount(Flat(Nothing, map[]), ops);
      var R := ReuseCount(w, ops, depth);
      && st.faults == st.reload + st.disk + st.zero + F
      && st.disk == st.elf + st.swap
      && st.free + st.replace == st.faults - F + R
      && st.writes == EvictCount(w, ops, depth)
      && (CheckPlaced(st) <==> R == F)
      && (CheckServed(st) <==> F == 0)
      && CheckDisk(st)
  {
    RunInv(w, ops, depth);
    BootedInv(w);
    RunGrows(w, ops, depth);
  }

  /** When a flush closes every write-out, as a switch to the sleeper's address space does, no TLB entry is reused. */
  lemma {:induction false} FlushedNeverReuse(w: World, ops: seq<Op>, depth: nat)
    requires Feasible(w, ops, depth)
    requires forall i :: 0 <= i < |ops| && (ops[i].Load? || ops[i].Store?) ==> EndsFlushed(ops[i].s.out.after)
    ensures ReuseCount(w, ops, depth) == 0
    decreases |ops|
  {
    if ops != [] && !OutOfRoom(Step(w, ops[0], depth).1) {
      FlushedNeverReuse(Step(w, ops[0], depth).0, ops[1..], depth);
    }
  }

  // ---- runs in which the printed checks fail ----

  /** One frame beside the coremap's own, and some swap space. */
  ghost predicate Small(w: World) {
    Booted(w) && |w.m.cm| == 2 && BootTable(w.m.cm, 0) && |w.m.slots| > 0
  }

  lemma SmallExists() returns (w: World)
    ensures Small(w)
  {
    var cm := [BootEntry(0, 0), BootEntry(1, 0)];
    var m := Machine(PAGE_SIZE, cm, 0, [Vacant], [ZeroPage()], [ZeroPage(), ZeroPage()], TlbState([Invalid], 0, NO_PAST), NO_STATS, NO_TALLY, EMPTY_SPACE);
    w := World(m, Nothing, map[]);
    assert BootTable(cm, 0);
  }

  /** A process with no segment that reads address 0. */
  function Stray(s: Schedule): seq<Op> {
    [Create(0, []), Load(0, s)]
  }

  const TWO_PAGES: nat := 8192

  function TwoPages(): Op {
    DefineRegion(0, 0, TWO_PAGES, 1, 0)
  }

  /** A process of two pages that touches both. */
  function Squeeze(s: Schedule): seq<Op> {
    [Create(0, []), TwoPages(), Load(0, s), Load(PAGE_SIZE, s)]
  }

  lemma KeepsInv(w: World, op: Op, depth: nat)
    requires Inv(w) && Enabled(w, op) && depth > 0 && !OutOfRoom(Step(w, op, depth).1)
    ensures Inv(Step(w, op, depth).0)
  {
    StepRefines(w, op, depth);
  }

  /** The counts of a run by its first operation. */
  lemma CountStep(w: World, ops: seq<Op>, op: Op, rest: seq<Op>, depth: nat)
    requires ops == [op] + rest && Enabled(w, op) && !OutOfRoom(Step(w, op, depth).1)
    requires Feasible(Step(w, op, depth).0, rest, depth)
    ensures Feasible(w, ops, depth)
    ensures Ended(Run(w, ops, depth).1) <==> Ended(Run(Step(w, op, depth).0, rest, depth).1)
    ensures ReuseCount(w, ops, depth) == (if Reuses(w, op) then 1 else 0) + ReuseCount(Step(w, op, depth).0, rest, depth)
  {
    assert ops[0] == op && ops[1..] == rest;
    RunStep(w, ops, depth);
    EndedTail(Step(w, op, depth).1, Run(Step(w, op, depth).0, rest, depth).1);
  }

  lemma CountStray(f: Flat, ops: seq<Op>, op: Op, rest: seq<Op>)
    requires ops == [op] + rest
    ensures StrayCount(f, ops) == (if Strays(f, op) then 1 else 0) + StrayCount(FlatStep(f, op).0, rest)
  {
    assert ops[0] == op && ops[1..] == rest;
  }

  /** The process created on the small machine. */
  lemma AfterCreate(w: World, op: Op, depth: nat) returns (w': World)
    requires Small(w) && depth > 0 && op == Create(0, [])
    ensures Goes(w, op, depth, w', Done)
    ensures Inv(w') && w'.running == User(0) && w'.m.sp == EMPTY_SPACE && w'.m.cm == w.m.cm && w'.m.slots == w.m.slots
  {
    BootedInv(w);
    w' := Step(w, op, depth).0;
    KeepsInv(w, op, depth);
  }

  lemma StrayCounts(s: Schedule)
    ensures StrayCount(Flat(Nothing, map[]), Stray(s)) == 1
  {
    var create, load := Create(0, []), Load(0, s);
    var f1 := FlatStep(Flat(Nothing, map[]), create).0;
    CountStray(f1, [load], load, []);
    CountStray(Flat(Nothing, map[]), Stray(s), create, [load]);
    assert Strays(f1, load);
  }

  /** A single stray access makes the second check fail, and the first with it. */
  lemma StrayFails(w: World, s: Schedule, depth: nat)
    requires Small(w) && depth > 0
    ensures Feasible(w, Stray(s), depth) && !Ended(Run(w, Stray(s), depth).1)
    ensures var st := Run(w, Stray(s), depth).0.m.st; !CheckServed(st) && !CheckPlaced(st)
  {
    StrayReuses(w, Create(0, []), Load(0, s), depth);
    assert Stray(s) == [Create(0, [])] + [Load(0, s)];
    StrayCounts(s);
    CounterLaws(w, Stray(s), depth);
  }

  lemma StrayReuses(w: World, create: Op, load: Op, depth: nat)
    requires Small(w) && depth > 0 && create == Create(0, []) && load.Load?
    ensures var ops := [create] + [load]; Feasible(w, ops, depth) && !Ended(Run(w, ops, depth).1) && ReuseCount(w, ops, depth) == 0
  {
    var w1 := AfterCreate(w, create, depth);
    UserRoom(w1, load, depth);
    CountStep(w1, [load], load, [], depth);
    CountStep(w, [create] + [load], create, [load], depth);
  }

  // ---- an eviction on the small machine ----

  /** The two pages as `as_define_region` records them. */
  function Pair(): Space {
    Space([Segment(0, 2, TWO_PAGES, 0, 1, 0, 2)], [Pte(0, 0, false, false), Pte(PAGE_SIZE, 0, false, false)], [])
  }

  lemma PairDefined(w: World, op: Op)
    requires w.m.sp == EMPTY_SPACE && w.running == User(0) && op == TwoPages()
    ensures Enabled(w, op)
    ensures Prepend(w.m.sp, NewRegion(w, op)) == Pair()
  {
    var seg := NewRegion(w, op);
    assert RegionPages(0, TWO_PAGES) == 2 && seg == Segment(0, 2, TWO_PAGES, 0, 1, 0, 2);
    WellPlacedIsLocal(0, 0, TWO_PAGES, 1, 0, 2);
    assert PageAt(seg, 0) == 0 && PageAt(seg, 1) == PAGE_SIZE;
    assert Chain(seg) + [] == Pair().pt;
    assert [seg] + [] == Pair().segs;
  }

  /** The process has its two pages and the frame is free. */
  ghost predicate Ready(w: World) {
    && Inv(w) && w.running == User(0) && w.m.sp == Pair()
    && |w.m.cm| == 2 && BootTable(w.m.cm, 0) && |w.m.slots| > 0 && w.m.slots[0] == Vacant
  }

  lemma AfterDefine(w: World, op: Op, depth: nat) returns (w': World)
    requires Inv(w) && w.running == User(0) && w.m.sp == EMPTY_SPACE && depth > 0 && op == TwoPages()
    requires |w.m.cm| == 2 && BootTable(w.m.cm, 0) && |w.m.slots| > 0 && w.m.slots[0] == Vacant
    ensures Goes(w, op, depth, w', Done) && Ready(w')
  {
    PairDefined(w, op);
    KeepsInv(w, op, depth);
    w' := Step(w, op, depth).0;
  }

  /** What the small machine shows of the pair: both pages out of memory, and a frame to be had. */
  lemma ReadyFacts(w: World)
    requires Ready(w)
    ensures FirstFree(w.m.cm) == 1 && CanLoad(w.m, 0) && MustLoad(w.m, 0) && MustLoad(w.m, PAGE_SIZE)
    ensures FirstEntry(w.m.sp.pt, 0) == 0 && FirstEntry(w.m.sp.pt, PAGE_SIZE) == 1
  {
    assert w.m.cm[0] == BootEntry(0, 0) && w.m.cm[1] == BootEntry(1, 0);
    assert Covers(Pair().segs[0], 0) && Covers(Pair().segs[0], PAGE_SIZE);
    assert w.m.sp.pt[0].page == 0 && w.m.sp.pt[1].page == PAGE_SIZE;
  }

  /** The first page in the only frame: the second can be had by evicting it. */
  lemma FullFacts(w: World, m: Machine)
    requires Ready(w) && Loadable(w.m, 0, 0) && SameTables(Net(w.m, 0, 0), m)
    ensures NeedsEviction(m) && CanLoad(m, 0) && MustLoad(m, PAGE_SIZE)
  {
    ReadyFacts(w);
    assert m.cm[1] == CmEntry(As(0), 0, Clean, 1, At(w.m.clock)) && m.cm[0] == w.m.cm[0] && |m.cm| == 2;
    assert FirstFree(m.cm) == 2;
    assert m.sp.segs == w.m.sp.segs && m.sp.pt[1] == w.m.sp.pt[1] && m.sp.pt[0].page == 0;
    assert Evictable(m.cm[1], 0) && Before(m.cm[1].stamp, m.clock);
    assert m.slots == w.m.slots;
  }

  lemma AfterFirst(w: World, op: Op, depth: nat) returns (w': World)
    requires Ready(w) && depth > 0 && op.Load? && op.va == 0
    ensures Goes(w, op, depth, w', Step(w, op, depth).1)
    ensures Inv(w') && w'.running == User(0) && NeedsEviction(w'.m) && CanLoad(w'.m, 0) && MustLoad(w'.m, PAGE_SIZE)
  {
    ReadyFacts(w);
    UserRoom(w, op, depth);
    KeepsInv(w, op, depth);
    w' := Step(w, op, depth).0;
    AccessMoves(w, 0, false, op.s, depth);
    AccessGrows(w, 0, false, op.s, depth);
    UserStepCases(w, op, depth);
    if Access(w.m, 0, 0, false, op.s, depth).1 == Ok {
      var f := HitOwned(w, op, depth);
    }
    FullFacts(w, w'.m);
  }

  lemma SqueezeCounts(f: Flat, s: Schedule)
    requires f == Flat(Nothing, map[])
    ensures StrayCount(f, Squeeze(s)) == 0
  {
    var create, define, first, second := Create(0, []), TwoPages(), Load(0, s), Load(PAGE_SIZE, s);
    var f1 := FlatStep(f, create).0;
    var f2 := FlatStep(f1, define).0;
    var pages := f2.spaces[0].pages;
    assert RegionPages(0, TWO_PAGES) == 2;
    assert pages == map[] + FlatRegion(0, 0, TWO_PAGES, 1, []);
    assert 0 + 0 * PAGE_SIZE in PagesOf(0, 2) && 0 + 1 * PAGE_SIZE in PagesOf(0, 2);
    CountStray(f, Squeeze(s), create, [define, first, second]);
    CountStray(f1, [define, first, second], define, [first, second]);
    CountStray(f2, [first, second], first, [second]);
    CountStray(f2, [second], second, []);
  }

  /** The run has not ended and reused the TLB entry of one victim. */
  ghost predicate ReusesOne(w: World, ops: seq<Op>, depth: nat) {
    Feasible(w, ops, depth) && !Ended(Run(w, ops, depth).1) && ReuseCount(w, ops, depth) == 1
  }

  /** The step from one state to the next, with no TLB entry reused. */
  ghost predicate Goes(w: World, op: Op, depth: nat, w': World, r: Result) {
    Enabled(w, op) && Step(w, op, depth) == (w', r) && !OutOfRoom(r) && !Reuses(w, op)
  }

  lemma ReusesNext(w: World, ops: seq<Op>, op: Op, rest: seq<Op>, depth: nat, w': World, r: Result)
    requires ops == [op] + rest && Goes(w, op, depth, w', r)
    requires ReusesOne(w', rest, depth)
    ensures ReusesOne(w, ops, depth)
  {
    CountStep(w, ops, op, rest, depth);
  }

  lemma SecondReuses(w: World, op: Op, depth: nat)
    requires Inv(w) && w.running == User(0) && depth > 0 && op.Load? && op.va == PAGE_SIZE && !EndsFlushed(op.s.out.after)
    requires NeedsEviction(w.m) && CanLoad(w.m, 0) && MustLoad(w.m, PAGE_SIZE)
    ensures ReusesOne(w, [op], depth)
  {
    UserRoom(w, op, depth);
    CountStep(w, [op], op, [], depth);
  }

  lemma BothReuse(w: World, first: Op, second: Op, rest: seq<Op>, depth: nat)
    requires Ready(w) && depth > 0 && first.Load? && first.va == 0 && rest == [second]
    requires second.Load? && second.va == PAGE_SIZE && !EndsFlushed(second.s.out.after)
    ensures ReusesOne(w, [first] + rest, depth)
  {
    var w' := AfterFirst(w, first, depth);
    SecondReuses(w', second, depth);
    ReusesNext(w, [first] + rest, first, rest, depth, w', Step(w, first, depth).1);
  }

  /** From any ready machine the accesses reuse one entry. */
  ghost predicate WillReuse(ops: seq<Op>, depth: nat) {
    forall w {:trigger Ready(w)} :: Ready(w) ==> ReusesOne(w, ops, depth)
  }

  lemma TouchesReuse(first: Op, second: Op, depth: nat)
    requires depth > 0 && first.Load? && first.va == 0
    requires second.Load? && second.va == PAGE_SIZE && !EndsFlushed(second.s.out.after)
    ensures WillReuse([first] + [second], depth)
  {
    forall w | Ready(w) ensures ReusesOne(w, [first] + [second], depth) {
      BothReuse(w, first, second, [second], depth);
    }
  }

  lemma DefineReuses(w: World, op: Op, rest: seq<Op>, depth: nat)
    requires Inv(w) && w.running == User(0) && w.m.sp == EMPTY_SPACE && depth > 0 && op == TwoPages()
    requires |w.m.cm| == 2 && BootTable(w.m.cm, 0) && |w.m.slots| > 0 && w.m.slots[0] == Vacant
    requires WillReuse(rest, depth)
    ensures ReusesOne(w, [op] + rest, depth)
  {
    var w' := AfterDefine(w, op, depth);
    ReusesNext(w, [op] + rest, op, rest, depth, w', Done);
  }

  lemma CreateReuses(w: World, create: Op, define: Op, rest: seq<Op>, depth: nat)
    requires Small(w) && depth > 0 && create == Create(0, []) && define == TwoPages() && WillReuse(rest, depth)
    ensures ReusesOne(w, [create] + ([define] + rest), depth)
  {
    var w' := AfterCreate(w, create, depth);
    DefineReuses(w', define, rest, depth);
    ReusesNext(w, [create] + ([define] + rest), create, [define] + rest, depth, w', Done);
  }

  /**
   * Touching a second page with memory full makes the first check fail
   * though no fault failed: the eviction finds the victim's TLB entry.
   */
  lemma SqueezeFails(w: World, s: Schedule, depth: nat)
    requires Small(w) && depth > 0 && !EndsFlushed(s.out.after)
    ensures Feasible(w, Squeeze(s), depth) && !Ended(Run(w, Squeeze(s), depth).1)
    ensures var st := Run(w, Squeeze(s), depth).0.m.st; !CheckPlaced(st) && CheckServed(st)
  {
    var create, define, first, second := Create(0, []), TwoPages(), Load(0, s), Load(PAGE_SIZE, s);
    assert Squeeze(s) == [create] + ([define] + ([first] + [second]));
    TouchesReuse(first, second, depth);
    CreateReuses(w, create, define, [first] + [second], depth);
    SqueezeCounts(Flat(Nothing, map[]), s);
    CounterLaws(w, Squeeze(s), depth);
  }
}
