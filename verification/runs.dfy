/** Theorems over whole runs of the machine: invisibility of paging, counter balance, isolation of kernel blocks. */
module Runs {
  import opened Layout
  import opened Coremap
  import opened SwapSpace
  import opened Tlb
  import opened AddressSpace
  import opened Demand
  import opened Soundness
  import opened Paging
  import opened Transparency
  import opened Kernel
  import opened UserSteps
  import opened Spaces
  import opened Refinement

  const NO_STATS := Stats(0, 0, 0, 0, 0, 0, 0, 0, 0, 0)
  const NO_TALLY := Tally(0, 0, 0)

  /** The machine once the tables are set up, with no process yet. */
  ghost predicate Booted(w: World) {
    && w.running == Nothing && w.parked == map[] && w.m.base > 0
    && |w.m.ram| == |w.m.cm| && |w.m.blocks| == |w.m.slots| && w.m.tlb.next < |w.m.tlb.slots|
    && w.m.tlb.past == NO_PAST && (forall i :: 0 <= i < |w.m.tlb.slots| ==> w.m.tlb.slots[i] == Invalid)
    && (exists last: nat :: BootTable(w.m.cm, last))
    && (forall j :: 0 <= j < |w.m.slots| ==> w.m.slots[j] == Vacant)
    && w.m.st == NO_STATS && w.m.log == NO_TALLY
  }

  lemma BootedInv(w: World)
    requires Booted(w)
    ensures Inv(w) && Flatten(w) == Flat(Nothing, map[])
  {
    assert Ids(w) == {};
    var last: nat :| BootTable(w.m.cm, last);
    forall i | 0 <= i < |w.m.cm| ensures EntryOk(w.m.cm[i], w.m.clock) {
      assert w.m.cm[i] == BootEntry(i, last);
    }
    SameMap(FlatSpaces(w), map[]);
  }

  /** The callers keep to what the operations ask of them, for as long as the machine goes on. */
  ghost predicate Feasible(w: World, ops: seq<Op>, depth: nat)
    decreases |ops|
  {
    ops == [] ||
    (Enabled(w, ops[0]) &&
     var (w', r) := Step(w, ops[0], depth);
     OutOfRoom(r) || Feasible(w', ops[1..], depth))
  }

  /** A run, which ends early when memory and swap run out. */
  ghost function Run(w: World, ops: seq<Op>, depth: nat): (World, seq<Result>)
    requires Feasible(w, ops, depth)
    decreases |ops|
  {
    if ops == [] then (w, [])
    else
      var (w1, r) := Step(w, ops[0], depth);
      if OutOfRoom(r) then (w1, [r])
      else
        var (w2, rs) := Run(w1, ops[1..], depth);
        (w2, [r] + rs)
  }

  ghost function FlatRun(f: Flat, ops: seq<Op>): (Flat, seq<Result>)
    decreases |ops|
  {
    if ops == [] then (f, [])
    else
      var (f1, r) := FlatStep(f, ops[0]);
      var (f2, rs) := FlatRun(f1, ops[1..]);
      (f2, [r] + rs)
  }

  /** The run ended with the swap space full or no victim to be found. */
  ghost predicate Ended(rs: seq<Result>) {
    |rs| > 0 && OutOfRoom(rs[|rs| - 1])
  }

  /**
   * Paging is invisible: every value a program loads, every kill and every
   * result of any run is what flat memory gives, whatever is evicted,
   * swapped in, flushed from the TLB or reused meanwhile, up to the point
   * where memory and swap run out.
   */
  lemma {:induction false} PagingIsInvisible(w: World, ops: seq<Op>, depth: nat)
    requires Inv(w) && depth > 0 && Feasible(w, ops, depth)
    ensures Agrees(Run(w, ops, depth).0, Run(w, ops, depth).1, FlatRun(Flatten(w), ops).0, FlatRun(Flatten(w), ops).1)
    decreases |ops|
  {
    if ops != [] {
      StepRefines(w, ops[0], depth);
      var (w1, r) := Step(w, ops[0], depth);
      RunStep(w, ops, depth);
      FlatRunStep(Flatten(w), ops);
      if !OutOfRoom(r) {
        PagingIsInvisible(w1, ops[1..], depth);
        AgreesAfter(r, Run(w1, ops[1..], depth).0, Run(w1, ops[1..], depth).1,
                    FlatRun(Flatten(w1), ops[1..]).0, FlatRun(Flatten(w1), ops[1..]).1);
      }
    }
  }

  /** The results agree, but for the last of a run that ended; the states agree if it has not. */
  ghost predicate Agrees(w: World, rs: seq<Result>, f: Flat, frs: seq<Result>) {
    if Ended(rs) then |rs| <= |frs| && rs[..|rs| - 1] == frs[..|rs| - 1]
    else rs == frs && Inv(w) && Flatten(w) == f
  }

  lemma RunStep(w: World, ops: seq<Op>, depth: nat)
    requires ops != [] && Feasible(w, ops, depth)
    ensures var (w1, r) := Step(w, ops[0], depth);
      if OutOfRoom(r) then Run(w, ops, depth) == (w1, [r])
      else Feasible(w1, ops[1..], depth) && Run(w, ops, depth) == (Run(w1, ops[1..], depth).0, [r] + Run(w1, ops[1..], depth).1)
  {
  }

  lemma FlatRunStep(f: Flat, ops: seq<Op>)
    requires ops != []
    ensures var (f1, r) := FlatStep(f, ops[0]);
      FlatRun(f, ops) == (FlatRun(f1, ops[1..]).0, [r] + FlatRun(f1, ops[1..]).1)
  {
  }

  lemma AgreesAfter(r: Result, w: World, rs: seq<Result>, f: Flat, frs: seq<Result>)
    requires !OutOfRoom(r) && Agrees(w, rs, f, frs)
    ensures Agrees(w, [r] + rs, f, [r] + frs)
  {
    EndedTail(r, rs);
    if Ended(rs) {
      assert ([r] + rs)[..|rs|] == [r] + rs[..|rs| - 1];
      assert ([r] + frs)[..|rs|] == [r] + frs[..|rs| - 1];
    }
  }

  lemma EndedTail(r: Result, rs: seq<Result>)
    requires !OutOfRoom(r)
    ensures Ended([r] + rs) <==> Ended(rs)
  {
    assert rs != [] ==> ([r] + rs)[|rs|] == rs[|rs| - 1];
  }

  /** What a run that has not ended reaches is again a state with every invariant. */
  lemma RunInv(w: World, ops: seq<Op>, depth: nat)
    requires Booted(w) && depth > 0 && Feasible(w, ops, depth) && !Ended(Run(w, ops, depth).1)
    ensures Inv(Run(w, ops, depth).0)
  {
    BootedInv(w);
    PagingIsInvisible(w, ops, depth);
  }

  /** After any run every kernel block is a run of FIXED frames with no owner, inside the coremap. */
  lemma KernelBlockFixed(w: World, ops: seq<Op>, depth: nat, p: nat)
    requires Booted(w) && depth > 0 && Feasible(w, ops, depth) && !Ended(Run(w, ops, depth).1)
    requires IsHead(Run(w, ops, depth).0.m.cm, p)
    ensures var cm := Run(w, ops, depth).0.m.cm;
      && p + cm[p].npages <= |cm|
      && forall f :: p <= f < p + cm[p].npages ==> cm[f].state == Fixed && cm[f].owner == Nobody
  {
    RunInv(w, ops, depth);
    var m := Run(w, ops, depth).0.m;
    forall f | p <= f < p + m.cm[p].npages ensures m.cm[f].state == Fixed && m.cm[f].owner == Nobody {
      assert EntryOk(m.cm[f], m.clock);
    }
  }

  /** After any run no two kernel blocks share a frame. */
  lemma KernelBlocksApart(w: World, ops: seq<Op>, depth: nat, p: nat, q: nat)
    requires Booted(w) && depth > 0 && Feasible(w, ops, depth) && !Ended(Run(w, ops, depth).1)
    requires var cm := Run(w, ops, depth).0.m.cm; IsHead(cm, p) && IsHead(cm, q) && p != q
    ensures var cm := Run(w, ops, depth).0.m.cm; p + cm[p].npages <= q || q + cm[q].npages <= p
  {
    RunInv(w, ops, depth);
    var cm := Run(w, ops, depth).0.m.cm;
    if p < q {
      BlocksDisjoint(cm, p, q);
    } else {
      BlocksDisjoint(cm, q, p);
    }
  }

  // ---- what a user access moves ----

  /** The access finds the page out of memory. */
  predicate MustLoad(m: Machine, page: nat) {
    Covered(m.sp, page) && !InMemory(m.sp, page)
  }

  /** The machine with the page brought in, if it had to be. */
  ghost function Brought(m: Machine, id: nat, page: nat): Machine
    requires MustLoad(m, page) ==> Loadable(m, id, page)
  {
    if MustLoad(m, page) then Net(m, id, page) else m
  }

  ghost predicate RoomFor(m: Machine, id: nat, page: nat) {
    MustLoad(m, page) ==> Loadable(m, id, page)
  }

  lemma FaultMoves(w: World, page: nat, s: Schedule, depth: nat)
    requires Inv(w) && w.running != Nothing && page % PAGE_SIZE == 0 && depth > 0
    ensures var (m1, o) := Fault(w.m, w.running.id, page, s, depth);
      o == Panic(NoVictim) || o == Panic(SwapFull) ||
      AccessMoved(w.m, w.running.id, page, m1)
  {
    var id := w.running.id;
    RunningSettled(w);
    if !Covered(w.m.sp, page) {
      FaultUncovered(w.m, id, page, s, depth);
    } else if InMemory(w.m.sp, page) {
      FaultReload(w.m, id, page, s, depth);
    } else if CanLoad(w.m, id) {
      LoadableIntro(w.m, id, page);
      FaultLoad(w.m, id, page, s, depth);
    } else {
      FaultNoRoom(w.m, id, page, s, depth);
    }
  }

  lemma AccessCases(m: Machine, id: nat, page: nat, write: bool, s: Schedule, depth: nat)
    ensures var (m1, o) := Access(m, id, page, write, s, depth);
      if Translate(m.tlb.slots, page, write) == Miss then
        var (m2, o2) := Fault(m, id, page, s, depth);
        m1 == m2 && (o2 != Ok ==> o == o2) && (o2 == Ok ==> o != Panic(NoVictim) && o != Panic(SwapFull))
      else m1 == m
  {
  }

  lemma MappedNoLoad(w: World, page: nat, write: bool)
    requires Inv(w) && w.running != Nothing && Translate(w.m.tlb.slots, page, write) != Miss
    ensures !MustLoad(w.m, page)
  {
    TranslateMapped(w.m, page, write);
  }

  /** The tables after an access: the page is brought in if it has to be. */
  ghost predicate AccessMoved(m: Machine, id: nat, page: nat, m1: Machine) {
    RoomFor(m, id, page) && SameTables(Brought(m, id, page), m1)
  }

  lemma AccessMoves(w: World, page: nat, write: bool, s: Schedule, depth: nat)
    requires Inv(w) && w.running != Nothing && page % PAGE_SIZE == 0 && depth > 0
    ensures var (m1, o) := Access(w.m, w.running.id, page, write, s, depth);
      o == Panic(NoVictim) || o == Panic(SwapFull) || AccessMoved(w.m, w.running.id, page, m1)
  {
    AccessCases(w.m, w.running.id, page, write, s, depth);
    if Translate(w.m.tlb.slots, page, write) == Miss {
      FaultMoves(w, page, s, depth);
    } else {
      MappedNoLoad(w, page, write);
    }
  }

  /** The machine after a user step: the page brought in, and possibly a byte stored in its frame. */
  ghost predicate UserMoves(m: Machine, id: nat, page: nat, m': Machine) {
    && RoomFor(m, id, page)
    && var b := Brought(m, id, page);
      && m'.cm == b.cm && m'.clock == b.clock && m'.base == b.base && |m'.ram| == |b.ram|
      && forall f :: 0 <= f < |b.ram| && f < |b.cm| && m'.ram[f] != b.ram[f] ==> b.cm[f].owner == As(id)
  }

  lemma PokeMoves(m: Machine, id: nat, page: nat, m1: Machine, f: nat, off: nat, b: Byte)
    requires AccessMoved(m, id, page, m1) && off < PAGE_SIZE
    requires f < |m1.ram| && f < |m1.cm| && m1.cm[f].owner == As(id)
    ensures UserMoves(m, id, page, Poke(m1, f, off, b))
  {
  }

  lemma UserStepMoves(w: World, op: Op, depth: nat)
    requires Inv(w) && w.running != Nothing && (op.Load? || op.Store?) && depth > 0
    ensures var (w', r) := UserStep(w, op, depth);
      OutOfRoom(r) || UserMoves(w.m, w.running.id, PageBase(op.va), w'.m)
  {
    var page := PageBase(op.va);
    var id := w.running.id;
    var (m1, o) := Access(w.m, id, page, op.Store?, op.s, depth);
    AccessMoves(w, page, op.Store?, op.s, depth);
    UserStepCases(w, op, depth);
    if o == Ok {
      var f := HitOwned(w, op, depth);
      if op.Store? {
        PokeMoves(w.m, id, page, m1, f, op.va % PAGE_SIZE, op.b);
      }
    } else if o == Panic(NoVictim) || o == Panic(SwapFull) {
      assert OutOfRoom(FailResult(o));
    }
  }

  lemma HitOwned(w: World, op: Op, depth: nat) returns (f: nat)
    requires Inv(w) && w.running != Nothing && (op.Load? || op.Store?) && depth > 0
    requires Access(w.m, w.running.id, PageBase(op.va), op.Store?, op.s, depth).1 == Ok
    ensures var m1 := Access(w.m, w.running.id, PageBase(op.va), op.Store?, op.s, depth).0;
      && f == HitFrame(m1, PageBase(op.va), op.Store?)
      && f < |m1.ram| && f < |m1.cm| && m1.cm[f].owner == As(w.running.id)
  {
    var page := PageBase(op.va);
    AccessKeeps(w, page, op.Store?, op.s, depth);
    var m1 := Access(w.m, w.running.id, page, op.Store?, op.s, depth).0;
    HitIsFrame(w, page, op.Store?, m1);
    f := HitFrame(m1, page, op.Store?);
  }
}
