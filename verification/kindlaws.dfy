/** What each statistics counter comes to by itself over whole runs (kern/vm/vm_stats.c, vm.c, tlb.c). */
module KindLaws {
  import opened Layout
  import opened Coremap
  import opened SwapSpace
  import opened Tlb
  import opened AddressSpace
  import opened Demand
  import opened Soundness
  import opened Paging
  import opened Transparency
  import opened Kernel
  import opened UserSteps
  import opened Spaces
  import opened Refinement
  import opened Runs
  import opened Balance

  /** Pages zeroed, pages read from the program file, pages swapped in, TLB invalidations. */
  datatype Gains = Gains(zero: nat, elf: nat, swap: nat, invalid: nat)

  function Sum(a: Gains, b: Gains): Gains {
    Gains(a.zero + b.zero, a.elf + b.elf, a.swap + b.swap, a.invalid + b.invalid)
  }

  function Read(st: Stats): Gains {
    Gains(st.zero, st.elf, st.swap, st.invalid)
  }

  /** What bringing in the page adds: by its swap slot if it has one, else by whether its segment has a file; with the flushes of every copy. */
  function LoadGains(m: Machine, page: nat, s: Schedule): Gains
    requires FirstEntry(m.sp.pt, page) < |m.sp.pt| && Covered(m.sp, page)
  {
    var out := if NeedsEviction(m) then IoFlushes(s.out) else 0;
    if m.sp.pt[FirstEntry(m.sp.pt, page)].inSwap then Gains(0, 0, 1, out + IoFlushes(s.fill))
    else if SegOf(m.sp, page).offset < 0 then Gains(1, 0, 0, out + IoFlushes(s.zero))
    else Gains(0, 1, 0, out + IoFlushes(s.zero) + IoFlushes(s.fill))
  }

  const NO_GAINS := Gains(0, 0, 0, 0)

  function AccessGains(m: Machine, page: nat, s: Schedule): Gains {
    if MustLoad(m, page) && FirstEntry(m.sp.pt, page) < |m.sp.pt| then LoadGains(m, page, s) else NO_GAINS
  }

  /** What an operation adds; a switch to an address space invalidates the TLB once. */
  function StepGains(w: World, op: Op): Gains {
    match op
    case Load(va, s) => if w.running == Nothing then NO_GAINS else AccessGains(w.m, PageBase(va), s)
    case Store(va, _, s) => if w.running == Nothing then NO_GAINS else AccessGains(w.m, PageBase(va), s)
    case FlushTlb => Gains(0, 0, 0, if w.running == Nothing then 0 else 1)
    case Resume(_) => Gains(0, 0, 0, 1)
    case Create(_, _) => Gains(0, 0, 0, 1)
    case _ => NO_GAINS
  }

  ghost function RunGains(w: World, ops: seq<Op>, depth: nat): Gains
    requires Feasible(w, ops, depth)
    decreases |ops|
  {
    if ops == [] || OutOfRoom(Step(w, ops[0], depth).1) then NO_GAINS
    else Sum(StepGains(w, ops[0]), RunGains(Step(w, ops[0], depth).0, ops[1..], depth))
  }

  // ---- one step ----

  lemma LoadKindsAre(m: Machine, page: nat, s: Schedule, st: Stats)
    requires FirstEntry(m.sp.pt, page) < |m.sp.pt| && Covered(m.sp, page) && Kinds(st) == LoadKinds(m, page, s)
    ensures Read(st) == Sum(Read(m.st), LoadGains(m, page, s))
  {
  }

  lemma FaultGains(m: Machine, id: nat, page: nat, s: Schedule, depth: nat)
    requires Settled(m, id) && page % PAGE_SIZE == 0 && depth > 0
    requires Covered(m.sp, page) && !InMemory(m.sp, page) ==> CanLoad(m, id)
    ensures Read(Fault(m, id, page, s, depth).0.st) == Sum(Read(m.st), AccessGains(m, page, s))
  {
    if !Covered(m.sp, page) {
      FaultUncovered(m, id, page, s, depth);
    } else if InMemory(m.sp, page) {
      FaultReload(m, id, page, s, depth);
    } else {
      LoadableIntro(m, id, page);
      FaultLoad(m, id, page, s, depth);
      LoadKindsAre(m, page, s, Fault(m, id, page, s, depth).0.st);
    }
  }

  /** The operation adds what it should. */
  ghost predicate Gained(w: World, op: Op, m': Machine) {
    Read(m'.st) == Sum(Read(w.m.st), StepGains(w, op))
  }

  lemma AccessGained(w: World, page: nat, write: bool, s: Schedule, depth: nat)
    requires Inv(w) && w.running != Nothing && page % PAGE_SIZE == 0 && depth > 0
    requires MustLoad(w.m, page) ==> CanLoad(w.m, w.running.id)
    ensures Read(Access(w.m, w.running.id, page, write, s, depth).0.st) == Sum(Read(w.m.st), AccessGains(w.m, page, s))
  {
    AccessCases(w.m, w.running.id, page, write, s, depth);
    if Translate(w.m.tlb.slots, page, write) == Miss {
      RunningSettled(w);
      FaultGains(w.m, w.running.id, page, s, depth);
    } else {
      MappedCovered(w, page, write);
    }
  }

  lemma UserGained(w: World, op: Op, depth: nat)
    requires Inv(w) && w.running != Nothing && (op.Load? || op.Store?) && depth > 0
    requires !OutOfRoom(UserStep(w, op, depth).1)
    ensures Gained(w, op, UserStep(w, op, depth).0.m)
  {
    UserRoom(w, op, depth);
    AccessGained(w, PageBase(op.va), op.Store?, op.s, depth);
    UserStepCases(w, op, depth);
    if Access(w.m, w.running.id, PageBase(op.va), op.Store?, op.s, depth).1 == Ok {
      var f := HitOwned(w, op, depth);
    }
  }

  lemma OthersGained(w: World, op: Op, depth: nat)
    requires Inv(w) && Enabled(w, op) && ((!op.Load? && !op.Store?) || w.running == Nothing)
    ensures Gained(w, op, Step(w, op, depth).0.m)
  {
  }

  lemma StepGained(w: World, op: Op, depth: nat)
    requires Inv(w) && Enabled(w, op) && depth > 0 && !OutOfRoom(Step(w, op, depth).1)
    ensures Gained(w, op, Step(w, op, depth).0.m)
  {
    if (op.Load? || op.Store?) && w.running != Nothing {
      UserGained(w, op, depth);
    } else {
      OthersGained(w, op, depth);
    }
  }

  // ---- runs ----

  lemma {:induction false} RunGained(w: World, ops: seq<Op>, depth: nat)
    requires Inv(w) && depth > 0 && Feasible(w, ops, depth) && !Ended(Run(w, ops, depth).1)
    ensures Read(Run(w, ops, depth).0.m.st) == Sum(Read(w.m.st), RunGains(w, ops, depth))
    decreases |ops|
  {
    if ops != [] {
      var (w1, r) := Step(w, ops[0], depth);
      RunStep(w, ops, depth);
      if !OutOfRoom(r) {
        EndedTail(r, Run(w1, ops[1..], depth).1);
        StepRefines(w, ops[0], depth);
        StepGained(w, ops[0], depth);
        RunGained(w1, ops[1..], depth);
      }
    }
  }

  /**
   * Each counter by itself after any run from boot: a page in swap counts as
   * swapped in, a first touch as read from the program file or as zeroed by
   * its segment, every flush of an address space's TLB as an invalidation;
   * and Replace counts the TLB writes that found neither their page nor an
   * invalid slot, of which there is none since the last flush while no more
   * pages than slots have been mapped since.
   */
  lemma EachCounter(w: World, ops: seq<Op>, depth: nat)
    requires Booted(w) && depth > 0 && Feasible(w, ops, depth) && !Ended(Run(w, ops, depth).1)
    ensures var m := Run(w, ops, depth).0.m;
      && Gains(m.st.zero, m.st.elf, m.st.swap, m.st.invalid) == RunGains(w, ops, depth)
      && m.st.replace == m.tlb.past.displaced
      && (|m.tlb.past.mapped| <= |m.tlb.slots| ==> m.tlb.past.recent == 0)
  {
    BootedInv(w);
    RunGained(w, ops, depth);
    FromNothing(w.m.st, RunGains(w, ops, depth));
    RunInv(w, ops, depth);
    ReplaceBooks(Run(w, ops, depth).0);
  }

  lemma FromNothing(st: Stats, g: Gains)
    requires st == NO_STATS
    ensures Sum(Read(st), g) == g
  {
  }

  lemma ReplaceBooks(w: World)
    requires Inv(w)
    ensures w.m.st.replace == w.m.tlb.past.displaced && (|w.m.tlb.past.mapped| <= |w.m.tlb.slots| ==> w.m.tlb.past.recent == 0)
  {
  }
}
