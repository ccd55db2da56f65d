/** Every operation of the paged machine is the same operation on flat memory (kern/vm/vm.c). */
module Refinement {
  import opened Layout
  import opened Coremap
  import opened SwapSpace
  import opened Tlb
  import opened AddressSpace
  import opened Demand
  import opened Soundness
  import opened Paging
  import opened Transparency
  import opened Loading
  import opened Kernel
  import opened UserSteps
  import opened Spaces

  // ---- steps and runs ----

  lemma StackFlat(f: Flat, top: nat)
    requires f.running != Nothing && f.running.id in f.spaces && top >= STACK_PAGES * PAGE_SIZE
    ensures FlatStep(f, DefineStack(top)) == (FlatDefine(f, FlatStack(StackBase(top))), Done)
  {
  }

  /** The operation and its image in flat memory refine each other. */
  ghost predicate StepOk(w: World, op: Op, depth: nat)
    requires Inv(w) && Enabled(w, op)
  {
    var (w', r) := Step(w, op, depth);
    var (f', fr) := FlatStep(Flatten(w), op);
    Refines(w, w', r, f', fr)
  }

  lemma SwitchRefines(w: World, op: Op, depth: nat)
    requires Inv(w) && Enabled(w, op) && (op.FlushTlb? || op.Park? || op.Resume?)
    ensures StepOk(w, op, depth)
  {
    match op
    case FlushTlb => if w.running != Nothing { FlushKeeps(w); }
    case Park => if w.running != Nothing { ParkKeeps(w); }
    case Resume(id) => ResumeKeeps(w, id);
  }

  lemma SpaceRefines(w: World, op: Op, depth: nat)
    requires Inv(w) && Enabled(w, op) && (op.Create? || op.Destroy?)
    ensures StepOk(w, op, depth)
  {
    match op
    case Create(id, elf) => CreateInv(w, id, elf); CreateFlat(w, id, elf);
    case Destroy(id) => DestroyInv(w, id); DestroyFlat(w, id);
  }

  lemma DefineRefines(w: World, op: Op, depth: nat)
    requires Inv(w) && Enabled(w, op) && (op.DefineRegion? || op.DefineStack?)
    ensures StepOk(w, op, depth)
  {
    match op
    case DefineRegion(_, _, _, _, _) => RegionKeeps(w, op);
    case DefineStack(top) =>
      StackKeeps(w, top);
      StackFlat(Flatten(w), top);
      FlattenRunning(w);
  }

  /** Flat memory does not see the kernel's blocks. */
  lemma HeapFlat(f: Flat, op: Op)
    requires op.KernelAlloc? || op.KernelFree? || op.KernelStore?
    ensures FlatStep(f, op) == (f, Done)
  {
  }

  lemma StepHeap(w: World, op: Op, depth: nat)
    requires Enabled(w, op) && |w.m.ram| == |w.m.cm| && Blocks(w.m.cm)
    ensures op.KernelAlloc? ==>
      var p := LowestRun(w.m.cm, Max(op.n, 1));
      if p < |w.m.cm| then IsRun(w.m.cm, p, op.n) && Step(w, op, depth) == (w.(m := WithBlock(w.m, p, op.n)), Done)
      else Step(w, op, depth) == (w, Done)
    ensures op.KernelFree? ==> Step(w, op, depth) == (w.(m := WithoutBlock(w.m, op.p)), Done)
    ensures op.KernelStore? ==> Step(w, op, depth) == (w.(m := WithPage(w.m, op.f, op.data)), Done)
  {
  }

  lemma HeapInvisible(w: World, op: Op, depth: nat)
    requires Inv(w) && Enabled(w, op) && (op.KernelAlloc? || op.KernelFree? || op.KernelStore?)
    ensures Invisible(w, Step(w, op, depth).0)
  {
    StepHeap(w, op, depth);
    match op
    case KernelAlloc(n) =>
      if LowestRun(w.m.cm, Max(n, 1)) < |w.m.cm| {
        KernelAllocKeeps(w, LowestRun(w.m.cm, Max(n, 1)), n);
      }
    case KernelFree(p) => KernelFreeKeeps(w, p);
    case KernelStore(f, data) => KernelStoreKeeps(w, f, data);
  }

  lemma HeapRefines(w: World, op: Op, depth: nat)
    requires Inv(w) && Enabled(w, op) && (op.KernelAlloc? || op.KernelFree? || op.KernelStore?)
    ensures StepOk(w, op, depth)
  {
    HeapInvisible(w, op, depth);
    HeapFlat(Flatten(w), op);
    StepHeap(w, op, depth);
  }

  lemma InstructionRefines(w: World, op: Op, depth: nat)
    requires Inv(w) && (op.Load? || op.Store?) && depth > 0
    ensures Enabled(w, op) && StepOk(w, op, depth)
  {
    UserRefines(w, op, depth);
  }

  /** Every step of the machine is the same step of flat memory, or the machine is out of room. */
  lemma StepRefines(w: World, op: Op, depth: nat)
    requires Inv(w) && Enabled(w, op) && depth > 0
    ensures StepOk(w, op, depth)
  {
    match op
    case Load(_, _) => InstructionRefines(w, op, depth);
    case Store(_, _, _) => InstructionRefines(w, op, depth);
    case FlushTlb => SwitchRefines(w, op, depth);
    case Park => SwitchRefines(w, op, depth);
    case Resume(_) => SwitchRefines(w, op, depth);
    case Create(_, _) => SpaceRefines(w, op, depth);
    case Destroy(_) => SpaceRefines(w, op, depth);
    case DefineRegion(_, _, _, _, _) => DefineRefines(w, op, depth);
    case DefineStack(_) => DefineRefines(w, op, depth);
    case KernelAlloc(_) => HeapRefines(w, op, depth);
    case KernelFree(_) => HeapRefines(w, op, depth);
    case KernelStore(_, _) => HeapRefines(w, op, depth);
  }
}
