/** Over every run of the heap and demand paging together no frame is lost (kern/vm/kmalloc.c, vm.c, coremap.c). */
module JointConservation {
  import opened Layout
  import opened Coremap
  import opened KHeap
  import opened HeapAllocation
  import opened HeapFreeing
  import opened HeapConservation
  import opened JointRuns
  import H = KHeapRuns
  import K = Kernel
  import D = Demand
  import P = Paging
  import R = Runs
  import T = Transparency

  /** Paging makes no frame FIXED. */
  lemma NoNewFixed(w: K.World, op: K.Op, depth: nat)
    requires K.Inv(w) && K.Enabled(w, op) && depth > 0 && PagingOp(op) && !K.OutOfRoom(K.Step(w, op, depth).1)
    ensures var cm' := K.Step(w, op, depth).0.m.cm;
      |cm'| == |w.m.cm| && forall f :: 0 <= f < |cm'| && cm'[f].state == Fixed ==> cm'[f] == w.m.cm[f]
  {
    ShapeKept(w, op, depth);
    if (op.Load? || op.Store?) && w.running != K.Nothing {
      R.UserStepMoves(w, op, depth);
      UserNoNewFixed(w.m, w.running.id, PageBase(op.va), K.Step(w, op, depth).0.m);
    } else {
      OthersNoNewFixed(w, op, depth);
    }
  }

  lemma UserNoNewFixed(m: D.Machine, id: nat, page: nat, m': D.Machine)
    requires R.UserMoves(m, id, page, m')
    ensures |m'.cm| == |m.cm| && forall f :: 0 <= f < |m.cm| && m'.cm[f].state == Fixed ==> m'.cm[f] == m.cm[f]
  {
  }

  lemma OthersNoNewFixed(w: K.World, op: K.Op, depth: nat)
    requires K.Inv(w) && K.Enabled(w, op) && PagingOp(op) && ((!op.Load? && !op.Store?) || w.running == K.Nothing)
    ensures var cm' := K.Step(w, op, depth).0.m.cm;
      |cm'| == |w.m.cm| && forall f :: 0 <= f < |cm'| && cm'[f].state == Fixed ==> cm'[f] == w.m.cm[f]
  {
  }

  /** The same FIXED frames are the same kernel blocks. */
  lemma SameFixed(h: Heap, h': Heap, live: Live, boot: set<nat>)
    requires Conserved(h, live, boot) && h' == h.(cm := h'.cm, clock := h'.clock) && |h'.cm| == |h.cm|
    requires forall f :: 0 <= f < |h.cm| && h.cm[f].state == Fixed ==> h'.cm[f] == h.cm[f]
    requires forall f :: 0 <= f < |h.cm| && h'.cm[f].state == Fixed ==> h'.cm[f] == h.cm[f]
    ensures Conserved(h', live, boot)
  {
    forall a: nat, k: nat | HeadAt(h', a, k) && a != 0 ensures UsedAt(h', live, a) {
      assert HeadAt(h, a, k);
    }
    forall f | 0 <= f < |h'.cm| && h'.cm[f].state == Fixed && f !in boot ensures InSomeBlock(h'.cm, f) {
      assert InSomeBlock(h.cm, f);
      var p :| 0 <= p < |h.cm| && IsHead(h.cm, p) && p <= f < p + h.cm[p].npages;
      assert h'.cm[p] == h.cm[p];
    }
  }

  ghost predicate AllConserved(s: State, boot: set<nat>) {
    Conserved(s.heap.h, s.heap.live, boot)
  }

  lemma PagingConserves(s: State, p: K.Op, depth: nat, boot: set<nat>)
    requires BothInv(s) && AllConserved(s, boot) && Enabled(s, Paging(p)) && depth > 0 && !K.OutOfRoom(Next(s, Paging(p), depth).1)
    ensures AllConserved(Next(s, Paging(p), depth).0, boot)
  {
    FixedKept(s.w, p, depth);
    NoNewFixed(s.w, p, depth);
    SameFixed(s.heap.h, Next(s, Paging(p), depth).0.heap.h, s.heap.live, boot);
  }

  lemma StepConserves(s: State, op: Op, depth: nat, boot: set<nat>)
    requires BothInv(s) && AllConserved(s, boot) && Enabled(s, op) && depth > 0 && !K.OutOfRoom(Next(s, op, depth).1)
    ensures AllConserved(Next(s, op, depth).0, boot)
  {
    match op
    case Alloc(sz) => KmallocConserves(s.heap.h, s.heap.live, sz, boot);
    case Release(a) =>
      if Kfree(s.heap.h, a).1 != Panic {
        KfreeConserves(s.heap.h, s.heap.live, a, boot);
      }
    case Write(_, _, _) =>
    case Paging(p) => PagingConserves(s, p, depth, boot);
  }

  lemma {:induction false} RunConserves(s: State, ops: seq<Op>, depth: nat, boot: set<nat>)
    requires BothInv(s) && AllConserved(s, boot) && depth > 0 && Feasible(s, ops, depth)
    ensures BothInv(After(s, ops, depth)) && AllConserved(After(s, ops, depth), boot)
    decreases |ops|
  {
    if ops != [] {
      StepOk(s, ops[0], depth);
      StepConserves(s, ops[0], depth, boot);
      RunConserves(Next(s, ops[0], depth).0, ops[1..], depth, boot);
    }
  }

  /** The booted kernel with nothing on its heap. */
  ghost predicate Fresh(s: State, last: nat) {
    BothInv(s) && BootTable(s.w.m.cm, last) && s.heap.live == map[]
  }

  /** The frames the coremap itself is in. */
  function OwnFrames(last: nat): (r: set<nat>)
    ensures forall f: nat :: f in r <==> f <= last
  {
    if last == 0 then {0} else OwnFrames(last - 1) + {last}
  }

  lemma FreshConserved(s: State, last: nat)
    requires Fresh(s, last)
    ensures AllConserved(s, OwnFrames(last))
  {
    BootBlocks(s.w.m.cm, last);
  }

  lemma BootBlocks(cm: seq<CmEntry>, last: nat)
    requires BootTable(cm, last)
    ensures forall p: nat :: !IsHead(cm, p)
    ensures forall f :: 0 <= f < |cm| && cm[f].state == Fixed ==> f <= last
  {
    assert forall f :: 0 <= f < |cm| ==> cm[f] == BootEntry(f, last);
  }

  /**
   * After any run from boot in which every block handed out has been freed
   * again, the only frames still FIXED are the coremap's own and the pages
   * of records: allocation and paging between them lose none.
   */
  lemma NoFrameLost(s: State, ops: seq<Op>, depth: nat, last: nat, f: nat)
    requires Fresh(s, last) && depth > 0 && Feasible(s, ops, depth)
    requires var s' := After(s, ops, depth);
      s'.heap.live == map[] && f < |s'.w.m.cm| && s'.w.m.cm[f].state == Fixed && f > last
    ensures var h' := After(s, ops, depth).heap.h; h'.pages == [] && VAddr(h', f) in h'.roots
  {
    FreshConserved(s, last);
    RunConserves(s, ops, depth, OwnFrames(last));
    var s' := After(s, ops, depth);
    NothingLeft(s'.heap.h, OwnFrames(last), f);
  }
}
