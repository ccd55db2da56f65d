/** The order in which pages leave memory, and what user code cannot touch, over whole runs. */
module Fifo {
  import opened Layout
  import opened Coremap
  import opened SwapSpace
  import opened Tlb
  import opened AddressSpace
  import opened Demand
  import opened Soundness
  import opened Paging
  import opened Transparency
  import opened Kernel
  import opened UserSteps
  import opened Spaces
  import opened Refinement
  import opened Runs

  // ---- the queue of an address space's frames ----

  ghost predicate Older(s: Stamp, t: Stamp) {
    s.At? && t.At? && s.time < t.time
  }

  /** `q` lists the frames of an address space, longest loaded first. */
  ghost predicate IsQueue(cm: seq<CmEntry>, id: nat, q: seq<nat>) {
    && (forall i :: 0 <= i < |q| ==> q[i] < |cm| && cm[q[i]].owner == As(id))
    && (forall i, j :: 0 <= i < j < |q| ==> q[i] < |cm| && q[j] < |cm| && Older(cm[q[i]].stamp, cm[q[j]].stamp))
    && (forall f: nat :: f < |cm| && cm[f].owner == As(id) ==> f in q)
  }

  /** The pages in a queue's frames. */
  function PagesIn(cm: seq<CmEntry>, q: seq<nat>): (r: seq<nat>)
    requires forall i :: 0 <= i < |q| ==> q[i] < |cm|
  {
    seq(|q|, i requires 0 <= i < |q| => cm[q[i]].page)
  }

  /** The coremap after frame `f` is given to the page. */
  function Given(cm: seq<CmEntry>, f: nat, id: nat, page: nat, clock: nat): seq<CmEntry>
    requires f < |cm|
  {
    cm[f := CmEntry(As(id), page, Clean, 1, At(clock))]
  }

  /** The victim of an eviction is the head of the queue. */
  lemma VictimIsHead(m: Machine, id: nat, page: nat, q: seq<nat>)
    requires Loadable(m, id, page) && NeedsEviction(m) && IsQueue(m.cm, id, q)
    ensures q != [] && Target(m, id) == q[0]
  {
    TargetFrame(m, id, page);
    var r := Target(m, id);
    assert r in q;
    assert EntryOk(m.cm[r], m.clock) && EntryOk(m.cm[q[0]], m.clock);
    var i :| 0 <= i < |q| && q[i] == r;
    if i > 0 {
      assert Older(m.cm[q[0]].stamp, m.cm[q[i]].stamp);
      assert Evictable(m.cm[q[0]], id);
    }
  }

  lemma NetCoremap(m: Machine, id: nat, page: nat)
    requires Loadable(m, id, page)
    ensures 0 <= Target(m, id) < |m.cm|
    ensures Net(m, id, page).cm == Given(m.cm, Target(m, id), id, page, m.clock)
    ensures Net(m, id, page).clock == m.clock + 1
  {
    TargetFrame(m, id, page);
  }

  lemma QueueAppend(cm: seq<CmEntry>, id: nat, q: seq<nat>, f: nat, page: nat, clock: nat)
    requires IsQueue(cm, id, q) && f < |cm| && cm[f].owner != As(id)
    requires forall g: nat :: g < |cm| && cm[g].owner == As(id) ==> Before(cm[g].stamp, clock)
    ensures var cm' := Given(cm, f, id, page, clock);
      IsQueue(cm', id, q + [f]) && PagesIn(cm', q + [f]) == PagesIn(cm, q) + [page]
  {
    var cm' := Given(cm, f, id, page, clock);
    var q' := q + [f];
    forall g: nat | g < |cm'| && cm'[g].owner == As(id) ensures g in q' {
      assert g != f ==> g in q;
    }
    forall i, j | 0 <= i < j < |q'| ensures Older(cm'[q'[i]].stamp, cm'[q'[j]].stamp) {
      assert cm[q[i]].owner == As(id);
      assert j < |q| ==> Older(cm[q[i]].stamp, cm[q[j]].stamp);
    }
    assert PagesIn(cm', q') == PagesIn(cm, q) + [page];
  }

  lemma QueueRotate(cm: seq<CmEntry>, id: nat, q: seq<nat>, page: nat, clock: nat)
    requires IsQueue(cm, id, q) && q != []
    requires forall g: nat :: g < |cm| && cm[g].owner == As(id) ==> Before(cm[g].stamp, clock)
    ensures var cm' := Given(cm, q[0], id, page, clock);
      IsQueue(cm', id, q[1..] + [q[0]]) && PagesIn(cm', q[1..] + [q[0]]) == PagesIn(cm, q)[1..] + [page]
  {
    var f := q[0];
    var cm' := Given(cm, f, id, page, clock);
    var q' := q[1..] + [f];
    forall i | 1 <= i < |q| ensures q[i] != f {
      assert Older(cm[q[0]].stamp, cm[q[i]].stamp);
    }
    forall g: nat | g < |cm'| && cm'[g].owner == As(id) ensures g in q' {
      assert g in q;
      var i :| 0 <= i < |q| && q[i] == g;
      assert q'[if i == 0 then |q| - 1 else i - 1] == g;
    }
    forall i, j | 0 <= i < j < |q'| ensures Older(cm'[q'[i]].stamp, cm'[q'[j]].stamp) {
      assert cm[q[i + 1]].owner == As(id);
      assert j + 1 < |q| ==> Older(cm[q[i + 1]].stamp, cm[q[j + 1]].stamp);
    }
    assert PagesIn(cm', q') == PagesIn(cm, q)[1..] + [page];
  }

  lemma StampsBefore(m: Machine, id: nat)
    requires Tables(m)
    ensures forall g: nat :: g < |m.cm| && m.cm[g].owner == As(id) ==> Before(m.cm[g].stamp, m.clock)
  {
    forall g: nat | g < |m.cm| && m.cm[g].owner == As(id) ensures Before(m.cm[g].stamp, m.clock) {
      assert EntryOk(m.cm[g], m.clock);
    }
  }

  // ---- histories ----

  /** The pages an address space has brought into memory, and those it has lost, in order. */
  datatype History = History(loads: seq<nat>, evictions: seq<nat>)

  /** First in, first out: the evictions are the oldest loads, and the frames hold the rest in order. */
  ghost predicate InOrder(cm: seq<CmEntry>, id: nat, h: History) {
    && |h.evictions| <= |h.loads| && h.evictions == h.loads[..|h.evictions|]
    && exists q :: IsQueue(cm, id, q) && PagesIn(cm, q) == h.loads[|h.evictions|..]
  }

  /** The history after a load, whose victim is the one `cm_evict` chooses. */
  function Extended(m: Machine, id: nat, page: nat, h: History): History
    requires NeedsEviction(m) ==> 0 <= Target(m, id) < |m.cm|
  {
    History(h.loads + [page], if NeedsEviction(m) then h.evictions + [m.cm[Target(m, id)].page] else h.evictions)
  }

  /** The queue after a load: the new page at the tail, the victim gone from the head. */
  lemma LoadQueue(m: Machine, id: nat, page: nat, q: seq<nat>) returns (q': seq<nat>)
    requires Loadable(m, id, page) && IsQueue(m.cm, id, q)
    ensures NeedsEviction(m) ==> q != [] && Target(m, id) == q[0]
    ensures 0 <= Target(m, id) < |m.cm|
    ensures var cm' := Net(m, id, page).cm;
      && IsQueue(cm', id, q')
      && PagesIn(cm', q') == (if NeedsEviction(m) then PagesIn(m.cm, q)[1..] else PagesIn(m.cm, q)) + [page]
  {
    NetCoremap(m, id, page);
    StampsBefore(m, id);
    if NeedsEviction(m) {
      VictimIsHead(m, id, page, q);
      QueueRotate(m.cm, id, q, page, m.clock);
      q' := q[1..] + [q[0]];
    } else {
      TargetFrame(m, id, page);
      QueueAppend(m.cm, id, q, Target(m, id), page, m.clock);
      q' := q + [Target(m, id)];
    }
  }

  lemma LoadInOrder(m: Machine, id: nat, page: nat, h: History)
    requires Loadable(m, id, page) && InOrder(m.cm, id, h)
    ensures NeedsEviction(m) ==> 0 <= Target(m, id) < |m.cm|
    ensures InOrder(Net(m, id, page).cm, id, Extended(m, id, page, h))
  {
    var q :| IsQueue(m.cm, id, q) && PagesIn(m.cm, q) == h.loads[|h.evictions|..];
    var q' := LoadQueue(m, id, page, q);
    var h' := Extended(m, id, page, h);
    HistoryMoves(h, page, PagesIn(m.cm, q), NeedsEviction(m));
    assert IsQueue(Net(m, id, page).cm, id, q') && PagesIn(Net(m, id, page).cm, q') == h'.loads[|h'.evictions|..];
  }

  /** A history and the pages in memory move together: a load at the end of both, an eviction from one to the other. */
  lemma HistoryMoves(h: History, page: nat, resident: seq<nat>, evict: bool)
    requires |h.evictions| <= |h.loads| && h.evictions == h.loads[..|h.evictions|] && resident == h.loads[|h.evictions|..]
    requires evict ==> resident != []
    ensures var h' := History(h.loads + [page], if evict then h.evictions + [resident[0]] else h.evictions);
      && |h'.evictions| <= |h'.loads| && h'.evictions == h'.loads[..|h'.evictions|]
      && h'.loads[|h'.evictions|..] == (if evict then resident[1..] else resident) + [page]
  {
  }

  /** An address space's order depends on the records of its own frames. */
  lemma OrderKept(cm: seq<CmEntry>, cm': seq<CmEntry>, id: nat, h: History)
    requires InOrder(cm, id, h) && |cm'| == |cm|
    requires forall f :: 0 <= f < |cm| && cm[f].owner == As(id) ==> cm'[f] == cm[f]
    requires forall f :: 0 <= f < |cm| && cm'[f].owner == As(id) ==> cm[f].owner == As(id)
    ensures InOrder(cm', id, h)
  {
    var q :| IsQueue(cm, id, q) && PagesIn(cm, q) == h.loads[|h.evictions|..];
    assert IsQueue(cm', id, q);
    assert PagesIn(cm', q) == PagesIn(cm, q);
  }

  // ---- over runs ----

  ghost predicate AllInOrder(w: World, hs: map<nat, History>) {
    forall id :: id in Ids(w) ==> id in hs && InOrder(w.m.cm, id, hs[id])
  }

  function RecordedLoad(m: Machine, id: nat, page: nat, hs: map<nat, History>): map<nat, History> {
    if id in hs && MustLoad(m, page) && CanLoad(m, id) && Target(m, id) < |m.cm|
    then hs[id := Extended(m, id, page, hs[id])]
    else hs
  }

  /** The histories after an operation: a user access may load a page, a new address space starts afresh. */
  function Recorded(w: World, op: Op, hs: map<nat, History>): map<nat, History> {
    if op.Create? then hs[op.id := History([], [])]
    else if (op.Load? || op.Store?) && w.running.User? then RecordedLoad(w.m, w.running.id, PageBase(op.va), hs)
    else hs
  }

  ghost function RunHistory(w: World, ops: seq<Op>, hs: map<nat, History>, depth: nat): map<nat, History>
    requires Feasible(w, ops, depth)
    decreases |ops|
  {
    if ops == [] then hs
    else
      var (w1, r) := Step(w, ops[0], depth);
      if OutOfRoom(r) then hs else RunHistory(w1, ops[1..], Recorded(w, ops[0], hs), depth)
  }

  /** A load leaves the queues of other address spaces alone. */
  lemma OtherInOrder(m: Machine, id: nat, page: nat, other: nat, h: History)
    requires Loadable(m, id, page) && other != id && InOrder(m.cm, other, h) && |m.ram| == |m.cm|
    ensures InOrder(Net(m, id, page).cm, other, h)
  {
    NetUndisturbed(m, id, page, other);
    OrderKept(m.cm, Net(m, id, page).cm, other, h);
  }

  lemma UserInOrder(w: World, op: Op, hs: map<nat, History>, m': Machine)
    requires Inv(w) && w.running != Nothing && (op.Load? || op.Store?) && AllInOrder(w, hs)
    requires UserMoves(w.m, w.running.id, PageBase(op.va), m')
    ensures AllInOrder(w.(m := m'), Recorded(w, op, hs))
  {
    var r := w.running.id;
    var page := PageBase(op.va);
    assert r in Ids(w);
    if MustLoad(w.m, page) {
      LoadInOrder(w.m, r, page, hs[r]);
      forall id | id in Ids(w) && id != r ensures InOrder(m'.cm, id, hs[id]) {
        OtherInOrder(w.m, r, page, id, hs[id]);
      }
    }
  }

  /** Operations other than user accesses leave the frames of every surviving address space alone. */
  lemma OthersKept(w: World, op: Op, depth: nat, id: nat)
    requires Inv(w) && Enabled(w, op) && !op.Load? && !op.Store? && id in Ids(w) && op != Destroy(id)
    ensures var m' := Step(w, op, depth).0.m;
      && |m'.cm| == |w.m.cm|
      && (forall f :: 0 <= f < |w.m.cm| && w.m.cm[f].owner == As(id) ==> m'.cm[f] == w.m.cm[f])
      && (forall f :: 0 <= f < |w.m.cm| && m'.cm[f].owner == As(id) ==> w.m.cm[f].owner == As(id))
  {
    if op.KernelAlloc? || op.KernelFree? || op.KernelStore? {
      HeapKept(w, op, depth);
    }
  }

  lemma HeapKept(w: World, op: Op, depth: nat)
    requires Inv(w) && Enabled(w, op) && (op.KernelAlloc? || op.KernelFree? || op.KernelStore?)
    ensures var m' := Step(w, op, depth).0.m;
      && |m'.cm| == |w.m.cm|
      && (forall f :: 0 <= f < |w.m.cm| && (w.m.cm[f].owner.As? || m'.cm[f].owner.As?) ==> m'.cm[f] == w.m.cm[f])
  {
    StepHeap(w, op, depth);
    if op.KernelFree? {
      ReleaseTables(w.m, op.p);
    } else if op.KernelAlloc? && LowestRun(w.m.cm, Max(op.n, 1)) < |w.m.cm| {
      ClaimTables(w.m, LowestRun(w.m.cm, Max(op.n, 1)), op.n);
    }
  }

  lemma NewInOrder(m: Machine, id: nat, ids: set<nat>)
    requires OwnersLive(m, ids) && id !in ids
    ensures InOrder(m.cm, id, History([], []))
  {
    assert IsQueue(m.cm, id, []);
    assert PagesIn(m.cm, []) == [];
  }

  lemma StepIds(w: World, op: Op, depth: nat, id: nat)
    requires Inv(w) && Enabled(w, op) && !op.Load? && !op.Store? && id in Ids(Step(w, op, depth).0)
    ensures (id in Ids(w) && op != Destroy(id)) || (op.Create? && op.id == id)
    ensures op.Create? && op.id == id ==> id !in Ids(w) && Step(w, op, depth).0.m.cm == w.m.cm
  {
  }

  /** Other operations keep every surviving history and start a new one for a created address space. */
  lemma OthersInOrder(w: World, op: Op, hs: map<nat, History>, depth: nat, id: nat)
    requires Inv(w) && Enabled(w, op) && AllInOrder(w, hs) && !op.Load? && !op.Store?
    requires id in Ids(Step(w, op, depth).0)
    ensures id in Recorded(w, op, hs) && InOrder(Step(w, op, depth).0.m.cm, id, Recorded(w, op, hs)[id])
  {
    StepIds(w, op, depth, id);
    if op.Create? && op.id == id {
      NewInOrder(w.m, id, Ids(w));
    } else {
      OthersKept(w, op, depth, id);
      OrderKept(w.m.cm, Step(w, op, depth).0.m.cm, id, hs[id]);
    }
  }

  lemma StepInOrder(w: World, op: Op, hs: map<nat, History>, depth: nat)
    requires Inv(w) && Enabled(w, op) && AllInOrder(w, hs) && depth > 0
    requires !OutOfRoom(Step(w, op, depth).1)
    ensures AllInOrder(Step(w, op, depth).0, Recorded(w, op, hs))
  {
    var w' := Step(w, op, depth).0;
    if op.Load? || op.Store? {
      if w.running != Nothing {
        UserStepMoves(w, op, depth);
        UserInOrder(w, op, hs, w'.m);
      }
    } else {
      forall id | id in Ids(w') ensures id in Recorded(w, op, hs) && InOrder(w'.m.cm, id, Recorded(w, op, hs)[id]) {
        OthersInOrder(w, op, hs, depth, id);
      }
    }
  }

  /**
   * Eviction is first in, first out over whole runs: whatever else happens,
   * each address space has lost its pages in the order it loaded them, and
   * its frames hold the pages loaded since, oldest stamp first.
   */
  lemma {:induction false} EvictionIsFifo(w: World, ops: seq<Op>, hs: map<nat, History>, depth: nat)
    requires Inv(w) && AllInOrder(w, hs) && depth > 0 && Feasible(w, ops, depth) && !Ended(Run(w, ops, depth).1)
    ensures AllInOrder(Run(w, ops, depth).0, RunHistory(w, ops, hs, depth))
    decreases |ops|
  {
    if ops != [] {
      StepRefines(w, ops[0], depth);
      var (w1, r) := Step(w, ops[0], depth);
      if !OutOfRoom(r) {
        StepInOrder(w, ops[0], hs, depth);
        EndedTail(r, Run(w1, ops[1..], depth).1);
        EvictionIsFifo(w1, ops[1..], Recorded(w, ops[0], hs), depth);
      }
    }
  }

  // ---- kernel frames ----

  /** The operation writes or frees kernel frame `f` itself. */
  ghost predicate Names(w: World, op: Op, f: nat) {
    || (op.KernelStore? && op.f == f)
    || (op.KernelFree? && op.p < |w.m.cm| && op.p <= f < op.p + w.m.cm[op.p].npages)
  }

  lemma UserKeepsKernel(w: World, op: Op, f: nat, m': Machine)
    requires Inv(w) && w.running != Nothing && (op.Load? || op.Store?)
    requires UserMoves(w.m, w.running.id, PageBase(op.va), m')
    requires f < |w.m.cm| && w.m.cm[f].state == Fixed
    ensures f < |m'.cm| && m'.cm[f] == w.m.cm[f] && f < |m'.ram| && m'.ram[f] == w.m.ram[f]
  {
    var page := PageBase(op.va);
    assert EntryOk(w.m.cm[f], w.m.clock);
    if MustLoad(w.m, page) {
      TargetFrame(w.m, w.running.id, page);
      var g := Target(w.m, w.running.id);
      assert EntryOk(w.m.cm[g], w.m.clock);
    }
  }

  /** No operation but a free of its block or a store to it touches a kernel frame: not its record, not its bytes. */
  lemma KernelFramesKept(w: World, op: Op, depth: nat, f: nat)
    requires Inv(w) && Enabled(w, op) && depth > 0 && !OutOfRoom(Step(w, op, depth).1)
    requires f < |w.m.cm| && w.m.cm[f].state == Fixed && !Names(w, op, f)
    ensures var m' := Step(w, op, depth).0.m;
      f < |m'.cm| && m'.cm[f] == w.m.cm[f] && f < |m'.ram| && m'.ram[f] == w.m.ram[f]
  {
    if op.Load? || op.Store? {
      if w.running != Nothing {
        UserStepMoves(w, op, depth);
        UserKeepsKernel(w, op, f, Step(w, op, depth).0.m);
      }
    } else if op.KernelAlloc? || op.KernelFree? || op.KernelStore? {
      StepHeap(w, op, depth);
      if op.KernelFree? {
        ReleaseTables(w.m, op.p);
      }
    }
  }
}
