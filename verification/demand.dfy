/** Demand paging: the page fault handler as a function on the kernel's tables (kern/vm/vm.c). */
module Demand {
  import opened Layout
  import opened Coremap
  import opened SwapSpace
  import opened Tlb
  import AS = AddressSpace

  /** The counters of kern/vm/vm_stats.c. */
  datatype Stats = Stats(faults: nat, free: nat, replace: nat, invalid: nat, reload: nat,
                         zero: nat, disk: nat, elf: nat, swap: nat, writes: nat)

  /** What the counters do not record: faults that failed after being counted, `tlbR` hits, evictions. */
  datatype Tally = Tally(failed: nat, reused: nat, evicted: nat)

  /** The kernel's tables with the running address space's own. */
  datatype Machine = Machine(base: nat, cm: seq<CmEntry>, clock: nat,
                             slots: seq<Slot>, blocks: seq<Page>, ram: seq<Page>,
                             tlb: TlbState, st: Stats, log: Tally, sp: AS.Space)

  datatype Why = NoVictim | SwapFull | SlotMissing | ReadOnly

  /**
   * How a fault ends. `Panic` stops the kernel, `Crash` is an access outside
   * a table, `TooDeep` a fault that would page in while another fault does.
   */
  datatype Outcome = Ok | EFault | Panic(why: Why) | Crash | TooDeep

  /** What can happen on the processor while user memory is copied. */
  datatype Event = Flush | Touch

  /** The events around one copy. */
  datatype Io = Io(before: seq<Event>, after: seq<Event>)

  /** The events of the copies of one fault: writing the victim, clearing the page, filling it. */
  datatype Schedule = Schedule(out: Io, zero: Io, fill: Io)

  // ---- counters ----

  function PlacedStats(st: Stats, p: Placed): Stats {
    if p == IntoFree then st.(free := st.free + 1) else st.(replace := st.replace + 1)
  }

  /** `tlbW` with its counter. */
  function TlbWrite(m: Machine, page: nat, frame: nat, write: int): Machine {
    var (t, p) := WriteEntry(m.tlb, Mapping(page, frame, write > 0));
    m.(tlb := t, st := PlacedStats(m.st, p))
  }

  /** `tlbR` with its counter. */
  function TlbReuse(m: Machine, victim: nat, page: nat, frame: nat): Machine {
    var (t, hit) := ReuseEntry(m.tlb, victim, page, frame);
    if hit then
      m.(tlb := t, st := m.st.(free := m.st.free + 1), log := m.log.(reused := m.log.reused + 1))
    else m
  }

  /** `as_activate` with an address space running: flush and count. */
  function Flushed(m: Machine): Machine {
    m.(tlb := FlushAll(m.tlb), st := m.st.(invalid := m.st.invalid + 1))
  }

  // ---- copies to and from user memory ----

  /** One access to a user page; a miss faults and is retried. */
  function TouchPage(m: Machine, id: nat, page: nat, write: bool, s: Schedule, depth: nat): (Machine, Outcome)
    decreases depth, 0
  {
    match Translate(m.tlb.slots, page, write)
    case Hit(_) => (m, Ok)
    case Denied => (m, Panic(ReadOnly))
    case Miss =>
      if depth == 0 then (m, TooDeep)
      else
        var (m1, o) := Fault(m, id, page, s, depth - 1);
        if o != Ok then (m1, o)
        else if Translate(m1.tlb.slots, page, write).Hit? then (m1, Ok) else (m1, Panic(ReadOnly))
  }

  function RunEvents(m: Machine, id: nat, page: nat, write: bool, evs: seq<Event>, s: Schedule, depth: nat): (Machine, Outcome)
    decreases depth, 1, |evs|
  {
    if evs == [] then (m, Ok)
    else
      match evs[0]
      case Flush => RunEvents(Flushed(m), id, page, write, evs[1..], s, depth)
      case Touch =>
        var (m1, o) := TouchPage(m, id, page, write, s, depth);
        if o != Ok then (m1, o) else RunEvents(m1, id, page, write, evs[1..], s, depth)
  }

  /** Copy a user page out; the bytes come from the frame the TLB translates to. */
  function UserRead(m: Machine, id: nat, page: nat, io: Io, s: Schedule, depth: nat): (Machine, Outcome, Page)
    decreases depth, 2
  {
    var (m1, o1) := RunEvents(m, id, page, false, io.before + [Touch], s, depth);
    if o1 != Ok then (m1, o1, ZeroPage())
    else
      var a := Translate(m1.tlb.slots, page, false);
      var f := if a.Hit? then FrameIndex(m1.base, a.frame) else -1;
      if !(0 <= f < |m1.ram|) then (m1, Crash, ZeroPage())
      else
        var data := m1.ram[f];
        var (m2, o2) := RunEvents(m1, id, page, false, io.after, s, depth);
        (m2, o2, data)
  }

  /** Copy bytes into a user page; they go to the frame the TLB translates to. */
  function UserWrite(m: Machine, id: nat, page: nat, start: nat, bytes: seq<Byte>, io: Io, s: Schedule, depth: nat): (Machine, Outcome)
    decreases depth, 2
  {
    var (m1, o1) := RunEvents(m, id, page, true, io.before + [Touch], s, depth);
    if o1 != Ok then (m1, o1)
    else
      var a := Translate(m1.tlb.slots, page, true);
      var f := if a.Hit? then FrameIndex(m1.base, a.frame) else -1;
      if !(0 <= f < |m1.ram|) || start + |bytes| > PAGE_SIZE then (m1, Crash)
      else
        RunEvents(m1.(ram := m1.ram[f := Overlay(m1.ram[f], start, bytes)]), id, page, true, io.after, s, depth)
  }

  // ---- frames ----

  /** `frame_alloc`; `None` is the address 0. */
  function FrameAlloc(m: Machine, id: nat, page: nat): (Machine, nat) {
    var f := FirstFree(m.cm);
    if f == |m.cm| then (m, 0)
    else
      (m.(cm := m.cm[f := CmEntry(As(id), page, Loading, 1, At(m.clock))], clock := m.clock + 1), FrameAddr(m.base, f))
  }

  /** `cm_evict`, for a victim position `f` already chosen by the scan. */
  function Unhook(m: Machine, f: nat): Machine
    requires f < |m.cm|
  {
    m.(cm := m.cm[f := CmEntry(Nobody, 0, Loading, 0, Never)])
  }

  /** `cm_update_vaddr`. */
  function Rehook(m: Machine, id: nat, f: nat, page: nat): Machine
    requires f < |m.cm|
  {
    m.(cm := m.cm[f := CmEntry(As(id), page, Loading, 1, At(m.clock))], clock := m.clock + 1)
  }

  /** `swap_out`. */
  function SwapOut(m: Machine, id: nat, victim: nat, s: Schedule, depth: nat): (Machine, Outcome)
    decreases depth, 3
  {
    var j := FirstVacant(m.slots);
    if j == |m.slots| then (m, Panic(SwapFull))
    else
      var (m1, o, data) := UserRead(m.(slots := m.slots[j := Held(id, victim)]), id, victim, s.out, s, depth);
      if o != Ok then (m1, o)
      else if j >= |m1.blocks| then (m1, Crash)
      else (m1.(blocks := m1.blocks[j := data]), Ok)
  }

  /** Give the frame of a victim that is written out to the page. */
  function Replace(m: Machine, id: nat, f: nat, victim: nat, page: nat, frame: nat): (Machine, Outcome, nat)
    requires f < |m.cm|
  {
    var m1 := Rehook(m.(sp := m.sp.(pt := AS.MarkSwapped(m.sp.pt, victim))), id, f, page);
    if frame == 0 then (m1.(log := m1.log.(failed := m1.log.failed + 1)), EFault, 0)
    else (TlbReuse(m1, victim, page, frame), Ok, frame)
  }

  /** Write the victim out and give its frame to the page. */
  function Displace(m: Machine, id: nat, f: nat, victim: nat, page: nat, frame: nat, s: Schedule, depth: nat): (Machine, Outcome, nat)
    decreases depth, 4
  {
    var (m1, o) := SwapOut(m, id, victim, s, depth);
    if o != Ok then (m1, o, 0)
    else if f >= |m1.cm| then (m1, Crash, 0)
    else Replace(m1, id, f, victim, page, frame)
  }

  /** `handle_victim_and_swapout`. */
  function EvictFor(m: Machine, id: nat, page: nat, s: Schedule, depth: nat): (Machine, Outcome, nat)
    decreases depth, 5
  {
    var m1 := m.(st := m.st.(writes := m.st.writes + 1));
    var f := Oldest(m.cm, id, 0, m.clock, -1);
    if f < 0 then (m1, Panic(NoVictim), 0)
    else
      var victim := m.cm[f].page;
      var m2 := Unhook(m1, f).(log := m1.log.(evicted := m1.log.evicted + 1));
      Displace(m2, id, f, victim, page, FrameAddr(m.base, f), s, depth)
  }

  /** A frame for the page: a free one, else the oldest of this address space. */
  function GetFrame(m: Machine, id: nat, page: nat, s: Schedule, depth: nat): (Machine, Outcome, nat)
    decreases depth, 6
  {
    var (m1, frame) := FrameAlloc(m, id, page);
    if frame != 0 then (m1, Ok, frame) else EvictFor(m1, id, page, s, depth)
  }

  /** `swap_in`: the slot is freed before its block is read. */
  function SwapIn(m: Machine, id: nat, page: nat, s: Schedule, depth: nat): (Machine, Outcome)
    decreases depth, 3
  {
    var j := FindSlot(m.slots, id, page);
    if j == |m.slots| then (m, Panic(SlotMissing))
    else if j >= |m.blocks| then (m, Crash)
    else UserWrite(m.(slots := m.slots[j := Vacant]), id, page, 0, m.blocks[j], s.fill, s, depth)
  }

  // ---- loading from the program file ----

  /** `compute_memsz` for the i-th page, counted from 1; a size below zero is a wrapped `size_t`. */
  function ComputeMemsz(seg: AS.Segment, i: nat): int {
    if seg.size < PAGE_SIZE then seg.size
    else if i == 1 then PAGE_SIZE - seg.offset % PAGE_SIZE
    else if i == seg.npages then
      var resid := seg.npages * PAGE_SIZE - seg.size;
      PAGE_SIZE - (resid - seg.offset % PAGE_SIZE)
    else PAGE_SIZE
  }

  /** `compute_offset`. */
  function ComputeOffset(offset: nat, i: nat): int
    requires i >= 1
  {
    var ret := offset + (i - 1) * PAGE_SIZE;
    if i != 1 then ret - ret % PAGE_SIZE else ret
  }

  /** Where in its page the i-th load starts. */
  function LoadStart(seg: AS.Segment, i: nat): nat {
    if i == 1 then seg.offset % PAGE_SIZE else 0
  }

  /** Load the program's bytes into a cleared page, if there are any. */
  function LoadPage(m: Machine, id: nat, seg: AS.Segment, i: nat, page: nat, s: Schedule, depth: nat): (Machine, Outcome)
    requires i >= 1
    decreases depth, 3
  {
    if seg.offset < 0 then (m.(st := m.st.(zero := m.st.zero + 1)), Ok)
    else
      var memsz := ComputeMemsz(seg, i);
      if memsz < 0 || LoadStart(seg, i) + memsz > PAGE_SIZE then (m, Crash)
      else
        var data := ReadFile(m.sp.elf, ComputeOffset(seg.offset, i), memsz);
        var (m1, o) := UserWrite(m, id, page, LoadStart(seg, i), data, s.fill, s, depth);
        if o != Ok then (m1, o)
        else (m1.(st := m1.st.(elf := m1.st.elf + 1, disk := m1.st.disk + 1)), Ok)
  }

  /** The first touch of a page. */
  function FirstTouch(m: Machine, id: nat, seg: AS.Segment, i: nat, page: nat, s: Schedule, depth: nat): (Machine, Outcome)
    requires i >= 1
    decreases depth, 4
  {
    var (m1, o) := UserWrite(m, id, page, 0, ZeroPage(), s.zero, s, depth);
    if o != Ok then (m1, o) else LoadPage(m1, id, seg, i, page, s, depth)
  }

  // ---- the fault handler ----

  /** The page is in memory: only the TLB lacks it. A frame still loading is mapped writable. */
  function Reload(m: Machine, seg: AS.Segment, page: nat, frame: nat): (Machine, Outcome) {
    var f := FrameIndex(m.base, frame);
    if !(0 <= f < |m.cm|) then (m, Crash)
    else
      var m1 := m.(st := m.st.(reload := m.st.reload + 1));
      (TlbWrite(m1, page, frame, if m.cm[f].state == Loading then 2 else seg.write), Ok)
  }

  /** The page is loaded: `cm_update_state` to CLEAN and map it with its segment's permission. */
  function Finish(m: Machine, seg: AS.Segment, page: nat, frame: nat): (Machine, Outcome) {
    var f := FrameIndex(m.base, frame);
    if !(0 <= f < |m.cm|) then (m, Crash)
    else (TlbWrite(m.(cm := m.cm[f := m.cm[f].(state := Clean)]), page, frame, seg.write), Ok)
  }

  /** Fill the frame, from the page's swap slot if it has one. */
  function Fill(m: Machine, id: nat, seg: AS.Segment, i: nat, page: nat, wasSwapped: bool, s: Schedule, depth: nat): (Machine, Outcome)
    requires i >= 1
    decreases depth, 5
  {
    if wasSwapped then
      var (m1, o) := SwapIn(m, id, page, s, depth);
      if o != Ok then (m1, o)
      else (m1.(st := m1.st.(swap := m1.st.swap + 1, disk := m1.st.disk + 1)), Ok)
    else FirstTouch(m, id, seg, i, page, s, depth)
  }

  /** Bring the page of entry `k` into memory. */
  function PageIn(m: Machine, id: nat, seg: AS.Segment, k: nat, i: nat, page: nat, s: Schedule, depth: nat): (Machine, Outcome)
    requires i >= 1
    decreases depth, 7
  {
    if k >= |m.sp.pt| then (m, Crash)
    else
      var wasSwapped := m.sp.pt[k].inSwap;
      var (m1, o1, frame) := GetFrame(m, id, page, s, depth);
      if o1 != Ok then (m1, o1)
      else if k >= |m1.sp.pt| then (m1, Crash)
      else
        var m2 := m1.(sp := m1.sp.(pt := m1.sp.pt[k := m1.sp.pt[k].(frame := frame, inMem := true, inSwap := false)]));
        var (m3, o3) := Fill(m2, id, seg, i, page, wasSwapped, s, depth);
        if o3 != Ok then (m3, o3) else Finish(m3, seg, page, frame)
  }

  /** Serve a fault on the page of entry `k`, the segment's `i`-th. */
  function Serve(m: Machine, id: nat, seg: AS.Segment, k: nat, i: nat, page: nat, s: Schedule, depth: nat): (Machine, Outcome)
    requires i >= 1
    decreases depth, 8
  {
    if k >= |m.sp.pt| then (m, Crash)
    else if m.sp.pt[k].inMem then Reload(m, seg, page, m.sp.pt[k].frame)
    else if depth == 0 then (m, TooDeep)
    else PageIn(m, id, seg, k, i, page, s, depth)
  }

  /** `vm_fault` for a read or write fault, with an address space running. */
  function Fault(m: Machine, id: nat, addr: nat, s: Schedule, depth: nat): (Machine, Outcome)
    decreases depth, 9
  {
    var page := PageBase(addr);
    var m0 := m.(st := m.st.(faults := m.st.faults + 1));
    var failed := (m0.(log := m0.log.(failed := m0.log.failed + 1)), EFault);
    var j := AS.FindSeg(m.sp.segs, page);
    if j == |m.sp.segs| then failed
    else
      var seg := m.sp.segs[j];
      if seg.suffix > |m.sp.pt| then (m0, Crash)
      else
        var first := |m.sp.pt| - seg.suffix;
        match AS.Walk(m.sp.pt, first, seg.npages, page)
        case NotFound => failed
        case RanOff => (m0, Crash)
        case Found(k) =>
          Serve(m0, id, seg, k, k - first + 1, page, s, depth)
  }
}
