/**
 * The fault handler over the kernel's own tables, arrays and lists, updated
 * in place (kern/vm/vm.c). Every method computes the function of the same
 * name in `Demand` on the value of the tables, so what is proved of those
 * functions holds of these methods.
 */
module VmSystem {
  import opened Layout
  import opened Coremap
  import opened SwapSpace
  import opened Tlb
  import AS = AddressSpace
  import D = Demand
  import K = Kernel
  import Paging
  import Transparency
  import opened Frames
  import opened SwapTable
  import opened TlbTable
  import opened VmStats
  import opened PageTable

  // ---- the handler's functions, case by case ----

  function Failed(m: D.Machine): D.Machine {
    m.(log := m.log.(failed := m.log.failed + 1))
  }

  /** What the search of the segments, then of the page in its segment, finds. */
  ghost predicate Searched(sp: AS.Space, page: nat, j: nat, i: nat, k: nat, walked: AS.Walked) {
    && j == AS.FindSeg(sp.segs, page)
    && (j < |sp.segs| ==>
          && sp.segs[j].suffix <= |sp.pt|
          && walked == AS.Walk(sp.pt, |sp.pt| - sp.segs[j].suffix, sp.segs[j].npages, page)
          && k == |sp.pt| - sp.segs[j].suffix + i - 1
          && (walked.Found? ==> walked == AS.Found(k)))
  }

  lemma FaultCases(m: D.Machine, id: nat, addr: nat, s: D.Schedule, depth: nat, j: nat, i: nat, k: nat, walked: AS.Walked)
    requires i >= 1 && Searched(m.sp, PageBase(addr), j, i, k, walked)
    ensures D.Fault(m, id, addr, s, depth) ==
      if j == |m.sp.segs| || walked == AS.NotFound then (Failed(Paging.Counted(m)), D.EFault)
      else if walked == AS.RanOff then (Paging.Counted(m), D.Crash)
      else D.Serve(Paging.Counted(m), id, m.sp.segs[j], k, i, PageBase(addr), s, depth)
  {
  }

  lemma TouchCases(m: D.Machine, id: nat, page: nat, write: bool, s: D.Schedule, depth: nat, m1: D.Machine, o: D.Outcome)
    requires Translate(m.tlb.slots, page, write) == Miss
    ensures depth == 0 ==> D.TouchPage(m, id, page, write, s, depth) == (m, D.TooDeep)
    ensures depth > 0 && (m1, o) == D.Fault(m, id, page, s, depth - 1) ==>
      D.TouchPage(m, id, page, write, s, depth) ==
        (m1, if o == D.Ok && !Translate(m1.tlb.slots, page, write).Hit? then D.Panic(D.ReadOnly) else o)
  {
  }

  function BytesLoaded(m: D.Machine, id: nat, page: nat, start: nat, bytes: seq<Byte>, s: D.Schedule, depth: nat): (D.Machine, D.Outcome) {
    var (m1, o) := D.UserWrite(m, id, page, start, bytes, s.fill, s, depth);
    if o != D.Ok then (m1, o) else (m1.(st := m1.st.(elf := m1.st.elf + 1, disk := m1.st.disk + 1)), D.Ok)
  }

  lemma LoadCases(m: D.Machine, id: nat, seg: AS.Segment, i: nat, page: nat, s: D.Schedule, depth: nat)
    requires i >= 1 && seg.offset >= 0
    ensures var n := D.ComputeMemsz(seg, i);
      D.LoadPage(m, id, seg, i, page, s, depth) ==
        if n < 0 || D.LoadStart(seg, i) + n > PAGE_SIZE then (m, D.Crash)
        else BytesLoaded(m, id, page, D.LoadStart(seg, i), ReadFile(m.sp.elf, D.ComputeOffset(seg.offset, i), n), s, depth)
  {
  }

  function WriteCounted(m: D.Machine): D.Machine {
    m.(st := m.st.(writes := m.st.writes + 1))
  }

  function Evicting(m: D.Machine, f: nat): D.Machine
    requires f < |m.cm|
  {
    D.Unhook(m, f).(log := m.log.(evicted := m.log.evicted + 1))
  }

  lemma EvictCases(m: D.Machine, id: nat, page: nat, s: D.Schedule, depth: nat)
    ensures var f := Oldest(m.cm, id, 0, m.clock, -1);
      D.EvictFor(m, id, page, s, depth) ==
        if f < 0 then (WriteCounted(m), D.Panic(D.NoVictim), 0)
        else D.Displace(Evicting(WriteCounted(m), f), id, f, m.cm[f].page, page, FrameAddr(m.base, f), s, depth)
  {
  }

  lemma SwapInCases(m: D.Machine, id: nat, page: nat, s: D.Schedule, depth: nat)
    requires |m.blocks| == |m.slots|
    ensures var j := FindSlot(m.slots, id, page);
      D.SwapIn(m, id, page, s, depth) ==
        if j == |m.slots| then (m, D.Panic(D.SlotMissing))
        else D.UserWrite(m.(slots := m.slots[j := Vacant]), id, page, 0, m.blocks[j], s.fill, s, depth)
  {
  }

  function SwapCounted(m: D.Machine): D.Machine {
    m.(st := m.st.(swap := m.st.swap + 1, disk := m.st.disk + 1))
  }

  lemma FillCases(m: D.Machine, id: nat, seg: AS.Segment, i: nat, page: nat, wasSwapped: bool, s: D.Schedule, depth: nat)
    requires i >= 1
    ensures D.Fill(m, id, seg, i, page, wasSwapped, s, depth) ==
      if wasSwapped then
        var (m1, o) := D.SwapIn(m, id, page, s, depth);
        if o != D.Ok then (m1, o) else (SwapCounted(m1), D.Ok)
      else D.FirstTouch(m, id, seg, i, page, s, depth)
  {
  }

  function ReloadCounted(m: D.Machine): D.Machine {
    m.(st := m.st.(reload := m.st.reload + 1))
  }

  lemma ReloadCases(m: D.Machine, seg: AS.Segment, page: nat, frame: nat)
    ensures var f := FrameIndex(m.base, frame);
      D.Reload(m, seg, page, frame) ==
        if 0 <= f < |m.cm| then
          (D.TlbWrite(ReloadCounted(m), page, frame, if m.cm[f].state == Loading then 2 else seg.write), D.Ok)
        else (m, D.Crash)
  {
  }

  function VictimOut(m: D.Machine, victim: nat): D.Machine {
    m.(sp := m.sp.(pt := AS.MarkSwapped(m.sp.pt, victim)))
  }

  class Vm {
    const frames: FrameTable
    const swap: SwapFile
    const tlb: TlbRegisters
    const stats: Counters
    const ram: array<Page>
    const space: AddrSpace
    ghost var log: D.Tally

    constructor (frames: FrameTable, swap: SwapFile, tlb: TlbRegisters, ram: array<Page>, space: AddrSpace)
      requires swap.Valid() && tlb.Valid() && space.Valid() && ram != swap.blocks
      ensures Valid() && this.frames == frames && this.swap == swap && this.tlb == tlb && this.ram == ram && this.space == space
      ensures log == D.Tally(0, 0, 0)
    {
      this.frames, this.swap, this.tlb, this.stats, this.ram, this.space := frames, swap, tlb, tlb.stats, ram, space;
      log := D.Tally(0, 0, 0);
    }

    ghost predicate Valid()
      reads tlb, space, space.entries
    {
      swap.Valid() && stats == tlb.stats && tlb.Valid() && space.Valid() && ram != swap.blocks
    }

    /** The value of all the tables. */
    ghost function Tables(): D.Machine
      reads this, frames, frames.entries, swap.slots, swap.blocks, tlb, tlb.slots, stats.cells, ram, space, space.entries
      requires stats.Valid()
    {
      D.Machine(frames.base, frames.entries[..], frames.clock, swap.slots[..], swap.blocks[..], ram[..],
                tlb.Value(), stats.Value(), log, space.Value())
    }

    // ---- counters ----

    method CountFault()
      requires Valid()
      modifies stats.cells
      ensures Valid() && Tables() == Paging.Counted(old(Tables()))
    {
      stats.Inc(TLB_FAULT);
    }

    method CountWrite()
      requires Valid()
      modifies stats.cells
      ensures Valid()
      ensures Tables() == WriteCounted(old(Tables()))
    {
      stats.Inc(SWAP_FILE_WRITE);
    }

    method CountZero()
      requires Valid()
      modifies stats.cells
      ensures Valid()
      ensures var m := old(Tables()); Tables() == m.(st := m.st.(zero := m.st.zero + 1))
    {
      stats.Inc(PAGE_FAULT_ZERO);
    }

    method CountReload()
      requires Valid()
      modifies stats.cells
      ensures Valid() && Tables() == ReloadCounted(old(Tables()))
    {
      stats.Inc(TLB_RELOAD);
    }

    method CountElf()
      requires Valid()
      modifies stats.cells
      ensures Valid()
      ensures var m := old(Tables()); Tables() == m.(st := m.st.(elf := m.st.elf + 1, disk := m.st.disk + 1))
    {
      stats.Inc(PAGE_FAULT_ELF);
      stats.Inc(PAGE_FAULT_DISK);
    }

    method CountSwap()
      requires Valid()
      modifies stats.cells
      ensures Valid() && Tables() == SwapCounted(old(Tables()))
    {
      stats.Inc(PAGE_FAULT_SWAP);
      stats.Inc(PAGE_FAULT_DISK);
    }

    method Fail()
      requires Valid()
      modifies this`log
      ensures Valid() && Tables() == Failed(old(Tables()))
    {
      log := log.(failed := log.failed + 1);
    }

    /** `tlbW`. */
    method TlbWrite(page: nat, frame: nat, write: int)
      requires Valid()
      modifies tlb`nextVictim, tlb`past, tlb.slots, stats.cells
      ensures Valid() && Tables() == D.TlbWrite(old(Tables()), page, frame, write)
    {
      tlb.Write(page, frame, write);
    }

    /** `tlbR`. */
    method TlbReuse(victim: nat, page: nat, frame: nat)
      requires Valid()
      modifies tlb`past, tlb.slots, stats.cells, this`log
      ensures Valid() && Tables() == D.TlbReuse(old(Tables()), victim, page, frame)
    {
      var hit := tlb.Reuse(victim, page, frame);
      if hit {
        log := log.(reused := log.reused + 1);
      }
    }

    // ---- copies to and from user memory ----

    method TouchPage(id: nat, page: nat, write: bool, s: D.Schedule, depth: nat) returns (o: D.Outcome)
      requires Valid()
      modifies this`log, frames`clock, frames.entries, swap.slots, swap.blocks, tlb`nextVictim, tlb`past, tlb.slots, stats.cells, ram, space.entries
      ensures Valid() && (Tables(), o) == D.TouchPage(old(Tables()), id, page, write, s, depth)
      decreases depth, 0
    {
      match Translate(tlb.slots[..], page, write)
      case Hit(_) => return D.Ok;
      case Denied => return D.Panic(D.ReadOnly);
      case Miss =>
        ghost var m := Tables();
        if depth == 0 {
          TouchCases(m, id, page, write, s, depth, m, D.Ok);
          return D.TooDeep;
        }
        o := Fault(id, page, s, depth - 1);
        TouchCases(m, id, page, write, s, depth, Tables(), o);
        if o == D.Ok && !Translate(tlb.slots[..], page, write).Hit? {
          o := D.Panic(D.ReadOnly);
        }
    }

    /** What happens on the processor around a copy, in order. */
    method RunEvents(id: nat, page: nat, write: bool, evs: seq<D.Event>, s: D.Schedule, depth: nat) returns (o: D.Outcome)
      requires Valid()
      modifies this`log, frames`clock, frames.entries, swap.slots, swap.blocks, tlb`nextVictim, tlb`past, tlb.slots, stats.cells, ram, space.entries
      ensures Valid() && (Tables(), o) == D.RunEvents(old(Tables()), id, page, write, evs, s, depth)
      decreases depth, 1
    {
      var i := 0;
      while i < |evs|
        invariant i <= |evs| && Valid()
        invariant D.RunEvents(old(Tables()), id, page, write, evs, s, depth) == D.RunEvents(Tables(), id, page, write, evs[i..], s, depth)
      {
        assert evs[i..][1..] == evs[i + 1..];
        if evs[i] == D.Flush {
          AsActivate();
        } else {
          o := TouchPage(id, page, write, s, depth);
          if o != D.Ok {
            return;
          }
        }
        i := i + 1;
      }
      o := D.Ok;
    }

    method UserRead(id: nat, page: nat, io: D.Io, s: D.Schedule, depth: nat) returns (o: D.Outcome, data: Page)
      requires Valid()
      modifies this`log, frames`clock, frames.entries, swap.slots, swap.blocks, tlb`nextVictim, tlb`past, tlb.slots, stats.cells, ram, space.entries
      ensures Valid() && (Tables(), o, data) == D.UserRead(old(Tables()), id, page, io, s, depth)
      decreases depth, 2
    {
      data := ZeroPage();
      o := RunEvents(id, page, false, io.before + [D.Touch], s, depth);
      if o != D.Ok {
        return;
      }
      var a := Translate(tlb.slots[..], page, false);
      var f := if a.Hit? then FrameIndex(frames.base, a.frame) else -1;
      if !(0 <= f < ram.Length) {
        o := D.Crash;
        return;
      }
      data := ram[f];
      o := RunEvents(id, page, false, io.after, s, depth);
    }

    method StoreBytes(f: nat, start: nat, bytes: seq<Byte>)
      requires Valid() && f < ram.Length && start + |bytes| <= PAGE_SIZE
      modifies ram
      ensures Valid()
      ensures var m := old(Tables()); Tables() == m.(ram := m.ram[f := Overlay(m.ram[f], start, bytes)])
    {
      ram[f] := Overlay(ram[f], start, bytes);
    }

    method UserWrite(id: nat, page: nat, start: nat, bytes: seq<Byte>, io: D.Io, s: D.Schedule, depth: nat) returns (o: D.Outcome)
      requires Valid()
      modifies this`log, frames`clock, frames.entries, swap.slots, swap.blocks, tlb`nextVictim, tlb`past, tlb.slots, stats.cells, ram, space.entries
      ensures Valid() && (Tables(), o) == D.UserWrite(old(Tables()), id, page, start, bytes, io, s, depth)
      decreases depth, 2
    {
      o := RunEvents(id, page, true, io.before + [D.Touch], s, depth);
      if o != D.Ok {
        return;
      }
      var a := Translate(tlb.slots[..], page, true);
      var f := if a.Hit? then FrameIndex(frames.base, a.frame) else -1;
      if !(0 <= f < ram.Length) || start + |bytes| > PAGE_SIZE {
        o := D.Crash;
        return;
      }
      StoreBytes(f, start, bytes);
      o := RunEvents(id, page, true, io.after, s, depth);
    }

    // ---- frames and swap ----

    method FrameAlloc(id: nat, page: nat) returns (frame: nat)
      requires Valid()
      modifies frames`clock, frames.entries
      ensures Valid() && (Tables(), frame) == D.FrameAlloc(old(Tables()), id, page)
    {
      frame := frames.FrameAlloc(id, page);
    }

    method TakeSlot(id: nat, page: nat) returns (j: nat)
      requires Valid()
      modifies swap.slots
      ensures Valid() && j == FirstVacant(old(Tables()).slots)
      ensures j <= swap.slots.Length
      ensures Tables() == if j == swap.slots.Length then old(Tables()) else old(Tables()).(slots := old(Tables()).slots[j := Held(id, page)])
    {
      j := swap.Take(id, page);
    }

    method WriteBlock(j: nat, data: Page)
      requires Valid() && j < swap.blocks.Length
      modifies swap.blocks
      ensures Valid() && Tables() == old(Tables()).(blocks := old(Tables()).blocks[j := data])
    {
      swap.blocks[j] := data;
    }

    /** `cm_evict`. */
    method Unhook(id: nat) returns (victim: nat, frame: nat, pos: int)
      requires Valid()
      modifies frames.entries, this`log
      ensures Valid() && pos == Oldest(old(Tables()).cm, id, 0, old(Tables()).clock, -1)
      ensures pos < 0 ==> Tables() == old(Tables())
      ensures pos >= 0 ==>
        && victim == old(Tables()).cm[pos].page && frame == FrameAddr(frames.base, pos)
        && Tables() == Evicting(old(Tables()), pos)
    {
      victim, frame, pos := frames.CmEvict(id);
      if pos >= 0 {
        log := log.(evicted := log.evicted + 1);
      }
    }

    /** `pt_update`. */
    method MarkOut(victim: nat)
      requires Valid()
      modifies space.entries
      ensures Valid() && Tables() == VictimOut(old(Tables()), victim)
    {
      space.Update(victim);
    }

    /** `cm_update_vaddr`. */
    method Rehook(id: nat, pos: nat, page: nat)
      requires Valid() && pos < frames.entries.Length
      modifies frames`clock, frames.entries
      ensures Valid() && Tables() == D.Rehook(old(Tables()), id, pos, page)
    {
      frames.CmUpdateVaddr(id, pos, page);
    }

    /** `swap_out`. */
    method SwapOut(id: nat, victim: nat, s: D.Schedule, depth: nat) returns (o: D.Outcome)
      requires Valid()
      modifies this`log, frames`clock, frames.entries, swap.slots, swap.blocks, tlb`nextVictim, tlb`past, tlb.slots, stats.cells, ram, space.entries
      ensures Valid() && (Tables(), o) == D.SwapOut(old(Tables()), id, victim, s, depth)
      decreases depth, 3
    {
      var j := TakeSlot(id, victim);
      if j == swap.slots.Length {
        return D.Panic(D.SwapFull);
      }
      var data;
      o, data := UserRead(id, victim, s.out, s, depth);
      if o == D.Ok {
        WriteBlock(j, data);
      }
    }

    /** `swap_in`. */
    method SwapIn(id: nat, page: nat, s: D.Schedule, depth: nat) returns (o: D.Outcome)
      requires Valid()
      modifies this`log, frames`clock, frames.entries, swap.slots, swap.blocks, tlb`nextVictim, tlb`past, tlb.slots, stats.cells, ram, space.entries
      ensures Valid() && (Tables(), o) == D.SwapIn(old(Tables()), id, page, s, depth)
      decreases depth, 3
    {
      SwapInCases(Tables(), id, page, s, depth);
      var j := swap.Give(id, page);
      if j == swap.slots.Length {
        return D.Panic(D.SlotMissing);
      }
      o := UserWrite(id, page, 0, swap.blocks[j], s.fill, s, depth);
    }

    /** Give the frame of a victim that is written out to the page. */
    method Replace(id: nat, pos: nat, victim: nat, page: nat, pa: nat) returns (o: D.Outcome, frame: nat)
      requires Valid() && pos < frames.entries.Length
      modifies this`log, frames`clock, frames.entries, tlb`past, tlb.slots, stats.cells, space.entries
      ensures Valid() && (Tables(), o, frame) == D.Replace(old(Tables()), id, pos, victim, page, pa)
    {
      MarkOut(victim);
      Rehook(id, pos, page);
      if pa == 0 {
        Fail();
        return D.EFault, 0;
      }
      TlbReuse(victim, page, pa);
      return D.Ok, pa;
    }

    /** Write the victim out and give its frame to the page. */
    method Displace(id: nat, pos: nat, victim: nat, page: nat, pa: nat, s: D.Schedule, depth: nat) returns (o: D.Outcome, frame: nat)
      requires Valid() && pos < frames.entries.Length
      modifies this`log, frames`clock, frames.entries, swap.slots, swap.blocks, tlb`nextVictim, tlb`past, tlb.slots, stats.cells, ram, space.entries
      ensures Valid() && (Tables(), o, frame) == D.Displace(old(Tables()), id, pos, victim, page, pa, s, depth)
      decreases depth, 4
    {
      o := SwapOut(id, victim, s, depth);
      if o != D.Ok {
        return o, 0;
      }
      o, frame := Replace(id, pos, victim, page, pa);
    }

    /** `handle_victim_and_swapout`. */
    method EvictFor(id: nat, page: nat, s: D.Schedule, depth: nat) returns (o: D.Outcome, frame: nat)
      requires Valid()
      modifies this`log, frames`clock, frames.entries, swap.slots, swap.blocks, tlb`nextVictim, tlb`past, tlb.slots, stats.cells, ram, space.entries
      ensures Valid() && (Tables(), o, frame) == D.EvictFor(old(Tables()), id, page, s, depth)
      decreases depth, 5
    {
      EvictCases(Tables(), id, page, s, depth);
      CountWrite();
      var victim, pa, pos := Unhook(id);
      if pos < 0 {
        return D.Panic(D.NoVictim), 0;
      }
      o, frame := Displace(id, pos, victim, page, pa, s, depth);
    }

    method GetFrame(id: nat, page: nat, s: D.Schedule, depth: nat) returns (o: D.Outcome, frame: nat)
      requires Valid()
      modifies this`log, frames`clock, frames.entries, swap.slots, swap.blocks, tlb`nextVictim, tlb`past, tlb.slots, stats.cells, ram, space.entries
      ensures Valid() && (Tables(), o, frame) == D.GetFrame(old(Tables()), id, page, s, depth)
      decreases depth, 6
    {
      o := D.Ok;
      frame := FrameAlloc(id, page);
      if frame == 0 {
        o, frame := EvictFor(id, page, s, depth);
      }
    }

    // ---- filling a page ----

    /** Load the program's bytes into a cleared page, if there are any. */
    method LoadPage(id: nat, seg: SegmentEntry, i: nat, page: nat, s: D.Schedule, depth: nat) returns (o: D.Outcome)
      requires Valid() && i >= 1
      modifies this`log, frames`clock, frames.entries, swap.slots, swap.blocks, tlb`nextVictim, tlb`past, tlb.slots, stats.cells, ram, space.entries
      ensures Valid() && (Tables(), o) == D.LoadPage(old(Tables()), id, seg.Value(), i, page, s, depth)
      decreases depth, 3, 1
    {
      if seg.offset < 0 {
        CountZero();
        return D.Ok;
      }
      var memsz := D.ComputeMemsz(seg.Record(), i);
      var start := D.LoadStart(seg.Record(), i);
      LoadCases(Tables(), id, seg.Value(), i, page, s, depth);
      if memsz < 0 || start + memsz > PAGE_SIZE {
        return D.Crash;
      }
      o := LoadBytes(id, page, start, ReadFile(space.elf, D.ComputeOffset(seg.offset, i), memsz), s, depth);
    }

    /** `load_page_from_elf`, and its counters. */
    method LoadBytes(id: nat, page: nat, start: nat, bytes: seq<Byte>, s: D.Schedule, depth: nat) returns (o: D.Outcome)
      requires Valid()
      modifies this`log, frames`clock, frames.entries, swap.slots, swap.blocks, tlb`nextVictim, tlb`past, tlb.slots, stats.cells, ram, space.entries
      ensures Valid() && (Tables(), o) == BytesLoaded(old(Tables()), id, page, start, bytes, s, depth)
      decreases depth, 3, 0
    {
      o := UserWrite(id, page, start, bytes, s.fill, s, depth);
      if o == D.Ok {
        CountElf();
      }
    }

    /** The first touch of a page: clear it, then load it. */
    method FirstTouch(id: nat, seg: SegmentEntry, i: nat, page: nat, s: D.Schedule, depth: nat) returns (o: D.Outcome)
      requires Valid() && i >= 1
      modifies this`log, frames`clock, frames.entries, swap.slots, swap.blocks, tlb`nextVictim, tlb`past, tlb.slots, stats.cells, ram, space.entries
      ensures Valid() && (Tables(), o) == D.FirstTouch(old(Tables()), id, seg.Value(), i, page, s, depth)
      decreases depth, 4
    {
      o := UserWrite(id, page, 0, ZeroPage(), s.zero, s, depth);
      if o == D.Ok {
        o := LoadPage(id, seg, i, page, s, depth);
      }
    }

    /** Fill the frame, from the page's swap slot if it has one. */
    method Fill(id: nat, seg: SegmentEntry, i: nat, page: nat, wasSwapped: bool, s: D.Schedule, depth: nat) returns (o: D.Outcome)
      requires Valid() && i >= 1
      modifies this`log, frames`clock, frames.entries, swap.slots, swap.blocks, tlb`nextVictim, tlb`past, tlb.slots, stats.cells, ram, space.entries
      ensures Valid() && (Tables(), o) == D.Fill(old(Tables()), id, seg.Value(), i, page, wasSwapped, s, depth)
      decreases depth, 5
    {
      FillCases(Tables(), id, seg.Value(), i, page, wasSwapped, s, depth);
      if wasSwapped {
        o := SwapIn(id, page, s, depth);
        if o == D.Ok {
          CountSwap();
        }
      } else {
        o := FirstTouch(id, seg, i, page, s, depth);
      }
    }

    /** The end of a load: the frame is CLEAN and the page mapped. */
    method Finish(seg: SegmentEntry, page: nat, frame: nat) returns (o: D.Outcome)
      requires Valid()
      modifies frames.entries, tlb`nextVictim, tlb`past, tlb.slots, stats.cells
      ensures Valid() && (Tables(), o) == D.Finish(old(Tables()), seg.Value(), page, frame)
    {
      var f := FrameIndex(frames.base, frame);
      if !(0 <= f < frames.entries.Length) {
        return D.Crash;
      }
      frames.CmUpdateState(frame, Clean);
      TlbWrite(page, frame, seg.write);
      o := D.Ok;
    }

    /** Fill in the entry of a page being loaded. */
    method EnterPage(pte: PtEntry, frame: nat, ghost k: nat)
      requires Valid() && k < |space.entries| && pte == space.entries[k]
      modifies space.entries
      ensures Valid()
      ensures Tables() == old(Tables()).(sp := old(Tables()).sp.(pt := old(Tables()).sp.pt[k := old(Tables()).sp.pt[k].(frame := frame, inMem := true, inSwap := false)]))
    {
      ghost var before := Values(space.entries);
      pte.frame := frame;
      pte.inMem := true;
      pte.inSwap := false;
      assert Values(space.entries) == before[k := before[k].(frame := frame, inMem := true, inSwap := false)];
    }

    /** Bring the page of an entry into memory. */
    method PageIn(id: nat, seg: SegmentEntry, pte: PtEntry, ghost k: nat, i: nat, page: nat, s: D.Schedule, depth: nat) returns (o: D.Outcome)
      requires Valid() && k < |space.entries| && pte == space.entries[k] && i >= 1
      modifies this`log, frames`clock, frames.entries, swap.slots, swap.blocks, tlb`nextVictim, tlb`past, tlb.slots, stats.cells, ram, space.entries
      ensures Valid() && (Tables(), o) == D.PageIn(old(Tables()), id, seg.Value(), k, i, page, s, depth)
      decreases depth, 7
    {
      var wasSwapped := pte.inSwap;
      var frame;
      o, frame := GetFrame(id, page, s, depth);
      if o != D.Ok {
        return;
      }
      EnterPage(pte, frame, k);
      o := Fill(id, seg, i, page, wasSwapped, s, depth);
      if o == D.Ok {
        o := Finish(seg, page, frame);
      }
    }

    // ---- the fault handler ----

    /** The page is in memory: map it, writable while its frame is loading. */
    method Reload(seg: SegmentEntry, page: nat, frame: nat) returns (o: D.Outcome)
      requires Valid()
      modifies tlb`nextVictim, tlb`past, tlb.slots, stats.cells
      ensures Valid() && (Tables(), o) == D.Reload(old(Tables()), seg.Value(), page, frame)
    {
      var f := FrameIndex(frames.base, frame);
      if !(0 <= f < frames.entries.Length) {
        return D.Crash;
      }
      ReloadCases(Tables(), seg.Value(), page, frame);
      CountReload();
      var loading := frames.CmCheckState(frame, Loading);
      if loading {
        TlbWrite(page, frame, 2);
      } else {
        TlbWrite(page, frame, seg.write);
      }
      o := D.Ok;
    }

    /** Serve a fault on the page of an entry. */
    method Serve(id: nat, seg: SegmentEntry, pte: PtEntry, ghost k: nat, i: nat, page: nat, s: D.Schedule, depth: nat) returns (o: D.Outcome)
      requires Valid() && k < |space.entries| && pte == space.entries[k] && i >= 1
      modifies this`log, frames`clock, frames.entries, swap.slots, swap.blocks, tlb`nextVictim, tlb`past, tlb.slots, stats.cells, ram, space.entries
      ensures Valid() && (Tables(), o) == D.Serve(old(Tables()), id, seg.Value(), k, i, page, s, depth)
      decreases depth, 8
    {
      if pte.inMem {
        o := Reload(seg, page, pte.frame);
      } else if depth == 0 {
        o := D.TooDeep;
      } else {
        o := PageIn(id, seg, pte, k, i, page, s, depth);
      }
    }

    /** The search for the segment, then for the page in it; `pte` is null where the list ends too early. */
    method Search(page: nat) returns (seg: SegmentEntry?, pte: PtEntry?, i: nat, ghost j: nat, ghost k: nat, ghost walked: AS.Walked)
      requires Valid()
      ensures i >= 1 && Searched(Tables().sp, page, j, i, k, walked)
      ensures seg == null <==> j == |space.segs|
      ensures seg != null ==>
        && Tables().sp.segs[j] == seg.Value()
        && (i > seg.npages <==> walked == AS.NotFound)
        && (i <= seg.npages && pte == null <==> walked == AS.RanOff)
        && (i <= seg.npages && pte != null ==> k < |space.entries| && pte == space.entries[k])
    {
      seg, j := space.FindSegment(page);
      pte, i, k, walked := null, 1, 0, AS.NotFound;
      if seg != null {
        pte, i, k := space.FindPage(seg, page);
        walked := AS.Walk(space.Value().pt, |space.entries| - seg.suffix, seg.npages, page);
      }
    }

    /** `vm_fault`. */
    method Fault(id: nat, addr: nat, s: D.Schedule, depth: nat) returns (o: D.Outcome)
      requires Valid()
      modifies this`log, frames`clock, frames.entries, swap.slots, swap.blocks, tlb`nextVictim, tlb`past, tlb.slots, stats.cells, ram, space.entries
      ensures Valid() && (Tables(), o) == D.Fault(old(Tables()), id, addr, s, depth)
      decreases depth, 9
    {
      var page := PageBase(addr);
      var seg, pte, i, j, k, walked := Search(page);
      FaultCases(Tables(), id, addr, s, depth, j, i, k, walked);
      CountFault();
      if seg == null || i > seg.npages {
        Fail();
        return D.EFault;
      }
      if pte == null {
        return D.Crash;
      }
      o := Serve(id, seg, pte, k, i, page, s, depth);
    }

    /**
     * `vm_fault` as its callers see it, between faults: one level of nested
     * faults is enough, and no page of the address space changes.
     */
    method VmFault(id: nat, addr: nat, s: D.Schedule) returns (o: D.Outcome)
      requires Valid() && Paging.Settled(Tables(), id)
      modifies this`log, frames`clock, frames.entries, swap.slots, swap.blocks, tlb`nextVictim, tlb`past, tlb.slots, stats.cells, ram, space.entries
      ensures Valid()
      ensures o == D.Ok || o == D.EFault || o == D.Panic(D.NoVictim) || o == D.Panic(D.SwapFull)
      ensures o == D.EFault <==> !Paging.Covered(old(Tables()).sp, PageBase(addr))
      ensures o == D.Ok || o == D.EFault ==> Paging.Settled(Tables(), id) && Transparency.SameContents(old(Tables()), Tables(), id)
    {
      Transparency.FaultTransparent(Tables(), id, addr, s, 1);
      o := Fault(id, addr, s, 1);
    }

    // ---- switching and destroying address spaces ----

    /** `as_activate`. */
    method AsActivate()
      requires Valid()
      modifies tlb`past, tlb.slots, stats.cells
      ensures Valid() && Tables() == D.Flushed(old(Tables()))
    {
      tlb.Flush();
      stats.Inc(TLB_INVALID);
    }

    /** `as_destroy`. */
    method AsDestroy(id: nat)
      requires Valid()
      modifies frames.entries, swap.slots, space
      ensures Valid() && Tables() == K.FreeAll(old(Tables()), id).(sp := K.EMPTY_SPACE)
    {
      frames.CmAsfree(id);
      swap.SwapAsfree(id);
      space.Discard();
    }
  }
}
