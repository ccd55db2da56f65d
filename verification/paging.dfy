/** What a completed fault does, with its nested faults and TLB traffic folded away. */
module Paging {
  import opened Layout
  import opened Coremap
  import opened SwapSpace
  import opened Tlb
  import opened AddressSpace
  import opened Demand
  import opened Soundness

  // ---- invariants ----

  ghost predicate EntryOk(e: CmEntry, clock: nat) {
    match e.state
    case Free => e == FREE_ENTRY
    case Fixed => e.owner == Nobody
    case Loading => false
    case Clean => e.owner.As? && e.npages == 1 && Before(e.stamp, clock)
  }

  /** The kernel's tables between faults. */
  ghost predicate Tables(m: Machine) {
    && m.base > 0
    && |m.ram| == |m.cm| && |m.blocks| == |m.slots| && TlbShape(m.tlb)
    && (forall f :: 0 <= f < |m.cm| ==> EntryOk(m.cm[f], m.clock))
    && (forall f, g :: 0 <= f < g < |m.cm| && m.cm[f].state == Clean && m.cm[g].state == Clean ==> m.cm[f].stamp != m.cm[g].stamp)
    && (forall i, j :: 0 <= i < j < |m.slots| && m.slots[i].Held? ==> m.slots[i] != m.slots[j])
  }

  /** Every load of the segment stays within its page. */
  ghost predicate PageLocal(s: Segment) {
    s.offset >= 0 ==>
      forall i :: 1 <= i <= s.npages ==> 0 <= ComputeMemsz(s, i) && LoadStart(s, i) + ComputeMemsz(s, i) <= PAGE_SIZE
  }

  ghost predicate SpaceOk(sp: Space) {
    && Laid(sp.segs, sp.pt, 0)
    && (forall s :: s in sp.segs ==> PageLocal(s))
    && (forall k :: 0 <= k < |sp.pt| ==> sp.pt[k].page % PAGE_SIZE == 0)
  }

  /** An entry in memory has its frame, and the frame's record names it. */
  ghost predicate Backed(m: Machine, id: nat, e: Pte) {
    var f := FrameIndex(m.base, e.frame);
    0 <= f < |m.cm| && e.frame == FrameAddr(m.base, f) && m.cm[f].owner == As(id) && m.cm[f].page == e.page
  }

  /** The page tables, the coremap and the swap slots agree about one address space. */
  ghost predicate Coherent(m: Machine, id: nat, sp: Space) {
    && SpaceOk(sp)
    && (forall k :: 0 <= k < |sp.pt| && sp.pt[k].inMem ==>
          !sp.pt[k].inSwap && FirstEntry(sp.pt, sp.pt[k].page) == k && Backed(m, id, sp.pt[k]))
    && (forall k :: 0 <= k < |sp.pt| && sp.pt[k].inSwap ==>
          FirstEntry(sp.pt, sp.pt[k].page) == k && FindSlot(m.slots, id, sp.pt[k].page) < |m.slots|)
    && (forall f :: 0 <= f < |m.cm| && m.cm[f].owner == As(id) ==>
          var k := FirstEntry(sp.pt, m.cm[f].page);
          k < |sp.pt| && sp.pt[k].inMem && sp.pt[k].frame == FrameAddr(m.base, f))
    && (forall j :: 0 <= j < |m.slots| && m.slots[j].Held? && m.slots[j].id == id ==>
          var k := FirstEntry(sp.pt, m.slots[j].page);
          k < |sp.pt| && sp.pt[k].inSwap)
  }

  // ---- the net effect of a fault ----

  /** The initial contents of the page at entry `k`: zeros, or the bytes its load takes from the program file. */
  function InitialPage(s: Segment, i: nat, elf: seq<Byte>): Page
    requires i >= 1
  {
    var n := ComputeMemsz(s, i);
    if s.offset < 0 || n < 0 || LoadStart(s, i) + n > PAGE_SIZE then ZeroPage()
    else Overlay(ZeroPage(), LoadStart(s, i), ReadFile(elf, ComputeOffset(s.offset, i), n))
  }

  /** The frame a load takes: the first free one, else the oldest of the address space; -1 for none. */
  function Target(m: Machine, id: nat): int {
    if FirstFree(m.cm) < |m.cm| then FirstFree(m.cm) else Oldest(m.cm, id, 0, m.clock, -1)
  }

  function NeedsEviction(m: Machine): bool {
    FirstFree(m.cm) == |m.cm|
  }

  /** A load can go ahead: there is a free frame, or a victim and a swap slot for it. */
  predicate CanLoad(m: Machine, id: nat) {
    Target(m, id) >= 0 && (NeedsEviction(m) ==> FirstVacant(m.slots) < |m.slots|)
  }

  /** The victim's page moves from its frame to the first vacant slot. */
  function MakeRoom(m: Machine, id: nat): Machine
    requires CanLoad(m, id) && |m.ram| == |m.cm| && |m.blocks| == |m.slots|
  {
    if !NeedsEviction(m) then m
    else
      var f := Target(m, id);
      var j := FirstVacant(m.slots);
      var victim := m.cm[f].page;
      m.(slots := m.slots[j := Held(id, victim)],
         blocks := m.blocks[j := m.ram[f]],
         sp := m.sp.(pt := MarkSwapped(m.sp.pt, victim)))
  }

  /** The page enters the frame with the given contents. */
  function Install(m: Machine, id: nat, k: nat, page: nat, f: nat, data: Page): Machine
    requires k < |m.sp.pt| && f < |m.cm| && |m.ram| == |m.cm|
  {
    m.(cm := m.cm[f := CmEntry(As(id), page, Clean, 1, At(m.clock))],
       clock := m.clock + 1,
       ram := m.ram[f := data],
       sp := m.sp.(pt := m.sp.pt[k := Pte(page, FrameAddr(m.base, f), true, false)]))
  }

  /** The whole page-in as one step, apart from the TLB and the counters. */
  function NetLoad(m: Machine, id: nat, seg: Segment, k: nat, i: nat, page: nat): Machine
    requires CanLoad(m, id) && |m.ram| == |m.cm| && |m.blocks| == |m.slots|
    requires k < |m.sp.pt| && i >= 1
    requires m.sp.pt[k].inSwap ==> FindSlot(m.slots, id, page) < |m.slots|
  {
    var f := Target(m, id);
    var m1 := MakeRoom(m, id);
    if m.sp.pt[k].inSwap then
      var j := FindSlot(m.slots, id, page);
      Install(m1.(slots := m1.slots[j := Vacant]), id, k, page, f, m.blocks[j])
    else
      Install(m1, id, k, page, f, InitialPage(seg, i, m.sp.elf))
  }

  /** Equal but for the TLB, the counters and the tally. */
  ghost predicate SameTables(m: Machine, m': Machine) {
    m' == m.(tlb := m'.tlb, st := m'.st, log := m'.log)
  }

  // ---- the steps of a page-in ----

  /** The state once the page table entry of a page being loaded is filled in. */
  function EnterPage(m: Machine, k: nat, frame: nat): Machine
    requires k < |m.sp.pt|
  {
    m.(sp := m.sp.(pt := m.sp.pt[k := m.sp.pt[k].(frame := frame, inMem := true, inSwap := false)]))
  }

  /** The state the copies of a load start from, given the frame. */
  function Claimed(m: Machine, id: nat, page: nat, f: nat): Machine
    requires f < |m.cm|
  {
    m.(cm := m.cm[f := CmEntry(As(id), page, Loading, 1, At(m.clock))], clock := m.clock + 1)
  }

  /** A page not in memory has no TLB entry, so entering it keeps the TLB sound. */
  lemma EnterSound(slots: seq<TlbEntry>, sp: Space, k: nat, frame: nat)
    requires Sound(slots, sp, -1)
    requires k < |sp.pt| && FirstEntry(sp.pt, sp.pt[k].page) == k && !sp.pt[k].inMem
    ensures Sound(slots, sp.(pt := sp.pt[k := sp.pt[k].(frame := frame, inMem := true, inSwap := false)]), sp.pt[k].page)
    ensures NeverDenied(slots, sp.pt[k].page)
  {
    var sp' := sp.(pt := sp.pt[k := sp.pt[k].(frame := frame, inMem := true, inSwap := false)]);
    forall i | 0 <= i < |slots| && slots[i].Mapping? ensures MappingOk(slots[i], sp', sp.pt[k].page) {
      assert MappingOk(slots[i], sp, -1);
      FirstEntrySamePages(sp.pt, sp'.pt, slots[i].page);
    }
    forall i | 0 <= i < |slots| && slots[i].Mapping? ensures slots[i].page != sp.pt[k].page {
      assert MappingOk(slots[i], sp, -1);
    }
  }

  /** `tlbR` leaves no entry for the victim and maps the new page writable, if it maps it at all. */
  lemma ReuseSound(t: TlbState, sp: Space, kv: nat, k: nat)
    requires kv < |sp.pt| && k < |sp.pt| && kv != k
    requires Sound(t.slots, sp, sp.pt[kv].page) && TlbShape(t)
    requires FirstEntry(sp.pt, sp.pt[kv].page) == kv && FirstEntry(sp.pt, sp.pt[k].page) == k
    requires sp.pt[kv].inMem && !sp.pt[k].inMem
    ensures var frame := sp.pt[kv].frame;
      var page := sp.pt[k].page;
      var t' := ReuseEntry(t, sp.pt[kv].page, page, frame).0;
      var sp' := sp.(pt := MarkSwapped(sp.pt, sp.pt[kv].page)[k := sp.pt[k].(frame := frame, inMem := true, inSwap := false)]);
      Sound(t'.slots, sp', page) && NeverDenied(t'.slots, page) && TlbShape(t')
  {
    var frame := sp.pt[kv].frame;
    var page := sp.pt[k].page;
    var t' := ReuseEntry(t, sp.pt[kv].page, page, frame).0;
    var sp' := sp.(pt := MarkSwapped(sp.pt, sp.pt[kv].page)[k := sp.pt[k].(frame := frame, inMem := true, inSwap := false)]);
    ReuseShape(t, sp.pt[kv].page, page, frame);
    forall i | 0 <= i < |t.slots| && t.slots[i].Mapping? ensures t.slots[i].page != page {
      assert MappingOk(t.slots[i], sp, sp.pt[kv].page);
    }
    forall i | 0 <= i < |t'.slots| && t'.slots[i].Mapping? ensures MappingOk(t'.slots[i], sp', page) {
      FirstEntrySamePages(sp.pt, sp'.pt, t'.slots[i].page);
      if t'.slots[i].page != page {
        assert MappingOk(t.slots[i], sp, sp.pt[kv].page);
        assert t'.slots[i].page != sp.pt[kv].page;
      }
    }
  }

  /** The running address space between faults. */
  ghost predicate Settled(m: Machine, id: nat) {
    Tables(m) && Coherent(m, id, m.sp) && Sound(m.tlb.slots, m.sp, -1)
  }

  /** The counters are no part of it. */
  lemma SettledBooks(m: Machine, id: nat, st: Stats, log: Tally)
    requires Settled(m, id)
    ensures Settled(m.(st := st, log := log), id)
  {
    var m' := m.(st := st, log := log);
    assert forall k :: 0 <= k < |m.sp.pt| ==> Backed(m, id, m.sp.pt[k]) == Backed(m', id, m.sp.pt[k]);
  }

  /** The victim of an eviction is a page in memory, other than the one being loaded. */
  lemma VictimEntry(m: Machine, id: nat, f: nat) returns (kv: nat)
    requires Settled(m, id) && f < |m.cm| && Evictable(m.cm[f], id)
    ensures kv == FirstEntry(m.sp.pt, m.cm[f].page) && kv < |m.sp.pt|
    ensures m.sp.pt[kv].inMem && m.sp.pt[kv].page == m.cm[f].page && m.sp.pt[kv].frame == FrameAddr(m.base, f)
  {
    kv := FirstEntry(m.sp.pt, m.cm[f].page);
  }

  /** `swap_out` puts the victim's page in the first vacant slot, leaving the rest but TLB and counters. */
  lemma SwapOutEffect(m: Machine, id: nat, f: nat, s: Schedule, depth: nat)
    requires Settled(m, id) && depth > 0 && f < |m.cm| && Evictable(m.cm[f], id)
    ensures var victim := m.cm[f].page;
      var j := FirstVacant(m.slots);
      var m1 := Unhook(m, f);
      var (m2, o) := SwapOut(m1, id, victim, s, depth);
      && (j == |m.slots| ==> o == Panic(SwapFull))
      && (j < |m.slots| ==>
            && o == Ok && Copying(m2, victim, false)
            && OnlyTlb(m1.(slots := m.slots[j := Held(id, victim)], blocks := m.blocks[j := m.ram[f]]), m2)
            && (InTlb(m2.tlb, victim) <==> !EndsFlushed(s.out.after))
            && m2.st.invalid == m.st.invalid + IoFlushes(s.out))
  {
    var victim := m.cm[f].page;
    var j := FirstVacant(m.slots);
    var kv := VictimEntry(m, id, f);
    if j < |m.slots| {
      var m1 := Unhook(m, f).(slots := m.slots[j := Held(id, victim)]);
      assert Copying(m1, victim, false);
      ReadKeeps(m1, id, victim, s.out, s, depth);
    }
  }

  /** The tables after a frame is claimed for a page: those of `MakeRoom` with the frame's record rewritten. */
  ghost predicate ClaimedWith(m: Machine, id: nat, page: nat, m': Machine)
    requires CanLoad(m, id) && |m.ram| == |m.cm| && |m.blocks| == |m.slots|
  {
    SameTables(Claimed(MakeRoom(m, id), id, page, Target(m, id)), m')
  }

  /** Copies of the page being loaded can begin once its entry is filled in. */
  ghost predicate ReadyToLoad(m: Machine, k: nat, frame: nat) {
    k < |m.sp.pt| && Copying(EnterPage(m, k, frame), m.sp.pt[k].page, true)
  }

  /** What `EvictFor` does once the victim is written out. */
  function TakeOver(m: Machine, id: nat, f: nat, victim: nat, page: nat): Machine
    requires f < |m.cm|
  {
    TlbReuse(Rehook(m.(sp := m.sp.(pt := MarkSwapped(m.sp.pt, victim))), id, f, page), victim, page, FrameAddr(m.base, f))
  }

  lemma TakeOverReady(m: Machine, id: nat, k: nat, kv: nat, f: nat)
    requires Laid(m.sp.segs, m.sp.pt, 0) && TlbShape(m.tlb)
    requires k < |m.sp.pt| && kv < |m.sp.pt| && f < |m.cm| && k != kv
    requires FirstEntry(m.sp.pt, m.sp.pt[k].page) == k && FirstEntry(m.sp.pt, m.sp.pt[kv].page) == kv
    requires m.sp.pt[kv].inMem && !m.sp.pt[k].inMem && m.sp.pt[kv].frame == FrameAddr(m.base, f)
    requires m.sp.pt[k].page % PAGE_SIZE == 0
    requires Sound(m.tlb.slots, m.sp, m.sp.pt[kv].page)
    ensures ReadyToLoad(TakeOver(m, id, f, m.sp.pt[kv].page, m.sp.pt[k].page), k, FrameAddr(m.base, f))
  {
    var frame := FrameAddr(m.base, f);
    var m3 := EnterPage(TakeOver(m, id, f, m.sp.pt[kv].page, m.sp.pt[k].page), k, frame);
    ReuseSound(m.tlb, m.sp, kv, k);
    LaidSamePages(m.sp.segs, m.sp.pt, m3.sp.pt, 0);
    FirstEntrySamePages(m.sp.pt, m3.sp.pt, m.sp.pt[k].page);
  }

  lemma TakeOverBooks(m: Machine, id: nat, f: nat, victim: nat, page: nat)
    requires f < |m.cm|
    ensures var m' := TakeOver(m, id, f, victim, page);
      && SameTables(m.(cm := m.cm[f := CmEntry(As(id), page, Loading, 1, At(m.clock))], clock := m.clock + 1,
                       sp := m.sp.(pt := MarkSwapped(m.sp.pt, victim))), m')
      && Owed(m') == Owed(m) && Kinds(m'.st) == Kinds(m.st)
      && m'.log == m.log.(reused := m.log.reused + if InTlb(m.tlb, victim) then 1 else 0)
  {
  }

  /** The pages cleared, loaded from the program file and swapped in, and the TLB invalidations. */
  function Kinds(st: Stats): (nat, nat, nat, nat) {
    (st.zero, st.elf, st.swap, st.invalid)
  }

  /** The same once a frame is had: only flushes around the write-out count. */
  function FrameKinds(m: Machine, s: Schedule): (nat, nat, nat, nat) {
    (m.st.zero, m.st.elf, m.st.swap, m.st.invalid + if NeedsEviction(m) then IoFlushes(s.out) else 0)
  }

  /** The tally after a page-in: an eviction reuses the victim's TLB entry unless a flush closes its write-out. */
  function Tallied(m: Machine, s: Schedule): Tally {
    if !NeedsEviction(m) then m.log
    else m.log.(evicted := m.log.evicted + 1, reused := m.log.reused + if EndsFlushed(s.out.after) then 0 else 1)
  }

  /** The counters at the start of an eviction that has a victim. */
  function Started(m: Machine): Machine {
    m.(st := m.st.(writes := m.st.writes + 1), log := m.log.(evicted := m.log.evicted + 1))
  }

  /** `EvictFor` as its three steps. */
  lemma EvictSteps(m: Machine, id: nat, page: nat, s: Schedule, depth: nat)
    requires m.base > 0
    ensures var f := Oldest(m.cm, id, 0, m.clock, -1);
      if f < 0 then EvictFor(m, id, page, s, depth).1 == Panic(NoVictim)
      else
        var victim := m.cm[f].page;
        var (m2, o) := SwapOut(Unhook(Started(m), f), id, victim, s, depth);
        && (o != Ok ==> EvictFor(m, id, page, s, depth).1 == o)
        && (o == Ok && f < |m2.cm| && m2.base == m.base ==>
              EvictFor(m, id, page, s, depth) == (TakeOver(m2, id, f, victim, page), Ok, FrameAddr(m.base, f)))
  {
  }

  /** What writing the victim out leaves in the TLB and the counters. */
  ghost predicate WrittenBooks(m: Machine, m2: Machine, victim: nat, s: Schedule) {
    (InTlb(m2.tlb, victim) <==> !EndsFlushed(s.out.after)) && m2.st.invalid == m.st.invalid + IoFlushes(s.out)
  }

  /** The state after the victim is written out, for a victim at frame `f`. */
  lemma WrittenOut(m: Machine, id: nat, k: nat, f: nat, s: Schedule, depth: nat) returns (m2: Machine)
    requires Settled(m, id) && depth > 0 && FirstVacant(m.slots) < |m.slots|
    requires k < |m.sp.pt| && FirstEntry(m.sp.pt, m.sp.pt[k].page) == k && !m.sp.pt[k].inMem
    requires f < |m.cm| && Evictable(m.cm[f], id)
    ensures SwapOut(Unhook(Started(m), f), id, m.cm[f].page, s, depth) == (m2, Ok)
    ensures OnlyTlb(VictimWritten(m, id, f), m2) && WrittenBooks(m, m2, m.cm[f].page, s)
    ensures ReadyToLoad(TakeOver(m2, id, f, m.cm[f].page, m.sp.pt[k].page), k, FrameAddr(m.base, f))
  {
    var kv := VictimEntry(m, id, f);
    var m1 := Started(m);
    SettledBooks(m, id, m1.st, m1.log);
    SwapOutEffect(m1, id, f, s, depth);
    m2 := SwapOut(Unhook(m1, f), id, m.cm[f].page, s, depth).0;
    TakeOverReady(m2, id, k, kv, f);
  }

  /** The state `WrittenOut` reaches, apart from the TLB and the counters. */
  function VictimWritten(m: Machine, id: nat, f: nat): Machine
    requires f < |m.cm| && |m.ram| == |m.cm| && |m.blocks| == |m.slots| && FirstVacant(m.slots) < |m.slots|
  {
    Unhook(Started(m), f).(slots := m.slots[FirstVacant(m.slots) := Held(id, m.cm[f].page)],
                           blocks := m.blocks[FirstVacant(m.slots) := m.ram[f]])
  }

  /** The victim's frame taken over, in one step from the state before the eviction. */
  lemma TakenOver(m: Machine, id: nat, f: nat, page: nat, m2: Machine, s: Schedule)
    requires CanLoad(m, id) && NeedsEviction(m) && f == Target(m, id) && |m.ram| == |m.cm| && |m.blocks| == |m.slots|
    requires OnlyTlb(VictimWritten(m, id, f), m2) && WrittenBooks(m, m2, m.cm[f].page, s)
    ensures var m' := TakeOver(m2, id, f, m.cm[f].page, page);
      ClaimedWith(m, id, page, m') && Owed(m') == Owed(m) && m'.log == Tallied(m, s) && Kinds(m'.st) == FrameKinds(m, s)
  {
    TakeOverBooks(m2, id, f, m.cm[f].page, page);
  }

  /** An eviction with a victim and a vacant slot succeeds, and the page can be copied into the victim's frame. */
  lemma EvictSucceeds(m: Machine, id: nat, k: nat, s: Schedule, depth: nat)
    requires Settled(m, id) && depth > 0 && NeedsEviction(m) && CanLoad(m, id)
    requires k < |m.sp.pt| && FirstEntry(m.sp.pt, m.sp.pt[k].page) == k && !m.sp.pt[k].inMem
    ensures var (m', o, frame) := EvictFor(m, id, m.sp.pt[k].page, s, depth);
      && o == Ok
      && frame == FrameAddr(m.base, Target(m, id))
      && ClaimedWith(m, id, m.sp.pt[k].page, m')
      && ReadyToLoad(m', k, frame)
      && Owed(m') == Owed(m) && m'.log == Tallied(m, s) && Kinds(m'.st) == FrameKinds(m, s)
  {
    var f := Target(m, id);
    var m2 := WrittenOut(m, id, k, f, s, depth);
    EvictSteps(m, id, m.sp.pt[k].page, s, depth);
    TakenOver(m, id, f, m.sp.pt[k].page, m2, s);
  }

  lemma EvictFails(m: Machine, id: nat, page: nat, s: Schedule, depth: nat)
    requires Settled(m, id) && depth > 0 && NeedsEviction(m) && !CanLoad(m, id)
    ensures EvictFor(m, id, page, s, depth).1 == Panic(if Target(m, id) < 0 then NoVictim else SwapFull)
  {
    var f := Target(m, id);
    if f >= 0 {
      SettledBooks(m, id, Started(m).st, Started(m).log);
      SwapOutEffect(Started(m), id, f, s, depth);
      EvictSteps(m, id, page, s, depth);
    }
  }

  /** A frame is found exactly when a load can go ahead; the page can then be copied into it. */
  lemma GetFrameEffect(m: Machine, id: nat, k: nat, s: Schedule, depth: nat)
    requires Settled(m, id) && depth > 0
    requires k < |m.sp.pt| && FirstEntry(m.sp.pt, m.sp.pt[k].page) == k && !m.sp.pt[k].inMem
    ensures var (m', o, frame) := GetFrame(m, id, m.sp.pt[k].page, s, depth);
      && (o == Ok <==> CanLoad(m, id))
      && (o == Ok ==>
            && frame == FrameAddr(m.base, Target(m, id))
            && ClaimedWith(m, id, m.sp.pt[k].page, m')
            && ReadyToLoad(m', k, frame)
            && Owed(m') == Owed(m) && m'.log == Tallied(m, s) && Kinds(m'.st) == FrameKinds(m, s))
      && (o != Ok ==> o == Panic(if Target(m, id) < 0 then NoVictim else SwapFull))
  {
    if NeedsEviction(m) {
      if CanLoad(m, id) {
        EvictSucceeds(m, id, k, s, depth);
      } else {
        EvictFails(m, id, m.sp.pt[k].page, s, depth);
      }
    } else {
      var page := m.sp.pt[k].page;
      var (m', o, frame) := GetFrame(m, id, page, s, depth);
      EnterSound(m.tlb.slots, m.sp, k, frame);
      var m3 := EnterPage(m', k, frame);
      LaidSamePages(m.sp.segs, m.sp.pt, m3.sp.pt, 0);
      FirstEntrySamePages(m.sp.pt, m3.sp.pt, page);
    }
  }

  // ---- filling the frame and finishing ----

  lemma OverlayWhole(page: Page, data: Page)
    ensures Overlay(page, 0, data) == data
  {
  }

  /** `swap_in` vacates the page's slot and copies its block into the frame. */
  lemma SwapInEffect(m: Machine, id: nat, page: nat, s: Schedule, depth: nat)
    requires Copying(m, page, true) && depth > 0 && |m.ram| == |m.cm| && |m.blocks| == |m.slots|
    requires FindSlot(m.slots, id, page) < |m.slots|
    ensures var j := FindSlot(m.slots, id, page);
      var f := FrameIndex(m.base, FrameOf(m, page));
      var (m', o) := SwapIn(m, id, page, s, depth);
      && o == Ok && Copying(m', page, true)
      && OnlyTlb(m.(slots := m.slots[j := Vacant], ram := m.ram[f := m.blocks[j]]), m')
      && m'.st.invalid == m.st.invalid + IoFlushes(s.fill)
  {
    var j := FindSlot(m.slots, id, page);
    var f := FrameIndex(m.base, FrameOf(m, page));
    WriteKeeps(m.(slots := m.slots[j := Vacant]), id, page, 0, m.blocks[j], s.fill, s, depth);
    OverlayWhole(m.ram[f], m.blocks[j]);
  }

  /** A first touch counts as one of the program file if the segment has one, else as zeroed. */
  function FirstKinds(st: Stats, seg: Segment, s: Schedule, clear: bool): (nat, nat, nat, nat) {
    var n := if clear then IoFlushes(s.zero) else 0;
    if seg.offset < 0 then (st.zero + 1, st.elf, st.swap, st.invalid + n)
    else (st.zero, st.elf + 1, st.swap, st.invalid + n + IoFlushes(s.fill))
  }

  /** Filling a frame counts as one of swap if the page is there, else as a first touch. */
  function FillKinds(st: Stats, sp: Space, page: nat, s: Schedule): (nat, nat, nat, nat)
    requires FirstEntry(sp.pt, page) < |sp.pt| && FindSeg(sp.segs, page) < |sp.segs|
  {
    if sp.pt[FirstEntry(sp.pt, page)].inSwap then (st.zero, st.elf, st.swap + 1, st.invalid + IoFlushes(s.fill))
    else FirstKinds(st, SegOf(sp, page), s, true)
  }

  /** A whole page-in. */
  function LoadKinds(m: Machine, page: nat, s: Schedule): (nat, nat, nat, nat)
    requires FirstEntry(m.sp.pt, page) < |m.sp.pt| && FindSeg(m.sp.segs, page) < |m.sp.segs|
  {
    FillKinds(m.st.(invalid := FrameKinds(m, s).3), m.sp, page, s)
  }

  /** Loading the program's bytes into a page just cleared. */
  lemma LoadPageEffect(m: Machine, id: nat, seg: Segment, i: nat, page: nat, s: Schedule, depth: nat)
    requires Copying(m, page, true) && depth > 0 && |m.ram| == |m.cm|
    requires PageLocal(seg) && 1 <= i <= seg.npages
    requires m.ram[FrameIndex(m.base, FrameOf(m, page))] == ZeroPage()
    ensures var f := FrameIndex(m.base, FrameOf(m, page));
      var (m', o) := LoadPage(m, id, seg, i, page, s, depth);
      && o == Ok && Copying(m', page, true)
      && SameTables(m.(ram := m.ram[f := InitialPage(seg, i, m.sp.elf)]), m')
      && m'.log == m.log && Kinds(m'.st) == FirstKinds(m.st, seg, s, false)
      && Owed(m') == (Owed(m).0 - 1, Owed(m).1, Owed(m).2, Owed(m).3, Owed(m).4)
  {
    if seg.offset >= 0 {
      var data := ReadFile(m.sp.elf, ComputeOffset(seg.offset, i), ComputeMemsz(seg, i));
      WriteKeeps(m, id, page, LoadStart(seg, i), data, s.fill, s, depth);
    }
  }

  /** A first touch leaves the frame with the page's initial contents. */
  lemma FirstTouchEffect(m: Machine, id: nat, seg: Segment, i: nat, page: nat, s: Schedule, depth: nat)
    requires Copying(m, page, true) && depth > 0 && |m.ram| == |m.cm|
    requires PageLocal(seg) && 1 <= i <= seg.npages
    ensures var f := FrameIndex(m.base, FrameOf(m, page));
      var (m', o) := FirstTouch(m, id, seg, i, page, s, depth);
      && o == Ok && Copying(m', page, true)
      && SameTables(m.(ram := m.ram[f := InitialPage(seg, i, m.sp.elf)]), m')
      && m'.log == m.log && Kinds(m'.st) == FirstKinds(m.st, seg, s, true)
      && Owed(m') == (Owed(m).0 - 1, Owed(m).1, Owed(m).2, Owed(m).3, Owed(m).4)
  {
    WriteKeeps(m, id, page, 0, ZeroPage(), s.zero, s, depth);
    OverlayWhole(m.ram[FrameIndex(m.base, FrameOf(m, page))], ZeroPage());
    LoadPageEffect(UserWrite(m, id, page, 0, ZeroPage(), s.zero, s, depth).0, id, seg, i, page, s, depth);
  }

  /** Marking the frame CLEAN and mapping it with its segment's permission ends the copy soundly. */
  lemma FinishEffect(m: Machine, seg: Segment, page: nat, s: Schedule)
    requires Copying(m, page, true)
    requires FindSeg(m.sp.segs, page) < |m.sp.segs| && seg == m.sp.segs[FindSeg(m.sp.segs, page)]
    ensures var frame := FrameOf(m, page);
      var f := FrameIndex(m.base, frame);
      var (m', o) := Finish(m, seg, page, frame);
      && o == Ok
      && SameTables(m.(cm := m.cm[f := m.cm[f].(state := Clean)]), m')
      && Sound(m'.tlb.slots, m.sp, -1) && TlbShape(m'.tlb)
      && Mapping(page, frame, seg.write > 0) in m'.tlb.slots
      && m'.log == m.log && Kinds(m'.st) == Kinds(m.st)
      && Owed(m') == (Owed(m).0, Owed(m).1 + 1, Owed(m).2, Owed(m).3, Owed(m).4)
  {
    var frame := FrameOf(m, page);
    WriteSound(m.tlb, Mapping(page, frame, seg.write > 0), m.sp, -1);
  }

  /** The segment and the position in it, counted from 1, of a covered page. */
  function SegOf(sp: Space, page: nat): Segment
    requires FindSeg(sp.segs, page) < |sp.segs|
  {
    sp.segs[FindSeg(sp.segs, page)]
  }

  function IndexOf(sp: Space, page: nat): int
    requires FindSeg(sp.segs, page) < |sp.segs|
  {
    FirstEntry(sp.pt, page) - (|sp.pt| - SegOf(sp, page).suffix) + 1
  }

  /** The TLB maps the page, with the write bit as given. */
  ghost predicate Mapped(slots: seq<TlbEntry>, page: nat, dirty: bool) {
    exists i :: 0 <= i < |slots| && slots[i].Mapping? && slots[i].page == page && slots[i].dirty == dirty
  }

  /** A page that is not in memory but covered, in a settled state where a load can go ahead. */
  ghost predicate Loadable(m: Machine, id: nat, page: nat) {
    && Settled(m, id) && page % PAGE_SIZE == 0
    && FindSeg(m.sp.segs, page) < |m.sp.segs|
    && FirstEntry(m.sp.pt, page) < |m.sp.pt|
    && !m.sp.pt[FirstEntry(m.sp.pt, page)].inMem
    && 1 <= IndexOf(m.sp, page) <= SegOf(m.sp, page).npages
    && PageLocal(SegOf(m.sp, page))
    && CanLoad(m, id)
  }

  /** `NetLoad` of a covered page. */
  ghost function Net(m: Machine, id: nat, page: nat): Machine
    requires Loadable(m, id, page)
  {
    NetLoad(m, id, SegOf(m.sp, page), FirstEntry(m.sp.pt, page), IndexOf(m.sp, page), page)
  }

  /** `m'` is the result of loading the page: `Net`, with a sound TLB that maps the page. */
  ghost predicate Loaded(m: Machine, id: nat, page: nat, m': Machine)
    requires Loadable(m, id, page)
  {
    && SameTables(Net(m, id, page), m')
    && Sound(m'.tlb.slots, m'.sp, -1) && TlbShape(m'.tlb)
    && Mapped(m'.tlb.slots, page, SegOf(m.sp, page).write > 0)
    && m'.log.failed == m.log.failed
  }

  /** The frame is claimed and the entry filled in. */
  lemma EnterEffect(m: Machine, id: nat, page: nat, s: Schedule, depth: nat) returns (m2: Machine)
    requires Loadable(m, id, page) && depth > 0
    ensures var k := FirstEntry(m.sp.pt, page);
      var frame := FrameAddr(m.base, Target(m, id));
      var (m1, o1, frame1) := GetFrame(m, id, page, s, depth);
      && o1 == Ok && frame1 == frame && k < |m1.sp.pt|
      && m2 == EnterPage(m1, k, frame)
      && SameTables(EnterPage(Claimed(MakeRoom(m, id), id, page, Target(m, id)), k, frame), m2)
      && Copying(m2, page, true) && FrameOf(m2, page) == frame
      && Owed(m2) == Owed(m) && m2.log == Tallied(m, s) && Kinds(m2.st) == FrameKinds(m, s)
  {
    var k := FirstEntry(m.sp.pt, page);
    GetFrameEffect(m, id, k, s, depth);
    var (m1, o1, frame) := GetFrame(m, id, page, s, depth);
    m2 := EnterPage(m1, k, frame);
    EnterTables(Claimed(MakeRoom(m, id), id, page, Target(m, id)), m1, k, frame);
    FirstEntrySamePages(m.sp.pt, m2.sp.pt, page);
  }

  lemma EnterTables(m: Machine, m1: Machine, k: nat, frame: nat)
    requires SameTables(m, m1) && k < |m.sp.pt|
    ensures SameTables(EnterPage(m, k, frame), EnterPage(m1, k, frame))
  {
  }

  /** Writing out a victim does not move the slot of another page. */
  lemma SlotStays(m: Machine, id: nat, page: nat)
    requires Loadable(m, id, page) && m.sp.pt[FirstEntry(m.sp.pt, page)].inSwap
    ensures FindSlot(m.slots, id, page) < |m.slots|
    ensures FindSlot(MakeRoom(m, id).slots, id, page) == FindSlot(m.slots, id, page)
  {
    if NeedsEviction(m) {
      var kv := VictimEntry(m, id, Target(m, id));
      var r, r' := FindSlot(m.slots, id, page), FindSlot(MakeRoom(m, id).slots, id, page);
      assert MakeRoom(m, id).slots[r] == Held(id, page);
      assert r' < |m.slots| && m.slots[r'] == Held(id, page);
    }
  }

  /** The frame is claimed for the page and its entry filled in; the copies into it can begin. */
  ghost predicate Entered(m: Machine, id: nat, page: nat, m2: Machine) {
    && Loadable(m, id, page)
    && Copying(m2, page, true) && FrameOf(m2, page) == FrameAddr(m.base, Target(m, id))
    && SameTables(EnterPage(Claimed(MakeRoom(m, id), id, page, Target(m, id)), FirstEntry(m.sp.pt, page), FrameAddr(m.base, Target(m, id))), m2)
  }

  /** The claimed frame is filled as `Net` says. */
  ghost predicate Filled(m: Machine, id: nat, page: nat, m2: Machine, m3: Machine, s: Schedule)
    requires Loadable(m, id, page) && Copying(m2, page, true)
  {
    && Copying(m3, page, true) && FrameOf(m3, page) == FrameOf(m2, page)
    && m3.log == m2.log && Kinds(m3.st) == FillKinds(m2.st, m.sp, page, s) && Owed(m3) == (Owed(m2).0 - 1, Owed(m2).1, Owed(m2).2, Owed(m2).3, Owed(m2).4)
    && |m3.cm| == |m.cm|
    && var f := Target(m, id);
      SameTables(Net(m, id, page), m3.(cm := m3.cm[f := m3.cm[f].(state := Clean)]))
  }

  /** Vacating the slot and filling the frame from its block is what `Net` does with a page in swap. */
  lemma NetFromSwap(m: Machine, id: nat, page: nat, m2: Machine)
    requires Entered(m, id, page, m2) && m.sp.pt[FirstEntry(m.sp.pt, page)].inSwap
    ensures |m2.ram| == |m2.cm| && |m2.blocks| == |m2.slots| && FindSlot(m2.slots, id, page) < |m2.slots|
    ensures var f := Target(m, id);
      var j := FindSlot(m2.slots, id, page);
      var n := m2.(slots := m2.slots[j := Vacant], ram := m2.ram[f := m2.blocks[j]]);
      SameTables(Net(m, id, page), n.(cm := n.cm[f := n.cm[f].(state := Clean)]))
  {
    SlotStays(m, id, page);
    if NeedsEviction(m) {
      assert MakeRoom(m, id).blocks[FindSlot(m.slots, id, page)] == m.blocks[FindSlot(m.slots, id, page)];
    }
  }

  lemma FillSwapped(m: Machine, id: nat, page: nat, m2: Machine, s: Schedule, depth: nat) returns (m3: Machine)
    requires Entered(m, id, page, m2) && depth > 0 && m.sp.pt[FirstEntry(m.sp.pt, page)].inSwap
    ensures Fill(m2, id, SegOf(m.sp, page), IndexOf(m.sp, page), page, true, s, depth) == (m3, Ok)
    ensures Filled(m, id, page, m2, m3, s)
  {
    NetFromSwap(m, id, page, m2);
    SwapInEffect(m2, id, page, s, depth);
    m3 := SwapIn(m2, id, page, s, depth).0;
    m3 := m3.(st := m3.st.(swap := m3.st.swap + 1, disk := m3.st.disk + 1));
  }

  lemma FillFirst(m: Machine, id: nat, page: nat, m2: Machine, s: Schedule, depth: nat) returns (m3: Machine)
    requires Entered(m, id, page, m2) && depth > 0 && !m.sp.pt[FirstEntry(m.sp.pt, page)].inSwap
    ensures Fill(m2, id, SegOf(m.sp, page), IndexOf(m.sp, page), page, false, s, depth) == (m3, Ok)
    ensures Filled(m, id, page, m2, m3, s)
  {
    FirstTouchEffect(m2, id, SegOf(m.sp, page), IndexOf(m.sp, page), page, s, depth);
    m3 := FirstTouch(m2, id, SegOf(m.sp, page), IndexOf(m.sp, page), page, s, depth).0;
  }

  /** The copies of a page-in fill the claimed frame as `Net` says. */
  lemma FillEffect(m: Machine, id: nat, page: nat, m2: Machine, s: Schedule, depth: nat) returns (m3: Machine)
    requires Entered(m, id, page, m2) && depth > 0
    ensures Fill(m2, id, SegOf(m.sp, page), IndexOf(m.sp, page), page, m.sp.pt[FirstEntry(m.sp.pt, page)].inSwap, s, depth) == (m3, Ok)
    ensures Filled(m, id, page, m2, m3, s)
  {
    if m.sp.pt[FirstEntry(m.sp.pt, page)].inSwap {
      m3 := FillSwapped(m, id, page, m2, s, depth);
    } else {
      m3 := FillFirst(m, id, page, m2, s, depth);
    }
  }

  /** `PageIn` as its steps, when they succeed. */
  lemma PageInSteps(m: Machine, id: nat, seg: Segment, k: nat, i: nat, page: nat, s: Schedule, depth: nat, m1: Machine, frame: nat, m3: Machine)
    requires i >= 1 && k < |m.sp.pt| && k < |m1.sp.pt|
    requires GetFrame(m, id, page, s, depth) == (m1, Ok, frame)
    requires Fill(EnterPage(m1, k, frame), id, seg, i, page, m.sp.pt[k].inSwap, s, depth) == (m3, Ok)
    ensures PageIn(m, id, seg, k, i, page, s, depth) == Finish(m3, seg, page, frame)
  {
  }

  /** Finishing the filled frame gives the result of `Net`, soundly mapped. */
  lemma FinishLoad(m: Machine, id: nat, page: nat, m3: Machine, s: Schedule)
    requires Loadable(m, id, page)
    requires Copying(m3, page, true) && FrameOf(m3, page) == FrameAddr(m.base, Target(m, id))
    requires |m3.cm| == |m.cm| && m3.base == m.base && m3.sp.segs == m.sp.segs
    requires var f := Target(m, id);
      SameTables(Net(m, id, page), m3.(cm := m3.cm[f := m3.cm[f].(state := Clean)]))
    ensures var (m', o) := Finish(m3, SegOf(m.sp, page), page, FrameAddr(m.base, Target(m, id)));
      && o == Ok && SameTables(Net(m, id, page), m')
      && Sound(m'.tlb.slots, m'.sp, -1) && TlbShape(m'.tlb)
      && Mapped(m'.tlb.slots, page, SegOf(m.sp, page).write > 0)
      && m'.log == m3.log && Kinds(m'.st) == Kinds(m3.st)
      && Owed(m') == (Owed(m3).0, Owed(m3).1 + 1, Owed(m3).2, Owed(m3).3, Owed(m3).4)
  {
    FinishEffect(m3, SegOf(m.sp, page), page, s);
  }

  lemma KindsChain(m: Machine, m2: Machine, m3: Machine, page: nat, s: Schedule)
    requires FirstEntry(m.sp.pt, page) < |m.sp.pt| && FindSeg(m.sp.segs, page) < |m.sp.segs|
    requires Kinds(m2.st) == FrameKinds(m, s) && Kinds(m3.st) == FillKinds(m2.st, m.sp, page, s)
    requires Owed(m2) == Owed(m) && Owed(m3) == (Owed(m2).0 - 1, Owed(m2).1, Owed(m2).2, Owed(m2).3, Owed(m2).4)
    ensures Kinds(m3.st) == LoadKinds(m, page, s) && Owed(m3) == (Owed(m).0 - 1, Owed(m).1, Owed(m).2, Owed(m).3, Owed(m).4)
  {
  }

  /** The page-in up to the last step. */
  lemma LoadSteps(m: Machine, id: nat, page: nat, s: Schedule, depth: nat) returns (m3: Machine)
    requires Loadable(m, id, page) && depth > 0
    ensures PageIn(m, id, SegOf(m.sp, page), FirstEntry(m.sp.pt, page), IndexOf(m.sp, page), page, s, depth)
      == Finish(m3, SegOf(m.sp, page), page, FrameAddr(m.base, Target(m, id)))
    ensures Copying(m3, page, true) && FrameOf(m3, page) == FrameAddr(m.base, Target(m, id))
    ensures |m3.cm| == |m.cm| && m3.base == m.base && m3.sp.segs == m.sp.segs
    ensures var f := Target(m, id);
      SameTables(Net(m, id, page), m3.(cm := m3.cm[f := m3.cm[f].(state := Clean)]))
    ensures m3.log == Tallied(m, s) && Kinds(m3.st) == LoadKinds(m, page, s) && Owed(m3) == (Owed(m).0 - 1, Owed(m).1, Owed(m).2, Owed(m).3, Owed(m).4)
  {
    var m2 := EnterEffect(m, id, page, s, depth);
    m3 := FillEffect(m, id, page, m2, s, depth);
    KindsChain(m, m2, m3, page, s);
    var (m1, _, frame) := GetFrame(m, id, page, s, depth);
    PageInSteps(m, id, SegOf(m.sp, page), FirstEntry(m.sp.pt, page), IndexOf(m.sp, page), page, s, depth, m1, frame, m3);
  }

  /**
   * A page-in, whatever its copies' nested faults and the TLB flushes inside
   * it, does exactly what the one-step `Net` does, and leaves the TLB sound
   * with the page mapped under its segment's permission.
   */
  lemma PageInEffect(m: Machine, id: nat, page: nat, s: Schedule, depth: nat)
    requires Loadable(m, id, page) && depth > 0
    ensures var (m', o) := PageIn(m, id, SegOf(m.sp, page), FirstEntry(m.sp.pt, page), IndexOf(m.sp, page), page, s, depth);
      && o == Ok && Loaded(m, id, page, m') && m'.log == Tallied(m, s) && Kinds(m'.st) == LoadKinds(m, page, s)
      && Owed(m') == (Owed(m).0 - 1, Owed(m).1 + 1, Owed(m).2, Owed(m).3, Owed(m).4)
  {
    var m3 := LoadSteps(m, id, page, s, depth);
    FinishLoad(m, id, page, m3, s);
  }

  // ---- the fault handler ----

  predicate Covered(sp: Space, page: nat) {
    FindSeg(sp.segs, page) < |sp.segs|
  }

  predicate InMemory(sp: Space, page: nat) {
    FirstEntry(sp.pt, page) < |sp.pt| && sp.pt[FirstEntry(sp.pt, page)].inMem
  }

  /** A covered page out of memory that finds room can be loaded. */
  lemma LoadableIntro(m: Machine, id: nat, page: nat)
    requires Settled(m, id) && page % PAGE_SIZE == 0
    requires Covered(m.sp, page) && !InMemory(m.sp, page) && CanLoad(m, id)
    ensures Loadable(m, id, page)
  {
    SearchAgrees(m.sp, page);
    assert SegOf(m.sp, page) in m.sp.segs;
  }

  lemma FaultReload(m: Machine, id: nat, addr: nat, s: Schedule, depth: nat)
    requires Settled(m, id) && Covered(m.sp, PageBase(addr)) && InMemory(m.sp, PageBase(addr))
    ensures var page := PageBase(addr);
      var (m', o) := Fault(m, id, addr, s, depth);
      && o == Ok && m' == m.(tlb := m'.tlb, st := m'.st)
      && Sound(m'.tlb.slots, m'.sp, -1) && TlbShape(m'.tlb)
      && Mapped(m'.tlb.slots, page, SegOf(m.sp, page).write > 0)
      && Owed(m') == Owed(m) && Kinds(m'.st) == Kinds(m.st)
  {
    var page := PageBase(addr);
    FaultReloads(m, id, addr, s, depth);
    var e := Mapping(page, FrameOf(m, page), SegOf(m.sp, page).write > 0);
    TlbWriteBooks(m.(st := m.st.(faults := m.st.faults + 1, reload := m.st.reload + 1)), page, FrameOf(m, page), SegOf(m.sp, page).write);
    WriteSound(m.tlb, e, m.sp, -1);
  }

  /** Which branch a fault on a page in memory takes. */
  lemma FaultReloads(m: Machine, id: nat, addr: nat, s: Schedule, depth: nat)
    requires Settled(m, id) && Covered(m.sp, PageBase(addr)) && InMemory(m.sp, PageBase(addr))
    ensures var page := PageBase(addr);
      var m' := m.(st := m.st.(faults := m.st.faults + 1, reload := m.st.reload + 1));
      Fault(m, id, addr, s, depth) == (TlbWrite(m', page, FrameOf(m, page), SegOf(m.sp, page).write), Ok)
  {
    var page := PageBase(addr);
    SearchAgrees(m.sp, page);
    var k := FirstEntry(m.sp.pt, page);
    assert Backed(m, id, m.sp.pt[k]);
    assert Fault(m, id, addr, s, depth) == Serve(Counted(m), id, SegOf(m.sp, page), k, IndexOf(m.sp, page), page, s, depth);
  }

  lemma FaultUncovered(m: Machine, id: nat, addr: nat, s: Schedule, depth: nat)
    requires Settled(m, id) && !Covered(m.sp, PageBase(addr))
    ensures Fault(m, id, addr, s, depth) ==
      (m.(st := m.st.(faults := m.st.faults + 1), log := m.log.(failed := m.log.failed + 1)), EFault)
  {
  }

  /** The state in which a counted fault goes on. */
  function Counted(m: Machine): Machine {
    m.(st := m.st.(faults := m.st.faults + 1))
  }

  lemma FaultDispatch(m: Machine, id: nat, addr: nat, s: Schedule, depth: nat)
    requires Laid(m.sp.segs, m.sp.pt, 0) && depth > 0
    requires Covered(m.sp, PageBase(addr)) && !InMemory(m.sp, PageBase(addr))
    ensures var page := PageBase(addr);
      IndexOf(m.sp, page) >= 1 && FirstEntry(m.sp.pt, page) < |m.sp.pt|
      && Fault(m, id, addr, s, depth)
        == PageIn(Counted(m), id, SegOf(m.sp, page), FirstEntry(m.sp.pt, page), IndexOf(m.sp, page), page, s, depth)
  {
    var page := PageBase(addr);
    SearchAgrees(m.sp, page);
    var k, i, seg := FirstEntry(m.sp.pt, page), IndexOf(m.sp, page), SegOf(m.sp, page);
    assert Fault(m, id, addr, s, depth) == Serve(Counted(m), id, seg, k, i, page, s, depth);
    assert Serve(Counted(m), id, seg, k, i, page, s, depth) == PageIn(Counted(m), id, seg, k, i, page, s, depth);
  }

  lemma LoadableBooks(m: Machine, id: nat, page: nat)
    requires Loadable(m, id, page)
    ensures Loadable(Counted(m), id, page)
    ensures forall m' :: Loaded(Counted(m), id, page, m') ==> Loaded(m, id, page, m')
  {
    SettledBooks(m, id, Counted(m).st, m.log);
  }

  /** A fault on a page out of memory loads it as `Net` says. */
  lemma FaultLoad(m: Machine, id: nat, addr: nat, s: Schedule, depth: nat)
    requires Loadable(m, id, PageBase(addr)) && depth > 0
    ensures var page := PageBase(addr);
      var (m', o) := Fault(m, id, addr, s, depth);
      && o == Ok && Loaded(m, id, page, m') && Owed(m') == Owed(m) && m'.log == Tallied(m, s) && Kinds(m'.st) == LoadKinds(m, page, s)
  {
    var page := PageBase(addr);
    LoadableBooks(m, id, page);
    CountedServed(m, id, page, s, depth);
    FaultDispatch(m, id, addr, s, depth);
  }

  lemma TalliedCounted(m: Machine, page: nat, s: Schedule)
    requires FirstEntry(m.sp.pt, page) < |m.sp.pt| && FindSeg(m.sp.segs, page) < |m.sp.segs|
    ensures Tallied(Counted(m), s) == Tallied(m, s) && LoadKinds(Counted(m), page, s) == LoadKinds(m, page, s)
    ensures Owed(Counted(m)) == (Owed(m).0 + 1, Owed(m).1 - 1, Owed(m).2, Owed(m).3, Owed(m).4)
  {
  }

  /** The page-in of a fault that has been counted. */
  lemma CountedServed(m: Machine, id: nat, page: nat, s: Schedule, depth: nat)
    requires Loadable(Counted(m), id, page) && depth > 0
    ensures IndexOf(m.sp, page) >= 1
    ensures var (m', o) := PageIn(Counted(m), id, SegOf(m.sp, page), FirstEntry(m.sp.pt, page), IndexOf(m.sp, page), page, s, depth);
      && o == Ok && Loaded(Counted(m), id, page, m') && Owed(m') == Owed(m) && m'.log == Tallied(m, s)
      && Kinds(m'.st) == LoadKinds(m, page, s)
  {
    TalliedCounted(m, page, s);
    PageInEffect(Counted(m), id, page, s, depth);
  }

  /** With no room the kernel panics; nothing else can go wrong. */
  lemma FaultNoRoom(m: Machine, id: nat, addr: nat, s: Schedule, depth: nat)
    requires Settled(m, id) && depth > 0
    requires Covered(m.sp, PageBase(addr)) && !InMemory(m.sp, PageBase(addr)) && !CanLoad(m, id)
    ensures Fault(m, id, addr, s, depth).1 == Panic(if Target(m, id) < 0 then NoVictim else SwapFull)
  {
    var page := PageBase(addr);
    FaultDispatch(m, id, addr, s, depth);
    SettledBooks(m, id, Counted(m).st, m.log);
    SearchAgrees(m.sp, page);
    GetFrameEffect(Counted(m), id, FirstEntry(m.sp.pt, page), s, depth);
  }
}
