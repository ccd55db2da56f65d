/** TLB soundness and the faults raised by the kernel's own copies. */
module Soundness {
  import opened Layout
  import opened Coremap
  import opened SwapSpace
  import opened Tlb
  import opened AddressSpace
  import opened Demand

  ghost predicate Writable(sp: Space, page: nat) {
    var j := FindSeg(sp.segs, page);
    j < |sp.segs| && sp.segs[j].write > 0
  }

  /** The entry equals its page table entry, and its write bit its segment's permission but for the `hot` page, one being copied. */
  ghost predicate MappingOk(e: TlbEntry, sp: Space, hot: int)
    requires e.Mapping?
  {
    var k := FirstEntry(sp.pt, e.page);
    && k < |sp.pt|
    && sp.pt[k].inMem
    && sp.pt[k].frame == e.frame
    && (e.page != hot ==> (e.dirty <==> Writable(sp, e.page)))
  }

  ghost predicate Sound(slots: seq<TlbEntry>, sp: Space, hot: int) {
    && (forall i :: 0 <= i < |slots| && slots[i].Mapping? ==> MappingOk(slots[i], sp, hot))
    && (forall i, j :: 0 <= i < j < |slots| && slots[i].Mapping? && slots[j].Mapping? ==> slots[i].page != slots[j].page)
  }

  /** A page has no read-only mapping. */
  ghost predicate NeverDenied(slots: seq<TlbEntry>, page: nat) {
    forall i :: 0 <= i < |slots| && slots[i].Mapping? && slots[i].page == page ==> slots[i].dirty
  }

  /** Every page mapped now was mapped since the last flush, and a write has replaced a mapping since then only if more pages than slots were. */
  ghost predicate PastOk(t: TlbState) {
    && (forall i :: 0 <= i < |t.slots| && t.slots[i].Mapping? ==> t.slots[i].page in t.past.mapped)
    && (t.past.recent > 0 ==> |t.past.mapped| > |t.slots|)
  }

  ghost predicate TlbShape(t: TlbState) {
    t.next < |t.slots| && PastOk(t)
  }

  /** As many distinct pages as slots are in a set of at least that size. */
  lemma {:induction false} DistinctPages(slots: seq<TlbEntry>, n: nat, pages: set<nat>)
    requires n <= |slots| && forall i :: 0 <= i < n ==> slots[i].Mapping? && slots[i].page in pages
    requires forall i, j :: 0 <= i < j < n ==> slots[i].page != slots[j].page
    ensures |pages| >= n
    decreases n
  {
    if n > 0 {
      DistinctPages(slots, n - 1, pages - {slots[n - 1].page});
    }
  }

  /** Writing a page into a sound TLB keeps its past right. */
  lemma WrittenOk(t: TlbState, page: nat, sp: Space)
    requires PastOk(t) && Sound(t.slots, sp, page)
    ensures var past := Written(t.past, t.slots, page);
      && past.mapped == t.past.mapped + {page}
      && (past.recent > 0 ==> |past.mapped| > |t.slots|)
  {
    var past := Written(t.past, t.slots, page);
    if Crowded(t.slots, page) {
      DistinctPages(t.slots, |t.slots|, past.mapped - {page});
    } else {
      MoreMapped(t.past.mapped, page);
    }
  }

  lemma ReuseShape(t: TlbState, victim: nat, page: nat, frame: nat)
    requires TlbShape(t)
    ensures TlbShape(ReuseEntry(t, victim, page, frame).0)
  {
    MoreMapped(t.past.mapped, page);
  }

  lemma MoreMapped(pages: set<nat>, page: nat)
    ensures |pages + {page}| >= |pages|
  {
    assert pages + {page} == pages + ({page} - pages);
  }

  lemma WriteSound(t: TlbState, e: TlbEntry, sp: Space, hot: int)
    requires e.Mapping? && TlbShape(t)
    requires Sound(t.slots, sp, e.page)
    requires MappingOk(e, sp, hot) && (hot == e.page || hot == -1)
    ensures var t' := WriteEntry(t, e).0;
      TlbShape(t') && Sound(t'.slots, sp, hot) && e in t'.slots && |t'.slots| == |t.slots|
  {
    var t' := WriteEntry(t, e).0;
    WrittenOk(t, e.page, sp);
    var p :| 0 <= p < |t.slots| && t'.slots == t.slots[p := e];
    assert t'.slots[p] == e;
    forall i | 0 <= i < |t'.slots| && t'.slots[i].Mapping? ensures MappingOk(t'.slots[i], sp, hot) {
      if i != p {
        assert t.slots[i].page != e.page;
      }
    }
  }

  // ---- faults raised by the kernel's own copies ----

  /** What separates the counters from their balance; all five are 0 between faults. */
  function Owed(m: Machine): (int, int, int, int, int) {
    (m.st.faults - m.st.reload - m.st.disk - m.st.zero - m.log.failed,
     m.st.free + m.st.replace - m.st.faults + m.log.failed - m.log.reused,
     m.st.disk - m.st.elf - m.st.swap,
     m.st.writes - m.log.evicted,
     m.st.replace - m.tlb.past.displaced)
  }

  /** What `tlbW` does to the counters. */
  lemma TlbWriteBooks(m: Machine, page: nat, frame: nat, write: int)
    ensures var m' := TlbWrite(m, page, frame, write);
      && m' == m.(tlb := WriteEntry(m.tlb, Mapping(page, frame, write > 0)).0, st := m'.st)
      && Owed(m') == (Owed(m).0, Owed(m).1 + 1, Owed(m).2, Owed(m).3, Owed(m).4)
      && m'.st == m.st.(free := m'.st.free, replace := m'.st.replace)
  {
  }

  /** Only the TLB and the counters differ, and the counters stay as balanced as they were. */
  ghost predicate OnlyTlb(m: Machine, m': Machine) {
    && m' == m.(tlb := m'.tlb, st := m'.st)
    && Owed(m') == Owed(m)
    && m'.st.zero == m.st.zero && m'.st.elf == m.st.elf && m'.st.swap == m.st.swap
  }

  /** The state in which the kernel copies to or from a user page: its frame is being loaded or written out. */
  ghost predicate Copying(m: Machine, page: nat, write: bool) {
    var k := FirstEntry(m.sp.pt, page);
    && Laid(m.sp.segs, m.sp.pt, 0)
    && page % PAGE_SIZE == 0
    && TlbShape(m.tlb)
    && k < |m.sp.pt| && m.sp.pt[k].inMem
    && 0 <= FrameIndex(m.base, m.sp.pt[k].frame) < |m.cm|
    && m.cm[FrameIndex(m.base, m.sp.pt[k].frame)].state == Loading
    && Sound(m.tlb.slots, m.sp, page)
    && (write ==> NeverDenied(m.tlb.slots, page))
  }

  function FrameOf(m: Machine, page: nat): nat
    requires FirstEntry(m.sp.pt, page) < |m.sp.pt|
  {
    m.sp.pt[FirstEntry(m.sp.pt, page)].frame
  }

  lemma SoundHit(slots: seq<TlbEntry>, sp: Space, hot: int, page: nat, write: bool)
    requires Sound(slots, sp, hot)
    requires exists e :: e in slots && e.Mapping? && e.page == page && (write ==> e.dirty)
    ensures Translate(slots, page, write).Hit?
    ensures FirstEntry(sp.pt, page) < |sp.pt|
    ensures Translate(slots, page, write).frame == sp.pt[FirstEntry(sp.pt, page)].frame
  {
    var e :| e in slots && e.Mapping? && e.page == page && (write ==> e.dirty);
    var i :| 0 <= i < |slots| && slots[i] == e;
    var p := Probe(slots, page);
    assert p == i;
  }

  /** Which branch such a fault takes. */
  lemma NestedReload(m: Machine, id: nat, page: nat, write: bool, s: Schedule, depth: nat)
    requires Copying(m, page, write)
    ensures var m' := TlbWrite(m.(st := m.st.(faults := m.st.faults + 1, reload := m.st.reload + 1)), page, FrameOf(m, page), 2);
      Fault(m, id, page, s, depth) == (m', Ok)
  {
    SearchAgrees(m.sp, page);
    var k := FirstEntry(m.sp.pt, page);
    var seg := m.sp.segs[FindSeg(m.sp.segs, page)];
    var m0 := m.(st := m.st.(faults := m.st.faults + 1));
    var i := k - (|m.sp.pt| - seg.suffix) + 1;
    assert Fault(m, id, page, s, depth) == Serve(m0, id, seg, k, i, page, s, depth);
    assert Serve(m0, id, seg, k, i, page, s, depth) == Reload(m0, seg, page, FrameOf(m, page));
  }

  /** Mapping the page being copied writable. */
  lemma MapCopied(m: Machine, page: nat, write: bool)
    requires Copying(m, page, write)
    ensures var m' := TlbWrite(m, page, FrameOf(m, page), 2);
      && m' == m.(tlb := m'.tlb, st := m'.st) && Copying(m', page, true)
      && Translate(m'.tlb.slots, page, true) == Hit(FrameOf(m, page))
  {
    var e := Mapping(page, FrameOf(m, page), true);
    var t' := WriteEntry(m.tlb, e).0;
    WriteSound(m.tlb, e, m.sp, page);
    SoundHit(t'.slots, m.sp, page, page, true);
    var i :| 0 <= i < |t'.slots| && t'.slots[i] == e;
  }

  /**
   * A fault on a page whose frame is being loaded or written out takes the
   * in-memory branch whatever the remaining depth: it only maps the page, writable.
   */
  lemma NestedFault(m: Machine, id: nat, page: nat, write: bool, s: Schedule, depth: nat)
    requires Copying(m, page, write)
    ensures var (m', o) := Fault(m, id, page, s, depth);
      && o == Ok && OnlyTlb(m, m') && Copying(m', page, true)
      && Translate(m'.tlb.slots, page, true) == Hit(FrameOf(m, page))
      && m'.st.faults == m.st.faults + 1 && m'.st.reload == m.st.reload + 1 && m'.st.invalid == m.st.invalid
  {
    NestedReload(m, id, page, write, s, depth);
    MapCopied(m.(st := m.st.(faults := m.st.faults + 1, reload := m.st.reload + 1)), page, write);
  }

  lemma TouchKeeps(m: Machine, id: nat, page: nat, write: bool, s: Schedule, depth: nat)
    requires Copying(m, page, write) && depth > 0
    ensures var (m', o) := TouchPage(m, id, page, write, s, depth);
      && o == Ok && OnlyTlb(m, m') && Copying(m', page, write) && m'.st.invalid == m.st.invalid
      && Translate(m'.tlb.slots, page, write) == Hit(FrameOf(m, page))
  {
    var p := Probe(m.tlb.slots, page);
    if p < |m.tlb.slots| {
      assert MappingOk(m.tlb.slots[p], m.sp, page);
    } else {
      NestedFault(m, id, page, write, s, depth - 1);
      var m' := Fault(m, id, page, s, depth - 1).0;
      var p' := Probe(m'.tlb.slots, page);
      assert Translate(m'.tlb.slots, page, write) == Hit(FrameOf(m, page));
    }
  }

  predicate InTlb(t: TlbState, page: nat) {
    Probe(t.slots, page) < |t.slots|
  }

  /** The last thing to happen is a TLB flush. */
  predicate EndsFlushed(evs: seq<Event>) {
    evs != [] && evs[|evs| - 1] == Flush
  }

  function Flushes(evs: seq<Event>): nat {
    if evs == [] then 0 else (if evs[0] == Flush then 1 else 0) + Flushes(evs[1..])
  }

  /** The flushes around one copy. */
  function IoFlushes(io: Io): nat {
    Flushes(io.before) + Flushes(io.after)
  }

  lemma {:induction false} FlushesTouch(evs: seq<Event>)
    ensures Flushes(evs + [Touch]) == Flushes(evs)
    decreases |evs|
  {
    if evs == [] {
      assert Flushes([Touch][1..]) == 0;
    } else {
      assert (evs + [Touch])[1..] == evs[1..] + [Touch];
      FlushesTouch(evs[1..]);
    }
  }

  lemma {:induction false} EventsKeep(m: Machine, id: nat, page: nat, write: bool, evs: seq<Event>, s: Schedule, depth: nat)
    requires Copying(m, page, write) && depth > 0
    ensures var (m', o) := RunEvents(m, id, page, write, evs, s, depth);
      && o == Ok && OnlyTlb(m, m') && Copying(m', page, write)
      && (evs != [] && evs[|evs| - 1] == Touch ==> Translate(m'.tlb.slots, page, write) == Hit(FrameOf(m, page)))
      && (EndsFlushed(evs) ==> !InTlb(m'.tlb, page))
      && m'.st.invalid == m.st.invalid + Flushes(evs)
    decreases |evs|
  {
    if evs != [] {
      if evs[0] == Flush {
        EventsKeep(Flushed(m), id, page, write, evs[1..], s, depth);
      } else {
        TouchKeeps(m, id, page, write, s, depth);
        var m1 := TouchPage(m, id, page, write, s, depth).0;
        EventsKeep(m1, id, page, write, evs[1..], s, depth);
      }
    }
  }

  /**
   * A copy out of a user page delivers the page's frame and changes nothing
   * but the TLB and counters. It leaves the page in the TLB unless a flush
   * closes it.
   */
  lemma ReadKeeps(m: Machine, id: nat, page: nat, io: Io, s: Schedule, depth: nat)
    requires Copying(m, page, false) && depth > 0 && |m.ram| == |m.cm|
    ensures var (m', o, data) := UserRead(m, id, page, io, s, depth);
      && o == Ok && OnlyTlb(m, m') && Copying(m', page, false)
      && data == m.ram[FrameIndex(m.base, FrameOf(m, page))]
      && (InTlb(m'.tlb, page) <==> !EndsFlushed(io.after))
      && m'.st.invalid == m.st.invalid + IoFlushes(io)
  {
    FlushesTouch(io.before);
    EventsKeep(m, id, page, false, io.before + [Touch], s, depth);
    var m1 := RunEvents(m, id, page, false, io.before + [Touch], s, depth).0;
    EventsKeep(m1, id, page, false, io.after, s, depth);
  }

  /** A copy into a user page stores into the page's frame, and never meets a read-only mapping. */
  lemma WriteKeeps(m: Machine, id: nat, page: nat, start: nat, bytes: seq<Byte>, io: Io, s: Schedule, depth: nat)
    requires Copying(m, page, true) && depth > 0 && |m.ram| == |m.cm|
    requires start + |bytes| <= PAGE_SIZE
    ensures var (m', o) := UserWrite(m, id, page, start, bytes, io, s, depth);
      var f := FrameIndex(m.base, FrameOf(m, page));
      && o == Ok && Copying(m', page, true)
      && OnlyTlb(m.(ram := m.ram[f := Overlay(m.ram[f], start, bytes)]), m')
      && m'.st.invalid == m.st.invalid + IoFlushes(io)
  {
    FlushesTouch(io.before);
    EventsKeep(m, id, page, true, io.before + [Touch], s, depth);
    var m1 := RunEvents(m, id, page, true, io.before + [Touch], s, depth).0;
    var f := FrameIndex(m.base, FrameOf(m, page));
    EventsKeep(m1.(ram := m1.ram[f := Overlay(m1.ram[f], start, bytes)]), id, page, true, io.after, s, depth);
  }
}
