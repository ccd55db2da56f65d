/**
 * The linked page table and segment list of an address space (kern/vm/pt.c,
 * segment.c, addrspace.c). Ghost sequences name the nodes in order; the
 * value of the lists is what the specification of address spaces speaks of.
 */
module PageTable {
  import opened Layout
  import opened AddressSpace
  import Loading

  class PtEntry {
    var page: nat
    var frame: nat
    var inMem: bool
    var inSwap: bool
    var next: PtEntry?

    function Value(): Pte
      reads this
    {
      Pte(page, frame, inMem, inSwap)
    }

    /** `pt_create`. */
    constructor (page: nat)
      ensures Value() == Pte(page, 0, false, false) && next == null
    {
      this.page := page;
      frame, inMem, inSwap, next := 0, false, false, null;
    }
  }

  class SegmentEntry {
    const base: nat
    const npages: nat
    const size: nat
    const offset: int
    const write: int
    const exec: int
    const firstEntry: PtEntry?
    const next: SegmentEntry?
    ghost const suffix: nat

    ghost function Value(): Segment {
      Segment(base, npages, size, offset, write, exec, suffix)
    }

    function Record(): Segment {
      Segment(base, npages, size, offset, write, exec, 0)
    }

    /** `sgm_create`; the first page table entry is known by the time the record is complete. */
    constructor (base: nat, npages: nat, size: nat, offset: int, write: int, exec: int,
                 firstEntry: PtEntry?, next: SegmentEntry?, ghost suffix: nat)
      ensures Value() == Segment(base, npages, size, offset, write, exec, suffix)
      ensures this.firstEntry == firstEntry && this.next == next
    {
      this.base, this.npages, this.size, this.offset := base, npages, size, offset;
      this.write, this.exec, this.firstEntry, this.next := write, exec, firstEntry, next;
      this.suffix := suffix;
    }
  }

  /** The entries from `head` on, to the null pointer, are those of the sequence. */
  ghost predicate Linked(es: seq<PtEntry>, head: PtEntry?)
    reads es
  {
    && head == First(es, 0)
    && (forall i {:trigger es[i].next} :: 0 <= i < |es| ==> es[i].next == First(es, i + 1))
    && (forall i, j :: 0 <= i < j < |es| ==> es[i] != es[j])
  }

  function First(es: seq<PtEntry>, i: nat): PtEntry? {
    if i < |es| then es[i] else null
  }

  function Values(es: seq<PtEntry>): (r: seq<Pte>)
    reads es
    ensures |r| == |es| && forall i :: 0 <= i < |es| ==> r[i] == es[i].Value()
  {
    seq(|es|, i requires 0 <= i < |es| reads es => es[i].Value())
  }

  lemma FirstShift(chain: seq<PtEntry>, rest: seq<PtEntry>, i: nat)
    ensures First(chain + rest, |chain| + i) == First(rest, i)
  {
  }

  lemma Halves<T>(a: seq<T>, b: seq<T>)
    ensures (a + b)[..|a|] == a && (a + b)[|a|..] == b
  {
  }

  /** The position of the segment in the list of entries is no part of its chain. */
  lemma ChainAnywhere(s: Segment, suffix: nat)
    ensures Chain(s.(suffix := suffix)) == Chain(s)
  {
    forall i | 0 <= i < s.npages ensures PageAt(s.(suffix := suffix), i) == PageAt(s, i) {
    }
  }

  /** The records are linked, and each points to its first entry. */
  ghost predicate SegsLinked(ss: seq<SegmentEntry>, es: seq<PtEntry>) {
    forall i {:trigger ss[i].next} {:trigger ss[i].firstEntry} :: 0 <= i < |ss| ==>
      && ss[i].next == FirstSegment(ss, i + 1)
      && ss[i].suffix <= |es|
      && ss[i].firstEntry == First(es, |es| - ss[i].suffix)
  }

  lemma SegsPrepend(ss: seq<SegmentEntry>, es: seq<PtEntry>, s: SegmentEntry, chain: seq<PtEntry>)
    requires SegsLinked(ss, es) && s.next == FirstSegment(ss, 0)
    requires chain != [] && s.suffix == |chain| + |es| && s.firstEntry == chain[0]
    ensures SegsLinked([s] + ss, chain + es)
  {
    var ss' := [s] + ss;
    forall i | 0 < i < |ss'|
      ensures ss'[i].next == FirstSegment(ss', i + 1)
      ensures ss'[i].firstEntry == First(chain + es, |chain + es| - ss'[i].suffix)
    {
      assert ss'[i] == ss[i - 1] && ss[i - 1].next == FirstSegment(ss, i);
      FirstShift(chain, es, |es| - ss[i - 1].suffix);
    }
  }

  /** Two chains, the last entry of the first pointing to the second. */
  lemma LinkedAppend(chain: seq<PtEntry>, rest: seq<PtEntry>)
    requires chain != []
    requires forall i {:trigger chain[i].next} :: 0 <= i < |chain| ==> chain[i].next == if i + 1 < |chain| then chain[i + 1] else First(rest, 0)
    requires forall i {:trigger rest[i].next} :: 0 <= i < |rest| ==> rest[i].next == First(rest, i + 1)
    requires forall i, j :: 0 <= i < j < |chain| ==> chain[i] != chain[j]
    requires forall i, j :: 0 <= i < j < |rest| ==> rest[i] != rest[j]
    requires forall e :: e in chain ==> e !in rest
    ensures Linked(chain + rest, chain[0])
  {
    var es := chain + rest;
    forall i | 0 <= i < |es| ensures es[i].next == First(es, i + 1) {
      if i == |chain| - 1 {
        FirstShift(chain, rest, 0);
        assert First(es, i + 1) == First(rest, 0);
      }
      if i >= |chain| {
        assert es[i] == rest[i - |chain|];
        FirstShift(chain, rest, i - |chain| + 1);
        assert es[i].next == First(rest, i - |chain| + 1);
      }
    }
    forall i, j | 0 <= i < j < |es| ensures es[i] != es[j] {
      if i < |chain| <= j {
        assert chain[i] in chain && rest[j - |chain|] in rest;
      }
    }
  }

  lemma ValuesAppend(chain: seq<PtEntry>, rest: seq<PtEntry>)
    ensures Values(chain + rest) == Values(chain) + Values(rest)
  {
  }

  lemma SegmentValuesPrepend(s: SegmentEntry, ss: seq<SegmentEntry>)
    ensures SegmentValues([s] + ss) == [s.Value()] + SegmentValues(ss)
  {
  }

  lemma WholePages(len: nat)
    ensures (len - len % PAGE_SIZE) / PAGE_SIZE == len / PAGE_SIZE
  {
  }

  ghost function SegmentValues(ss: seq<SegmentEntry>): (r: seq<Segment>)
    ensures |r| == |ss| && forall i :: 0 <= i < |ss| ==> r[i] == ss[i].Value()
  {
    seq(|ss|, i requires 0 <= i < |ss| => ss[i].Value())
  }

  function FirstSegment(ss: seq<SegmentEntry>, i: nat): SegmentEntry? {
    if i < |ss| then ss[i] else null
  }

  class AddrSpace {
    var pt: PtEntry?
    var segments: SegmentEntry?
    var elf: seq<Byte>
    ghost var entries: seq<PtEntry>
    ghost var segs: seq<SegmentEntry>

    ghost predicate Valid()
      reads this, entries
    {
      && Linked(entries, pt)
      && segments == FirstSegment(segs, 0)
      && SegsLinked(segs, entries)
    }

    ghost function Value(): Space
      reads this, entries
    {
      Space(SegmentValues(segs), Values(entries), elf)
    }

    /** `as_create` and `as_complete_load`. */
    constructor (elf: seq<Byte>)
      ensures Valid() && Value() == Space([], [], elf)
    {
      pt, segments, this.elf := null, null, elf;
      entries, segs := [], [];
    }

    /** The chain of new entries that both definitions build, page by page. */
    method BuildChain(s: Segment) returns (head: PtEntry, tail: PtEntry, ghost chain: seq<PtEntry>)
      requires s.npages > 0
      ensures fresh(chain) && |chain| == s.npages && head == chain[0] && tail == chain[s.npages - 1]
      ensures Linked(chain, head) && Values(chain) == Chain(s)
    {
      head := new PtEntry(PageAt(s, 0));
      tail := head;
      chain := [head];
      for i := 1 to s.npages
        invariant fresh(chain) && |chain| == i && head == chain[0] && tail == chain[i - 1]
        invariant Linked(chain, head)
        invariant forall k :: 0 <= k < i ==> chain[k].Value() == Pte(PageAt(s, k), 0, false, false)
      {
        var page := new PtEntry(PageAt(s, i));
        tail.next := page;
        tail := page;
        chain := chain + [page];
      }
    }

    /** The last entry of the chain leads on to the entries there were. */
    method Join(tail: PtEntry, ghost chain: seq<PtEntry>)
      requires Linked(entries, pt) && chain != [] && tail == chain[|chain| - 1]
      requires Linked(chain, chain[0]) && forall e :: e in chain ==> e !in entries
      modifies tail`next
      ensures Linked(chain + entries, chain[0])
      ensures Values(chain + entries) == old(Values(chain)) + old(Values(entries))
    {
      assert tail in chain;
      tail.next := pt;
      LinkedAppend(chain, entries);
      ValuesAppend(chain, entries);
    }

    /** The end of both definitions: hook the chain and the segment in front. */
    method Hook(segment: SegmentEntry, head: PtEntry, tail: PtEntry, ghost chain: seq<PtEntry>)
      requires Valid() && chain != [] && head == chain[0] && tail == chain[|chain| - 1]
      requires Linked(chain, head) && forall e :: e in chain ==> e !in entries
      requires segment.firstEntry == head && segment.next == segments && segment.suffix == |chain| + |entries|
      modifies this`pt, this`segments, this`entries, this`segs, tail`next
      ensures Valid() && entries == chain + old(entries)
      ensures Value() == Space([segment.Value()] + old(Value()).segs, old(Values(chain)) + old(Value()).pt, elf)
    {
      SegsPrepend(segs, entries, segment, chain);
      SegmentValuesPrepend(segment, segs);
      Join(tail, chain);
      pt, entries := head, chain + entries;
      segments, segs := segment, [segment] + segs;
    }

    method Define(base: nat, npages: nat, size: nat, offset: int, write: int, exec: int)
      requires Valid() && npages > 0
      modifies this`pt, this`segments, this`entries, this`segs
      ensures Valid() && |entries| >= npages && fresh(entries[..npages]) && entries[npages..] == old(entries)
      ensures Value() == Prepend(old(Value()), Segment(base, npages, size, offset, write, exec, |old(entries)| + npages))
    {
      ghost var s := Segment(base, npages, size, offset, write, exec, |entries| + npages);
      var head, tail, chain := BuildChain(Segment(base, npages, size, offset, write, exec, 0));
      ChainAnywhere(Segment(base, npages, size, offset, write, exec, 0), s.suffix);
      var segment := new SegmentEntry(base, npages, size, offset, write, exec, head, segments, s.suffix);
      Hook(segment, head, tail, chain);
      Halves(chain, old(entries));
    }

    /** `as_define_region`; false for a region of no pages, whose chain has no last entry to hook on. */
    method DefineRegion(vaddr: nat, offset: nat, sz: nat, write: int, exec: int) returns (ok: bool)
      requires Valid()
      modifies this`pt, this`segments, this`entries, this`segs
      ensures Valid() && (ok <==> Loading.RegionPages(vaddr, sz) > 0)
      ensures !ok ==> Value() == old(Value())
      ensures ok ==>
        var s := Loading.RegionSegment(vaddr, offset, sz, write, exec, |old(entries)| + Loading.RegionPages(vaddr, sz));
        Value() == Prepend(old(Value()), s)
    {
      var len := sz + vaddr % PAGE_SIZE;
      var base := vaddr - vaddr % PAGE_SIZE;
      len := len + PAGE_SIZE - 1;
      WholePages(len);
      len := len - len % PAGE_SIZE;
      ok := len / PAGE_SIZE > 0;
      if ok {
        Define(base, len / PAGE_SIZE, sz, offset, write, exec);
      }
    }

    /** `as_define_stack`. */
    method DefineStack(top: nat)
      requires Valid() && top >= STACK_PAGES * PAGE_SIZE
      modifies this`pt, this`segments, this`entries, this`segs
      ensures Valid() && Value() == Prepend(old(Value()), StackSegment(top, |old(entries)| + STACK_PAGES))
    {
      Define(StackBase(top), STACK_PAGES, 0, -1, 2, 0);
    }

    /** `pt_free`, `sgm_free` and the close of the program file: nothing of the address space is left. */
    method Discard()
      modifies this
      ensures Valid() && Value() == Space([], [], [])
    {
      pt, segments, elf := null, null, [];
      entries, segs := [], [];
    }

    /** `pt_update`. */
    method Update(va: nat)
      requires Valid()
      modifies entries
      ensures Valid() && Value() == old(Value()).(pt := MarkSwapped(old(Value()).pt, va))
    {
      var tmp := pt;
      ghost var k := 0;
      ghost var before := Values(entries);
      while tmp != null
        invariant k <= |entries| && tmp == First(entries, k)
        invariant forall i :: 0 <= i < k ==> before[i].page != va
        invariant Valid() && Values(entries) == before
        decreases |entries| - k
      {
        if tmp.page == va {
          assert FirstEntry(before, va) == k;
          tmp.inMem := false;
          tmp.inSwap := true;
          tmp.frame := 0;
          assert Values(entries) == before[k := Pte(va, 0, false, true)];
          return;
        }
        tmp := tmp.next;
        k := k + 1;
      }
    }

    /** The segment search of `vm_fault`. */
    method FindSegment(va: nat) returns (seg: SegmentEntry?, ghost j: nat)
      requires Valid()
      ensures j == FindSeg(Value().segs, va) && seg == FirstSegment(segs, j)
    {
      seg, j := segments, 0;
      while seg != null
        invariant j <= |segs| && seg == FirstSegment(segs, j)
        invariant forall i :: 0 <= i < j ==> !Covers(segs[i].Value(), va)
        decreases |segs| - j
      {
        if seg.base <= va < seg.base + seg.npages * PAGE_SIZE {
          return;
        }
        seg := seg.next;
        j := j + 1;
      }
    }

    /** The page search of `vm_fault`: at most `npages` entries from the segment's first; `i` counts from 1. */
    method FindPage(seg: SegmentEntry, va: nat) returns (pte: PtEntry?, i: nat, ghost k: nat)
      requires Valid() && seg in segs
      ensures i >= 1 && seg.suffix <= |entries| && k == |entries| - seg.suffix + i - 1
      ensures var w := Walk(Values(entries), |entries| - seg.suffix, seg.npages, va);
        if i > seg.npages then w == NotFound
        else if pte == null then w == RanOff
        else w == Found(k) && k < |entries| && pte == entries[k]
    {
      pte, i := seg.firstEntry, 1;
      ghost var first := |entries| - seg.suffix;
      ghost var values := Values(entries);
      k := first;
      ghost var left := seg.npages;
      while i <= seg.npages && pte != null
        invariant i >= 1 && k == first + i - 1 && k <= |entries| && pte == First(entries, k)
        invariant i <= seg.npages + 1
        invariant left == seg.npages - i + 1 && Walk(values, first, seg.npages, va) == Walk(values, k, left, va)
        decreases seg.npages - i
      {
        if pte.page == va {
          return;
        }
        pte := pte.next;
        i := i + 1;
        k, left := k + 1, left - 1;
      }
    }
  }
}
