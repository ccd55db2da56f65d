/**
 * The coremap as the kernel keeps it: an array scanned and overwritten in
 * place (kern/vm/coremap.c).
 */
module Frames {
  import opened Layout
  import opened Coremap

  class FrameTable {
    const base: nat
    const entries: array<CmEntry>
    var clock: nat

    /** `cm_bootstrap`: frames up to `last` hold the coremap itself. */
    constructor (base: nat, frames: nat, last: nat)
      ensures this.base == base && entries.Length == frames && fresh(entries)
      ensures BootTable(entries[..], last)
      ensures clock == if frames <= last then frames else last + 1
    {
      this.base := base;
      entries := new CmEntry[frames](_ => FREE_ENTRY);
      clock := 0;
      new;
      for i := 0 to frames
        invariant clock == if i <= last then i else last + 1
        invariant forall k :: 0 <= k < i ==> entries[k] == BootEntry(k, last)
      {
        entries[i] := FREE_ENTRY;
        if i <= last {
          entries[i] := CmEntry(Nobody, 0, Fixed, 0, At(clock));
          clock := clock + 1;
        }
      }
    }

    /** `frame_kalloc`: the lowest run of that many free frames; 0 when there is none. */
    method FrameKalloc(nframes: nat) returns (pa: nat)
      modifies this`clock, entries
      ensures var p := LowestRun(old(entries[..]), if nframes == 0 then 1 else nframes);
        if p == entries.Length then pa == 0 && entries[..] == old(entries[..]) && clock == old(clock)
        else
          && pa == FrameAddr(base, p) && clock == old(clock) + 1
          && entries[..] == Claim(old(entries[..]), base, old(clock), p, nframes)
    {
      ghost var cm := entries[..];
      ghost var n := if nframes == 0 then 1 else nframes;
      var first, i, found := 0, 0, false;
      while i < entries.Length && !found
        invariant i <= entries.Length && entries[..] == cm
        invariant found ==> i > 0 && first <= i - 1 && i == first + n && IsRun(cm, first, n)
        invariant !found && i > 0 && cm[i - 1].state == Free ==>
          && first < i && i - first < n
          && (forall k :: first <= k < i ==> cm[k].state == Free)
          && (first > 0 ==> cm[first - 1].state != Free)
        invariant forall q: nat :: q + n <= (if found then i - 1 else i) ==> !IsRun(cm, q, n)
      {
        if entries[i].state == Free {
          if i == 0 || entries[i - 1].state != Free {
            first := i;
          }
          if i - first + 1 >= nframes {
            found := true;
          }
        }
        i := i + 1;
      }
      ghost var p := LowestRun(cm, n);
      if !found {
        return 0;
      }
      assert p == first;
      for j := first to first + nframes
        invariant clock == old(clock)
        invariant forall k :: 0 <= k < |cm| ==>
          entries[k] == if first <= k < j then KernelEntry(cm, base, clock, first, nframes, k) else cm[k]
      {
        if j == first {
          entries[j] := entries[j].(npages := nframes);
        }
        entries[j] := entries[j].(state := Fixed, owner := Nobody, page := FrameAddr(base, j) + KSEG0, stamp := At(clock));
      }
      assert entries[..] == Claim(cm, base, clock, first, nframes);
      clock := clock + 1;
      return FrameAddr(base, first);
    }

    /** `frame_kfree`: free the whole block whose head is at the kernel address. */
    method FrameKfree(vaddr: nat)
      requires vaddr >= KSEG0 && base <= vaddr - KSEG0
      requires FrameIndex(base, vaddr - KSEG0) < entries.Length
      requires FrameIndex(base, vaddr - KSEG0) + entries[FrameIndex(base, vaddr - KSEG0)].npages <= entries.Length
      modifies entries
      ensures var p := FrameIndex(base, vaddr - KSEG0);
        entries[..] == Release(old(entries[..]), p, old(entries[p].npages))
    {
      ghost var cm := entries[..];
      var pos := FrameIndex(base, vaddr - KSEG0);
      var npages := entries[pos].npages;
      for j := pos to pos + npages
        invariant forall k :: 0 <= k < |cm| ==> entries[k] == if pos <= k < j then Released(cm[k]) else cm[k]
      {
        entries[j] := entries[j].(state := Free, npages := 0, page := 0, stamp := Never);
      }
      assert entries[..] == Release(cm, pos, npages);
    }

    /** `frame_alloc`: the first free frame, marked LOADING; 0 when there is none. */
    method FrameAlloc(id: nat, page: nat) returns (pa: nat)
      modifies this`clock, entries
      ensures var f := FirstFree(old(entries[..]));
        if f == entries.Length then pa == 0 && entries[..] == old(entries[..]) && clock == old(clock)
        else
          && pa == FrameAddr(base, f) && clock == old(clock) + 1
          && entries[..] == old(entries[..])[f := CmEntry(As(id), page, Loading, 1, At(old(clock)))]
    {
      for i := 0 to entries.Length
        invariant entries[..] == old(entries[..]) && clock == old(clock)
        invariant forall k :: 0 <= k < i ==> entries[k].state != Free
      {
        if entries[i].state == Free {
          assert i == FirstFree(entries[..]);
          entries[i] := CmEntry(As(id), page, Loading, 1, At(clock));
          clock := clock + 1;
          return FrameAddr(base, i);
        }
      }
      return 0;
    }

    /** `cm_evict`: unhook the oldest evictable frame; a negative position stands for the panic when there is none. */
    method CmEvict(id: nat) returns (victim: nat, pa: nat, pos: int)
      modifies entries
      ensures pos == Oldest(old(entries[..]), id, 0, clock, -1)
      ensures pos < 0 ==> entries[..] == old(entries[..])
      ensures pos >= 0 ==>
        && victim == old(entries[pos].page) && pa == FrameAddr(base, pos)
        && entries[..] == old(entries[..])[pos := CmEntry(Nobody, 0, Loading, 0, Never)]
    {
      var min := clock;
      pos := -1;
      for i := 0 to entries.Length
        invariant entries[..] == old(entries[..])
        invariant pos == -1 || 0 <= pos < i
        invariant Oldest(entries[..], id, 0, clock, -1) == Oldest(entries[..], id, i, min, pos)
      {
        if Evictable(entries[i], id) && Before(entries[i].stamp, min) {
          min := entries[i].stamp.time;
          pos := i;
        }
      }
      if pos < 0 {
        return 0, 0, pos;
      }
      victim := entries[pos].page;
      pa := FrameAddr(base, pos);
      entries[pos] := CmEntry(Nobody, 0, Loading, 0, Never);
    }

    /** `cm_update_vaddr`. */
    method CmUpdateVaddr(id: nat, pos: nat, page: nat)
      requires pos < entries.Length
      modifies this`clock, entries
      ensures entries[..] == old(entries[..])[pos := CmEntry(As(id), page, Loading, 1, At(old(clock)))]
      ensures clock == old(clock) + 1
    {
      entries[pos] := CmEntry(As(id), page, Loading, 1, At(clock));
      clock := clock + 1;
    }

    method CmCheckState(pa: nat, state: FrameState) returns (r: bool)
      requires 0 <= FrameIndex(base, pa) < entries.Length
      ensures r <==> entries[FrameIndex(base, pa)].state == state
    {
      var pos := FrameIndex(base, pa);
      r := entries[pos].state == state;
    }

    method CmUpdateState(pa: nat, state: FrameState)
      requires 0 <= FrameIndex(base, pa) < entries.Length
      modifies entries
      ensures var f := FrameIndex(base, pa); entries[..] == old(entries[..])[f := old(entries[f]).(state := state)]
    {
      var pos := FrameIndex(base, pa);
      entries[pos] := entries[pos].(state := state);
    }

    /** `cm_asfree`: every frame of the address space becomes free. */
    method CmAsfree(id: nat)
      modifies entries
      ensures entries[..] == OwnerFreed(old(entries[..]), id)
    {
      for i := 0 to entries.Length
        invariant forall k :: i <= k < entries.Length ==> entries[k] == old(entries[k])
        invariant forall k :: 0 <= k < i ==>
          entries[k] == if old(entries[k]).owner == As(id) && old(entries[k]).state != Fixed then FREE_ENTRY else old(entries[k])
      {
        if entries[i].owner == As(id) && entries[i].state != Fixed {
          entries[i] := FREE_ENTRY;
        }
      }
    }
  }
}
