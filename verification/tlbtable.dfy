/**
 * The TLB registers and their replacement pointer (kern/vm/tlb.c).
 *
 * The slots are rewritten in place, and each write counts the kind of slot
 * it found.
 */
module TlbTable {
  import opened Tlb
  import opened VmStats
  import opened Demand

  class TlbRegisters {
    const slots: array<TlbEntry>
    const stats: Counters
    var nextVictim: nat
    ghost var past: Past

    ghost predicate Valid()
      reads this
    {
      stats.Valid() && nextVictim < slots.Length
    }

    ghost function Value(): TlbState
      reads this, slots
    {
      TlbState(slots[..], nextVictim, past)
    }

    constructor (size: nat, stats: Counters)
      requires size > 0 && stats.Valid()
      ensures Valid() && fresh(slots) && this.stats == stats && slots.Length == size
      ensures Value() == TlbState(seq(size, _ => Invalid), 0, NO_PAST)
    {
      slots := new TlbEntry[size](_ => Invalid);
      this.stats := stats;
      nextVictim, past := 0, NO_PAST;
    }

    /** `tlb_get_rr_victim`. */
    method RoundRobinVictim() returns (victim: nat)
      requires Valid()
      modifies this`nextVictim
      ensures Valid() && victim == old(nextVictim) && nextVictim == (victim + 1) % slots.Length
    {
      victim := nextVictim;
      nextVictim := (nextVictim + 1) % slots.Length;
    }

    /** `tlbW`. */
    method Write(page: nat, frame: nat, write: int)
      requires Valid()
      modifies this`nextVictim, this`past, slots, stats.cells
      ensures Valid()
      ensures var (t, p) := WriteEntry(old(Value()), Mapping(page, frame, write > 0));
        Value() == t && stats.Value() == PlacedStats(old(stats.Value()), p)
    {
      ghost var before := slots[..];
      past := Written(past, before, page);
      var e := Mapping(page, frame, write > 0);
      var x := Probe(slots[..], page);
      if x < slots.Length {
        slots[x] := e;
        stats.Inc(TLB_FAULT_FREE);
        return;
      }
      for i := 0 to slots.Length
        invariant slots[..] == before && stats.Value() == old(stats.Value()) && nextVictim == old(nextVictim)
        invariant forall k :: 0 <= k < i ==> slots[k].Mapping?
      {
        if slots[i] == Invalid {
          assert i == FirstInvalid(before);
          slots[i] := e;
          stats.Inc(TLB_FAULT_FREE);
          return;
        }
      }
      var v := RoundRobinVictim();
      slots[v] := e;
      stats.Inc(TLB_FAULT_REPLACE);
    }

    /** `tlbR`; `hit` tells whether the victim had a slot. */
    method Reuse(victim: nat, page: nat, frame: nat) returns (hit: bool)
      requires Valid()
      modifies this`past, slots, stats.cells
      ensures Valid()
      ensures (Value(), hit) == ReuseEntry(old(Value()), victim, page, frame)
      ensures stats.Value() == if hit then PlacedStats(old(stats.Value()), IntoFree) else old(stats.Value())
    {
      var x := Probe(slots[..], victim);
      hit := x < slots.Length;
      if hit {
        slots[x] := Mapping(page, frame, true);
        past := past.(mapped := past.mapped + {page});
        stats.Inc(TLB_FAULT_FREE);
      }
    }

    /** The loop of `as_activate`. */
    method Flush()
      requires Valid()
      modifies this`past, slots
      ensures Valid() && Value() == FlushAll(old(Value()))
    {
      for i := 0 to slots.Length
        invariant past == old(past) && forall k :: 0 <= k < i ==> slots[k] == Invalid
      {
        slots[i] := Invalid;
      }
      past := past.(recent := 0, mapped := {});
      assert slots[..] == seq(slots.Length, _ => Invalid);
    }
  }
}
