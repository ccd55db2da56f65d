/**
 * The statistics counters (kern/vm/vm_stats.c).
 *
 * They are kept in an array, by the numbers the kernel gives them, and read
 * by name.
 */
module VmStats {
  import opened Demand

  const TLB_FAULT := 0
  const TLB_FAULT_FREE := 1
  const TLB_FAULT_REPLACE := 2
  const TLB_INVALID := 3
  const TLB_RELOAD := 4
  const PAGE_FAULT_ZERO := 5
  const PAGE_FAULT_DISK := 6
  const PAGE_FAULT_ELF := 7
  const PAGE_FAULT_SWAP := 8
  const SWAP_FILE_WRITE := 9
  const TOT_COUNTERS: nat := 10

  /** The counters by name. */
  function Read(c: seq<nat>): Stats
    requires |c| == TOT_COUNTERS
  {
    Stats(c[TLB_FAULT], c[TLB_FAULT_FREE], c[TLB_FAULT_REPLACE], c[TLB_INVALID], c[TLB_RELOAD],
          c[PAGE_FAULT_ZERO], c[PAGE_FAULT_DISK], c[PAGE_FAULT_ELF], c[PAGE_FAULT_SWAP], c[SWAP_FILE_WRITE])
  }

  class Counters {
    const cells: array<nat>

    ghost predicate Valid() { cells.Length == TOT_COUNTERS }

    function Value(): Stats
      reads cells
      requires Valid()
    {
      Read(cells[..])
    }

    /** `vmstats_init`. */
    constructor ()
      ensures Valid() && fresh(cells) && Value() == Stats(0, 0, 0, 0, 0, 0, 0, 0, 0, 0)
    {
      cells := new nat[TOT_COUNTERS](_ => 0);
      new;
      for i := 0 to TOT_COUNTERS
        invariant forall k :: 0 <= k < TOT_COUNTERS ==> cells[k] == 0
      {
        cells[i] := 0;
      }
    }

    /** `vmstats_inc`. */
    method Inc(pos: nat)
      requires Valid() && pos < TOT_COUNTERS
      modifies cells
      ensures cells[..] == old(cells[..])[pos := old(cells[pos]) + 1]
    {
      cells[pos] := cells[pos] + 1;
    }
  }
}
