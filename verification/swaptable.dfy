/**
 * The swap slots and the swapfile (kern/vm/swap.c).
 *
 * The slot table is searched and changed in place; the copies between blocks
 * and user memory belong to the fault handler.
 */
module SwapTable {
  import opened Layout
  import opened SwapSpace

  class SwapFile {
    const slots: array<Slot>
    const blocks: array<Page>

    ghost predicate Valid() { blocks.Length == slots.Length }

    /** `swapspace_bootstrap`. */
    constructor (size: nat)
      ensures Valid() && fresh(slots) && fresh(blocks) && slots.Length == size
      ensures forall i :: 0 <= i < size ==> slots[i] == Vacant
    {
      slots := new Slot[size](_ => Vacant);
      blocks := new Page[size](_ => ZeroPage());
      new;
      for i := 0 to size
        invariant forall k :: 0 <= k < size ==> slots[k] == Vacant
      {
        slots[i] := Vacant;
      }
    }

    /** The first half of `swap_out`: take the first vacant slot; `slots.Length` stands for the panic when the file is full. */
    method Take(id: nat, page: nat) returns (i: nat)
      modifies slots
      ensures i == FirstVacant(old(slots[..]))
      ensures slots[..] == if i < slots.Length then old(slots[..])[i := Held(id, page)] else old(slots[..])
    {
      i := 0;
      while i < slots.Length
        invariant i <= slots.Length && slots[..] == old(slots[..])
        invariant forall k :: 0 <= k < i ==> slots[k] != Vacant
      {
        if slots[i] == Vacant {
          break;
        }
        i := i + 1;
      }
      if i < slots.Length {
        slots[i] := Held(id, page);
      }
    }

    /** The first half of `swap_in`: give up the page's slot; `slots.Length` stands for the panic when it has none. */
    method Give(id: nat, page: nat) returns (i: nat)
      modifies slots
      ensures i == FindSlot(old(slots[..]), id, page)
      ensures slots[..] == if i < slots.Length then old(slots[..])[i := Vacant] else old(slots[..])
    {
      i := 0;
      while i < slots.Length
        invariant i <= slots.Length && slots[..] == old(slots[..])
        invariant forall k :: 0 <= k < i ==> slots[k] != Held(id, page)
      {
        if slots[i] == Held(id, page) {
          assert i == FindSlot(slots[..], id, page);
          slots[i] := Vacant;
          return;
        }
        i := i + 1;
      }
    }

    /** `swap_asfree`. */
    method SwapAsfree(id: nat)
      modifies slots
      ensures slots[..] == HolderFreed(old(slots[..]), id)
    {
      for i := 0 to slots.Length
        invariant forall k :: i <= k < slots.Length ==> slots[k] == old(slots[k])
        invariant forall k :: 0 <= k < i ==>
          slots[k] == if old(slots[k]).Held? && old(slots[k]).id == id then Vacant else old(slots[k])
      {
        if slots[i].Held? && slots[i].id == id {
          slots[i] := Vacant;
        }
      }
    }
  }
}
