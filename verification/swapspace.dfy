/** The swap slot table, kept beside the swapfile blocks (kern/vm/swap.c). */
module SwapSpace {
  import opened Layout

  /** A slot; `Vacant` is a null address space pointer. */
  datatype Slot = Vacant | Held(id: nat, page: nat)

  function FirstVacant(slots: seq<Slot>, i: nat := 0): (r: nat)
    requires i <= |slots|
    ensures i <= r <= |slots|
    ensures forall j :: i <= j < r ==> slots[j].Held?
    ensures r < |slots| ==> slots[r] == Vacant
    decreases |slots| - i
  {
    if i == |slots| || slots[i] == Vacant then i else FirstVacant(slots, i + 1)
  }

  function FindSlot(slots: seq<Slot>, id: nat, page: nat, i: nat := 0): (r: nat)
    requires i <= |slots|
    ensures i <= r <= |slots|
    ensures forall j :: i <= j < r ==> slots[j] != Held(id, page)
    ensures r < |slots| ==> slots[r] == Held(id, page)
    decreases |slots| - i
  {
    if i == |slots| || slots[i] == Held(id, page) then i else FindSlot(slots, id, page, i + 1)
  }

  /** What `swap_asfree` leaves. */
  function HolderFreed(slots: seq<Slot>, id: nat): (r: seq<Slot>) {
    seq(|slots|, j requires 0 <= j < |slots| => if slots[j].Held? && slots[j].id == id then Vacant else slots[j])
  }
}
