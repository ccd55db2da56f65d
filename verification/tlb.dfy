/** The translation lookaside buffer (kern/vm/tlb.c). */
module Tlb {
  import opened Layout

  /** `Invalid` carries a kernel address that no probe for a user page matches. */
  datatype TlbEntry = Invalid | Mapping(page: nat, frame: nat, dirty: bool)

  /**
   * What the registers do not record: how many writes replaced a mapping,
   * how many of them since the last flush, and the pages mapped since then.
   */
  datatype Past = Past(displaced: nat, recent: nat, mapped: set<nat>)

  const NO_PAST := Past(0, 0, {})

  datatype TlbState = TlbState(slots: seq<TlbEntry>, next: nat, past: Past)

  /** Every slot holds another page. */
  predicate Crowded(slots: seq<TlbEntry>, page: nat) {
    forall i :: 0 <= i < |slots| ==> slots[i].Mapping? && slots[i].page != page
  }

  /** The past once a page is written. */
  function Written(past: Past, slots: seq<TlbEntry>, page: nat): Past {
    var over := if Crowded(slots, page) then 1 else 0;
    Past(past.displaced + over, past.recent + over, past.mapped + {page})
  }

  /** The slot holding a page, or the number of slots. */
  function Probe(slots: seq<TlbEntry>, page: nat, i: nat := 0): (r: nat)
    requires i <= |slots|
    ensures i <= r <= |slots|
    ensures forall j :: i <= j < r && slots[j].Mapping? ==> slots[j].page != page
    ensures r < |slots| ==> slots[r].Mapping? && slots[r].page == page
    decreases |slots| - i
  {
    if i == |slots| || (slots[i].Mapping? && slots[i].page == page) then i else Probe(slots, page, i + 1)
  }

  function FirstInvalid(slots: seq<TlbEntry>, i: nat := 0): (r: nat)
    requires i <= |slots|
    ensures i <= r <= |slots|
    ensures forall j :: i <= j < r ==> slots[j].Mapping?
    ensures r < |slots| ==> slots[r] == Invalid
    decreases |slots| - i
  {
    if i == |slots| || slots[i] == Invalid then i else FirstInvalid(slots, i + 1)
  }

  /** Which of the counters a TLB write adds to. */
  datatype Placed = IntoFree | Replaced

  /** `tlbW`: rewrite the page's own slot, else fill an invalid slot, else replace in round robin. */
  function WriteEntry(t: TlbState, e: TlbEntry): (r: (TlbState, Placed))
    requires e.Mapping?
    ensures r.1 == Replaced <==> Crowded(t.slots, e.page)
    ensures r.0.past == Written(t.past, t.slots, e.page)
  {
    var i := Probe(t.slots, e.page);
    var past := Written(t.past, t.slots, e.page);
    if i < |t.slots| then (t.(slots := t.slots[i := e], past := past), IntoFree)
    else
      var j := FirstInvalid(t.slots);
      if j < |t.slots| then (t.(slots := t.slots[j := e], past := past), IntoFree)
      else if t.next < |t.slots| then
        (TlbState(t.slots[t.next := e], (t.next + 1) % |t.slots|, past), Replaced)
      else (t.(past := past), Replaced)
  }

  /** `tlbR`: hand the victim's slot, when it has one, to the faulting page with the write bit set. */
  function ReuseEntry(t: TlbState, victim: nat, page: nat, frame: nat): (r: (TlbState, bool)) {
    var i := Probe(t.slots, victim);
    if i < |t.slots| then
      (t.(slots := t.slots[i := Mapping(page, frame, true)], past := t.past.(mapped := t.past.mapped + {page})), true)
    else (t, false)
  }

  /** `as_activate`: every slot invalid. */
  function FlushAll(t: TlbState): (r: TlbState)
  {
    t.(slots := seq(|t.slots|, _ => Invalid), past := t.past.(recent := 0, mapped := {}))
  }

  datatype Translation = Hit(frame: nat) | Denied | Miss

  /** What the processor does with an access to a user page. */
  function Translate(slots: seq<TlbEntry>, page: nat, write: bool): Translation {
    var i := Probe(slots, page);
    if i == |slots| then Miss
    else if write && !slots[i].dirty then Denied
    else Hit(slots[i].frame)
  }
}
