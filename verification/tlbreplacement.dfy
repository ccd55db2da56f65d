/** Which slot `tlbW` takes, and that it replaces mappings in turn (kern/vm/tlb.c). */
module TlbReplacement {
  import opened Tlb
  import opened Soundness
  import opened Demand

  /** No page has two slots. */
  ghost predicate Unique(slots: seq<TlbEntry>) {
    forall i, j :: 0 <= i < j < |slots| && slots[i].Mapping? && slots[j].Mapping? ==> slots[i].page != slots[j].page
  }

  /** The page is mapped. */
  ghost predicate Maps(slots: seq<TlbEntry>, page: nat) {
    exists i :: 0 <= i < |slots| && slots[i].Mapping? && slots[i].page == page
  }

  ghost predicate Full(slots: seq<TlbEntry>) {
    forall i :: 0 <= i < |slots| ==> slots[i].Mapping?
  }

  /** The mappings of a page before and after are the same. */
  ghost predicate SameMapping(slots: seq<TlbEntry>, slots': seq<TlbEntry>, page: nat) {
    forall i :: 0 <= i < |slots| && slots[i].Mapping? && slots[i].page == page ==> i < |slots'| && slots'[i] == slots[i]
  }

  /**
   * A write changes one slot: the page's own if it has one, else an invalid
   * one if there is one, and then no mapping of another page is lost and
   * Free alone grows; else the slot the pointer is at, and then that slot's
   * mapping alone is lost, Replace alone grows and the pointer moves on.
   */
  lemma WritePlaces(m: Machine, page: nat, frame: nat, write: int) returns (i: nat)
    requires m.tlb.next < |m.tlb.slots| && Unique(m.tlb.slots)
    ensures i < |m.tlb.slots|
    ensures var (t, t') := (m.tlb, TlbWrite(m, page, frame, write).tlb);
      var (st, st') := (m.st, TlbWrite(m, page, frame, write).st);
      && t'.slots == t.slots[i := Mapping(page, frame, write > 0)]
      && (Maps(t.slots, page) ==> t.slots[i].Mapping? && t.slots[i].page == page)
      && (!Maps(t.slots, page) && !Full(t.slots) ==> t.slots[i] == Invalid)
      && (Maps(t.slots, page) || !Full(t.slots) ==>
            && t'.next == t.next && st' == st.(free := st.free + 1)
            && forall q :: q != page ==> SameMapping(t.slots, t'.slots, q))
      && (!Maps(t.slots, page) && Full(t.slots) ==>
            && i == t.next && t'.next == (if t.next + 1 == |t.slots| then 0 else t.next + 1)
            && st' == st.(replace := st.replace + 1)
            && t.slots[i].Mapping? && !Maps(t'.slots, t.slots[i].page)
            && forall q :: q != page && q != t.slots[i].page ==> SameMapping(t.slots, t'.slots, q))
  {
    var slots := m.tlb.slots;
    var p := Probe(slots, page);
    var f := FirstInvalid(slots);
    i := if p < |slots| then p else if f < |slots| then f else m.tlb.next;
    NextSlot(m.tlb.next, |slots|);
  }

  lemma NextSlot(next: nat, n: nat)
    requires next < n
    ensures (next + 1) % n == if next + 1 == n then 0 else next + 1
  {
  }

  /** `tlbR` gives the victim's slot to the page and changes no other; without one it changes nothing. */
  lemma ReusePlaces(m: Machine, victim: nat, page: nat, frame: nat)
    ensures var m' := TlbReuse(m, victim, page, frame);
      && (!Maps(m.tlb.slots, victim) ==> m' == m)
      && (Maps(m.tlb.slots, victim) ==>
            exists i :: 0 <= i < |m.tlb.slots| && m.tlb.slots[i].Mapping? && m.tlb.slots[i].page == victim
              && m'.tlb.slots == m.tlb.slots[i := Mapping(page, frame, true)]
              && m'.tlb.next == m.tlb.next && m'.st == m.st.(free := m.st.free + 1))
  {
    var i := Probe(m.tlb.slots, victim);
  }

  // ---- replacements in a row ----

  function AfterWrites(t: TlbState, es: seq<TlbEntry>): TlbState
    requires forall e :: e in es ==> e.Mapping?
    decreases |es|
  {
    if es == [] then t else AfterWrites(WriteEntry(t, es[0]).0, es[1..])
  }

  /** Each write replaces a mapping. */
  ghost predicate AllReplace(t: TlbState, es: seq<TlbEntry>)
    requires forall e :: e in es ==> e.Mapping?
    decreases |es|
  {
    es == [] || (Crowded(t.slots, es[0].page) && AllReplace(WriteEntry(t, es[0]).0, es[1..]))
  }

  /** How many replacements come before slot `j` is replaced. */
  function Turn(next: nat, n: nat, j: nat): nat
    requires next < n && j < n
  {
    if next <= j then j - next else j + n - next
  }

  lemma ReplaceOne(t: TlbState, e: TlbEntry)
    requires e.Mapping? && t.next < |t.slots| && Crowded(t.slots, e.page)
    ensures var t' := WriteEntry(t, e).0;
      t'.slots == t.slots[t.next := e] && t'.next == if t.next + 1 == |t.slots| then 0 else t.next + 1
  {
    NextSlot(t.next, |t.slots|);
  }

  lemma {:induction false} WritesInTurn(t: TlbState, es: seq<TlbEntry>)
    requires t.next < |t.slots| && |es| <= |t.slots| && (forall e :: e in es ==> e.Mapping?) && AllReplace(t, es)
    ensures var t' := AfterWrites(t, es);
      && |t'.slots| == |t.slots|
      && t'.next == (if t.next + |es| < |t.slots| then t.next + |es| else t.next + |es| - |t.slots|)
      && forall j :: 0 <= j < |t.slots| ==>
           t'.slots[j] == if Turn(t.next, |t.slots|, j) < |es| then es[Turn(t.next, |t.slots|, j)] else t.slots[j]
    decreases |es|
  {
    if es != [] {
      ReplaceOne(t, es[0]);
      WritesInTurn(WriteEntry(t, es[0]).0, es[1..]);
    }
  }

  /** As many replacements in a row as there are slots overwrite each slot exactly once, and the pointer is back where it was. */
  lemma RoundRobin(t: TlbState, es: seq<TlbEntry>)
    requires t.next < |t.slots| == |es| && (forall e :: e in es ==> e.Mapping?) && AllReplace(t, es)
    ensures AfterWrites(t, es).next == t.next && |AfterWrites(t, es).slots| == |es|
    ensures forall j :: 0 <= j < |es| ==> Turn(t.next, |es|, j) < |es| && AfterWrites(t, es).slots[j] == es[Turn(t.next, |es|, j)]
    ensures forall i, j :: 0 <= i < j < |es| ==> Turn(t.next, |es|, i) != Turn(t.next, |es|, j)
  {
    WritesInTurn(t, es);
  }
}
