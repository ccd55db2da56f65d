/** One undisturbed `thread_consider_migration` (kern/thread/thread.c), in place and its exact outcome. */
module MigrationExact {
  import opened Threads
  import opened ThreadSteps
  import opened MigrationSteps

  /** The threads on the list have records. */
  predicate Known(s: Sys, p: Place) {
    forall i :: 0 <= i < |On(s, p)| ==> On(s, p)[i] in s.threads
  }

  lemma KeptKnown(s: Sys, p: Place)
    requires Kept(s)
    ensures Known(s, p)
  {
  }

  function Len(s: Sys, d: Cid): nat {
    |On(s, RunQueue(d))|
  }

  /** The threads queued on processor `i` and those after it. */
  function TotalFrom(s: Sys, i: nat): nat
    requires i <= |s.cpus|
    decreases |s.cpus| - i
  {
    if i == |s.cpus| then 0 else Len(s, i) + TotalFrom(s, i + 1)
  }

  /** The outer loop over the other processors. */
  function SendAll(s: Sys, c: Cid, i: nat, share: nat, toSend: nat): (r: (Sys, nat))
    requires c < |s.cpus| && i <= |s.cpus|
    ensures r.0.cpus == s.cpus && r.1 <= toSend
    decreases |s.cpus| - i
  {
    if i == |s.cpus| || toSend == 0 then (s, toSend)
    else if i == c then SendAll(s, c, i + 1, share, toSend)
    else
      var (s1, n) := SendTo(s, c, i, share, toSend);
      SendAll(s1, c, i + 1, share, n)
  }

  function Share(s: Sys): nat
    requires |s.cpus| > 0
  {
    CeilDiv(TotalFrom(s, 0), |s.cpus|)
  }

  /** The whole of it, with the queues otherwise unchanged. */
  function MigrateAlone(s: Sys, c: Cid): (r: Sys)
    requires c < |s.cpus|
    ensures r.cpus == s.cpus
  {
    var share := Share(s);
    if Len(s, c) < share then s
    else
      var toSend := Len(s, c) - share;
      Return(SendAll(TakeVictims(s, c, toSend), c, 0, share, toSend).0, c)
  }

  // ---- in place ----

  class Scheduler {
    var threads: map<Tid, Thread>
    var lists: map<Place, seq<Tid>>
    var broken: bool
    const cpus: seq<Cpu>

    function State(): Sys
      reads this
    {
      Sys(threads, cpus, lists, broken)
    }

    constructor (s: Sys)
      ensures State() == s
    {
      threads, lists, broken, cpus := s.threads, s.lists, s.broken, s.cpus;
    }

    /** `thread_consider_migration` on processor `c`, with no thread missing a record. */
    method ConsiderMigration(c: Cid)
      requires c < |cpus| && Kept(State()) && On(State(), Victims(c)) == []
      modifies this
      ensures State() == MigrateAlone(old(State()), c)
    {
      var my, total := CountQueues(c);
      var share := CeilDiv(total, |cpus|);
      MigrateCases(State(), c, share);
      if my < share {
        return;
      }
      Migrate(c, share, my - share);
    }

    /** The threads beyond the share are taken, sent, and put back where they found no room. */
    method Migrate(c: Cid, share: nat, n: nat)
      requires c < |cpus| && Kept(State()) && n <= Len(State(), c)
      modifies this
      ensures State() == Return(SendAll(TakeVictims(old(State()), c, n), c, 0, share, n).0, c)
    {
      VictimsReady(State(), c, n);
      KeptKnown(State(), RunQueue(c));
      TakeAll(c, n);
      SendVictims(c, share, n);
      KeptKnown(State(), Victims(c));
      PutBack(c);
    }

    /** The loop that counts the queued threads. */
    method CountQueues(c: Cid) returns (my: nat, total: nat)
      requires c < |cpus|
      ensures my == Len(State(), c) && total == TotalFrom(State(), 0)
    {
      my, total := 0, 0;
      for i := 0 to |cpus|
        invariant total + TotalFrom(State(), i) == TotalFrom(State(), 0)
        invariant my == if i <= c then 0 else Len(State(), c)
      {
        total := total + |At(lists, RunQueue(i))|;
        if i == c {
          my := |At(lists, RunQueue(i))|;
        }
      }
    }

    /** The outer loop. */
    method SendVictims(c: Cid, share: nat, n: nat)
      requires c < |cpus| && Kept(State()) && n <= |On(State(), Victims(c))|
      modifies this`lists, this`threads
      ensures State() == SendAll(old(State()), c, 0, share, n).0 && Kept(State())
    {
      var i, toSend := 0, n;
      while i < |cpus| && toSend > 0
        invariant 0 <= i <= |cpus| && 0 <= toSend && Kept(State()) && toSend <= |On(State(), Victims(c))|
        invariant SendAll(State(), c, i, share, toSend) == SendAll(old(State()), c, 0, share, n)
      {
        if i != c {
          SendToKept(State(), c, i, share, toSend);
          KeptKnown(State(), Victims(c));
          toSend := Fill(c, i, share, toSend);
        }
        i := i + 1;
      }
    }

    /** A thread off the head or tail of one list and onto the head or tail of another. */
    method Move(p: Place, k: nat, q: Place, atTail: bool, r: Thread)
      requires k < |On(State(), p)| && p != q
      modifies this`lists, this`threads
      ensures State() == Shift(old(State()), p, k, q, atTail, r)
    {
      var t := lists[p][k];
      lists := lists[p := Cut(lists[p], k)];
      lists := lists[q := if atTail then At(lists, q) + [t] else [t] + At(lists, q)];
      threads := threads[t := r];
    }

    method TakeTail(c: Cid)
      requires c < |cpus| && Known(State(), RunQueue(c)) && On(State(), RunQueue(c)) != []
      modifies this`lists, this`threads
      ensures var s := old(State());
        var q := On(s, RunQueue(c));
        && State() == Shift(s, RunQueue(c), |q| - 1, Victims(c), false, s.threads[q[|q| - 1]])
        && Known(State(), RunQueue(c)) && |On(State(), RunQueue(c))| == |q| - 1
    {
      var q := At(lists, RunQueue(c));
      ShiftLengths(State(), RunQueue(c), |q| - 1, Victims(c), false, threads[q[|q| - 1]]);
      Move(RunQueue(c), |q| - 1, Victims(c), false, threads[q[|q| - 1]]);
    }

    method TakeAll(c: Cid, n: nat)
      requires c < |cpus| && Known(State(), RunQueue(c)) && n <= |On(State(), RunQueue(c))|
      modifies this`lists, this`threads
      ensures State() == TakeVictims(old(State()), c, n)
    {
      ghost var left := n;
      for i := 0 to n
        invariant left == n - i && Known(State(), RunQueue(c)) && left <= |On(State(), RunQueue(c))|
        invariant TakeVictims(State(), c, left) == TakeVictims(old(State()), c, n)
      {
        TakeVictimsStep(State(), c, left);
        TakeTail(c);
        left := left - 1;
      }
    }

    /** One thread is sent, or kept back if it is the current one. */
    method SendHead(c: Cid, d: Cid)
      requires c < |cpus| && On(State(), Victims(c)) != [] && On(State(), Victims(c))[0] in threads
      modifies this`lists, this`threads
      ensures State() == SendOne(old(State()), c, d)
    {
      var t := lists[Victims(c)][0];
      if t == cpus[c].cur {
        lists := lists[Victims(c) := lists[Victims(c)][1..] + [t]];
      } else {
        Move(Victims(c), 0, RunQueue(d), true, threads[t].(cpu := d));
      }
    }

    /** The inner loop, for processor `d`. */
    method Fill(c: Cid, d: Cid, share: nat, n: nat) returns (toSend: nat)
      requires c < |cpus| && d < |cpus| && c != d && Known(State(), Victims(c)) && n <= |On(State(), Victims(c))|
      modifies this`lists, this`threads
      ensures (State(), toSend) == SendTo(old(State()), c, d, share, n)
    {
      toSend := n;
      while |At(lists, RunQueue(d))| < share && toSend > 0
        invariant Known(State(), Victims(c)) && toSend <= |On(State(), Victims(c))|
        invariant SendTo(State(), c, d, share, toSend) == SendTo(old(State()), c, d, share, n)
      {
        FirstSent(State(), c, d, share, toSend);
        SendHead(c, d);
        toSend := toSend - 1;
      }
    }

    /** The leftovers go back to the caller's queue. */
    method PutBack(c: Cid)
      requires c < |cpus| && Known(State(), Victims(c))
      modifies this`lists, this`threads
      ensures State() == Return(old(State()), c)
    {
      while At(lists, Victims(c)) != []
        invariant Known(State(), Victims(c)) && Return(State(), c) == Return(old(State()), c)
        decreases |At(lists, Victims(c))|
      {
        ghost var next := ReturnStep(State(), c);
        Move(Victims(c), 0, RunQueue(c), true, threads[lists[Victims(c)][0]]);
      }
    }
  }

  /** The whole of it by its share. */
  lemma MigrateCases(s: Sys, c: Cid, share: nat)
    requires c < |s.cpus| && share == Share(s)
    ensures MigrateAlone(s, c) ==
      if Len(s, c) < share then s
      else Return(SendAll(TakeVictims(s, c, Len(s, c) - share), c, 0, share, Len(s, c) - share).0, c)
  {
  }

  lemma VictimsReady(s: Sys, c: Cid, n: nat)
    requires Kept(s) && n <= Len(s, c)
    ensures Kept(TakeVictims(s, c, n)) && n <= |On(TakeVictims(s, c, n), Victims(c))|
  {
    TakeVictimsKept(s, c, n);
    RunnableKnown(s, c);
    TakeVictimsQueues(s, c, n);
  }

  /** One turn of the inner loop. */
  lemma FirstSent(s: Sys, c: Cid, d: Cid, share: nat, toSend: nat)
    requires c < |s.cpus| && c != d && Known(s, Victims(c))
    requires 0 < toSend <= |On(s, Victims(c))| && Len(s, d) < share
    ensures SendTo(s, c, d, share, toSend) == SendTo(SendOne(s, c, d), c, d, share, toSend - 1)
    ensures Known(SendOne(s, c, d), Victims(c)) && toSend - 1 <= |On(SendOne(s, c, d), Victims(c))|
  {
  }

  // ---- the exact outcome ----

  /** How many threads processor `d` is short of the share. */
  function Short(s: Sys, d: Cid, share: nat): nat {
    if Len(s, d) < share then share - Len(s, d) else 0
  }

  /** The room on the other processors from `i` on. */
  function Spare(s: Sys, c: Cid, i: nat, share: nat): nat
    requires i <= |s.cpus|
    decreases |s.cpus| - i
  {
    if i == |s.cpus| then 0 else (if i == c then 0 else Short(s, i, share)) + Spare(s, c, i + 1, share)
  }

  lemma {:induction false} SpareSum(s: Sys, c: Cid, i: nat, share: nat)
    requires i <= |s.cpus| && c < |s.cpus|
    ensures TotalFrom(s, i) + Spare(s, c, i, share) >= (|s.cpus| - i) * share + (if i <= c then Len(s, c) - share else 0)
    decreases |s.cpus| - i
  {
    if i < |s.cpus| {
      SpareSum(s, c, i + 1, share);
      assert (|s.cpus| - i) * share == share + (|s.cpus| - (i + 1)) * share;
    }
  }

  /** A share that makes room for all threads leaves room on the others for what the caller has beyond it. */
  lemma SpareEnough(s: Sys, c: Cid, k: nat)
    requires c < |s.cpus| && Len(s, c) >= k && |s.cpus| * k >= TotalFrom(s, 0)
    ensures Spare(s, c, 0, k) >= Len(s, c) - k
  {
    SpareSum(s, c, 0, k);
  }

  /** The other queues. */
  ghost predicate SameOthers(s: Sys, s': Sys, d: Cid) {
    forall e :: e != d ==> On(s', RunQueue(e)) == On(s, RunQueue(e))
  }

  /** Which victims are still to be looked at: the current thread, once met, waits behind them. */
  ghost predicate Waiting(s: Sys, c: Cid, victims: seq<Tid>, toSend: nat)
    requires c < |s.cpus|
  {
    && toSend <= |victims|
    && On(s, Victims(c)) == victims[|victims| - toSend..]
         + (if s.cpus[c].cur in victims[..|victims| - toSend] then [s.cpus[c].cur] else [])
  }

  /** The victims dealt with have found a queue. */
  ghost predicate Sent(s: Sys, c: Cid, victims: seq<Tid>, toSend: nat)
    requires c < |s.cpus| && toSend <= |victims|
  {
    forall k :: 0 <= k < |victims| - toSend && victims[k] != s.cpus[c].cur ==>
      exists d :: 0 <= d < |s.cpus| && d != c && victims[k] in On(s, RunQueue(d))
  }

  ghost predicate Progress(s: Sys, c: Cid, victims: seq<Tid>, toSend: nat)
    requires c < |s.cpus|
  {
    Known(s, Victims(c)) && Waiting(s, c, victims, toSend) && Sent(s, c, victims, toSend)
  }

  lemma SendOneProgress(s: Sys, c: Cid, d: Cid, victims: seq<Tid>, toSend: nat)
    requires c < |s.cpus| && d < |s.cpus| && c != d && toSend > 0 && Distinct(victims)
    requires Progress(s, c, victims, toSend)
    ensures On(s, Victims(c)) != [] && Progress(SendOne(s, c, d), c, victims, toSend - 1)
    ensures SameOthers(s, SendOne(s, c, d), d)
    ensures On(SendOne(s, c, d), RunQueue(d)) == On(s, RunQueue(d)) || On(SendOne(s, c, d), RunQueue(d)) == On(s, RunQueue(d)) + [victims[|victims| - toSend]]
  {
  }

  /** A queue that has only been added to. */
  ghost predicate Extends(l: seq<Tid>, l': seq<Tid>) {
    |l| <= |l'| && l'[..|l|] == l
  }

  /** One queue has been added to, and not beyond the share. */
  ghost predicate GrownOne(s: Sys, s': Sys, d: Cid, share: nat) {
    Extends(On(s, RunQueue(d)), On(s', RunQueue(d))) && (Len(s', d) <= share || Len(s', d) == Len(s, d))
  }

  ghost predicate Grown(s: Sys, s': Sys, c: Cid, share: nat) {
    On(s', RunQueue(c)) == On(s, RunQueue(c)) && forall d :: d != c ==> GrownOne(s, s', d, share)
  }

  lemma GrownChain(s: Sys, s1: Sys, s2: Sys, c: Cid, share: nat)
    requires Grown(s, s1, c, share) && Grown(s1, s2, c, share)
    ensures Grown(s, s2, c, share)
  {
    forall d | d != c ensures GrownOne(s, s2, d, share) {
      assert GrownOne(s, s1, d, share) && GrownOne(s1, s2, d, share);
    }
  }

  lemma OneGrows(s: Sys, s': Sys, c: Cid, d: Cid, share: nat)
    requires c != d && SameOthers(s, s', d) && GrownOne(s, s', d, share)
    ensures Grown(s, s', c, share)
  {
  }

  lemma GrownOneMore(s: Sys, s1: Sys, s2: Sys, d: Cid, share: nat)
    requires Len(s, d) < share && Extends(On(s, RunQueue(d)), On(s1, RunQueue(d))) && Len(s1, d) <= Len(s, d) + 1
    requires SameOthers(s, s1, d) && SameOthers(s1, s2, d) && GrownOne(s1, s2, d, share)
    ensures SameOthers(s, s2, d) && GrownOne(s, s2, d, share)
  {
  }

  /** Filling one processor: its queue grows up to the share at most. */
  lemma {:induction false} SendToProgress(s: Sys, c: Cid, d: Cid, share: nat, victims: seq<Tid>, toSend: nat)
    requires c < |s.cpus| && d < |s.cpus| && c != d && Distinct(victims) && Progress(s, c, victims, toSend)
    ensures var (s', n) := SendTo(s, c, d, share, toSend);
      Progress(s', c, victims, n) && SameOthers(s, s', d) && GrownOne(s, s', d, share)
    decreases toSend
  {
    if Len(s, d) < share && toSend > 0 {
      SendOneProgress(s, c, d, victims, toSend);
      var s1 := SendOne(s, c, d);
      SendToProgress(s1, c, d, share, victims, toSend - 1);
      GrownOneMore(s, s1, SendTo(s1, c, d, share, toSend - 1).0, d, share);
    }
  }

  /** What one processor cannot take is still to send. */
  lemma {:induction false} SendToCount(s: Sys, c: Cid, d: Cid, share: nat, toSend: nat)
    requires c < |s.cpus| && c != d && Known(s, Victims(c)) && toSend <= |On(s, Victims(c))|
    ensures SendTo(s, c, d, share, toSend).1 <= if toSend < Short(s, d, share) then 0 else toSend - Short(s, d, share)
    decreases toSend
  {
    if Len(s, d) < share && toSend > 0 {
      FirstSent(s, c, d, share, toSend);
      SendToCount(SendOne(s, c, d), c, d, share, toSend - 1);
    }
  }

  lemma {:induction false} SpareSame(s: Sys, s': Sys, c: Cid, i: nat, share: nat)
    requires i <= |s.cpus| && s'.cpus == s.cpus && forall e :: e >= i ==> On(s', RunQueue(e)) == On(s, RunQueue(e))
    ensures Spare(s', c, i, share) == Spare(s, c, i, share)
    decreases |s.cpus| - i
  {
    if i < |s.cpus| {
      SpareSame(s, s', c, i + 1, share);
    }
  }

  /** One turn of the loop over the processors. */
  lemma SendNextProgress(s: Sys, c: Cid, i: nat, share: nat, victims: seq<Tid>, toSend: nat) returns (s1: Sys, n: nat)
    requires c < |s.cpus| && i < |s.cpus| && i != c && toSend > 0 && Distinct(victims) && Progress(s, c, victims, toSend)
    requires toSend <= Spare(s, c, i, share)
    ensures s1.cpus == s.cpus && SendAll(s, c, i, share, toSend) == SendAll(s1, c, i + 1, share, n)
    ensures Progress(s1, c, victims, n) && Grown(s, s1, c, share) && n <= Spare(s1, c, i + 1, share)
  {
    SendToProgress(s, c, i, share, victims, toSend);
    SendToCount(s, c, i, share, toSend);
    var r := SendTo(s, c, i, share, toSend);
    s1, n := r.0, r.1;
    SpareSame(s, s1, c, i + 1, share);
    OneGrows(s, s1, c, i, share);
  }

  /** The loop over all processors sends every victim, if the room suffices. */
  lemma {:induction false} SendAllProgress(s: Sys, c: Cid, i: nat, share: nat, victims: seq<Tid>, toSend: nat)
    requires c < |s.cpus| && i <= |s.cpus| && Distinct(victims) && Progress(s, c, victims, toSend)
    requires toSend <= Spare(s, c, i, share)
    ensures var (s', n) := SendAll(s, c, i, share, toSend);
      n == 0 && Progress(s', c, victims, 0) && Grown(s, s', c, share)
    decreases |s.cpus| - i
  {
    if i < |s.cpus| && toSend > 0 {
      if i == c {
        SendAllProgress(s, c, i + 1, share, victims, toSend);
      } else {
        var s1, n := SendNextProgress(s, c, i, share, victims, toSend);
        SendAllProgress(s1, c, i + 1, share, victims, n);
        GrownChain(s, s1, SendAll(s1, c, i + 1, share, n).0, c, share);
      }
    }
  }

  lemma DistinctPart(l: seq<Tid>, k: nat)
    requires Distinct(l) && k <= |l|
    ensures Distinct(l[k..])
  {
  }

  /** What `thread_consider_migration` picks as victims: the tail of the caller's queue beyond the share. */
  function VictimsOf(s: Sys, c: Cid): seq<Tid>
    requires c < |s.cpus|
  {
    if Len(s, c) < Share(s) then [] else On(s, RunQueue(c))[Share(s)..]
  }

  lemma VictimsProgress(s: Sys, c: Cid)
    requires Kept(s) && c < |s.cpus| && On(s, Victims(c)) == [] && Len(s, c) >= Share(s)
    ensures var v := VictimsOf(s, c);
      var s1 := TakeVictims(s, c, |v|);
      && |v| == Len(s, c) - Share(s) && Distinct(v) && Progress(s1, c, v, |v|)
      && On(s1, RunQueue(c)) == On(s, RunQueue(c))[..Share(s)]
      && (forall d :: d != c ==> On(s1, RunQueue(d)) == On(s, RunQueue(d)))
      && s1.cpus == s.cpus
  {
    var v := VictimsOf(s, c);
    RunnableKnown(s, c);
    TakeVictimsQueues(s, c, |v|);
    assert Distinct(On(s, RunQueue(c))) by {
      assert RunQueue(c) in s.lists ==> Distinct(s.lists[RunQueue(c)]);
    }
    DistinctPart(On(s, RunQueue(c)), Share(s));
    assert v[0..] + [] == v;
  }

  /**
   * With the queues otherwise unchanged: let `k` be the least number such
   * that `k` threads on every processor make room for all that are queued. A
   * caller with fewer than that moves nothing. Else it keeps the first `k`
   * of its queue, followed by its current thread if that is among the rest;
   * every other thread of the rest is on another processor's queue; the
   * other queues have only been added to, and none beyond `k`.
   */
  lemma MigrationOutcome(s: Sys, c: Cid) returns (k: nat)
    requires Kept(s) && c < |s.cpus| && On(s, Victims(c)) == []
    ensures LeastShare(|s.cpus|, TotalFrom(s, 0), k)
    ensures |s.cpus| * Len(s, c) < TotalFrom(s, 0) ==> MigrateAlone(s, c) == s
    ensures |s.cpus| * Len(s, c) >= TotalFrom(s, 0) ==>
      var s' := MigrateAlone(s, c);
      var q := On(s, RunQueue(c));
      var cur := s.cpus[c].cur;
      && k <= |q|
      && On(s', RunQueue(c)) == q[..k] + (if cur in q[k..] then [cur] else [])
      && On(s', Victims(c)) == []
      && Sent(s', c, q[k..], 0)
      && (forall d :: d != c ==> GrownOne(s, s', d, k))
  {
    k := Share(s);
    CeilLeast(TotalFrom(s, 0), |s.cpus|);
    AtLeastShare(|s.cpus|, TotalFrom(s, 0), k, Len(s, c));
    if Len(s, c) >= k {
      ShareOutcome(s, c);
    }
  }

  lemma ShareOutcome(s: Sys, c: Cid)
    requires Kept(s) && c < |s.cpus| && On(s, Victims(c)) == [] && Len(s, c) >= Share(s)
    ensures var s' := MigrateAlone(s, c);
      var v := VictimsOf(s, c);
      var cur := s.cpus[c].cur;
      && On(s', RunQueue(c)) == On(s, RunQueue(c))[..Share(s)] + (if cur in v then [cur] else [])
      && On(s', Victims(c)) == []
      && Sent(s', c, v, 0)
      && (forall d :: d != c ==> GrownOne(s, s', d, Share(s)))
  {
    var s2 := AllSent(s, c);
    ReturnOutcome(s2, c, VictimsOf(s, c));
    forall d | d != c ensures GrownOne(s, Return(s2, c), d, Share(s)) {
      assert GrownOne(s, s2, d, Share(s));
    }
  }

  lemma ReturnOutcome(s: Sys, c: Cid, v: seq<Tid>)
    requires c < |s.cpus| && Progress(s, c, v, 0)
    ensures var s' := Return(s, c);
      && Sent(s', c, v, 0) && On(s', Victims(c)) == []
      && On(s', RunQueue(c)) == On(s, RunQueue(c)) + (if s.cpus[c].cur in v then [s.cpus[c].cur] else [])
      && (forall d :: d != c ==> On(s', RunQueue(d)) == On(s, RunQueue(d)))
  {
    ReturnQueues(s, c);
    LeftOver(s, c, v);
  }

  /** The state before the leftovers are returned. */
  lemma AllSent(s: Sys, c: Cid) returns (s2: Sys)
    requires Kept(s) && c < |s.cpus| && On(s, Victims(c)) == [] && Len(s, c) >= Share(s)
    ensures s2.cpus == s.cpus && MigrateAlone(s, c) == Return(s2, c) && Progress(s2, c, VictimsOf(s, c), 0)
    ensures On(s2, RunQueue(c)) == On(s, RunQueue(c))[..Share(s)]
    ensures forall d :: d != c ==> GrownOne(s, s2, d, Share(s))
  {
    var v := VictimsOf(s, c);
    VictimsProgress(s, c);
    var s1 := TakeVictims(s, c, |v|);
    CeilLeast(TotalFrom(s, 0), |s.cpus|);
    SpareEnough(s, c, Share(s));
    SpareTaken(s, s1, c, 0, Share(s));
    SendAllProgress(s1, c, 0, Share(s), v, |v|);
    s2 := SendAll(s1, c, 0, Share(s), |v|).0;
    forall d | d != c ensures GrownOne(s, s2, d, Share(s)) {
      assert GrownOne(s1, s2, d, Share(s));
    }
  }

  /** The caller's own queue is no part of the room. */
  lemma {:induction false} SpareTaken(s: Sys, s1: Sys, c: Cid, i: nat, share: nat)
    requires i <= |s.cpus| && s1.cpus == s.cpus && forall d :: d != c ==> On(s1, RunQueue(d)) == On(s, RunQueue(d))
    ensures Spare(s1, c, i, share) == Spare(s, c, i, share)
    decreases |s.cpus| - i
  {
    if i < |s.cpus| {
      SpareTaken(s, s1, c, i + 1, share);
    }
  }

  lemma LeftOver(s: Sys, c: Cid, v: seq<Tid>)
    requires c < |s.cpus| && Progress(s, c, v, 0)
    ensures On(s, Victims(c)) == if s.cpus[c].cur in v then [s.cpus[c].cur] else []
  {
    assert v[|v| - 0..] == [] && v[..|v| - 0] == v;
  }
}
