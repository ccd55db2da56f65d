/**
 * The steps of migration keep the thread lists, whatever other processors
 * do between them (kern/thread/thread.c).
 */
module MigrationSteps {
  import opened Threads
  import opened ThreadSteps

  // ---- the steps of migration ----

  ghost predicate Kept(s: Sys) {
    ListsOk(s) && Complete(s) && CpusOk(s)
  }

  ghost predicate OthersUndisturbed(s: Sys, s': Sys, c: Cid) {
    |s'.cpus| == |s.cpus| && forall d :: 0 <= d < |s.cpus| && d != c ==> Undisturbed(s, s', d)
  }

  lemma MigInv(s: Sys, s': Sys, c: Cid)
    requires Kept(s') && MigsOk(s) && OthersUndisturbed(s, s', c) && c < |s.cpus| && MigOk(s', c)
    ensures Inv(s')
  {
    forall d | 0 <= d < |s'.cpus| ensures MigOk(s', d) {
      if d != c {
        UndisturbedMig(s, s', d);
      }
    }
  }

  /** Progress of a migration is no part of the lists. */
  lemma WithMigKept(s: Sys, c: Cid, mig: Migration)
    requires Kept(s) && c < |s.cpus|
    ensures Kept(WithMig(s, c, mig)) && OthersUndisturbed(s, WithMig(s, c, mig), c)
  {
    var s' := WithMig(s, c, mig);
    forall d | 0 <= d < |s'.cpus| ensures CpuOk(s', d) {
      assert CpuOk(s, d);
    }
    forall t | t in s'.threads ensures Listed(s'.lists, t) || RunsOn(s', t) {
      if RunsOn(s, t) {
        var d :| 0 <= d < |s.cpus| && s.cpus[d].cur == t && !s.cpus[d].idle;
        assert s'.cpus[d].cur == t && !s'.cpus[d].idle;
      }
    }
  }

  lemma CountInv(s: Sys, st: Step)
    requires Inv(s) && Enabled(s, st) && (st.StartMigration? || st.CountNext?)
    ensures Inv(Next(s, st))
  {
    var s' := Next(s, st);
    assert MigOk(s, st.c);
    WithMigKept(s, st.c, s'.cpus[st.c].mig);
    MigInv(s, s', st.c);
  }

  lemma VictimUndisturbed(s: Sys, p: Place, k: nat, q: Place, atTail: bool, r: Thread, c: Cid)
    requires k < |On(s, p)| && p != q
    requires (p == RunQueue(c) && q == Victims(c)) || (p == Victims(c) && q.RunQueue?)
    ensures OthersUndisturbed(s, Shift(s, p, k, q, atTail, r), c)
  {
  }

  /** A move between lists of ready threads on one processor. */
  lemma ReadyMoves(s: Sys, p: Place, k: nat, q: Place, atTail: bool)
    requires Kept(s) && k < |On(s, p)|
    requires (p.RunQueue? && q == Victims(p.c)) || (p.Victims? && q == RunQueue(p.c))
    ensures var t := On(s, p)[k];
      t in s.threads && Kept(Shift(s, p, k, q, atTail, s.threads[t]))
  {
    Member(s, p, k);
    var r := s.threads[On(s, p)[k]];
    ShiftGentle(s, p, k, q, atTail, r);
    GentleCpus(s, Shift(s, p, k, q, atTail, r));
  }

  lemma OthersChain(s: Sys, s1: Sys, s2: Sys, c: Cid)
    requires OthersUndisturbed(s, s1, c) && OthersUndisturbed(s1, s2, c)
    ensures OthersUndisturbed(s, s2, c)
  {
    forall d | 0 <= d < |s.cpus| && d != c ensures Undisturbed(s, s2, d) {
      assert Undisturbed(s, s1, d) && Undisturbed(s1, s2, d);
    }
  }

  lemma ShiftLengths(s: Sys, p: Place, k: nat, q: Place, atTail: bool, r: Thread)
    requires k < |On(s, p)| && p != q
    ensures var s' := Shift(s, p, k, q, atTail, r);
      && |On(s', p)| == |On(s, p)| - 1 && |On(s', q)| == |On(s, q)| + 1
      && (forall x :: x != p && x != q ==> On(s', x) == On(s, x))
  {
  }

  lemma TakeVictimsStep(s: Sys, c: Cid, n: nat)
    requires var q := On(s, RunQueue(c)); n > 0 && q != [] && q[|q| - 1] in s.threads
    ensures var q := On(s, RunQueue(c));
      TakeVictims(s, c, n) == TakeVictims(Shift(s, RunQueue(c), |q| - 1, Victims(c), false, s.threads[q[|q| - 1]]), c, n - 1)
  {
  }

  /** One turn of the loop that takes victims. */
  lemma FirstVictim(s: Sys, c: Cid, n: nat) returns (s1: Sys)
    requires Kept(s) && 0 < n <= |On(s, RunQueue(c))|
    ensures TakeVictims(s, c, n) == TakeVictims(s1, c, n - 1)
    ensures Kept(s1) && |On(s1, RunQueue(c))| == |On(s, RunQueue(c))| - 1
  {
    var q := On(s, RunQueue(c));
    Member(s, RunQueue(c), |q| - 1);
    var r := s.threads[q[|q| - 1]];
    ReadyMoves(s, RunQueue(c), |q| - 1, Victims(c), false);
    ShiftLengths(s, RunQueue(c), |q| - 1, Victims(c), false, r);
    s1 := Shift(s, RunQueue(c), |q| - 1, Victims(c), false, r);
  }

  /** Other processors' migrations are not disturbed by the victims being taken. */
  lemma {:induction false} TakeVictimsOthers(s: Sys, c: Cid, n: nat)
    requires n <= |On(s, RunQueue(c))| && forall i :: 0 <= i < |On(s, RunQueue(c))| ==> On(s, RunQueue(c))[i] in s.threads
    ensures OthersUndisturbed(s, TakeVictims(s, c, n), c)
    decreases n
  {
    if n > 0 {
      var q := On(s, RunQueue(c));
      var r := s.threads[q[|q| - 1]];
      var s1 := Shift(s, RunQueue(c), |q| - 1, Victims(c), false, r);
      TakeVictimsStep(s, c, n);
      VictimUndisturbed(s, RunQueue(c), |q| - 1, Victims(c), false, r, c);
      assert On(s1, RunQueue(c)) == Cut(q, |q| - 1);
      TakeVictimsOthers(s1, c, n - 1);
      OthersChain(s, s1, TakeVictims(s1, c, n - 1), c);
    }
  }

  lemma {:induction false} TakeVictimsSorted(s: Sys, c: Cid, n: nat)
    requires Kept(s) && n <= |On(s, RunQueue(c))|
    ensures Kept(TakeVictims(s, c, n))
    decreases n
  {
    if n > 0 {
      var s1 := FirstVictim(s, c, n);
      TakeVictimsSorted(s1, c, n - 1);
    }
  }

  lemma TakeVictimsKept(s: Sys, c: Cid, n: nat)
    requires Kept(s) && n <= |On(s, RunQueue(c))|
    ensures Kept(TakeVictims(s, c, n)) && OthersUndisturbed(s, TakeVictims(s, c, n), c)
  {
    RunnableKnown(s, c);
    TakeVictimsOthers(s, c, n);
    TakeVictimsSorted(s, c, n);
  }

  /** The victims are the tail of the queue, in order; no other queue and no record changes. */
  lemma {:induction false} TakeVictimsQueues(s: Sys, c: Cid, n: nat)
    requires n <= |On(s, RunQueue(c))| && forall t :: t in On(s, RunQueue(c)) ==> t in s.threads
    ensures var s' := TakeVictims(s, c, n);
      var q := On(s, RunQueue(c));
      && On(s', RunQueue(c)) == q[..|q| - n]
      && On(s', Victims(c)) == q[|q| - n..] + On(s, Victims(c))
      && (forall d :: d != c ==> On(s', RunQueue(d)) == On(s, RunQueue(d)))
      && s'.threads == s.threads && s'.broken == s.broken
    decreases n
  {
    if n > 0 {
      var q := On(s, RunQueue(c));
      var t := q[|q| - 1];
      var s1 := Shift(s, RunQueue(c), |q| - 1, Victims(c), false, s.threads[t]);
      assert Cut(q, |q| - 1) == q[..|q| - 1];
      TakeVictimsStep(s, c, n);
      TakeVictimsQueues(s1, c, n - 1);
      TailOver(q, On(s, Victims(c)), n);
    }
  }

  lemma TailOver(q: seq<Tid>, v: seq<Tid>, n: nat)
    requires 0 < n <= |q|
    ensures q[..|q| - 1][|q| - n..] + ([q[|q| - 1]] + v) == q[|q| - n..] + v
    ensures q[..|q| - 1][..|q| - n] == q[..|q| - n]
  {
  }

  lemma RunnableKnown(s: Sys, c: Cid)
    requires AllFit(s)
    ensures forall t :: t in On(s, RunQueue(c)) ==> t in s.threads
    ensures forall t :: t in On(s, Victims(c)) ==> t in s.threads
  {
  }

  lemma VictimsTaken(s: Sys, c: Cid, share: nat, n: nat)
    requires Kept(s) && c < |s.cpus| && n <= |On(s, RunQueue(c))|
    ensures var s' := WithMig(TakeVictims(s, c, n), c, Sending(0, share, n));
      Kept(s') && OthersUndisturbed(s, s', c) && MigOk(s', c)
  {
    TakeVictimsKept(s, c, n);
    RunnableKnown(s, c);
    TakeVictimsQueues(s, c, n);
    var s1 := TakeVictims(s, c, n);
    WithMigKept(s1, c, Sending(0, share, n));
    OthersChain(s, s1, WithMig(s1, c, Sending(0, share, n)), c);
  }

  /** `k` is the least number of threads per processor that makes room for all. */
  predicate LeastShare(n: nat, total: nat, k: nat) {
    n * k >= total && (k > 0 ==> n * (k - 1) < total)
  }

  /** `one_share` is the least share. */
  lemma CeilLeast(total: nat, n: nat)
    requires n > 0
    ensures LeastShare(n, total, CeilDiv(total, n))
  {
    var k := CeilDiv(total, n);
    assert total + n - 1 == k * n + (total + n - 1) % n;
    assert n * k == k * n;
    if k > 0 {
      assert n * (k - 1) == n * k - n;
    }
  }

  lemma {:induction false} MoreIsMore(n: nat, a: nat, b: nat)
    requires a <= b
    ensures n * a <= n * b
    decreases b
  {
    if a < b {
      MoreIsMore(n, a, b - 1);
      assert n * b == n * (b - 1) + n;
    }
  }

  /** A queue has at least the share exactly when as many on every processor would be enough. */
  lemma AtLeastShare(n: nat, total: nat, k: nat, len: nat)
    requires LeastShare(n, total, k)
    ensures len >= k <==> n * len >= total
  {
    if len >= k {
      MoreIsMore(n, k, len);
    } else {
      MoreIsMore(n, len, k - 1);
    }
  }

  /**
   * The decision of a migrating processor that counted `total` threads in
   * all queues and `mine` in its own: with fewer than the least share it
   * stops; else the threads beyond the share, from the tail of its queue in
   * order, become the victims.
   */
  lemma DecideTakes(s: Sys, c: Cid) returns (k: nat)
    requires Inv(s) && Enabled(s, Decide(c))
    ensures LeastShare(|s.cpus|, s.cpus[c].mig.total, k)
    ensures var m := s.cpus[c].mig;
      var s' := Next(s, Decide(c));
      var q := On(s, RunQueue(c));
      && (|s.cpus| * m.mine < m.total ==> s' == WithMig(s, c, NotMigrating))
      && (|s.cpus| * m.mine >= m.total ==>
            && k <= m.mine <= |q|
            && On(s', RunQueue(c)) == q[..|q| - (m.mine - k)] && On(s', Victims(c)) == q[|q| - (m.mine - k)..]
            && (forall d :: d != c ==> On(s', RunQueue(d)) == On(s, RunQueue(d)))
            && s'.threads == s.threads && s'.cpus == s.cpus[c := s.cpus[c].(mig := Sending(0, k, m.mine - k))])
  {
    var m := s.cpus[c].mig;
    k := CeilDiv(m.total, |s.cpus|);
    assert MigOk(s, c);
    CeilLeast(m.total, |s.cpus|);
    AtLeastShare(|s.cpus|, m.total, k, m.mine);
    if m.mine >= k {
      RunnableKnown(s, c);
      TakeVictimsQueues(s, c, m.mine - k);
    }
  }

  lemma DecideInv(s: Sys, c: Cid)
    requires Inv(s) && Enabled(s, Decide(c))
    ensures Inv(Next(s, Decide(c)))
  {
    var m := s.cpus[c].mig;
    var share := CeilDiv(m.total, |s.cpus|);
    assert MigOk(s, c);
    if m.mine < share {
      WithMigKept(s, c, NotMigrating);
    } else {
      VictimsTaken(s, c, share, m.mine - share);
    }
    MigInv(s, Next(s, Decide(c)), c);
  }

  /** A victim that is not the current thread is no processor's current thread. */
  lemma VictimFree(s: Sys, c: Cid, k: nat)
    requires Kept(s) && c < |s.cpus| && k < |On(s, Victims(c))| && On(s, Victims(c))[k] != s.cpus[c].cur
    ensures forall d :: 0 <= d < |s.cpus| ==> s.cpus[d].cur != On(s, Victims(c))[k]
  {
    Member(s, Victims(c), k);
    forall d | 0 <= d < |s.cpus| ensures s.cpus[d].cur != On(s, Victims(c))[k] {
      assert CpuOk(s, d);
    }
  }

  lemma RotateOnce(ls: map<Place, seq<Tid>>, p: Place)
    requires Once(ls) && p in ls && ls[p] != []
    ensures var ls' := ls[p := ls[p][1..] + [ls[p][0]]];
      && Once(ls') && (forall t :: Listed(ls', t) == Listed(ls, t))
      && (forall x, u :: x in ls' && u in ls'[x] ==> x in ls && u in ls[x])
  {
    var ls1 := ls[p := ls[p][1..]];
    HeadGone(ls, p);
    PutIn(ls1, p, ls[p][0], true);
    assert ls[p := ls[p][1..] + [ls[p][0]]] == ls1[p := ls[p][1..] + [ls[p][0]]];
    assert Listed(ls, ls[p][0]);
  }

  /** The current thread goes from the head of the victims to their tail. */
  lemma RotateKept(s: Sys, c: Cid)
    requires Kept(s) && c < |s.cpus| && On(s, Victims(c)) != []
    ensures var v := On(s, Victims(c));
      var s' := s.(lists := s.lists[Victims(c) := v[1..] + [v[0]]]);
      Kept(s') && OthersUndisturbed(s, s', c)
  {
    RotateOnce(s.lists, Victims(c));
    var v := On(s, Victims(c));
    GentleCpus(s, s.(lists := s.lists[Victims(c) := v[1..] + [v[0]]]));
  }

  lemma SentKept(s: Sys, c: Cid, d: Cid)
    requires Kept(s) && c < |s.cpus| && d < |s.cpus| && c != d && On(s, Victims(c)) != []
    requires On(s, Victims(c))[0] != s.cpus[c].cur
    ensures Kept(Shift(s, Victims(c), 0, RunQueue(d), true, Thread(Ready, d)))
  {
    Member(s, Victims(c), 0);
    VictimFree(s, c, 0);
    var r := Thread(Ready, d);
    ShiftGentle(s, Victims(c), 0, RunQueue(d), true, r);
    GentleCpus(s, Shift(s, Victims(c), 0, RunQueue(d), true, r));
  }

  lemma SendOneKept(s: Sys, c: Cid, d: Cid)
    requires Kept(s) && c < |s.cpus| && d < |s.cpus| && c != d && On(s, Victims(c)) != []
    ensures Kept(SendOne(s, c, d)) && OthersUndisturbed(s, SendOne(s, c, d), c)
  {
    Member(s, Victims(c), 0);
    if On(s, Victims(c))[0] == s.cpus[c].cur {
      RotateKept(s, c);
    } else {
      SentKept(s, c, d);
      VictimUndisturbed(s, Victims(c), 0, RunQueue(d), true, Thread(Ready, d), c);
    }
  }

  /** The inner loop never finds the victims empty, and never fills a queue beyond the share. */
  lemma {:induction false} SendToKept(s: Sys, c: Cid, d: Cid, share: nat, toSend: nat)
    requires Kept(s) && c < |s.cpus| && d < |s.cpus| && c != d && toSend <= |On(s, Victims(c))|
    ensures var (s', n) := SendTo(s, c, d, share, toSend);
      && Kept(s') && OthersUndisturbed(s, s', c) && n <= |On(s', Victims(c))|
      && |On(s', RunQueue(d))| <= (if |On(s, RunQueue(d))| > share then |On(s, RunQueue(d))| else share)
    decreases toSend
  {
    if |On(s, RunQueue(d))| < share && toSend > 0 {
      var s1 := SendOne(s, c, d);
      SendOneKept(s, c, d);
      Member(s, Victims(c), 0);
      SendToKept(s1, c, d, share, toSend - 1);
      OthersChain(s, s1, SendTo(s1, c, d, share, toSend - 1).0, c);
    }
  }

  lemma SendNextInv(s: Sys, c: Cid)
    requires Inv(s) && Enabled(s, SendNext(c))
    ensures Inv(Next(s, SendNext(c)))
  {
    var m := s.cpus[c].mig;
    assert MigOk(s, c);
    var s' := Next(s, SendNext(c));
    if m.i == c {
      WithMigKept(s, c, Sending(m.i + 1, m.share, m.toSend));
    } else {
      SendToKept(s, c, m.i, m.share, m.toSend);
      var (s1, n) := SendTo(s, c, m.i, m.share, m.toSend);
      WithMigKept(s1, c, Sending(m.i + 1, m.share, n));
      OthersChain(s, s1, s', c);
    }
    MigInv(s, s', c);
  }

  /** One turn of the loop that returns victims. */
  lemma FirstReturn(s: Sys, c: Cid) returns (s1: Sys)
    requires Kept(s) && On(s, Victims(c)) != []
    ensures Return(s, c) == Return(s1, c)
    ensures Kept(s1) && OthersUndisturbed(s, s1, c) && |On(s1, Victims(c))| == |On(s, Victims(c))| - 1
  {
    Member(s, Victims(c), 0);
    var r := s.threads[On(s, Victims(c))[0]];
    ReadyMoves(s, Victims(c), 0, RunQueue(c), true);
    VictimUndisturbed(s, Victims(c), 0, RunQueue(c), true, r, c);
    ShiftLengths(s, Victims(c), 0, RunQueue(c), true, r);
    s1 := Shift(s, Victims(c), 0, RunQueue(c), true, r);
  }

  lemma {:induction false} ReturnKept(s: Sys, c: Cid)
    requires Kept(s)
    ensures Kept(Return(s, c)) && OthersUndisturbed(s, Return(s, c), c)
    decreases |On(s, Victims(c))|
  {
    if On(s, Victims(c)) != [] {
      var s1 := FirstReturn(s, c);
      ReturnKept(s1, c);
      OthersChain(s, s1, Return(s1, c), c);
    }
  }

  lemma ReturnStep(s: Sys, c: Cid) returns (s1: Sys)
    requires On(s, Victims(c)) != [] && On(s, Victims(c))[0] in s.threads
    ensures s1 == Shift(s, Victims(c), 0, RunQueue(c), true, s.threads[On(s, Victims(c))[0]])
    ensures Return(s, c) == Return(s1, c) && s1.threads == s.threads && s1.broken == s.broken
    ensures On(s1, Victims(c)) == On(s, Victims(c))[1..]
    ensures On(s1, RunQueue(c)) == On(s, RunQueue(c)) + [On(s, Victims(c))[0]]
    ensures forall d :: d != c ==> On(s1, RunQueue(d)) == On(s, RunQueue(d))
  {
    var r := s.threads[On(s, Victims(c))[0]];
    s1 := Shift(s, Victims(c), 0, RunQueue(c), true, r);
    ShiftLengths(s, Victims(c), 0, RunQueue(c), true, r);
  }

  /** The victims left over go back to the tail of the caller's queue, in order. */
  lemma {:induction false} ReturnQueues(s: Sys, c: Cid)
    requires forall i :: 0 <= i < |On(s, Victims(c))| ==> On(s, Victims(c))[i] in s.threads
    ensures var s' := Return(s, c);
      && On(s', Victims(c)) == []
      && On(s', RunQueue(c)) == On(s, RunQueue(c)) + On(s, Victims(c))
      && (forall d :: d != c ==> On(s', RunQueue(d)) == On(s, RunQueue(d)))
      && s'.threads == s.threads && s'.broken == s.broken
    decreases |On(s, Victims(c))|
  {
    var v, q := On(s, Victims(c)), On(s, RunQueue(c));
    if v != [] {
      var s1 := ReturnStep(s, c);
      ReturnQueues(s1, c);
      HeadBack(q, v);
    }
  }

  lemma HeadBack(q: seq<Tid>, v: seq<Tid>)
    requires v != []
    ensures (q + [v[0]]) + v[1..] == q + v
  {
  }

  lemma FinishInv(s: Sys, c: Cid)
    requires Inv(s) && Enabled(s, Finish(c))
    ensures Inv(Next(s, Finish(c)))
  {
    ReturnKept(s, c);
    RunnableKnown(s, c);
    ReturnQueues(s, c);
    WithMigKept(Return(s, c), c, NotMigrating);
    OthersChain(s, Return(s, c), Next(s, Finish(c)), c);
    MigInv(s, Next(s, Finish(c)), c);
  }
}
