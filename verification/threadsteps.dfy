/**
 * Fork, switch, dispatch, reap and wakeup keep the thread lists, and leave
 * other processors' migrations undisturbed (kern/thread/thread.c).
 */
module ThreadSteps {
  import opened Threads

  // ---- migration's account of the queues ----

  /** For a processor's migration: its queue has not shrunk, its victims are as they were. */
  ghost predicate Undisturbed(s: Sys, s': Sys, c: Cid) {
    && c < |s.cpus| && |s'.cpus| == |s.cpus| && s'.cpus[c].mig == s.cpus[c].mig
    && On(s', Victims(c)) == On(s, Victims(c))
    && (s.cpus[c].mig == NotMigrating || |On(s', RunQueue(c))| >= |On(s, RunQueue(c))|)
  }

  lemma UndisturbedMig(s: Sys, s': Sys, c: Cid)
    requires Undisturbed(s, s', c) && MigOk(s, c)
    ensures MigOk(s', c)
  {
  }

  ghost predicate NoneDisturbed(s: Sys, s': Sys) {
    |s'.cpus| == |s.cpus| && forall c :: 0 <= c < |s.cpus| ==> Undisturbed(s, s', c)
  }

  lemma NoneDisturbedMigs(s: Sys, s': Sys)
    requires NoneDisturbed(s, s') && MigsOk(s)
    ensures MigsOk(s')
  {
    forall c | 0 <= c < |s'.cpus| ensures MigOk(s', c) {
      assert Undisturbed(s, s', c);
      UndisturbedMig(s, s', c);
    }
  }

  // ---- the steps ----

  lemma CurFacts(s: Sys, c: Cid)
    requires CpusOk(s) && c < |s.cpus|
    ensures CpuOk(s, c)
    ensures forall d :: 0 <= d < |s.cpus| && d != c ==> s.cpus[d].cur != s.cpus[c].cur
  {
    forall d | 0 <= d < |s.cpus| && d != c ensures s.cpus[d].cur != s.cpus[c].cur {
      assert CpuOk(s, d) && CpuOk(s, c);
    }
  }

  lemma ForkInv(s: Sys, c: Cid, t: Tid)
    requires Inv(s) && Enabled(s, Fork(c, t))
    ensures Inv(Next(s, Fork(c, t)))
  {
    var s' := Next(s, Fork(c, t));
    CurFacts(s, c);
    assert !Listed(s.lists, t);
    JoinLists(s, RunQueue(c), t, Thread(Ready, c));
    assert NoneDisturbed(s, s');
    NoneDisturbedMigs(s, s');
    NewcomerCpus(s, s', t);
  }

  /** A new thread on a list disturbs no processor. */
  lemma NewcomerCpus(s: Sys, s': Sys, t: Tid)
    requires CpusOk(s) && Complete(s) && t !in s.threads && s'.cpus == s.cpus
    requires t in s'.threads && s'.threads == s.threads[t := s'.threads[t]] && Listed(s'.lists, t)
    requires forall u :: u != t ==> Listed(s'.lists, u) == Listed(s.lists, u)
    ensures CpusOk(s') && Complete(s')
  {
    forall d | 0 <= d < |s'.cpus| ensures CpuOk(s', d) {
      assert CpuOk(s, d);
    }
    forall u | u in s'.threads ensures Listed(s'.lists, u) || RunsOn(s', u) {
      if u != t && RunsOn(s, u) {
        var d :| 0 <= d < |s.cpus| && s.cpus[d].cur == u && !s.cpus[d].idle;
        assert s'.cpus[d].cur == u;
      }
    }
  }

  /** The running thread of a processor joins a list and the processor goes idle. */
  lemma LeaveCpus(s: Sys, s': Sys, c: Cid, r: Thread)
    requires CpusOk(s) && Complete(s) && c < |s.cpus| && !s.cpus[c].idle && r.cpu == c
    requires s'.cpus == s.cpus[c := s.cpus[c].(idle := true)] && s'.threads == s.threads[s.cpus[c].cur := r]
    requires Listed(s'.lists, s.cpus[c].cur)
    requires forall u :: u != s.cpus[c].cur ==> Listed(s'.lists, u) == Listed(s.lists, u)
    ensures CpusOk(s') && Complete(s')
  {
    CurFacts(s, c);
    forall d | 0 <= d < |s'.cpus| ensures CpuOk(s', d) {
      assert CpuOk(s, d);
    }
    forall u | u in s'.threads ensures Listed(s'.lists, u) || RunsOn(s', u) {
      if u != s.cpus[c].cur && RunsOn(s, u) {
        var d :| 0 <= d < |s.cpus| && s.cpus[d].cur == u && !s.cpus[d].idle;
        assert s'.cpus[d].cur == u && !s'.cpus[d].idle;
      }
    }
  }

  /** Where the thread goes, and what its record becomes. */
  function LeavingTo(c: Cid, how: Leaving): (Place, Thread) {
    match how
    case Yield => (RunQueue(c), Thread(Ready, c))
    case Sleep(w) => (Channel(w), Thread(Sleeping, c))
    case Exit => (Zombies(c), Thread(Zombie, c))
  }

  lemma LeaveCases(s: Sys, c: Cid, how: Leaving)
    requires c < |s.cpus| && CpuOk(s, c)
    ensures var (q, r) := LeavingTo(c, how);
      var s' := Join(WithCpu(s, c, s.cpus[c].(idle := true)), q, s.cpus[c].cur, r);
      && (LeaveCpu(s, c, how) == s || LeaveCpu(s, c, how) == s')
      && Fits(q, r) && r.cpu == c && NoneDisturbed(s, s')
  {
  }

  lemma LeaveInv(s: Sys, c: Cid, how: Leaving)
    requires Inv(s) && Enabled(s, Leave(c, how))
    ensures Inv(Next(s, Leave(c, how)))
  {
    CurFacts(s, c);
    LeaveCases(s, c, how);
    if LeaveCpu(s, c, how) != s {
      var (q, r) := LeavingTo(c, how);
      LeaveJoins(s, c, q, r);
    }
  }

  lemma LeaveJoins(s: Sys, c: Cid, q: Place, r: Thread)
    requires Inv(s) && c < |s.cpus| && !s.cpus[c].idle && Fits(q, r) && r.cpu == c
    requires NoneDisturbed(s, Join(WithCpu(s, c, s.cpus[c].(idle := true)), q, s.cpus[c].cur, r))
    ensures Inv(Join(WithCpu(s, c, s.cpus[c].(idle := true)), q, s.cpus[c].cur, r))
  {
    var s1 := WithCpu(s, c, s.cpus[c].(idle := true));
    var s' := Join(s1, q, s.cpus[c].cur, r);
    CurFacts(s, c);
    JoinLists(s1, q, s.cpus[c].cur, r);
    LeaveCpus(s, s', c, r);
    NoneDisturbedMigs(s, s');
  }

  lemma HeadOutUndisturbed(s: Sys, s': Sys, c: Cid, zombies: bool)
    requires c < |s.cpus| && s.cpus[c].mig == NotMigrating && |s'.cpus| == |s.cpus|
    requires forall d :: 0 <= d < |s.cpus| ==> s'.cpus[d].mig == s.cpus[d].mig
    requires var p := if zombies then Zombies(c) else RunQueue(c);
      On(s, p) != [] && s'.lists == s.lists[p := On(s, p)[1..]]
    ensures NoneDisturbed(s, s')
  {
  }

  lemma DispatchInv(s: Sys, c: Cid)
    requires Inv(s) && Enabled(s, Dispatch(c))
    ensures Inv(Next(s, Dispatch(c)))
  {
    var s' := Next(s, Dispatch(c));
    var t := On(s, RunQueue(c))[0];
    Member(s, RunQueue(c), 0);
    HeadOut(s, RunQueue(c), s.threads[t := Thread(Running, c)]);
    DispatchCpus(s, s', c, t);
    HeadOutUndisturbed(s, s', c, false);
    NoneDisturbedMigs(s, s');
  }

  /** The thread taken off the run queue runs; the one the processor idled on is on a list. */
  lemma DispatchCpus(s: Sys, s': Sys, c: Cid, t: Tid)
    requires CpusOk(s) && Complete(s) && c < |s.cpus| && s.cpus[c].idle && t in s.threads && s.threads[t].cpu == c
    requires Listed(s.lists, t) && !Listed(s'.lists, t) && forall u :: u != t ==> Listed(s'.lists, u) == Listed(s.lists, u)
    requires s'.threads == s.threads[t := Thread(Running, c)] && s'.cpus == s.cpus[c := s.cpus[c].(cur := t, idle := false)]
    ensures CpusOk(s') && Complete(s')
  {
    CurFacts(s, c);
    forall d | 0 <= d < |s'.cpus| ensures CpuOk(s', d) {
      assert CpuOk(s, d);
    }
    forall u | u in s'.threads ensures Listed(s'.lists, u) || RunsOn(s', u) {
      if u == t {
        assert s'.cpus[c].cur == t;
      } else if RunsOn(s, u) {
        var d :| 0 <= d < |s.cpus| && s.cpus[d].cur == u && !s.cpus[d].idle;
        assert s'.cpus[d].cur == u && !s'.cpus[d].idle;
      }
    }
  }

  /** The assertions of `exorcise` hold: the zombie is a zombie and not the running thread. */
  lemma ReapAsserts(s: Sys, c: Cid)
    requires AllFit(s) && CpusOk(s) && Enabled(s, Reap(c))
    ensures var z := On(s, Zombies(c))[0];
      && z in s.threads && s.threads[z] == Thread(Zombie, c) && Listed(s.lists, z)
      && Next(s, Reap(c)) == s.(lists := s.lists[Zombies(c) := On(s, Zombies(c))[1..]], threads := s.threads - {z})
  {
    Member(s, Zombies(c), 0);
    CurFacts(s, c);
  }

  lemma ReapInv(s: Sys, c: Cid)
    requires Inv(s) && Enabled(s, Reap(c))
    ensures Inv(Next(s, Reap(c)))
  {
    var s' := Next(s, Reap(c));
    var z := On(s, Zombies(c))[0];
    ReapAsserts(s, c);
    HeadOut(s, Zombies(c), s.threads - {z});
    HeadOutUndisturbed(s, s', c, true);
    NoneDisturbedMigs(s, s');
    ReapCpus(s, s', c, z);
  }

  /** The zombie is no processor's current thread, idle or not: each reaps its own, and only when it is not idling on one. */
  lemma ReapCpus(s: Sys, s': Sys, c: Cid, z: Tid)
    requires CpusOk(s) && Complete(s) && c < |s.cpus| && !s.cpus[c].idle && z in s.threads && s.threads[z].cpu == c
    requires Listed(s.lists, z) && forall u :: u != z ==> Listed(s'.lists, u) == Listed(s.lists, u)
    requires s'.threads == s.threads - {z} && s'.cpus == s.cpus
    ensures CpusOk(s') && Complete(s')
  {
    forall d | 0 <= d < |s'.cpus| ensures CpuOk(s', d) {
      assert CpuOk(s, d) && CpuOk(s, c);
    }
    forall u | u in s'.threads ensures Listed(s'.lists, u) || RunsOn(s', u) {
      if RunsOn(s, u) {
        var d :| 0 <= d < |s.cpus| && s.cpus[d].cur == u && !s.cpus[d].idle;
        assert s'.cpus[d].cur == u;
      }
    }
  }

  /** A sleeper moves to a run queue or to a private list. */
  lemma SleeperMoves(s: Sys, p: Place, q: Place, r: Thread)
    requires Inv(s) && On(s, p) != [] && (p.Channel? || p.Waking?) && (q.RunQueue? || q.Waking?) && p != q
    requires var t := On(s, p)[0]; t in s.threads && r.cpu == s.threads[t].cpu && r.cpu < |s.cpus| && Fits(q, r)
    ensures Inv(Shift(s, p, 0, q, true, r))
  {
    ShiftGentle(s, p, 0, q, true, r);
    GentleCpus(s, Shift(s, p, 0, q, true, r));
    SleeperUndisturbed(s, p, q, r);
    NoneDisturbedMigs(s, Shift(s, p, 0, q, true, r));
  }

  lemma SleeperUndisturbed(s: Sys, p: Place, q: Place, r: Thread)
    requires On(s, p) != [] && (p.Channel? || p.Waking?) && (q.RunQueue? || q.Waking?) && p != q
    ensures NoneDisturbed(s, Shift(s, p, 0, q, true, r))
  {
  }

  lemma MakeRunnableInv(s: Sys, p: Place)
    requires Inv(s) && On(s, p) != [] && (p.Channel? || p.Waking?)
    ensures Inv(MakeRunnable(s, p))
  {
    Member(s, p, 0);
    var r := s.threads[On(s, p)[0]].(state := Ready);
    SleeperMoves(s, p, RunQueue(r.cpu), r);
  }

  lemma {:induction false} GrabInv(s: Sys, c: Cid, w: Wid)
    requires Inv(s)
    ensures Inv(Grab(s, c, w))
    decreases |On(s, Channel(w))|
  {
    if On(s, Channel(w)) != [] {
      Member(s, Channel(w), 0);
      var r := s.threads[On(s, Channel(w))[0]];
      SleeperMoves(s, Channel(w), Waking(c), r);
      GrabInv(Shift(s, Channel(w), 0, Waking(c), true, r), c, w);
    }
  }
}
