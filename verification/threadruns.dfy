/** No thread is lost or duplicated by any run (kern/thread/thread.c). */
module ThreadRuns {
  import opened Threads
  import opened ThreadSteps
  import opened MigrationSteps

  lemma StepInv(s: Sys, st: Step)
    requires Inv(s) && Enabled(s, st)
    ensures Inv(Next(s, st))
  {
    match st
    case Fork(c, t) => ForkInv(s, c, t);
    case Leave(c, how) => LeaveInv(s, c, how);
    case Dispatch(c) => DispatchInv(s, c);
    case Reap(c) => ReapInv(s, c);
    case WakeOne(w) => MakeRunnableInv(s, Channel(w));
    case GrabAll(c, w) => GrabInv(s, c, w);
    case WakeNext(c) => MakeRunnableInv(s, Waking(c));
    case StartMigration(_) => CountInv(s, st);
    case CountNext(_) => CountInv(s, st);
    case Decide(c) => DecideInv(s, c);
    case SendNext(c) => SendNextInv(s, c);
    case Finish(c) => FinishInv(s, c);
  }

  // ---- runs ----

  /** Every processor runs its boot thread and every list is empty. */
  ghost predicate Booted(s: Sys) {
    && s.lists == map[] && !s.broken
    && (forall c :: 0 <= c < |s.cpus| ==>
          && !s.cpus[c].idle && s.cpus[c].mig == NotMigrating
          && s.cpus[c].cur in s.threads && s.threads[s.cpus[c].cur] == Thread(Running, c))
    && (forall t :: t in s.threads ==> s.threads[t].cpu < |s.cpus| && RunsOn(s, t))
  }

  lemma BootedInv(s: Sys)
    requires Booted(s)
    ensures Inv(s)
  {
  }

  ghost predicate Feasible(s: Sys, steps: seq<Step>)
    decreases |steps|
  {
    steps == [] || (Enabled(s, steps[0]) && Feasible(Next(s, steps[0]), steps[1..]))
  }

  ghost function After(s: Sys, steps: seq<Step>): Sys
    requires Feasible(s, steps)
    decreases |steps|
  {
    if steps == [] then s else After(Next(s, steps[0]), steps[1..])
  }

  lemma {:induction false} RunInv(s: Sys, steps: seq<Step>)
    requires Inv(s) && Feasible(s, steps)
    ensures Inv(After(s, steps))
    decreases |steps|
  {
    if steps != [] {
      StepInv(s, steps[0]);
      RunInv(Next(s, steps[0]), steps[1..]);
    }
  }

  /**
   * Over every run from boot, whatever steps processors interleave: no
   * assertion fails and no null thread is used, no thread is on two lists or
   * lost, a queued ready thread is on the run queue of its own processor,
   * and no two processors have the same current thread, even while idle.
   */
  lemma ThreadsKept(s: Sys, steps: seq<Step>)
    requires Booted(s) && Feasible(s, steps)
    ensures Inv(After(s, steps)) && !After(s, steps).broken
  {
    BootedInv(s);
    RunInv(s, steps);
  }

  /** Each thread is in exactly one place: one position of one list, or running on one processor. */
  lemma ExactlyOnePlace(s: Sys, t: Tid)
    requires Inv(s) && t in s.threads
    ensures Listed(s.lists, t) <==> !RunsOn(s, t)
    ensures forall p, q, i, j ::
      0 <= i < |On(s, p)| && 0 <= j < |On(s, q)| && On(s, p)[i] == t && On(s, q)[j] == t ==> p == q && i == j
    ensures forall c, d :: 0 <= c < |s.cpus| && 0 <= d < |s.cpus| && s.cpus[c].cur == t && s.cpus[d].cur == t ==> c == d
  {
    assert Listed(s.lists, t) || RunsOn(s, t);
    if RunsOn(s, t) {
      var c :| 0 <= c < |s.cpus| && s.cpus[c].cur == t && !s.cpus[c].idle;
      assert CpuOk(s, c);
    }
    forall p, q, i, j | 0 <= i < |On(s, p)| && 0 <= j < |On(s, q)| && On(s, p)[i] == t && On(s, q)[j] == t
      ensures p == q && i == j
    {
      OnePosition(s.lists, p, q, i, j);
    }
    forall c, d | 0 <= c < |s.cpus| && 0 <= d < |s.cpus| && s.cpus[c].cur == t && s.cpus[d].cur == t ensures c == d {
      assert CpuOk(s, c) && CpuOk(s, d);
    }
  }

  lemma OnePosition(ls: map<Place, seq<Tid>>, p: Place, q: Place, i: nat, j: nat)
    requires Once(ls) && i < |At(ls, p)| && j < |At(ls, q)| && At(ls, p)[i] == At(ls, q)[j]
    ensures p == q && i == j
  {
    assert p in ls && q in ls && Distinct(ls[p]);
    assert ls[p][i] in ls[p] && ls[q][j] in ls[q];
    assert p == q || Apart(ls[p], ls[q]);
  }

  /** Threads come into being only by `fork` and go only when a zombie is reaped. */
  lemma ThreadsConserved(s: Sys, st: Step)
    requires Inv(s) && Enabled(s, st)
    ensures var s' := Next(s, st);
      && (st.Fork? ==> s'.threads.Keys == s.threads.Keys + {st.t})
      && (st.Reap? ==> s'.threads.Keys == s.threads.Keys - {On(s, Zombies(st.c))[0]}
                       && s.threads[On(s, Zombies(st.c))[0]] == Thread(Zombie, st.c))
      && (!st.Fork? && !st.Reap? ==> s'.threads.Keys == s.threads.Keys)
  {
    StepInv(s, st);
    match st
    case Fork(c, t) => CurFacts(s, c);
    case Leave(c, how) => CurFacts(s, c);
    case Dispatch(c) => Member(s, RunQueue(c), 0);
    case Reap(c) => ReapAsserts(s, c);
    case WakeOne(w) => Member(s, Channel(w), 0);
    case GrabAll(c, w) => GrabKeys(s, c, w);
    case WakeNext(c) => Member(s, Waking(c), 0);
    case StartMigration(_) =>
    case CountNext(_) =>
    case Decide(c) =>
      assert MigOk(s, c);
      if s.cpus[c].mig.mine >= CeilDiv(s.cpus[c].mig.total, |s.cpus|) {
        RunnableKnown(s, c);
        TakeVictimsQueues(s, c, s.cpus[c].mig.mine - CeilDiv(s.cpus[c].mig.total, |s.cpus|));
      }
    case SendNext(c) => SendToKeys(s, c, s.cpus[c].mig.i, s.cpus[c].mig.share, s.cpus[c].mig.toSend);
    case Finish(c) =>
      RunnableKnown(s, c);
      ReturnQueues(s, c);
  }

  lemma {:induction false} GrabKeys(s: Sys, c: Cid, w: Wid)
    requires AllFit(s)
    ensures Grab(s, c, w).threads == s.threads
    decreases |On(s, Channel(w))|
  {
    if On(s, Channel(w)) != [] {
      Member(s, Channel(w), 0);
      var t := On(s, Channel(w))[0];
      var s1 := Shift(s, Channel(w), 0, Waking(c), true, s.threads[t]);
      ShiftFits(s, Channel(w), Waking(c));
      GrabKeys(s1, c, w);
    }
  }

  /** Lists of sleepers stay lists of sleepers when one moves. */
  lemma ShiftFits(s: Sys, p: Place, q: Place)
    requires AllFit(s) && On(s, p) != [] && On(s, p)[0] in s.threads && p != q && Fits(q, s.threads[On(s, p)[0]])
    ensures AllFit(Shift(s, p, 0, q, true, s.threads[On(s, p)[0]]))
  {
  }

  lemma {:induction false} SendToKeys(s: Sys, c: Cid, d: Cid, share: nat, toSend: nat)
    requires c < |s.cpus|
    ensures SendTo(s, c, d, share, toSend).0.threads.Keys == s.threads.Keys
    decreases toSend
  {
    if |On(s, RunQueue(d))| < share && toSend > 0 && On(s, Victims(c)) != [] {
      SendToKeys(SendOne(s, c, d), c, d, share, toSend - 1);
    }
  }
}
