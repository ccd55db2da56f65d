/** What each operation on threads does to the lists: who is woken, who waits where, who runs next (kern/thread/thread.c). */
module ThreadEffects {
  import opened Threads
  import opened ThreadSteps
  import opened ThreadRuns

  /** Only the two lists differ. */
  ghost predicate ListsKeptBut(s: Sys, s': Sys, p: Place, q: Place) {
    forall r :: r != p && r != q ==> On(s', r) == On(s, r)
  }

  // ---- waking ----

  /** `thread_make_runnable`: the head of a list of sleepers is ready at the tail of its own processor's queue, and nothing else changes. */
  lemma WakesHead(s: Sys, p: Place)
    requires Inv(s) && On(s, p) != [] && (p.Channel? || p.Waking?)
    ensures On(s, p)[0] in s.threads
    ensures var t := On(s, p)[0];
      var d := s.threads[t].cpu;
      var s' := MakeRunnable(s, p);
      && s.threads[t].state == Sleeping && d < |s.cpus|
      && On(s', p) == On(s, p)[1..] && On(s', RunQueue(d)) == On(s, RunQueue(d)) + [t]
      && ListsKeptBut(s, s', p, RunQueue(d))
      && s'.threads == s.threads[t := Thread(Ready, d)] && s'.cpus == s.cpus && !s'.broken
  {
    Member(s, p, 0);
    assert Cut(On(s, p), 0) == On(s, p)[1..];
  }

  /** `wchan_wakeone`. */
  lemma WakeOneWakes(s: Sys, w: Wid)
    requires Inv(s) && Enabled(s, WakeOne(w))
    ensures On(s, Channel(w))[0] in s.threads
    ensures var t := On(s, Channel(w))[0];
      var d := s.threads[t].cpu;
      var s' := Next(s, WakeOne(w));
      && On(s', Channel(w)) == On(s, Channel(w))[1..] && On(s', RunQueue(d)) == On(s, RunQueue(d)) + [t]
      && ListsKeptBut(s, s', Channel(w), RunQueue(d)) && s'.threads == s.threads[t := Thread(Ready, d)] && s'.cpus == s.cpus
  {
    WakesHead(s, Channel(w));
  }

  lemma {:induction false} GrabMoves(s: Sys, c: Cid, w: Wid)
    requires AllFit(s)
    ensures var s' := Grab(s, c, w);
      && On(s', Channel(w)) == [] && On(s', Waking(c)) == On(s, Waking(c)) + On(s, Channel(w))
      && ListsKeptBut(s, s', Channel(w), Waking(c))
      && s'.threads == s.threads && s'.cpus == s.cpus && s'.broken == s.broken
    decreases |On(s, Channel(w))|
  {
    if On(s, Channel(w)) != [] {
      Member(s, Channel(w), 0);
      var t := On(s, Channel(w))[0];
      var s1 := Shift(s, Channel(w), 0, Waking(c), true, s.threads[t]);
      assert s1.threads == s.threads;
      assert On(s1, Channel(w)) == On(s, Channel(w))[1..];
      ShiftFits(s, Channel(w), Waking(c));
      GrabMoves(s1, c, w);
      assert On(s, Waking(c)) + [t] + On(s, Channel(w))[1..] == On(s, Waking(c)) + On(s, Channel(w));
    }
  }

  /** The first loop of `wchan_wakeall` takes every sleeper off the channel, in order, and changes nothing else. */
  lemma GrabTakesAll(s: Sys, c: Cid, w: Wid)
    requires Inv(s) && Enabled(s, GrabAll(c, w))
    ensures var s' := Next(s, GrabAll(c, w));
      && On(s', Channel(w)) == [] && On(s', Waking(c)) == On(s, Channel(w))
      && ListsKeptBut(s, s', Channel(w), Waking(c))
      && s'.threads == s.threads && s'.cpus == s.cpus && !s'.broken
  {
    GrabMoves(s, c, w);
    assert [] + On(s, Channel(w)) == On(s, Channel(w));
  }

  // ---- a whole wakeup of all ----

  /** The threads of the list that belong to a processor, in order. */
  function OfCpu(l: seq<Tid>, threads: map<Tid, Thread>, d: Cid): seq<Tid> {
    if l == [] then []
    else (if l[0] in threads && threads[l[0]].cpu == d then [l[0]] else []) + OfCpu(l[1..], threads, d)
  }

  lemma {:induction false} OfCpuSame(l: seq<Tid>, threads: map<Tid, Thread>, threads': map<Tid, Thread>, d: Cid)
    requires threads'.Keys == threads.Keys && forall t :: t in threads ==> threads'[t].cpu == threads[t].cpu
    ensures OfCpu(l, threads', d) == OfCpu(l, threads, d)
    decreases |l|
  {
    if l != [] {
      OfCpuSame(l[1..], threads, threads', d);
    }
  }

  /** The second loop, `n` threads long. */
  function DrainSteps(c: Cid, n: nat): (r: seq<Step>)
    ensures |r| == n
  {
    if n == 0 then [] else [WakeNext(c)] + DrainSteps(c, n - 1)
  }

  /** The threads of `l` are ready, each at the tail of its own processor's queue, in order. */
  ghost predicate Woken(s: Sys, s': Sys, l: seq<Tid>) {
    && s'.cpus == s.cpus && s'.threads.Keys == s.threads.Keys
    && (forall d :: On(s', RunQueue(d)) == On(s, RunQueue(d)) + OfCpu(l, s.threads, d))
    && (forall t :: t in s.threads ==> s'.threads[t] == if t in l then Thread(Ready, s.threads[t].cpu) else s.threads[t])
  }

  ghost predicate OnlyQueues(s: Sys, s': Sys, p: Place) {
    forall r :: r != p && !r.RunQueue? ==> On(s', r) == On(s, r)
  }

  lemma WokenFirst(s: Sys, s1: Sys, s2: Sys, l: seq<Tid>)
    requires l != [] && Distinct(l) && l[0] in s.threads
    requires s1.cpus == s.cpus && s1.threads == s.threads[l[0] := Thread(Ready, s.threads[l[0]].cpu)]
    requires forall d :: On(s1, RunQueue(d)) == On(s, RunQueue(d)) + if s.threads[l[0]].cpu == d then [l[0]] else []
    requires Woken(s1, s2, l[1..])
    ensures Woken(s, s2, l)
  {
    forall d ensures On(s2, RunQueue(d)) == On(s, RunQueue(d)) + OfCpu(l, s.threads, d) {
      OfCpuSame(l[1..], s.threads, s1.threads, d);
    }
    assert forall t :: t in l <==> t == l[0] || t in l[1..];
  }

  lemma {:induction false} DrainWakes(s: Sys, c: Cid, n: nat)
    requires Inv(s) && n == |On(s, Waking(c))|
    ensures Feasible(s, DrainSteps(c, n))
    ensures var s' := After(s, DrainSteps(c, n));
      Woken(s, s', On(s, Waking(c))) && On(s', Waking(c)) == [] && OnlyQueues(s, s', Waking(c))
    decreases n
  {
    if n > 0 {
      var steps := DrainSteps(c, n);
      assert steps[0] == WakeNext(c) && steps[1..] == DrainSteps(c, n - 1);
      var s1 := Next(s, WakeNext(c));
      WakesHead(s, Waking(c));
      MakeRunnableInv(s, Waking(c));
      DrainWakes(s1, c, n - 1);
      assert Waking(c) in s.lists && Distinct(s.lists[Waking(c)]);
      WokenFirst(s, s1, After(s1, DrainSteps(c, n - 1)), On(s, Waking(c)));
    }
  }

  /** `wchan_wakeall` undisturbed: every sleeper of the channel is ready on its own processor's queue, in order, and no other thread is touched. */
  lemma WakeAllWakes(s: Sys, c: Cid, w: Wid) returns (steps: seq<Step>)
    requires Inv(s) && Enabled(s, GrabAll(c, w))
    ensures steps == [GrabAll(c, w)] + DrainSteps(c, |On(s, Channel(w))|) && Feasible(s, steps)
    ensures var s' := After(s, steps);
      && Woken(s, s', On(s, Channel(w))) && On(s', Channel(w)) == [] && On(s', Waking(c)) == []
      && (forall r :: r != Channel(w) && !r.RunQueue? ==> On(s', r) == On(s, r))
  {
    var n := |On(s, Channel(w))|;
    var s1 := Next(s, GrabAll(c, w));
    GrabTakesAll(s, c, w);
    GrabInv(s, c, w);
    DrainWakes(s1, c, n);
    steps := [GrabAll(c, w)] + DrainSteps(c, n);
    assert steps[1..] == DrainSteps(c, n);
  }

  // ---- forking, leaving and running ----

  /** `thread_fork`: the new thread is ready at the tail of the forking processor's queue. */
  lemma ForkQueues(s: Sys, c: Cid, t: Tid)
    requires Inv(s) && Enabled(s, Fork(c, t))
    ensures var s' := Next(s, Fork(c, t));
      && On(s', RunQueue(c)) == On(s, RunQueue(c)) + [t] && ListsKeptBut(s, s', RunQueue(c), RunQueue(c))
      && s'.threads == s.threads[t := Thread(Ready, c)] && s'.cpus == s.cpus
  {
    CurFacts(s, c);
  }

  /** Where a thread that leaves the processor waits. */
  function WaitsOn(c: Cid, how: Leaving): Place {
    match how
    case Yield => RunQueue(c)
    case Sleep(w) => Channel(w)
    case Exit => Zombies(c)
  }

  function WaitsAs(how: Leaving): RunState {
    match how
    case Yield => Ready
    case Sleep(_) => Sleeping
    case Exit => Zombie
  }

  /**
   * `thread_switch`: a yield with nobody queued does nothing; else the thread
   * goes to the tail of the queue, of its channel or of the zombies, with the
   * state that goes with it, and its processor has no thread running.
   */
  lemma LeaveQueues(s: Sys, c: Cid, how: Leaving)
    requires Inv(s) && Enabled(s, Leave(c, how))
    ensures var t := s.cpus[c].cur;
      var s' := Next(s, Leave(c, how));
      && (how == Yield && On(s, RunQueue(c)) == [] ==> s' == s)
      && (how != Yield || On(s, RunQueue(c)) != [] ==>
            && On(s', WaitsOn(c, how)) == On(s, WaitsOn(c, how)) + [t]
            && ListsKeptBut(s, s', WaitsOn(c, how), WaitsOn(c, how))
            && s'.threads == s.threads[t := Thread(WaitsAs(how), c)]
            && s'.cpus == s.cpus[c := s.cpus[c].(idle := true)])
  {
    CurFacts(s, c);
  }

  /** The thread at the head of the queue runs. */
  lemma DispatchRuns(s: Sys, c: Cid)
    requires Inv(s) && Enabled(s, Dispatch(c))
    ensures var t := On(s, RunQueue(c))[0];
      var s' := Next(s, Dispatch(c));
      && On(s', RunQueue(c)) == On(s, RunQueue(c))[1..] && ListsKeptBut(s, s', RunQueue(c), RunQueue(c))
      && s'.threads == s.threads[t := Thread(Running, c)]
      && s'.cpus == s.cpus[c := s.cpus[c].(cur := t, idle := false)]
  {
    Member(s, RunQueue(c), 0);
  }

  // ---- round robin ----

  /** `n` yields, each with the choice of the next thread. */
  function YieldSteps(c: Cid, n: nat): seq<Step> {
    if n == 0 then [] else [Leave(c, Yield), Dispatch(c)] + YieldSteps(c, n - 1)
  }

  /** The running thread and those queued behind it. */
  function Circle(s: Sys, c: Cid): seq<Tid>
    requires c < |s.cpus|
  {
    [s.cpus[c].cur] + On(s, RunQueue(c))
  }

  lemma YieldTurns(s: Sys, c: Cid) returns (s2: Sys)
    requires Inv(s) && Usual(s, c) && !s.cpus[c].idle && On(s, RunQueue(c)) != []
    ensures Enabled(s, Leave(c, Yield)) && Enabled(Next(s, Leave(c, Yield)), Dispatch(c))
    ensures s2 == Next(Next(s, Leave(c, Yield)), Dispatch(c)) && Inv(s2) && Usual(s2, c) && !s2.cpus[c].idle
    ensures Circle(s2, c) == Circle(s, c)[1..] + [s.cpus[c].cur]
  {
    var s1 := Next(s, Leave(c, Yield));
    LeaveQueues(s, c, Yield);
    StepInv(s, Leave(c, Yield));
    DispatchRuns(s1, c);
    StepInv(s1, Dispatch(c));
    s2 := Next(s1, Dispatch(c));
    assert On(s1, RunQueue(c)) == On(s, RunQueue(c)) + [s.cpus[c].cur];
    assert Circle(s2, c) == On(s1, RunQueue(c));
    assert Circle(s, c)[1..] == On(s, RunQueue(c));
  }

  lemma {:induction false} Rotates(s: Sys, c: Cid, n: nat)
    requires Inv(s) && Usual(s, c) && !s.cpus[c].idle && On(s, RunQueue(c)) != [] && n <= |Circle(s, c)|
    ensures Feasible(s, YieldSteps(c, n))
    ensures var s' := After(s, YieldSteps(c, n));
      c < |s'.cpus| && Circle(s', c) == Circle(s, c)[n..] + Circle(s, c)[..n]
    decreases n
  {
    if n > 0 {
      var s2 := YieldTurns(s, c);
      var steps := YieldSteps(c, n);
      assert steps[0] == Leave(c, Yield) && steps[1..][0] == Dispatch(c) && steps[1..][1..] == YieldSteps(c, n - 1);
      assert |Circle(s2, c)| == |Circle(s, c)|;
      Rotates(s2, c, n - 1);
      Rotated(Circle(s, c), n);
    }
  }

  lemma Rotated(l: seq<Tid>, n: nat)
    requires 0 < n <= |l|
    ensures var l' := l[1..] + [l[0]]; l'[n - 1..] + l'[..n - 1] == l[n..] + l[..n]
  {
    var l' := l[1..] + [l[0]];
    assert l'[n - 1..] == l[n..] + [l[0]];
    assert l'[..n - 1] == l[1..n];
    assert [l[0]] + l[1..n] == l[..n];
  }

  /** Yielding is round robin: each queued thread runs once, in order, before the first runs again. */
  lemma YieldIsRoundRobin(s: Sys, c: Cid, n: nat)
    requires Inv(s) && Usual(s, c) && !s.cpus[c].idle && On(s, RunQueue(c)) != [] && n <= |On(s, RunQueue(c))| + 1
    ensures Feasible(s, YieldSteps(c, n))
    ensures var s' := After(s, YieldSteps(c, n));
      && c < |s'.cpus|
      && s'.cpus[c].cur == (if n == 0 || n == |On(s, RunQueue(c))| + 1 then s.cpus[c].cur else On(s, RunQueue(c))[n - 1])
      && (n == |On(s, RunQueue(c))| + 1 ==> On(s', RunQueue(c)) == On(s, RunQueue(c)))
  {
    Rotates(s, c, n);
    var s' := After(s, YieldSteps(c, n));
    assert Circle(s', c)[0] == s'.cpus[c].cur;
    assert Circle(s', c)[1..] == On(s', RunQueue(c)) && Circle(s, c)[1..] == On(s, RunQueue(c));
  }
}
