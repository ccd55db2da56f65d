/** Interrupt accounting over all runs of any number of processors and threads (kern/thread/spl.c, spinlock.c, thread.c). */
module InterruptRuns {

  type Tid = nat
  type Cid = nat

  datatype LockId = RunQueue(c: Cid) | Other(n: nat)

  datatype Option<T> = None | Some(value: T)

  datatype Thread = Thread(count: nat, high: bool)

  /** A processor; `wants` is the lock it is spinning for. */
  datatype Processor = Processor(cur: Tid, spinlocks: nat, irqOn: bool, wants: Option<LockId>)

  datatype Machine = Machine(threads: map<Tid, Thread>, cpus: map<Cid, Processor>, held: map<LockId, Cid>)

  datatype Step =
    | Splx(c: Cid, high: bool)
    | StartAcquire(c: Cid, l: LockId)
    | Take(c: Cid)
    | Release(c: Cid, l: LockId)
    | Fork(c: Cid, t: Tid)
    | Switch(c: Cid, next: Tid)
    | Destroy(t: Tid)

  predicate Runs(m: Machine, t: Tid) {
    exists c :: c in m.cpus && m.cpus[c].cur == t
  }

  predicate Idle(m: Machine, c: Cid) {
    c in m.cpus && m.cpus[c].wants == None && m.cpus[c].cur in m.threads
  }

  /**
   * What the code asserts or relies on: no lock is taken twice by one
   * processor, only a holder releases, and `thread_switch` changes threads
   * with the level high, the run queue locked and no other spinlock held.
   */
  predicate Enabled(m: Machine, s: Step) {
    match s
    case Splx(c, _) => Idle(m, c)
    case StartAcquire(c, l) => Idle(m, c) && !(l in m.held && m.held[l] == c)
    case Take(c) => c in m.cpus && m.cpus[c].wants.Some? && m.cpus[c].wants.value !in m.held
    case Release(c, l) => Idle(m, c) && l in m.held && m.held[l] == c
    case Fork(c, t) => Idle(m, c) && t !in m.threads
    case Switch(c, next) =>
      && Idle(m, c) && next in m.threads && !Runs(m, next)
      && m.threads[m.cpus[c].cur].high && m.cpus[c].spinlocks == 1
      && RunQueue(c) in m.held && m.held[RunQueue(c)] == c
    case Destroy(t) => t in m.threads && !Runs(m, t)
  }

  /** `splraise` by the thread running on `c`. */
  function Raised(m: Machine, c: Cid): Machine
    requires c in m.cpus && m.cpus[c].cur in m.threads
  {
    var p := m.cpus[c];
    var t := m.threads[p.cur];
    m.(cpus := m.cpus[c := p.(irqOn := p.irqOn && t.count != 0)], threads := m.threads[p.cur := t.(count := t.count + 1)])
  }

  /** `spllower`; an unsigned count would wrap at 0, which runs never meet. */
  function Lowered(m: Machine, c: Cid): Machine
    requires c in m.cpus && m.cpus[c].cur in m.threads
  {
    var p := m.cpus[c];
    var t := m.threads[p.cur];
    var n := if t.count == 0 then 0xffff_ffff else t.count - 1;
    m.(cpus := m.cpus[c := p.(irqOn := p.irqOn || n == 0)], threads := m.threads[p.cur := t.(count := n)])
  }

  function WithLevel(m: Machine, c: Cid, high: bool): Machine
    requires c in m.cpus && m.cpus[c].cur in m.threads
  {
    m.(threads := m.threads[m.cpus[c].cur := m.threads[m.cpus[c].cur].(high := high)])
  }

  function WithSpinlocks(m: Machine, c: Cid, n: nat, wants: Option<LockId>): Machine
    requires c in m.cpus
  {
    m.(cpus := m.cpus[c := m.cpus[c].(spinlocks := n, wants := wants)])
  }

  function Next(m: Machine, s: Step): Machine
    requires Enabled(m, s)
  {
    match s
    case Splx(c, high) =>
      var was := m.threads[m.cpus[c].cur].high;
      if !was && high then WithLevel(Raised(m, c), c, high)
      else if was && !high then Lowered(WithLevel(m, c, high), c)
      else m
    case StartAcquire(c, l) =>
      WithSpinlocks(Raised(m, c), c, m.cpus[c].spinlocks + 1, Some(l))
    case Take(c) =>
      WithSpinlocks(m, c, m.cpus[c].spinlocks, None).(held := m.held[m.cpus[c].wants.value := c])
    case Release(c, l) =>
      var n := m.cpus[c].spinlocks;
      Lowered(WithSpinlocks(m, c, if n == 0 then 0xffff_ffff else n - 1, None).(held := m.held - {l}), c)
    case Fork(c, t) => m.(threads := m.threads[t := Thread(2, true)])
    case Switch(c, next) => m.(cpus := m.cpus[c := m.cpus[c].(cur := next)])
    case Destroy(t) => m.(threads := m.threads - {t})
  }

  function HeldBy(m: Machine, c: Cid): set<LockId> {
    set l | l in m.held && m.held[l] == c
  }

  /** The accounting on one processor. */
  ghost predicate Balanced(m: Machine, c: Cid)
    requires c in m.cpus
  {
    var p := m.cpus[c];
    && p.cur in m.threads
    && m.threads[p.cur].count == p.spinlocks + (if m.threads[p.cur].high then 1 else 0)
    && (p.irqOn <==> m.threads[p.cur].count == 0)
    && p.spinlocks == |HeldBy(m, c)| + (if p.wants.Some? then 1 else 0)
    && (p.wants.Some? ==> p.wants.value !in HeldBy(m, c))
  }

  /** No thread runs on two processors. */
  ghost predicate OneEach(m: Machine) {
    forall c, d :: c in m.cpus && d in m.cpus && c != d ==> m.cpus[c].cur != m.cpus[d].cur
  }

  /** Every thread that is not running can be resumed with a count of 2. */
  ghost predicate OthersParked(m: Machine) {
    forall t :: t in m.threads && !Runs(m, t) ==> m.threads[t] == Thread(2, true)
  }

  ghost predicate HoldersExist(m: Machine) {
    forall l :: l in m.held ==> m.held[l] in m.cpus
  }

  ghost predicate AllBalanced(m: Machine) {
    forall c :: c in m.cpus ==> Balanced(m, c)
  }

  ghost predicate Inv(m: Machine) {
    AllBalanced(m) && OneEach(m) && OthersParked(m) && HoldersExist(m)
  }

  /** The boot processors, each running its first thread at high level. */
  ghost predicate Booted(m: Machine) {
    && m.held == map[]
    && (forall c :: c in m.cpus ==> m.cpus[c] == Processor(m.cpus[c].cur, 0, false, None) && m.cpus[c].cur in m.threads)
    && (forall c, d :: c in m.cpus && d in m.cpus && c != d ==> m.cpus[c].cur != m.cpus[d].cur)
    && (forall t :: t in m.threads ==> m.threads[t] == Thread(1, true) && Runs(m, t))
  }

  lemma BootedInv(m: Machine)
    requires Booted(m)
    ensures Inv(m)
  {
    forall c | c in m.cpus ensures Balanced(m, c) {
      assert HeldBy(m, c) == {};
    }
  }

  /** A step of one processor that leaves what the others are running and holding. */
  ghost predicate Local(m: Machine, m': Machine, c: Cid) {
    && c in m.cpus && m'.cpus.Keys == m.cpus.Keys && m'.threads.Keys == m.threads.Keys
    && m'.cpus[c].cur == m.cpus[c].cur
    && (forall d :: d in m.cpus && d != c ==> m'.cpus[d] == m.cpus[d] && HeldBy(m', d) == HeldBy(m, d))
    && (forall t :: t in m.threads && t != m.cpus[c].cur ==> m'.threads[t] == m.threads[t])
    && HoldersExist(m')
  }

  lemma OthersBalanced(m: Machine, m': Machine, c: Cid, d: Cid)
    requires Local(m, m', c) && d in m.cpus && d != c && Balanced(m, d) && m.cpus[d].cur != m.cpus[c].cur
    ensures Balanced(m', d)
  {
  }

  lemma SameRunning(m: Machine, m': Machine, t: Tid)
    requires m'.cpus.Keys == m.cpus.Keys && forall c :: c in m.cpus ==> m'.cpus[c].cur == m.cpus[c].cur
    ensures Runs(m', t) == Runs(m, t)
  {
    if Runs(m, t) {
      var c :| c in m.cpus && m.cpus[c].cur == t;
      assert c in m'.cpus && m'.cpus[c].cur == t;
    }
  }

  lemma LocalParked(m: Machine, m': Machine, c: Cid)
    requires OthersParked(m) && Local(m, m', c)
    ensures OthersParked(m') && forall d :: d in m.cpus ==> m'.cpus[d].cur == m.cpus[d].cur
  {
    forall t | t in m'.threads && !Runs(m', t) ensures m'.threads[t] == Thread(2, true) {
      SameRunning(m, m', t);
      assert t == m.cpus[c].cur ==> Runs(m, t);
    }
  }

  lemma LocalBalanced(m: Machine, m': Machine, c: Cid)
    requires AllBalanced(m) && OneEach(m) && Local(m, m', c) && Balanced(m', c)
    ensures AllBalanced(m')
  {
    forall d | d in m'.cpus ensures Balanced(m', d) {
      if d != c {
        OthersBalanced(m, m', c, d);
      }
    }
  }

  lemma LocalInv(m: Machine, m': Machine, c: Cid)
    requires Inv(m) && Local(m, m', c) && Balanced(m', c)
    ensures Inv(m')
  {
    LocalParked(m, m', c);
    LocalBalanced(m, m', c);
  }

  lemma HeldSame(m: Machine, m': Machine)
    requires m'.held == m.held
    ensures forall d :: HeldBy(m', d) == HeldBy(m, d)
  {
  }

  lemma SplxLocal(m: Machine, c: Cid, high: bool)
    requires Enabled(m, Splx(c, high)) && Balanced(m, c) && HoldersExist(m)
    ensures var m' := Next(m, Splx(c, high)); Local(m, m', c) && Balanced(m', c)
  {
    HeldSame(m, Next(m, Splx(c, high)));
  }

  lemma SplxInv(m: Machine, c: Cid, high: bool)
    requires Inv(m) && Enabled(m, Splx(c, high))
    ensures Inv(Next(m, Splx(c, high)))
  {
    SplxLocal(m, c, high);
    LocalInv(m, Next(m, Splx(c, high)), c);
  }

  lemma StartAcquireLocal(m: Machine, c: Cid, l: LockId)
    requires Enabled(m, StartAcquire(c, l)) && Balanced(m, c) && HoldersExist(m)
    ensures var m' := Next(m, StartAcquire(c, l)); Local(m, m', c) && Balanced(m', c)
  {
    HeldSame(m, Next(m, StartAcquire(c, l)));
  }

  lemma TakeLocal(m: Machine, c: Cid)
    requires Enabled(m, Take(c)) && Balanced(m, c) && HoldersExist(m)
    ensures var m' := Next(m, Take(c)); Local(m, m', c) && Balanced(m', c)
  {
    var m' := Next(m, Take(c));
    assert HeldBy(m', c) == HeldBy(m, c) + {m.cpus[c].wants.value};
    forall d | d in m.cpus && d != c ensures HeldBy(m', d) == HeldBy(m, d) {
    }
  }

  lemma ReleaseLocal(m: Machine, c: Cid, l: LockId)
    requires Enabled(m, Release(c, l)) && Balanced(m, c) && HoldersExist(m)
    ensures var m' := Next(m, Release(c, l)); Local(m, m', c) && Balanced(m', c)
  {
    var m' := Next(m, Release(c, l));
    assert l in HeldBy(m, c);
    assert HeldBy(m', c) == HeldBy(m, c) - {l};
    forall d | d in m.cpus && d != c ensures HeldBy(m', d) == HeldBy(m, d) {
    }
  }

  /** A processor taking and releasing locks affects its own account alone. */
  lemma LockInv(m: Machine, s: Step)
    requires Inv(m) && Enabled(m, s) && (s.StartAcquire? || s.Take? || s.Release?)
    ensures Inv(Next(m, s))
  {
    assert Balanced(m, s.c);
    LockLocal(m, s);
    LocalInv(m, Next(m, s), s.c);
  }

  lemma LockLocal(m: Machine, s: Step)
    requires Enabled(m, s) && (s.StartAcquire? || s.Take? || s.Release?)
    requires s.c in m.cpus && Balanced(m, s.c) && HoldersExist(m)
    ensures Local(m, Next(m, s), s.c) && Balanced(Next(m, s), s.c)
  {
    match s
    case StartAcquire(c, l) => StartAcquireLocal(m, c, l);
    case Take(c) => TakeLocal(m, c);
    case Release(c, l) => ReleaseLocal(m, c, l);
  }

  lemma ForkInv(m: Machine, c: Cid, t: Tid)
    requires Inv(m) && Enabled(m, Fork(c, t))
    ensures Inv(Next(m, Fork(c, t)))
  {
    var m' := Next(m, Fork(c, t));
    HeldSame(m, m');
    forall d | d in m'.cpus ensures Balanced(m', d) {
      assert Balanced(m, d);
    }
    forall u | u in m'.threads && !Runs(m', u) ensures m'.threads[u] == Thread(2, true) {
      assert u != t ==> !Runs(m, u);
    }
  }

  lemma SwitchBalanced(m: Machine, c: Cid, next: Tid)
    requires AllBalanced(m) && Enabled(m, Switch(c, next)) && m.threads[next] == Thread(2, true)
    ensures AllBalanced(Next(m, Switch(c, next))) && m.threads[m.cpus[c].cur] == Thread(2, true)
  {
    var m' := Next(m, Switch(c, next));
    assert Balanced(m, c);
    HeldSame(m, m');
    forall d | d in m'.cpus ensures Balanced(m', d) {
      assert Balanced(m, d);
    }
  }

  lemma SwitchInv(m: Machine, c: Cid, next: Tid)
    requires Inv(m) && Enabled(m, Switch(c, next))
    ensures Inv(Next(m, Switch(c, next)))
  {
    var m' := Next(m, Switch(c, next));
    SwitchBalanced(m, c, next);
    forall d | d in m'.cpus && d != c ensures m'.cpus[d].cur != next {
      assert Runs(m, m.cpus[d].cur);
    }
    forall u | u in m'.threads && !Runs(m', u) ensures m'.threads[u] == Thread(2, true) {
      if u != m.cpus[c].cur {
        StillRuns(m, c, next, u);
      }
    }
  }

  lemma StillRuns(m: Machine, c: Cid, next: Tid, u: Tid)
    requires Enabled(m, Switch(c, next)) && u != m.cpus[c].cur
    ensures Runs(m, u) ==> Runs(Next(m, Switch(c, next)), u)
  {
    if Runs(m, u) {
      var d :| d in m.cpus && m.cpus[d].cur == u;
      assert Next(m, Switch(c, next)).cpus[d].cur == u;
    }
  }

  lemma DestroyInv(m: Machine, t: Tid)
    requires Inv(m) && Enabled(m, Destroy(t))
    ensures Inv(Next(m, Destroy(t)))
  {
    var m' := Next(m, Destroy(t));
    HeldSame(m, m');
    forall d | d in m'.cpus ensures Balanced(m', d) {
      assert Balanced(m, d) && Runs(m, m.cpus[d].cur);
    }
    forall u | u in m'.threads && !Runs(m', u) ensures m'.threads[u] == Thread(2, true) {
      assert !Runs(m, u);
    }
  }

  lemma StepInv(m: Machine, s: Step)
    requires Inv(m) && Enabled(m, s)
    ensures Inv(Next(m, s))
  {
    match s
    case Splx(c, high) => SplxInv(m, c, high);
    case StartAcquire(_, _) => LockInv(m, s);
    case Take(_) => LockInv(m, s);
    case Release(_, _) => LockInv(m, s);
    case Fork(c, t) => ForkInv(m, c, t);
    case Switch(c, next) => SwitchInv(m, c, next);
    case Destroy(t) => DestroyInv(m, t);
  }

  // ---- runs ----

  ghost predicate Feasible(m: Machine, steps: seq<Step>)
    decreases |steps|
  {
    steps == [] || (Enabled(m, steps[0]) && Feasible(Next(m, steps[0]), steps[1..]))
  }

  ghost function After(m: Machine, steps: seq<Step>): Machine
    requires Feasible(m, steps)
    decreases |steps|
  {
    if steps == [] then m else After(Next(m, steps[0]), steps[1..])
  }

  lemma {:induction false} RunInv(m: Machine, steps: seq<Step>)
    requires Inv(m) && Feasible(m, steps)
    ensures Inv(After(m, steps))
    decreases |steps|
  {
    if steps != [] {
      StepInv(m, steps[0]);
      RunInv(Next(m, steps[0]), steps[1..]);
    }
  }

  /**
   * In every state of every run from boot: the running thread's count is the
   * spinlocks its processor holds or spins for plus one if its level is
   * high, its interrupts are off exactly when the count is positive, and
   * every thread that is not running comes back with a count of 2.
   */
  lemma AccountingHolds(m: Machine, steps: seq<Step>)
    requires Booted(m) && Feasible(m, steps)
    ensures Inv(After(m, steps))
  {
    BootedInv(m);
    RunInv(m, steps);
  }

  /**
   * The hand-off balances: the thread switched to can release the run queue
   * lock the other thread took, and drop its level; it then runs with a
   * count of 0, no spinlocks and interrupts on, whichever thread it is.
   */
  lemma HandOff(m: Machine, c: Cid, next: Tid)
    requires Inv(m) && Enabled(m, Switch(c, next))
    ensures var m1 := Next(m, Switch(c, next));
      && m1.threads[m.cpus[c].cur] == Thread(2, true)
      && Enabled(m1, Release(c, RunQueue(c)))
      && var m2 := Next(m1, Release(c, RunQueue(c)));
        && m2.threads[next] == Thread(1, true) && !m2.cpus[c].irqOn
        && Enabled(m2, Splx(c, false))
        && var m3 := Next(m2, Splx(c, false));
          m3.threads[next] == Thread(0, false) && m3.cpus[c].spinlocks == 0 && m3.cpus[c].irqOn && HeldBy(m3, c) == {}
  {
    var m1 := Next(m, Switch(c, next));
    SwitchInv(m, c, next);
    var m2 := Next(m1, Release(c, RunQueue(c)));
    LockInv(m1, Release(c, RunQueue(c)));
    var m3 := Next(m2, Splx(c, false));
    SplxInv(m2, c, false);
    assert Balanced(m, c) && Balanced(m1, c) && Balanced(m2, c) && Balanced(m3, c);
  }

  /** A processor that spins, or holds a lock, has its interrupts off, so it cannot be interrupted into taking the lock again. */
  lemma LockedMeansOff(m: Machine, c: Cid)
    requires Inv(m) && c in m.cpus && (m.cpus[c].wants.Some? || HeldBy(m, c) != {})
    ensures !m.cpus[c].irqOn && m.cpus[c].spinlocks > 0
  {
    assert Balanced(m, c);
    if HeldBy(m, c) != {} {
      assert |HeldBy(m, c)| > 0;
    }
  }

  // ---- round trips ----

  /** Only processor `c` and its current thread differ. */
  ghost predicate OnlyHere(m: Machine, m': Machine, c: Cid)
    requires c in m.cpus && c in m'.cpus
  {
    && m'.cpus == m.cpus[c := m'.cpus[c]] && m'.cpus[c].cur == m.cpus[c].cur && m.cpus[c].cur in m'.threads
    && m'.threads == m.threads[m.cpus[c].cur := m'.threads[m.cpus[c].cur]]
  }

  /** `splx` sets the level; interrupts are then on exactly at low level without spinlocks. */
  lemma SplxSets(m: Machine, c: Cid, high: bool)
    requires c in m.cpus && Balanced(m, c) && Enabled(m, Splx(c, high))
    ensures var m' := Next(m, Splx(c, high));
      var cur := m.cpus[c].cur;
      && c in m'.cpus && OnlyHere(m, m', c) && m'.held == m.held
      && m'.threads[cur].high == high && m'.cpus[c].spinlocks == m.cpus[c].spinlocks && m'.cpus[c].wants == None
      && (m'.cpus[c].irqOn <==> !high && m.cpus[c].spinlocks == 0)
  {
  }

  /** Setting the old level again undoes it. */
  lemma SplxUndone(m: Machine, c: Cid, high: bool)
    requires c in m.cpus && Balanced(m, c) && Enabled(m, Splx(c, high))
    ensures var was := m.threads[m.cpus[c].cur].high;
      var m' := Next(m, Splx(c, high));
      Enabled(m', Splx(c, was)) && Next(m', Splx(c, was)) == m
  {
    var t, p := m.threads[m.cpus[c].cur], m.cpus[c];
    var t' := Next(m, Splx(c, high)).threads[p.cur];
    if high != t.high {
      SplxRewrites(m, c, high);
      RewrittenBack(m, c, t', p.(irqOn := t'.count == 0), m.held);
      SplxRewrites(Next(m, Splx(c, high)), c, t.high);
    }
  }

  lemma SplxRewrites(m: Machine, c: Cid, high: bool)
    requires c in m.cpus && Enabled(m, Splx(c, high)) && high != m.threads[m.cpus[c].cur].high
    requires m.cpus[c].irqOn <==> m.threads[m.cpus[c].cur].count == 0
    requires m.threads[m.cpus[c].cur].high ==> m.threads[m.cpus[c].cur].count > 0
    ensures var t := m.threads[m.cpus[c].cur];
      var n := if high then t.count + 1 else t.count - 1;
      Next(m, Splx(c, high)) == Rewritten(m, c, Thread(n, high), m.cpus[c].(irqOn := n == 0), m.held)
  {
  }

  /** The machine with the running thread of `c` rewritten, and the processor with it. */
  function Rewritten(m: Machine, c: Cid, t: Thread, p: Processor, held: map<LockId, Cid>): Machine
    requires c in m.cpus
  {
    Machine(m.threads[m.cpus[c].cur := t], m.cpus[c := p], held)
  }

  lemma RewrittenBack(m: Machine, c: Cid, t: Thread, p: Processor, held: map<LockId, Cid>)
    requires c in m.cpus && m.cpus[c].cur in m.threads && p.cur == m.cpus[c].cur
    ensures Rewritten(Rewritten(m, c, t, p, held), c, m.threads[m.cpus[c].cur], m.cpus[c], m.held) == m
  {
    var m' := Rewritten(m, c, t, p, held);
    assert m'.threads[p.cur := m.threads[p.cur]] == m.threads && m'.cpus[c := m.cpus[c]] == m.cpus;
  }

  lemma StartRewrites(m: Machine, c: Cid, l: LockId)
    requires c in m.cpus && Balanced(m, c) && Enabled(m, StartAcquire(c, l))
    ensures var t := m.threads[m.cpus[c].cur];
      Next(m, StartAcquire(c, l)) ==
        Rewritten(m, c, Thread(t.count + 1, t.high), Processor(m.cpus[c].cur, m.cpus[c].spinlocks + 1, false, Some(l)), m.held)
  {
  }

  /** A free lock is taken with interrupts off and is then the processor's. */
  lemma AcquireTakes(m: Machine, c: Cid, l: LockId)
    requires c in m.cpus && Balanced(m, c) && Enabled(m, StartAcquire(c, l)) && l !in m.held
    ensures Enabled(Next(m, StartAcquire(c, l)), Take(c))
    ensures var t := m.threads[m.cpus[c].cur];
      Next(Next(m, StartAcquire(c, l)), Take(c)) ==
        Rewritten(m, c, Thread(t.count + 1, t.high), Processor(m.cpus[c].cur, m.cpus[c].spinlocks + 1, false, None), m.held[l := c])
  {
    StartRewrites(m, c, l);
  }

  /** Giving it up again undoes everything. */
  lemma ReleaseUndoes(m: Machine, c: Cid, l: LockId)
    requires c in m.cpus && Balanced(m, c) && Enabled(m, StartAcquire(c, l)) && l !in m.held
    ensures Enabled(Next(m, StartAcquire(c, l)), Take(c))
    ensures var m2 := Next(Next(m, StartAcquire(c, l)), Take(c));
      Enabled(m2, Release(c, l)) && Next(m2, Release(c, l)) == m
  {
    var t, p := m.threads[m.cpus[c].cur], m.cpus[c];
    AcquireTakes(m, c, l);
    var m2 := Next(Next(m, StartAcquire(c, l)), Take(c));
    assert m2.held - {l} == m.held;
    ReleaseRewrites(m2, c, l);
    RewrittenBack(m, c, Thread(t.count + 1, t.high), Processor(p.cur, p.spinlocks + 1, false, None), m.held[l := c]);
  }

  lemma ReleaseRewrites(m: Machine, c: Cid, l: LockId)
    requires c in m.cpus && Enabled(m, Release(c, l)) && m.cpus[c].spinlocks > 0 && m.threads[m.cpus[c].cur].count > 0 && !m.cpus[c].irqOn
    ensures var t := m.threads[m.cpus[c].cur];
      Next(m, Release(c, l)) ==
        Rewritten(m, c, Thread(t.count - 1, t.high), Processor(m.cpus[c].cur, m.cpus[c].spinlocks - 1, t.count == 1, None), m.held - {l})
  {
  }

  /** While another processor holds the lock it cannot be taken. */
  lemma HeldIsNotTaken(m: Machine, c: Cid, d: Cid, l: LockId)
    requires Inv(m) && l in m.held && m.held[l] == d && d != c && c in m.cpus && m.cpus[c].wants == Some(l)
    ensures !Enabled(m, Take(c))
    ensures forall st :: Enabled(m, st) && st != Release(d, l) ==> l in Next(m, st).held && Next(m, st).held[l] == d
  {
  }
}
