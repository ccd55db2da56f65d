/** Semaphores under every interleaving of any number of threads (kern/thread/synch.c). */
module Semaphores {

  type Tid = nat

  /**
   * Where a thread is. A thread in `P` waits for the spinlock (`PEnter`),
   * holds it before testing the count (`PTest`), is on the channel
   * (`PAsleep`), is runnable again after a wakeup but has not retaken the
   * lock (`PWoken`), has retaken it and is about to test again (`PRetest`),
   * or has decremented (`PTook`). A thread in `V` waits for the lock
   * (`VEnter`), holds it (`VHeld`), has incremented (`VBumped`) or has also
   * called `wchan_wakeone` (`VWoke`).
   */
  datatype Pc = Outside | PEnter | PTest | PAsleep | PWoken | PRetest | PTook | VEnter | VHeld | VBumped | VWoke

  datatype Holder = Nobody | By(t: Tid)

  /** The semaphore, its channel in order, its spinlock, its threads, and how many operations have completed. */
  datatype Sem = Sem(initial: nat, count: nat, channel: seq<Tid>, lock: Holder, pc: map<Tid, Pc>, ps: nat, vs: nat)

  datatype Step =
    | CallP(t: Tid) | CallV(t: Tid)
    | Lock(t: Tid)
    | Test(t: Tid)
    | Bump(t: Tid) | WakeOne(t: Tid)
    | Unlock(t: Tid)

  function At(s: Sem, t: Tid): Pc {
    if t in s.pc then s.pc[t] else Outside
  }

  function Move(s: Sem, t: Tid, pc: Pc): Sem {
    s.(pc := s.pc[t := pc])
  }

  predicate Enabled(s: Sem, st: Step) {
    match st
    case CallP(t) => At(s, t) == Outside
    case CallV(t) => At(s, t) == Outside
    case Lock(t) => s.lock == Nobody && (At(s, t) == PEnter || At(s, t) == PWoken || At(s, t) == VEnter)
    case Test(t) => At(s, t) == PTest || At(s, t) == PRetest
    case Bump(t) => At(s, t) == VHeld
    case WakeOne(t) => At(s, t) == VBumped
    case Unlock(t) => At(s, t) == PTook || At(s, t) == VWoke
  }

  function Next(s: Sem, st: Step): Sem
    requires Enabled(s, st)
  {
    match st
    case CallP(t) => Move(s, t, PEnter)
    case CallV(t) => Move(s, t, VEnter)
    case Lock(t) =>
      Move(s, t, if At(s, t) == PEnter then PTest else if At(s, t) == PWoken then PRetest else VHeld).(lock := By(t))
    case Test(t) =>
      // `wchan_sleep` puts the thread on the channel before it gives up the lock
      if s.count == 0 then Move(s, t, PAsleep).(channel := s.channel + [t], lock := Nobody)
      else Move(s, t, PTook).(count := s.count - 1)
    case Bump(t) => Move(s, t, VBumped).(count := s.count + 1)
    case WakeOne(t) =>
      if s.channel == [] then Move(s, t, VWoke)
      else Move(Move(s, t, VWoke), s.channel[0], PWoken).(channel := s.channel[1..])
    case Unlock(t) =>
      if At(s, t) == PTook then Move(s, t, Outside).(lock := Nobody, ps := s.ps + 1)
      else Move(s, t, Outside).(lock := Nobody, vs := s.vs + 1)
  }

  /** `sem_create`. */
  function Created(initial: nat): Sem {
    Sem(initial, initial, [], Nobody, map[], 0, 0)
  }

  predicate HoldsLock(pc: Pc) {
    pc.PTest? || pc.PRetest? || pc.PTook? || pc.VHeld? || Counting(pc)
  }

  /** In `V`, past the increment. */
  predicate Counting(pc: Pc) {
    pc.VBumped? || pc.VWoke?
  }

  /** Woken, and yet to test the count again. */
  predicate Waking(pc: Pc) {
    pc.PWoken? || pc.PRetest?
  }

  /** Threads woken that have not tested the count again. */
  function Pending(s: Sem): set<Tid> {
    set t | t in s.pc && Waking(s.pc[t])
  }

  function HolderPc(s: Sem): Pc {
    if s.lock == Nobody then Outside else At(s, s.lock.t)
  }

  /** The threads on the channel are those asleep, each once. */
  ghost predicate ChannelOk(s: Sem) {
    && (forall i :: 0 <= i < |s.channel| ==> At(s, s.channel[i]) == PAsleep)
    && (forall t :: t in s.pc && s.pc[t] == PAsleep ==> t in s.channel)
    && (forall i, j :: 0 <= i < j < |s.channel| ==> s.channel[i] != s.channel[j])
  }

  ghost predicate Inv(s: Sem) {
    && ChannelOk(s)
    && LockOk(s)
    && s.initial + s.vs + (if Counting(HolderPc(s)) then 1 else 0) == s.count + s.ps + (if HolderPc(s) == PTook then 1 else 0)
    && (s.channel != [] ==> s.count <= |Pending(s)| + (if HolderPc(s) == VBumped then 1 else 0))
  }

  /** The lock's holder is the one thread in a critical section. */
  ghost predicate LockOk(s: Sem) {
    && (forall t {:trigger s.pc[t]} :: t in s.pc && HoldsLock(s.pc[t]) ==> s.lock == By(t))
    && (s.lock != Nobody ==> HoldsLock(At(s, s.lock.t)))
  }

  /** Who holds the lock once a thread moves. */
  function HolderAfter(s: Sem, t: Tid, pc: Pc): Holder {
    if HoldsLock(pc) then By(t) else if HoldsLock(At(s, t)) then Nobody else s.lock
  }

  lemma LockMoved(s: Sem, t: Tid, pc: Pc)
    requires LockOk(s) && (HoldsLock(pc) ==> s.lock == Nobody || s.lock == By(t))
    ensures var s' := Move(s, t, pc).(lock := HolderAfter(s, t, pc));
      LockOk(s') && HolderPc(s') == if HoldsLock(pc) then pc else if HoldsLock(At(s, t)) then Outside else HolderPc(s)
    ensures HoldsLock(At(s, t)) ==> HolderPc(s) == At(s, t)
  {
  }

  lemma CreatedInv(initial: nat)
    ensures Inv(Created(initial))
  {
  }

  /** How one thread's move changes the set of pending threads. */
  lemma PendingMove(s: Sem, t: Tid, pc: Pc)
    ensures Pending(Move(s, t, pc)) == if Waking(pc) then Pending(s) + {t} else Pending(s) - {t}
  {
  }

  /** A move of a thread that is not on the channel, to a place that is not either, keeps the channel. */
  lemma ChannelKept(s: Sem, t: Tid, pc: Pc)
    requires ChannelOk(s) && At(s, t) != PAsleep && pc != PAsleep
    ensures ChannelOk(Move(s, t, pc))
  {
  }

  /** A step that only moves a thread, off the channel, among places that are not pending. */
  lemma PlainMove(s: Sem, t: Tid, pc: Pc)
    requires Inv(s) && At(s, t) != PAsleep && pc != PAsleep && !Waking(At(s, t)) && !Waking(pc)
    requires HoldsLock(pc) ==> s.lock == Nobody || s.lock == By(t)
    ensures var s' := Move(s, t, pc).(lock := HolderAfter(s, t, pc));
      ChannelOk(s') && LockOk(s') && Pending(s') == Pending(s)
      && HolderPc(s') == (if HoldsLock(pc) then pc else if HoldsLock(At(s, t)) then Outside else HolderPc(s))
  {
    ChannelKept(s, t, pc);
    LockMoved(s, t, pc);
    PendingMove(s, t, pc);
    assert Pending(s) - {t} == Pending(s);
  }

  lemma CallInv(s: Sem, t: Tid, pc: Pc)
    requires Inv(s) && At(s, t) == Outside && (pc == PEnter || pc == VEnter)
    ensures Inv(Move(s, t, pc))
  {
    PlainMove(s, t, pc);
  }

  lemma LockInv(s: Sem, t: Tid)
    requires Inv(s) && Enabled(s, Lock(t))
    ensures Inv(Next(s, Lock(t)))
  {
    var pc := Next(s, Lock(t)).pc[t];
    ChannelKept(s, t, pc);
    LockMoved(s, t, pc);
    PendingMove(s, t, pc);
    assert Pending(Move(s, t, pc)) == Pending(s);
  }

  lemma TestInv(s: Sem, t: Tid)
    requires Inv(s) && Enabled(s, Test(t))
    ensures Inv(Next(s, Test(t)))
  {
    var s' := Next(s, Test(t));
    LockMoved(s, t, s'.pc[t]);
    PendingMove(s, t, s'.pc[t]);
    assert Pending(s') == Pending(s) - {t};
    if s.count == 0 {
      assert s'.channel[|s.channel|] == t;
      assert forall i :: 0 <= i < |s.channel| ==> s'.channel[i] == s.channel[i];
    }
  }

  lemma BumpInv(s: Sem, t: Tid)
    requires Inv(s) && Enabled(s, Bump(t))
    ensures Inv(Next(s, Bump(t)))
  {
    PlainMove(s, t, VBumped);
  }

  /** The head of the channel leaves it and becomes pending. */
  lemma HeadWoken(s: Sem)
    requires ChannelOk(s) && s.channel != []
    ensures var s' := Move(s, s.channel[0], PWoken).(channel := s.channel[1..]);
      ChannelOk(s') && |Pending(s')| == |Pending(s)| + 1
  {
    var w := s.channel[0];
    var s' := Move(s, w, PWoken).(channel := s.channel[1..]);
    assert At(s, w) == PAsleep;
    PendingMove(s, w, PWoken);
    assert Pending(s') == Pending(s) + {w};
    forall t | t in s'.pc && s'.pc[t] == PAsleep ensures t in s'.channel {
      assert t in s.channel;
    }
  }

  lemma WakeOneInv(s: Sem, t: Tid)
    requires Inv(s) && Enabled(s, WakeOne(t))
    ensures Inv(Next(s, WakeOne(t)))
  {
    var s1 := Move(s, t, VWoke);
    PlainMove(s, t, VWoke);
    if s.channel != [] {
      HeadWoken(s1);
      LockMoved(s1, s.channel[0], PWoken);
    }
  }

  lemma UnlockInv(s: Sem, t: Tid)
    requires Inv(s) && Enabled(s, Unlock(t))
    ensures Inv(Next(s, Unlock(t)))
  {
    PlainMove(s, t, Outside);
  }

  lemma StepInv(s: Sem, st: Step)
    requires Inv(s) && Enabled(s, st)
    ensures Inv(Next(s, st))
  {
    match st
    case Test(t) => TestInv(s, t);
    case Bump(t) => BumpInv(s, t);
    case WakeOne(t) => WakeOneInv(s, t);
    case Unlock(t) => UnlockInv(s, t);
    case CallP(t) => CallInv(s, t, PEnter);
    case CallV(t) => CallInv(s, t, VEnter);
    case Lock(t) => LockInv(s, t);
  }

  // ---- runs ----

  predicate Runs(s: Sem, steps: seq<Step>)
    decreases |steps|
  {
    steps == [] || (Enabled(s, steps[0]) && Runs(Next(s, steps[0]), steps[1..]))
  }

  ghost function After(s: Sem, steps: seq<Step>): Sem
    requires Runs(s, steps)
    decreases |steps|
  {
    if steps == [] then s else After(Next(s, steps[0]), steps[1..])
  }

  lemma {:induction false} RunInv(s: Sem, steps: seq<Step>)
    requires Inv(s) && Runs(s, steps)
    ensures Inv(After(s, steps))
    decreases |steps|
  {
    if steps != [] {
      StepInv(s, steps[0]);
      RunInv(Next(s, steps[0]), steps[1..]);
    }
  }

  /**
   * In any run of any number of threads: the count is the initial count plus
   * completed `V`s minus completed `P`s whenever nobody holds the lock;
   * and whenever a thread is asleep, the count is covered by threads already
   * woken that have yet to test it, or by the wakeup a `V` holding the lock
   * is about to make, so no wakeup is lost. In particular
   * nobody sleeps on a positive count once all woken threads have tested.
   */
  lemma NoLostWakeup(initial: nat, steps: seq<Step>)
    requires Runs(Created(initial), steps)
    ensures var s := After(Created(initial), steps);
      && (s.lock == Nobody ==> s.initial + s.vs == s.count + s.ps)
      && (s.channel != [] ==> s.count <= |Pending(s)| + (if HolderPc(s) == VBumped then 1 else 0))
      && (s.lock == Nobody && s.channel != [] ==> s.count <= |Pending(s)|)
      && (s.lock == Nobody && Pending(s) == {} && s.channel != [] ==> s.count == 0)
      && (forall t, u :: t in s.pc && u in s.pc && HoldsLock(s.pc[t]) && HoldsLock(s.pc[u]) ==> t == u)
  {
    CreatedInv(initial);
    RunInv(Created(initial), steps);
  }

  /** `V`s never fail to be counted: no more `P`s complete than the initial count and the `V`s begun allow. */
  lemma NeverOverdrawn(initial: nat, steps: seq<Step>)
    requires Runs(Created(initial), steps)
    ensures var s := After(Created(initial), steps);
      s.ps <= initial + s.vs + (if Counting(HolderPc(s)) then 1 else 0)
  {
    CreatedInv(initial);
    RunInv(Created(initial), steps);
    InitialKept(Created(initial), steps);
  }

  lemma {:induction false} InitialKept(s: Sem, steps: seq<Step>)
    requires Runs(s, steps)
    ensures After(s, steps).initial == s.initial
    decreases |steps|
  {
    if steps != [] {
      InitialKept(Next(s, steps[0]), steps[1..]);
    }
  }

  // ---- who sleeps and who is woken ----

  /** The threads asleep before and not after. */
  function Awoken(s: Sem, s': Sem): set<Tid> {
    set t | t in s.pc && s.pc[t] == PAsleep && At(s', t) != PAsleep
  }

  /** The threads asleep after and not before. */
  function FellAsleep(s: Sem, s': Sem): set<Tid> {
    set t | t in s'.pc && s'.pc[t] == PAsleep && At(s, t) != PAsleep
  }

  /** A thread goes to sleep exactly by testing a count of 0, and then last on the channel; only `wchan_wakeone` wakes, and only the first. */
  lemma WhoWakes(s: Sem, st: Step)
    requires Inv(s) && Enabled(s, st)
    ensures var s' := Next(s, st);
      && Awoken(s, s') == (if st.WakeOne? && s.channel != [] then {s.channel[0]} else {})
      && FellAsleep(s, s') == (if st.Test? && s.count == 0 then {st.t} else {})
      && (st.Test? && s.count == 0 ==> s'.channel == s.channel + [st.t])
      && (st.WakeOne? && s.channel != [] ==> s'.channel == s.channel[1..])
      && (!(st.Test? && s.count == 0) && !(st.WakeOne? && s.channel != []) ==> s'.channel == s.channel)
      && s'.count == s.count + (if st.Bump? then 1 else 0) - (if st.Test? && s.count > 0 then 1 else 0)
  {
  }

  /** The thread that goes to sleep in a step, if any, and the one that is woken. */
  function SleepsNow(s: Sem, st: Step): seq<Tid> {
    if st.Test? && s.count == 0 then [st.t] else []
  }

  function WakesNow(s: Sem, st: Step): seq<Tid> {
    if st.WakeOne? && s.channel != [] then [s.channel[0]] else []
  }

  lemma ChannelStep(s: Sem, st: Step)
    requires Inv(s) && Enabled(s, st)
    ensures s.channel + SleepsNow(s, st) == WakesNow(s, st) + Next(s, st).channel
  {
    WhoWakes(s, st);
  }

  /** The threads that go to sleep in a run, in order. */
  function Slept(s: Sem, steps: seq<Step>): seq<Tid>
    requires Runs(s, steps)
    decreases |steps|
  {
    if steps == [] then [] else SleepsNow(s, steps[0]) + Slept(Next(s, steps[0]), steps[1..])
  }

  /** The threads woken in a run, in order. */
  function Woken(s: Sem, steps: seq<Step>): seq<Tid>
    requires Runs(s, steps)
    decreases |steps|
  {
    if steps == [] then [] else WakesNow(s, steps[0]) + Woken(Next(s, steps[0]), steps[1..])
  }

  lemma InOrder(a: seq<Tid>, b: seq<Tid>, c: seq<Tid>, d: seq<Tid>, e: seq<Tid>, f: seq<Tid>, g: seq<Tid>)
    requires a + b == c + d && d + e == f + g
    ensures a + (b + e) == (c + f) + g
  {
    assert a + (b + e) == (a + b) + e;
    assert (c + d) + e == c + (d + e);
    assert c + (f + g) == (c + f) + g;
  }

  /** Sleepers are woken in the order in which they went to sleep. */
  lemma {:induction false} WokenInOrder(s: Sem, steps: seq<Step>)
    requires Inv(s) && Runs(s, steps)
    ensures s.channel + Slept(s, steps) == Woken(s, steps) + After(s, steps).channel
    decreases |steps|
  {
    if steps != [] {
      var st, rest := steps[0], steps[1..];
      var s' := Next(s, st);
      ChannelStep(s, st);
      StepInv(s, st);
      WokenInOrder(s', rest);
      InOrder(s.channel, SleepsNow(s, st), WakesNow(s, st), s'.channel, Slept(s', rest), Woken(s', rest), After(s', rest).channel);
    }
  }

  /** Progress: unless every thread is outside or asleep on an empty semaphore, some step can be taken. */
  lemma SomebodyCanMove(s: Sem, t: Tid)
    requires Inv(s) && At(s, t) != Outside && At(s, t) != PAsleep
    ensures exists st: Step :: !st.CallP? && !st.CallV? && Enabled(s, st)
  {
    if s.lock == Nobody {
      assert Enabled(s, Lock(t));
    } else {
      var u := s.lock.t;
      var st := match At(s, u)
        case PTest => Test(u)
        case PRetest => Test(u)
        case VHeld => Bump(u)
        case VBumped => WakeOne(u)
        case _ => Unlock(u);
      assert Enabled(s, st);
    }
  }
}
