/** Interrupt levels and spinlocks across context switches (kern/thread/spl.c, spinlock.c, thread.c). */
module Interrupts {

  // ---- the operations on one processor, in place ----

  class ThreadState {
    var iplhighCount: nat
    var high: bool

    /** `thread_create`: the level is high, and counted once. */
    constructor ()
      ensures iplhighCount == 1 && high
    {
      iplhighCount, high := 1, true;
    }
  }

  class Spinlock {
    var word: bool
    var holder: Processor?

    /** `spinlock_init`. */
    constructor ()
      ensures !word && holder == null
    {
      word, holder := false, null;
    }
  }

  class Processor {
    var curthread: ThreadState
    var spinlocks: nat
    var irqOn: bool

    constructor (t: ThreadState)
      requires t.iplhighCount == 1 && t.high
      ensures curthread == t && spinlocks == 0 && !irqOn && Balanced()
    {
      curthread, spinlocks, irqOn := t, 0, false;
    }

    /** The running thread's count is its spinlocks, plus one if its level is high; interrupts are off exactly when it is positive. */
    predicate Balanced()
      reads this, curthread
    {
      && curthread.iplhighCount == spinlocks + (if curthread.high then 1 else 0)
      && (irqOn <==> curthread.iplhighCount == 0)
    }

    /** `splraise`. */
    method SplRaise()
      requires irqOn <==> curthread.iplhighCount == 0
      modifies this`irqOn, curthread`iplhighCount
      ensures curthread.iplhighCount == old(curthread.iplhighCount) + 1 && !irqOn
    {
      if curthread.iplhighCount == 0 {
        irqOn := false;
      }
      curthread.iplhighCount := curthread.iplhighCount + 1;
    }

    /** `spllower`. */
    method SplLower()
      requires curthread.iplhighCount > 0 && !irqOn
      modifies this`irqOn, curthread`iplhighCount
      ensures curthread.iplhighCount == old(curthread.iplhighCount) - 1
      ensures irqOn <==> curthread.iplhighCount == 0
    {
      curthread.iplhighCount := curthread.iplhighCount - 1;
      if curthread.iplhighCount == 0 {
        irqOn := true;
      }
    }

    /** `splx`. */
    method Splx(high: bool) returns (was: bool)
      requires Balanced()
      modifies this`irqOn, curthread
      ensures Balanced() && curthread.high == high && was == old(curthread.high)
    {
      was := curthread.high;
      if !curthread.high && high {
        SplRaise();
        curthread.high := high;
      } else if curthread.high && !high {
        curthread.high := high;
        SplLower();
      }
    }

    /** `spinlock_acquire`, from the moment the lock is found free. */
    method Acquire(l: Spinlock)
      requires Balanced() && !l.word && l.holder != this
      modifies this`irqOn, this`spinlocks, curthread`iplhighCount, l
      ensures Balanced() && !irqOn && spinlocks == old(spinlocks) + 1 && l.word && l.holder == this
    {
      SplRaise();
      spinlocks := spinlocks + 1;
      l.word := true;
      l.holder := this;
    }

    /** `spinlock_release`. */
    method Release(l: Spinlock)
      requires Balanced() && l.holder == this && spinlocks > 0
      modifies this`irqOn, this`spinlocks, curthread`iplhighCount, l
      ensures Balanced() && spinlocks == old(spinlocks) - 1 && !l.word && l.holder == null
    {
      spinlocks := spinlocks - 1;
      l.holder := null;
      l.word := false;
      SplLower();
    }

    /**
     * The part of `thread_switch` from the choice of the next thread on: the
     * run queue's lock, taken by the old thread, is released by the new one,
     * whose level then goes back to what it was when it last ran.
     */
    method SwitchTo(next: ThreadState, runqueue: Spinlock, level: bool)
      requires Balanced() && spinlocks == 1 && curthread.high && runqueue.holder == this
      requires next != curthread && Resumable(next)
      modifies this, next, runqueue
      ensures Resumable(old(curthread))
      ensures curthread == next && Balanced() && spinlocks == 0 && runqueue.holder == null
      ensures next.high == level && next.iplhighCount == if level then 1 else 0
    {
      curthread := next;
      Release(runqueue);
      var _ := Splx(level);
    }
  }

  /** A thread that has been switched out, or forked and not yet run. */
  predicate Resumable(t: ThreadState)
    reads t
  {
    t.iplhighCount == 2 && t.high
  }

  /** The accounting in `thread_fork`. */
  method ForkState() returns (t: ThreadState)
    ensures fresh(t) && Resumable(t)
  {
    t := new ThreadState();
    t.iplhighCount := t.iplhighCount + 1;
  }
}
