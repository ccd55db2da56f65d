/** The steps of one processor's migration, undisturbed, are the whole of it (kern/thread/thread.c). */
module MigrationRuns {
  import opened Threads
  import opened ThreadSteps
  import opened MigrationSteps
  import opened MigrationExact
  import opened ThreadRuns

  // ---- the progress note of a processor is no part of the moves ----

  lemma SendOneMig(s: Sys, c: Cid, d: Cid, m: Migration)
    requires c < |s.cpus| && On(s, Victims(c)) != []
    ensures SendOne(WithMig(s, c, m), c, d) == WithMig(SendOne(s, c, d), c, m)
  {
  }

  lemma {:induction false} TakeVictimsMig(s: Sys, c: Cid, n: nat, m: Migration)
    requires c < |s.cpus|
    ensures TakeVictims(WithMig(s, c, m), c, n) == WithMig(TakeVictims(s, c, n), c, m)
    decreases n
  {
    var q := On(s, RunQueue(c));
    if n > 0 && q != [] && q[|q| - 1] in s.threads {
      var s1 := Shift(s, RunQueue(c), |q| - 1, Victims(c), false, s.threads[q[|q| - 1]]);
      assert Shift(WithMig(s, c, m), RunQueue(c), |q| - 1, Victims(c), false, s.threads[q[|q| - 1]]) == WithMig(s1, c, m);
      TakeVictimsMig(s1, c, n - 1, m);
    }
  }

  lemma {:induction false} SendToMig(s: Sys, c: Cid, d: Cid, share: nat, toSend: nat, m: Migration)
    requires c < |s.cpus|
    ensures SendTo(WithMig(s, c, m), c, d, share, toSend) == (WithMig(SendTo(s, c, d, share, toSend).0, c, m), SendTo(s, c, d, share, toSend).1)
    decreases toSend
  {
    if |On(s, RunQueue(d))| < share && toSend > 0 && On(s, Victims(c)) != [] {
      SendOneMig(s, c, d, m);
      SendToMig(SendOne(s, c, d), c, d, share, toSend - 1, m);
    }
  }

  lemma {:induction false} ReturnMig(s: Sys, c: Cid, m: Migration)
    requires c < |s.cpus|
    ensures Return(WithMig(s, c, m), c) == WithMig(Return(s, c), c, m)
    decreases |On(s, Victims(c))|
  {
    var v := On(s, Victims(c));
    if v != [] && v[0] in s.threads {
      var s1 := Shift(s, Victims(c), 0, RunQueue(c), true, s.threads[v[0]]);
      assert Shift(WithMig(s, c, m), Victims(c), 0, RunQueue(c), true, s.threads[v[0]]) == WithMig(s1, c, m);
      ReturnMig(s1, c, m);
    }
  }

  lemma MigTwice(s: Sys, c: Cid, m: Migration, m': Migration)
    requires c < |s.cpus|
    ensures WithMig(WithMig(s, c, m), c, m') == WithMig(s, c, m')
    ensures m' == s.cpus[c].mig ==> WithMig(s, c, m') == s
  {
  }

  // ---- runs ----

  /** The steps lead from one state to the other. */
  ghost predicate Leads(s: Sys, steps: seq<Step>, s': Sys) {
    Feasible(s, steps) && After(s, steps) == s'
  }

  lemma LeadsOn(s: Sys, st: Step, rest: seq<Step>, s': Sys)
    requires Enabled(s, st) && Leads(Next(s, st), rest, s')
    ensures Leads(s, [st] + rest, s')
  {
    assert ([st] + rest)[1..] == rest;
  }

  /** Steps of the migration of processor `c`. */
  ghost predicate Own(c: Cid, steps: seq<Step>) {
    forall st :: st in steps ==> st in [StartMigration(c), CountNext(c), Decide(c), SendNext(c), Finish(c)]
  }

  /** The end: what has not been sent goes back. */
  lemma FinishRun(s: Sys, c: Cid, share: nat, i: nat, toSend: nat) returns (steps: seq<Step>)
    requires c < |s.cpus| && (i >= |s.cpus| || toSend == 0)
    ensures Own(c, steps) && Leads(WithMig(s, c, Sending(i, share, toSend)), steps, WithMig(Return(s, c), c, NotMigrating))
  {
    var s0 := WithMig(s, c, Sending(i, share, toSend));
    ReturnMig(s, c, Sending(i, share, toSend));
    MigTwice(Return(s, c), c, Sending(i, share, toSend), NotMigrating);
    steps := [Finish(c)] + [];
    LeadsOn(s0, Finish(c), [], WithMig(Return(s, c), c, NotMigrating));
  }

  /** The loop over the other processors, to the end. */
  lemma {:induction false} SendRun(s: Sys, c: Cid, share: nat, i: nat, toSend: nat) returns (steps: seq<Step>)
    requires c < |s.cpus| && i <= |s.cpus|
    ensures Own(c, steps)
    ensures Leads(WithMig(s, c, Sending(i, share, toSend)), steps, WithMig(Return(SendAll(s, c, i, share, toSend).0, c), c, NotMigrating))
    decreases |s.cpus| - i
  {
    if i == |s.cpus| || toSend == 0 {
      steps := FinishRun(s, c, share, i, toSend);
    } else {
      var s0 := WithMig(s, c, Sending(i, share, toSend));
      var s1, n := if i == c then s else SendTo(s, c, i, share, toSend).0, if i == c then toSend else SendTo(s, c, i, share, toSend).1;
      SendStep(s, c, share, i, toSend);
      steps := SendRun(s1, c, share, i + 1, n);
      LeadsOn(s0, SendNext(c), steps, WithMig(Return(SendAll(s, c, i, share, toSend).0, c), c, NotMigrating));
      steps := [SendNext(c)] + steps;
    }
  }

  lemma SendStep(s: Sys, c: Cid, share: nat, i: nat, toSend: nat)
    requires c < |s.cpus| && i < |s.cpus| && toSend > 0
    ensures var s0 := WithMig(s, c, Sending(i, share, toSend));
      var (s1, n) := if i == c then (s, toSend) else SendTo(s, c, i, share, toSend);
      Enabled(s0, SendNext(c)) && Next(s0, SendNext(c)) == WithMig(s1, c, Sending(i + 1, share, n))
  {
    var m := Sending(i, share, toSend);
    MigTwice(s, c, m, Sending(i + 1, share, toSend));
    SendToMig(s, c, i, share, toSend, m);
    MigTwice(SendTo(s, c, i, share, toSend).0, c, m, Sending(i + 1, share, SendTo(s, c, i, share, toSend).1));
  }

  /** The decision and all that follows. */
  lemma DecideRun(s: Sys, c: Cid) returns (steps: seq<Step>)
    requires c < |s.cpus|
    ensures Own(c, steps)
    ensures Leads(WithMig(s, c, Counting(|s.cpus|, TotalFrom(s, 0), Len(s, c))), steps, WithMig(MigrateAlone(s, c), c, NotMigrating))
  {
    var m := Counting(|s.cpus|, TotalFrom(s, 0), Len(s, c));
    var s0 := WithMig(s, c, m);
    var k := Share(s);
    if Len(s, c) < k {
      MigTwice(s, c, m, NotMigrating);
      steps := [];
    } else {
      var n := Len(s, c) - k;
      TakeVictimsMig(s, c, n, m);
      MigTwice(TakeVictims(s, c, n), c, m, Sending(0, k, n));
      steps := SendRun(TakeVictims(s, c, n), c, k, 0, n);
    }
    LeadsOn(s0, Decide(c), steps, WithMig(MigrateAlone(s, c), c, NotMigrating));
    steps := [Decide(c)] + steps;
  }

  /** How far the counting has got before processor `i`. */
  function Counted(s: Sys, c: Cid, i: nat): Migration
    requires c < |s.cpus| && i <= |s.cpus| && TotalFrom(s, i) <= TotalFrom(s, 0)
  {
    Counting(i, TotalFrom(s, 0) - TotalFrom(s, i), if i <= c then 0 else Len(s, c))
  }

  lemma CountStep(s: Sys, c: Cid, i: nat)
    requires c < |s.cpus| && i < |s.cpus| && TotalFrom(s, i) <= TotalFrom(s, 0)
    ensures TotalFrom(s, i + 1) <= TotalFrom(s, 0)
    ensures var s0 := WithMig(s, c, Counted(s, c, i));
      Enabled(s0, CountNext(c)) && Next(s0, CountNext(c)) == WithMig(s, c, Counted(s, c, i + 1))
  {
    assert TotalFrom(s, i) == Len(s, i) + TotalFrom(s, i + 1);
    MigTwice(s, c, Counted(s, c, i), Counted(s, c, i + 1));
  }

  /** The counting loop, then the rest. */
  lemma {:induction false} CountRun(s: Sys, c: Cid, i: nat) returns (steps: seq<Step>)
    requires c < |s.cpus| && i <= |s.cpus| && TotalFrom(s, i) <= TotalFrom(s, 0)
    ensures Own(c, steps) && Leads(WithMig(s, c, Counted(s, c, i)), steps, WithMig(MigrateAlone(s, c), c, NotMigrating))
    decreases |s.cpus| - i
  {
    if i == |s.cpus| {
      steps := DecideRun(s, c);
    } else {
      CountStep(s, c, i);
      steps := CountRun(s, c, i + 1);
      LeadsOn(WithMig(s, c, Counted(s, c, i)), CountNext(c), steps, WithMig(MigrateAlone(s, c), c, NotMigrating));
      steps := [CountNext(c)] + steps;
    }
  }

  lemma MigrateCpus(s: Sys, c: Cid)
    requires c < |s.cpus| && s.cpus[c].mig == NotMigrating
    ensures WithMig(MigrateAlone(s, c), c, NotMigrating) == MigrateAlone(s, c)
  {
    MigTwice(MigrateAlone(s, c), c, NotMigrating, NotMigrating);
  }

  /**
   * A processor that migrates with no other step in between does just what
   * the undisturbed migration does, which `MigrationOutcome` describes.
   */
  lemma AloneIsWhole(s: Sys, c: Cid) returns (steps: seq<Step>)
    requires Inv(s) && Enabled(s, StartMigration(c))
    ensures Own(c, steps) && Feasible(s, steps) && After(s, steps) == MigrateAlone(s, c) && Inv(After(s, steps))
  {
    steps := CountRun(s, c, 0);
    LeadsOn(s, StartMigration(c), steps, WithMig(MigrateAlone(s, c), c, NotMigrating));
    steps := [StartMigration(c)] + steps;
    MigrateCpus(s, c);
    RunInv(s, steps);
  }
}
