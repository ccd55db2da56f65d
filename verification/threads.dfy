/**
 * Threads on run queues, wait channels and zombie lists: the state, the
 * steps of every processor, and what runs keep (kern/thread/thread.c).
 */
module Threads {

  type Tid = nat
  type Cid = nat
  type Wid = nat

  datatype RunState = Ready | Running | Sleeping | Zombie

  datatype Thread = Thread(state: RunState, cpu: Cid)

  /** The thread lists; `Waking` and `Victims` are the private lists of `wchan_wakeall` and of migration on a processor. */
  datatype Place = RunQueue(c: Cid) | Channel(w: Wid) | Zombies(c: Cid) | Waking(c: Cid) | Victims(c: Cid)

  /** How far a processor is with `thread_consider_migration`. */
  datatype Migration =
    | NotMigrating
    | Counting(i: nat, total: nat, mine: nat)
    | Sending(i: nat, share: nat, toSend: nat)

  /** A processor; while it is idle, `cur` is the thread on whose stack it idles. */
  datatype Cpu = Cpu(cur: Tid, idle: bool, mig: Migration)

  /** `broken` is set by a failed assertion and by the use of a null thread. */
  datatype Sys = Sys(threads: map<Tid, Thread>, cpus: seq<Cpu>, lists: map<Place, seq<Tid>>, broken: bool)

  // ---- lists ----

  function At(ls: map<Place, seq<Tid>>, p: Place): seq<Tid> {
    if p in ls then ls[p] else []
  }

  function On(s: Sys, p: Place): seq<Tid> {
    At(s.lists, p)
  }

  predicate Listed(ls: map<Place, seq<Tid>>, t: Tid) {
    exists p :: p in ls && t in ls[p]
  }

  function Cut(l: seq<Tid>, k: nat): seq<Tid>
    requires k < |l|
  {
    l[..k] + l[k + 1..]
  }

  /** Thread `On(s, p)[k]` moves to the head or tail of list `q`, with its record rewritten. */
  function Shift(s: Sys, p: Place, k: nat, q: Place, atTail: bool, r: Thread): Sys
    requires k < |On(s, p)| && p != q
  {
    var t := On(s, p)[k];
    s.(lists := s.lists[p := Cut(On(s, p), k)][q := if atTail then On(s, q) + [t] else [t] + On(s, q)],
       threads := s.threads[t := r])
  }

  /** A thread on no list joins the tail of one, with its record rewritten. */
  function Join(s: Sys, q: Place, t: Tid, r: Thread): Sys {
    s.(lists := s.lists[q := On(s, q) + [t]], threads := s.threads[t := r])
  }

  function WithCpu(s: Sys, c: Cid, cpu: Cpu): Sys
    requires c < |s.cpus|
  {
    s.(cpus := s.cpus[c := cpu])
  }

  // ---- steps ----

  /** The new state of a thread that calls `thread_switch`. */
  datatype Leaving = Yield | Sleep(w: Wid) | Exit

  datatype Step =
    | Fork(c: Cid, t: Tid)
    | Leave(c: Cid, how: Leaving)
    | Dispatch(c: Cid)
    | Reap(c: Cid)
    | WakeOne(w: Wid)
    | GrabAll(c: Cid, w: Wid)
    | WakeNext(c: Cid)
    | StartMigration(c: Cid)
    | CountNext(c: Cid)
    | Decide(c: Cid)
    | SendNext(c: Cid)
    | Finish(c: Cid)

  predicate Usual(s: Sys, c: Cid) {
    c < |s.cpus| && s.cpus[c].mig == NotMigrating
  }

  predicate Enabled(s: Sys, st: Step) {
    match st
    case Fork(c, t) => Usual(s, c) && !s.cpus[c].idle && t !in s.threads
    case Leave(c, _) => Usual(s, c) && !s.cpus[c].idle
    case Dispatch(c) => Usual(s, c) && s.cpus[c].idle && On(s, RunQueue(c)) != []
    case Reap(c) => Usual(s, c) && !s.cpus[c].idle && On(s, Zombies(c)) != []
    case WakeOne(w) => On(s, Channel(w)) != []
    case GrabAll(c, w) => Usual(s, c) && On(s, Waking(c)) == []
    case WakeNext(c) => On(s, Waking(c)) != []
    case StartMigration(c) => Usual(s, c)
    case CountNext(c) => c < |s.cpus| && s.cpus[c].mig.Counting? && s.cpus[c].mig.i < |s.cpus|
    case Decide(c) => c < |s.cpus| && s.cpus[c].mig.Counting? && s.cpus[c].mig.i == |s.cpus|
    case SendNext(c) => c < |s.cpus| && s.cpus[c].mig.Sending? && s.cpus[c].mig.i < |s.cpus| && s.cpus[c].mig.toSend > 0
    case Finish(c) => c < |s.cpus| && s.cpus[c].mig.Sending? && (s.cpus[c].mig.i >= |s.cpus| || s.cpus[c].mig.toSend == 0)
  }

  /** `thread_make_runnable` for the head of a list of sleepers. */
  function MakeRunnable(s: Sys, p: Place): Sys
    requires On(s, p) != [] && !p.RunQueue?
  {
    var t := On(s, p)[0];
    if t !in s.threads then s.(broken := true)
    else Shift(s, p, 0, RunQueue(s.threads[t].cpu), true, s.threads[t].(state := Ready))
  }

  /** `thread_switch` up to the choice of the next thread. */
  function LeaveCpu(s: Sys, c: Cid, how: Leaving): Sys
    requires c < |s.cpus|
  {
    var cur := s.cpus[c].cur;
    if cur !in s.threads then s.(broken := true)
    else
      var th := s.threads[cur];
      var s1 := WithCpu(s, c, s.cpus[c].(idle := true));
      match how
      case Yield => if On(s, RunQueue(c)) == [] then s else Join(s1, RunQueue(th.cpu), cur, th.(state := Ready))
      case Sleep(w) => Join(s1, Channel(w), cur, th.(state := Sleeping))
      case Exit => Join(s1, Zombies(c), cur, th.(state := Zombie))
  }

  /** The rest of `thread_switch`: the head of the run queue runs. */
  function DispatchNext(s: Sys, c: Cid): Sys
    requires c < |s.cpus| && On(s, RunQueue(c)) != []
  {
    var t := On(s, RunQueue(c))[0];
    if t !in s.threads then s.(broken := true)
    else
      s.(lists := s.lists[RunQueue(c) := On(s, RunQueue(c))[1..]],
         threads := s.threads[t := s.threads[t].(state := Running)],
         cpus := s.cpus[c := s.cpus[c].(cur := t, idle := false)])
  }

  /** One turn of the loop of `exorcise`, with its assertions. */
  function ReapOne(s: Sys, c: Cid): Sys
    requires c < |s.cpus| && On(s, Zombies(c)) != []
  {
    var z := On(s, Zombies(c))[0];
    if z == s.cpus[c].cur || z !in s.threads || s.threads[z].state != Zombie then s.(broken := true)
    else s.(lists := s.lists[Zombies(c) := On(s, Zombies(c))[1..]], threads := s.threads - {z})
  }

  /** The loop of `wchan_wakeall` that moves the sleepers to a private list. */
  function Grab(s: Sys, c: Cid, w: Wid): Sys
    decreases |On(s, Channel(w))|
  {
    if On(s, Channel(w)) == [] then s
    else
      var t := On(s, Channel(w))[0];
      if t !in s.threads then s.(broken := true)
      else Grab(Shift(s, Channel(w), 0, Waking(c), true, s.threads[t]), c, w)
  }

  // ---- migration ----

  function CeilDiv(a: nat, b: nat): nat
    requires b > 0
  {
    (a + b - 1) / b
  }

  /** `n` threads from the tail of the caller's queue to the head of the victims. */
  function TakeVictims(s: Sys, c: Cid, n: nat): (r: Sys)
    ensures r.cpus == s.cpus
    decreases n
  {
    if n == 0 then s
    else
      var q := On(s, RunQueue(c));
      if q == [] || q[|q| - 1] !in s.threads then s.(broken := true)
      else TakeVictims(Shift(s, RunQueue(c), |q| - 1, Victims(c), false, s.threads[q[|q| - 1]]), c, n - 1)
  }

  /** The thread of the victims' head goes to processor `d`, unless it is the current thread, which goes to the tail. */
  function SendOne(s: Sys, c: Cid, d: Cid): Sys
    requires c < |s.cpus| && On(s, Victims(c)) != []
  {
    var t := On(s, Victims(c))[0];
    if t !in s.threads then s.(broken := true)
    else if t == s.cpus[c].cur then s.(lists := s.lists[Victims(c) := On(s, Victims(c))[1..] + [t]])
    else Shift(s, Victims(c), 0, RunQueue(d), true, s.threads[t].(cpu := d))
  }

  /** The inner loop: fill processor `d` up to the share. */
  function SendTo(s: Sys, c: Cid, d: Cid, share: nat, toSend: nat): (r: (Sys, nat))
    requires c < |s.cpus|
    ensures r.0.cpus == s.cpus && r.1 <= toSend
    decreases toSend
  {
    if |On(s, RunQueue(d))| >= share || toSend == 0 then (s, toSend)
    else if On(s, Victims(c)) == [] then (s.(broken := true), toSend)
    else SendTo(SendOne(s, c, d), c, d, share, toSend - 1)
  }

  /** The victims left over go back to the caller's queue. */
  function Return(s: Sys, c: Cid): (r: Sys)
    ensures r.cpus == s.cpus
    decreases |On(s, Victims(c))|
  {
    if On(s, Victims(c)) == [] then s
    else
      var t := On(s, Victims(c))[0];
      if t !in s.threads then s.(broken := true)
      else Return(Shift(s, Victims(c), 0, RunQueue(c), true, s.threads[t]), c)
  }

  function WithMig(s: Sys, c: Cid, mig: Migration): Sys
    requires c < |s.cpus|
  {
    WithCpu(s, c, s.cpus[c].(mig := mig))
  }

  function Next(s: Sys, st: Step): Sys
    requires Enabled(s, st)
  {
    match st
    case Fork(c, t) =>
      if s.cpus[c].cur !in s.threads then s.(broken := true)
      else
        var d := s.threads[s.cpus[c].cur].cpu;
        Join(s, RunQueue(d), t, Thread(Ready, d))
    case Leave(c, how) => LeaveCpu(s, c, how)
    case Dispatch(c) => DispatchNext(s, c)
    case Reap(c) => ReapOne(s, c)
    case WakeOne(w) => MakeRunnable(s, Channel(w))
    case GrabAll(c, w) => Grab(s, c, w)
    case WakeNext(c) => MakeRunnable(s, Waking(c))
    case StartMigration(c) => WithMig(s, c, Counting(0, 0, 0))
    case CountNext(c) =>
      var m := s.cpus[c].mig;
      var n := |On(s, RunQueue(m.i))|;
      WithMig(s, c, Counting(m.i + 1, m.total + n, if m.i == c then n else m.mine))
    case Decide(c) =>
      var m := s.cpus[c].mig;
      var share := CeilDiv(m.total, |s.cpus|);
      if m.mine < share then WithMig(s, c, NotMigrating)
      else WithMig(TakeVictims(s, c, m.mine - share), c, Sending(0, share, m.mine - share))
    case SendNext(c) =>
      var m := s.cpus[c].mig;
      if m.i == c then WithMig(s, c, Sending(m.i + 1, m.share, m.toSend))
      else
        var (s1, n) := SendTo(s, c, m.i, m.share, m.toSend);
        WithMig(s1, c, Sending(m.i + 1, m.share, n))
    case Finish(c) => WithMig(Return(s, c), c, NotMigrating)
  }

  // ---- what every run keeps ----

  ghost predicate Distinct(l: seq<Tid>) {
    forall i, j :: 0 <= i < j < |l| ==> l[i] != l[j]
  }

  ghost predicate Apart(a: seq<Tid>, b: seq<Tid>) {
    forall t :: t in a ==> t !in b
  }

  /** No thread is on two lists, or twice on one. */
  ghost predicate Once(ls: map<Place, seq<Tid>>) {
    && (forall p {:trigger Distinct(ls[p])} :: p in ls ==> Distinct(ls[p]))
    && (forall p, q {:trigger Apart(ls[p], ls[q])} :: p in ls && q in ls && p != q ==> Apart(ls[p], ls[q]))
  }

  /** What a list says of a thread on it; a ready thread is on the run queue of its own processor. */
  predicate Fits(p: Place, th: Thread) {
    match p
    case RunQueue(c) => th == Thread(Ready, c)
    case Channel(_) => th.state == Sleeping
    case Zombies(c) => th == Thread(Zombie, c)
    case Waking(_) => th.state == Sleeping
    case Victims(c) => th == Thread(Ready, c)
  }

  ghost predicate AllFit(s: Sys) {
    forall p, t :: p in s.lists && t in s.lists[p] ==> t in s.threads && Fits(p, s.threads[t])
  }

  predicate RunsOn(s: Sys, t: Tid) {
    exists c :: 0 <= c < |s.cpus| && s.cpus[c].cur == t && !s.cpus[c].idle
  }

  /** Every thread is on a list or running: none is lost. */
  ghost predicate Complete(s: Sys) {
    forall t {:trigger Listed(s.lists, t)} {:trigger RunsOn(s, t)} :: t in s.threads ==> Listed(s.lists, t) || RunsOn(s, t)
  }

  /** A processor's current thread belongs to it, and is on a list exactly when the processor is idle. */
  ghost predicate CpuOk(s: Sys, c: Cid)
    requires c < |s.cpus|
  {
    var cur := s.cpus[c].cur;
    && cur in s.threads && s.threads[cur].cpu == c
    && (!s.cpus[c].idle ==> s.threads[cur].state == Running && !Listed(s.lists, cur))
  }

  ghost predicate CpusOk(s: Sys) {
    forall c :: 0 <= c < |s.cpus| ==> CpuOk(s, c)
  }

  ghost predicate Homed(s: Sys) {
    forall t :: t in s.threads ==> s.threads[t].cpu < |s.cpus|
  }

  /** A migrating processor has as many victims as it still wants to send, and its own queue has not shrunk since it was counted. */
  ghost predicate MigOk(s: Sys, c: Cid)
    requires c < |s.cpus|
  {
    match s.cpus[c].mig
    case NotMigrating => On(s, Victims(c)) == []
    case Counting(i, _, mine) => On(s, Victims(c)) == [] && i <= |s.cpus| && (if i <= c then mine == 0 else mine <= |On(s, RunQueue(c))|)
    case Sending(i, _, toSend) => i <= |s.cpus| && toSend <= |On(s, Victims(c))|
  }

  ghost predicate MigsOk(s: Sys) {
    forall c :: 0 <= c < |s.cpus| ==> MigOk(s, c)
  }

  ghost predicate ListsOk(s: Sys) {
    Once(s.lists) && AllFit(s) && Homed(s) && !s.broken
  }

  ghost predicate Inv(s: Sys) {
    ListsOk(s) && Complete(s) && CpusOk(s) && MigsOk(s)
  }

  // ---- moves between lists ----

  lemma CutKeeps(l: seq<Tid>, k: nat)
    requires k < |l| && Distinct(l)
    ensures Distinct(Cut(l, k)) && l[k] !in Cut(l, k)
    ensures forall t :: t in Cut(l, k) <==> t in l && t != l[k]
  {
    forall t | t in l && t != l[k] ensures t in Cut(l, k) {
      var i :| 0 <= i < |l| && l[i] == t;
      assert Cut(l, k)[if i < k then i else i - 1] == t;
    }
  }

  /** A list without the thread at `k`, in its place. */
  lemma TakeOut(ls: map<Place, seq<Tid>>, p: Place, k: nat)
    requires Once(ls) && p in ls && k < |ls[p]|
    ensures var ls' := ls[p := Cut(ls[p], k)];
      Once(ls') && !Listed(ls', ls[p][k]) && (forall t :: t != ls[p][k] ==> Listed(ls', t) == Listed(ls, t))
  {
    var t := ls[p][k];
    var ls' := ls[p := Cut(ls[p], k)];
    CutKeeps(ls[p], k);
    forall q | q in ls' ensures t !in ls'[q] {
      if q != p {
        assert Apart(ls[p], ls[q]);
      }
    }
    forall q, r | q in ls' && r in ls' && q != r ensures Apart(ls'[q], ls'[r]) {
      assert Apart(ls[q], ls[r]);
    }
    forall u | u != t ensures Listed(ls', u) == Listed(ls, u) {
      if Listed(ls, u) {
        var q :| q in ls && u in ls[q];
        assert q in ls' && u in ls'[q];
      }
    }
  }

  lemma HeadGone(ls: map<Place, seq<Tid>>, p: Place)
    requires Once(ls) && p in ls && ls[p] != []
    ensures var t := ls[p][0];
      var ls' := ls[p := ls[p][1..]];
      && Once(ls') && !Listed(ls', t) && (forall u :: u != t ==> Listed(ls', u) == Listed(ls, u))
      && (forall x, u :: x in ls' && u in ls'[x] ==> u != t && x in ls && u in ls[x])
  {
    TakeOut(ls, p, 0);
    assert Cut(ls[p], 0) == ls[p][1..];
  }

  function Added(l: seq<Tid>, t: Tid, atTail: bool): seq<Tid> {
    if atTail then l + [t] else [t] + l
  }

  lemma PutIn(ls: map<Place, seq<Tid>>, q: Place, t: Tid, atTail: bool)
    requires Once(ls) && !Listed(ls, t)
    ensures var ls' := ls[q := Added(At(ls, q), t, atTail)];
      Once(ls') && Listed(ls', t) && (forall u :: u != t ==> Listed(ls', u) == Listed(ls, u))
      && (forall x :: x in ls' && t in ls'[x] ==> x == q)
  {
    var l := Added(At(ls, q), t, atTail);
    var ls' := ls[q := l];
    assert q in ls ==> t !in ls[q];
    assert forall u :: u in l <==> u == t || u in At(ls, q);
    assert Distinct(l) by {
      assert Distinct(At(ls, q));
    }
    forall p, r | p in ls' && r in ls' && p != r ensures Apart(ls'[p], ls'[r]) {
      assert p in ls ==> t !in ls[p];
      assert r in ls ==> t !in ls[r];
      assert p in ls && r in ls ==> Apart(ls[p], ls[r]);
    }
    assert q in ls' && t in ls'[q];
    forall x | x in ls' && x != q ensures t !in ls'[x] {
    }
    forall u | u != t ensures Listed(ls', u) == Listed(ls, u) {
      if Listed(ls, u) {
        var p :| p in ls && u in ls[p];
        assert p in ls' && u in ls'[p];
      }
    }
  }

  ghost predicate SameListed(s: Sys, s': Sys) {
    forall u :: Listed(s'.lists, u) == Listed(s.lists, u)
  }

  /** Moving a thread between two lists keeps every thread where the lists say it is. */
  lemma ShiftLists(s: Sys, p: Place, k: nat, q: Place, atTail: bool, r: Thread)
    requires ListsOk(s) && k < |On(s, p)| && p != q && Fits(q, r) && r.cpu < |s.cpus|
    ensures var s' := Shift(s, p, k, q, atTail, r);
      && ListsOk(s') && SameListed(s, s') && s'.threads.Keys == s.threads.Keys
      && On(s, p)[k] in s.threads && Fits(p, s.threads[On(s, p)[k]])
  {
    var t := On(s, p)[k];
    var s' := Shift(s, p, k, q, atTail, r);
    var ls1 := s.lists[p := Cut(s.lists[p], k)];
    TakeOut(s.lists, p, k);
    PutIn(ls1, q, t, atTail);
    assert At(ls1, q) == On(s, q);
    assert t in s.lists[p];
    forall x, u | x in s'.lists && u in s'.lists[x] ensures u in s'.threads && Fits(x, s'.threads[u]) {
      if u != t {
        CutKeeps(s.lists[p], k);
        assert x in s.lists && u in s.lists[x];
      }
    }
  }

  /** So does putting a thread that is on no list on one. */
  lemma JoinLists(s: Sys, q: Place, t: Tid, r: Thread)
    requires ListsOk(s) && !Listed(s.lists, t) && Fits(q, r) && r.cpu < |s.cpus|
    ensures var s' := Join(s, q, t, r);
      ListsOk(s') && Listed(s'.lists, t) && (forall u :: u != t ==> Listed(s'.lists, u) == Listed(s.lists, u))
  {
    var s' := Join(s, q, t, r);
    PutIn(s.lists, q, t, true);
    forall x, u | x in s'.lists && u in s'.lists[x] ensures u in s'.threads && Fits(x, s'.threads[u]) {
      if u != t {
        assert x in s.lists && u in s.lists[x];
      }
    }
  }

  /** And taking the head of a list off, when its record no longer matters to a list. */
  lemma HeadOut(s: Sys, p: Place, threads: map<Tid, Thread>)
    requires ListsOk(s) && On(s, p) != []
    requires forall u :: u in threads ==> threads[u].cpu < |s.cpus|
    requires forall u :: u in s.threads && u != On(s, p)[0] ==> u in threads && threads[u] == s.threads[u]
    ensures var t := On(s, p)[0];
      var s' := s.(lists := s.lists[p := On(s, p)[1..]], threads := threads);
      && ListsOk(s') && !Listed(s'.lists, t) && (forall u :: u != t ==> Listed(s'.lists, u) == Listed(s.lists, u))
      && t in s.threads && Fits(p, s.threads[t])
  {
    assert On(s, p)[0] in s.lists[p];
    HeadGone(s.lists, p);
  }

  // ---- processors ----

  /** A change of lists and records that concerns no running thread. */
  ghost predicate Gentle(s: Sys, s': Sys) {
    && s'.cpus == s.cpus && SameListed(s, s') && s'.threads.Keys == s.threads.Keys
    && (forall t :: t in s.threads && !Listed(s.lists, t) ==> s'.threads[t] == s.threads[t])
    && (forall c :: 0 <= c < |s.cpus| && s.cpus[c].cur in s.threads ==> s'.threads[s.cpus[c].cur].cpu == s.threads[s.cpus[c].cur].cpu)
  }

  lemma GentleCpus(s: Sys, s': Sys)
    requires Gentle(s, s') && Complete(s) && CpusOk(s)
    ensures Complete(s') && CpusOk(s')
  {
    forall c | 0 <= c < |s'.cpus| ensures CpuOk(s', c) {
      assert CpuOk(s, c);
    }
    forall t | t in s'.threads ensures Listed(s'.lists, t) || RunsOn(s', t) {
      if RunsOn(s, t) {
        var c :| 0 <= c < |s.cpus| && s.cpus[c].cur == t && !s.cpus[c].idle;
        assert s'.cpus[c].cur == t;
      }
    }
  }

  /** A move between lists that keeps the thread's processor, or moves one that is no processor's current thread. */
  lemma ShiftGentle(s: Sys, p: Place, k: nat, q: Place, atTail: bool, r: Thread)
    requires ListsOk(s) && k < |On(s, p)| && p != q && Fits(q, r) && r.cpu < |s.cpus|
    requires var t := On(s, p)[k];
      t in s.threads && (r.cpu == s.threads[t].cpu || forall c :: 0 <= c < |s.cpus| ==> s.cpus[c].cur != t)
    ensures ListsOk(Shift(s, p, k, q, atTail, r)) && Gentle(s, Shift(s, p, k, q, atTail, r))
  {
    ShiftLists(s, p, k, q, atTail, r);
    assert Listed(s.lists, On(s, p)[k]);
  }

  lemma Member(s: Sys, p: Place, k: nat)
    requires AllFit(s) && k < |On(s, p)|
    ensures On(s, p)[k] in s.threads && Fits(p, s.threads[On(s, p)[k]]) && Listed(s.lists, On(s, p)[k])
  {
    assert p in s.lists && On(s, p)[k] in s.lists[p];
  }
}
