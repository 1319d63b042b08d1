/** What the operations of proc.c do to each process, field by field. */
module ProcEffects {
  import opened Params
  import opened Options
  import opened Scheduler
  import opened Aging
  import opened ProcTable
  import opened ProcRuns

  // ------------------------------------------------------------ waking

  /** How many of the first `k` processes sleep on `chan`. */
  function SleepersTo(procs: seq<Proc>, chan: Chan, k: nat): nat
    requires k <= |procs|
  {
    if k == 0 then 0 else SleepersTo(procs, chan, k - 1) + if procs[k - 1].state == Sleeping && procs[k - 1].chan == chan then 1 else 0
  }

  /** What wakeup, or futex_wake with a positive `limit`, has made of process `p` after `k` slots: those
      asleep on `chan` become runnable, the first `limit` of them in the order of the table. */
  function Woken(procs: seq<Proc>, chan: Chan, limit: nat, k: nat, p: nat): Proc
    requires k <= |procs| && p < |procs|
  {
    if p < k && procs[p].state == Sleeping && procs[p].chan == chan && (limit == 0 || SleepersTo(procs, chan, p) < limit)
    then procs[p].(state := Runnable) else procs[p]
  }

  /** futex_wake's answer: the number of sleepers, or the limit if that is less. */
  lemma {:induction false} WakeCount(s: Sched, chan: Chan, limit: nat, k: nat)
    requires Ok(s) && k <= |s.procs|
    ensures var m := SleepersTo(s.procs, chan, k); WakeTo(s, chan, limit, k).1 == if limit > 0 && m > limit then limit else m
  {
    hide Ok, Enqueue;
    if k > 0 {
      WakeCount(s, chan, limit, k - 1);
      WakeProc(s, chan, limit, k - 1, k - 1);
      OkProc(WakeTo(s, chan, limit, k - 1).0, k - 1);
    }
  }

  lemma {:induction false} WakeExact(s: Sched, chan: Chan, limit: nat, k: nat, p: nat)
    requires Ok(s) && k <= |s.procs| && p < |s.procs|
    ensures WakeTo(s, chan, limit, k).0.procs[p] == Woken(s.procs, chan, limit, k, p)
  {
    hide Ok, SleepersTo, Shape;
    if k > 0 {
      WakeExact(s, chan, limit, k - 1, p);
      WakeCount(s, chan, limit, k - 1);
      WakeProc(s, chan, limit, k - 1, k - 1);
      OkProc(WakeTo(s, chan, limit, k - 1).0, k - 1);
    }
  }

  /** From one table to the next: the first sleepers on `chan`, all of them if `limit` is 0, have become
      runnable, `woken` in number; nobody else has changed. */
  ghost predicate WokenFirst(before: seq<Proc>, after: seq<Proc>, chan: Chan, limit: nat, woken: nat) {
    && |after| == |before|
    && (var m := SleepersTo(before, chan, |before|); woken == if limit > 0 && m > limit then limit else m)
    && (forall p: nat :: p < |before| ==> after[p] == Woken(before, chan, limit, |before|, p))
  }

  lemma WakeSaid(s: Sched, chan: Chan, limit: nat)
    requires Ok(s)
    ensures var (t, n) := WakeTo(s, chan, limit, |s.procs|); WokenFirst(s.procs, t.procs, chan, limit, n)
  {
    hide Ok, WakeTo, Woken, SleepersTo;
    WakeCount(s, chan, limit, |s.procs|);
    forall p: nat | p < |s.procs| ensures WakeTo(s, chan, limit, |s.procs|).0.procs[p] == Woken(s.procs, chan, limit, |s.procs|, p) {
      WakeExact(s, chan, limit, |s.procs|, p);
    }
  }

  lemma WakeAllExact(s: Sched, chan: Chan, p: nat)
    requires Ok(s) && p < |s.procs|
    ensures WakeAll(s, chan).procs[p] == if s.procs[p].state == Sleeping && s.procs[p].chan == chan then s.procs[p].(state := Runnable) else s.procs[p]
  {
    hide Ok, WakeTo;
    WakeExact(s, chan, 0, |s.procs|, p);
  }

  // ------------------------------------------------------------ kill

  /** kill: the first process with the id is marked, and runnable if it was asleep. */
  lemma KillEffect(s: Sched, pid: int, p: nat)
    requires Ok(s) && p < |s.procs|
    ensures var x := s.procs[p];
            KillPid(s, pid).procs[p] ==
              if x.pid == pid && (forall q :: 0 <= q < p ==> s.procs[q].pid != pid)
              then x.(killed := true, state := if x.state == Sleeping then Runnable else x.state) else x
  {
    hide FindPid;
    var r := FindPid(s.procs, pid, 0);
    if r.Some? && r.value != p && s.procs[p].pid == pid {
      assert s.procs[r.value].pid == pid && r.value < p;
    }
  }

  lemma KilledAll(s: Sched, pid: int)
    requires Ok(s)
    ensures |KillPid(s, pid).procs| == |s.procs|
  {
  }

  // ------------------------------------------------------------ exit

  /** Among the first `k` processes is an exited child of `p`. */
  predicate DeadChildTo(procs: seq<Proc>, p: nat, k: nat)
    requires k <= |procs|
  {
    exists j :: 0 <= j < k && procs[j].parent == Some(p) && procs[j].state == Zombie
  }

  lemma {:induction false} ReparentExact(s: Sched, p: nat, init: nat, k: nat, i: nat)
    requires Ok(s) && k <= |s.procs| && i < |s.procs|
    ensures var x := s.procs[i];
            ReparentTo(s, p, init, k).procs[i] ==
              x.(parent := if i < k && x.parent == Some(p) then Some(init) else x.parent,
                 state := if x.state == Sleeping && x.chan == OfProc(init) && DeadChildTo(s.procs, p, k) then Runnable else x.state)
  {
    hide Ok, WakeTo;
    if k > 0 {
      ReparentExact(s, p, init, k - 1, i);
      ReparentExact(s, p, init, k - 1, k - 1);
      var t := ReparentTo(s, p, init, k - 1);
      var y := s.procs[k - 1];
      assert t.procs[k - 1].parent == y.parent && (t.procs[k - 1].state == Zombie <==> y.state == Zombie);
      DeadChildNext(s.procs, p, k - 1);
      if y.parent == Some(p) {
        var u := SetProc(t, k - 1, t.procs[k - 1].(parent := Some(init)));
        SetOk(t, k - 1, u.procs[k - 1]);
        if y.state == Zombie { WakeAllExact(u, OfProc(init), i); }
      }
    }
  }

  lemma DeadChildNext(procs: seq<Proc>, p: nat, k: nat)
    requires k < |procs|
    ensures DeadChildTo(procs, p, k + 1) <==> DeadChildTo(procs, p, k) || (procs[k].parent == Some(p) && procs[k].state == Zombie)
  {
  }

  lemma SetOk(t: Sched, p: nat, x: Proc)
    requires Ok(t) && p < |t.procs| && x == t.procs[p].(parent := x.parent)
    ensures Ok(SetProc(t, p, x))
  {
  }

  /** What exit of `p` makes of process `i`: `p` is a zombie with all else as it was, its children are
      init's, its parent is awake if it was in wait, and so is init if one of the children is dead. */
  function Exited(procs: seq<Proc>, p: nat, init: nat, i: nat): Proc
    requires p < |procs| && i < |procs|
  {
    var x := procs[i];
    var heard := || (procs[p].parent.Some? && x.chan == OfProc(procs[p].parent.value))
                 || (procs[p].parent.None? && x.chan == Nothing)
                 || (x.chan == OfProc(init) && DeadChildTo(procs, p, |procs|));
    x.(parent := if x.parent == Some(p) then Some(init) else x.parent,
       state := if i == p then Zombie else if x.state == Sleeping && heard then Runnable else x.state)
  }

  lemma ExitExact(s: Sched, p: nat, init: nat, i: nat)
    requires Ok(s) && p < |s.procs| && i < |s.procs|
    ensures |ExitProc(s, p, init).procs| == |s.procs| && ExitProc(s, p, init).procs[i] == Exited(s.procs, p, init, i)
  {
    hide Ok, WakeTo, ReparentTo;
    var chan := if s.procs[p].parent.Some? then OfProc(s.procs[p].parent.value) else Nothing;
    var t := WakeAll(s, chan);
    WakeAllExact(s, chan, i);
    forall j: nat | j < |s.procs| ensures t.procs[j].parent == s.procs[j].parent && (t.procs[j].state == Zombie <==> s.procs[j].state == Zombie) {
      WakeAllExact(s, chan, j);
    }
    assert DeadChildTo(t.procs, p, |t.procs|) <==> DeadChildTo(s.procs, p, |s.procs|);
    ReparentExact(t, p, init, |t.procs|, i);
  }

  // ------------------------------------------------------------ wait and join

  /** An exited child, for join a thread. */
  predicate DeadChild(procs: seq<Proc>, p: nat, threads: bool, z: nat) {
    z < |procs| && procs[z].parent == Some(p) && (threads ==> procs[z].thread) && procs[z].state == Zombie
  }

  /** Nobody whom `p` waits for has exited. */
  ghost predicate NoneDead(procs: seq<Proc>, p: nat, threads: bool) {
    forall z: nat :: !DeadChild(procs, p, threads, z)
  }

  lemma NoneDeadIs(procs: seq<Proc>, p: nat, threads: bool)
    ensures FirstZombie(procs, p, threads, 0).None? <==> NoneDead(procs, p, threads)
  {
    var r := FirstZombie(procs, p, threads, 0);
    if r.Some? { assert DeadChild(procs, p, threads, r.value); }
  }

  predicate AnyChild(procs: seq<Proc>, p: nat, threads: bool) {
    exists i :: 0 <= i < |procs| && procs[i].parent == Some(p) && (threads ==> procs[i].thread)
  }

  /** One turn of wait or join: the first exited child's slot is emptied; without one, the table stays as
      it is if there is no child or the caller was killed, and otherwise the caller sleeps on itself. */
  lemma WaitExact(s: Sys, p: nat, threads: bool)
    requires p < |s.sched.procs|
    ensures var procs, after := s.sched.procs, WaitOnce(s, p, threads).sched.procs;
            && (forall z: nat :: DeadChild(procs, p, threads, z) && (forall y: nat :: y < z ==> !DeadChild(procs, p, threads, y)) ==>
                  after == procs[z := procs[z].(state := Unused, pid := 0, parent := None, killed := false, thread := false, pgdir := None, doing := Free)])
            && (NoneDead(procs, p, threads) ==>
                  if !AnyChild(procs, p, threads) || procs[p].killed then after == procs
                  else after == procs[p := procs[p].(state := Sleeping, chan := OfProc(p))])
  {
    var procs := s.sched.procs;
    var r := FirstZombie(procs, p, threads, 0);
    hide FirstZombie, UsersTo;
    if r.Some? { assert DeadChild(procs, p, threads, r.value); }
    forall z: nat | DeadChild(procs, p, threads, z) && (forall y: nat :: y < z ==> !DeadChild(procs, p, threads, y)) ensures r == Some(z) {
    }
    assert HasChild(procs, p, threads) <==> AnyChild(procs, p, threads);
  }

  // ------------------------------------------------------------ the scheduler

  /** What a CPU picks.  From its own queues while somebody is runnable there, and else from the most
      loaded other CPU that has more than one: the first of the best level.  It starts at its base
      priority with a full slice, and nobody else changes. */
  lemma PickExact(s: Sched, self: nat)
    requires Inv(s) && self < |s.queues|
    ensures forall c, l :: 0 <= c < |s.queues| && 0 <= l < NPRIO && s.queues[c][l] != [] ==> s.queues[c][l][0] < |s.procs|
    ensures var (t, r) := Dispatch(s, self);
            match r
            case None => t == s && Nobody(s, self) && forall c: nat :: c < |s.queues| && c != self ==> Load(s.queues[c]) <= 1
            case Some(p) =>
              && s.procs[p].state == Runnable && s.procs[p].base < NPRIO
              && t.procs == s.procs[p := s.procs[p].(state := Running, rqcpu := self, prio := s.procs[p].base, waited := 0,
                                                     slice := QUANTUM_BASE * (NPRIO - s.procs[p].base))]
              && BestOf(s, s.procs[p].rqcpu, p)
              && (if Nobody(s, self) then MostLoaded(s, self, s.procs[p].rqcpu) else s.procs[p].rqcpu == self)
  {
    hide Lists;
    DispatchKeeps(s, self);
    var src := Source(s, self);
    NobodyIs(s, self);
    if src.Some? {
      var l := FirstLevel(s, src.value, 0);
      if l.Some? {
        FirstIsBest(s, src.value, l.value);
      } else {
        NoLoad(s.queues[src.value]);
      }
    }
  }

  /** Nobody is runnable on CPU `c`. */
  predicate Nobody(s: Sched, c: nat) {
    forall p :: 0 <= p < |s.procs| ==> !(s.procs[p].state == Runnable && s.procs[p].rqcpu == c)
  }

  /** `p` is first in its queue on CPU `c`, and nobody runnable there has a better level. */
  ghost predicate BestOf(s: Sched, c: nat, p: nat) {
    && p < |s.procs| && c < |s.queues| && s.procs[p].prio < |s.queues[c]|
    && s.queues[c][s.procs[p].prio] != [] && s.queues[c][s.procs[p].prio][0] == p
    && forall q :: 0 <= q < |s.procs| && s.procs[q].state == Runnable && s.procs[q].rqcpu == c ==> s.procs[p].prio <= s.procs[q].prio
  }

  /** Of the CPUs other than `self`, `c` is the first with the most processes queued, and has two or more. */
  predicate MostLoaded(s: Sched, self: nat, c: nat) {
    && c < |s.queues| && c != self && Load(s.queues[c]) > 1
    && forall d :: 0 <= d < |s.queues| && d != self ==> Load(s.queues[d]) <= Load(s.queues[c]) && (d < c ==> Load(s.queues[d]) < Load(s.queues[c]))
  }

  lemma NobodyIs(s: Sched, c: nat)
    requires Inv(s) && c < |s.queues|
    ensures Nobody(s, c) <==> FirstLevel(s, c, 0).None?
  {
    var r := FirstLevel(s, c, 0);
    if r.Some? {
      assert Lists(s.procs, s.queues[c][r.value], c, r.value);
      assert s.queues[c][r.value][0] in s.queues[c][r.value];
    } else {
      forall p | 0 <= p < |s.procs| ensures !(s.procs[p].state == Runnable && s.procs[p].rqcpu == c) {
        Queued(s, p);
      }
    }
  }

  lemma Queued(s: Sched, p: nat)
    requires Inv(s) && p < |s.procs|
    ensures var x := s.procs[p]; x.rqcpu < |s.queues| && x.prio < NPRIO && (x.state == Runnable ==> p in s.queues[x.rqcpu][x.prio])
  {
    var x := s.procs[p];
    assert Lists(s.procs, s.queues[x.rqcpu][x.prio], x.rqcpu, x.prio);
  }

  lemma FirstIsBest(s: Sched, c: nat, l: nat)
    requires Inv(s) && c < |s.queues| && FirstLevel(s, c, 0) == Some(l)
    ensures s.queues[c][l] != [] && BestOf(s, c, s.queues[c][l][0])
    ensures s.procs[s.queues[c][l][0]].state == Runnable && s.procs[s.queues[c][l][0]].rqcpu == c && s.procs[s.queues[c][l][0]].prio == l
  {
    var p := s.queues[c][l][0];
    assert Lists(s.procs, s.queues[c][l], c, l);
    assert p in s.queues[c][l];
    forall q: nat | q < |s.procs| && s.procs[q].state == Runnable && s.procs[q].rqcpu == c ensures s.procs[q].prio >= l {
      assert Lists(s.procs, s.queues[c][s.procs[q].prio], c, s.procs[q].prio);
    }
  }

  /** A tick: with the interval over, the queued processes have waited so much longer, and those that
      have waited for AGING_TICKS go up one level. */
  lemma TickExact(s: Sys, now: nat, p: nat)
    requires Inv(s.sched) && p < |s.sched.procs|
    ensures var e, x, t := (now - s.aged) % UINT, s.sched.procs[p], TickAt(s, now);
            && |t.sched.procs| == |s.sched.procs| && t.aged == (if e < AGING_INTERVAL then s.aged else now)
            && t.sched.procs[p] ==
                 if e < AGING_INTERVAL || x.state != Runnable then x
                 else if x.waited + e >= AGING_TICKS && x.prio > 0 then x.(prio := x.prio - 1, waited := 0)
                 else x.(waited := x.waited + e)
  {
    InvProc(s.sched, p);
    AgeProc(s.sched, |s.sched.queues|, (now - s.aged) % UINT, p);
  }

  /** What exec does to the table: it notes the image it makes, and at its end the directory changes. */
  lemma ExecSteps(s: Sys, v: Step)
    requires Enabled(s, v) && (v.StartExec? || v.NewImage? || v.FailExec? || v.DoneExec?)
    ensures var x, t := s.sched.procs[v.p], Apply(s, v);
            && t.sched.queues == s.sched.queues && t.nextpid == s.nextpid && t.aged == s.aged
            && match v
               case StartExec(p) => t.sched.procs in {s.sched.procs, s.sched.procs[p := x.(doing := Exec(None))]}
               case NewImage(p) => t.sched.procs == s.sched.procs[p := x.(doing := Exec(Some(s.nextdir)))]
               case FailExec(p) => t.sched.procs == s.sched.procs[p := x.(doing := Free)]
               case DoneExec(p) => t.sched.procs == s.sched.procs[p := x.(pgdir := x.doing.image, doing := Free)]
               case _ => true
  {
    hide Ok, UsersTo;
  }

  /** The timer, yield, setpriority and sleep. */
  lemma OwnSteps(s: Sys, v: Step)
    requires Enabled(s, v) && (v.Timer? || v.Yield? || v.Sleep? || v.SetPriority?)
    ensures var x, t := s.sched.procs[v.p], Apply(s, v);
            match v
            case Timer(p, c) =>
              if x.slice > 1 then t.sched == s.sched.(procs := s.sched.procs[p := x.(slice := x.slice - 1)])
              else t.sched.procs == s.sched.procs[p := x.(slice := 0, state := Runnable, rqcpu := c)]
            case Yield(p, c) =>
              && t.sched.procs == s.sched.procs[p := x.(state := Runnable, rqcpu := c)]
              && (forall d: nat, l: nat :: d < |s.sched.queues| && l < NPRIO ==>
                    t.sched.queues[d][l] == if d == c && l == x.prio then s.sched.queues[d][l] + [p] else s.sched.queues[d][l])
            case Sleep(p, chan) => t.sched == s.sched.(procs := s.sched.procs[p := x.(state := Sleeping, chan := chan)])
            case SetPriority(p, prio) =>
              if 0 <= prio < NPRIO
              then t == s.(sched := s.sched.(procs := s.sched.procs[p := x.(base := prio, prio := prio, slice := QUANTUM_BASE * (NPRIO - prio))]))
              else t == s
            case _ => true
  {
  }
}
