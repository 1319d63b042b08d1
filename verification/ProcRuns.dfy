/** What every run of the process table keeps. */
module ProcRuns {
  import opened Params
  import opened Options
  import opened Scheduler
  import opened Aging
  import opened ProcTable
  import L = Lifetimes

  // ------------------------------------------------------------ two views of the table

  function KindOf(s: PState): L.Kind {
    match s
    case Unused => L.Gone
    case Embryo => L.Baby
    case Zombie => L.Dead
    case _ => L.Live
  }

  function CoreOf(x: Proc): L.Core {
    if x.state == Unused then L.Core(L.Gone, x.parent, false, None, Free)
    else L.Core(KindOf(x.state), x.parent, x.thread, x.pgdir, x.doing)
  }

  function Cores(procs: seq<Proc>): (r: seq<L.Core>)
    ensures |r| == |procs| && forall p :: 0 <= p < |procs| ==> r[p] == CoreOf(procs[p])
  {
    seq(|procs|, p requires 0 <= p < |procs| => CoreOf(procs[p]))
  }

  function View(s: Sys): L.Spaces {
    L.Spaces(Cores(s.sched.procs), s.init, s.dirs, s.nextdir)
  }

  predicate SameTurn(a: Proc, b: Proc) {
    a.state == b.state && a.prio == b.prio && a.base == b.base && a.rqcpu == b.rqcpu && a.waited == b.waited
  }

  /** Those who are queued stay where they are; others may join behind them. */
  ghost predicate Extends(s: Sched, t: Sched) {
    && |t.procs| == |s.procs| && |t.queues| == |s.queues| && Shape(s) && Shape(t)
    && (forall p :: 0 <= p < |s.procs| && s.procs[p].state == Runnable ==> SameTurn(s.procs[p], t.procs[p]))
    && (forall c: nat, l: nat :: c < |s.queues| && l < NPRIO ==> s.queues[c][l] <= t.queues[c][l])
  }

  ghost predicate Steady(s: Sched, t: Sched) {
    Inv(t) && Extends(s, t)
  }

  lemma SteadyTrans(s: Sched, t: Sched, u: Sched)
    requires Steady(s, t) && Steady(t, u)
    ensures Steady(s, u)
  {
    hide Inv;
  }

  lemma SetSteady(s: Sched, p: nat, x: Proc)
    requires Inv(s) && p < |s.procs| && s.procs[p].state != Runnable && x.state != Runnable && ProcOk(x, |s.queues|)
    ensures Steady(s, SetProc(s, p, x))
  {
    SetKeeps(s, p, x);
  }

  /** Fields that have nothing to do with scheduling may change at any time. */
  lemma SetOther(s: Sched, p: nat, x: Proc)
    requires Inv(s) && p < |s.procs| && SameTurn(s.procs[p], x)
    ensures Steady(s, SetProc(s, p, x))
  {
    var t := SetProc(s, p, x);
    forall c: nat, l: nat | c < |s.queues| && l < NPRIO ensures Lists(t.procs, t.queues[c][l], c, l) {
      assert Lists(s.procs, s.queues[c][l], c, l);
    }
  }

  lemma EnqueueSteady(s: Sched, p: nat, c: nat)
    requires Inv(s) && p < |s.procs| && s.procs[p].state != Runnable && c < |s.queues|
    ensures Steady(s, Enqueue(s, p, c))
  {
    EnqueueKeeps(s, p, c);
  }

  lemma SteadyRefl(s: Sched)
    requires Inv(s)
    ensures Steady(s, s)
  {
  }

  lemma OkInv(s: Sched)
    requires Inv(s)
    ensures Ok(s)
  {
  }

  lemma {:induction false} WakeSteady(s: Sched, chan: Chan, limit: nat, k: nat)
    requires Inv(s) && k <= |s.procs|
    ensures Ok(s) && Steady(s, WakeTo(s, chan, limit, k).0)
  {
    OkInv(s);
    hide Steady, Enqueue, Ok, Shape;
    if k == 0 {
      SteadyRefl(s);
    } else {
      WakeSteady(s, chan, limit, k - 1);
      var t := WakeTo(s, chan, limit, k - 1).0;
      if Wakes(t.procs[k - 1], chan) {
        WakeOne(s, t, k - 1);
      }
    }
  }

  lemma WakeOne(s: Sched, t: Sched, p: nat)
    requires Steady(s, t) && p < |t.procs| && t.procs[p].state == Sleeping
    ensures Shape(t) && t.procs[p].rqcpu < |t.queues| && t.procs[p].prio < NPRIO
    ensures Steady(s, Enqueue(t, p, t.procs[p].rqcpu))
  {
    hide Lists, Extends;
    EnqueueSteady(t, p, t.procs[p].rqcpu);
    SteadyTrans(s, t, Enqueue(t, p, t.procs[p].rqcpu));
  }

  lemma WakeCores(s: Sched, chan: Chan, limit: nat, k: nat)
    requires Ok(s) && k <= |s.procs|
    ensures Cores(WakeTo(s, chan, limit, k).0.procs) == Cores(s.procs)
  {
    hide WakeTo, Ok;
    forall p: nat | p < |s.procs| ensures CoreOf(WakeTo(s, chan, limit, k).0.procs[p]) == CoreOf(s.procs[p]) {
      WakeProc(s, chan, limit, k, p);
    }
  }

  lemma {:induction false} ReparentSteady(s: Sched, p: nat, init: nat, k: nat)
    requires Inv(s) && k <= |s.procs|
    ensures Ok(s) && Steady(s, ReparentTo(s, p, init, k))
  {
    OkInv(s);
    hide Inv, Extends, WakeTo, ProcOk;
    if k == 0 {
      SteadyRefl(s);
    } else {
      ReparentSteady(s, p, init, k - 1);
      var t := ReparentTo(s, p, init, k - 1);
      if t.procs[k - 1].parent == Some(p) {
        var u := SetProc(t, k - 1, t.procs[k - 1].(parent := Some(init)));
        SetOther(t, k - 1, u.procs[k - 1]);
        SteadyTrans(s, t, u);
        if u.procs[k - 1].state == Zombie {
          WakeSteady(u, OfProc(init), 0, |u.procs|);
          SteadyTrans(s, u, WakeAll(u, OfProc(init)));
        }
      }
    }
  }

  lemma {:induction false} ReparentCores(s: Sched, p: nat, init: nat, k: nat, i: nat)
    requires Ok(s) && k <= |s.procs| && i < |s.procs|
    ensures CoreOf(ReparentTo(s, p, init, k).procs[i])
         == if i < k && s.procs[i].parent == Some(p) then CoreOf(s.procs[i]).(parent := Some(init)) else CoreOf(s.procs[i])
  {
    hide WakeTo;
    if k > 0 {
      ReparentCores(s, p, init, k - 1, i);
      ReparentCores(s, p, init, k - 1, k - 1);
      var t := ReparentTo(s, p, init, k - 1);
      if t.procs[k - 1].parent == Some(p) {
        var u := SetProc(t, k - 1, t.procs[k - 1].(parent := Some(init)));
        WakeCores(u, OfProc(init), 0, |u.procs|);
        assert Cores(WakeAll(u, OfProc(init)).procs)[i] == Cores(u.procs)[i];
      }
    }
  }

  // ------------------------------------------------------------ pgdir_users decides sharing

  lemma {:induction false} UsersCount(procs: seq<Proc>, d: nat, k: nat, p: nat)
    requires k <= |procs| && p < |procs| && procs[p].state != Unused && procs[p].pgdir == Some(d)
    ensures UsersTo(procs, Some(d), k) >= if p < k then 1 else 0
    ensures UsersTo(procs, Some(d), k) == (if p < k then 1 else 0) <==>
            forall q :: 0 <= q < k && q != p && procs[q].state != Unused ==> procs[q].pgdir != Some(d)
  {
    if k > 0 { UsersCount(procs, d, k - 1, p); }
  }

  lemma {:induction false} SoleIs(procs: seq<Proc>, p: nat)
    requires p < |procs| && procs[p].state != Unused && procs[p].pgdir.Some?
    ensures UsersTo(procs, procs[p].pgdir, |procs|) >= 1
    ensures UsersTo(procs, procs[p].pgdir, |procs|) == 1 <==> L.Sole(Cores(procs), p)
  {
    var d, cs := procs[p].pgdir.value, Cores(procs);
    UsersCount(procs, d, |procs|, p);
    assert forall q :: 0 <= q < |procs| && cs[q].kind != L.Gone ==> cs[q].pgdir == procs[q].pgdir;
    assert forall q :: 0 <= q < |procs| && procs[q].state != Unused ==> cs[q].kind != L.Gone;
  }

  // ------------------------------------------------------------ each step, as the address spaces see it

  ghost predicate SysInv(s: Sys) {
    Inv(s.sched) && L.Inv(View(s))
  }

  lemma InvParts(s: Sys)
    requires SysInv(s)
    ensures Inv(s.sched) && L.Inv(View(s))
  {
  }

  function EventOf(s: Sys, v: Step): L.Event
    requires Enabled(s, v)
  {
    var procs := s.sched.procs;
    match v
    case StartFork(p, kstack) =>
      if UsersTo(procs, procs[p].pgdir, |procs|) > 1 || FirstUnused(procs, 0).None? || !kstack then L.Nothing
      else L.Alloc(p, FirstUnused(procs, 0).value, false)
    case StartClone(p, kstack) =>
      if FirstUnused(procs, 0).None? || !kstack then L.Nothing else L.Alloc(p, FirstUnused(procs, 0).value, true)
    case Adopt(p, ok) => if procs[p].doing.shared || ok then L.Adopt(p) else L.Abandon(p)
    case Launch(p) => L.Launch(p)
    case Exit(p) => L.Exit(p)
    case Wait(p) => if FirstZombie(procs, p, false, 0).Some? then L.Reap(p, FirstZombie(procs, p, false, 0).value) else L.Nothing
    case Join(p) => if FirstZombie(procs, p, true, 0).Some? then L.Join(p, FirstZombie(procs, p, true, 0).value) else L.Nothing
    case StartExec(p) => if UsersTo(procs, procs[p].pgdir, |procs|) > 1 then L.Nothing else L.StartExec(p)
    case NewImage(p) => L.NewImage(p)
    case FailExec(p) => L.FailExec(p)
    case DoneExec(p) => L.DoneExec(p)
    case _ => L.Nothing
  }

  ghost predicate Seen(s: Sys, v: Step)
    requires Enabled(s, v)
  {
    L.Enabled(View(s), EventOf(s, v)) && View(Apply(s, v)) == L.Apply(View(s), EventOf(s, v))
  }

  lemma CoreAt(s: Sys, p: nat)
    requires L.Inv(View(s)) && p < |s.sched.procs|
    ensures var x := s.sched.procs[p];
            && (x.state in {Sleeping, Runnable, Running, Zombie} ==> x.pgdir.Some?)
            && (x.state == Unused ==> x.parent.None?)
            && (KindOf(x.state) == L.Live && (x.doing.Child? || x.doing.Ready?) ==>
                  && x.doing.slot < |s.sched.procs| && s.sched.procs[x.doing.slot].state == Embryo && x.doing.slot != p
                  && s.sched.procs[x.doing.slot].doing == Free
                  && (x.doing.Child? ==> s.sched.procs[x.doing.slot].parent.None? && !s.sched.procs[x.doing.slot].thread))
  {
    var cs := Cores(s.sched.procs);
    assert L.Good(cs, s.init, p);
    var d := s.sched.procs[p].doing;
    if KindOf(s.sched.procs[p].state) == L.Live && (d.Child? || d.Ready?) {
      assert L.Good(cs, s.init, d.slot);
    }
  }

  lemma QuietSeen(s: Sys, v: Step)
    requires SysInv(s) && Enabled(s, v)
    requires v.Pick? || v.Timer? || v.Yield? || v.Sleep? || v.SetPriority?
    ensures Seen(s, v)
  {
    hide L.Inv, Inv, Ok;
    if v.Pick? { DispatchKeeps(s.sched, v.cpu); }
    var t := Apply(s, v);
    assert Cores(t.sched.procs) == Cores(s.sched.procs);
  }

  lemma WakeSeen(s: Sys, v: Step)
    requires SysInv(s) && Enabled(s, v) && (v.Wakeup? || v.Kill?)
    ensures Seen(s, v)
  {
    hide L.Inv, Inv;
    if v.Wakeup? {
      WakeCores(s.sched, v.chan, v.limit, |s.sched.procs|);
    } else {
      assert Cores(KillPid(s.sched, v.pid).procs) == Cores(s.sched.procs);
    }
  }

  lemma TickSeen(s: Sys, now: nat)
    requires SysInv(s) && now < UINT
    ensures Ok(s.sched) && Seen(s, Tick(now))
  {
    OkInv(s.sched);
    hide L.Inv, Inv;
    var e := (now - s.aged) % UINT;
    if e >= AGING_INTERVAL {
      forall p: nat | p < |s.sched.procs| ensures CoreOf(Age(s.sched, e).procs[p]) == CoreOf(s.sched.procs[p]) {
        AgeProc(s.sched, |s.sched.queues|, e, p);
      }
      assert Cores(Age(s.sched, e).procs) == Cores(s.sched.procs);
    }
  }

  lemma StartForkSeen(s: Sys, p: nat, kstack: bool)
    requires SysInv(s) && Enabled(s, StartFork(p, kstack))
    ensures Seen(s, StartFork(p, kstack))
  {
    hide L.Inv, Inv, Ok, Cores, UsersTo, FirstUnused, AllocChild, L.AllocIn, L.Sole;
    var procs := s.sched.procs;
    CoreAt(s, p);
    SoleIs(procs, p);
    if FirstUnused(procs, 0).Some? {
      AllocSeen(s, p, kstack, false);
    } else {
      AllocNone(s, p, kstack, false);
    }
  }

  lemma StartCloneSeen(s: Sys, p: nat, kstack: bool)
    requires SysInv(s) && Enabled(s, StartClone(p, kstack))
    ensures Seen(s, StartClone(p, kstack))
  {
    hide L.Inv, Inv, Ok, Cores, FirstUnused, AllocChild, L.AllocIn;
    if FirstUnused(s.sched.procs, 0).Some? {
      AllocSeen(s, p, kstack, true);
    } else {
      AllocNone(s, p, kstack, true);
    }
  }

  lemma AllocNone(s: Sys, p: nat, kstack: bool, shared: bool)
    requires p < |s.sched.procs| && FirstUnused(s.sched.procs, 0).None?
    ensures AllocChild(s, p, kstack, shared) == s
  {
  }

  lemma AllocSeen(s: Sys, p: nat, kstack: bool, shared: bool)
    requires L.Inv(View(s)) && p < |s.sched.procs| && s.sched.procs[p].state == Running && s.sched.procs[p].doing == Free
    requires FirstUnused(s.sched.procs, 0).Some?
    ensures var np, t := FirstUnused(s.sched.procs, 0).value, AllocChild(s, p, kstack, shared);
            && Cores(t.sched.procs) == (if kstack then L.AllocIn(Cores(s.sched.procs), p, np, shared) else Cores(s.sched.procs))
            && t.init == s.init && t.dirs == s.dirs && t.nextdir == s.nextdir
  {
    CoreAt(s, FirstUnused(s.sched.procs, 0).value);
    hide L.Inv, FirstUnused;
  }

  lemma AdoptSeen(s: Sys, p: nat, ok: bool)
    requires SysInv(s) && Enabled(s, Adopt(p, ok))
    ensures Seen(s, Adopt(p, ok))
  {
    CoreAt(s, p);
    hide L.Inv, Inv, Ok;
    var v := Adopt(p, ok);
    assert View(Apply(s, v)).cores == L.Apply(View(s), EventOf(s, v)).cores;
  }

  lemma LaunchSeen(s: Sys, p: nat)
    requires SysInv(s) && Enabled(s, Launch(p))
    ensures Seen(s, Launch(p))
  {
    CoreAt(s, p);
    hide L.Inv, Inv, Ok;
    var v := Launch(p);
    assert View(Apply(s, v)).cores == L.Apply(View(s), EventOf(s, v)).cores;
  }

  lemma StartExecSeen(s: Sys, p: nat)
    requires SysInv(s) && Enabled(s, StartExec(p))
    ensures Seen(s, StartExec(p))
  {
    CoreAt(s, p);
    SoleIs(s.sched.procs, p);
    hide L.Inv, Inv, Ok, UsersTo, L.Sole;
    SetCore(s.sched.procs, p, s.sched.procs[p].(doing := Exec(None)));
  }

  lemma SetCore(procs: seq<Proc>, p: nat, x: Proc)
    requires p < |procs|
    ensures Cores(procs[p := x]) == Cores(procs)[p := CoreOf(x)]
  {
  }

  lemma ExecSeen(s: Sys, v: Step)
    requires SysInv(s) && Enabled(s, v) && (v.NewImage? || v.FailExec? || v.DoneExec?)
    ensures Seen(s, v)
  {
    hide L.Inv, Inv, Ok, Cores;
    SetCore(s.sched.procs, v.p, Apply(s, v).sched.procs[v.p]);
  }

  /** What the scan of wait or join does to the address spaces. */
  lemma WaitEffect(s: Sys, p: nat, threads: bool)
    requires L.Inv(View(s)) && p < |s.sched.procs| && s.sched.procs[p].state == Running
    ensures var procs, t := s.sched.procs, WaitOnce(s, p, threads);
            var z := FirstZombie(procs, p, threads, 0);
            && t.init == s.init && t.nextdir == s.nextdir
            && Cores(t.sched.procs) == (if z.Some? then Cores(procs)[z.value := L.GONE] else Cores(procs))
            && t.dirs == if z.Some? && !threads && L.Sole(Cores(procs), z.value) then s.dirs - L.Held(procs[z.value].pgdir) else s.dirs
  {
    var procs := s.sched.procs;
    var z := FirstZombie(procs, p, threads, 0);
    if z.Some? {
      CoreAt(s, z.value);
      SoleIs(procs, z.value);
      SetCore(procs, z.value, Reaped(procs[z.value]));
    } else {
      SetCore(procs, p, procs[p].(chan := OfProc(p), state := Sleeping));
      assert Cores(procs)[p := CoreOf(procs[p])] == Cores(procs);
    }
  }

  lemma WaitSeen(s: Sys, p: nat)
    requires SysInv(s) && Enabled(s, Wait(p))
    ensures Seen(s, Wait(p))
  {
    hide Inv, Ok, FirstZombie, L.Inv, L.Sole, WaitOnce;
    WaitEffect(s, p, false);
    var z := FirstZombie(s.sched.procs, p, false, 0);
    if z.Some? {
      CoreAt(s, z.value);
      assert Cores(s.sched.procs)[z.value].pgdir == s.sched.procs[z.value].pgdir;
    }
  }

  lemma JoinSeen(s: Sys, p: nat)
    requires SysInv(s) && Enabled(s, Join(p))
    ensures Seen(s, Join(p))
  {
    hide Inv, Ok, FirstZombie, L.Inv, L.Sole, WaitOnce;
    WaitEffect(s, p, true);
  }

  lemma OrphanCores(s: Sched, p: nat, init: nat)
    requires Ok(s)
    ensures Cores(ReparentTo(s, p, init, |s.procs|).procs) == L.Orphaned(Cores(s.procs), p, init)
  {
    hide ReparentTo, Ok;
    var cs := L.Orphaned(Cores(s.procs), p, init);
    var u := ReparentTo(s, p, init, |s.procs|);
    forall i: nat | i < |u.procs| ensures CoreOf(u.procs[i]) == cs[i] {
      ReparentCores(s, p, init, |s.procs|, i);
    }
  }

  lemma ExitCores(s: Sched, p: nat, init: nat)
    requires Inv(s) && p < |s.procs| && s.procs[p].state == Running
    ensures Ok(s) && Cores(ExitProc(s, p, init).procs) == L.ExitIn(Cores(s.procs), p, init)
  {
    OkInv(s);
    hide Inv, WakeTo, ReparentTo, Ok, Cores, L.Orphaned, CoreOf;
    var x := s.procs[p];
    var chan := if x.parent.Some? then OfProc(x.parent.value) else Nothing;
    var t := WakeAll(s, chan);
    WakeCores(s, chan, 0, |s.procs|);
    WakeProc(s, chan, 0, |s.procs|, p);
    OrphanCores(t, p, init);
    var u := ReparentTo(t, p, init, |t.procs|);
    ReparentState(t, p, init, |t.procs|, p);
    DeadCore(u.procs[p]);
    SetCore(u.procs, p, u.procs[p].(state := Zombie));
  }

  lemma DeadCore(x: Proc)
    requires x.state == Running
    ensures CoreOf(x.(state := Zombie)) == CoreOf(x).(kind := L.Dead)
  {
  }

  lemma ExitSeen(s: Sys, p: nat)
    requires SysInv(s) && Enabled(s, Exit(p))
    ensures Seen(s, Exit(p))
  {
    hide Inv, L.Inv, ExitProc, L.ExitIn, Ok;
    ExitCores(s.sched, p, s.init);
  }

  // ------------------------------------------------------------ each step, as the run queues see it

  lemma TwoSteady(s: Sched, p: nat, x: Proc, q: nat, y: Proc)
    requires Inv(s) && p < |s.procs| && q < |s.procs| && p != q
    requires s.procs[p].state != Runnable && x.state != Runnable && ProcOk(x, |s.queues|)
    requires s.procs[q].state != Runnable && y.state != Runnable && ProcOk(y, |s.queues|)
    ensures Steady(s, SetProc(SetProc(s, p, x), q, y))
  {
    hide Inv, Extends, ProcOk;
    SetSteady(s, p, x);
    SameCpus(s, SetProc(s, p, x));
    SetSteady(SetProc(s, p, x), q, y);
    SteadyTrans(s, SetProc(s, p, x), SetProc(SetProc(s, p, x), q, y));
  }

  lemma SameCpus(s: Sched, t: Sched)
    requires Steady(s, t)
    ensures |s.queues| == |t.queues| && |s.procs| == |t.procs|
  {
  }

  lemma InvProc(s: Sched, p: nat)
    requires Inv(s) && p < |s.procs|
    ensures |s.queues| > 0 && ProcOk(s.procs[p], |s.queues|)
  {
  }

  lemma AllocSteady(s: Sys, p: nat, kstack: bool, shared: bool)
    requires Inv(s.sched) && p < |s.sched.procs| && s.sched.procs[p].state == Running
    ensures Steady(s.sched, AllocChild(s, p, kstack, shared).sched)
  {
    hide Steady, Inv;
    var procs := s.sched.procs;
    SteadyRefl(s.sched);
    var r := FirstUnused(procs, 0);
    if r.Some? {
      InvProc(s.sched, p);
      var x := EmbryoOf(procs[r.value], s.nextpid);
      if kstack {
        TwoSteady(s.sched, r.value, x, p, procs[p].(doing := Child(r.value, shared)));
      } else {
        SetSteady(s.sched, r.value, x.(state := Unused));
      }
    }
  }

  lemma AdoptSteady(s: Sys, p: nat, ok: bool)
    requires SysInv(s) && Enabled(s, Adopt(p, ok))
    ensures Steady(s.sched, AdoptChild(s, p, ok).sched)
  {
    CoreAt(s, p);
    hide Steady, Inv, L.Inv;
    var x := s.sched.procs[p];
    var np := x.doing.slot;
    var y := s.sched.procs[np];
    InvProc(s.sched, p);
    InvProc(s.sched, np);
    TwoSteady(s.sched, np, AdoptChild(s, p, ok).sched.procs[np], p, AdoptChild(s, p, ok).sched.procs[p]);
  }

  lemma LaunchSteady(s: Sys, p: nat)
    requires SysInv(s) && Enabled(s, Launch(p))
    ensures Steady(s.sched, LaunchChild(s.sched, p))
  {
    CoreAt(s, p);
    hide Steady, Inv, L.Inv;
    var x := s.sched.procs[p].(doing := Free);
    var t := SetProc(s.sched, p, x);
    InvProc(s.sched, p);
    SetSteady(s.sched, p, x);
    SteadyInv(s.sched, t);
    EnqueueSteady(t, s.sched.procs[p].doing.slot, LeastLoaded(t, |t.queues|));
    SteadyTrans(s.sched, t, LaunchChild(s.sched, p));
  }

  lemma SteadyInv(s: Sched, t: Sched)
    requires Steady(s, t)
    ensures Inv(t)
  {
  }

  lemma ExitSteady(s: Sched, p: nat, init: nat)
    requires Inv(s) && p < |s.procs| && s.procs[p].state == Running
    ensures Ok(s) && Steady(s, ExitProc(s, p, init))
  {
    OkInv(s);
    hide Inv, WakeTo, ReparentTo, Ok, Steady;
    var chan := if s.procs[p].parent.Some? then OfProc(s.procs[p].parent.value) else Nothing;
    var t := WakeAll(s, chan);
    WakeSteady(s, chan, 0, |s.procs|);
    WakeProc(s, chan, 0, |s.procs|, p);
    SteadyInv(s, t);
    ReparentSteady(t, p, init, |t.procs|);
    var u := ReparentTo(t, p, init, |t.procs|);
    ReparentState(t, p, init, |t.procs|, p);
    SteadyInv(t, u);
    SteadyTrans(s, t, u);
    InvProc(u, p);
    SetSteady(u, p, u.procs[p].(state := Zombie));
    SteadyTrans(s, u, ExitProc(s, p, init));
  }

  /** A running process stays so while others are woken. */
  lemma {:induction false} ReparentState(s: Sched, p: nat, init: nat, k: nat, i: nat)
    requires Ok(s) && k <= |s.procs| && i < |s.procs| && s.procs[i].state == Running
    ensures ReparentTo(s, p, init, k).procs[i].state == Running
  {
    hide WakeTo;
    if k > 0 {
      ReparentState(s, p, init, k - 1, i);
      var t := ReparentTo(s, p, init, k - 1);
      if t.procs[k - 1].parent == Some(p) {
        var u := SetProc(t, k - 1, t.procs[k - 1].(parent := Some(init)));
        WakeProc(u, OfProc(init), 0, |u.procs|, i);
      }
    }
  }

  lemma KillSteady(s: Sched, pid: int)
    requires Inv(s)
    ensures Ok(s) && Steady(s, KillPid(s, pid))
  {
    OkInv(s);
    hide Inv, Steady, Ok;
    SteadyRefl(s);
    var r := FindPid(s.procs, pid, 0);
    if r.Some? {
      var x := s.procs[r.value].(killed := true);
      SetOther(s, r.value, x);
      SteadyInv(s, SetProc(s, r.value, x));
      InvProc(SetProc(s, r.value, x), r.value);
      if x.state == Sleeping {
        EnqueueSteady(SetProc(s, r.value, x), r.value, x.rqcpu);
        SteadyTrans(s, SetProc(s, r.value, x), KillPid(s, pid));
      }
    }
  }

  lemma WaitSteady(s: Sys, p: nat, threads: bool)
    requires Inv(s.sched) && p < |s.sched.procs| && s.sched.procs[p].state == Running
    ensures Steady(s.sched, WaitOnce(s, p, threads).sched)
  {
    hide Inv, Steady, UsersTo, FirstZombie;
    SteadyRefl(s.sched);
    var procs := s.sched.procs;
    var z := FirstZombie(procs, p, threads, 0);
    InvProc(s.sched, p);
    SetSteady(s.sched, p, procs[p].(chan := OfProc(p), state := Sleeping));
    if z.Some? {
      InvProc(s.sched, z.value);
      SetSteady(s.sched, z.value, Reaped(procs[z.value]));
    }
  }

  lemma ChargeSteady(s: Sched, p: nat, cpu: nat)
    requires Inv(s) && Ok(s) && p < |s.procs| && s.procs[p].state == Running && cpu < |s.queues|
    ensures Steady(s, Charge(s, p, cpu))
  {
    hide Inv, Steady, Ok;
    InvProc(s, p);
    var x := s.procs[p];
    if x.slice <= 1 {
      var t := SetProc(s, p, x.(slice := 0));
      SetSteady(s, p, x.(slice := 0));
      SteadyInv(s, t);
      EnqueueSteady(t, p, cpu);
      SteadyTrans(s, t, Charge(s, p, cpu));
    } else {
      SetSteady(s, p, x.(slice := x.slice - 1));
    }
  }

  /** All steps but an aging pass and a pick leave those who are queued as they were, and in order. */
  lemma StepSteady(s: Sys, v: Step)
    requires SysInv(s) && Enabled(s, v) && !v.Tick? && !v.Pick?
    ensures Steady(s.sched, Apply(s, v).sched)
  {
    hide Inv, L.Inv, Steady, Ok, Charge, AllocChild, AdoptChild, LaunchChild, ExitProc, WaitOnce, KillPid, WakeTo, UsersTo;
    SteadyRefl(s.sched);
    match v
    case Timer(p, cpu) => ChargeSteady(s.sched, p, cpu);
    case Yield(p, cpu) => EnqueueSteady(s.sched, p, cpu);
    case Sleep(p, chan) => InvProc(s.sched, p); SetSteady(s.sched, p, s.sched.procs[p].(chan := chan, state := Sleeping));
    case Wakeup(chan, limit) => WakeSteady(s.sched, chan, limit, |s.sched.procs|);
    case Kill(pid) => KillSteady(s.sched, pid);
    case SetPriority(p, prio) =>
      InvProc(s.sched, p);
      if 0 <= prio < NPRIO { SetSteady(s.sched, p, s.sched.procs[p].(base := prio, prio := prio, slice := Quantum(prio))); }
    case StartFork(p, kstack) => AllocSteady(s, p, kstack, false);
    case StartClone(p, kstack) => AllocSteady(s, p, kstack, true);
    case Adopt(p, ok) => AdoptSteady(s, p, ok);
    case Launch(p) => LaunchSteady(s, p);
    case Exit(p) => ExitSteady(s.sched, p, s.init);
    case Wait(p) => WaitSteady(s, p, false);
    case Join(p) => WaitSteady(s, p, true);
    case StartExec(p) => SetOther(s.sched, p, s.sched.procs[p].(doing := Exec(None)));
    case NewImage(p) => SetOther(s.sched, p, s.sched.procs[p].(doing := Exec(Some(s.nextdir))));
    case FailExec(p) => SetOther(s.sched, p, s.sched.procs[p].(doing := Free));
    case DoneExec(p) => SetOther(s.sched, p, s.sched.procs[p].(pgdir := s.sched.procs[p].doing.image, doing := Free));
  }
}
