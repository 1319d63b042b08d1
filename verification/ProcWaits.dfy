/** What runs of the process table owe to each process: a parent asleep in wait or join is woken when a
    child exits, a sleeper stays on its channel, a boost lasts until the process is picked, and who is
    picked has its ticks. */
module ProcWaits {
  import opened Params
  import opened Options
  import opened Scheduler
  import opened Aging
  import opened ProcTable
  import opened ProcRuns
  import opened ProcTheorem
  import opened ProcEffects
  import L = Lifetimes

  // ------------------------------------------------------------ one process over one step

  /** Aging raises a process only while it is queued. */
  predicate Leveled(x: Proc) {
    x.prio <= x.base && (x.state != Runnable ==> x.prio == x.base)
  }

  /** A running process has some of its slice left. */
  predicate Sliced(x: Proc) {
    x.state == Running ==> x.base < NPRIO && 1 <= x.slice <= QUANTUM_BASE * (NPRIO - x.base)
  }

  /** Whoever takes the step: who falls asleep does so by its own step, who dies by its own exit, and
      parents change in exit, in the making of a child and in reaping only. */
  ghost predicate Lawful(s: Sys, v: Step, i: nat, x: Proc, y: Proc) {
    && (y.state == Sleeping ==> || (x.state == Sleeping && y.chan == x.chan)
                                || (x.state == Running && (v == Sleep(i, y.chan) || (v in {Wait(i), Join(i)} && y.chan == OfProc(i)))))
    && (y.state == Zombie ==> (x.state == Zombie && y.thread == x.thread) || (v == Exit(i) && x.state == Running))
    && (y.parent == x.parent || y.parent.None? || (v.Exit? && x.parent == Some(v.p) && y.parent == Some(s.init))
        || (v.Adopt? && v.p != i && x.state == Embryo && y.state == Embryo && y.parent == Some(v.p)))
    && (Leveled(x) ==> Leveled(y))
    && (Sliced(x) ==> Sliced(y))
    && (x.state == Running && y.state == Running && !(v.SetPriority? && v.p == i) ==>
          y.base == x.base && y.slice == if v.Timer? && v.p == i then x.slice - 1 else x.slice)
  }

  ghost predicate StepFits(s: Sys, v: Step, i: nat)
    requires Enabled(s, v) && i < |s.sched.procs|
  {
    |Apply(s, v).sched.procs| == |s.sched.procs| && Lawful(s, v, i, s.sched.procs[i], Apply(s, v).sched.procs[i])
  }

  lemma TickFits(s: Sys, now: nat, i: nat)
    requires SysInv(s) && Enabled(s, Tick(now)) && i < |s.sched.procs|
    ensures StepFits(s, Tick(now), i)
  {
    hide TickAt, Inv, L.Inv;
    InvParts(s);
    TickExact(s, now, i);
  }

  lemma PickFits(s: Sys, cpu: nat, i: nat)
    requires SysInv(s) && Enabled(s, Pick(cpu)) && i < |s.sched.procs|
    ensures StepFits(s, Pick(cpu), i)
  {
    hide Dispatch, Inv, L.Inv, BestOf, MostLoaded, Nobody, Sliced;
    InvParts(s);
    PickExact(s.sched, cpu);
    var r := Dispatch(s.sched, cpu).1;
    if r == Some(i) { FullSlice(s.sched.procs[i], Apply(s, Pick(cpu)).sched.procs[i]); }
  }

  lemma FullSlice(x: Proc, y: Proc)
    requires x.base < NPRIO && y.base == x.base && y.slice == QUANTUM_BASE * (NPRIO - x.base)
    ensures Sliced(y)
  {
    Product(QUANTUM_BASE, NPRIO - x.base);
  }

  lemma Product(a: nat, b: nat)
    requires a > 0 && b > 0
    ensures a * b >= 1
  {
  }

  lemma WakeFits(s: Sys, v: Step, i: nat)
    requires SysInv(s) && Enabled(s, v) && i < |s.sched.procs| && (v.Wakeup? || v.Kill?)
    ensures StepFits(s, v, i)
  {
    hide SysInv, Ok, WakeTo, KillPid;
    if v.Wakeup? {
      WakeExact(s.sched, v.chan, v.limit, |s.sched.procs|, i);
    } else {
      KilledAll(s.sched, v.pid);
      KillEffect(s.sched, v.pid, i);
    }
  }

  lemma OwnFits(s: Sys, v: Step, i: nat)
    requires SysInv(s) && Enabled(s, v) && i < |s.sched.procs|
    requires v.Timer? || v.Yield? || v.Sleep? || v.SetPriority?
    ensures StepFits(s, v, i)
  {
    hide SysInv, Ok, Charge;
    OwnSteps(s, v);
    if v.SetPriority? && 0 <= v.prio < NPRIO { FullSlice(Apply(s, v).sched.procs[v.p], Apply(s, v).sched.procs[v.p]); }
  }

  lemma ExecFits(s: Sys, v: Step, i: nat)
    requires SysInv(s) && Enabled(s, v) && i < |s.sched.procs| && (v.StartExec? || v.NewImage? || v.FailExec? || v.DoneExec?)
    ensures StepFits(s, v, i)
  {
    hide SysInv, Ok, UsersTo;
  }

  lemma AllocFits(s: Sys, v: Step, i: nat)
    requires Enabled(s, v) && i < |s.sched.procs| && (v.StartFork? || v.StartClone?)
    ensures StepFits(s, v, i)
  {
    hide Ok, UsersTo, FirstUnused;
  }

  lemma AdoptFits(s: Sys, p: nat, ok: bool, i: nat)
    requires SysInv(s) && Enabled(s, Adopt(p, ok)) && i < |s.sched.procs|
    ensures StepFits(s, Adopt(p, ok), i)
  {
    CoreAt(s, p);
    hide SysInv, Ok;
  }

  lemma LaunchFits(s: Sys, p: nat, i: nat)
    requires SysInv(s) && Enabled(s, Launch(p)) && i < |s.sched.procs|
    ensures StepFits(s, Launch(p), i)
  {
    CoreAt(s, p);
    hide SysInv, Ok, LeastLoaded;
  }

  lemma ExitFits(s: Sys, p: nat, i: nat)
    requires Enabled(s, Exit(p)) && i < |s.sched.procs|
    ensures StepFits(s, Exit(p), i)
  {
    hide ExitProc, DeadChildTo, Ok;
    ExitExact(s.sched, p, s.init, i);
  }

  lemma WaitFits(s: Sys, v: Step, i: nat)
    requires Enabled(s, v) && i < |s.sched.procs| && (v.Wait? || v.Join?)
    ensures StepFits(s, v, i)
  {
    hide Ok, UsersTo, FirstZombie, HasChild;
  }

  lemma StepOf(s: Sys, v: Step, i: nat)
    requires SysInv(s) && Enabled(s, v) && i < |s.sched.procs|
    ensures StepFits(s, v, i)
  {
    hide SysInv, Enabled, Apply, StepFits;
    if v.Tick? {
      NowOk(s, v.now);
      TickFits(s, v.now, i);
    } else if v.Pick? {
      PickFits(s, v.cpu, i);
    } else if v.Wakeup? || v.Kill? {
      WakeFits(s, v, i);
    } else if v.StartFork? || v.StartClone? {
      AllocFits(s, v, i);
    } else if v.Adopt? {
      AdoptFits(s, v.p, v.ok, i);
    } else if v.Launch? {
      LaunchFits(s, v.p, i);
    } else if v.Exit? {
      ExitFits(s, v.p, i);
    } else if v.Wait? || v.Join? {
      WaitFits(s, v, i);
    } else if v.Timer? || v.Yield? || v.Sleep? || v.SetPriority? {
      OwnFits(s, v, i);
    } else {
      ExecFits(s, v, i);
    }
  }

  // ------------------------------------------------------------ a boost lasts for one turn

  ghost predicate AllLeveled(s: Sys) {
    forall p :: 0 <= p < |s.sched.procs| ==> Leveled(s.sched.procs[p])
  }

  lemma {:induction false} RunLeveled(s: Sys, vs: seq<Step>)
    requires SysInv(s) && AllLeveled(s) && Possible(s, vs)
    ensures AllLeveled(Run(s, vs))
    decreases |vs|
  {
    hide SysInv, Apply, Enabled, Leveled;
    if vs != [] {
      StepKeeps(s, vs[0]);
      StepLength(s, vs[0]);
      forall p: nat | p < |s.sched.procs| ensures Leveled(Apply(s, vs[0]).sched.procs[p]) { StepOf(s, vs[0], p); }
      RunLeveled(Apply(s, vs[0]), vs[1..]);
    }
  }

  /** In every state of every run a process is above its base priority only while it is queued: a running
      one is at its base, and so is one that sleeps. */
  lemma BoostEnds(nproc: nat, ncpu: nat, vs: seq<Step>, p: nat)
    requires nproc > 0 && ncpu > 0 && Possible(Start(nproc, ncpu), vs) && p < |Run(Start(nproc, ncpu), vs).sched.procs|
    ensures var x := Run(Start(nproc, ncpu), vs).sched.procs[p]; x.prio <= x.base && (x.state != Runnable ==> x.prio == x.base)
  {
    StartInv(nproc, ncpu);
    assert AllLeveled(Start(nproc, ncpu));
    hide Start, SysInv;
    RunLeveled(Start(nproc, ncpu), vs);
  }

  // ------------------------------------------------------------ a slice is used up tick by tick

  /** The process runs all along, and does not set its priority. */
  predicate RunsOn(s: Sys, vs: seq<Step>, p: nat)
    requires Possible(s, vs)
    decreases |vs|
  {
    && p < |s.sched.procs| && s.sched.procs[p].state == Running
    && (vs == [] || (!(vs[0].SetPriority? && vs[0].p == p) && RunsOn(Apply(s, vs[0]), vs[1..], p)))
  }

  /** Timer interrupts while `p` runs. */
  function TicksOf(vs: seq<Step>, p: nat): nat {
    if vs == [] then 0 else (if vs[0].Timer? && vs[0].p == p then 1 else 0) + TicksOf(vs[1..], p)
  }

  lemma {:induction false} SliceSpent(s: Sys, vs: seq<Step>, p: nat)
    requires SysInv(s) && Possible(s, vs) && RunsOn(s, vs, p) && Sliced(s.sched.procs[p])
    ensures p < |Run(s, vs).sched.procs| && Sliced(Run(s, vs).sched.procs[p]) && Run(s, vs).sched.procs[p].state == Running
    ensures Run(s, vs).sched.procs[p].slice + TicksOf(vs, p) == s.sched.procs[p].slice
    decreases |vs|
  {
    hide SysInv, Apply, Enabled, Sliced;
    if vs != [] {
      StepKeeps(s, vs[0]);
      StepOf(s, vs[0], p);
      SliceSpent(Apply(s, vs[0]), vs[1..], p);
    }
  }

  /** A process that is picked and then only runs, whatever others do, has QUANTUM_BASE ticks for each
      level from its own to the lowest: it is queued again at the last of them, not before. */
  lemma QuantumExact(s: Sys, cpu: nat, p: nat, vs: seq<Step>, c: nat)
    requires SysInv(s) && Enabled(s, Pick(cpu)) && Dispatch(s.sched, cpu).1 == Some(p)
    requires Possible(Apply(s, Pick(cpu)), vs) && RunsOn(Apply(s, Pick(cpu)), vs, p)
    requires Enabled(Run(Apply(s, Pick(cpu)), vs), Timer(p, c))
    ensures p < |s.sched.procs| && s.sched.procs[p].base < NPRIO
    ensures var u, n := Apply(Run(Apply(s, Pick(cpu)), vs), Timer(p, c)), QUANTUM_BASE * (NPRIO - s.sched.procs[p].base);
            && TicksOf(vs, p) < n && p < |u.sched.procs|
            && u.sched.procs[p].state == if TicksOf(vs, p) + 1 == n then Runnable else Running
  {
    InvParts(s);
    PickExact(s.sched, cpu);
    StepKeeps(s, Pick(cpu));
    var t := Apply(s, Pick(cpu));
    FullSlice(s.sched.procs[p], t.sched.procs[p]);
    hide SysInv, Inv, L.Inv, Dispatch, BestOf, MostLoaded, Nobody, Possible, Run, RunsOn;
    SliceSpent(t, vs, p);
    OwnSteps(Run(t, vs), Timer(p, c));
  }

  // ------------------------------------------------------------ exit and wait

  /** init has no parent, and nobody is its own. */
  predicate Rooted(s: Sys) {
    && s.init < |s.sched.procs| && s.sched.procs[s.init].parent.None?
    && forall p :: 0 <= p < |s.sched.procs| ==> s.sched.procs[p].parent != Some(p)
  }

  lemma RootedStep(s: Sys, v: Step)
    requires SysInv(s) && Rooted(s) && Enabled(s, v)
    ensures Rooted(Apply(s, v))
  {
    InitLives(s);
    SameInit(s, v);
    hide SysInv, Apply, Enabled;
    StepOf(s, v, s.init);
    forall p: nat | p < |s.sched.procs| ensures Apply(s, v).sched.procs[p].parent != Some(p) { StepOf(s, v, p); }
  }

  lemma InitLives(s: Sys)
    requires SysInv(s)
    ensures s.init < |s.sched.procs| && s.sched.procs[s.init].state != Embryo
  {
    assert Cores(s.sched.procs)[s.init].kind == L.Live;
  }

  lemma SameInit(s: Sys, v: Step)
    requires Enabled(s, v)
    ensures Apply(s, v).init == s.init
  {
    hide Ok, UsersTo;
  }

  ghost predicate Quiet(s: Sys, w: nat, threads: bool) {
    NoneDead(s.sched.procs, w, threads)
  }

  predicate Waiting(s: Sys, w: nat) {
    w < |s.sched.procs| && s.sched.procs[w].state == Sleeping && s.sched.procs[w].chan == OfProc(w)
  }

  /** exit is heard: whoever was asleep waiting for the process that exits is awake, and so is init if
      it has got a dead child. */
  lemma ExitHeard(s: Sys, p: nat)
    requires SysInv(s) && Enabled(s, Exit(p))
    ensures var t := Apply(s, Exit(p));
            && (s.sched.procs[p].parent.Some? ==> !Waiting(t, s.sched.procs[p].parent.value))
            && (forall z: nat :: DeadChild(s.sched.procs, p, false, z) ==> !Waiting(t, s.init))
  {
    hide SysInv, Ok;
    var procs := s.sched.procs;
    ExitExact(s.sched, p, s.init, s.init);
    if procs[p].parent.Some? && procs[p].parent.value < |procs| {
      ExitExact(s.sched, p, s.init, procs[p].parent.value);
    }
    ExitExact(s.sched, p, s.init, p);
    hide ExitProc;
    forall z: nat | DeadChild(procs, p, false, z) ensures DeadChildTo(procs, p, |procs|) { }
  }

  /** A waiter that sleeps on has no dead child. */
  lemma QuietStep(s: Sys, v: Step, w: nat, threads: bool)
    requires SysInv(s) && Rooted(s) && Enabled(s, v) && Waiting(s, w) && Quiet(s, w, threads) && Waiting(Apply(s, v), w)
    ensures Quiet(Apply(s, v), w, threads)
  {
    var procs, t := s.sched.procs, Apply(s, v);
    hide SysInv, Enabled, Apply;
    forall z: nat ensures !DeadChild(t.sched.procs, w, threads, z) {
      if z < |procs| {
        StepOf(s, v, z);
        if DeadChild(t.sched.procs, w, threads, z) { WouldHear(s, v, w, threads, z); }
      } else {
        StepOf(s, v, w);
      }
    }
  }

  lemma WouldHear(s: Sys, v: Step, w: nat, threads: bool, z: nat)
    requires SysInv(s) && Rooted(s) && Enabled(s, v) && Waiting(s, w) && Quiet(s, w, threads)
    requires z < |s.sched.procs| && StepFits(s, v, z) && DeadChild(Apply(s, v).sched.procs, w, threads, z)
    ensures !Waiting(Apply(s, v), w)
  {
    assert !DeadChild(s.sched.procs, w, threads, z);
    assert v.Exit?;
    ExitHeard(s, v.p);
    hide SysInv, Apply;
    if v.p != z { assert DeadChild(s.sched.procs, v.p, false, z); }
  }

  /** The process sleeps all along the run. */
  predicate SleepsOn(s: Sys, vs: seq<Step>, p: nat)
    requires Possible(s, vs)
    decreases |vs|
  {
    p < |s.sched.procs| && s.sched.procs[p].state == Sleeping && (vs == [] || SleepsOn(Apply(s, vs[0]), vs[1..], p))
  }

  lemma {:induction false} QuietRun(s: Sys, vs: seq<Step>, w: nat, threads: bool)
    requires SysInv(s) && Rooted(s) && Possible(s, vs) && Waiting(s, w) && Quiet(s, w, threads) && SleepsOn(s, vs, w)
    ensures Waiting(Run(s, vs), w) && Quiet(Run(s, vs), w, threads)
    decreases |vs|
  {
    hide SysInv, Rooted, Apply, Enabled, Quiet;
    if vs != [] {
      StepKeeps(s, vs[0]);
      RootedStep(s, vs[0]);
      SleepStep(s, vs[0], w);
      QuietStep(s, vs[0], w, threads);
      QuietRun(Apply(s, vs[0]), vs[1..], w, threads);
    }
  }

  lemma SleepStep(s: Sys, v: Step, p: nat)
    requires SysInv(s) && Enabled(s, v) && p < |s.sched.procs| && s.sched.procs[p].state == Sleeping
    ensures |Apply(s, v).sched.procs| == |s.sched.procs|
    ensures Apply(s, v).sched.procs[p].state == Sleeping ==> Apply(s, v).sched.procs[p].chan == s.sched.procs[p].chan
  {
    hide SysInv, Apply, Enabled;
    StepOf(s, v, p);
  }

  lemma {:induction false} RootedRun(s: Sys, vs: seq<Step>)
    requires SysInv(s) && Rooted(s) && Possible(s, vs)
    ensures SysInv(Run(s, vs)) && Rooted(Run(s, vs))
    decreases |vs|
  {
    hide SysInv, Rooted, Apply, Enabled;
    if vs != [] {
      StepKeeps(s, vs[0]);
      RootedStep(s, vs[0]);
      RootedRun(Apply(s, vs[0]), vs[1..]);
    }
  }

  lemma StartRooted(nproc: nat, ncpu: nat)
    requires nproc > 0 && ncpu > 0
    ensures SysInv(Start(nproc, ncpu)) && Rooted(Start(nproc, ncpu))
  {
    StartInv(nproc, ncpu);
    hide SysInv;
  }

  /** No exit is missed: a process that went to sleep in wait, or in join, sleeps on only as long as none
      of its children, or threads, has exited. */
  lemma NoLostExit(nproc: nat, ncpu: nat, before: seq<Step>, w: nat, threads: bool, vs: seq<Step>)
    requires nproc > 0 && ncpu > 0 && Possible(Start(nproc, ncpu), before)
    requires var s, v := Run(Start(nproc, ncpu), before), if threads then Join(w) else Wait(w);
             Enabled(s, v) && Possible(Apply(s, v), vs) && SleepsOn(Apply(s, v), vs, w)
    ensures var s, v := Run(Start(nproc, ncpu), before), if threads then Join(w) else Wait(w);
            NoneDead(Run(Apply(s, v), vs).sched.procs, w, threads)
  {
    StartRooted(nproc, ncpu);
    RootedRun(Start(nproc, ncpu), before);
    var s := Run(Start(nproc, ncpu), before);
    var v := if threads then Join(w) else Wait(w);
    FallsAsleep(s, w, threads);
    StepKeeps(s, v);
    RootedStep(s, v);
    hide SysInv, Rooted, Start, Apply, Enabled, Possible, Run, SleepsOn;
    assert Quiet(Apply(s, v), w, threads);
    QuietRun(Apply(s, v), vs, w, threads);
  }

  /** wait and join go to sleep only if nobody they wait for has exited. */
  lemma FallsAsleep(s: Sys, w: nat, threads: bool)
    requires Enabled(s, if threads then Join(w) else Wait(w))
    ensures var t := Apply(s, if threads then Join(w) else Wait(w));
            w < |t.sched.procs| && t.sched.procs[w].state == Sleeping ==> Waiting(t, w) && Quiet(t, w, threads)
  {
    var procs := s.sched.procs;
    WaitExact(s, w, threads);
    NoneDeadIs(procs, w, threads);
    var r := FirstZombie(procs, w, threads, 0);
    hide Ok, FirstZombie, UsersTo, AnyChild;
    if r.None? {
      hide WaitOnce;
    } else {
      assert procs[w].state == Running && procs[r.value].state == Zombie;
    }
  }

  /** In every state of every run in which only wait and join sleep on a process, as in the source, no
      process asleep on itself has a dead thread; one that never called join has no dead child at all. */
  ghost predicate Heard(s: Sys, joined: set<nat>) {
    forall w: nat :: Waiting(s, w) ==> Quiet(s, w, true) && (w !in joined ==> Quiet(s, w, false))
  }

  predicate Proper(v: Step) {
    v.Sleep? ==> !v.chan.OfProc?
  }

  function Joined(vs: seq<Step>): set<nat> {
    if vs == [] then {} else (if vs[0].Join? then {vs[0].p} else {}) + Joined(vs[1..])
  }

  lemma HeardStep(s: Sys, v: Step, joined: set<nat>)
    requires SysInv(s) && Rooted(s) && Enabled(s, v) && Heard(s, joined) && Proper(v)
    ensures Heard(Apply(s, v), joined + Joined([v]))
  {
    hide SysInv, Rooted, Enabled, Apply, Quiet;
    var t := Apply(s, v);
    assert Joined([v]) == if v.Join? then {v.p} else {};
    forall w: nat | Waiting(t, w) ensures Quiet(t, w, true) && (w !in joined + Joined([v]) ==> Quiet(t, w, false)) {
      StepLength(s, v);
      StepOf(s, v, w);
      if Waiting(s, w) {
        QuietStep(s, v, w, true);
        if w !in joined { QuietStep(s, v, w, false); }
      } else if v == Join(w) {
        FallsAsleep(s, w, true);
      } else {
        FallsAsleep(s, w, false);
        QuietThreads(t, w);
      }
    }
  }

  lemma StepLength(s: Sys, v: Step)
    requires SysInv(s) && Enabled(s, v)
    ensures |Apply(s, v).sched.procs| == |s.sched.procs|
  {
    InitLives(s);
    hide SysInv, Apply, Enabled;
    StepOf(s, v, s.init);
  }

  lemma QuietThreads(s: Sys, w: nat)
    requires Quiet(s, w, false)
    ensures Quiet(s, w, true)
  {
    forall z: nat ensures !DeadChild(s.sched.procs, w, true, z) { assert !DeadChild(s.sched.procs, w, false, z); }
  }

  lemma {:induction false} HeardRun(s: Sys, vs: seq<Step>, joined: set<nat>)
    requires SysInv(s) && Rooted(s) && Possible(s, vs) && Heard(s, joined) && forall k :: 0 <= k < |vs| ==> Proper(vs[k])
    ensures Heard(Run(s, vs), joined + Joined(vs))
    decreases |vs|
  {
    hide SysInv, Rooted, Apply, Enabled, Heard, Proper;
    if vs == [] {
      assert joined + Joined(vs) == joined;
    } else {
      StepKeeps(s, vs[0]);
      RootedStep(s, vs[0]);
      HeardStep(s, vs[0], joined);
      HeardRun(Apply(s, vs[0]), vs[1..], joined + Joined([vs[0]]));
      assert joined + Joined([vs[0]]) + Joined(vs[1..]) == joined + Joined(vs) by { assert [vs[0]][1..] == []; }
    }
  }

  lemma ParentsHear(nproc: nat, ncpu: nat, vs: seq<Step>)
    requires nproc > 0 && ncpu > 0 && Possible(Start(nproc, ncpu), vs) && forall k :: 0 <= k < |vs| ==> Proper(vs[k])
    ensures Heard(Run(Start(nproc, ncpu), vs), Joined(vs))
  {
    StartRooted(nproc, ncpu);
    assert Heard(Start(nproc, ncpu), {});
    hide SysInv, Rooted, Start, Heard;
    HeardRun(Start(nproc, ncpu), vs, {});
    assert {} + Joined(vs) == Joined(vs);
  }

  // ------------------------------------------------------------ sleep and wakeup

  lemma {:induction false} ChannelKept(s: Sys, vs: seq<Step>, p: nat)
    requires SysInv(s) && Possible(s, vs) && SleepsOn(s, vs, p)
    ensures SysInv(Run(s, vs)) && p < |Run(s, vs).sched.procs|
    ensures Run(s, vs).sched.procs[p].state == Sleeping && Run(s, vs).sched.procs[p].chan == s.sched.procs[p].chan
    decreases |vs|
  {
    hide SysInv, Apply, Enabled;
    if vs != [] {
      StepKeeps(s, vs[0]);
      SleepStep(s, vs[0], p);
      ChannelKept(Apply(s, vs[0]), vs[1..], p);
    }
  }

  /** A process that went to sleep on a channel, and still sleeps, is woken by the wakeup of that
      channel and by no wakeup of another. */
  lemma WokenByName(s: Sys, p: nat, chan: Chan, vs: seq<Step>, other: Chan)
    requires SysInv(s) && Enabled(s, Sleep(p, chan)) && Possible(Apply(s, Sleep(p, chan)), vs) && SleepsOn(Apply(s, Sleep(p, chan)), vs, p)
    ensures var t := Run(Apply(s, Sleep(p, chan)), vs);
            && Enabled(t, Wakeup(other, 0)) && p < |Apply(t, Wakeup(other, 0)).sched.procs|
            && Apply(t, Wakeup(other, 0)).sched.procs[p].state == if other == chan then Runnable else Sleeping
  {
    StepKeeps(s, Sleep(p, chan));
    OwnSteps(s, Sleep(p, chan));
    hide Possible, Run, SleepsOn, SysInv;
    var a := Apply(s, Sleep(p, chan));
    ChannelKept(a, vs, p);
    var t := Run(a, vs);
    InvParts(t);
    OkInv(t.sched);
    hide Inv, L.Inv, Ok, WakeTo;
    WakeAllExact(t.sched, other, p);
  }
}
