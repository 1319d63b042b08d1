/** The main results about the process table: the two invariants over every run, no starvation,
    and what an idle CPU says about the queues. */
module ProcTheorem {
  import opened Params
  import opened Options
  import opened Scheduler
  import opened Aging
  import opened ProcTable
  import opened ProcRuns
  import L = Lifetimes

  // ------------------------------------------------------------ every run keeps both invariants

  lemma StepSeen(s: Sys, v: Step)
    requires SysInv(s) && Enabled(s, v)
    ensures Seen(s, v)
  {
    hide SysInv, Seen, Enabled;
    match v
    case Tick(now) => NowOk(s, now); TickSeen(s, now);
    case Pick(_) => QuietSeen(s, v);
    case Timer(_, _) => QuietSeen(s, v);
    case Yield(_, _) => QuietSeen(s, v);
    case Sleep(_, _) => QuietSeen(s, v);
    case Wakeup(_, _) => WakeSeen(s, v);
    case Kill(_) => WakeSeen(s, v);
    case SetPriority(_, _) => QuietSeen(s, v);
    case StartFork(p, kstack) => StartForkSeen(s, p, kstack);
    case StartClone(p, kstack) => StartCloneSeen(s, p, kstack);
    case Adopt(p, ok) => AdoptSeen(s, p, ok);
    case Launch(p) => LaunchSeen(s, p);
    case Exit(p) => ExitSeen(s, p);
    case Wait(p) => WaitSeen(s, p);
    case Join(p) => JoinSeen(s, p);
    case StartExec(p) => StartExecSeen(s, p);
    case NewImage(_) => ExecSeen(s, v);
    case FailExec(_) => ExecSeen(s, v);
    case DoneExec(_) => ExecSeen(s, v);
  }

  lemma NowOk(s: Sys, now: nat)
    requires Enabled(s, Tick(now))
    ensures now < UINT
  {
  }

  lemma TickKeeps(s: Sys, now: nat)
    requires Inv(s.sched)
    ensures Inv(TickAt(s, now).sched)
  {
    var e := (now - s.aged) % UINT;
    if e >= AGING_INTERVAL { AgeKeeps(s.sched, |s.sched.queues|, e); }
  }

  lemma PickInv(s: Sys, cpu: nat)
    requires Inv(s.sched) && Enabled(s, Pick(cpu))
    ensures Inv(Apply(s, Pick(cpu)).sched)
  {
    hide Inv;
    DispatchKeeps(s.sched, cpu);
  }

  lemma SchedStep(s: Sys, v: Step)
    requires SysInv(s) && Enabled(s, v)
    ensures Inv(Apply(s, v).sched)
  {
    match v
    case Tick(now) => TickKeeps(s, now);
    case Pick(cpu) => PickInv(s, cpu);
    case _ =>
      StepSteady(s, v);
      SteadyInv(s.sched, Apply(s, v).sched);
  }

  /** Whoever takes the step, and wherever the others are in their system calls, afterwards a
      process is runnable exactly if it is queued, once, where its fields say; and the page
      directories in use are exactly the allocated ones. */
  lemma StepKeeps(s: Sys, v: Step)
    requires SysInv(s) && Enabled(s, v)
    ensures SysInv(Apply(s, v))
  {
    SchedStep(s, v);
    StepSeen(s, v);
    hide Inv, L.Inv, Enabled, Apply, L.Apply, L.Enabled;
    L.StepKeeps(View(s), EventOf(s, v));
  }

  const BLANK := Proc(Unused, 0, None, Nothing, false, 0, 0, 0, 0, 0, false, None, Free)

  /** After userinit: the first process alone, runnable. */
  function Start(nproc: nat, ncpu: nat): Sys
    requires nproc > 0 && ncpu > 0
  {
    var first := BLANK.(state := Runnable, pid := 1, base := NPRIO / 2, prio := NPRIO / 2, slice := Quantum(NPRIO / 2), pgdir := Some(0));
    Sys(Sched(seq(nproc, i => if i == 0 then first else BLANK),
              seq(ncpu, c => seq(NPRIO, l => if c == 0 && l == NPRIO / 2 then [0] else []))),
        0, 2, {0}, 1, 0)
  }

  lemma StartInv(nproc: nat, ncpu: nat)
    requires nproc > 0 && ncpu > 0
    ensures SysInv(Start(nproc, ncpu))
  {
    var s := Start(nproc, ncpu);
    var cs := Cores(s.sched.procs);
    assert L.Uses(cs[0], 0);
    forall p: nat | p < nproc ensures L.Good(cs, 0, p) {
    }
  }

  predicate Possible(s: Sys, vs: seq<Step>)
    decreases |vs|
  {
    vs == [] || (Enabled(s, vs[0]) && Possible(Apply(s, vs[0]), vs[1..]))
  }

  function Run(s: Sys, vs: seq<Step>): Sys
    requires Possible(s, vs)
    decreases |vs|
  {
    if vs == [] then s else Run(Apply(s, vs[0]), vs[1..])
  }

  lemma {:induction false} RunKeeps(s: Sys, vs: seq<Step>)
    requires SysInv(s) && Possible(s, vs)
    ensures SysInv(Run(s, vs))
    decreases |vs|
  {
    hide SysInv, Apply, Enabled;
    if vs != [] {
      StepKeeps(s, vs[0]);
      RunKeeps(Apply(s, vs[0]), vs[1..]);
    }
  }

  lemma Reachable(nproc: nat, ncpu: nat, vs: seq<Step>)
    requires nproc > 0 && ncpu > 0 && Possible(Start(nproc, ncpu), vs)
    ensures SysInv(Run(Start(nproc, ncpu), vs))
  {
    hide SysInv, Start, Possible, Run;
    StartInv(nproc, ncpu);
    RunKeeps(Start(nproc, ncpu), vs);
  }

  /** What the address spaces see of a run. */
  function Events(s: Sys, vs: seq<Step>): seq<L.Event>
    requires Possible(s, vs)
    decreases |vs|
  {
    if vs == [] then [] else [EventOf(s, vs[0])] + Events(Apply(s, vs[0]), vs[1..])
  }

  lemma {:induction false} RunSeen(s: Sys, vs: seq<Step>)
    requires SysInv(s) && Possible(s, vs)
    ensures L.Possible(View(s), Events(s, vs)) && View(Run(s, vs)) == L.Run(View(s), Events(s, vs))
    decreases |vs|
  {
    hide SysInv, Apply, Enabled, View, L.Apply, L.Enabled, EventOf;
    if vs != [] {
      StepKeeps(s, vs[0]);
      StepSeen(s, vs[0]);
      RunSeen(Apply(s, vs[0]), vs[1..]);
      assert Events(s, vs)[1..] == Events(Apply(s, vs[0]), vs[1..]);
    }
  }

  /** Over any run of the table, an allocated page directory is freed exactly once if no process
      uses it at the end, and not at all if one does. */
  lemma FreedOnce(s: Sys, vs: seq<Step>, d: nat)
    requires SysInv(s) && Possible(s, vs) && d in s.dirs
    ensures L.Possible(View(s), Events(s, vs))
    ensures L.TimesFreed(View(s), Events(s, vs), d) == if L.InUse(View(Run(s, vs)).cores, d) then 0 else 1
  {
    hide Events, Run, Possible, L.Possible, L.Run, L.TimesFreed, L.InUse;
    RunSeen(s, vs);
    L.FreedOnce(View(s), Events(s, vs), d);
  }

  /** A process that is not unused, nor an embryo, finds its directory allocated. */
  lemma DirectoryLive(s: Sys, p: nat)
    requires SysInv(s) && p < |s.sched.procs| && s.sched.procs[p].state in {Sleeping, Runnable, Running, Zombie}
    ensures s.sched.procs[p].pgdir.Some? && s.sched.procs[p].pgdir.value in s.dirs
  {
    CoreAt(s, p);
    assert L.Uses(Cores(s.sched.procs)[p], s.sched.procs[p].pgdir.value);
    assert L.InUse(Cores(s.sched.procs), s.sched.procs[p].pgdir.value);
  }

  // ------------------------------------------------------------ no starvation

  predicate Queued(s: Sys, p: nat) {
    p < |s.sched.procs| && s.sched.procs[p].state == Runnable
  }

  /** The process is passed over all along the run. */
  predicate PassedOver(s: Sys, vs: seq<Step>, p: nat)
    requires Possible(s, vs)
    decreases |vs|
  {
    Queued(s, p) && (vs == [] || PassedOver(Apply(s, vs[0]), vs[1..], p))
  }

  predicate IsPass(s: Sys, v: Step) {
    v.Tick? && (v.now - s.aged) % UINT >= AGING_INTERVAL
  }

  predicate TakesFrom(s: Sys, v: Step, c: nat) {
    v.Pick? && Shape(s.sched) && v.cpu < |s.sched.queues| && Source(s.sched, v.cpu) == Some(c)
  }

  /** Aging passes in a run, and picks from CPU `c`. */
  function Passes(s: Sys, vs: seq<Step>): nat
    requires Possible(s, vs)
    decreases |vs|
  {
    if vs == [] then 0 else (if IsPass(s, vs[0]) then 1 else 0) + Passes(Apply(s, vs[0]), vs[1..])
  }

  function Takes(s: Sys, vs: seq<Step>, c: nat): nat
    requires Possible(s, vs)
    decreases |vs|
  {
    if vs == [] then 0 else (if TakesFrom(s, vs[0], c) then 1 else 0) + Takes(Apply(s, vs[0]), vs[1..], c)
  }

  /** A step that leaves a process queued. */
  lemma TurnStep(s: Sys, v: Step, p: nat)
    requires SysInv(s) && Enabled(s, v) && Queued(s, p) && Queued(Apply(s, v), p)
    ensures var x, y := s.sched.procs[p], Apply(s, v).sched.procs[p];
            if IsPass(s, v) then y == Aged(x, (v.now - s.aged) % UINT) else SameTurn(x, y)
  {
    if v.Tick? {
      InvProc(s.sched, p);
      AgeProc(s.sched, |s.sched.queues|, (v.now - s.aged) % UINT, p);
    } else if v.Pick? {
      hide L.Inv;
      DispatchKeeps(s.sched, v.cpu);
    } else {
      hide Apply, Enabled, L.Inv, Inv;
      StepSteady(s, v);
    }
  }

  lemma {:induction false} RemainingFalls(s: Sys, vs: seq<Step>, p: nat)
    requires SysInv(s) && Possible(s, vs) && PassedOver(s, vs, p)
    ensures Queued(Run(s, vs), p)
    ensures var k := Remaining(Run(s, vs).sched.procs[p]);
            k == 0 || k + Passes(s, vs) <= Remaining(s.sched.procs[p])
    ensures Remaining(s.sched.procs[p]) == 0 ==> Remaining(Run(s, vs).sched.procs[p]) == 0
    decreases |vs|
  {
    hide SysInv, Apply, Enabled, Remaining, Aged, IsPass;
    if vs != [] {
      var t := Apply(s, vs[0]);
      StepKeeps(s, vs[0]);
      TurnRemaining(s, vs[0], p);
      RemainingFalls(t, vs[1..], p);
    }
  }

  lemma TurnRemaining(s: Sys, v: Step, p: nat)
    requires SysInv(s) && Enabled(s, v) && Queued(s, p) && Queued(Apply(s, v), p)
    ensures var a, b := Remaining(s.sched.procs[p]), Remaining(Apply(s, v).sched.procs[p]);
            b <= a && (IsPass(s, v) && a > 0 ==> b < a)
  {
    hide Apply, Enabled, SysInv;
    TurnStep(s, v, p);
    SchedInv(s);
    InvProc(s.sched, p);
    if IsPass(s, v) {
      AgedCloser(s.sched.procs[p], (v.now - s.aged) % UINT, |s.sched.queues|);
    }
  }

  /** After as many aging passes as its level times AGING_TICKS / AGING_INTERVAL, a process that
      is still passed over is at level 0. */
  lemma ReachesTop(s: Sys, vs: seq<Step>, p: nat)
    requires SysInv(s) && Possible(s, vs) && PassedOver(s, vs, p)
    requires Passes(s, vs) >= s.sched.procs[p].prio * PASSES
    ensures Queued(Run(s, vs), p) && Run(s, vs).sched.procs[p].prio == 0
  {
    hide Passes, Run, SysInv, Apply, Enabled;
    RemainingFalls(s, vs, p);
    RunKeeps(s, vs);
    SchedInv(s);
    SchedInv(Run(s, vs));
    InvProc(s.sched, p);
    InvProc(Run(s, vs).sched, p);
    RemainingAtMost(s.sched.procs[p], |s.sched.queues|);
    RemainingAtMost(Run(s, vs).sched.procs[p], |Run(s, vs).sched.queues|);
  }

  lemma SchedInv(s: Sys)
    requires SysInv(s)
    ensures Inv(s.sched)
  {
  }

  lemma AheadExtends(s: Sched, t: Sched, p: nat)
    requires Inv(s) && Steady(s, t) && p < |s.procs| && s.procs[p].state == Runnable
    ensures t.procs[p].state == Runnable && Ahead(t, p) == Ahead(s, p)
  {
    var c, l := s.procs[p].rqcpu, s.procs[p].prio;
    assert Lists(s.procs, s.queues[c][l], c, l) && Lists(t.procs, t.queues[c][l], c, l);
    var i := Index(s.queues[c][l], p);
    assert t.queues[c][l][i] == p;
    IndexIs(t.queues[c][l], p, i);
  }

  /** Taking the head of another queue, or the head of the same one. */
  lemma AheadTake(s: Sched, c: nat, l: nat, self: nat, p: nat)
    requires Inv(s) && c < |s.queues| && l < NPRIO && s.queues[c][l] != [] && self < |s.queues|
    requires p < |s.procs| && s.procs[p].state == Runnable && p != s.queues[c][l][0]
    ensures s.queues[c][l][0] < |s.procs|
    ensures var t := Take(s, c, l, self);
            && Inv(t) && t.procs[p] == s.procs[p]
            && Ahead(t, p) + (if c == s.procs[p].rqcpu && l == s.procs[p].prio then 1 else 0) == Ahead(s, p)
  {
    TakeKeeps(s, c, l, self);
    var t := Take(s, c, l, self);
    var d, m := s.procs[p].rqcpu, s.procs[p].prio;
    var q := s.queues[d][m];
    assert Lists(s.procs, q, d, m) && Lists(t.procs, t.queues[d][m], d, m);
    var i := Index(q, p);
    if c == d && l == m {
      assert t.queues[d][m] == q[1..] && q[1..][i - 1] == p;
      IndexIs(q[1..], p, i - 1);
    } else {
      assert t.queues[d][m] == q;
    }
  }

  lemma AheadPick(s: Sys, cpu: nat, p: nat)
    requires Inv(s.sched) && Enabled(s, Pick(cpu)) && Queued(s, p) && Queued(Apply(s, Pick(cpu)), p) && s.sched.procs[p].prio == 0
    ensures Inv(Apply(s, Pick(cpu)).sched)
    ensures Ahead(Apply(s, Pick(cpu)).sched, p) + (if TakesFrom(s, Pick(cpu), s.sched.procs[p].rqcpu) then 1 else 0) <= Ahead(s.sched, p)
  {
    var src := Source(s.sched, cpu);
    if src.Some? {
      var c, d := src.value, s.sched.procs[p].rqcpu;
      if c == d {
        assert Lists(s.sched.procs, s.sched.queues[d][0], d, 0);
        assert s.sched.queues[d][0] != [];
      }
      var l := FirstLevel(s.sched, c, 0);
      if l.Some? {
        TakeKeeps(s.sched, c, l.value, cpu);
        assert s.sched.queues[c][l.value][0] != p;
        AheadTake(s.sched, c, l.value, cpu, p);
      }
    }
  }

  lemma AheadStep(s: Sys, v: Step, p: nat)
    requires SysInv(s) && Enabled(s, v) && Queued(s, p) && Queued(Apply(s, v), p) && s.sched.procs[p].prio == 0
    ensures Inv(s.sched) && Inv(Apply(s, v).sched)
    ensures Ahead(Apply(s, v).sched, p) + (if TakesFrom(s, v, s.sched.procs[p].rqcpu) then 1 else 0) <= Ahead(s.sched, p)
    ensures Apply(s, v).sched.procs[p].prio == 0 && Apply(s, v).sched.procs[p].rqcpu == s.sched.procs[p].rqcpu
  {
    hide L.Inv, Inv, Ahead;
    StepKeeps(s, v);
    TurnStep(s, v, p);
    if v.Tick? {
      var e := (v.now - s.aged) % UINT;
      AgeAhead(s.sched, e, p);
    } else if v.Pick? {
      AheadPick(s, v.cpu, p);
    } else {
      StepSteady(s, v);
      AheadExtends(s.sched, Apply(s, v).sched, p);
    }
  }

  /** At level 0 the number ahead of a process never grows and falls with every pick from its
      CPU. */
  lemma {:induction false} DrainsAway(s: Sys, vs: seq<Step>, p: nat)
    requires SysInv(s) && Possible(s, vs) && PassedOver(s, vs, p) && s.sched.procs[p].prio == 0
    ensures Inv(s.sched) && Inv(Run(s, vs).sched) && Queued(Run(s, vs), p)
    ensures Ahead(Run(s, vs).sched, p) + Takes(s, vs, s.sched.procs[p].rqcpu) <= Ahead(s.sched, p)
    decreases |vs|
  {
    hide SysInv, Apply, Enabled, Ahead, TakesFrom;
    SchedInv(s);
    if vs != [] {
      var t := Apply(s, vs[0]);
      StepKeeps(s, vs[0]);
      AheadStep(s, vs[0], p);
      DrainsAway(t, vs[1..], p);
    }
  }

  /** No starvation: once the aging passes of ReachesTop have gone by, fewer picks from its CPU
      than there are processes can pass a queued process over. */
  lemma NoStarvation(s: Sys, us: seq<Step>, ws: seq<Step>, p: nat)
    requires SysInv(s) && Possible(s, us) && PassedOver(s, us, p)
    requires Passes(s, us) >= s.sched.procs[p].prio * PASSES
    requires Possible(Run(s, us), ws) && PassedOver(Run(s, us), ws, p)
    ensures Takes(Run(s, us), ws, Run(s, us).sched.procs[p].rqcpu) < |Run(s, us).sched.procs|
  {
    var t := Run(s, us);
    ReachesTop(s, us, p);
    RunKeeps(s, us);
    DrainsAway(t, ws, p);
    AheadBound(t.sched, p);
  }

  lemma AheadBound(s: Sched, p: nat)
    requires Inv(s) && p < |s.procs| && s.procs[p].state == Runnable
    ensures Ahead(s, p) < |s.procs|
  {
    var c, l := s.procs[p].rqcpu, s.procs[p].prio;
    var q := s.queues[c][l];
    assert Lists(s.procs, q, c, l);
    assert forall i :: 0 <= i < |q| ==> q[i] in q;
    DistinctBound(q, |s.procs|);
  }

  // ------------------------------------------------------------ an idle CPU

  lemma {:induction false} LoadParts(qs: seq<seq<nat>>, l: nat)
    requires l < |qs|
    ensures |qs[l]| <= Load(qs)
    ensures forall m :: l < m < |qs| ==> |qs[l]| + |qs[m]| <= Load(qs)
  {
    if l > 0 {
      LoadParts(qs[1..], l - 1);
      assert forall m :: l < m < |qs| ==> qs[m] == qs[1..][m - 1];
    } else {
      forall m | 0 < m < |qs| ensures |qs[m]| <= Load(qs[1..]) {
        LoadParts(qs[1..], m - 1);
      }
    }
  }

  lemma LoadTwo(s: Sched, p: nat, q: nat)
    requires Inv(s) && p < |s.procs| && q < |s.procs| && p != q
    requires s.procs[p].state == Runnable && s.procs[q].state == Runnable && s.procs[p].rqcpu == s.procs[q].rqcpu
    requires s.procs[p].prio <= s.procs[q].prio
    ensures Load(s.queues[s.procs[p].rqcpu]) >= 2
  {
    var c, l, m := s.procs[p].rqcpu, s.procs[p].prio, s.procs[q].prio;
    assert Lists(s.procs, s.queues[c][l], c, l) && Lists(s.procs, s.queues[c][m], c, m);
    LoadParts(s.queues[c], l);
    if l == m {
      var i, j := Index(s.queues[c][l], p), Index(s.queues[c][l], q);
      assert i != j;
    }
  }

  ghost function RunnableSet(s: Sched): set<nat> {
    set p: nat | p < |s.procs| && s.procs[p].state == Runnable
  }

  function Below(n: nat): (r: set<nat>)
    ensures |r| == n && forall c :: c in r <==> 0 <= c < n
  {
    if n == 0 then {} else Below(n - 1) + {n - 1}
  }

  ghost function CpusOf(procs: seq<Proc>, r: set<nat>): set<nat>
    requires forall p :: p in r ==> p < |procs|
  {
    set p | p in r :: procs[p].rqcpu
  }

  lemma {:induction false} OneEach(procs: seq<Proc>, r: set<nat>)
    requires forall p :: p in r ==> p < |procs|
    requires forall p, q :: p in r && q in r && p != q ==> procs[p].rqcpu != procs[q].rqcpu
    ensures |CpusOf(procs, r)| == |r|
  {
    if r != {} {
      var p :| p in r;
      OneEach(procs, r - {p});
      assert CpusOf(procs, r) == CpusOf(procs, r - {p}) + {procs[p].rqcpu};
    }
  }

  lemma {:induction false} Fewer(a: set<nat>, b: set<nat>)
    requires a <= b
    ensures |a| <= |b|
  {
    if a != {} {
      var x :| x in a;
      Fewer(a - {x}, b - {x});
    }
  }

  /** A CPU that finds nothing to run leaves at most one process on each of the others. */
  lemma IdleMeansFew(s: Sched, self: nat)
    requires Inv(s) && self < |s.queues|
    ensures forall c, l :: 0 <= c < |s.queues| && 0 <= l < NPRIO && s.queues[c][l] != [] ==> s.queues[c][l][0] < |s.procs|
    ensures Dispatch(s, self).1.None? ==> |RunnableSet(s)| < |s.queues|
  {
    HeadsOk(s);
    if Dispatch(s, self).1.None? {
      IdleLoads(s, self);
      var r := RunnableSet(s);
      forall p: nat, q: nat | p in r && q in r && p != q ensures s.procs[p].rqcpu != s.procs[q].rqcpu {
        if s.procs[p].rqcpu == s.procs[q].rqcpu {
          if s.procs[p].prio <= s.procs[q].prio { LoadTwo(s, p, q); } else { LoadTwo(s, q, p); }
        }
      }
      OneEach(s.procs, r);
      forall c | c in CpusOf(s.procs, r) ensures c in Below(|s.queues|) - {self} {
        var p :| p in r && s.procs[p].rqcpu == c;
        assert Lists(s.procs, s.queues[c][s.procs[p].prio], c, s.procs[p].prio);
        assert p in s.queues[c][s.procs[p].prio];
      }
      Fewer(CpusOf(s.procs, r), Below(|s.queues|) - {self});
    }
  }

  lemma IdleLoads(s: Sched, self: nat)
    requires Shape(s) && self < |s.queues|
    requires forall c, l :: 0 <= c < |s.queues| && 0 <= l < NPRIO && s.queues[c][l] != [] ==> s.queues[c][l][0] < |s.procs|
    requires Dispatch(s, self).1.None?
    ensures forall l :: 0 <= l < NPRIO ==> s.queues[self][l] == []
    ensures forall c :: 0 <= c < |s.queues| ==> Load(s.queues[c]) <= 1
  {
    NoLoad(s.queues[self]);
    var v := Victim(s, self, |s.queues|);
    if v.Some? {
      if FirstLevel(s, v.value, 0).None? { NoLoad(s.queues[v.value]); }
    }
  }
}
