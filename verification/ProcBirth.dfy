/** fork and clone as a whole: what the child is, whatever others do between their critical sections. */
module ProcBirth {
  import opened Params
  import opened Options
  import opened Scheduler
  import opened Aging
  import opened ProcTable
  import opened ProcRuns
  import opened ProcTheorem
  import opened ProcEffects
  import L = Lifetimes

  /** The slot that allocproc finds. */
  predicate FirstFree(procs: seq<Proc>, np: nat) {
    np < |procs| && procs[np].state == Unused && forall q :: 0 <= q < np ==> procs[q].state != Unused
  }

  predicate FullTable(procs: seq<Proc>) {
    forall q :: 0 <= q < |procs| ==> procs[q].state != Unused
  }

  /** Somebody else uses the page directory of `p`. */
  predicate Shared(procs: seq<Proc>, p: nat)
    requires p < |procs|
  {
    exists q :: 0 <= q < |procs| && q != p && procs[q].state != Unused && procs[q].pgdir == procs[p].pgdir
  }

  lemma SharedIs(s: Sys, p: nat)
    requires SysInv(s) && May(s, p, Free)
    ensures UsersTo(s.sched.procs, s.sched.procs[p].pgdir, |s.sched.procs|) > 1 <==> Shared(s.sched.procs, p)
  {
    var procs := s.sched.procs;
    CoreAt(s, p);
    UsersCount(procs, procs[p].pgdir.value, |procs|, p);
  }

  function StartOf(p: nat, kstack: bool, shared: bool): Step {
    if shared then StartClone(p, kstack) else StartFork(p, kstack)
  }

  // ------------------------------------------------------------ the three sections

  /** The first section refuses: fork a shared address space, both a full table. */
  lemma AllocRefused(s: Sys, p: nat, kstack: bool, shared: bool)
    requires SysInv(s) && Enabled(s, StartOf(p, kstack, shared)) && p < |s.sched.procs|
    requires (!shared && Shared(s.sched.procs, p)) || FullTable(s.sched.procs)
    ensures Apply(s, StartOf(p, kstack, shared)) == s
  {
    SharedIs(s, p);
    hide SysInv, UsersTo, FirstUnused, Ok, Shared;
  }

  /** Otherwise the first free slot becomes an embryo with the next id, or is given back, with the id, if
      there is no kernel stack. */
  lemma AllocExact(s: Sys, p: nat, kstack: bool, shared: bool, np: nat)
    requires SysInv(s) && Enabled(s, StartOf(p, kstack, shared)) && p < |s.sched.procs|
    requires FirstFree(s.sched.procs, np) && (shared || !Shared(s.sched.procs, p))
    ensures np != p && s.sched.procs[p].state == Running
    ensures Allocated(s, Apply(s, StartOf(p, kstack, shared)), p, kstack, shared, np)
  {
    AllocIs(s, p, kstack, shared);
    ChildAllocated(s, p, kstack, shared, np);
  }

  predicate Allocated(s: Sys, t: Sys, p: nat, kstack: bool, shared: bool, np: nat)
    requires p < |s.sched.procs| && np < |s.sched.procs|
  {
    var procs := s.sched.procs;
    var x := procs[np].(state := if kstack then Embryo else Unused, pid := s.nextpid, pgdir := None, thread := false,
                        base := NPRIO / 2, prio := NPRIO / 2, slice := QUANTUM_BASE * (NPRIO - NPRIO / 2), waited := 0, rqcpu := 0, doing := Free);
    && t.sched.procs == (if kstack then procs[np := x][p := procs[p].(doing := Child(np, shared))] else procs[np := x])
    && t == s.(nextpid := s.nextpid + 1, sched := s.sched.(procs := t.sched.procs))
  }

  lemma AllocIs(s: Sys, p: nat, kstack: bool, shared: bool)
    requires SysInv(s) && Enabled(s, StartOf(p, kstack, shared)) && p < |s.sched.procs| && (shared || !Shared(s.sched.procs, p))
    ensures s.sched.procs[p].state == Running && Apply(s, StartOf(p, kstack, shared)) == AllocChild(s, p, kstack, shared)
  {
    hide SysInv, UsersTo, Ok, Shared, AllocChild;
    SharedIs(s, p);
  }

  lemma ChildAllocated(s: Sys, p: nat, kstack: bool, shared: bool, np: nat)
    requires p < |s.sched.procs| && s.sched.procs[p].state == Running && FirstFree(s.sched.procs, np)
    ensures Allocated(s, AllocChild(s, p, kstack, shared), p, kstack, shared, np)
  {
    hide FirstUnused;
    assert FirstUnused(s.sched.procs, 0) == Some(np);
  }

  /** The second section: the child takes its parent's base priority, and a directory of its own or, as a
      thread, the parent's. */
  lemma AdoptExact(s: Sys, p: nat, ok: bool)
    requires SysInv(s) && Enabled(s, Adopt(p, ok))
    ensures var procs, t := s.sched.procs, Apply(s, Adopt(p, ok)).sched.procs; var x := procs[p]; var np := x.doing.slot;
            && np != p
            && t == if x.doing.shared then
                      procs[np := procs[np].(parent := Some(p), thread := true, pgdir := x.pgdir, base := x.base, prio := x.base)][p := x.(doing := Ready(np))]
                    else if ok then
                      procs[np := procs[np].(parent := Some(p), pgdir := Some(s.nextdir), base := x.base, prio := x.base)][p := x.(doing := Ready(np))]
                    else procs[np := procs[np].(state := Unused)][p := x.(doing := Free)]
  {
    CoreAt(s, p);
    hide SysInv, Ok;
  }

  /** The last section: the child joins the back of its level on the first CPU with the fewest queued. */
  lemma LaunchExact(s: Sys, p: nat)
    requires SysInv(s) && Enabled(s, Launch(p))
    ensures var procs, qs, t := s.sched.procs, s.sched.queues, Apply(s, Launch(p)).sched; var np := procs[p].doing.slot;
            exists c: nat :: c < |qs| && procs[np].prio < |qs[c]|
              && (forall d :: 0 <= d < |qs| ==> Load(qs[c]) <= Load(qs[d]) && (d < c ==> Load(qs[c]) < Load(qs[d])))
              && t.procs == procs[np := procs[np].(state := Runnable, rqcpu := c)][p := procs[p].(doing := Free)]
              && t.queues == qs[c := qs[c][procs[np].prio := qs[c][procs[np].prio] + [np]]]
  {
    CoreAt(s, p);
    hide SysInv, LeastLoaded, Load;
    var a := SetProc(s.sched, p, s.sched.procs[p].(doing := Free));
    var c := LeastLoaded(a, |a.queues|);
    assert a.queues == s.sched.queues;
    assert c < |s.sched.queues|;
  }

  // ------------------------------------------------------------ between the sections

  /** Steps of `p` itself that go on with the making of a child. */
  predicate GoesOn(v: Step, p: nat) {
    (v.Adopt? || v.Launch?) && v.p == p
  }

  predicate Live(x: Proc) {
    x.state in {Sleeping, Runnable, Running}
  }

  predicate Makes(s: Sys, p: nat) {
    && p < |s.sched.procs| && Live(s.sched.procs[p])
    && (s.sched.procs[p].doing.Child? || s.sched.procs[p].doing.Ready?) && s.sched.procs[p].doing.slot < |s.sched.procs|
  }

  /** The maker and its embryo are left alone, but for kill. */
  ghost predicate Alone(s: Sys, t: Sys, p: nat)
    requires Makes(s, p)
  {
    var np := s.sched.procs[p].doing.slot;
    && |t.sched.procs| == |s.sched.procs| && Makes(t, p)
    && t.sched.procs[p].doing == s.sched.procs[p].doing && t.sched.procs[p].base == s.sched.procs[p].base && t.sched.procs[p].pgdir == s.sched.procs[p].pgdir
    && s.sched.procs[np].state == Embryo && t.sched.procs[np] == s.sched.procs[np].(killed := t.sched.procs[np].killed)
  }

  /** What the invariant says about a maker, its embryo and other makers. */
  lemma MakerFacts(s: Sys, p: nat)
    requires SysInv(s) && Makes(s, p)
    ensures var x := s.sched.procs[p]; var np := x.doing.slot; var y := s.sched.procs[np];
            && np != p && y.state == Embryo && (if x.doing.Child? then y.parent.None? else y.parent == Some(p))
    ensures forall q: nat :: q != p && Makes(s, q) ==> s.sched.procs[q].doing.slot != s.sched.procs[p].doing.slot
  {
    var cs := Cores(s.sched.procs);
    CoreAt(s, p);
    assert L.Good(cs, s.init, p);
    forall q: nat | q != p && Makes(s, q) ensures s.sched.procs[q].doing.slot != s.sched.procs[p].doing.slot {
      assert L.Good(cs, s.init, q) && L.Apart(cs[p], cs[q]);
    }
  }

  /** The step is about the embryo: its maker goes on, or its parent exits. */
  predicate Concerns(s: Sys, v: Step, i: nat)
    requires i < |s.sched.procs|
  {
    || ((v.Adopt? || v.Launch?) && Makes(s, v.p) && s.sched.procs[v.p].doing.slot == i)
    || (v.Exit? && s.sched.procs[i].parent == Some(v.p))
  }

  ghost predicate LeftAlone(s: Sys, v: Step, i: nat)
    requires Enabled(s, v) && i < |s.sched.procs|
  {
    && |Apply(s, v).sched.procs| == |s.sched.procs|
    && var x, y := s.sched.procs[i], Apply(s, v).sched.procs[i];
    && (Live(x) && (x.doing.Child? || x.doing.Ready?) && !GoesOn(v, i) ==> Live(y) && y.doing == x.doing && y.base == x.base && y.pgdir == x.pgdir)
    && (x.state == Embryo && !Concerns(s, v, i) ==> y == x.(killed := y.killed))
  }

  lemma QuietAlone(s: Sys, v: Step, i: nat)
    requires Enabled(s, v) && i < |s.sched.procs|
    requires v.Timer? || v.Yield? || v.Sleep? || v.SetPriority? || v.StartExec? || v.NewImage? || v.FailExec? || v.DoneExec?
    ensures LeftAlone(s, v, i)
  {
    hide Ok, UsersTo, Concerns;
  }

  lemma TurnAlone(s: Sys, v: Step, i: nat)
    requires SysInv(s) && Enabled(s, v) && i < |s.sched.procs| && (v.Tick? || v.Pick?)
    ensures LeftAlone(s, v, i)
  {
    InvParts(s);
    hide Concerns;
    if v.Tick? {
      TickExact(s, v.now, i);
      hide TickAt, Inv, L.Inv;
    } else {
      PickExact(s.sched, v.cpu);
      hide Dispatch, Inv, L.Inv, BestOf, MostLoaded, Nobody;
    }
  }

  lemma WakeAlone(s: Sys, v: Step, i: nat)
    requires Enabled(s, v) && i < |s.sched.procs| && (v.Wakeup? || v.Kill?)
    ensures LeftAlone(s, v, i)
  {
    if v.Wakeup? {
      WakeExact(s.sched, v.chan, v.limit, |s.sched.procs|, i);
    } else {
      KillEffect(s.sched, v.pid, i);
    }
    hide Ok, WakeTo, FindPid, Concerns;
  }

  lemma ExitAlone(s: Sys, q: nat, i: nat)
    requires Enabled(s, Exit(q)) && i < |s.sched.procs|
    ensures LeftAlone(s, Exit(q), i)
  {
    hide Ok, ExitProc, DeadChildTo;
    ExitExact(s.sched, q, s.init, i);
  }

  lemma WaitAlone(s: Sys, v: Step, i: nat)
    requires Enabled(s, v) && i < |s.sched.procs| && (v.Wait? || v.Join?)
    ensures LeftAlone(s, v, i)
  {
    hide Ok, UsersTo, FirstZombie, HasChild, Concerns;
  }

  lemma AllocAlone(s: Sys, v: Step, i: nat)
    requires Enabled(s, v) && i < |s.sched.procs| && (v.StartFork? || v.StartClone?)
    ensures LeftAlone(s, v, i)
  {
    hide Ok, UsersTo, FirstUnused, Concerns;
  }

  lemma BirthAlone(s: Sys, v: Step, i: nat)
    requires SysInv(s) && Enabled(s, v) && i < |s.sched.procs| && (v.Adopt? || v.Launch?)
    ensures LeftAlone(s, v, i)
  {
    MakerFacts(s, v.p);
    hide SysInv, Ok, LeastLoaded;
  }

  lemma EachAlone(s: Sys, v: Step, i: nat)
    requires SysInv(s) && Enabled(s, v) && i < |s.sched.procs|
    ensures LeftAlone(s, v, i)
  {
    hide SysInv, Enabled, Apply, LeftAlone;
    if v.Tick? || v.Pick? {
      TurnAlone(s, v, i);
    } else if v.Wakeup? || v.Kill? {
      WakeAlone(s, v, i);
    } else if v.StartFork? || v.StartClone? {
      AllocAlone(s, v, i);
    } else if v.Adopt? || v.Launch? {
      BirthAlone(s, v, i);
    } else if v.Exit? {
      ExitAlone(s, v.p, i);
    } else if v.Wait? || v.Join? {
      WaitAlone(s, v, i);
    } else {
      QuietAlone(s, v, i);
    }
  }

  lemma StepAlone(s: Sys, v: Step, p: nat)
    requires SysInv(s) && Enabled(s, v) && Makes(s, p) && !GoesOn(v, p)
    ensures Alone(s, Apply(s, v), p)
  {
    MakerFacts(s, p);
    var np := s.sched.procs[p].doing.slot;
    assert !Concerns(s, v, np);
    hide SysInv, Enabled, Apply, Concerns;
    EachAlone(s, v, p);
    EachAlone(s, v, np);
  }

  /** Others run, and `p` itself may be preempted, but does not go on. */
  predicate Meanwhile(vs: seq<Step>, p: nat) {
    forall k :: 0 <= k < |vs| ==> !GoesOn(vs[k], p)
  }

  lemma {:induction false} RunAlone(s: Sys, vs: seq<Step>, p: nat)
    requires SysInv(s) && Possible(s, vs) && Makes(s, p) && Meanwhile(vs, p)
    ensures SysInv(Run(s, vs)) && Alone(s, Run(s, vs), p)
    decreases |vs|
  {
    hide SysInv, Enabled, Apply, GoesOn;
    if vs == [] {
      MakerFacts(s, p);
    } else {
      StepKeeps(s, vs[0]);
      StepAlone(s, vs[0], p);
      RunAlone(Apply(s, vs[0]), vs[1..], p);
    }
  }

  // ------------------------------------------------------------ the whole of fork and clone

  /** From `a` others, and preemptions of `p`, lead to `b`. */
  ghost predicate Leads(a: Sys, vs: seq<Step>, p: nat, b: Sys) {
    Possible(a, vs) && Meanwhile(vs, p) && Run(a, vs) == b
  }

  ghost predicate Steps(a: Sys, v: Step, b: Sys) {
    Enabled(a, v) && b == Apply(a, v)
  }

  /** A fork or clone by `p` into slot `np` that gets to its end; `us` and `ws` are what happens between
      its sections, by anybody. */
  ghost predicate Forks(s: Sys, a: Sys, us: seq<Step>, b: Sys, c: Sys, ws: seq<Step>, d: Sys, t: Sys, p: nat, shared: bool, np: nat) {
    && p < |s.sched.procs| && FirstFree(s.sched.procs, np) && (shared || !Shared(s.sched.procs, p))
    && Steps(s, StartOf(p, true, shared), a) && Leads(a, us, p, b)
    && Steps(b, Adopt(p, true), c) && Leads(c, ws, p, d) && Steps(d, Launch(p), t)
  }

  /** The child is a runnable process, or thread, of the next id and of its parent's base priority. */
  predicate IsChild(x: Proc, pid: nat, p: nat, parent: Proc, shared: bool, dir: nat) {
    && x.state == Runnable && x.pid == pid && x.parent == Some(p) && x.thread == shared && x.doing == Free
    && x.base == parent.base && x.prio == parent.base && x.slice == QUANTUM_BASE * (NPRIO - NPRIO / 2) && x.waited == 0
    && x.pgdir == if shared then parent.pgdir else Some(dir)
  }

  predicate LeastQueued(qs: seq<seq<seq<nat>>>, c: nat) {
    c < |qs| && forall k :: 0 <= k < |qs| ==> Load(qs[c]) <= Load(qs[k])
  }

  lemma ChildIs(s: Sys, a: Sys, us: seq<Step>, b: Sys, c: Sys, ws: seq<Step>, d: Sys, t: Sys, p: nat, shared: bool, np: nat)
    requires SysInv(s) && Forks(s, a, us, b, c, ws, d, t, p, shared, np)
    ensures |t.sched.procs| == |s.sched.procs| && p < |s.sched.procs| && np < |s.sched.procs| && t.sched.procs[p].doing == Free
    ensures IsChild(t.sched.procs[np], s.nextpid, p, s.sched.procs[p], shared, b.nextdir)
    ensures LeastQueued(d.sched.queues, t.sched.procs[np].rqcpu)
  {
    hide SysInv, Enabled, Apply, Possible, Run, Load, Meanwhile, Shared;
    AllocExact(s, p, true, shared, np);
    StepKeeps(s, StartOf(p, true, shared));
    assert Makes(a, p);
    RunAlone(a, us, p);
    AdoptExact(b, p, true);
    StepKeeps(b, Adopt(p, true));
    assert Makes(c, p);
    RunAlone(c, ws, p);
    LaunchExact(d, p);
  }
}
