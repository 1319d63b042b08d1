/** The process table as a whole: every critical section of proc.c that changes it, as a step that
    any process or CPU may take at any time. */
module ProcTable {
  import opened Params
  import opened Options
  import opened Scheduler
  import opened Aging
  import L = Lifetimes

  datatype Sys = Sys(sched: Sched, init: nat, nextpid: nat, dirs: set<nat>, nextdir: nat, aged: nat)

  datatype Step =
    | Tick(now: nat)
    | Pick(cpu: nat)
    | Timer(p: nat, cpu: nat)
    | Yield(p: nat, cpu: nat)
    | Sleep(p: nat, chan: Chan)
    | Wakeup(chan: Chan, limit: nat)
    | Kill(pid: int)
    | SetPriority(p: nat, prio: int)
    | StartFork(p: nat, kstack: bool)
    | StartClone(p: nat, kstack: bool)
    | Adopt(p: nat, ok: bool)
    | Launch(p: nat)
    | Exit(p: nat)
    | Wait(p: nat)
    | Join(p: nat)
    | StartExec(p: nat)
    | NewImage(p: nat)
    | FailExec(p: nat)
    | DoneExec(p: nat)

  // ------------------------------------------------------------ table scans

  /** pgdir_users over the first `k` slots. */
  function UsersTo(procs: seq<Proc>, d: Option<nat>, k: nat): nat
    requires k <= |procs|
  {
    if d.None? || k == 0 then 0
    else UsersTo(procs, d, k - 1) + if procs[k - 1].state != Unused && procs[k - 1].pgdir == d then 1 else 0
  }

  function FirstUnused(procs: seq<Proc>, k: nat): (r: Option<nat>)
    requires k <= |procs|
    ensures r.Some? ==> k <= r.value < |procs| && procs[r.value].state == Unused
    ensures forall q :: k <= q < (if r.Some? then r.value else |procs|) ==> procs[q].state != Unused
    decreases |procs| - k
  {
    if k == |procs| then None else if procs[k].state == Unused then Some(k) else FirstUnused(procs, k + 1)
  }

  predicate ChildOf(x: Proc, p: nat, threads: bool) {
    x.parent == Some(p) && (threads ==> x.thread)
  }

  /** The first exited child that wait, or with `threads` join, finds. */
  function FirstZombie(procs: seq<Proc>, p: nat, threads: bool, k: nat): (r: Option<nat>)
    requires k <= |procs|
    ensures r.Some? ==> k <= r.value < |procs| && procs[r.value].state == Zombie && ChildOf(procs[r.value], p, threads)
    ensures forall q :: k <= q < (if r.Some? then r.value else |procs|) ==>
              !(procs[q].parent == Some(p) && (threads ==> procs[q].thread) && procs[q].state == Zombie)
    decreases |procs| - k
  {
    if k == |procs| then None
    else if ChildOf(procs[k], p, threads) && procs[k].state == Zombie then Some(k)
    else FirstZombie(procs, p, threads, k + 1)
  }

  predicate HasChild(procs: seq<Proc>, p: nat, threads: bool) {
    exists i :: 0 <= i < |procs| && ChildOf(procs[i], p, threads)
  }

  function FindPid(procs: seq<Proc>, pid: int, k: nat): (r: Option<nat>)
    requires k <= |procs|
    ensures r.Some? ==> k <= r.value < |procs| && procs[r.value].pid == pid
    ensures forall q :: k <= q < (if r.Some? then r.value else |procs|) ==> procs[q].pid != pid
    decreases |procs| - k
  {
    if k == |procs| then None else if procs[k].pid == pid then Some(k) else FindPid(procs, pid, k + 1)
  }

  // ------------------------------------------------------------ waking

  predicate Ok(s: Sched) {
    Shape(s) && forall p :: 0 <= p < |s.procs| ==> ProcOk(s.procs[p], |s.queues|)
  }

  predicate Wakes(x: Proc, chan: Chan) {
    x.state == Sleeping && x.chan == chan
  }

  /** wakeup1, or with a positive `limit` the loop of futex_wake, over the first `k` slots. */
  function WakeTo(s: Sched, chan: Chan, limit: nat, k: nat): (r: (Sched, nat))
    requires Ok(s) && k <= |s.procs|
    ensures Ok(r.0) && |r.0.procs| == |s.procs| && |r.0.queues| == |s.queues|
  {
    if k == 0 then (s, 0)
    else
      var (t, n) := WakeTo(s, chan, limit, k - 1);
      if !(limit > 0 && n >= limit) && Wakes(t.procs[k - 1], chan) then (Enqueue(t, k - 1, t.procs[k - 1].rqcpu), n + 1) else (t, n)
  }

  /** Each slot is woken in its turn or left alone. */
  lemma {:induction false} WakeProc(s: Sched, chan: Chan, limit: nat, k: nat, p: nat)
    requires Ok(s) && k <= |s.procs| && p < |s.procs|
    ensures var x := WakeTo(s, chan, limit, k).0.procs[p];
            x == s.procs[p] || (p < k && Wakes(s.procs[p], chan) && x == s.procs[p].(state := Runnable))
    ensures limit == 0 && p < k ==> !Wakes(WakeTo(s, chan, limit, k).0.procs[p], chan)
  {
    hide Ok;
    if k > 0 {
      WakeProc(s, chan, limit, k - 1, p);
      WakeProc(s, chan, limit, k - 1, k - 1);
      OkProc(WakeTo(s, chan, limit, k - 1).0, k - 1);
    }
  }

  lemma OkProc(s: Sched, p: nat)
    requires Ok(s) && p < |s.procs|
    ensures Shape(s) && ProcOk(s.procs[p], |s.queues|)
  {
  }

  function WakeAll(s: Sched, chan: Chan): (t: Sched)
    requires Ok(s)
    ensures Ok(t) && |t.procs| == |s.procs| && |t.queues| == |s.queues|
  {
    WakeTo(s, chan, 0, |s.procs|).0
  }

  // ------------------------------------------------------------ the steps on the table

  function EmbryoOf(x: Proc, pid: nat): Proc {
    x.(state := Embryo, pid := pid, pgdir := None, thread := false, base := NPRIO / 2, prio := NPRIO / 2,
       slice := Quantum(NPRIO / 2), waited := 0, rqcpu := 0, doing := Free)
  }

  function Reaped(x: Proc): Proc {
    x.(state := Unused, pid := 0, parent := None, killed := false, thread := false, pgdir := None, doing := Free)
  }

  /** allocproc for a child of `p`; without memory for a kernel stack the slot is given back. */
  function AllocChild(s: Sys, p: nat, kstack: bool, shared: bool): Sys
    requires p < |s.sched.procs|
  {
    var r := FirstUnused(s.sched.procs, 0);
    if r.None? then s
    else
      var x := EmbryoOf(s.sched.procs[r.value], s.nextpid);
      var t := SetProc(s.sched, r.value, if kstack then x else x.(state := Unused));
      s.(nextpid := s.nextpid + 1,
         sched := if kstack then SetProc(t, p, t.procs[p].(doing := Child(r.value, shared))) else t)
  }

  /** What fork or clone puts into the embryo before making it runnable. */
  function AdoptChild(s: Sys, p: nat, ok: bool): Sys
    requires p < |s.sched.procs| && s.sched.procs[p].doing.Child? && s.sched.procs[p].doing.slot < |s.sched.procs|
  {
    var x := s.sched.procs[p];
    var np := x.doing.slot;
    var y := s.sched.procs[np];
    if x.doing.shared then
      s.(sched := SetProc(SetProc(s.sched, np, y.(parent := Some(p), thread := true, pgdir := x.pgdir, base := x.base, prio := x.base)),
                          p, x.(doing := Ready(np))))
    else if ok then
      s.(sched := SetProc(SetProc(s.sched, np, y.(parent := Some(p), pgdir := Some(s.nextdir), base := x.base, prio := x.base)),
                          p, x.(doing := Ready(np))),
         dirs := s.dirs + {s.nextdir}, nextdir := s.nextdir + 1)
    else
      s.(sched := SetProc(SetProc(s.sched, np, y.(state := Unused)), p, x.(doing := Free)))
  }

  function LaunchChild(s: Sched, p: nat): Sched
    requires Ok(s) && p < |s.procs| && s.procs[p].doing.Ready? && s.procs[p].doing.slot < |s.procs|
  {
    var np := s.procs[p].doing.slot;
    var t := SetProc(s, p, s.procs[p].(doing := Free));
    Enqueue(t, np, LeastLoaded(t, |t.queues|))
  }

  /** exit's pass over the first `k` slots: children go to init, which hears of dead ones. */
  function ReparentTo(s: Sched, p: nat, init: nat, k: nat): (t: Sched)
    requires Ok(s) && k <= |s.procs|
    ensures Ok(t) && |t.procs| == |s.procs| && |t.queues| == |s.queues|
  {
    if k == 0 then s
    else
      var t := ReparentTo(s, p, init, k - 1);
      if t.procs[k - 1].parent != Some(p) then t
      else
        var u := SetProc(t, k - 1, t.procs[k - 1].(parent := Some(init)));
        if u.procs[k - 1].state == Zombie then WakeAll(u, OfProc(init)) else u
  }

  function ExitProc(s: Sched, p: nat, init: nat): Sched
    requires Ok(s) && p < |s.procs|
  {
    var t := if s.procs[p].parent.Some? then WakeAll(s, OfProc(s.procs[p].parent.value)) else WakeAll(s, Nothing);
    var u := ReparentTo(t, p, init, |s.procs|);
    SetProc(u, p, u.procs[p].(state := Zombie))
  }

  /** One turn of the loop of wait (or join): reap, give up, or sleep. */
  function WaitOnce(s: Sys, p: nat, threads: bool): Sys
    requires p < |s.sched.procs|
  {
    var procs := s.sched.procs;
    var z := FirstZombie(procs, p, threads, 0);
    if z.Some? then
      var d := procs[z.value].pgdir;
      s.(sched := SetProc(s.sched, z.value, Reaped(procs[z.value])),
         dirs := if !threads && d.Some? && UsersTo(procs, d, |procs|) == 1 then s.dirs - {d.value} else s.dirs)
    else if !HasChild(procs, p, threads) || procs[p].killed then s
    else s.(sched := SleepOn(s.sched, p, OfProc(p)))
  }

  function SleepOn(s: Sched, p: nat, chan: Chan): Sched
    requires p < |s.procs|
  {
    SetProc(s, p, s.procs[p].(chan := chan, state := Sleeping))
  }

  function KillPid(s: Sched, pid: int): Sched
    requires Ok(s)
  {
    var r := FindPid(s.procs, pid, 0);
    if r.None? then s
    else
      var t := SetProc(s, r.value, s.procs[r.value].(killed := true));
      if t.procs[r.value].state == Sleeping then Enqueue(t, r.value, t.procs[r.value].rqcpu) else t
  }

  /** A timer interrupt on CPU `cpu`, where `p` runs: it gives up the CPU when its slice is used up. */
  function Charge(s: Sched, p: nat, cpu: nat): Sched
    requires Ok(s) && p < |s.procs| && cpu < |s.queues|
  {
    var x := s.procs[p];
    if x.slice <= 1 then Enqueue(SetProc(s, p, x.(slice := 0)), p, cpu) else SetProc(s, p, x.(slice := x.slice - 1))
  }

  function TickAt(s: Sys, now: nat): Sys
    requires Shape(s.sched)
  {
    var elapsed := (now - s.aged) % UINT;
    if elapsed < AGING_INTERVAL then s else s.(aged := now, sched := Age(s.sched, elapsed))
  }

  // ------------------------------------------------------------ runs

  predicate May(s: Sys, p: nat, doing: Doing) {
    p < |s.sched.procs| && s.sched.procs[p].state == Running && s.sched.procs[p].doing == doing
  }

  predicate Making(s: Sys, p: nat) {
    p < |s.sched.procs| && s.sched.procs[p].state == Running &&
    (s.sched.procs[p].doing.Child? || s.sched.procs[p].doing.Ready?) && s.sched.procs[p].doing.slot < |s.sched.procs|
  }

  predicate Enabled(s: Sys, v: Step) {
    && Ok(s.sched)
    && (match v
        case Tick(now) => now < UINT
        case Pick(cpu) =>
          cpu < |s.sched.queues| &&
          forall c, l :: 0 <= c < |s.sched.queues| && 0 <= l < NPRIO && s.sched.queues[c][l] != [] ==> s.sched.queues[c][l][0] < |s.sched.procs|
        case Timer(p, cpu) => p < |s.sched.procs| && s.sched.procs[p].state == Running && cpu < |s.sched.queues|
        case Yield(p, cpu) => p < |s.sched.procs| && s.sched.procs[p].state == Running && cpu < |s.sched.queues|
        case Sleep(p, _) => p < |s.sched.procs| && s.sched.procs[p].state == Running
        case Wakeup(_, _) => true
        case Kill(_) => true
        case SetPriority(p, _) => May(s, p, Free)
        case StartFork(p, _) => May(s, p, Free)
        case StartClone(p, _) => May(s, p, Free)
        case Adopt(p, _) => Making(s, p) && s.sched.procs[p].doing.Child?
        case Launch(p) => Making(s, p) && s.sched.procs[p].doing.Ready?
        case Exit(p) => May(s, p, Free) && p != s.init && s.init < |s.sched.procs|
        case Wait(p) => May(s, p, Free)
        case Join(p) => May(s, p, Free) && p != s.init
        case StartExec(p) => May(s, p, Free)
        case NewImage(p) => May(s, p, Exec(None))
        case FailExec(p) => p < |s.sched.procs| && s.sched.procs[p].state == Running && s.sched.procs[p].doing.Exec?
        case DoneExec(p) => p < |s.sched.procs| && s.sched.procs[p].state == Running && s.sched.procs[p].doing.Exec? && s.sched.procs[p].doing.image.Some?)
  }

  function Apply(s: Sys, v: Step): Sys
    requires Enabled(s, v)
  {
    var procs := s.sched.procs;
    match v
    case Tick(now) => TickAt(s, now)
    case Pick(cpu) => s.(sched := Dispatch(s.sched, cpu).0)
    case Timer(p, cpu) => s.(sched := Charge(s.sched, p, cpu))
    case Yield(p, cpu) => s.(sched := Enqueue(s.sched, p, cpu))
    case Sleep(p, chan) => s.(sched := SleepOn(s.sched, p, chan))
    case Wakeup(chan, limit) => s.(sched := WakeTo(s.sched, chan, limit, |procs|).0)
    case Kill(pid) => s.(sched := KillPid(s.sched, pid))
    case SetPriority(p, prio) =>
      if prio < 0 || prio >= NPRIO then s
      else s.(sched := SetProc(s.sched, p, procs[p].(base := prio, prio := prio, slice := Quantum(prio))))
    case StartFork(p, kstack) => if UsersTo(procs, procs[p].pgdir, |procs|) > 1 then s else AllocChild(s, p, kstack, false)
    case StartClone(p, kstack) => AllocChild(s, p, kstack, true)
    case Adopt(p, ok) => AdoptChild(s, p, ok)
    case Launch(p) => s.(sched := LaunchChild(s.sched, p))
    case Exit(p) => s.(sched := ExitProc(s.sched, p, s.init))
    case Wait(p) => WaitOnce(s, p, false)
    case Join(p) => WaitOnce(s, p, true)
    case StartExec(p) =>
      if UsersTo(procs, procs[p].pgdir, |procs|) > 1 then s else s.(sched := SetProc(s.sched, p, procs[p].(doing := Exec(None))))
    case NewImage(p) =>
      s.(sched := SetProc(s.sched, p, procs[p].(doing := Exec(Some(s.nextdir)))), dirs := s.dirs + {s.nextdir}, nextdir := s.nextdir + 1)
    case FailExec(p) =>
      s.(sched := SetProc(s.sched, p, procs[p].(doing := Free)),
         dirs := s.dirs - L.Held(procs[p].doing.image))
    case DoneExec(p) =>
      s.(sched := SetProc(s.sched, p, procs[p].(pgdir := procs[p].doing.image, doing := Free)),
         dirs := s.dirs - L.Held(procs[p].pgdir))
  }
}
